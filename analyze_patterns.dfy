/** The pattern analyzer of scripts/analyze-patterns.cjs: it walks the TypeScript sources,
    classifies every line against an ordered rule table, adds one whole-file rule for API
    routes without Zod validation, groups the hits by rule and renders the summary as a
    Markdown rules file. The file system and the clock are parameters: a directory listing
    is an `Entry` tree, a file's text is an argument, the timestamp is a string. */
module AnalyzePatterns {
  import opened Wrappers
  import opened Strings
  import opened Paths
  import opened Seqs
  import opened Sorting
  import opened Grouping

  // ---------------------------------------------------------------- walking the tree

  /** Entry names the walk skips, whether they name a directory or a file. */
  const IGNORE_DIRS: set<string> := {"node_modules", ".git", ".next", "dist", "build", "coverage"}

  /** Extensions of the files that are analyzed. */
  const EXT_OK: set<string> := {".ts", ".tsx"}

  predicate IsOkFile(file: string) {
    ExtName(file) in EXT_OK
  }

  /** A file entry is accepted exactly when its name ends in `.ts` or `.tsx` with something
      in front of the extension. */
  lemma IsOkFileIff(dir: string, name: string)
    requires Free(name, '/')
    ensures IsOkFile(PathJoin(dir, name)) <==>
              (|name| > 3 && EndsWith(name, ".ts")) || (|name| > 4 && EndsWith(name, ".tsx"))
  {
    ExtNameIs(dir, name, ".ts");
    ExtNameIs(dir, name, ".tsx");
  }

  /** A directory entry as `readdirSync(dir, { withFileTypes: true })` reports it; a
      directory carries its own listing. Anything that is neither a regular file nor a
      directory (a symbolic link, a socket) is `OtherEntry`. */
  datatype Entry =
    | FileEntry(name: string)
    | DirEntry(name: string, children: seq<Entry>)
    | OtherEntry(name: string)

  /** The accepted files below `dir` listed as `es`, in listing order, depth first. */
  function WalkFiles(dir: string, es: seq<Entry>): seq<string>
    decreases es
  {
    if es == [] then []
    else WalkFiles(dir, es[..|es| - 1]) + EntryFiles(dir, es[|es| - 1])
  }

  function EntryFiles(dir: string, e: Entry): seq<string>
    decreases e
  {
    if e.name in IGNORE_DIRS then []
    else if e.DirEntry? then WalkFiles(PathJoin(dir, e.name), e.children)
    else if e.FileEntry? && IsOkFile(PathJoin(dir, e.name)) then [PathJoin(dir, e.name)]
    else []
  }

  /** `walk(dir, out)`: appends the accepted files below `dir` to `out`; `listing` is None
      when `dir` does not exist. */
  method Walk(dir: string, listing: Option<seq<Entry>>, out: seq<string>) returns (res: seq<string>)
    ensures listing.None? ==> res == out
    ensures listing.Some? ==> res == out + WalkFiles(dir, listing.value)
    decreases if listing.Some? then listing.value else []
  {
    if listing.None? {
      return out;
    }
    var ents := listing.value;
    res := out;
    for i := 0 to |ents|
      invariant res == out + WalkFiles(dir, ents[..i])
    {
      WalkStep(dir, ents, i);
      ConcatAssoc(out, WalkFiles(dir, ents[..i]), EntryFiles(dir, ents[i]));
      res := WalkEntry(dir, ents[i], res);
    }
    assert ents[..|ents|] == ents;
  }

  /** The body of the loop of `walk` for one entry: skip it, descend into it, or push it. */
  method WalkEntry(dir: string, ent: Entry, out: seq<string>) returns (res: seq<string>)
    ensures res == out + EntryFiles(dir, ent)
    decreases ent
  {
    res := out;
    if ent.name !in IGNORE_DIRS {
      var p := PathJoin(dir, ent.name);
      if ent.DirEntry? {
        res := Walk(p, Some(ent.children), res);
      } else if ent.FileEntry? && IsOkFile(p) {
        res := res + [p];
      }
    }
  }

  lemma WalkStep(dir: string, es: seq<Entry>, i: int)
    requires 0 <= i < |es|
    ensures WalkFiles(dir, es[..i + 1]) == WalkFiles(dir, es[..i]) + EntryFiles(dir, es[i])
  {
    assert es[..i + 1][..i] == es[..i];
  }

  lemma WalkSnoc(dir: string, p: seq<Entry>, x: Entry)
    ensures WalkFiles(dir, p + [x]) == WalkFiles(dir, p) + EntryFiles(dir, x)
  {
    assert (p + [x])[..|p|] == p;
  }

  lemma {:induction false} WalkFilesAppend(dir: string, a: seq<Entry>, b: seq<Entry>)
    ensures WalkFiles(dir, a + b) == WalkFiles(dir, a) + WalkFiles(dir, b)
    decreases |b|
  {
    if b == [] {
      assert a + b == a;
    } else {
      var b', x := b[..|b| - 1], b[|b| - 1];
      assert b == b' + [x];
      assert a + b == (a + b') + [x];
      WalkFilesAppend(dir, a, b');
      WalkSnoc(dir, a + b', x);
      WalkSnoc(dir, b', x);
      ConcatAssoc(WalkFiles(dir, a), WalkFiles(dir, b'), EntryFiles(dir, x));
    }
  }

  /** An entry with an ignored name contributes nothing: the walk neither descends into it
      nor emits it. */
  lemma WalkSkipsIgnored(dir: string, es: seq<Entry>, i: int)
    requires 0 <= i < |es| && es[i].name in IGNORE_DIRS
    ensures WalkFiles(dir, es) == WalkFiles(dir, es[..i] + es[i + 1..])
  {
    var a, x, b := es[..i], es[i], es[i + 1..];
    assert es == (a + [x]) + b;
    WalkFilesAppend(dir, a + [x], b);
    WalkSnoc(dir, a, x);
    assert EntryFiles(dir, x) == [];
    var wa := WalkFiles(dir, a);
    assert wa + [] == wa;
    WalkFilesAppend(dir, a, b);
  }

  /** Every emitted path is an accepted file lying below `dir`. */
  lemma {:induction false} WalkEmitsOkFiles(dir: string, es: seq<Entry>)
    ensures forall k :: 0 <= k < |WalkFiles(dir, es)| ==>
              IsOkFile(WalkFiles(dir, es)[k]) && StartsWith(WalkFiles(dir, es)[k], dir + "/")
    decreases es
  {
    if es != [] {
      WalkEmitsOkFiles(dir, es[..|es| - 1]);
      EntryEmitsOkFiles(dir, es[|es| - 1]);
    }
  }

  lemma {:induction false} EntryEmitsOkFiles(dir: string, e: Entry)
    ensures forall k :: 0 <= k < |EntryFiles(dir, e)| ==>
              IsOkFile(EntryFiles(dir, e)[k]) && StartsWith(EntryFiles(dir, e)[k], dir + "/")
    decreases e
  {
    if e.name !in IGNORE_DIRS && e.DirEntry? {
      var sub := PathJoin(dir, e.name);
      WalkEmitsOkFiles(sub, e.children);
      var fs := WalkFiles(sub, e.children);
      forall k | 0 <= k < |fs| ensures StartsWith(fs[k], dir + "/") {
        assert (sub + "/")[..|dir + "/"|] == dir + "/";
        assert fs[k][..|sub + "/"|] == sub + "/";
      }
    }
  }

  // ---------------------------------------------------------------- classifying lines

  /** A row of the rule table. Its regular expression is not modelled: whether it matches
      a string is the `matches` parameter of the operations below. A rule without a hint
      has hint "". */
  datatype Rule = Rule(category: string, id: string, hint: string)

  /** The rule table, in its order. */
  const PATTERNS: seq<Rule> := [
    Rule("security", "possible-secret", "Potential secret in code"),
    Rule("security", "zod", "Zod validation present"),
    Rule("security", "rate-limit", "Rate limiting referenced"),
    Rule("security", "csp-headers", "Security headers referenced"),
    Rule("security", "csrf", "CSRF mention"),
    Rule("ai-providers", "openai", ""),
    Rule("ai-providers", "anthropic", ""),
    Rule("ai-providers", "google-ai", ""),
    Rule("ai-providers", "xai", ""),
    Rule("ai-providers", "openrouter", ""),
    Rule("ai-providers", "ollama", ""),
    Rule("ai-providers", "mcp", ""),
    Rule("backend", "next-route", ""),
    Rule("backend", "drizzle", ""),
    Rule("backend", "redis", ""),
    Rule("frontend", "radix", ""),
    Rule("frontend", "shadcn", ""),
    Rule("frontend", "tiptap", ""),
    Rule("frontend", "zustand", "")
  ]

  /** The Zod rule; the whole-file Zod test uses the same regular expression. */
  const ZOD: Rule := PATTERNS[1]

  /** The rule that recognises an exported HTTP handler of a route file. */
  const NEXT_ROUTE: Rule := PATTERNS[12]

  /** A hit; `matchId` is the `match` field, the id of the rule that matched. */
  datatype Hit = Hit(file: string, line: nat, category: string, matchId: string, hint: string)

  function HitOf(file: string, n: nat, r: Rule): Hit {
    Hit(file, n, r.category, r.id, r.hint)
  }

  function RuleOfHit(h: Hit): Rule {
    Rule(h.category, h.matchId, h.hint)
  }

  /** The derived hit for a route file that never uses Zod. */
  function ApiWithoutZod(file: string): Hit {
    Hit(file, 1, "security", "api-without-zod",
        "API route exports HTTP method but no Zod validation detected in file")
  }

  /** Length and first two characters of an id: enough to tell the table's ids apart. */
  function IdSignature(id: string): (int, char, char) {
    if |id| < 2 then (|id|, ' ', ' ') else (|id|, id[0], id[1])
  }

  lemma PatternSignatures()
    ensures forall i, j :: 0 <= i < j < |PATTERNS| ==> IdSignature(PATTERNS[i].id) != IdSignature(PATTERNS[j].id)
  {
  }

  /** The ids of the table are distinct, so no two of its rules are equal; the route rule
      is the only one with its id, and no rule is the derived one. */
  lemma PatternsDistinct()
    ensures Distinct(PATTERNS)
    ensures NEXT_ROUTE in PATTERNS
    ensures forall j :: 0 <= j < |PATTERNS| && PATTERNS[j].id == NEXT_ROUTE.id ==> PATTERNS[j] == NEXT_ROUTE
    ensures forall j :: 0 <= j < |PATTERNS| ==> PATTERNS[j].id != "api-without-zod"
  {
    PatternSignatures();
    forall i, j | 0 <= i < j < |PATTERNS| ensures PATTERNS[i] != PATTERNS[j] {
      assert IdSignature(PATTERNS[i].id) != IdSignature(PATTERNS[j].id);
    }
    forall j | 0 <= j < |PATTERNS| ensures PATTERNS[j].id != "api-without-zod" {
      assert IdSignature(PATTERNS[j].id) != IdSignature("api-without-zod");
    }
  }

  /** The hits of line number `n`, whose text is `line`, for the rules `rules`, in rule
      order. */
  function RuleHits(file: string, n: nat, line: string, rules: seq<Rule>, matches: (Rule, string) -> bool): seq<Hit>
    decreases |rules|
  {
    if rules == [] then []
    else
      var r := rules[|rules| - 1];
      RuleHits(file, n, line, rules[..|rules| - 1], matches) + (if matches(r, line) then [HitOf(file, n, r)] else [])
  }

  /** The hits of the first `k` lines, line by line. */
  function LineHits(file: string, lines: seq<string>, k: nat, rules: seq<Rule>, matches: (Rule, string) -> bool): seq<Hit>
    requires k <= |lines|
    decreases k
  {
    if k == 0 then []
    else LineHits(file, lines, k - 1, rules, matches) + RuleHits(file, k, lines[k - 1], rules, matches)
  }

  /** Whether a hit carries the id `id`. */
  function IdIs(id: string): Hit -> bool {
    (h: Hit) => h.matchId == id
  }

  predicate SomeMatch(hits: seq<Hit>, id: string) {
    exists i :: 0 <= i < |hits| && hits[i].matchId == id
  }

  /** The hits of a file split into `lines`: the hits of every line, then the derived hit
      when a line hit names the route rule and `hasZod` (the whole text matches the Zod
      rule) is false. */
  function HitsOfLines(file: string, lines: seq<string>, hasZod: bool, matches: (Rule, string) -> bool): seq<Hit> {
    var hits := LineHits(file, lines, |lines|, PATTERNS, matches);
    if SomeMatch(hits, NEXT_ROUTE.id) && !hasZod then hits + [ApiWithoutZod(file)] else hits
  }

  /** The hits of `analyzeFile` on a file with text `text`. */
  function FileHits(file: string, text: string, matches: (Rule, string) -> bool): seq<Hit> {
    HitsOfLines(file, SplitLines(text), matches(ZOD, text), matches)
  }

  /** The inner loop of `analyzeFile`: every rule against line number `n`. */
  method MatchLine(file: string, n: nat, line: string, rules: seq<Rule>, matches: (Rule, string) -> bool) returns (hits: seq<Hit>)
    ensures hits == RuleHits(file, n, line, rules, matches)
  {
    hits := [];
    for j := 0 to |rules|
      invariant hits == RuleHits(file, n, line, rules[..j], matches)
    {
      var p := rules[j];
      assert rules[..j + 1][..j] == rules[..j];
      if matches(p, line) {
        hits := hits + [HitOf(file, n, p)];
      }
    }
    assert rules[..|rules|] == rules;
  }

  /** `analyzeFile`: every rule against every line, then the whole-file rule. */
  method AnalyzeFile(file: string, text: string, matches: (Rule, string) -> bool) returns (hits: seq<Hit>)
    ensures hits == FileHits(file, text, matches)
  {
    var lines := SplitLines(text);
    hits := [];
    for i := 0 to |lines|
      invariant hits == LineHits(file, lines, i, PATTERNS, matches)
    {
      var lineHits := MatchLine(file, i + 1, lines[i], PATTERNS, matches);
      hits := hits + lineHits;
    }
    var hasApi := SomeMatch(hits, NEXT_ROUTE.id);
    var hasZod := matches(ZOD, text);
    if hasApi && !hasZod {
      hits := hits + [ApiWithoutZod(file)];
    }
  }

  /** Ranks hits by line, then by the position of their rule in `rules`. */
  predicate Before(a: Hit, b: Hit, rules: seq<Rule>) {
    a.line < b.line || (a.line == b.line && IndexOf(rules, RuleOfHit(a)) < IndexOf(rules, RuleOfHit(b)))
  }

  predicate HitsOrdered(hits: seq<Hit>, rules: seq<Rule>) {
    forall a, b :: 0 <= a < b < |hits| ==> Before(hits[a], hits[b], rules)
  }

  /** The hits of one line for the first `j` rules: each names that line and a matching
      rule among the first `j`, in strictly increasing rule order. */
  lemma {:induction false} RuleHitsShape(file: string, n: nat, line: string, rules: seq<Rule>, j: nat, matches: (Rule, string) -> bool)
    requires j <= |rules| && Distinct(rules)
    ensures forall a :: 0 <= a < |RuleHits(file, n, line, rules[..j], matches)| ==>
              var h := RuleHits(file, n, line, rules[..j], matches)[a];
              h.file == file && h.line == n && 0 <= IndexOf(rules, RuleOfHit(h)) < j &&
              matches(RuleOfHit(h), line)
    ensures HitsOrdered(RuleHits(file, n, line, rules[..j], matches), rules)
    decreases j
  {
    if j > 0 {
      assert rules[..j][..j - 1] == rules[..j - 1];
      RuleHitsShape(file, n, line, rules, j - 1, matches);
      var r := rules[j - 1];
      assert IndexOf(rules, r) == j - 1;
      assert RuleOfHit(HitOf(file, n, r)) == r;
    }
  }

  /** The hits of the first `k` lines lie on those lines, name matching rules of the table,
      and come ordered by line, then by rule order. */
  lemma {:induction false} LineHitsShape(file: string, lines: seq<string>, k: nat, rules: seq<Rule>, matches: (Rule, string) -> bool)
    requires k <= |lines| && Distinct(rules)
    ensures forall a :: 0 <= a < |LineHits(file, lines, k, rules, matches)| ==>
              var h := LineHits(file, lines, k, rules, matches)[a];
              h.file == file && 1 <= h.line <= k && RuleOfHit(h) in rules &&
              matches(RuleOfHit(h), lines[h.line - 1])
    ensures HitsOrdered(LineHits(file, lines, k, rules, matches), rules)
    decreases k
  {
    if k > 0 {
      LineHitsShape(file, lines, k - 1, rules, matches);
      RuleHitsShape(file, k, lines[k - 1], rules, |rules|, matches);
      assert rules[..|rules|] == rules;
    }
  }

  /** The hit of line `n` for rule `r` is among the hits of the first `k` lines exactly when
      `r`'s expression matches that line. */
  lemma LineHitIff(file: string, lines: seq<string>, k: nat, rules: seq<Rule>, matches: (Rule, string) -> bool, n: nat, r: Rule)
    requires k <= |lines| && Distinct(rules)
    requires 1 <= n <= k && r in rules
    ensures HitOf(file, n, r) in LineHits(file, lines, k, rules, matches) <==> matches(r, lines[n - 1])
  {
    if matches(r, lines[n - 1]) {
      LineHitPresent(file, lines, k, rules, matches, n, r);
    } else {
      LineHitsShape(file, lines, k, rules, matches);
      assert RuleOfHit(HitOf(file, n, r)) == r;
    }
  }

  lemma LineHitPresent(file: string, lines: seq<string>, k: nat, rules: seq<Rule>, matches: (Rule, string) -> bool, n: nat, r: Rule)
    requires k <= |lines| && 1 <= n <= k && r in rules && matches(r, lines[n - 1])
    ensures HitOf(file, n, r) in LineHits(file, lines, k, rules, matches)
  {
    var h := HitOf(file, n, r);
    RuleHitIn(file, n, lines[n - 1], rules, matches, r);
    var p := LineHits(file, lines, n, rules, matches);
    assert h in p;
    LineHitsPrefix(file, lines, n, k, rules, matches);
    var i :| 0 <= i < |p| && p[i] == h;
    assert LineHits(file, lines, k, rules, matches)[i] == h;
  }

  /** The hits of the first `n` lines begin the hits of the first `k`. */
  lemma {:induction false} LineHitsPrefix(file: string, lines: seq<string>, n: nat, k: nat, rules: seq<Rule>, matches: (Rule, string) -> bool)
    requires n <= k <= |lines|
    ensures |LineHits(file, lines, n, rules, matches)| <= |LineHits(file, lines, k, rules, matches)|
    ensures LineHits(file, lines, k, rules, matches)[..|LineHits(file, lines, n, rules, matches)|] == LineHits(file, lines, n, rules, matches)
    decreases k
  {
    if n < k {
      LineHitsPrefix(file, lines, n, k - 1, rules, matches);
      var a, p := LineHits(file, lines, k - 1, rules, matches), LineHits(file, lines, n, rules, matches);
      assert LineHits(file, lines, k, rules, matches)[..|p|] == a[..|p|];
    } else {
      var s := LineHits(file, lines, k, rules, matches);
      assert s[..|s|] == s;
    }
  }

  lemma {:induction false} RuleHitIn(file: string, n: nat, line: string, rules: seq<Rule>, matches: (Rule, string) -> bool, r: Rule)
    requires r in rules && matches(r, line)
    ensures HitOf(file, n, r) in RuleHits(file, n, line, rules, matches)
    decreases |rules|
  {
    if rules[|rules| - 1] != r {
      assert r in rules[..|rules| - 1] by {
        var x :| 0 <= x < |rules| && rules[x] == r;
        assert rules[..|rules| - 1][x] == r;
      }
      RuleHitIn(file, n, line, rules[..|rules| - 1], matches, r);
    }
  }

  lemma OrderedDistinct(hs: seq<Hit>, rules: seq<Rule>)
    requires HitsOrdered(hs, rules)
    ensures Distinct(hs)
  {
    forall a, b | 0 <= a < b < |hs| ensures hs[a] != hs[b] {
      assert Before(hs[a], hs[b], rules);
    }
  }

  /** Line hits are distinct: each (line, rule) hit occurs exactly once when the rule
      matches that line, and not at all otherwise. */
  lemma LineHitsCount(file: string, lines: seq<string>, rules: seq<Rule>, matches: (Rule, string) -> bool, n: nat, r: Rule)
    requires Distinct(rules) && 1 <= n <= |lines| && r in rules
    ensures Occurrences(LineHits(file, lines, |lines|, rules, matches), HitOf(file, n, r)) ==
            if matches(r, lines[n - 1]) then 1 else 0
  {
    var hs := LineHits(file, lines, |lines|, rules, matches);
    LineHitsShape(file, lines, |lines|, rules, matches);
    OrderedDistinct(hs, rules);
    LineHitIff(file, lines, |lines|, rules, matches, n, r);
    CountDistinct(hs, HitOf(file, n, r));
  }

  /** The hits of one file before the whole-file rule: every hit lies on a line of the
      file; hits come by line, then by table order; the hit for line `n` and table rule
      `PATTERNS[j]` occurs exactly once when that rule matches line `n`, and not at all
      otherwise, whatever the other rules do. */
  lemma LineHitsOfFile(file: string, text: string, matches: (Rule, string) -> bool, n: nat, j: nat)
    requires 1 <= n <= |SplitLines(text)| && j < |PATTERNS|
    ensures var lines := SplitLines(text);
            var hs := LineHits(file, lines, |lines|, PATTERNS, matches);
            && (forall a :: 0 <= a < |hs| ==> hs[a].file == file && 1 <= hs[a].line <= |lines|)
            && HitsOrdered(hs, PATTERNS)
            && Occurrences(hs, HitOf(file, n, PATTERNS[j])) ==
                 if matches(PATTERNS[j], lines[n - 1]) then 1 else 0
  {
    var lines := SplitLines(text);
    PatternsDistinct();
    LineHitsShape(file, lines, |lines|, PATTERNS, matches);
    LineHitsCount(file, lines, PATTERNS, matches, n, PATTERNS[j]);
  }

  /** Some line matches the route rule. */
  predicate HasRouteLine(lines: seq<string>, matches: (Rule, string) -> bool) {
    exists i :: 0 <= i < |lines| && matches(NEXT_ROUTE, lines[i])
  }

  /** Some line hit names the route rule exactly when some line matches it. */
  lemma SomeRouteHit(file: string, lines: seq<string>, rules: seq<Rule>, matches: (Rule, string) -> bool)
    requires Distinct(rules) && NEXT_ROUTE in rules
    requires forall j :: 0 <= j < |rules| && rules[j].id == NEXT_ROUTE.id ==> rules[j] == NEXT_ROUTE
    ensures SomeMatch(LineHits(file, lines, |lines|, rules, matches), NEXT_ROUTE.id) <==> HasRouteLine(lines, matches)
  {
    if SomeMatch(LineHits(file, lines, |lines|, rules, matches), NEXT_ROUTE.id) {
      RouteHitHasLine(file, lines, rules, matches);
    }
    if HasRouteLine(lines, matches) {
      RouteLineHasHit(file, lines, rules, matches);
    }
  }

  lemma RouteHitHasLine(file: string, lines: seq<string>, rules: seq<Rule>, matches: (Rule, string) -> bool)
    requires Distinct(rules)
    requires forall j :: 0 <= j < |rules| && rules[j].id == NEXT_ROUTE.id ==> rules[j] == NEXT_ROUTE
    requires SomeMatch(LineHits(file, lines, |lines|, rules, matches), NEXT_ROUTE.id)
    ensures HasRouteLine(lines, matches)
  {
    var lh := LineHits(file, lines, |lines|, rules, matches);
    LineHitsShape(file, lines, |lines|, rules, matches);
    var a :| 0 <= a < |lh| && lh[a].matchId == NEXT_ROUTE.id;
    var j :| 0 <= j < |rules| && rules[j] == RuleOfHit(lh[a]);
    assert matches(NEXT_ROUTE, lines[lh[a].line - 1]);
  }

  lemma RouteLineHasHit(file: string, lines: seq<string>, rules: seq<Rule>, matches: (Rule, string) -> bool)
    requires Distinct(rules) && NEXT_ROUTE in rules
    requires HasRouteLine(lines, matches)
    ensures SomeMatch(LineHits(file, lines, |lines|, rules, matches), NEXT_ROUTE.id)
  {
    var lh := LineHits(file, lines, |lines|, rules, matches);
    var i :| 0 <= i < |lines| && matches(NEXT_ROUTE, lines[i]);
    LineHitPresent(file, lines, |lines|, rules, matches, i + 1, NEXT_ROUTE);
    var a :| 0 <= a < |lh| && lh[a] == HitOf(file, i + 1, NEXT_ROUTE);
    assert lh[a].matchId == NEXT_ROUTE.id;
  }

  /** No line hit carries an id that no rule has. */
  lemma NoForeignHits(file: string, lines: seq<string>, rules: seq<Rule>, matches: (Rule, string) -> bool, id: string)
    requires Distinct(rules)
    requires forall j :: 0 <= j < |rules| ==> rules[j].id != id
    ensures Count(LineHits(file, lines, |lines|, rules, matches), IdIs(id)) == 0
  {
    var lh := LineHits(file, lines, |lines|, rules, matches);
    LineHitsShape(file, lines, |lines|, rules, matches);
    var p := IdIs(id);
    forall a | 0 <= a < |lh| ensures !p(lh[a]) {
      var j :| 0 <= j < |rules| && rules[j] == RuleOfHit(lh[a]);
    }
    FilterNone(lh, p);
  }

  lemma DerivedHitOnce(file: string, lines: seq<string>, hasZod: bool, matches: (Rule, string) -> bool)
    ensures var hs := HitsOfLines(file, lines, hasZod, matches);
            var added := HasRouteLine(lines, matches) && !hasZod;
            && Count(hs, IdIs("api-without-zod")) == (if added then 1 else 0)
            && (added ==> hs[|hs| - 1] == ApiWithoutZod(file))
  {
    var lh := LineHits(file, lines, |lines|, PATTERNS, matches);
    PatternsDistinct();
    SomeRouteHit(file, lines, PATTERNS, matches);
    NoForeignHits(file, lines, PATTERNS, matches, "api-without-zod");
    FilterAppend(lh, [ApiWithoutZod(file)], IdIs("api-without-zod"));
  }

  /** The whole-file rule: the `api-without-zod` hit is added, once and last, exactly when
      some line matches the route rule and the text does not match the Zod rule. */
  lemma ApiWithoutZodOnce(file: string, text: string, matches: (Rule, string) -> bool)
    ensures var hs := FileHits(file, text, matches);
            var added := HasRouteLine(SplitLines(text), matches) && !matches(ZOD, text);
            && Count(hs, IdIs("api-without-zod")) == (if added then 1 else 0)
            && (added ==> hs[|hs| - 1] == ApiWithoutZod(file))
  {
    DerivedHitOnce(file, SplitLines(text), matches(ZOD, text), matches);
  }

  // ---------------------------------------------------------------- grouping hits

  datatype Ref = Ref(file: string, line: nat)

  /** A group of hits; `matchId` is the `match` field. */
  datatype Group = Group(category: string, matchId: string, hint: string, refs: seq<Ref>)

  /** The grouping key `${category}:${match}`. */
  function HitKey(h: Hit): string {
    h.category + ":" + h.matchId
  }

  function GroupKey(g: Group): string {
    g.category + ":" + g.matchId
  }

  function RefOf(h: Hit): Ref {
    Ref(h.file, h.line)
  }

  function RefsOf(hs: seq<Hit>): (rs: seq<Ref>)
    ensures |rs| == |hs|
  {
    seq(|hs|, i requires 0 <= i < |hs| => RefOf(hs[i]))
  }

  /** The group of key `k`: named and hinted after the first hit with that key, holding the
      references of all such hits in input order. */
  function GroupOf(hits: seq<Hit>, k: string): (g: Group)
    requires k in DistinctKeys(hits, HitKey)
    ensures GroupKey(g) == k
  {
    BucketOfKey(hits, HitKey, k);
    var b := Bucket(hits, HitKey, k);
    Group(b[0].category, b[0].matchId, b[0].hint, RefsOf(b))
  }

  /** The groups in first-appearance order of their keys (`Object.values(grouped)`). */
  function Groups(hits: seq<Hit>): seq<Group> {
    var ks := DistinctKeys(hits, HitKey);
    seq(|ks|, j requires 0 <= j < |ks| => GroupOf(hits, ks[j]))
  }

  /** The comparator of the final sort: `collate` (standing for `localeCompare(..) <= 0`)
      on `category + match`, without separator. */
  function GroupLe(collate: (string, string) -> bool): (Group, Group) -> bool {
    (a: Group, b: Group) => collate(a.category + a.matchId, b.category + b.matchId)
  }

  lemma GroupLePreorder(collate: (string, string) -> bool)
    requires IsTotalPreorder(collate)
    ensures IsTotalPreorder(GroupLe(collate))
  {
    var le := GroupLe(collate);
    forall a: Group, b: Group ensures le(a, b) || le(b, a) {
      assert collate(a.category + a.matchId, b.category + b.matchId) || collate(b.category + b.matchId, a.category + a.matchId);
    }
    forall a: Group, b: Group, c: Group | le(a, b) && le(b, c) ensures le(a, c) {
      assert collate(a.category + a.matchId, b.category + b.matchId);
      assert collate(b.category + b.matchId, c.category + c.matchId);
    }
  }

  /** The keys after one more hit: the old ones, then the hit's key if it is new. */
  lemma KeysSnoc(p: seq<Hit>, h: Hit)
    ensures DistinctKeys(p + [h], HitKey) ==
            var ks := DistinctKeys(p, HitKey); if HitKey(h) in ks then ks else ks + [HitKey(h)]
  {
    var s := p + [h];
    assert s[..|s| - 1] == p;
  }

  /** One more hit with an existing key extends that key's group by its reference and
      leaves the other groups as they were. */
  lemma GroupSnocOld(p: seq<Hit>, h: Hit, k: string)
    requires k in DistinctKeys(p, HitKey)
    ensures k in DistinctKeys(p + [h], HitKey)
    ensures GroupOf(p + [h], k) ==
            if k == HitKey(h) then GroupOf(p, k).(refs := GroupOf(p, k).refs + [RefOf(h)]) else GroupOf(p, k)
  {
    KeysSnoc(p, h);
    BucketSnoc(p, h, HitKey, k);
    BucketOfKey(p, HitKey, k);
    var b := Bucket(p, HitKey, k);
    if k == HitKey(h) {
      assert Bucket(p + [h], HitKey, k) == b + [h];
      RefsOfSnoc(b, h);
      assert (b + [h])[0] == b[0];
    } else {
      assert Bucket(p + [h], HitKey, k) == b;
    }
  }

  lemma RefsOfSnoc(b: seq<Hit>, h: Hit)
    ensures RefsOf(b + [h]) == RefsOf(b) + [RefOf(h)]
  {
    assert forall i :: 0 <= i < |b| ==> (b + [h])[i] == b[i];
  }

  /** One more hit with a new key starts a group holding just its reference. */
  lemma GroupSnocNew(p: seq<Hit>, h: Hit)
    requires HitKey(h) !in DistinctKeys(p, HitKey)
    ensures HitKey(h) in DistinctKeys(p + [h], HitKey)
    ensures GroupOf(p + [h], HitKey(h)) == Group(h.category, h.matchId, h.hint, [RefOf(h)])
  {
    var k := HitKey(h);
    KeysSnoc(p, h);
    BucketSnoc(p, h, HitKey, k);
    KeyUnseen(p, HitKey, k);
    assert Bucket(p + [h], HitKey, k) == [h];
    assert RefsOf([h]) == [RefOf(h)];
  }

  /** `m` holds the groups of the hits `p`, under their keys. */
  ghost predicate Grouped(m: map<string, Group>, p: seq<Hit>) {
    && (forall k :: k in m <==> k in DistinctKeys(p, HitKey))
    && (forall k :: k in m ==> k in DistinctKeys(p, HitKey) && m[k] == GroupOf(p, k))
  }

  /** The object `grouped` of `groupHits` and the order in which its keys were added. */
  datatype Tally = Tally(grouped: map<string, Group>, order: seq<string>)

  /** One turn of the loop of `groupHits`: create the group of the hit's key if there is
      none yet, then push the hit's reference onto it. */
  function Push(t: Tally, h: Hit): Tally {
    var key := HitKey(h);
    var m := if key in t.grouped then t.grouped else t.grouped[key := Group(h.category, h.matchId, h.hint, [])];
    var order := if key in t.grouped then t.order else t.order + [key];
    Tally(m[key := m[key].(refs := m[key].refs + [RefOf(h)])], order)
  }

  /** The state of `groupHits` after reading `hits`. */
  function Tallied(hits: seq<Hit>): Tally
    decreases |hits|
  {
    if hits == [] then Tally(map[], [])
    else Push(Tallied(hits[..|hits| - 1]), hits[|hits| - 1])
  }

  /** The loop step keeps the object in step with the hits read. */
  lemma GroupedStep(t: Tally, p: seq<Hit>, h: Hit)
    requires Grouped(t.grouped, p)
    ensures Grouped(Push(t, h).grouped, p + [h])
  {
    var m' := Push(t, h).grouped;
    KeysSnoc(p, h);
    forall k | k in m' ensures k in DistinctKeys(p + [h], HitKey) && m'[k] == GroupOf(p + [h], k) {
      if k in t.grouped {
        GroupSnocOld(p, h, k);
      } else {
        GroupSnocNew(p, h);
      }
    }
  }

  /** The keys of the object are added in first-appearance order. */
  lemma {:induction false} TalliedOrder(hits: seq<Hit>)
    ensures Tallied(hits).order == DistinctKeys(hits, HitKey)
    ensures forall k :: k in Tallied(hits).grouped <==> k in Tallied(hits).order
    decreases |hits|
  {
    if hits != [] {
      var p, h := hits[..|hits| - 1], hits[|hits| - 1];
      TalliedOrder(p);
      KeysSnoc(p, h);
      assert hits == p + [h];
    }
  }

  /** After any prefix of the hits, the object holds exactly the groups of that prefix. */
  lemma {:induction false} TalliedGroups(hits: seq<Hit>)
    ensures Grouped(Tallied(hits).grouped, hits)
    decreases |hits|
  {
    if hits != [] {
      var p, h := hits[..|hits| - 1], hits[|hits| - 1];
      TalliedGroups(p);
      GroupedStep(Tallied(p), p, h);
      assert hits == p + [h];
      assert Tallied(hits) == Push(Tallied(p), h);
    }
  }

  /** `groupHits`: groups by key in an object filled in input order, then sorts its
      values. `order` is the object's key order (a key of the form `cat:match` is never an
      integer index, so the object keeps insertion order). */
  method GroupHits(hits: seq<Hit>, collate: (string, string) -> bool) returns (groups: seq<Group>)
    ensures groups == SortBy(Groups(hits), GroupLe(collate))
  {
    var grouped: map<string, Group> := map[];
    var order: seq<string> := [];
    for i := 0 to |hits|
      invariant Tally(grouped, order) == Tallied(hits[..i])
    {
      var h := hits[i];
      var key := HitKey(h);
      assert hits[..i + 1][..i] == hits[..i];
      if key !in grouped {
        grouped := grouped[key := Group(h.category, h.matchId, h.hint, [])];
        order := order + [key];
      }
      grouped := grouped[key := grouped[key].(refs := grouped[key].refs + [RefOf(h)])];
    }
    assert hits[..|hits|] == hits;
    TalliedOrder(hits);
    TalliedGroups(hits);
    var values := seq(|order|, j requires 0 <= j < |order| => grouped[order[j]]);
    assert values == Groups(hits) by {
      forall j | 0 <= j < |order| ensures values[j] == GroupOf(hits, order[j]) {
        assert order[j] in grouped;
      }
    }
    groups := SortBy(values, GroupLe(collate));
  }

  function SumRefs(gs: seq<Group>): nat
    decreases |gs|
  {
    if gs == [] then 0 else |gs[0].refs| + SumRefs(gs[1..])
  }

  lemma {:induction false} SumRefsInsert(x: Group, gs: seq<Group>, le: (Group, Group) -> bool)
    ensures SumRefs(InsertBy(x, gs, le)) == |x.refs| + SumRefs(gs)
    decreases |gs|
  {
    if gs != [] && le(gs[0], x) {
      SumRefsInsert(x, gs[1..], le);
      assert ([gs[0]] + InsertBy(x, gs[1..], le))[1..] == InsertBy(x, gs[1..], le);
    } else if gs != [] {
      assert ([x] + gs)[1..] == gs;
    }
  }

  lemma {:induction false} SumRefsSort(gs: seq<Group>, le: (Group, Group) -> bool)
    ensures SumRefs(SortBy(gs, le)) == SumRefs(gs)
    decreases |gs|
  {
    if gs != [] {
      var p, x := gs[..|gs| - 1], gs[|gs| - 1];
      SortStep(gs, le);
      SumRefsSort(p, le);
      SumRefsInsert(x, SortBy(p, le), le);
      SumRefsSnoc(p, x);
      SplitLast(gs);
    }
  }

  lemma {:induction false} SumRefsSnoc(gs: seq<Group>, x: Group)
    ensures SumRefs(gs + [x]) == SumRefs(gs) + |x.refs|
    decreases |gs|
  {
    if gs != [] {
      assert (gs + [x])[1..] == gs[1..] + [x];
      SumRefsSnoc(gs[1..], x);
    } else {
      assert gs + [x] == [x];
    }
  }

  /** The groups of the keys `ks` hold as many references as their buckets hold hits. */
  lemma {:induction false} SumRefsOfKeys(hits: seq<Hit>, ks: seq<string>)
    requires forall j :: 0 <= j < |ks| ==> ks[j] in DistinctKeys(hits, HitKey)
    ensures SumRefs(seq(|ks|, j requires 0 <= j < |ks| => GroupOf(hits, ks[j]))) == SumSizes(hits, HitKey, ks)
    decreases |ks|
  {
    if ks != [] {
      var gs := seq(|ks|, j requires 0 <= j < |ks| => GroupOf(hits, ks[j]));
      var tail := ks[1..];
      SumRefsOfKeys(hits, tail);
      assert gs[1..] == seq(|tail|, j requires 0 <= j < |tail| => GroupOf(hits, tail[j]));
    }
  }

  /** `groupHits` loses no hit: its groups hold one reference per hit. */
  lemma GroupHitsConserves(hits: seq<Hit>, le: (Group, Group) -> bool)
    ensures SumRefs(SortBy(Groups(hits), le)) == |hits|
  {
    var ks := DistinctKeys(hits, HitKey);
    DistinctKeysSpec(hits, HitKey);
    SumRefsSort(Groups(hits), le);
    SumRefsOfKeys(hits, ks);
    GroupingConserves(hits, HitKey);
  }

  /** No two groups share a key. */
  lemma GroupsKeysDistinct(hits: seq<Hit>, le: (Group, Group) -> bool)
    ensures KeysDistinct(SortBy(Groups(hits), le), GroupKey)
  {
    var gs := Groups(hits);
    DistinctKeysSpec(hits, HitKey);
    assert KeysDistinct(gs, GroupKey) by {
      forall i, j | 0 <= i < j < |gs| ensures GroupKey(gs[i]) != GroupKey(gs[j]) {
        assert GroupKey(gs[i]) == DistinctKeys(hits, HitKey)[i];
      }
    }
    SortKeysDistinct(gs, le, GroupKey);
  }

  /** The groups are in the order of the comparator. */
  lemma GroupsSorted(hits: seq<Hit>, collate: (string, string) -> bool)
    requires IsTotalPreorder(collate)
    ensures SortedBy(SortBy(Groups(hits), GroupLe(collate)), GroupLe(collate))
  {
    GroupLePreorder(collate);
    SortBySorted(Groups(hits), GroupLe(collate));
  }

  /** A group is in the result exactly when it is the group of the key of some hit. */
  lemma GroupsMembers(hits: seq<Hit>, le: (Group, Group) -> bool, g: Group)
    ensures g in SortBy(Groups(hits), le) <==>
              GroupKey(g) in DistinctKeys(hits, HitKey) && g == GroupOf(hits, GroupKey(g))
  {
    var gs := Groups(hits);
    var ks := DistinctKeys(hits, HitKey);
    assert g in SortBy(gs, le) <==> g in gs by {
      assert g in multiset(SortBy(gs, le)) <==> g in multiset(gs);
    }
    if GroupKey(g) in ks && g == GroupOf(hits, GroupKey(g)) {
      var j :| 0 <= j < |ks| && ks[j] == GroupKey(g);
      assert gs[j] == g;
    }
  }

  /** Every hit's key has a group, holding the references of exactly the hits with that
      key, in input order, and named and hinted after the first of them. */
  lemma GroupOfHit(hits: seq<Hit>, i: nat)
    requires i < |hits|
    ensures HitKey(hits[i]) in DistinctKeys(hits, HitKey)
    ensures var g, b := GroupOf(hits, HitKey(hits[i])), Bucket(hits, HitKey, HitKey(hits[i]));
            && b != [] && IsSubsequence(b, hits)
            && (forall a :: 0 <= a < |b| ==> HitKey(b[a]) == HitKey(hits[i]))
            && g.refs == RefsOf(b)
            && g.category == b[0].category && g.matchId == b[0].matchId && g.hint == b[0].hint
  {
    DistinctKeysSpec(hits, HitKey);
    BucketOfKey(hits, HitKey, HitKey(hits[i]));
  }

  // ---------------------------------------------------------------- rendering

  /** The robot emoji U+1F916 of the heading as the script's text stores it: its UTF-8
      bytes read as Windows-1252 characters. */
  const ROBOT: string := "\U{00F0}\U{0178}\U{00A4}\U{2013}"

  /** An em dash, stored the same way. */
  const DASH: string := "\U{00E2}\U{20AC}\U{201D}"

  /** A horizontal ellipsis, stored the same way. */
  const ELLIPSIS: string := "\U{00E2}\U{20AC}\U{00A6}"

  /** At most this many references are listed under a group. */
  const MAX_REFS: nat := 20

  /** The front matter and title; `ts` is the ISO timestamp of the run. */
  function HeaderLines(ts: string): seq<string> {
    ["---", "description: Auto-generated patterns (do not edit by hand)", "globs: [\"**/*\"]",
     "alwaysApply: false", "---\n", "# " + ROBOT + " Auto Patterns Summary", "Generated: " + ts + "\n"]
  }

  const NO_PATTERNS: string := "_No notable patterns detected yet._"

  const FOOTER: seq<string> := [
    "\n---",
    "### Cursor Guardrails (suggestions)",
    "- Keep secrets in env; never commit tokens.",
    "- Ensure Zod validation at API boundaries.",
    "- Prefer Drizzle (parameterized) for DB access.",
    "- Limit tool chains; ask before side-effects."
  ]

  function Heading(category: string): string {
    "\n## " + category
  }

  /** The bullet of a group; a group without a hint keeps the space after the name. */
  function EntryLine(g: Group): string {
    "- **" + g.matchId + "** " + (if g.hint != "" then DASH + " " + g.hint else "")
  }

  function RefLine(r: Ref): string {
    "  - `" + r.file + ":" + NatToString(r.line) + "`"
  }

  function MoreLine(n: nat): string {
    "  - " + ELLIPSIS + "and " + NatToString(n) + " more"
  }

  function Min(a: nat, b: nat): nat {
    if a <= b then a else b
  }

  function RefLines(refs: seq<Ref>): (ls: seq<string>)
    ensures |ls| == |refs|
  {
    seq(|refs|, i requires 0 <= i < |refs| => RefLine(refs[i]))
  }

  /** The lines of one group: its bullet, its first `MAX_REFS` references, and a line
      counting the rest when there are more. */
  function GroupBlock(g: Group): seq<string> {
    [EntryLine(g)] + RefLines(g.refs[..Min(|g.refs|, MAX_REFS)]) +
    (if |g.refs| > MAX_REFS then [MoreLine(|g.refs| - MAX_REFS)] else [])
  }

  /** The category in force before group `i` (`currentCat`). */
  function PrevCategory(gs: seq<Group>, i: nat): string
    requires i <= |gs|
  {
    if i == 0 then "" else gs[i - 1].category
  }

  /** The heading written before group `i`: one when its category differs from the one
      in force. */
  function HeadingOf(gs: seq<Group>, i: nat): seq<string>
    requires i < |gs|
  {
    if gs[i].category != PrevCategory(gs, i) then [Heading(gs[i].category)] else []
  }

  /** The lines of the first `n` groups. */
  function Sections(gs: seq<Group>, n: nat): seq<string>
    requires n <= |gs|
    decreases n
  {
    if n == 0 then [] else Sections(gs, n - 1) + HeadingOf(gs, n - 1) + GroupBlock(gs[n - 1])
  }

  function Body(gs: seq<Group>): seq<string> {
    if gs == [] then [NO_PATTERNS] else Sections(gs, |gs|)
  }

  /** The lines of the rules file for the sorted groups `gs`. */
  function MdcLines(gs: seq<Group>, ts: string): seq<string> {
    HeaderLines(ts) + Body(gs) + FOOTER
  }

  /** The lines `renderMDC` pushes for one group. */
  method GroupLines(g: Group) returns (block: seq<string>)
    ensures block == GroupBlock(g)
  {
    block := [EntryLine(g)];
    var shown := g.refs[..Min(|g.refs|, MAX_REFS)];
    for j := 0 to |shown|
      invariant block == [EntryLine(g)] + RefLines(shown[..j])
    {
      assert RefLines(shown[..j + 1]) == RefLines(shown[..j]) + [RefLine(shown[j])];
      block := block + [RefLine(shown[j])];
    }
    assert shown[..|shown|] == shown;
    if |g.refs| > MAX_REFS {
      block := block + [MoreLine(|g.refs| - MAX_REFS)];
    }
  }

  /** `renderMDC(grouped)` with the clock's reading `ts`. */
  method RenderMdc(grouped: seq<Group>, ts: string) returns (doc: string)
    ensures doc == Join(MdcLines(grouped, ts), "\n")
  {
    var lines := HeaderLines(ts);
    if |grouped| == 0 {
      lines := lines + [NO_PATTERNS];
    } else {
      var currentCat := "";
      for i := 0 to |grouped|
        invariant lines == HeaderLines(ts) + Sections(grouped, i)
        invariant currentCat == PrevCategory(grouped, i)
      {
        var g := grouped[i];
        var heading := [];
        if g.category != currentCat {
          currentCat := g.category;
          heading := [Heading(currentCat)];
        }
        var block := GroupLines(g);
        SectionsAppend(HeaderLines(ts), grouped, i, heading, block);
        lines := lines + heading + block;
      }
    }
    lines := lines + FOOTER;
    doc := Join(lines, "\n");
  }

  lemma SectionsAppend(header: seq<string>, gs: seq<Group>, i: nat, heading: seq<string>, block: seq<string>)
    requires i < |gs| && heading == HeadingOf(gs, i) && block == GroupBlock(gs[i])
    ensures header + Sections(gs, i) + heading + block == header + Sections(gs, i + 1)
  {
  }

  /** Reads a reference line back: the path runs up to the last colon, the line number
      after it. */
  function ParseRefLine(line: string): Option<Ref> {
    if |line| >= 6 && line[..5] == "  - `" && line[|line| - 1] == '`' then ParseRef(line[5..|line| - 1])
    else None
  }

  function ParseRef(body: string): Option<Ref> {
    var c := LastIndexOf(body, ':');
    if c >= 0 && IsDigits(body[c + 1..]) then Some(Ref(body[..c], DecimalValue(body[c + 1..]))) else None
  }

  predicate IsDigits(s: string) {
    s != [] && forall i :: 0 <= i < |s| ==> '0' <= s[i] <= '9'
  }

  /** A reference line names its reference unambiguously, whatever characters the path
      holds. */
  lemma RefLineRoundTrip(r: Ref)
    ensures ParseRefLine(RefLine(r)) == Some(r)
  {
    var d := NatToString(r.line);
    var body := r.file + ":" + d;
    var line := RefLine(r);
    assert line == "  - `" + body + "`" by {
      ConcatAssoc("  - `", r.file, ":");
      ConcatAssoc("  - `", r.file + ":", d);
    }
    Wrapped("  - `", body, "`");
    RefRoundTrip(r);
  }

  lemma RefRoundTrip(r: Ref)
    ensures ParseRef(r.file + ":" + NatToString(r.line)) == Some(r)
  {
    var d := NatToString(r.line);
    LastColon(r.file, d);
    assert (r.file + ":" + d)[|r.file| + 1..] == d;
    NatToStringRoundTrip(r.line);
  }

  /** The last colon of `a:d`, for digits `d`, is the one after `a`. */
  lemma LastColon(a: string, d: string)
    requires IsDigits(d)
    ensures LastIndexOf(a + ":" + d, ':') == |a|
    ensures (a + ":" + d)[..|a|] == a
  {
    LastIndexOfAppend(a, ':', d);
  }

  /** Reads the count back from a line `  - …and N more`. */
  function ParseMoreLine(line: string): Option<nat> {
    var prefix, suffix := "  - " + ELLIPSIS + "and ", " more";
    if |line| >= |prefix| + |suffix| && StartsWith(line, prefix) && EndsWith(line, suffix)
       && IsDigits(line[|prefix|..|line| - |suffix|])
    then Some(DecimalValue(line[|prefix|..|line| - |suffix|]))
    else None
  }

  lemma MoreLineRoundTrip(n: nat)
    ensures ParseMoreLine(MoreLine(n)) == Some(n)
  {
    var prefix, suffix, d := "  - " + ELLIPSIS + "and ", " more", NatToString(n);
    var line := MoreLine(n);
    assert line == prefix + d + suffix;
    Wrapped(prefix, d, suffix);
    NatToStringRoundTrip(n);
  }

  /** No reference line reads as a count line, and no count line as a reference line. */
  lemma RefAndMoreLinesDiffer(r: Ref, n: nat)
    ensures ParseMoreLine(RefLine(r)) == None && ParseRefLine(MoreLine(n)) == None
  {
    assert RefLine(r)[4] == '`';
    assert MoreLine(n)[4] == '\U{00E2}';
  }

  /** A group's lines: its bullet, one line per reference for the first `MAX_REFS`
      references in order, then a count line exactly when references were left out,
      whose count together with the listed ones makes up all of them. */
  lemma GroupBlockShape(g: Group)
    ensures var b, shown := GroupBlock(g), Min(|g.refs|, MAX_REFS);
            && |b| == 1 + shown + (if |g.refs| > MAX_REFS then 1 else 0)
            && b[0] == EntryLine(g)
            && (forall i :: 0 <= i < shown ==> ParseRefLine(b[1 + i]) == Some(g.refs[i]))
            && (|g.refs| > MAX_REFS <==> |b| > 1 + shown && ParseMoreLine(b[|b| - 1]).Some?)
            && (|g.refs| > MAX_REFS ==> shown + ParseMoreLine(b[|b| - 1]).value == |g.refs|)
  {
    var b, shown := GroupBlock(g), Min(|g.refs|, MAX_REFS);
    var listed := RefLines(g.refs[..shown]);
    var tail := if |g.refs| > MAX_REFS then [MoreLine(|g.refs| - MAX_REFS)] else [];
    assert b == [EntryLine(g)] + listed + tail;
    assert |b| == 1 + |listed| + |tail| && b[0] == EntryLine(g);
    forall i | 0 <= i < shown ensures ParseRefLine(b[1 + i]) == Some(g.refs[i]) {
      assert b[1 + i] == listed[i];
      assert g.refs[..shown][i] == g.refs[i];
      RefLineRoundTrip(g.refs[i]);
    }
    if |g.refs| > MAX_REFS {
      MoreLineRoundTrip(|g.refs| - MAX_REFS);
    }
  }

  /** The placeholder line appears exactly when there are no groups. */
  lemma NoPatternsIff(gs: seq<Group>, ts: string)
    ensures NO_PATTERNS in MdcLines(gs, ts) <==> gs == []
  {
    if gs != [] {
      NoPatternsInHeader(ts);
      NoPatternsInSections(gs);
      NoPatternsInFooter();
      assert NO_PATTERNS !in HeaderLines(ts) + Body(gs) + FOOTER;
    } else {
      assert NO_PATTERNS in HeaderLines(ts) + Body(gs) + FOOTER;
    }
  }

  lemma NoPatternsInFooter()
    ensures NO_PATTERNS !in FOOTER
  {
    assert NO_PATTERNS[0] == '_';
  }

  lemma NoPatternsInHeader(ts: string)
    ensures NO_PATTERNS !in HeaderLines(ts)
  {
    assert ("Generated: " + ts + "\n")[0] == 'G';
    assert ("# " + ROBOT + " Auto Patterns Summary")[0] == '#';
  }

  lemma NoPatternsInSections(gs: seq<Group>)
    requires gs != []
    ensures NO_PATTERNS !in Sections(gs, |gs|)
  {
    SectionsLineStarts(gs, |gs|);
    assert NO_PATTERNS[0] == '_';
  }

  /** Every generated line starts with a newline, a dash or a space. */
  lemma {:induction false} SectionsLineStarts(gs: seq<Group>, n: nat)
    requires n <= |gs|
    ensures forall k :: 0 <= k < |Sections(gs, n)| ==>
              Sections(gs, n)[k] != [] && Sections(gs, n)[k][0] in {'\n', '-', ' '}
    decreases n
  {
    if n > 0 {
      SectionsLineStarts(gs, n - 1);
      var g := gs[n - 1];
      var b := GroupBlock(g);
      assert EntryLine(g)[0] == '-';
      forall k | 0 <= k < |b| ensures b[k] != [] && b[k][0] in {'\n', '-', ' '} {
        if 0 < k < 1 + Min(|g.refs|, MAX_REFS) {
          assert b[k] == RefLine(g.refs[k - 1]);
        }
      }
      var hd := HeadingOf(gs, n - 1);
      assert forall k :: 0 <= k < |hd| ==> hd[k] == Heading(g.category);
    }
  }

  /** Each category's groups come one after another. */
  predicate Contiguous(gs: seq<Group>) {
    forall i, j, k :: 0 <= i < j < k < |gs| && gs[i].category == gs[k].category ==> gs[j].category == gs[i].category
  }

  /** Some group among the first `n` has category `c`. */
  predicate HasCategory(gs: seq<Group>, n: nat, c: string)
    requires n <= |gs|
  {
    exists i :: 0 <= i < n && gs[i].category == c
  }

  /** Every group whose category differs from the one in force is the first group of
      its category. */
  predicate FreshSwitches(gs: seq<Group>) {
    forall j {:trigger PrevCategory(gs, j)} ::
      0 <= j < |gs| && gs[j].category != PrevCategory(gs, j) ==> !HasCategory(gs, j, gs[j].category)
  }

  /** When each category's groups come one after another, every category that has a
      group gets exactly one heading, and no other category gets one. The empty category
      never gets one, because `currentCat` starts out empty. */
  lemma HeadingOnce(gs: seq<Group>, c: string)
    requires Contiguous(gs) && c != ""
    ensures Occurrences(Sections(gs, |gs|), Heading(c)) == if HasCategory(gs, |gs|, c) then 1 else 0
  {
    ContiguousSwitches(gs);
    HeadingCount(gs, |gs|, c);
  }

  lemma ContiguousSwitches(gs: seq<Group>)
    requires Contiguous(gs)
    ensures FreshSwitches(gs)
  {
    forall j | 0 <= j < |gs| && gs[j].category != PrevCategory(gs, j)
      ensures !HasCategory(gs, j, gs[j].category)
    {
      FirstOfCategory(gs, j + 1, gs[j].category);
    }
  }

  /** How many of the first `n` groups switch the category in force to `c`. */
  function SwitchesTo(gs: seq<Group>, n: nat, c: string): nat
    requires n <= |gs|
    decreases n
  {
    if n == 0 then 0
    else SwitchesTo(gs, n - 1, c) + if gs[n - 1].category == c && PrevCategory(gs, n - 1) != c then 1 else 0
  }

  /** The headings of `c` among the lines are the switches to `c`. */
  lemma {:induction false} HeadingsAreSwitches(gs: seq<Group>, n: nat, c: string)
    requires n <= |gs|
    ensures Occurrences(Sections(gs, n), Heading(c)) == SwitchesTo(gs, n, c)
    decreases n
  {
    if n > 0 {
      HeadingsAreSwitches(gs, n - 1, c);
      HeadingStep(gs, n, c);
    }
  }

  /** When every switch is to a category not seen before, a category other than the
      empty one is switched to once if some group has it, and never otherwise. */
  lemma {:induction false} SwitchesOnce(gs: seq<Group>, n: nat, c: string)
    requires n <= |gs| && FreshSwitches(gs) && c != ""
    ensures SwitchesTo(gs, n, c) == if HasCategory(gs, n, c) then 1 else 0
    decreases n
  {
    if n > 0 {
      SwitchesOnce(gs, n - 1, c);
      HasCategoryStep(gs, n, c);
      var switch := gs[n - 1].category == c && PrevCategory(gs, n - 1) != c;
      if switch {
        FreshAt(gs, n - 1);
      }
    }
  }

  lemma HeadingCount(gs: seq<Group>, n: nat, c: string)
    requires n <= |gs| && FreshSwitches(gs) && c != ""
    ensures Occurrences(Sections(gs, n), Heading(c)) == if HasCategory(gs, n, c) then 1 else 0
  {
    HeadingsAreSwitches(gs, n, c);
    SwitchesOnce(gs, n, c);
  }

  lemma FreshAt(gs: seq<Group>, j: nat)
    requires FreshSwitches(gs) && j < |gs| && gs[j].category != PrevCategory(gs, j)
    ensures !HasCategory(gs, j, gs[j].category)
  {
  }

  lemma HasCategoryStep(gs: seq<Group>, n: nat, c: string)
    requires 0 < n <= |gs|
    ensures HasCategory(gs, n, c) <==> HasCategory(gs, n - 1, c) || gs[n - 1].category == c
    ensures PrevCategory(gs, n - 1) == c && c != "" ==> HasCategory(gs, n - 1, c)
  {
    if HasCategory(gs, n, c) && gs[n - 1].category != c {
      var i :| 0 <= i < n && gs[i].category == c;
      assert i < n - 1;
    }
    if n > 1 && PrevCategory(gs, n - 1) == c {
      assert gs[n - 2].category == c;
    }
  }

  /** In a contiguous sequence, a group whose category differs from the one before it is
      the first of its category. */
  lemma FirstOfCategory(gs: seq<Group>, n: nat, c: string)
    requires 0 < n <= |gs| && Contiguous(gs)
    requires gs[n - 1].category == c && PrevCategory(gs, n - 1) != c
    ensures !HasCategory(gs, n - 1, c)
  {
    if HasCategory(gs, n - 1, c) {
      assert false;
    }
  }

  /** One more group adds a heading for `c` exactly when it switches to category `c`. */
  lemma HeadingStep(gs: seq<Group>, n: nat, c: string)
    requires 0 < n <= |gs|
    ensures Occurrences(Sections(gs, n), Heading(c)) ==
              Occurrences(Sections(gs, n - 1), Heading(c)) +
              (if gs[n - 1].category == c && PrevCategory(gs, n - 1) != c then 1 else 0)
  {
    var a, h, b := Sections(gs, n - 1), HeadingOf(gs, n - 1), GroupBlock(gs[n - 1]);
    assert Sections(gs, n) == a + h + b;
    BlockHasNoHeading(gs[n - 1], c);
    HeadingOfCount(gs, n - 1, c);
    OccurrencesThree(a, h, b, Heading(c));
  }

  lemma HeadingOfCount(gs: seq<Group>, i: nat, c: string)
    requires i < |gs|
    ensures Occurrences(HeadingOf(gs, i), Heading(c)) ==
              if gs[i].category == c && PrevCategory(gs, i) != c then 1 else 0
  {
    var hd := HeadingOf(gs, i);
    if hd != [] {
      HeadingInjective(gs[i].category, c);
      assert hd == [Heading(gs[i].category)];
      if gs[i].category != c {
        OccurrencesAbsent(hd, Heading(c));
      } else {
        assert Filter(hd, EqualTo(Heading(c))) == hd;
      }
    } else {
      OccurrencesAbsent(hd, Heading(c));
    }
  }

  lemma HeadingInjective(a: string, b: string)
    ensures Heading(a) == Heading(b) <==> a == b
  {
    if Heading(a) == Heading(b) {
      assert a == Heading(a)[4..] && b == Heading(b)[4..];
    }
  }

  /** A group's own lines are never headings. */
  lemma BlockHasNoHeading(g: Group, c: string)
    ensures Occurrences(GroupBlock(g), Heading(c)) == 0
  {
    var b := GroupBlock(g);
    assert EntryLine(g)[0] == '-';
    forall k | 0 <= k < |b| ensures b[k] != Heading(c) {
      assert Heading(c)[0] == '\n';
      if 0 < k < 1 + Min(|g.refs|, MAX_REFS) {
        assert b[k] == RefLine(g.refs[k - 1]);
      }
    }
    OccurrencesAbsent(b, Heading(c));
  }

  /** The document opens with the front matter and title, and its last four lines are
      the guardrail bullets, whatever the groups. */
  lemma FrameLines(gs: seq<Group>, ts: string)
    ensures var lines := MdcLines(gs, ts);
            && |lines| >= |HeaderLines(ts)| + 1 + |FOOTER|
            && lines[..|HeaderLines(ts)|] == HeaderLines(ts)
            && lines[|lines| - 4..] == FOOTER[2..]
    ensures EndsWith(Join(MdcLines(gs, ts), "\n"), "\n" + Join(FOOTER[2..], "\n"))
  {
    var lines := MdcLines(gs, ts);
    if gs != [] {
      assert |Body(gs)| >= 1 by { SectionsNonEmpty(gs, |gs|); }
    }
    assert lines[|lines| - 4..] == FOOTER[2..];
    FooterJoined(HeaderLines(ts) + Body(gs), FOOTER);
  }

  /** Helper: the text joined from lines that end with `footer` ends with its last four. */
  lemma FooterJoined(front: seq<string>, footer: seq<string>)
    requires front != [] && |footer| == 6
    ensures EndsWith(Join(front + footer, "\n"), "\n" + Join(footer[2..], "\n"))
  {
    assert (front + footer[..2]) + footer[2..] == front + footer;
    JoinAppend(front + footer[..2], footer[2..], "\n");
  }

  /** Helper: each section contributes at least its heading line. */
  lemma SectionsNonEmpty(gs: seq<Group>, n: nat)
    requires 0 < n <= |gs|
    ensures |Sections(gs, n)| >= n
    decreases n
  {
    if n > 1 {
      SectionsNonEmpty(gs, n - 1);
    }
  }
}
