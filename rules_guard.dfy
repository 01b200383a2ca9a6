/** `scripts/rules-guard.cjs`: fails a change set that touches architecture paths but no
    rule file under `.cursor/rules/`, unless bypass labels are given. */
module RulesGuard {
  import opened Wrappers
  import opened Strings
  import opened Seqs
  import opened Objects

  /** `filter(Boolean)` on strings. */
  predicate NonEmpty(s: string) {
    s != ""
  }

  /** `map((s) => s.trim())`. */
  function TrimAll(ps: seq<string>): (r: seq<string>)
    ensures |r| == |ps|
    ensures forall k :: 0 <= k < |ps| ==> r[k] == Trim(ps[k])
  {
    seq(|ps|, k requires 0 <= k < |ps| => Trim(ps[k]))
  }

  /** `BYPASS`, from the value of `RULES_BYPASS_LABELS` ("" when it is unset). */
  function Bypass(labels: string): seq<string> {
    Filter(TrimAll(Split(labels, ',')), NonEmpty)
  }

  /** A label as `BYPASS` holds it: not empty, no comma, no white space at either end. */
  predicate IsLabel(l: string) {
    l != [] && Free(l, ',') && !IsSpace(l[0]) && !IsSpace(l[|l| - 1])
  }

  /** A trimmed piece of a comma-free string is comma-free. */
  lemma TrimFree(s: string, c: char)
    requires Free(s, c)
    ensures Free(Trim(s), c)
  {
    TrimIsSlice(s);
    var i, r := LeadingSpace(s), Trim(s);
    forall k | 0 <= k < |r| ensures r[k] != c {
      assert r[k] == s[i + k];
    }
  }

  /** Trimming comma-free pieces and dropping the empty ones leaves labels. */
  lemma LabelsOfPieces(ps: seq<string>)
    requires forall k :: 0 <= k < |ps| ==> Free(ps[k], ',')
    ensures forall k :: 0 <= k < |Filter(TrimAll(ps), NonEmpty)| ==> IsLabel(Filter(TrimAll(ps), NonEmpty)[k])
  {
    var t := TrimAll(ps);
    forall j | 0 <= j < |t| ensures t[j] != [] ==> IsLabel(t[j]) {
      TrimFree(ps[j], ',');
    }
    var b := Filter(t, NonEmpty);
    FilterMembers(t, NonEmpty);
    forall k | 0 <= k < |b| ensures IsLabel(b[k]) {
      assert b[k] in t;
    }
  }

  /** The bypass list holds the comma-separated pieces of the variable, trimmed, in order,
      with the empty ones left out; every one of them is a label. */
  lemma BypassSpec(labels: string)
    ensures IsSubsequence(Bypass(labels), TrimAll(Split(labels, ',')))
    ensures forall k :: 0 <= k < |Bypass(labels)| ==> IsLabel(Bypass(labels)[k])
  {
    SplitJoin(labels, ',');
    LabelsOfPieces(Split(labels, ','));
    FilterIsSubsequence(TrimAll(Split(labels, ',')), NonEmpty);
  }

  /** Trimming labels changes none of them. */
  lemma TrimAllLabels(ls: seq<string>)
    requires forall k :: 0 <= k < |ls| ==> IsLabel(ls[k])
    ensures TrimAll(ls) == ls
  {
    forall k | 0 <= k < |ls| ensures Trim(ls[k]) == ls[k] {
      TrimUnpadded(ls[k]);
    }
  }

  /** Labels joined with commas are read back as the same list. */
  lemma BypassRoundTrip(ls: seq<string>)
    requires forall k :: 0 <= k < |ls| ==> IsLabel(ls[k])
    ensures Bypass(Join(ls, ",")) == ls
  {
    if ls == [] {
      assert Split("", ',') == [""];
      assert TrimAll([""]) == [""];
    } else {
      JoinSplit(ls, ',');
      TrimAllLabels(ls);
      FilterAll(ls, NonEmpty);
    }
  }

  /** One element of a path pattern: a literal character, or an unescaped `.`. */
  datatype Atom = Lit(c: char) | AnyChar

  /** An anchored pattern `^atoms`, ending in `$` when `toEnd` holds. */
  datatype Pattern = Pattern(atoms: seq<Atom>, toEnd: bool)

  function Lits(s: string): (r: seq<Atom>)
    ensures |r| == |s|
    ensures forall k :: 0 <= k < |s| ==> r[k] == Lit(s[k])
  {
    seq(|s|, k requires 0 <= k < |s| => Lit(s[k]))
  }

  /** A `.` matches any character but a line terminator. */
  predicate AtomMatches(a: Atom, c: char) {
    if a.Lit? then c == a.c else !IsLineTerminator(c)
  }

  /** `new RegExp(rx).test(f)` for an anchored pattern. */
  predicate Test(p: Pattern, f: string) {
    && |p.atoms| <= |f|
    && (forall k :: 0 <= k < |p.atoms| ==> AtomMatches(p.atoms[k], f[k]))
    && (p.toEnd ==> |f| == |p.atoms|)
  }

  /** The `watched` patterns, in order. */
  const WATCHED: seq<Pattern> := [
    Pattern(Lits("src/app/api/"), false),
    Pattern(Lits("src/lib/auth/"), false),
    Pattern(Lits("src/lib/db/"), false),
    Pattern(Lits("src/types/"), false),
    Pattern(Lits("src/lib/"), false),
    Pattern(Lits("next.config."), false),
    Pattern(Lits("middleware."), false),
    Pattern(Lits(".env.example"), true),
    Pattern(Lits("docker/"), false),
    Pattern(Lits("infra/"), false),
    Pattern([AnyChar] + Lits("cursor/rules/"), false),
    Pattern(Lits("package") + [AnyChar] + Lits("json"), true)
  ]

  /** `ps.some((rx) => new RegExp(rx).test(f))`. */
  predicate SomeTest(ps: seq<Pattern>, f: string)
    decreases |ps|
  {
    ps != [] && (Test(ps[0], f) || SomeTest(ps[1..], f))
  }

  lemma {:induction false} SomeTestExists(ps: seq<Pattern>, f: string)
    ensures SomeTest(ps, f) <==> exists k :: 0 <= k < |ps| && Test(ps[k], f)
    decreases |ps|
  {
    if ps != [] {
      SomeTestExists(ps[1..], f);
      if exists k :: 0 <= k < |ps| && Test(ps[k], f) {
        var k :| 0 <= k < |ps| && Test(ps[k], f);
        if k > 0 {
          assert ps[1..][k - 1] == ps[k];
        }
      }
      if SomeTest(ps[1..], f) {
        var k :| 0 <= k < |ps[1..]| && Test(ps[1..][k], f);
        assert ps[k + 1] == ps[1..][k];
      }
    }
  }

  lemma SomeTestAt(ps: seq<Pattern>, k: nat, f: string)
    requires k < |ps| && Test(ps[k], f)
    ensures SomeTest(ps, f)
  {
    SomeTestExists(ps, f);
  }

  predicate IsWatched(f: string) {
    SomeTest(WATCHED, f)
  }

  /** `ruleFiles.test(f)` for `/^\.cursor\/rules\//`. */
  predicate IsRuleFile(f: string) {
    StartsWith(f, ".cursor/rules/")
  }

  /** A pattern of literal characters matches exactly the paths that start with them, or,
      anchored at the end too, exactly that path. */
  lemma LiteralPattern(s: string, toEnd: bool, f: string)
    ensures Test(Pattern(Lits(s), toEnd), f) <==> if toEnd then f == s else StartsWith(f, s)
  {
    if Test(Pattern(Lits(s), toEnd), f) {
      assert f[..|s|] == s;
    }
    if StartsWith(f, s) {
      assert forall k :: 0 <= k < |s| ==> f[k] == f[..|s|][k];
    }
  }

  /** The unescaped dot of `^.cursor/rules/` matches any character but a line terminator. */
  lemma DotRulesWatched(c: char, rest: string)
    requires !IsLineTerminator(c)
    ensures IsWatched([c] + "cursor/rules/" + rest)
  {
    var f := [c] + "cursor/rules/" + rest;
    var p := WATCHED[10];
    assert p.atoms == [AnyChar] + Lits("cursor/rules/");
    forall k | 0 <= k < |p.atoms| ensures AtomMatches(p.atoms[k], f[k]) {
      if k > 0 {
        assert p.atoms[k] == Lit("cursor/rules/"[k - 1]);
        assert f[k] == "cursor/rules/"[k - 1];
      }
    }
    SomeTestAt(WATCHED, 10, f);
  }

  /** Every rule file is itself a watched path, through the `^.cursor/rules/` pattern. */
  lemma RuleFileWatched(f: string)
    requires IsRuleFile(f)
    ensures IsWatched(f)
  {
    assert f == ['.'] + "cursor/rules/" + f[14..] by {
      assert f[..14] == ".cursor/rules/";
    }
    DotRulesWatched('.', f[14..]);
  }

  /** So a path that merely looks like a rule file is watched too. */
  lemma LooseRulesDot()
    ensures IsWatched("xcursor/rules/a") && !IsRuleFile("xcursor/rules/a")
  {
    DotRulesWatched('x', "a");
    assert ['x'] + "cursor/rules/" + "a" == "xcursor/rules/a";
    assert "xcursor/rules/a"[0] != '.';
  }

  /** The unescaped dot of `^package.json$` matches any character too. */
  lemma LoosePackageDot()
    ensures IsWatched("packageXjson")
  {
    var b := "packageXjson";
    var p := WATCHED[11];
    forall k | 0 <= k < |p.atoms| ensures AtomMatches(p.atoms[k], b[k]) {
      if k < 7 {
        assert p.atoms[k] == Lit("package"[k]);
      } else if k > 7 {
        assert p.atoms[k] == Lit("json"[k - 8]);
      }
    }
    SomeTestAt(WATCHED, 11, b);
  }

  /** `changedFiles`, from the output of `git diff --name-only`: its non-empty lines. */
  function ChangedFiles(out: string): seq<string> {
    Filter(Split(out, '\n'), NonEmpty)
  }

  /** The changed files are the lines of the output in order, and hold no line feed. */
  lemma ChangedFilesSpec(out: string)
    ensures IsSubsequence(ChangedFiles(out), Split(out, '\n'))
    ensures forall k :: 0 <= k < |ChangedFiles(out)| ==> ChangedFiles(out)[k] != "" && Free(ChangedFiles(out)[k], '\n')
  {
    SplitJoin(out, '\n');
    FilterIsSubsequence(Split(out, '\n'), NonEmpty);
    FilterMembers(Split(out, '\n'), NonEmpty);
    forall k | 0 <= k < |ChangedFiles(out)| ensures Free(ChangedFiles(out)[k], '\n') {
      var f := ChangedFiles(out)[k];
      assert f in Split(out, '\n');
      var j :| 0 <= j < |Split(out, '\n')| && Split(out, '\n')[j] == f;
    }
  }

  /** A list of non-empty paths printed one per line is read back as the same list. */
  lemma ChangedFilesRoundTrip(files: seq<string>)
    requires forall k :: 0 <= k < |files| ==> files[k] != "" && Free(files[k], '\n')
    ensures ChangedFiles(Join(files, "\n")) == files
  {
    if files == [] {
      assert Split("", '\n') == [""];
    } else {
      JoinSplit(files, '\n');
      FilterAll(files, NonEmpty);
    }
  }

  function TouchedWatched(files: seq<string>): seq<string> {
    Filter(files, IsWatched)
  }

  function TouchedRules(files: seq<string>): seq<string> {
    Filter(files, IsRuleFile)
  }

  /** `touchedWatched` and `touchedRules` keep the changed files of their kind, in order. */
  lemma TouchedSpec(files: seq<string>)
    ensures IsSubsequence(TouchedWatched(files), files) && IsSubsequence(TouchedRules(files), files)
    ensures forall f :: f in TouchedWatched(files) <==> f in files && IsWatched(f)
    ensures forall f :: f in TouchedRules(files) <==> f in files && IsRuleFile(f)
  {
    FilterIsSubsequence(files, IsWatched);
    FilterIsSubsequence(files, IsRuleFile);
    FilterMembers(files, IsWatched);
    FilterMembers(files, IsRuleFile);
  }

  /** What the guard decides, in the order it checks. */
  datatype Verdict =
    | RulesOk                        // the `rules-ok` label
    | Labelled(labels: seq<string>)  // any other bypass labels
    | Drift(touched: seq<string>)    // watched paths changed, no rule file did
    | NoAction

  function Decide(bypass: seq<string>, files: seq<string>): Verdict {
    if "rules-ok" in bypass then RulesOk
    else if |bypass| > 0 then Labelled(bypass)
    else if |TouchedWatched(files)| > 0 && |TouchedRules(files)| == 0 then Drift(TouchedWatched(files))
    else NoAction
  }

  function ExitCode(v: Verdict): int {
    if v.Drift? then 1 else 0
  }

  /** The guard fails exactly when there are no bypass labels, some changed file is watched
      and none is a rule file. */
  lemma ExitOneIff(bypass: seq<string>, files: seq<string>)
    ensures ExitCode(Decide(bypass, files)) == 1 <==>
      && bypass == []
      && (exists f :: f in files && IsWatched(f))
      && !(exists f :: f in files && IsRuleFile(f))
  {
    TouchedSpec(files);
    var tw, tr := TouchedWatched(files), TouchedRules(files);
    if exists f :: f in files && IsWatched(f) {
      var f :| f in files && IsWatched(f);
      assert f in tw;
    }
    if exists f :: f in files && IsRuleFile(f) {
      var f :| f in files && IsRuleFile(f);
      assert f in tr;
    }
    if |tw| > 0 {
      assert tw[0] in files && IsWatched(tw[0]);
    }
    if |tr| > 0 {
      assert tr[0] in files && IsRuleFile(tr[0]);
    }
  }

  /** A change set of rule files only passes, though those files are watched. */
  lemma RulesOnlyPasses(bypass: seq<string>, files: seq<string>)
    requires files != [] && forall k :: 0 <= k < |files| ==> IsRuleFile(files[k])
    ensures forall k :: 0 <= k < |files| ==> IsWatched(files[k])
    ensures ExitCode(Decide(bypass, files)) == 0
  {
    forall k | 0 <= k < |files| ensures IsWatched(files[k]) {
      RuleFileWatched(files[k]);
    }
    ExitOneIff(bypass, files);
    assert files[0] in files && IsRuleFile(files[0]);
  }

  const BYPASS_REASONS: map<string, string> := map[
    "rules-ok" := "Architecture changes reviewed and rules updated",
    "security-patch" := "Emergency security fix - rules update deferred",
    "dependency-update" := "Routine dependency update - no arch impact"
  ]

  const RULES_OK_LINE: string := "\U{1F7E2} rules:guard bypassed by label"
  const LABELLED_LINE: string := "\U{1F7E1} rules:guard bypassed by labels:"
  const DRIFT_LINE: string :=
    "\U{1F536} rules:guard \U{2014} Architecture paths changed, "
    + "but no `.cursor/rules/*` updates detected.\n"
  const CHANGED_HEAD: string := "Changed arch files:"
  const BULLET: string := " - "
  const ADVICE: seq<string> := [
    "\nPlease either:",
    "1. Update the relevant `.cursor/rules/*.mdc` file(s)",
    "2. Add the `rules-ok` label to bypass this check",
    "3. Add `RULES_BYPASS_LABELS=rules-ok` to your environment\n"
  ]
  const NO_ACTION_LINE: string := "\U{2705} rules:guard \U{2014} no action needed."

  /** `BYPASS_REASONS[label]` is truthy: the label is one of the object's own keys (their
      texts are all non-empty) or names a member the object inherits. */
  predicate HasReason(name: string) {
    Get(BYPASS_REASONS, name).Some?
  }

  function ReasonLine(name: string): string
    requires HasReason(name)
  {
    "   " + name + ": " + Get(BYPASS_REASONS, name).value
  }

  /** A label has a reason line exactly when it is a key of the table or an inherited
      member's name; a key prints its own text, an inherited member the member as a
      template literal shows it, and any other label prints nothing. */
  lemma ReasonCases(name: string)
    ensures HasReason(name) <==> name in BYPASS_REASONS || Inherited(name)
    ensures name in BYPASS_REASONS ==> ReasonLines([name]) == ["   " + name + ": " + BYPASS_REASONS[name]]
    ensures name !in BYPASS_REASONS && Inherited(name) ==>
              ReasonLines([name]) == ["   " + name + ": " + PROTOTYPE_MEMBERS[name]]
    ensures !HasReason(name) ==> ReasonLines([name]) == []
  {
    assert [name][..0] == [];
  }

  /** The label `constructor` prints the `Object` function and `__proto__` the
      prototype object, although neither is a key of the table. */
  lemma InheritedReasons()
    ensures "constructor" !in BYPASS_REASONS && "__proto__" !in BYPASS_REASONS
    ensures ReasonLines(["constructor"]) == ["   " + "constructor" + ": " + NativeFunction("Object")]
    ensures ReasonLines(["__proto__"]) == ["   " + "__proto__" + ": " + "[object Object]"]
  {
    ReasonCases("constructor");
    ReasonCases("__proto__");
  }

  /** The `BYPASS.forEach` loop: a reason line for each label that has one, in order. */
  function ReasonLines(labels: seq<string>): seq<string>
    decreases |labels|
  {
    if labels == [] then []
    else
      var l := labels[|labels| - 1];
      ReasonLines(labels[..|labels| - 1]) + (if HasReason(l) then [ReasonLine(l)] else [])
  }

  /** The reason lines are those of the labels that have a reason, one each and in order. */
  lemma {:induction false} ReasonLinesSpec(labels: seq<string>)
    ensures |ReasonLines(labels)| == Count(labels, HasReason)
    ensures forall k :: 0 <= k < |ReasonLines(labels)| ==>
      ReasonLines(labels)[k] == ReasonLine(Filter(labels, HasReason)[k])
    decreases |labels|
  {
    if labels != [] {
      var init := labels[..|labels| - 1];
      ReasonLinesSpec(init);
      assert labels == init + [labels[|labels| - 1]];
      FilterAppend(init, [labels[|labels| - 1]], HasReason);
    }
  }

  /** The failure message: the changed watched files, one per bullet. */
  function DriftList(touched: seq<string>): string {
    CHANGED_HEAD + "\n" + BULLET + Join(touched, "\n" + BULLET)
  }

  /** What the guard prints, line by line. */
  function Report(v: Verdict): seq<string> {
    match v
    case RulesOk => [RULES_OK_LINE]
    case Labelled(labels) => [LABELLED_LINE + " " + Join(labels, ", ")] + ReasonLines(labels)
    case Drift(touched) => [DRIFT_LINE, DriftList(touched)] + ADVICE
    case NoAction => [NO_ACTION_LINE]
  }

  function Bullets(files: seq<string>): (r: seq<string>)
    ensures |r| == |files|
    ensures forall k :: 0 <= k < |files| ==> r[k] == BULLET + files[k]
  {
    seq(|files|, k requires 0 <= k < |files| => BULLET + files[k])
  }

  lemma JoinCons(x: string, ps: seq<string>, sep: string)
    requires ps != []
    ensures Join([x] + ps, sep) == x + sep + Join(ps, sep)
  {
    assert ([x] + ps)[1..] == ps;
  }

  /** Joining with a bullet after every line break is joining the bulleted lines. */
  lemma {:induction false} BulletJoin(files: seq<string>)
    requires files != []
    ensures BULLET + Join(files, "\n" + BULLET) == Join(Bullets(files), "\n")
    decreases |files|
  {
    if |files| > 1 {
      var bs := Bullets(files);
      assert bs[1..] == Bullets(files[1..]);
      BulletJoin(files[1..]);
      var rest := Join(files[1..], "\n" + BULLET);
      assert BULLET + (files[0] + ("\n" + BULLET) + rest) == BULLET + files[0] + "\n" + (BULLET + rest);
    }
  }

  /** Text before a bulleted join is the first line of the lines it makes. */
  lemma JoinBullets(h: string, files: seq<string>)
    requires files != []
    ensures h + "\n" + BULLET + Join(files, "\n" + BULLET) == Join([h] + Bullets(files), "\n")
  {
    JoinCons(h, Bullets(files), "\n");
    BulletJoin(files);
    ConcatAssoc(h + "\n", BULLET, Join(files, "\n" + BULLET));
  }

  /** The failure message lists exactly the changed watched files, one per line and in
      order, below its heading line. */
  lemma DriftListReadsBack(touched: seq<string>)
    requires touched != [] && forall k :: 0 <= k < |touched| ==> Free(touched[k], '\n')
    ensures Split(DriftList(touched), '\n') == [CHANGED_HEAD] + Bullets(touched)
  {
    JoinBullets(CHANGED_HEAD, touched);
    var lines := [CHANGED_HEAD] + Bullets(touched);
    forall k | 0 <= k < |lines| ensures Free(lines[k], '\n') {
      if k > 0 {
        assert lines[k] == BULLET + touched[k - 1];
      }
    }
    JoinSplit(lines, '\n');
  }

  /** The reason lines the `BYPASS.forEach` loop prints. */
  method PrintReasons(bypass: seq<string>) returns (lines: seq<string>)
    ensures lines == ReasonLines(bypass)
  {
    lines := [];
    for i := 0 to |bypass|
      invariant lines == ReasonLines(bypass[..i])
    {
      assert bypass[..i + 1][..i] == bypass[..i];
      var reason := Get(BYPASS_REASONS, bypass[i]);
      if reason.Some? {
        lines := lines + ["   " + bypass[i] + ": " + reason.value];
      }
    }
    assert bypass[..|bypass|] == bypass;
  }

  /** The decision sequence, from the bypass list and the changed files: the exit code
      and what is printed. */
  method Run(bypass: seq<string>, files: seq<string>) returns (code: int, lines: seq<string>)
    ensures code == ExitCode(Decide(bypass, files)) && lines == Report(Decide(bypass, files))
  {
    var touchedWatched := Filter(files, IsWatched);
    var touchedRules := Filter(files, IsRuleFile);
    if "rules-ok" in bypass {
      return 0, [RULES_OK_LINE];
    }
    if |bypass| > 0 {
      var reasons := PrintReasons(bypass);
      return 0, [LABELLED_LINE + " " + Join(bypass, ", ")] + reasons;
    }
    if |touchedWatched| > 0 && |touchedRules| == 0 {
      return 1, [DRIFT_LINE, DriftList(touchedWatched)] + ADVICE;
    }
    return 0, [NO_ACTION_LINE];
  }

  /** The script, from the label variable and the output of the git diff, or `None` when
      `git diff` fails: the error `execSync` throws in `changedFiles` is not caught, so the
      script then exits 1 before it reads the labels and prints none of its lines. */
  method Guard(labels: string, diff: Option<string>) returns (code: int, lines: seq<string>)
    ensures diff.None? ==> code == 1 && lines == []
    ensures diff.Some? ==> code == ExitCode(Decide(Bypass(labels), ChangedFiles(diff.value)))
    ensures diff.Some? ==> lines == Report(Decide(Bypass(labels), ChangedFiles(diff.value)))
    ensures diff.Some? && "rules-ok" in Bypass(labels) ==> code == 0 && lines == [RULES_OK_LINE]
    ensures diff.Some? && Bypass(labels) != [] ==> code == 0
  {
    if diff.None? {
      return 1, [];
    }
    var bypass := Bypass(labels);
    var files := ChangedFiles(diff.value);
    code, lines := Run(bypass, files);
  }
}
