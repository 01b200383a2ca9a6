/** `scripts/merge-rules.cjs`: writes `.cursor/rules/rules.mdc` from the hand-written rule
    files of `.cursor/rules`, followed by the generated ones of `.cursor/rules/auto`. */
module MergeRules {
  import opened Wrappers
  import opened Strings
  import opened Paths
  import opened Seqs
  import opened Sorting

  const RULES_DIR: string := ".cursor/rules"
  const AUTO_DIR: string := PathJoin(RULES_DIR, "auto")
  const OUT_FILE: string := PathJoin(RULES_DIR, "rules.mdc")

  /** What the script sees of the file system: the entry names of every directory that
      exists, in `readdirSync` order, and the text of every file that exists. */
  datatype Fs = Fs(dirs: map<string, seq<string>>, files: map<string, string>)

  /** Entry names read from a directory never hold the separator. */
  predicate NamesPlain(fs: Fs) {
    forall d :: d in fs.dirs ==> forall k :: 0 <= k < |fs.dirs[d]| ==> Free(fs.dirs[d][k], '/')
  }

  /** `readIfExists`: the text of a file, or "" when it does not exist. */
  function ReadIfExists(fs: Fs, p: string): string {
    if p in fs.files then fs.files[p] else ""
  }

  predicate IsMdc(name: string) {
    EndsWith(name, ".mdc")
  }

  /** Every name joined to the directory. */
  function JoinAll(dir: string, names: seq<string>): (r: seq<string>)
    ensures |r| == |names|
    ensures forall k :: 0 <= k < |names| ==> r[k] == PathJoin(dir, names[k])
  {
    seq(|names|, k requires 0 <= k < |names| => PathJoin(dir, names[k]))
  }

  /** `listMdc(dir)`. */
  function ListMdc(fs: Fs, dir: string): seq<string> {
    if dir !in fs.dirs then [] else SortBy(JoinAll(dir, Filter(fs.dirs[dir], IsMdc)), LexLe)
  }

  /** `listMdc` gives nothing for a missing directory, and otherwise the paths of exactly
      the directory's `.mdc` entries, in sorted order. */
  lemma ListMdcSpec(fs: Fs, dir: string)
    ensures dir !in fs.dirs ==> ListMdc(fs, dir) == []
    ensures SortedBy(ListMdc(fs, dir), LexLe)
    ensures forall p :: p in ListMdc(fs, dir) <==>
      dir in fs.dirs && exists n :: n in fs.dirs[dir] && IsMdc(n) && p == PathJoin(dir, n)
  {
    LexLePreorder();
    if dir in fs.dirs {
      var names := fs.dirs[dir];
      var mdc := Filter(names, IsMdc);
      FilterMembers(names, IsMdc);
      var joined := JoinAll(dir, mdc);
      SortBySorted(joined, LexLe);
      assert multiset(ListMdc(fs, dir)) == multiset(joined);
      forall p ensures p in ListMdc(fs, dir) <==> exists n :: n in names && IsMdc(n) && p == PathJoin(dir, n) {
        assert p in ListMdc(fs, dir) <==> p in multiset(joined);
        if p in joined {
          var k :| 0 <= k < |joined| && joined[k] == p;
          assert mdc[k] in names && IsMdc(mdc[k]);
        }
        if exists n :: n in names && IsMdc(n) && p == PathJoin(dir, n) {
          var n :| n in names && IsMdc(n) && p == PathJoin(dir, n);
          assert n in mdc;
          var k :| 0 <= k < |mdc| && mdc[k] == n;
          assert joined[k] == p;
        }
      }
    } else {
      SortBySorted([], LexLe);
    }
  }

  /** The static-file filter: no path that includes `rules.mdc` or `/auto/`. */
  predicate KeepStatic(f: string) {
    !Contains(f, "rules.mdc") && !Contains(f, "/auto/")
  }

  function StaticFiles(fs: Fs): seq<string> {
    Filter(ListMdc(fs, RULES_DIR), KeepStatic)
  }

  function AutoFiles(fs: Fs): seq<string> {
    ListMdc(fs, AUTO_DIR)
  }

  /** The static files are the listed `.mdc` files of the rules directory that pass the
      filter, still in sorted order. */
  lemma StaticFilesSpec(fs: Fs)
    ensures SortedBy(StaticFiles(fs), LexLe)
    ensures IsSubsequence(StaticFiles(fs), ListMdc(fs, RULES_DIR))
    ensures forall f :: f in StaticFiles(fs) <==> f in ListMdc(fs, RULES_DIR) && KeepStatic(f)
  {
    ListMdcSpec(fs, RULES_DIR);
    FilterSorted(ListMdc(fs, RULES_DIR), KeepStatic, LexLe);
    FilterIsSubsequence(ListMdc(fs, RULES_DIR), KeepStatic);
    FilterMembers(ListMdc(fs, RULES_DIR), KeepStatic);
  }

  /** `includes` also finds what the tail of a string includes. */
  lemma ContainsInTail(pre: string, s: string, sub: string)
    requires Contains(s, sub)
    ensures Contains(pre + s, sub)
  {
    ContainsAt(s, sub);
    ContainsAt(pre + s, sub);
    var i :| OccursAt(s, sub, i);
    assert (pre + s)[|pre| + i..|pre| + i + |sub|] == s[i..i + |sub|];
    assert OccursAt(pre + s, sub, |pre| + i);
  }

  /** The merged output itself is never merged back in, and neither is any other entry
      whose name includes `rules.mdc` (such as `team-rules.mdc`), though it is listed. */
  lemma StaticSkipsRulesMdc(fs: Fs, n: string)
    requires Contains(n, "rules.mdc")
    ensures PathJoin(RULES_DIR, n) !in StaticFiles(fs)
  {
    ContainsInTail(RULES_DIR + "/", n, "rules.mdc");
    StaticFilesSpec(fs);
  }

  /** An entry of the rules directory never has `/auto/` in its path, so that half of the
      filter removes nothing. */
  lemma NoAutoSegment(n: string)
    requires Free(n, '/')
    ensures !Contains(PathJoin(RULES_DIR, n), "/auto/")
  {
    var p := PathJoin(RULES_DIR, n);
    ContainsAt(p, "/auto/");
    assert p == ".cursor/rules/" + n;
    assert p[..14] == ".cursor/rules/";
    forall i | 0 <= i <= |p| - 6 ensures !OccursAt(p, "/auto/", i) {
      var w := p[i..i + 6];
      assert w[0] == p[i] && w[5] == p[i + 5];
      if i + 5 >= 14 {
        assert w[5] == n[i + 5 - 14];
      } else {
        assert p[i] == ".cursor/rules/"[i] && p[i + 5] == ".cursor/rules/"[i + 5];
        assert w[0] != '/' || w[5] != '/';
      }
      assert "/auto/"[0] == '/' && "/auto/"[5] == '/';
    }
  }

  /** So, on a real file system, the static files are the listed ones whose path does not
      include `rules.mdc`. */
  lemma StaticFilesPlain(fs: Fs)
    requires NamesPlain(fs)
    ensures forall f :: f in StaticFiles(fs) <==> f in ListMdc(fs, RULES_DIR) && !Contains(f, "rules.mdc")
  {
    StaticFilesSpec(fs);
    ListMdcSpec(fs, RULES_DIR);
    forall f | f in ListMdc(fs, RULES_DIR) ensures !Contains(f, "/auto/") {
      var n :| n in fs.dirs[RULES_DIR] && IsMdc(n) && f == PathJoin(RULES_DIR, n);
      NoAutoSegment(n);
    }
  }

  /** A path in the rules directory is never one in the generated-rules directory. */
  lemma JoinedDiffer(n: string, m: string)
    requires Free(n, '/')
    ensures PathJoin(RULES_DIR, n) != PathJoin(AUTO_DIR, m)
  {
    var a, b := PathJoin(RULES_DIR, n), PathJoin(AUTO_DIR, m);
    assert |b| >= 19 && b[18] == '/';
    if |a| >= 19 {
      assert a[18] == n[4];
    }
  }

  /** On a real file system no file is merged as both a static and a generated rule. */
  lemma StaticAutoDisjoint(fs: Fs, f: string)
    requires NamesPlain(fs)
    requires f in StaticFiles(fs)
    ensures f !in AutoFiles(fs)
  {
    StaticFilesSpec(fs);
    ListMdcSpec(fs, RULES_DIR);
    ListMdcSpec(fs, AUTO_DIR);
    var n :| n in fs.dirs[RULES_DIR] && IsMdc(n) && f == PathJoin(RULES_DIR, n);
    forall m ensures f != PathJoin(AUTO_DIR, m) {
      JoinedDiffer(n, m);
    }
  }

  const HEADER_OPEN: string := "\n\n<!-- ===== "
  const HEADER_CLOSE: string := " ===== -->\n"
  const STATIC_TITLE: string := "STATIC RULES"
  const AUTO_TITLE: string := "AUTO-GENERATED RULES"

  /** `loadSectionHeader(title)`. */
  function SectionHeader(title: string): string {
    HEADER_OPEN + title + HEADER_CLOSE
  }

  /** Reads the title back out of a section header. */
  function ParseSectionHeader(s: string): Option<string> {
    if |s| >= |HEADER_OPEN| + |HEADER_CLOSE| && StartsWith(s, HEADER_OPEN) && EndsWith(s, HEADER_CLOSE)
    then Some(s[|HEADER_OPEN|..|s| - |HEADER_CLOSE|])
    else None
  }

  /** A section header gives back its title. */
  lemma SectionHeaderRoundTrip(title: string)
    ensures ParseSectionHeader(SectionHeader(title)) == Some(title)
  {
    var s := SectionHeader(title);
    assert s[..|HEADER_OPEN|] == HEADER_OPEN;
    assert s[|s| - |HEADER_CLOSE|..] == HEADER_CLOSE;
    assert s[|HEADER_OPEN|..|s| - |HEADER_CLOSE|] == title;
  }

  /** ... and only a section header reads as one. */
  lemma SectionHeaderParsed(s: string, title: string)
    requires ParseSectionHeader(s) == Some(title)
    ensures SectionHeader(title) == s
  {
    assert s == s[..|HEADER_OPEN|] + s[|HEADER_OPEN|..|s| - |HEADER_CLOSE|] + s[|s| - |HEADER_CLOSE|..];
  }

  const FILE_OPEN: string := "\n<!-- file: "
  const FILE_CLOSE: string := " -->\n\n"

  /** What one rule file adds to the output: a marker naming it, then its trimmed text. */
  function FileSection(fs: Fs, f: string): string {
    FILE_OPEN + BaseName(f) + FILE_CLOSE + Trim(ReadIfExists(fs, f)) + "\n"
  }

  /** The sections of the files, in order. */
  function Sections(fs: Fs, files: seq<string>): string
    decreases |files|
  {
    if files == [] then "" else Sections(fs, files[..|files| - 1]) + FileSection(fs, files[|files| - 1])
  }

  /** The section of a listed file names its directory entry and holds that file's trimmed
      text, or nothing when the file is gone. */
  lemma FileSectionOf(fs: Fs, dir: string, n: string)
    requires Free(n, '/')
    ensures FileSection(fs, PathJoin(dir, n)) ==
      FILE_OPEN + n + FILE_CLOSE + (if PathJoin(dir, n) in fs.files then Trim(fs.files[PathJoin(dir, n)]) else "") + "\n"
  {
    BaseNameOfJoin(dir, n);
  }

  lemma {:induction false} SectionsAppend(fs: Fs, a: seq<string>, b: seq<string>)
    ensures Sections(fs, a + b) == Sections(fs, a) + Sections(fs, b)
    decreases |b|
  {
    if b != [] {
      var b', x := b[..|b| - 1], b[|b| - 1];
      assert b == b' + [x];
      assert a + b == (a + b') + [x];
      SectionsAppend(fs, a, b');
      SectionsSnoc(fs, a + b', x);
      SectionsSnoc(fs, b', x);
      ConcatAssoc(Sections(fs, a), Sections(fs, b'), FileSection(fs, x));
    } else {
      assert a + b == a;
      var sa := Sections(fs, a);
      assert sa + [] == sa;
    }
  }

  lemma SectionsSnoc(fs: Fs, p: seq<string>, x: string)
    ensures Sections(fs, p + [x]) == Sections(fs, p) + FileSection(fs, x)
  {
    assert (p + [x])[..|p|] == p;
  }

  const BANNER: string :=
    "<!-- GENERATED: Do not edit by hand. "
    + "Run `node scripts/analyze-patterns.cjs && "
    + "node scripts/merge-rules.cjs` -->\n"
  const TITLE: string := "# Cursor Rules (Merged)\n\n"
  const INTRO: string :=
    "This file merges **static** rules (hand-written) first, "
    + "then **auto-generated** rules.\n"
    + "Static rules take precedence when guidance overlaps.\n"

  function Preamble(): string {
    BANNER + TITLE + INTRO
  }

  /** The text `main` writes, around the static and the generated sections. */
  function Layout(staticBody: string, autoBody: string): string {
    Preamble() + SectionHeader(STATIC_TITLE) + staticBody + SectionHeader(AUTO_TITLE) + autoBody
  }

  /** The text `main` writes for the given static and generated rule files. */
  function Document(fs: Fs, statics: seq<string>, autos: seq<string>): string {
    Layout(Sections(fs, statics), Sections(fs, autos))
  }

  /** The text `main` writes. */
  function MergedText(fs: Fs): string {
    Document(fs, StaticFiles(fs), AutoFiles(fs))
  }

  /** The sections of a list are those before file `k`, then its own, then those after. */
  lemma SectionsSplit(fs: Fs, files: seq<string>, k: nat)
    requires k < |files|
    ensures Sections(fs, files) == Sections(fs, files[..k]) + FileSection(fs, files[k]) + Sections(fs, files[k + 1..])
  {
    assert files == files[..k] + [files[k]] + files[k + 1..];
    SectionsAppend(fs, files[..k] + [files[k]], files[k + 1..]);
    SectionsAppend(fs, files[..k], [files[k]]);
    assert ([] + [files[k]])[..0] == [];
  }

  lemma LayoutOpens(staticBody: string, autoBody: string)
    ensures StartsWith(Layout(staticBody, autoBody), BANNER + TITLE)
    ensures StartsWith(Layout(staticBody, autoBody), Preamble() + SectionHeader(STATIC_TITLE))
  {
    var rest := staticBody + SectionHeader(AUTO_TITLE) + autoBody;
    var text := Layout(staticBody, autoBody);
    assert text == (Preamble() + SectionHeader(STATIC_TITLE)) + rest;
    assert text[..|Preamble() + SectionHeader(STATIC_TITLE)|] == Preamble() + SectionHeader(STATIC_TITLE);
    assert text == BANNER + TITLE + (INTRO + SectionHeader(STATIC_TITLE) + rest);
    assert text[..|BANNER + TITLE|] == BANNER + TITLE;
  }

  /** The document opens with the banner and the title, then the introduction and the
      static-rules header. */
  lemma DocumentOpens(fs: Fs, statics: seq<string>, autos: seq<string>)
    ensures StartsWith(Document(fs, statics, autos), BANNER + TITLE)
    ensures StartsWith(Document(fs, statics, autos), Preamble() + SectionHeader(STATIC_TITLE))
  {
    LayoutOpens(Sections(fs, statics), Sections(fs, autos));
  }

  /** Helper: the layout with one static section singled out, regrouped. */
  lemma SpliceStatic(a: string, f: string, b: string, autoBody: string)
    ensures Layout(a + f + b, autoBody) ==
      Preamble() + SectionHeader(STATIC_TITLE) + a + f + b + SectionHeader(AUTO_TITLE) + autoBody
  {
    var x := Preamble() + SectionHeader(STATIC_TITLE);
    ConcatAssoc(x, a + f, b);
    ConcatAssoc(x, a, f);
  }

  /** Helper: the layout with one generated section singled out, regrouped. */
  lemma SpliceAuto(staticBody: string, a: string, f: string, b: string)
    ensures Layout(staticBody, a + f + b) ==
      Preamble() + SectionHeader(STATIC_TITLE) + staticBody + SectionHeader(AUTO_TITLE) + a + f + b
  {
    var x := Preamble() + SectionHeader(STATIC_TITLE) + staticBody + SectionHeader(AUTO_TITLE);
    ConcatAssoc(x, a + f, b);
    ConcatAssoc(x, a, f);
  }

  /** Helper: how `main` builds its text, one piece after another. */
  lemma Built(s1: string, s2: string)
    ensures "" + BANNER + TITLE + INTRO + SectionHeader(STATIC_TITLE) + s1 + SectionHeader(AUTO_TITLE) + s2 == Layout(s1, s2)
  {
    assert "" + BANNER == BANNER;
  }

  /** The section of static file `i` follows those of the static files before it and
      precedes those after it, and all of them come before the generated-rules header. */
  lemma DocumentStaticPart(fs: Fs, statics: seq<string>, autos: seq<string>, i: nat)
    requires i < |statics|
    ensures Document(fs, statics, autos) ==
      Preamble() + SectionHeader(STATIC_TITLE)
      + Sections(fs, statics[..i]) + FileSection(fs, statics[i]) + Sections(fs, statics[i + 1..])
      + SectionHeader(AUTO_TITLE) + Sections(fs, autos)
  {
    SectionsSplit(fs, statics, i);
    SpliceStatic(Sections(fs, statics[..i]), FileSection(fs, statics[i]), Sections(fs, statics[i + 1..]), Sections(fs, autos));
  }

  /** The section of generated file `j` follows the generated-rules header and the
      sections of the generated files before it, and precedes those after it. */
  lemma DocumentAutoPart(fs: Fs, statics: seq<string>, autos: seq<string>, j: nat)
    requires j < |autos|
    ensures Document(fs, statics, autos) ==
      Preamble() + SectionHeader(STATIC_TITLE) + Sections(fs, statics) + SectionHeader(AUTO_TITLE)
      + Sections(fs, autos[..j]) + FileSection(fs, autos[j]) + Sections(fs, autos[j + 1..])
  {
    SectionsSplit(fs, autos, j);
    SpliceAuto(Sections(fs, statics), Sections(fs, autos[..j]), FileSection(fs, autos[j]), Sections(fs, autos[j + 1..]));
  }

  /** What a run of the script does: fail with an exit code and write nothing, or write a
      file (and report how many rule files went into it). */
  datatype Outcome = Failed(code: int) | Wrote(path: string, text: string, staticCount: nat, autoCount: nat)

  /** One of the loops of `main`: the sections of the files, appended to `out0`. */
  method AppendSections(fs: Fs, out0: string, files: seq<string>) returns (out: string)
    ensures out == out0 + Sections(fs, files)
  {
    out := out0;
    for i := 0 to |files|
      invariant out == out0 + Sections(fs, files[..i])
    {
      assert files[..i + 1][..i] == files[..i];
      out := out + FileSection(fs, files[i]);
    }
    assert files[..|files|] == files;
  }

  /** `main`: with no rules directory, exit code 1 and nothing written; otherwise the
      merged text written to `.cursor/rules/rules.mdc`. */
  method Merge(fs: Fs) returns (outcome: Outcome)
    ensures RULES_DIR !in fs.dirs ==> outcome == Failed(1)
    ensures RULES_DIR in fs.dirs ==>
      outcome == Wrote(OUT_FILE, MergedText(fs), |StaticFiles(fs)|, |AutoFiles(fs)|)
  {
    if RULES_DIR !in fs.dirs {
      return Failed(1);
    }
    var staticFiles := StaticFiles(fs);
    var autoFiles := AutoFiles(fs);
    var out := "";
    // The two loops of `main`, one per group of files.
    out := out + BANNER;
    out := out + TITLE;
    out := out + INTRO;
    out := out + SectionHeader(STATIC_TITLE);
    out := AppendSections(fs, out, staticFiles);
    out := out + SectionHeader(AUTO_TITLE);
    out := AppendSections(fs, out, autoFiles);
    Built(Sections(fs, staticFiles), Sections(fs, autoFiles));
    return Wrote(OUT_FILE, out, |staticFiles|, |autoFiles|);
  }
}
