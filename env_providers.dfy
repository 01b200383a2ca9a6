/** The providers view: reads `KEY=value` pairs from `.env` and `.env.example`, finds
    the provider names mentioned in the patterns summary, and renders a markdown page
    comparing the keys that are set with the providers the code references. */
module EnvProviders {
  import opened Wrappers
  import opened Strings
  import opened Seqs
  import opened Sorting

  /** Provider names and their environment keys, in declaration order. */
  const PROVIDER_KEYS: seq<(string, string)> := [
    ("openai", "OPENAI_API_KEY"),
    ("anthropic", "ANTHROPIC_API_KEY"),
    ("google-ai", "GOOGLE_GENERATIVE_AI_API_KEY"),
    ("xai", "XAI_API_KEY"),
    ("openrouter", "OPENROUTER_API_KEY"),
    ("ollama", "OLLAMA_BASE_URL")
  ]

  /** The names of some entries, in order (`Object.keys`, `.map(([name]) => name)`). */
  function NamesOf(entries: seq<(string, string)>): (ns: seq<string>)
    ensures |ns| == |entries|
    ensures forall i :: 0 <= i < |entries| ==> ns[i] == entries[i].0
  {
    seq(|entries|, i requires 0 <= i < |entries| => entries[i].0)
  }

  lemma ProviderNamesDistinct()
    ensures Distinct(NamesOf(PROVIDER_KEYS))
  {
    var ns := NamesOf(PROVIDER_KEYS);
    assert ns == ["openai", "anthropic", "google-ai", "xai", "openrouter", "ollama"];
  }

  /** `PROVIDER_KEYS[name]`; `None` stands for `undefined`. */
  function KeyOf(name: string): (k: Option<string>)
    ensures k.Some? <==> name in NamesOf(PROVIDER_KEYS)
  {
    Lookup(PROVIDER_KEYS, name)
  }

  function Lookup(entries: seq<(string, string)>, name: string): (k: Option<string>)
    ensures k.Some? <==> name in NamesOf(entries)
    ensures k.Some? ==> (name, k.value) in entries
    decreases |entries|
  {
    if entries == [] then None
    else if entries[0].0 == name then Some(entries[0].1)
    else
      var r := Lookup(entries[1..], name);
      assert NamesOf(entries) == [entries[0].0] + NamesOf(entries[1..]);
      r
  }

  /** Every provider's lookup gives back its own key. */
  lemma KeyOfProvider(i: nat)
    requires i < |PROVIDER_KEYS|
    ensures KeyOf(PROVIDER_KEYS[i].0) == Some(PROVIDER_KEYS[i].1)
  {
    ProviderNamesDistinct();
    var k := KeyOf(PROVIDER_KEYS[i].0);
    var j :| 0 <= j < |PROVIDER_KEYS| && PROVIDER_KEYS[j] == (PROVIDER_KEYS[i].0, k.value);
    assert NamesOf(PROVIDER_KEYS)[j] == NamesOf(PROVIDER_KEYS)[i];
  }

  // ---------------------------------------------------------------------------------
  // Reading an env file
  // ---------------------------------------------------------------------------------

  /** The characters of `[A-Z0-9_]`. */
  predicate IsKeyChar(c: char) {
    ('A' <= c <= 'Z') || ('0' <= c <= '9') || c == '_'
  }

  predicate IsKey(s: string) {
    s != [] && forall i :: 0 <= i < |s| ==> IsKeyChar(s[i])
  }

  /** Length of the longest run of key characters at the start of `s`. */
  function KeyLength(s: string): (n: nat)
    ensures n <= |s| && (forall i :: 0 <= i < n ==> IsKeyChar(s[i])) && (n == |s| || !IsKeyChar(s[n]))
    decreases |s|
  {
    if s != [] && IsKeyChar(s[0]) then 1 + KeyLength(s[1..]) else 0
  }

  /** Length of the part of `s` before its first line terminator: what `.*` can match. */
  function LineLength(s: string): (n: nat)
    ensures n <= |s| && (forall i :: 0 <= i < n ==> !IsLineTerminator(s[i]))
    ensures n == |s| || IsLineTerminator(s[n])
    decreases |s|
  {
    if s != [] && !IsLineTerminator(s[0]) then 1 + LineLength(s[1..]) else 0
  }

  /** `line.match(/^\s*([A-Z0-9_]+)\s*=\s*(.*)\s*$/)`, giving the two groups. Backtracking
      cannot change the outcome: white space cannot start a key and a key character
      cannot precede `=`, so the key is the maximal run after the leading white space. */
  function MatchEnvLine(line: string): (m: Option<(string, string)>)
    ensures m.Some? ==> IsKey(m.value.0)
  {
    var afterSpace := line[LeadingSpace(line)..];
    var k := KeyLength(afterSpace);
    var afterKey := afterSpace[k..];
    var b := LeadingSpace(afterKey);
    if k == 0 || b == |afterKey| || afterKey[b] != '=' then None
    else
      match MatchValue(afterKey[b + 1..])
      case None => None
      case Some(raw) => Some((afterSpace[..k], raw))
  }

  /** The `\s*(.*)\s*$` part after the `=`: the value group runs, after the white space
      that follows `=`, up to the first line terminator, and the match fails unless
      only white space follows it. */
  function MatchValue(rest: string): (raw: Option<string>)
    ensures raw.Some? ==> forall i :: 0 <= i < |raw.value| ==> !IsLineTerminator(raw.value[i])
  {
    var x := rest[LeadingSpace(rest)..];
    var n := LineLength(x);
    if AllSpace(x[n..]) then Some(x[..n]) else None
  }

  predicate IsQuote(c: char) {
    c == '"' || c == '\''
  }

  /** Whether `v` starts and ends with the same kind of quote; a lone quote does too. */
  predicate IsQuoted(v: string) {
    v != [] && IsQuote(v[0]) && v[|v| - 1] == v[0]
  }

  /** Drops the surrounding quotes (`val.slice(1, -1)`, empty for a lone quote). */
  function Unquote(v: string): (r: string)
    ensures IsQuoted(v) && |v| >= 2 ==> [v[0]] + r + [v[0]] == v
    ensures !IsQuoted(v) ==> r == v
  {
    if IsQuoted(v) then (if |v| >= 2 then v[1..|v| - 1] else "") else v
  }

  /** The pair a line assigns, if it matches. */
  function EnvEntry(line: string): Option<(string, string)> {
    match MatchEnvLine(line)
    case None => None
    case Some((key, raw)) => Some((key, Unquote(Trim(raw))))
  }

  function Entries(lines: seq<string>): (es: seq<Option<(string, string)>>)
    ensures |es| == |lines|
    ensures forall i :: 0 <= i < |lines| ==> es[i] == EnvEntry(lines[i])
  {
    seq(|lines|, i requires 0 <= i < |lines| => EnvEntry(lines[i]))
  }

  /** `out[key] = val` for each of the pairs in turn. */
  function Assign(entries: seq<Option<(string, string)>>): map<string, string>
    decreases |entries|
  {
    if entries == [] then map[]
    else
      var m := Assign(entries[..|entries| - 1]);
      var e := entries[|entries| - 1];
      if e.None? then m else m[e.value.0 := e.value.1]
  }

  lemma AssignStep(es: seq<Option<(string, string)>>, i: nat)
    requires i < |es|
    ensures Assign(es[..i + 1]) == if es[i].None? then Assign(es[..i]) else Assign(es[..i])[es[i].value.0 := es[i].value.1]
  {
    assert es[..i + 1][..i] == es[..i];
  }

  /** `loadEnvFile`: a file that does not exist (`None`) reads as the empty map. */
  function LoadedEnv(file: Option<string>): map<string, string> {
    if file.None? then map[] else Assign(Entries(SplitLines(file.value)))
  }

  method LoadEnvFile(file: Option<string>) returns (out: map<string, string>)
    ensures out == LoadedEnv(file)
  {
    if file.None? {
      return map[];
    }
    var lines := SplitLines(file.value);
    ghost var es := Entries(lines);
    out := map[];
    for i := 0 to |lines|
      invariant out == Assign(es[..i])
    {
      AssignStep(es, i);
      assert es[i] == EnvEntry(lines[i]);
      var m := MatchEnvLine(lines[i]);
      if m.None? {
        continue;
      }
      var key := m.value.0;
      var val := Trim(m.value.1);
      if IsQuoted(val) {
        val := if |val| >= 2 then val[1..|val| - 1] else "";
      }
      out := out[key := val];
    }
    assert es[..|lines|] == es;
  }

  lemma {:induction false} KeyLengthOfKey(key: string, s: string)
    requires forall i :: 0 <= i < |key| ==> IsKeyChar(key[i])
    requires s == [] || !IsKeyChar(s[0])
    ensures KeyLength(key + s) == |key|
    decreases |key|
  {
    if key == [] {
      assert key + s == s;
    } else {
      assert (key + s)[1..] == key[1..] + s;
      KeyLengthOfKey(key[1..], s);
    }
  }

  /** The key part: white space, a key, white space and `=` leave the rest to the value. */
  lemma KeyPart(w1: string, key: string, w2: string, rest: string)
    requires AllSpace(w1) && AllSpace(w2) && IsKey(key)
    ensures MatchEnvLine(w1 + key + w2 + "=" + rest) ==
      if MatchValue(rest).Some? then Some((key, MatchValue(rest).value)) else None
  {
    var afterSpace := key + (w2 + ("=" + rest));
    var line := w1 + afterSpace;
    assert w1 + key + w2 + "=" + rest == line;
    LeadingSpaceAppend(w1, afterSpace);
    assert line[|w1|..] == afterSpace;
    KeyThenEquals(key, w2, rest);
  }

  lemma KeyThenEquals(key: string, w2: string, rest: string)
    requires AllSpace(w2) && IsKey(key)
    ensures var afterSpace := key + (w2 + ("=" + rest));
      && KeyLength(afterSpace) == |key|
      && afterSpace[..|key|] == key
      && afterSpace[|key|..] == w2 + ("=" + rest)
      && LeadingSpace(w2 + ("=" + rest)) == |w2|
      && (w2 + ("=" + rest))[|w2|] == '='
      && (w2 + ("=" + rest))[|w2| + 1..] == rest
  {
    var tail := w2 + ("=" + rest);
    assert tail[0] == '=' || IsSpace(tail[0]);
    KeyLengthOfKey(key, tail);
    EqualsAfterSpace(w2, rest);
  }

  lemma EqualsAfterSpace(w2: string, rest: string)
    requires AllSpace(w2)
    ensures LeadingSpace(w2 + ("=" + rest)) == |w2|
    ensures (w2 + ("=" + rest))[|w2|] == '='
    ensures (w2 + ("=" + rest))[|w2| + 1..] == rest
  {
    var t := "=" + rest;
    LeadingSpaceAppend(w2, t);
    assert t[1..] == rest;
    assert (w2 + t)[|w2| + 1..] == t[1..];
  }

  /** The value part: around a value with no white space at its ends and no line
      terminator, white space is matched and then trimmed away. */
  lemma ValuePart(w3: string, v: string, w4: string)
    requires AllSpace(w3) && AllSpace(w4)
    requires v == [] || (!IsSpace(v[0]) && !IsSpace(v[|v| - 1]))
    requires forall i :: 0 <= i < |v| ==> !IsLineTerminator(v[i])
    ensures MatchValue(w3 + v + w4).Some? && Trim(MatchValue(w3 + v + w4).value) == v
  {
    if v == [] {
      assert w3 + v + w4 == w3 + w4;
      BlankValue(w3, w4);
    } else {
      LeadingSpaceAppend(w3, v + w4);
      assert w3 + v + w4 == w3 + (v + w4);
      PlainValue(v, w4);
    }
  }

  lemma BlankValue(w3: string, w4: string)
    requires AllSpace(w3) && AllSpace(w4)
    ensures MatchValue(w3 + w4) == Some("")
  {
    var rest := w3 + w4;
    assert AllSpace(rest) by {
      forall i | 0 <= i < |rest| ensures IsSpace(rest[i]) {
        if i < |w3| { assert rest[i] == w3[i]; } else { assert rest[i] == w4[i - |w3|]; }
      }
    }
    assert rest[LeadingSpace(rest)..] == [];
  }

  lemma PlainValue(v: string, w4: string)
    requires AllSpace(w4) && v != [] && !IsSpace(v[0]) && !IsSpace(v[|v| - 1])
    requires forall i :: 0 <= i < |v| ==> !IsLineTerminator(v[i])
    ensures MatchValue(v + w4).Some? && Trim(MatchValue(v + w4).value) == v
  {
    var x := v + w4;
    assert LeadingSpace(x) == 0;
    assert x[0..] == x;
    var n := LineLength(x);
    assert forall i :: 0 <= i < |v| ==> !IsLineTerminator(x[i]);
    assert n >= |v|;
    var tail := x[n..];
    assert AllSpace(tail) by {
      forall i | 0 <= i < |tail| ensures IsSpace(tail[i]) { assert tail[i] == w4[n - |v| + i]; }
    }
    var w := w4[..n - |v|];
    assert x[..n] == v + w;
    assert AllSpace(w) by {
      forall i | 0 <= i < |w| ensures IsSpace(w[i]) { assert w[i] == w4[i]; }
    }
    TrimPadded([], v, w);
    assert [] + v + w == v + w;
  }

  /** A line `KEY = value`, with any white space around the parts, assigns the value
      with its quotes removed to the key. */
  lemma EnvLineRoundTrip(w1: string, key: string, w2: string, w3: string, v: string, w4: string)
    requires AllSpace(w1) && AllSpace(w2) && AllSpace(w3) && AllSpace(w4)
    requires IsKey(key)
    requires v == [] || (!IsSpace(v[0]) && !IsSpace(v[|v| - 1]))
    requires forall i :: 0 <= i < |v| ==> !IsLineTerminator(v[i])
    ensures EnvEntry(w1 + key + w2 + "=" + w3 + v + w4) == Some((key, Unquote(v)))
  {
    var rest := w3 + v + w4;
    assert w1 + key + w2 + "=" + w3 + v + w4 == w1 + key + w2 + "=" + rest;
    KeyPart(w1, key, w2, rest);
    ValuePart(w3, v, w4);
  }

  /** A line with no `=` is skipped. */
  lemma EnvLineNeedsEquals(line: string)
    requires Free(line, '=')
    ensures EnvEntry(line) == None
  {
    var a := LeadingSpace(line);
    var afterSpace := line[a..];
    var k := KeyLength(afterSpace);
    var afterKey := afterSpace[k..];
    var b := LeadingSpace(afterKey);
    if k != 0 && b < |afterKey| {
      assert afterKey[b] == line[a + k + b];
    }
  }

  /** A line whose first non-blank character cannot start a key (a `#` comment, say) is
      skipped. */
  lemma EnvLineNeedsKey(line: string)
    requires LeadingSpace(line) < |line| && !IsKeyChar(line[LeadingSpace(line)])
    ensures EnvEntry(line) == None
  {
    var afterSpace := line[LeadingSpace(line)..];
    assert afterSpace[0] == line[LeadingSpace(line)];
  }

  /** Quotes of either kind around a value are removed. */
  lemma UnquoteQuoted(q: char, s: string)
    requires IsQuote(q)
    ensures Unquote([q] + s + [q]) == s
  {
    var v := [q] + s + [q];
    assert v[1..|v| - 1] == s;
  }

  /** Every key of the map was assigned its value by one of the pairs. */
  lemma {:induction false} AssignedFrom(es: seq<Option<(string, string)>>, key: string)
    requires key in Assign(es)
    ensures exists i :: 0 <= i < |es| && es[i] == Some((key, Assign(es)[key]))
    decreases |es|
  {
    var p := es[..|es| - 1];
    var e := es[|es| - 1];
    if e.None? || e.value.0 != key {
      AssignedFrom(p, key);
      var i :| 0 <= i < |p| && p[i] == Some((key, Assign(p)[key]));
      assert es[i] == p[i];
    } else {
      assert es[|es| - 1] == Some((key, Assign(es)[key]));
    }
  }

  /** Every key some pair assigns is in the map. */
  lemma {:induction false} AssignedKey(es: seq<Option<(string, string)>>, i: nat)
    requires i < |es| && es[i].Some?
    ensures es[i].value.0 in Assign(es)
    decreases |es|
  {
    var p := es[..|es| - 1];
    if i < |es| - 1 {
      assert p[i] == es[i];
      AssignedKey(p, i);
    }
  }

  /** The value of a key is the one the last pair for it assigns. */
  lemma {:induction false} AssignLastWins(es: seq<Option<(string, string)>>, i: nat, key: string, v: string)
    requires i < |es| && es[i] == Some((key, v))
    requires forall j :: i < j < |es| ==> es[j].None? || es[j].value.0 != key
    ensures key in Assign(es) && Assign(es)[key] == v
    decreases |es|
  {
    var p := es[..|es| - 1];
    if i < |es| - 1 {
      forall j | i < j < |p| ensures p[j].None? || p[j].value.0 != key {
        assert p[j] == es[j];
      }
      assert p[i] == es[i];
      AssignLastWins(p, i, key, v);
    }
  }

  // ---------------------------------------------------------------------------------
  // Providers mentioned in the patterns summary
  // ---------------------------------------------------------------------------------

  /** The characters `\b` sees as word characters (without the `u` flag). */
  predicate IsWordChar(c: char) {
    ('a' <= c <= 'z') || ('A' <= c <= 'Z') || ('0' <= c <= '9') || c == '_'
  }

  predicate WordAt(text: string, i: int) {
    0 <= i < |text| && IsWordChar(text[i])
  }

  /** One character of the name, as the pattern `name.replace(/[-/]/g, "[-/]")` with the
      `i` flag compares it: `-` and `/` match either, letters match regardless of ASCII
      case (without the `u` flag no other character folds onto an ASCII letter). */
  predicate NameCharMatches(p: char, c: char) {
    if p == '-' || p == '/' then c == '-' || c == '/' else LowerChar(c) == LowerChar(p)
  }

  /** `\bname\b` matches at position `i` of `text`. */
  predicate MentionAt(name: string, text: string, i: nat) {
    && i + |name| <= |text|
    && (forall j :: 0 <= j < |name| ==> NameCharMatches(name[j], text[i + j]))
    && WordAt(text, i - 1) != WordAt(text, i)
    && WordAt(text, i + |name| - 1) != WordAt(text, i + |name|)
  }

  /** `new RegExp("\\b" + pattern + "\\b", "i").test(text)`. */
  predicate Mentions(name: string, text: string) {
    exists i :: 0 <= i <= |text| && MentionAt(name, text, i)
  }

  /** A name standing alone as a word is found. */
  lemma MentionedAlone(name: string, a: string, b: string)
    requires name != [] && IsWordChar(name[0]) && IsWordChar(name[|name| - 1])
    requires a == [] || !IsWordChar(a[|a| - 1])
    requires b == [] || !IsWordChar(b[0])
    ensures Mentions(name, a + name + b)
  {
    var text := a + name + b;
    assert forall j :: 0 <= j < |name| ==> text[|a| + j] == name[j];
    if a != [] { assert text[|a| - 1] == a[|a| - 1]; }
    if b != [] { assert text[|a| + |name|] == b[0]; }
    assert MentionAt(name, text, |a|);
  }

  /** The name test ignores ASCII case and takes `/` for `-`. */
  lemma MentionExamples()
    ensures Mentions("openai", "uses OpenAI here")
    ensures Mentions("google-ai", "google/ai")
    ensures !Mentions("xai", "xa")
  {
    assert MentionAt("openai", "uses OpenAI here", 5);
    assert MentionAt("google-ai", "google/ai", 0);
  }

  function MentionedIn(text: string): string -> bool {
    (name: string) => Mentions(name, text)
  }

  /** `parseDetectedProviders`: the providers the summary mentions, in declaration order
      (the insertion order of the `Set`); a missing summary (`None`) mentions none. */
  function Detected(summary: Option<string>): seq<string> {
    if summary.None? then [] else Filter(NamesOf(PROVIDER_KEYS), MentionedIn(summary.value))
  }

  method DetectProviders(summary: Option<string>) returns (found: seq<string>)
    ensures found == Detected(summary)
  {
    if summary.None? {
      return [];
    }
    var text := summary.value;
    var names := NamesOf(PROVIDER_KEYS);
    found := [];
    for i := 0 to |names|
      invariant found == Filter(names[..i], MentionedIn(text))
    {
      FilterStep(names, MentionedIn(text), i);
      if Mentions(names[i], text) {
        found := found + [names[i]];
      }
    }
    assert names[..|names|] == names;
  }

  /** The detected providers are distinct provider names, in declaration order, and a
      provider is detected exactly when the summary mentions it. */
  lemma DetectedProviders(summary: Option<string>)
    ensures Distinct(Detected(summary))
    ensures IsSubsequence(Detected(summary), NamesOf(PROVIDER_KEYS))
    ensures forall n :: n in Detected(summary) <==> summary.Some? && n in NamesOf(PROVIDER_KEYS) && Mentions(n, summary.value)
  {
    ProviderNamesDistinct();
    if summary.Some? {
      FilterDistinct(NamesOf(PROVIDER_KEYS), MentionedIn(summary.value));
      FilterIsSubsequence(NamesOf(PROVIDER_KEYS), MentionedIn(summary.value));
      FilterMembers(NamesOf(PROVIDER_KEYS), MentionedIn(summary.value));
    }
  }

  // ---------------------------------------------------------------------------------
  // The page
  // ---------------------------------------------------------------------------------

  /** `Boolean(env[key])`: the key is present with a non-empty value. */
  predicate Truthy(env: map<string, string>, key: string) {
    key in env && env[key] != ""
  }

  /** `entries.filter(([_, key]) => Boolean(env[key])).map(([name]) => name)`. */
  function EnabledNames(entries: seq<(string, string)>, env: map<string, string>): seq<string>
    decreases |entries|
  {
    if entries == [] then []
    else (if Truthy(env, entries[0].1) then [entries[0].0] else []) + EnabledNames(entries[1..], env)
  }

  /** `enabledSet`: the providers whose key is set, in declaration order. */
  function Enabled(env: map<string, string>): seq<string> {
    EnabledNames(PROVIDER_KEYS, env)
  }

  /** Only names of the table are enabled. */
  lemma {:induction false} EnabledNamesFrom(entries: seq<(string, string)>, env: map<string, string>, n: string)
    requires n in EnabledNames(entries, env)
    ensures n in NamesOf(entries)
    decreases |entries|
  {
    if entries[0].0 != n || !Truthy(env, entries[0].1) {
      EnabledNamesFrom(entries[1..], env, n);
      assert NamesOf(entries) == [entries[0].0] + NamesOf(entries[1..]);
    } else {
      assert NamesOf(entries)[0] == n;
    }
  }

  lemma EnabledNamesAbsent(entries: seq<(string, string)>, env: map<string, string>, n: string)
    requires n !in NamesOf(entries)
    ensures n !in EnabledNames(entries, env)
  {
    if n in EnabledNames(entries, env) {
      EnabledNamesFrom(entries, env, n);
    }
  }

  lemma HeadNotInTail(entries: seq<(string, string)>)
    requires entries != [] && Distinct(NamesOf(entries))
    ensures entries[0].0 !in NamesOf(entries[1..])
  {
    var t := entries[1..];
    forall k | 0 <= k < |t| ensures NamesOf(t)[k] != entries[0].0 {
      assert NamesOf(t)[k] == NamesOf(entries)[k + 1];
    }
  }

  /** In a table with distinct names, an entry's name is enabled exactly when its key
      is set. */
  lemma {:induction false} EnabledNamesIff(entries: seq<(string, string)>, env: map<string, string>, i: nat)
    requires Distinct(NamesOf(entries)) && i < |entries|
    ensures entries[i].0 in EnabledNames(entries, env) <==> Truthy(env, entries[i].1)
    decreases |entries|
  {
    var t := entries[1..];
    var rest := EnabledNames(t, env);
    assert Distinct(NamesOf(t)) by {
      forall a, b | 0 <= a < b < |t| ensures NamesOf(t)[a] != NamesOf(t)[b] {
        assert NamesOf(t)[a] == NamesOf(entries)[a + 1] && NamesOf(t)[b] == NamesOf(entries)[b + 1];
      }
    }
    if i == 0 {
      HeadNotInTail(entries);
      EnabledNamesAbsent(t, env, entries[0].0);
    } else {
      assert t[i - 1] == entries[i];
      EnabledNamesIff(t, env, i - 1);
      assert entries[i].0 != entries[0].0 by {
        assert NamesOf(entries)[i] != NamesOf(entries)[0];
      }
    }
  }

  /** In a table with distinct names, no name is enabled twice. */
  lemma {:induction false} EnabledNamesDistinct(entries: seq<(string, string)>, env: map<string, string>)
    requires Distinct(NamesOf(entries))
    ensures Distinct(EnabledNames(entries, env))
    decreases |entries|
  {
    if entries != [] {
      var t := entries[1..];
      assert Distinct(NamesOf(t)) by {
        forall a, b | 0 <= a < b < |t| ensures NamesOf(t)[a] != NamesOf(t)[b] {
          assert NamesOf(t)[a] == NamesOf(entries)[a + 1] && NamesOf(t)[b] == NamesOf(entries)[b + 1];
        }
      }
      EnabledNamesDistinct(t, env);
      HeadNotInTail(entries);
      EnabledNamesAbsent(t, env, entries[0].0);
    }
  }

  /** A provider is enabled exactly when its key is set. */
  lemma EnabledIff(env: map<string, string>, i: nat)
    requires i < |PROVIDER_KEYS|
    ensures PROVIDER_KEYS[i].0 in Enabled(env) <==> Truthy(env, PROVIDER_KEYS[i].1)
  {
    ProviderNamesDistinct();
    EnabledNamesIff(PROVIDER_KEYS, env, i);
  }

  /** The enabled providers are distinct provider names. */
  lemma EnabledProviders(env: map<string, string>)
    ensures Distinct(Enabled(env))
    ensures forall n :: n in Enabled(env) ==> n in NamesOf(PROVIDER_KEYS)
  {
    ProviderNamesDistinct();
    EnabledNamesDistinct(PROVIDER_KEYS, env);
    forall n | n in Enabled(env) ensures n in NamesOf(PROVIDER_KEYS) {
      EnabledNamesFrom(PROVIDER_KEYS, env, n);
    }
  }

  function HeaderLines(ts: string): seq<string> {
    [ "---",
      "description: " + "Auto-generated providers view (env vs code)",
      "globs: [\"**/*\"]",
      "alwaysApply: false",
      "---\n",
      "# \U{1F50C} Providers (Env \U{2194} Code)",
      "Generated: " + ts + "\n" ]
  }

  const KEYS_HEADING := "## Environment Keys"
  const REFERENCED_HEADING := "\n## Providers Referenced in Code"
  const NONE_DETECTED := "- _none detected yet_"
  const SUGGESTIONS_HEADING := "\n## Suggestions"
  const CONSISTENT := "- Looks consistent \U{2705}"

  /** The text of `"set"`/`"unset"` and `"present"`/`"missing"` after a key. */
  function StatusText(isSet: bool, present: bool): string {
    (if isSet then "set" else "unset") + " (example: " + (if present then "present" else "missing") + ")"
  }

  /** Reads the two flags back from a status text. */
  function ParseStatus(s: string): Option<(bool, bool)> {
    if s == StatusText(true, true) then Some((true, true))
    else if s == StatusText(true, false) then Some((true, false))
    else if s == StatusText(false, true) then Some((false, true))
    else if s == StatusText(false, false) then Some((false, false))
    else None
  }

  lemma StatusRoundTrip(isSet: bool, present: bool)
    ensures ParseStatus(StatusText(isSet, present)) == Some((isSet, present))
  {
    var tt, tf, ft, ff := StatusText(true, true), StatusText(true, false), StatusText(false, true), StatusText(false, false);
    assert tt[14] == 'p' && tf[14] == 'm';
    assert ft[0] == 'u' && tt[0] == 's' && tf[0] == 's';
    assert ft[16] == 'p' && ff[16] == 'm';
  }

  function KeyPrefix(name: string, key: string): string {
    "- **" + name + "** \U{2192} `" + key + "`: "
  }

  /** One entry of the keys section. */
  function KeyLine(name: string, key: string, isSet: bool, present: bool): string {
    KeyPrefix(name, key) + StatusText(isSet, present)
  }

  /** The keys section for the given entries of the table, in their order. */
  function KeyLines(actual: map<string, string>, example: map<string, string>, entries: seq<(string, string)>): (ls: seq<string>)
    ensures |ls| == |entries|
    decreases |entries|
  {
    if entries == [] then []
    else
      var e := entries[|entries| - 1];
      KeyLines(actual, example, entries[..|entries| - 1]) + [KeyLine(e.0, e.1, Truthy(actual, e.1), Truthy(example, e.1))]
  }

  lemma {:induction false} KeyLinesAt(actual: map<string, string>, example: map<string, string>, entries: seq<(string, string)>, i: nat)
    requires i < |entries|
    ensures KeyLines(actual, example, entries)[i] == KeyLine(entries[i].0, entries[i].1, Truthy(actual, entries[i].1), Truthy(example, entries[i].1))
    decreases |entries|
  {
    if i < |entries| - 1 {
      KeyLinesAt(actual, example, entries[..|entries| - 1], i);
    }
  }

  /** The keys section has one line per provider, in declaration order, which names the
      provider and its key and reads back as "set" exactly when the key has a
      non-empty value in `.env` and "present" exactly when it has one in `.env.example`. */
  lemma KeyLineReadsBack(actual: map<string, string>, example: map<string, string>, i: nat)
    requires i < |PROVIDER_KEYS|
    ensures |KeyLines(actual, example, PROVIDER_KEYS)| == |PROVIDER_KEYS|
    ensures var line, prefix := KeyLines(actual, example, PROVIDER_KEYS)[i], KeyPrefix(PROVIDER_KEYS[i].0, PROVIDER_KEYS[i].1);
      && StartsWith(line, prefix)
      && ParseStatus(line[|prefix|..]) == Some((Truthy(actual, PROVIDER_KEYS[i].1), Truthy(example, PROVIDER_KEYS[i].1)))
  {
    var e := PROVIDER_KEYS[i];
    KeyLinesAt(actual, example, PROVIDER_KEYS, i);
    var prefix := KeyPrefix(e.0, e.1);
    var status := StatusText(Truthy(actual, e.1), Truthy(example, e.1));
    var line := prefix + status;
    assert line[..|prefix|] == prefix;
    assert line[|prefix|..] == status;
    StatusRoundTrip(Truthy(actual, e.1), Truthy(example, e.1));
  }

  function NameLine(n: string): string {
    "- **" + n + "**"
  }

  function NameLines(ns: seq<string>): (ls: seq<string>)
    ensures |ls| == |ns|
    ensures forall i :: 0 <= i < |ns| ==> ls[i] == NameLine(ns[i])
    decreases |ns|
  {
    if ns == [] then [] else NameLines(ns[..|ns| - 1]) + [NameLine(ns[|ns| - 1])]
  }

  /** The referenced section: the detected names in default sort order, or a note. */
  function ReferencedLines(detected: seq<string>): seq<string> {
    if |detected| == 0 then [NONE_DETECTED] else NameLines(SortBy(detected, LexLe))
  }

  /** The section says "none detected" exactly when nothing was detected; otherwise it
      lists every detected name once per detection, in ascending order. */
  lemma ReferencedSection(detected: seq<string>)
    ensures ReferencedLines(detected) == [NONE_DETECTED] <==> detected == []
    ensures detected != [] ==>
      exists sorted ::
        && ReferencedLines(detected) == NameLines(sorted)
        && SortedBy(sorted, LexLe)
        && multiset(sorted) == multiset(detected)
  {
    if detected != [] {
      var sorted := SortBy(detected, LexLe);
      LexLePreorder();
      SortBySorted(detected, LexLe);
      var first := NameLines(sorted)[0];
      assert first[2] == '*' && NONE_DETECTED[2] == '_';
    }
  }

  /** `${PROVIDER_KEYS[n]}`: the key, or `undefined` for a name outside the table. */
  function KeyText(n: string): string {
    match KeyOf(n)
    case Some(k) => k
    case None => "undefined"
  }

  const NOT_SET_HEAD := "- Code references **"
  const UNUSED_HEAD := "- Env enables **"
  const UNUSED_TAIL := "** but no code references found\U{2014}"
    + "consider removing the key or adding a rule."

  function NotSetTail(n: string): string {
    "** but env key `" + KeyText(n) + "` is not set."
  }

  function NotSetLine(n: string): string {
    NOT_SET_HEAD + n + NotSetTail(n)
  }

  function UnusedLine(n: string): string {
    UNUSED_HEAD + n + UNUSED_TAIL
  }

  /** The character at index 2 of a line tells the kinds of lines apart. */
  predicate Marked(l: string, c: char) {
    |l| > 2 && l[2] == c
  }

  /** One line per name of `names` that is not in `exclude`, in order: the shape of
      both suggestion lists. */
  function LinesFor(names: seq<string>, exclude: seq<string>, line: string -> string): seq<string>
    decreases |names|
  {
    if names == [] then []
    else
      var n := names[|names| - 1];
      LinesFor(names[..|names| - 1], exclude, line) + (if n in exclude then [] else [line(n)])
  }

  /** One "not set" suggestion per detected provider that is not enabled, in order. */
  function NotSetLines(detected: seq<string>, enabled: seq<string>): seq<string> {
    LinesFor(detected, enabled, NotSetLine)
  }

  /** One "unused" suggestion per enabled provider that is not detected, in order. */
  function UnusedLines(enabled: seq<string>, detected: seq<string>): seq<string> {
    LinesFor(enabled, detected, UnusedLine)
  }

  lemma LinesForStep(names: seq<string>, exclude: seq<string>, line: string -> string, i: nat)
    requires i < |names|
    ensures LinesFor(names[..i + 1], exclude, line) ==
      LinesFor(names[..i], exclude, line) + (if names[i] in exclude then [] else [line(names[i])])
  {
    assert names[..i + 1][..i] == names[..i];
  }

  /** When `line` tells `n` apart from the other names, the line of `n` is listed
      exactly when `n` is a name that is not excluded. */
  lemma {:induction false} LinesForMember(names: seq<string>, exclude: seq<string>, line: string -> string, n: string)
    requires forall x :: x in names && line(x) == line(n) ==> x == n
    ensures line(n) in LinesFor(names, exclude, line) <==> n in names && n !in exclude
    decreases |names|
  {
    if names != [] {
      var p, x := names[..|names| - 1], names[|names| - 1];
      assert names == p + [x];
      LinesForMember(p, exclude, line, n);
      InAppend(LinesFor(p, exclude, line), if x in exclude then [] else [line(x)], line(n));
      InAppend(p, [x], n);
    }
  }

  /** Distinct names with distinct lines give distinct lines. */
  lemma {:induction false} LinesForDistinct(names: seq<string>, exclude: seq<string>, line: string -> string)
    requires Distinct(names)
    requires forall a, b :: a in names && b in names && line(a) == line(b) ==> a == b
    ensures Distinct(LinesFor(names, exclude, line))
    decreases |names|
  {
    if names != [] {
      var p, x := names[..|names| - 1], names[|names| - 1];
      assert names == p + [x];
      assert Distinct(p) by {
        forall i, j | 0 <= i < j < |p| ensures p[i] != p[j] { assert p[i] == names[i] && p[j] == names[j]; }
      }
      LinesForDistinct(p, exclude, line);
      assert x !in p by {
        forall i | 0 <= i < |p| ensures p[i] != x { assert p[i] == names[i]; }
      }
      LinesForMember(p, exclude, line, x);
    }
  }

  /** Lines that all carry a mark make a list that does. */
  lemma {:induction false} LinesForMarked(names: seq<string>, exclude: seq<string>, line: string -> string, c: char)
    requires forall n :: Marked(line(n), c)
    ensures forall i :: 0 <= i < |LinesFor(names, exclude, line)| ==> Marked(LinesFor(names, exclude, line)[i], c)
    decreases |names|
  {
    if names != [] {
      LinesForMarked(names[..|names| - 1], exclude, line, c);
    }
  }

  /** The list is empty exactly when every name is excluded. */
  lemma {:induction false} LinesForEmpty(names: seq<string>, exclude: seq<string>, line: string -> string)
    ensures LinesFor(names, exclude, line) == [] <==> forall n :: n in names ==> n in exclude
    decreases |names|
  {
    if names != [] {
      var p := names[..|names| - 1];
      LinesForEmpty(p, exclude, line);
      assert names == p + [names[|names| - 1]];
    }
  }

  function Suggestions(detected: seq<string>, enabled: seq<string>): seq<string> {
    NotSetLines(detected, enabled) + UnusedLines(enabled, detected)
  }

  function SuggestionLines(suggestions: seq<string>): seq<string> {
    if |suggestions| == 0 then [CONSISTENT] else suggestions
  }

  /** The lines `renderMdc` joins. */
  function ProvidersLines(actual: map<string, string>, example: map<string, string>, detected: seq<string>, ts: string): seq<string> {
    HeaderLines(ts) + [KEYS_HEADING] + KeyLines(actual, example, PROVIDER_KEYS)
    + [REFERENCED_HEADING] + ReferencedLines(detected)
    + [SUGGESTIONS_HEADING] + SuggestionLines(Suggestions(detected, Enabled(actual)))
  }

  /** Names that hold no `*`, so that the `**` after a name marks where it ends. */
  predicate StarFree(ns: seq<string>) {
    forall i :: 0 <= i < |ns| ==> Free(ns[i], '*')
  }

  lemma StarFreePrefix(ns: seq<string>)
    requires StarFree(ns) && ns != []
    ensures StarFree(ns[..|ns| - 1])
  {
    var p := ns[..|ns| - 1];
    assert forall i :: 0 <= i < |p| ==> p[i] == ns[i];
  }

  lemma ProviderNamesStarFree()
    ensures StarFree(NamesOf(PROVIDER_KEYS))
  {
    assert NamesOf(PROVIDER_KEYS) == ["openai", "anthropic", "google-ai", "xai", "openrouter", "ollama"];
  }

  lemma NotSetInjective(a: string, b: string)
    requires Free(a, '*') && Free(b, '*') && NotSetLine(a) == NotSetLine(b)
    ensures a == b
  {
    assert NotSetTail(a)[0] == '*' && NotSetTail(b)[0] == '*';
    FieldInjective(NOT_SET_HEAD, a, NotSetTail(a), b, NotSetTail(b), '*');
  }

  lemma UnusedInjective(a: string, b: string)
    requires Free(a, '*') && Free(b, '*') && UnusedLine(a) == UnusedLine(b)
    ensures a == b
  {
    assert UNUSED_TAIL[0] == '*';
    FieldInjective(UNUSED_HEAD, a, UNUSED_TAIL, b, UNUSED_TAIL, '*');
  }

  lemma HeadMarks(h: string, a: string, b: string, c: char)
    requires |h| > 2 && h[2] == c
    ensures Marked(h + a + b, c)
  {
    assert (h + a + b)[2] == h[2];
  }

  lemma LineMarks(n: string)
    ensures Marked(NotSetLine(n), 'C') && Marked(UnusedLine(n), 'E')
  {
    assert NOT_SET_HEAD[2] == 'C' && UNUSED_HEAD[2] == 'E';
    HeadMarks(NOT_SET_HEAD, n, NotSetTail(n), 'C');
    HeadMarks(UNUSED_HEAD, n, UNUSED_TAIL, 'E');
  }

  /** Every "not set" line is marked `C`, every "unused" line `E`. */
  lemma NotSetLinesMark(detected: seq<string>, enabled: seq<string>)
    ensures forall i :: 0 <= i < |NotSetLines(detected, enabled)| ==> Marked(NotSetLines(detected, enabled)[i], 'C')
  {
    forall n ensures Marked(NotSetLine(n), 'C') {
      LineMarks(n);
    }
    LinesForMarked(detected, enabled, NotSetLine, 'C');
  }

  lemma UnusedLinesMark(enabled: seq<string>, detected: seq<string>)
    ensures forall i :: 0 <= i < |UnusedLines(enabled, detected)| ==> Marked(UnusedLines(enabled, detected)[i], 'E')
  {
    forall n ensures Marked(UnusedLine(n), 'E') {
      LineMarks(n);
    }
    LinesForMarked(enabled, detected, UnusedLine, 'E');
  }

  /** The "not set" line of a name is there exactly when the name is detected but not
      enabled. */
  lemma NotSetMember(detected: seq<string>, enabled: seq<string>, n: string)
    requires StarFree(detected) && Free(n, '*')
    ensures NotSetLine(n) in NotSetLines(detected, enabled) <==> n in detected && n !in enabled
  {
    forall x | x in detected && NotSetLine(x) == NotSetLine(n) ensures x == n {
      var i :| 0 <= i < |detected| && detected[i] == x;
      NotSetInjective(x, n);
    }
    LinesForMember(detected, enabled, NotSetLine, n);
  }

  lemma UnusedMember(enabled: seq<string>, detected: seq<string>, n: string)
    requires StarFree(enabled) && Free(n, '*')
    ensures UnusedLine(n) in UnusedLines(enabled, detected) <==> n in enabled && n !in detected
  {
    forall x | x in enabled && UnusedLine(x) == UnusedLine(n) ensures x == n {
      var i :| 0 <= i < |enabled| && enabled[i] == x;
      UnusedInjective(x, n);
    }
    LinesForMember(enabled, detected, UnusedLine, n);
  }

  lemma NotSetDistinct(detected: seq<string>, enabled: seq<string>)
    requires StarFree(detected) && Distinct(detected)
    ensures Distinct(NotSetLines(detected, enabled))
  {
    forall a, b | a in detected && b in detected && NotSetLine(a) == NotSetLine(b) ensures a == b {
      var i :| 0 <= i < |detected| && detected[i] == a;
      var j :| 0 <= j < |detected| && detected[j] == b;
      NotSetInjective(a, b);
    }
    LinesForDistinct(detected, enabled, NotSetLine);
  }

  lemma UnusedDistinct(enabled: seq<string>, detected: seq<string>)
    requires StarFree(enabled) && Distinct(enabled)
    ensures Distinct(UnusedLines(enabled, detected))
  {
    forall a, b | a in enabled && b in enabled && UnusedLine(a) == UnusedLine(b) ensures a == b {
      var i :| 0 <= i < |enabled| && enabled[i] == a;
      var j :| 0 <= j < |enabled| && enabled[j] == b;
      UnusedInjective(a, b);
    }
    LinesForDistinct(enabled, detected, UnusedLine);
  }

  /** For distinct names, each detected provider that is not enabled gets exactly one
      "not set" suggestion, and no other name gets one. */
  lemma SuggestedNotSet(detected: seq<string>, enabled: seq<string>, n: string)
    requires StarFree(detected) && Distinct(detected) && Free(n, '*')
    ensures Occurrences(Suggestions(detected, enabled), NotSetLine(n)) == if n in detected && n !in enabled then 1 else 0
  {
    var a, b := NotSetLines(detected, enabled), UnusedLines(enabled, detected);
    OccurrencesAppend(a, b, NotSetLine(n));
    NotSetDistinct(detected, enabled);
    CountDistinct(a, NotSetLine(n));
    NotSetMember(detected, enabled, n);
    UnusedLinesMark(enabled, detected);
    LineMarks(n);
    OccurrencesAbsent(b, NotSetLine(n));
  }

  /** For distinct names, each enabled provider that is not detected gets exactly one
      "unused" suggestion, and no other name gets one. */
  lemma SuggestedUnused(detected: seq<string>, enabled: seq<string>, n: string)
    requires StarFree(enabled) && Distinct(enabled) && Free(n, '*')
    ensures Occurrences(Suggestions(detected, enabled), UnusedLine(n)) == if n in enabled && n !in detected then 1 else 0
  {
    var a, b := NotSetLines(detected, enabled), UnusedLines(enabled, detected);
    OccurrencesAppend(a, b, UnusedLine(n));
    UnusedDistinct(enabled, detected);
    CountDistinct(b, UnusedLine(n));
    UnusedMember(enabled, detected, n);
    NotSetLinesMark(detected, enabled);
    LineMarks(n);
    OccurrencesAbsent(a, UnusedLine(n));
  }

  /** Each detected name is enabled and each enabled name detected. */
  predicate SameNames(detected: seq<string>, enabled: seq<string>) {
    (forall n :: n in detected ==> n in enabled) && (forall n :: n in enabled ==> n in detected)
  }

  lemma NotSetLinesEmpty(detected: seq<string>, enabled: seq<string>)
    ensures NotSetLines(detected, enabled) == [] <==> forall n :: n in detected ==> n in enabled
  {
    LinesForEmpty(detected, enabled, NotSetLine);
  }

  lemma UnusedLinesEmpty(enabled: seq<string>, detected: seq<string>)
    ensures UnusedLines(enabled, detected) == [] <==> forall n :: n in enabled ==> n in detected
  {
    LinesForEmpty(enabled, detected, UnusedLine);
  }

  /** There is nothing to suggest exactly when the detected and the enabled providers
      are the same. */
  lemma SuggestionsEmpty(detected: seq<string>, enabled: seq<string>)
    ensures Suggestions(detected, enabled) == [] <==> SameNames(detected, enabled)
  {
    NotSetLinesEmpty(detected, enabled);
    UnusedLinesEmpty(enabled, detected);
  }

  /** No line has the `L` that "Looks consistent" has at index 2. */
  predicate NoneMarkedL(ls: seq<string>) {
    forall i :: 0 <= i < |ls| ==> !Marked(ls[i], 'L')
  }

  lemma NoneMarkedAppend(a: seq<string>, b: seq<string>)
    requires NoneMarkedL(a) && NoneMarkedL(b)
    ensures NoneMarkedL(a + b)
  {
    forall i | 0 <= i < |a + b| ensures !Marked((a + b)[i], 'L') {
      if i < |a| { assert (a + b)[i] == a[i]; } else { assert (a + b)[i] == b[i - |a|]; }
    }
  }

  lemma HeaderUnmarked(ts: string)
    ensures NoneMarkedL(HeaderLines(ts) + [KEYS_HEADING])
  {
    var h := HeaderLines(ts) + [KEYS_HEADING];
    assert h[1][2] == 's' && h[6][2] == 'n' && h[7][2] == ' ';
  }

  lemma KeyLinesUnmarked(actual: map<string, string>, example: map<string, string>)
    ensures NoneMarkedL(KeyLines(actual, example, PROVIDER_KEYS) + [REFERENCED_HEADING])
  {
    var keys := KeyLines(actual, example, PROVIDER_KEYS) + [REFERENCED_HEADING];
    forall i | 0 <= i < |keys| ensures !Marked(keys[i], 'L') {
      if i < |PROVIDER_KEYS| {
        KeyLinesAt(actual, example, PROVIDER_KEYS, i);
      }
    }
  }

  lemma ReferencedUnmarked(detected: seq<string>)
    ensures NoneMarkedL(ReferencedLines(detected) + [SUGGESTIONS_HEADING])
  {
  }

  /** No line outside the suggestions section reads "Looks consistent". */
  lemma ConsistentOnlyInSuggestions(actual: map<string, string>, example: map<string, string>, detected: seq<string>, ts: string)
    ensures NoneMarkedL(HeaderLines(ts) + [KEYS_HEADING] + KeyLines(actual, example, PROVIDER_KEYS)
                        + [REFERENCED_HEADING] + ReferencedLines(detected) + [SUGGESTIONS_HEADING])
  {
    var a := HeaderLines(ts) + [KEYS_HEADING];
    var b := KeyLines(actual, example, PROVIDER_KEYS) + [REFERENCED_HEADING];
    var c := ReferencedLines(detected) + [SUGGESTIONS_HEADING];
    HeaderUnmarked(ts);
    KeyLinesUnmarked(actual, example);
    ReferencedUnmarked(detected);
    NoneMarkedAppend(a, b);
    NoneMarkedAppend(a + b, c);
    assert a + b + c == HeaderLines(ts) + [KEYS_HEADING] + KeyLines(actual, example, PROVIDER_KEYS)
                        + [REFERENCED_HEADING] + ReferencedLines(detected) + [SUGGESTIONS_HEADING];
  }

  /** The page says "Looks consistent" exactly when the detected providers are the
      enabled ones. */
  lemma ConsistentIff(actual: map<string, string>, example: map<string, string>, detected: seq<string>, ts: string)
    ensures CONSISTENT in ProvidersLines(actual, example, detected, ts) <==> SameNames(detected, Enabled(actual))
  {
    var e := Enabled(actual);
    var s := Suggestions(detected, e);
    var before := HeaderLines(ts) + [KEYS_HEADING] + KeyLines(actual, example, PROVIDER_KEYS)
                  + [REFERENCED_HEADING] + ReferencedLines(detected) + [SUGGESTIONS_HEADING];
    assert ProvidersLines(actual, example, detected, ts) == before + SuggestionLines(s);
    ConsistentOnlyInSuggestions(actual, example, detected, ts);
    SuggestionsEmpty(detected, e);
    if s != [] {
      SuggestionsUnmarked(detected, e);
      NoneMarkedAppend(before, s);
      ConsistentAbsent(before + s);
    } else {
      assert (before + [CONSISTENT])[|before|] == CONSISTENT;
    }
  }

  lemma SuggestionsUnmarked(detected: seq<string>, enabled: seq<string>)
    ensures NoneMarkedL(Suggestions(detected, enabled))
  {
    var a, b := NotSetLines(detected, enabled), UnusedLines(enabled, detected);
    NotSetLinesMark(detected, enabled);
    UnusedLinesMark(enabled, detected);
    NoneMarkedAppend(a, b);
  }

  lemma ConsistentAbsent(ls: seq<string>)
    requires NoneMarkedL(ls)
    ensures CONSISTENT !in ls
  {
    assert Marked(CONSISTENT, 'L');
  }

  /** Names taken from the table hold no `*`. */
  lemma TableNamesStarFree(ns: seq<string>)
    requires forall n :: n in ns ==> n in NamesOf(PROVIDER_KEYS)
    ensures StarFree(ns)
  {
    ProviderNamesStarFree();
    forall i | 0 <= i < |ns| ensures Free(ns[i], '*') {
      assert ns[i] in NamesOf(PROVIDER_KEYS);
    }
  }

  /** The summary exists and mentions the name. */
  predicate Mentioned(summary: Option<string>, n: string) {
    summary.Some? && Mentions(n, summary.value)
  }

  /** On the page of a run, a provider gets one "not set" suggestion when the summary
      mentions it and its key is not set, and none otherwise. */
  lemma ProviderNotSet(actual: map<string, string>, summary: Option<string>, i: nat)
    requires i < |PROVIDER_KEYS|
    ensures Occurrences(Suggestions(Detected(summary), Enabled(actual)), NotSetLine(PROVIDER_KEYS[i].0)) ==
      if Mentioned(summary, PROVIDER_KEYS[i].0) && !Truthy(actual, PROVIDER_KEYS[i].1) then 1 else 0
  {
    var d := Detected(summary);
    DetectedProviders(summary);
    TableNamesStarFree(d);
    ProviderNamesStarFree();
    EnabledIff(actual, i);
    SuggestedNotSet(d, Enabled(actual), PROVIDER_KEYS[i].0);
  }

  /** On the page of a run, a provider gets one "unused" suggestion when its key is set
      and the summary does not mention it, and none otherwise. */
  lemma ProviderUnused(actual: map<string, string>, summary: Option<string>, i: nat)
    requires i < |PROVIDER_KEYS|
    ensures Occurrences(Suggestions(Detected(summary), Enabled(actual)), UnusedLine(PROVIDER_KEYS[i].0)) ==
      if Truthy(actual, PROVIDER_KEYS[i].1) && !Mentioned(summary, PROVIDER_KEYS[i].0) then 1 else 0
  {
    var e := Enabled(actual);
    DetectedProviders(summary);
    EnabledProviders(actual);
    TableNamesStarFree(e);
    ProviderNamesStarFree();
    EnabledIff(actual, i);
    SuggestedUnused(Detected(summary), e, PROVIDER_KEYS[i].0);
  }

  /** The loop over the table that lists each provider's key. */
  method ListKeys(actual: map<string, string>, example: map<string, string>) returns (keyLines: seq<string>)
    ensures keyLines == KeyLines(actual, example, PROVIDER_KEYS)
  {
    keyLines := [];
    for i := 0 to |PROVIDER_KEYS|
      invariant keyLines == KeyLines(actual, example, PROVIDER_KEYS[..i])
    {
      assert PROVIDER_KEYS[..i + 1][..i] == PROVIDER_KEYS[..i];
      var (name, key) := PROVIDER_KEYS[i];
      keyLines := keyLines + [KeyLine(name, key, Truthy(actual, key), Truthy(example, key))];
    }
    assert PROVIDER_KEYS[..|PROVIDER_KEYS|] == PROVIDER_KEYS;
  }

  /** The referenced-providers section: the note, or a loop over the sorted names. */
  method ListReferenced(detected: seq<string>) returns (referenced: seq<string>)
    ensures referenced == ReferencedLines(detected)
  {
    referenced := [];
    if |detected| == 0 {
      referenced := [NONE_DETECTED];
    } else {
      var sorted := SortBy(detected, LexLe);
      for i := 0 to |sorted|
        invariant referenced == NameLines(sorted[..i])
      {
        assert sorted[..i + 1][..i] == sorted[..i];
        referenced := referenced + [NameLine(sorted[i])];
      }
      assert sorted[..|sorted|] == sorted;
    }
  }

  /** The loop over the detected providers that are not enabled. */
  method SuggestNotSet(detected: seq<string>, enabled: seq<string>) returns (notSet: seq<string>)
    ensures notSet == NotSetLines(detected, enabled)
  {
    notSet := [];
    for i := 0 to |detected|
      invariant notSet == NotSetLines(detected[..i], enabled)
    {
      LinesForStep(detected, enabled, NotSetLine, i);
      if detected[i] !in enabled {
        notSet := notSet + [NotSetLine(detected[i])];
      }
    }
    assert detected[..|detected|] == detected;
  }

  /** The loop over the enabled providers that are not detected. */
  method SuggestUnused(enabled: seq<string>, detected: seq<string>) returns (unused: seq<string>)
    ensures unused == UnusedLines(enabled, detected)
  {
    unused := [];
    for i := 0 to |enabled|
      invariant unused == UnusedLines(enabled[..i], detected)
    {
      LinesForStep(enabled, detected, UnusedLine, i);
      if enabled[i] !in detected {
        unused := unused + [UnusedLine(enabled[i])];
      }
    }
    assert enabled[..|enabled|] == enabled;
  }

  /** `renderMdc`, with the time stamp as a parameter; `detected` is the `Set` as the
      sequence of its elements in insertion order. */
  method RenderProviders(actual: map<string, string>, example: map<string, string>, detected: seq<string>, ts: string) returns (doc: string)
    ensures doc == Join(ProvidersLines(actual, example, detected, ts), "\n")
  {
    var keyLines := ListKeys(actual, example);
    var referenced := ListReferenced(detected);
    var enabled := Enabled(actual);
    var notSet := SuggestNotSet(detected, enabled);
    var unused := SuggestUnused(enabled, detected);
    var suggestions := notSet + unused;
    var lines := HeaderLines(ts) + [KEYS_HEADING] + keyLines + [REFERENCED_HEADING] + referenced + [SUGGESTIONS_HEADING];
    if |suggestions| == 0 {
      lines := lines + [CONSISTENT];
    } else {
      lines := lines + suggestions;
    }
    assert lines == ProvidersLines(actual, example, detected, ts);
    doc := Join(lines, "\n");
  }
}
