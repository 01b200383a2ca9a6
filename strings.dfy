/** Option, used wherever the source has `undefined`, a missing file or an absent field. */
module Wrappers {
  datatype Option<T> = None | Some(value: T)
}

/** Property lookup on a plain JavaScript object literal (`{ ... }` or `{}`): a key that
    is not one of the object's own names can still find a member every such object
    inherits from `Object.prototype`. */
module Objects {
  import opened Wrappers

  /** How a template literal shows a built-in method. */
  function NativeFunction(name: string): string {
    "function " + name + "() { [native code] }"
  }

  /** The inherited members, each as a template literal shows it: the methods, the
      `constructor` (the `Object` function) and the `__proto__` accessor (the
      prototype object itself). Every one of them is truthy and none is an array. */
  const PROTOTYPE_MEMBERS: map<string, string> := map[
    "constructor" := NativeFunction("Object"),
    "__proto__" := "[object Object]",
    "toString" := NativeFunction("toString"),
    "toLocaleString" := NativeFunction("toLocaleString"),
    "valueOf" := NativeFunction("valueOf"),
    "hasOwnProperty" := NativeFunction("hasOwnProperty"),
    "isPrototypeOf" := NativeFunction("isPrototypeOf"),
    "propertyIsEnumerable" := NativeFunction("propertyIsEnumerable"),
    "__defineGetter__" := NativeFunction("__defineGetter__"),
    "__defineSetter__" := NativeFunction("__defineSetter__"),
    "__lookupGetter__" := NativeFunction("__lookupGetter__"),
    "__lookupSetter__" := NativeFunction("__lookupSetter__")
  ]

  /** `key` names a member that every plain object inherits. */
  predicate Inherited(key: string) {
    key in PROTOTYPE_MEMBERS
  }

  /** `obj[key]` on an object literal whose own string-valued properties are `own`:
      the own value, else the inherited member, else `undefined` (`None`). */
  function Get(own: map<string, string>, key: string): (r: Option<string>)
    ensures r.Some? <==> key in own || Inherited(key)
    ensures key in own ==> r == Some(own[key])
    ensures key !in own && Inherited(key) ==> r == Some(PROTOTYPE_MEMBERS[key])
  {
    if key in own then Some(own[key])
    else if key in PROTOTYPE_MEMBERS then Some(PROTOTYPE_MEMBERS[key])
    else None
  }
}

/** String helpers with the semantics of the JavaScript built-ins the scripts and
    components call (`trim`, `startsWith`, `endsWith`, `includes`, `split`, `join`,
    `toLowerCase`, the default `sort` order), on strings as sequences of characters. */
module Strings {

  /** The characters JavaScript's `\s` matches and `String.prototype.trim` removes:
      ECMAScript's WhiteSpace and LineTerminator code points. */
  predicate IsSpace(c: char) {
    || c == '\t' || c == '\n' || c == '\U{000B}' || c == '\U{000C}' || c == '\r' || c == ' '
    || c == '\U{00A0}' || c == '\U{1680}' || ('\U{2000}' <= c <= '\U{200A}')
    || c == '\U{2028}' || c == '\U{2029}' || c == '\U{202F}' || c == '\U{205F}'
    || c == '\U{3000}' || c == '\U{FEFF}'
  }

  /** The characters a JavaScript `.` does not match. */
  predicate IsLineTerminator(c: char) {
    c == '\n' || c == '\r' || c == '\U{2028}' || c == '\U{2029}'
  }

  lemma LineTerminatorIsSpace(c: char)
    ensures IsLineTerminator(c) ==> IsSpace(c)
  {
  }

  predicate AllSpace(s: string) {
    forall i :: 0 <= i < |s| ==> IsSpace(s[i])
  }

  /** Number of white-space characters at the start of `s`. */
  function LeadingSpace(s: string): (n: nat)
    ensures n <= |s| && AllSpace(s[..n]) && (n == |s| || !IsSpace(s[n]))
    decreases |s|
  {
    if s != [] && IsSpace(s[0]) then
      var n := 1 + LeadingSpace(s[1..]);
      assert s[..n] == [s[0]] + s[1..][..n - 1];
      n
    else 0
  }

  /** Number of white-space characters at the end of `s`. */
  function TrailingSpace(s: string): (n: nat)
    ensures n <= |s| && AllSpace(s[|s| - n..]) && (n == |s| || !IsSpace(s[|s| - n - 1]))
    decreases |s|
  {
    if s != [] && IsSpace(s[|s| - 1]) then
      var p := s[..|s| - 1];
      var n := 1 + TrailingSpace(p);
      assert s[|s| - n..] == p[|p| - (n - 1)..] + [s[|s| - 1]];
      n
    else 0
  }

  /** `String.prototype.trimStart`. */
  function TrimStart(s: string): string {
    s[LeadingSpace(s)..]
  }

  /** `String.prototype.trimEnd`. */
  function TrimEnd(s: string): string {
    s[..|s| - TrailingSpace(s)]
  }

  /** `String.prototype.trim`. */
  function Trim(s: string): (r: string)
    ensures |r| <= |s|
    ensures r == [] || (!IsSpace(r[0]) && !IsSpace(r[|r| - 1]))
  {
    var t := TrimStart(s);
    var r := TrimEnd(t);
    assert r != [] ==> r[0] == t[0];
    r
  }

  /** `Trim(s)` is the part of `s` that starts where the leading white space ends. */
  lemma TrimIsSlice(s: string)
    ensures var i, r := LeadingSpace(s), Trim(s);
      i + |r| <= |s| && s[i..i + |r|] == r
  {
    var i := LeadingSpace(s);
    var t := s[i..];
    SliceParts(s, i, |t| - TrailingSpace(t), t, Trim(s));
  }

  /** The pieces of a prefix of a suffix, over free sequences. */
  lemma SliceParts<T>(s: seq<T>, i: nat, k: nat, t: seq<T>, r: seq<T>)
    requires i <= |s| && t == s[i..] && k <= |t| && r == t[..k]
    ensures i + |r| <= |s| && s[i..i + |r|] == r
  {
  }

  /** Only white space trims to nothing. */
  lemma TrimNothingIsSpace(s: string)
    requires Trim(s) == []
    ensures AllSpace(s)
  {
    var i := LeadingSpace(s);
    var t := s[i..];
    assert t[|t| - TrailingSpace(t)..] == s[i..];
    AllSpaceSplit(s, i);
  }

  /** Trimming a string that neither starts nor ends with white space changes nothing. */
  lemma TrimUnpadded(s: string)
    requires s == [] || (!IsSpace(s[0]) && !IsSpace(s[|s| - 1]))
    ensures Trim(s) == s
  {
  }

  /** A string made only of white space trims to the empty string. */
  lemma {:induction false} TrimAllSpace(s: string)
    requires AllSpace(s)
    ensures LeadingSpace(s) == |s| && Trim(s) == []
    decreases |s|
  {
    if s != [] {
      assert AllSpace(s[1..]) by {
        forall i | 0 <= i < |s[1..]| ensures IsSpace(s[1..][i]) { assert s[1..][i] == s[i + 1]; }
      }
      TrimAllSpace(s[1..]);
    }
  }

  lemma {:induction false} LeadingSpaceAppend(w: string, s: string)
    requires AllSpace(w) && (s == [] || !IsSpace(s[0]))
    ensures LeadingSpace(w + s) == |w|
    decreases |w|
  {
    if w != [] {
      assert (w + s)[1..] == w[1..] + s;
      assert AllSpace(w[1..]) by {
        forall i | 0 <= i < |w[1..]| ensures IsSpace(w[1..][i]) { assert w[1..][i] == w[i + 1]; }
      }
      LeadingSpaceAppend(w[1..], s);
    }
  }

  lemma {:induction false} TrailingSpaceAppend(s: string, w: string)
    requires AllSpace(w) && (s == [] || !IsSpace(s[|s| - 1]))
    ensures TrailingSpace(s + w) == |w|
    decreases |w|
  {
    if w != [] {
      var w' := w[..|w| - 1];
      assert (s + w)[..|s + w| - 1] == s + w';
      assert AllSpace(w') by {
        forall i | 0 <= i < |w'| ensures IsSpace(w'[i]) { assert w'[i] == w[i]; }
      }
      TrailingSpaceAppend(s, w');
    }
  }

  /** Trimming removes exactly the white space around a value that has none at its ends. */
  lemma TrimPadded(w1: string, v: string, w2: string)
    requires AllSpace(w1) && AllSpace(w2)
    requires v == [] || (!IsSpace(v[0]) && !IsSpace(v[|v| - 1]))
    ensures Trim(w1 + v + w2) == v
  {
    var s := w1 + v + w2;
    if v == [] {
      assert s == w1 + w2;
      assert AllSpace(s) by {
        forall i | 0 <= i < |s| ensures IsSpace(s[i]) {
          if i < |w1| { assert s[i] == w1[i]; } else { assert s[i] == w2[i - |w1|]; }
        }
      }
      TrimAllSpace(s);
    } else {
      assert s == w1 + (v + w2);
      LeadingSpaceAppend(w1, v + w2);
      assert TrimStart(s) == v + w2;
      TrailingSpaceAppend(v, w2);
      assert TrimEnd(v + w2) == v;
    }
  }

  /** Trimming leaves nothing exactly when the text is all white space. */
  lemma TrimEmpty(s: string)
    ensures Trim(s) == [] <==> AllSpace(s)
  {
    if AllSpace(s) {
      TrimAllSpace(s);
    }
    if Trim(s) == [] {
      TrimNothingIsSpace(s);
    }
  }

  lemma AllSpaceSplit(s: string, i: int)
    requires 0 <= i <= |s| && AllSpace(s[..i]) && AllSpace(s[i..])
    ensures AllSpace(s)
  {
    forall k | 0 <= k < |s| ensures IsSpace(s[k]) {
      if k < i { assert s[..i][k] == s[k]; } else { assert s[i..][k - i] == s[k]; }
    }
  }

  /** `Trim` is idempotent. */
  lemma TrimIdempotent(s: string)
    ensures Trim(Trim(s)) == Trim(s)
  {
    TrimUnpadded(Trim(s));
  }

  /** `String.prototype.startsWith`. */
  predicate StartsWith(s: string, prefix: string) {
    |prefix| <= |s| && s[..|prefix|] == prefix
  }

  /** `String.prototype.endsWith`. */
  predicate EndsWith(s: string, suffix: string) {
    |suffix| <= |s| && s[|s| - |suffix|..] == suffix
  }

  /** `String.prototype.includes`: `sub` occurs at some position of `s`. */
  predicate Contains(s: string, sub: string)
    decreases |s|
  {
    StartsWith(s, sub) || (s != [] && Contains(s[1..], sub))
  }

  /** `sub` sits in `s` at index `i`. */
  predicate OccursAt(s: string, sub: string, i: int) {
    0 <= i <= |s| - |sub| && s[i..i + |sub|] == sub
  }

  /** `includes` finds `sub` exactly when it sits at some index of `s`. */
  lemma {:induction false} ContainsAt(s: string, sub: string)
    ensures Contains(s, sub) <==> exists i :: OccursAt(s, sub, i)
    decreases |s|
  {
    if s != [] {
      ContainsAt(s[1..], sub);
      if StartsWith(s, sub) {
        assert s[0..|sub|] == sub;
        assert OccursAt(s, sub, 0);
      }
      if Contains(s[1..], sub) {
        var i :| OccursAt(s[1..], sub, i);
        assert s[i + 1..i + 1 + |sub|] == sub;
        assert OccursAt(s, sub, i + 1);
      }
      if exists i :: OccursAt(s, sub, i) {
        var i :| OccursAt(s, sub, i);
        if i > 0 {
          assert s[1..][i - 1..i - 1 + |sub|] == sub;
          assert OccursAt(s[1..], sub, i - 1);
        } else {
          assert s[..|sub|] == s[0..|sub|];
        }
      }
    } else {
      if Contains(s, sub) {
        assert sub == [] && OccursAt(s, sub, 0);
      }
      if exists i :: OccursAt(s, sub, i) {
        var i :| OccursAt(s, sub, i);
        assert i == 0 && sub == [];
        assert StartsWith(s, sub);
      }
    }
  }

  /** Every string includes the empty string. */
  lemma ContainsEmpty(s: string)
    ensures Contains(s, "")
  {
  }

  /** `String.prototype.toLowerCase` on one character, for the ASCII letters. */
  function LowerChar(c: char): char {
    if 'A' <= c <= 'Z' then (c as int + 32) as char else c
  }

  /** `String.prototype.toLowerCase`, for the ASCII letters. */
  function ToLower(s: string): (r: string)
    ensures |r| == |s|
    ensures forall i :: 0 <= i < |s| ==> r[i] == LowerChar(s[i])
  {
    seq(|s|, i requires 0 <= i < |s| => LowerChar(s[i]))
  }

  /** Lower-casing twice is lower-casing once. */
  lemma ToLowerIdempotent(s: string)
    ensures ToLower(ToLower(s)) == ToLower(s)
  {
  }

  /** `s.split(sep)` for a one-character separator: the pieces between the separators. */
  function Split(s: string, sep: char): (pieces: seq<string>)
    ensures |pieces| >= 1
    decreases |s|
  {
    if s == [] then [""]
    else
      var rest := Split(s[1..], sep);
      if s[0] == sep then [""] + rest else [[s[0]] + rest[0]] + rest[1..]
  }

  /** `pieces.join(sep)`. */
  function Join(pieces: seq<string>, sep: string): string
    decreases |pieces|
  {
    if pieces == [] then ""
    else if |pieces| == 1 then pieces[0]
    else pieces[0] + sep + Join(pieces[1..], sep)
  }

  /** Joining two non-empty lists is joining each, with one separator between them. */
  lemma {:induction false} JoinAppend(a: seq<string>, b: seq<string>, sep: string)
    requires a != [] && b != []
    ensures Join(a + b, sep) == Join(a, sep) + sep + Join(b, sep)
    ensures EndsWith(Join(a + b, sep), sep + Join(b, sep))
    decreases |a|
  {
    assert (a + b)[0] == a[0];
    if |a| == 1 {
      assert (a + b)[1..] == b;
    } else {
      assert (a + b)[1..] == a[1..] + b;
      JoinAppend(a[1..], b, sep);
    }
    var doc, tail := Join(a + b, sep), sep + Join(b, sep);
    assert doc == Join(a, sep) + tail;
    assert doc[|doc| - |tail|..] == tail;
  }

  predicate Free(s: string, c: char) {
    forall i :: 0 <= i < |s| ==> s[i] != c
  }

  /** Splitting and joining again gives back the string, and no piece holds the separator. */
  lemma {:induction false} SplitJoin(s: string, sep: char)
    ensures Join(Split(s, sep), [sep]) == s
    ensures forall k :: 0 <= k < |Split(s, sep)| ==> Free(Split(s, sep)[k], sep)
    decreases |s|
  {
    if s != [] {
      var rest := Split(s[1..], sep);
      SplitJoin(s[1..], sep);
      if s[0] == sep {
        assert Join([""] + rest, [sep]) == "" + [sep] + Join(rest, [sep]);
        assert s == [s[0]] + s[1..];
      } else {
        var ps := [[s[0]] + rest[0]] + rest[1..];
        assert Free([s[0]] + rest[0], sep) by {
          assert Free(rest[0], sep);
        }
        if |rest| == 1 {
          assert s == [s[0]] + s[1..];
        } else {
          assert ps[1..] == rest[1..];
          assert Join(rest, [sep]) == rest[0] + [sep] + Join(rest[1..], [sep]);
          assert s == [s[0]] + s[1..];
        }
      }
    }
  }

  /** Joining separator-free pieces and splitting again gives back the pieces. */
  lemma {:induction false} JoinSplit(pieces: seq<string>, sep: char)
    requires |pieces| >= 1
    requires forall k :: 0 <= k < |pieces| ==> Free(pieces[k], sep)
    ensures Split(Join(pieces, [sep]), sep) == pieces
    decreases |pieces|
  {
    if |pieces| == 1 {
      SplitFree(pieces[0], sep);
    } else {
      JoinSplit(pieces[1..], sep);
      SplitPrefix(pieces[0], Join(pieces[1..], [sep]), sep);
      assert pieces == [pieces[0]] + pieces[1..];
    }
  }

  lemma {:induction false} SplitFree(s: string, sep: char)
    requires Free(s, sep)
    ensures Split(s, sep) == [s]
    decreases |s|
  {
    if s != [] {
      SplitFree(s[1..], sep);
      assert s == [s[0]] + s[1..];
    }
  }

  /** Splitting `a + sep + b` with `a` separator-free gives `a` followed by the pieces of `b`. */
  lemma {:induction false} SplitPrefix(a: string, b: string, sep: char)
    requires Free(a, sep)
    ensures Split(a + [sep] + b, sep) == [a] + Split(b, sep)
    decreases |a|
  {
    if a == [] {
      assert [] + [sep] + b == [sep] + b;
      assert ([sep] + b)[1..] == b;
    } else {
      assert (a + [sep] + b)[1..] == a[1..] + [sep] + b;
      SplitPrefix(a[1..], b, sep);
      assert a == [a[0]] + a[1..];
    }
  }

  function DropCR(s: string): (r: string)
    ensures r == s || r + "\r" == s
  {
    if s != [] && s[|s| - 1] == '\r' then s[..|s| - 1] else s
  }

  /** `text.split(/\r?\n/)`: split at every line feed, dropping a carriage return just
      before it. */
  function SplitLines(text: string): (lines: seq<string>)
    ensures |lines| == |Split(text, '\n')| && |lines| >= 1
    ensures forall i :: 0 <= i < |lines| ==> Free(lines[i], '\n')
  {
    var pieces := Split(text, '\n');
    SplitJoin(text, '\n');
    seq(|pieces|, i requires 0 <= i < |pieces| => if i < |pieces| - 1 then DropCR(pieces[i]) else pieces[i])
  }

  /** A field without `c` that ends where a `c` follows is determined by the text. */
  lemma FieldInjective(pre: string, a: string, ra: string, b: string, rb: string, c: char)
    requires Free(a, c) && Free(b, c) && ra != [] && rb != [] && ra[0] == c && rb[0] == c
    requires pre + a + ra == pre + b + rb
    ensures a == b
  {
    var s := pre + a + ra;
    var t := pre + b + rb;
    assert s[|pre| + |a|] == c;
    assert t[|pre| + |b|] == c;
    assert |a| == |b|;
    assert forall i :: 0 <= i < |a| ==> a[i] == s[|pre| + i] && b[i] == t[|pre| + i];
  }

  /** A decimal digit character. */
  function DigitChar(d: nat): char
    requires d < 10
  {
    ('0' as int + d) as char
  }

  function DigitValue(c: char): nat {
    if '0' <= c <= '9' then c as nat - '0' as nat else 0
  }

  /** The decimal text of `n`, as template literals render a non-negative integer. */
  function NatToString(n: nat): (r: string)
    ensures |r| >= 1
    ensures forall i :: 0 <= i < |r| ==> '0' <= r[i] <= '9'
    decreases n
  {
    if n < 10 then [DigitChar(n)] else NatToString(n / 10) + [DigitChar(n % 10)]
  }

  /** The value of a string of decimal digits. */
  function DecimalValue(s: string): nat
    decreases |s|
  {
    if s == [] then 0 else 10 * DecimalValue(s[..|s| - 1]) + DigitValue(s[|s| - 1])
  }

  lemma DecimalValueSnoc(s: string, c: char)
    ensures DecimalValue(s + [c]) == 10 * DecimalValue(s) + DigitValue(c)
  {
    assert (s + [c])[..|s|] == s;
  }

  /** Reading the decimal text back gives the number. */
  lemma {:induction false} NatToStringRoundTrip(n: nat)
    ensures DecimalValue(NatToString(n)) == n
    decreases n
  {
    if n >= 10 {
      NatToStringRoundTrip(n / 10);
      DecimalValueSnoc(NatToString(n / 10), DigitChar(n % 10));
    }
  }

  /** The UTF-16 code units of one character: itself inside the Basic Multilingual
      Plane, a high and a low surrogate above it. */
  function Utf16(c: char): (u: seq<int>)
    ensures 1 <= |u| <= 2
  {
    var n := c as int;
    if n < 0x1_0000 then [n] else [0xD800 + (n - 0x1_0000) / 0x400, 0xDC00 + (n - 0x1_0000) % 0x400]
  }

  /** The UTF-16 code units of a string, as JavaScript stores it. */
  function Utf16Of(s: string): seq<int>
    decreases |s|
  {
    if s == [] then [] else Utf16(s[0]) + Utf16Of(s[1..])
  }

  /** Lexicographic order on code units, a prefix first. */
  predicate UnitsLe(u: seq<int>, v: seq<int>)
    decreases |u|
  {
    u == [] || (v != [] && (u[0] < v[0] || (u[0] == v[0] && UnitsLe(u[1..], v[1..]))))
  }

  /** A key that orders characters as their first code units do: the characters from
      U+E000 to U+FFFF come after every character above U+FFFF, whose high surrogates
      lie below U+E000. */
  function UnitKey(c: char): int {
    var n := c as int;
    if 0xE000 <= n < 0x1_0000 then n + 0x11_0000 else n
  }

  predicate CharLt(c: char, d: char) {
    UnitKey(c) < UnitKey(d)
  }

  lemma UnitKeyInjective(c: char, d: char)
    ensures UnitKey(c) == UnitKey(d) ==> c == d
  {
  }

  /** The default order of `Array.prototype.sort` on strings: lexicographic, each
      character ranked by its code units. */
  predicate LexLe(a: string, b: string)
    decreases |a|
  {
    a == [] || (b != [] && (CharLt(a[0], b[0]) || (a[0] == b[0] && LexLe(a[1..], b[1..]))))
  }

  /** Helper: a common prefix of code units does not change their order. */
  lemma {:induction false} UnitsLeCommon(p: seq<int>, x: seq<int>, y: seq<int>)
    ensures UnitsLe(p + x, p + y) <==> UnitsLe(x, y)
    decreases |p|
  {
    if p != [] {
      assert (p + x)[1..] == p[1..] + x && (p + y)[1..] == p[1..] + y;
      UnitsLeCommon(p[1..], x, y);
    } else {
      assert p + x == x && p + y == y;
    }
  }

  /** Two different characters are ordered by their code units whatever follows them. */
  lemma CharLtIsUnitOrder(c: char, d: char, x: seq<int>, y: seq<int>)
    requires c != d
    ensures UnitsLe(Utf16(c) + x, Utf16(d) + y) <==> CharLt(c, d)
  {
    var u, v := Utf16(c) + x, Utf16(d) + y;
    var n, m := c as int, d as int;
    assert u[0] == Utf16(c)[0] && v[0] == Utf16(d)[0];
    if n >= 0x1_0000 && m >= 0x1_0000 && u[0] == v[0] {
      assert (n - 0x1_0000) / 0x400 == (m - 0x1_0000) / 0x400;
      assert u[1..] == [Utf16(c)[1]] + x && v[1..] == [Utf16(d)[1]] + y;
      assert (n - 0x1_0000) % 0x400 != (m - 0x1_0000) % 0x400;
    }
  }

  /** A character above U+FFFF sorts before U+FF01, although its code point is larger:
      its high surrogate is below U+E000. */
  lemma SurrogatesSortFirst()
    ensures LexLe("\U{1F600}", "\U{FF01}") && !LexLe("\U{FF01}", "\U{1F600}")
  {
  }

  /** The string order is the order of the strings' UTF-16 code units, which is what
      `sort()` compares. */
  lemma {:induction false} LexLeIsUnitOrder(a: string, b: string)
    ensures LexLe(a, b) <==> UnitsLe(Utf16Of(a), Utf16Of(b))
    decreases |a|
  {
    if a != [] && b != [] {
      if a[0] == b[0] {
        LexLeIsUnitOrder(a[1..], b[1..]);
        UnitsLeCommon(Utf16(a[0]), Utf16Of(a[1..]), Utf16Of(b[1..]));
      } else {
        CharLtIsUnitOrder(a[0], b[0], Utf16Of(a[1..]), Utf16Of(b[1..]));
      }
    }
  }

  lemma {:induction false} LexLeTotal(a: string, b: string)
    ensures LexLe(a, b) || LexLe(b, a)
    decreases |a|
  {
    if a != [] && b != [] {
      UnitKeyInjective(a[0], b[0]);
      if a[0] == b[0] {
        LexLeTotal(a[1..], b[1..]);
      }
    }
  }

  lemma {:induction false} LexLeTransitive(a: string, b: string, c: string)
    requires LexLe(a, b) && LexLe(b, c)
    ensures LexLe(a, c)
    decreases |a|
  {
    if a != [] && b != [] && c != [] && a[0] == b[0] == c[0] {
      LexLeTransitive(a[1..], b[1..], c[1..]);
    }
  }

  lemma {:induction false} LexLeAntisymmetric(a: string, b: string)
    requires LexLe(a, b) && LexLe(b, a)
    ensures a == b
    decreases |a|
  {
    if a != [] {
      LexLeAntisymmetric(a[1..], b[1..]);
      assert a == [a[0]] + a[1..] && b == [b[0]] + b[1..];
    }
  }
}

/** The parts of Node's `path` module the scripts use, for POSIX separators. */
module Paths {
  import opened Strings

  /** Index of the last `c` in `s`, or -1. */
  function LastIndexOf(s: string, c: char): (r: int)
    ensures -1 <= r < |s|
    ensures r >= 0 ==> s[r] == c
    ensures forall j :: r < j < |s| ==> s[j] != c
  {
    if s == [] then -1
    else if s[|s| - 1] == c then |s| - 1
    else LastIndexOf(s[..|s| - 1], c)
  }

  /** The last `c` of `a + [c] + b` is the one after `a` when `b` holds none. */
  lemma {:induction false} LastIndexOfAppend(a: string, c: char, b: string)
    requires Free(b, c)
    ensures LastIndexOf(a + [c] + b, c) == |a|
    decreases |b|
  {
    var s := a + [c] + b;
    if b != [] {
      var b' := b[..|b| - 1];
      assert s[..|s| - 1] == a + [c] + b';
      assert s[|s| - 1] == b[|b| - 1];
      LastIndexOfAppend(a, c, b');
    }
  }

  /** `path.join(dir, name)` for a directory and an entry name read from that directory. */
  function PathJoin(dir: string, name: string): string {
    dir + "/" + name
  }

  /** `path.basename(p)` for a path without a trailing separator. */
  function BaseName(p: string): string {
    p[LastIndexOf(p, '/') + 1..]
  }

  /** `path.extname(p)` for a path without a trailing separator: from the last `.` of the
      base name on, or "" when there is none, when it is the first character, or for "..". */
  function ExtName(p: string): string {
    var b := BaseName(p);
    var d := LastIndexOf(b, '.');
    if d <= 0 || b == ".." then "" else b[d..]
  }

  /** The base name of a joined path is the entry name. */
  lemma BaseNameOfJoin(dir: string, name: string)
    requires Free(name, '/')
    ensures BaseName(PathJoin(dir, name)) == name
  {
    var p := PathJoin(dir, name);
    assert p[|dir|] == '/';
    assert LastIndexOf(p, '/') == |dir|;
    assert p[|dir| + 1..] == name;
  }

  /** The extension of an entry name that ends in `suffix` (a dot and dot-free letters) is
      `suffix` exactly when something comes before it, and no other name has that extension. */
  lemma ExtNameIs(dir: string, name: string, suffix: string)
    requires Free(name, '/')
    requires |suffix| >= 2 && suffix[0] == '.' && Free(suffix[1..], '.') && Free(suffix, '/')
    ensures ExtName(PathJoin(dir, name)) == suffix <==> |name| > |suffix| && EndsWith(name, suffix)
  {
    BaseNameOfJoin(dir, name);
    var d := LastIndexOf(name, '.');
    if |name| > |suffix| && EndsWith(name, suffix) {
      var k := |name| - |suffix|;
      assert name[k] == suffix[0];
      forall j | k < j < |name| ensures name[j] != '.' {
        assert name[j] == suffix[1..][j - k - 1];
      }
      assert d == k;
      assert name != ".." by { assert name[|name| - 1] == suffix[|suffix| - 1]; }
    }
    if ExtName(PathJoin(dir, name)) == suffix {
      assert d > 0 && name[d..] == suffix;
    }
  }
}

/** Order-preserving sublists and filters over sequences (`Array.prototype.filter`). */
module Seqs {

  /** `a` is `b` with some elements left out, the rest in the same order. */
  predicate IsSubsequence<T(==)>(a: seq<T>, b: seq<T>)
    decreases |b|
  {
    a == [] || (b != [] && (if a[0] == b[0] then IsSubsequence(a[1..], b[1..]) else IsSubsequence(a, b[1..])))
  }

  /** `s.filter(p)`. */
  function Filter<T>(s: seq<T>, p: T -> bool): (r: seq<T>)
    ensures |r| <= |s|
    ensures forall i :: 0 <= i < |r| ==> p(r[i])
    decreases |s|
  {
    if s == [] then [] else (if p(s[0]) then [s[0]] else []) + Filter(s[1..], p)
  }

  /** The filter keeps exactly the elements that pass the test. */
  lemma {:induction false} FilterMembers<T>(s: seq<T>, p: T -> bool)
    ensures forall x :: x in Filter(s, p) <==> x in s && p(x)
    decreases |s|
  {
    if s != [] {
      FilterMembers(s[1..], p);
      assert s == [s[0]] + s[1..];
    }
  }

  /** The filter keeps every passing element as often as it occurs, and no other. */
  lemma {:induction false} FilterMultiset<T>(s: seq<T>, p: T -> bool)
    ensures forall x :: multiset(Filter(s, p))[x] == if p(x) then multiset(s)[x] else 0
    decreases |s|
  {
    if s != [] {
      FilterMultiset(s[1..], p);
      assert s == [s[0]] + s[1..];
      assert multiset(s) == multiset([s[0]]) + multiset(s[1..]);
    }
  }

  lemma {:induction false} FilterIsSubsequence<T>(s: seq<T>, p: T -> bool)
    ensures IsSubsequence(Filter(s, p), s)
    decreases |s|
  {
    if s != [] {
      FilterIsSubsequence(s[1..], p);
      var f := Filter(s[1..], p);
      assert s == [s[0]] + s[1..];
      if !p(s[0]) {
        assert Filter(s, p) == f;
        SubsequenceSkip(f, s[1..], s[0]);
      } else {
        assert Filter(s, p) == [s[0]] + f;
        assert ([s[0]] + f)[1..] == f;
      }
    }
  }

  /** Putting an element in front of the longer sequence keeps a sublist a sublist. */
  lemma {:induction false} SubsequenceSkip<T>(a: seq<T>, b: seq<T>, x: T)
    requires IsSubsequence(a, b)
    ensures IsSubsequence(a, [x] + b)
    decreases |b|, 1
  {
    if a != [] && a[0] != x {
      assert ([x] + b)[1..] == b;
    } else if a != [] {
      assert ([x] + b)[1..] == b;
      SubsequenceDrop(a, b);
    }
  }

  /** A sublist without its first element is still a sublist. */
  lemma {:induction false} SubsequenceDrop<T>(a: seq<T>, b: seq<T>)
    requires a != [] && IsSubsequence(a, b)
    ensures IsSubsequence(a[1..], b)
    decreases |b|, 0
  {
    if a[0] != b[0] {
      SubsequenceDrop(a, b[1..]);
      SubsequenceSkip(a[1..], b[1..], b[0]);
      assert [b[0]] + b[1..] == b;
    } else if a[1..] != [] {
      SubsequenceSkip(a[1..], b[1..], b[0]);
      assert [b[0]] + b[1..] == b;
    }
  }

  lemma {:induction false} FilterAppend<T>(a: seq<T>, b: seq<T>, p: T -> bool)
    ensures Filter(a + b, p) == Filter(a, p) + Filter(b, p)
    decreases |a|
  {
    if a == [] {
      assert a + b == b;
    } else {
      assert (a + b)[0] == a[0];
      assert (a + b)[1..] == a[1..] + b;
      FilterAppend(a[1..], b, p);
    }
  }

  /** The filter of a longer prefix. */
  lemma FilterStep<T>(s: seq<T>, p: T -> bool, i: nat)
    requires i < |s|
    ensures Filter(s[..i + 1], p) == Filter(s[..i], p) + (if p(s[i]) then [s[i]] else [])
  {
    assert s[..i + 1] == s[..i] + [s[i]];
    FilterAppend(s[..i], [s[i]], p);
  }

  /** A filter keeps everything exactly when every element passes. */
  lemma {:induction false} FilterAll<T>(s: seq<T>, p: T -> bool)
    ensures Filter(s, p) == s <==> forall i :: 0 <= i < |s| ==> p(s[i])
    decreases |s|
  {
    if s != [] {
      FilterAll(s[1..], p);
      if !p(s[0]) {
        assert |Filter(s, p)| < |s|;
      }
      if forall i :: 0 <= i < |s| ==> p(s[i]) {
        assert forall i :: 0 <= i < |s[1..]| ==> p(s[1..][i]) by {
          forall i | 0 <= i < |s[1..]| ensures p(s[1..][i]) { assert s[1..][i] == s[i + 1]; }
        }
        assert s == [s[0]] + s[1..];
      } else {
        var i :| 0 <= i < |s| && !p(s[i]);
        assert s[i] !in Filter(s, p);
      }
    }
  }

  /** A filter that no element passes keeps nothing. */
  lemma {:induction false} FilterNone<T>(s: seq<T>, p: T -> bool)
    requires forall i :: 0 <= i < |s| ==> !p(s[i])
    ensures Filter(s, p) == []
    decreases |s|
  {
    if s != [] {
      assert forall i :: 0 <= i < |s[1..]| ==> s[1..][i] == s[i + 1];
      FilterNone(s[1..], p);
    }
  }

  /** Two tests that agree on every element keep the same elements. */
  lemma {:induction false} FilterEquiv<T>(s: seq<T>, p: T -> bool, q: T -> bool)
    requires forall i :: 0 <= i < |s| ==> p(s[i]) == q(s[i])
    ensures Filter(s, p) == Filter(s, q)
    decreases |s|
  {
    if s != [] {
      assert forall i :: 0 <= i < |s[1..]| ==> s[1..][i] == s[i + 1];
      FilterEquiv(s[1..], p, q);
    }
  }

  /** Number of elements of `s` that satisfy `p`. */
  function Count<T>(s: seq<T>, p: T -> bool): nat {
    |Filter(s, p)|
  }

  /** Position of the first `x` in `s`, or -1 (`Array.prototype.indexOf`). */
  function IndexOf<T(==)>(s: seq<T>, x: T): (r: int)
    ensures -1 <= r < |s|
    ensures r == -1 <==> x !in s
    ensures 0 <= r ==> s[r] == x && x !in s[..r]
    decreases |s|
  {
    if s == [] then -1
    else if s[0] == x then 0
    else
      var r := IndexOf(s[1..], x);
      if r == -1 then -1
      else
        assert s[..r + 1] == [s[0]] + s[1..][..r];
        r + 1
  }

  predicate Distinct<T(==)>(s: seq<T>) {
    forall i, j :: 0 <= i < j < |s| ==> s[i] != s[j]
  }

  function EqualTo<T(==)>(x: T): T -> bool {
    (y: T) => y == x
  }

  /** Number of times `x` occurs in `s`. */
  function Occurrences<T(==)>(s: seq<T>, x: T): nat {
    Count(s, EqualTo(x))
  }

  /** A non-empty sequence is its front followed by its last element. */
  lemma SplitLast<T>(s: seq<T>)
    requires s != []
    ensures s == s[..|s| - 1] + [s[|s| - 1]]
  {
  }

  lemma ConcatAssoc<T>(x: seq<T>, y: seq<T>, z: seq<T>)
    ensures (x + y) + z == x + (y + z)
  {
  }

  /** The three parts of `pre + body + post` read back by slicing. */
  lemma Wrapped<T>(pre: seq<T>, body: seq<T>, post: seq<T>)
    ensures var l := pre + body + post;
            && |l| == |pre| + |body| + |post|
            && l[..|pre|] == pre && l[|pre|..|l| - |post|] == body && l[|l| - |post|..] == post
            && (post != [] ==> l[|l| - 1] == post[|post| - 1])
  {
    var l := pre + body + post;
    assert l[..|pre|] == pre;
    assert l[|pre|..|l| - |post|] == body;
    assert l[|l| - |post|..] == post;
  }

  /** Membership in a concatenation, stated over free sequences. */
  lemma InAppend<T>(a: seq<T>, b: seq<T>, x: T)
    ensures x in a + b <==> x in a || x in b
  {
  }

  lemma OccurrencesAppend<T>(a: seq<T>, b: seq<T>, x: T)
    ensures Occurrences(a + b, x) == Occurrences(a, x) + Occurrences(b, x)
  {
    FilterAppend(a, b, EqualTo(x));
  }

  lemma OccurrencesThree<T>(a: seq<T>, h: seq<T>, b: seq<T>, x: T)
    ensures Occurrences(a + h + b, x) == Occurrences(a, x) + Occurrences(h, x) + Occurrences(b, x)
  {
    OccurrencesAppend(a + h, b, x);
    OccurrencesAppend(a, h, x);
  }

  lemma OccurrencesAbsent<T>(s: seq<T>, x: T)
    requires x !in s
    ensures Occurrences(s, x) == 0
  {
    FilterNone(s, EqualTo(x));
  }

  /** Filtering a sequence without repetitions gives one without repetitions. */
  lemma {:induction false} FilterDistinct<T>(s: seq<T>, p: T -> bool)
    requires Distinct(s)
    ensures Distinct(Filter(s, p))
    decreases |s|
  {
    if s != [] {
      var t := s[1..];
      assert Distinct(t) by {
        forall i, j | 0 <= i < j < |t| ensures t[i] != t[j] { assert t[i] == s[i + 1] && t[j] == s[j + 1]; }
      }
      FilterDistinct(t, p);
      var f := Filter(t, p);
      FilterMembers(t, p);
      assert s[0] !in t by {
        forall k | 0 <= k < |t| ensures t[k] != s[0] { assert t[k] == s[k + 1]; }
      }
      var r := Filter(s, p);
      forall i, j | 0 <= i < j < |r| ensures r[i] != r[j] {
        if p(s[0]) {
          assert r == [s[0]] + f;
          assert r[j] == f[j - 1];
          if i > 0 { assert r[i] == f[i - 1]; }
        }
      }
    }
  }

  /** In a sequence without repetitions, an element occurs exactly once or not at all. */
  lemma {:induction false} CountDistinct<T>(s: seq<T>, x: T)
    requires Distinct(s)
    ensures Occurrences(s, x) == if x in s then 1 else 0
    decreases |s|
  {
    if s != [] {
      var t := s[1..];
      assert Distinct(t) by {
        forall i, j | 0 <= i < j < |t| ensures t[i] != t[j] { assert t[i] == s[i + 1] && t[j] == s[j + 1]; }
      }
      CountDistinct(t, x);
      if s[0] == x {
        assert x !in t by {
          forall k | 0 <= k < |t| ensures t[k] != x { assert t[k] == s[k + 1]; }
        }
      } else {
        assert x in s <==> x in t by { assert s == [s[0]] + t; }
      }
    }
  }
}
