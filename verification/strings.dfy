/**
 * The JavaScript string primitives the application relies on, over `seq<char>`:
 * `trim`, `split` on one character, `join`, `startsWith`, `includes`,
 * ASCII lower-casing, decimal rendering, and the truthiness of optional strings.
 */
module Strings {
  import opened Wrappers

  /** The code points `String.prototype.trim` removes: ECMAScript WhiteSpace and LineTerminator. */
  predicate IsJsSpace(c: char) {
    || c == '\t' || c == '\n' || c == '\U{000B}' || c == '\U{000C}' || c == '\r' || c == ' '
    || c == '\U{00A0}' || c == '\U{1680}' || ('\U{2000}' <= c <= '\U{200A}')
    || c == '\U{2028}' || c == '\U{2029}' || c == '\U{202F}' || c == '\U{205F}'
    || c == '\U{3000}' || c == '\U{FEFF}'
  }

  /** Every character is white space (vacuously true of the empty string). */
  predicate IsBlank(s: string) {
    forall i :: 0 <= i < |s| ==> IsJsSpace(s[i])
  }

  /** The number of white-space characters `s` starts with. */
  function LeadingSpaces(s: string): (k: nat)
    ensures k <= |s|
  {
    if |s| > 0 && IsJsSpace(s[0]) then 1 + LeadingSpaces(s[1..]) else 0
  }

  /** The number of white-space characters `s` ends with. */
  function TrailingSpaces(s: string): (k: nat)
    ensures k <= |s|
  {
    if |s| > 0 && IsJsSpace(s[|s| - 1]) then 1 + TrailingSpaces(s[..|s| - 1]) else 0
  }

  /** `LeadingSpaces` counts the whole run of white space at the start, and no more. */
  lemma {:induction false} LeadingSpacesSpec(s: string)
    ensures forall i :: 0 <= i < LeadingSpaces(s) ==> IsJsSpace(s[i])
    ensures LeadingSpaces(s) == |s| || !IsJsSpace(s[LeadingSpaces(s)])
  {
    if |s| > 0 && IsJsSpace(s[0]) {
      LeadingSpacesSpec(s[1..]);
      forall i | 1 <= i < LeadingSpaces(s) ensures IsJsSpace(s[i]) {
        assert s[i] == s[1..][i - 1];
      }
    }
  }

  /** `TrailingSpaces` counts the whole run of white space at the end, and no more. */
  lemma {:induction false} TrailingSpacesSpec(s: string)
    ensures forall i :: |s| - TrailingSpaces(s) <= i < |s| ==> IsJsSpace(s[i])
    ensures TrailingSpaces(s) == |s| || !IsJsSpace(s[|s| - 1 - TrailingSpaces(s)])
  {
    if |s| > 0 && IsJsSpace(s[|s| - 1]) {
      var t := s[..|s| - 1];
      TrailingSpacesSpec(t);
      forall i | |s| - TrailingSpaces(s) <= i < |s| - 1 ensures IsJsSpace(s[i]) {
        assert s[i] == t[i];
      }
      if TrailingSpaces(s) < |s| {
        assert s[|s| - 1 - TrailingSpaces(s)] == t[|t| - 1 - TrailingSpaces(t)];
      }
    }
  }

  /** JavaScript's `s.trimStart()`. */
  function TrimStart(s: string): string {
    s[LeadingSpaces(s)..]
  }

  /** JavaScript's `s.trimEnd()`. */
  function TrimEnd(s: string): string {
    s[..|s| - TrailingSpaces(s)]
  }

  /** JavaScript's `s.trim()`. */
  function Trim(s: string): string {
    TrimEnd(TrimStart(s))
  }

  /** `Trim(s)` is the infix of `s` that starts after its leading white space and ends
      before its trailing white space, and it has no white space at either end. */
  lemma TrimSpec(s: string)
    ensures LeadingSpaces(s) + |Trim(s)| <= |s|
    ensures Trim(s) == s[LeadingSpaces(s)..LeadingSpaces(s) + |Trim(s)|]
    ensures IsBlank(s[..LeadingSpaces(s)]) && IsBlank(s[LeadingSpaces(s) + |Trim(s)|..])
    ensures Trim(s) == [] || (!IsJsSpace(Trim(s)[0]) && !IsJsSpace(Trim(s)[|Trim(s)| - 1]))
  {
    var a := LeadingSpaces(s);
    var t := s[a..];
    var n := |t| - TrailingSpaces(t);
    TrimParts(s, a, t, n);
    assert Trim(s) == s[a..a + n];
  }

  lemma TrimParts(s: string, a: nat, t: string, n: nat)
    requires a == LeadingSpaces(s) && t == s[a..] && n == |t| - TrailingSpaces(t)
    ensures a + n <= |s| && t[..n] == s[a..a + n]
    ensures IsBlank(s[..a]) && IsBlank(s[a + n..])
    ensures n == 0 || (!IsJsSpace(s[a]) && !IsJsSpace(s[a + n - 1]))
  {
    LeadingSpacesSpec(s);
    TrailingSpacesSpec(t);
    var tail := s[a + n..];
    forall i | 0 <= i < |tail| ensures IsJsSpace(tail[i]) {
      assert tail[i] == t[n + i];
    }
    var head := s[..a];
    forall i | 0 <= i < |head| ensures IsJsSpace(head[i]) {
      assert head[i] == s[i];
    }
    if n > 0 {
      assert s[a + n - 1] == t[|t| - 1 - TrailingSpaces(t)];
    }
  }

  /** The trimmed text is empty exactly when the text is blank (JavaScript's `!s.trim()`). */
  lemma TrimEmptyIffBlank(s: string)
    ensures Trim(s) == [] <==> IsBlank(s)
  {
    TrimSpec(s);
    var a := LeadingSpaces(s);
    if Trim(s) == [] {
      forall i | 0 <= i < |s| ensures IsJsSpace(s[i]) {
        if i < a { assert s[i] == s[..a][i]; } else { assert s[i] == s[a..][i - a]; }
      }
    } else {
      assert s[a] == Trim(s)[0];
    }
  }

  /** A string with no white space at either end is its own trimmed form. */
  lemma TrimUnchanged(s: string)
    requires s != [] && !IsJsSpace(s[0]) && !IsJsSpace(s[|s| - 1])
    ensures Trim(s) == s
  {
    assert LeadingSpaces(s) == 0;
    assert s[0..] == s;
    assert TrailingSpaces(s) == 0;
  }

  /** Trimming twice is trimming once. */
  lemma TrimIdempotent(s: string)
    ensures Trim(Trim(s)) == Trim(s)
  {
    TrimSpec(s);
    if Trim(s) != [] {
      TrimUnchanged(Trim(s));
    }
  }

  predicate StartsWith(s: string, prefix: string) {
    |prefix| <= |s| && s[..|prefix|] == prefix
  }

  predicate EndsWith(s: string, suffix: string) {
    |suffix| <= |s| && s[|s| - |suffix|..] == suffix
  }

  /** JavaScript's `s.includes(t)`: `t` occurs somewhere in `s`. */
  predicate Contains(s: string, t: string)
    decreases |s|
  {
    StartsWith(s, t) || (|s| > 0 && Contains(s[1..], t))
  }

  /** `Contains` holds exactly when `t` occurs at some offset of `s`. */
  lemma {:induction false} ContainsIffOccurs(s: string, t: string)
    ensures Contains(s, t) <==> exists i :: 0 <= i <= |s| - |t| && StartsWith(s[i..], t)
    decreases |s|
  {
    if StartsWith(s, t) {
      assert s[0..] == s;
    }
    if |s| > 0 {
      ContainsIffOccurs(s[1..], t);
      if Contains(s[1..], t) {
        var i :| 0 <= i <= |s| - 1 - |t| && StartsWith(s[1..][i..], t);
        assert s[1..][i..] == s[i + 1..];
      }
      if exists i :: 0 <= i <= |s| - |t| && StartsWith(s[i..], t) {
        var i :| 0 <= i <= |s| - |t| && StartsWith(s[i..], t);
        if i > 0 { assert s[1..][i - 1..] == s[i..]; }
      }
    }
  }

  /** Concatenation of every string of `parts`, in order. */
  function Concat(parts: seq<string>): string {
    if |parts| == 0 then [] else parts[0] + Concat(parts[1..])
  }

  lemma {:induction false} ConcatAppend(a: seq<string>, b: seq<string>)
    ensures Concat(a + b) == Concat(a) + Concat(b)
  {
    if |a| > 0 {
      assert (a + b)[1..] == a[1..] + b;
      ConcatAppend(a[1..], b);
    } else {
      assert a + b == b;
    }
  }

  /** JavaScript's `parts.join(sep)` for a one-character separator. */
  function Join(parts: seq<string>, sep: char): string {
    if |parts| == 0 then []
    else if |parts| == 1 then parts[0]
    else parts[0] + [sep] + Join(parts[1..], sep)
  }

  lemma JoinPrepend(a: string, parts: seq<string>, sep: char)
    requires |parts| >= 1
    ensures Join([a + parts[0]] + parts[1..], sep) == a + Join(parts, sep)
  {
    var ps := [a + parts[0]] + parts[1..];
    assert ps[1..] == parts[1..];
  }

  /** JavaScript's `s.split(sep)` for a one-character separator: never empty, and
      splitting the empty string gives one empty field. */
  function Split(s: string, sep: char): (parts: seq<string>)
    ensures |parts| >= 1
    ensures Join(parts, sep) == s
  {
    if |s| == 0 then [[]]
    else
      var rest := Split(s[1..], sep);
      if s[0] == sep then
        assert [s[0]] + s[1..] == s;
        [[]] + rest
      else
        JoinPrepend([s[0]], rest, sep);
        assert [s[0]] + s[1..] == s;
        [[s[0]] + rest[0]] + rest[1..]
  }

  /** No field of a split holds the separator. */
  lemma {:induction false} SplitFieldsAreSeparatorFree(s: string, sep: char)
    ensures forall k :: 0 <= k < |Split(s, sep)| ==> sep !in Split(s, sep)[k]
    decreases |s|
  {
    if |s| > 0 {
      SplitFieldsAreSeparatorFree(s[1..], sep);
      var rest := Split(s[1..], sep);
      if s[0] != sep {
        assert Split(s, sep) == [[s[0]] + rest[0]] + rest[1..];
        assert Split(s, sep)[0] == [s[0]] + rest[0];
        forall k | 0 <= k < |Split(s, sep)| ensures sep !in Split(s, sep)[k] {
          if k > 0 { assert Split(s, sep)[k] == rest[k]; }
        }
      } else {
        assert Split(s, sep) == [[]] + rest;
        forall k | 0 <= k < |Split(s, sep)| ensures sep !in Split(s, sep)[k] {
          if k > 0 { assert Split(s, sep)[k] == rest[k - 1]; }
        }
      }
    }
  }

  /** Splitting what `Join` built gives the fields back, provided none contains the separator. */
  lemma {:induction false} SplitJoin(parts: seq<string>, sep: char)
    requires |parts| >= 1
    requires forall k :: 0 <= k < |parts| ==> sep !in parts[k]
    ensures Split(Join(parts, sep), sep) == parts
    decreases |parts|, |parts[0]|
  {
    var p := parts[0];
    if |p| == 0 {
      if |parts| == 1 {
      } else {
        var j := Join(parts, sep);
        assert j == [sep] + Join(parts[1..], sep);
        assert j[1..] == Join(parts[1..], sep);
        SplitJoin(parts[1..], sep);
        assert [[]] + parts[1..] == parts;
      }
    } else {
      var tail := [p[1..]] + parts[1..];
      assert tail[1..] == parts[1..];
      JoinPrepend([p[0]], tail, sep);
      assert [p[0]] + p[1..] == p;
      assert [[p[0]] + tail[0]] + tail[1..] == parts;
      assert Join(parts, sep) == [p[0]] + Join(tail, sep);
      assert Join(parts, sep)[1..] == Join(tail, sep);
      assert p[0] in p;
      SplitJoin(tail, sep);
    }
  }

  /** The non-empty strings of `xs`, in order (JavaScript's `xs.filter(Boolean)` on strings). */
  function NonEmpty(xs: seq<string>): (r: seq<string>)
    ensures forall k :: 0 <= k < |r| ==> r[k] != []
    ensures Concat(r) == Concat(xs)
  {
    if |xs| == 0 then []
    else if xs[0] == [] then NonEmpty(xs[1..])
    else [xs[0]] + NonEmpty(xs[1..])
  }

  /** `c` lower-cased if it is an ASCII capital letter. */
  function LowerChar(c: char): char {
    if 'A' <= c <= 'Z' then (c as int + 32) as char else c
  }

  /** `s.toLowerCase()` restricted to ASCII letters. */
  function ToLower(s: string): (r: string)
    ensures |r| == |s|
    ensures forall k :: 0 <= k < |s| ==> r[k] == LowerChar(s[k])
  {
    seq(|s|, k requires 0 <= k < |s| => LowerChar(s[k]))
  }

  predicate IsDigit(c: char) {
    '0' <= c <= '9'
  }

  predicate IsDigits(s: string) {
    forall k :: 0 <= k < |s| ==> IsDigit(s[k])
  }

  /** The number a string of decimal digits denotes. */
  function DecimalValue(s: string): nat
    requires IsDigits(s)
  {
    if |s| == 0 then 0 else 10 * DecimalValue(s[..|s| - 1]) + (s[|s| - 1] as int - '0' as int)
  }

  /** The decimal rendering JavaScript gives a non-negative integer in a template string. */
  function NatToString(n: nat): (r: string)
    ensures |r| >= 1 && IsDigits(r)
    ensures r[0] != '0' || n == 0
    ensures DecimalValue(r) == n
  {
    var d := ('0' as int + n % 10) as char;
    if n < 10 then [d]
    else
      var r := NatToString(n / 10) + [d];
      assert r[..|r| - 1] == NatToString(n / 10);
      r
  }

  /** JavaScript truthiness of an optional string: present and non-empty. */
  predicate Truthy(o: Option<string>) {
    o.Some? && o.value != []
  }

  /** JavaScript's `a || b` on optional strings: `a` when truthy, else `b`. */
  function JsOr(a: Option<string>, b: Option<string>): (r: Option<string>)
    ensures Truthy(a) ==> r == a
    ensures !Truthy(a) ==> r == b
  {
    if Truthy(a) then a else b
  }

  /** JavaScript's `o || fallback` where the fallback is a definite string. */
  function OrElse(o: Option<string>, fallback: string): (r: string)
    ensures Truthy(o) ==> r == o.value
    ensures !Truthy(o) ==> r == fallback
  {
    if Truthy(o) then o.value else fallback
  }

  /** Concatenation regroups freely. */
  lemma AppendAssoc<T>(a: seq<T>, b: seq<T>, c: seq<T>)
    ensures a + b + c == a + (b + c)
  {
  }
}
