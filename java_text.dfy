/** The few `java.lang.String` operations the services rely on, with the
    JDK's own semantics. */
module JavaText {

  /** `String.trim()` removes every character whose code point is at most U+0020. */
  predicate IsTrimmable(c: char) {
    c <= ' '
  }

  /** Drops the leading trimmable characters: the longest such prefix goes;
      `TrimStartIsSuffix` states that what is left is a suffix of `s`. */
  function TrimStart(s: string): (r: string)
    ensures |r| <= |s|
    ensures forall i :: 0 <= i < |s| - |r| ==> IsTrimmable(s[i])
    ensures r == [] || !IsTrimmable(r[0])
  {
    if s != [] && IsTrimmable(s[0]) then TrimStart(s[1..]) else s
  }

  /** What `TrimStart` leaves is the suffix of `s` of its length. */
  lemma {:induction false} TrimStartIsSuffix(s: string)
    ensures TrimStart(s) == s[|s| - |TrimStart(s)|..]
  {
    if s != [] && IsTrimmable(s[0]) {
      TrimStartIsSuffix(s[1..]);
      assert s[1..][|s| - 1 - |TrimStart(s)|..] == s[|s| - |TrimStart(s)|..];
    }
  }

  /** Drops the trailing trimmable characters; what is left is a prefix of `s`. */
  function TrimEnd(s: string): (r: string)
    ensures |r| <= |s| && r == s[..|r|]
    ensures forall i :: |r| <= i < |s| ==> IsTrimmable(s[i])
    ensures r == [] || !IsTrimmable(r[|r| - 1])
  {
    if s != [] && IsTrimmable(s[|s| - 1]) then TrimEnd(s[..|s| - 1]) else s
  }

  /** Neither end of `s` is a trimmable character. */
  predicate Trimmed(s: string) {
    s == [] || (!IsTrimmable(s[0]) && !IsTrimmable(s[|s| - 1]))
  }

  /** `r` is `s` without the `i` characters before it and the rest after
      it, all of them trimmable. */
  predicate TrimmedAt(s: string, i: nat, r: string) {
    i + |r| <= |s| && r == s[i..i + |r|] &&
    (forall k :: 0 <= k < i ==> IsTrimmable(s[k])) &&
    (forall k :: i + |r| <= k < |s| ==> IsTrimmable(s[k]))
  }

  /** `String.trim()`: the leading, then the trailing, trimmable characters
      go; `TrimIsSlice` states what is left in terms of `s` alone. */
  function Trim(s: string): (r: string)
    ensures r == TrimEnd(TrimStart(s))
    ensures Trimmed(r)
    ensures |r| <= |s|
    ensures r == [] <==> forall i :: 0 <= i < |s| ==> IsTrimmable(s[i])
  {
    TrimStartIsSuffix(s);
    TrimEnd(TrimStart(s))
  }

  /** The trim of `s` is the slice of `s` after its `i` leading trimmable
      characters, with only trimmable characters after it. */
  lemma TrimIsSlice(s: string)
    ensures TrimmedAt(s, |s| - |TrimStart(s)|, Trim(s))
  {
    TrimStartIsSuffix(s);
    TrimmedWithin(s, TrimStart(s), Trim(s));
  }

  /** `TrimIsSlice` over the two intermediate strings. */
  lemma TrimmedWithin(s: string, a: string, r: string)
    requires |a| <= |s| && a == s[|s| - |a|..] && forall i :: 0 <= i < |s| - |a| ==> IsTrimmable(s[i])
    requires |r| <= |a| && r == a[..|r|] && forall k :: |r| <= k < |a| ==> IsTrimmable(a[k])
    ensures TrimmedAt(s, |s| - |a|, r)
  {
    var i := |s| - |a|;
    forall k | i + |r| <= k < |s|
      ensures IsTrimmable(s[k])
    {
      assert s[k] == a[k - i];
    }
  }

  /** A string that is already trimmed is its own trim. */
  lemma {:induction false} TrimIdempotent(s: string)
    ensures Trim(Trim(s)) == Trim(s)
  {
    var r := Trim(s);
    if r != [] {
      assert TrimStart(r) == r;
      assert TrimEnd(r) == r;
    }
  }

  /** `String.startsWith(prefix)` */
  predicate StartsWith(s: string, prefix: string) {
    |prefix| <= |s| && s[..|prefix|] == prefix
  }

  /** `String.endsWith(suffix)` */
  predicate EndsWith(s: string, suffix: string) {
    |suffix| <= |s| && s[|s| - |suffix|..] == suffix
  }

  /** `String.replace(from, to)` for two characters. */
  function ReplaceChar(s: string, from: char, to: char): (r: string)
    ensures |r| == |s|
    ensures forall i :: 0 <= i < |s| ==> r[i] == (if s[i] == from then to else s[i])
  {
    if s == [] then [] else [if s[0] == from then to else s[0]] + ReplaceChar(s[1..], from, to)
  }

  function UpperAscii(c: char): char {
    if 'a' <= c <= 'z' then (c as int - 32) as char else c
  }

  function LowerAscii(c: char): char {
    if 'A' <= c <= 'Z' then (c as int + 32) as char else c
  }

  /** Two characters that `equalsIgnoreCase` treats as equal: identical, or
      equal once both are upper-cased, or once both are lower-cased. */
  predicate SameIgnoringCase(a: char, b: char) {
    a == b || UpperAscii(a) == UpperAscii(b) || LowerAscii(a) == LowerAscii(b)
  }

  /** `String.equalsIgnoreCase(other)` */
  predicate EqualsIgnoreCase(a: string, b: string) {
    |a| == |b| && forall i :: 0 <= i < |a| ==> SameIgnoringCase(a[i], b[i])
  }

  predicate IsDigit(c: char) {
    '0' <= c <= '9'
  }

  /** The number a string of decimal digits denotes. */
  function DigitsValue(s: string): nat
    requires forall i :: 0 <= i < |s| ==> IsDigit(s[i])
  {
    if s == [] then 0 else DigitsValue(s[..|s| - 1]) * 10 + DigitValue(s[|s| - 1])
  }

  function DigitValue(c: char): nat
    requires IsDigit(c)
  {
    c as int - '0' as int
  }

  /** The decimal digits of `n`, as `%d` formats it: they denote `n`, and
      only zero is written with a leading '0'. */
  function DecimalString(n: nat): (r: string)
    ensures |r| >= 1
  {
    var d := ['0' + (n % 10) as char];
    if n < 10 then d else DecimalString(n / 10) + d
  }

  /** `DecimalString(n)` is a string of decimal digits that denotes exactly
      `n`, and it starts with `0` only for `0` itself. */
  lemma {:induction false} DecimalStringDenotes(n: nat)
    ensures forall i :: 0 <= i < |DecimalString(n)| ==> IsDigit(DecimalString(n)[i])
    ensures DigitsValue(DecimalString(n)) == n
    ensures DecimalString(n)[0] == '0' ==> n == 0
  {
    if n >= 10 {
      DecimalStringDenotes(n / 10);
      var high := DecimalString(n / 10);
      var s := DecimalString(n);
      assert s == high + ['0' + (n % 10) as char];
      assert s[..|s| - 1] == high;
      assert s[0] == high[0];
    }
  }
}
