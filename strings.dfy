/** The java.lang string operations the core relies on, on `string` = `seq<char>`. */
module Strings {
  import opened Wrappers

  predicate StartsWith(s: string, prefix: string) {
    prefix <= s
  }

  predicate EndsWith(s: string, suffix: string) {
    |suffix| <= |s| && s[|s| - |suffix|..] == suffix
  }

  predicate IsDigit(c: char) {
    '0' <= c <= '9'
  }

  function DigitChar(d: nat): (c: char)
    requires d < 10
    ensures IsDigit(c) && c as int - '0' as int == d
  {
    (d + '0' as int) as char
  }

  /** Decimal rendering of a natural number, as `Long.toString` and `%d` produce it. */
  function NatToString(n: nat): (r: string)
    ensures |r| >= 1 && forall i :: 0 <= i < |r| ==> IsDigit(r[i])
  {
    if n < 10 then [DigitChar(n)] else NatToString(n / 10) + [DigitChar(n % 10)]
  }

  /** `Long.toString` / `String.valueOf(long)` / `%d`: a minus sign for negatives, no leading zeros. */
  function LongToString(n: int): string {
    if n < 0 then "-" + NatToString(-n) else NatToString(n)
  }

  predicate AllDigits(s: string) {
    forall i :: 0 <= i < |s| ==> IsDigit(s[i])
  }

  function ParseDigits(s: string): nat
    requires AllDigits(s)
  {
    if s == [] then 0 else ParseDigits(s[..|s| - 1]) * 10 + (s[|s| - 1] as int - '0' as int)
  }

  /** Reads back a decimal integer with an optional leading minus; the inverse of LongToString. */
  function ParseLong(s: string): Option<int> {
    if |s| >= 2 && s[0] == '-' && AllDigits(s[1..]) then Some(0 - ParseDigits(s[1..]) as int)
    else if |s| >= 1 && AllDigits(s) then Some(ParseDigits(s))
    else None
  }

  lemma {:induction false} NatToStringRoundTrip(n: nat)
    ensures ParseDigits(NatToString(n)) == n
  {
    if n >= 10 {
      var r := NatToString(n);
      NatToStringRoundTrip(n / 10);
      assert r[..|r| - 1] == NatToString(n / 10);
    }
  }

  /** Decimal rendering is lossless: parsing it gives back the number. */
  lemma LongToStringRoundTrip(n: int)
    ensures ParseLong(LongToString(n)) == Some(n)
  {
    var s := LongToString(n);
    if n < 0 {
      NatToStringRoundTrip(-n);
      assert s[1..] == NatToString(-n);
      assert AllDigits(s[1..]);
    } else {
      NatToStringRoundTrip(n);
      assert IsDigit(s[0]);
      assert AllDigits(s);
    }
  }

  /** Two different numbers never render alike. */
  lemma LongToStringInjective(a: int, b: int)
    ensures LongToString(a) == LongToString(b) ==> a == b
  {
    LongToStringRoundTrip(a);
    LongToStringRoundTrip(b);
  }

  /** Java's `String.trim` removes every leading and trailing char whose code is at most U+0020. */
  predicate IsTrimmable(c: char) {
    c <= ' '
  }

  function TrimStart(s: string): (r: string)
    ensures |r| <= |s| && r == s[|s| - |r|..]
    ensures r == [] || !IsTrimmable(r[0])
    ensures forall i :: 0 <= i < |s| - |r| ==> IsTrimmable(s[i])
  {
    if s != [] && IsTrimmable(s[0]) then
      var r := TrimStart(s[1..]);
      TrimmedHead(s, r);
      r
    else
      s
  }

  /** One more trimmable char in front of a trimmed suffix of the rest keeps it a trimmed suffix. */
  lemma TrimmedHead(s: string, r: string)
    requires s != [] && IsTrimmable(s[0])
    requires |r| <= |s| - 1 && r == s[1..][|s| - 1 - |r|..]
    requires forall i :: 0 <= i < |s| - 1 - |r| ==> IsTrimmable(s[1..][i])
    ensures r == s[|s| - |r|..]
    ensures forall i :: 0 <= i < |s| - |r| ==> IsTrimmable(s[i])
  {
    forall i | 0 < i < |s| - |r| ensures IsTrimmable(s[i]) {
      assert s[i] == s[1..][i - 1];
    }
  }

  function TrimEnd(s: string): (r: string)
    ensures |r| <= |s| && r == s[..|r|]
    ensures r == [] || !IsTrimmable(r[|r| - 1])
    ensures forall i :: |r| <= i < |s| ==> IsTrimmable(s[i])
  {
    if s != [] && IsTrimmable(s[|s| - 1]) then TrimEnd(s[..|s| - 1]) else s
  }

  function Trim(s: string): (r: string)
    ensures r == [] || (!IsTrimmable(r[0]) && !IsTrimmable(r[|r| - 1]))
  {
    TrimEnd(TrimStart(s))
  }

  /** `Trim` removes exactly the trimmable chars at both ends: the result is an infix of the input whose
      cut-off parts are all trimmable. */
  lemma TrimIsInfix(s: string)
    ensures exists i, j ::
              && 0 <= i <= j <= |s| && Trim(s) == s[i..j]
              && (forall k :: 0 <= k < i ==> IsTrimmable(s[k]))
              && (forall k :: j <= k < |s| ==> IsTrimmable(s[k]))
  {
    var t := TrimStart(s);
    var i := |s| - |t|;
    var m := |TrimEnd(t)|;
    var j := i + m;
    assert Trim(s) == s[i..j] by {
      SuffixPrefix(s, i, m);
    }
    assert forall k :: j <= k < |s| ==> IsTrimmable(s[k]) by {
      forall k | j <= k < |s| ensures IsTrimmable(s[k]) {
        assert s[k] == t[k - i];
      }
    }
    assert 0 <= i <= j <= |s| && (forall k :: 0 <= k < i ==> IsTrimmable(s[k]));
  }

  /** The first `m` elements of the suffix from `i` are the slice from `i` to `i + m`. */
  lemma SuffixPrefix<T>(s: seq<T>, i: nat, m: nat)
    requires i + m <= |s|
    ensures s[i..][..m] == s[i..i + m]
  {
  }

  /** Lower-casing of the ASCII letters (SQL LOWER / `toLowerCase` restricted to A-Z). */
  function LowerChar(c: char): char {
    if 'A' <= c <= 'Z' then (c as int + 32) as char else c
  }

  function Lower(s: string): (r: string)
    ensures |r| == |s| && forall i :: 0 <= i < |s| ==> r[i] == LowerChar(s[i])
  {
    if s == [] then [] else [LowerChar(s[0])] + Lower(s[1..])
  }

  lemma LowerDistributes(a: string, b: string)
    ensures Lower(a + b) == Lower(a) + Lower(b)
  {
    assert forall i :: 0 <= i < |a + b| ==> Lower(a + b)[i] == (Lower(a) + Lower(b))[i];
  }

  lemma LowerIsIdempotent(s: string)
    ensures Lower(Lower(s)) == Lower(s)
  {
  }

  /** Bean Validation's `@NotBlank` rejects a string whose trimmed form is empty. */
  predicate IsBlank(s: string) {
    Trim(s) == []
  }

  lemma IsBlankMeansAllTrimmable(s: string)
    ensures IsBlank(s) <==> forall i :: 0 <= i < |s| ==> IsTrimmable(s[i])
  {
    if !IsBlank(s) {
      TrimIsInfix(s);
    }
  }

  /** Infix (substring) test. */
  predicate IsInfix(w: string, s: string) {
    exists i :: 0 <= i <= |s| && w <= s[i..]
  }

  /** The pieces of `s` between occurrences of `sep`, empty pieces included. */
  function SplitOn(s: string, sep: char): (r: seq<string>)
    ensures |r| >= 1
  {
    if s == [] then [[]]
    else
      var rest := SplitOn(s[1..], sep);
      if s[0] == sep then [[]] + rest else [[s[0]] + rest[0]] + rest[1..]
  }

  lemma {:induction false} SplitOnPiece(a: string, b: string, sep: char)
    requires sep !in a
    ensures SplitOn(a + b, sep) == [a + SplitOn(b, sep)[0]] + SplitOn(b, sep)[1..]
  {
    if a == [] {
      assert a + b == b;
      var r := SplitOn(b, sep);
      assert [] + r[0] == r[0];
      assert [r[0]] + r[1..] == r;
    } else {
      assert (a + b)[0] == a[0] && (a + b)[1..] == a[1..] + b;
      SplitOnPiece(a[1..], b, sep);
      assert [a[0]] + (a[1..] + SplitOn(b, sep)[0]) == a + SplitOn(b, sep)[0];
    }
  }

  /** The text before the first `sep`, or all of `s` when it has none. */
  function Before(s: string, sep: char): (r: string)
    ensures r <= s && sep !in r
    ensures |r| < |s| ==> s[|r|] == sep
  {
    if s == [] || s[0] == sep then [] else [s[0]] + Before(s[1..], sep)
  }

  /** The first piece is the text before the first separator. */
  lemma {:induction false} SplitOnFirst(s: string, sep: char)
    ensures SplitOn(s, sep)[0] == Before(s, sep)
  {
    if s != [] && s[0] != sep {
      SplitOnFirst(s[1..], sep);
    }
  }

  /** Every piece is empty exactly when `s` is made of separators only. */
  lemma {:induction false} SplitOnAllEmpty(s: string, sep: char)
    ensures (forall i :: 0 <= i < |SplitOn(s, sep)| ==> SplitOn(s, sep)[i] == []) <==> (forall i :: 0 <= i < |s| ==> s[i] == sep)
  {
    if s != [] {
      var rest := SplitOn(s[1..], sep);
      SplitOnAllEmpty(s[1..], sep);
      if s[0] == sep {
        assert SplitOn(s, sep) == [[]] + rest;
        assert forall i :: 0 <= i < |rest| ==> rest[i] == SplitOn(s, sep)[i + 1];
        assert forall i :: 1 <= i < |s| ==> s[1..][i - 1] == s[i];
      } else {
        assert SplitOn(s, sep)[0] != [];
      }
    }
  }

  /** java.lang.String.split with a one-character separator: the pieces with trailing empty ones
      removed, and the whole string when there is no separator to split at. */
  function JavaSplit(s: string, sep: char): (r: seq<string>)
  {
    if sep !in s then [s] else DropTrailingEmpty(SplitOn(s, sep))
  }

  function DropTrailingEmpty(ps: seq<string>): (r: seq<string>)
    ensures |r| <= |ps| && r == ps[..|r|]
    ensures r != [] ==> r[|r| - 1] != []
    ensures r == [] <==> forall i :: 0 <= i < |ps| ==> ps[i] == []
  {
    if ps == [] then []
    else if ps[|ps| - 1] == [] then DropTrailingEmpty(ps[..|ps| - 1])
    else ps
  }

  /** The first element of a non-empty string's split: the text before the first separator, unless the
      string is made of separators only, when the split is empty. */
  lemma JavaSplitFirst(s: string, sep: char)
    requires s != []
    ensures JavaSplit(s, sep) == [] <==> forall i :: 0 <= i < |s| ==> s[i] == sep
    ensures JavaSplit(s, sep) != [] ==> JavaSplit(s, sep)[0] == Before(s, sep)
  {
    if sep in s {
      SplitOnAllEmpty(s, sep);
      SplitOnFirst(s, sep);
      var ps := SplitOn(s, sep);
      var r := DropTrailingEmpty(ps);
      if r != [] {
        assert r[0] == ps[0];
      }
    } else {
      assert Before(s, sep) == s;
      assert s[0] != sep;
    }
  }
}
