/**
 * The .NET string operations the core relies on: ordinal StartsWith, Trim,
 * string.Join, OrdinalIgnoreCase comparison, and decimal formatting and
 * parsing of integers (ToString, Convert.ToInt32).
 */
module Text {
  import opened Wrappers

  /** char.IsWhiteSpace: the characters of the Unicode White_Space property. */
  predicate IsWhiteSpace(c: char) {
    ('\t' <= c <= '\r') || c == ' ' || c == '\U{85}' || c == '\U{A0}' || c == '\U{1680}'
    || ('\U{2000}' <= c <= '\U{200A}') || c == '\U{2028}' || c == '\U{2029}'
    || c == '\U{202F}' || c == '\U{205F}' || c == '\U{3000}'
  }

  /** Ordinal prefix test. */
  predicate StartsWith(s: string, prefix: string) {
    |prefix| <= |s| && s[..|prefix|] == prefix
  }

  /** Removes the longest whitespace prefix. */
  function TrimStart(s: string): (r: string)
    ensures |r| <= |s| && r == s[|s| - |r|..]
    ensures forall i :: 0 <= i < |s| - |r| ==> IsWhiteSpace(s[i])
    ensures r == [] || !IsWhiteSpace(r[0])
  {
    if |s| > 0 && IsWhiteSpace(s[0]) then TrimStart(s[1..]) else s
  }

  /** Removes the longest whitespace suffix. */
  function TrimEnd(s: string): (r: string)
    ensures |r| <= |s| && r == s[..|r|]
    ensures forall i :: |r| <= i < |s| ==> IsWhiteSpace(s[i])
    ensures r == [] || !IsWhiteSpace(r[|r| - 1])
  {
    if |s| > 0 && IsWhiteSpace(s[|s| - 1]) then TrimEnd(s[..|s| - 1]) else s
  }

  /** How many whitespace characters Trim cuts from the front of s. */
  function LeadingWhiteSpace(s: string): (n: nat)
    ensures n <= |s|
  {
    |s| - |TrimStart(s)|
  }

  /**
   * string.Trim(): the result is the slice of s left after cutting the
   * whitespace at both ends, and it neither starts nor ends with whitespace.
   */
  function Trim(s: string): (r: string)
    ensures LeadingWhiteSpace(s) + |r| <= |s|
    ensures r == s[LeadingWhiteSpace(s)..LeadingWhiteSpace(s) + |r|]
    ensures forall i :: 0 <= i < LeadingWhiteSpace(s) ==> IsWhiteSpace(s[i])
    ensures forall i :: LeadingWhiteSpace(s) + |r| <= i < |s| ==> IsWhiteSpace(s[i])
    ensures r == [] || (!IsWhiteSpace(r[0]) && !IsWhiteSpace(r[|r| - 1]))
  {
    var t := TrimStart(s);
    SuffixOfSuffix(s, t, TrimEnd(t));
    TrimEnd(t)
  }

  /** A prefix r of a suffix t of s is a slice of s, and what follows r in t follows it in s. */
  lemma SuffixOfSuffix(s: string, t: string, r: string)
    requires |t| <= |s| && t == s[|s| - |t|..]
    requires |r| <= |t| && r == t[..|r|]
    requires forall i :: |r| <= i < |t| ==> IsWhiteSpace(t[i])
    requires t == [] || !IsWhiteSpace(t[0])
    ensures var lo := |s| - |t|; r == s[lo..lo + |r|]
    ensures forall i :: |s| - |t| + |r| <= i < |s| ==> IsWhiteSpace(s[i])
    ensures r == [] || !IsWhiteSpace(r[0])
  {
    var lo := |s| - |t|;
    forall i | lo + |r| <= i < |s|
      ensures IsWhiteSpace(s[i])
    {
      assert s[i] == t[i - lo];
    }
  }

  /** Whether every character of s is whitespace. */
  predicate AllWhiteSpace(s: string) {
    forall i :: 0 <= i < |s| ==> IsWhiteSpace(s[i])
  }

  /** Trim cuts s into three pieces: what precedes the trimmed text, the text, and what follows it. */
  lemma TrimSplits(s: string)
    ensures var k := LeadingWhiteSpace(s); s == s[..k] + Trim(s) + s[k + |Trim(s)|..]
  {
    var r, k := Trim(s), LeadingWhiteSpace(s);
    ThreeSlices(s, k, k + |r|);
  }

  /** Any string is its three consecutive slices put back together. */
  lemma ThreeSlices(s: string, a: nat, b: nat)
    requires a <= b <= |s|
    ensures s == s[..a] + s[a..b] + s[b..]
  {
  }

  /** What Trim cuts from either end of s is all whitespace. */
  lemma TrimCutsWhiteSpace(s: string)
    ensures AllWhiteSpace(s[..LeadingWhiteSpace(s)])
    ensures AllWhiteSpace(s[LeadingWhiteSpace(s) + |Trim(s)|..])
  {
    var r, k := Trim(s), LeadingWhiteSpace(s);
    WhiteSpaceSlice(s, 0, k);
    WhiteSpaceSlice(s, k + |r|, |s|);
  }

  /**
   * A string that starts with `prefix` is the prefix, the whitespace Trim cuts
   * from the front of the rest, the trimmed rest, and the whitespace Trim cuts
   * from its end.
   */
  lemma PrefixThenTrimmed(s: string, prefix: string)
    requires StartsWith(s, prefix)
    ensures var rest := s[|prefix|..]; var r, k := Trim(rest), LeadingWhiteSpace(rest);
      && s == prefix + rest[..k] + r + rest[k + |r|..]
      && AllWhiteSpace(rest[..k]) && AllWhiteSpace(rest[k + |r|..])
  {
    var rest := s[|prefix|..];
    var r, k := Trim(rest), LeadingWhiteSpace(rest);
    TrimSplits(rest);
    TrimCutsWhiteSpace(rest);
    PrefixThenPieces(s, prefix, rest[..k], r, rest[k + |r|..]);
  }

  /** A string that starts with `prefix` and continues with a, b and c is those four pieces. */
  lemma PrefixThenPieces(s: string, prefix: string, a: string, b: string, c: string)
    requires StartsWith(s, prefix) && s[|prefix|..] == a + b + c
    ensures s == prefix + a + b + c
  {
    assert s == s[..|prefix|] + s[|prefix|..];
  }

  /** A slice of s whose every position holds whitespace is all whitespace. */
  lemma WhiteSpaceSlice(s: string, lo: nat, hi: nat)
    requires lo <= hi <= |s|
    requires forall i :: lo <= i < hi ==> IsWhiteSpace(s[i])
    ensures AllWhiteSpace(s[lo..hi])
  {
    forall i | 0 <= i < hi - lo
      ensures IsWhiteSpace(s[lo..hi][i])
    {
      assert s[lo..hi][i] == s[lo + i];
    }
  }

  /** string.Join(separator, parts). */
  function Join(separator: string, parts: seq<string>): (r: string)
    ensures parts == [] ==> r == ""
    ensures |parts| == 1 ==> r == parts[0]
    ensures |parts| > 1 ==> |r| >= |parts[0]| + |separator| && r[..|parts[0]|] == parts[0]
  {
    if |parts| == 0 then ""
    else if |parts| == 1 then parts[0]
    else parts[0] + separator + Join(separator, parts[1..])
  }

  /** Where part k starts in Join(separator, parts). */
  function PartOffset(separator: string, parts: seq<string>, k: nat): nat
    requires k <= |parts|
  {
    if k == 0 then 0 else |parts[0]| + |separator| + PartOffset(separator, parts[1..], k - 1)
  }

  /**
   * Join places every part at its offset, and a separator between each part
   * and the next: the joined string is exactly the parts with separators.
   */
  lemma JoinParts(separator: string, parts: seq<string>, k: nat)
    requires k < |parts|
    ensures var r, o := Join(separator, parts), PartOffset(separator, parts, k);
      o + |parts[k]| <= |r| && r[o..o + |parts[k]|] == parts[k]
    ensures var r, e := Join(separator, parts), PartOffset(separator, parts, k) + |parts[k]|;
      k + 1 < |parts| ==> e + |separator| <= |r| && r[e..e + |separator|] == separator
    ensures k + 1 == |parts| ==> PartOffset(separator, parts, k) + |parts[k]| == |Join(separator, parts)|
  {
    JoinPartAt(separator, parts, k);
    if k + 1 < |parts| {
      JoinSeparatorAfter(separator, parts, k);
    }
  }

  /** Part k stands at its offset in the joined string, and the last part ends it. */
  lemma {:induction false} JoinPartAt(separator: string, parts: seq<string>, k: nat)
    requires k < |parts|
    ensures var r, o := Join(separator, parts), PartOffset(separator, parts, k);
      o + |parts[k]| <= |r| && r[o..o + |parts[k]|] == parts[k]
    ensures k + 1 == |parts| ==> PartOffset(separator, parts, k) + |parts[k]| == |Join(separator, parts)|
  {
    if k > 0 {
      JoinPartAt(separator, parts[1..], k - 1);
      var head, rest := parts[0] + separator, Join(separator, parts[1..]);
      assert Join(separator, parts) == head + rest;
      var o' := PartOffset(separator, parts[1..], k - 1);
      assert parts[1..][k - 1] == parts[k];
      SliceOfSuffix(head, rest, o', o' + |parts[k]|);
    } else if |parts| > 1 {
      var r := Join(separator, parts);
      assert r == parts[0] + (separator + Join(separator, parts[1..]));
    }
  }

  /** A separator follows every part but the last. */
  lemma {:induction false} JoinSeparatorAfter(separator: string, parts: seq<string>, k: nat)
    requires k + 1 < |parts|
    ensures var r, e := Join(separator, parts), PartOffset(separator, parts, k) + |parts[k]|;
      e + |separator| <= |r| && r[e..e + |separator|] == separator
  {
    var head, rest := parts[0] + separator, Join(separator, parts[1..]);
    assert Join(separator, parts) == head + rest;
    if k > 0 {
      JoinSeparatorAfter(separator, parts[1..], k - 1);
      var m := PartOffset(separator, parts[1..], k - 1) + |parts[k]|;
      assert parts[1..][k - 1] == parts[k];
      SliceOfSuffix(head, rest, m, m + |separator|);
    } else {
      assert (head + rest)[|parts[0]|..|head|] == separator;
    }
  }

  /** A slice of the second half of a concatenation is a slice of that half. */
  lemma SliceOfSuffix(a: string, b: string, i: nat, j: nat)
    requires i <= j <= |b|
    ensures (a + b)[|a| + i..|a| + j] == b[i..j]
  {
  }

  /** Upper-cases ASCII letters and leaves every other character alone. */
  function ToUpperAscii(c: char): (u: char)
    ensures ('a' <= c <= 'z') ==> u as int == c as int - 32
    ensures !('a' <= c <= 'z') ==> u == c
  {
    if 'a' <= c <= 'z' then (c as int - 32) as char else c
  }

  /** Comparison ignoring (ASCII) case, as OrdinalIgnoreCase does on ASCII text. */
  predicate EqualsIgnoreCase(a: string, b: string) {
    |a| == |b| && forall i :: 0 <= i < |a| ==> ToUpperAscii(a[i]) == ToUpperAscii(b[i])
  }

  // ---- decimal numbers ----

  predicate IsDigit(c: char) {
    '0' <= c <= '9'
  }

  function DigitChar(d: int): (c: char)
    requires 0 <= d < 10
    ensures IsDigit(c) && c as int - '0' as int == d
  {
    ('0' as int + d) as char
  }

  /** The decimal digits of n, without leading zeros. */
  function NatToString(n: nat): (r: string)
    ensures |r| > 0 && forall i :: 0 <= i < |r| ==> IsDigit(r[i])
    ensures n > 0 ==> r[0] != '0'
  {
    if n < 10 then [DigitChar(n)] else NatToString(n / 10) + [DigitChar(n % 10)]
  }

  /** Int64.ToString() in the invariant culture. */
  function IntToString(n: int): string {
    if n < 0 then "-" + NatToString(-n) else NatToString(n)
  }

  function DigitValue(c: char): nat
    requires IsDigit(c)
  {
    c as int - '0' as int
  }

  /** The number a string of decimal digits denotes. */
  function DigitsValue(s: string): nat
    requires forall i :: 0 <= i < |s| ==> IsDigit(s[i])
  {
    if |s| == 0 then 0 else DigitsValue(s[..|s| - 1]) * 10 + DigitValue(s[|s| - 1])
  }

  predicate AllDigits(s: string) {
    |s| > 0 && forall i :: 0 <= i < |s| ==> IsDigit(s[i])
  }

  /**
   * Integer parsing: an optional sign followed by one or more ASCII digits;
   * anything else is not a number.
   */
  function ParseInt(s: string): (r: Option<int>)
    ensures r.Some? ==> |s| > 0
    ensures r.Some? <==> AllDigits(s) || (|s| > 1 && (s[0] == '-' || s[0] == '+') && AllDigits(s[1..]))
  {
    if |s| > 1 && s[0] == '-' && AllDigits(s[1..]) then var v: int := DigitsValue(s[1..]); Some(-v)
    else if |s| > 1 && s[0] == '+' && AllDigits(s[1..]) then Some(DigitsValue(s[1..]))
    else if AllDigits(s) then Some(DigitsValue(s))
    else None
  }

  /** A leading zero does not change the number a digit string denotes. */
  lemma {:induction false} LeadingZero(t: string)
    requires forall i :: 0 <= i < |t| ==> IsDigit(t[i])
    ensures DigitsValue("0" + t) == DigitsValue(t)
  {
    if |t| > 0 {
      var s := "0" + t;
      assert s[..|s| - 1] == "0" + t[..|t| - 1];
      LeadingZero(t[..|t| - 1]);
    }
  }

  /**
   * The value ParseInt reads: a '+' sign changes nothing, a '-' sign negates,
   * and leading zeros are ignored.
   */
  lemma ParseIntSignsAndZeros(t: string)
    requires AllDigits(t)
    ensures ParseInt(t) == Some(DigitsValue(t))
    ensures ParseInt("+" + t) == ParseInt(t)
    ensures ParseInt("-" + t).Some? && ParseInt("-" + t).value + DigitsValue(t) == 0
    ensures ParseInt("0" + t) == ParseInt(t)
  {
    assert ("+" + t)[1..] == t;
    assert ("-" + t)[1..] == t;
    LeadingZero(t);
    assert AllDigits("0" + t);
  }

  lemma {:induction false} DigitsOfNat(n: nat)
    ensures DigitsValue(NatToString(n)) == n
  {
    if n >= 10 {
      DigitsOfNat(n / 10);
      var s := NatToString(n);
      assert s[..|s| - 1] == NatToString(n / 10);
    }
  }

  /** Parsing what IntToString printed gives the number back. */
  lemma ParseIntToString(n: int)
    ensures ParseInt(IntToString(n)) == Some(n)
  {
    var s := IntToString(n);
    if n < 0 {
      DigitsOfNat(-n);
      assert s[1..] == NatToString(-n);
      assert AllDigits(s[1..]);
    } else {
      DigitsOfNat(n);
      assert AllDigits(s);
    }
  }
}
