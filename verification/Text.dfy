/** The string operations the demo server is written in: splitting, trimming, case, decimal u64. */
module Text {
  import opened Bytes

  // ----- splitting -----

  /** Index of the first `c` in `s`, or `|s|`. */
  function IndexOf(s: string, c: char): (i: nat)
    ensures i <= |s|
    ensures c !in s[..i]
    ensures i < |s| ==> s[i] == c
  {
    if s == [] then 0
    else if s[0] == c then 0
    else
      var i := IndexOf(s[1..], c);
      assert s[..i + 1] == [s[0]] + s[1..][..i];
      i + 1
  }

  /** `str::split_once(c)`. */
  function SplitOnce(s: string, c: char): Option<(string, string)> {
    var i := IndexOf(s, c);
    if i == |s| then None else Some((s[..i], s[i + 1..]))
  }

  lemma IndexOfFirst(a: string, c: char, b: string)
    requires c !in a
    ensures IndexOf(a + [c] + b, c) == |a|
  {
    var s := a + [c] + b;
    assert s[|a|] == c;
    assert forall j :: 0 <= j < |a| ==> s[j] == a[j] && s[j] in a;
  }

  lemma SplitOnceAt(a: string, c: char, b: string)
    requires c !in a
    ensures SplitOnce(a + [c] + b, c) == Some((a, b))
  {
    IndexOfFirst(a, c, b);
    var s := a + [c] + b;
    assert s[..|a|] == a && s[|a| + 1..] == b;
  }

  lemma SplitOnceNone(a: string, c: char)
    requires c !in a
    ensures SplitOnce(a, c) == None
  {
    assert forall j :: 0 <= j < |a| ==> a[j] in a;
  }

  // ----- whitespace -----

  /** `char::is_whitespace`: the Unicode White_Space property. */
  predicate IsSpace(c: char) {
    var n := c as int;
    || 0x09 <= n <= 0x0D || n == 0x20 || n == 0x85 || n == 0xA0 || n == 0x1680
    || 0x2000 <= n <= 0x200A || n == 0x2028 || n == 0x2029 || n == 0x202F || n == 0x205F || n == 0x3000
  }

  function TrimStart(s: string): (r: string)
    ensures r == [] || !IsSpace(r[0])
    ensures exists i :: 0 <= i <= |s| && r == s[i..]
  {
    if s != [] && IsSpace(s[0]) then
      var r := TrimStart(s[1..]);
      var i :| 0 <= i <= |s[1..]| && r == s[1..][i..];
      assert r == s[i + 1..];
      r
    else
      assert s == s[0..];
      s
  }

  function TrimEnd(s: string): (r: string)
    ensures r <= s
  {
    if s != [] && IsSpace(s[|s| - 1]) then TrimEnd(s[..|s| - 1]) else s
  }

  function Trim(s: string): string {
    TrimEnd(TrimStart(s))
  }

  predicate AllSpace(s: string) {
    forall i :: 0 <= i < |s| ==> IsSpace(s[i])
  }

  /** Neither end is whitespace. */
  predicate Tight(s: string) {
    s != [] ==> !IsSpace(s[0]) && !IsSpace(s[|s| - 1])
  }

  lemma {:induction false} TrimStartPast(a: string, s: string)
    requires AllSpace(a) && (s == [] || !IsSpace(s[0]))
    ensures TrimStart(a + s) == s
  {
    if a == [] {
      assert a + s == s;
    } else {
      assert (a + s)[1..] == a[1..] + s;
      TrimStartPast(a[1..], s);
    }
  }

  lemma {:induction false} TrimEndPast(s: string, b: string)
    requires AllSpace(b) && (s == [] || !IsSpace(s[|s| - 1]))
    ensures TrimEnd(s + b) == s
  {
    if b == [] {
      assert s + b == s;
    } else {
      assert (s + b)[..|s + b| - 1] == s + b[..|b| - 1];
      TrimEndPast(s, b[..|b| - 1]);
    }
  }

  /** Trimming takes off the whitespace around a text, all of it and nothing else. */
  lemma TrimBetween(a: string, s: string, b: string)
    requires AllSpace(a) && s != [] && Tight(s) && AllSpace(b)
    ensures Trim(a + s + b) == s
  {
    Regroup(a, s, b);
    TrimStartPast(a, s + b);
    TrimEndPast(s, b);
  }

  lemma TrimAfter(s: string, b: string)
    requires s != [] && Tight(s) && AllSpace(b)
    ensures Trim(s + b) == s
  {
    TrimBetween([], s, b);
    assert [] + s + b == s + b;
  }

  /** Index of the first whitespace of `s`, or `|s|`. */
  function SpaceAt(s: string): (i: nat)
    ensures i <= |s|
    ensures forall j :: 0 <= j < i ==> !IsSpace(s[j])
    ensures i < |s| ==> IsSpace(s[i])
  {
    if s == [] || IsSpace(s[0]) then 0 else 1 + SpaceAt(s[1..])
  }

  /** `str::split_once(char::is_whitespace)`. */
  function SplitSpace(s: string): Option<(string, string)> {
    var i := SpaceAt(s);
    if i == |s| then None else Some((s[..i], s[i + 1..]))
  }

  // ----- ASCII case -----

  function UpperChar(c: char): char {
    if 'a' <= c <= 'z' then (c as int - 32) as char else c
  }

  function Upper(s: string): (r: string)
    ensures |r| == |s|
    ensures forall i :: 0 <= i < |s| ==> r[i] == UpperChar(s[i])
  {
    seq(|s|, i requires 0 <= i < |s| => UpperChar(s[i]))
  }

  predicate SameLetter(c: char, upper: char) {
    c == upper || ('A' <= upper <= 'Z' && c as int == upper as int + 32)
  }

  /** `w` is `upper` in some mixture of cases. */
  predicate Spells(w: string, upper: string) {
    |w| == |upper| && forall i :: 0 <= i < |w| ==> SameLetter(w[i], upper[i])
  }

  lemma UpperIffSpells(w: string, upper: string)
    requires forall i :: 0 <= i < |upper| ==> !('a' <= upper[i] <= 'z')
    ensures Upper(w) == upper <==> Spells(w, upper)
  {
    if Spells(w, upper) {
      assert forall i :: 0 <= i < |w| ==> UpperChar(w[i]) == upper[i];
    }
    if Upper(w) == upper {
      forall i | 0 <= i < |w|
        ensures SameLetter(w[i], upper[i])
      {
        assert upper[i] == UpperChar(w[i]);
      }
    }
  }

  // ----- decimal -----

  predicate IsDigit(c: char) {
    '0' <= c <= '9'
  }

  predicate AllDigits(s: string) {
    forall i :: 0 <= i < |s| ==> IsDigit(s[i])
  }

  function Digit(c: char): (d: nat)
    requires IsDigit(c)
    ensures d < 10
  {
    c as int - '0' as int
  }

  function DigitChar(d: nat): (c: char)
    requires d < 10
    ensures IsDigit(c) && Digit(c) == d
  {
    (d + '0' as int) as char
  }

  function Value(s: string): nat
    requires AllDigits(s)
  {
    if s == [] then 0 else Value(s[..|s| - 1]) * 10 + Digit(s[|s| - 1])
  }

  /** `u64::from_str`: an optional plus sign, then digits whose value fits. */
  function ParseU64(s: string): Option<U64> {
    var digits := if s != [] && s[0] == '+' then s[1..] else s;
    if digits != [] && AllDigits(digits) && Value(digits) <= U64_MAX then Some(Value(digits)) else None
  }

  /** `format!("{n}")`. */
  function Decimal(n: nat): (r: string)
    ensures r != [] && AllDigits(r)
  {
    if n < 10 then [DigitChar(n)] else Decimal(n / 10) + [DigitChar(n % 10)]
  }

  lemma {:induction false} ValueOfDecimal(n: nat)
    ensures Value(Decimal(n)) == n
  {
    var s := Decimal(n);
    if n >= 10 {
      ValueOfDecimal(n / 10);
      assert s[..|s| - 1] == Decimal(n / 10);
    } else {
      assert s[..0] == [];
    }
  }

  /** Printing and parsing a u64 are inverse. */
  lemma ParsePrinted(n: U64)
    ensures ParseU64(Decimal(n)) == Some(n)
  {
    ValueOfDecimal(n);
  }

  /** A plus sign and leading zeros are read away. */
  lemma {:induction false} ParsePadded(n: U64, zeros: nat)
    ensures var digits := seq(zeros, _ => '0') + Decimal(n);
            ParseU64(digits) == Some(n) && ParseU64(['+'] + digits) == Some(n)
  {
    var pad := seq(zeros, _ => '0');
    ValueOfDecimal(n);
    ValuePadded(pad, Decimal(n));
    ParseDigits(pad + Decimal(n), n);
  }

  lemma {:induction false} ParseDigits(digits: string, n: U64)
    requires digits != [] && AllDigits(digits) && Value(digits) == n
    ensures ParseU64(digits) == Some(n) && ParseU64(['+'] + digits) == Some(n)
  {
    assert IsDigit(digits[0]);
    assert (['+'] + digits)[1..] == digits;
  }

  lemma {:induction false} ValuePadded(pad: string, s: string)
    requires AllDigits(s) && forall i :: 0 <= i < |pad| ==> pad[i] == '0'
    ensures AllDigits(pad + s) && Value(pad + s) == Value(s)
    decreases |pad| + |s|
  {
    var all := pad + s;
    if s != [] {
      assert all[..|all| - 1] == pad + s[..|s| - 1];
      ValuePadded(pad, s[..|s| - 1]);
    } else if pad != [] {
      assert all[..|all| - 1] == pad[..|pad| - 1] + s;
      ValuePadded(pad[..|pad| - 1], s);
    }
  }

  /** Too many digits, no digits or anything else in the text is not a u64. */
  lemma ParseRefuses(s: string)
    ensures ParseU64(s).None? <==>
              var digits := if s != [] && s[0] == '+' then s[1..] else s;
              digits == [] || (exists i :: 0 <= i < |digits| && !('0' <= digits[i] <= '9'))
              || (AllDigits(digits) && Value(digits) > 18446744073709551615)
  {
  }

  /** The canonical text is the shortest of all texts with the same value. */
  lemma {:induction false} DecimalShortest(s: string)
    requires s != [] && AllDigits(s)
    ensures |Decimal(Value(s))| <= |s|
  {
    var t := s[..|s| - 1];
    if t != [] {
      DecimalShortest(t);
      if Value(s) >= 10 {
        assert Value(s) / 10 == Value(t);
      }
    } else {
      assert Value(t) == 0;
    }
  }

  lemma ParsedNoShorter(s: string)
    requires ParseU64(s).Some?
    ensures |Decimal(ParseU64(s).value)| <= |s|
  {
    DecimalShortest(if s[0] == '+' then s[1..] else s);
  }

  function Pow10(k: nat): nat {
    if k == 0 then 1 else 10 * Pow10(k - 1)
  }

  lemma {:induction false} DecimalLength(n: nat, k: nat)
    requires k >= 1 && n < Pow10(k)
    ensures |Decimal(n)| <= k
  {
    if n >= 10 {
      DecimalLength(n / 10, k - 1);
    }
  }

  /** A u64 prints in at most twenty digits. */
  lemma U64Length(n: U64)
    ensures |Decimal(n)| <= 20
  {
    assert Pow10(4) == 10000;
    assert Pow10(8) == 10000 * Pow10(4);
    assert Pow10(12) == 10000 * Pow10(8);
    assert Pow10(16) == 10000 * Pow10(12);
    assert Pow10(20) == 10000 * Pow10(16);
    DecimalLength(n, 20);
  }
}
