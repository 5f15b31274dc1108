/**
 * The two library string operations the configuration depends on:
 * `strings.Split` with a one-character separator, and `strconv.ParseInt`
 * restricted to decimal text. `Join` and `FormatInt` are their inverses.
 */
module Text {
  import opened Wrappers

  /** `strings.Split(s, string(sep))`: the pieces between separators, at least one. */
  function Split(s: string, sep: char): (parts: seq<string>)
    ensures |parts| >= 1
    ensures forall i :: 0 <= i < |parts| ==> sep !in parts[i]
    decreases |s|
  {
    if s == [] then [""]
    else
      var rest := Split(s[1..], sep);
      if s[0] == sep then [""] + rest
      else [[s[0]] + rest[0]] + rest[1..]
  }

  /** `strings.Join(parts, string(sep))`. */
  function Join(parts: seq<string>, sep: char): string
    decreases |parts|
  {
    if |parts| == 0 then ""
    else if |parts| == 1 then parts[0]
    else parts[0] + [sep] + Join(parts[1..], sep)
  }

  lemma JoinCons(p: string, ps: seq<string>, sep: char)
    requires |ps| >= 1
    ensures Join([p] + ps, sep) == p + [sep] + Join(ps, sep)
  {
  }

  /** Joining the pieces again gives back the text that was split. */
  lemma {:induction false} JoinSplit(s: string, sep: char)
    ensures Join(Split(s, sep), sep) == s
    decreases |s|
  {
    if s != [] {
      JoinSplit(s[1..], sep);
      var rest := Split(s[1..], sep);
      if s[0] == sep {
        JoinCons("", rest, sep);
        assert s == [sep] + s[1..];
      } else if |rest| == 1 {
        assert s == [s[0]] + s[1..];
      } else {
        JoinCons([s[0]] + rest[0], rest[1..], sep);
        JoinCons(rest[0], rest[1..], sep);
        assert [rest[0]] + rest[1..] == rest;
        assert s == [s[0]] + s[1..];
      }
    }
  }

  lemma {:induction false} SplitWithoutSeparator(a: string, sep: char)
    requires sep !in a
    ensures Split(a, sep) == [a]
    decreases |a|
  {
    if a != [] {
      SplitWithoutSeparator(a[1..], sep);
      assert [a[0]] + a[1..] == a;
    }
  }

  lemma {:induction false} SplitAfterPiece(a: string, b: string, sep: char)
    requires sep !in a
    ensures Split(a + [sep] + b, sep) == [a] + Split(b, sep)
    decreases |a|
  {
    if a == [] {
      assert a + [sep] + b == [sep] + b;
      assert ([sep] + b)[1..] == b;
    } else {
      SplitAfterPiece(a[1..], b, sep);
      assert (a + [sep] + b)[1..] == a[1..] + [sep] + b;
      assert [a[0]] + a[1..] == a;
    }
  }

  /** Splitting a join of separator-free pieces gives back those pieces. */
  lemma {:induction false} SplitJoin(parts: seq<string>, sep: char)
    requires |parts| >= 1
    requires forall i :: 0 <= i < |parts| ==> sep !in parts[i]
    ensures Split(Join(parts, sep), sep) == parts
    decreases |parts|
  {
    if |parts| == 1 {
      SplitWithoutSeparator(parts[0], sep);
    } else {
      SplitJoin(parts[1..], sep);
      SplitAfterPiece(parts[0], Join(parts[1..], sep), sep);
      assert [parts[0]] + parts[1..] == parts;
    }
  }

  // ---- decimal integers -------------------------------------------------

  const MinInt64: int := -0x8000_0000_0000_0000
  const MaxInt64: int := 0x7fff_ffff_ffff_ffff

  predicate IsDigit(c: char) {
    '0' <= c <= '9'
  }

  predicate AllDigits(s: string) {
    forall i :: 0 <= i < |s| ==> IsDigit(s[i])
  }

  /** The value of a string of decimal digits, read most significant first. */
  function DigitsValue(ds: string): nat
    requires AllDigits(ds)
    decreases |ds|
  {
    if ds == [] then 0
    else DigitsValue(ds[..|ds| - 1]) * 10 + (ds[|ds| - 1] as int - '0' as int)
  }

  /**
   * `strconv.ParseInt(s, 0, 0)` on decimal text: an optional sign, at least
   * one digit, no leading zero unless the digits are just "0", and a value
   * that fits a 64-bit int; anything else is an error.
   */
  function ParseInt(s: string): (r: Option<int>)
    ensures r.Some? ==> MinInt64 <= r.value <= MaxInt64
    ensures r.Some? ==> s != [] && (AllDigits(s) || ((s[0] == '+' || s[0] == '-') && AllDigits(s[1..])))
    ensures r.Some? && |s| > 1 && s[0] != '+' && s[0] != '-' ==> s[0] != '0'
    ensures r.Some? && |s| > 2 && (s[0] == '+' || s[0] == '-') ==> s[1] != '0'
  {
    if s == [] then None
    else
      var signed := s[0] == '+' || s[0] == '-';
      var digits := if signed then s[1..] else s;
      if digits == [] || !AllDigits(digits) || (|digits| > 1 && digits[0] == '0') then None
      else
        var magnitude: int := DigitsValue(digits);
        var n := if s[0] == '-' then -magnitude else magnitude;
        if MinInt64 <= n <= MaxInt64 then Some(n) else None
  }

  function DigitChar(d: nat): (c: char)
    requires d < 10
    ensures IsDigit(c) && c as int - '0' as int == d
  {
    ('0' as int + d) as char
  }

  /** Decimal digits of `n`, without leading zeros. */
  function FormatNat(n: nat): (s: string)
    ensures |s| >= 1 && AllDigits(s)
    ensures n > 0 ==> s[0] != '0'
    decreases n
  {
    if n < 10 then [DigitChar(n)] else FormatNat(n / 10) + [DigitChar(n % 10)]
  }

  function FormatInt(n: int): string {
    if n < 0 then "-" + FormatNat(-n) else FormatNat(n)
  }

  lemma {:induction false} DigitsValueOfFormat(n: nat)
    ensures DigitsValue(FormatNat(n)) == n
    decreases n
  {
    var s := FormatNat(n);
    if n >= 10 {
      DigitsValueOfFormat(n / 10);
      assert s[..|s| - 1] == FormatNat(n / 10);
    }
  }

  /** Every 64-bit integer, written in decimal, parses back to itself. */
  lemma ParseFormat(n: int)
    requires MinInt64 <= n <= MaxInt64
    ensures ParseInt(FormatInt(n)) == Some(n)
  {
    var s := FormatInt(n);
    if n < 0 {
      DigitsValueOfFormat(-n);
      assert s[1..] == FormatNat(-n);
    } else {
      DigitsValueOfFormat(n);
    }
  }
}
