/**
 * Go's `strconv.ParseInt(s, 10, 64)` and the decimal rendering `fmt.Sprintf("%v", n)` of an
 * int64, which the interceptor writes into the identity headers and the accessors read back.
 */
module GoStrconv {
  import opened Results

  const MaxUint64: nat := 0xFFFF_FFFF_FFFF_FFFF
  const MinInt64: int := -0x8000_0000_0000_0000
  const MaxInt64: int := 0x7FFF_FFFF_FFFF_FFFF

  /** Go's `int64`. */
  type int64 = x: int | -0x8000_0000_0000_0000 <= x <= 0x7FFF_FFFF_FFFF_FFFF

  predicate IsDigit(c: char)
  {
    '0' <= c <= '9'
  }

  function DigitValue(c: char): nat
    requires IsDigit(c)
  {
    (c as int) - ('0' as int)
  }

  function DigitChar(d: nat): (c: char)
    requires d < 10
    ensures IsDigit(c) && DigitValue(c) == d
  {
    ('0' as int + d) as char
  }

  /** Every character of s is an ASCII decimal digit. */
  predicate IsNumeral(s: string)
  {
    forall i :: 0 <= i < |s| ==> IsDigit(s[i])
  }

  /** The number a string of decimal digits denotes, most significant digit first. */
  function NumeralValue(s: string): nat
    requires IsNumeral(s)
  {
    if s == [] then 0 else NumeralValue(s[..|s| - 1]) * 10 + DigitValue(s[|s| - 1])
  }

  /**
   * s is an optional `+` or `-` followed by one or more decimal digits, and v is the signed
   * value they denote: the syntax `strconv.ParseInt` accepts in base 10.
   */
  predicate Denotes(s: string, v: int)
  {
    && s != []
    && var digits := if s[0] == '+' || s[0] == '-' then s[1..] else s;
    && digits != []
    && IsNumeral(digits)
    && v == (if s[0] == '-' then -(NumeralValue(digits) as int) else NumeralValue(digits))
  }

  /**
   * The digit loop of `strconv.ParseUint` in base 10 for 64 bits: n is the value read so far;
   * a non-digit is a syntax error and a value past the largest uint64 a range error (both None).
   */
  function AccumulateUint(n: nat, s: string): Option<nat>
    decreases |s|
  {
    if s == [] then Some(n)
    else if !IsDigit(s[0]) then None
    else
      var n' := n * 10 + DigitValue(s[0]);
      if n' > MaxUint64 then None else AccumulateUint(n', s[1..])
  }

  /** Appending digits never makes a numeral smaller. */
  lemma {:induction false} NumeralMonotone(p: string, s: string)
    requires IsNumeral(p + s)
    ensures IsNumeral(p) && NumeralValue(p) <= NumeralValue(p + s)
    decreases |s|
  {
    var t := p + s;
    assert forall i :: 0 <= i < |p| ==> p[i] == t[i];
    if s != [] {
      var q := p + s[..|s| - 1];
      assert t[..|t| - 1] == q;
      assert forall i :: 0 <= i < |q| ==> q[i] == t[i];
      assert IsDigit(t[|t| - 1]);
      NumeralMonotone(p, s[..|s| - 1]);
      assert NumeralValue(t) == NumeralValue(q) * 10 + DigitValue(t[|t| - 1]);
      assert NumeralValue(p) <= NumeralValue(q) <= NumeralValue(q) * 10;
    } else {
      assert t == p;
    }
  }

  /**
   * Reading the digits of s after a prefix p that has already been read gives the value of
   * p + s, or fails exactly when p + s is not all digits or exceeds the largest uint64.
   */
  lemma {:induction false} AccumulateUintValue(p: string, s: string)
    requires IsNumeral(p) && NumeralValue(p) <= MaxUint64
    ensures AccumulateUint(NumeralValue(p), s)
         == if IsNumeral(p + s) && NumeralValue(p + s) <= MaxUint64 then Some(NumeralValue(p + s)) else None
    decreases |s|
  {
    if s == [] {
      assert p + s == p;
    } else if !IsDigit(s[0]) {
      assert (p + s)[|p|] == s[0];
    } else {
      var p' := p + [s[0]];
      assert p'[..|p'| - 1] == p;
      assert p' + s[1..] == p + s;
      assert IsNumeral(p');
      if NumeralValue(p') > MaxUint64 {
        if IsNumeral(p + s) {
          NumeralMonotone(p', s[1..]);
        }
      } else {
        AccumulateUintValue(p', s[1..]);
      }
    }
  }

  /** `strconv.ParseUint(s, 10, 64)`, with its error reduced to None. */
  function ParseUint(s: string): (r: Option<nat>)
    ensures r == if s != [] && IsNumeral(s) && NumeralValue(s) <= MaxUint64 then Some(NumeralValue(s)) else None
  {
    if s == [] then None
    else
      assert [] + s == s;
      AccumulateUintValue([], s);
      AccumulateUint(0, s)
  }

  /**
   * `strconv.ParseInt(s, 10, 64)`, with its error reduced to None: an optional sign, then the
   * unsigned magnitude, which must fit below 2^63 (positive) or at most 2^63 (negative).
   */
  function ParseInt(s: string): (r: Option<int64>)
    ensures r.Some? ==> Denotes(s, r.value)
    ensures r.None? ==> forall v :: MinInt64 <= v <= MaxInt64 ==> !Denotes(s, v)
  {
    if s == [] then None
    else
      var neg := s[0] == '-';
      var magnitude := if s[0] == '+' || s[0] == '-' then s[1..] else s;
      match ParseUint(magnitude)
      case None => None
      case Some(un) =>
        if !neg && un >= 0x8000_0000_0000_0000 then None
        else if neg && un > 0x8000_0000_0000_0000 then None
        else Some(if neg then -(un as int) else un)
  }

  /** A string in ParseInt's syntax whose value fits in an int64 is parsed to that value. */
  lemma ParseIntComplete(s: string, v: int)
    requires Denotes(s, v) && MinInt64 <= v <= MaxInt64
    ensures ParseInt(s) == Some(v)
  {
  }

  /** The decimal digits of n, without leading zeros. */
  function FormatUint(n: nat): (r: string)
    ensures r != [] && IsNumeral(r) && NumeralValue(r) == n
    ensures |r| > 1 ==> r[0] != '0'
  {
    if n < 10 then [DigitChar(n)]
    else
      var r := FormatUint(n / 10) + [DigitChar(n % 10)];
      assert r[..|r| - 1] == FormatUint(n / 10);
      r
  }

  /** `fmt.Sprintf("%v", n)` for an int64 n: a minus sign for negatives, then the digits of |n|. */
  function FormatInt(n: int64): (r: string)
    ensures r != [] && (r[0] == '-' <==> n < 0)
    ensures var digits := if n < 0 then r[1..] else r;
      && digits != [] && IsNumeral(digits)
      && (|digits| > 1 ==> digits[0] != '0')
      && NumeralValue(digits) == (if n < 0 then -(n as int) else n as int)
  {
    if n < 0 then "-" + FormatUint(-(n as int)) else FormatUint(n)
  }

  /** What `fmt.Sprintf("%v", n)` writes, `strconv.ParseInt` reads back as n. */
  lemma FormatIntRoundTrip(n: int64)
    ensures ParseInt(FormatInt(n)) == Some(n)
  {
  }

  /** Distinct int64 values are written as distinct strings. */
  lemma FormatIntInjective(m: int64, n: int64)
    requires FormatInt(m) == FormatInt(n)
    ensures m == n
  {
    FormatIntRoundTrip(m);
    FormatIntRoundTrip(n);
  }
}
