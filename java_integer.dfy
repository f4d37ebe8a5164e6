/** The part of java.lang.Integer that the score lookup relies on:
    the 32-bit `int`, decimal parsing (`Integer.valueOf(String)`, which is
    `Integer.parseInt(s, 10)` boxed) and, as its inverse, `Integer.toString`. */
module JavaInteger {

  const MinInt32: int := -0x8000_0000
  const MaxInt32: int := 0x7FFF_FFFF

  /** Java's `int`: two's-complement, 32 bits. */
  newtype int32 = x: int | -0x8000_0000 <= x < 0x8000_0000

  datatype Option<+T> = None | Some(value: T)

  predicate IsDigit(c: char) {
    '0' <= c <= '9'
  }

  function DigitValue(c: char): (d: nat)
    requires IsDigit(c)
    ensures d < 10
  {
    (c as int) - ('0' as int)
  }

  function DigitChar(d: nat): (c: char)
    requires d < 10
    ensures IsDigit(c) && DigitValue(c) == d
  {
    (('0' as int) + d) as char
  }

  predicate AllDigits(s: string) {
    forall i :: 0 <= i < |s| ==> IsDigit(s[i])
  }

  /** The number a string of decimal digits denotes, most significant first. */
  function DecimalValue(ds: string): nat
    requires AllDigits(ds)
  {
    if |ds| == 0 then 0
    else DecimalValue(ds[..|ds| - 1]) * 10 + DigitValue(ds[|ds| - 1])
  }

  predicate IsSign(c: char) {
    c == '-' || c == '+'
  }

  /** A decimal integer literal as `Integer.parseInt` accepts it: an optional
      sign followed by at least one digit. */
  predicate IsIntLiteral(s: string) {
    if |s| > 0 && IsSign(s[0]) then |s| > 1 && AllDigits(s[1..])
    else |s| > 0 && AllDigits(s)
  }

  /** The mathematical value of a literal, without any bound. */
  function LiteralValue(s: string): int
    requires IsIntLiteral(s)
  {
    if s[0] == '-' then -(DecimalValue(s[1..]) as int)
    else if s[0] == '+' then DecimalValue(s[1..])
    else DecimalValue(s)
  }

  /** Scans digits the way the JDK does: the magnitude is accumulated digit by
      digit and the scan fails at the first non-digit, or as soon as the
      magnitude exceeds `limit`. */
  function ScanDigits(ds: string, acc: nat, limit: nat): Option<nat>
  {
    if |ds| == 0 then Some(acc)
    else if !IsDigit(ds[0]) then None
    else
      var next := acc * 10 + DigitValue(ds[0]);
      if next > limit then None else ScanDigits(ds[1..], next, limit)
  }

  /** `Integer.parseInt(s)` (and so `Integer.valueOf(s)` unboxed): `None`
      stands for the `NumberFormatException` it throws. The empty string, a
      lone sign, any character other than a leading sign or a digit, and a
      value outside the `int` range are all refused; leading zeros are not. */
  function ParseInt(s: string): (r: Option<int32>)
    ensures r.Some? <==> IsIntLiteral(s) && MinInt32 <= LiteralValue(s) <= MaxInt32
    ensures r.Some? ==> r.value as int == LiteralValue(s)
  {
    if |s| == 0 then None
    else if IsSign(s[0]) && |s| == 1 then None
    else
      var negative := s[0] == '-';
      var digits := if IsSign(s[0]) then s[1..] else s;
      var limit: nat := if negative then 0x8000_0000 else 0x7FFF_FFFF;
      ScanDigitsValue([], digits, limit);
      assert [] + digits == digits;
      match ScanDigits(digits, 0, limit)
      case None => None
      case Some(m) => Some((if negative then -(m as int) else m) as int32)
  }

  /** `Integer.toString(n)`: a minus sign for negative values, then the
      digits of the magnitude without leading zeros. */
  function FormatInt(n: int32): (s: string)
    ensures IsIntLiteral(s) && LiteralValue(s) == n as int
  {
    if n < 0 then
      var m := -(n as int);
      ToDecimalValue(m);
      assert ("-" + ToDecimal(m))[1..] == ToDecimal(m);
      "-" + ToDecimal(m)
    else
      ToDecimalValue(n as nat);
      ToDecimal(n as nat)
  }

  function ToDecimal(n: nat): string
    decreases n
  {
    if n < 10 then [DigitChar(n)] else ToDecimal(n / 10) + [DigitChar(n % 10)]
  }

  // ---------------------------------------------------------------------
  // Proofs

  /** The bounded, early-exit scan computes exactly the value of the digit
      string, and fails exactly when it is not all digits or exceeds `limit`. */
  lemma {:induction false} ScanDigitsValue(done: string, ds: string, limit: nat)
    requires AllDigits(done) && DecimalValue(done) <= limit
    ensures ScanDigits(ds, DecimalValue(done), limit)
            == if AllDigits(done + ds) && DecimalValue(done + ds) <= limit
               then Some(DecimalValue(done + ds)) else None
    decreases |ds|
  {
    if |ds| == 0 {
      assert done + ds == done;
    } else if !IsDigit(ds[0]) {
      assert (done + ds)[|done|] == ds[0];
    } else {
      var done' := done + [ds[0]];
      assert done'[..|done'| - 1] == done;
      assert AllDigits(done');
      assert done' + ds[1..] == done + ds;
      if DecimalValue(done') > limit {
        if AllDigits(done + ds) {
          DecimalValueMonotone(done', ds[1..]);
        }
      } else {
        ScanDigitsValue(done', ds[1..], limit);
      }
    }
  }

  /** Appending digits never makes the value smaller. */
  lemma {:induction false} DecimalValueMonotone(a: string, b: string)
    requires AllDigits(a + b)
    ensures AllDigits(a) && DecimalValue(a) <= DecimalValue(a + b)
    decreases |b|
  {
    assert forall i :: 0 <= i < |a| ==> (a + b)[i] == a[i];
    if |b| > 0 {
      var ab := a + b;
      var b' := b[..|b| - 1];
      assert ab[..|ab| - 1] == a + b';
      DecimalValueMonotone(a, b');
    } else {
      assert a + b == a;
    }
  }

  lemma {:induction false} ToDecimalValue(n: nat)
    ensures |ToDecimal(n)| > 0 && AllDigits(ToDecimal(n)) && DecimalValue(ToDecimal(n)) == n
    decreases n
  {
    var s := ToDecimal(n);
    if n < 10 {
      assert s[..0] == [];
    } else {
      ToDecimalValue(n / 10);
      assert s[..|s| - 1] == ToDecimal(n / 10);
    }
  }

  /** `Integer.parseInt(Integer.toString(n)) == n` for every `int`. */
  lemma ParseFormatRoundTrip(n: int32)
    ensures ParseInt(FormatInt(n)) == Some(n)
  {
  }

  /** A string holding a character that is neither a digit nor a leading sign
      (a ':' in particular) is never an `int` literal. */
  lemma ParseIntRejectsColon(s: string)
    requires ':' in s
    ensures ParseInt(s) == None
  {
    var i :| 0 <= i < |s| && s[i] == ':';
    if IsSign(s[0]) {
      assert s[1..][i - 1] == ':';
    }
  }
}
