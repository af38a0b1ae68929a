/**
 * The parts of Go's `strconv` package used by the core: decimal `ParseInt`,
 * `ParseUint`, `Atoi`, `ParseBool` and `FormatInt`, with Go's error behaviour
 * (a syntax error yields 0, a range error yields the clamped bound) and the
 * fixed-width conversions `uint32(x)` and `uint64(x)`.
 */
module GoStrconv {
  import opened Wrappers

  const TWO_32: int := 0x1_0000_0000
  const TWO_64: int := 0x1_0000_0000_0000_0000
  const INT64_MAX: int := 0x7FFF_FFFF_FFFF_FFFF
  const INT64_MIN: int := -0x8000_0000_0000_0000
  const INT16_MAX: int := 0x7FFF
  const INT16_MIN: int := -0x8000
  const UINT64_MAX: int := TWO_64 - 1

  /** The values of a Go `uint32`. */
  type uint32 = x: nat | x < TWO_32

  /** Go's `uint32(v)` conversion: keep the low 32 bits. */
  function ToUint32(v: int): (r: nat)
    ensures r < TWO_32
    ensures 0 <= v < TWO_32 ==> r == v
    ensures (r - v) % TWO_32 == 0
  {
    v % TWO_32
  }

  /** Go's `uint64(v)` conversion (and wrap-around of uint64 arithmetic). */
  function ToUint64(v: int): (r: nat)
    ensures r < TWO_64
    ensures 0 <= v < TWO_64 ==> r == v
  {
    v % TWO_64
  }

  /** Go's int64 arithmetic: the value wrapped into [-2^63, 2^63). */
  function ToInt64(v: int): (r: int)
    ensures INT64_MIN <= r <= INT64_MAX
    ensures INT64_MIN <= v <= INT64_MAX ==> r == v
  {
    (v - INT64_MIN) % TWO_64 + INT64_MIN
  }

  /** `ToInt64(v)` differs from `v` by a multiple of 2^64. */
  lemma ToInt64Offset(v: int) returns (q: int)
    ensures ToInt64(v) == v + q * TWO_64
  {
    q := -((v - INT64_MIN) / TWO_64);
  }

  /** Two values in int64 range that differ by a multiple of 2^64 are equal. */
  lemma Int64Unique(a: int, b: int, q: int)
    requires INT64_MIN <= a <= INT64_MAX && INT64_MIN <= b <= INT64_MAX
    requires a == b + q * TWO_64
    ensures a == b
  {
  }

  /** Wrapping after every step of a sum is wrapping the sum once: `x += y` in int64. */
  lemma ToInt64Add(x: int, y: int)
    ensures ToInt64(ToInt64(x) + y) == ToInt64(x + y)
  {
    var q1 := ToInt64Offset(x);
    var q2 := ToInt64Offset(ToInt64(x) + y);
    var q3 := ToInt64Offset(x + y);
    assert ToInt64(ToInt64(x) + y) == ToInt64(x + y) + (q1 + q2 - q3) * TWO_64;
    Int64Unique(ToInt64(ToInt64(x) + y), ToInt64(x + y), q1 + q2 - q3);
  }

  predicate IsDigit(c: char) { '0' <= c <= '9' }

  predicate AllDigits(s: string) {
    |s| > 0 && forall i :: 0 <= i < |s| ==> IsDigit(s[i])
  }

  function DigitValue(c: char): nat
    requires IsDigit(c)
  {
    c as int - '0' as int
  }

  function DigitChar(d: nat): (c: char)
    requires d < 10
    ensures IsDigit(c) && DigitValue(c) == d
  {
    ('0' as int + d) as char
  }

  /** Value of a string of decimal digits, most significant first. */
  function DecimalValue(s: string): nat
    requires forall i :: 0 <= i < |s| ==> IsDigit(s[i])
  {
    if |s| == 0 then 0 else DecimalValue(s[..|s| - 1]) * 10 + DigitValue(s[|s| - 1])
  }

  /** Decimal digits of `n` without leading zeros (`strconv.FormatUint(n, 10)`). */
  function FormatNat(n: nat): (s: string)
    ensures AllDigits(s)
    ensures DecimalValue(s) == n
  {
    if n < 10 then [DigitChar(n)]
    else
      var s := FormatNat(n / 10) + [DigitChar(n % 10)];
      assert s[..|s| - 1] == FormatNat(n / 10);
      s
  }

  /** `strconv.FormatInt(v, 10)`. */
  function FormatInt(v: int): (s: string)
    ensures |s| > 0
    ensures v >= 0 ==> s == FormatNat(v)
    ensures v < 0 ==> s == "-" + FormatNat(-v)
  {
    if v >= 0 then FormatNat(v) else "-" + FormatNat(-v)
  }

  /** What a `strconv` parse returns: a value, or a syntax error (value 0), or a range error carrying the clamped bound. */
  datatype NumParse = Parsed(value: int) | SyntaxError | RangeError(clamped: int)
  {
    /** The number Go hands back whether or not there was an error. */
    function Value(): int {
      match this
      case Parsed(v) => v
      case SyntaxError => 0
      case RangeError(c) => c
    }
  }

  /** An optional sign, then at least one decimal digit. */
  predicate SignedDecimal(s: string) {
    if |s| > 0 && (s[0] == '-' || s[0] == '+') then AllDigits(s[1..]) else AllDigits(s)
  }

  function SignedValue(s: string): int
    requires SignedDecimal(s)
  {
    if |s| > 0 && s[0] == '-' then 0 - DecimalValue(s[1..])
    else if |s| > 0 && s[0] == '+' then DecimalValue(s[1..])
    else DecimalValue(s)
  }

  /** `strconv.ParseInt(s, 10, bits)` for a signed range [lo, hi]. */
  function ParseIntIn(s: string, lo: int, hi: int): (r: NumParse)
    requires lo <= 0 < hi
    ensures r.Parsed? <==> SignedDecimal(s) && lo <= SignedValue(s) <= hi
    ensures r.Parsed? ==> r.value == SignedValue(s)
    ensures r.SyntaxError? <==> !SignedDecimal(s)
    ensures r.RangeError? ==> r.clamped == lo || r.clamped == hi
  {
    if !SignedDecimal(s) then SyntaxError
    else
      var v := SignedValue(s);
      if v < lo then RangeError(lo) else if v > hi then RangeError(hi) else Parsed(v)
  }

  /** `strconv.ParseInt(s, 10, 64)`, also `strconv.Atoi` on a 64-bit platform. */
  function ParseInt64(s: string): NumParse {
    ParseIntIn(s, INT64_MIN, INT64_MAX)
  }

  /** `strconv.ParseInt(s, 10, 16)`. */
  function ParseInt16(s: string): NumParse {
    ParseIntIn(s, INT16_MIN, INT16_MAX)
  }

  function Atoi(s: string): NumParse {
    ParseInt64(s)
  }

  /** The text of the `*strconv.NumError` that `strconv.ParseInt` returns for `s`. */
  function ParseIntError(s: string, r: NumParse): string
    requires !r.Parsed?
  {
    "strconv.ParseInt: parsing \"" + s + "\": " + (if r.SyntaxError? then "invalid syntax" else "value out of range")
  }

  /** `strconv.ParseUint(s, 10, 64)`: no sign is accepted. */
  function ParseUint64(s: string): (r: NumParse)
    ensures r.Parsed? <==> AllDigits(s) && DecimalValue(s) <= UINT64_MAX
    ensures r.Parsed? ==> r.value == DecimalValue(s)
    ensures r.SyntaxError? <==> !AllDigits(s)
  {
    if !AllDigits(s) then SyntaxError
    else if DecimalValue(s) > UINT64_MAX then RangeError(UINT64_MAX)
    else Parsed(DecimalValue(s))
  }

  /** Round trip: `ParseInt(FormatInt(v))` gives `v` back for every 64-bit `v`. */
  lemma ParseFormatInt(v: int)
    requires INT64_MIN <= v <= INT64_MAX
    ensures ParseInt64(FormatInt(v)) == Parsed(v)
  {
    var s := FormatInt(v);
    if v >= 0 {
      assert s == FormatNat(v);
      assert s[0] != '-' && s[0] != '+' by { assert IsDigit(s[0]); }
    } else {
      assert s[1..] == FormatNat(-v);
    }
  }

  /** `strconv.ParseBool`. */
  function ParseBool(s: string): (r: Result<bool>)
    ensures r.Ok? <==> s in {"1", "t", "T", "TRUE", "true", "True", "0", "f", "F", "FALSE", "false", "False"}
    ensures r.Ok? ==> (r.value <==> s in {"1", "t", "T", "TRUE", "true", "True"})
  {
    if s in {"1", "t", "T", "TRUE", "true", "True"} then Ok(true)
    else if s in {"0", "f", "F", "FALSE", "false", "False"} then Ok(false)
    else Err("invalid syntax")
  }
}
