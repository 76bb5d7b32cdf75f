/** Java runtime vocabulary shared by every model: optional references,
    the exceptions the emulator throws, and Java's 32-bit integer and
    remainder semantics, written out explicitly. */
module Jvm {

  /** A Java reference that may be null. */
  datatype Option<+T> = None | Some(value: T)

  /** Classification of a processor exception (only the one the core raises). */
  datatype FaultType = GeneralProtection

  /** The exceptions the modelled code throws or lets propagate. */
  datatype Exc =
    | NullPointer
    | IllegalState(what: string)
    | IndexOutOfBounds
    | ArrayIndexOutOfBounds
    | NegativeArraySize
    | IOError(what: string)
    | ProcessorFault(kind: FaultType, errorCode: int, hasErrorCode: bool)

  /** The processor exception `new ProcessorException(GENERAL_PROTECTION, 0, true)`. */
  const GP0: Exc := ProcessorFault(GeneralProtection, 0, true)

  /** Either a normal return value or a thrown exception. */
  datatype Result<+T> = Ok(value: T) | Throw(exc: Exc)

  const TWO32: int := 0x1_0000_0000
  const MIN_INT: int := -0x8000_0000
  const MAX_INT: int := 0x7fff_ffff

  predicate IsInt32(x: int) {
    MIN_INT <= x <= MAX_INT
  }

  /** The value of the Java `int` expression whose exact result is `x`. */
  function Wrap32(x: int): (r: int)
    ensures IsInt32(r)
    ensures (r - x) % TWO32 == 0
    ensures IsInt32(x) ==> r == x
  {
    var m := x % TWO32;
    if m <= MAX_INT then m else m - TWO32
  }

  const TWO64: int := 0x1_0000_0000_0000_0000
  const MIN_LONG: int := -0x8000_0000_0000_0000
  const MAX_LONG: int := 0x7fff_ffff_ffff_ffff

  predicate IsInt64(x: int) {
    MIN_LONG <= x <= MAX_LONG
  }

  /** The value of the Java `long` expression whose exact result is `x`. */
  function Wrap64(x: int): (r: int)
    ensures IsInt64(r)
    ensures (r - x) % TWO64 == 0
    ensures IsInt64(x) ==> r == x
  {
    var m := x % TWO64;
    if m <= MAX_LONG then m else m - TWO64
  }

  /** Java's `a % b` on integers: truncates toward zero, so the remainder
      takes the sign of the dividend. */
  function JavaRem(a: int, b: int): (r: int)
    requires b > 0
    ensures a >= 0 ==> 0 <= r < b
    ensures a < 0 ==> -b < r <= 0
  {
    if a >= 0 then a % b else -((-a) % b)
  }

  /** The low 32 bits of an integer, as Java's `(int)` narrowing keeps them. */
  function Low32(x: int): bv32 {
    (x % TWO32) as bv32
  }

  /** The low 8 bits of an integer, as Java's `(byte)` cast keeps them. */
  function Low8(x: int): bv8 {
    (x % 256) as bv8
  }

  /** The decimal text Java's `Long.toString` and `Integer.toString` give
      for `n`. */
  function DecimalString(n: int): (s: string)
    ensures |s| > 0
    ensures n < 0 <==> s[0] == '-'
  {
    if n < 0 then "-" + Digits(-n) else Digits(n)
  }

  function Digits(n: nat): (s: string)
    ensures |s| > 0 && forall i :: 0 <= i < |s| ==> '0' <= s[i] <= '9'
    decreases n
  {
    var last := "0123456789"[n % 10];
    if n < 10 then [last] else Digits(n / 10) + [last]
  }

  /** The number a string of decimal digits denotes. */
  function DigitsValue(s: string): int
    decreases |s|
  {
    if s == [] then 0 else 10 * DigitsValue(s[..|s| - 1]) + (s[|s| - 1] as int - '0' as int)
  }

  /** `Digits` is the decimal numeral of `n`: it denotes `n` and has no
      leading zero. */
  lemma {:induction false} DigitsRoundTrip(n: nat)
    ensures DigitsValue(Digits(n)) == n
    ensures Digits(n)[0] == '0' <==> n == 0
    decreases n
  {
    var last := "0123456789"[n % 10];
    assert last as int - '0' as int == n % 10;
    if n >= 10 {
      DigitsRoundTrip(n / 10);
      var s := Digits(n);
      assert s[..|s| - 1] == Digits(n / 10);
    }
  }
}
