/** Floating-point numbers and the library functions that the program calls as black boxes. */
module Runtimes {
  import opened Base

  /** An IEEE 754 binary64 number: a finite one is `(-1)^neg * mantissa * 2^exponent`,
      in the one normal or subnormal form that number has. Zero keeps its sign. */
  datatype RawDouble = Finite(neg: bool, mantissa: nat, exponent: int) | Infinite(neg: bool) | NotANumber

  type Double = d: RawDouble | IsDouble(d) witness NotANumber

  predicate IsDouble(d: RawDouble) {
    d.Finite? ==>
      && d.mantissa < 0x20_0000_0000_0000
      && -1074 <= d.exponent <= 971
      && (0x10_0000_0000_0000 <= d.mantissa || d.exponent == -1074)
  }

  function Pow2(e: int): (r: real)
    ensures r > 0.0
    decreases if e < 0 then -e else e
  {
    if e == 0 then 1.0 else if e > 0 then 2.0 * Pow2(e - 1) else Pow2(e + 1) / 2.0
  }

  /** Each power is twice the one before it, in both directions from 1. */
  lemma PowersOfTwo(e: int)
    ensures Pow2(0) == 1.0 && Pow2(e + 1) == 2.0 * Pow2(e)
  {
    assert e < 0 ==> Pow2(e) == Pow2(e + 1) / 2.0;
  }

  /** The number a finite double stands for. */
  function ValueOf(d: Double): real
    requires d.Finite?
  {
    (if d.neg then -1.0 else 1.0) * (d.mantissa as real * Pow2(d.exponent))
  }

  /** Mantissa times power, with the sign in front. */
  lemma ValueSpelledOut(d: Double)
    requires d.Finite?
    ensures !d.neg ==> ValueOf(d) == d.mantissa as real * Pow2(d.exponent) && ValueOf(d) >= 0.0
    ensures d.neg ==> ValueOf(d) == -(d.mantissa as real * Pow2(d.exponent)) && ValueOf(d) <= 0.0
  {
  }

  type Digest = d: Bytes | |d| == 32 witness seq(32, _ => 0)

  /** Library functions, passed around as a parameter. Nothing is known of them beyond their
      types; a lemma that needs more names it in a precondition. */
  datatype Runtime = Runtime(
    parseFloat: Text -> Double,        // float(text)
    reprFloat: Double -> Text,         // float.__repr__
    floatOfInt: int -> Option<Double>, // float(n), None when it overflows
    sha256: Bytes -> Digest,           // hashlib.sha256(..).digest()
    verifySignature: (Bytes, Bytes, Bytes) -> bool) // Ed25519: raw public key, signature, message
}
