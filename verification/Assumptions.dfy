/** The assumptions on the library can be met: one runtime with one signer meets them all, so the
    theorems that rest on them are about something. */
module Assumptions {
  import opened Base
  import opened Runtimes
  import opened JsonPrint
  import opened JsonParse
  import opened JsonRoundTrip
  import opened VerifierTheorems

  const LETTER_E: CodePoint := 101

  /** A float lexeme for a finite double: mantissa and sign as one integer, then the exponent. */
  function Spell(d: Double): Text {
    if d.Finite? then PrintNat(2 * d.mantissa + if d.neg then 1 else 0) + ([LETTER_E] + PrintInt(d.exponent)) else []
  }

  function Unspell(s: Text): Double {
    if DigitRun(s) == |s| then NotANumber
    else Assemble(ParseNat(s[..DigitRun(s)]), ParseInt(s[DigitRun(s) + 1..]))
  }

  function Assemble(n: int, exponent: int): Double {
    if n >= 0 && IsDouble(Finite(n % 2 == 1, n / 2, exponent)) then Finite(n % 2 == 1, n / 2, exponent) else NotANumber
  }

  lemma DigitsBefore(n: nat, rest: Text)
    requires rest == [] || !IsDigit(rest[0])
    ensures DigitRun(PrintNat(n) + rest) == |PrintNat(n)| == IntegerRun(PrintNat(n) + rest)
    ensures IsDigit(PrintNat(n)[0])
  {
    PrintNatDigits(n);
    DigitRunAll(PrintNat(n));
    DigitRunStops(PrintNat(n), rest);
  }

  lemma ExponentScans(x: int)
    ensures TailRun([LETTER_E] + PrintInt(x)) == 1 + |PrintInt(x)|
  {
    var digits := PrintNat(if x < 0 then -x else x);
    var s := [LETTER_E] + PrintInt(x);
    DigitsBefore(if x < 0 then -x else x, []);
    assert digits + [] == digits;
    assert s[0..] == s && FractionRun(s) == 0;
    assert x < 0 ==> s[2..] == digits && s[1] == MINUS;
    assert x >= 0 ==> s[1..] == digits;
  }

  lemma JoinedScans(digits: Text, rest: Text)
    requires digits != [] && IntegerRun(digits + rest) == |digits|
    requires rest != [] && TailRun(rest) == |rest|
    ensures ScanUnsigned(digits + rest) == Some((|digits + rest|, true))
  {
    SplitAppend(digits, rest);
    ScanParts(digits + rest);
  }

  lemma ScanParts(t: Text)
    requires IntegerRun(t) > 0
    ensures var tail := TailRun(t[IntegerRun(t)..]); ScanUnsigned(t) == Some((IntegerRun(t) + tail, tail > 0))
  {
  }

  lemma NoSign(s: Text)
    requires s != [] && s[0] != MINUS
    ensures ScanNumber(s) == ScanUnsigned(s)
  {
    assert s[0..] == s;
  }

  lemma SpellScans(n: nat, x: int)
    ensures var s := PrintNat(n) + ([LETTER_E] + PrintInt(x)); ScanNumber(s) == Some((|s|, true))
  {
    DigitsBefore(n, [LETTER_E] + PrintInt(x));
    ExponentScans(x);
    JoinedScans(PrintNat(n), [LETTER_E] + PrintInt(x));
    NoSign(PrintNat(n) + ([LETTER_E] + PrintInt(x)));
  }

  lemma PartsFound(digits: Text, exponent: Text, n: nat)
    requires n == |digits|
    ensures var s := digits + ([LETTER_E] + exponent);
      n < |s| && s[..n] == digits && s[n + 1..] == exponent
  {
  }

  lemma AssembleParts(d: Double)
    requires d.Finite?
    ensures Assemble(2 * d.mantissa + if d.neg then 1 else 0, d.exponent) == d
  {
  }

  lemma UnspellParts(digits: Text, exponent: Text)
    requires DigitRun(digits + ([LETTER_E] + exponent)) == |digits|
    ensures Unspell(digits + ([LETTER_E] + exponent)) == Assemble(ParseNat(digits), ParseInt(exponent))
  {
    PartsFound(digits, exponent, |digits|);
  }

  lemma ReadBack(n: nat, x: int)
    ensures ParseNat(PrintNat(n)) == n && ParseInt(PrintInt(x)) == x
  {
    PrintNatDigits(n);
    PrintIntScans(x);
  }

  lemma SpellRoundTrips(d: Double)
    requires d.Finite?
    ensures Unspell(Spell(d)) == d
  {
    var n := 2 * d.mantissa + if d.neg then 1 else 0;
    DigitsBefore(n, [LETTER_E] + PrintInt(d.exponent));
    UnspellParts(PrintNat(n), PrintInt(d.exponent));
    ReadBack(n, d.exponent);
    AssembleParts(d);
  }

  /** There is a library under which floats round trip and every honest signature verifies. */
  lemma AssumptionsCanHold(publicKey: Bytes)
    ensures exists rt, sign :: FloatsRoundTrip(rt) && SignsFor(rt, sign, publicKey)
  {
    var zeros: Bytes := seq(64, _ => 0);
    var rt := Runtime(Unspell, Spell, _ => None, _ => zeros[..32], (_, _, _) => true);
    forall d: Double | d.Finite?
      ensures ScanNumber(rt.reprFloat(d)) == Some((|rt.reprFloat(d)|, true)) && rt.parseFloat(rt.reprFloat(d)) == d
    {
      SpellRoundTrips(d);
      SpellScans(2 * d.mantissa + if d.neg then 1 else 0, d.exponent);
    }
    var sign: Bytes -> Bytes := _ => zeros;
    assert SignsFor(rt, sign, publicKey);
  }
}
