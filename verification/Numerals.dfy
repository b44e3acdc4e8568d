/** The decimal numerals of bencoding: printing an integer and reading one back. */
module Numerals {
  import opened Basics

  const ZERO: byte := 48
  const MINUS: byte := 45

  predicate IsDigit(b: byte) {
    48 <= b <= 57
  }

  predicate AllDigits(raw: Bytes) {
    forall i :: 0 <= i < |raw| ==> IsDigit(raw[i])
  }

  function DecimalNat(n: nat): (r: Bytes)
    ensures r != [] && AllDigits(r)
    ensures r[0] == ZERO ==> n == 0
  {
    if n < 10 then [48 + n] else DecimalNat(n / 10) + [48 + n % 10]
  }

  /** The ASCII text of `f"{i}"`. */
  function Decimal(i: int): Bytes {
    if i < 0 then [MINUS] + DecimalNat(-i) else DecimalNat(i)
  }

  function DigitsValue(raw: Bytes): nat
    requires AllDigits(raw)
  {
    if raw == [] then 0 else 10 * DigitsValue(raw[..|raw| - 1]) + (raw[|raw| - 1] - 48)
  }

  /** Python's `int(raw)` on an optional minus followed by digits; None where it raises. */
  function PyInt(raw: Bytes): Option<int> {
    if raw != [] && AllDigits(raw) then
      Some(DigitsValue(raw) as int)
    else if |raw| > 1 && raw[0] == MINUS && AllDigits(raw[1..]) then
      Some(0 - DigitsValue(raw[1..]))
    else
      None
  }

  lemma {:induction false} DecimalNatReads(n: nat)
    ensures DigitsValue(DecimalNat(n)) == n
    ensures DecimalNat(n)[0] == ZERO ==> |DecimalNat(n)| == 1
  {
    if n >= 10 {
      DecimalNatReads(n / 10);
      assert DecimalNat(n)[..|DecimalNat(n)| - 1] == DecimalNat(n / 10);
    }
  }

  /** Reading back what was printed. */
  lemma PyIntDecimal(i: int)
    ensures PyInt(Decimal(i)) == Some(i)
    ensures Decimal(i)[0] == ZERO ==> |Decimal(i)| == 1
    ensures Decimal(i) != [MINUS, ZERO] && (|Decimal(i)| > 2 ==> Decimal(i)[..2] != [MINUS, ZERO])
    ensures forall b :: b in Decimal(i) ==> IsDigit(b) || b == MINUS
  {
    DecimalNatReads(if i < 0 then -i else i);
    if i < 0 {
      assert Decimal(i)[1..] == DecimalNat(-i);
    }
  }

  lemma {:induction false} DigitsReprint(raw: Bytes)
    requires raw != [] && AllDigits(raw)
    requires raw[0] == ZERO ==> |raw| == 1
    ensures DecimalNat(DigitsValue(raw)) == raw
    ensures raw[0] != ZERO ==> DigitsValue(raw) > 0
  {
    if |raw| > 1 {
      var front := raw[..|raw| - 1];
      DigitsReprint(front);
      assert raw == front + [raw[|raw| - 1]];
      assert DigitsValue(raw) / 10 == DigitsValue(front);
    }
  }

  /** A numeral with no leading zero and no minus zero is the only text of its value. */
  lemma PyIntReprint(raw: Bytes)
    requires PyInt(raw).Some?
    requires |raw| > 1 ==> raw[0] != ZERO
    requires |raw| > 1 ==> raw[..2] != [MINUS, ZERO]
    ensures Decimal(PyInt(raw).value) == raw
  {
    if AllDigits(raw) {
      DigitsReprint(raw);
    } else {
      assert raw[1] != ZERO by {
        assert raw[..2] == [raw[0], raw[1]];
      }
      DigitsReprint(raw[1..]);
      assert raw == [MINUS] + raw[1..];
    }
  }

  // ---------------------------------------------------------------------------
  // Place values
  // ---------------------------------------------------------------------------

  function Pow10(k: nat): nat {
    if k == 0 then 1 else 10 * Pow10(k - 1)
  }

  /** The sum of `(raw[k] - 48) * 10^(|raw| - 1 - k)` from position `from` on. */
  function PlaceValues(raw: Bytes, from: nat): int
    requires from <= |raw|
    decreases |raw| - from
  {
    if from == |raw| then 0 else (raw[from] as int - 48) * Pow10(|raw| - 1 - from) + PlaceValues(raw, from + 1)
  }

  /** One more digit multiplies the places before it by ten. */
  lemma {:induction false} PlaceValuesAppend(raw: Bytes, digit: byte, from: nat)
    requires from <= |raw|
    ensures PlaceValues(raw + [digit], from) == 10 * PlaceValues(raw, from) + (digit as int - 48)
    decreases |raw| - from
  {
    var longer := raw + [digit];
    if from < |raw| {
      PlaceValuesAppend(raw, digit, from + 1);
      var p, d := Pow10(|raw| - 1 - from), raw[from] as int - 48;
      assert Pow10(|longer| - 1 - from) == 10 * p;
      assert longer[from] == raw[from];
      assert d * (10 * p) == 10 * (d * p);
    } else {
      assert PlaceValues(longer, |longer|) == 0;
      assert Pow10(0) == 1;
    }
  }

  lemma {:induction false} DigitsArePlaces(raw: Bytes)
    requires AllDigits(raw)
    ensures DigitsValue(raw) == PlaceValues(raw, 0)
  {
    if raw != [] {
      var front := raw[..|raw| - 1];
      DigitsArePlaces(front);
      PlaceValuesAppend(front, raw[|raw| - 1], 0);
      assert raw == front + [raw[|raw| - 1]];
    }
  }

  /** What is read, and when: one or more of the bytes 48 to 57 after at most one byte 45, by place value. */
  lemma PyIntPlaces(raw: Bytes)
    ensures var negative := raw != [] && raw[0] == 45;
            var digits := if negative then raw[1..] else raw;
            if digits != [] && (forall b :: b in digits ==> 48 <= b <= 57) then
              PyInt(raw) == Some(if negative then -PlaceValues(digits, 0) else PlaceValues(digits, 0))
            else
              PyInt(raw).None?
  {
    var negative := raw != [] && raw[0] == 45;
    var digits := if negative then raw[1..] else raw;
    forall b | b in digits && AllDigits(digits) ensures 48 <= b <= 57 {
      var k :| 0 <= k < |digits| && digits[k] == b;
    }
    assert negative ==> !IsDigit(raw[0]);
    if AllDigits(digits) {
      DigitsArePlaces(digits);
    } else {
      var k :| 0 <= k < |digits| && !IsDigit(digits[k]);
      assert digits[k] in digits;
    }
  }
}
