/** The bit trick of the padding loop: `v & (v - 1)` on natural numbers. */
module PowerOfTwo {

  /** Bitwise and, digit by binary digit. */
  function And(a: nat, b: nat): nat
  {
    if a == 0 || b == 0 then 0 else (a % 2) * (b % 2) + 2 * And(a / 2, b / 2)
  }

  /** Binary digit `i` of a number. */
  function Bit(a: nat, i: nat): nat
  {
    if i == 0 then a % 2 else Bit(a / 2, i - 1)
  }

  lemma {:induction false} BitOfZero(i: nat)
    ensures Bit(0, i) == 0
  {
    if i > 0 { BitOfZero(i - 1); }
  }

  /** A digit of the bitwise and is one exactly where both digits are. */
  lemma {:induction false} AndIsBitwise(a: nat, b: nat, i: nat)
    ensures Bit(And(a, b), i) == if Bit(a, i) == 1 && Bit(b, i) == 1 then 1 else 0
    decreases i
  {
    if a == 0 || b == 0 {
      BitOfZero(i);
    } else {
      assert a % 2 == 0 || a % 2 == 1;
      assert And(a, b) % 2 == (a % 2) * (b % 2) && And(a, b) / 2 == And(a / 2, b / 2);
      if i > 0 { AndIsBitwise(a / 2, b / 2, i - 1); }
    }
  }

  /** `v && !(v & (v - 1))`. */
  predicate PowerOfTwo(v: nat)
  {
    v != 0 && And(v, v - 1) == 0
  }

  function Exp2(k: nat): (r: nat)
    ensures r >= 1
  {
    if k == 0 then 1 else 2 * Exp2(k - 1)
  }

  lemma {:induction false} AndSelf(m: nat)
    ensures And(m, m) == m
  {
    if m != 0 {
      AndSelf(m / 2);
      assert (m % 2) * (m % 2) == m % 2 by { assert m % 2 == 0 || m % 2 == 1; }
    }
  }

  /** The exponent of a number that passes the bit trick. */
  lemma {:induction false} PowerHasExponent(v: nat) returns (k: nat)
    requires PowerOfTwo(v)
    ensures v == Exp2(k)
  {
    if v == 1 {
      k := 0;
    } else if v % 2 == 1 {
      assert (v - 1) / 2 == v / 2 && (v - 1) % 2 == 0;
      AndSelf(v / 2);
      assert false;
    } else {
      assert (v - 1) / 2 == v / 2 - 1 && (v - 1) % 2 == 1;
      assert And(v, v - 1) == 2 * And(v / 2, v / 2 - 1);
      k := PowerHasExponent(v / 2);
      k := k + 1;
    }
  }

  lemma {:induction false} ExponentIsPower(k: nat)
    ensures PowerOfTwo(Exp2(k))
  {
    if k > 0 {
      ExponentIsPower(k - 1);
      var v := Exp2(k);
      assert v % 2 == 0 && v / 2 == Exp2(k - 1) && (v - 1) / 2 == v / 2 - 1;
      if v - 1 != 0 { assert And(v, v - 1) == 2 * And(v / 2, v / 2 - 1); }
    }
  }

  /** The bit trick accepts exactly the powers of two. */
  lemma PowerOfTwoCorrect(v: nat)
    ensures PowerOfTwo(v) <==> exists k :: v == Exp2(k)
  {
    if PowerOfTwo(v) {
      var k := PowerHasExponent(v);
    }
    if k :| v == Exp2(k) { ExponentIsPower(k); }
  }

  lemma {:induction false} Exp2Monotone(a: nat, b: nat)
    requires a <= b
    ensures Exp2(a) <= Exp2(b)
    decreases b
  {
    if a < b { Exp2Monotone(a, b - 1); }
  }

  lemma Exp2Strict(a: nat, b: nat)
    requires a < b
    ensures Exp2(a) < Exp2(b)
  {
    Exp2Monotone(a, b - 1);
  }

  /** The exponent of the least power of two that is at least `n`. */
  function CeilLog2(n: nat): (k: nat)
    ensures n <= Exp2(k)
    ensures k > 0 ==> Exp2(k - 1) < n
    ensures n >= 3 ==> k >= 2
  {
    if n <= 1 then 0 else CeilLog2((n + 1) / 2) + 1
  }

  /** Every power of two that reaches `n` reaches the padded length. */
  lemma PaddedIsLeast(n: nat, m: nat)
    requires PowerOfTwo(m) && n <= m
    ensures Exp2(CeilLog2(n)) <= m
  {
    var k := PowerHasExponent(m);
    if k < CeilLog2(n) {
      Exp2Monotone(k, CeilLog2(n) - 1);
    } else {
      Exp2Monotone(CeilLog2(n), k);
    }
  }
}
