/** Bit operations on unsigned registers, and bytes as little-endian numbers. */
module Bits {

  function Pow2(n: nat): (r: nat)
    ensures r > 0
  {
    if n == 0 then 1 else 2 * Pow2(n - 1)
  }

  lemma {:induction false} Pow2Sum(a: nat, b: nat)
    ensures Pow2(a) * Pow2(b) == Pow2(a + b)
  {
    if a > 0 {
      Pow2Sum(a - 1, b);
      assert Pow2(a) * Pow2(b) == 2 * (Pow2(a - 1) * Pow2(b));
    }
  }

  lemma {:induction false} Pow2Ascends(a: nat, b: nat)
    requires a <= b
    ensures Pow2(a) <= Pow2(b)
    decreases b - a
  {
    if a < b { Pow2Ascends(a, b - 1); }
  }

  lemma Pow2Constants()
    ensures Pow2(8) == 256 && Pow2(16) == 65536
  {
    assert Pow2(4) == 16;
    assert Pow2(8) == 256;
    assert Pow2(12) == 4096;
  }

  function Or(a: nat, b: nat): nat {
    if a == 0 && b == 0 then 0
    else 2 * Or(a / 2, b / 2) + if a % 2 == 1 || b % 2 == 1 then 1 else 0
  }

  function And(a: nat, b: nat): nat {
    if a == 0 || b == 0 then 0
    else 2 * And(a / 2, b / 2) + if a % 2 == 1 && b % 2 == 1 then 1 else 0
  }

  /** A left shift in a 64-bit register. */
  function Shl64(a: nat, n: nat): nat {
    a * Pow2(n) % 0x1_0000_0000_0000_0000
  }

  function Shr(a: nat, n: nat): nat {
    Div(a, Pow2(n))
  }

  function Div(a: nat, p: nat): nat
    requires p > 0
  {
    a / p
  }

  function Mod(a: nat, p: nat): nat
    requires p > 0
  {
    a % p
  }

  /** The low n bits. */
  function Low(a: nat, n: nat): nat {
    Mod(a, Pow2(n))
  }

  function Mask(n: nat): nat {
    Pow2(n) - 1
  }

  lemma DivMod(q: nat, p: nat, r: nat)
    requires r < p
    ensures (q * p + r) / p == q && (q * p + r) % p == r
  {
    var x := q * p + r;
    assert x == (x / p) * p + x % p;
    if x / p < q { Grows(x / p + 1, q, p); }
    if q < x / p { Grows(q + 1, x / p, p); }
  }

  lemma Grows(a: nat, b: nat, p: nat)
    requires a <= b
    ensures a * p <= b * p && a * p + p == (a + 1) * p
  {
    assert b * p == a * p + (b - a) * p;
  }

  /** Splitting a number at bit n. */
  lemma Split(a: nat, n: nat)
    ensures a == Shr(a, n) * Pow2(n) + Low(a, n) && Low(a, n) < Pow2(n)
  {
  }

  lemma {:induction false} OrZero(b: nat)
    ensures Or(0, b) == b && Or(b, 0) == b
  {
    if b > 0 { OrZero(b / 2); }
  }

  /** Setting bits where there are none adds them. */
  lemma {:induction false} OrDisjoint(a: nat, hi: nat, n: nat)
    requires a < Pow2(n)
    ensures Or(a, hi * Pow2(n)) == a + hi * Pow2(n)
  {
    if n == 0 {
      OrZero(hi);
    } else {
      var b := hi * Pow2(n - 1);
      assert hi * Pow2(n) == 2 * b;
      OrDisjoint(a / 2, hi, n - 1);
      OrStep(a, 2 * b);
      assert 2 * b / 2 == b && 2 * b % 2 == 0;
    }
  }

  lemma OrStep(a: nat, b: nat)
    ensures Or(a, b) == 2 * Or(a / 2, b / 2) + if a % 2 == 1 || b % 2 == 1 then 1 else 0
  {
  }

  /** Masking keeps the low bits. */
  lemma {:induction false} AndMask(a: nat, n: nat)
    ensures And(a, Mask(n)) == Low(a, n)
  {
    if n == 0 {
      assert a % 1 == 0;
    } else {
      AndMask(a / 2, n - 1);
      AndStep(a, Mask(n));
      assert Mask(n) == 2 * Mask(n - 1) + 1;
      LowStep(a, n);
    }
  }

  lemma LowStep(a: nat, n: nat)
    requires n > 0
    ensures Low(a, n) == 2 * Low(a / 2, n - 1) + a % 2
    ensures Shr(a, n) == Shr(a / 2, n - 1)
  {
    var p := Pow2(n - 1);
    var q, r := Shr(a / 2, n - 1), Low(a / 2, n - 1);
    Split(a / 2, n - 1);
    Doubled(q, p, r, a);
    DivMod(q, 2 * p, 2 * r + a % 2);
  }

  lemma Doubled(q: nat, p: nat, r: nat, a: nat)
    requires a / 2 == q * p + r
    ensures a == q * (2 * p) + (2 * r + a % 2)
  {
    assert q * (2 * p) == 2 * (q * p);
  }

  lemma AndStep(a: nat, b: nat)
    ensures And(a, b) == 2 * And(a / 2, b / 2) + if a % 2 == 1 && b % 2 == 1 then 1 else 0
  {
    if a == 0 || b == 0 { assert And(a / 2, b / 2) == 0; }
  }

  // -------------------------------------------------------------------------
  // Bytes
  // -------------------------------------------------------------------------

  predicate Bytes(b: seq<int>) {
    forall i :: 0 <= i < |b| ==> 0 <= b[i] < 256
  }

  /** The number written in the bytes, lowest first. */
  function Value(b: seq<int>): nat
    requires Bytes(b)
  {
    if b == [] then 0 else b[0] + 256 * Value(b[1..])
  }

  lemma {:induction false} ValueAppend(b: seq<int>, x: int)
    requires Bytes(b) && 0 <= x < 256
    ensures Value(b + [x]) == Value(b) + x * Pow2(8 * |b|)
  {
    if b == [] {
      assert [x][1..] == [];
    } else {
      assert (b + [x])[1..] == b[1..] + [x];
      ValueAppend(b[1..], x);
      Pow2Constants();
      Pow2Sum(8, 8 * (|b| - 1));
      assert x * Pow2(8 * |b|) == 256 * (x * Pow2(8 * (|b| - 1)));
    }
  }

  lemma {:induction false} ValueBound(b: seq<int>)
    requires Bytes(b)
    ensures Value(b) < Pow2(8 * |b|)
  {
    if b != [] {
      ValueBound(b[1..]);
      Pow2Constants();
      Pow2Sum(8, 8 * (|b| - 1));
    }
  }

  /** Bytes are determined by their number. */
  lemma {:induction false} ValueInjective(a: seq<int>, b: seq<int>)
    requires Bytes(a) && Bytes(b) && |a| == |b| && Value(a) == Value(b)
    ensures a == b
  {
    if a != [] {
      assert Value(a) % 256 == a[0] && Value(b) % 256 == b[0];
      ValueInjective(a[1..], b[1..]);
      assert a == [a[0]] + a[1..] && b == [b[0]] + b[1..];
    }
  }
}
