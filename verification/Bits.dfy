/** Bytes, and Python's bit operations on its unbounded integers. */
module Bits {
  import Text

  type Byte = b: int | 0 <= b < 256

  type Bytes = seq<Byte>

  function Pow2(n: nat): (r: nat)
    ensures r > 0
  {
    if n == 0 then 1 else 2 * Pow2(n - 1)
  }

  /** `x & y`: y may be negative, with two's-complement bits without end. */
  function And(x: nat, y: int): nat {
    if x == 0 then 0 else (x % 2) * (y % 2) + 2 * And(x / 2, y / 2)
  }

  /** `x | y` */
  function Or(x: nat, y: nat): nat {
    if x == 0 then y else (if x % 2 == 1 || y % 2 == 1 then 1 else 0) + 2 * Or(x / 2, y / 2)
  }

  /** `x << n` */
  function ShiftLeft(x: nat, n: nat): nat {
    if n == 0 then x else 2 * ShiftLeft(x, n - 1)
  }

  lemma {:induction false} QuotientIs(x: int, a: int, q: int)
    requires a > 0 && q * a <= x < q * a + a
    ensures x / a == q
  {
    var d := x / a - q;
    assert x == (x / a) * a + x % a;
    assert d * a == (x / a) * a - q * a;
    assert d * a < a && -a < d * a;
    assert d >= 1 ==> d * a >= a;
    assert d <= -1 ==> d * a <= -a;
  }

  lemma {:induction false} AndAllOnes(x: nat)
    ensures And(x, -1) == x
  {
    if x > 0 {
      assert (-1) % 2 == 1 && (-1) / 2 == -1;
      AndAllOnes(x / 2);
    }
  }

  /** Dividing by twice a number, by way of the half. */
  lemma {:induction false} Halve(x: nat, a: nat)
    requires a > 0
    ensures x / (2 * a) == (x / 2) / a
    ensures x % (2 * a) == x % 2 + 2 * ((x / 2) % a)
    ensures (x / (2 * a)) * (2 * a) == 2 * (((x / 2) / a) * a)
  {
    var h := x / 2;
    var q := h / a;
    assert h == q * a + h % a;
    assert q * (2 * a) == 2 * (q * a);
    QuotientIs(x, 2 * a, q);
    assert x == q * (2 * a) + x % (2 * a);
  }

  /** Masking with the negative of a power of two rounds down to a multiple of it. */
  lemma {:induction false} AndNegativePow2(x: nat, k: nat)
    ensures And(x, 0 - (Pow2(k) as int)) == (x / Pow2(k)) * Pow2(k)
    decreases k
  {
    if k == 0 {
      AndAllOnes(x);
    } else if x > 0 {
      var a: int := Pow2(k - 1);
      AndNegativePow2(x / 2, k - 1);
      assert (0 - 2 * a) % 2 == 0 && (0 - 2 * a) / 2 == 0 - a;
      Halve(x, a);
    } else {
      QuotientIs(0, Pow2(k), 0);
    }
  }

  /** Masking with one less than a power of two takes the remainder. */
  lemma {:induction false} AndLowBits(x: nat, k: nat)
    ensures And(x, Pow2(k) - 1) == x % Pow2(k)
    decreases k
  {
    if k == 0 {
      AndZero(x);
    } else if x > 0 {
      var a: int := Pow2(k - 1);
      AndLowBits(x / 2, k - 1);
      assert (2 * a - 1) % 2 == 1 && (2 * a - 1) / 2 == a - 1;
      Halve(x, a);
    } else {
      Halve(0, Pow2(k - 1));
    }
  }

  lemma {:induction false} AndZero(x: nat)
    ensures And(x, 0) == 0
  {
    if x > 0 { AndZero(x / 2); }
  }

  /** Masking with a power of two tests one bit. */
  lemma {:induction false} AndOneBit(x: nat, k: nat)
    requires x < 2 * Pow2(k)
    ensures And(x, Pow2(k)) == if x < Pow2(k) then 0 else Pow2(k)
    decreases k
  {
    if k == 0 {
      assert x <= 1;
      AndZero(0);
    } else if x > 0 {
      assert Pow2(k) % 2 == 0 && Pow2(k) / 2 == Pow2(k - 1);
      AndOneBit(x / 2, k - 1);
    }
  }

  /** Setting bits above all the bits of v adds them. */
  lemma {:induction false} OrAbove(v: nat, x: nat, n: nat)
    requires v < Pow2(n)
    ensures Or(v, ShiftLeft(x, n)) == v + ShiftLeft(x, n)
    decreases n
  {
    if n > 0 && v > 0 { OrAbove(v / 2, x, n - 1); }
  }

  lemma {:induction false} ShiftLeftSum(x: nat, y: nat, n: nat)
    ensures ShiftLeft(x + y, n) == ShiftLeft(x, n) + ShiftLeft(y, n)
    decreases n
  {
    if n > 0 { ShiftLeftSum(x, y, n - 1); }
  }

  function Concat(parts: seq<Bytes>): Bytes {
    if parts == [] then [] else parts[0] + Concat(parts[1..])
  }

  /** The bytes bs are in the file at a position. */
  predicate Holds(file: Bytes, at: nat, bs: Bytes) {
    at + |bs| <= |file| && forall i :: 0 <= i < |bs| ==> file[at + i] == bs[i]
  }

  lemma {:induction false} HoldsParts(file: Bytes, at: nat, a: Bytes, b: Bytes)
    ensures Holds(file, at, a + b) <==> Holds(file, at, a) && Holds(file, at + |a|, b)
  {
    var ab := a + b;
    if Holds(file, at, ab) {
      forall i | 0 <= i < |a| ensures file[at + i] == a[i] { assert ab[i] == a[i]; }
      forall i | 0 <= i < |b| ensures file[at + |a| + i] == b[i] { assert ab[|a| + i] == b[i]; }
    }
  }

  lemma {:induction false} HoldsWithin(file: Bytes, at: nat, bs: Bytes, lo: nat, part: Bytes)
    requires Holds(file, at, bs) && Holds(bs, lo, part)
    ensures Holds(file, at + lo, part)
  {
  }

  lemma {:induction false} HoldsSlice(file: Bytes, at: nat, bs: Bytes)
    ensures Holds(file, at, bs) <==> at + |bs| <= |file| && file[at..at + |bs|] == bs
    ensures Holds(file, at, bs) ==> Text.Slice(file, at, at + |bs|) == bs
  {
  }

  lemma {:induction false} HoldsByte(file: Bytes, at: nat, b: Byte)
    ensures Holds(file, at, [b]) <==> at < |file| && file[at] == b
  {
    assert [b][0] == b;
    assert Holds(file, at, [b]) ==> file[at + 0] == [b][0];
  }
}
