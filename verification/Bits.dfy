/** Bit strings, most significant bit first, and the numbers they spell. */
module Bits {
  import opened Common

  type BitString = seq<bool>

  function Pow2(n: nat): (p: nat)
    ensures p >= 1
  {
    if n == 0 then 1 else 2 * Pow2(n - 1)
  }

  function Bit(b: bool): nat { if b then 1 else 0 }

  function Val(bs: BitString): (v: nat)
    ensures v < Pow2(|bs|)
  {
    if bs == [] then 0 else 2 * Val(bs[..|bs| - 1]) + Bit(bs[|bs| - 1])
  }

  /** The low n bits of v. */
  function BitsOf(v: nat, n: nat): (bs: BitString)
    ensures |bs| == n
  {
    if n == 0 then [] else BitsOf(v / 2, n - 1) + [v % 2 == 1]
  }

  function Ones(n: nat): (bs: BitString)
    ensures |bs| == n && AllOnes(bs)
  {
    seq(n, i => true)
  }

  function Zeros(n: nat): (bs: BitString)
    ensures |bs| == n
  {
    seq(n, i => false)
  }

  predicate AllOnes(bs: BitString) { forall i :: 0 <= i < |bs| ==> bs[i] }

  lemma {:induction false} PowAdd(a: nat, b: nat)
    ensures Pow2(a + b) == Pow2(a) * Pow2(b)
  {
    if b > 0 { PowAdd(a, b - 1); }
  }

  lemma {:induction false} ValOfBits(v: nat, n: nat)
    requires v < Pow2(n)
    ensures Val(BitsOf(v, n)) == v
  {
    if n > 0 {
      ValOfBits(v / 2, n - 1);
      assert BitsOf(v, n)[..n - 1] == BitsOf(v / 2, n - 1);
    }
  }

  lemma {:induction false} BitsOfVal(bs: BitString)
    ensures BitsOf(Val(bs), |bs|) == bs
  {
    if bs != [] {
      BitsOfVal(bs[..|bs| - 1]);
      assert Val(bs) / 2 == Val(bs[..|bs| - 1]);
    }
  }

  lemma ValInjective(a: BitString, b: BitString)
    requires |a| == |b| && Val(a) == Val(b)
    ensures a == b
  {
    BitsOfVal(a);
    BitsOfVal(b);
  }

  lemma ValUnfold(bs: BitString)
    requires bs != []
    ensures Val(bs) == 2 * Val(bs[..|bs| - 1]) + Bit(bs[|bs| - 1]) && Pow2(|bs|) == 2 * Pow2(|bs| - 1)
  {
  }

  lemma MulStep(x: int, p: int, v: int, b: int)
    ensures 2 * (x * p + v) + b == x * (2 * p) + (2 * v + b)
  {
  }

  lemma {:induction false} ValAppend(a: BitString, b: BitString)
    ensures Val(a + b) == Val(a) * Pow2(|b|) + Val(b)
  {
    if b == [] {
      assert a + b == a;
    } else {
      var c := b[..|b| - 1];
      ValAppend(a, c);
      hide Val, Pow2;
      ValUnfold(b);
      ValUnfold(a + b);
      assert (a + b)[..|a + b| - 1] == a + c;
      MulStep(Val(a), Pow2(|c|), Val(c), Bit(b[|b| - 1]));
    }
  }

  lemma DivMod(q: int, d: int, r: int)
    requires 0 <= r < d
    ensures (q * d + r) / d == q && (q * d + r) % d == r
  {
    var x := q * d + r;
    var e := x / d - q;
    assert x == d * (x / d) + x % d;
    assert d * e == r - x % d;
    assert e >= 1 ==> d * e >= d;
    assert e <= -1 ==> d * e <= -d;
  }

  /** Shifting right by the length of the tail leaves the front, masking leaves the tail. */
  lemma ValFront(bs: BitString, k: nat)
    requires k <= |bs|
    ensures Val(bs) / Pow2(|bs| - k) == Val(bs[..k]) && Val(bs) % Pow2(|bs| - k) == Val(bs[k..])
  {
    hide Val, Pow2;
    ValAppend(bs[..k], bs[k..]);
    assert bs[..k] + bs[k..] == bs;
    DivMod(Val(bs[..k]), Pow2(|bs| - k), Val(bs[k..]));
  }

  /** The bits of a byte string. */
  function Unpack(bytes: seq<Byte>): (bs: BitString)
    ensures |bs| == 8 * |bytes|
  {
    if bytes == [] then [] else Unpack(bytes[..|bytes| - 1]) + BitsOf(bytes[|bytes| - 1], 8)
  }

  lemma UnpackSnoc(bytes: seq<Byte>, b: Byte)
    ensures Unpack(bytes + [b]) == Unpack(bytes) + BitsOf(b, 8)
  {
    assert (bytes + [b])[..|bytes|] == bytes;
  }

  lemma Pow8()
    ensures Pow2(8) == 256
  {
    assert Pow2(4) == 16;
    PowAdd(4, 4);
  }
}
