/**
 * The HPACK Huffman coder (src/server/cmq_hpack.c), for any table of 256 codes that is
 * prefix-free and has no code of ones only. HuffmanTable.dfy shows that the table of
 * RFC 7541 Appendix B is one.
 */
module Huffman {
  import opened Common
  import opened Bits

  const ACC_BITS: nat := 64

  datatype Code = Code(value: nat, len: nat)
  type Table = seq<Code>

  predicate WellSized(t: Table) {
    |t| == 256 && forall s :: 0 <= s < 256 ==> 5 <= t[s].len <= 30 && t[s].value < Pow2(t[s].len)
  }

  function CodeBits(t: Table, s: Byte): BitString
    requires WellSized(t)
  {
    BitsOf(t[s].value, t[s].len)
  }

  ghost predicate PrefixFree(t: Table)
    requires WellSized(t)
  {
    forall a: Byte, b: Byte :: CodeBits(t, a) <= CodeBits(t, b) ==> a == b
  }

  ghost predicate Good(t: Table) {
    WellSized(t) && PrefixFree(t) && forall s: Byte :: !AllOnes(CodeBits(t, s))
  }

  /** The codes of a text, one after the other. */
  function Stream(t: Table, x: seq<Byte>): BitString
    requires WellSized(t)
  {
    if x == [] then [] else Stream(t, x[..|x| - 1]) + CodeBits(t, x[|x| - 1])
  }

  /** These bytes are this text: its codes, then fewer than eight ones. */
  ghost predicate Encodes(t: Table, bytes: seq<Byte>, x: seq<Byte>)
    requires WellSized(t)
  {
    IsStream(t, Unpack(bytes), x)
  }

  ghost predicate IsStream(t: Table, bs: BitString, x: seq<Byte>)
    requires WellSized(t)
  {
    var st := Stream(t, x);
    |st| <= |bs| < |st| + 8 && bs[..|st|] == st && AllOnes(bs[|st|..])
  }

  lemma {:induction false} StreamAppend(t: Table, x: seq<Byte>, y: seq<Byte>)
    requires WellSized(t)
    ensures Stream(t, x + y) == Stream(t, x) + Stream(t, y)
  {
    if y == [] {
      assert x + y == x;
    } else {
      var z := y[..|y| - 1];
      StreamAppend(t, x, z);
      assert (x + y)[..|x + y| - 1] == x + z;
    }
  }

  lemma StreamHead(t: Table, x: seq<Byte>)
    requires WellSized(t) && x != []
    ensures Stream(t, x) == CodeBits(t, x[0]) + Stream(t, x[1..])
  {
    StreamAppend(t, [x[0]], x[1..]);
    assert [x[0]] + x[1..] == x;
    assert Stream(t, [x[0]]) == Stream(t, []) + CodeBits(t, x[0]);
  }

  // ---- arithmetic of the 64-bit accumulator ----

  lemma Regroup(a: int, b: int, q: int, k: int, v: int)
    ensures (a * b) * q + (a * k + v) == (b * q + k) * a + v
  {
  }

  lemma ModMod(x: nat, a: nat, b: nat, m: nat)
    requires a > 0 && b > 0 && m == a * b
    ensures m > 0 && (x % m) % a == x % a
  {
    var q, r := x / m, x % m;
    assert x == m * q + r;
    var k, v := r / a, r % a;
    assert r == a * k + v;
    Regroup(a, b, q, k, v);
    SplitAny(x, a, b * q + k, v);
  }

  lemma SplitAny(x: int, m: nat, k: int, v: nat)
    requires m > 0 && v < m && x == k * m + v
    ensures x % m == v
  {
    DivMod(k, m, v);
  }

  lemma NonNegative(x: int, y: int)
    requires x >= 0 && y >= 0
    ensures x * y >= 0
  {
  }

  lemma Below(v: int, b: int, l: int, code: int)
    requires 0 <= v < b && 0 <= code < l
    ensures 0 <= v * l + code < b * l
  {
    NonNegative(v, l);
    NonNegative(b - 1 - v, l);
    assert (b - 1 - v) * l == b * l - l - v * l;
  }

  lemma Spread(b: int, k: int, v: int, l: int, code: int)
    ensures (b * k + v) * l + code == k * (b * l) + (v * l + code)
  {
  }

  lemma Shifted(acc: int, b: int, l: int, k: int, v: int, code: int)
    requires acc == b * k + v && 0 <= v < b && 0 <= code < l
    ensures b * l > 0 && (acc * l + code) % (b * l) == v * l + code
  {
    Below(v, b, l, code);
    Spread(b, k, v, l, code);
    DivMod(k, b * l, v * l + code);
  }

  lemma Masked(acc: nat, b: nat, l: nat, code: nat, spare: nat, big: nat)
    requires b > 0 && code < l && spare > 0 && big == (b * l) * spare
    ensures big > 0 && b * l > 0 && (acc * l + code) % big % (b * l) == (acc % b) * l + code
  {
    assert acc == b * (acc / b) + acc % b;
    Shifted(acc, b, l, acc / b, acc % b, code);
    NonNegative(acc, l);
    ModMod(acc * l + code, b * l, spare, big);
  }

  /** Appending a code: only the low bits of the unmasked accumulator matter. */
  lemma Accumulate(acc: nat, p: BitString, code: nat, len: nat)
    requires acc % Pow2(|p|) == Val(p) && |p| + len <= ACC_BITS && code < Pow2(len)
    ensures (acc * Pow2(len) + code) % Pow2(ACC_BITS) % Pow2(|p| + len) == Val(p + BitsOf(code, len))
  {
    hide Pow2, Val, BitsOf;
    PowAdd(|p|, len);
    PowAdd(|p| + len, ACC_BITS - |p| - len);
    Masked(acc, Pow2(|p|), Pow2(len), code, Pow2(ACC_BITS - |p| - len), Pow2(ACC_BITS));
    ValOfBits(code, len);
    ValAppend(p, BitsOf(code, len));
  }

  lemma TopDigit(d: int, k: int, q: int, r: int)
    requires 0 <= r < d && 0 <= q < 256
    ensures var x := (d * 256) * k + (q * d + r); x / d % 256 == q && x % d == r
  {
    assert (d * 256) * k + (q * d + r) == (k * 256 + q) * d + r;
    DivMod(k * 256 + q, d, r);
    DivMod(k, 256, q);
  }

  /** Taking the top byte of the pending bits out of the accumulator. */
  lemma TopByte(acc: nat, p: BitString)
    requires acc % Pow2(|p|) == Val(p) && |p| >= 8
    ensures acc / Pow2(|p| - 8) % 256 == Val(p[..8]) && acc % Pow2(|p| - 8) == Val(p[8..])
  {
    hide Pow2, Val;
    var d := Pow2(|p| - 8);
    PowAdd(|p| - 8, 8);
    Pow8();
    ValAppend(p[..8], p[8..]);
    assert p[..8] + p[8..] == p;
    assert acc == Pow2(|p|) * (acc / Pow2(|p|)) + Val(p);
    TopDigit(d, acc / Pow2(|p|), Val(p[..8]), Val(p[8..]));
  }

  // ---- unique decoding ----

  lemma Comparable(a: BitString, b: BitString, s: BitString)
    requires a <= s && b <= s && |a| <= |b|
    ensures a <= b
  {
  }

  /** Two symbols whose codes start the same bits are the same symbol. */
  lemma SameSymbol(t: Table, a: Byte, b: Byte, s: BitString)
    requires Good(t) && CodeBits(t, a) <= s && CodeBits(t, b) <= s
    ensures a == b
  {
    hide CodeBits;
    if |CodeBits(t, a)| <= |CodeBits(t, b)| {
      Comparable(CodeBits(t, a), CodeBits(t, b), s);
    } else {
      Comparable(CodeBits(t, b), CodeBits(t, a), s);
    }
  }

  /** No code starts these bits. */
  ghost predicate NoHead(t: Table, p: BitString)
    requires WellSized(t)
  {
    forall s: Byte :: !(CodeBits(t, s) <= p)
  }

  lemma HasHead(t: Table, p: BitString, s: Byte)
    requires WellSized(t) && CodeBits(t, s) <= p
    ensures !NoHead(t, p)
  {
  }

  /** Bits led by as many ones as a code is long start with no code. */
  lemma OnesStuck(t: Table, p: BitString)
    requires Good(t) && (AllOnes(p) || (|p| >= 30 && AllOnes(p[..30])))
    ensures NoHead(t, p)
  {
    hide CodeBits;
    forall s: Byte ensures !(CodeBits(t, s) <= p) {
      CodeLength(t, s);
      if CodeBits(t, s) <= p {
        PrefixOfOnes(CodeBits(t, s), if AllOnes(p) then p else p[..30]);
        assert false;
      }
    }
  }

  lemma PrefixOfOnes(c: BitString, p: BitString)
    requires c <= p && AllOnes(p)
    ensures AllOnes(c)
  {
  }

  /** After the first part of a text comes the stream of the rest of it. */
  lemma StreamRest(t: Table, bs: BitString, x: seq<Byte>, y: seq<Byte>)
    requires WellSized(t) && IsStream(t, bs, x + y)
    ensures |Stream(t, x)| <= |bs| && IsStream(t, bs[|Stream(t, x)|..], y)
    ensures bs[..|Stream(t, x)|] == Stream(t, x)
  {
    hide Stream;
    StreamAppend(t, x, y);
    var st, a, b := Stream(t, x + y), Stream(t, x), Stream(t, y);
    assert bs[..|st|] == a + b;
    assert bs[..|a|] == bs[..|st|][..|a|];
    assert bs[|a|..][..|b|] == bs[..|st|][|a|..];
    assert bs[|a|..][|b|..] == bs[|st|..];
  }

  /** Bits that start with a code do not start another text. */
  lemma HeadDecides(t: Table, s: Byte, bs: BitString, y: seq<Byte>)
    requires Good(t) && CodeBits(t, s) <= bs && IsStream(t, bs, y)
    ensures y != [] && y[0] == s
  {
    hide Stream, CodeBits;
    if y == [] {
      assert Stream(t, y) == [] by { StreamEmpty(t); }
      assert bs[0..] == bs;
      PrefixOfOnes(CodeBits(t, s), bs);
      assert false;
    } else {
      StreamHead(t, y);
      assert Stream(t, y) <= bs;
      assert CodeBits(t, y[0]) <= Stream(t, y);
      assert CodeBits(t, y[0]) <= bs;
      SameSymbol(t, s, y[0], bs);
    }
  }

  lemma StreamEmpty(t: Table)
    requires WellSized(t)
    ensures Stream(t, []) == []
  {
  }

  /** Whatever has been decoded is a prefix of any text the bits stand for. */
  lemma {:induction false} DecodedIsPrefix(t: Table, bs: BitString, x: seq<Byte>, y: seq<Byte>)
    requires Good(t) && Stream(t, x) <= bs && IsStream(t, bs, y)
    ensures x <= y
  {
    hide CodeBits, IsStream, PrefixFree;
    if x != [] {
      var k := |x| - 1;
      var z := x[..k];
      StreamSnoc(t, x);
      hide Stream;
      DecodedIsPrefix(t, bs, z, y);
      NextSymbol(t, bs, z, x[k], y);
      assert x == z + [y[k]];
    }
  }

  lemma StreamSnoc(t: Table, x: seq<Byte>)
    requires WellSized(t) && x != []
    ensures Stream(t, x) == Stream(t, x[..|x| - 1]) + CodeBits(t, x[|x| - 1])
  {
  }

  lemma NextSymbol(t: Table, bs: BitString, z: seq<Byte>, s: Byte, y: seq<Byte>)
    requires Good(t) && Stream(t, z) + CodeBits(t, s) <= bs && IsStream(t, bs, y) && z <= y
    ensures |z| < |y| && y[|z|] == s
  {
    hide Stream, CodeBits, IsStream, PrefixFree;
    var rest := y[|z|..];
    assert y == z + rest;
    StreamRest(t, bs, z, rest);
    var n := |Stream(t, z)|;
    assert bs[n..][..|CodeBits(t, s)|] == (Stream(t, z) + CodeBits(t, s))[n..];
    HeadDecides(t, s, bs[n..], rest);
  }

  /** Bytes stand for at most one text. */
  lemma EncodesUnique(t: Table, bytes: seq<Byte>, x: seq<Byte>, y: seq<Byte>)
    requires Good(t) && Encodes(t, bytes, x) && Encodes(t, bytes, y)
    ensures x == y
  {
    hide Stream, PrefixFree, Unpack, CodeBits;
    var bs := Unpack(bytes);
    assert Stream(t, x) <= bs && Stream(t, y) <= bs;
    DecodedIsPrefix(t, bs, x, y);
    DecodedIsPrefix(t, bs, y, x);
  }

  /** Where no code starts the next bits, only padding can follow. */
  lemma StuckIsPadding(t: Table, bs: BitString, p: BitString, y: seq<Byte>)
    requires Good(t) && IsStream(t, bs, y) && p <= bs && NoHead(t, p) && (p == bs || |p| >= 30)
    ensures y == []
  {
    hide Stream, CodeBits;
    if y != [] {
      StreamHead(t, y);
      var c := CodeBits(t, y[0]);
      assert c <= Stream(t, y) <= bs;
      assert |c| <= 30 by { CodeLength(t, y[0]); }
      Comparable(c, p, bs);
      assert false;
    }
  }

  lemma CodeLength(t: Table, s: Byte)
    requires WellSized(t)
    ensures 5 <= |CodeBits(t, s)| == t[s].len <= 30
  {
  }

  // ---- the encoder ----

  /** One byte out of the pending bits, as the encoder's inner loop takes it. */
  lemma Emit(done: seq<Byte>, p: BitString, b: Byte)
    requires |p| >= 8 && b == Val(p[..8])
    ensures Unpack(done + [b]) + p[8..] == Unpack(done) + p
  {
    hide Unpack, Val, BitsOf;
    UnpackSnoc(done, b);
    BitsOfVal(p[..8]);
    assert p == p[..8] + p[8..];
  }

  /** The encoder's inner loop: bytes out while eight bits are pending. */
  method Flush(out: array<Byte>, n0: nat, acc: nat, bits0: nat, ghost p0: BitString)
    returns (ok: bool, n: nat, bits: nat, ghost p: BitString)
    requires n0 <= out.Length && |p0| == bits0 && acc % Pow2(bits0) == Val(p0)
    modifies out
    ensures n0 <= n <= out.Length && |p| == bits && acc % Pow2(bits) == Val(p)
    ensures Unpack(out[..n]) + p == old(Unpack(out[..n0])) + p0
    ensures if ok then bits < 8 else bits >= 8 && n == out.Length
  {
    hide Unpack, Val, Pow2;
    n, bits, p, ok := n0, bits0, p0, true;
    while bits >= 8 && ok
      invariant n0 <= n <= out.Length && |p| == bits && acc % Pow2(bits) == Val(p)
      invariant Unpack(out[..n]) + p == old(Unpack(out[..n0])) + p0
      invariant !ok ==> bits >= 8 && n == out.Length
      decreases bits, ok
    {
      if n >= out.Length {
        ok := false;
      } else {
        TopByte(acc, p);
        ghost var done := out[..n];
        out[n] := acc / Pow2(bits - 8) % 256;
        assert out[..n + 1] == done + [out[n]];
        Emit(done, p, out[n]);
        n, bits, p := n + 1, bits - 8, p[8..];
      }
    }
  }

  lemma {:induction false} ValOnes(n: nat)
    ensures Val(Ones(n)) == Pow2(n) - 1
  {
    if n > 0 {
      ValOnes(n - 1);
      ValUnfold(Ones(n));
      assert Ones(n)[..n - 1] == Ones(n - 1);
    }
  }

  /** The last byte: the pending bits, filled up with ones. */
  lemma PadByte(acc: nat, p: BitString, pad: nat)
    requires acc % Pow2(|p|) == Val(p) && |p| + pad == 8
    ensures (acc * Pow2(pad) + (Pow2(pad) - 1)) % Pow2(ACC_BITS) % 256 == Val(p + Ones(pad))
  {
    hide Pow2, Val, BitsOf, Ones;
    ValOnes(pad);
    Pow8();
    Accumulate(acc, p, Pow2(pad) - 1, pad);
    ValOfBits(Pow2(pad) - 1, pad);
    ValInjective(Ones(pad), BitsOf(Pow2(pad) - 1, pad));
  }

  /** The bytes a text takes. */
  ghost function Needed(t: Table, x: seq<Byte>): nat
    requires WellSized(t)
  {
    (|Stream(t, x)| + 7) / 8
  }

  lemma StreamGrows(t: Table, x: seq<Byte>, k: nat)
    requires WellSized(t) && k <= |x|
    ensures |Stream(t, x[..k])| <= |Stream(t, x)|
  {
    StreamAppend(t, x[..k], x[k..]);
    assert x[..k] + x[k..] == x;
  }

  /** The codes of the whole text, in whole bytes and a pending rest. */
  method EncodeCodes(t: Table, input: seq<Byte>, out: array<Byte>)
    returns (ok: bool, n: nat, acc: nat, bits: nat, ghost p: BitString)
    requires WellSized(t)
    modifies out
    ensures ok ==> n <= out.Length && |p| == bits < 8 && acc % Pow2(bits) == Val(p)
    ensures ok ==> Unpack(out[..n]) + p == Stream(t, input)
    ensures !ok ==> |Stream(t, input)| >= 8 * out.Length + 8
  {
    hide Unpack, Val, Pow2, Stream, CodeBits;
    n, acc, bits, p, ok := 0, 0, 0, [], true;
    StreamEmpty(t);
    assert Unpack(out[..0]) + p == Stream(t, input[..0]) by { assert Unpack(out[..0]) == []; }
    assert 0 % Pow2(0) == Val([]) by { EmptyVal(); }
    var i: nat := 0;
    while i < |input| && ok
      invariant i <= |input| && n <= out.Length
      invariant |p| == bits && acc % Pow2(bits) == Val(p)
      invariant Unpack(out[..n]) + p == Stream(t, input[..i])
      invariant if ok then bits < 8 else bits >= 8 && n == out.Length
    {
      var c := input[i];
      var code, len := t[c].value, t[c].len;
      Accumulate(acc, p, code, len);
      acc := (acc * Pow2(len) + code) % Pow2(ACC_BITS);
      p := p + CodeBits(t, c);
      bits := bits + len;
      assert |p| == bits && acc % Pow2(bits) == Val(p) by { CodeLength(t, c); CodeIs(t, c); }
      StreamSnoc(t, input[..i + 1]);
      assert input[..i + 1][..i] == input[..i];
      assert Unpack(out[..n]) + p == Stream(t, input[..i + 1]);
      ok, n, bits, p := Flush(out, n, acc, bits, p);
      i := i + 1;
    }
    StreamGrows(t, input, i);
    assert ok ==> input[..i] == input;
  }

  lemma EmptyVal()
    ensures Val([]) == 0 && Pow2(0) == 1
  {
  }

  lemma CodeIs(t: Table, s: Byte)
    requires WellSized(t)
    ensures CodeBits(t, s) == BitsOf(t[s].value, t[s].len)
  {
  }

  lemma Padded(t: Table, done: seq<Byte>, p: BitString, b: Byte, x: seq<Byte>)
    requires WellSized(t) && 0 < |p| < 8 && b == Val(p + Ones(8 - |p|))
    requires Unpack(done) + p == Stream(t, x)
    ensures Encodes(t, done + [b], x)
  {
    hide Unpack, Val, Stream, Ones, IsStream;
    var ones := Ones(8 - |p|);
    var q := p + ones;
    assert q[..8] == q && q[8..] == [];
    Emit(done, q, b);
    assert Unpack(done + [b]) + [] == Unpack(done + [b]);
    assert Unpack(done) + (p + ones) == (Unpack(done) + p) + ones;
    PaddedStream(t, x, ones);
  }

  lemma PaddedStream(t: Table, x: seq<Byte>, ones: BitString)
    requires WellSized(t) && |ones| < 8 && AllOnes(ones)
    ensures IsStream(t, Stream(t, x) + ones, x)
  {
    hide Stream, AllOnes;
    var bs, n := Stream(t, x) + ones, |Stream(t, x)|;
    assert bs[..n] == Stream(t, x) && bs[n..] == ones;
  }

  lemma Exact(t: Table, done: seq<Byte>, x: seq<Byte>)
    requires WellSized(t) && Unpack(done) == Stream(t, x)
    ensures Encodes(t, done, x)
  {
  }

  lemma StreamNotEmpty(t: Table, x: seq<Byte>)
    requires WellSized(t) && x != []
    ensures |Stream(t, x)| >= 5
  {
    StreamSnoc(t, x);
    CodeLength(t, x[|x| - 1]);
  }

  /**
   * cmq_hpack_huff_encode; 0 stands for its -1. It refuses exactly the empty text, a text
   * over STR_MAX and one that does not fit, and otherwise leaves the encoding in out[..n].
   */
  method HuffEncode(t: Table, input: seq<Byte>, out: array<Byte>) returns (n: nat)
    requires WellSized(t)
    modifies out
    ensures n == 0 <==> input == [] || |input| > STR_MAX || Needed(t, input) > out.Length
    ensures n > 0 ==> n == Needed(t, input) <= out.Length && Encodes(t, out[..n], input)
  {
    hide Unpack, Val, Pow2, Stream, CodeBits, Encodes;
    if input == [] || |input| > STR_MAX { return 0; }
    StreamNotEmpty(t, input);
    var ok, acc, bits;
    ghost var p;
    ok, n, acc, bits, p := EncodeCodes(t, input, out);
    if !ok { return 0; }
    if bits > 0 {
      if n >= out.Length { return 0; }
      var pad := 8 - bits;
      PadByte(acc, p, pad);
      ghost var done := out[..n];
      out[n] := (acc * Pow2(pad) + (Pow2(pad) - 1)) % Pow2(ACC_BITS) % 256;
      Padded(t, done, p, out[n], input);
      assert out[..n + 1] == done + [out[n]];
      n := n + 1;
    } else {
      assert Unpack(out[..n]) + p == Unpack(out[..n]);
      Exact(t, out[..n], input);
    }
  }

  // ---- the decoder ----

  lemma {:induction false} PowMono(a: nat, b: nat)
    requires a <= b
    ensures Pow2(a) <= Pow2(b)
  {
    if a < b { PowMono(a, b - 1); }
  }

  lemma Pow32()
    ensures Pow2(32) == 0x1_0000_0000
  {
    hide Pow2;
    Pow8();
    PowAdd(8, 8);
    PowAdd(16, 16);
  }

  lemma Remainder(v: nat, m: nat)
    requires v < m
    ensures v % m == v
  {
  }

  lemma Untouched(v: nat, n: nat)
    requires v < Pow2(n) && n <= 32
    ensures v % 0x1_0000_0000 % Pow2(n) == v
  {
    hide Pow2;
    PowMono(n, 32);
    Pow32();
    Remainder(v, 0x1_0000_0000);
    Remainder(v, Pow2(n));
  }

  /** The comparison of the symbol scan is the question whether a code starts the bits. */
  lemma Matches(t: Table, s: Byte, acc: nat, p: BitString)
    requires WellSized(t) && acc == Val(p) && |p| >= t[s].len
    ensures var n := t[s].len;
            acc / Pow2(|p| - n) % 0x1_0000_0000 % Pow2(n) == t[s].value <==> CodeBits(t, s) <= p
  {
    hide Val, Pow2, BitsOf;
    var n := t[s].len;
    ValFront(p, n);
    Untouched(Val(p[..n]), n);
    Compared(t, s, p[..n]);
    assert CodeBits(t, s) <= p <==> p[..n] == CodeBits(t, s);
  }

  lemma Compared(t: Table, s: Byte, q: BitString)
    requires WellSized(t) && |q| == t[s].len
    ensures Val(q) == t[s].value <==> q == CodeBits(t, s)
  {
    hide Val, Pow2, BitsOf;
    ValOfBits(t[s].value, t[s].len);
    if Val(q) == t[s].value { ValInjective(q, CodeBits(t, s)); }
  }

  // ---- what the decoder does, on the pending bits ----

  /** The pending bits after a byte joined: only ACC_BITS of them are kept, the others read as zeros. */
  function Clip(q: BitString): (r: BitString)
    ensures |r| == |q|
  {
    if |q| <= ACC_BITS then q else Zeros(|q| - ACC_BITS) + q[|q| - ACC_BITS..]
  }

  /** What a scan over the symbols finds: a code, none, or a shift as wide as the accumulator. */
  datatype Hit = At(symbol: Byte) | Nowhere | Undefined

  /** The scan from one symbol on. */
  function Scan(t: Table, p: BitString, s: nat): Hit
    requires WellSized(t) && s <= 256
    decreases 256 - s
  {
    if s == 256 then Nowhere
    else if |p| < t[s].len then Scan(t, p, s + 1)
    else if |p| - t[s].len >= ACC_BITS then Hit.Undefined
    else if CodeBits(t, s) <= p then At(s)
    else Scan(t, p, s + 1)
  }

  /** What a call comes to: a text, a refusal, or a shift the language leaves undefined. */
  datatype Decoding = Decoded(text: seq<Byte>) | Malformed | Undefined

  /** The text so far and the pending bits, or the end of the call. */
  datatype State = Going(text: seq<Byte>, pending: BitString) | Stopped(outcome: Decoding)

  /** Symbols out while a code starts the pending bits. */
  function Take(t: Table, x: seq<Byte>, p: BitString, cap: nat): State
    requires WellSized(t)
    decreases |p|
  {
    match Scan(t, p, 0)
    case Nowhere => Going(x, p)
    case Undefined => Stopped(Decoding.Undefined)
    case At(s) =>
      if |x| + 1 >= cap || |p| < t[s].len then Stopped(Malformed)
      else Take(t, x + [s], p[t[s].len..], cap)
  }

  /** One more byte. */
  function Feed(t: Table, st: State, c: Byte, cap: nat): State
    requires WellSized(t)
  {
    if st.Stopped? then st else Take(t, st.text, Clip(st.pending + BitsOf(c, 8)), cap)
  }

  /** All bytes in turn. */
  function Run(t: Table, input: seq<Byte>, cap: nat): State
    requires WellSized(t)
  {
    if input == [] then Going([], [])
    else Feed(t, Run(t, input[..|input| - 1], cap), input[|input| - 1], cap)
  }

  /** At the end only padding may be left. */
  function Decode(t: Table, input: seq<Byte>, cap: nat): Decoding
    requires WellSized(t)
  {
    if input == [] || cap == 0 then Malformed
    else
      match Run(t, input, cap)
      case Stopped(o) => o
      case Going(x, p) => if |p| > 7 || !AllOnes(p) || x == [] then Malformed else Decoded(x)
  }

  lemma RunSnoc(t: Table, input: seq<Byte>, i: nat, cap: nat)
    requires WellSized(t) && i < |input|
    ensures Run(t, input[..i + 1], cap) == Feed(t, Run(t, input[..i], cap), input[i], cap)
  {
    assert input[..i + 1][..i] == input[..i];
  }

  // ---- the decoder ----

  /** The scan over the symbols. */
  method FindSymbol(t: Table, acc: nat, bits: nat, ghost p: BitString) returns (s: nat, over: bool)
    requires WellSized(t) && |p| == bits && acc == Val(p)
    ensures s <= 256 && (over ==> s < 256)
    ensures Scan(t, p, 0) == if over then Hit.Undefined else if s == 256 then Nowhere else At(s)
    ensures s < 256 && !over ==> CodeBits(t, s) <= p
  {
    hide Val, Pow2, CodeBits;
    s := 0;
    while s < 256
      invariant s <= 256 && Scan(t, p, 0) == Scan(t, p, s)
    {
      var n := t[s].len;
      if bits >= n {
        if bits - n >= ACC_BITS { return s, true; }
        Matches(t, s, acc, p);
        if acc / Pow2(bits - n) % 0x1_0000_0000 % Pow2(n) == t[s].value { return s, false; }
      }
      s := s + 1;
    }
    return s, false;
  }

  /** Dropping a matched code from the accumulator. */
  lemma DropCode(acc: nat, p: BitString, n: nat)
    requires acc == Val(p) && n <= |p|
    ensures acc % Pow2(|p| - n) == Val(p[n..])
  {
    ValFront(p, n);
  }

  /** What a call of the decoder can come to; Undefined is a shift past the accumulator. */
  datatype Outcome = Text(len: nat) | Refused | Undefined

  /** The decoder's inner loop; a result ends the call. */
  method TakeSymbols(t: Table, acc0: nat, bits0: nat, out: array<Byte>, o0: nat, ghost p0: BitString)
    returns (r: Option<Outcome>, acc: nat, bits: nat, o: nat, ghost p: BitString)
    requires WellSized(t) && |p0| == bits0 && acc0 == Val(p0) && o0 < out.Length
    modifies out
    ensures o < out.Length && |p| == bits && acc == Val(p) && Ends(r)
    ensures Take(t, old(out[..o0]), p0, out.Length) == Came(r, out[..o], p)
  {
    hide Val, Pow2, CodeBits, Scan;
    acc, bits, o, p, r := acc0, bits0, o0, p0, None;
    ghost var goal := Take(t, out[..o0], p0, out.Length);
    var progress := true;
    while progress
      invariant o < out.Length && |p| == bits && acc == Val(p) && Ends(r) && (progress ==> r.None?)
      invariant goal == if progress then Take(t, out[..o], p, out.Length) else Came(r, out[..o], p)
      decreases out.Length - o, progress
    {
      progress := false;
      var s, over := FindSymbol(t, acc, bits, p);
      if over {
        r := Some(Outcome.Undefined);
      } else if s < 256 {
        CodeLength(t, s);
        if o + 1 >= out.Length {
          r := Some(Refused);
        } else {
          var n := t[s].len;
          ghost var x := out[..o];
          out[o] := s;
          assert out[..o + 1] == x + [s];
          o := o + 1;
          DropCode(acc, p, n);
          bits, p := bits - n, p[n..];
          acc := acc % Pow2(bits);
          progress := true;
        }
      }
    }
  }

  predicate Ends(r: Option<Outcome>) { r.None? || !r.value.Text? }

  /** The state a loop has come to. */
  ghost function Came(r: Option<Outcome>, x: seq<Byte>, p: BitString): State {
    if r.None? then Going(x, p) else if r.value.Undefined? then Stopped(Decoding.Undefined) else Stopped(Malformed)
  }

  lemma {:induction false} ValZeros(n: nat)
    ensures Val(Zeros(n)) == 0
  {
    if n > 0 {
      ValZeros(n - 1);
      assert Zeros(n)[..n - 1] == Zeros(n - 1);
    }
  }

  /** Keeping the low bits of the number is reading the high ones as zeros. */
  lemma ClipVal(q: BitString)
    ensures Val(Clip(q)) == Val(q) % Pow2(ACC_BITS)
  {
    hide Val, Pow2, Zeros;
    if |q| <= ACC_BITS {
      PowMono(|q|, ACC_BITS);
      Remainder(Val(q), Pow2(ACC_BITS));
    } else {
      var k := |q| - ACC_BITS;
      assert q == q[..k] + q[k..];
      ValAppend(q[..k], q[k..]);
      DivMod(Val(q[..k]), Pow2(ACC_BITS), Val(q[k..]));
      ValAppend(Zeros(k), q[k..]);
      ValZeros(k);
    }
  }

  /** A byte joins the accumulator, whatever falls out at the top. */
  lemma AppendByte(p: BitString, c: Byte)
    ensures (Val(p) * 256 + c) % Pow2(ACC_BITS) == Val(Clip(p + BitsOf(c, 8)))
  {
    hide Val, Pow2, BitsOf, Clip;
    Pow8();
    ValOfBits(c, 8);
    ValAppend(p, BitsOf(c, 8));
    ClipVal(p + BitsOf(c, 8));
  }

  /** All input bytes in turn. */
  method DecodeBytes(t: Table, input: seq<Byte>, out: array<Byte>)
    returns (r: Option<Outcome>, acc: nat, bits: nat, o: nat, ghost p: BitString)
    requires WellSized(t) && out.Length > 0
    modifies out
    ensures o < out.Length && |p| == bits && acc == Val(p) && Ends(r)
    ensures Run(t, input, out.Length) == Came(r, out[..o], p)
  {
    hide Val, Pow2, CodeBits, Take, Clip, BitsOf;
    acc, bits, o, p, r := 0, 0, 0, [], None;
    EmptyVal();
    assert Run(t, input[..0], out.Length) == Going([], []);
    hide Run;
    var i: nat := 0;
    while i < |input|
      invariant i <= |input| && o < out.Length && |p| == bits && acc == Val(p) && r.None?
      invariant Run(t, input[..i], out.Length) == Going(out[..o], p)
    {
      RunSnoc(t, input, i, out.Length);
      AppendByte(p, input[i]);
      acc := (acc * 256 + input[i]) % Pow2(ACC_BITS);
      bits, p := bits + 8, Clip(p + BitsOf(input[i], 8));
      r, acc, bits, o, p := TakeSymbols(t, acc, bits, out, o, p);
      i := i + 1;
      if r.Some? {
        StoppedStays(t, input, i, out.Length);
        return;
      }
    }
    assert input[..i] == input;
  }

  lemma {:induction false} StoppedStays(t: Table, input: seq<Byte>, i: nat, cap: nat)
    requires WellSized(t) && i <= |input| && Run(t, input[..i], cap).Stopped?
    ensures Run(t, input, cap) == Run(t, input[..i], cap)
    decreases |input| - i
  {
    hide Run, Take;
    if i < |input| {
      RunSnoc(t, input, i, cap);
      StoppedStays(t, input, i + 1, cap);
    } else {
      assert input[..i] == input;
    }
  }

  /** cmq_hpack_huff_decode, with the accumulator of 64 bits and every shift the code makes. */
  method HuffDecode(t: Table, input: seq<Byte>, out: array<Byte>) returns (r: Outcome)
    requires WellSized(t)
    modifies out
    ensures match Decode(t, input, out.Length)
            case Decoded(x) => r == Text(|x|) && |x| < out.Length && out[..|x|] == x && out[|x|] == 0
            case Malformed => r == Refused
            case Undefined => r == Outcome.Undefined
  {
    hide Val, Pow2, CodeBits, Run, AllOnes;
    if |input| == 0 || out.Length == 0 { return Refused; }
    var ended, acc, bits, o;
    ghost var p;
    ended, acc, bits, o, p := DecodeBytes(t, input, out);
    if ended.Some? { return ended.value; }
    if bits > 7 { return Refused; }
    if bits > 0 {
      OnesTest(p, acc);
      if acc % Pow2(bits) != Pow2(bits) - 1 { return Refused; }
    }
    EmptyOnes(p);
    if o == 0 { return Refused; }
    ghost var x := out[..o];
    out[o] := 0;
    assert out[..o] == x;
    return Text(o);
  }

  lemma EmptyOnes(p: BitString)
    ensures p == [] ==> AllOnes(p)
  {
  }

  lemma OnesTest(p: BitString, acc: nat)
    requires acc == Val(p)
    ensures acc % Pow2(|p|) == Pow2(|p|) - 1 <==> AllOnes(p)
  {
    hide Pow2, Val;
    Remainder(acc, Pow2(|p|));
    ValOnes(|p|);
    if Val(p) == Pow2(|p|) - 1 {
      ValInjective(p, Ones(|p|));
    } else if AllOnes(p) {
      OnesIs(p);
      assert false;
    }
  }

  lemma OnesIs(p: BitString)
    requires AllOnes(p)
    ensures p == Ones(|p|)
  {
  }

  // ---- when the decoder follows its input ----

  /** What has been read so far is the decoded text and the pending bits. */
  ghost predicate Reading(t: Table, bs: BitString, x: seq<Byte>, p: BitString)
    requires WellSized(t)
  {
    bs == Stream(t, x) + p
  }

  /** These bits start with the codes of a text that does not fit the buffer. */
  ghost predicate TooLong(t: Table, bs: BitString, cap: nat)
    requires WellSized(t)
  {
    exists x: seq<Byte> :: |x| >= cap && Stream(t, x) <= bs
  }

  /** The decoder has read exactly the input: all its bits are in the text or pending. */
  ghost predicate Follows(t: Table, input: seq<Byte>, cap: nat, st: State)
    requires WellSized(t)
  {
    match st
    case Going(x, p) => |x| < cap && Reading(t, Unpack(input), x, p) && NoHead(t, p)
    case Stopped(o) => o == Malformed && TooLong(t, Unpack(input), cap)
  }

  /**
   * Before byte i, after the codes of a text that fits, more bits are pending than leave
   * room for the byte, and no code starts them.
   */
  ghost predicate OverrunAt(t: Table, input: seq<Byte>, cap: nat, i: nat, x: seq<Byte>, p: BitString)
    requires WellSized(t)
  {
    i < |input| && |x| < cap && Reading(t, Unpack(input[..i]), x, p) && NoHead(t, p) && |p| > ACC_BITS - 8
  }

  ghost predicate Overruns(t: Table, input: seq<Byte>, cap: nat)
    requires WellSized(t)
  {
    exists i: nat, x: seq<Byte>, p: BitString :: OverrunAt(t, input, cap, i, x, p)
  }

  lemma {:induction false} ScanIs(t: Table, p: BitString, s: nat)
    requires WellSized(t) && s <= 256 && |p| < ACC_BITS + 5
    ensures match Scan(t, p, s)
            case Undefined => false
            case At(a) => CodeBits(t, a) <= p
            case Nowhere => forall a: Byte :: s <= a ==> !(CodeBits(t, a) <= p)
    decreases 256 - s
  {
    hide CodeBits;
    if s < 256 {
      ScanIs(t, p, s + 1);
      CodeLength(t, s);
    }
  }

  /** The scan finds the symbol whose code starts the bits. */
  lemma ScanFinds(t: Table, p: BitString, s: Byte)
    requires Good(t) && |p| < ACC_BITS + 5 && CodeBits(t, s) <= p
    ensures Scan(t, p, 0) == At(s)
  {
    hide Scan, CodeBits;
    ScanIs(t, p, 0);
    if Scan(t, p, 0).At? { SameSymbol(t, Scan(t, p, 0).symbol, s, p); }
  }

  lemma ScanStuck(t: Table, p: BitString)
    requires WellSized(t) && |p| < ACC_BITS + 5
    ensures Scan(t, p, 0) == Nowhere <==> NoHead(t, p)
  {
    hide Scan, CodeBits;
    ScanIs(t, p, 0);
  }

  lemma TakeSymbol(t: Table, bs: BitString, x: seq<Byte>, p: BitString, s: Byte)
    requires WellSized(t) && Reading(t, bs, x, p) && CodeBits(t, s) <= p
    ensures t[s].len <= |p| && Reading(t, bs, x + [s], p[t[s].len..])
  {
    hide Stream, CodeBits;
    CodeLength(t, s);
    var n := t[s].len;
    StreamSnoc(t, x + [s]);
    assert (x + [s])[..|x|] == x;
    assert p == CodeBits(t, s) + p[n..];
  }

  /** Taking symbols off bits that are the input's keeps them so. */
  lemma {:induction false} TakeFollows(t: Table, input: seq<Byte>, x: seq<Byte>, p: BitString, cap: nat)
    requires WellSized(t) && |p| < ACC_BITS + 5 && |x| < cap && Reading(t, Unpack(input), x, p)
    ensures Follows(t, input, cap, Take(t, x, p, cap))
    decreases |p|
  {
    hide Scan, CodeBits, Reading, Unpack, NoHead, Stream;
    ScanIs(t, p, 0);
    ScanStuck(t, p);
    if Scan(t, p, 0).At? {
      var s := Scan(t, p, 0).symbol;
      CodeLength(t, s);
      TakeSymbol(t, Unpack(input), x, p, s);
      if |x| + 1 >= cap {
        TooLongIs(t, Unpack(input), x + [s], p[t[s].len..], cap);
      } else {
        TakeFollows(t, input, x + [s], p[t[s].len..], cap);
      }
    }
  }

  lemma TooLongIs(t: Table, bs: BitString, x: seq<Byte>, p: BitString, cap: nat)
    requires WellSized(t) && Reading(t, bs, x, p) && |x| >= cap
    ensures TooLong(t, bs, cap)
  {
    hide Stream;
    assert Stream(t, x) <= bs;
  }

  lemma ByteJoins(input: seq<Byte>, i: nat, st: BitString, p: BitString)
    requires i < |input| && Unpack(input[..i]) == st + p
    ensures Unpack(input[..i + 1]) == st + (p + BitsOf(input[i], 8))
  {
    hide BitsOf, Unpack;
    assert input[..i + 1] == input[..i] + [input[i]];
    UnpackSnoc(input[..i], input[i]);
    assert (st + p) + BitsOf(input[i], 8) == st + (p + BitsOf(input[i], 8));
  }

  lemma {:induction false} UnpackPrefix(input: seq<Byte>, i: nat)
    requires i <= |input|
    ensures Unpack(input[..i]) <= Unpack(input)
    decreases |input| - i
  {
    if i == |input| {
      assert input[..i] == input;
    } else {
      UnpackPrefix(input, i + 1);
      assert input[..i + 1] == input[..i] + [input[i]];
      UnpackSnoc(input[..i], input[i]);
    }
  }

  /** A text too long for the bytes so far stays too long. */
  lemma TooLongStays(t: Table, input: seq<Byte>, i: nat, j: nat, cap: nat)
    requires WellSized(t) && i <= j <= |input| && TooLong(t, Unpack(input[..i]), cap)
    ensures TooLong(t, Unpack(input[..j]), cap)
  {
    hide Stream, Unpack;
    UnpackPrefix(input[..j], i);
    assert input[..j][..i] == input[..i];
    var x: seq<Byte> :| |x| >= cap && Stream(t, x) <= Unpack(input[..i]);
    assert Stream(t, x) <= Unpack(input[..j]);
  }

  lemma NothingRead(t: Table, input: seq<Byte>, cap: nat)
    requires WellSized(t) && cap > 0
    ensures Run(t, input[..0], cap) == Going([], []) && Follows(t, input[..0], cap, Going([], []))
  {
    hide CodeBits;
    forall s: Byte ensures !(CodeBits(t, s) <= []) { CodeLength(t, s); }
  }

  /** As long as no byte overruns the accumulator the decoder follows its input. */
  lemma {:induction false} RunFollows(t: Table, input: seq<Byte>, i: nat, cap: nat)
    requires WellSized(t) && cap > 0 && i <= |input|
    requires forall k: nat, x: seq<Byte>, p: BitString :: k < i ==> !OverrunAt(t, input, cap, k, x, p)
    ensures Follows(t, input[..i], cap, Run(t, input[..i], cap))
    decreases i
  {
    hide Run, CodeBits, Unpack, NoHead, Stream, Take, OverrunAt, BitsOf;
    if i == 0 {
      NothingRead(t, input, cap);
    } else {
      RunFollows(t, input, i - 1, cap);
      RunSnoc(t, input, i - 1, cap);
      var st := Run(t, input[..i - 1], cap);
      if st.Stopped? {
        TooLongStays(t, input, i - 1, i, cap);
      } else {
        NotOverrun(t, input, cap, i - 1, st.text, st.pending);
        ByteJoins(input, i - 1, Stream(t, st.text), st.pending);
        TakeFollows(t, input[..i], st.text, st.pending + BitsOf(input[i - 1], 8), cap);
      }
    }
  }

  lemma NotOverrun(t: Table, input: seq<Byte>, cap: nat, i: nat, x: seq<Byte>, p: BitString)
    requires WellSized(t) && !OverrunAt(t, input, cap, i, x, p)
    requires i < |input| && |x| < cap && Reading(t, Unpack(input[..i]), x, p) && NoHead(t, p)
    ensures |p| + 8 <= ACC_BITS
  {
  }

  // ---- agreement with the code of the table ----

  /** No text that fits a buffer of this size, with its terminator, has this encoding. */
  ghost predicate NoText(t: Table, input: seq<Byte>, cap: nat)
    requires WellSized(t)
  {
    forall y: seq<Byte> :: Encodes(t, input, y) ==> y == [] || |y| >= cap
  }

  /** What the standard wants: the text that fits if the input encodes one, else a refusal. */
  ghost predicate Conforms(t: Table, input: seq<Byte>, cap: nat, d: Decoding)
    requires WellSized(t)
  {
    match d
    case Decoded(x) => 0 < |x| < cap && Encodes(t, input, x)
    case Malformed => NoText(t, input, cap)
    case Undefined => false
  }

  /** A text that some longer input stands for starts with what has been decoded. */
  lemma ReadingPrefix(t: Table, input: seq<Byte>, i: nat, x: seq<Byte>, p: BitString, y: seq<Byte>)
    requires Good(t) && i <= |input| && Reading(t, Unpack(input[..i]), x, p) && Encodes(t, input, y)
    ensures x <= y
    ensures p <= Unpack(input)[|Stream(t, x)|..]
  {
    hide Stream, CodeBits, PrefixFree, IsStream, Unpack;
    UnpackPrefix(input, i);
    PrefixParts(Stream(t, x), p, Unpack(input));
    DecodedIsPrefix(t, Unpack(input), x, y);
  }

  lemma PrefixParts(a: BitString, b: BitString, s: BitString)
    requires a + b <= s
    ensures a <= s && b <= s[|a|..]
  {
    assert s[..|a|] == (a + b)[..|a|] == a;
    assert s[|a|..][..|b|] == (a + b)[|a|..] == b;
  }

  /** Once no code starts the pending bits, the text is over if they are long enough to tell. */
  lemma Stuck(t: Table, input: seq<Byte>, i: nat, x: seq<Byte>, p: BitString, y: seq<Byte>)
    requires Good(t) && i <= |input| && Reading(t, Unpack(input[..i]), x, p) && Encodes(t, input, y)
    requires NoHead(t, p) && (i == |input| || |p| >= 30)
    ensures i == |input| ==> y == x && |p| < 8 && AllOnes(p)
    ensures |p| < 30
  {
    hide Stream, CodeBits, PrefixFree, NoHead;
    ReadingPrefix(t, input, i, x, p, y);
    var rest, bs, n := y[|x|..], Unpack(input), |Stream(t, x)|;
    assert y == x + rest;
    StreamRest(t, bs, x, rest);
    if i == |input| {
      assert input[..i] == input;
      assert p == bs[n..];
    }
    StuckIsPadding(t, bs[n..], p, rest);
    StreamEmpty(t);
    assert bs[n..][0..] == bs[n..];
  }

  /** An input that overruns the accumulator is the encoding of nothing. */
  lemma OverrunIsNoText(t: Table, input: seq<Byte>, cap: nat, y: seq<Byte>)
    requires Good(t) && Overruns(t, input, cap)
    ensures !Encodes(t, input, y)
  {
    hide Encodes, Reading, PrefixFree, CodeBits, NoHead, Unpack, Stream;
    var i: nat, x: seq<Byte>, p: BitString :| OverrunAt(t, input, cap, i, x, p);
    if Encodes(t, input, y) { Stuck(t, input, i, x, p, y); }
  }

  lemma TooLongRefuses(t: Table, input: seq<Byte>, cap: nat)
    requires Good(t) && TooLong(t, Unpack(input), cap)
    ensures NoText(t, input, cap)
  {
    hide Stream, PrefixFree, CodeBits, IsStream, Unpack;
    var x: seq<Byte> :| |x| >= cap && Stream(t, x) <= Unpack(input);
    forall y | Encodes(t, input, y) ensures |y| >= cap {
      DecodedIsPrefix(t, Unpack(input), x, y);
    }
  }

  lemma StuckRefuses(t: Table, input: seq<Byte>, x: seq<Byte>, p: BitString, cap: nat)
    requires Good(t) && Reading(t, Unpack(input), x, p) && NoHead(t, p)
    requires |p| >= 8 || !AllOnes(p) || x == []
    ensures NoText(t, input, cap)
  {
    hide Encodes, Reading, PrefixFree, CodeBits, NoHead, Unpack, Stream, AllOnes;
    assert input[..|input|] == input;
    forall y | Encodes(t, input, y) ensures y == [] {
      Stuck(t, input, |input|, x, p, y);
    }
  }

  lemma StuckAccepts(t: Table, input: seq<Byte>, x: seq<Byte>, p: BitString)
    requires WellSized(t) && Reading(t, Unpack(input), x, p) && |p| < 8 && AllOnes(p)
    ensures Encodes(t, input, x)
  {
    hide Unpack, Stream;
  }

  lemma NothingIsNoText(t: Table, input: seq<Byte>, cap: nat)
    requires WellSized(t) && (input == [] || cap == 0)
    ensures NoText(t, input, cap)
  {
    hide Stream;
    forall y | Encodes(t, input, y) ensures y == [] || |y| >= cap {
      if input == [] && y != [] { StreamNotEmpty(t, y); }
    }
  }

  /** Unless a byte overruns the accumulator, the decoder answers as the standard wants. */
  lemma DecodeConforms(t: Table, input: seq<Byte>, cap: nat)
    requires Good(t) && !Overruns(t, input, cap)
    ensures Conforms(t, input, cap, Decode(t, input, cap))
  {
    hide Run, CodeBits, PrefixFree, Unpack, NoHead, Stream, OverrunAt, Encodes, Reading, NoText, TooLong, AllOnes;
    if input == [] || cap == 0 {
      NothingIsNoText(t, input, cap);
    } else {
      RunFollows(t, input, |input|, cap);
      assert input[..|input|] == input;
      var st := Run(t, input, cap);
      if st.Stopped? {
        TooLongRefuses(t, input, cap);
      } else if |st.pending| > 7 || !AllOnes(st.pending) || st.text == [] {
        StuckRefuses(t, input, st.text, st.pending, cap);
      } else {
        StuckAccepts(t, input, st.text, st.pending);
      }
    }
  }

  /** Whatever a text's encoding, the decoder gives the text back if it fits. */
  lemma DecodesEncoding(t: Table, input: seq<Byte>, x: seq<Byte>, cap: nat)
    requires Good(t) && Encodes(t, input, x) && 0 < |x| < cap
    ensures Decode(t, input, cap) == Decoded(x)
  {
    hide Decode, Encodes, PrefixFree, CodeBits, Overruns;
    if Overruns(t, input, cap) {
      OverrunIsNoText(t, input, cap, x);
      assert false;
    }
    DecodeConforms(t, input, cap);
    var d := Decode(t, input, cap);
    if d.Decoded? { EncodesUnique(t, input, x, d.text); }
  }
}
