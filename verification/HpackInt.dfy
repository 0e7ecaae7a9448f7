/** The HPACK integer codec, RFC 7541 section 5.1 (src/server/cmq_hpack.c). */
module HpackInt {
  import opened Common
  import opened Bits

  const INT_LIMIT: nat := 0x10_0000   // 1 << 20

  /** 2^nbits - 1 for the prefix sizes the format allows. */
  function MaxPrefix(nbits: nat): (m: nat)
    requires 1 <= nbits <= 8
  {
    match nbits
    case 1 => 1 case 2 => 3 case 3 => 7 case 4 => 15 case 5 => 31 case 6 => 63 case 7 => 127 case _ => 255
  }

  /** The high bits around the prefix leave the prefix itself clear. */
  predicate HighBitsOk(hi: Byte, nbits: nat)
    requires 1 <= nbits <= 8
  {
    hi % (MaxPrefix(nbits) + 1) == 0
  }

  /** High bits and a prefix value share a byte without a carry. */
  lemma FirstByte(hi: Byte, nbits: nat, v: nat)
    requires 1 <= nbits <= 8 && HighBitsOk(hi, nbits) && v <= MaxPrefix(nbits)
    ensures hi + v < 256 && (hi + v) % (MaxPrefix(nbits) + 1) == v
  {
    var d := MaxPrefix(nbits) + 1;
    assert 256 % d == 0;
    NoCarry(hi, d, v);
  }

  lemma NoCarry(hi: nat, d: nat, v: nat)
    requires d > 0 && hi < 256 && hi % d == 0 && 256 % d == 0 && v < d
    ensures hi + v < 256 && (hi + v) % d == v
  {
    var q, n := hi / d, 256 / d;
    assert hi == q * d && 256 == n * d;
    assert q >= n ==> (q - n) * d >= 0;
    assert (q - n + 1) * d == hi - 256 + d;
    assert q < n ==> (q - n + 1) * d <= 0;
    DivMod(q, d, v);
  }

  /** The continuation bytes: seven bits each, low first. */
  function Tail(v: nat): seq<Byte> {
    if v >= 128 then [v % 128 + 128] + Tail(v / 128) else [v]
  }

  function EncodeInt(v: nat, nbits: nat, hi: Byte): seq<Byte>
    requires 1 <= nbits <= 8 && HighBitsOk(hi, nbits)
  {
    FirstByte(hi, nbits, MaxPrefix(nbits));
    if v < MaxPrefix(nbits) then
      FirstByte(hi, nbits, v);
      [hi + v]
    else [hi + MaxPrefix(nbits)] + Tail(v - MaxPrefix(nbits))
  }

  datatype Decoded = Decoded(value: nat, consumed: nat)

  /** 2^(7k): the k-th continuation byte is shifted by 7 * k bits. */
  function Shift(k: nat): nat
    requires k <= 4
  {
    match k
    case 0 => 1 case 1 => 0x80 case 2 => 0x4000 case 3 => 0x20_0000 case _ => 0x1000_0000
  }

  /** The decoder's loop: v so far, k continuation bytes read, next byte at n. */
  function DecodeTail(s: seq<Byte>, n: nat, v: nat, k: nat): Option<Decoded>
    requires k <= 4
    decreases 4 - k
  {
    if n >= |s| then None
    else
      var add := s[n] % 128 * Shift(k) % (UINT32_MAX + 1);
      if v > (INT_LIMIT - add) % (UINT32_MAX + 1) then None
      else
        var v' := (v + add) % (UINT32_MAX + 1);
        if k + 1 > 4 then None
        else if s[n] < 128 then (if v' > INT_LIMIT then None else Some(Decoded(v', n + 1)))
        else DecodeTail(s, n + 1, v', k + 1)
  }

  function DecodeInt(s: seq<Byte>, nbits: nat): Option<Decoded>
    requires 1 <= nbits <= 8
  {
    if s == [] then None
    else
      var v := s[0] % (MaxPrefix(nbits) + 1);
      if v < MaxPrefix(nbits) then Some(Decoded(v, 1)) else DecodeTail(s, 1, v, 0)
  }

  // ---- the meaning of the format ----

  /** Where the continuation bytes from n end: one past the first byte below 128. */
  function End(s: seq<Byte>, n: nat): Option<nat>
    decreases |s| - n
  {
    if n >= |s| then None else if s[n] < 128 then Some(n + 1) else End(s, n + 1)
  }

  /** The number the continuation bytes from n spell. */
  function Spelled(s: seq<Byte>, n: nat): nat
    requires End(s, n).Some?
    decreases |s| - n
  {
    s[n] % 128 + (if s[n] < 128 then 0 else 128 * Spelled(s, n + 1))
  }

  lemma {:induction false} EndAfter(s: seq<Byte>, n: nat)
    requires End(s, n).Some?
    ensures n < End(s, n).value <= |s|
    decreases |s| - n
  {
    if s[n] >= 128 { EndAfter(s, n + 1); }
  }

  /** One turn of the loop without the modular arithmetic: nothing wraps but the limit test. */
  lemma OneTurn(s: seq<Byte>, n: nat, v: nat, k: nat)
    requires k < 4 && n < |s| && v <= INT_LIMIT + Shift(k)
    ensures var add := s[n] % 128 * Shift(k);
            && add + Shift(k) <= Shift(k + 1)
            && DecodeTail(s, n, v, k) ==
               if add <= INT_LIMIT < v + add then None
               else if s[n] < 128 then (if v + add > INT_LIMIT then None else Some(Decoded(v + add, n + 1)))
               else DecodeTail(s, n + 1, v + add, k + 1)
  {
    AddBound(s[n] % 128, k);
    NoWrap(s[n] % 128 * Shift(k), v);
    hide Shift;
  }

  lemma AddBound(b: nat, k: nat)
    requires b < 128 && k < 4
    ensures b * Shift(k) + Shift(k) <= Shift(k + 1) <= 0x1000_0000
  {
    match k { case 0 => case 1 => case 2 => case _ => }
  }

  lemma NoWrap(add: nat, v: nat)
    requires add <= 0x1000_0000 && v <= 0x2000_0000
    ensures add % (UINT32_MAX + 1) == add && (v + add) % (UINT32_MAX + 1) == v + add
    ensures (INT_LIMIT - add) % (UINT32_MAX + 1) == if add <= INT_LIMIT then INT_LIMIT - add else
            INT_LIMIT - add + UINT32_MAX + 1
  {
  }

  /** Once past the limit the unsigned test may still let bytes through, but nothing is accepted. */
  lemma {:induction false} Doomed(s: seq<Byte>, n: nat, v: nat, k: nat)
    requires k <= 4 && INT_LIMIT < v <= INT_LIMIT + Shift(k)
    ensures DecodeTail(s, n, v, k) == None
    decreases 4 - k
  {
    if n < |s| && k < 4 {
      OneTurn(s, n, v, k);
      var add := s[n] % 128 * Shift(k);
      hide DecodeTail, Shift;
      if s[n] >= 128 && add > INT_LIMIT {
        Doomed(s, n + 1, v + add, k + 1);
      }
    }
  }

  lemma SpelledStep(s: seq<Byte>, n: nat, k: nat)
    requires k < 4 && End(s, n).Some?
    ensures Shift(k) * Spelled(s, n) ==
            s[n] % 128 * Shift(k) + if s[n] < 128 then 0 else Shift(k + 1) * Spelled(s, n + 1)
  {
    match k { case 0 => case 1 => case 2 => case _ => }
  }

  /**
   * The decoder's loop is exact: it accepts a terminated group of at most four bytes in all
   * whose value stays within the limit, returns that value, and refuses everything else.
   */
  lemma {:induction false} TailExact(s: seq<Byte>, n: nat, v: nat, k: nat)
    requires k <= 4 && v <= INT_LIMIT
    ensures DecodeTail(s, n, v, k) ==
            if End(s, n).Some? && k + (End(s, n).value - n) <= 4 && v + Shift(k) * Spelled(s, n) <= INT_LIMIT
            then Some(Decoded(v + Shift(k) * Spelled(s, n), End(s, n).value)) else None
    decreases 4 - k
  {
    if End(s, n).Some? { EndAfter(s, n); }
    if n < |s| && k < 4 {
      var add := s[n] % 128 * Shift(k);
      OneTurn(s, n, v, k);
      if End(s, n).Some? { SpelledStep(s, n, k); }
      hide DecodeTail, Shift;
      if s[n] >= 128 {
        if v + add > INT_LIMIT {
          Doomed(s, n + 1, v + add, k + 1);
        } else {
          TailExact(s, n + 1, v + add, k + 1);
        }
      }
    }
  }

  /** Decoding, exactly: prefix values directly, longer ones as the continuation bytes spell. */
  lemma DecodeIntExact(s: seq<Byte>, nbits: nat)
    requires 1 <= nbits <= 8 && s != []
    ensures var m := MaxPrefix(nbits); var v := s[0] % (m + 1);
            DecodeInt(s, nbits) ==
            if v < m then Some(Decoded(v, 1))
            else if End(s, 1).Some? && End(s, 1).value <= 5 && m + Spelled(s, 1) <= INT_LIMIT
            then Some(Decoded(m + Spelled(s, 1), End(s, 1).value)) else None
  {
    TailExact(s, 1, MaxPrefix(nbits), 0);
  }

  lemma {:induction false} TailSpells(a: seq<Byte>, v: nat, t: seq<Byte>)
    ensures var s := a + Tail(v) + t;
            End(s, |a|) == Some(|a| + |Tail(v)|) && Spelled(s, |a|) == v
    decreases v
  {
    var s := a + Tail(v) + t;
    if v >= 128 {
      var b := a + [v % 128 + 128];
      TailSpells(b, v / 128, t);
      assert b + Tail(v / 128) + t == s;
    }
  }

  lemma TailShort(v: nat)
    requires v <= INT_LIMIT
    ensures |Tail(v)| <= 3
  {
    assert v / 128 / 128 < 128;
    if v >= 128 && v / 128 >= 128 { assert |Tail(v / 128 / 128)| == 1; }
  }

  /** Round trip for every value the codec admits, whatever bytes follow. */
  lemma IntRoundTrip(v: nat, nbits: nat, hi: Byte, t: seq<Byte>)
    requires v <= INT_LIMIT && 1 <= nbits <= 8 && HighBitsOk(hi, nbits)
    ensures DecodeInt(EncodeInt(v, nbits, hi) + t, nbits) == Some(Decoded(v, |EncodeInt(v, nbits, hi)|))
  {
    var m := MaxPrefix(nbits);
    var s := EncodeInt(v, nbits, hi) + t;
    DecodeIntExact(s, nbits);
    if v < m {
      FirstByte(hi, nbits, v);
    } else {
      FirstByte(hi, nbits, m);
      TailSpells([hi + m], v - m, t);
      TailShort(v - m);
      assert [hi + m] + Tail(v - m) + t == s;
    }
  }

  /** A larger value can be spelled out, but it is not accepted. */
  lemma IntTooLarge(v: nat, nbits: nat, hi: Byte, t: seq<Byte>)
    requires v > INT_LIMIT && 1 <= nbits <= 8 && HighBitsOk(hi, nbits)
    ensures DecodeInt(EncodeInt(v, nbits, hi) + t, nbits) == None
  {
    var m := MaxPrefix(nbits);
    var s := EncodeInt(v, nbits, hi) + t;
    DecodeIntExact(s, nbits);
    FirstByte(hi, nbits, m);
    TailSpells([hi + m], v - m, t);
    assert [hi + m] + Tail(v - m) + t == s;
  }

  /** The encoder's loop: continuation bytes from out[from] on, never reaching out[end]. */
  method PutTail(value: nat, out: array<Byte>, from: nat, end: nat) returns (to: nat)
    requires from <= end <= out.Length
    modifies out
    ensures to == 0 <==> from + |Tail(value)| > end
    ensures to != 0 ==> to == from + |Tail(value)| && out[from..to] == Tail(value)
    ensures forall i :: 0 <= i < out.Length && !(from <= i < end) ==> out[i] == old(out[i])
  {
    var v: nat := value;
    to := from;
    while v >= 128
      invariant from <= to <= end
      invariant Tail(value) == out[from..to] + Tail(v)
      invariant forall i :: 0 <= i < out.Length && !(from <= i < end) ==> out[i] == old(out[i])
      decreases v
    {
      if to >= end { return 0; }
      ghost var done := out[from..to];
      out[to] := v % 128 + 128;
      assert out[from..to + 1] == done + [v % 128 + 128];
      assert Tail(v) == [v % 128 + 128] + Tail(v / 128);
      to := to + 1;
      v := v / 128;
    }
    if to >= end { return 0; }
    ghost var done := out[from..to];
    out[to] := v;
    assert out[from..to + 1] == done + [v];
    to := to + 1;
  }

  /** cmq_hpack_int_encode into out[at..at + cap]; 0 is refusal (the code's -1). */
  method IntEncode(value: nat, nbits: nat, hi: Byte, out: array<Byte>, at: nat, cap: nat) returns (n: nat)
    requires at + cap <= out.Length
    modifies out
    ensures n > 0 <==>
            (1 <= nbits <= 8 && value <= INT_LIMIT && HighBitsOk(hi, nbits) && |EncodeInt(value, nbits, hi)| <= cap)
    ensures n > 0 ==> n == |EncodeInt(value, nbits, hi)| && out[at..at + n] == EncodeInt(value, nbits, hi)
    ensures forall i :: 0 <= i < out.Length && !(at <= i < at + cap) ==> out[i] == old(out[i])
  {
    hide MaxPrefix, HighBitsOk, Tail, EncodeInt;
    n := 0;
    if 1 <= nbits <= 8 && value <= INT_LIMIT {
      if HighBitsOk(hi, nbits) && cap >= 1 {
        n := PutInt(value, nbits, hi, out, at, cap);
      } else {
        EncodedParts(value, nbits, hi);
      }
    }
  }

  /** The encoder behind its argument checks. */
  method PutInt(value: nat, nbits: nat, hi: Byte, out: array<Byte>, at: nat, cap: nat) returns (n: nat)
    requires at + cap <= out.Length && cap >= 1 && 1 <= nbits <= 8 && HighBitsOk(hi, nbits)
    modifies out
    ensures n > 0 <==> |EncodeInt(value, nbits, hi)| <= cap
    ensures n > 0 ==> n == |EncodeInt(value, nbits, hi)| && out[at..at + n] == EncodeInt(value, nbits, hi)
    ensures forall i :: 0 <= i < out.Length && !(at <= i < at + cap) ==> out[i] == old(out[i])
  {
    hide MaxPrefix, HighBitsOk, Tail, EncodeInt;
    var maxp := MaxPrefix(nbits);
    EncodedParts(value, nbits, hi);
    if value < maxp {
      out[at] := hi + value;
      n := 1;
      assert out[at..at + n] == [hi + value];
    } else {
      out[at] := hi + maxp;
      var to := PutTail(value - maxp, out, at + 1, at + cap);
      n := 0;
      if to != 0 {
        n := to - at;
        assert out[at..at + n] == [out[at]] + out[at + 1..to];
      }
    }
  }

  lemma EncodedParts(value: nat, nbits: nat, hi: Byte)
    requires 1 <= nbits <= 8
    ensures HighBitsOk(hi, nbits) ==>
              var m := MaxPrefix(nbits);
              && hi + m < 256
              && EncodeInt(value, nbits, hi) == if value < m then [hi + value] else [hi + m] + Tail(value - m)
  {
    if HighBitsOk(hi, nbits) { FirstByte(hi, nbits, MaxPrefix(nbits)); }
  }

  /** cmq_hpack_int_decode: the loop over continuation bytes. */
  method IntDecode(s: seq<Byte>, nbits: nat) returns (r: Option<Decoded>)
    ensures r == if 1 <= nbits <= 8 then DecodeInt(s, nbits) else None
  {
    if nbits < 1 || nbits > 8 || s == [] { return None; }
    var maxp := MaxPrefix(nbits);
    var v: nat := s[0] % (maxp + 1);
    if v < maxp { return Some(Decoded(v, 1)); }
    var n, k := 1, 0;
    while n < |s|
      invariant 1 <= n <= |s| && k <= 4
      invariant DecodeInt(s, nbits) == DecodeTail(s, n, v, k)
    {
      var b := s[n];
      n := n + 1;
      var add := b % 128 * Shift(k) % (UINT32_MAX + 1);
      if v > (INT_LIMIT - add) % (UINT32_MAX + 1) { return None; }
      v := (v + add) % (UINT32_MAX + 1);
      k := k + 1;
      if k > 4 { return None; }
      if b < 128 {
        return if v > INT_LIMIT then None else Some(Decoded(v, n));
      }
    }
    return None;
  }
}
