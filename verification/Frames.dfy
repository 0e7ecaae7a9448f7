/** The wire format: one pure parse of a whole byte stream, and its inverse. */
module Frames {
  import opened Common

  const MAGIC_0: Byte := 0xCA
  const MAGIC_1: Byte := 0xFE
  const VERSION: Byte := 0x01
  const HEADER_LEN: nat := 9

  /** A frame as the parser queues it; magic, version and length are implied. */
  datatype Frame = Frame(flags: Byte, op: Byte, payload: seq<Byte>)

  /** BATCH, PUBLISH, MESSAGE, REQUEST and RESPONSE: the operations that may be compressed. */
  predicate DataOp(op: Byte) {
    op == 0x12 || op == 0x03 || op == 0x09 || op == 0x0F || op == 0x10
  }

  predicate Compressed(flags: Byte) { flags % 2 == 1 }

  function Le32(a: Byte, b: Byte, c: Byte, d: Byte): nat {
    a + 0x100 * b + 0x1_0000 * c + 0x100_0000 * d
  }

  predicate PrefixOk(s: seq<Byte>)
    requires |s| >= 3
  {
    s[0] == MAGIC_0 && s[1] == MAGIC_1 && s[2] == VERSION
  }

  /** What the first bytes of a stream amount to under a payload cap. */
  datatype Head = NeedMore | Bad | Complete(frame: Frame)

  function ParseHead(s: seq<Byte>, cap: nat): Head {
    if |s| < 3 then NeedMore
    else if !PrefixOk(s) then Bad
    else if |s| < HEADER_LEN then NeedMore
    else if Compressed(s[3]) && !DataOp(s[4]) then Bad
    else
      var n := Le32(s[5], s[6], s[7], s[8]);
      if n > cap then Bad
      else if |s| < HEADER_LEN + n then NeedMore
      else Complete(Frame(s[3], s[4], s[HEADER_LEN..HEADER_LEN + n]))
  }

  function WireSize(f: Frame): nat { HEADER_LEN + |f.payload| }

  datatype Parsed = Parsed(frames: seq<Frame>, rest: seq<Byte>, bad: bool)

  /** The reference: parse the whole stream at once, with no buffer and no queue. */
  function ParseAll(s: seq<Byte>, cap: nat): Parsed
    decreases |s|
  {
    match ParseHead(s, cap)
    case NeedMore => Parsed([], s, false)
    case Bad => Parsed([], s, true)
    case Complete(f) =>
      var r := ParseAll(s[WireSize(f)..], cap);
      Parsed([f] + r.frames, r.rest, r.bad)
  }

  function LeBytes(n: nat): seq<Byte>
    requires n <= UINT32_MAX
  {
    [n % 0x100, n / 0x100 % 0x100, n / 0x1_0000 % 0x100, n / 0x100_0000]
  }

  function Encode(f: Frame): seq<Byte>
    requires |f.payload| <= UINT32_MAX
  {
    [MAGIC_0, MAGIC_1, VERSION, f.flags, f.op] + LeBytes(|f.payload|) + f.payload
  }

  /** The frames a receiver with this payload cap takes. */
  predicate Accepts(f: Frame, cap: nat) {
    |f.payload| <= cap && |f.payload| <= UINT32_MAX && (Compressed(f.flags) ==> DataOp(f.op))
  }

  predicate AllAccepted(fs: seq<Frame>, cap: nat) {
    forall i :: 0 <= i < |fs| ==> Accepts(fs[i], cap)
  }

  /** The bytes a sequence of frames occupies on the wire. */
  function Spell(fs: seq<Frame>, cap: nat): seq<Byte>
    requires AllAccepted(fs, cap)
  {
    if fs == [] then [] else Encode(fs[0]) + Spell(fs[1..], cap)
  }

  lemma LeRoundTrip(n: nat)
    requires n <= UINT32_MAX
    ensures var b := LeBytes(n); Le32(b[0], b[1], b[2], b[3]) == n
  {
    var p := n / 0x100;
    var q := p / 0x100;
    assert n == 0x100 * p + n % 0x100;
    assert p == 0x100 * q + p % 0x100;
    assert q == 0x100 * (q / 0x100) + q % 0x100;
    assert n / 0x1_0000 == q && n / 0x100_0000 == q / 0x100;
  }

  lemma LeUnique(a: Byte, b: Byte, c: Byte, d: Byte)
    ensures Le32(a, b, c, d) <= UINT32_MAX
    ensures LeBytes(Le32(a, b, c, d)) == [a, b, c, d]
  {
    var n := Le32(a, b, c, d);
    assert n / 0x100 == b + 0x100 * c + 0x1_0000 * d;
    assert n / 0x1_0000 == c + 0x100 * d;
    assert n / 0x100_0000 == d;
  }

  /** An accepted frame is read back from the front of any stream it starts. */
  lemma HeadOfEncoded(f: Frame, t: seq<Byte>, cap: nat)
    requires Accepts(f, cap)
    ensures ParseHead(Encode(f) + t, cap) == Complete(f)
    ensures (Encode(f) + t)[WireSize(f)..] == t
  {
    LeRoundTrip(|f.payload|);
    var s := Encode(f) + t;
    assert s[5..9] == LeBytes(|f.payload|);
    assert s[5] == s[5..9][0] && s[6] == s[5..9][1] && s[7] == s[5..9][2] && s[8] == s[5..9][3];
    assert s[HEADER_LEN..WireSize(f)] == f.payload;
  }

  /** A complete head is exactly the encoding of its frame. */
  lemma HeadSpelled(s: seq<Byte>, cap: nat)
    requires ParseHead(s, cap).Complete?
    ensures var f := ParseHead(s, cap).frame;
            Accepts(f, cap) && WireSize(f) <= |s| && s == Encode(f) + s[WireSize(f)..]
  {
    LeUnique(s[5], s[6], s[7], s[8]);
    var f := ParseHead(s, cap).frame;
    assert Encode(f) == s[..WireSize(f)];
  }

  lemma HeadFields(s: seq<Byte>, cap: nat)
    requires ParseHead(s, cap).Complete?
    ensures var f := ParseHead(s, cap).frame;
            WireSize(f) <= |s| && f == Frame(s[3], s[4], s[HEADER_LEN..WireSize(f)])
  {
  }

  /** More input never changes a decided head. */
  lemma HeadStable(s: seq<Byte>, t: seq<Byte>, cap: nat)
    ensures ParseHead(s, cap).NeedMore? || ParseHead(s + t, cap) == ParseHead(s, cap)
  {
    if ParseHead(s, cap).Complete? {
      var n := Le32(s[5], s[6], s[7], s[8]);
      assert (s + t)[HEADER_LEN..HEADER_LEN + n] == s[HEADER_LEN..HEADER_LEN + n];
    }
  }

  lemma {:induction false} SpellAppend(fs: seq<Frame>, gs: seq<Frame>, cap: nat)
    requires AllAccepted(fs, cap) && AllAccepted(gs, cap)
    ensures AllAccepted(fs + gs, cap)
    ensures Spell(fs + gs, cap) == Spell(fs, cap) + Spell(gs, cap)
  {
    if fs == [] {
      assert fs + gs == gs;
    } else {
      SpellAppend(fs[1..], gs, cap);
      assert (fs + gs)[1..] == fs[1..] + gs;
    }
  }

  lemma SpellSnoc(fs: seq<Frame>, f: Frame, cap: nat)
    requires AllAccepted(fs, cap) && Accepts(f, cap)
    ensures AllAccepted(fs + [f], cap)
    ensures Spell(fs + [f], cap) == Spell(fs, cap) + Encode(f)
  {
    SpellAppend(fs, [f], cap);
    assert Spell([f], cap) == Encode(f) + Spell([], cap) == Encode(f);
  }

  /** The whole-stream parse reads spelled frames back, whatever follows them. */
  lemma {:induction false} ParseSpelled(fs: seq<Frame>, t: seq<Byte>, cap: nat)
    requires AllAccepted(fs, cap)
    ensures var p := ParseAll(t, cap);
            ParseAll(Spell(fs, cap) + t, cap) == Parsed(fs + p.frames, p.rest, p.bad)
  {
    hide ParseHead, Encode;
    if fs == [] {
      assert Spell(fs, cap) + t == t;
      assert fs + ParseAll(t, cap).frames == ParseAll(t, cap).frames;
    } else {
      var u := Spell(fs[1..], cap) + t;
      ParseSpelled(fs[1..], t, cap);
      HeadOfEncoded(fs[0], u, cap);
      assert Spell(fs, cap) + t == Encode(fs[0]) + u;
      assert [fs[0]] + (fs[1..] + ParseAll(t, cap).frames) == fs + ParseAll(t, cap).frames;
    }
  }

  /** Round trip: a stream of encoded frames parses to those frames, with nothing left over. */
  lemma RoundTrip(fs: seq<Frame>, cap: nat)
    requires AllAccepted(fs, cap)
    ensures ParseAll(Spell(fs, cap), cap) == Parsed(fs, [], false)
  {
    ParseSpelled(fs, [], cap);
    assert Spell(fs, cap) + [] == Spell(fs, cap);
    assert fs + [] == fs;
  }

  /**
   * The bytes of one frame, spelled out: magic 0xCAFE, version 1, flags, operation, the length
   * low byte first and the payload. With bit 0 of the flags set, the frame is taken for five
   * operations and for every other one the stream is bad.
   */
  lemma Layout(flags: Byte, op: Byte, a: Byte, b: Byte, c: Byte, d: Byte, payload: seq<Byte>, cap: nat)
    requires a + 0x100 * b + 0x1_0000 * c + 0x100_0000 * d == |payload| <= cap
    ensures var s := [0xCA, 0xFE, 0x01, flags, op, a, b, c, d] + payload;
            ParseAll(s, cap) ==
            if flags % 2 == 0 || op == 0x03 || op == 0x09 || op == 0x0F || op == 0x10 || op == 0x12
            then Parsed([Frame(flags, op, payload)], [], false) else Parsed([], s, true)
  {
    var s := [0xCA, 0xFE, 0x01, flags, op, a, b, c, d] + payload;
    if Accepts(Frame(flags, op, payload), cap) {
      LeUnique(a, b, c, d);
      assert s == Encode(Frame(flags, op, payload));
      RoundTrip([Frame(flags, op, payload)], cap);
      SpellSnoc([], Frame(flags, op, payload), cap);
      assert [] + [Frame(flags, op, payload)] == [Frame(flags, op, payload)];
      assert Spell([], cap) + s == s;
    }
  }

  /** And back: a parse accounts for every byte it read, and stops where no frame is left. */
  lemma {:induction false} ParseAccounts(s: seq<Byte>, cap: nat)
    ensures var p := ParseAll(s, cap);
            AllAccepted(p.frames, cap) && s == Spell(p.frames, cap) + p.rest &&
            (if p.bad then ParseHead(p.rest, cap).Bad? else ParseHead(p.rest, cap).NeedMore?)
    decreases |s|
  {
    hide ParseHead, Encode;
    match ParseHead(s, cap) {
      case NeedMore =>
      case Bad =>
      case Complete(f) =>
        HeadSpelled(s, cap);
        ParseAccounts(s[WireSize(f)..], cap);
        var r := ParseAll(s[WireSize(f)..], cap);
        assert ([f] + r.frames)[1..] == r.frames;
        assert s == Encode(f) + (Spell(r.frames, cap) + r.rest);
    }
  }

  /** A longer stream parses to more frames, never to others, and stays bad once bad. */
  lemma ParsePrefix(s: seq<Byte>, t: seq<Byte>, cap: nat)
    ensures var p, q := ParseAll(s, cap), ParseAll(s + t, cap);
            p.frames <= q.frames && (p.bad ==> q.bad && q.frames == p.frames)
  {
    hide ParseHead, Spell, AllAccepted;
    var p := ParseAll(s, cap);
    ParseAccounts(s, cap);
    HeadStable(p.rest, t, cap);
    ParseSpelled(p.frames, p.rest + t, cap);
    assert Spell(p.frames, cap) + (p.rest + t) == s + t;
  }

  /** Encoding into a caller's buffer (cmq_frame_encode); 0 means refused. */
  method FrameEncode(buf: array<Byte>, op: Byte, flags: Byte, payload: seq<Byte>) returns (n: nat)
    modifies buf
    ensures n == 0 <==> |payload| > UINT32_MAX || buf.Length < HEADER_LEN + |payload|
    ensures n != 0 ==> n == WireSize(Frame(flags, op, payload))
    ensures n != 0 ==> buf[..n] == Encode(Frame(flags, op, payload))
    ensures buf[n..] == old(buf[..])[n..]
  {
    if |payload| > UINT32_MAX { return 0; }
    var needed := HEADER_LEN + |payload|;
    if buf.Length < needed { return 0; }
    buf[0] := MAGIC_0;
    buf[1] := MAGIC_1;
    buf[2] := VERSION;
    buf[3] := flags;
    buf[4] := op;
    var le := |payload|;
    buf[5] := le % 0x100;
    buf[6] := le / 0x100 % 0x100;
    buf[7] := le / 0x1_0000 % 0x100;
    buf[8] := le / 0x100_0000;
    assert buf[..HEADER_LEN] == [MAGIC_0, MAGIC_1, VERSION, flags, op] + LeBytes(le);
    forall i | 0 <= i < |payload| {
      buf[HEADER_LEN + i] := payload[i];
    }
    assert buf[HEADER_LEN..needed] == payload;
    assert buf[..needed] == buf[..HEADER_LEN] + buf[HEADER_LEN..needed];
    return needed;
  }
}
