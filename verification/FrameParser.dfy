/** The streaming frame parser with its bounded buffers and backpressure (src/proto/cmq_parser.c). */
module Parser {
  import opened Common
  import opened Frames

  const MAX_PAYLOAD: nat := 16 * 1024 * 1024
  const MAX_FRAME_PAYLOAD: nat := MAX_PAYLOAD + 256 * 2 + 65536 + 64
  const QUEUE_MAX: nat := 64
  const BYTES_FACTOR: nat := 2

  /** Sum of the payload lengths in a queue. */
  function PayloadBytes(fs: seq<Frame>): nat {
    if fs == [] then 0 else PayloadBytes(fs[..|fs| - 1]) + |fs[|fs| - 1].payload|
  }

  lemma {:induction false} PayloadBytesHead(fs: seq<Frame>)
    requires fs != []
    ensures PayloadBytes(fs) == |fs[0].payload| + PayloadBytes(fs[1..])
  {
    if |fs| > 1 {
      PayloadBytesHead(fs[..|fs| - 1]);
      assert fs[..|fs| - 1][1..] == fs[1..][..|fs| - 2];
    }
  }

  /** Would the queue refuse this frame for now? */
  predicate Blocked(queue: seq<Frame>, f: Frame, cap: nat) {
    |queue| >= QUEUE_MAX || PayloadBytes(queue) + |f.payload| > BYTES_FACTOR * cap
  }

  /** Frames taken off the front of unread input u0, leaving u1, went to the back of queue q0. */
  ghost predicate Took(q0: seq<Frame>, u0: seq<Byte>, q1: seq<Frame>, u1: seq<Byte>, cap: nat) {
    q0 <= q1 && AllAccepted(q1[|q0|..], cap) && u0 == Spell(q1[|q0|..], cap) + u1
  }

  lemma TookNothing(q: seq<Frame>, u: seq<Byte>, cap: nat)
    ensures Took(q, u, q, u, cap)
  {
    assert q[|q|..] == [];
  }

  lemma TookOne(q0: seq<Frame>, u0: seq<Byte>, q1: seq<Frame>, u1: seq<Byte>, cap: nat)
    requires Took(q0, u0, q1, u1, cap) && ParseHead(u1, cap).Complete?
    ensures var f := ParseHead(u1, cap).frame;
            WireSize(f) <= |u1| && Took(q0, u0, q1 + [f], u1[WireSize(f)..], cap)
  {
    hide ParseHead, Encode, Accepts;
    HeadSpelled(u1, cap);
    var f := ParseHead(u1, cap).frame;
    SpellSnoc(q1[|q0|..], f, cap);
    assert (q1 + [f])[|q0|..] == q1[|q0|..] + [f];
  }

  lemma {:induction false} SpellLength(fs: seq<Frame>, cap: nat)
    requires AllAccepted(fs, cap)
    ensures |Spell(fs, cap)| >= HEADER_LEN * |fs|
  {
    if fs != [] { SpellLength(fs[1..], cap); }
  }

  lemma SpelledHead(fs: seq<Frame>, t: seq<Byte>, cap: nat)
    requires AllAccepted(fs, cap) && fs != []
    ensures ParseHead(Spell(fs, cap) + t, cap).Complete?
  {
    hide ParseHead, Encode;
    assert Accepts(fs[0], cap);
    HeadOfEncoded(fs[0], Spell(fs[1..], cap) + t, cap);
    assert Spell(fs, cap) + t == Encode(fs[0]) + (Spell(fs[1..], cap) + t);
  }

  /** Taking frames loses no byte. */
  lemma TookKeeps(d: seq<Frame>, q0: seq<Frame>, u0: seq<Byte>, q1: seq<Frame>, u1: seq<Byte>, cap: nat)
    requires Took(q0, u0, q1, u1, cap) && AllAccepted(d + q0, cap)
    ensures AllAccepted(d + q1, cap) && Spell(d + q1, cap) + u1 == Spell(d + q0, cap) + u0
  {
    hide ParseHead, Encode, Accepts, AllAccepted, Spell;
    var fs := q1[|q0|..];
    assert d + q1 == d + q0 + fs;
    SpellAppend(d + q0, fs, cap);
  }

  /** Taking frames shrinks the input, and starts only at a complete head. */
  lemma TookShrinks(q0: seq<Frame>, u0: seq<Byte>, q1: seq<Frame>, u1: seq<Byte>, cap: nat)
    requires Took(q0, u0, q1, u1, cap)
    ensures |u1| + HEADER_LEN * |q1| <= |u0| + HEADER_LEN * |q0|
    ensures q1 == q0 ==> u1 == u0
    ensures q1 != q0 ==> ParseHead(u0, cap).Complete?
  {
    hide ParseHead, Encode, Accepts;
    var fs := q1[|q0|..];
    SpellLength(fs, cap);
    if fs != [] {
      SpelledHead(fs, u1, cap);
    }
  }

  /** The parser's answer to feed and drain: frames are queued, nothing to do, dead. */
  datatype Status = Ready | Idle | Fatal

  /** Why the parse loop ended: too few bytes, a bad header, a frame not queued. */
  datatype Stop = Short | Malformed | Refused

  /** The same frames before the same bytes leave the same bytes. */
  lemma SameQueue(fs: seq<Frame>, gs: seq<Frame>, u: seq<Byte>, v: seq<Byte>, cap: nat)
    requires AllAccepted(fs, cap) && AllAccepted(gs, cap)
    ensures fs == gs && Spell(fs, cap) + u == Spell(gs, cap) + v ==> u == v
  {
    hide Spell, AllAccepted;
    if fs == gs && Spell(fs, cap) + u == Spell(gs, cap) + v {
      var n := |Spell(fs, cap)|;
      assert u == (Spell(fs, cap) + u)[n..] && v == (Spell(gs, cap) + v)[n..];
    }
  }

  /** Idle before and idle now: no frame came, and more bytes have not completed one. */
  lemma IdleStep(d: seq<Frame>, q0: seq<Frame>, q1: seq<Frame>, q2: seq<Frame>, u1: seq<Byte>, u2: seq<Byte>,
                 chunk: seq<Byte>, any: bool, r: bool, cap: nat)
    requires AllAccepted(d + q1, cap) && AllAccepted(d + q2, cap) && q0 <= q1 <= q2
    requires Spell(d + q1, cap) + u1 + [] + chunk == Spell(d + q2, cap) + u2 + []
    requires !any <==> q1 == q0 && ParseHead(u1, cap).NeedMore?
    requires !r <==> q2 == q1 && ParseHead(u2, cap).NeedMore?
    ensures !(any || r) <==> q2 == q0 && ParseHead(u2, cap).NeedMore?
  {
    hide Spell, AllAccepted, ParseHead;
    var a, b := Spell(d + q1, cap), Spell(d + q2, cap);
    assert a + u1 + [] + chunk == a + (u1 + chunk);
    assert b + u2 + [] == b + u2;
    SameQueue(d + q1, d + q2, u1 + chunk, u2, cap);
    HeadStable(u1, chunk, cap);
  }

  lemma FlushedKept(d: seq<Frame>, q1: seq<Frame>, q2: seq<Frame>, u1: seq<Byte>, h: seq<Byte>, u2: seq<Byte>, cap: nat)
    requires AllAccepted(d + q1, cap) && AllAccepted(d + q2, cap)
    requires Spell(d + q2, cap) + u2 + [] + [] == Spell(d + q1, cap) + u1 + h
    ensures Spell(d + q1, cap) + u1 + [] + h == Spell(d + q2, cap) + u2 + []
  {
    hide Spell, AllAccepted;
    var a, b := Spell(d + q1, cap), Spell(d + q2, cap);
    assert a + u1 + [] + h == a + u1 + h;
    assert b + u2 + [] + [] == b + u2 + [];
  }

  /** A slice of a slice. */
  lemma SubSlice(b: seq<Byte>, from: nat, to: nat, i: nat, j: nat)
    requires i <= j && from + j <= to <= |b|
    ensures b[from..to][i..j] == b[from + i..from + j]
  {
    var c, d := b[from..to][i..j], b[from + i..from + j];
    assert |c| == |d|;
    assert forall k :: 0 <= k < |d| ==> c[k] == b[from + i + k] == d[k];
  }

  class FrameParser {
    var inbuf: array<Byte>
    var inbufOff: nat
    var inbufLen: nat
    var queue: seq<Frame>
    var queuedBytes: nat
    var pendingError: bool
    var hold: seq<Byte>
    const maxPayload: nat
    const plenty: bool    // allocations never fail

    // History of the connection: every byte handed to Feed, every frame handed to the
    // caller, the bytes a fatal stop threw away, whether an allocation ever failed, and
    // whether more bytes arrived under backpressure than the hold may take.
    ghost var fed: seq<Byte>
    ghost var delivered: seq<Frame>
    ghost var lost: seq<Byte>
    ghost var oom: bool
    ghost var overrun: bool

    ghost function Unread(): seq<Byte>
      requires inbufOff <= inbufLen <= inbuf.Length
      reads this, inbuf
    {
      inbuf[inbufOff..inbufLen]
    }

    /** Bounds of every buffer, and the frames this cap accepts. */
    ghost predicate Core()
      reads this, inbuf
    {
      && 0 < maxPayload <= MAX_FRAME_PAYLOAD
      && 0 < inbuf.Length
      && inbufOff <= inbufLen <= inbuf.Length
      && |Unread()| <= Hard()
      && |hold| <= Hard()
      && |queue| <= QUEUE_MAX
      && queuedBytes == PayloadBytes(queue) <= BYTES_FACTOR * maxPayload
      && AllAccepted(delivered + queue, maxPayload)
      && (plenty ==> !oom)
    }

    /** Bytes the parser has not thrown away, in stream order. */
    ghost function Kept(): seq<Byte>
      requires Core()
      reads this, inbuf
    {
      Spell(delivered + queue, maxPayload) + Unread() + hold
    }

    /**
     * Between calls: frames delivered then queued, the unread input and the hold spell
     * exactly the bytes fed; only a fatal error loses a tail.
     */
    ghost predicate Valid()
      reads this, inbuf
    {
      && Core()
      && fed == Kept() + lost
      && (!pendingError ==> lost == [])
      && (pendingError ==> oom || overrun || ParseHead(Unread(), maxPayload).Bad?)
    }

    /** Nothing the parser holds could still become a frame. */
    ghost predicate Exhausted()
      requires Core()
      reads this, inbuf
    {
      hold == [] && ParseHead(Unread(), maxPayload).NeedMore?
    }

    /** One maximal frame: the bound of the input buffer and of the hold. */
    function Hard(): nat { HEADER_LEN + maxPayload }

    constructor (configured: nat, plenty: bool)
      ensures Valid() && fresh(inbuf) && this.plenty == plenty
      ensures fed == [] && delivered == [] && queue == [] && hold == [] && !pendingError && !oom && !overrun
      ensures maxPayload == if configured == 0 then MAX_PAYLOAD
                            else if configured > MAX_FRAME_PAYLOAD then MAX_FRAME_PAYLOAD else configured
    {
      this.plenty := plenty;
      maxPayload := if configured == 0 then MAX_PAYLOAD
                    else if configured > MAX_FRAME_PAYLOAD then MAX_FRAME_PAYLOAD else configured;
      inbuf := new Byte[1024](_ => 0);
      inbufOff, inbufLen := 0, 0;
      queue, queuedBytes, pendingError, hold := [], 0, false, [];
      fed, delivered, lost, oom, overrun := [], [], [], false, false;
    }

    /** Queue a frame unless backpressure or memory refuses it (cmq_push_frame). */
    method Push(f: Frame) returns (pushed: bool)
      requires Core() && Accepts(f, maxPayload)
      modifies this`queue, this`queuedBytes, this`pendingError, this`oom
      ensures Core()
      ensures pushed ==> !Blocked(old(queue), f, maxPayload)
      ensures pushed ==> queue == old(queue) + [f] && pendingError == old(pendingError) && oom == old(oom)
      ensures pushed ==> |old(queue)| < 64 && PayloadBytes(old(queue)) + |f.payload| <= 2 * maxPayload
      ensures !pushed ==> queue == old(queue)
      ensures !pushed ==> (pendingError && oom) || |queue| == 64 || PayloadBytes(queue) + |f.payload| > 2 * maxPayload
      ensures !pushed && Blocked(queue, f, maxPayload) ==> pendingError == old(pendingError) && oom == old(oom)
      ensures !pushed && !Blocked(queue, f, maxPayload) ==> pendingError && oom
    {
      if |queue| >= QUEUE_MAX { return false; }
      var budget := maxPayload * BYTES_FACTOR;
      if queuedBytes > budget || |f.payload| > budget - queuedBytes { return false; }
      var gotMemory: bool := *;
      if !gotMemory && !plenty {
        pendingError := true;
        oom := true;
        return false;
      }
      assert (queue + [f])[..|queue|] == queue;
      assert delivered + (queue + [f]) == delivered + queue + [f];
      queue := queue + [f];
      queuedBytes := queuedBytes + |f.payload|;
      return true;
    }

    /** Shift the unread bytes to the front of the buffer. */
    method Compact()
      requires Core()
      modifies this`inbufOff, this`inbufLen, inbuf
      ensures Core() && Unread() == old(Unread()) && inbufOff == 0
    {
      var rem := inbufLen - inbufOff;
      forall i | 0 <= i < rem { inbuf[i] := inbuf[inbufOff + i]; }
      assert inbuf[..rem] == old(Unread());
      inbufLen := rem;
      inbufOff := 0;
    }

    /** Copy one complete frame out of the buffer and queue it. */
    method TakeFrame(n: nat) returns (taken: bool)
      requires Core()
      requires inbufLen - inbufOff >= HEADER_LEN + n
      requires var h := ParseHead(Unread(), maxPayload); h.Complete? && |h.frame.payload| == n
      modifies this`queue, this`queuedBytes, this`pendingError, this`oom, this`inbufOff
      ensures Core()
      ensures var f := old(ParseHead(Unread(), maxPayload).frame);
              if taken
              then queue == old(queue) + [f] && Unread() == old(Unread())[WireSize(f)..] &&
                   pendingError == old(pendingError) && oom == old(oom)
              else queue == old(queue) && Unread() == old(Unread()) &&
                   ((pendingError && oom) ||
                    (Blocked(queue, f, maxPayload) && pendingError == old(pendingError) && oom == old(oom)))
    {
      hide ParseHead, Encode, Accepts, AllAccepted, PayloadBytes;
      ghost var s := Unread();
      var f := ReadFrame(n);
      var gotMemory: bool := *;
      if n > 0 && !gotMemory && !plenty {
        pendingError := true;
        oom := true;
        return false;
      }
      taken := Push(f);
      if taken {
        inbufOff := inbufOff + (HEADER_LEN + n);
        assert Unread() == s[WireSize(f)..];
      }
    }

    /** The frame at the front of the buffer. */
    method ReadFrame(n: nat) returns (f: Frame)
      requires Core() && inbufLen - inbufOff >= HEADER_LEN + n
      requires var h := ParseHead(Unread(), maxPayload); h.Complete? && |h.frame.payload| == n
      ensures f == ParseHead(Unread(), maxPayload).frame && Accepts(f, maxPayload) && WireSize(f) == HEADER_LEN + n
    {
      ghost var s := Unread();
      HeadSpelled(s, maxPayload);
      HeadFields(s, maxPayload);
      hide ParseHead, Encode, Accepts, AllAccepted, PayloadBytes;
      f := Frame(inbuf[inbufOff + 3], inbuf[inbufOff + 4], inbuf[inbufOff + HEADER_LEN..inbufOff + HEADER_LEN + n]);
      assert s[3] == inbuf[inbufOff + 3] && s[4] == inbuf[inbufOff + 4];
      SubSlice(inbuf[..], inbufOff, inbufLen, HEADER_LEN, HEADER_LEN + n);
    }

    /** Drain-then-die answer: frames are waiting, or the parser is dead. */
    method HaveFrames(produced: bool) returns (rc: Status)
      ensures rc == if produced || queue != [] then Ready else Fatal
    {
      rc := if produced || queue != [] then Ready else Fatal;
    }

    /** What stopped the parse: too few bytes, or a frame the queue refuses for now. */
    ghost predicate Stalled()
      requires Core()
      reads this, inbuf
    {
      var h := ParseHead(Unread(), maxPayload);
      h.NeedMore? || (h.Complete? && Blocked(queue, h.frame, maxPayload))
    }

    /** Do the first three unread bytes already poison the stream? */
    method PoisonedPrefix() returns (bad: bool)
      requires Core()
      ensures bad ==> ParseHead(Unread(), maxPayload).Bad?
      ensures !bad && inbufLen - inbufOff < HEADER_LEN ==> ParseHead(Unread(), maxPayload).NeedMore?
    {
      return inbufLen - inbufOff >= 3 &&
        (inbuf[inbufOff] != MAGIC_0 || inbuf[inbufOff + 1] != MAGIC_1 || inbuf[inbufOff + 2] != VERSION);
    }

    /** Check a full header and read its length field; None is a fatal header. */
    method ReadHeader() returns (n: Option<nat>)
      requires Core() && inbufLen - inbufOff >= HEADER_LEN
      ensures n.None? <==> ParseHead(Unread(), maxPayload).Bad?
      ensures n.Some? && inbufLen - inbufOff < HEADER_LEN + n.value ==> ParseHead(Unread(), maxPayload).NeedMore?
      ensures n.Some? && inbufLen - inbufOff >= HEADER_LEN + n.value ==>
                var h := ParseHead(Unread(), maxPayload); h.Complete? && |h.frame.payload| == n.value
    {
      var o := inbufOff;
      if inbuf[o] != MAGIC_0 || inbuf[o + 1] != MAGIC_1 { return None; }
      if inbuf[o + 2] != VERSION { return None; }
      if Compressed(inbuf[o + 3]) && !DataOp(inbuf[o + 4]) { return None; }
      var len := Le32(inbuf[o + 5], inbuf[o + 6], inbuf[o + 7], inbuf[o + 8]);
      if len > maxPayload { return None; }
      return Some(len);
    }

    /** The loop over complete frames. */
    method TakeFrames(poisoned: bool) returns (produced: bool, stop: Stop)
      requires Core()
      requires poisoned ==> ParseHead(Unread(), maxPayload).Bad?
      modifies this`queue, this`queuedBytes, this`pendingError, this`oom, this`inbufOff
      ensures Core() && Took(old(queue), old(Unread()), queue, Unread(), maxPayload)
      ensures if produced then |queue| > |old(queue)| else queue == old(queue)
      ensures stop.Malformed? ==> ParseHead(Unread(), maxPayload).Bad?
      ensures stop.Short? && inbufLen - inbufOff >= HEADER_LEN ==> ParseHead(Unread(), maxPayload).NeedMore?
      ensures (pendingError == old(pendingError) && oom == old(oom)) || (stop.Refused? && pendingError && oom)
      ensures stop.Refused? ==> (pendingError && oom) || (queue != [] && Stalled())
      ensures stop.Refused? ==> ParseHead(Unread(), maxPayload).Complete?
    {
      hide ParseHead, Spell, AllAccepted, PayloadBytes, Took;
      TookNothing(queue, Unread(), maxPayload);
      produced := false;
      stop := if poisoned then Malformed else Short;
      while stop.Short? && inbufLen - inbufOff >= HEADER_LEN
        invariant Core() && Took(old(queue), old(Unread()), queue, Unread(), maxPayload)
        invariant if produced then |queue| > |old(queue)| else queue == old(queue)
        invariant stop.Malformed? ==> ParseHead(Unread(), maxPayload).Bad?
        invariant (pendingError == old(pendingError) && oom == old(oom)) || (stop.Refused? && pendingError && oom)
        invariant stop.Refused? ==> (pendingError && oom) || (queue != [] && Stalled())
        invariant stop.Refused? ==> ParseHead(Unread(), maxPayload).Complete?
        decreases inbufLen - inbufOff, stop.Short?
      {
        var n := ReadHeader();
        if n.None? {
          stop := Malformed;
        } else if inbufLen - inbufOff < HEADER_LEN + n.value {
          break;
        } else {
          EmptyNeverBlocks(Unread(), maxPayload);
          TookOne(old(queue), old(Unread()), queue, Unread(), maxPayload);
          var taken := TakeFrame(n.value);
          produced := produced || taken;
          stop := if taken then Short else Refused;
        }
      }
    }

    /** Move complete frames from the buffer to the queue (parser_parse_inbuf). */
    method ParseInbuf() returns (rc: Status)
      requires Core()
      modifies this`queue, this`queuedBytes, this`pendingError, this`oom, this`inbufOff, this`inbufLen, inbuf
      ensures Core() && Took(old(queue), old(Unread()), queue, Unread(), maxPayload)
      ensures !pendingError ==> !old(pendingError) && oom == old(oom) && Stalled()
      ensures pendingError ==> old(pendingError) || oom || ParseHead(Unread(), maxPayload).Bad?
      ensures old(oom) ==> oom
      ensures rc.Fatal? ==> pendingError && queue == []
      ensures rc.Ready? ==> queue != []
      ensures rc.Idle? ==> queue == old(queue) && pendingError == old(pendingError)
      ensures rc.Idle? <==> queue == old(queue) && ParseHead(Unread(), maxPayload).NeedMore?
    {
      hide ParseHead, Spell, AllAccepted, PayloadBytes, Took;
      var bad := PoisonedPrefix();
      var produced, stop := TakeFrames(bad);
      if stop.Short? {
        bad := PoisonedPrefix();
        stop := if bad then Malformed else Short;
      }
      match stop {
        case Malformed =>
          pendingError := true;
          rc := HaveFrames(produced);
        case Refused =>
          rc := HaveFrames(produced);
        case Short =>
          if inbufOff > 0 && (inbufOff >= 4096 || inbufOff * 2 >= inbufLen) {
            Compact();
          }
          rc := if produced then Ready else Idle;
      }
    }

    /** Grow the buffer by doubling (ensure_inbuf). */
    method EnsureInbuf(need: nat) returns (ok: bool)
      requires Core()
      modifies this`inbuf, this`oom
      ensures Core() && Unread() == old(Unread())
      ensures inbuf == old(inbuf) || fresh(inbuf)
      ensures if ok then need <= inbuf.Length && oom == old(oom) else oom || need > SIZE_MAX / 2
    {
      if need <= inbuf.Length { return true; }
      var newCap := inbuf.Length;
      while newCap < need
        invariant inbuf.Length <= newCap && 0 < newCap
        decreases need - newCap
      {
        if newCap > SIZE_MAX / 2 { return false; }
        newCap := newCap * 2;
      }
      var gotMemory: bool := *;
      if !gotMemory && !plenty {
        oom := true;
        return false;
      }
      var grown := Regrow(newCap);
      assert grown[inbufOff..inbufLen] == inbuf[inbufOff..inbufLen];
      inbuf := grown;
      return true;
    }

    /** realloc: a larger buffer that starts with the old one's bytes. */
    method Regrow(newCap: nat) returns (grown: array<Byte>)
      requires inbuf.Length <= newCap
      ensures fresh(grown) && grown.Length == newCap
      ensures forall i :: 0 <= i < inbuf.Length ==> grown[i] == inbuf[i]
    {
      grown := new Byte[newCap](_ => 0);
      forall i | 0 <= i < inbuf.Length { grown[i] := inbuf[i]; }
    }

    method CopyIn(chunk: seq<Byte>)
      requires Core() && |Unread()| + |chunk| <= Hard() && inbufLen + |chunk| <= inbuf.Length
      modifies this`inbufLen, inbuf
      ensures Core() && Unread() == old(Unread()) + chunk
    {
      forall i | 0 <= i < |chunk| { inbuf[inbufLen + i] := chunk[i]; }
      inbufLen := inbufLen + |chunk|;
      assert Unread() == old(Unread()) + chunk;
    }

    /** Copy a chunk behind the unread bytes, making room first. */
    method AppendChunk(chunk: seq<Byte>) returns (ok: bool)
      requires Core() && |Unread()| + |chunk| <= Hard()
      modifies this`inbuf, this`inbufOff, this`inbufLen, this`oom, inbuf
      ensures Core()
      ensures inbuf == old(inbuf) || fresh(inbuf)
      ensures if ok then Unread() == old(Unread()) + chunk && oom == old(oom) else Unread() == old(Unread()) && oom
    {
      hide AllAccepted, PayloadBytes;
      var used := inbufLen - inbufOff;
      if inbufOff > 0 && inbufOff + used + |chunk| > inbuf.Length {
        Compact();
      }
      if inbufLen + |chunk| > inbuf.Length {
        ok := EnsureInbuf(inbufLen + |chunk|);
        if !ok { return; }
      }
      CopyIn(chunk);
      return true;
    }

    /** Park bytes behind the hold (parser_hold_append). */
    method HoldAppend(data: seq<Byte>) returns (ok: bool)
      requires Core()
      modifies this`hold, this`oom, this`overrun
      ensures Core()
      ensures if ok then hold == old(hold) + data && oom == old(oom) && overrun == old(overrun)
              else hold == old(hold) && (oom || (overrun && |hold| + |data| > Hard()))
      ensures old(oom) ==> oom
      ensures old(overrun) ==> overrun
      ensures overrun ==> old(overrun) || |old(hold)| + |data| > Hard()
    {
      if data == [] { return true; }
      if |data| > Hard() - |hold| {
        overrun := true;
        return false;
      }
      var gotMemory: bool := *;
      if !gotMemory && !plenty {
        oom := true;
        return false;
      }
      hold := hold + data;
      return true;
    }

    /** The justification every fatal stop has. */
    ghost predicate Fair(tooMuch: bool)
      requires Core()
      reads this, inbuf
    {
      pendingError ==> oom || (overrun && tooMuch) || ParseHead(Unread(), maxPayload).Bad?
    }

    /** Parse, keeping account of the bytes: the form feed and drain use. */
    method Reparse() returns (rc: Status)
      requires Core() && Fair(false)
      modifies this`queue, this`queuedBytes, this`pendingError, this`oom, this`inbufOff, this`inbufLen, inbuf
      ensures Core() && Kept() == old(Kept()) && Fair(false)
      ensures old(queue) <= queue
      ensures |Unread()| + HEADER_LEN * |queue| <= old(|Unread()| + HEADER_LEN * |queue|)
      ensures !pendingError ==> !old(pendingError) && oom == old(oom) && Stalled()
      ensures old(pendingError) ==> pendingError
      ensures old(oom) ==> oom
      ensures rc.Fatal? ==> pendingError && queue == []
      ensures rc.Ready? ==> queue != []
      ensures rc.Idle? ==> queue == old(queue) && pendingError == old(pendingError)
      ensures rc.Idle? <==> queue == old(queue) && ParseHead(Unread(), maxPayload).NeedMore?
    {
      hide ParseHead, Spell, AllAccepted, PayloadBytes;
      ghost var q, u := queue, Unread();
      rc := ParseInbuf();
      TookKeeps(delivered, q, u, queue, Unread(), maxPayload);
      TookShrinks(q, u, queue, Unread(), maxPayload);
    }

    /** Append a chunk and parse; the chunk is refused only for want of memory. */
    method TakeChunk(chunk: seq<Byte>) returns (ok: bool, rc: Status)
      requires Core() && hold == [] && Fair(false) && |Unread()| + |chunk| <= Hard()
      modifies this`queue, this`queuedBytes, this`pendingError, this`oom, this`inbufOff,
               this`inbufLen, this`inbuf, inbuf
      ensures inbuf == old(inbuf) || fresh(inbuf)
      ensures Core() && Fair(false) && old(queue) <= queue
      ensures Kept() == if ok then old(Kept()) + chunk else old(Kept())
      ensures |Unread()| + HEADER_LEN * |queue| <= old(|Unread()| + HEADER_LEN * |queue|) + if ok then |chunk| else 0
      ensures !ok ==> pendingError
      ensures !pendingError ==> !old(pendingError) && oom == old(oom) && Stalled()
      ensures old(oom) ==> oom
      ensures rc.Fatal? ==> pendingError
      ensures rc.Ready? ==> queue != []
      ensures !pendingError ==> (rc.Idle? <==> queue == old(queue) && ParseHead(Unread(), maxPayload).NeedMore?)
      ensures pendingError && queue == [] ==> rc.Fatal? || old(pendingError && queue == [])
    {
      hide ParseHead, Spell, AllAccepted, PayloadBytes;
      ghost var u := Unread();
      ok := AppendChunk(chunk);
      if !ok {
        pendingError := true;
        rc := Fatal;
      } else {
        HeadStable(u, chunk, maxPayload);
        assert Kept() == old(Kept()) + chunk;
        rc := Reparse();
      }
    }

    /** The buffer is full and stays so: the rest goes on hold. */
    method Park(rest: seq<Byte>) returns (n: nat)
      requires Core() && hold == [] && rest != [] && |Unread()| == Hard()
      requires Fair(false) && if pendingError then queue != [] else Stalled()
      modifies this`pendingError, this`oom, this`overrun, this`hold
      ensures Core() && n <= |rest| && Kept() == old(Kept()) + rest[..n] && queue != []
      ensures if n == 0 then pendingError && hold == []
              else n == |rest| && hold == rest && oom == old(oom) && pendingError == old(pendingError)
      ensures Fair(|rest| > Hard()) && |hold| == n && (!pendingError ==> Stalled())
      ensures overrun ==> old(overrun) || |rest| > Hard()
      ensures (old(oom) ==> oom) && (old(overrun) ==> overrun)
    {
      hide ParseHead, Spell, AllAccepted, PayloadBytes;
      FullIsDecided(Unread(), maxPayload);
      EmptyNeverBlocks(Unread(), maxPayload);
      var ok := HoldAppend(rest);
      if ok {
        n := |rest|;
      } else {
        n := 0;
        pendingError := true;
      }
      assert Kept() == old(Kept()) + rest[..n];
    }

    /** One turn of the feed loop: how many of the rest it took, and whether the loop ends. */
    method FeedStep(rest: seq<Byte>) returns (n: nat, stopped: bool, ready: bool)
      requires Core() && hold == [] && !pendingError && rest != []
      modifies this`queue, this`queuedBytes, this`pendingError, this`oom, this`overrun, this`inbufOff,
               this`inbufLen, this`inbuf, this`hold, inbuf
      ensures inbuf == old(inbuf) || fresh(inbuf)
      ensures Core() && n <= |rest| && Kept() == old(Kept()) + rest[..n]
      ensures !stopped ==> 0 < n && hold == []
      ensures stopped && n < |rest| ==> pendingError
      ensures hold != [] ==> n == |rest| && queue != []
      ensures |hold| <= |rest|
      ensures old(queue) <= queue
      ensures |Unread()| + |hold| + HEADER_LEN * |queue| <= old(|Unread()| + HEADER_LEN * |queue|) + n
      ensures Fair(|rest| > Hard())
      ensures !pendingError ==> oom == old(oom) && Stalled()
      ensures overrun ==> old(overrun) || |rest| > Hard()
      ensures old(oom) ==> oom
      ensures old(overrun) ==> overrun
      ensures ready ==> queue != []
      ensures stopped && !pendingError ==> hold != []
      ensures pendingError && queue == [] ==> stopped
      ensures !pendingError && hold == [] ==> (!ready <==>
              queue == old(queue) && ParseHead(Unread(), maxPayload).NeedMore?)
    {
      hide ParseHead, Spell, AllAccepted, PayloadBytes, Stalled;
      n, stopped, ready := 0, false, false;
      var room := Hard() - (inbufLen - inbufOff);
      if room == 0 {
        var rc := Reparse();
        ready := rc.Ready?;
        SameQueue(delivered + old(queue), delivered + queue, old(Unread()), Unread(), maxPayload);
        room := Hard() - (inbufLen - inbufOff);
        if rc.Fatal? {
          stopped := true;
          return;
        }
        if room == 0 {
          stopped := true;
          n := Park(rest);
          return;
        }
      }
      var chunk := if |rest| > room then room else |rest|;
      var ok, rc := TakeChunk(rest[..chunk]);
      n := if ok then chunk else 0;
      ready := ready || rc.Ready?;
      stopped := !ok || rc.Fatal?;
    }

    /** The feed loop, entered with nothing on hold; dropped is what a fatal stop left unread. */
    method Append(data: seq<Byte>) returns (rc: Status, ghost dropped: seq<Byte>)
      requires Core() && hold == [] && !pendingError && data != []
      modifies this`queue, this`queuedBytes, this`pendingError, this`oom, this`overrun, this`inbufOff,
               this`inbufLen, this`inbuf, this`hold, inbuf
      ensures inbuf == old(inbuf) || fresh(inbuf)
      ensures Core() && Kept() + dropped == old(Kept()) + data
      ensures !pendingError ==> dropped == []
      ensures old(queue) <= queue
      ensures |Unread()| + |hold| + HEADER_LEN * |queue| <= old(|Unread()| + HEADER_LEN * |queue|) + |data|
      ensures Fair(|data| > Hard())
      ensures |hold| <= |data| && (hold != [] ==> queue != [])
      ensures !pendingError ==> oom == old(oom) && Stalled()
      ensures overrun ==> old(overrun) || |data| > Hard()
      ensures old(oom) ==> oom
      ensures old(overrun) ==> overrun
      ensures rc.Fatal? <==> pendingError && queue == []
      ensures rc.Idle? <==> !pendingError && queue == old(queue) && Exhausted()
    {
      hide ParseHead, Spell, AllAccepted, PayloadBytes, Stalled;
      var off, any, stopped := 0, false, false;
      while off < |data| && !stopped && !pendingError
        invariant inbuf == old(inbuf) || fresh(inbuf)
        invariant off <= |data| && Core() && Kept() == old(Kept()) + data[..off]
        invariant !stopped ==> hold == []
        invariant hold != [] ==> off == |data| && queue != []
        invariant stopped && off < |data| ==> pendingError
        invariant old(queue) <= queue && |hold| <= |data|
        invariant |Unread()| + |hold| + HEADER_LEN * |queue| <= old(|Unread()| + HEADER_LEN * |queue|) + off
        invariant Fair(|data| > Hard())
        invariant !pendingError && off > 0 ==> oom == old(oom) && Stalled()
        invariant overrun ==> old(overrun) || |data| > Hard()
        invariant (old(oom) ==> oom) && (old(overrun) ==> overrun)
        invariant any ==> queue != []
        invariant !pendingError && off == 0 ==> oom == old(oom)
        invariant stopped && !pendingError ==> hold != []
        invariant pendingError && queue == [] ==> stopped
        invariant !pendingError && hold == [] && off > 0 ==>
                  (!any <==> queue == old(queue) && ParseHead(Unread(), maxPayload).NeedMore?)
        invariant off == 0 && !stopped && !pendingError ==> !any && queue == old(queue)
        decreases |data| - off, !stopped
      {
        ghost var q, u, had := queue, Unread(), any;
        var n, s, r := FeedStep(data[off..]);
        if !pendingError && hold == [] && off > 0 {
          IdleStep(delivered, old(queue), q, queue, u, Unread(), data[off..][..n], had, r, maxPayload);
        }
        SliceStep(old(Kept()), data, off, n);
        off, stopped, any := off + n, s, any || r;
      }
      dropped := data[off..];
      if stopped || pendingError {
        rc := if queue != [] || any || hold != [] then Ready else Fatal;
      } else {
        rc := if any then Ready else Idle;
      }
    }

    /** Feed the parked bytes again, once the queue may have drained. */
    method FlushHold() returns (rc: Status, ghost dropped: seq<Byte>)
      requires Core() && hold != [] && !pendingError
      modifies this`queue, this`queuedBytes, this`pendingError, this`oom, this`overrun, this`inbufOff,
               this`inbufLen, this`inbuf, this`hold, inbuf
      ensures inbuf == old(inbuf) || fresh(inbuf)
      ensures Core() && Kept() + dropped == old(Kept())
      ensures !pendingError ==> dropped == []
      ensures old(queue) <= queue && |hold| <= |old(hold)| && (hold != [] ==> queue != [])
      ensures |Unread()| + |hold| + HEADER_LEN * |queue| <= old(|Unread()| + |hold| + HEADER_LEN * |queue|)
      ensures Fair(false) && overrun == old(overrun)
      ensures !pendingError ==> oom == old(oom) && Stalled()
      ensures old(oom) ==> oom
      ensures rc.Fatal? <==> pendingError && queue == []
      ensures rc.Idle? <==> !pendingError && queue == old(queue) && Exhausted()
    {
      hide ParseHead, Spell, AllAccepted, PayloadBytes, Stalled;
      var h := hold;
      hold := [];
      assert Kept() + h == old(Kept());
      rc, dropped := Append(h);
    }

    /** Feed while no error is latched: flush the hold first, then take or park the new bytes. */
    method FeedLive(data: seq<Byte>) returns (rc: Status, ghost dropped: seq<Byte>)
      requires Core() && !pendingError && data != []
      modifies this`queue, this`queuedBytes, this`pendingError, this`oom, this`overrun, this`inbufOff,
               this`inbufLen, this`inbuf, this`hold, inbuf
      ensures inbuf == old(inbuf) || fresh(inbuf)
      ensures Core() && Kept() + dropped == old(Kept()) + data
      ensures !pendingError ==> dropped == []
      ensures old(queue) <= queue
      ensures Fair(true)
      ensures overrun ==> old(overrun) || |old(hold)| + |data| > Hard()
      ensures old(oom) ==> oom
      ensures rc.Fatal? <==> pendingError && queue == []
      ensures rc.Idle? <==> !pendingError && queue == old(queue) && Exhausted()
    {
      hide ParseHead, Spell, AllAccepted, PayloadBytes, Stalled;
      var any := false;
      if hold != [] {
        rc, dropped := FlushHold();
        if pendingError {
          assert old(Kept()) + data == Kept() + (dropped + data);
          dropped := dropped + data;
          return;
        }
        any := rc.Ready?;
        if hold != [] {
          rc := Ready;
          assert Kept() + data == old(Kept()) + data;
          var ok := HoldAppend(data);
          if !ok {
            pendingError := true;
            dropped := data;
          }
          return;
        }
      }
      ghost var q, u := queue, Unread();
      rc, dropped := Append(data);
      if any {
        if !pendingError && hold == [] {
          IdleStep(delivered, old(queue), q, queue, u, Unread(), data, any, !rc.Idle?, maxPayload);
        }
        rc := if rc.Idle? then Ready else rc;
      }
    }

    /** Hand the parser more bytes (cmq_parser_feed). */
    method Feed(data: seq<Byte>) returns (rc: Status)
      requires Valid()
      modifies this, inbuf
      ensures inbuf == old(inbuf) || fresh(inbuf)
      ensures Valid() && fed == old(fed) + data && delivered == old(delivered) && old(queue) <= queue
      ensures old(pendingError) ==> pendingError && queue == old(queue)
      ensures overrun ==> old(overrun) || |old(hold)| + |data| > Hard()
      ensures old(oom) ==> oom
      ensures data != [] ==> (rc.Fatal? <==> pendingError && queue == [])
      ensures data != [] ==> (rc.Idle? <==> !pendingError && queue == old(queue) && Exhausted())
    {
      hide ParseHead, Spell, AllAccepted, PayloadBytes, Stalled;
      if data == [] { return Idle; }
      fed := fed + data;
      if pendingError {
        lost := lost + data;
        return if queue != [] then Ready else Fatal;
      }
      ghost var dropped;
      rc, dropped := FeedLive(data);
      lost := dropped;
    }

    /** Retry from the buffer and the hold without new bytes (cmq_parser_drain_inbuf). */
    method Drain() returns (rc: Status)
      requires Valid()
      modifies this, inbuf
      ensures inbuf == old(inbuf) || fresh(inbuf)
      ensures Valid() && fed == old(fed) && delivered == old(delivered) && old(queue) <= queue
      ensures old(pendingError) ==> pendingError && queue == old(queue)
      ensures overrun == old(overrun) && (old(oom) ==> oom)
      ensures rc.Fatal? <==> pendingError && queue == []
      ensures !pendingError && queue == [] ==> Exhausted()
      ensures queue != old(queue) ==> |Unread()| + |hold| < old(|Unread()| + |hold|)
      ensures rc.Idle? <==> !pendingError && queue == old(queue) && Exhausted()
      ensures pendingError && !old(pendingError) ==> oom || ParseHead(Unread(), maxPayload).Bad?
    {
      hide ParseHead, Spell, AllAccepted, PayloadBytes;
      if pendingError {
        rc := if queue != [] then Ready else Fatal;
      } else {
        rc := DrainLive();
      }
    }

    method DrainLive() returns (rc: Status)
      requires Valid() && !pendingError
      modifies this, inbuf
      ensures inbuf == old(inbuf) || fresh(inbuf)
      ensures Valid() && fed == old(fed) && delivered == old(delivered) && old(queue) <= queue
      ensures overrun == old(overrun) && (old(oom) ==> oom)
      ensures rc.Fatal? <==> pendingError && queue == []
      ensures rc.Idle? <==> !pendingError && queue == old(queue) && Exhausted()
      ensures !pendingError && queue == [] ==> Exhausted()
      ensures queue != old(queue) ==> |Unread()| + |hold| < old(|Unread()| + |hold|)
      ensures pendingError ==> oom || ParseHead(Unread(), maxPayload).Bad?
    {
      hide ParseHead, Spell, AllAccepted, PayloadBytes, Stalled;
      ghost var dropped: seq<Byte> := [];
      rc := Reparse();
      if !rc.Fatal? && hold != [] && !pendingError {
        rc, dropped := DrainHold(rc, old(queue));
      }
      if queue == [] && !pendingError { StalledEmpty(); }
      lost := dropped;
    }

    /** The second half of a drain: the hold is fed again, and the parse before it counts as well. */
    method DrainHold(first: Status, ghost q0: seq<Frame>) returns (rc: Status, ghost dropped: seq<Byte>)
      requires Core() && hold != [] && !pendingError && !first.Fatal? && q0 <= queue
      requires first.Idle? <==> queue == q0 && ParseHead(Unread(), maxPayload).NeedMore?
      requires first.Ready? ==> queue != []
      modifies this`queue, this`queuedBytes, this`pendingError, this`oom, this`overrun, this`inbufOff,
               this`inbufLen, this`inbuf, this`hold, inbuf
      ensures inbuf == old(inbuf) || fresh(inbuf)
      ensures Core() && Kept() + dropped == old(Kept())
      ensures !pendingError ==> dropped == []
      ensures old(queue) <= queue && (hold != [] ==> queue != [])
      ensures |Unread()| + |hold| + HEADER_LEN * |queue| <= old(|Unread()| + |hold| + HEADER_LEN * |queue|)
      ensures Fair(false) && overrun == old(overrun) && (!pendingError ==> Stalled())
      ensures old(oom) ==> oom
      ensures rc.Fatal? <==> pendingError && queue == []
      ensures rc.Idle? <==> !pendingError && queue == q0 && Exhausted()
    {
      hide ParseHead, Spell, AllAccepted, PayloadBytes, Stalled;
      ghost var q, u, h := queue, Unread(), hold;
      rc, dropped := FlushHold();
      if !pendingError && hold == [] {
        FlushedKept(delivered, q, queue, u, h, Unread(), maxPayload);
        IdleStep(delivered, q0, q, queue, u, Unread(), h, first.Ready?, !rc.Idle?, maxPayload);
      }
      rc := if rc.Idle? then first else rc;
    }

    lemma StalledEmpty()
      requires Core() && queue == [] && Stalled()
      ensures ParseHead(Unread(), maxPayload).NeedMore?
    {
      hide ParseHead, Spell, AllAccepted, PayloadBytes;
      EmptyNeverBlocks(Unread(), maxPayload);
    }

    /** Drop the oldest queued frame once the caller has used it (cmq_parser_next). */
    method Next() returns (more: bool)
      requires Valid()
      modifies this`queue, this`queuedBytes, this`delivered
      ensures Valid()
      ensures if old(queue) == [] then queue == [] && delivered == old(delivered)
              else delivered + queue == old(delivered + queue) && |queue| == |old(queue)| - 1
      ensures more <==> queue != []
    {
      if queue == [] { return false; }
      hide ParseHead, Spell, AllAccepted;
      PayloadBytesHead(queue);
      queuedBytes := queuedBytes - |queue[0].payload|;
      assert delivered + queue == (delivered + [queue[0]]) + queue[1..];
      delivered := delivered + [queue[0]];
      queue := queue[1..];
      return queue != [];
    }

    /**
     * At any moment of any run of Feed, Drain and Next, whatever the chunks and the drain
     * schedule: the frames so far are a prefix of the whole-stream parse of the bytes fed,
     * all of it once nothing is left to take, and a fatal error has a cause.
     */
    lemma Faithful()
      requires Valid()
      ensures delivered + queue <= ParseAll(fed, maxPayload).frames
      ensures !pendingError && Exhausted() ==> ParseAll(fed, maxPayload) == Parsed(delivered + queue, Unread(), false)
      ensures pendingError ==> oom || overrun || ParseAll(fed, maxPayload).bad
    {
      hide ParseHead, Encode, Spell, AllAccepted, PayloadBytes;
      AnyChunking(delivered + queue, Unread(), hold + lost, fed, maxPayload);
    }

    /** Frames encoded by the peer come out as sent; a prefix of them if the stream was cut. */
    lemma PeerRoundTrip(sent: seq<Frame>)
      requires Valid() && AllAccepted(sent, maxPayload) && fed <= Spell(sent, maxPayload)
      ensures delivered + queue <= sent
      ensures pendingError ==> oom || overrun
      ensures !pendingError && Exhausted() && fed == Spell(sent, maxPayload) ==>
              delivered + queue == sent && Unread() == []
    {
      hide ParseHead, Encode, Spell, AllAccepted, PayloadBytes;
      Faithful();
      RoundTrip(sent, maxPayload);
      var wire := Spell(sent, maxPayload);
      ParsePrefix(fed, wire[|fed|..], maxPayload);
      assert fed + wire[|fed|..] == wire;
    }

    /**
     * The caller's loop: use every queued frame, drain, repeat. Without an allocation
     * failure it ends with every frame the fed bytes complete delivered, so backpressure
     * never wedges the connection.
     */
    method DeliverAll()
      requires Valid() && !pendingError
      modifies this, inbuf
      ensures Valid() && fed == old(fed) && old(delivered) <= delivered && queue == []
      ensures !pendingError ==> Exhausted() && delivered == ParseAll(fed, maxPayload).frames
      ensures !oom && !ParseAll(fed, maxPayload).bad ==> !pendingError
    {
      hide ParseHead, Encode, Spell, AllAccepted, PayloadBytes;
      var done := false;
      while !done
        invariant inbuf == old(inbuf) || fresh(inbuf)
        invariant Valid() && fed == old(fed) && old(delivered) <= delivered
        invariant !done ==> !pendingError
        invariant done ==> queue == [] && (!pendingError ==> Exhausted())
        invariant pendingError ==> oom || ParseHead(Unread(), maxPayload).Bad?
        decreases !done, |Unread()| + |hold|
      {
        done := Round();
      }
      Faithful();
      AnyChunking(delivered + queue, Unread(), hold + lost, fed, maxPayload);
      assert delivered + queue == delivered;
    }

    /** Use the queued frames, then drain once. */
    method Round() returns (done: bool)
      requires Valid() && !pendingError
      modifies this, inbuf
      ensures inbuf == old(inbuf) || fresh(inbuf)
      ensures Valid() && fed == old(fed) && old(delivered) <= delivered
      ensures done <==> queue == [] || pendingError
      ensures done ==> queue == [] && (!pendingError ==> Exhausted())
      ensures pendingError ==> oom || ParseHead(Unread(), maxPayload).Bad?
      ensures !done ==> |Unread()| + |hold| < old(|Unread()| + |hold|)
    {
      hide ParseHead, Encode, Spell, AllAccepted, PayloadBytes;
      UseAll();
      var rc := Drain();
      done := queue == [];
      if pendingError {
        UseAll();
        done := true;
      }
    }

    /** The caller takes every queued frame. */
    method UseAll()
      requires Valid()
      modifies this`queue, this`queuedBytes, this`delivered
      ensures Valid() && queue == [] && delivered == old(delivered + queue)
    {
      while queue != []
        invariant Valid() && delivered + queue == old(delivered + queue)
        decreases |queue|
      {
        var more := Next();
      }
    }
  }

  /** An empty queue refuses no frame the cap accepts. */
  lemma EmptyNeverBlocks(s: seq<Byte>, cap: nat)
    ensures ParseHead(s, cap).Complete? ==> !Blocked([], ParseHead(s, cap).frame, cap)
  {
  }

  lemma SliceStep(k: seq<Byte>, data: seq<Byte>, off: nat, n: nat)
    requires off + n <= |data|
    ensures (k + data[..off]) + data[off..][..n] == k + data[..off + n]
  {
  }

  /** A full buffer holds a whole frame or a bad one. */
  lemma FullIsDecided(s: seq<Byte>, cap: nat)
    requires |s| >= HEADER_LEN + cap
    ensures !ParseHead(s, cap).NeedMore?
  {
  }

  /** Bytes split as frames, unread input and more behind it: what the whole-stream parse sees. */
  lemma AnyChunking(frames: seq<Frame>, unread: seq<Byte>, more: seq<Byte>, fed: seq<Byte>, cap: nat)
    requires AllAccepted(frames, cap) && fed == Spell(frames, cap) + unread + more
    ensures frames <= ParseAll(fed, cap).frames
    ensures more == [] && ParseHead(unread, cap).NeedMore? ==> ParseAll(fed, cap) == Parsed(frames, unread, false)
    ensures ParseHead(unread, cap).Bad? ==> ParseAll(fed, cap).bad
  {
    hide ParseHead, Encode, Spell, AllAccepted;
    assert fed == Spell(frames, cap) + (unread + more);
    ParseSpelled(frames, unread + more, cap);
    HeadStable(unread, more, cap);
    if more == [] {
      assert unread + more == unread;
    }
  }
}
