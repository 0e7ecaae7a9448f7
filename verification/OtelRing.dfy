/**
 * The telemetry ring (src/server/cmq_otel.c): many offering threads, one poller, no lock.
 * Every atomic access and every cell of a span copied is one step, so a span read while it
 * is being written would show as a mix of cells.
 */
module OtelRing {
  import opened Common

  const RING: nat := 256
  const HEAD_CELLS: nat := 17   // 16 trace bytes and the kind, given by the caller
  const CELLS: nat := 18        // and the time, read from the clock while writing

  type Cells = seq<nat>
  datatype Slot = Slot(cells: Cells, ready: bool)

  /** Where an offering thread stands; threads without an entry are outside offer. */
  datatype Producer =
    | Start(span: Cells)
    | GotW(span: Cells, w: nat)
    | GotR(span: Cells, w: nat, r: nat)
    | Writing(w: nat, n: nat)

  datatype Poller =
    | Idle
    | At(r: nat)
    | Copying(r: nat, out: Cells)
    | Cleared(r: nat, out: Cells)

  datatype State = State(
    slots: seq<Slot>,
    wpos: nat,
    rpos: nat,
    dropped: nat,
    producers: map<nat, Producer>,
    poller: Poller,
    // history, by ticket
    offered: seq<Cells>,     // what the caller of the accepted offer passed
    written: seq<Cells>,     // the cells stored so far for each ticket
    polled: seq<Cells>)      // the spans handed out, in order

  function Init(): State {
    State(seq(RING, i => Slot(seq(CELLS, j => 0), false)), 0, 0, 0, map[], Idle, [], [], [])
  }

  /** The full test: the difference is unsigned, so a stale w below r counts as full. */
  predicate LooksFull(w: nat, r: nat) {
    w < r || w - r >= RING
  }

  /** That is the 64-bit comparison of the code, for positions short of the wrap. */
  lemma LooksFullIsUnsigned(w: nat, r: nat)
    requires w <= SIZE_MAX && r <= SIZE_MAX + 1 - RING
    ensures LooksFull(w, r) <==> (w - r) % (SIZE_MAX + 1) >= RING
  {
    if w < r {
      assert (w - r) % (SIZE_MAX + 1) == w - r + SIZE_MAX + 1;
    } else {
      assert (w - r) % (SIZE_MAX + 1) == w - r;
    }
  }

  function Index(k: nat): (i: nat)
    ensures i < RING
  {
    k % RING
  }

  datatype Event =
    | Offer(th: nat, span: Cells)
    | LoadW(th: nat)
    | LoadR(th: nat)
    | Claim(th: nat, spurious: bool)    // full test, then compare-and-swap, which may fail for nothing
    | Write(th: nat, value: nat)
    | Publish(th: nat)
    | PollLoad
    | PollTest
    | PollCopy
    | PollClear
    | PollAdvance

  predicate Enabled(s: State, e: Event) {
    |s.slots| == RING &&
    match e
    case Offer(th, span) => th !in s.producers && |span| == HEAD_CELLS
    case LoadW(th) => th in s.producers && s.producers[th].Start?
    case LoadR(th) => th in s.producers && s.producers[th].GotW?
    case Claim(th, _) => th in s.producers && s.producers[th].GotR?
    case Write(th, value) =>
      && th in s.producers && s.producers[th].Writing? && s.producers[th].n < CELLS
      && s.producers[th].w < |s.offered| == |s.written|
      && s.producers[th].n < |s.slots[Index(s.producers[th].w)].cells|
      && (s.producers[th].n < |s.offered[s.producers[th].w]| ==>
          value == s.offered[s.producers[th].w][s.producers[th].n])
    case Publish(th) => th in s.producers && s.producers[th].Writing? && s.producers[th].n == CELLS
    case PollLoad => s.poller.Idle?
    case PollTest => s.poller.At?
    case PollCopy => s.poller.Copying? && |s.poller.out| < |s.slots[Index(s.poller.r)].cells|
    case PollClear => s.poller.Copying? && |s.poller.out| == CELLS
    case PollAdvance => s.poller.Cleared?
  }

  function Step(s: State, e: Event): State
    requires Enabled(s, e)
  {
    match e
    case Offer(th, span) => s.(producers := s.producers[th := Start(span)])
    case LoadW(th) => s.(producers := s.producers[th := GotW(s.producers[th].span, s.wpos)])
    case LoadR(th) => s.(producers := s.producers[th := GotR(s.producers[th].span, s.producers[th].w, s.rpos)])
    case Claim(th, spurious) =>
      var GotR(span, w, r) := s.producers[th];
      if LooksFull(w, r) then
        s.(producers := s.producers - {th}, dropped := s.dropped + 1)
      else if s.wpos != w || spurious then
        s.(producers := s.producers[th := Start(span)])
      else
        s.(wpos := w + 1, producers := s.producers[th := Writing(w, 0)],
           offered := s.offered + [span], written := s.written + [[]])
    case Write(th, value) =>
      var Writing(w, n) := s.producers[th];
      var slot := s.slots[Index(w)];
      s.(slots := s.slots[Index(w) := slot.(cells := slot.cells[n := value])],
         producers := s.producers[th := Writing(w, n + 1)],
         written := s.written[w := s.written[w] + [value]])
    case Publish(th) =>
      var i := Index(s.producers[th].w);
      s.(slots := s.slots[i := s.slots[i].(ready := true)], producers := s.producers - {th})
    case PollLoad => s.(poller := At(s.rpos))
    case PollTest => s.(poller := if s.slots[Index(s.poller.r)].ready then Copying(s.poller.r, []) else Idle)
    case PollCopy =>
      var Copying(r, out) := s.poller;
      s.(poller := Copying(r, out + [s.slots[Index(r)].cells[|out|]]))
    case PollClear =>
      var i := Index(s.poller.r);
      s.(slots := s.slots[i := s.slots[i].(ready := false)], poller := Cleared(s.poller.r, s.poller.out))
    case PollAdvance =>
      s.(rpos := s.poller.r + 1, polled := s.polled + [s.poller.out], poller := Idle)
  }

  // ---- the invariant ----

  ghost predicate ProducerOk(s: State, p: Producer)
    requires |s.slots| == RING
  {
    match p
    case Start(span) => |span| == HEAD_CELLS
    case GotW(span, w) => |span| == HEAD_CELLS && w <= s.wpos
    case GotR(span, w, r) => |span| == HEAD_CELLS && w <= s.wpos && r <= s.rpos
    case Writing(w, n) =>
      && s.rpos <= w < s.wpos && n <= CELLS
      && w < |s.written| && |s.written[w]| == n
      && !s.slots[Index(w)].ready
      && n <= |s.slots[Index(w)].cells| && s.slots[Index(w)].cells[..n] == s.written[w]
      && !(s.poller.Cleared? && s.poller.r == w)
  }

  ghost predicate PollerOk(s: State)
    requires |s.slots| == RING
  {
    match s.poller
    case Idle => true
    case At(r) => r == s.rpos
    case Copying(r, out) =>
      && r == s.rpos && s.slots[Index(r)].ready
      && |out| <= |s.slots[Index(r)].cells| && out == s.slots[Index(r)].cells[..|out|]
    case Cleared(r, out) =>
      r == s.rpos < s.wpos && r < |s.written| && |out| == CELLS && out == s.written[r] && !s.slots[Index(r)].ready
  }

  /** A ready slot of the current window holds a finished ticket nobody writes. */
  ghost predicate ReadyOk(s: State, k: nat)
    requires |s.slots| == RING
  {
    s.rpos <= k < s.rpos + RING && s.slots[Index(k)].ready ==>
      && k < s.wpos && k < |s.written| && |s.written[k]| == CELLS && s.slots[Index(k)].cells == s.written[k]
  }

  /** The cells stored for a ticket are those its caller passed, then the time. */
  ghost predicate TicketOk(s: State, k: nat)
    requires k < |s.offered| && k < |s.written|
  {
    && |s.offered[k]| == HEAD_CELLS && |s.written[k]| <= CELLS
    && forall i :: 0 <= i < |s.written[k]| && i < HEAD_CELLS ==> s.written[k][i] == s.offered[k][i]
  }

  ghost predicate PolledOk(s: State) {
    && |s.polled| == s.rpos <= |s.written|
    && forall k :: 0 <= k < |s.polled| ==> |s.polled[k]| == CELLS && s.polled[k] == s.written[k]
  }

  ghost predicate Inv(s: State) {
    && |s.slots| == RING
    && (forall i :: 0 <= i < RING ==> |s.slots[i].cells| == CELLS)
    && s.rpos <= s.wpos <= s.rpos + RING
    && |s.offered| == |s.written| == s.wpos
    && (forall k :: 0 <= k < s.wpos ==> TicketOk(s, k))
    && (forall th :: th in s.producers ==> ProducerOk(s, s.producers[th]))
    && (forall a, b :: (a in s.producers && b in s.producers && a != b &&
                        s.producers[a].Writing? && s.producers[b].Writing?) ==> s.producers[a].w != s.producers[b].w)
    && (forall k :: s.rpos <= k < s.rpos + RING ==> ReadyOk(s, k))
    && PollerOk(s)
    && PolledOk(s)
  }

  lemma InitInv()
    ensures Inv(Init())
  {
  }

  /** Two tickets of one window never share a slot. */
  lemma WindowDistinct(base: nat, a: nat, b: nat)
    requires base <= a < base + RING && base <= b < base + RING && Index(a) == Index(b)
    ensures a == b
  {
  }

  predicate Wins(s: State, th: nat, spurious: bool)
    requires th in s.producers && s.producers[th].GotR?
  {
    var p := s.producers[th];
    !LooksFull(p.w, p.r) && s.wpos == p.w && !spurious
  }

  lemma ClaimWins(s: State, th: nat)
    requires Inv(s) && Enabled(s, Claim(th, false)) && Wins(s, th, false)
    ensures Inv(Step(s, Claim(th, false)))
  {
    var u := Step(s, Claim(th, false));
    var w := s.producers[th].w;
    assert ProducerOk(s, s.producers[th]);
    assert w < s.rpos + RING;
    assert ReadyOk(s, w);
    forall t | t in u.producers ensures ProducerOk(u, u.producers[t]) {
      if t != th { assert ProducerOk(s, s.producers[t]); }
    }
    hide ProducerOk;
    forall k | 0 <= k < u.wpos ensures TicketOk(u, k) {
      if k < s.wpos { assert TicketOk(s, k); }
    }
    hide TicketOk;
    forall k | u.rpos <= k < u.rpos + RING ensures ReadyOk(u, k) { assert ReadyOk(s, k); }
  }

  lemma ClaimLoses(s: State, th: nat, spurious: bool)
    requires Inv(s) && Enabled(s, Claim(th, spurious)) && !Wins(s, th, spurious)
    ensures Inv(Step(s, Claim(th, spurious)))
  {
    var u := Step(s, Claim(th, spurious));
    assert ProducerOk(s, s.producers[th]);
    forall t | t in u.producers ensures ProducerOk(u, u.producers[t]) {
      if t != th { assert ProducerOk(s, s.producers[t]); }
    }
    hide ProducerOk;
    forall k | 0 <= k < u.wpos ensures TicketOk(u, k) { assert TicketOk(s, k); }
    hide TicketOk;
    forall k | u.rpos <= k < u.rpos + RING ensures ReadyOk(u, k) { assert ReadyOk(s, k); }
  }

  lemma ClaimKeeps(s: State, th: nat, spurious: bool)
    requires Inv(s) && Enabled(s, Claim(th, spurious))
    ensures Inv(Step(s, Claim(th, spurious)))
  {
    hide Inv;
    if Wins(s, th, spurious) {
      assert Step(s, Claim(th, spurious)) == Step(s, Claim(th, false));
      ClaimWins(s, th);
    } else {
      ClaimLoses(s, th, spurious);
    }
  }

  lemma WriteKeeps(s: State, th: nat, value: nat)
    requires Inv(s) && Enabled(s, Write(th, value))
    ensures Inv(Step(s, Write(th, value)))
  {
    var u := Step(s, Write(th, value));
    var Writing(w, n) := s.producers[th];
    assert ProducerOk(s, s.producers[th]);
    forall t | t in u.producers ensures ProducerOk(u, u.producers[t]) {
      if t != th {
        assert ProducerOk(s, s.producers[t]);
        if s.producers[t].Writing? && Index(s.producers[t].w) == Index(w) {
          WindowDistinct(s.rpos, s.producers[t].w, w);
        }
      }
    }
    forall k | 0 <= k < u.wpos ensures TicketOk(u, k) { assert TicketOk(s, k); }
    forall k | u.rpos <= k < u.rpos + RING ensures ReadyOk(u, k) {
      assert ReadyOk(s, k);
    }
  }

  lemma PublishKeeps(s: State, th: nat)
    requires Inv(s) && Enabled(s, Publish(th))
    ensures Inv(Step(s, Publish(th)))
  {
    var u := Step(s, Publish(th));
    var w := s.producers[th].w;
    assert ProducerOk(s, s.producers[th]);
    forall t | t in u.producers ensures ProducerOk(u, u.producers[t]) {
      assert ProducerOk(s, s.producers[t]);
      if s.producers[t].Writing? && Index(s.producers[t].w) == Index(w) {
        WindowDistinct(s.rpos, s.producers[t].w, w);
      }
    }
    forall k | 0 <= k < u.wpos ensures TicketOk(u, k) { assert TicketOk(s, k); }
    forall k | u.rpos <= k < u.rpos + RING ensures ReadyOk(u, k) {
      assert ReadyOk(s, k);
      if Index(k) == Index(w) { WindowDistinct(s.rpos, k, w); }
    }
  }

  lemma PollKeeps(s: State, e: Event)
    requires Inv(s) && Enabled(s, e)
    requires e.PollLoad? || e.PollTest? || e.PollCopy? || e.PollClear? || e.PollAdvance?
    ensures Inv(Step(s, e))
  {
    var u := Step(s, e);
    assert ReadyOk(s, s.rpos);
    forall t | t in u.producers ensures ProducerOk(u, u.producers[t]) {
      assert ProducerOk(s, s.producers[t]);
      if s.producers[t].Writing? && Index(s.producers[t].w) == Index(s.rpos) {
        WindowDistinct(s.rpos, s.producers[t].w, s.rpos);
      }
    }
    forall k | 0 <= k < u.wpos ensures TicketOk(u, k) { assert TicketOk(s, k); }
    forall k | u.rpos <= k < u.rpos + RING ensures ReadyOk(u, k) {
      if k < s.rpos + RING {
        assert ReadyOk(s, k);
        if e.PollClear? && Index(k) == Index(s.rpos) { WindowDistinct(s.rpos, k, s.rpos); }
      } else {
        assert Index(k) == Index(s.rpos);
      }
    }
  }

  lemma StepKeeps(s: State, e: Event)
    requires Inv(s) && Enabled(s, e)
    ensures Inv(Step(s, e))
  {
    match e {
      case Claim(th, spurious) => ClaimKeeps(s, th, spurious);
      case Write(th, value) => WriteKeeps(s, th, value);
      case Publish(th) => PublishKeeps(s, th);
      case PollLoad => PollKeeps(s, e);
      case PollTest => PollKeeps(s, e);
      case PollCopy => PollKeeps(s, e);
      case PollClear => PollKeeps(s, e);
      case PollAdvance => PollKeeps(s, e);
      case _ =>
        var u := Step(s, e);
        forall t | t in u.producers ensures ProducerOk(u, u.producers[t]) {
          if t in s.producers { assert ProducerOk(s, s.producers[t]); }
        }
        forall k | 0 <= k < u.wpos ensures TicketOk(u, k) { assert TicketOk(s, k); }
        forall k | u.rpos <= k < u.rpos + RING ensures ReadyOk(u, k) { assert ReadyOk(s, k); }
    }
  }

  // ---- whole runs ----

  ghost predicate Run(run: seq<State>, events: seq<Event>) {
    && |run| == |events| + 1
    && run[0] == Init()
    && forall k :: 0 <= k < |events| ==> Enabled(run[k], events[k]) && run[k + 1] == Step(run[k], events[k])
  }

  lemma {:induction false} RunInv(run: seq<State>, events: seq<Event>, k: nat)
    requires Run(run, events) && k < |run|
    ensures Inv(run[k])
  {
    if k == 0 {
      InitInv();
    } else {
      RunInv(run, events, k - 1);
      StepKeeps(run[k - 1], events[k - 1]);
    }
  }

  /**
   * In every interleaving the ring stays within its bounds and the spans polled are the
   * accepted ones in ticket order, each once and each whole: the cells its caller passed
   * followed by one time.
   */
  lemma PolledAreAccepted(run: seq<State>, events: seq<Event>, n: nat)
    requires Run(run, events) && n < |run|
    ensures var s := run[n];
            && s.rpos <= s.wpos <= s.rpos + RING
            && |s.polled| == s.rpos && |s.offered| == s.wpos
            && forall k :: 0 <= k < |s.polled| ==> |s.polled[k]| == CELLS && s.polled[k][..HEAD_CELLS] == s.offered[k]
  {
    RunInv(run, events, n);
    var s := run[n];
    forall k | 0 <= k < |s.polled| ensures s.polled[k][..HEAD_CELLS] == s.offered[k] {
      assert TicketOk(s, k);
    }
  }

  // ---- every offer is accounted for ----

  function Offers(events: seq<Event>, n: nat): nat
    requires n <= |events|
  {
    if n == 0 then 0 else Offers(events, n - 1) + if events[n - 1].Offer? then 1 else 0
  }

  /** The offers that have neither a ticket nor been dropped yet. */
  ghost function Undecided(s: State): set<nat> {
    set th | th in s.producers && !s.producers[th].Writing?
  }

  lemma ClaimAccounts(s: State, th: nat, spurious: bool)
    requires Enabled(s, Claim(th, spurious))
    ensures var u := Step(s, Claim(th, spurious));
            |u.offered| + u.dropped + |Undecided(u)| == |s.offered| + s.dropped + |Undecided(s)|
  {
    var u := Step(s, Claim(th, spurious));
    assert th in Undecided(s);
    if th in Undecided(u) {
      assert Undecided(u) == Undecided(s);
    } else {
      assert Undecided(u) == Undecided(s) - {th};
    }
  }

  lemma StepAccounts(s: State, e: Event)
    requires Enabled(s, e)
    ensures var u := Step(s, e);
            |u.offered| + u.dropped + |Undecided(u)| ==
            |s.offered| + s.dropped + |Undecided(s)| + if e.Offer? then 1 else 0
  {
    match e {
      case Offer(th, span) => assert Undecided(Step(s, e)) == Undecided(s) + {th};
      case Claim(th, spurious) => ClaimAccounts(s, th, spurious);
      case LoadW(th) => assert Undecided(Step(s, e)) == Undecided(s);
      case LoadR(th) => assert Undecided(Step(s, e)) == Undecided(s);
      case Write(th, value) => assert Undecided(Step(s, e)) == Undecided(s);
      case Publish(th) => assert Undecided(Step(s, e)) == Undecided(s);
      case _ => assert Step(s, e).producers == s.producers;
    }
  }

  /** In every run: of the offers made each has a ticket, is counted as dropped, or is still trying. */
  lemma {:induction false} OffersAccounted(run: seq<State>, events: seq<Event>, n: nat)
    requires Run(run, events) && n < |run|
    ensures Offers(events, n) == |run[n].offered| + run[n].dropped + |Undecided(run[n])|
  {
    if n == 0 {
      assert Undecided(run[0]) == {};
    } else {
      OffersAccounted(run, events, n - 1);
      StepAccounts(run[n - 1], events[n - 1]);
    }
  }

  // ---- every accepted span is on its way ----

  predicate Writes(s: State, th: nat, k: nat) {
    th in s.producers && s.producers[th].Writing? && s.producers[th].w == k
  }

  /** An accepted span not yet polled is ready, being written, or just copied by the poller. */
  ghost predicate OnItsWay(s: State, k: nat)
    requires |s.slots| == RING
  {
    s.slots[Index(k)].ready || (exists th :: Writes(s, th, k)) || (s.poller.Cleared? && s.poller.r == k)
  }

  ghost predicate NoneLost(s: State)
    requires |s.slots| == RING
  {
    forall k :: s.rpos <= k < s.wpos ==> OnItsWay(s, k)
  }

  /** A writer other than the one that steps goes on writing. */
  lemma WriterStays(s: State, e: Event, th: nat, k: nat)
    requires Enabled(s, e) && Writes(s, th, k) && !(e.Publish? && e.th == th)
    ensures Writes(Step(s, e), th, k)
  {
  }

  lemma StaysOnItsWay(s: State, e: Event, k: nat)
    requires Inv(s) && Enabled(s, e) && OnItsWay(s, k) && s.rpos <= k < s.wpos && Step(s, e).rpos <= k
    ensures |Step(s, e).slots| == RING && OnItsWay(Step(s, e), k)
  {
    hide TicketOk, PolledOk, ReadyOk;
    if s.slots[Index(k)].ready {
      if e.PollClear? && Index(k) == Index(s.rpos) { WindowDistinct(s.rpos, k, s.rpos); }
    } else if th :| Writes(s, th, k) {
      if e.Publish? && e.th == th {
        assert Step(s, e).slots[Index(k)].ready;
      } else {
        WriterStays(s, e, th, k);
      }
    }
  }

  lemma StepLosesNone(s: State, e: Event)
    requires Inv(s) && Enabled(s, e) && NoneLost(s)
    ensures |Step(s, e).slots| == RING && NoneLost(Step(s, e))
  {
    hide TicketOk, PolledOk, ReadyOk, OnItsWay;
    var u := Step(s, e);
    forall k | u.rpos <= k < u.wpos ensures OnItsWay(u, k) {
      if k < s.wpos { StaysOnItsWay(s, e, k); } else { NewOnItsWay(s, e, k); }
    }
  }

  lemma NewOnItsWay(s: State, e: Event, k: nat)
    requires Inv(s) && Enabled(s, e) && s.wpos <= k < Step(s, e).wpos
    ensures |Step(s, e).slots| == RING && OnItsWay(Step(s, e), k)
  {
    hide TicketOk, PolledOk, ReadyOk;
    assert Writes(Step(s, e), e.th, k);
  }

  lemma {:induction false} RunLosesNone(run: seq<State>, events: seq<Event>, n: nat)
    requires Run(run, events) && n < |run|
    ensures |run[n].slots| == RING && NoneLost(run[n])
  {
    hide Inv, Enabled, Step, OnItsWay;
    if n > 0 {
      RunLosesNone(run, events, n - 1);
      RunInv(run, events, n - 1);
      StepLosesNone(run[n - 1], events[n - 1]);
    }
  }

  /**
   * A poll finds nothing exactly when nothing is accepted that has not been polled, or the
   * oldest such span is still being written.
   */
  lemma EmptyPoll(run: seq<State>, events: seq<Event>, n: nat)
    requires Run(run, events) && n < |events| && events[n].PollTest?
    ensures var s := run[n];
            run[n + 1].poller.Idle? <==> s.rpos == s.wpos || exists th :: Writes(s, th, s.rpos)
  {
    RunInv(run, events, n);
    RunLosesNone(run, events, n);
    var s := run[n];
    hide TicketOk, PolledOk;
    assert ReadyOk(s, s.rpos);
    forall th | Writes(s, th, s.rpos) ensures !s.slots[Index(s.rpos)].ready {
      assert ProducerOk(s, s.producers[th]);
    }
    assert s.rpos < s.wpos ==> OnItsWay(s, s.rpos);
  }

  /** No step writes a slot that is ready and not yet polled, nor one the poller is copying. */
  lemma UnreadNotOverwritten(run: seq<State>, events: seq<Event>, n: nat, i: nat)
    requires Run(run, events) && n < |events| && i < RING
    ensures |run[n].slots| == |run[n + 1].slots| == RING
    ensures run[n].slots[i].ready && !events[n].PollClear? ==> run[n + 1].slots[i] == run[n].slots[i]
    ensures run[n].slots[i].ready && events[n].PollClear? && i != Index(run[n].rpos) ==>
            run[n + 1].slots[i] == run[n].slots[i]
  {
    RunInv(run, events, n);
    var s, e := run[n], events[n];
    if e.Write? || e.Publish? {
      assert ProducerOk(s, s.producers[e.th]);
    }
  }

  /**
   * The test an offer is dropped by, taken when it reads rpos: it holds exactly when the
   * ring is full then, or the poller has passed the w read before, however empty the ring.
   */
  lemma DropReason(run: seq<State>, events: seq<Event>, n: nat)
    requires Run(run, events) && n < |events| && events[n].LoadR?
    ensures var s := run[n]; var w := s.producers[events[n].th].w;
            LooksFull(w, s.rpos) <==> w < s.rpos || w == s.wpos == s.rpos + RING
  {
    RunInv(run, events, n);
    assert ProducerOk(run[n], run[n].producers[events[n].th]);
  }

  // ---- a span dropped with the ring empty ----

  lemma Then(run: seq<State>, events: seq<Event>, e: Event)
    requires Run(run, events) && Enabled(run[|events|], e)
    ensures Run(run + [Step(run[|events|], e)], events + [e])
  {
    hide Enabled, Step;
  }

  /** Thread 0 has read wpos, and thread 1 has stored n cells of the first ticket. */
  ghost predicate Storing(s: State, span: Cells, n: nat) {
    && |span| == HEAD_CELLS && |s.slots| == RING && |s.slots[0].cells| == CELLS && n <= CELLS
    && s.producers == map[0 := GotW(span, 0), 1 := Writing(0, n)] && s.poller == Idle
    && s.wpos == 1 && s.rpos == 0 && s.dropped == 0 && s.offered == [span] && |s.written| == 1
  }

  lemma StoreStarts(span: Cells) returns (run: seq<State>, events: seq<Event>)
    requires |span| == HEAD_CELLS
    ensures Run(run, events) && Storing(run[|events|], span, 0)
  {
    var steps := [Offer(0, span), LoadW(0), Offer(1, span), LoadW(1), LoadR(1), Claim(1, false)];
    var s0 := Init();
    var s1 := s0.(producers := map[0 := Start(span)]);
    var s2 := s0.(producers := map[0 := GotW(span, 0)]);
    var s3 := s0.(producers := map[0 := GotW(span, 0), 1 := Start(span)]);
    var s4 := s0.(producers := map[0 := GotW(span, 0), 1 := GotW(span, 0)]);
    var s5 := s0.(producers := map[0 := GotW(span, 0), 1 := GotR(span, 0, 0)]);
    assert Step(s0, steps[0]) == s1 && Step(s1, steps[1]) == s2 && Step(s2, steps[2]) == s3;
    assert Step(s3, steps[3]) == s4 && Step(s4, steps[4]) == s5;
    var s6 := Step(s5, steps[5]);
    run, events := [s0, s1, s2, s3, s4, s5, s6], steps;
  }

  lemma StoreOne(s: State, span: Cells, n: nat) returns (e: Event)
    requires Storing(s, span, n) && n < CELLS
    ensures Enabled(s, e) && Storing(Step(s, e), span, n + 1)
  {
    e := Write(1, if n < HEAD_CELLS then span[n] else 0);
    assert Index(0) == 0;
  }

  lemma StoreAll(span: Cells) returns (run: seq<State>, events: seq<Event>)
    requires |span| == HEAD_CELLS
    ensures Run(run, events) && Storing(run[|events|], span, CELLS)
  {
    hide Enabled, Step, Run, Storing;
    run, events := StoreStarts(span);
    var n: nat := 0;
    while n < CELLS
      invariant n <= CELLS && Run(run, events) && |run| == |events| + 1 && Storing(run[|events|], span, n)
    {
      var e := StoreOne(run[|events|], span, n);
      Then(run, events, e);
      run, events := run + [Step(run[|events|], e)], events + [e];
      n := n + 1;
    }
  }

  /** Thread 1 is done and the poller has copied n cells of its span. */
  ghost predicate Fetching(s: State, span: Cells, n: nat) {
    && |span| == HEAD_CELLS && |s.slots| == RING && |s.slots[0].cells| == CELLS && n <= CELLS
    && s.producers == map[0 := GotW(span, 0)] && s.poller.Copying? && s.poller.r == 0 && |s.poller.out| == n
    && s.wpos == 1 && s.rpos == 0 && s.dropped == 0
  }

  lemma FetchStarts(s: State, span: Cells)
    requires Storing(s, span, CELLS)
    ensures Enabled(s, Publish(1)) && Enabled(Step(s, Publish(1)), PollLoad)
    ensures Enabled(Step(Step(s, Publish(1)), PollLoad), PollTest)
    ensures Fetching(Step(Step(Step(s, Publish(1)), PollLoad), PollTest), span, 0)
  {
    assert Index(0) == 0;
    assert Step(s, Publish(1)).producers == map[0 := GotW(span, 0)];
  }

  lemma FetchOne(s: State, span: Cells, n: nat)
    requires Fetching(s, span, n) && n < CELLS
    ensures Enabled(s, PollCopy) && Fetching(Step(s, PollCopy), span, n + 1)
  {
    assert Index(0) == 0;
  }

  lemma FetchEnds(s: State, span: Cells)
    requires Fetching(s, span, CELLS)
    ensures Enabled(s, PollClear) && Enabled(Step(s, PollClear), PollAdvance)
    ensures var e := Step(Step(s, PollClear), PollAdvance);
            |e.slots| == RING && e.producers == map[0 := GotW(span, 0)] && e.wpos == e.rpos == 1 && e.dropped == 0
  {
  }

  lemma FetchAll(span: Cells) returns (run: seq<State>, events: seq<Event>)
    requires |span| == HEAD_CELLS
    ensures Run(run, events) && |run| == |events| + 1
    ensures var s := run[|events|];
            |s.slots| == RING && s.producers == map[0 := GotW(span, 0)] && s.wpos == s.rpos == 1 && s.dropped == 0
  {
    hide Enabled, Step, Run, Storing, Fetching;
    run, events := StoreAll(span);
    RunLength(run, events);
    FetchStarts(run[|events|], span);
    run, events := Next(run, events, Publish(1));
    run, events := Next(run, events, PollLoad);
    run, events := Next(run, events, PollTest);
    var n: nat := 0;
    while n < CELLS
      invariant n <= CELLS && Run(run, events) && |run| == |events| + 1 && Fetching(run[|events|], span, n)
    {
      FetchOne(run[|events|], span, n);
      run, events := Next(run, events, PollCopy);
      n := n + 1;
    }
    FetchEnds(run[|events|], span);
    run, events := Next(run, events, PollClear);
    run, events := Next(run, events, PollAdvance);
  }

  lemma RunLength(run: seq<State>, events: seq<Event>)
    requires Run(run, events)
    ensures |run| == |events| + 1
  {
  }

  lemma Next(run: seq<State>, events: seq<Event>, e: Event) returns (r: seq<State>, es: seq<Event>)
    requires Run(run, events) && |run| == |events| + 1 && Enabled(run[|events|], e)
    ensures Run(r, es) && |r| == |es| + 1 == |events| + 2 && r[|es|] == Step(run[|events|], e)
    ensures r[|es| - 1] == run[|events|] && es[|es| - 1] == e
  {
    Then(run, events, e);
    r, es := run + [Step(run[|events|], e)], events + [e];
  }

  /** A run in which an offer is dropped while the ring is empty: it read wpos before another span came and went. */
  lemma DroppedWhileEmpty(span: Cells) returns (run: seq<State>, events: seq<Event>)
    requires |span| == HEAD_CELLS
    ensures Run(run, events) && |run| == |events| + 1 >= 2 && events[|events| - 1] == Claim(0, false)
    ensures var s := run[|events| - 1]; s.wpos == s.rpos && s.dropped == 0
    ensures run[|events|].dropped == 1
  {
    hide Run;
    run, events := FetchAll(span);
    run, events := Next(run, events, LoadR(0));
    run, events := Next(run, events, Claim(0, false));
  }
}
