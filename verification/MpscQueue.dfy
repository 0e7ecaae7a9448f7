/**
 * The linked multi-producer, single-consumer queue (src/core/cmq_queue.c). A push is an
 * exchange of the tail followed, possibly much later, by the store that links the new node;
 * a pop loads, reads, advances and frees. Every access to shared memory is one step. Freed
 * addresses may be handed out again, so a stale pointer would meet a stranger's node.
 */
module MpscQueue {
  import opened Common

  type Addr = nat
  type Data = int
  datatype Node = Node(data: Data, next: Option<Addr>)

  /** Where a pushing thread stands; threads without an entry are outside push. */
  datatype Producer =
    | Made(node: Addr, data: Data)        // node allocated and filled in
    | Swapped(node: Addr, prev: Addr)     // tail exchanged, prev not linked yet

  /** Where the one popping thread stands. */
  datatype Consumer =
    | Idle
    | Loaded(head: Addr, next: Addr)
    | Read(head: Addr, next: Addr, data: Data)
    | Advanced(head: Addr, data: Data)

  datatype State = State(
    heap: map<Addr, Node>,       // allocated nodes
    head: Addr,
    tail: Addr,
    producers: map<nat, Producer>,
    consumer: Consumer,
    fault: bool,                 // a node was touched that is not allocated
    // history
    order: seq<Addr>,            // the nodes from head to tail, in exchange order
    unlinked: map<Addr, nat>,    // nodes whose successor is not linked yet, and who will do it
    pushed: seq<Data>,           // data in tail-exchange order
    popped: seq<Data>)           // data the consumer got, in order

  function Init(stub: Addr): State {
    State(map[stub := Node(0, None)], stub, stub, map[], Idle, false, [stub], map[], [], [])
  }

  datatype Event =
    | Make(th: nat, at: Addr, data: Data)   // malloc and fill
    | Swap(th: nat)                         // exchange the tail
    | Link(th: nat)                         // prev->next = node
    | PopLoad                               // load head->next
    | PopRead                               // read next->data
    | PopAdvance                            // head = next
    | PopFree                               // free the old head, return the data

  /** A step is possible when its thread is there; malloc returns an address not in use. */
  predicate Enabled(s: State, e: Event) {
    match e
    case Make(th, at, _) => th !in s.producers && at !in s.heap
    case Swap(th) => th in s.producers && s.producers[th].Made?
    case Link(th) => th in s.producers && s.producers[th].Swapped?
    case PopLoad => s.consumer.Idle?
    case PopRead => s.consumer.Loaded?
    case PopAdvance => s.consumer.Read?
    case PopFree => s.consumer.Advanced?
  }

  /** The nodes a step reads, writes or frees. */
  function Touches(s: State, e: Event): set<Addr>
    requires Enabled(s, e)
  {
    match e
    case Make(_, _, _) => {}
    case Swap(_) => {}
    case Link(th) => {s.producers[th].prev}
    case PopLoad => {s.head}
    case PopRead => {s.consumer.next}
    case PopAdvance => {}
    case PopFree => {s.consumer.head}
  }

  function Step(s: State, e: Event): State
    requires Enabled(s, e)
  {
    if Touches(s, e) <= s.heap.Keys then Do(s, e) else s.(fault := true)
  }

  function Do(s: State, e: Event): State
    requires Enabled(s, e) && Touches(s, e) <= s.heap.Keys
  {
    match e
    case Make(th, at, data) =>
      s.(heap := s.heap[at := Node(data, None)], producers := s.producers[th := Made(at, data)])
    case Swap(th) =>
      var Made(node, data) := s.producers[th];
      s.(tail := node, producers := s.producers[th := Swapped(node, s.tail)],
         order := s.order + [node], unlinked := s.unlinked[s.tail := th], pushed := s.pushed + [data])
    case Link(th) =>
      var Swapped(node, prev) := s.producers[th];
      s.(heap := s.heap[prev := s.heap[prev].(next := Some(node))], producers := s.producers - {th},
         unlinked := s.unlinked - {prev})
    case PopLoad =>
      var next := s.heap[s.head].next;
      if next.None? then s else s.(consumer := Loaded(s.head, next.value))
    case PopRead =>
      s.(consumer := Read(s.consumer.head, s.consumer.next, s.heap[s.consumer.next].data))
    case PopAdvance =>
      s.(head := s.consumer.next, consumer := Advanced(s.consumer.head, s.consumer.data),
         order := if s.order == [] then [] else s.order[1..])
    case PopFree =>
      s.(heap := s.heap - {s.consumer.head}, popped := s.popped + [s.consumer.data], consumer := Idle)
  }

  // ---- the invariant ----

  ghost predicate OrderOk(s: State) {
    && |s.order| > 0 && s.order[0] == s.head && s.order[|s.order| - 1] == s.tail
    && (forall i :: 0 <= i < |s.order| ==> s.order[i] in s.heap)
    && (forall i, j :: 0 <= i < j < |s.order| ==> s.order[i] != s.order[j])
    && s.heap[s.tail].next == None
  }

  /** Each node of the order is linked to its successor, or one producer is about to do it. */
  ghost predicate LinkOk(s: State, i: nat)
    requires OrderOk(s) && i < |s.order| - 1
  {
    var a, b := s.order[i], s.order[i + 1];
    if a in s.unlinked
    then s.heap[a].next == None && s.unlinked[a] in s.producers && s.producers[s.unlinked[a]] == Swapped(b, a)
    else s.heap[a].next == Some(b)
  }

  ghost predicate ProducerOk(s: State, th: nat)
    requires th in s.producers
  {
    match s.producers[th]
    case Made(node, data) => node in s.heap && node !in s.order && s.heap[node] == Node(data, None)
    case Swapped(node, prev) => node in s.order && prev in s.unlinked && s.unlinked[prev] == th
  }

  ghost predicate ProducersDistinct(s: State) {
    forall a, b :: a in s.producers && b in s.producers && a != b ==> s.producers[a].node != s.producers[b].node
  }

  ghost predicate ConsumerOk(s: State)
    requires OrderOk(s)
  {
    match s.consumer
    case Idle => true
    case Loaded(h, n) => |s.order| > 1 && h == s.head && n == s.order[1] && s.heap[h].next == Some(n)
    case Read(h, n, d) =>
      |s.order| > 1 && h == s.head && n == s.order[1] && s.heap[h].next == Some(n) && d == s.heap[n].data
    case Advanced(h, d) =>
      h in s.heap && h !in s.order && forall th :: th in s.producers && s.producers[th].Made? ==>
          s.producers[th].node != h
  }

  /** Data in the nodes behind the head. */
  function Waiting(heap: map<Addr, Node>, order: seq<Addr>): seq<Data>
    requires forall i :: 0 <= i < |order| ==> order[i] in heap
  {
    if |order| <= 1 then [] else Waiting(heap, order[..|order| - 1]) + [heap[order[|order| - 1]].data]
  }

  /** What was pushed is what was popped, what the consumer holds, and what waits, in order. */
  ghost predicate AccountOk(s: State)
    requires OrderOk(s)
  {
    s.pushed == s.popped + (if s.consumer.Advanced? then [s.consumer.data] else []) + Waiting(s.heap, s.order)
  }

  ghost predicate Inv(s: State) {
    && !s.fault
    && OrderOk(s)
    && (forall i :: 0 <= i < |s.order| - 1 ==> LinkOk(s, i))
    && (forall a :: a in s.unlinked ==> a in s.order[..|s.order| - 1])
    && (forall th :: th in s.producers ==> ProducerOk(s, th))
    && ProducersDistinct(s)
    && ConsumerOk(s)
    && AccountOk(s)
  }

  lemma InitInv(stub: Addr)
    ensures Inv(Init(stub))
  {
  }

  /** No step touches a node that is not allocated. */
  lemma Safe(s: State, e: Event)
    requires Inv(s) && Enabled(s, e)
    ensures Touches(s, e) <= s.heap.Keys
  {
    if e.Link? { assert ProducerOk(s, e.th); }
  }

  lemma {:induction false} WaitingFrame(h: map<Addr, Node>, g: map<Addr, Node>, order: seq<Addr>)
    requires forall i :: 0 <= i < |order| ==> order[i] in h && order[i] in g
    requires forall i :: 0 < i < |order| ==> h[order[i]].data == g[order[i]].data
    ensures Waiting(h, order) == Waiting(g, order)
  {
    if |order| > 1 { WaitingFrame(h, g, order[..|order| - 1]); }
  }

  lemma {:induction false} WaitingHead(h: map<Addr, Node>, order: seq<Addr>)
    requires |order| > 1 && forall i :: 0 <= i < |order| ==> order[i] in h
    ensures Waiting(h, order) == [h[order[1]].data] + Waiting(h, order[1..])
  {
    if |order| > 2 {
      WaitingHead(h, order[..|order| - 1]);
      assert order[..|order| - 1][1..] == order[1..][..|order| - 2];
    } else {
      assert order[..1] == [order[0]];
      assert Waiting(h, order[..1]) == [];
    }
  }

  lemma MakeKeeps(s: State, th: nat, at: Addr, data: Data)
    requires Inv(s) && Enabled(s, Make(th, at, data))
    ensures Inv(Step(s, Make(th, at, data)))
  {
    var u := Step(s, Make(th, at, data));
    WaitingFrame(s.heap, u.heap, s.order);
    forall t | t in u.producers ensures ProducerOk(u, t) && (t != th ==> u.producers[t].node != at) {
      if t != th { assert ProducerOk(s, t); }
    }
    forall i | 0 <= i < |u.order| - 1 ensures LinkOk(u, i) { assert LinkOk(s, i); }
  }

  /** The place in the order where a producer's link is missing. */
  lemma SwappedAt(s: State, th: nat) returns (k: nat)
    requires Inv(s) && th in s.producers && s.producers[th].Swapped?
    ensures k < |s.order| - 1 && s.producers[th] == Swapped(s.order[k + 1], s.order[k])
  {
    assert ProducerOk(s, th);
    assert s.producers[th].prev in s.order[..|s.order| - 1];
    k :| 0 <= k < |s.order| - 1 && s.producers[th].prev == s.order[k];
    assert LinkOk(s, k);
  }

  lemma SwapOrder(s: State, th: nat)
    requires Inv(s) && Enabled(s, Swap(th))
    ensures ProducerOk(s, th) && OrderOk(Step(s, Swap(th))) && ProducersDistinct(Step(s, Swap(th)))
    ensures s.tail !in s.unlinked
  {
    hide LinkOk, AccountOk, ConsumerOk;
    assert ProducerOk(s, th);
    var init := s.order[..|s.order| - 1];
    assert s.tail in s.unlinked ==> s.tail in init;
  }

  lemma SwapAccount(s: State, th: nat)
    requires Inv(s) && Enabled(s, Swap(th)) && ProducerOk(s, th) && OrderOk(Step(s, Swap(th)))
    ensures AccountOk(Step(s, Swap(th))) && ConsumerOk(Step(s, Swap(th)))
  {
    hide LinkOk, ProducersDistinct;
    assert Step(s, Swap(th)).order[..|s.order|] == s.order;
  }

  lemma SwapLinks(s: State, th: nat)
    requires Inv(s) && Enabled(s, Swap(th))
    requires OrderOk(Step(s, Swap(th))) && s.tail !in s.unlinked && ProducerOk(s, th)
    ensures var u := Step(s, Swap(th));
            && (forall i :: 0 <= i < |u.order| - 1 ==> LinkOk(u, i))
            && (forall a :: a in u.unlinked ==> a in u.order[..|u.order| - 1])
  {
    hide AccountOk, ConsumerOk, ProducersDistinct;
    var u := Step(s, Swap(th));
    forall i | 0 <= i < |u.order| - 1 ensures LinkOk(u, i) {
      if i < |s.order| - 1 { assert LinkOk(s, i); }
    }
    assert u.order[..|u.order| - 1] == s.order;
    forall a | a in u.unlinked ensures a in u.order[..|u.order| - 1] {
      assert a == s.tail || a in s.order[..|s.order| - 1];
    }
  }

  lemma SwapProducer(s: State, th: nat, t: nat)
    requires Inv(s) && Enabled(s, Swap(th)) && t in Step(s, Swap(th)).producers && s.tail !in s.unlinked
    ensures ProducerOk(Step(s, Swap(th)), t)
  {
    hide AccountOk, ConsumerOk, LinkOk;
    assert ProducerOk(s, t) && ProducerOk(s, th);
  }

  lemma SwapKeeps(s: State, th: nat)
    requires Inv(s) && Enabled(s, Swap(th))
    ensures Inv(Step(s, Swap(th)))
  {
    hide AccountOk, ConsumerOk, ProducersDistinct, LinkOk, ProducerOk;
    SwapOrder(s, th);
    SwapAccount(s, th);
    SwapLinks(s, th);
    var u := Step(s, Swap(th));
    forall t | t in u.producers ensures ProducerOk(u, t) { SwapProducer(s, th, t); }
  }

  lemma LinkOrder(s: State, th: nat)
    requires Inv(s) && Enabled(s, Link(th))
    ensures var u := Step(s, Link(th)); u.order == s.order && OrderOk(u) && ProducersDistinct(u) && !u.fault
    ensures forall i :: 0 <= i < |s.order| ==> Step(s, Link(th)).heap[s.order[i]].data == s.heap[s.order[i]].data
  {
    hide LinkOk, AccountOk, ConsumerOk;
    Safe(s, Link(th));
    var k := SwappedAt(s, th);
  }

  lemma LinkAccount(s: State, th: nat)
    requires Inv(s) && Enabled(s, Link(th)) && OrderOk(Step(s, Link(th)))
    ensures AccountOk(Step(s, Link(th))) && ConsumerOk(Step(s, Link(th)))
  {
    hide ProducersDistinct;
    LinkOrder(s, th);
    var k := SwappedAt(s, th);
    assert LinkOk(s, k);
    hide LinkOk;
    WaitingFrame(s.heap, Step(s, Link(th)).heap, s.order);
  }

  lemma LinkLinks(s: State, th: nat, i: nat)
    requires Inv(s) && Enabled(s, Link(th)) && OrderOk(Step(s, Link(th))) && i < |s.order| - 1
    ensures Step(s, Link(th)).order == s.order && LinkOk(Step(s, Link(th)), i)
  {
    hide AccountOk, ConsumerOk, ProducersDistinct, ProducerOk;
    Safe(s, Link(th));
    var k := SwappedAt(s, th);
    assert LinkOk(s, i) && LinkOk(s, k);
    assert i != k ==> s.order[i] != s.order[k];
  }

  lemma LinkKeeps(s: State, th: nat)
    requires Inv(s) && Enabled(s, Link(th))
    ensures Inv(Step(s, Link(th)))
  {
    Safe(s, Link(th));
    LinkOrder(s, th);
    LinkAccount(s, th);
    var u := Step(s, Link(th));
    forall i | 0 <= i < |u.order| - 1 ensures LinkOk(u, i) { LinkLinks(s, th, i); }
    hide AccountOk, ConsumerOk, ProducersDistinct, LinkOk;
    assert ProducerOk(s, th);
    forall t | t in u.producers ensures ProducerOk(u, t) { assert ProducerOk(s, t); }
  }

  lemma PopKeeps(s: State, e: Event)
    requires Inv(s) && Enabled(s, e) && (e.PopLoad? || e.PopRead?)
    ensures Inv(Step(s, e))
  {
    var u := Step(s, e);
    assert |s.order| > 1 ==> LinkOk(s, 0);
    forall i | 0 <= i < |u.order| - 1 ensures LinkOk(u, i) { assert LinkOk(s, i); }
    hide LinkOk;
    forall t | t in u.producers ensures ProducerOk(u, t) { assert ProducerOk(s, t); }
  }

  lemma FreeKeeps(s: State)
    requires Inv(s) && Enabled(s, PopFree)
    ensures Inv(Step(s, PopFree))
  {
    var u := Step(s, PopFree);
    WaitingFrame(s.heap, u.heap, s.order);
    forall i | 0 <= i < |u.order| - 1 ensures LinkOk(u, i) { assert LinkOk(s, i); }
    hide LinkOk;
    forall t | t in u.producers ensures ProducerOk(u, t) { assert ProducerOk(s, t); }
  }

  lemma AdvanceOrder(s: State)
    requires Inv(s) && Enabled(s, PopAdvance)
    ensures var u := Step(s, PopAdvance); !u.fault && OrderOk(u) && ConsumerOk(u) && ProducersDistinct(u)
  {
    hide LinkOk, AccountOk;
    forall t | t in s.producers ensures ProducerOk(s, t) {}
  }

  lemma AdvanceAccount(s: State)
    requires Inv(s) && Enabled(s, PopAdvance) && OrderOk(Step(s, PopAdvance))
    ensures AccountOk(Step(s, PopAdvance))
  {
    hide LinkOk, ProducersDistinct, ProducerOk;
    WaitingHead(s.heap, s.order);
  }

  lemma AdvanceLinks(s: State)
    requires Inv(s) && Enabled(s, PopAdvance) && OrderOk(Step(s, PopAdvance))
    ensures var u := Step(s, PopAdvance);
            && (forall i :: 0 <= i < |u.order| - 1 ==> LinkOk(u, i))
            && (forall a :: a in u.unlinked ==> a in u.order[..|u.order| - 1])
  {
    hide AccountOk, ProducersDistinct, ProducerOk;
    var u := Step(s, PopAdvance);
    forall i | 0 <= i < |u.order| - 1 ensures LinkOk(u, i) { assert LinkOk(s, i + 1); }
    assert LinkOk(s, 0);
    hide LinkOk;
    forall a | a in u.unlinked ensures a in u.order[..|u.order| - 1] {
      assert a in s.order[..|s.order| - 1] && a != s.order[0];
      var i :| 0 <= i < |s.order| - 1 && a == s.order[i];
      assert u.order[..|u.order| - 1][i - 1] == a;
    }
  }

  lemma AdvanceProducer(s: State, t: nat)
    requires Inv(s) && Enabled(s, PopAdvance) && t in s.producers
    ensures ProducerOk(Step(s, PopAdvance), t)
  {
    hide AccountOk, ProducersDistinct, LinkOk;
    assert ProducerOk(s, t);
    if s.producers[t].Swapped? {
      var k := SwappedAt(s, t);
      assert Step(s, PopAdvance).order[k] == s.producers[t].node;
    }
  }

  lemma AdvanceKeeps(s: State)
    requires Inv(s) && Enabled(s, PopAdvance)
    ensures Inv(Step(s, PopAdvance))
  {
    hide AccountOk, ConsumerOk, ProducersDistinct, LinkOk, ProducerOk;
    AdvanceOrder(s);
    AdvanceAccount(s);
    AdvanceLinks(s);
    var u := Step(s, PopAdvance);
    forall t | t in u.producers ensures ProducerOk(u, t) { AdvanceProducer(s, t); }
  }

  lemma StepKeeps(s: State, e: Event)
    requires Inv(s) && Enabled(s, e)
    ensures Inv(Step(s, e))
  {
    Safe(s, e);
    match e {
      case Make(th, at, data) => MakeKeeps(s, th, at, data);
      case Swap(th) => SwapKeeps(s, th);
      case Link(th) => LinkKeeps(s, th);
      case PopLoad => PopKeeps(s, e);
      case PopRead => PopKeeps(s, e);
      case PopAdvance => AdvanceKeeps(s);
      case PopFree => FreeKeeps(s);
    }
  }

  // ---- whole runs ----

  /** Any interleaving of pushes and pops from an empty queue. */
  ghost predicate Run(run: seq<State>, events: seq<Event>) {
    && |run| == |events| + 1
    && (exists stub :: run[0] == Init(stub))
    && forall k :: 0 <= k < |events| ==> Enabled(run[k], events[k]) && run[k + 1] == Step(run[k], events[k])
  }

  lemma {:induction false} RunInv(run: seq<State>, events: seq<Event>, k: nat)
    requires Run(run, events) && k < |run|
    ensures Inv(run[k])
  {
    if k == 0 {
      var stub :| run[0] == Init(stub);
      InitInv(stub);
    } else {
      RunInv(run, events, k - 1);
      StepKeeps(run[k - 1], events[k - 1]);
    }
  }

  /** In every interleaving items come out once each, in the order of the tail exchanges. */
  lemma Fifo(run: seq<State>, events: seq<Event>, n: nat)
    requires Run(run, events) && n < |run|
    ensures run[n].popped <= run[n].pushed
    ensures OrderOk(run[n])
    ensures run[n].consumer.Idle? ==> run[n].pushed == run[n].popped + Waiting(run[n].heap, run[n].order)
  {
    RunInv(run, events, n);
  }

  /** No step of any run reads, writes or frees a node that is not allocated. */
  lemma NoUseAfterFree(run: seq<State>, events: seq<Event>, n: nat)
    requires Run(run, events) && n < |run|
    ensures !run[n].fault
    ensures n < |events| ==> Touches(run[n], events[n]) <= run[n].heap.Keys
  {
    RunInv(run, events, n);
    if n < |events| { Safe(run[n], events[n]); }
  }

  /** A pop finds nothing only if nothing waits or the oldest waiting push has yet to link. */
  lemma EmptyPop(run: seq<State>, events: seq<Event>, n: nat)
    requires Run(run, events) && n < |events| && events[n].PopLoad?
    ensures OrderOk(run[n])
    ensures var s := run[n];
            run[n + 1].consumer.Idle? <==>
            (Waiting(s.heap, s.order) == [] ||
             (s.head in s.unlinked && s.unlinked[s.head] in s.producers && s.producers[s.unlinked[s.head]].Swapped?))
  {
    RunInv(run, events, n);
    var s := run[n];
    if |s.order| > 1 {
      assert LinkOk(s, 0);
      WaitingHead(s.heap, s.order);
    } else {
      var init := s.order[..|s.order| - 1];
      assert s.head in s.unlinked ==> s.head in init;
    }
  }
}
