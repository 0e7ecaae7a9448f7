/**
 * The event loop's timer table (src/net/cmq_ev.c): one dispatcher thread and any number of
 * threads that add and delete timers. Each lock region is one step; the callback runs with
 * the lock released, between the steps Scan and Finish.
 */
module Timers {
  import opened Common

  const MAX_TIMERS: nat := 256

  /** Every call of timer_add is one registration; its number stands for callback and data. */
  type Reg = nat

  datatype Timer = Timer(
    id: int, expire: nat, interval: nat, cb: Option<Reg>,
    repeat: bool, active: bool, firing: bool, cancelled: bool)

  const FREE := Timer(0, 0, 0, None, false, false, false, false)

  datatype Dispatcher =
    | Away
    | Scanning(i: nat, now: nat)
    | Calling(i: nat, now: nat, tid: int, cb: Option<Reg>, wasRepeat: bool)

  /** A cross-thread timer_del that waits for the callback of its timer to end. */
  datatype Wait = Wait(slot: nat, id: int, cb: Option<Reg>)

  datatype State = State(
    slots: seq<Timer>,
    nextId: int,
    disp: Dispatcher,
    waits: map<nat, Wait>,
    // history
    nextReg: Reg,            // registrations so far
    oneShots: set<Reg>,      // those added with interval 0
    starts: seq<Reg>,        // callbacks started, in order
    deleted: set<Reg>,       // a cross-thread timer_del returned 0
    revoked: set<Reg>)       // any timer_del took effect, the reentrant ones included

  function Init(): State {
    State(seq(MAX_TIMERS, i => FREE), 1, Away, map[], 0, {}, [], {}, {})
  }

  datatype Event =
    | Dispatch(now: nat)                            // the run thread begins a pass
    | Scan                                          // first lock region of one slot
    | Finish                                        // second lock region, after the callback
    | Add(at: nat, delay: nat, interval: nat)       // timer_add, from any thread
    | Del(thread: nat, id: int, reentrant: bool)    // timer_del up to its first unlock
    | Poll(thread: nat)                             // one look of a waiting timer_del

  function SatAdd(a: nat, b: nat): nat { if b > UINT64_MAX - a then UINT64_MAX else a + b }

  /** First slot neither armed nor inside its callback, or |slots|. */
  function FirstFree(slots: seq<Timer>, from: nat): (i: nat)
    requires from <= |slots|
    ensures from <= i <= |slots|
    ensures i < |slots| ==> !slots[i].active && !slots[i].firing
    ensures forall j :: from <= j < i ==> slots[j].active || slots[j].firing
    decreases |slots| - from
  {
    if from == |slots| || (!slots[from].active && !slots[from].firing) then from
    else FirstFree(slots, from + 1)
  }

  predicate InUse(slots: seq<Timer>, id: int) {
    exists j :: 0 <= j < |slots| && slots[j].id == id
  }

  /** The candidate after skipping 0, negatives and INT_MAX. */
  function Candidate(next: int): int { if next <= 0 || next == INT_MAX then 1 else next }

  /** The search for an id no slot holds; (-1, next) when the tries run out. */
  function PickId(slots: seq<Timer>, next: int, tries: nat): (int, int)
    decreases tries
  {
    if tries == 0 then (-1, next)
    else
      var cand := Candidate(next);
      if InUse(slots, cand) then PickId(slots, cand + 1, tries - 1) else (cand, cand + 1)
  }

  function Arm(s: State, i: nat, tid: int, next: int, at: nat, delay: nat, interval: nat): State
    requires i < |s.slots|
  {
    var t := Timer(tid, SatAdd(at, delay), interval, Some(s.nextReg), interval > 0, true, false, false);
    s.(slots := s.slots[i := t], nextId := next, nextReg := s.nextReg + 1,
       oneShots := if interval > 0 then s.oneShots else s.oneShots + {s.nextReg})
  }

  /** timer_add: the new state and the id returned (-1 on failure). */
  function AddTimer(s: State, at: nat, delay: nat, interval: nat): (State, int) {
    var i := FirstFree(s.slots, 0);
    if i == |s.slots| then (s, -1)
    else
      var (tid, next) := PickId(s.slots, s.nextId, MAX_TIMERS + 2);
      if tid < 0 then (s.(nextId := next), -1)
      else (Arm(s, i, tid, next, at, delay, interval), tid)
  }

  /** First slot holding this id that is armed or firing, or |slots|. */
  function Holder(slots: seq<Timer>, id: int, from: nat): (i: nat)
    requires from <= |slots|
    ensures from <= i <= |slots|
    ensures i < |slots| ==> slots[i].id == id && (slots[i].active || slots[i].firing)
    ensures forall j :: from <= j < i ==> !(slots[j].id == id && (slots[j].active || slots[j].firing))
    decreases |slots| - from
  {
    if from == |slots| || (slots[from].id == id && (slots[from].active || slots[from].firing)) then from
    else Holder(slots, id, from + 1)
  }

  /** A slot nobody holds any more. */
  function Clear(t: Timer): Timer {
    t.(active := false, repeat := false, cb := None, cancelled := false, id := 0)
  }

  function Regs(cb: Option<Reg>): set<Reg> { if cb.Some? then {cb.value} else {} }

  /** What a timer_del step did. */
  datatype DelResult = Refused | Deleted | Cancelling | Waiting

  /** timer_del up to its first unlock. */
  function DelTimer(s: State, thread: nat, id: int, reentrant: bool): (State, DelResult) {
    if id <= 0 then (s, Refused)
    else
      var i := Holder(s.slots, id, 0);
      if i == |s.slots| then (s, Refused)
      else
        var t := s.slots[i];
        if t.firing && !t.active then (s, Refused)
        else
          var regs := Regs(t.cb);
          if t.firing then
            var u := s.(slots := s.slots[i := t.(cancelled := true, active := false, repeat := false)],
                        revoked := s.revoked + regs);
            if reentrant then (u, Cancelling)
            else (u.(waits := u.waits[thread := Wait(i, id, t.cb)]), Waiting)
          else
            (s.(slots := s.slots[i := Clear(t)], revoked := s.revoked + regs, deleted := s.deleted + regs), Deleted)
  }

  /** One look of a waiting timer_del; it returns 0 when the wait is over. */
  function PollWait(s: State, thread: nat): State
    requires thread in s.waits && s.waits[thread].slot < |s.slots|
  {
    var w := s.waits[thread];
    var t := s.slots[w.slot];
    if t.firing && t.id == w.id then s
    else
      var slots := if t.id == w.id then s.slots[w.slot := t.(cb := None, cancelled := false, id := 0)] else s.slots;
      s.(slots := slots, waits := s.waits - {thread}, deleted := s.deleted + Regs(w.cb))
  }

  /** First lock region of the dispatcher on one slot. */
  function ScanSlot(s: State): State
    requires s.disp.Scanning? && s.disp.i < |s.slots|
  {
    var i, now := s.disp.i, s.disp.now;
    var t := s.slots[i];
    if !t.active || t.expire > now then s.(disp := Scanning(i + 1, now))
    else
      s.(slots := s.slots[i := t.(firing := true, cancelled := false, active := t.repeat)],
         disp := Calling(i, now, t.id, t.cb, t.repeat),
         starts := if t.cb.Some? then s.starts + [t.cb.value] else s.starts)
  }

  /** Second lock region: reschedule a repeating timer, clear any other. */
  function FinishSlot(s: State): State
    requires s.disp.Calling? && s.disp.i < |s.slots|
  {
    var Calling(i, now, tid, cb, wasRepeat) := s.disp;
    var t := s.slots[i].(firing := false);
    var u :=
      if t.id != tid then t
      else if t.cancelled || !wasRepeat then Clear(t)
      else if t.active then t.(expire := SatAdd(now, t.interval))
      else t.(repeat := false, cb := None, id := 0);
    s.(slots := s.slots[i := u], disp := Scanning(i + 1, now))
  }

  /** May this step be taken here? A reentrant timer_del runs inside the callback. */
  predicate Enabled(s: State, e: Event) {
    match e
    case Dispatch(_) => s.disp.Away?
    case Scan => s.disp.Scanning?
    case Finish => s.disp.Calling? && s.disp.i < |s.slots|
    case Add(_, _, _) => true
    case Del(thread, _, reentrant) => thread !in s.waits && (reentrant ==> s.disp.Calling?)
    case Poll(thread) => thread in s.waits && s.waits[thread].slot < |s.slots|
  }

  function Step(s: State, e: Event): State
    requires Enabled(s, e)
  {
    match e
    case Dispatch(now) => s.(disp := Scanning(0, now))
    case Scan => if s.disp.i >= |s.slots| then s.(disp := Away) else ScanSlot(s)
    case Finish => FinishSlot(s)
    case Add(at, delay, interval) => AddTimer(s, at, delay, interval).0
    case Del(thread, id, reentrant) => DelTimer(s, thread, id, reentrant).0
    case Poll(thread) => PollWait(s, thread)
  }

  /** The callback of this registration is running now. */
  predicate Running(s: State, r: Reg) { s.disp.Calling? && s.disp.cb == Some(r) }

  // ---- the invariant ----

  ghost predicate SlotOk(s: State, i: nat)
    requires i < |s.slots|
  {
    var t := s.slots[i];
    && t.id >= 0
    && (t.firing <==> s.disp.Calling? && s.disp.i == i)
    && (!t.active && !t.firing ==> t.cb == None && t.id == 0)
    && (t.id != 0 ==> t.cb.Some?)
    && (t.cb.Some? ==> t.id != 0 && t.cb.value < s.nextReg && t.cb.value !in s.deleted)
    && (t.active && t.cb.Some? ==> t.cb.value !in s.revoked)
    && (t.active && t.cb.Some? ==> (t.repeat <==> t.cb.value !in s.oneShots))
    && (t.active && t.cb.Some? && t.cb.value in s.oneShots ==> t.cb.value !in s.starts)
  }

  ghost predicate Distinct(slots: seq<Timer>) {
    forall i, j :: 0 <= i < j < |slots| ==>
      (slots[i].id != 0 ==> slots[i].id != slots[j].id) &&
      (slots[i].cb.Some? ==> slots[i].cb != slots[j].cb)
  }

  ghost predicate DispatcherOk(s: State) {
    s.disp.Calling? ==>
      && s.disp.i < |s.slots|
      && var t := s.slots[s.disp.i];
         && t.id == s.disp.tid
         && t.cb == s.disp.cb
         && (t.active ==> s.disp.wasRepeat && t.repeat && !t.cancelled)
         && (s.disp.wasRepeat && !t.active ==> t.cancelled)
  }

  /** A waiter's registration is still inside its callback in the waiter's slot, or gone. */
  ghost predicate WaitOk(s: State, w: Wait) {
    && w.slot < |s.slots| && w.cb.Some? && w.cb.value in s.revoked && w.id > 0
    && (forall j :: 0 <= j < |s.slots| && s.slots[j].cb == w.cb ==>
          j == w.slot && s.slots[j].firing && !s.slots[j].active && s.slots[j].id == w.id)
  }

  ghost predicate HistoryOk(s: State) {
    && (forall k :: 0 <= k < |s.starts| ==> s.starts[k] < s.nextReg)
    && (forall r :: r in s.deleted || r in s.revoked || r in s.oneShots ==> r < s.nextReg)
    && s.deleted <= s.revoked
    && OneShotsOnce(s)
  }

  /** No one-shot registration appears twice among the started callbacks. */
  ghost predicate OneShotsOnce(s: State) {
    forall j, k :: 0 <= j < k < |s.starts| && s.starts[j] == s.starts[k] ==> s.starts[j] !in s.oneShots
  }

  ghost predicate Inv(s: State) {
    && |s.slots| == MAX_TIMERS && s.nextId <= INT_MAX
    && (forall i :: 0 <= i < |s.slots| ==> SlotOk(s, i))
    && Distinct(s.slots)
    && DispatcherOk(s)
    && (forall th :: th in s.waits ==> WaitOk(s, s.waits[th]))
    && HistoryOk(s)
  }

  lemma InitInv()
    ensures Inv(Init())
  {
  }

  lemma ScanKeeps(s: State)
    requires Inv(s) && s.disp.Scanning?
    ensures Inv(Step(s, Scan))
  {
    var u := Step(s, Scan);
    assert s.disp.i < |s.slots| ==> SlotOk(s, s.disp.i);
    forall i | 0 <= i < |u.slots| ensures SlotOk(u, i) {
      assert SlotOk(s, i);
    }
    forall th | th in u.waits ensures WaitOk(u, u.waits[th]) {
      assert WaitOk(s, s.waits[th]);
    }
  }

  lemma FinishKeeps(s: State)
    requires Inv(s) && s.disp.Calling?
    ensures Inv(Step(s, Finish))
  {
    var u := Step(s, Finish);
    assert SlotOk(s, s.disp.i);
    forall i | 0 <= i < |u.slots| ensures SlotOk(u, i) {
      assert SlotOk(s, i);
    }
    forall th | th in u.waits ensures WaitOk(u, u.waits[th]) {
      assert WaitOk(s, s.waits[th]);
    }
  }

  /** The id found is fresh: no slot holds it. */
  lemma {:induction false} PickFree(slots: seq<Timer>, next: int, tries: nat)
    requires next < INT_MAX + 1
    ensures var p := PickId(slots, next, tries); p.0 == -1 || (0 < p.0 < INT_MAX && !InUse(slots, p.0))
    ensures var p := PickId(slots, next, tries); p.1 <= INT_MAX
    decreases tries
  {
    if tries > 0 && InUse(slots, Candidate(next)) {
      PickFree(slots, Candidate(next) + 1, tries - 1);
    }
  }

  lemma ArmKeeps(s: State, i: nat, tid: int, next: int, at: nat, delay: nat, interval: nat)
    requires Inv(s) && i < |s.slots| && !s.slots[i].active && !s.slots[i].firing
    requires tid > 0 && !InUse(s.slots, tid) && next <= INT_MAX
    ensures Inv(Arm(s, i, tid, next, at, delay, interval))
  {
    var u := Arm(s, i, tid, next, at, delay, interval);
    assert s.disp.Calling? ==> SlotOk(s, s.disp.i);
    forall j | 0 <= j < |u.slots| ensures SlotOk(u, j) {
      assert SlotOk(s, j);
    }
    forall j, k | 0 <= j < k < |u.slots|
      ensures u.slots[j].id != 0 ==> u.slots[j].id != u.slots[k].id
      ensures u.slots[j].cb.Some? ==> u.slots[j].cb != u.slots[k].cb
    {
      assert SlotOk(s, j) && SlotOk(s, k);
      assert s.slots[j].id != 0 ==> s.slots[j].id != s.slots[k].id;
    }
    forall th | th in u.waits ensures WaitOk(u, u.waits[th]) {
      assert WaitOk(s, s.waits[th]);
    }
  }

  lemma AddKeeps(s: State, at: nat, delay: nat, interval: nat)
    requires Inv(s)
    ensures Inv(AddTimer(s, at, delay, interval).0)
  {
    PickFree(s.slots, s.nextId, MAX_TIMERS + 2);
    hide PickId, FirstFree, InUse, Arm;
    var i := FirstFree(s.slots, 0);
    var p := PickId(s.slots, s.nextId, MAX_TIMERS + 2);
    if i < |s.slots| && p.0 >= 0 {
      ArmKeeps(s, i, p.0, p.1, at, delay, interval);
    } else {
      var u := AddTimer(s, at, delay, interval).0;
      forall j | 0 <= j < |u.slots| ensures SlotOk(u, j) { assert SlotOk(s, j); }
      forall th | th in u.waits ensures WaitOk(u, u.waits[th]) { assert WaitOk(s, s.waits[th]); }
    }
  }

  lemma DelKeeps(s: State, thread: nat, id: int, reentrant: bool)
    requires Inv(s) && thread !in s.waits
    ensures Inv(DelTimer(s, thread, id, reentrant).0)
  {
    var i := Holder(s.slots, id, 0);
    if id > 0 && i < |s.slots| {
      var u := DelTimer(s, thread, id, reentrant).0;
      assert SlotOk(s, i);
      forall j | 0 <= j < |u.slots| ensures SlotOk(u, j) {
        assert SlotOk(s, j);
      }
      forall th | th in u.waits ensures WaitOk(u, u.waits[th]) {
        if th in s.waits { assert WaitOk(s, s.waits[th]); }
      }
    }
  }

  lemma PollKeeps(s: State, thread: nat)
    requires Inv(s) && thread in s.waits
    ensures Inv(PollWait(s, thread))
  {
    var u := PollWait(s, thread);
    var w := s.waits[thread];
    assert WaitOk(s, w);
    assert SlotOk(s, w.slot);
    forall i | 0 <= i < |u.slots| ensures SlotOk(u, i) {
      assert SlotOk(s, i);
    }
    forall th | th in u.waits ensures WaitOk(u, u.waits[th]) {
      assert WaitOk(s, s.waits[th]);
    }
  }

  lemma StepKeeps(s: State, e: Event)
    requires Inv(s) && Enabled(s, e)
    ensures Inv(Step(s, e))
  {
    match e {
      case Dispatch(now) =>
        var u := Step(s, e);
        forall i | 0 <= i < |u.slots| ensures SlotOk(u, i) { assert SlotOk(s, i); }
        forall th | th in u.waits ensures WaitOk(u, u.waits[th]) { assert WaitOk(s, s.waits[th]); }
      case Scan => ScanKeeps(s);
      case Finish => FinishKeeps(s);
      case Add(at, delay, interval) => AddKeeps(s, at, delay, interval);
      case Del(thread, id, reentrant) => DelKeeps(s, thread, id, reentrant);
      case Poll(thread) => PollKeeps(s, thread);
    }
  }

  // ---- whole runs ----

  /** A run from the empty table: any interleaving of the dispatcher with adds and deletes. */
  ghost predicate Run(run: seq<State>, events: seq<Event>) {
    && |run| == |events| + 1
    && run[0] == Init()
    && forall k :: 0 <= k < |events| ==> Enabled(run[k], events[k]) && run[k + 1] == Step(run[k], events[k])
  }

  lemma {:induction false} RunInv(run: seq<State>, events: seq<Event>, k: nat)
    requires Run(run, events) && k < |run|
    ensures Inv(run[k])
  {
    if k == 0 {
      InitInv();
    } else {
      RunInv(run, events, k - 1);
      StepKeeps(run[k - 1], events[k - 1]);
    }
  }

  /** Steps only extend the history, and never start a revoked registration. */
  lemma StepHistory(s: State, e: Event)
    requires Inv(s) && Enabled(s, e)
    ensures var u := Step(s, e);
            && s.deleted <= u.deleted && s.revoked <= u.revoked && s.starts <= u.starts
            && (forall k :: |s.starts| <= k < |u.starts| ==> u.starts[k] !in s.revoked)
  {
    if e.Scan? && s.disp.i < |s.slots| {
      assert SlotOk(s, s.disp.i);
    }
  }

  /** A timer that was deleted never starts again. */
  lemma {:induction false} RevokedNeverStarts(run: seq<State>, events: seq<Event>, i: nat, j: nat, r: Reg)
    requires Run(run, events) && i <= j < |run| && r in run[i].revoked
    ensures r in run[j].revoked && run[i].starts <= run[j].starts
    ensures forall k :: |run[i].starts| <= k < |run[j].starts| ==> run[j].starts[k] != r
    decreases j
  {
    if i < j {
      RevokedNeverStarts(run, events, i, j - 1, r);
      RunInv(run, events, j - 1);
      StepHistory(run[j - 1], events[j - 1]);
    }
  }

  lemma {:induction false} DeletedStays(run: seq<State>, events: seq<Event>, i: nat, j: nat, r: Reg)
    requires Run(run, events) && i <= j < |run| && r in run[i].deleted
    ensures r in run[j].deleted
    decreases j
  {
    if i < j {
      DeletedStays(run, events, i, j - 1, r);
      RunInv(run, events, j - 1);
      StepHistory(run[j - 1], events[j - 1]);
    }
  }

  /**
   * Once a cross-thread timer_del has returned 0, the callback of that timer is not running
   * and never starts again, in any interleaving.
   */
  lemma DeletedIsQuiet(run: seq<State>, events: seq<Event>, i: nat, j: nat, r: Reg)
    requires Run(run, events) && i <= j < |run| && r in run[i].deleted
    ensures !Running(run[j], r)
    ensures run[i].starts <= run[j].starts
    ensures forall k :: |run[i].starts| <= k < |run[j].starts| ==> run[j].starts[k] != r
  {
    RunInv(run, events, i);
    RevokedNeverStarts(run, events, i, j, r);
    DeletedStays(run, events, i, j, r);
    RunInv(run, events, j);
    assert run[j].disp.Calling? ==> SlotOk(run[j], run[j].disp.i);
  }

  /** A one-shot timer fires at most once in any run. */
  lemma OneShotFiresOnce(run: seq<State>, events: seq<Event>, n: nat, j: nat, k: nat)
    requires Run(run, events) && n < |run|
    requires j < k < |run[n].starts| && run[n].starts[j] == run[n].starts[k]
    ensures run[n].starts[j] !in run[n].oneShots
  {
    RunInv(run, events, n);
  }

  /** While a callback runs no step but its own Finish touches the slot's identity. */
  lemma SlotNotReused(run: seq<State>, events: seq<Event>, k: nat)
    requires Run(run, events) && k < |events| && run[k].disp.Calling? && !events[k].Finish?
    ensures run[k + 1].disp == run[k].disp && run[k].disp.i < |run[k].slots| == |run[k + 1].slots|
    ensures var a, b := run[k].slots[run[k].disp.i], run[k + 1].slots[run[k].disp.i];
            b.firing && b.id == a.id == run[k].disp.tid && b.cb == a.cb == run[k].disp.cb
  {
    RunInv(run, events, k);
    StepKeeps(run[k], events[k]);
    var s := run[k];
    assert SlotOk(s, s.disp.i);
    if events[k].Poll? {
      assert WaitOk(s, s.waits[events[k].thread]);
    }
  }

  /**
   * So when the callback ends the slot still carries its own id (never that of another
   * timer), and it is a repeating timer still armed unless it was deleted meanwhile.
   */
  lemma FinishFindsItsTimer(run: seq<State>, events: seq<Event>, k: nat)
    requires Run(run, events) && k < |run| && run[k].disp.Calling?
    ensures run[k].disp.i < |run[k].slots|
    ensures var t := run[k].slots[run[k].disp.i];
            t.id == run[k].disp.tid && (t.cancelled || !run[k].disp.wasRepeat || t.active)
  {
    RunInv(run, events, k);
  }

  // ---- a timer lost to a wrapped id ----

  /** Armed, but without callback and id: it will fire nothing and nobody can delete it. */
  predicate Hollow(t: Timer) { t.active && t.cb == None }

  /** A waiting timer_del looks at its slot, and another timer is armed there under the same id. */
  predicate MeetsNamesake(s: State, e: Event)
    requires Enabled(s, e)
  {
    e.Poll? && var w := s.waits[e.thread]; var t := s.slots[w.slot]; t.active && !t.firing && t.id == w.id
  }

  ghost predicate Hollows(s: State, u: State) {
    exists i :: 0 <= i < |s.slots| && i < |u.slots| && Hollow(u.slots[i]) && !Hollow(s.slots[i])
  }

  /** A step takes the callback from an armed timer exactly then, and it is not the deleted one. */
  lemma HollowsIff(s: State, e: Event)
    requires Inv(s) && Enabled(s, e)
    ensures Hollows(s, Step(s, e)) <==> MeetsNamesake(s, e)
    ensures MeetsNamesake(s, e) ==> s.slots[s.waits[e.thread].slot].cb != s.waits[e.thread].cb
  {
    var u := Step(s, e);
    forall i | 0 <= i < |s.slots| ensures SlotOk(s, i) {}
    if e.Poll? {
      var w := s.waits[e.thread];
      assert WaitOk(s, w);
      assert SlotOk(s, w.slot);
      if MeetsNamesake(s, e) { assert Hollow(u.slots[w.slot]) && !Hollow(s.slots[w.slot]); }
    } else if e.Finish? {
      assert SlotOk(s, s.disp.i);
    }
  }

  /** Before the counter wraps, the n-th timer has id n, and every armed timer its callback. */
  ghost predicate Counted(s: State) {
    s.nextReg < INT_MAX ==>
      && s.nextId == s.nextReg + 1
      && (forall i :: 0 <= i < |s.slots| && s.slots[i].cb.Some? ==> s.slots[i].id == s.slots[i].cb.value + 1)
      && (forall i :: 0 <= i < |s.slots| ==> !Hollow(s.slots[i]))
      && (forall th :: th in s.waits && s.waits[th].cb.Some? ==> s.waits[th].id == s.waits[th].cb.value + 1)
  }

  lemma AddCounted(s: State, at: nat, delay: nat, interval: nat)
    requires Inv(s) && Counted(s)
    ensures Counted(AddTimer(s, at, delay, interval).0)
  {
    AddFailsOnlyWhenFull(s, at, delay, interval);
    if s.nextReg < INT_MAX - 1 && FirstFree(s.slots, 0) < |s.slots| {
      forall j | 0 <= j < |s.slots| ensures s.slots[j].id != s.nextId { assert SlotOk(s, j); }
      assert PickId(s.slots, s.nextId, MAX_TIMERS + 2) == (s.nextId, s.nextId + 1);
    }
  }

  lemma StepCounted(s: State, e: Event)
    requires Inv(s) && Counted(s) && Enabled(s, e)
    ensures Counted(Step(s, e))
  {
    match e {
      case Add(at, delay, interval) => AddCounted(s, at, delay, interval);
      case Del(thread, id, reentrant) =>
        var i := Holder(s.slots, id, 0);
        if i < |s.slots| { assert SlotOk(s, i); }
      case Poll(thread) => PollCounted(s, thread);
      case Finish => assert SlotOk(s, s.disp.i);
      case Scan => if s.disp.i < |s.slots| { assert SlotOk(s, s.disp.i); }
      case Dispatch(now) =>
    }
  }

  lemma PollCounted(s: State, thread: nat)
    requires Inv(s) && Counted(s) && Enabled(s, Poll(thread))
    ensures Counted(Step(s, Poll(thread)))
  {
    var w := s.waits[thread];
    assert WaitOk(s, w);
    assert SlotOk(s, w.slot);
    HollowsIff(s, Poll(thread));
  }

  lemma {:induction false} RunCounted(run: seq<State>, events: seq<Event>, k: nat)
    requires Run(run, events) && k < |run|
    ensures Counted(run[k])
  {
    hide Counted, Step, Inv;
    if k == 0 {
      assert Counted(Init()) by { InitCounted(); }
    } else {
      RunCounted(run, events, k - 1);
      RunInv(run, events, k - 1);
      StepCounted(run[k - 1], events[k - 1]);
    }
  }

  lemma InitCounted()
    ensures Counted(Init())
  {
  }

  /** In a run of fewer than 2^31 - 1 adds every armed timer has its callback and its id. */
  lemma NoTimerLost(run: seq<State>, events: seq<Event>, k: nat, i: nat)
    requires Run(run, events) && k < |run| && run[k].nextReg < INT_MAX && i < |run[k].slots|
    ensures run[k].slots[i].active ==> run[k].slots[i].cb.Some? && run[k].slots[i].id > 0
  {
    RunCounted(run, events, k);
    RunInv(run, events, k);
    assert SlotOk(run[k], i);
  }

  /** A run, one step longer. */
  lemma Then(run: seq<State>, events: seq<Event>, e: Event) returns (r: seq<State>, es: seq<Event>)
    requires Run(run, events) && |run| == |events| + 1 && Enabled(run[|events|], e)
    ensures Run(r, es) && |r| == |es| + 1 == |events| + 2 && r[|es|] == Step(run[|events|], e)
    ensures r[|es| - 1] == run[|events|] && es[|es| - 1] == e
  {
    hide Enabled, Step;
    r, es := run + [Step(run[|events|], e)], events + [e];
  }

  predicate Idle(t: Timer) { !t.active && !t.firing && t.id == 0 && t.cb == None }

  /** No timer is held, thread 1 still waits for the end of timer 1, and m is the next id. */
  ghost predicate Between(s: State, m: int) {
    && |s.slots| == MAX_TIMERS && s.nextId == m == s.nextReg + 1 && s.waits == map[1 := Wait(0, 1, Some(0))]
    && forall i :: 0 <= i < |s.slots| ==> Idle(s.slots[i])
  }

  /** A repeating timer fires, a del from another thread waits for it, and the callback ends. */
  lemma WaitBegins() returns (run: seq<State>, events: seq<Event>)
    ensures Run(run, events) && |run| == |events| + 1 && Between(run[|events|], 2)
  {
    var s0 := Init();
    var es := [Add(0, 0, 1), Dispatch(0), Scan, Del(1, 1, false), Finish];
    assert FirstFree(s0.slots, 0) == 0 && PickId(s0.slots, 1, MAX_TIMERS + 2) == (1, 2);
    var s1 := Step(s0, es[0]);
    var s2 := Step(s1, es[1]);
    var s3 := Step(s2, es[2]);
    assert Holder(s3.slots, 1, 0) == 0;
    var s4 := Step(s3, es[3]);
    var s5 := Step(s4, es[4]);
    run, events := [s0, s1, s2, s3, s4, s5], es;
  }

  /** An add to the empty table takes the first slot, and the next id but for the wrap. */
  lemma AddBetween(s: State, m: int)
    requires Between(s, m) && 2 <= m <= INT_MAX
    ensures var u := Step(s, Add(0, 0, 0)); var id := if m == INT_MAX then 1 else m;
            && u.waits == s.waits && u.nextReg == s.nextReg + 1 && u.nextId == id + 1 && |u.slots| == MAX_TIMERS
            && u.slots[0].id == id && u.slots[0].active && !u.slots[0].firing && u.slots[0].cb.Some?
            && forall i :: 1 <= i < MAX_TIMERS ==> Idle(u.slots[i])
  {
    assert FirstFree(s.slots, 0) == 0;
    var id := if m == INT_MAX then 1 else m;
    assert PickId(s.slots, m, MAX_TIMERS + 2) == (id, id + 1);
  }

  /** Adding and deleting one timer leaves the table empty and the counter one up. */
  lemma OneMore(s: State, m: int)
    requires Between(s, m) && 2 <= m < INT_MAX
    ensures var u := Step(s, Add(0, 0, 0)); Enabled(u, Del(2, m, false)) && Between(Step(u, Del(2, m, false)), m + 1)
  {
    AddBetween(s, m);
    var u := Step(s, Add(0, 0, 0));
    assert Holder(u.slots, m, 0) == 0;
  }

  lemma CounterUp() returns (run: seq<State>, events: seq<Event>)
    ensures Run(run, events) && |run| == |events| + 1 && Between(run[|events|], INT_MAX)
  {
    hide Step, Enabled, Between, Run;
    run, events := WaitBegins();
    var m: int := 2;
    while m < INT_MAX
      invariant 2 <= m <= INT_MAX && Run(run, events) && |run| == |events| + 1 && Between(run[|events|], m)
    {
      OneMore(run[|events|], m);
      AddEnabled(run[|events|]);
      run, events := Then(run, events, Add(0, 0, 0));
      run, events := Then(run, events, Del(2, m, false));
      m := m + 1;
    }
  }

  lemma AddEnabled(s: State)
    ensures Enabled(s, Add(0, 0, 0))
  {
  }

  lemma PollHollows(s: State)
    requires Between(s, INT_MAX)
    ensures var u := Step(s, Add(0, 0, 0)); Enabled(u, Poll(1)) && MeetsNamesake(u, Poll(1))
    ensures var v := Step(Step(s, Add(0, 0, 0)), Poll(1)); v.nextReg == INT_MAX && |v.slots| > 0 && Hollow(v.slots[0])
  {
    AddBetween(s, INT_MAX);
  }

  /**
   * With 2^31 - 1 adds a timer can be lost: a run in which the del still waits when the counter
   * has gone round and the slot has a new timer under the old id.
   */
  lemma TimerLost() returns (run: seq<State>, events: seq<Event>)
    ensures Run(run, events) && |run| == |events| + 1 && events != [] && events[|events| - 1] == Poll(1)
    ensures run[|events|].nextReg == INT_MAX && |run[|events|].slots| > 0 && Hollow(run[|events|].slots[0])
  {
    hide Step, Enabled, Between, Run;
    run, events := CounterUp();
    PollHollows(run[|events|]);
    AddEnabled(run[|events|]);
    run, events := Then(run, events, Add(0, 0, 0));
    run, events := Then(run, events, Poll(1));
  }

  // ---- timers fire when they are due ----

  function Cap(x: nat): nat { if x > UINT64_MAX then UINT64_MAX else x }

  lemma SatAddIsCap(a: nat, b: nat)
    ensures SatAdd(a, b) == Cap(a + b)
  {
  }

  /** Event k is the add that made registration r. */
  ghost predicate Registers(run: seq<State>, events: seq<Event>, k: nat, r: Reg)
    requires |run| == |events| + 1 && k < |events|
  {
    events[k].Add? && run[k].nextReg == r && run[k + 1].nextReg == r + 1
  }

  /** The interval that registration r was added with. */
  ghost function IntervalOf(run: seq<State>, events: seq<Event>, k: nat, r: Reg): nat
    requires |run| == |events| + 1 && k <= |events|
  {
    if k == 0 then 0
    else if Registers(run, events, k - 1, r) then events[k - 1].interval
    else IntervalOf(run, events, k - 1, r)
  }

  /**
   * When registration r is due after k events: its delay after it was added or, if its callback
   * has run, its interval after the time of the last pass that ran it.
   */
  ghost function Due(run: seq<State>, events: seq<Event>, k: nat, r: Reg): nat
    requires |run| == |events| + 1 && k <= |events|
  {
    if k == 0 then 0
    else
      var e, d := events[k - 1], run[k - 1].disp;
      if Registers(run, events, k - 1, r) then Cap(e.at + e.delay)
      else if e.Finish? && d.Calling? && d.cb == Some(r) then Cap(d.now + IntervalOf(run, events, k - 1, r))
      else Due(run, events, k - 1, r)
  }

  ghost predicate SlotTimed(run: seq<State>, events: seq<Event>, k: nat, t: Timer)
    requires |run| == |events| + 1 && k <= |events|
  {
    t.active && t.cb.Some? ==>
      t.expire == Due(run, events, k, t.cb.value) && t.interval == IntervalOf(run, events, k, t.cb.value)
  }

  /** A slot that a step leaves as it was, armed for a registration the step is not about. */
  lemma StaysTimed(run: seq<State>, events: seq<Event>, k: nat, t: Timer, u: Timer)
    requires |run| == |events| + 1 && k < |events| && SlotTimed(run, events, k, t)
    requires u.active && u.cb.Some? ==> t.active && u.cb == t.cb && u.expire == t.expire && u.interval == t.interval
    requires u.active && u.cb.Some? ==> !Registers(run, events, k, u.cb.value)
    requires u.active && u.cb.Some? && events[k].Finish? && run[k].disp.Calling? ==> run[k].disp.cb != u.cb
    ensures SlotTimed(run, events, k + 1, u)
  {
  }

  lemma AddTimed(run: seq<State>, events: seq<Event>, k: nat, i: nat)
    requires Run(run, events) && k < |events| && events[k].Add? && i < |run[k].slots|
    requires Inv(run[k]) && SlotTimed(run, events, k, run[k].slots[i])
    ensures |run[k + 1].slots| == |run[k].slots| && SlotTimed(run, events, k + 1, run[k + 1].slots[i])
  {
    var s, u, e := run[k], run[k + 1], events[k];
    assert SlotOk(s, i);
    hide Inv, SlotOk, PickId;
    SatAddIsCap(e.at, e.delay);
    if u.slots[i] == s.slots[i] {
      hide SlotTimed;
      StaysTimed(run, events, k, s.slots[i], u.slots[i]) by { SlotRegs(s, i); }
    } else {
      assert Registers(run, events, k, s.nextReg);
    }
  }

  lemma SlotRegs(s: State, i: nat)
    requires i < |s.slots| && Inv(s)
    ensures s.slots[i].cb.Some? ==> s.slots[i].cb.value < s.nextReg
  {
    assert SlotOk(s, i);
  }

  lemma FinishTimed(run: seq<State>, events: seq<Event>, k: nat, i: nat)
    requires Run(run, events) && k < |events| && events[k].Finish? && i < |run[k].slots|
    requires Inv(run[k]) && SlotTimed(run, events, k, run[k].slots[i])
    ensures |run[k + 1].slots| == |run[k].slots| && SlotTimed(run, events, k + 1, run[k + 1].slots[i])
  {
    var s, u := run[k], run[k + 1];
    assert SlotOk(s, i) && SlotOk(s, s.disp.i);
    SatAddIsCap(s.disp.now, s.slots[i].interval);
    if i != s.disp.i { StaysTimed(run, events, k, s.slots[i], u.slots[i]); }
  }

  lemma OtherTimed(run: seq<State>, events: seq<Event>, k: nat, i: nat)
    requires Run(run, events) && k < |events| && !events[k].Finish? && !events[k].Add? && i < |run[k].slots|
    requires Inv(run[k]) && SlotTimed(run, events, k, run[k].slots[i])
    ensures |run[k + 1].slots| == |run[k].slots| && SlotTimed(run, events, k + 1, run[k + 1].slots[i])
  {
    hide Inv, SlotTimed;
    StaysTimed(run, events, k, run[k].slots[i], run[k + 1].slots[i]);
  }

  lemma {:induction false} RunTimed(run: seq<State>, events: seq<Event>, k: nat, i: nat)
    requires Run(run, events) && k < |run| && i < |run[k].slots|
    ensures SlotTimed(run, events, k, run[k].slots[i])
    decreases k
  {
    if k > 0 {
      RunInv(run, events, k - 1);
      SameTable(run, events, k - 1);
      hide SlotTimed, Step, Inv;
      RunTimed(run, events, k - 1, i);
      if events[k - 1].Add? {
        AddTimed(run, events, k - 1, i);
      } else if events[k - 1].Finish? {
        FinishTimed(run, events, k - 1, i);
      } else {
        OtherTimed(run, events, k - 1, i);
      }
    }
  }

  lemma SameTable(run: seq<State>, events: seq<Event>, k: nat)
    requires Run(run, events) && k < |events|
    ensures |run[k + 1].slots| == |run[k].slots|
  {
    RunInv(run, events, k);
    RunInv(run, events, k + 1);
  }

  /** In every run: what a scan starts is due at the time of the pass. */
  lemma StartsWhenDue(run: seq<State>, events: seq<Event>, k: nat)
    requires Run(run, events) && k < |events| && run[k + 1].starts != run[k].starts
    ensures events[k].Scan? && run[k].disp.Scanning? && |run[k + 1].starts| == |run[k].starts| + 1
    ensures run[k].starts <= run[k + 1].starts
    ensures Due(run, events, k, run[k + 1].starts[|run[k].starts|]) <= run[k].disp.now
  {
    assert events[k].Scan? && run[k].disp.i < |run[k].slots|;
    RunTimed(run, events, k, run[k].disp.i);
  }

  /** And conversely: a scan of a slot whose armed timer is due starts it. */
  lemma DueStarts(run: seq<State>, events: seq<Event>, k: nat, r: Reg)
    requires Run(run, events) && k < |events| && events[k].Scan? && run[k].disp.i < |run[k].slots|
    requires var t := run[k].slots[run[k].disp.i]; t.active && t.cb == Some(r)
    requires Due(run, events, k, r) <= run[k].disp.now
    ensures run[k + 1].starts == run[k].starts + [r] && Running(run[k + 1], r)
  {
    RunTimed(run, events, k, run[k].disp.i);
  }

  // ---- and no armed timer goes missing ----

  /** Added, not deleted and, if a one-shot, not started. */
  ghost predicate Live(s: State, r: Reg) {
    r < s.nextReg && r !in s.revoked && (r in s.oneShots ==> r !in s.starts)
  }

  ghost predicate Held(s: State, r: Reg) {
    exists i :: 0 <= i < |s.slots| && s.slots[i].active && s.slots[i].cb == Some(r)
  }

  /** A slot keeps a live registration through any step before the counter wraps. */
  lemma SlotKeeps(s: State, e: Event, i: nat, r: Reg)
    requires Inv(s) && Counted(s) && s.nextReg < INT_MAX && Enabled(s, e)
    requires i < |s.slots| && s.slots[i].active && s.slots[i].cb == Some(r) && Live(Step(s, e), r)
    ensures Held(Step(s, e), r)
  {
    var u := Step(s, e);
    assert SlotOk(s, i);
    if e.Poll? {
      HollowsIff(s, e);
      PollLeaves(s, e.thread, i);
    }
    assert u.slots[i].active && u.slots[i].cb == Some(r);
  }

  lemma PollLeaves(s: State, thread: nat, i: nat)
    requires Inv(s) && Counted(s) && s.nextReg < INT_MAX && Enabled(s, Poll(thread))
    requires i < |s.slots| && s.slots[i].active && s.slots[i].cb.Some?
    ensures PollWait(s, thread).slots[i] == s.slots[i]
  {
    assert WaitOk(s, s.waits[thread]);
    assert SlotOk(s, i);
  }

  lemma StepHolds(s: State, e: Event, r: Reg)
    requires Inv(s) && Counted(s) && s.nextReg < INT_MAX && Enabled(s, e) && Live(Step(s, e), r)
    requires Live(s, r) ==> Held(s, r)
    ensures Held(Step(s, e), r)
  {
    if Live(s, r) {
      var i :| 0 <= i < |s.slots| && s.slots[i].active && s.slots[i].cb == Some(r);
      SlotKeeps(s, e, i, r);
    } else {
      StepHistory(s, e);
      NewIsHeld(s, e, r);
    }
  }

  lemma NewIsHeld(s: State, e: Event, r: Reg)
    requires Inv(s) && Enabled(s, e) && Live(Step(s, e), r) && !Live(s, r)
    ensures Held(Step(s, e), r)
  {
    StepHistory(s, e);
    assert r >= s.nextReg;
    var i := FirstFree(s.slots, 0);
    assert Step(s, e).slots[i].active;
  }

  lemma {:induction false} RunHolds(run: seq<State>, events: seq<Event>, k: nat, r: Reg)
    requires Run(run, events) && k < |run| && run[k].nextReg < INT_MAX && Live(run[k], r)
    ensures Held(run[k], r)
    decreases k
  {
    if k > 0 {
      RunInv(run, events, k - 1);
      RunCounted(run, events, k - 1);
      RegsGrow(run[k - 1], events[k - 1]);
      hide Step, Inv, Live, Held, Counted;
      if Live(run[k - 1], r) { RunHolds(run, events, k - 1, r); }
      StepHolds(run[k - 1], events[k - 1], r);
    }
  }

  lemma RegsGrow(s: State, e: Event)
    requires Enabled(s, e)
    ensures s.nextReg <= Step(s, e).nextReg
  {
    hide PickId, FirstFree, Holder;
  }

  // ---- a pass of the dispatcher starts every timer that is due ----

  /** The events lead from one state to the other. */
  ghost predicate Reaches(s: State, es: seq<Event>, u: State)
    decreases |es|
  {
    if es == [] then s == u else Enabled(s, es[0]) && Reaches(Step(s, es[0]), es[1..], u)
  }

  lemma ReachesSelf(s: State)
    ensures Reaches(s, [], s)
  {
  }

  lemma {:induction false} ReachesThen(s: State, es: seq<Event>, u: State, e: Event)
    requires Reaches(s, es, u) && Enabled(u, e)
    ensures Reaches(s, es + [e], Step(u, e))
    decreases |es|
  {
    hide Enabled, Step;
    if es == [] {
      assert (es + [e])[1..] == [];
    } else {
      ReachesThen(Step(s, es[0]), es[1..], u, e);
      assert (es + [e])[1..] == es[1..] + [e];
    }
  }

  lemma {:induction false} ReachesMore(s: State, es: seq<Event>, u: State, fs: seq<Event>, v: State)
    requires Reaches(s, es, u) && Reaches(u, fs, v)
    ensures Reaches(s, es + fs, v)
    decreases |es|
  {
    hide Enabled, Step;
    if es == [] {
      assert es + fs == fs;
    } else {
      ReachesMore(Step(s, es[0]), es[1..], u, fs, v);
      assert (es + fs)[1..] == es[1..] + fs;
    }
  }

  ghost predicate NoDispatch(es: seq<Event>) { forall i :: 0 <= i < |es| ==> !es[i].Dispatch? }

  lemma {:induction false} ReachesHistory(s: State, es: seq<Event>, u: State)
    requires Inv(s) && Reaches(s, es, u)
    ensures s.revoked <= u.revoked && s.starts <= u.starts && s.nextReg <= u.nextReg
    decreases |es|
  {
    if es != [] {
      StepKeeps(s, es[0]);
      StepHistory(s, es[0]);
      RegsGrow(s, es[0]);
      hide Enabled, Step, Inv;
      ReachesHistory(Step(s, es[0]), es[1..], u);
    }
  }

  /** The pass has yet to come to slot i, where a timer is armed for r and due. */
  ghost predicate Ahead(s: State, i: nat, r: Reg) {
    && i < |s.slots| && s.slots[i].active && s.slots[i].cb == Some(r)
    && match s.disp
       case Away => false
       case Scanning(j, now) => j <= i && s.slots[i].expire <= now
       case Calling(j, now, _, _, _) => j < i && s.slots[i].expire <= now
  }

  lemma AheadStep(s: State, e: Event, i: nat, r: Reg)
    requires Inv(s) && Counted(s) && s.nextReg < INT_MAX && Enabled(s, e) && !e.Dispatch? && Ahead(s, i, r)
    ensures var u := Step(s, e); Ahead(u, i, r) || r in u.revoked || u.starts == s.starts + [r]
  {
    assert SlotOk(s, i);
    if e.Poll? { PollLeaves(s, e.thread, i); }
  }

  /** So it starts before the pass ends, unless a del takes it first. */
  lemma {:induction false} AheadStarts(s: State, es: seq<Event>, u: State, i: nat, r: Reg)
    requires Inv(s) && Counted(s) && Reaches(s, es, u) && NoDispatch(es) && u.disp.Away? && u.nextReg < INT_MAX
    requires Ahead(s, i, r)
    ensures |s.starts| <= |u.starts| && (r in u.revoked || r in u.starts[|s.starts|..])
    decreases |es|
  {
    ReachesHistory(s, es, u);
    if es != [] {
      var v := Step(s, es[0]);
      AheadStep(s, es[0], i, r);
      StepKeeps(s, es[0]);
      StepCounted(s, es[0]);
      StepHistory(s, es[0]);
      hide Step, Enabled, Inv, Counted, Ahead;
      ReachesHistory(v, es[1..], u);
      if Ahead(v, i, r) {
        assert NoDispatch(es[1..]) by { assert forall j :: 0 <= j < |es| - 1 ==> es[1..][j] == es[j + 1]; }
        AheadStarts(v, es[1..], u, i, r);
        assert r in u.starts[|v.starts|..] ==> r in u.starts[|s.starts|..] by {
          assert u.starts[|v.starts|..] == u.starts[|s.starts|..][|v.starts| - |s.starts|..];
        }
      } else if r !in v.revoked {
        assert u.starts[|s.starts|..][0] == v.starts[|s.starts|] == r;
      }
    }
  }

  /** A whole pass: every timer armed and due when it begins is started or deleted by its end. */
  lemma PassStartsDue(s: State, es: seq<Event>, u: State, now: nat, i: nat, r: Reg)
    requires Inv(s) && Counted(s) && s.disp.Away? && u.disp.Away? && u.nextReg < INT_MAX
    requires Reaches(s, [Dispatch(now)] + es, u) && NoDispatch(es)
    requires i < |s.slots| && s.slots[i].active && s.slots[i].cb == Some(r) && s.slots[i].expire <= now
    ensures |s.starts| <= |u.starts| && (r in u.revoked || r in u.starts[|s.starts|..])
  {
    StepKeeps(s, Dispatch(now));
    StepCounted(s, Dispatch(now));
    assert ([Dispatch(now)] + es)[1..] == es;
    hide Inv, Counted;
    AheadStarts(Step(s, Dispatch(now)), es, u, i, r);
  }

  lemma WaitSlots(s: State)
    requires Inv(s)
    ensures forall th :: th in s.waits ==> s.waits[th].slot < |s.slots|
  {
  }

  /** A del that is not refused takes the timer of that id and no other. */
  lemma DelTakesItsTimer(s: State, thread: nat, id: int, reentrant: bool)
    requires Inv(s) && !DelTimer(s, thread, id, reentrant).1.Refused?
    ensures exists i :: 0 <= i < |s.slots| && s.slots[i].id == id && s.slots[i].active && s.slots[i].cb.Some? &&
              DelTimer(s, thread, id, reentrant).0.revoked == s.revoked + {s.slots[i].cb.value}
    ensures forall i :: 0 <= i < |s.slots| && s.slots[i].id != id ==>
              i < |DelTimer(s, thread, id, reentrant).0.slots| &&
              DelTimer(s, thread, id, reentrant).0.slots[i] == s.slots[i]
  {
    var i := Holder(s.slots, id, 0);
    assert SlotOk(s, i);
  }

  // ---- timer_add never runs out of ids ----

  /** The k-th candidate of the id search. */
  function Nth(next: int, k: nat): int
    decreases k
  {
    if k == 0 then Candidate(next) else Nth(Candidate(next) + 1, k - 1)
  }

  lemma {:induction false} NthClosed(next: int, k: nat)
    requires next <= INT_MAX
    ensures Nth(next, k) == (Candidate(next) - 1 + k) % (INT_MAX - 1) + 1
    decreases k
  {
    if k > 0 {
      NthClosed(Candidate(next) + 1, k - 1);
    }
  }

  lemma {:induction false} ExhaustedMeansInUse(slots: seq<Timer>, next: int, tries: nat, k: nat)
    requires PickId(slots, next, tries).0 == -1 && k < tries && next <= INT_MAX
    ensures InUse(slots, Nth(next, k))
    decreases tries
  {
    if k > 0 {
      ExhaustedMeansInUse(slots, Candidate(next) + 1, tries - 1, k - 1);
    }
  }

  function Ids(slots: seq<Timer>): set<int> { set j | 0 <= j < |slots| :: slots[j].id }

  lemma {:induction false} IdsBound(slots: seq<Timer>)
    ensures |Ids(slots)| <= |slots|
  {
    if slots != [] {
      var init := slots[..|slots| - 1];
      IdsBound(init);
      assert Ids(slots) == Ids(init) + {slots[|slots| - 1].id};
    }
  }

  lemma NthDistinct(next: int, j: nat, k: nat)
    requires next <= INT_MAX && j < k <= MAX_TIMERS + 2
    ensures Nth(next, j) != Nth(next, k)
  {
    NthClosed(next, j);
    NthClosed(next, k);
    ModDistinct(Candidate(next) - 1 + j, Candidate(next) - 1 + k, INT_MAX - 1);
  }

  ghost predicate IsCandidate(next: int, n: nat, x: int) {
    exists k :: 0 <= k < n && x == Nth(next, k)
  }

  /** Pigeonhole: more distinct candidates than slots. */
  lemma {:induction false} CandidatesCount(next: int, n: nat) returns (c: set<int>)
    requires next <= INT_MAX && n <= MAX_TIMERS + 2
    ensures |c| == n
    ensures forall x :: x in c ==> IsCandidate(next, n, x)
  {
    c := {};
    if n > 0 {
      c := CandidatesCount(next, n - 1);
      forall x | x in c ensures x != Nth(next, n - 1) && IsCandidate(next, n, x) {
        var k :| 0 <= k < n - 1 && x == Nth(next, k);
        NthDistinct(next, k, n - 1);
      }
      assert IsCandidate(next, n, Nth(next, n - 1));
      c := c + {Nth(next, n - 1)};
    }
  }

  lemma ModDistinct(a: int, b: int, m: int)
    requires 0 < m && 0 <= a < b < a + m
    ensures a % m != b % m
  {
    var q := b / m - a / m;
    assert b - a == q * m + (b % m - a % m);
    if q >= 1 {
      assert q * m >= m;
    } else {
      assert q * m <= 0;
    }
  }

  /** timer_add fails only when every slot is armed or firing; otherwise the id is fresh. */
  lemma AddFailsOnlyWhenFull(s: State, at: nat, delay: nat, interval: nat)
    requires Inv(s)
    ensures var r := AddTimer(s, at, delay, interval);
            if forall i :: 0 <= i < |s.slots| ==> s.slots[i].active || s.slots[i].firing
            then r == (s, -1)
            else 0 < r.1 < INT_MAX && !InUse(s.slots, r.1) && InUse(r.0.slots, r.1) && r.0.nextReg == s.nextReg + 1
  {
    var i := FirstFree(s.slots, 0);
    if i < |s.slots| {
      PickFree(s.slots, s.nextId, MAX_TIMERS + 2);
      if PickId(s.slots, s.nextId, MAX_TIMERS + 2).0 == -1 {
        var c := CandidatesCount(s.nextId, MAX_TIMERS + 2);
        forall x | x in c ensures x in Ids(s.slots) {
          var k :| 0 <= k < MAX_TIMERS + 2 && x == Nth(s.nextId, k);
          ExhaustedMeansInUse(s.slots, s.nextId, MAX_TIMERS + 2, k);
        }
        IdsBound(s.slots);
        SubsetCard(c, Ids(s.slots));
        assert false;
      }
      assert AddTimer(s, at, delay, interval).0.slots[i].id == AddTimer(s, at, delay, interval).1;
    }
  }

  lemma SubsetCard(a: set<int>, b: set<int>)
    requires a <= b
    ensures |a| <= |b|
  {
    assert a + (b - a) == b;
  }

  /** timer_del refuses exactly ids no armed timer holds: unknown, or already committed to fire. */
  lemma DelRefuses(s: State, thread: nat, id: int, reentrant: bool)
    requires Inv(s)
    ensures DelTimer(s, thread, id, reentrant).1.Refused? <==>
            !(id > 0 && exists i :: 0 <= i < |s.slots| && s.slots[i].id == id && s.slots[i].active)
  {
  }

  /** An armed timer has this id, and its callback is running or not. */
  ghost predicate ArmedAs(s: State, id: int, firing: bool) {
    id > 0 && exists i :: 0 <= i < |s.slots| && s.slots[i].id == id && s.slots[i].active && s.slots[i].firing == firing
  }

  /** A timer whose callback is running is waited for, except from that callback itself; any other goes at once. */
  lemma DelOutcome(s: State, thread: nat, id: int, reentrant: bool)
    requires Inv(s)
    ensures var r := DelTimer(s, thread, id, reentrant).1;
            && (r.Waiting? <==> !reentrant && ArmedAs(s, id, true))
            && (r.Cancelling? <==> reentrant && ArmedAs(s, id, true))
            && (r.Deleted? <==> ArmedAs(s, id, false))
  {
    var i := Holder(s.slots, id, 0);
    if id > 0 && i < |s.slots| {
      assert s.slots[i].id == id;
      forall j | 0 <= j < |s.slots| && s.slots[j].id == id ensures j == i { assert Distinct(s.slots); }
    }
  }

  // ---- the table as the code holds it: an array changed in place under timers_lock ----

  class EvLoop {
    const timers: array<Timer>
    var nextTimerId: int
    var inTimerCb: bool
    var registrations: Reg      // names the callback and data of the next timer_add
    var waits: map<nat, Wait>   // what each waiting timer_del remembers
    ghost var s: State

    /** The array is the slots of a state the protocol allows. */
    ghost predicate Valid()
      reads this, timers
    {
      s.slots == timers[..] && s.nextId == nextTimerId && s.nextReg == registrations && s.waits == waits &&
      (inTimerCb <==> s.disp.Calling?) && Inv(s)
    }

    constructor ()
      ensures Valid() && fresh(timers) && s == Init()
    {
      timers := new Timer[MAX_TIMERS](_ => FREE);
      nextTimerId, inTimerCb, registrations, waits := 1, false, 0, map[];
      s := Init();
      new;
      InitInv();
      assert timers[..] == Init().slots;
    }

    /** The loop that looks for an id no slot holds. */
    method PickTimerId() returns (tid: int)
      requires Valid()
      modifies this`nextTimerId
      ensures (tid, nextTimerId) == PickId(s.slots, s.nextId, MAX_TIMERS + 2)
    {
      tid := -1;
      var tries := 0;
      while tries < MAX_TIMERS + 2 && tid < 0
        invariant tries <= MAX_TIMERS + 2
        invariant if tid < 0
                  then PickId(s.slots, s.nextId, MAX_TIMERS + 2) ==
                      PickId(s.slots, nextTimerId, MAX_TIMERS + 2 - tries) && tid == -1
                  else (tid, nextTimerId) == PickId(s.slots, s.nextId, MAX_TIMERS + 2)
      {
        if nextTimerId <= 0 || nextTimerId == INT_MAX {
          nextTimerId := 1;
        }
        var cand := nextTimerId;
        nextTimerId := nextTimerId + 1;
        var j := 0;
        while j < timers.Length && timers[j].id != cand
          invariant 0 <= j <= timers.Length
          invariant forall k :: 0 <= k < j ==> timers[k].id != cand
        {
          j := j + 1;
        }
        assert j < timers.Length ==> s.slots[j].id == cand;
        if j == timers.Length {
          tid := cand;
        }
        tries := tries + 1;
      }
    }

    /** cmq_ev_timer_add under the lock. */
    method TimerAdd(now: nat, delay: nat, interval: nat) returns (tid: int)
      requires Valid()
      modifies this, timers
      ensures Valid() && (s, tid) == AddTimer(old(s), now, delay, interval)
    {
      var i := 0;
      while i < timers.Length && (timers[i].active || timers[i].firing)
        invariant 0 <= i <= timers.Length
        invariant FirstFree(s.slots, 0) == FirstFree(s.slots, i)
      {
        i := i + 1;
      }
      AddKeeps(s, now, delay, interval);
      if i == timers.Length { return -1; }
      PickFree(s.slots, s.nextId, MAX_TIMERS + 2);
      tid := PickTimerId();
      if tid >= 0 {
        timers[i] := Timer(tid, SatAdd(now, delay), interval, Some(registrations), interval > 0, true, false, false);
        registrations := registrations + 1;
      }
      s := AddTimer(s, now, delay, interval).0;
    }

    /** cmq_ev_timer_del up to its first unlock. */
    method TimerDel(thread: nat, id: int, reentrant: bool) returns (r: DelResult)
      requires Valid() && Enabled(s, Del(thread, id, reentrant))
      modifies this, timers
      ensures Valid() && (s, r) == DelTimer(old(s), thread, id, reentrant)
    {
      DelKeeps(s, thread, id, reentrant);
      if id <= 0 { return Refused; }
      var i := 0;
      while i < timers.Length && !(timers[i].id == id && (timers[i].active || timers[i].firing))
        invariant 0 <= i <= timers.Length
        invariant Holder(s.slots, id, 0) == Holder(s.slots, id, i)
      {
        i := i + 1;
      }
      if i == timers.Length { return Refused; }
      var t := timers[i];
      if t.firing && !t.active { return Refused; }
      if t.firing {
        timers[i] := t.(cancelled := true, active := false, repeat := false);
        if reentrant {
          r := Cancelling;
        } else {
          r := Waiting;
          waits := waits[thread := Wait(i, id, t.cb)];
        }
      } else {
        timers[i] := Clear(t);
        r := Deleted;
      }
      s := DelTimer(s, thread, id, reentrant).0;
    }

    /** One look of a timer_del that waits for a callback to end. */
    method DelPoll(thread: nat) returns (done: bool)
      requires Valid() && thread in waits
      modifies this, timers
      ensures Valid() && s == PollWait(old(s), thread)
      ensures done <==> thread !in s.waits
    {
      PollKeeps(s, thread);
      assert WaitOk(s, s.waits[thread]);
      var w := waits[thread];
      var t := timers[w.slot];
      done := !t.firing || t.id != w.id;
      if done {
        if t.id == w.id {
          timers[w.slot] := t.(cb := None, cancelled := false, id := 0);
        }
        waits := waits - {thread};
      }
      s := PollWait(s, thread);
    }

    /** One add, del or look of a waiting del, of any thread. */
    method AnyOther() returns (ghost e: Event)
      requires Valid()
      modifies this, timers
      ensures Valid() && Enabled(old(s), e) && s == Step(old(s), e) && (e.Add? || e.Del? || e.Poll?)
      ensures s.disp == old(s.disp) && old(s.revoked) <= s.revoked && s.starts == old(s.starts)
    {
      var at: nat, delay: nat, interval: nat := *, *, *;
      var thread: nat, id: int, reentrant: bool := *, *, *;
      if thread in waits {
        e := Poll(thread);
        StepHistory(s, e) by { WaitSlots(s); }
        var done := DelPoll(thread);
      } else if (reentrant ==> inTimerCb) && id > 0 {
        e := Del(thread, id, reentrant);
        StepHistory(s, e);
        var r := TimerDel(thread, id, reentrant);
      } else {
        e := Add(at, delay, interval);
        StepHistory(s, e);
        var tid := TimerAdd(at, delay, interval);
      }
    }

    /** What other threads, or the callback itself, may do while the lock is free. */
    method Others() returns (ghost es: seq<Event>)
      requires Valid()
      modifies this, timers
      ensures Valid() && s.disp == old(s.disp) && Reaches(old(s), es, s) && NoDispatch(es)
      ensures old(s.revoked) <= s.revoked && s.starts == old(s.starts)
    {
      hide Inv, Reaches;
      var n: nat := *;
      es := [];
      ReachesSelf(s);
      while n > 0
        invariant Valid() && s.disp == old(s.disp) && Reaches(old(s), es, s) && NoDispatch(es)
        invariant old(s.revoked) <= s.revoked && s.starts == old(s.starts)
        decreases n
      {
        ghost var before := s;
        ghost var e := AnyOther();
        ReachesThen(old(s), es, before, e);
        es := es + [e];
        n := n - 1;
      }
    }

    /** First lock region on slot i: commit to fire a due timer. */
    method BeginFire(i: nat, now: nat) returns (fire: bool)
      requires Valid() && s.disp == Scanning(i, now) && i < MAX_TIMERS
      modifies this, timers
      ensures Valid() && s == Step(old(s), Scan)
      ensures fire <==> s.disp.Calling?
      ensures s.disp == if fire then s.disp else Scanning(i + 1, now)
      ensures fire ==> s.disp.i == i && s.disp.now == now
    {
      ScanKeeps(s);
      var t := timers[i];
      fire := t.active && t.expire <= now;
      if fire {
        timers[i] := t.(firing := true, cancelled := false, active := t.repeat);
        inTimerCb := true;
      }
      s := Step(s, Scan);
    }

    /** Second lock region on slot i, once the callback has returned. */
    method EndFire(i: nat, now: nat, tid: int, wasRepeat: bool)
      requires Valid() && s.disp.Calling? && s.disp.i == i && s.disp.now == now
      requires s.disp.tid == tid && s.disp.wasRepeat == wasRepeat
      modifies this, timers
      ensures Valid() && s == Step(old(s), Finish)
    {
      FinishKeeps(s);
      inTimerCb := false;
      var t := timers[i].(firing := false);
      timers[i] :=
        if t.id != tid then t
        else if t.cancelled || !wasRepeat then Clear(t)
        else if t.active then t.(expire := SatAdd(now, t.interval))
        else t.(repeat := false, cb := None, id := 0);
      s := Step(s, Finish);
    }

    /**
     * cmq_ev_timers_dispatch: one pass over the table, the lock free in between. `es` is what
     * happens after the pass begins, in this thread and others.
     */
    method TimersDispatch(now: nat) returns (ghost es: seq<Event>)
      requires Valid() && s.disp.Away?
      modifies this, timers
      ensures Valid() && s.disp.Away? && Reaches(old(s), [Dispatch(now)] + es, s) && NoDispatch(es)
      ensures old(s.starts) <= s.starts
      ensures forall k :: |old(s.starts)| <= k < |s.starts| ==> s.starts[k] !in old(s.revoked)
    {
      hide Inv, Reaches, Step, Enabled;
      ghost var begun := [Dispatch(now)];
      BeginPass(now);
      ReachesSelf(old(s));
      ReachesThen(old(s), [], old(s), Dispatch(now));
      assert [] + begun == begun;
      es := [];
      assert begun + es == begun;
      var i := 0;
      while i < timers.Length
        invariant i <= timers.Length == MAX_TIMERS && Valid() && s.disp == Scanning(i, now)
        invariant Reaches(old(s), begun + es, s) && NoDispatch(es)
        invariant old(s.revoked) <= s.revoked && old(s.starts) <= s.starts
        invariant forall k :: |old(s.starts)| <= k < |s.starts| ==> s.starts[k] !in old(s.revoked)
      {
        ghost var mid := s;
        ghost var fs := DispatchSlot(i, now);
        ReachesMore(old(s), begun + es, mid, fs, s);
        assert (begun + es) + fs == begun + (es + fs);
        es := es + fs;
        i := i + 1;
      }
      ghost var last := s;
      EndPass(now);
      ReachesThen(old(s), begun + es, last, Scan);
      assert (begun + es) + [Scan] == begun + (es + [Scan]);
      es := es + [Scan];
    }

    /** The pass begins: no slot looked at yet. */
    method BeginPass(now: nat)
      requires Valid() && s.disp.Away?
      modifies this`s
      ensures Valid() && s.disp == Scanning(0, now) && s.revoked == old(s.revoked) && s.starts == old(s.starts)
      ensures Enabled(old(s), Dispatch(now)) && s == Step(old(s), Dispatch(now)) && timers.Length == MAX_TIMERS
    {
      StepKeeps(s, Dispatch(now));
      s := Step(s, Dispatch(now));
    }

    /** And ends, with all of them done. */
    method EndPass(now: nat)
      requires Valid() && s.disp == Scanning(timers.Length, now)
      modifies this`s
      ensures Valid() && s.disp.Away? && s.starts == old(s.starts)
      ensures Enabled(old(s), Scan) && s == Step(old(s), Scan)
    {
      StepKeeps(s, Scan);
      s := Step(s, Scan);
    }

    /** One slot of a pass: the first lock region and, if it fires, the callback and the second. */
    method DispatchSlot(i: nat, now: nat) returns (ghost fs: seq<Event>)
      requires Valid() && s.disp == Scanning(i, now) && i < MAX_TIMERS
      modifies this, timers
      ensures Valid() && s.disp == Scanning(i + 1, now) && Reaches(old(s), fs, s) && NoDispatch(fs)
      ensures old(s.revoked) <= s.revoked && old(s.starts) <= s.starts
      ensures forall k :: |old(s.starts)| <= k < |s.starts| ==> s.starts[k] !in old(s.revoked)
    {
      assert i < timers.Length;
      hide Inv, Reaches;
      fs := Others();
      StepHistory(s, Scan);
      var tid, wasRepeat := timers[i].id, timers[i].repeat;
      ReachesThen(old(s), fs, s, Scan);
      fs := fs + [Scan];
      var fire := BeginFire(i, now);
      if fire {
        ghost var mid := s;
        ghost var gs := Others();
        ReachesMore(old(s), fs, mid, gs, s);
        ReachesThen(old(s), fs + gs, s, Finish);
        fs := fs + gs + [Finish];
        EndFire(i, now, tid, wasRepeat);
      }
    }
  }
}
