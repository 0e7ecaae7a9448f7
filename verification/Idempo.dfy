/**
 * The idempotency window (src/server/cmq_idempo.c): for each producer id the largest sequence
 * number accepted and, in a 64-bit mask, which of the 64 numbers up to it have been. A mask
 * is the sequence of its bits, lowest first.
 */
module Idempo {
  import opened Common
  import Bits

  const PIDS: nat := 256
  const WINDOW: nat := 64

  type Mask = seq<bool>

  /** 1, and a mask shifted left: what leaves at the top is lost, zeros come in below. */
  const ONE: Mask := seq(WINDOW, i => i == 0)

  function ShiftLeft(m: Mask, d: nat): Mask
    requires |m| == WINDOW
  {
    seq(WINDOW, i requires 0 <= i < WINDOW => i >= d && m[i - d])
  }

  datatype Slot = Slot(used: bool, pid: nat, last: nat, bits: Mask)

  /** The numbers accepted so far, in order, each with its producer. */
  type Log = seq<(nat, int)>

  /** Bit i of the mask stands for the number i below the largest. */
  ghost predicate SlotOk(s: Slot, log: Log) {
    && |s.bits| == WINDOW
    && (s.used ==>
          && s.pid != 0 && (s.pid, s.last) in log
          && (forall x: int :: (s.pid, x) in log ==> 0 <= x <= s.last)
          && forall i :: 0 <= i < WINDOW ==> (s.bits[i] <==> (s.pid, s.last - i) in log))
  }

  /** Numbers of other producers do not matter to a slot. */
  lemma SlotKeeps(s: Slot, log: Log, p: nat, x: nat)
    requires SlotOk(s, log) && (s.used ==> s.pid != p)
    ensures SlotOk(s, log + [(p, x)])
  {
    if s.used { assert forall y: int :: (s.pid, y) in log + [(p, x)] <==> (s.pid, y) in log; }
  }

  /** The first number of a producer. */
  lemma FirstKeeps(log: Log, p: nat, x: nat)
    requires p != 0 && forall y: int :: (p, y) !in log
    ensures SlotOk(Slot(true, p, x, ONE), log + [(p, x)])
  {
    assert forall y: int :: (p, y) in log + [(p, x)] <==> y == x;
  }

  /** A larger number: the mask moves up and its lowest bit is set. */
  lemma LargerKeeps(s: Slot, log: Log, x: nat)
    requires s.used && SlotOk(s, log) && x > s.last
    ensures var d := x - s.last;
            SlotOk(s.(last := x, bits := if d >= WINDOW then ONE else ShiftLeft(s.bits, d)[0 := true]),
                   log + [(s.pid, x)])
    ensures (s.pid, x) !in log
  {
    assert forall y: int :: (s.pid, y) in log + [(s.pid, x)] <==> (s.pid, y) in log || y == x;
  }

  /** A number inside the window whose bit is clear: the bit is set. */
  lemma SmallerKeeps(s: Slot, log: Log, x: nat)
    requires s.used && SlotOk(s, log) && x <= s.last && s.last - x < WINDOW && !s.bits[s.last - x]
    ensures SlotOk(s.(bits := s.bits[s.last - x := true]), log + [(s.pid, x)])
    ensures (s.pid, x) !in log
  {
    assert forall y: int :: (s.pid, y) in log + [(s.pid, x)] <==> (s.pid, y) in log || y == x;
    assert s.last - (s.last - x) == x;
  }

  // ---- the table ----

  predicate NoDup(log: Log) { forall i, j :: 0 <= i < j < |log| ==> log[i] != log[j] }

  ghost predicate Served(slots: seq<Slot>, p: nat) {
    exists k :: 0 <= k < |slots| && slots[k].used && slots[k].pid == p
  }

  ghost predicate Inv(slots: seq<Slot>, log: Log) {
    && |slots| == PIDS && NoDup(log)
    && (forall k :: 0 <= k < PIDS ==> SlotOk(slots[k], log))
    && (forall j, k :: 0 <= j < k < PIDS && slots[j].used && slots[k].used ==> slots[j].pid != slots[k].pid)
    && forall e :: e in log ==> Served(slots, e.0)
  }

  /** Slot k may hold producer p: it does, or it is free and no other does. */
  ghost predicate Home(slots: seq<Slot>, k: nat, p: nat) {
    k < |slots| && if slots[k].used then slots[k].pid == p else !Served(slots, p)
  }

  lemma OnlyHome(slots: seq<Slot>, log: Log, k: nat, p: nat)
    requires Inv(slots, log) && Home(slots, k, p)
    ensures forall j :: 0 <= j < PIDS && j != k && slots[j].used ==> slots[j].pid != p
  {
  }

  lemma AcceptKeeps(slots: seq<Slot>, log: Log, k: nat, s: Slot, x: nat)
    requires Inv(slots, log) && Home(slots, k, s.pid) && s.used
    requires (s.pid, x) !in log && SlotOk(s, log + [(s.pid, x)])
    ensures Inv(slots[k := s], log + [(s.pid, x)])
  {
    hide SlotOk;
    OnlyHome(slots, log, k, s.pid);
    var us, more := slots[k := s], log + [(s.pid, x)];
    forall j | 0 <= j < PIDS ensures SlotOk(us[j], more) {
      if j != k { SlotKeeps(slots[j], log, s.pid, x); }
    }
    forall e | e in more ensures Served(us, e.0) {
      if e.0 == s.pid {
        assert us[k].used && us[k].pid == e.0;
      } else {
        assert e in log;
        var j :| 0 <= j < |slots| && slots[j].used && slots[j].pid == e.0;
        assert us[j] == slots[j];
      }
    }
  }

  function Hash(pid: nat): nat { pid * 2654435761 % 0x1_0000_0000 }

  function Probe(pid: nat, i: nat): (k: nat)
    ensures k < PIDS
  {
    (Hash(pid) + i) % 0x1_0000_0000 % PIDS
  }

  /** The scan sees every slot. */
  lemma ProbesCover(pid: nat, k: nat) returns (i: nat)
    requires k < PIDS
    ensures i < PIDS && Probe(pid, i) == k
  {
    hide Hash;
    i := Reach(Hash(pid), k);
    Wrapped(Hash(pid) + i);
  }

  lemma Reach(h: nat, k: nat) returns (i: nat)
    requires k < PIDS
    ensures i < PIDS && (h + i) % PIDS == k
  {
    var a, b := h / PIDS, h % PIDS;
    i := if k >= b then k - b else k + PIDS - b;
    var q := if k >= b then a else a + 1;
    assert h + i == q * PIDS + k;
    Bits.DivMod(q, PIDS, k);
  }

  /** The wrap of a 32-bit sum does not show in its remainder. */
  lemma Wrapped(x: nat)
    ensures x % 0x1_0000_0000 % PIDS == x % PIDS
  {
    var q, r := x / 0x1_0000_0000, x % 0x1_0000_0000;
    var e, c := r / PIDS, r % PIDS;
    assert x == (0x100_0000 * q + e) * PIDS + c;
    Bits.DivMod(0x100_0000 * q + e, PIDS, c);
  }

  datatype Verdict = Accepted | Duplicate | BadPid | TableFull

  class IdempoTable {
    const slots: array<Slot>
    ghost var log: Log

    /** In every run each number of a producer is accepted at most once: the log has no duplicates. */
    ghost predicate Valid()
      reads this, slots
    {
      Inv(slots[..], log)
    }

    constructor ()
      ensures Valid() && log == [] && fresh(slots)
    {
      slots := new Slot[PIDS](_ => Slot(false, 0, 0, seq(WINDOW, _ => false)));
      log := [];
    }

    /** idempo_find: the slot of a producer, else a free one, else none. */
    method Find(pid: nat) returns (found: bool, k: nat)
      requires Valid()
      ensures found ==> Home(slots[..], k, pid)
      ensures !found ==> !Served(slots[..], pid) && forall j :: 0 <= j < PIDS ==> slots[j].used
    {
      hide SlotOk, Probe;
      var empty: int := -1;
      var i: nat := 0;
      while i < PIDS
        invariant i <= PIDS && -1 <= empty < PIDS
        invariant empty >= 0 ==> !slots[empty].used
        invariant forall j :: 0 <= j < i ==> !(slots[Probe(pid, j)].used && slots[Probe(pid, j)].pid == pid)
        invariant empty < 0 ==> forall j :: 0 <= j < i ==> slots[Probe(pid, j)].used
      {
        var idx := Probe(pid, i);
        if slots[idx].used && slots[idx].pid == pid { return true, idx; }
        if !slots[idx].used && empty < 0 { empty := idx; }
        i := i + 1;
      }
      forall j | 0 <= j < PIDS ensures !(slots[j].used && slots[j].pid == pid) && (empty < 0 ==> slots[j].used) {
        var s := ProbesCover(pid, j);
      }
      if empty >= 0 { return true, empty; }
      return false, 0;
    }

    /**
     * cmq_idempo_check: a number is accepted unless it has been accepted before or is at least
     * 64 behind its producer's largest; a new producer is turned away only when all slots are
     * taken.
     */
    method Check(pid: nat, x: nat) returns (v: Verdict)
      requires Valid() && pid <= UINT32_MAX && x <= UINT64_MAX
      modifies this, slots
      ensures Valid()
      ensures v == BadPid <==> pid == 0
      ensures v == TableFull <==> pid != 0 && !Served(old(slots[..]), pid) && forall j :: 0 <= j < PIDS ==>
              old(slots[j].used)
      ensures v == Duplicate <==>
              pid != 0 &&
              exists m: int :: (pid, m) in old(log) && Maximal(old(log), pid, m) &&
                               ((pid, x) in old(log) || m - x >= WINDOW)
      ensures log == if v == Accepted then old(log) + [(pid, x)] else old(log)
    {
      if pid == 0 { return BadPid; }
      hide SlotOk, Served;
      var found, k := Find(pid);
      if !found {
        NeverServed(slots[..], log, pid);
        return TableFull;
      }
      v := CheckSlot(k, pid, x);
    }

    method CheckSlot(k: nat, pid: nat, x: nat) returns (v: Verdict)
      requires Valid() && pid != 0 && Home(slots[..], k, pid)
      modifies this, slots
      ensures Valid() && (v == Accepted || v == Duplicate)
      ensures v == Duplicate <==>
              exists m: int :: (pid, m) in old(log) && Maximal(old(log), pid, m) &&
                               ((pid, x) in old(log) || m - x >= WINDOW)
      ensures log == if v == Accepted then old(log) + [(pid, x)] else old(log)
    {
      hide Served, SlotOk;
      if slots[k].used {
        v := CheckUsed(k, pid, x);
      } else {
        NeverServed(slots[..], log, pid);
        FirstKeeps(log, pid, x);
        Accept(k, Slot(true, pid, x, ONE), x);
        v := Accepted;
      }
    }

    method CheckUsed(k: nat, pid: nat, x: nat) returns (v: Verdict)
      requires Valid() && Home(slots[..], k, pid) && slots[k].used
      modifies this, slots
      ensures Valid() && (v == Accepted || v == Duplicate)
      ensures v == Duplicate <==>
              exists m: int :: (pid, m) in old(log) && Maximal(old(log), pid, m) &&
                               ((pid, x) in old(log) || m - x >= WINDOW)
      ensures log == if v == Accepted then old(log) + [(pid, x)] else old(log)
    {
      hide Served, SlotOk, Maximal;
      var s := slots[k];
      assert SlotOk(slots[..][k], log);
      OnlyMaximal(s, log);
      if x > s.last {
        LargerKeeps(s, log, x);
        var d := x - s.last;
        Accept(k, s.(last := x, bits := if d >= WINDOW then ONE else ShiftLeft(s.bits, d)[0 := true]), x);
        v := Accepted;
      } else {
        var d := s.last - x;
        assert d < WINDOW ==> (s.bits[d] <==> (pid, x) in log) by { if d < WINDOW { BitMeans(s, log, x); } }
        if d >= WINDOW || s.bits[d] {
          assert (pid, s.last) in log && Maximal(log, pid, s.last);
          v := Duplicate;
        } else {
          SmallerKeeps(s, log, x);
          Accept(k, s.(bits := s.bits[d := true]), x);
          v := Accepted;
        }
      }
    }

    method Accept(k: nat, s: Slot, x: nat)
      requires Valid() && Home(slots[..], k, s.pid) && s.used
      requires (s.pid, x) !in log && SlotOk(s, log + [(s.pid, x)])
      modifies this, slots
      ensures Valid() && log == old(log) + [(s.pid, x)]
    {
      hide SlotOk, Served;
      ghost var ss := slots[..];
      AcceptKeeps(ss, log, k, s, x);
      slots[k] := s;
      log := log + [(s.pid, x)];
      assert slots[..] == ss[k := s];
    }
  }

  /** No number of the producer in the log is larger. */
  ghost predicate Maximal(log: Log, pid: nat, m: int) {
    forall y: int :: (pid, y) in log ==> y <= m
  }

  lemma NeverServed(slots: seq<Slot>, log: Log, pid: nat)
    requires Inv(slots, log) && !Served(slots, pid)
    ensures forall y: int :: (pid, y) !in log
  {
    assert forall e :: e in log ==> e.0 != pid;
    assert forall y: int :: (pid, y).0 == pid;
  }

  lemma OnlyMaximal(s: Slot, log: Log)
    requires SlotOk(s, log) && s.used
    ensures |s.bits| == WINDOW && (s.pid, s.last) in log
    ensures forall m: int :: (s.pid, m) in log && Maximal(log, s.pid, m) <==> m == s.last
  {
  }

  lemma BitMeans(s: Slot, log: Log, x: nat)
    requires SlotOk(s, log) && s.used && x <= s.last && s.last - x < WINDOW
    ensures s.bits[s.last - x] <==> (s.pid, x) in log
  {
    assert s.last - (s.last - x) == x;
  }
}
