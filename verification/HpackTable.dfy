/**
 * The HPACK dynamic table (src/server/cmq_hpack.c): entries are offsets into a byte arena
 * that is compacted on every eviction. It is proved to be the newest-first list of
 * RFC 7541, section 4.
 */
module HpackTable {
  import opened Common

  const DYN_MAX: nat := 4096
  const DYN_SLOTS: nat := 128

  type Str = seq<Byte>
  datatype Entry = Entry(name: Str, value: Str)

  predicate StrOk(s: Str) { 0 < |s| <= STR_MAX }
  predicate EntryOk(e: Entry) { StrOk(e.name) && StrOk(e.value) }

  /** Entry size and table size, RFC 7541 section 4.1. */
  function EntrySize(e: Entry): nat { |e.name| + |e.value| + 32 }

  function TableSize(es: seq<Entry>): nat {
    if es == [] then 0 else TableSize(es[..|es| - 1]) + EntrySize(es[|es| - 1])
  }

  /** Eviction from the oldest end until the size fits, section 4.3. */
  function EvictTo(es: seq<Entry>, limit: int): (r: seq<Entry>)
    ensures r <= es && (r == [] || TableSize(r) <= limit)
  {
    if es == [] || TableSize(es) <= limit then es else EvictTo(es[..|es| - 1], limit)
  }

  /** A table: newest entry first, and the size limit in force. */
  datatype Table = Table(entries: seq<Entry>, max: nat)

  function Resize(t: Table, max: nat): Table {
    Table(EvictTo(t.entries, max), max)
  }

  /** Insertion, section 4.4: an entry larger than the table empties it. */
  function Insert(t: Table, e: Entry): Table {
    if EntrySize(e) > t.max then t.(entries := [])
    else t.(entries := [e] + EvictTo(t.entries, t.max - EntrySize(e)))
  }

  predicate TableOk(t: Table) {
    && t.max <= DYN_MAX && TableSize(t.entries) <= t.max
    && forall i :: 0 <= i < |t.entries| ==> EntryOk(t.entries[i])
  }

  lemma {:induction false} TableSizeHead(es: seq<Entry>)
    requires es != []
    ensures TableSize(es) == EntrySize(es[0]) + TableSize(es[1..])
  {
    if |es| > 1 {
      TableSizeHead(es[..|es| - 1]);
      assert es[..|es| - 1][1..] == es[1..][..|es| - 2];
    }
  }

  /** Eviction removes no more than it must: what stays is the longest newest run that fits. */
  lemma {:induction false} EvictionIsMinimal(es: seq<Entry>, limit: int, k: nat)
    requires k <= |es| && TableSize(es[..k]) <= limit
    ensures k <= |EvictTo(es, limit)|
  {
    assert k == |es| ==> es[..k] == es;
    if k < |es| && TableSize(es) > limit {
      assert es[..|es| - 1][..k] == es[..k];
      EvictionIsMinimal(es[..|es| - 1], limit, k);
    }
  }

  lemma InsertOk(t: Table, e: Entry)
    requires TableOk(t) && EntryOk(e)
    ensures TableOk(Insert(t, e))
  {
    if EntrySize(e) <= t.max {
      var u := Insert(t, e);
      TableSizeHead(u.entries);
      assert u.entries[1..] == EvictTo(t.entries, t.max - EntrySize(e));
    }
  }

  /** Bytes of names and values, without the 32 per entry. */
  function DataSize(es: seq<Entry>): nat {
    if es == [] then 0 else DataSize(es[..|es| - 1]) + |es[|es| - 1].name| + |es[|es| - 1].value|
  }

  /** Every entry counts 32 bytes beyond its data, so few entries fit. */
  lemma {:induction false} SizeSplit(es: seq<Entry>)
    requires forall i :: 0 <= i < |es| ==> EntryOk(es[i])
    ensures TableSize(es) == DataSize(es) + 32 * |es|
    ensures DataSize(es) >= 2 * |es|
  {
    if es != [] { SizeSplit(es[..|es| - 1]); }
  }

  lemma {:induction false} DataSizeHead(es: seq<Entry>)
    requires es != []
    ensures DataSize(es) == |es[0].name| + |es[0].value| + DataSize(es[1..])
  {
    if |es| > 1 {
      DataSizeHead(es[..|es| - 1]);
      assert es[..|es| - 1][1..] == es[1..][..|es| - 2];
    }
  }

  lemma {:induction false} DataSizePrefix(es: seq<Entry>, k: nat)
    requires k < |es|
    ensures DataSize(es[..k + 1]) == DataSize(es[..k]) + |es[k].name| + |es[k].value| <= DataSize(es)
  {
    assert es[..k + 1][..k] == es[..k];
    if k + 1 < |es| {
      DataSizePrefix(es[..|es| - 1], k);
      assert es[..|es| - 1][..k] == es[..k];
    } else {
      assert es[..k + 1] == es;
    }
  }

  lemma DropLast(es: seq<Entry>, max: nat)
    requires es != [] && TableOk(Table(es, max))
    ensures var k := es[..|es| - 1];
            && TableOk(Table(k, max))
            && TableSize(k) + EntrySize(es[|es| - 1]) == TableSize(es)
            && DataSize(k) <= DataSize(es)
  {
  }

  lemma PushFront(es: seq<Entry>, max: nat, e: Entry)
    requires TableOk(Table(es, max)) && EntryOk(e) && TableSize(es) + EntrySize(e) <= max
    ensures TableOk(Table([e] + es, max))
    ensures TableSize([e] + es) == TableSize(es) + EntrySize(e)
    ensures DataSize([e] + es) == DataSize(es) + |e.name| + |e.value|
  {
    TableSizeHead([e] + es);
    DataSizeHead([e] + es);
    assert ([e] + es)[1..] == es;
  }

  /** With room for one more entry there is room for it in the slots and in the arena. */
  lemma RoomEnough(es: seq<Entry>, max: nat, e: Entry)
    requires TableOk(Table(es, max)) && EntryOk(e)
    ensures |es| >= DYN_SLOTS ==> TableSize(es) + EntrySize(e) > max
    ensures TableSize(es) + EntrySize(e) <= max ==> DataSize(es) + |e.name| + |e.value| <= DYN_MAX
  {
    SizeSplit(es);
  }

  datatype Dent = Dent(noff: nat, nlen: nat, voff: nat, vlen: nat)

  /** Does a descriptor name this entry inside the first `used` bytes of the arena? */
  ghost predicate Denotes(d: Dent, buf: seq<Byte>, used: nat, e: Entry) {
    && d.noff + d.nlen <= used <= |buf| && d.voff + d.vlen <= used
    && buf[d.noff..d.noff + d.nlen] == e.name && buf[d.voff..d.voff + d.vlen] == e.value
  }

  class DynTable {
    const buf: array<Byte>
    const ents: array<Dent>
    var n: nat
    var size: nat
    var max: nat
    var used: nat
    ghost var entries: seq<Entry>

    /** The arena, its descriptors and its counters describe the list `entries`. */
    ghost predicate Valid()
      reads this, buf, ents
    {
      && buf.Length == DYN_MAX && ents.Length == DYN_SLOTS
      && n == |entries| <= DYN_SLOTS
      && TableOk(View())
      && size == TableSize(entries)
      && used == DataSize(entries) <= DYN_MAX
      && forall i :: 0 <= i < n ==> Denotes(ents[i], buf[..], used, entries[i])
    }

    ghost function View(): Table
      reads this
    {
      Table(entries, max)
    }

    constructor ()
      ensures Valid() && fresh(buf) && fresh(ents) && View() == Table([], DYN_MAX)
    {
      buf := new Byte[DYN_MAX](_ => 0);
      ents := new Dent[DYN_SLOTS](_ => Dent(0, 0, 0, 0));
      n, size, max, used, entries := 0, 0, DYN_MAX, 0, [];
    }

    /** Copy the bytes of one entry to offset u of another arena. */
    method CopyEntry(d: Dent, tmp: array<Byte>, u: nat, ghost e: Entry, ghost usedBefore: nat)
      requires tmp != buf && u + d.nlen + d.vlen <= tmp.Length
      requires Denotes(d, buf[..], usedBefore, e)
      modifies tmp
      ensures tmp[..u] == old(tmp[..u])
      ensures Denotes(Dent(u, d.nlen, u + d.nlen, d.vlen), tmp[..], u + d.nlen + d.vlen, e)
    {
      CopyRange(d.noff, d.nlen, tmp, u);
      ghost var name := tmp[u..u + d.nlen];
      CopyRange(d.voff, d.vlen, tmp, u + d.nlen);
      assert tmp[u..u + d.nlen] == name;
      assert tmp[..u] == old(tmp[..u]);
    }

    /** memcpy out of the arena. */
    method CopyRange(from: nat, len: nat, tmp: array<Byte>, to: nat)
      requires tmp != buf && from + len <= buf.Length && to + len <= tmp.Length
      modifies tmp
      ensures tmp[to..to + len] == buf[from..from + len]
      ensures forall i :: 0 <= i < tmp.Length && !(to <= i < to + len) ==> tmp[i] == old(tmp[i])
    {
      forall k | 0 <= k < len { tmp[to + k] := buf[from + k]; }
    }

    /** Move entry i to offset u of the scratch arena; the entries before it stay put. */
    method RelocateOne(i: nat, tmp: array<Byte>, u: nat, ghost keep: seq<Entry>, ghost usedBefore: nat) returns (v: nat)
      requires i < |keep| <= ents.Length && tmp != buf && tmp.Length == DYN_MAX
      requires u == DataSize(keep[..i]) && DataSize(keep) <= DYN_MAX
      requires Denotes(ents[i], buf[..], usedBefore, keep[i])
      requires forall j :: 0 <= j < i ==> Denotes(ents[j], tmp[..], u, keep[j])
      modifies ents, tmp
      ensures v == DataSize(keep[..i + 1]) <= DYN_MAX
      ensures forall j :: 0 <= j <= i ==> Denotes(ents[j], tmp[..], v, keep[j])
      ensures forall j :: i < j < ents.Length ==> ents[j] == old(ents[j])
    {
      hide Denotes, DataSize;
      DataSizePrefix(keep, i);
      var d := ents[i];
      DenotesLengths(d, buf[..], usedBefore, keep[i]);
      ghost var before := tmp[..];
      CopyEntry(d, tmp, u, keep[i], usedBefore);
      v := u + d.nlen + d.vlen;
      assert tmp[..][..u] == before[..u];
      forall j | 0 <= j < i ensures Denotes(ents[j], tmp[..], v, keep[j]) {
        DenotesMoves(ents[j], before, tmp[..], u, v, keep[j]);
      }
      ents[i] := Dent(u, d.nlen, u + d.nlen, d.vlen);
    }

    /** Copy the surviving entries to the front of a scratch arena, fixing their offsets. */
    method Relocate(ghost keep: seq<Entry>, ghost usedBefore: nat) returns (tmp: array<Byte>, u: nat)
      requires buf.Length == DYN_MAX && ents.Length == DYN_SLOTS && n == |keep| <= DYN_SLOTS
      requires DataSize(keep) <= DYN_MAX
      requires forall i :: 0 <= i < n ==> Denotes(ents[i], buf[..], usedBefore, keep[i])
      modifies ents
      ensures fresh(tmp) && tmp.Length == DYN_MAX && u == DataSize(keep)
      ensures forall i :: 0 <= i < n ==> Denotes(ents[i], tmp[..], u, keep[i])
    {
      assert DataSize(keep[..0]) == 0;
      hide Denotes, DataSize;
      tmp := new Byte[DYN_MAX](_ => 0);
      u := 0;
      var i := 0;
      while i < n
        invariant i <= n && u == DataSize(keep[..i]) && fresh(tmp) && tmp.Length == DYN_MAX
        invariant forall j :: 0 <= j < i ==> Denotes(ents[j], tmp[..], u, keep[j])
        invariant forall j :: i <= j < n ==> Denotes(ents[j], buf[..], usedBefore, keep[j])
      {
        u := RelocateOne(i, tmp, u, keep, usedBefore);
        i := i + 1;
      }
      assert keep[..n] == keep;
    }

    /** Copy the first u bytes of the scratch arena back. */
    method CopyBack(tmp: array<Byte>, u: nat, ghost keep: seq<Entry>)
      requires tmp != buf && u <= tmp.Length == buf.Length && |keep| <= ents.Length
      requires forall i :: 0 <= i < |keep| ==> Denotes(ents[i], tmp[..], u, keep[i])
      modifies buf
      ensures forall i :: 0 <= i < |keep| ==> Denotes(ents[i], buf[..], u, keep[i])
    {
      hide Denotes;
      ghost var t, d := tmp[..], ents[..];
      forall k | 0 <= k < u { buf[k] := tmp[k]; }
      assert tmp[..] == t && ents[..] == d;
      assert buf[..][..u] == t[..u];
      forall i | 0 <= i < |keep| ensures Denotes(ents[i], buf[..], u, keep[i]) {
        assert ents[i] == d[i];
        DenotesMoves(d[i], t, buf[..], u, u, keep[i]);
      }
    }

    /** Drop the oldest entry and compact the arena (cmq_hpack_dyn_evict_oldest). */
    method EvictOldest()
      requires Valid() && n > 0
      modifies this, buf, ents
      ensures Valid() && max == old(max) && entries == old(entries)[..old(n) - 1]
    {
      hide Denotes, DataSize, TableSize, TableOk;
      ghost var keep := entries[..n - 1];
      DropLast(entries, max);
      var last := ents[n - 1];
      DenotesLengths(last, buf[..], used, entries[n - 1]);
      size := size - (last.nlen + last.vlen + 32);
      n := n - 1;
      var tmp, u := Relocate(keep, used);
      CopyBack(tmp, u, keep);
      used := u;
      entries := keep;
    }

    /** A smaller limit evicts until the table fits (cmq_hpack_dyn_set_max). */
    method SetMax(m: nat) returns (ok: bool)
      requires Valid()
      modifies this, buf, ents
      ensures Valid() && (ok <==> m <= DYN_MAX)
      ensures View() == if ok then Resize(old(View()), m) else old(View())
    {
      if m > DYN_MAX { return false; }
      EvictUntil(m);
      max := m;
      return true;
    }

    /** Evict while the size is over a limit. */
    method EvictUntil(limit: int)
      requires Valid()
      modifies this, buf, ents
      ensures Valid() && max == old(max) && entries == EvictTo(old(entries), limit)
    {
      while n > 0 && size > limit
        invariant Valid() && max == old(max)
        invariant EvictTo(entries, limit) == EvictTo(old(entries), limit)
        decreases n
      {
        EvictOldest();
      }
    }

    /** Insert a header (cmq_hpack_dyn_add); refused only for an empty or oversize string. */
    method Add(name: Str, value: Str) returns (ok: bool)
      requires Valid()
      modifies this, buf, ents
      ensures Valid() && (ok <==> EntryOk(Entry(name, value)))
      ensures View() == if ok then Insert(old(View()), Entry(name, value)) else old(View())
    {
      if name == [] || value == [] || |name| > STR_MAX || |value| > STR_MAX { return false; }
      var es := |name| + |value| + 32;
      InsertOk(View(), Entry(name, value));
      hide Denotes, DataSize, TableSize, TableOk, EvictTo;
      EvictFor(Entry(name, value));
      if es > max { return true; }
      RoomEnough(entries, max, Entry(name, value));
      ok := used + |name| + |value| <= DYN_MAX;
      assert ok;                  // the arena never overflows
      Append(name, value);
    }

    /** Make room for an entry. The guard also names the slot limit, which never decides it. */
    method EvictFor(e: Entry)
      requires Valid() && EntryOk(e)
      modifies this, buf, ents
      ensures Valid() && max == old(max) && entries == EvictTo(old(entries), max - EntrySize(e))
      ensures EntrySize(e) > max ==> entries == []
      ensures EntrySize(e) <= max ==> size + EntrySize(e) <= max && n < DYN_SLOTS
    {
      hide Denotes, DataSize, TableOk;
      var es := |e.name| + |e.value| + 32;
      while n > 0 && (size + es > max || n >= DYN_SLOTS)
        invariant Valid() && max == old(max)
        invariant EvictTo(entries, max - es) == EvictTo(old(entries), max - es)
        decreases n
      {
        RoomEnough(entries, max, e);
        assert size + es > max;   // 128 entries never fit: the slot limit alone evicts nothing
        EvictOldest();
      }
    }

    /** Write a new entry behind the used part of the arena and in front of the others. */
    method Append(name: Str, value: Str)
      requires Valid() && EntryOk(Entry(name, value))
      requires n < DYN_SLOTS && used + |name| + |value| <= DYN_MAX && size + EntrySize(Entry(name, value)) <= max
      modifies this, buf, ents
      ensures Valid() && max == old(max) && entries == [Entry(name, value)] + old(entries)
    {
      hide DataSize, TableSize, TableOk, Denotes;
      ghost var e := Entry(name, value);
      PushFront(entries, max, e);
      ghost var b, d := buf[..], ents[..];
      forall i | 0 <= i < n { ents[i + 1] := ents[i]; }
      ents[0] := Dent(used, |name|, used + |name|, |value|);
      assert buf[..] == b && forall i :: 0 <= i < n ==> ents[i + 1] == d[i];
      StoreBytes(name, value);
      ghost var es := entries;
      entries := [e] + entries;
      used := used + |name| + |value|;
      size := size + (|name| + |value| + 32);
      n := n + 1;
      forall i | 0 <= i < n ensures Denotes(ents[i], buf[..], used, entries[i]) {
        if i > 0 { assert entries[i] == es[i - 1]; }
      }
    }

    /** Copy name and value behind the used part of the arena. */
    method StoreBytes(name: Str, value: Str)
      requires used + |name| + |value| <= buf.Length && |entries| < ents.Length
      requires forall i :: 0 <= i < |entries| ==> Denotes(ents[i + 1], buf[..], used, entries[i])
      modifies buf
      ensures var v := used + |name| + |value|;
              && Denotes(Dent(used, |name|, used + |name|, |value|), buf[..], v, Entry(name, value))
              && forall i :: 0 <= i < |entries| ==> Denotes(ents[i + 1], buf[..], v, entries[i])
    {
      ghost var before := buf[..];
      forall k | 0 <= k < |name| { buf[used + k] := name[k]; }
      forall k | 0 <= k < |value| { buf[used + |name| + k] := value[k]; }
      assert buf[used..used + |name|] == name;
      assert buf[used + |name|..used + |name| + |value|] == value;
      assert buf[..][..used] == before[..used];
      hide Denotes;
      forall i | 0 <= i < |entries| ensures Denotes(ents[i + 1], buf[..], used + |name| + |value|, entries[i]) {
        DenotesMoves(ents[i + 1], before, buf[..], used, used + |name| + |value|, entries[i]);
      }
    }

    /** The i-th newest entry (cmq_hpack_dyn_get). */
    method Get(i: nat) returns (e: Option<Entry>)
      requires Valid()
      ensures e == if i < |entries| then Some(entries[i]) else None
    {
      if i >= n { return None; }
      assert Denotes(ents[i], buf[..], used, entries[i]);
      var d := ents[i];
      return Some(Entry(buf[d.noff..d.noff + d.nlen], buf[d.voff..d.voff + d.vlen]));
    }
  }

  lemma DenotesLengths(d: Dent, a: seq<Byte>, u: nat, e: Entry)
    requires Denotes(d, a, u, e)
    ensures d.nlen == |e.name| && d.vlen == |e.value|
  {
  }

  lemma DenotesMoves(d: Dent, a: seq<Byte>, b: seq<Byte>, u: nat, v: nat, e: Entry)
    requires Denotes(d, a, u, e) && u <= v <= |b| && a[..u] == b[..u]
    ensures Denotes(d, b, v, e)
  {
    SlicesAgree(a, b, u, d.noff, d.nlen);
    SlicesAgree(a, b, u, d.voff, d.vlen);
  }

  lemma SlicesAgree(a: seq<Byte>, b: seq<Byte>, u: nat, off: nat, len: nat)
    requires u <= |a| && u <= |b| && a[..u] == b[..u] && off + len <= u
    ensures a[off..off + len] == b[off..off + len]
  {
    assert a[off..off + len] == a[..u][off..off + len];
    assert b[off..off + len] == b[..u][off..off + len];
  }
}
