/**
 * What an index on the wire refers back to (RFC 7541 sections 2.3.3, 4.4 and 6): after any
 * sequence of headers, index 62 + i is the header i places before the last, exactly while
 * the headers since then fit the table.
 */
module HpackRecall {
  import opened Common
  import opened HpackInt
  import opened HpackTable
  import opened HpackHeader
  import opened HuffmanTable
  import Huffman

  /** The headers as table entries, newest first. */
  function Newest(hs: seq<Header>): seq<Entry> {
    seq(|hs|, i requires 0 <= i < |hs| => Entry(hs[|hs| - 1 - i].name, hs[|hs| - 1 - i].value))
  }

  // ---- eviction keeps the longest newest run that fits ----

  lemma {:induction false} SizeJoin(a: seq<Entry>, b: seq<Entry>)
    ensures TableSize(a + b) == TableSize(a) + TableSize(b)
  {
    if b == [] {
      assert a + b == a;
    } else {
      SizeJoin(a, b[..|b| - 1]);
      assert (a + b)[..|a + b| - 1] == a + b[..|b| - 1];
    }
  }

  lemma SizePrefix(es: seq<Entry>, k: nat)
    requires k <= |es|
    ensures TableSize(es[..k]) <= TableSize(es)
  {
    SizeJoin(es[..k], es[k..]);
    assert es[..k] + es[k..] == es;
  }

  /** A prefix is what eviction leaves if it fits and one entry more does not. */
  lemma EvictIs(es: seq<Entry>, max: nat, k: nat)
    requires k <= |es| && TableSize(es[..k]) <= max && (k < |es| ==> TableSize(es[..k + 1]) > max)
    ensures EvictTo(es, max) == es[..k]
  {
    var r := EvictTo(es, max);
    EvictionIsMinimal(es, max, k);
    assert r == es[..|r|];
    if k < |r| {
      assert r[..k + 1] == es[..k + 1];
      SizePrefix(r, k + 1);
    }
  }

  /** And what eviction leaves is such a prefix. */
  lemma EvictFits(es: seq<Entry>, max: nat)
    ensures var k := |EvictTo(es, max)|;
            k <= |es| && EvictTo(es, max) == es[..k] && TableSize(es[..k]) <= max &&
            (k < |es| ==> TableSize(es[..k + 1]) > max)
  {
    var r := EvictTo(es, max);
    assert r == es[..|r|];
    if |r| < |es| && TableSize(es[..|r| + 1]) <= max { EvictionIsMinimal(es, max, |r| + 1); }
  }

  lemma EvictAt(es: seq<Entry>, max: nat, i: nat)
    requires i < |es|
    ensures (i < |EvictTo(es, max)| <==> TableSize(es[..i + 1]) <= max)
    ensures i < |EvictTo(es, max)| ==> EvictTo(es, max)[i] == es[i]
  {
    EvictFits(es, max);
    hide TableSize, EvictTo;
    var k := |EvictTo(es, max)|;
    if i < k {
      assert es[..k][..i + 1] == es[..i + 1];
      SizePrefix(es[..k], i + 1);
    } else {
      assert es[..i + 1][..k + 1] == es[..k + 1];
      SizePrefix(es[..i + 1], k + 1);
    }
  }

  lemma InsertIs(t: Table, e: Entry)
    ensures Insert(t, e) == Table(EvictTo([e] + t.entries, t.max), t.max)
  {
    var all := [e] + t.entries;
    if EntrySize(e) > t.max {
      assert all[..1] == [e];
      assert TableSize([e]) == EntrySize(e) by { assert [e][..0] == []; }
      EvictIs(all, t.max, 0);
    } else {
      var left := t.max - EntrySize(e);
      EvictFits(t.entries, left);
      var k := |EvictTo(t.entries, left)|;
      HeadSize(e, t.entries, k);
      if k < |t.entries| { HeadSize(e, t.entries, k + 1); }
      EvictIs(all, t.max, k + 1);
      assert all[..k + 1] == [e] + t.entries[..k];
    }
  }

  lemma HeadSize(e: Entry, es: seq<Entry>, k: nat)
    requires k <= |es|
    ensures TableSize(([e] + es)[..k + 1]) == EntrySize(e) + TableSize(es[..k])
  {
    var s := ([e] + es)[..k + 1];
    TableSizeHead(s);
    assert s[1..] == es[..k];
  }

  /** Evicting what was evicted from already makes no difference. */
  lemma EvictTwice(a: seq<Entry>, b: seq<Entry>, max: nat)
    ensures EvictTo(a + EvictTo(b, max), max) == EvictTo(a + b, max)
  {
    hide TableSize, EvictTo;
    var all := a + b;
    EvictFits(b, max);
    EvictFits(all, max);
    var j, k := |EvictTo(b, max)|, |EvictTo(all, max)|;
    var some := a + b[..j];
    if k > |a| + j {
      assert all[..k] == a + b[..k - |a|];
      assert b[..k - |a|][..j + 1] == b[..j + 1];
      SizeJoin(a, b[..k - |a|]);
      SizePrefix(b[..k - |a|], j + 1);
    }
    assert k <= |some|;
    assert some[..k] == all[..k];
    assert k < |some| ==> some[..k + 1] == all[..k + 1];
    EvictIs(some, max, k);
  }

  /** The table after any headers: they and what was there, newest first, as far as they fit. */
  lemma {:induction false} TableAfter(t: Table, hs: seq<Header>)
    requires TableSize(t.entries) <= t.max
    ensures InsertAll(t, hs) == Table(EvictTo(Newest(hs) + t.entries, t.max), t.max)
    decreases |hs|
  {
    hide Insert, TableSize;
    if hs == [] {
      assert Newest(hs) + t.entries == t.entries;
    } else {
      var init, h := hs[..|hs| - 1], hs[|hs| - 1];
      var e := Entry(h.name, h.value);
      TableAfter(t, init);
      InsertAllSnoc(t, init, h);
      assert init + [h] == hs;
      InsertIs(InsertAll(t, init), e);
      EvictTwice([e], Newest(init) + t.entries, t.max);
      assert [e] + (Newest(init) + t.entries) == Newest(hs) + t.entries;
    }
  }

  // ---- reading on after the headers ----

  lemma FieldThen(m: Reader, s: seq<Byte>, t: Table, ncap: nat, vcap: nat, e: Entry, k: nat, u: Table)
    requires Read(m, s, t, ncap, vcap) == Field(e, k, u) && 0 < k <= |s|
    ensures var b := ReadBlock(m, s[k..], u, ncap, vcap);
            ReadBlock(m, s, t, ncap, vcap) == Block([e] + b.entries, b.table, b.rest)
  {
    hide Read;
  }

  lemma AllUnfold(hs: seq<Header>, t: Table, s: seq<Byte>)
    requires hs != []
    ensures EncodeAll(hs) + s == EncodeInc(hs[0]) + (EncodeAll(hs[1..]) + s)
    ensures InsertAll(t, hs) == InsertAll(Insert(t, Entry(hs[0].name, hs[0].value)), hs[1..])
    ensures Entries(hs) == [Entry(hs[0].name, hs[0].value)] + Entries(hs[1..])
  {
    hide EncodeInc, Insert;
  }

  lemma NoneUnfold(t: Table, s: seq<Byte>)
    ensures EncodeAll([]) + s == s && InsertAll(t, []) == t && Entries([]) == []
  {
  }

  lemma {:induction false} BlockThen(m: Reader, hs: seq<Header>, s: seq<Byte>, t: Table, ncap: nat, vcap: nat)
    requires forall i :: 0 <= i < |hs| ==> HeaderOk(hs[i]) && |hs[i].name| < ncap && |hs[i].value| < vcap
    ensures var b := ReadBlock(m, s, InsertAll(t, hs), ncap, vcap);
            ReadBlock(m, EncodeAll(hs) + s, t, ncap, vcap) == Block(Entries(hs) + b.entries, b.table, b.rest)
  {
    hide *;
    if hs == [] {
      NoneUnfold(t, s);
    } else {
      var h, u := hs[0], Insert(t, Entry(hs[0].name, hs[0].value));
      var w, rest := EncodeInc(h), EncodeAll(hs[1..]) + s;
      AllUnfold(hs, t, s);
      HeaderRoundTrip(m, h, rest, t, ncap, vcap);
      IncNotEmpty(h);
      assert (w + rest)[|w|..] == rest;
      FieldThen(m, w + rest, t, ncap, vcap, Entry(h.name, h.value), |w|, u);
      BlockThen(m, hs[1..], s, u, ncap, vcap);
    }
  }

  /** A field at the end of a block. */
  lemma LastField(m: Reader, s: seq<Byte>, t: Table, ncap: nat, vcap: nat)
    ensures var r := Read(m, s, t, ncap, vcap);
            && (r.Field? && 0 < r.consumed == |s| ==>
                  ReadBlock(m, s, t, ncap, vcap) == Block([r.entry], r.table, []))
            && (r.Malformed? ==> ReadBlock(m, s, t, ncap, vcap) == Block([], t, s))
  {
    hide Read;
    var r := Read(m, s, t, ncap, vcap);
    if r.Field? && 0 < r.consumed == |s| {
      assert s[r.consumed..] == [];
      ReadNothing(m, r.table, ncap, vcap);
    }
  }

  /** An index on the wire. */
  function Index(i: nat): seq<Byte> { EncodeInt(i, 7, 0x80) }

  lemma FirstByteOfIndex(i: nat)
    ensures HighBitsOk(0x80, 7) && |Index(i)| >= 1 && Index(i)[0] >= 0x80
  {
  }

  lemma IndexRoundTrip(i: nat, rest: seq<Byte>)
    requires i <= INT_LIMIT
    ensures DecodeInt(Index(i) + rest, 7) == Some(Decoded(i, |Index(i)|))
  {
    FirstByteOfIndex(i);
    IntRoundTrip(i, 7, 0x80, rest);
  }

  lemma ReadIndex(m: Reader, i: nat, rest: seq<Byte>, t: Table, ncap: nat, vcap: nat)
    requires ncap > 0 && vcap > 0
    ensures Read(m, Index(i) + rest, t, ncap, vcap) ==
            var e := Lookup(t, i);
            if i <= INT_LIMIT && e.Some? && |e.value.name| < ncap &&
                |e.value.value| < vcap then Field(e.value, |Index(i)|, t)
            else Malformed
  {
    FirstByteOfIndex(i);
    if i <= INT_LIMIT { IntRoundTrip(i, 7, 0x80, rest); } else { IntTooLarge(i, 7, 0x80, rest); }
    hide Lookup, DecodeInt, EncodeInt;
  }

  /** Entry i of a table that has just taken these headers. */
  lemma NewestAt(t: Table, hs: seq<Header>, i: nat)
    requires TableSize(t.entries) <= t.max && i < |hs|
    ensures var es := InsertAll(t, hs).entries;
            (i < |es| <==> TableSize(Newest(hs)[..i + 1]) <= t.max) &&
            (i < |es| ==> es[i] == Entry(hs[|hs| - 1 - i].name, hs[|hs| - 1 - i].value))
  {
    TableAfter(t, hs);
    var all := Newest(hs) + t.entries;
    EvictAt(all, t.max, i);
    assert all[..i + 1] == Newest(hs)[..i + 1];
    assert all[i] == Newest(hs)[i];
    hide TableSize, EvictTo, InsertAll;
  }

  /** There are never many entries. */
  lemma {:induction false} FewEntries(t: Table, hs: seq<Header>)
    requires TableOk(t) && forall j :: 0 <= j < |hs| ==> HeaderOk(hs[j])
    ensures |InsertAll(t, hs).entries| <= DYN_SLOTS
    decreases |hs|
  {
    if hs == [] {
      SizeSplit(t.entries);
    } else {
      InsertOk(t, Entry(hs[0].name, hs[0].value));
      hide Insert, TableOk;
      FewEntries(Insert(t, Entry(hs[0].name, hs[0].value)), hs[1..]);
    }
  }

  /** An index at the end of a block. */
  lemma IndexAtEnd(m: Reader, i: nat, t: Table, ncap: nat, vcap: nat)
    requires ncap > 0 && vcap > 0
    ensures ReadBlock(m, Index(i), t, ncap, vcap).entries ==
            var e := Lookup(t, i);
            if i <= INT_LIMIT && e.Some? && |e.value.name| < ncap && |e.value.value| < vcap then [e.value] else []
  {
    hide Read, ReadBlock, Lookup, EncodeInt;
    ReadIndex(m, i, [], t, ncap, vcap);
    assert Index(i) + [] == Index(i);
    assert |Index(i)| > 0 by { FirstByteOfIndex(i); }
    LastField(m, Index(i), t, ncap, vcap);
  }

  lemma LookupDynamic(t: Table, i: nat)
    ensures Lookup(t, 62 + i) == if i < |t.entries| then Some(t.entries[i]) else None
  {
  }

  /** Index 62 + i at the end of a block. */
  lemma DynamicAtEnd(m: Reader, i: nat, t: Table, ncap: nat, vcap: nat)
    requires ncap > 0 && vcap > 0 && |t.entries| <= DYN_SLOTS
    requires i < |t.entries| ==> |t.entries[i].name| < ncap && |t.entries[i].value| < vcap
    ensures ReadBlock(m, Index(62 + i), t, ncap, vcap).entries == if i < |t.entries| then [t.entries[i]] else []
  {
    hide ReadBlock, Index, Lookup;
    LookupDynamic(t, i);
    IndexAtEnd(m, 62 + i, t, ncap, vcap);
  }

  /**
   * Any headers and then index 62 + i: the decoder finds once more the header i places before
   * the last, exactly if the headers from it on fit the table; else the index is malformed.
   */
  lemma Recall(m: Reader, hs: seq<Header>, i: nat, t: Table, ncap: nat, vcap: nat)
    requires forall j :: 0 <= j < |hs| ==> HeaderOk(hs[j]) && |hs[j].name| < ncap && |hs[j].value| < vcap
    requires TableOk(t) && i < |hs|
    ensures ReadBlock(m, EncodeAll(hs) + Index(62 + i), t, ncap, vcap).entries ==
            Entries(hs) +
            if TableSize(Newest(hs)[..i + 1]) <= t.max then [Entry(hs[|hs| - 1 - i].name, hs[|hs| - 1 - i].value)]
            else []
  {
    assert TableSize(t.entries) <= t.max;
    hide *;
    var u := InsertAll(t, hs);
    FewEntries(t, hs);
    NewestAt(t, hs, i);
    assert i < |u.entries| ==> |u.entries[i].name| < ncap && |u.entries[i].value| < vcap;
    DynamicAtEnd(m, i, u, ncap, vcap);
    BlockThen(m, hs, Index(62 + i), t, ncap, vcap);
  }

  /** Byte 0xBE, index 62, is what was inserted last. */
  lemma NewestFirst(m: Reader, t: Table, e: Entry, rest: seq<Byte>, ncap: nat, vcap: nat)
    requires EntrySize(e) <= t.max && |e.name| < ncap && |e.value| < vcap
    ensures Read(m, [0xBE] + rest, Insert(t, e), ncap, vcap) == Field(e, 1, Insert(t, e))
  {
    var u := Insert(t, e);
    assert u.entries[0] == e;
    assert Index(62) == [0xBE];
    hide Read, Lookup, Insert, Index;
    LookupDynamic(u, 0);
    ReadIndex(m, 62, rest, u, ncap, vcap);
  }

  /** An insertion moves every entry that stays one place on. */
  lemma OlderByOne(m: Reader, t: Table, e: Entry, i: nat, rest: seq<Byte>, ncap: nat, vcap: nat)
    requires i + 1 < |Insert(t, e).entries| && ncap > 0 && vcap > 0 && 63 + i <= INT_LIMIT
    ensures Read(m, Index(63 + i) + rest, Insert(t, e), ncap, vcap) ==
            var r := Read(m, Index(62 + i) + rest, t, ncap, vcap);
            if r.Field? then Field(r.entry, |Index(63 + i)|, Insert(t, e)) else Malformed
  {
    var u := Insert(t, e);
    assert i < |t.entries| && u.entries[i + 1] == t.entries[i];
    hide Read, Lookup, Insert, Index;
    LookupDynamic(u, i + 1);
    LookupDynamic(t, i);
    ReadIndex(m, 63 + i, rest, u, ncap, vcap);
    ReadIndex(m, 62 + i, rest, t, ncap, vcap);
  }

  // ---- a name taken from an index ----

  /** The three literals of section 6.2: with incremental indexing, without indexing, never indexed. */
  datatype Kind = Incremental | Plain | Never

  function PrefixBits(k: Kind): nat { if k.Incremental? then 6 else 4 }
  function High(k: Kind): Byte { if k.Incremental? then 0x40 else if k.Plain? then 0 else 0x10 }

  lemma KindOk(k: Kind)
    ensures 1 <= PrefixBits(k) <= 8 && HighBitsOk(High(k), PrefixBits(k))
  {
  }

  /** The index of such a literal. */
  function NameIndex(k: Kind, i: nat): seq<Byte> {
    KindOk(k);
    EncodeInt(i, PrefixBits(k), High(k))
  }

  /** A literal whose name is that of an index. */
  function Named(k: Kind, i: nat, value: Str): seq<Byte> { NameIndex(k, i) + EncodeStr(value) }

  lemma FirstByteOfNamed(k: Kind, i: nat)
    requires i > 0
    ensures var h := NameIndex(k, i);
            |h| >= 1 && h[0] < 0x80 && !(0x20 <= h[0] < 0x40) && (h[0] >= 0x40 <==> k.Incremental?)
  {
  }

  lemma NameIndexRoundTrip(k: Kind, i: nat, rest: seq<Byte>)
    requires i <= INT_LIMIT
    ensures 1 <= PrefixBits(k) <= 8 && DecodeInt(NameIndex(k, i) + rest, PrefixBits(k)) ==
            Some(Decoded(i, |NameIndex(k, i)|))
  {
    KindOk(k);
    IntRoundTrip(i, PrefixBits(k), High(k), rest);
  }

  lemma ReadNameIndex(m: Reader, s: seq<Byte>, t: Table, ncap: nat, nbits: nat, i: nat, k: nat)
    requires 1 <= nbits <= 8 && DecodeInt(s, nbits) == Some(Decoded(i, k)) && i > 0
    ensures var e := Lookup(t, i);
            ReadName(m, s, t, ncap, nbits) ==
            if e.Some? && |e.value.name| < ncap && |e.value.value| <= STR_MAX then Piece(e.value.name, k) else NoPiece
  {
    hide Lookup, DecodeInt;
  }

  lemma ReadNamed(m: Reader, k: Kind, i: nat, v: CString, t: Table, ncap: nat, vcap: nat)
    requires 0 < i <= INT_LIMIT && StrOk(v) && |v| < vcap && ncap > 0
    ensures var e := Lookup(t, i);
            Read(m, Named(k, i, v), t, ncap, vcap) ==
            if e.Some? && |e.value.name| < ncap && |e.value.value| <= STR_MAX
            then Finish(t, k.Incremental?, Piece(e.value.name, |NameIndex(k, i)|), Piece(v, |EncodeStr(v)|))
            else Malformed
  {
    hide Lookup, DecodeInt, NameIndex, EncodeStr, ReadStr, Finish, ReadName, ReadIndexed, ReadSize, CStr;
    FirstByteOfNamed(k, i);
    var h, w := NameIndex(k, i), EncodeStr(v);
    var s := Named(k, i, v);
    assert s == h + w && s[0] == h[0];
    NameIndexRoundTrip(k, i, w);
    ReadNameIndex(m, s, t, ncap, PrefixBits(k), i, |h|);
    assert s[|h|..] == w;
    StrRoundTrip(m, v, [], vcap);
    assert w + [] == w;
  }

  lemma NamedAtEnd(m: Reader, k: Kind, i: nat, name: CString, v: CString, t: Table, ncap: nat, vcap: nat)
    requires 0 < i <= INT_LIMIT && StrOk(v) && |v| < vcap && StrOk(name) && |name| < ncap
    requires var e := Lookup(t, i); e.Some? && e.value.name == name && |e.value.value| <= STR_MAX
    ensures ReadBlock(m, Named(k, i, v), t, ncap, vcap) ==
            Block([Entry(name, v)], if k.Incremental? then Insert(t, Entry(name, v)) else t, [])
  {
    hide Lookup, Read, ReadBlock, EncodeStr, NameIndex, Insert;
    FirstByteOfNamed(k, i);
    ReadNamed(m, k, i, v, t, ncap, vcap);
    CStrWhole(name);
    CStrWhole(v);
    LastField(m, Named(k, i, v), t, ncap, vcap);
  }

  /**
   * Any headers and then a literal named by index 62 + i: it has the name of the header i
   * places before the last, and enters the table exactly if it is an incremental one.
   */
  lemma RecallName(m: Reader, hs: seq<Header>, k: Kind, i: nat, v: CString, t: Table, ncap: nat, vcap: nat)
    requires forall j :: 0 <= j < |hs| ==> HeaderOk(hs[j]) && |hs[j].name| < ncap && |hs[j].value| < vcap
    requires TableOk(t) && i < |hs| && StrOk(v) && |v| < vcap && TableSize(Newest(hs)[..i + 1]) <= t.max
    ensures var name := hs[|hs| - 1 - i].name;
            var b := ReadBlock(m, EncodeAll(hs) + Named(k, 62 + i, v), t, ncap, vcap);
            && b.entries == Entries(hs) + [Entry(name, v)] && b.rest == []
            && b.table == InsertAll(t, if k.Incremental? then hs + [Header(name, v)] else hs)
  {
    assert TableSize(t.entries) <= t.max;
    var h := hs[|hs| - 1 - i];
    assert HeaderOk(h) && StrOk(h.name) && |h.value| <= STR_MAX && |h.name| < ncap;
    var u := InsertAll(t, hs);
    hide *;
    FewEntries(t, hs);
    NewestAt(t, hs, i);
    LookupDynamic(u, i);
    NamedAtEnd(m, k, 62 + i, h.name, v, u, ncap, vcap);
    BlockThen(m, hs, Named(k, 62 + i, v), t, ncap, vcap);
    InsertAllSnoc(t, hs, Header(h.name, v));
  }

  // ---- dynamic table size updates ----

  function Update(n: nat): seq<Byte> { EncodeInt(n, 5, 0x20) }

  lemma FirstByteOfUpdate(n: nat)
    ensures HighBitsOk(0x20, 5) && |Update(n)| >= 1 && 0x20 <= Update(n)[0] < 0x40
  {
  }

  /** An update to more than 4096 is malformed; any other lets the rest be read with that limit. */
  lemma ReadUpdate(m: Reader, n: nat, s: seq<Byte>, t: Table, ncap: nat, vcap: nat)
    requires ncap > 0 && vcap > 0
    ensures ReadBlock(m, Update(n) + s, t, ncap, vcap) ==
            if n <= 4096 then ReadBlock(m, s, Resize(t, n), ncap, vcap) else Block([], t, Update(n) + s)
  {
    FirstByteOfUpdate(n);
    if n <= INT_LIMIT { IntRoundTrip(n, 5, 0x20, s); } else { IntTooLarge(n, 5, 0x20, s); }
    hide DecodeInt, EncodeInt, Resize, ReadIndexed, ReadLiteral;
    assert (Update(n) + s)[|Update(n)|..] == s;
    assert Read(m, Update(n) + s, t, ncap, vcap) ==
           if n <= 4096 then SizeUpdate(|Update(n)|, Resize(t, n)) else Malformed;
  }

  /** Headers, a size update and an index: what the index finds fits the new limit and the old one. */
  lemma RecallResized(m: Reader, hs: seq<Header>, n: nat, i: nat, t: Table, ncap: nat, vcap: nat)
    requires forall j :: 0 <= j < |hs| ==> HeaderOk(hs[j]) && |hs[j].name| < ncap && |hs[j].value| < vcap
    requires TableOk(t) && i < |hs|
    ensures ReadBlock(m, EncodeAll(hs) + (Update(n) + Index(62 + i)), t, ncap, vcap).entries ==
            Entries(hs) +
            if n <= 4096 && TableSize(Newest(hs)[..i + 1]) <= n && TableSize(Newest(hs)[..i + 1]) <= t.max
            then [Entry(hs[|hs| - 1 - i].name, hs[|hs| - 1 - i].value)] else []
  {
    assert TableSize(t.entries) <= t.max;
    var u := InsertAll(t, hs);
    var w := Resize(u, n);
    ResizedAt(t, hs, n, i);
    hide *;
    FewEntries(t, hs);
    BlockThen(m, hs, Update(n) + Index(62 + i), t, ncap, vcap);
    ReadUpdate(m, n, Index(62 + i), u, ncap, vcap);
    DynamicAtEnd(m, i, w, ncap, vcap);
  }

  lemma ResizedAt(t: Table, hs: seq<Header>, n: nat, i: nat)
    requires TableOk(t) && i < |hs|
    ensures var u := InsertAll(t, hs); var es := Resize(u, n).entries;
            && |es| <= |u.entries|
            && (i < |es| <==> TableSize(Newest(hs)[..i + 1]) <= n && TableSize(Newest(hs)[..i + 1]) <= t.max)
            && (i < |es| ==> es[i] == Entry(hs[|hs| - 1 - i].name, hs[|hs| - 1 - i].value))
  {
    var u := InsertAll(t, hs);
    assert TableSize(t.entries) <= t.max;
    NewestAt(t, hs, i);
    assert i < |u.entries| ==> u.entries[..i + 1] == Newest(hs)[..i + 1] by { TableAfter(t, hs); }
    assert |EvictTo(u.entries, n)| <= |u.entries|;
    hide TableSize, EvictTo, InsertAll, Newest, TableOk;
    if i < |u.entries| { EvictAt(u.entries, n, i); }
  }

  // ---- Huffman strings ----

  lemma TextTakesBytes(bytes: seq<Byte>, y: Str)
    requires IsHuff(bytes, y) && y != []
    ensures bytes != []
  {
    assert |Huffman.Stream(AppendixB(), y)| > 0 by { hide AppendixB; }
    hide AppendixB, Huffman.Stream;
  }

  lemma HuffmanBody(m: Reader, bytes: seq<Byte>, y: Str, consumed: nat, cap: nat)
    requires IsHuff(bytes, y) && 0 < |y| < cap
    ensures ReadBody(m, true, bytes, consumed, cap) == Piece(y, consumed)
  {
    hide Huffman.Encodes, Huffman.PrefixFree, AppendixB, Huffman.Overruns, Unhuff, CodeText;
    AppendixBIsGood();
    if Huffman.Overruns(AppendixB(), bytes, cap) {
      Huffman.OverrunIsNoText(AppendixB(), bytes, cap, y);
    } else {
      UnhuffIs(bytes, y);
      BodyAgrees(true, bytes, consumed, cap);
    }
  }

  /** A string literal behind its length. */
  lemma ReadStrIs(m: Reader, h: seq<Byte>, body: seq<Byte>, rest: seq<Byte>, cap: nat)
    requires h != [] && 0 < |body| <= STR_MAX && cap > 0
    requires DecodeInt(h + (body + rest), 7) == Some(Decoded(|body|, |h|))
    ensures ReadStr(m, h + (body + rest), cap) == ReadBody(m, h[0] >= 0x80, body, |h| + |body|, cap)
  {
    hide DecodeInt, ReadBody;
    var s := h + (body + rest);
    assert s[|h|..|h| + |body|] == body;
  }

  /** A string literal in the Huffman code is the text it encodes. */
  lemma HuffmanString(m: Reader, bytes: seq<Byte>, y: Str, rest: seq<Byte>, cap: nat)
    requires IsHuff(bytes, y) && 0 < |y| < cap && |bytes| <= STR_MAX
    ensures ReadStr(m, Index(|bytes|) + (bytes + rest), cap) == Piece(y, |Index(|bytes|)| + |bytes|)
  {
    assert |bytes| <= INT_LIMIT;
    hide *;
    var h := Index(|bytes|);
    FirstByteOfIndex(|bytes|);
    IndexRoundTrip(|bytes|, bytes + rest);
    TextTakesBytes(bytes, y);
    ReadStrIs(m, h, bytes, rest, cap);
    HuffmanBody(m, bytes, y, |h| + |bytes|, cap);
  }
}
