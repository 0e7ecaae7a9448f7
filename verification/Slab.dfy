/**
 * The slab allocator (src/core/cmq_slab.c) over a flat byte memory. The links of a page's
 * free list are stored inside the freed objects themselves: as 64-bit pointers, or as 32-bit
 * slot indices when an object is smaller than a pointer.
 */
module Slab {
  import opened Common
  import Bits

  const LINK_BYTES: nat := 8
  const INDEX: nat := 4
  const NO_INDEX: nat := 0xffff_ffff

  type Memory = map<int, Byte>

  function Get(m: Memory, a: int): Byte { if a in m then m[a] else 0 }

  /** The n-byte number at an address, and writing one. */
  function Load(m: Memory, a: int, n: nat): nat
    decreases n
  {
    if n == 0 then 0 else Get(m, a) + 256 * Load(m, a + 1, n - 1)
  }

  function Store(m: Memory, a: int, n: nat, v: nat): Memory
    decreases n
  {
    if n == 0 then m else Store(m[a := v % 256], a + 1, n - 1, v / 256)
  }

  function Pow256(n: nat): (p: nat)
    ensures p >= 1
  {
    if n == 0 then 1 else 256 * Pow256(n - 1)
  }

  lemma {:induction false} StoreElsewhere(m: Memory, a: int, n: nat, v: nat, x: int)
    requires !(a <= x < a + n)
    ensures Get(Store(m, a, n, v), x) == Get(m, x)
    decreases n
  {
    if n > 0 { StoreElsewhere(m[a := v % 256], a + 1, n - 1, v / 256, x); }
  }

  lemma {:induction false} LoadSame(m: Memory, k: Memory, a: int, n: nat)
    requires forall x :: a <= x < a + n ==> Get(m, x) == Get(k, x)
    ensures Load(m, a, n) == Load(k, a, n)
    decreases n
  {
    if n > 0 {
      assert Get(m, a) == Get(k, a);
      LoadSame(m, k, a + 1, n - 1);
    }
  }

  lemma {:induction false} LoadStore(m: Memory, a: int, n: nat, v: nat)
    requires v < Pow256(n)
    ensures Load(Store(m, a, n, v), a, n) == v
    decreases n
  {
    if n > 0 {
      var k := m[a := v % 256];
      LoadStore(k, a + 1, n - 1, v / 256);
      StoreElsewhere(k, a + 1, n - 1, v / 256, a);
    }
  }

  /** A page: the block malloc returned, the aligned start of its slots, and its counters. */
  datatype Page = Page(raw: nat, mem: nat, capacity: nat, used: nat, head: int)

  /**
   * An allocator: `free` has each page's free list, most recently freed first, and `live`
   * says of every allocated address which page and slot it is.
   */
  datatype World = World(size: nat, pages: seq<Page>, memory: Memory, free: seq<seq<nat>>, live: map<int, (nat, nat)>)

  predicate ByPointer(size: nat) { size >= LINK_BYTES }
  function Width(size: nat): nat { if ByPointer(size) then LINK_BYTES else INDEX }

  function Addr(size: nat, pg: Page, i: nat): nat { pg.mem + i * size }

  /** How slot i of a page is written in a link, and how the end of the list is. */
  function LinkTo(size: nat, pg: Page, i: nat): nat { if ByPointer(size) then Addr(size, pg, i) else i }
  function NoLink(size: nat): nat { if ByPointer(size) then 0 else NO_INDEX }

  /** The head of a free list, as a field: a null pointer or -1 for none. */
  function HeadOf(size: nat, pg: Page, f: seq<nat>): int {
    if f != [] then LinkTo(size, pg, f[0]) else if ByPointer(size) then 0 else -1
  }

  predicate PageOk(size: nat, pg: Page) {
    && 0 < pg.capacity && pg.used <= pg.capacity
    && 0 < pg.raw <= pg.mem <= pg.raw + 16
    && pg.raw + pg.capacity * size + 16 <= SIZE_MAX
    && (ByPointer(size) || pg.capacity <= INT_MAX)
  }

  predicate BlocksApart(size: nat, a: Page, b: Page) {
    || a.raw + a.capacity * size + 16 <= b.raw
    || b.raw + b.capacity * size + 16 <= a.raw
  }

  /** The word in slot f[k] links to the next entry of the list. */
  predicate LinkOk(size: nat, pg: Page, m: Memory, f: seq<nat>, k: nat)
    requires k < |f|
  {
    Load(m, Addr(size, pg, f[k]), Width(size)) == if k + 1 < |f| then LinkTo(size, pg, f[k + 1]) else NoLink(size)
  }

  /** A page's free list: freed slots below `used`, none twice, linked from the head to the end. */
  ghost predicate ListOk(size: nat, pg: Page, m: Memory, f: seq<nat>) {
    && (forall k :: 0 <= k < |f| ==> f[k] < pg.used)
    && (forall j, k :: 0 <= j < k < |f| ==> f[j] != f[k])
    && pg.head == HeadOf(size, pg, f)
    && (forall k :: 0 <= k < |f| ==> LinkOk(size, pg, m, f, k))
  }

  /** Slots below `used` are live or on the free list, never both. */
  ghost predicate SlotOk(w: World, p: nat, i: nat)
    requires p < |w.pages| == |w.free|
  {
    var a := Addr(w.size, w.pages[p], i);
    i < w.pages[p].used ==> (i in w.free[p] <==> !(a in w.live && w.live[a] == (p, i)))
  }

  ghost predicate LiveOk(w: World, a: int)
    requires a in w.live && |w.pages| == |w.free|
  {
    var (p, i) := w.live[a];
    p < |w.pages| && i < w.pages[p].used && i !in w.free[p] && a == Addr(w.size, w.pages[p], i)
  }

  ghost predicate Inv(w: World) {
    && w.size >= INDEX && |w.pages| == |w.free|
    && (forall p :: 0 <= p < |w.pages| ==> PageOk(w.size, w.pages[p]))
    && (forall p, q :: 0 <= p < q < |w.pages| ==> BlocksApart(w.size, w.pages[p], w.pages[q]))
    && (forall p :: 0 <= p < |w.pages| ==> ListOk(w.size, w.pages[p], w.memory, w.free[p]))
    && (forall p: nat, i: nat :: p < |w.pages| ==> SlotOk(w, p, i))
    && (forall a :: a in w.live ==> LiveOk(w, a))
  }

  // ---- addresses ----

  lemma MulMono(i: nat, j: nat, s: nat)
    requires i <= j
    ensures i * s <= j * s
  {
    assert (j - i) * s >= 0;
    assert (j - i) * s == j * s - i * s;
  }

  /** A slot lies inside its page. */
  lemma SlotInside(size: nat, pg: Page, i: nat)
    requires PageOk(size, pg) && i < pg.capacity
    ensures pg.mem <= Addr(size, pg, i) && Addr(size, pg, i) + size <= pg.mem + pg.capacity * size
    ensures 0 < Addr(size, pg, i)
  {
    MulStrict(i, pg.capacity, size);
    MulMono(0, i, size);
  }

  predicate Disjoint(a: int, b: int, size: nat) { a + size <= b || b + size <= a }

  /** Two different slots share no byte. */
  lemma SlotsApart(w: World, p: nat, i: nat, q: nat, j: nat)
    requires Inv(w) && p < |w.pages| && q < |w.pages| && i < w.pages[p].capacity && j < w.pages[q].capacity
    requires (p, i) != (q, j)
    ensures Disjoint(Addr(w.size, w.pages[p], i), Addr(w.size, w.pages[q], j), w.size)
  {
    hide ListOk, SlotOk, LiveOk;
    if p == q {
      var a, b := if i < j then i else j, if i < j then j else i;
      MulMono(a + 1, b, w.size);
      assert (a + 1) * w.size == a * w.size + w.size;
    } else {
      SlotInside(w.size, w.pages[p], i);
      SlotInside(w.size, w.pages[q], j);
      assert BlocksApart(w.size, if p < q then w.pages[p] else w.pages[q], if p < q then w.pages[q] else w.pages[p]);
    }
  }

  /** Live objects are pairwise disjoint. */
  lemma LiveDisjoint(w: World, a: int, b: int)
    requires Inv(w) && a in w.live && b in w.live && a != b
    ensures Disjoint(a, b, w.size)
  {
    assert LiveOk(w, a) && LiveOk(w, b);
    assert PageOk(w.size, w.pages[w.live[a].0]) && PageOk(w.size, w.pages[w.live[b].0]);
    SlotsApart(w, w.live[a].0, w.live[a].1, w.live[b].0, w.live[b].1);
  }

  lemma MulStrict(i: nat, j: nat, s: nat)
    ensures i < j ==> i * s + s <= j * s
  {
    if i < j {
      MulMono(i + 1, j, s);
      assert (i + 1) * s == i * s + s;
    }
  }

  lemma LinksDiffer(size: nat, pg: Page, i: nat, j: nat)
    requires size > 0 && LinkTo(size, pg, i) == LinkTo(size, pg, j)
    ensures i == j
  {
    MulStrict(i, j, size);
    MulStrict(j, i, size);
  }

  lemma AddrUnique(w: World, p: nat, i: nat, q: nat, j: nat)
    requires Inv(w) && p < |w.pages| && q < |w.pages| && i < w.pages[p].capacity && j < w.pages[q].capacity
    requires Addr(w.size, w.pages[p], i) == Addr(w.size, w.pages[q], j)
    ensures p == q && i == j
  {
    hide Inv;
    assert w.size >= INDEX by { InvParts(w); }
    if (p, i) != (q, j) { SlotsApart(w, p, i, q, j); }
  }

  lemma InvParts(w: World)
    requires Inv(w)
    ensures w.size >= INDEX && |w.pages| == |w.free|
    ensures forall p :: 0 <= p < |w.pages| ==>
              PageOk(w.size, w.pages[p]) && ListOk(w.size, w.pages[p], w.memory, w.free[p])
  {
  }

  lemma InvLive(w: World, a: int)
    requires Inv(w) && a in w.live
    ensures |w.pages| == |w.free| && LiveOk(w, a)
  {
  }

  lemma InvSlot(w: World, p: nat, i: nat)
    requires Inv(w) && p < |w.pages|
    ensures |w.pages| == |w.free| && SlotOk(w, p, i)
  {
  }

  /** A slot that is not live has no live address. */
  lemma NotLive(w: World, p: nat, i: nat)
    requires Inv(w) && p < |w.pages| && i < w.pages[p].capacity
    requires |w.free| == |w.pages| && (i >= w.pages[p].used || i in w.free[p])
    ensures Addr(w.size, w.pages[p], i) !in w.live
  {
    hide Inv, Addr;
    var a := Addr(w.size, w.pages[p], i);
    if a in w.live {
      InvLive(w, a);
      InvParts(w);
      AddrUnique(w, p, i, w.live[a].0, w.live[a].1);
    }
  }

  // ---- what each step does to the invariant ----

  /** A list survives any change of memory outside its own links. */
  lemma ListFrame(size: nat, pg: Page, m: Memory, k: Memory, f: seq<nat>)
    requires ListOk(size, pg, m, f)
    requires forall j, x :: 0 <= j < |f| && Addr(size, pg, f[j]) <= x < Addr(size, pg, f[j]) + Width(size) ==>
             Get(k, x) == Get(m, x)
    ensures ListOk(size, pg, k, f)
  {
    hide Load, Addr;
    forall j | 0 <= j < |f| ensures LinkOk(size, pg, k, f, j) {
      assert LinkOk(size, pg, m, f, j);
      LoadSame(m, k, Addr(size, pg, f[j]), Width(size));
    }
  }

  /** The first free slot of a page becomes live. */
  function Popped(w: World, p: nat): World
    requires p < |w.pages| == |w.free| && w.free[p] != []
  {
    var pg, f := w.pages[p], w.free[p];
    w.(pages := w.pages[p := pg.(head := HeadOf(w.size, pg, f[1..]))],
       free := w.free[p := f[1..]],
       live := w.live[Addr(w.size, pg, f[0]) := (p, f[0])])
  }

  lemma PoppedList(size: nat, pg: Page, m: Memory, f: seq<nat>)
    requires ListOk(size, pg, m, f) && f != []
    ensures ListOk(size, pg.(head := HeadOf(size, pg, f[1..])), m, f[1..])
  {
    hide Load;
    var t, g := pg.(head := HeadOf(size, pg, f[1..])), f[1..];
    forall k | 0 <= k < |g| ensures LinkOk(size, t, m, g, k) { assert LinkOk(size, pg, m, f, k + 1); }
  }

  lemma PoppedKeeps(w: World, p: nat)
    requires Inv(w) && p < |w.pages| && w.free[p] != []
    ensures Inv(Popped(w, p)) && Addr(w.size, w.pages[p], w.free[p][0]) !in w.live
  {
    var u, i := Popped(w, p), w.free[p][0];
    assert ListOk(w.size, w.pages[p], w.memory, w.free[p]);
    NotLive(w, p, i);
    PoppedList(w.size, w.pages[p], w.memory, w.free[p]);
    assert i !in w.free[p][1..] && i < w.pages[p].used;
    forall q | 0 <= q < |u.pages| ensures ListOk(u.size, u.pages[q], u.memory, u.free[q]) {
      assert ListOk(w.size, w.pages[q], w.memory, w.free[q]);
    }
    hide ListOk, LinkOk, HeadOf;
    forall q: nat, j: nat | q < |u.pages| ensures SlotOk(u, q, j) { PoppedSlot(w, p, q, j); }
    forall a | a in u.live ensures LiveOk(u, a) {
      if a in w.live { PoppedLive(w, p, a); }
    }
  }

  lemma PoppedLive(w: World, p: nat, a: int)
    requires Inv(w) && p < |w.pages| && w.free[p] != [] && a in w.live
    requires Addr(w.size, w.pages[p], w.free[p][0]) !in w.live
    ensures LiveOk(Popped(w, p), a)
  {
    assert LiveOk(w, a);
    hide Inv;
    var u, f := Popped(w, p), w.free[p];
    var (q, j) := w.live[a];
    assert u.live[a] == (q, j);
    assert u.pages[q].used == w.pages[q].used && u.pages[q].mem == w.pages[q].mem;
    assert j !in u.free[q];
    assert a == Addr(u.size, u.pages[q], j);
  }

  lemma PoppedSlot(w: World, p: nat, q: nat, j: nat)
    requires Inv(w) && p < |w.pages| && w.free[p] != [] && q < |w.pages|
    ensures SlotOk(Popped(w, p), q, j)
  {
    hide HeadOf, LinkOk;
    var i := w.free[p][0];
    assert SlotOk(w, q, j);
    assert ListOk(w.size, w.pages[p], w.memory, w.free[p]);
    assert PageOk(w.size, w.pages[p]) && PageOk(w.size, w.pages[q]);
    if j < w.pages[q].used && Addr(w.size, w.pages[q], j) == Addr(w.size, w.pages[p], i) { AddrUnique(w, q, j, p, i); }
  }

  /** The first slot never used becomes live. */
  function Bumped(w: World, p: nat): World
    requires p < |w.pages|
  {
    var pg := w.pages[p];
    w.(pages := w.pages[p := pg.(used := pg.used + 1)], live := w.live[Addr(w.size, pg, pg.used) := (p, pg.used)])
  }

  lemma BumpedKeeps(w: World, p: nat)
    requires Inv(w) && p < |w.pages| && w.pages[p].used < w.pages[p].capacity
    ensures Inv(Bumped(w, p)) && Addr(w.size, w.pages[p], w.pages[p].used) !in w.live
  {
    var u, i := Bumped(w, p), w.pages[p].used;
    NotLive(w, p, i);
    InvParts(w);
    forall q | 0 <= q < |u.pages| ensures ListOk(u.size, u.pages[q], u.memory, u.free[q]) {
      BumpedList(w.size, w.pages[q], w.memory, w.free[q]);
    }
    assert i !in u.free[p] by { BumpedList(w.size, w.pages[p], w.memory, w.free[p]); }
    forall q: nat, j: nat | q < |u.pages| ensures SlotOk(u, q, j) { BumpedSlot(w, p, q, j); }
    hide ListOk, SlotOk;
    forall a | a in u.live ensures LiveOk(u, a) {
      if a in w.live { BumpedLive(w, p, a); }
    }
    forall q, r | 0 <= q < r < |u.pages| ensures BlocksApart(u.size, u.pages[q], u.pages[r]) {
      assert BlocksApart(w.size, w.pages[q], w.pages[r]);
    }
  }

  lemma BumpedLive(w: World, p: nat, a: int)
    requires Inv(w) && p < |w.pages| && a in w.live && Addr(w.size, w.pages[p], w.pages[p].used) !in w.live
    ensures LiveOk(Bumped(w, p), a)
  {
    assert LiveOk(w, a);
    hide Inv;
    var u := Bumped(w, p);
    var (q, j) := w.live[a];
    assert u.live[a] == (q, j);
    assert u.pages[q].used >= w.pages[q].used && u.pages[q].mem == w.pages[q].mem;
    assert a == Addr(u.size, u.pages[q], j);
  }

  lemma BumpedList(size: nat, pg: Page, m: Memory, f: seq<nat>)
    requires ListOk(size, pg, m, f)
    ensures ListOk(size, pg.(used := pg.used + 1), m, f) && pg.used !in f
  {
    hide Load;
    var t := pg.(used := pg.used + 1);
    forall k | 0 <= k < |f| ensures LinkOk(size, t, m, f, k) { assert LinkOk(size, pg, m, f, k); }
  }

  lemma BumpedSlot(w: World, p: nat, q: nat, j: nat)
    requires Inv(w) && p < |w.pages| && w.pages[p].used < w.pages[p].capacity && q < |w.pages|
    ensures SlotOk(Bumped(w, p), q, j)
  {
    var i := w.pages[p].used;
    assert SlotOk(w, q, j);
    assert ListOk(w.size, w.pages[p], w.memory, w.free[p]);
    hide HeadOf, LinkOk;
    assert PageOk(w.size, w.pages[p]) && PageOk(w.size, w.pages[q]);
    if j < w.pages[q].used && Addr(w.size, w.pages[q], j) == Addr(w.size, w.pages[p], i) { AddrUnique(w, q, j, p, i); }
  }

  /** The link that a freed slot will hold. */
  function NextLink(size: nat, pg: Page, f: seq<nat>): nat {
    if f != [] then LinkTo(size, pg, f[0]) else NoLink(size)
  }

  /** A live slot goes to the front of its page's free list; the link goes into its memory. */
  function Freed(w: World, p: nat, i: nat): World
    requires p < |w.pages| == |w.free|
  {
    var pg, f := w.pages[p], w.free[p];
    var a := Addr(w.size, pg, i);
    w.(pages := w.pages[p := pg.(head := LinkTo(w.size, pg, i))],
       memory := Store(w.memory, a, Width(w.size), NextLink(w.size, pg, f)),
       free := w.free[p := [i] + f],
       live := w.live - {a})
  }

  lemma LinkFits(size: nat, pg: Page, m: Memory, f: seq<nat>)
    requires size >= INDEX && PageOk(size, pg) && ListOk(size, pg, m, f)
    ensures NextLink(size, pg, f) < Pow256(Width(size))
  {
    assert Pow256(4) == 0x1_0000_0000;
    assert Pow256(8) == Pow256(4) * 0x1_0000_0000;
    if f != [] { SlotInside(size, pg, f[0]); }
  }

  /** The change of memory lies inside the freed slot. */
  lemma FreedElsewhere(w: World, p: nat, i: nat, q: nat, j: nat, x: int)
    requires Inv(w) && p < |w.pages| && i < w.pages[p].used && q < |w.pages| && j < w.pages[q].used && (p, i) != (q, j)
    requires var b := Addr(w.size, w.pages[q], j); b <= x < b + w.size
    ensures Get(Freed(w, p, i).memory, x) == Get(w.memory, x)
  {
    hide Store, Get, Addr, Inv, NextLink;
    InvParts(w);
    SlotsApart(w, p, i, q, j);
    StoreElsewhere(w.memory, Addr(w.size, w.pages[p], i), Width(w.size), NextLink(w.size, w.pages[p], w.free[p]), x);
  }

  lemma FreedList(w: World, p: nat, i: nat)
    requires Inv(w) && p < |w.pages| && i < w.pages[p].used && i !in w.free[p]
    ensures var u := Freed(w, p, i); ListOk(u.size, u.pages[p], u.memory, u.free[p])
  {
    hide Load, Store, Pow256;
    var u, pg, f := Freed(w, p, i), w.pages[p], w.free[p];
    InvParts(w);
    LinkFits(w.size, pg, w.memory, f);
    LoadStore(w.memory, Addr(w.size, pg, i), Width(w.size), NextLink(w.size, pg, f));
    var g := u.free[p];
    forall k | 0 <= k < |g| ensures LinkOk(u.size, u.pages[p], u.memory, g, k) {
      if k > 0 { FreedLink(w, p, i, k - 1); }
    }
  }

  lemma FreedLink(w: World, p: nat, i: nat, k: nat)
    requires Inv(w) && p < |w.pages| && i < w.pages[p].used && i !in w.free[p] && k < |w.free[p]|
    ensures var u := Freed(w, p, i);
            Load(u.memory, Addr(w.size, w.pages[p], w.free[p][k]), Width(w.size)) ==
            Load(w.memory, Addr(w.size, w.pages[p], w.free[p][k]), Width(w.size))
    ensures LinkOk(w.size, w.pages[p], w.memory, w.free[p], k)
  {
    hide Load, Get;
    InvParts(w);
    var u, a := Freed(w, p, i), Addr(w.size, w.pages[p], w.free[p][k]);
    forall x | a <= x < a + Width(w.size) ensures Get(u.memory, x) == Get(w.memory, x) {
      FreedElsewhere(w, p, i, p, w.free[p][k], x);
    }
    LoadSame(u.memory, w.memory, a, Width(w.size));
  }

  lemma FreedOther(w: World, p: nat, i: nat, q: nat)
    requires Inv(w) && p < |w.pages| && i < w.pages[p].used && i !in w.free[p] && q < |w.pages| && q != p
    ensures var u := Freed(w, p, i); ListOk(u.size, u.pages[q], u.memory, u.free[q])
  {
    hide Load, Get, Addr, LinkOk;
    InvParts(w);
    var u := Freed(w, p, i);
    forall j, x | 0 <= j < |w.free[q]| &&
        Addr(w.size, w.pages[q], w.free[q][j]) <= x < Addr(w.size, w.pages[q], w.free[q][j]) + Width(w.size)
      ensures Get(u.memory, x) == Get(w.memory, x)
    {
      FreedElsewhere(w, p, i, q, w.free[q][j], x);
    }
    ListFrame(w.size, w.pages[q], w.memory, u.memory, w.free[q]);
  }

  lemma FreedSlot(w: World, p: nat, i: nat, q: nat, j: nat)
    requires Inv(w) && p < |w.pages| && i < w.pages[p].used && i !in w.free[p] && q < |w.pages|
    ensures SlotOk(Freed(w, p, i), q, j)
  {
    hide Store, ListOk;
    assert SlotOk(w, q, j) && SlotOk(w, p, i);
    assert PageOk(w.size, w.pages[p]) && PageOk(w.size, w.pages[q]);
    if j < w.pages[q].used && Addr(w.size, w.pages[q], j) == Addr(w.size, w.pages[p], i) { AddrUnique(w, q, j, p, i); }
  }

  lemma FreedKeeps(w: World, p: nat, i: nat)
    requires Inv(w) && p < |w.pages| && i < w.pages[p].used && i !in w.free[p]
    ensures Inv(Freed(w, p, i)) && Addr(w.size, w.pages[p], i) in w.live
  {
    hide Store, ListOk;
    var u, b := Freed(w, p, i), Addr(w.size, w.pages[p], i);
    assert SlotOk(w, p, i);
    FreedList(w, p, i);
    forall q | 0 <= q < |u.pages| ensures ListOk(u.size, u.pages[q], u.memory, u.free[q]) {
      if q != p { FreedOther(w, p, i, q); }
    }
    forall q: nat, j: nat | q < |u.pages| ensures SlotOk(u, q, j) { FreedSlot(w, p, i, q, j); }
    forall a | a in u.live ensures LiveOk(u, a) {
      assert LiveOk(w, a);
      assert w.live[a] != (p, i);
    }
  }

  function Grown(w: World, pg: Page): World {
    w.(pages := w.pages + [pg], free := w.free + [[]])
  }

  lemma GrownKeeps(w: World, pg: Page)
    requires Inv(w) && PageOk(w.size, pg) && pg.used == 0 && pg.head == HeadOf(w.size, pg, [])
    requires forall p :: 0 <= p < |w.pages| ==> BlocksApart(w.size, w.pages[p], pg)
    ensures Inv(Grown(w, pg))
  {
    var u := Grown(w, pg);
    forall q | 0 <= q < |u.pages| ensures ListOk(u.size, u.pages[q], u.memory, u.free[q]) {
      if q < |w.pages| { assert ListOk(w.size, w.pages[q], w.memory, w.free[q]); }
    }
    hide ListOk;
    forall q: nat, j: nat | q < |u.pages| ensures SlotOk(u, q, j) { if q < |w.pages| { assert SlotOk(w, q, j); } }
    forall a | a in u.live ensures LiveOk(u, a) { assert LiveOk(w, a); }
  }

  /** A byte of a live object changes: the allocator does not notice. */
  lemma WrittenKeeps(w: World, a: int, x: int, b: Byte)
    requires Inv(w) && a in w.live && a <= x < a + w.size
    ensures Inv(w.(memory := w.memory[x := b]))
  {
    hide Addr;
    var u := w.(memory := w.memory[x := b]);
    forall q | 0 <= q < |u.pages| ensures ListOk(u.size, u.pages[q], u.memory, u.free[q]) {
      WrittenList(w, a, x, b, q);
    }
    hide ListOk;
    forall q: nat, j: nat | q < |u.pages| ensures SlotOk(u, q, j) { assert SlotOk(w, q, j); }
    forall c | c in u.live ensures LiveOk(u, c) { assert LiveOk(w, c); }
  }

  lemma WrittenList(w: World, a: int, x: int, b: Byte, q: nat)
    requires Inv(w) && a in w.live && a <= x < a + w.size && q < |w.pages|
    ensures ListOk(w.size, w.pages[q], w.memory[x := b], w.free[q])
  {
    hide Addr, LinkOk;
    InvParts(w);
    InvLive(w, a);
    var k := w.memory[x := b];
    forall j, y | 0 <= j < |w.free[q]| &&
        Addr(w.size, w.pages[q], w.free[q][j]) <= y < Addr(w.size, w.pages[q], w.free[q][j]) + Width(w.size)
      ensures Get(k, y) == Get(w.memory, y)
    {
      SlotsApart(w, q, w.free[q][j], w.live[a].0, w.live[a].1);
    }
    ListFrame(w.size, w.pages[q], w.memory, k, w.free[q]);
  }

  // ---- the code ----

  /** Is this address inside the slots of a page? */
  predicate InSpan(size: nat, pg: Page, a: int) {
    pg.capacity * size <= SIZE_MAX && pg.mem <= a < pg.mem + pg.capacity * size
  }

  /** The cached page can only be the page a linear search finds. */
  lemma OnePage(w: World, p: nat, q: nat, a: int)
    requires Inv(w) && p < |w.pages| && q < |w.pages| && InSpan(w.size, w.pages[p], a) && InSpan(w.size, w.pages[q], a)
    ensures p == q
  {
    hide ListOk, SlotOk, LiveOk;
    InvParts(w);
    assert p < q ==> BlocksApart(w.size, w.pages[p], w.pages[q]);
    assert q < p ==> BlocksApart(w.size, w.pages[q], w.pages[p]);
  }

  lemma {:induction false} Pigeonhole(f: seq<nat>, n: nat)
    requires forall k :: 0 <= k < |f| ==> f[k] < n
    requires forall j, k :: 0 <= j < k < |f| ==> f[j] != f[k]
    ensures |f| <= n
  {
    assert f == [] || f[0] < n;
    if n > 0 {
      if k :| 0 <= k < |f| && f[k] == n - 1 {
        Pigeonhole(f[..k] + f[k + 1..], n - 1);
      } else {
        Pigeonhole(f, n - 1);
      }
    }
  }

  lemma FreeListShort(size: nat, pg: Page, m: Memory, f: seq<nat>)
    requires PageOk(size, pg) && ListOk(size, pg, m, f)
    ensures |f| <= pg.capacity
  {
    Pigeonhole(f, pg.used);
  }

  function AlignUp(raw: nat): (m: nat)
    ensures raw <= m < raw + 16 && m % 16 == 0
  {
    raw + (16 - raw % 16) % 16
  }

  /** What malloc can give for n bytes: a block that overlaps no page. */
  predicate Granted(raw: nat, n: nat, size: nat, pages: seq<Page>) {
    && raw != 0 && raw + n <= SIZE_MAX
    && forall p :: 0 <= p < |pages| ==>
         pages[p].raw + pages[p].capacity * size + 16 <= raw || raw + n <= pages[p].raw
  }

  /** slab_page_create; `raw` is what malloc answers, and anything it cannot give stands for null. */
  method PageCreate(size: nat, capacity: nat, pages: seq<Page>, raw: nat) returns (r: Option<Page>)
    requires ByPointer(size) || capacity <= INT_MAX
    ensures r.Some? ==> PageOk(size, r.value) && r.value.used == 0 && r.value.head == HeadOf(size, r.value, [])
    ensures r.Some? ==> r.value.capacity == if capacity != 0 then capacity else 4
    ensures r.Some? ==> forall p :: 0 <= p < |pages| ==> BlocksApart(size, pages[p], r.value)
    ensures r.Some? ==> r.value.raw == raw
    ensures var n := (if capacity != 0 then capacity else 4) * size + 16;
            r.Some? <==> size > 0 && n <= SIZE_MAX && Granted(raw, n, size, pages)
  {
    if size == 0 { return None; }
    var cap := if capacity != 0 then capacity else 4;
    var bytes := cap * size;
    if bytes > SIZE_MAX || bytes > SIZE_MAX - 16 { return None; }
    if !Granted(raw, bytes + 16, size, pages) { return None; }
    return Some(Page(raw, AlignUp(raw), cap, 0, if ByPointer(size) then 0 else -1));
  }

  /**
   * The slot an allocation takes: of the first page that is not full, the one freed last, else
   * the next never used; with all pages full, the first of a new page.
   */
  ghost predicate FirstFit(pages: seq<Page>, free: seq<seq<nat>>, p: nat, i: nat) {
    && |pages| == |free| && p <= |pages|
    && (forall q :: 0 <= q < p ==> Full(pages[q], free[q]))
    && (if p == |pages| then i == 0
        else if free[p] != [] then i == free[p][0]
        else i == pages[p].used < pages[p].capacity)
  }

  /** A page of twice the first capacity can be had: it can be numbered and measured, and malloc gives it. */
  predicate CanGrow(size: nat, capacity: nat, pages: seq<Page>, raw: nat) {
    var cap := capacity * 2;
    && cap <= SIZE_MAX && (size < 8 ==> cap <= INT_MAX)
    && cap * size + 16 <= SIZE_MAX && Granted(raw, cap * size + 16, size, pages)
  }

  /** A page without a free slot and without one never used. */
  predicate Full(pg: Page, f: seq<nat>) { f == [] && pg.used == pg.capacity }

  /** A freed slot is the next its page gives out. */
  ghost predicate Pushed(size: nat, pages: seq<Page>, before: seq<seq<nat>>, after: seq<seq<nat>>, a: int) {
    && |pages| == |before|
    && exists p: nat, i: nat :: p < |pages| && a == Addr(size, pages[p], i) && after == before[p := [i] + before[p]]
  }

  function ToInt32(v: nat): int { if v >= 0x8000_0000 then v - 0x1_0000_0000 else v }

  class CmqSlab {
    const size: nat
    const capacity: nat
    var pages: seq<Page>
    var lastFree: int
    var total: nat
    var memory: Memory
    ghost var free: seq<seq<nat>>
    ghost var live: map<int, (nat, nat)>

    ghost function W(): World
      reads this
    {
      World(size, pages, memory, free, live)
    }

    ghost predicate Valid()
      reads this
    {
      && Inv(W()) && capacity > 0 && (ByPointer(size) || capacity <= INT_MAX)
      && -1 <= lastFree < |pages| && total == |live| <= SIZE_MAX
    }

    constructor (objSize: nat, cap: nat, first: Page, initial: Memory)
      requires objSize >= INDEX && cap > 0 && (ByPointer(objSize) || cap <= INT_MAX)
      requires PageOk(objSize, first) && first.used == 0 && first.head == HeadOf(objSize, first, [])
      ensures Valid() && live == map[] && size == objSize && capacity == cap && pages == [first]
    {
      size, capacity, pages, lastFree, total, memory := objSize, cap, [first], -1, 0, initial;
      free, live := [[]], map[];
    }

    ghost predicate Gained(a: int, before: map<int, (nat, nat)>)
      reads this
    {
      && a != 0 && a !in before && live.Keys == before.Keys + {a}
      && forall b :: b in before ==> live[b] == before[b] && Disjoint(a, b, size)
    }

    /** An object is gone, and the bytes of the others are as they were. */
    ghost predicate Lost(a: int, before: map<int, (nat, nat)>, m: Memory)
      reads this
    {
      && a in before && live == before - {a}
      && forall b, x :: b in live && b <= x < b + size ==> Get(memory, x) == Get(m, x)
    }

    /** Take the head of a page's free list. */
    method Pop(p: nat) returns (a: int)
      requires Valid() && p < |pages| == |free| && free[p] != [] && total < SIZE_MAX
      modifies this`pages, this`total, this`free, this`live
      ensures Valid() && Gained(a, old(live)) && |pages| == |old(pages)|
      ensures live == old(live)[a := (p, old(free)[p][0])]
    {
      hide Inv, LinkOk, ListOk, Addr, HeadOf, PageOk, Disjoint;
      ghost var w := W();
      InvParts(w);
      PoppedKeeps(w, p);
      ghost var f := free[p];
      var head;
      a, head := ReadHead(p);
      pages := pages[p := pages[p].(head := head)];
      total := total + 1;
      free := free[p := f[1..]];
      live := live[a := (p, f[0])];
      OneMore(w.live, a, (p, f[0]));
      assert W() == Popped(w, p);
      GainedOne(w, W(), a);
    }

    /** The address of the first free slot, and the head its link gives. */
    method ReadHead(p: nat) returns (a: int, head: int)
      requires Valid() && p < |pages| == |free| && free[p] != []
      ensures a == Addr(size, pages[p], free[p][0]) > 0
      ensures head == HeadOf(size, pages[p], free[p][1..])
    {
      hide Inv, Load, LinkOk, ListOk;
      InvParts(W());
      var pg := pages[p];
      HeadIs(size, pg, memory, free[p]);
      if ByPointer(size) {
        a := pg.head;
        head := Load(memory, a, LINK_BYTES);
      } else {
        a := Addr(size, pg, pg.head);
        head := ToInt32(Load(memory, a, INDEX));
      }
    }

    /** Take the next slot a page has never used. */
    method Bump(p: nat) returns (a: int)
      requires Valid() && p < |pages| && pages[p].used < pages[p].capacity && total < SIZE_MAX
      modifies this`pages, this`total, this`live
      ensures Valid() && Gained(a, old(live)) && live == old(live)[a := (p, old(pages)[p].used)]
      ensures pages == old(pages)[p := old(pages)[p].(used := old(pages)[p].used + 1)]
    {
      hide Inv, ListOk, PageOk, Addr, Disjoint;
      ghost var w := W();
      InvParts(w);
      BumpedKeeps(w, p);
      var pg := pages[p];
      SlotInside(size, pg, pg.used);
      a := Addr(size, pg, pg.used);
      pages := pages[p := pg.(used := pg.used + 1)];
      total := total + 1;
      live := live[a := (p, pg.used)];
      OneMore(w.live, a, (p, pg.used));
      assert W() == Bumped(w, p);
      GainedOne(w, W(), a);
    }

    /** cmq_slab_alloc; 0 is null, and `raw` is what malloc answers if it is asked for a page. */
    method Alloc(raw: nat) returns (a: int)
      requires Valid()
      modifies this`pages, this`total, this`free, this`live
      ensures Valid() && (a != 0 ==> Gained(a, old(live)))
      ensures a == 0 ==> live == old(live) && total == old(total) && pages == old(pages) && free == old(free)
      ensures a == 0 && total < SIZE_MAX ==>
                && |pages| == |free| && (forall p :: 0 <= p < |pages| ==> Full(pages[p], free[p]))
                && !CanGrow(size, capacity, pages, raw)
      ensures |pages| > |old(pages)| ==> |old(pages)| == |old(free)| && forall p :: 0 <= p < |old(pages)| ==>
              Full(old(pages)[p], old(free)[p])
      ensures a != 0 ==> a in live && FirstFit(old(pages), old(free), live[a].0, live[a].1)
    {
      if total == SIZE_MAX { return 0; }
      InvParts(W());
      hide Inv;
      var i: nat := 0;
      while i < |pages|
        invariant i <= |pages| == |free| && Valid() && unchanged(this)
        invariant forall p :: 0 <= p < i ==> Full(pages[p], free[p])
      {
        InvParts(W());
        HeadTells(size, pages[i], memory, free[i]);
        if pages[i].head != (if ByPointer(size) then 0 else -1) {
          a := Pop(i);
          return;
        }
        if pages[i].used < pages[i].capacity {
          a := Bump(i);
          return;
        }
        i := i + 1;
      }
      a := Grow(raw);
    }

    /** All pages are full: add one, of twice the first capacity. */
    method Grow(raw: nat) returns (a: int)
      requires Valid() && total < SIZE_MAX
      modifies this`pages, this`total, this`free, this`live
      ensures Valid() && (a != 0 ==> Gained(a, old(live)))
      ensures a == 0 ==> live == old(live) && total == old(total) && pages == old(pages) && free == old(free)
      ensures a != 0 ==> a in live && live[a] == (|old(pages)|, 0) && |pages| == |old(pages)| + 1
      ensures a != 0 ==> pages[|old(pages)|].capacity == capacity * 2
      ensures a != 0 <==> CanGrow(size, capacity, old(pages), raw)
    {
      assert size > 0;
      hide Inv;
      if capacity > SIZE_MAX / 2 { return 0; }
      var newCap := capacity * 2;
      if !ByPointer(size) && newCap > INT_MAX { return 0; }
      var pg := PageCreate(size, newCap, pages, raw);
      if pg.None? { return 0; }
      ghost var w := W();
      InvParts(w);
      GrownKeeps(w, pg.value);
      pages := pages + [pg.value];
      free := free + [[]];
      assert W() == Grown(w, pg.value);
      a := Bump(|pages| - 1);
    }

    /** slab_find_page; |pages| is null. */
    method FindPage(a: int) returns (p: nat)
      ensures p <= |pages| && (p < |pages| ==> InSpan(size, pages[p], a))
      ensures forall q :: 0 <= q < p ==> !InSpan(size, pages[q], a)
    {
      p := 0;
      while p < |pages|
        invariant p <= |pages|
        invariant forall q :: 0 <= q < p ==> !InSpan(size, pages[q], a)
      {
        if InSpan(size, pages[p], a) { return; }
        p := p + 1;
      }
    }

    /** slab_on_freelist: the guarded walk finds a slot exactly when it is on the list. */
    method OnFreelist(p: nat, a: int, idx: nat) returns (found: bool)
      requires Valid() && p < |pages| == |free| && a == Addr(size, pages[p], idx)
      ensures found <==> idx in free[p]
    {
      InvParts(W());
      hide Inv;
      var pg := pages[p];
      ghost var f := free[p];
      FreeListShort(size, pg, memory, f);
      ghost var k: nat := 0;
      var guard := pg.capacity + 1;
      var x := pg.head;
      HeadTells(size, pg, memory, f);
      while x != (if ByPointer(size) then 0 else -1) && guard > 0
        invariant k <= |f| && guard == pg.capacity + 1 - k && x == HeadOf(size, pg, f[k..])
        invariant x != (if ByPointer(size) then 0 else -1) <==> k < |f|
        invariant forall j :: 0 <= j < k ==> f[j] != idx
        decreases guard
      {
        guard := guard - 1;
        SameLink(size, pg, f[k], idx);
        if x == (if ByPointer(size) then a else idx) { return true; }
        NextHead(size, pg, memory, f, k);
        x := if ByPointer(size) then Load(memory, x, LINK_BYTES) else ToInt32(Load(memory, Addr(size, pg, x), INDEX));
        k := k + 1;
      }
      return false;
    }

    /** cmq_slab_free: a live object is freed; anything else changes nothing but the page cache. */
    method Free(a: int)
      requires Valid()
      modifies this`pages, this`lastFree, this`total, this`memory, this`free, this`live
      ensures Valid()
      ensures if a in old(live) then Lost(a, old(live), old(memory)) && total == old(total) - 1
              else pages == old(pages) && memory == old(memory) && live == old(live) && total == old(total) &&
                   free == old(free)
      ensures a in old(live) ==> Pushed(size, old(pages), old(free), free, a)
      ensures forall p :: 0 <= p < |pages| && a != 0 && InSpan(size, pages[p], a) ==> lastFree == p
    {
      if a == 0 {
        NullNotLive(W());
        return;
      }
      hide Inv;
      var p := LocatePage(a);
      if p == |pages| {
        OutsideNotLive(W(), a);
        return;
      }
      InvParts(W());
      var pg := pages[p];
      var off := a - pg.mem;
      if off % size != 0 || off / size >= pg.used {
        StrayNotLive(W(), p, a);
        return;
      }
      var idx := off / size;
      WholeSlots(off, size);
      var onList := OnFreelist(p, a, idx);
      if onList {
        NotLive(W(), p, idx);
      } else {
        Link(p, idx);
        assert a == Addr(size, pg, idx);
      }
    }

    /** The page of an address: the cached one if it is right, else a search. */
    method LocatePage(a: int) returns (p: nat)
      requires Valid()
      modifies this`lastFree
      ensures Valid() && p <= |pages|
      ensures p < |pages| ==> InSpan(size, pages[p], a)
      ensures forall q :: 0 <= q < |pages| && InSpan(size, pages[q], a) ==> q == p == lastFree
    {
      hide Inv, InSpan;
      if lastFree >= 0 && InSpan(size, pages[lastFree], a) {
        p := lastFree;
      } else {
        p := FindPage(a);
        if p < |pages| { lastFree := p; }
      }
      forall q | 0 <= q < |pages| && InSpan(size, pages[q], a) ensures q == p {
        OnePage(W(), q, p, a);
      }
    }

    /** Put a slot at the head of its page's free list; the link goes into the object. */
    method Link(p: nat, idx: nat)
      requires Valid() && p < |pages| == |free| && idx < pages[p].used && idx !in free[p]
      modifies this`pages, this`total, this`memory, this`free, this`live
      ensures Valid() && |pages| == |old(pages)| && total == old(total) - 1
      ensures Lost(Addr(size, pages[p], idx), old(live), old(memory))
      ensures pages == old(pages)[p := old(pages)[p].(head := pages[p].head)]
      ensures free == old(free)[p := [idx] + old(free)[p]]
    {
      hide Inv, Store, ListOk, PageOk, HeadOf, NextLink, Get, Disjoint, Addr, Lost;
      ghost var w := W();
      InvParts(w);
      FreedKeeps(w, p, idx);
      var pg := pages[p];
      HeadLink(size, pg, memory, free[p]);
      var a := Addr(size, pg, idx);
      var word := if ByPointer(size) then pg.head else pg.head % 0x1_0000_0000;
      assert word == NextLink(size, pg, free[p]);
      memory := Store(memory, a, Width(size), word);
      pages := pages[p := pg.(head := if ByPointer(size) then a else idx)];
      free := free[p := [idx] + free[p]];
      live := live - {a};
      OneFewer(w.live, a);
      if total > 0 { total := total - 1; }
      assert W() == Freed(w, p, idx);
      LostOthers(w, p, idx);
      assert Lost(a, w.live, w.memory) by { LostIs(a, w.live, w.memory); }
      AddrIs(size, pg, pages[p], idx);
    }

    lemma LostIs(a: int, before: map<int, (nat, nat)>, m: Memory)
      requires a in before && live == before - {a}
      requires forall b, x :: b in live && b <= x < b + size ==> Get(memory, x) == Get(m, x)
      ensures Lost(a, before, m)
    {
    }

    /** Does a caller hold this address? A page, a slot below `used`, and not on the free list. */
    method Holds(a: int) returns (held: bool)
      requires Valid()
      ensures held <==> a in live
    {
      hide Inv;
      var p := FindPage(a);
      if p == |pages| {
        OutsideNotLive(W(), a);
        return false;
      }
      InvParts(W());
      var off := a - pages[p].mem;
      if off % size != 0 || off / size >= pages[p].used {
        StrayNotLive(W(), p, a);
        return false;
      }
      WholeSlots(off, size);
      var onList := OnFreelist(p, a, off / size);
      held := !onList;
      if onList { NotLive(W(), p, off / size); } else { InvSlot(W(), p, off / size); }
    }

    /** A caller writes into an object it holds: nothing of the allocator's changes. */
    method UserWrite(a: int, x: int, b: Byte)
      requires Valid() && a in live && a <= x < a + size
      modifies this`memory
      ensures Valid() && memory == old(memory)[x := b]
    {
      WrittenKeeps(W(), a, x, b);
      hide Inv;
      memory := memory[x := b];
    }
  }

  lemma NullNotLive(w: World)
    requires Inv(w)
    ensures 0 !in w.live
  {
    if 0 in w.live {
      InvLive(w, 0);
      InvParts(w);
      SlotInside(w.size, w.pages[w.live[0].0], w.live[0].1);
    }
  }

  lemma LiveInSpan(w: World, a: int)
    requires Inv(w) && a in w.live
    ensures LiveOk(w, a) && InSpan(w.size, w.pages[w.live[a].0], a)
  {
    InvLive(w, a);
    InvParts(w);
    SlotInside(w.size, w.pages[w.live[a].0], w.live[a].1);
  }

  lemma OutsideNotLive(w: World, a: int)
    requires Inv(w) && forall q :: 0 <= q < |w.pages| ==> !InSpan(w.size, w.pages[q], a)
    ensures a !in w.live
  {
    if a in w.live { LiveInSpan(w, a); }
  }

  lemma SlotOffset(i: nat, size: nat)
    requires size > 0
    ensures i * size % size == 0 && i * size / size == i
  {
    Bits.DivMod(i, size, 0);
    assert i * size + 0 == i * size;
  }

  lemma StrayNotLive(w: World, p: nat, a: int)
    requires Inv(w) && p < |w.pages| && InSpan(w.size, w.pages[p], a)
    requires w.size > 0 && ((a - w.pages[p].mem) % w.size != 0 || (a - w.pages[p].mem) / w.size >= w.pages[p].used)
    ensures a !in w.live
  {
    if a in w.live {
      LiveInSpan(w, a);
      OnePage(w, p, w.live[a].0, a);
      SlotOffset(w.live[a].1, w.size);
    }
  }

  lemma WholeSlots(off: int, size: nat)
    requires size > 0 && off % size == 0
    ensures off == off / size * size
  {
  }

  /** The head field is the link the freed object will hold. */
  lemma HeadLink(size: nat, pg: Page, m: Memory, f: seq<nat>)
    requires size >= INDEX && PageOk(size, pg) && ListOk(size, pg, m, f)
    ensures (if ByPointer(size) then pg.head else pg.head % 0x1_0000_0000) == NextLink(size, pg, f)
  {
    if f != [] { SlotInside(size, pg, f[0]); }
  }

  lemma LostOthers(w: World, p: nat, i: nat)
    requires Inv(w) && p < |w.pages| == |w.free| && i < w.pages[p].used && i !in w.free[p]
    ensures var u := Freed(w, p, i);
            forall b, x :: b in u.live && b <= x < b + w.size ==> Get(u.memory, x) == Get(w.memory, x)
  {
    hide Store, Get;
    var u := Freed(w, p, i);
    forall b, x | b in u.live && b <= x < b + w.size ensures Get(u.memory, x) == Get(w.memory, x) {
      InvLive(w, b);
      FreedElsewhere(w, p, i, w.live[b].0, w.live[b].1, x);
    }
  }

  lemma OneMore(m: map<int, (nat, nat)>, a: int, v: (nat, nat))
    requires a !in m
    ensures |m[a := v]| == |m| + 1 && m[a := v].Keys == m.Keys + {a}
  {
    assert m[a := v].Keys == m.Keys + {a};
  }

  lemma OneFewer(m: map<int, (nat, nat)>, a: int)
    requires a in m
    ensures |m - {a}| == |m| - 1
  {
    assert (m - {a}).Keys == m.Keys - {a};
  }

  lemma AddrIs(size: nat, a: Page, b: Page, i: nat)
    requires a.mem == b.mem
    ensures Addr(size, a, i) == Addr(size, b, i)
  {
  }

  lemma HeadTells(size: nat, pg: Page, m: Memory, f: seq<nat>)
    requires size >= INDEX && PageOk(size, pg) && ListOk(size, pg, m, f)
    ensures pg.head != (if ByPointer(size) then 0 else -1) <==> f != []
    ensures f[0..] == f
  {
    if f != [] { SlotInside(size, pg, f[0]); }
  }

  /** What a pop reads: the address of the first entry, and the head of the rest. */
  lemma HeadIs(size: nat, pg: Page, m: Memory, f: seq<nat>)
    requires size >= INDEX && PageOk(size, pg) && ListOk(size, pg, m, f) && f != []
    ensures pg.head == LinkTo(size, pg, f[0]) >= 0 && Addr(size, pg, f[0]) > 0
    ensures var next := Load(m, Addr(size, pg, f[0]), Width(size));
            (if ByPointer(size) then next else ToInt32(next)) == HeadOf(size, pg, f[1..])
  {
    SlotInside(size, pg, f[0]);
    NextHead(size, pg, m, f, 0);
  }

  lemma SameLink(size: nat, pg: Page, i: nat, idx: nat)
    requires size >= INDEX
    ensures LinkTo(size, pg, i) == LinkTo(size, pg, idx) <==> i == idx
  {
    if LinkTo(size, pg, i) == LinkTo(size, pg, idx) { LinksDiffer(size, pg, i, idx); }
  }

  /** Following a link from entry k leads to entry k + 1, or off the end. */
  lemma NextHead(size: nat, pg: Page, m: Memory, f: seq<nat>, k: nat)
    requires size >= INDEX && PageOk(size, pg) && ListOk(size, pg, m, f) && k < |f|
    ensures HeadOf(size, pg, f[k..]) == LinkTo(size, pg, f[k])
    ensures var next := Load(m, Addr(size, pg, f[k]), Width(size));
            (if ByPointer(size) then next else ToInt32(next)) == HeadOf(size, pg, f[k + 1..])
    ensures HeadOf(size, pg, f[k + 1..]) != (if ByPointer(size) then 0 else -1) <==> k + 1 < |f|
  {
    hide Load;
    assert LinkOk(size, pg, m, f, k);
    if k + 1 < |f| { SlotInside(size, pg, f[k + 1]); }
  }

  lemma GainedOne(w: World, u: World, a: int)
    requires Inv(u) && a !in w.live && a in u.live && u.size == w.size
    requires forall b :: b in w.live ==> b in u.live
    ensures forall b :: b in w.live ==> Disjoint(a, b, w.size)
  {
    forall b | b in w.live ensures Disjoint(a, b, w.size) { LiveDisjoint(u, a, b); }
  }

  /** cmq_slab_create; `raw` is what malloc answers for the first page. */
  method Create(objSize: nat, cap: nat, initial: Memory, raw: nat) returns (s: CmqSlab?)
    ensures s != null ==> fresh(s) && s.Valid() && s.live == map[] && s.total == 0
    ensures s != null ==> s.size == objSize && s.capacity == if cap > 0 then cap else 4
    ensures var n := (if cap > 0 then cap else 4) * objSize + 16;
            s != null <==>
              objSize >= 4 && (objSize < 8 ==> cap <= INT_MAX) && n <= SIZE_MAX && Granted(raw, n, objSize, [])
  {
    if objSize < INDEX || (!ByPointer(objSize) && cap > INT_MAX) { return null; }
    var capacity := if cap > 0 then cap else 4;
    var first := PageCreate(objSize, capacity, [], raw);
    if first.None? { return null; }
    s := new CmqSlab(objSize, capacity, first.value, initial);
  }

  /**
   * Any run of allocations, writes of callers into their objects, and frees of any address
   * at all: live objects stay pairwise disjoint and the count is the number of them.
   */
  method AnyRun(s: CmqSlab)
    requires s.Valid()
    modifies s
    ensures s.Valid() && s.total == |s.live|
    ensures forall a, b :: a in s.live && b in s.live && a != b ==> Disjoint(a, b, s.size)
  {
    hide Inv;
    var n: nat := *;
    while n > 0
      invariant s.Valid()
    {
      var choice: int, a: int, x: int, b: Byte, raw: nat := *, *, *, *, *;
      match choice {
        case 0 => var got := s.Alloc(raw);
        case 1 => AnyWrite(s, a, x, b);
        case _ => s.Free(a);
      }
      n := n - 1;
    }
    forall a, b | a in s.live && b in s.live && a != b ensures Disjoint(a, b, s.size) {
      LiveDisjoint(s.W(), a, b);
    }
  }

  /** A caller writes only inside an object it holds. */
  method AnyWrite(s: CmqSlab, a: int, x: int, b: Byte)
    requires s.Valid()
    modifies s
    ensures s.Valid()
  {
    hide Inv;
    if a <= x < a + s.size {
      var held := s.Holds(a);
      if held { s.UserWrite(a, x, b); }
    }
  }
}
