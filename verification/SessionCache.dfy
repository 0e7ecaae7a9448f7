/**
 * The TLS session cache (src/enterprise/cmq_tls_session_cache.c): an open-addressed table of
 * 64 buckets, probed linearly, that evicts a least recently used entry when it is full. It
 * is proved to be a map from session ids to sessions, with every session it was given freed
 * once. The clock is a parameter and need not be monotonic.
 */
module SessionCache {
  import opened Common

  const BUCKETS: nat := 64
  const ID_MAX: nat := 32

  type Id = seq<Byte>
  type Time = t: nat | t <= UINT64_MAX
  datatype Bucket = Bucket(id: Id, sess: int, last: Time, occupied: bool)

  /** FNV-1a, 32 bits. */
  function Mix(h: bv32, b: Byte): bv32 { (h ^ (b as bv32)) * 16777619 }

  function HashBits(id: Id): bv32 {
    if id == [] then 2166136261 else Mix(HashBits(id[..|id| - 1]), id[|id| - 1])
  }

  function Hash(id: Id): nat { HashBits(id) as nat }

  /** The published FNV-1a values of "", "a" and "foobar". */
  lemma KnownHashes()
    ensures HashBits([]) == 0x811C9DC5 && HashBits([0x61]) == 0xE40C292C
    ensures HashBits([0x66, 0x6F, 0x6F, 0x62, 0x61, 0x72]) == 0xBF9CF968
  {
    assert Mix(0x811C9DC5, 0x61) == 0xE40C292C;
    assert Mix(0x811C9DC5, 0x66) == 0xE30C2799;
    assert Mix(0xE30C2799, 0x6F) == 0x6222E842;
    assert Mix(0x6222E842, 0x6F) == 0xA9F37ED7;
    assert Mix(0xA9F37ED7, 0x62) == 0x3F5076EF;
    assert Mix(0x3F5076EF, 0x61) == 0x39AAA18A;
    assert Mix(0x39AAA18A, 0x72) == 0xBF9CF968;
    hide Mix;
    assert [0x66, 0x6F, 0x6F, 0x62, 0x61, 0x72][..5] == [0x66, 0x6F, 0x6F, 0x62, 0x61];
    assert [0x66, 0x6F, 0x6F, 0x62, 0x61][..4] == [0x66, 0x6F, 0x6F, 0x62];
    assert [0x66, 0x6F, 0x6F, 0x62][..3] == [0x66, 0x6F, 0x6F];
    assert [0x66, 0x6F, 0x6F][..2] == [0x66, 0x6F];
    assert [0x66, 0x6F][..1] == [0x66];
    assert [0x66][..0] == [];
  }

  method CacheHash(id: Id) returns (h: bv32)
    ensures h == HashBits(id)
  {
    hide Mix;
    h := 2166136261;
    var i: nat := 0;
    while i < |id|
      invariant i <= |id| && h == HashBits(id[..i])
    {
      assert id[..i + 1][..i] == id[..i];
      h := Mix(h, id[i]);
      i := i + 1;
    }
    assert id[..i] == id;
  }

  /** The bucket of the s-th probe. */
  function Probe(h: nat, s: nat): (b: nat)
    ensures b < BUCKETS
  {
    (h + s) % BUCKETS
  }

  /** Sixty-four probes see every bucket. */
  lemma ProbesCover(h: nat, b: nat) returns (s: nat)
    requires b < BUCKETS
    ensures s < BUCKETS && Probe(h, s) == b
  {
    s := (b + BUCKETS - h % BUCKETS) % BUCKETS;
  }

  // ---- the table as a map ----

  /** An id is reached from its home bucket over occupied buckets only. */
  ghost predicate Reached(bs: seq<Bucket>, h: nat, b: nat, d: nat)
    requires |bs| == BUCKETS
  {
    d < BUCKETS && Probe(h, d) == b && forall s :: 0 <= s < d ==> bs[Probe(h, s)].occupied
  }

  ghost predicate IdOk(bs: seq<Bucket>, at: map<Id, nat>, id: Id)
    requires |bs| == BUCKETS && id in at
  {
    && at[id] < BUCKETS && bs[at[id]].occupied && bs[at[id]].id == id
    && exists d: nat :: Reached(bs, Hash(id), at[id], d)
  }

  ghost predicate BucketOk(bs: seq<Bucket>, at: map<Id, nat>, b: nat)
    requires |bs| == BUCKETS && b < BUCKETS
  {
    bs[b].occupied ==> bs[b].id in at && at[bs[b].id] == b
  }

  /** `at` says where every id in the table is. */
  ghost predicate Table(bs: seq<Bucket>, at: map<Id, nat>) {
    && |bs| == BUCKETS
    && (forall id :: id in at ==> IdOk(bs, at, id))
    && forall b :: 0 <= b < BUCKETS ==> BucketOk(bs, at, b)
  }

  /** The sessions the table holds. */
  function Held(bs: seq<Bucket>): multiset<int> {
    if bs == [] then multiset{}
    else Held(bs[..|bs| - 1]) + Part(bs[|bs| - 1])
  }

  function Part(b: Bucket): multiset<int> { if b.occupied then multiset{b.sess} else multiset{} }

  lemma {:induction false} HeldUpdate(bs: seq<Bucket>, i: nat, b: Bucket)
    requires i < |bs|
    ensures Held(bs[i := b]) + Part(bs[i]) == Held(bs) + Part(b)
  {
    hide Part;
    var n, cs := |bs| - 1, bs[i := b];
    assert Held(bs) == Held(bs[..n]) + Part(bs[n]) && Held(cs) == Held(cs[..n]) + Part(cs[n]);
    hide Held;
    if i == n {
      assert cs[..n] == bs[..n];
      SwapParts(Held(bs[..n]), Part(b), Part(bs[n]), Held(bs[..n]) , Part(bs[n]));
    } else {
      HeldUpdate(bs[..n], i, b);
      assert cs[..n] == bs[..n][i := b];
      SwapParts(Held(cs[..n]), Part(bs[n]), Part(bs[i]), Held(bs[..n]), Part(b));
    }
  }

  lemma CancelPart(a: multiset<int>, b: multiset<int>, p: multiset<int>)
    requires a + p == b + p
    ensures a == b
  {
    forall k ensures a[k] == b[k] { assert (a + p)[k] == (b + p)[k]; }
  }

  lemma SwapParts(a: multiset<int>, x: multiset<int>, y: multiset<int>, c: multiset<int>, z: multiset<int>)
    requires a + y == c + z
    ensures (a + x) + y == (c + x) + z
  {
    assert (a + x) + y == (a + y) + x;
    assert (c + x) + z == (c + z) + x;
  }

  /** Probing for an id in the table meets it before any free bucket. */
  lemma PresentIsMet(bs: seq<Bucket>, at: map<Id, nat>, id: Id, s: nat)
    requires Table(bs, at) && s <= BUCKETS && id in at
    ensures (exists k :: 0 <= k < s && bs[Probe(Hash(id), k)].id == id) ||
            (s < BUCKETS && bs[Probe(Hash(id), s)].occupied)
  {
    hide Hash, Probe;
    assert IdOk(bs, at, id);
    var d: nat :| Reached(bs, Hash(id), at[id], d);
    if d < s {
      assert bs[Probe(Hash(id), d)].id == id;
    } else if s < d {
      OnTheWay(bs, Hash(id), at[id], d, s);
    }
  }

  lemma PassedIsAbsent(bs: seq<Bucket>, at: map<Id, nat>, id: Id, s: nat)
    requires Table(bs, at) && s <= BUCKETS
    requires forall k :: 0 <= k < s ==> bs[Probe(Hash(id), k)].id != id
    requires s < BUCKETS ==> !bs[Probe(Hash(id), s)].occupied
    ensures id !in at
  {
    hide Hash, Probe;
    if id in at { PresentIsMet(bs, at, id, s); }
  }

  lemma OnTheWay(bs: seq<Bucket>, h: nat, b: nat, d: nat, s: nat)
    requires |bs| == BUCKETS && Reached(bs, h, b, d) && s < d
    ensures bs[Probe(h, s)].occupied
  {
  }

  /** A new id goes into the first free bucket of its probes. */
  lemma AddKeeps(bs: seq<Bucket>, at: map<Id, nat>, id: Id, s: nat, b: Bucket)
    requires Table(bs, at) && s < BUCKETS && id !in at && b.id == id && b.occupied
    requires !bs[Probe(Hash(id), s)].occupied && forall k :: 0 <= k < s ==> bs[Probe(Hash(id), k)].occupied
    ensures Table(bs[Probe(Hash(id), s) := b], at[id := Probe(Hash(id), s)])
  {
    hide Hash, Probe;
    var p := Probe(Hash(id), s);
    var cs, to := bs[p := b], at[id := p];
    forall x | x in to ensures IdOk(cs, to, x) {
      if x == id {
        assert Reached(cs, Hash(id), p, s);
      } else {
        assert IdOk(bs, at, x);
        var d: nat :| Reached(bs, Hash(x), at[x], d);
        assert Reached(cs, Hash(x), to[x], d);
      }
    }
    forall c | 0 <= c < BUCKETS ensures BucketOk(cs, to, c) { assert BucketOk(bs, at, c); }
  }

  /** With all buckets occupied any of them may be given to a new id. */
  lemma EvictKeeps(bs: seq<Bucket>, at: map<Id, nat>, id: Id, v: nat, b: Bucket)
    requires Table(bs, at) && v < BUCKETS && id !in at && b.id == id && b.occupied
    requires forall c :: 0 <= c < BUCKETS ==> bs[c].occupied
    ensures bs[v].id in at && Table(bs[v := b], (at - {bs[v].id})[id := v])
  {
    hide Hash, Probe;
    assert BucketOk(bs, at, v);
    var cs, to := bs[v := b], (at - {bs[v].id})[id := v];
    forall x | x in to ensures IdOk(cs, to, x) {
      if x == id {
        var d := ProbesCover(Hash(id), v);
        assert Reached(cs, Hash(id), v, d);
      } else {
        assert IdOk(bs, at, x);
        var d: nat :| Reached(bs, Hash(x), at[x], d);
        assert Reached(cs, Hash(x), to[x], d);
      }
    }
    forall c | 0 <= c < BUCKETS ensures BucketOk(cs, to, c) { assert BucketOk(bs, at, c); }
  }

  /** A bucket that keeps its id may change its session and its time. */
  lemma TouchKeeps(bs: seq<Bucket>, at: map<Id, nat>, v: nat, b: Bucket)
    requires Table(bs, at) && v < BUCKETS && bs[v].occupied && b.occupied && b.id == bs[v].id
    ensures Table(bs[v := b], at)
  {
    hide Hash, Probe;
    var cs := bs[v := b];
    forall x | x in at ensures IdOk(cs, at, x) {
      assert IdOk(bs, at, x);
      var d: nat :| Reached(bs, Hash(x), at[x], d);
      assert Reached(cs, Hash(x), at[x], d);
    }
    forall c | 0 <= c < BUCKETS ensures BucketOk(cs, at, c) { assert BucketOk(bs, at, c); }
  }

  class SessionTable {
    const buckets: array<Bucket>
    var count: nat
    ghost var at: map<Id, nat>
    ghost var inserted: multiset<int>
    ghost var freed: multiset<int>

    ghost var latest: map<Id, int>
    ghost var used: map<Id, Time>
    ghost var gone: set<Id>

    /** A table, its count, and the account of every session it was given. */
    ghost predicate Sound()
      reads this, buckets
    {
      && buckets.Length == BUCKETS && Table(buckets[..], at) && count == |at|
      && inserted == freed + Held(buckets[..])
    }

    /** Each id has the session last inserted for it and the time of its last use, unless evicted since. */
    ghost predicate Valid()
      reads this, buckets
    {
      Sound() && UpToDate(buckets[..], at, latest, used, gone)
    }

    constructor ()
      ensures Valid() && latest == map[] && used == map[] && inserted == freed == multiset{} && fresh(buckets)
    {
      buckets := new Bucket[BUCKETS](_ => Bucket([], 0, 0, false));
      count, at, inserted, freed, latest, used, gone := 0, map[], multiset{}, multiset{}, map[], map[], {};
      new;
      NothingHeld(buckets[..]);
    }

    /** The probing loop: where the id is, else the first free bucket, else that there is none. */
    method Locate(id: Id) returns (hit: bool, free: bool, b: nat, ghost s: nat)
      requires Sound()
      ensures b < BUCKETS && !(hit && free)
      ensures hit <==> id in at
      ensures hit ==> at[id] == b
      ensures free ==> s < BUCKETS && b == Probe(Hash(id), s) && !buckets[b].occupied && forall k :: 0 <= k < s ==>
              buckets[Probe(Hash(id), k)].occupied
      ensures !hit && !free ==> forall c :: 0 <= c < BUCKETS ==> buckets[c].occupied
    {
      hide Hash, Probe, HashBits;
      var h := CacheHash(id);
      var home := h as nat % BUCKETS;
      HomeIs(id, h);
      var step: nat := 0;
      while step < BUCKETS
        invariant step <= BUCKETS
        invariant forall k :: 0 <= k < step ==>
                    buckets[Probe(Hash(id), k)].occupied && buckets[Probe(Hash(id), k)].id != id
      {
        b, s := (home + step) % BUCKETS, step;
        ProbeIs(id, home, step);
        if !buckets[b].occupied {
          PassedIsAbsent(buckets[..], at, id, step);
          return false, true, b, s;
        }
        if buckets[b].id == id {
          assert BucketOk(buckets[..], at, b);
          return true, false, b, s;
        }
        step := step + 1;
      }
      PassedIsAbsent(buckets[..], at, id, BUCKETS);
      forall c | 0 <= c < BUCKETS ensures buckets[c].occupied {
        var k := ProbesCover(Hash(id), c);
      }
      return false, false, 0, 0;
    }

    /** A least recently used bucket. */
    method Oldest() returns (v: nat)
      requires buckets.Length == BUCKETS
      ensures v < BUCKETS && forall c :: 0 <= c < BUCKETS ==> buckets[v].last <= buckets[c].last
    {
      v := 0;
      var ts := UINT64_MAX;
      var i: nat := 0;
      while i < BUCKETS
        invariant i <= BUCKETS && v < BUCKETS && ts <= UINT64_MAX
        invariant forall c :: 0 <= c < i ==> ts <= buckets[c].last
        invariant (v == 0 && ts == UINT64_MAX) || (v < i && ts == buckets[v].last)
      {
        if buckets[i].last < ts { ts, v := buckets[i].last, i; }
        i := i + 1;
      }
    }

    /** Write a bucket and settle the account: what it held is freed, what it holds was given. */
    method Put(b: nat, x: Bucket, ghost to: map<Id, nat>)
      requires Sound() && b < BUCKETS && x.occupied && Table(buckets[..][b := x], to)
      requires |to| == |at| + if buckets[b].occupied then 0 else 1
      modifies this`count, this`at, this`inserted, this`freed, buckets
      ensures Sound() && buckets[..] == old(buckets[..])[b := x] && at == to
      ensures inserted == old(inserted) + multiset{x.sess} && freed == old(freed) + Part(old(buckets[b]))
    {
      hide Table, Hash, Held;
      ghost var bs := buckets[..];
      HeldUpdate(bs, b, x);
      Settle(inserted, freed, Held(bs), Held(bs[b := x]), Part(bs[b]), Part(x));
      inserted, freed := inserted + multiset{x.sess}, freed + Part(bs[b]);
      if !buckets[b].occupied { count := count + 1; }
      buckets[b] := x;
      at := to;
      assert buckets[..] == bs[b := x];
    }

    /** cmq_tls_session_cache_insert; `victim` is the id that was evicted, if any. */
    method Insert(id: Id, sess: int, now: Time) returns (ok: bool, ghost victim: Option<Id>)
      requires Valid()
      modifies this, buckets
      ensures Valid() && (ok <==> 0 < |id| <= ID_MAX && sess != 0)
      ensures !ok ==> unchanged(this) && unchanged(buckets)
      ensures ok ==> Given(old(buckets[..]), old(at), buckets[..], at, id, sess, now, victim)
      ensures ok ==> inserted == old(inserted) + multiset{sess}
      ensures ok ==> freed == old(freed) + Released(old(buckets[..]), old(at), id, victim)
      ensures ok ==> latest == old(latest)[id := sess] && used == old(used)[id := now]
      ensures ok && victim.Some? ==> LeastUsed(victim.value, old(latest), old(used), old(gone))
      ensures ok ==> gone == old(gone) - {id} + (if victim.Some? then {victim.value} else {})
    {
      hide Hash, Table, Held, Given, Released, UpToDate, LeastUsed;
      victim, ok := None, 0 < |id| <= ID_MAX && sess != 0;
      if ok {
        victim := Store(Bucket(id, sess, now, true));
        GivenLatest(old(buckets[..]), old(at), buckets[..], at, id, sess, now, victim, latest, used, gone);
        latest, used, gone := latest[id := sess], used[id := now], gone - {id} +
            (if victim.Some? then {victim.value} else {});
      }
    }

    /** A bucket replaces its id's, or takes the first free one, or that of a victim. */
    method Store(x: Bucket) returns (ghost victim: Option<Id>)
      requires Sound() && x.occupied
      modifies this`count, this`at, this`inserted, this`freed, buckets
      ensures Sound() && Given(old(buckets[..]), old(at), buckets[..], at, x.id, x.sess, x.last, victim)
      ensures inserted == old(inserted) + multiset{x.sess} &&
              freed == old(freed) + Released(old(buckets[..]), old(at), x.id, victim)
    {
      hide Hash, Table, Held, Given, Released;
      var hit, free, b;
      ghost var s;
      hit, free, b, s := Locate(x.id);
      victim := None;
      if hit {
        Replace(b, x);
      } else if free {
        Add(b, x, s);
      } else {
        victim := Evict(x);
      }
    }

    method Replace(b: nat, x: Bucket)
      requires Sound() && x.id in at && at[x.id] == b && x.occupied
      modifies this`count, this`at, this`inserted, this`freed, buckets
      ensures Sound() && Given(old(buckets[..]), old(at), buckets[..], at, x.id, x.sess, x.last, None)
      ensures inserted == old(inserted) + multiset{x.sess} &&
              freed == old(freed) + Released(old(buckets[..]), old(at), x.id, None)
    {
      hide Hash, Table, Held, Given, Released, Part;
      ghost var bs, was := buckets[..], at;
      HitBucket(bs, at, x.id);
      TouchKeeps(bs, at, b, x);
      Put(b, x, at);
      GivenHit(bs, was, x.id, x);
    }

    method Add(b: nat, x: Bucket, ghost s: nat)
      requires Sound() && x.id !in at && x.occupied && s < BUCKETS && b == Probe(Hash(x.id), s)
      requires !buckets[b].occupied && forall k :: 0 <= k < s ==> buckets[Probe(Hash(x.id), k)].occupied
      modifies this`count, this`at, this`inserted, this`freed, buckets
      ensures Sound() && Given(old(buckets[..]), old(at), buckets[..], at, x.id, x.sess, x.last, None)
      ensures inserted == old(inserted) + multiset{x.sess} &&
              freed == old(freed) + Released(old(buckets[..]), old(at), x.id, None)
    {
      hide Hash, Table, Held, Given, Released, Part;
      ghost var bs, was := buckets[..], at;
      AddKeeps(bs, at, x.id, s, x);
      Put(b, x, at[x.id := b]);
      GivenFree(bs, was, x.id, b, x);
    }

    method Evict(x: Bucket) returns (ghost victim: Option<Id>)
      requires Sound() && x.id !in at && x.occupied && forall c :: 0 <= c < BUCKETS ==> buckets[c].occupied
      modifies this`count, this`at, this`inserted, this`freed, buckets
      ensures Sound() && Given(old(buckets[..]), old(at), buckets[..], at, x.id, x.sess, x.last, victim)
      ensures inserted == old(inserted) + multiset{x.sess} &&
              freed == old(freed) + Released(old(buckets[..]), old(at), x.id, victim)
    {
      hide Hash, Table, Held, Given, Released, Part;
      ghost var bs, was := buckets[..], at;
      var b := Oldest();
      EvictKeeps(bs, at, x.id, b, x);
      victim := Some(bs[b].id);
      EvictCount(at, bs[b].id, x.id, b);
      Put(b, x, (at - {bs[b].id})[x.id := b]);
      GivenEvict(bs, was, x.id, b, x);
    }

    /** cmq_tls_session_cache_lookup: the session of an id, which counts as used now; 0 for none. */
    method Lookup(id: Id, now: Time) returns (sess: int)
      requires Valid()
      modifies buckets, this`used
      ensures Valid() && sess == if 0 < |id| <= ID_MAX && id in latest && id !in gone then latest[id] else 0
      ensures Others(old(buckets[..]), at, buckets[..], at, id, None) &&
              Sess(buckets[..], at, id) == Sess(old(buckets[..]), at, id)
      ensures used == if 0 < |id| <= ID_MAX && id in latest && id !in gone then old(used)[id := now] else old(used)
    {
      hide Hash, Table, Held, UpToDate, Others, Sess;
      LatestIs(buckets[..], at, id, latest, used, gone);
      SameOthers(buckets[..], at, id);
      if |id| == 0 || |id| > ID_MAX { return 0; }
      var hit, free, b;
      ghost var s;
      hit, free, b, s := Locate(id);
      if !hit { return 0; }
      TouchedUpToDate(buckets[..], at, id, now, latest, used, gone);
      Touch(b, now, id);
      used := used[id := now];
      sess := buckets[b].sess;
    }

    /** A hit: only the time of the bucket changes. */
    method Touch(b: nat, now: Time, ghost id: Id)
      requires Sound() && id in at && at[id] == b < BUCKETS
      modifies buckets
      ensures Sound() && buckets[..] == old(buckets[..])[b := old(buckets[b]).(last := now)]
    {
      hide Hash, Table, Held;
      ghost var bs := buckets[..];
      HitBucket(bs, at, id);
      var x := buckets[b].(last := now);
      TouchKeeps(bs, at, b, x);
      HeldUpdate(bs, b, x);
      CancelPart(Held(bs[b := x]), Held(bs), Part(x));
      buckets[b] := x;
      assert buckets[..] == bs[b := x];
    }

    /** cmq_tls_session_cache_destroy: what is still held is freed, so nothing is left over. */
    method Destroy()
      requires Valid()
      modifies this, buckets
      ensures freed == inserted == old(inserted) && forall c :: 0 <= c < buckets.Length ==> !buckets[c].occupied
    {
      hide Table, Held;
      var i: nat := 0;
      while i < BUCKETS
        invariant i <= BUCKETS && buckets.Length == BUCKETS && inserted == old(inserted)
        invariant inserted == freed + Held(buckets[..]) && forall c :: 0 <= c < i ==> !buckets[c].occupied
      {
        ghost var bs := buckets[..];
        if buckets[i].occupied {
          var x := Bucket([], 0, buckets[i].last, false);
          HeldUpdate(bs, i, x);
          Settle(inserted, freed, Held(bs), Held(bs[i := x]), Part(bs[i]), Part(x));
          freed := freed + multiset{buckets[i].sess};
          buckets[i] := x;
          assert buckets[..] == bs[i := x];
        }
        i := i + 1;
      }
      NothingHeld(buckets[..]);
    }
  }

  /** The session the table has for an id; 0 for none. */
  function Sess(bs: seq<Bucket>, at: map<Id, nat>, id: Id): int {
    if id in at && at[id] < |bs| then bs[at[id]].sess else 0
  }

  /** The time its bucket has for an id. */
  function Last(bs: seq<Bucket>, at: map<Id, nat>, id: Id): Time {
    if id in at && at[id] < |bs| then bs[at[id]].last else 0
  }

  /** Every id but these has the session and the time it had. */
  ghost predicate Others(bs: seq<Bucket>, at: map<Id, nat>, cs: seq<Bucket>, to: map<Id, nat>, id: Id,
                         victim: Option<Id>) {
    && (forall x :: x in to && x != id ==>
          x in at && to[x] == at[x] && Sess(cs, to, x) == Sess(bs, at, x) && Last(cs, to, x) == Last(bs, at, x))
    && forall x :: x in at && x != id && victim != Some(x) ==> x in to
  }

  lemma SameOthers(bs: seq<Bucket>, at: map<Id, nat>, id: Id)
    ensures Others(bs, at, bs, at, id, None)
  {
  }

  ghost predicate Full(bs: seq<Bucket>) { forall c :: 0 <= c < |bs| ==> bs[c].occupied }

  /**
   * An insertion: the id has the new session and the others have theirs. An id is evicted
   * only when a new one finds all buckets held, and then it is a least recently used one.
   */
  ghost predicate Given(bs: seq<Bucket>, at: map<Id, nat>, cs: seq<Bucket>, to: map<Id, nat>, id: Id, sess: int,
                        last: Time, victim: Option<Id>) {
    && id in to && to[id] < |cs| == |bs| && Sess(cs, to, id) == sess && Last(cs, to, id) == last
    && Others(bs, at, cs, to, id, victim)
    && (victim.Some? <==> id !in at && Full(bs))
    && (victim.Some? ==>
          && victim.value in at && victim.value !in to && at[victim.value] < |bs|
          && forall c :: 0 <= c < |bs| ==> bs[at[victim.value]].last <= bs[c].last)
  }

  /** The session an insertion frees: the one it replaces, or the victim's. */
  ghost function Released(bs: seq<Bucket>, at: map<Id, nat>, id: Id, victim: Option<Id>): multiset<int> {
    if id in at then multiset{Sess(bs, at, id)}
    else if victim.Some? then multiset{Sess(bs, at, victim.value)}
    else multiset{}
  }

  ghost predicate UpToDate(bs: seq<Bucket>, at: map<Id, nat>, latest: map<Id, int>, used: map<Id, Time>,
                           gone: set<Id>) {
    && gone <= latest.Keys == used.Keys && at.Keys == latest.Keys - gone
    && forall id :: id in at ==> at[id] < |bs| && Sess(bs, at, id) == latest[id] && Last(bs, at, id) == used[id]
  }

  /** Of the ids that are held, none was used longer ago. */
  ghost predicate LeastUsed(id: Id, latest: map<Id, int>, used: map<Id, Time>, gone: set<Id>) {
    && id in latest && id !in gone
    && forall x :: x in latest && x !in gone ==> id in used && x in used && used[id] <= used[x]
  }

  lemma LatestIs(bs: seq<Bucket>, at: map<Id, nat>, id: Id, latest: map<Id, int>, used: map<Id, Time>, gone: set<Id>)
    requires UpToDate(bs, at, latest, used, gone)
    ensures id in at <==> id in latest && id !in gone
    ensures id in at ==> at[id] < |bs| && bs[at[id]].sess == latest[id]
  {
  }

  lemma TouchedUpToDate(bs: seq<Bucket>, at: map<Id, nat>, id: Id, now: Time, latest: map<Id, int>,
                        used: map<Id, Time>, gone: set<Id>)
    requires Table(bs, at) && UpToDate(bs, at, latest, used, gone) && id in at && at[id] < |bs|
    ensures var cs := bs[at[id] := bs[at[id]].(last := now)];
            UpToDate(cs, at, latest, used[id := now], gone) && Others(bs, at, cs, at, id, None) &&
            Sess(cs, at, id) == Sess(bs, at, id)
  {
    hide Table;
    forall y | y in at && y != id ensures at[y] < |bs| && at[y] != at[id] { Apart(bs, at, y, id); }
  }

  lemma GivenLatest(bs: seq<Bucket>, at: map<Id, nat>, cs: seq<Bucket>, to: map<Id, nat>, id: Id, sess: int,
                    last: Time, victim: Option<Id>, latest: map<Id, int>, used: map<Id, Time>, gone: set<Id>)
    requires Given(bs, at, cs, to, id, sess, last, victim) && UpToDate(bs, at, latest, used, gone)
    ensures UpToDate(cs, to, latest[id := sess], used[id := last],
                     gone - {id} + (if victim.Some? then {victim.value} else {}))
    ensures victim.Some? ==> LeastUsed(victim.value, latest, used, gone)
  {
    hide Full, Sess;
  }

  lemma HitBucket(bs: seq<Bucket>, at: map<Id, nat>, id: Id)
    requires Table(bs, at) && id in at
    ensures |bs| == BUCKETS && at[id] < BUCKETS && bs[at[id]].occupied && bs[at[id]].id == id
  {
    assert IdOk(bs, at, id);
  }

  lemma Settle(inserted: multiset<int>, freed: multiset<int>, held: multiset<int>, now: multiset<int>,
               outgoing: multiset<int>, incoming: multiset<int>)
    requires inserted == freed + held && now + outgoing == held + incoming
    ensures inserted + incoming == (freed + outgoing) + now
  {
    assert (freed + held) + incoming == freed + (held + incoming);
    assert freed + (now + outgoing) == (freed + outgoing) + now;
  }

  lemma EvictCount(at: map<Id, nat>, gone: Id, id: Id, b: nat)
    requires gone in at && id !in at
    ensures |(at - {gone})[id := b]| == |at|
  {
    assert ((at - {gone})[id := b]).Keys == at.Keys - {gone} + {id};
  }

  /** Two ids are never in one bucket. */
  lemma Apart(bs: seq<Bucket>, at: map<Id, nat>, x: Id, y: Id)
    requires Table(bs, at) && x in at && y in at && x != y
    ensures at[x] < |bs| && at[y] < |bs| && at[x] != at[y]
  {
    HitBucket(bs, at, x);
    HitBucket(bs, at, y);
  }

  lemma GivenHit(bs: seq<Bucket>, at: map<Id, nat>, id: Id, x: Bucket)
    requires Table(bs, at) && id in at && at[id] < |bs|
    ensures Given(bs, at, bs[at[id] := x], at, id, x.sess, x.last, None)
    ensures bs[at[id]].occupied && Released(bs, at, id, None) == Part(bs[at[id]])
  {
    hide Table;
    HitBucket(bs, at, id);
    forall y | y in at && y != id ensures at[y] < |bs| && at[y] != at[id] { Apart(bs, at, y, id); }
  }

  lemma GivenFree(bs: seq<Bucket>, at: map<Id, nat>, id: Id, b: nat, x: Bucket)
    requires Table(bs, at) && id !in at && b < |bs| && !bs[b].occupied
    ensures Given(bs, at, bs[b := x], at[id := b], id, x.sess, x.last, None)
    ensures Released(bs, at, id, None) == Part(bs[b])
  {
    hide Table;
    forall y | y in at ensures at[y] < |bs| && at[y] != b { HitBucket(bs, at, y); }
  }

  lemma GivenEvict(bs: seq<Bucket>, at: map<Id, nat>, id: Id, b: nat, x: Bucket)
    requires Table(bs, at) && id !in at && b < |bs| && Full(bs) && forall c :: 0 <= c < |bs| ==>
             bs[b].last <= bs[c].last
    ensures Given(bs, at, bs[b := x], (at - {bs[b].id})[id := b], id, x.sess, x.last, Some(bs[b].id))
    ensures Released(bs, at, id, Some(bs[b].id)) == Part(bs[b])
  {
    var v := bs[b].id;
    assert BucketOk(bs, at, b);
    hide Table;
    forall y | y in at && y != v ensures at[y] < |bs| && at[y] != b { Apart(bs, at, y, v); }
  }

  lemma HomeIs(id: Id, h: bv32)
    requires h == HashBits(id)
    ensures h as nat == Hash(id)
  {
  }

  lemma ProbeIs(id: Id, home: nat, step: nat)
    requires home == Hash(id) % BUCKETS
    ensures (home + step) % BUCKETS == Probe(Hash(id), step)
  {
    hide Hash;
    var h := Hash(id);
    assert h + step == BUCKETS * (h / BUCKETS) + (home + step);
  }

  lemma {:induction false} NothingHeld(bs: seq<Bucket>)
    requires forall i :: 0 <= i < |bs| ==> !bs[i].occupied
    ensures Held(bs) == multiset{}
  {
    if bs != [] { NothingHeld(bs[..|bs| - 1]); }
  }
}
