/**
 * The inter-cluster gateway (src/cluster/cmq_gateway.c): slots for connected peers, dials
 * that run unlocked, and writers that hold only a slot's lock.
 *
 * A region under gw->lock is one method. Inside it, between two regions under a slot's lock,
 * other threads can do one thing only: a failing writer clears a slot (Interfere). Between
 * regions under gw->lock they can do anything the gateway offers (Environment). Which file
 * descriptor a new socket gets, whether a dial, a probe or a write succeeds and how the
 * threads interleave are arbitrary.
 */
module Gateway {
  import opened Common

  const MAX_CONNECTIONS: nat := 16
  const MAX_CLUSTERS: nat := 8
  const NAME_SIZE: nat := 64
  const ADDR_SIZE: nat := 64
  const GENS: nat := UINT32_MAX + 1

  datatype Conn = Conn(cluster: string, addr: string, port: int, fd: int, connected: bool)
  datatype Cluster = Cluster(name: string, addr: string, port: int)

  /** A cleared slot. */
  const EMPTY: Conn := Conn("", "", 0, -1, false)

  /** The local variables of a thread inside a dial: what it saw when it began, and its socket. */
  datatype Dial = Dial(cluster: string, addr: string, port: int, gen: nat, slot: int, fd: int)

  /** What an open socket belongs to. */
  datatype Owner = Slot(index: nat) | Dialer(id: nat)

  /** What a socket was dialed for, and to which endpoint. */
  datatype Peer = Peer(cluster: string, addr: string, port: int)

  /**
   * The gateway and its surroundings: `owner` has the open sockets, `peers` what each socket
   * number was last dialed for, `cancels` the true number of cancellations of a cluster, of
   * which the code keeps the remainder modulo 2^32, and `seen` that number when a dial began.
   */
  datatype World = World(
    conns: seq<Conn>, count: nat, clusters: seq<Cluster>, gens: seq<nat>, cancels: seq<nat>,
    dials: map<nat, Dial>, seen: map<nat, nat>, owner: map<int, Owner>, peers: map<int, Peer>)

  function IndexOf(cs: seq<Cluster>, name: string): (i: nat)
    ensures i <= |cs| && (i < |cs| ==> cs[i].name == name)
    ensures forall j :: 0 <= j < i ==> cs[j].name != name
  {
    if cs == [] then 0
    else if cs[|cs| - 1].name == name && IndexOf(cs[..|cs| - 1], name) == |cs| - 1 then |cs| - 1
    else if IndexOf(cs[..|cs| - 1], name) < |cs| - 1 then IndexOf(cs[..|cs| - 1], name)
    else |cs|
  }

  /** A slot is empty, or it alone owns a socket that was dialed for its peer. */
  ghost predicate SlotOk(w: World, i: nat)
    requires i < |w.conns|
  {
    var c := w.conns[i];
    if c.connected then
      && i < w.count && c.fd >= 0
      && c.fd in w.owner && w.owner[c.fd] == Slot(i)
      && c.fd in w.peers && w.peers[c.fd] == Peer(c.cluster, c.addr, c.port)
    else
      c.cluster == "" && (i < w.count ==> c == EMPTY)
  }

  /** An open socket is in exactly the place its owner says. */
  ghost predicate OwnerOk(w: World, fd: int)
    requires fd in w.owner
  {
    match w.owner[fd]
    case Slot(i) => i < |w.conns| && w.conns[i].connected && w.conns[i].fd == fd
    case Dialer(id) => id in w.dials && w.dials[id].fd == fd >= 0
  }

  ghost predicate DialOk(w: World, id: nat)
    requires id in w.dials && |w.cancels| == |w.clusters|
  {
    var d := w.dials[id];
    var c := IndexOf(w.clusters, d.cluster);
    && (d.fd >= 0 ==> d.fd in w.owner && w.owner[d.fd] == Dialer(id) &&
                      d.fd in w.peers && w.peers[d.fd] == Peer(d.cluster, d.addr, d.port))
    && c < |w.clusters| && id in w.seen && w.seen[id] <= w.cancels[c] && d.gen == w.seen[id] % GENS
  }

  ghost predicate ClustersOk(w: World)
    requires |w.gens| == |w.cancels| == |w.clusters|
  {
    && |w.clusters| <= MAX_CLUSTERS
    && (forall i, j :: 0 <= i < j < |w.clusters| ==> w.clusters[i].name != w.clusters[j].name)
    && forall i :: 0 <= i < |w.gens| ==> w.gens[i] == w.cancels[i] % GENS
  }

  /** What holds at every step, also inside the regions under gw->lock. */
  ghost predicate Core(w: World) {
    && |w.conns| == MAX_CONNECTIONS && w.count <= MAX_CONNECTIONS
    && |w.gens| == |w.cancels| == |w.clusters| && ClustersOk(w)
    && (forall i :: 0 <= i < |w.conns| ==> SlotOk(w, i))
    && (forall fd :: fd in w.owner ==> OwnerOk(w, fd))
    && (forall id :: id in w.dials ==> DialOk(w, id))
    && AtMostOne(w.conns)
  }

  /** Each cluster has at most one connected slot. */
  ghost predicate AtMostOne(conns: seq<Conn>) {
    forall i, j :: 0 <= i < j < |conns| && conns[i].connected && conns[j].connected ==>
      conns[i].cluster != conns[j].cluster
  }

  /** A connected slot has the endpoint that is registered for its cluster. */
  ghost predicate AtEndpoint(cs: seq<Cluster>, c: Conn) {
    c.connected ==> Cluster(c.cluster, c.addr, c.port) in cs
  }

  ghost predicate Endpoints(w: World) {
    forall i :: 0 <= i < |w.conns| ==> AtEndpoint(w.clusters, w.conns[i])
  }

  ghost predicate NoPeer(conns: seq<Conn>, name: string) {
    forall i :: 0 <= i < |conns| ==> !(conns[i].connected && conns[i].cluster == name)
  }

  ghost predicate OnlyAt(conns: seq<Conn>, name: string, slot: nat) {
    forall i :: 0 <= i < |conns| && i != slot ==> !(conns[i].connected && conns[i].cluster == name)
  }

  // ---- what each step does to the invariant ----

  function Cleared(w: World, i: nat): World
    requires i < |w.conns|
  {
    var fd := w.conns[i].fd;
    w.(conns := w.conns[i := EMPTY], owner := if w.conns[i].connected then w.owner - {fd} else w.owner)
  }

  lemma ClearedKeeps(w: World, i: nat)
    requires Core(w) && i < |w.conns| && i < w.count
    ensures Core(Cleared(w, i))
  {
    hide ClustersOk, IndexOf;
    var u := Cleared(w, i);
    assert SlotOk(w, i);
    forall j | 0 <= j < |u.conns| ensures SlotOk(u, j) { assert SlotOk(w, j); }
    forall fd | fd in u.owner ensures OwnerOk(u, fd) { assert OwnerOk(w, fd); }
    forall id | id in u.dials ensures DialOk(u, id) { assert DialOk(w, id); }
    ClustersFrame(w, u);
  }

  lemma ClustersFrame(w: World, u: World)
    requires |w.gens| == |w.cancels| == |w.clusters| && ClustersOk(w) && u.clusters == w.clusters && u.gens == w.gens &&
             u.cancels == w.cancels
    ensures ClustersOk(u)
  {
  }

  /** A dial's socket moves into slot i, which is empty. */
  function Installed(w: World, i: nat, id: nat): World
    requires i < |w.conns| && id in w.dials
  {
    var d := w.dials[id];
    w.(conns := w.conns[i := Conn(d.cluster, d.addr, d.port, d.fd, true)],
       owner := w.owner[d.fd := Slot(i)],
       dials := w.dials[id := d.(fd := -1)])
  }

  lemma InstalledKeeps(w: World, i: nat, id: nat)
    requires Core(w) && i < w.count && id in w.dials && w.dials[id].fd >= 0
    requires !w.conns[i].connected && NoPeer(w.conns, w.dials[id].cluster)
    ensures Core(Installed(w, i, id))
  {
    hide ClustersOk, IndexOf;
    var u := Installed(w, i, id);
    assert DialOk(w, id);
    forall j | 0 <= j < |u.conns| ensures SlotOk(u, j) { assert SlotOk(w, j); }
    forall fd | fd in u.owner ensures OwnerOk(u, fd) { if fd in w.owner { assert OwnerOk(w, fd); } }
    forall k | k in u.dials ensures DialOk(u, k) { assert DialOk(w, k); }
    ClustersFrame(w, u);
  }

  /** One slot more: the code clears it in the same breath as it fills it. */
  function Grown(w: World): World
    requires w.count < |w.conns|
  {
    w.(conns := w.conns[w.count := EMPTY], count := w.count + 1)
  }

  lemma GrownKeeps(w: World)
    requires Core(w) && w.count < MAX_CONNECTIONS
    ensures Core(Grown(w)) && !w.conns[w.count].connected
  {
    hide ClustersOk, IndexOf;
    var u := Grown(w);
    assert SlotOk(w, w.count);
    forall j | 0 <= j < |u.conns| ensures SlotOk(u, j) { assert SlotOk(w, j); }
    forall fd | fd in u.owner ensures OwnerOk(u, fd) { assert OwnerOk(w, fd); }
    forall id | id in u.dials ensures DialOk(u, id) { assert DialOk(w, id); }
    ClustersFrame(w, u);
  }

  lemma ShrunkKeeps(w: World)
    requires Core(w) && w.count > 0 && !w.conns[w.count - 1].connected
    ensures Core(w.(count := w.count - 1))
  {
    hide ClustersOk, IndexOf;
    var u := w.(count := w.count - 1);
    forall j | 0 <= j < |u.conns| ensures SlotOk(u, j) { assert SlotOk(w, j); }
    forall fd | fd in u.owner ensures OwnerOk(u, fd) { assert OwnerOk(w, fd); }
    forall id | id in u.dials ensures DialOk(u, id) { assert DialOk(w, id); }
    ClustersFrame(w, u);
  }

  function Began(w: World, id: nat, d: Dial): World
    requires IndexOf(w.clusters, d.cluster) < |w.cancels|
  {
    w.(dials := w.dials[id := d], seen := w.seen[id := w.cancels[IndexOf(w.clusters, d.cluster)]])
  }

  lemma BeganKeeps(w: World, id: nat, d: Dial)
    requires Core(w) && id !in w.dials && d.fd < 0
    requires IndexOf(w.clusters, d.cluster) < |w.clusters| && d.gen == w.gens[IndexOf(w.clusters, d.cluster)]
    ensures Core(Began(w, id, d))
  {
    var u := Began(w, id, d);
    forall j | 0 <= j < |u.conns| ensures SlotOk(u, j) { assert SlotOk(w, j); }
    forall fd | fd in u.owner ensures OwnerOk(u, fd) { assert OwnerOk(w, fd); }
    forall k | k in u.dials ensures DialOk(u, k) { if k != id { assert DialOk(w, k); } }
  }

  /** socket(): the kernel hands out a number that no open socket has. */
  function Opened(w: World, id: nat, fd: int): World
    requires id in w.dials
  {
    var d := w.dials[id];
    w.(dials := w.dials[id := d.(fd := fd)],
       owner := w.owner[fd := Dialer(id)],
       peers := w.peers[fd := Peer(d.cluster, d.addr, d.port)])
  }

  lemma OpenedKeeps(w: World, id: nat, fd: int)
    requires Core(w) && id in w.dials && w.dials[id].fd < 0 && fd >= 0 && fd !in w.owner
    ensures Core(Opened(w, id, fd))
  {
    hide ClustersOk, IndexOf;
    var u := Opened(w, id, fd);
    forall j | 0 <= j < |u.conns| ensures SlotOk(u, j) { assert SlotOk(w, j); }
    forall f | f in u.owner ensures OwnerOk(u, f) { if f != fd { assert OwnerOk(w, f); } }
    forall k | k in u.dials ensures DialOk(u, k) { assert DialOk(w, k); }
    ClustersFrame(w, u);
  }

  function Dropped(w: World, id: nat): World
    requires id in w.dials
  {
    w.(dials := w.dials[id := w.dials[id].(fd := -1)], owner := w.owner - {w.dials[id].fd})
  }

  lemma DroppedKeeps(w: World, id: nat)
    requires Core(w) && id in w.dials && w.dials[id].fd >= 0
    ensures Core(Dropped(w, id))
  {
    hide ClustersOk, IndexOf;
    var u := Dropped(w, id);
    assert DialOk(w, id);
    forall j | 0 <= j < |u.conns| ensures SlotOk(u, j) { assert SlotOk(w, j); }
    forall f | f in u.owner ensures OwnerOk(u, f) { assert OwnerOk(w, f); }
    forall k | k in u.dials ensures DialOk(u, k) { assert DialOk(w, k); }
    ClustersFrame(w, u);
  }

  lemma EndedKeeps(w: World, id: nat)
    requires Core(w) && id in w.dials && w.dials[id].fd < 0
    ensures Core(w.(dials := w.dials - {id}))
  {
    hide ClustersOk, IndexOf;
    var u := w.(dials := w.dials - {id});
    forall j | 0 <= j < |u.conns| ensures SlotOk(u, j) { assert SlotOk(w, j); }
    forall f | f in u.owner ensures OwnerOk(u, f) { assert OwnerOk(w, f); }
    forall k | k in u.dials ensures DialOk(u, k) { assert DialOk(w, k); }
    ClustersFrame(w, u);
  }

  /** A cancellation, with or without a new endpoint. */
  function Cancelled(w: World, c: nat, addr: string, port: int): World
    requires c < |w.clusters| == |w.cancels| == |w.gens|
  {
    w.(clusters := w.clusters[c := Cluster(w.clusters[c].name, addr, port)],
       gens := w.gens[c := (w.gens[c] + 1) % GENS],
       cancels := w.cancels[c := w.cancels[c] + 1])
  }

  lemma {:induction false} IndexIsName(a: seq<Cluster>, b: seq<Cluster>, name: string)
    requires |a| == |b| && forall i :: 0 <= i < |a| ==> a[i].name == b[i].name
    ensures IndexOf(a, name) == IndexOf(b, name)
  {
    if a != [] { IndexIsName(a[..|a| - 1], b[..|b| - 1], name); }
  }

  lemma NextGen(n: nat)
    ensures (n % GENS + 1) % GENS == (n + 1) % GENS
  {
  }

  lemma CancelledKeeps(w: World, c: nat, addr: string, port: int)
    requires Core(w) && c < |w.clusters|
    ensures Core(Cancelled(w, c, addr, port))
  {
    hide IndexOf;
    var u := Cancelled(w, c, addr, port);
    NextGen(w.cancels[c]);
    forall j | 0 <= j < |u.conns| ensures SlotOk(u, j) { assert SlotOk(w, j); }
    forall f | f in u.owner ensures OwnerOk(u, f) { assert OwnerOk(w, f); }
    forall k | k in u.dials ensures DialOk(u, k) {
      assert DialOk(w, k);
      IndexIsName(w.clusters, u.clusters, w.dials[k].cluster);
    }
  }

  function Registered(w: World, cl: Cluster): World {
    w.(clusters := w.clusters + [cl], gens := w.gens + [0], cancels := w.cancels + [0])
  }

  lemma IndexGrows(a: seq<Cluster>, cl: Cluster, name: string)
    requires IndexOf(a, name) < |a|
    ensures IndexOf(a + [cl], name) == IndexOf(a, name)
  {
    assert (a + [cl])[..|a|] == a;
  }

  lemma RegisteredKeeps(w: World, cl: Cluster)
    requires Core(w) && |w.clusters| < MAX_CLUSTERS && IndexOf(w.clusters, cl.name) == |w.clusters|
    ensures Core(Registered(w, cl)) && (Endpoints(w) ==> Endpoints(Registered(w, cl)))
  {
    hide IndexOf;
    var u := Registered(w, cl);
    forall j | 0 <= j < |u.conns| ensures SlotOk(u, j) { assert SlotOk(w, j); }
    forall f | f in u.owner ensures OwnerOk(u, f) { assert OwnerOk(w, f); }
    forall k | k in u.dials ensures DialOk(u, k) {
      assert DialOk(w, k);
      IndexGrows(w.clusters, cl, w.dials[k].cluster);
    }
  }

  // ---- slots fading under a region ----

  /** Some connected slots have been cleared, and nothing else. */
  ghost predicate Faded(a: seq<Conn>, b: seq<Conn>) {
    |a| == |b| && forall i :: 0 <= i < |a| ==> b[i] == a[i] || (a[i].connected && b[i] == EMPTY)
  }

  ghost function Live(conns: seq<Conn>): set<nat> {
    set i: nat | i < |conns| && conns[i].connected
  }

  lemma FadedSelf(a: seq<Conn>)
    ensures Faded(a, a)
  {
  }

  lemma FadedTrans(a: seq<Conn>, b: seq<Conn>, c: seq<Conn>)
    requires Faded(a, b) && Faded(b, c)
    ensures Faded(a, c)
  {
  }

  lemma FadedLive(a: seq<Conn>, b: seq<Conn>)
    requires Faded(a, b)
    ensures Live(b) <= Live(a)
  {
  }

  /** A slot that was connected and is no longer makes the rescan loops finite. */
  lemma FadedSlot(a: seq<Conn>, b: seq<Conn>, i: nat)
    requires Faded(a, b) && i < |a| && a[i].connected && !b[i].connected
    ensures Live(b) < Live(a)
  {
    assert i in Live(a) && i !in Live(b);
  }

  lemma FadedEndpoints(w: World, u: World)
    requires Faded(w.conns, u.conns) && u.clusters == w.clusters
    ensures Endpoints(w) ==> Endpoints(u)
  {
  }

  lemma CoreParts(w: World)
    requires Core(w)
    ensures |w.conns| == MAX_CONNECTIONS && w.count <= MAX_CONNECTIONS
    ensures |w.gens| == |w.cancels| == |w.clusters| <= MAX_CLUSTERS
    ensures forall i :: 0 <= i < |w.conns| ==> SlotOk(w, i)
  {
  }

  // ---- history ----

  /** Of one write: all of it, some or none of it, or a failure that ends the connection. */
  datatype Outcome = Sent | Deferred | Failed

  /** A write: the cluster it was meant for, what the socket was dialed for, and how it went. */
  datatype Write = Write(target: string, peer: Peer, outcome: Outcome)

  /** An install: the cluster, and the cancellations of it since the dial began. */
  datatype Install = Install(cluster: string, since: nat)

  ghost predicate WritesOk(writes: seq<Write>) {
    forall i :: 0 <= i < |writes| ==> writes[i].target == writes[i].peer.cluster
  }

  /** Writes to distinct clusters, each to its own socket. */
  ghost predicate EachOnce(wrote: seq<Write>) {
    && WritesOk(wrote)
    && forall j, k :: 0 <= j < k < |wrote| ==> wrote[j].target != wrote[k].target
  }

  /** How many of them went out whole. */
  ghost function Whole(wrote: seq<Write>): nat {
    if wrote == [] then 0 else Whole(wrote[..|wrote| - 1]) + if wrote[|wrote| - 1].outcome == Sent then 1 else 0
  }

  lemma WholeOne(wrote: seq<Write>, more: seq<Write>)
    requires |more| <= 1
    ensures Whole(wrote + more) == Whole(wrote) + if more != [] && more[0].outcome == Sent then 1 else 0
  {
    if more == [] {
      assert wrote + more == wrote;
    } else {
      assert (wrote + more)[..|wrote + more| - 1] == wrote;
    }
  }

  /** Something was written to this cluster. */
  ghost predicate Reached(wrote: seq<Write>, name: string) {
    exists k :: 0 <= k < |wrote| && wrote[k].target == name
  }

  lemma NoneWritten()
    ensures EachOnce([]) && Whole([]) == 0
  {
  }

  ghost predicate InstallsOk(installs: seq<Install>) {
    forall i :: 0 <= i < |installs| ==> installs[i].since % GENS == 0
  }

  /** The slot is still the one that was snapshotted. */
  ghost predicate Hit(conns: seq<Conn>, idx: nat, expectFd: int, cluster: string) {
    && idx < |conns| == MAX_CONNECTIONS && conns[idx].connected
    && conns[idx].cluster == cluster && conns[idx].fd == expectFd
  }

  /** No socket of this cluster has been installed in between. */
  ghost predicate NoneOf(before: seq<Install>, after: seq<Install>, name: string) {
    forall k :: |before| <= k < |after| ==> after[k].cluster != name
  }

  /** Between two moments: a slot that is connected has been all along, or its cluster's socket is new. */
  ghost predicate Later(a: seq<Conn>, b: seq<Conn>, before: seq<Install>, after: seq<Install>) {
    && |a| == |b| && before <= after
    && forall i :: 0 <= i < |b| && b[i].connected && NoneOf(before, after, b[i].cluster) ==> b[i] == a[i]
  }

  lemma LaterTrans(a: seq<Conn>, b: seq<Conn>, c: seq<Conn>, x: seq<Install>, y: seq<Install>, z: seq<Install>)
    requires Later(a, b, x, y) && Later(b, c, y, z)
    ensures Later(a, c, x, z)
  {
    forall i | 0 <= i < |c| && c[i].connected && NoneOf(x, z, c[i].cluster) ensures c[i] == a[i] {
      assert NoneOf(y, z, c[i].cluster);
      assert NoneOf(x, y, c[i].cluster) by {
        forall k | |x| <= k < |y| ensures y[k].cluster != c[i].cluster { assert z[k] == y[k]; }
      }
    }
  }

  lemma FadedLater(a: seq<Conn>, b: seq<Conn>, x: seq<Install>)
    requires Faded(a, b)
    ensures Later(a, b, x, x)
  {
  }

  lemma PlacedLater(a: seq<Conn>, b: seq<Conn>, slot: nat, c: Conn, x: seq<Install>, since: nat)
    requires PlacedAt(a, b, slot, c)
    ensures Later(a, b, x, x + [Install(c.cluster, since)])
  {
    var y := x + [Install(c.cluster, since)];
    assert y[|x|].cluster == c.cluster;
  }

  /** Each of the first n peers whose slot is as snapshotted, with no socket installed since, was written to. */
  ghost predicate Covered(snap: seq<(nat, int, string)>, n: nat, before: seq<Install>, after: seq<Install>,
                          conns: seq<Conn>, wrote: seq<Write>)
    requires n <= |snap|
  {
    forall k :: 0 <= k < n && NoneOf(before, after, snap[k].2) && Hit(conns, snap[k].0, snap[k].1, snap[k].2) ==>
      Reached(wrote, snap[k].2)
  }

  lemma NoneOfParts(x: seq<Install>, y: seq<Install>, z: seq<Install>, name: string)
    requires x <= y <= z && NoneOf(x, z, name)
    ensures NoneOf(x, y, name) && NoneOf(y, z, name)
  {
    forall k | |x| <= k < |y| ensures y[k].cluster != name { assert z[k] == y[k]; }
  }

  lemma ReachedMore(wrote: seq<Write>, more: seq<Write>, name: string)
    requires Reached(wrote, name) || Reached(more, name)
    ensures Reached(wrote + more, name)
  {
    if Reached(wrote, name) {
      var k :| 0 <= k < |wrote| && wrote[k].target == name;
      assert (wrote + more)[k].target == name;
    } else {
      var k :| 0 <= k < |more| && more[k].target == name;
      assert (wrote + more)[|wrote| + k].target == name;
    }
  }

  lemma CoveredStep(snap: seq<(nat, int, string)>, j: nat, x: seq<Install>, y: seq<Install>, z: seq<Install>,
                    c0: seq<Conn>, c1: seq<Conn>, wrote: seq<Write>, more: seq<Write>)
    requires j < |snap| && x <= y && Later(c0, c1, y, z) && Covered(snap, j, x, y, c0, wrote)
    requires Hit(c1, snap[j].0, snap[j].1, snap[j].2) ==> Reached(more, snap[j].2)
    ensures Covered(snap, j + 1, x, z, c1, wrote + more)
  {
    hide Reached;
    forall k | 0 <= k < j + 1 && NoneOf(x, z, snap[k].2) && Hit(c1, snap[k].0, snap[k].1, snap[k].2)
      ensures Reached(wrote + more, snap[k].2)
    {
      NoneOfParts(x, y, z, snap[k].2);
      assert k < j ==> Hit(c0, snap[k].0, snap[k].1, snap[k].2);
      ReachedMore(wrote, more, snap[k].2);
    }
  }

  lemma CoveredNone(snap: seq<(nat, int, string)>, x: seq<Install>, conns: seq<Conn>)
    ensures Covered(snap, 0, x, x, conns, [])
  {
  }

  lemma LaterPrefix(a: seq<Conn>, b: seq<Conn>, x: seq<Install>, y: seq<Install>)
    requires Later(a, b, x, y)
    ensures x <= y
  {
  }

  lemma InLater(w: seq<Write>, u: seq<Write>, v: seq<Write>, done: seq<Write>, more: seq<Write>)
    requires w <= u <= v && |u| + |more| <= |v| && more <= v[|v| - |more|..]
    requires forall x :: x in done ==> x in u[|w|..]
    ensures forall x :: x in done + more ==> x in v[|w|..]
  {
    forall x | x in done + more ensures x in v[|w|..] {
      if x in done {
        var k :| 0 <= k < |u| - |w| && u[|w|..][k] == x;
        assert v[|w|..][k] == x;
      } else {
        var k :| 0 <= k < |more| && more[k] == x;
        assert v[|w|..][|v| - |more| - |w| + k] == x;
      }
    }
  }

  /** A peer that is connected at the end was snapshotted, and so written to. */
  lemma StillCovered(snap: seq<(nat, int, string)>, x: seq<Install>, y: seq<Install>, mid: seq<Conn>,
                     conns: seq<Conn>, wrote: seq<Write>, name: string)
    requires Later(mid, conns, x, y) && Covered(snap, |snap|, x, y, conns, wrote) && |conns| == MAX_CONNECTIONS
    requires !NoPeer(conns, name) && NoneOf(x, y, name)
    requires forall i :: 0 <= i < |mid| && mid[i].connected && mid[i].cluster == name ==>
               (i, mid[i].fd, mid[i].cluster) in snap
    ensures snap != [] && Reached(wrote, name) && wrote != []
  {
    var i :| 0 <= i < |conns| && conns[i].connected && conns[i].cluster == name;
    var k :| 0 <= k < |snap| && snap[k] == (i, mid[i].fd, mid[i].cluster);
    assert Hit(conns, snap[k].0, snap[k].1, snap[k].2);
  }

  lemma SameGen(cancels: nat, seen: nat)
    requires seen <= cancels && cancels % GENS == seen % GENS
    ensures (cancels - seen) % GENS == 0
  {
  }

  lemma OtherGen(cancels: nat, seen: nat)
    requires seen <= cancels && cancels % GENS != seen % GENS
    ensures (cancels - seen) % GENS != 0
  {
  }

  /** The lowest number that is not taken. */
  method Lowest(taken: set<int>) returns (n: int)
    ensures n >= 0 && n !in taken && forall k :: 0 <= k < n ==> k in taken
  {
    n := 0;
    while n in taken
      invariant n >= 0 && forall k :: 0 <= k < n ==> k in taken
      decreases set k | k in taken && n <= k
    {
      ghost var left := set k | k in taken && n <= k;
      n := n + 1;
      assert n - 1 in left && n - 1 !in set k | k in taken && n <= k;
    }
  }

  class CmqGateway {
    var conns: seq<Conn>
    var connCount: nat
    var clusters: seq<Cluster>
    var gens: seq<nat>
    var dialing: seq<bool>
    var dials: map<nat, Dial>
    var nextDial: nat
    var owner: map<int, Owner>
    ghost var cancels: seq<nat>
    ghost var seen: map<nat, nat>
    ghost var peers: map<int, Peer>
    ghost var writes: seq<Write>
    ghost var installs: seq<Install>

    ghost function W(): World
      reads this
    {
      World(conns, connCount, clusters, gens, cancels, dials, seen, owner, peers)
    }

    /** Holds at every step of every thread. */
    ghost predicate Inside()
      reads this
    {
      && Core(W()) && |dialing| == |clusters|
      && (forall id :: id in dials ==> id < nextDial)
      && WritesOk(writes) && InstallsOk(installs)
    }

    /** Holds whenever gw->lock is free. */
    ghost predicate Valid()
      reads this
    {
      Inside() && Endpoints(W())
    }

    constructor ()
      ensures Valid() && clusters == [] && dialing == [] && owner == map[] && dials == map[] && writes == [] &&
              installs == []
    {
      conns := seq(MAX_CONNECTIONS, _ => Conn("", "", 0, 0, false));
      connCount, clusters, gens, dialing, nextDial := 0, [], [], [], 0;
      dials, owner, peers, seen := map[], map[], map[], map[];
      cancels, writes, installs := [], [], [];
    }

    /** close(): only an open socket may be closed, so none is ever closed twice. */
    method Close(fd: int)
      requires fd in owner
      modifies this`owner
      ensures owner == old(owner) - {fd}
    {
      owner := owner - {fd};
    }

    /** Clear a slot and close its socket (gw_slot_close_fd). */
    method SlotCloseFd(idx: nat)
      requires Inside() && idx < connCount
      modifies this`conns, this`owner
      ensures Inside() && conns == old(conns)[idx := EMPTY]
      ensures Faded(old(conns), conns)
      ensures old(conns)[idx].connected ==>
                old(conns)[idx].fd in old(owner) && owner == old(owner) - {old(conns)[idx].fd}
    {
      ghost var w := W();
      ClearedKeeps(w, idx);
      CoreParts(w);
      hide Core, Faded;
      assert SlotOk(w, idx);
      var fd := conns[idx].fd;
      conns := conns[idx := EMPTY];
      if fd >= 0 { Close(fd); }
      assert W() == Cleared(w, idx);
      assert Faded(w.conns, conns) by { FadedClear(w, idx); }
    }

    /** A dial's socket goes live in an empty slot (gw_slot_install). */
    method SlotInstall(idx: nat, id: nat)
      requires Inside() && idx < connCount && id in dials && dials[id].fd >= 0
      requires !conns[idx].connected && NoPeer(conns, dials[id].cluster) && Fresh(id)
      modifies this`conns, this`owner, this`dials, this`installs
      ensures Inside() && InstalledAt(idx, old(conns), old(dials), id)
      ensures installs == old(installs) + [Install(old(dials)[id].cluster, old(Since(id)))]
    {
      hide Core, NoPeer, Fresh, IndexOf;
      ghost var w := W();
      CoreParts(w);
      InstalledKeeps(w, idx, id);
      assert Since(id) % GENS == 0 by { FreshIs(id); }
      ghost var since := Since(id);
      hide Since;
      var d := dials[id];
      installs := installs + [Install(d.cluster, since)];
      conns := conns[idx := Conn(d.cluster, d.addr, d.port, d.fd, true)];
      owner := owner[d.fd := Slot(idx)];
      dials := dials[id := d.(fd := -1)];
      assert W() == Installed(w, idx, id);
    }

    /** Cancellations of a dial's cluster since it began. */
    ghost function Since(id: nat): nat
      reads this
    {
      if id in dials && id in seen && IndexOf(clusters, dials[id].cluster) < |cancels| &&
         seen[id] <= cancels[IndexOf(clusters, dials[id].cluster)]
      then cancels[IndexOf(clusters, dials[id].cluster)] - seen[id]
      else 0
    }

    ghost predicate Fresh(id: nat)
      reads this
    {
      Since(id) % GENS == 0
    }

    lemma FreshIs(id: nat)
      ensures Fresh(id) <==> Since(id) % GENS == 0
    {
    }

    /** The outcome of an install: exactly this slot and this dial changed. */
    ghost predicate InstalledAt(idx: nat, before: seq<Conn>, was: map<nat, Dial>, id: nat)
      requires id in was && idx < |before|
      reads this
    {
      var d := was[id];
      && conns == before[idx := Conn(d.cluster, d.addr, d.port, d.fd, true)]
      && dials == was[id := d.(fd := -1)]
    }

    /** One write of a forward or broadcast, under the slot's lock. */
    method WriteOne(idx: nat, expectFd: int, cluster: string) returns (r: Outcome)
      requires Inside() && idx < MAX_CONNECTIONS
      modifies this`conns, this`owner, this`writes
      ensures Inside() && Faded(old(conns), conns) && old(writes) <= writes
      ensures if Hit(old(conns), idx, expectFd, cluster)
              then |writes| == |old(writes)| + 1 && writes[|old(writes)|].target == cluster &&
                   writes[|old(writes)|].outcome == r
              else writes == old(writes) && r == Deferred
      ensures if r == Failed
              then idx < |old(conns)| && conns == old(conns)[idx := EMPTY] &&
                   expectFd in old(owner) && owner == old(owner) - {expectFd}
              else conns == old(conns) && owner == old(owner)
    {
      ghost var w := W();
      CoreParts(w);
      assert SlotOk(w, idx);
      hide Core, SlotOk;
      assert Faded(w.conns, w.conns);
      if !(conns[idx].connected && conns[idx].fd == expectFd && conns[idx].cluster == cluster) { return Deferred; }
      r := *;
      writes := writes + [Write(cluster, peers[expectFd], r)];
      assert W() == w;
      if r == Failed { SlotCloseFd(idx); }
    }

    /** What writers can do between two steps of a region under gw->lock. */
    method Interfere()
      requires Inside()
      modifies this`conns, this`owner, this`writes
      ensures Inside() && Faded(old(conns), conns)
      ensures old(writes) <= writes
    {
      hide Core, WritesOk;
      var n: nat := *;
      assert Faded(old(conns), conns);
      while n > 0
        invariant old(writes) <= writes
        invariant Inside() && Faded(old(conns), conns)
      {
        ghost var before := conns;
        var idx: nat, fd: int, cluster: string := *, *, *;
        if idx < MAX_CONNECTIONS {
          var r := WriteOne(idx, fd, cluster);
          FadedTrans(old(conns), before, conns);
        }
        n := n - 1;
      }
    }

    /** A scan for a connected slot of a cluster; connCount for none. */
    method FindPeer(name: string) returns (idx: nat, efd: int)
      requires Inside()
      modifies this`conns, this`owner, this`writes
      ensures Inside() && Faded(old(conns), conns) && idx <= connCount
      ensures old(writes) <= writes
      ensures idx < connCount ==> conns[idx].connected && conns[idx].cluster == name && conns[idx].fd == efd
      ensures idx == connCount ==> NoPeer(conns, name)
    {
      CoreParts(W());
      hide Core, WritesOk, SlotOk;
      idx, efd := 0, -1;
      while idx < connCount
        invariant old(writes) <= writes
        invariant idx <= connCount && Inside() && Faded(old(conns), conns)
        invariant forall k :: 0 <= k < idx ==> !(conns[k].connected && conns[k].cluster == name)
      {
        ghost var before := conns;
        Interfere();
        FadedTrans(old(conns), before, conns);
        CoreParts(W());
        if conns[idx].cluster == name && conns[idx].connected && conns[idx].fd >= 0 {
          efd := conns[idx].fd;
          return;
        }
        SlotFd(W(), idx);
        idx := idx + 1;
      }
      forall k | 0 <= k < |conns| ensures !(conns[k].connected && conns[k].cluster == name) {
        CoreParts(W());
        SlotFd(W(), k);
      }
    }

    /** A live peer of a cluster, after clearing its dead ones (gw_has_live_peer). */
    method HasLivePeer(name: string) returns (live: bool)
      requires Inside()
      modifies this`conns, this`owner, this`writes
      ensures Inside() && Faded(old(conns), conns)
      ensures old(writes) <= writes
      ensures !live ==> NoPeer(conns, name)
      ensures live ==> !NoPeer(old(conns), name)
    {
      hide Core, WritesOk, Live;
      assert Faded(old(conns), conns);
      while true
        invariant old(writes) <= writes
        invariant Inside() && Faded(old(conns), conns)
        decreases Live(conns)
      {
        ghost var start := conns;
        var idx, efd := FindPeer(name);
        FadedTrans(old(conns), start, conns);
        FadedLive(start, conns);
        if idx == connCount { return false; }
        ghost var found := conns;
        Interfere();
        FadedTrans(old(conns), found, conns);
        FadedLive(found, conns);
        CoreParts(W());
        var still := conns[idx].cluster == name && conns[idx].connected && conns[idx].fd == efd;
        var alive: bool := *;
        if still && alive {
          assert !NoPeer(conns, name);
          return true;
        }
        if still { Reclaim(idx); }
        FadedTrans(old(conns), found, conns);
        FadedSlot(found, conns, idx);
      }
    }

    /** Clear a slot, with writers at work before it is locked. */
    method Reclaim(idx: nat)
      requires Inside() && idx < connCount
      modifies this`conns, this`owner, this`writes
      ensures Inside() && Faded(old(conns), conns) && conns[idx] == EMPTY
      ensures old(writes) <= writes
    {
      hide Core, WritesOk, Faded;
      Interfere();
      ghost var mid := conns;
      CoreParts(W());
      SlotCloseFd(idx);
      FadedTrans(old(conns), mid, conns);
    }

    // ---- placing a dialed socket ----

    /** A dial that may be placed: it has a socket, no cancellation, and the current endpoint. */
    ghost predicate MayPlace(id: nat)
      reads this
    {
      && id in dials && dials[id].fd >= 0 && Fresh(id)
      && Cluster(dials[id].cluster, dials[id].addr, dials[id].port) in clusters
    }

    /** The dial's socket is live in some slot; other slots have at most faded. */
    ghost predicate Placed(before: seq<Conn>, was: map<nat, Dial>, id: nat)
      requires id in was
      reads this
    {
      var d := was[id];
      && dials == was[id := d.(fd := -1)]
      && exists slot :: PlacedAt(before, conns, slot, Conn(d.cluster, d.addr, d.port, d.fd, true))
    }

    lemma PlacedThrough(before: seq<Conn>, mid: seq<Conn>, was: map<nat, Dial>, id: nat)
      requires id in was && Faded(before, mid) && Placed(mid, was, id)
      ensures Placed(before, was, id)
    {
      var d := was[id];
      var c := Conn(d.cluster, d.addr, d.port, d.fd, true);
      var slot :| PlacedAt(mid, conns, slot, c);
      assert PlacedAt(before, conns, slot, c);
    }

    /** Close whatever is in a slot and install a dial's socket there. */
    method Replace(slot: nat, id: nat)
      requires Inside() && slot < connCount && MayPlace(id) && OnlyAt(conns, dials[id].cluster, slot)
      modifies this`conns, this`owner, this`writes, this`dials, this`installs
      ensures Inside() && Placed(old(conns), old(dials), id)
      ensures old(writes) <= writes
      ensures installs == old(installs) + [Install(old(dials)[id].cluster, old(Since(id)))]
      ensures old(Endpoints(W())) ==> Endpoints(W())
    {
      hide Core, WritesOk, InstallsOk;
      CoreParts(W());
      Reclaim(slot);
      ghost var mid := conns;
      Interfere();
      FadedTrans(old(conns), mid, conns);
      CoreParts(W());
      ghost var faded := conns;
      assert NoPeer(conns, dials[id].cluster);
      SlotInstall(slot, id);
      ghost var d := old(dials)[id];
      assert PlacedAt(old(conns), conns, slot, Conn(d.cluster, d.addr, d.port, d.fd, true));
    }

    /** Claim one slot for a dialed socket (gw_slot_claim_install). */
    method ClaimInstall(slot: nat, id: nat) returns (rc: int)
      requires Inside() && MayPlace(id) && OnlyAt(conns, dials[id].cluster, slot)
      modifies this`conns, this`owner, this`writes, this`dials, this`installs
      ensures Inside() && (rc == 0 || rc == 1 || rc == -1)
      ensures old(writes) <= writes
      ensures rc == 0 ==> Placed(old(conns), old(dials), id)
      ensures rc == 0 ==> installs == old(installs) + [Install(old(dials)[id].cluster, old(Since(id)))]
      ensures rc != 0 ==> Faded(old(conns), conns) && dials == old(dials) && installs == old(installs)
      ensures old(Endpoints(W())) ==> Endpoints(W())
      ensures slot < connCount && !old(conns)[slot].connected ==> rc == 0
      ensures rc == 1 ==> !NoPeer(old(conns), old(dials)[id].cluster)
    {
      hide Core, WritesOk, InstallsOk, Placed, AtEndpoint;
      CoreParts(W());
      if slot >= connCount { return -1; }
      var name := dials[id].cluster;
      Interfere();
      ghost var c1 := conns;
      CoreParts(W());
      FadedEndpoints(old(W()), W());
      var c := conns[slot];
      if c.cluster == name && c.connected && c.fd >= 0 {
        Interfere();
        FadedTrans(old(conns), c1, conns);
        FadedEndpoints(old(W()), W());
        CoreParts(W());
        var still := conns[slot].cluster == name && conns[slot].fd == c.fd;
        var alive: bool := *;
        if !still { return -1; }
        if alive { return 1; }
      } else if !(!c.connected || c.cluster == "" || c.cluster == name) {
        Interfere();
        FadedTrans(old(conns), c1, conns);
        FadedEndpoints(old(W()), W());
        CoreParts(W());
        var still := conns[slot].fd == c.fd;
        var alive: bool := *;
        if !(c.fd >= 0 && still && !alive) { return -1; }
      }
      ghost var c2 := conns;
      Replace(slot, id);
      assert Placed(old(conns), old(dials), id) by { PlacedThrough(old(conns), c2, old(dials), id); }
      return 0;
    }

    /** A new slot behind the others. */
    method Grow()
      requires Inside() && connCount < MAX_CONNECTIONS
      modifies this`conns, this`connCount
      ensures Inside() && connCount == old(connCount) + 1 && |old(conns)| == MAX_CONNECTIONS
      ensures conns == old(conns)[old(connCount) := EMPTY] && !old(conns)[old(connCount)].connected
    {
      ghost var w := W();
      CoreParts(w);
      GrownKeeps(w);
      hide Core, WritesOk, InstallsOk;
      conns := conns[connCount := EMPTY];
      connCount := connCount + 1;
      assert W() == Grown(w);
    }

    method AppendInstall(id: nat)
      requires Inside() && MayPlace(id) && NoPeer(conns, dials[id].cluster) && connCount < MAX_CONNECTIONS
      modifies this`conns, this`connCount, this`owner, this`writes, this`dials, this`installs
      ensures Inside() && Placed(old(conns), old(dials), id)
      ensures old(writes) <= writes
      ensures installs == old(installs) + [Install(old(dials)[id].cluster, old(Since(id)))]
      ensures old(Endpoints(W())) ==> Endpoints(W())
    {
      hide Core, WritesOk, InstallsOk;
      var idx := connCount;
      Grow();
      ghost var mid := conns;
      Interfere();
      assert NoPeer(conns, dials[id].cluster);
      SlotInstall(idx, id);
      ghost var d := old(dials)[id];
      assert PlacedAt(old(conns), conns, idx, Conn(d.cluster, d.addr, d.port, d.fd, true));
    }

    predicate EndpointCurrent(name: string, addr: string, port: int)
      reads this
    {
      var c := IndexOf(clusters, name);
      c < |clusters| && clusters[c] == Cluster(name, addr, port)
    }

    /** Any reclaimable slot, else a new one (gw_place_dialed_fd). */
    method PlaceDialedFd(id: nat) returns (rc: int)
      requires Inside() && MayPlace(id) && NoPeer(conns, dials[id].cluster)
      modifies this`conns, this`connCount, this`owner, this`writes, this`dials, this`installs
      ensures Inside() && (rc == 0 || rc == 1 || rc == -1)
      ensures old(writes) <= writes
      ensures rc == 0 ==> Placed(old(conns), old(dials), id)
      ensures rc == 0 ==> installs == old(installs) + [Install(old(dials)[id].cluster, old(Since(id)))]
      ensures rc != 0 ==> Faded(old(conns), conns) && dials == old(dials) && installs == old(installs)
      ensures old(Endpoints(W())) ==> Endpoints(W())
      ensures rc != 0 ==> rc == -1 && AllTaken(old(conns), old(connCount))
    {
      hide Core, WritesOk, InstallsOk, Placed, AtEndpoint, Endpoints;
      CoreParts(W());
      CoreEndpoint(W(), id);
      assert Faded(old(conns), conns);
      var d := dials[id];
      var i := 0;
      while i < connCount
        invariant old(writes) <= writes
        invariant Inside() && MayPlace(id) && Faded(old(conns), conns) && NoPeer(conns, d.cluster)
        invariant dials == old(dials) && installs == old(installs) && connCount == old(connCount)
        invariant Since(id) == old(Since(id)) && (old(Endpoints(W())) ==> Endpoints(W()))
        invariant 0 <= i <= connCount <= |conns| && forall k :: 0 <= k < i ==> old(conns)[k].connected
      {
        ghost var before := conns;
        rc := ClaimInstall(i, id);
        if rc == 0 {
          PlacedThrough(old(conns), before, old(dials), id);
          return;
        }
        FadedTrans(old(conns), before, conns);
        if rc == 1 { return; }
        i := i + 1;
      }
      ghost var before := conns;
      var live := HasLivePeer(d.cluster);
      FadedTrans(old(conns), before, conns);
      FadedEndpoints(old(W()), W());
      if live { return 1; }
      if EndpointCurrent(d.cluster, d.addr, d.port) && connCount < MAX_CONNECTIONS {
        before := conns;
        AppendInstall(id);
        PlacedThrough(old(conns), before, old(dials), id);
        return 0;
      }
      return -1;
    }

    // ---- the life of a dial ----

    /** The region after a dial has connected: 0 installed, 1 a live peer is kept, -1 given up. */
    method FinishDial(id: nat) returns (rc: int)
      requires Valid() && id in dials && dials[id].fd >= 0
      modifies this`conns, this`connCount, this`owner, this`writes, this`dials, this`installs
      ensures Valid() && (rc == 0 || rc == 1 || rc == -1)
      ensures old(writes) <= writes
      ensures rc == 0 ==> Placed(old(conns), old(dials), id) && old(Since(id)) % GENS == 0
      ensures rc == 0 ==> old(EndpointCurrent(dials[id].cluster, dials[id].addr, dials[id].port))
      ensures rc == 0 ==> installs == old(installs) + [Install(old(dials)[id].cluster, old(Since(id)))]
      ensures rc != 0 ==> Faded(old(conns), conns) && dials == old(dials) && installs == old(installs)
      ensures Later(old(conns), conns, old(installs), installs)
      ensures rc == 1 ==> !NoPeer(old(conns), old(dials)[id].cluster)
      ensures rc == -1 ==> old(Since(id)) % GENS != 0 ||
                           old(!EndpointCurrent(dials[id].cluster, dials[id].addr, dials[id].port)) ||
                           AllTaken(old(conns), old(connCount))
    {
      hide Core, WritesOk, InstallsOk, Placed, AtEndpoint, Endpoints, IndexOf, Later;
      CoreParts(W());
      CoreDial(W(), id);
      assert Faded(old(conns), conns);
      var d := dials[id];
      var c := IndexOf(clusters, d.cluster);
      if c == |clusters| || gens[c] != d.gen {
        OtherGen(cancels[c], seen[id]);
        FadedLater(old(conns), conns, installs);
        return -1;
      }
      SameGen(cancels[c], seen[id]);
      assert Fresh(id);
      var live := HasLivePeer(d.cluster);
      FadedEndpoints(old(W()), W());
      FadedLater(old(conns), conns, installs);
      if live { return 1; }
      if !EndpointCurrent(d.cluster, d.addr, d.port) { return -1; }
      assert MayPlace(id);
      ghost var before := conns;
      rc := -1;
      if d.slot >= 0 && d.slot < connCount { rc := ClaimInstall(d.slot, id); }
      FadedTrans(old(conns), before, if rc == 0 then before else conns);
      if rc == -1 {
        before := conns;
        rc := PlaceDialedFd(id);
        FadedTrans(old(conns), before, if rc == 0 then before else conns);
      }
      if rc == 0 {
        PlacedThrough(old(conns), before, old(dials), id);
        LaterPlaced(old(conns), old(dials), id, old(installs), old(Since(id)));
      } else {
        FadedLater(old(conns), conns, installs);
      }
    }

    lemma LaterPlaced(before: seq<Conn>, was: map<nat, Dial>, id: nat, x: seq<Install>, since: nat)
      requires id in was && Placed(before, was, id)
      ensures Later(before, conns, x, x + [Install(was[id].cluster, since)])
    {
      var d := was[id];
      var c := Conn(d.cluster, d.addr, d.port, d.fd, true);
      var slot :| PlacedAt(before, conns, slot, c);
      PlacedLater(before, conns, slot, c, x, since);
    }

    /** socket(): fails, or hands out any number that no open socket has. */
    method OpenSocket(id: nat, works: bool) returns (ok: bool)
      requires Valid() && id in dials && dials[id].fd < 0
      modifies this`dials, this`owner, this`peers
      ensures Valid() && id in dials && ok == works && (ok ==> dials[id].fd >= 0)
      ensures dials == old(dials)[id := old(dials)[id].(fd := dials[id].fd)]
      ensures !ok ==> dials[id].fd < 0
    {
      hide Core, WritesOk, InstallsOk, Endpoints;
      ghost var w := W();
      assert dials == dials[id := dials[id].(fd := dials[id].fd)];
      if !works { return false; }
      var fd: int := *;
      if fd < 0 || fd in owner { fd := Lowest(owner.Keys); }
      OpenedKeeps(w, id, fd);
      var d := dials[id];
      peers := peers[fd := Peer(d.cluster, d.addr, d.port)];
      owner := owner[fd := Dialer(id)];
      dials := dials[id := d.(fd := fd)];
      assert W() == Opened(w, id, fd);
      EndpointsFrame(w, W());
      return true;
    }

    /** A dial gives up its socket. */
    method CloseDialFd(id: nat)
      requires Valid() && id in dials && dials[id].fd >= 0
      modifies this`dials, this`owner
      ensures Valid() && dials == old(dials)[id := old(dials)[id].(fd := -1)]
      ensures owner == old(owner) - {old(dials)[id].fd}
    {
      hide Core, WritesOk, InstallsOk, Endpoints;
      ghost var w := W();
      DroppedKeeps(w, id);
      CoreDial(w, id);
      var fd := dials[id].fd;
      dials := dials[id := dials[id].(fd := -1)];
      Close(fd);
      assert W() == Dropped(w, id);
      EndpointsFrame(w, W());
    }

    /** The dialing flag is cleared and the thread returns (gw_cluster_dial_end). */
    method EndDial(id: nat)
      requires Valid() && id in dials && dials[id].fd < 0
      modifies this`dials, this`dialing
      ensures Valid() && dials == old(dials) - {id}
      ensures var c := IndexOf(clusters, old(dials)[id].cluster);
              c < |old(dialing)| && dialing == old(dialing)[c := false]
    {
      hide Core, WritesOk, InstallsOk, Endpoints, IndexOf;
      ghost var w := W();
      CoreDial(w, id);
      EndedKeeps(w, id);
      var c := IndexOf(clusters, dials[id].cluster);
      if c < |clusters| { dialing := dialing[c := false]; }
      dials := dials - {id};
      assert W() == w.(dials := w.dials - {id});
      EndpointsFrame(w, W());
    }

    /** Snapshot the endpoint and the cancel generation, and mark the cluster as dialing. */
    method BeginDial(c: nat, slot: int) returns (ok: bool, id: nat)
      requires Valid() && c < |clusters|
      modifies this`dials, this`seen, this`dialing, this`nextDial
      ensures Valid() && id !in old(dials) && c < |old(dialing)|
      ensures (ok <==> !old(dialing)[c]) && dialing == old(dialing)[c := true]
      ensures dials ==
              if ok then old(dials)[id := Dial(clusters[c].name, clusters[c].addr, clusters[c].port, gens[c], slot, -1)]
              else old(dials)
      ensures Keeps(old(dials), dials, old(seen), seen, {})
      ensures ok ==> id in seen && |cancels| == |clusters| && seen[id] == cancels[c]
    {
      hide Core, WritesOk, InstallsOk, IndexOf, Endpoints;
      id, ok := nextDial, false;
      CoreParts(W());
      NameIndex(W(), c);
      if !dialing[c] {
        dialing := dialing[c := true];
        EnterDial(c, Dial(clusters[c].name, clusters[c].addr, clusters[c].port, gens[c], slot, -1));
        ok := true;
      }
    }

    /** The dial joins the others, with the number of cancellations so far. */
    method EnterDial(c: nat, d: Dial)
      requires Valid() && c < |clusters| == |gens| == |cancels| && d.fd < 0
      requires IndexOf(clusters, d.cluster) == c && d.gen == gens[c]
      modifies this`dials, this`seen, this`nextDial
      ensures Valid() && old(nextDial) !in old(dials) && nextDial == old(nextDial) + 1
      ensures dials == old(dials)[old(nextDial) := d] && seen == old(seen)[old(nextDial) := cancels[c]]
    {
      hide Core, WritesOk, InstallsOk, IndexOf, Endpoints;
      ghost var w := W();
      BeganKeeps(w, nextDial, d);
      dials, seen, nextDial := dials[nextDial := d], seen[nextDial := cancels[c]], nextDial + 1;
      assert W() == Began(w, old(nextDial), d);
      EndpointsFrame(w, W());
    }

    /** The rescanning search of connect: a live peer, or a slot to reuse (-1 for none yet). */
    method SearchSlots(c: nat) returns (live: bool, slot: int)
      requires Valid() && c < |clusters|
      modifies this`conns, this`owner, this`writes
      ensures Valid() && Faded(old(conns), conns) && -1 <= slot < connCount
      ensures old(writes) <= writes
      ensures live ==> !NoPeer(old(conns), clusters[c].name)
    {
      hide Core, WritesOk, InstallsOk, Live, AtEndpoint, Endpoints;
      var name, addr, port := clusters[c].name, clusters[c].addr, clusters[c].port;
      assert Faded(old(conns), conns);
      var i: nat := 0;
      while i < connCount
        invariant old(writes) <= writes
        invariant Valid() && Faded(old(conns), conns)
        decreases Live(conns), connCount - i
      {
        ghost var start := conns;
        Interfere();
        FadedTrans(old(conns), start, conns);
        FadedLive(start, conns);
        FadedEndpoints(old(W()), W());
        CoreParts(W());
        var s := conns[i];
        if s.cluster != name {
          i := i + 1;
        } else if s.connected && s.fd >= 0 && s.port == port && s.addr == addr {
          ghost var found := conns;
          Interfere();
          FadedTrans(old(conns), found, conns);
          FadedLive(found, conns);
          FadedEndpoints(old(W()), W());
          CoreParts(W());
          var same := conns[i].cluster == name && conns[i].connected && conns[i].fd == s.fd;
          var alive: bool := *;
          if same && alive {
            assert !NoPeer(conns, name);
            return true, -1;
          }
          if same { Reclaim(i); }
          FadedTrans(old(conns), found, conns);
          FadedEndpoints(old(W()), W());
          FadedSlot(found, conns, i);
          i := 0;
        } else {
          ghost var found := conns;
          Reclaim(i);
          FadedTrans(old(conns), found, conns);
          FadedEndpoints(old(W()), W());
          return false, i;
        }
      }
      return false, -1;
    }

    /** With the table full: an empty slot, or one whose socket is dead. */
    method ReuseSlot() returns (slot: int)
      requires Valid()
      modifies this`conns, this`owner, this`writes
      ensures Valid() && Faded(old(conns), conns) && -1 <= slot < connCount
      ensures old(writes) <= writes
      ensures slot == -1 ==> forall i :: 0 <= i < connCount && i < |old(conns)| ==> old(conns)[i].connected
    {
      hide Core, WritesOk, InstallsOk, Live, AtEndpoint, Endpoints;
      CoreParts(W());
      assert Faded(old(conns), conns);
      slot := -1;
      var i: nat := 0;
      while i < connCount && slot < 0
        invariant old(writes) <= writes
        invariant Valid() && Faded(old(conns), conns) && -1 <= slot < connCount && i <= connCount <= |conns|
        invariant slot < 0 ==> forall k :: 0 <= k < i ==> old(conns)[k].connected
        decreases connCount - i
      {
        ghost var start := conns;
        Interfere();
        FadedTrans(old(conns), start, conns);
        FadedEndpoints(old(W()), W());
        CoreParts(W());
        if !conns[i].connected || conns[i].cluster == "" || conns[i].fd < 0 { slot := i; }
        i := i + 1;
      }
      i := 0;
      while slot < 0 && i < connCount
        invariant old(writes) <= writes
        invariant Valid() && Faded(old(conns), conns) && -1 <= slot < connCount <= |conns|
        invariant slot < 0 ==> forall k :: 0 <= k < connCount ==> old(conns)[k].connected
        decreases Live(conns), connCount - i, -slot
      {
        ghost var start := conns;
        Interfere();
        FadedTrans(old(conns), start, conns);
        FadedLive(start, conns);
        FadedEndpoints(old(W()), W());
        CoreParts(W());
        var s := conns[i];
        if !s.connected || s.fd < 0 { return i; }
        ghost var found := conns;
        Interfere();
        FadedTrans(old(conns), found, conns);
        FadedLive(found, conns);
        FadedEndpoints(old(W()), W());
        CoreParts(W());
        var same := conns[i].fd == s.fd;
        var alive: bool := *;
        if same && alive {
          i := i + 1;
        } else if same {
          Reclaim(i);
          FadedTrans(old(conns), found, conns);
          FadedEndpoints(old(W()), W());
          return i;
        } else {
          FadedSlot(found, conns, i);
          i := 0;
        }
      }
    }

    /** Where connect will dial into: a live peer makes it needless, a full table prevents it. */
    method ChooseSlot(c: nat) returns (live: bool, found: bool, slot: int)
      requires Valid() && c < |clusters|
      modifies this`conns, this`owner, this`writes
      ensures Valid() && Faded(old(conns), conns)
      ensures old(writes) <= writes
      ensures found ==> slot >= 0 || connCount < MAX_CONNECTIONS
      ensures live ==> !NoPeer(old(conns), clusters[c].name)
      ensures !live && !found ==> AllTaken(old(conns), connCount)
    {
      hide Core, WritesOk, InstallsOk, AtEndpoint, Endpoints;
      live, slot := SearchSlots(c);
      found := slot >= 0 || connCount < MAX_CONNECTIONS;
      if !live && !found {
        ghost var mid := conns;
        slot := ReuseSlot();
        FadedTrans(old(conns), mid, conns);
        found := slot >= 0;
      }
    }

    /** The locked first half of connect: 0 a live peer, 1 a dial has begun, -1 refused. */
    method ConnectLocked(name: string) returns (rc: int, id: nat)
      requires Valid()
      modifies this`conns, this`owner, this`writes, this`dials, this`seen, this`dialing, this`nextDial
      ensures Valid() && id !in old(dials) && (rc == 0 || rc == 1 || rc == -1)
      ensures old(writes) <= writes
      ensures Keeps(old(dials), dials, old(seen), seen, {}) && Faded(old(conns), conns)
      ensures rc == 1 ==> id in dials && dials[id].fd == -1 && dials[id].cluster == name && Since(id) == 0
      ensures rc == 1 ==> EndpointCurrent(name, dials[id].addr, dials[id].port) && id in seen
      ensures dials.Keys <= old(dials).Keys + {id} && (rc != 1 ==> dials == old(dials))
      ensures rc == 0 ==> !NoPeer(old(conns), name)
      ensures var c := IndexOf(clusters, name);
              rc == -1 ==> c == |clusters| || (c < |old(dialing)| && old(dialing)[c]) || AllTaken(old(conns), connCount)
    {
      CoreParts(W());
      hide Core, WritesOk, InstallsOk, AtEndpoint, Endpoints, IndexOf;
      rc, id := -1, nextDial;
      var c := IndexOf(clusters, name);
      if c < |clusters| {
        var live, found, slot := ChooseSlot(c);
        if live {
          rc := 0;
        } else if found {
          var ok;
          ok, id := BeginDial(c, slot);
          rc := if ok then 1 else -1;
        }
      }
    }

    // ---- add_remote and disconnect ----

    /** Count a cancellation of a cluster, perhaps with a new endpoint. */
    method Cancel(c: nat, addr: string, port: int)
      requires Inside() && c < |clusters|
      modifies this`clusters, this`gens, this`cancels, this`dialing
      ensures Inside() && clusters == old(clusters)[c := Cluster(old(clusters)[c].name, addr, port)]
      ensures |old(cancels)| == |old(clusters)| && cancels == old(cancels)[c := old(cancels)[c] + 1]
    {
      hide Core, WritesOk, InstallsOk;
      ghost var w := W();
      CoreParts(w);
      CancelledKeeps(w, c, addr, port);
      clusters := clusters[c := Cluster(clusters[c].name, addr, port)];
      gens := gens[c := (gens[c] + 1) % GENS];
      cancels := cancels[c := cancels[c] + 1];
      dialing := dialing[c := false];
      assert W() == Cancelled(w, c, addr, port);
    }

    /** Close every slot that carries a cluster's name. */
    method CloseMatching(name: string) returns (closed: bool)
      requires Inside()
      modifies this`conns, this`owner, this`writes
      ensures Inside() && Faded(old(conns), conns) && NoPeer(conns, name)
      ensures old(writes) <= writes
      ensures closed ==> name == "" || !NoPeer(old(conns), name)
    {
      CoreParts(W());
      hide Core, WritesOk, InstallsOk;
      closed := false;
      var i: nat := 0;
      while i < connCount
        invariant old(writes) <= writes
        invariant i <= connCount <= |conns| && Inside() && Faded(old(conns), conns)
        invariant forall k :: 0 <= k < i ==> !(conns[k].connected && conns[k].cluster == name)
        invariant closed ==> name == "" || !NoPeer(old(conns), name)
      {
        ghost var start := conns;
        Interfere();
        FadedTrans(old(conns), start, conns);
        CoreParts(W());
        if conns[i].cluster == name {
          ghost var found := conns;
          assert name == "" || !NoPeer(old(conns), name) by { NamedIsPeer(W(), i); }
          Reclaim(i);
          FadedTrans(old(conns), found, conns);
          closed := true;
        }
        i := i + 1;
      }
      forall k | 0 <= k < |conns| ensures !(conns[k].connected && conns[k].cluster == name) {
        CoreParts(W());
        SlotFd(W(), k);
      }
    }

    /** Register a cluster or move it to a new endpoint (gw_add_remote_impl). */
    method AddRemote(name: string, addr: string, port: int) returns (ok: bool)
      requires Valid()
      modifies this`clusters, this`gens, this`cancels, this`dialing, this`conns, this`owner, this`writes
      ensures Valid() && |old(cancels)| == |old(clusters)| <= |clusters| == |cancels|
      ensures old(writes) <= writes
      ensures ok <==> |name| < NAME_SIZE && |addr| < ADDR_SIZE && 0 < port <= 65535 &&
                      (IndexOf(old(clusters), name) < |old(clusters)| || |old(clusters)| < MAX_CLUSTERS)
      ensures !ok ==> clusters == old(clusters) && cancels == old(cancels) && conns == old(conns)
      ensures Faded(old(conns), conns) && (ok ==> Cluster(name, addr, port) in clusters)
      ensures ok && Cluster(name, addr, port) !in old(clusters) ==> NoPeer(conns, name)
      ensures ok && IndexOf(old(clusters), name) == |old(clusters)| ==>
                clusters == old(clusters) + [Cluster(name, addr, port)] && dialing == old(dialing) + [false]
      ensures forall c :: 0 <= c < |old(clusters)| ==> clusters[c].name == old(clusters)[c].name
      ensures forall c :: 0 <= c < |old(clusters)| ==>
                cancels[c] == old(cancels)[c] + if clusters[c] != old(clusters)[c] then 1 else 0
    {
      CoreParts(W());
      hide Core, WritesOk, InstallsOk, IndexOf;
      if |name| >= NAME_SIZE || |addr| >= ADDR_SIZE || port <= 0 || port > 65535 { return false; }
      var c := IndexOf(clusters, name);
      if c < |clusters| {
        if clusters[c].addr != addr || clusters[c].port != port {
          MoveCluster(c, addr, port);
        }
        assert clusters[c] == Cluster(name, addr, port);
        assert Cluster(name, addr, port) !in old(clusters) ==> NoPeer(conns, name);
        return true;
      }
      if |clusters| >= MAX_CLUSTERS { return false; }
      Register(Cluster(name, addr, port));
      return true;
    }

    method MoveCluster(c: nat, addr: string, port: int)
      requires Valid() && c < |clusters|
      modifies this`clusters, this`gens, this`cancels, this`dialing, this`conns, this`owner, this`writes
      ensures Valid() && clusters == old(clusters)[c := Cluster(old(clusters)[c].name, addr, port)]
      ensures old(writes) <= writes
      ensures |old(cancels)| == |old(clusters)| && cancels == old(cancels)[c := old(cancels)[c] + 1]
      ensures NoPeer(conns, clusters[c].name) && Faded(old(conns), conns)
    {
      CoreParts(W());
      var name := clusters[c].name;
      ghost var w := W();
      hide Core, WritesOk, InstallsOk;
      Cancel(c, addr, port);
      var closed := CloseMatching(name);
      forall i | 0 <= i < |conns| ensures AtEndpoint(clusters, conns[i]) {
        assert AtEndpoint(w.clusters, w.conns[i]);
        if conns[i].connected {
          OtherEntry(w.clusters, c, clusters[c], Cluster(conns[i].cluster, conns[i].addr, conns[i].port));
        }
      }
    }

    method Register(cl: Cluster)
      requires Valid() && |clusters| < MAX_CLUSTERS && IndexOf(clusters, cl.name) == |clusters|
      modifies this`clusters, this`gens, this`cancels, this`dialing
      ensures Valid() && clusters == old(clusters) + [cl] && cancels == old(cancels) + [0]
      ensures NoPeer(conns, cl.name) && dialing == old(dialing) + [false]
    {
      ghost var w := W();
      RegisteredKeeps(w, cl);
      CoreParts(w);
      hide Core, WritesOk, InstallsOk, IndexOf;
      forall i | 0 <= i < |conns| ensures !(conns[i].connected && conns[i].cluster == cl.name) {
        assert AtEndpoint(w.clusters, w.conns[i]);
      }
      clusters, gens, cancels, dialing := clusters + [cl], gens + [0], cancels + [0], dialing + [false];
      assert W() == Registered(w, cl);
    }

    /** Cancel dials, close every slot of the cluster, and shorten the table (gw_disconnect_impl). */
    method Disconnect(name: string) returns (ok: bool)
      requires Valid()
      modifies this`clusters, this`gens, this`cancels, this`dialing, this`conns, this`connCount, this`owner, this`writes
      ensures Valid() && NoPeer(conns, name) && clusters == old(clusters) && Faded(old(conns), conns)
      ensures old(writes) <= writes
      ensures |old(cancels)| == |clusters|
      ensures var c := IndexOf(clusters, name);
              cancels == if c < |clusters| then old(cancels)[c := old(cancels)[c] + 1] else old(cancels)
      ensures IndexOf(clusters, name) < |clusters| ==> ok
      ensures IndexOf(clusters, name) == |clusters| && name != "" ==> !ok
      ensures connCount == 0 || (connCount <= |conns| && conns[connCount - 1] != EMPTY)
    {
      CoreParts(W());
      hide Core, WritesOk, InstallsOk, IndexOf, AtEndpoint;
      var c := IndexOf(clusters, name);
      if c < |clusters| { Cancel(c, clusters[c].addr, clusters[c].port); }
      assert clusters == old(clusters);
      var closed := CloseMatching(name);
      ghost var cleared := conns;
      FadedEndpoints(old(W()), W());
      assert c == |clusters| ==> NoPeer(old(conns), name) by { UnknownHasNoPeer(old(W()), name); }
      ok := closed || c < |clusters|;
      Trim(name);
      FadedTrans(old(conns), cleared, conns);
    }

    /** Drop empty slots from the end of the table. */
    method Trim(ghost name: string)
      requires Valid() && NoPeer(conns, name)
      modifies this`conns, this`connCount, this`owner, this`writes
      ensures Valid() && NoPeer(conns, name) && Faded(old(conns), conns)
      ensures old(writes) <= writes
      ensures connCount == 0 || (connCount <= |conns| && conns[connCount - 1] != EMPTY)
    {
      hide Core, WritesOk, InstallsOk, AtEndpoint;
      assert Faded(old(conns), conns);
      CoreParts(W());
      while connCount > 0
        invariant old(writes) <= writes
        invariant Valid() && Faded(old(conns), conns) && connCount <= MAX_CONNECTIONS
        decreases connCount
      {
        ghost var start := conns;
        Interfere();
        FadedTrans(old(conns), start, conns);
        FadedEndpoints(old(W()), W());
        CoreParts(W());
        var last := conns[connCount - 1];
        if !(last.cluster == "" && !last.connected && last.fd < 0) { return; }
        ghost var w := W();
        ShrunkKeeps(w);
        connCount := connCount - 1;
        assert W() == w.(count := w.count - 1);
      }
    }

    // ---- whole runs ----

    /** One region of some thread, on anything but the dials to keep. */
    method AnyRegion(keep: set<nat>)
      requires Valid()
      modifies this
      ensures Valid() && KeptDials(old(dials), dials, old(seen), seen, keep) && Grew(old(W()), W())
      ensures Later(old(conns), conns, old(installs), installs)
      ensures old(writes) <= writes
    {
      hide Core, WritesOk, InstallsOk, AtEndpoint, Endpoints, Later, Faded;
      CoreParts(W());
      FadedLater(conns, conns, installs) by { FadedSelf(conns); }
      var choice: int, idx: nat := *, *;
      match choice {
        case 0 => ClusterRegion();
        case 1 => SlotRegion();
        case _ => if idx in dials && idx !in keep { DialRegion(idx); }
      }
    }

    /** Add_remote or disconnect, of some thread. */
    method ClusterRegion()
      requires Valid()
      modifies this`clusters, this`gens, this`cancels, this`dialing, this`conns, this`connCount, this`owner, this`writes
      ensures Valid() && Grew(old(W()), W()) && Later(old(conns), conns, old(installs), installs)
      ensures old(writes) <= writes
    {
      hide Core, WritesOk, InstallsOk, AtEndpoint, Endpoints, IndexOf, NoPeer;
      CoreParts(W());
      var adds: bool, name: string, addr: string, port: int := *, *, *, *;
      if adds {
        var ok := AddRemote(name, addr, port);
      } else {
        var ok := Disconnect(name);
      }
      FadedLater(old(conns), conns, installs);
    }

    /** The locked half of connect, or one write, of some thread. */
    method SlotRegion()
      requires Valid()
      modifies this`conns, this`owner, this`writes, this`dials, this`seen, this`dialing, this`nextDial
      ensures Valid() && Keeps(old(dials), dials, old(seen), seen, {})
      ensures Later(old(conns), conns, old(installs), installs)
      ensures old(writes) <= writes
    {
      hide Core, WritesOk, InstallsOk, AtEndpoint, Endpoints, IndexOf, Faded, NoPeer, Since, EndpointCurrent;
      var connects: bool, name: string, idx: nat, fd: int := *, *, *, *;
      if connects {
        var rc, id := ConnectLocked(name);
      } else if idx < MAX_CONNECTIONS {
        var r := WriteOne(idx, fd, name);
        FadedEndpoints(old(W()), W());
      } else {
        assert Faded(old(conns), conns) by { FadedSelf(conns); }
      }
      FadedLater(old(conns), conns, installs);
    }

    /** One step of another thread's dial. */
    method DialRegion(id: nat)
      requires Valid() && id in dials
      modifies this`conns, this`connCount, this`owner, this`writes, this`dials, this`dialing, this`installs, this`peers
      ensures Valid() && Keeps(old(dials), dials, old(seen), seen, {id})
      ensures Later(old(conns), conns, old(installs), installs)
      ensures old(writes) <= writes
    {
      hide Core, WritesOk, InstallsOk, AtEndpoint, Endpoints, IndexOf, Faded, NoPeer, Since, EndpointCurrent, Later;
      FadedLater(conns, conns, installs) by { FadedSelf(conns); }
      var giveUp: bool, works: bool := *, *;
      if dials[id].fd < 0 {
        if giveUp { EndDial(id); } else { var ok := OpenSocket(id, works); }
      } else {
        if giveUp { CloseDialFd(id); } else { var rc := FinishDial(id); }
      }
    }

    /** Anything other threads may do while this one holds no lock. */
    method Environment(keep: set<nat>)
      requires Valid()
      modifies this
      ensures Valid() && KeptDials(old(dials), dials, old(seen), seen, keep) && Grew(old(W()), W())
      ensures Later(old(conns), conns, old(installs), installs)
      ensures old(writes) <= writes
    {
      CoreParts(W());
      hide Core, WritesOk, InstallsOk, AtEndpoint, Endpoints;
      hide Later, Faded;
      var n: nat := *;
      assert Grew(old(W()), W());
      FadedLater(conns, conns, installs) by { FadedSelf(conns); }
      while n > 0
        invariant old(writes) <= writes && Later(old(conns), conns, old(installs), installs)
        invariant Valid() && KeptDials(old(dials), dials, old(seen), seen, keep) && Grew(old(W()), W())
      {
        ghost var w, x := W(), installs;
        AnyRegion(keep);
        GrewTrans(old(W()), w, W());
        LaterTrans(old(conns), w.conns, conns, old(installs), x, installs);
        n := n - 1;
      }
    }

    /**
     * A dial that had begun before a disconnect of its cluster, or before a change of its
     * endpoint, does not install, whether or not it had its socket by then and whatever
     * happens in between: the one exception is that the 32-bit generation has gone all the
     * way round.
     */
    method CancelledDial(id: nat, move: bool, addr: string, port: int) returns (rc: int)
      requires Valid() && id in dials
      requires move ==> |addr| < ADDR_SIZE && 0 < port <= 65535 && |dials[id].cluster| < NAME_SIZE
      requires move ==> Cluster(dials[id].cluster, addr, port) !in clusters
      modifies this
      ensures Valid() && id in dials && id in seen
      ensures old(writes) <= writes
      ensures rc == 0 ==> Since(id) >= GENS
    {
      hide Core, WritesOk, InstallsOk, AtEndpoint, Endpoints, Faded, NoPeer, EndpointCurrent, IndexOf;
      CancelNow(id, move, addr, port);
      LaterStillBehind(id);
      if dials[id].fd < 0 { SocketStillBehind(id); }
      rc := -1;
      if dials[id].fd >= 0 { rc := FinishBehind(id); }
    }

    /** A cancelled dial that finishes after all. */
    method FinishBehind(id: nat) returns (rc: int)
      requires Valid() && Behind(W(), id) && id in dials && dials[id].fd >= 0
      modifies this
      ensures Valid() && id in dials && id in seen
      ensures old(writes) <= writes
      ensures rc == 0 ==> Since(id) >= GENS
    {
      hide Core, WritesOk, InstallsOk, AtEndpoint, Endpoints, Faded, NoPeer, EndpointCurrent, IndexOf;
      ghost var since := Since(id);
      assert since > 0;
      rc := FinishDial(id);
      assert Since(id) == since;
    }

    /** A cancelled dial may still get its socket. */
    method SocketStillBehind(id: nat)
      requires Valid() && Behind(W(), id) && id in dials && dials[id].fd < 0
      modifies this
      ensures Valid() && Behind(W(), id) && id in dials
      ensures old(writes) <= writes
    {
      hide Core, WritesOk, InstallsOk, AtEndpoint, Endpoints, IndexOf;
      ghost var w := W();
      var works: bool := *;
      var ok := OpenSocket(id, works);
      StillBehind(w, W(), id);
      LaterStillBehind(id);
    }

    /** Time for other threads does not undo a cancellation. */
    method LaterStillBehind(id: nat)
      requires Valid() && Behind(W(), id)
      modifies this
      ensures Valid() && Behind(W(), id) && id in dials && id in old(dials) && dials[id] == old(dials)[id]
      ensures old(writes) <= writes
    {
      hide Core, WritesOk, InstallsOk, AtEndpoint, Endpoints, IndexOf;
      ghost var w := W();
      Environment({id});
      StillCancelled(w, W(), id);
    }

    /**
     * And the exception is real: in a gateway with one cluster, a dial whose cluster has been
     * disconnected 2^32 times since it began still installs.
     */
    method WrappedDial(id: nat) returns (rc: int)
      requires Valid() && |clusters| == 1 && id in dials && dials[id].fd >= 0 && Since(id) == 0
      requires EndpointCurrent(dials[id].cluster, dials[id].addr, dials[id].port)
      modifies this
      ensures Valid() && rc == 0 && id in dials && dials[id].cluster == old(dials)[id].cluster
      ensures old(writes) <= writes
      ensures Since(id) == GENS && !NoPeer(conns, dials[id].cluster)
    {
      hide Core, WritesOk, InstallsOk, AtEndpoint, Endpoints, NoPeer, Placed, IndexOf, Faded;
      CoreDial(W(), id);
      var name := dials[id].cluster;
      ghost var was := cancels[0];
      SoleCluster(clusters, name);
      var n: nat := 0;
      while n < GENS
        invariant old(writes) <= writes
        invariant Valid() && clusters == old(clusters) && dials == old(dials) && seen == old(seen) && n <= GENS
        invariant |cancels| == 1 && cancels[0] == was + n && (n > 0 ==> NoPeer(conns, name))
      {
        var ok := Disconnect(name);
        n := n + 1;
      }
      NobodyElse(W(), name);
      ghost var before, dialled := conns, dials;
      rc := FinishDial(id);
      PlacedIsLive(before, dialled, id);
    }

    /** Either way of cancelling a dial. */
    method CancelNow(id: nat, move: bool, addr: string, port: int)
      requires Valid() && id in dials
      requires move ==> |addr| < ADDR_SIZE && 0 < port <= 65535 && |dials[id].cluster| < NAME_SIZE
      requires move ==> Cluster(dials[id].cluster, addr, port) !in clusters
      modifies this
      ensures Valid() && dials == old(dials) && seen == old(seen)
      ensures old(writes) <= writes
      ensures Behind(W(), id)
    {
      CoreDial(W(), id);
      hide Core, WritesOk, InstallsOk, AtEndpoint, Endpoints, Faded, NoPeer, IndexOf;
      ghost var w := W();
      ghost var c := IndexOf(clusters, dials[id].cluster);
      if move {
        var ok := AddRemote(dials[id].cluster, addr, port);
        DistinctNames(W());
        MovedEntry(w.clusters, clusters, c, dials[id].cluster, addr, port);
      } else {
        var ok := Disconnect(dials[id].cluster);
      }
      CoreDial(W(), id);
      NameIndex(W(), c);
    }

    /** The finish of a dial, with the slots as they were when it was decided. */
    method FinishAndShow(id: nat) returns (rc: int, ghost slots: seq<Conn>)
      requires Valid() && id in dials && dials[id].fd >= 0
      modifies this`conns, this`connCount, this`owner, this`writes, this`dials, this`installs
      ensures Valid() && (rc == 0 || rc == 1 || rc == -1) && old(writes) <= writes
      ensures Grew(old(W()), W()) && Later(old(conns), conns, old(installs), installs)
      ensures id in dials && dials[id] == old(dials)[id].(fd := dials[id].fd)
      ensures rc != -1 ==> !NoPeer(slots, old(dials)[id].cluster)
      ensures rc == -1 ==> Blocked(old(W()), id)
    {
      CoreParts(W());
      CoreDial(W(), id);
      hide Core, WritesOk, InstallsOk, AtEndpoint, Endpoints, Faded, NoPeer, Placed, Later, AllTaken, IndexOf;
      slots := conns;
      rc := FinishDial(id);
      if rc == 0 {
        slots := conns;
        PlacedIsLive(old(conns), old(dials), id);
      }
    }

    /**
     * The unlocked part of connect (gw_unlocked_dial_install): the socket ends closed or in a
     * slot, and 0 means that a slot of the cluster was connected when it was decided, when the
     * slots were `slots`. `works` and `reaches` are the system's answers: whether a socket is
     * to be had, and whether the peer takes the connection. The dial began in state `w`.
     */
    method UnlockedDialInstall(id: nat, works: bool, reaches: bool, ghost w: World, ghost x: seq<Install>)
      returns (rc: int, ghost slots: seq<Conn>)
      requires Valid() && id in dials && dials[id].fd == -1
      requires Core(w) && Underway(w, x, W(), installs, id)
      modifies this
      ensures Valid() && (rc == 0 || rc == -1) && id !in dials
      ensures old(writes) <= writes
      ensures rc == 0 ==> !NoPeer(slots, old(dials)[id].cluster)
      ensures rc == -1 && works && reaches ==> Hindered(w, cancels, old(dials)[id].cluster, x, installs)
    {
      hide Core, WritesOk, InstallsOk, AtEndpoint, Endpoints, Faded, Since, EndpointCurrent, NoPeer, Placed;
      hide Later, Grew, AllTaken, IndexOf, Hindered, Underway, Blocked;
      var gotSocket := OpenSocket(id, works);
      UnderwaySame(w, x, old(W()), W(), installs, id);
      rc := -1;
      slots := conns;
      if gotSocket { rc, slots := DialAndFinish(id, reaches, w, x); }
      StillHindered(id, rc == -1 && works && reaches, w, old(dials)[id].cluster, x);
      EndDial(id);
    }

    /** Other threads leave a dial that is under way under way. */
    method StillUnderway(id: nat, ghost w: World, ghost x: seq<Install>)
      requires Valid() && id in dials && Underway(w, x, W(), installs, id)
      modifies this
      ensures Valid() && id in dials && dials[id] == old(dials)[id] && old(writes) <= writes
      ensures Underway(w, x, W(), installs, id)
    {
      assert id in seen;
      hide Core, WritesOk, InstallsOk, AtEndpoint, Endpoints, Later, Grew, IndexOf, Underway;
      Environment({id});
      UnderwayStep(w, x, old(W()), old(installs), W(), installs, id);
    }

    /** And what has hindered it stays so. */
    method StillHindered(id: nat, ghost hindered: bool, ghost w: World, ghost name: string, ghost x: seq<Install>)
      requires Valid() && id in dials && (hindered ==> Hindered(w, cancels, name, x, installs))
      modifies this
      ensures Valid() && id in dials && dials[id] == old(dials)[id] && old(writes) <= writes
      ensures hindered ==> Hindered(w, cancels, name, x, installs)
    {
      hide Core, WritesOk, InstallsOk, AtEndpoint, Endpoints, Later, Grew, IndexOf, Hindered;
      Environment({id});
      LaterPrefix(old(conns), conns, old(installs), installs);
      if hindered { HinderedOn(w, old(W()), W(), name, x, old(installs), installs); }
    }

    /** With a socket: connect, finish and close the socket unless it was placed. */
    method DialAndFinish(id: nat, reaches: bool, ghost w: World, ghost x: seq<Install>)
      returns (rc: int, ghost slots: seq<Conn>)
      requires Valid() && id in dials && dials[id].fd >= 0
      requires Core(w) && Underway(w, x, W(), installs, id)
      modifies this
      ensures Valid() && (rc == 0 || rc == -1) && id in dials && dials[id].fd < 0
      ensures dials[id].cluster == old(dials)[id].cluster
      ensures old(writes) <= writes
      ensures rc == 0 ==> !NoPeer(slots, old(dials)[id].cluster)
      ensures rc == -1 && reaches ==> Hindered(w, cancels, old(dials)[id].cluster, x, installs)
    {
      hide Core, WritesOk, InstallsOk, AtEndpoint, Endpoints, NoPeer, Later, Grew, IndexOf, Hindered, Underway, Blocked;
      StillUnderway(id, w, x);
      rc := -1;
      slots := conns;
      if reaches {
        ghost var u, y := W(), installs;
        rc, slots := FinishAndShow(id);
        if rc == -1 {
          UnderwayBlocked(w, x, u, y, id);
          LaterPrefix(u.conns, conns, y, installs);
          HinderedOn(w, u, W(), old(dials)[id].cluster, x, y, installs);
        }
      }
      StillHindered(id, rc == -1 && reaches, w, old(dials)[id].cluster, x);
      if dials[id].fd >= 0 { CloseDialFd(id); }
      rc := if rc == 1 then 0 else rc;
    }

    lemma PlacedIsLive(before: seq<Conn>, was: map<nat, Dial>, id: nat)
      requires id in was && Placed(before, was, id)
      ensures !NoPeer(conns, was[id].cluster) && dials == was[id := was[id].(fd := -1)]
    {
    }

    /**
     * cmq_gateway_connect_remote, with other threads at work all along: 0 means that a slot
     * of the cluster was connected at some moment of the call, when the slots were `slots`.
     * With a socket to be had and a peer that takes the connection, it is -1 only for an
     * unknown cluster, one that is being dialed already, a full table, or because another
     * thread installed a socket or cancelled the cluster during the call.
     */
    method ConnectRemote(name: string, works: bool, reaches: bool) returns (rc: int, ghost slots: seq<Conn>)
      requires Valid()
      modifies this
      ensures Valid() && (rc == 0 || rc == -1)
      ensures old(writes) <= writes
      ensures rc == 0 ==> !NoPeer(slots, name)
      ensures var c := IndexOf(old(clusters), name);
              rc == -1 && works && reaches ==>
                c == |old(clusters)| || (c < |old(dialing)| && old(dialing)[c]) ||
                Hindered(old(W()), cancels, name, old(installs), installs)
    {
      hide Core, WritesOk, InstallsOk, AtEndpoint, Endpoints, Since, NoPeer, Later, Underway, IndexOf;
      slots := conns;
      var first, id := ConnectLocked(name);
      rc := first;
      if first == 1 {
        UnderwayBegun(id, old(W()));
        StillUnderway(id, old(W()), old(installs));
        rc, slots := UnlockedDialInstall(id, works, reaches, old(W()), old(installs));
      }
    }

    lemma UnderwayBegun(id: nat, w: World)
      requires Core(W()) && Core(w) && Faded(w.conns, conns) && clusters == w.clusters && cancels == w.cancels
      requires id in dials && id in seen && Since(id) == 0
      requires EndpointCurrent(dials[id].cluster, dials[id].addr, dials[id].port)
      ensures Underway(w, installs, W(), installs, id)
    {
      CoreDial(W(), id);
      hide Core, IndexOf;
      FadedLater(w.conns, conns, installs);
    }

    /** The slots to write to, as (slot, socket, cluster); `all` for a broadcast. */
    method Snapshot(all: bool, target: string) returns (snap: seq<(nat, int, string)>)
      requires Valid()
      modifies this`conns, this`owner, this`writes
      ensures Valid() && |snap| <= MAX_CONNECTIONS
      ensures old(writes) <= writes
      ensures forall k :: 0 <= k < |snap| ==> snap[k].0 < MAX_CONNECTIONS && (all || snap[k].2 == target)
      ensures forall k :: 0 <= k < |snap| ==> !NoPeer(old(conns), snap[k].2)
      ensures forall j, k :: 0 <= j < k < |snap| ==> snap[j].2 != snap[k].2
      ensures forall i :: 0 <= i < |conns| && conns[i].connected && (all || conns[i].cluster == target) ==>
              (i, conns[i].fd, conns[i].cluster) in snap
      ensures Faded(old(conns), conns) && |snap| <= |Live(old(conns))| && (all ==> |Live(conns)| <= |snap|)
    {
      hide Core, WritesOk, InstallsOk, AtEndpoint, Endpoints;
      assert Faded(old(conns), conns);
      CoreParts(W());
      snap := [];
      var i: nat := 0;
      while i < connCount
        invariant old(writes) <= writes
        invariant i <= connCount <= MAX_CONNECTIONS && |snap| <= i && Valid() && Faded(old(conns), conns)
        invariant |conns| == MAX_CONNECTIONS
        invariant forall k :: 0 <= k < |snap| ==>
          snap[k].0 < i && (all || snap[k].2 == target) &&
          old(conns)[snap[k].0].connected && old(conns)[snap[k].0].cluster == snap[k].2
        invariant forall j, k :: 0 <= j < k < |snap| ==> snap[j].0 < snap[k].0
        invariant forall k :: 0 <= k < i && conns[k].connected && (all || conns[k].cluster == target) ==>
                  (k, conns[k].fd, conns[k].cluster) in snap
      {
        ghost var start := conns;
        Interfere();
        FadedTrans(old(conns), start, conns);
        FadedEndpoints(old(W()), W());
        CoreParts(W());
        var s := conns[i];
        if (all || s.cluster == target) && s.connected && s.fd >= 0 {
          snap := snap + [(i, s.fd, s.cluster)];
        }
        SlotFd(W(), i);
        i := i + 1;
      }
      forall k | 0 <= k < |conns| && conns[k].connected ensures k < i { SlotFd(W(), k); }
      OnePerCluster(old(W()), snap);
      SnapCount(old(conns), conns, snap, all);
    }

    /** One peer's turn: other threads, then a write if its slot is still the one snapshotted. */
    method WriteTurn(idx: nat, fd: int, cluster: string) returns (r: Outcome, ghost more: seq<Write>)
      requires Valid() && idx < MAX_CONNECTIONS
      modifies this
      ensures Valid() && old(writes) <= writes && Later(old(conns), conns, old(installs), installs)
      ensures |more| <= 1 && |old(writes)| + |more| <= |writes| && more <= writes[|writes| - |more|..]
      ensures more == [] ==> r == Deferred
      ensures more != [] ==> more[0].target == cluster && more[0].outcome == r && WritesOk(more)
      ensures Hit(conns, idx, fd, cluster) ==> Reached(more, cluster)
    {
      hide Core, InstallsOk, AtEndpoint, Endpoints, KeptDials, Grew, Later;
      Environment({});
      ghost var w, before := W(), writes;
      r := WriteOne(idx, fd, cluster);
      FadedEndpoints(w, W());
      FadedLater(w.conns, conns, installs);
      LaterTrans(old(conns), w.conns, conns, old(installs), installs, installs);
      more := writes[|before|..];
      assert Hit(conns, idx, fd, cluster) ==> more[0].target == cluster;
    }

    /**
     * Write to each of them in turn; a peer that has gone counts as deferred. `wrote` is what
     * was written: no cluster twice, to its own socket each time, and none left out whose
     * slot is at the end as it was snapshotted, unless a new socket was installed for it.
     */
    method WriteAll(snap: seq<(nat, int, string)>) returns (sent: nat, deferred: nat, ghost wrote: seq<Write>)
      requires Valid() && forall k :: 0 <= k < |snap| ==> snap[k].0 < MAX_CONNECTIONS
      requires forall j, k :: 0 <= j < k < |snap| ==> snap[j].2 != snap[k].2
      modifies this
      ensures Valid() && sent + deferred == |snap| && sent == Whole(wrote) && |wrote| <= |snap| && EachOnce(wrote)
      ensures old(writes) <= writes && Later(old(conns), conns, old(installs), installs)
      ensures forall x :: x in wrote ==> x in writes[|old(writes)|..]
      ensures forall x :: x in wrote ==> exists k :: 0 <= k < |snap| && x.target == snap[k].2
      ensures Covered(snap, |snap|, old(installs), installs, conns, wrote)
    {
      hide Core, InstallsOk, AtEndpoint, Endpoints, Faded, Later, Whole, NoneOf, Hit, Reached, Covered;
      sent, deferred, wrote := 0, 0, [];
      NoneWritten();
      FadedLater(conns, conns, installs) by { FadedSelf(conns); }
      CoveredNone(snap, installs, conns);
      var j: nat := 0;
      while j < |snap|
        invariant old(writes) <= writes && Later(old(conns), conns, old(installs), installs)
        invariant j <= |snap| && old(installs) <= installs && Covered(snap, j, old(installs), installs, conns, wrote)
        invariant Valid() && sent + deferred == j && sent == Whole(wrote) && |wrote| <= j
        invariant EachOnce(wrote) && forall x :: x in wrote ==> x in writes[|old(writes)|..]
        invariant forall x :: x in wrote ==> exists k :: 0 <= k < j && x.target == snap[k].2
      {
        ghost var c0, x0, w0, done := conns, installs, writes, wrote;
        var r;
        ghost var more;
        r, more := WriteTurn(snap[j].0, snap[j].1, snap[j].2);
        LaterPrefix(c0, conns, x0, installs);
        LaterTrans(old(conns), c0, conns, old(installs), x0, installs);
        CoveredStep(snap, j, old(installs), x0, installs, c0, conns, done, more);
        WholeOne(done, more);
        InLater(old(writes), w0, writes, done, more);
        wrote := done + more;
        if r == Sent { sent := sent + 1; } else { deferred := deferred + 1; }
        j := j + 1;
      }
    }

    /**
     * cmq_gateway_forward: at most one peer, sent to or counted as deferred, and written to if
     * it is connected when the call returns and was not connected anew during the call.
     */
    method Forward(target: string, len: nat) returns (n: nat, sent: nat, deferred: nat, ghost wrote: seq<Write>)
      requires Valid()
      modifies this
      ensures Valid() && sent + deferred == n <= 1 && sent == Whole(wrote) && |wrote| <= n && EachOnce(wrote)
      ensures old(writes) <= writes && forall x :: x in wrote ==> x.target == target && x in writes[|old(writes)|..]
      ensures len == 0 || NoPeer(old(conns), target) ==> n == 0
      ensures len > 0 && !NoPeer(conns, target) && NoneOf(old(installs), installs, target) ==>
                n == 1 && |wrote| == 1
    {
      hide Core, WritesOk, InstallsOk, AtEndpoint, Endpoints, EachOnce, Whole, Covered, Later, NoneOf, Faded;
      n, sent, deferred, wrote := 0, 0, 0, [];
      NoneWritten();
      if len > 0 {
        var snap := Snapshot(false, target);
        ghost var mid := conns;
        OneTarget(snap, target);
        n := |snap|;
        assert n > 0 ==> snap[0].2 == target && !NoPeer(old(conns), snap[0].2);
        sent, deferred, wrote := WriteAll(snap);
        CoreParts(W());
        if !NoPeer(conns, target) && NoneOf(old(installs), installs, target) {
          StillCovered(snap, old(installs), installs, mid, conns, wrote, target);
        }
      }
    }

    /**
     * cmq_gateway_broadcast: no cluster is written to twice, and every cluster that is
     * connected at the end and was not connected anew during the call is written to.
     */
    method Broadcast(len: nat) returns (n: nat, sent: nat, deferred: nat, ghost wrote: seq<Write>)
      requires Valid()
      modifies this
      ensures Valid() && sent + deferred == n <= |Live(old(conns))| && sent == Whole(wrote) && |wrote| <= n
      ensures old(writes) <= writes && EachOnce(wrote)
      ensures forall x :: x in wrote ==> !NoPeer(old(conns), x.target) && x in writes[|old(writes)|..]
      ensures len == 0 ==> n == 0
      ensures forall name :: len > 0 && !NoPeer(conns, name) && NoneOf(old(installs), installs, name) ==>
                Reached(wrote, name)
    {
      hide Core, WritesOk, InstallsOk, AtEndpoint, Endpoints, EachOnce, Whole, Covered, Later, NoneOf, Faded, Live;
      n, sent, deferred, wrote := 0, 0, 0, [];
      NoneWritten();
      if len > 0 {
        var snap := Snapshot(true, "");
        ghost var mid := conns;
        n := |snap|;
        sent, deferred, wrote := WriteAll(snap);
        CoreParts(W());
        forall name | !NoPeer(conns, name) && NoneOf(old(installs), installs, name) ensures Reached(wrote, name) {
          StillCovered(snap, old(installs), installs, mid, conns, wrote, name);
        }
      }
    }

    /** After any run: what a slot says of its socket is true, and of the registered endpoint. */
    method AnyRun()
      requires Valid()
      modifies this
      ensures Valid()
      ensures old(writes) <= writes
      ensures forall i :: 0 <= i < |conns| && conns[i].connected ==>
                conns[i].fd in peers && peers[conns[i].fd] == Peer(conns[i].cluster, conns[i].addr, conns[i].port) &&
                Cluster(conns[i].cluster, conns[i].addr, conns[i].port) in clusters
      ensures AtMostOne(conns) && WritesOk(writes) && InstallsOk(installs)
    {
      hide WritesOk, InstallsOk;
      Environment({});
      forall i | 0 <= i < |conns| && conns[i].connected
        ensures conns[i].fd in peers && peers[conns[i].fd] == Peer(conns[i].cluster, conns[i].addr, conns[i].port)
        ensures Cluster(conns[i].cluster, conns[i].addr, conns[i].port) in clusters
      {
        assert SlotOk(W(), i) && AtEndpoint(clusters, conns[i]);
      }
    }
  }

  /**
   * From the start: a cluster is registered, and a dial to it begins and gets its socket; it
   * installs although its cluster has been disconnected since.
   */
  method WrappedRun(name: string, addr: string, port: int) returns (gw: CmqGateway, id: nat, rc: int)
    requires |name| < NAME_SIZE && |addr| < ADDR_SIZE && 0 < port <= 65535
    ensures gw.Valid() && id in gw.dials && gw.dials[id].cluster == name
    ensures rc == 0 && gw.Since(id) == GENS && !NoPeer(gw.conns, name)
  {
    hide Core, WritesOk, InstallsOk, AtEndpoint, Endpoints, NoPeer;
    gw := new CmqGateway();
    var ok := gw.AddRemote(name, addr, port);
    assert gw.clusters == [Cluster(name, addr, port)] && gw.dialing == [false];
    NobodyElse(gw.W(), name);
    rc, id := gw.ConnectLocked(name);
    assert rc == 1;
    var opens := gw.OpenSocket(id, true);
    rc := gw.WrappedDial(id);
  }

  ghost predicate PlacedAt(a: seq<Conn>, b: seq<Conn>, slot: nat, c: Conn) {
    && |a| == |b| && slot < |b| && b[slot] == c
    && forall i :: 0 <= i < |a| && i != slot ==> b[i] == a[i] || (a[i].connected && b[i] == EMPTY)
  }

  lemma NameIndex(w: World, c: nat)
    requires Core(w) && c < |w.clusters|
    ensures IndexOf(w.clusters, w.clusters[c].name) == c
  {
  }

  lemma OtherEntry(cs: seq<Cluster>, c: nat, moved: Cluster, x: Cluster)
    requires c < |cs| && x in cs && x.name != cs[c].name
    ensures x in cs[c := moved]
  {
    var i :| 0 <= i < |cs| && cs[i] == x;
    assert cs[c := moved][i] == x;
  }

  lemma NamedIsPeer(w: World, i: nat)
    requires Core(w) && i < |w.conns|
    ensures w.conns[i].cluster == "" || w.conns[i].connected
  {
    assert SlotOk(w, i);
  }

  lemma UnknownHasNoPeer(w: World, name: string)
    requires Endpoints(w)
    ensures IndexOf(w.clusters, name) == |w.clusters| ==> NoPeer(w.conns, name)
  {
    if IndexOf(w.clusters, name) == |w.clusters| {
      forall i | 0 <= i < |w.conns| ensures !(w.conns[i].connected && w.conns[i].cluster == name) {
        assert AtEndpoint(w.clusters, w.conns[i]);
      }
    }
  }

  lemma EndpointsFrame(w: World, u: World)
    requires u.conns == w.conns && u.clusters == w.clusters
    ensures Endpoints(u) == Endpoints(w)
  {
  }

  /** There is no slot to take: all of them are in use. */
  ghost predicate AllTaken(conns: seq<Conn>, count: nat) {
    count >= MAX_CONNECTIONS && forall i :: 0 <= i < |conns| && i < count ==> conns[i].connected
  }

  lemma SoleCluster(cs: seq<Cluster>, name: string)
    requires |cs| == 1 && IndexOf(cs, name) < |cs|
    ensures IndexOf(cs, name) == 0 && cs[0].name == name
  {
  }

  /** With one cluster and none of its slots connected, no slot is. */
  lemma NobodyElse(w: World, name: string)
    requires Core(w) && Endpoints(w) && |w.clusters| == 1 && w.clusters[0].name == name && NoPeer(w.conns, name)
    ensures !AllTaken(w.conns, w.count)
  {
    assert !w.conns[0].connected by { assert AtEndpoint(w.clusters, w.conns[0]); }
  }

  lemma CoreEndpoint(w: World, id: nat)
    requires Core(w) && id in w.dials && Cluster(w.dials[id].cluster, w.dials[id].addr, w.dials[id].port) in w.clusters
    ensures var c := IndexOf(w.clusters, w.dials[id].cluster);
            c < |w.clusters| && w.clusters[c] == Cluster(w.dials[id].cluster, w.dials[id].addr, w.dials[id].port)
  {
    var d := w.dials[id];
    var k :| 0 <= k < |w.clusters| && w.clusters[k] == Cluster(d.cluster, d.addr, d.port);
    NameIndex(w, k);
  }

  /** Every dial but these is as it was. */
  ghost predicate Keeps(a: map<nat, Dial>, b: map<nat, Dial>, s: map<nat, nat>, t: map<nat, nat>, except: set<nat>) {
    forall k :: k in a && k !in except ==> k in b && b[k] == a[k] && (k in s ==> k in t && t[k] == s[k])
  }

  lemma CoreDial(w: World, id: nat)
    requires Core(w) && id in w.dials
    ensures |w.cancels| == |w.clusters| && DialOk(w, id)
    ensures |w.gens| == |w.clusters| && forall c :: 0 <= c < |w.clusters| ==> w.gens[c] == w.cancels[c] % GENS
  {
  }

  ghost predicate KeptDials(a: map<nat, Dial>, b: map<nat, Dial>, s: map<nat, nat>, t: map<nat, nat>, keep: set<nat>) {
    forall k :: k in keep && k in a ==> k in b && b[k] == a[k] && (k in s ==> k in t && t[k] == s[k])
  }

  /** Clusters are only ever added, cancellations only ever counted up, and every move is one. */
  ghost predicate Grew(w: World, u: World) {
    && |w.clusters| <= |u.clusters| && |w.cancels| == |w.clusters| && |u.cancels| == |u.clusters|
    && forall c :: 0 <= c < |w.clusters| ==>
         u.clusters[c].name == w.clusters[c].name && w.cancels[c] <= u.cancels[c] &&
         (u.clusters[c] != w.clusters[c] ==> w.cancels[c] < u.cancels[c])
  }

  lemma GrewTrans(w: World, u: World, v: World)
    requires Grew(w, u) && Grew(u, v)
    ensures Grew(w, v)
  {
  }

  /** A dial that began in w, and what has become of the gateway since: other threads have been at work. */
  ghost predicate Underway(w: World, x: seq<Install>, u: World, y: seq<Install>, id: nat) {
    && Grew(w, u) && Later(w.conns, u.conns, x, y) && id in u.dials && id in u.seen
    && var d := u.dials[id];
       var c := IndexOf(w.clusters, d.cluster);
       c < |w.clusters| && w.clusters[c] == Cluster(d.cluster, d.addr, d.port) && u.seen[id] == w.cancels[c]
  }

  /** A dial that cannot be placed: cancelled, moved, or with no slot to take. */
  ghost predicate Blocked(w: World, id: nat) {
    && id in w.dials && id in w.seen
    && var d := w.dials[id];
       var c := IndexOf(w.clusters, d.cluster);
       && c < |w.clusters| == |w.cancels|
       && (w.seen[id] != w.cancels[c] || w.clusters[c] != Cluster(d.cluster, d.addr, d.port) ||
           AllTaken(w.conns, w.count))
  }

  /** Since w the table was full, or another thread has installed a socket or cancelled the cluster. */
  ghost predicate Hindered(w: World, cancels: seq<nat>, name: string, x: seq<Install>, y: seq<Install>) {
    var c := IndexOf(w.clusters, name);
    |x| < |y| || AllTaken(w.conns, w.count) || (c < |w.cancels| && c < |cancels| && w.cancels[c] < cancels[c])
  }

  lemma UnderwaySame(w: World, x: seq<Install>, u: World, v: World, y: seq<Install>, id: nat)
    requires Underway(w, x, u, y, id) && v.conns == u.conns && v.clusters == u.clusters && v.cancels == u.cancels
    requires v.seen == u.seen && id in v.dials && v.dials[id] == u.dials[id].(fd := v.dials[id].fd)
    ensures Underway(w, x, v, y, id)
  {
  }

  lemma UnderwayStep(w: World, x: seq<Install>, u: World, y: seq<Install>, v: World, z: seq<Install>, id: nat)
    requires Underway(w, x, u, y, id) && Grew(u, v) && Later(u.conns, v.conns, y, z)
    requires id in v.dials && id in v.seen && v.dials[id] == u.dials[id] && v.seen[id] == u.seen[id]
    ensures Underway(w, x, v, z, id)
  {
    hide Later, IndexOf;
    GrewTrans(w, u, v);
    LaterTrans(w.conns, u.conns, v.conns, x, y, z);
  }

  /** What blocks a dial that was free to go when it began is another thread's doing. */
  lemma UnderwayBlocked(w: World, x: seq<Install>, u: World, y: seq<Install>, id: nat)
    requires Core(w) && Core(u) && Underway(w, x, u, y, id) && Blocked(u, id)
    ensures Hindered(w, u.cancels, u.dials[id].cluster, x, y)
  {
    var c := IndexOf(w.clusters, u.dials[id].cluster);
    NameIndex(u, c);
    if AllTaken(u.conns, u.count) && x == y {
      CoreParts(w);
      CoreParts(u);
      hide Core, IndexOf;
      assert forall i :: 0 <= i < |u.conns| ==> w.conns[i] == u.conns[i] && w.conns[i].connected;
      assert SlotOk(w, MAX_CONNECTIONS - 1);
    }
  }

  lemma HinderedOn(w: World, u: World, v: World, name: string, x: seq<Install>, y: seq<Install>, z: seq<Install>)
    requires Hindered(w, u.cancels, name, x, y) && Grew(u, v) && y <= z
    ensures Hindered(w, v.cancels, name, x, z)
  {
  }

  lemma OnePerCluster(w: World, snap: seq<(nat, int, string)>)
    requires Core(w)
    requires forall k :: 0 <= k < |snap| ==>
               snap[k].0 < |w.conns| && w.conns[snap[k].0].connected && w.conns[snap[k].0].cluster == snap[k].2
    requires forall j, k :: 0 <= j < k < |snap| ==> snap[j].0 < snap[k].0
    ensures forall j, k :: 0 <= j < k < |snap| ==> snap[j].2 != snap[k].2
  {
  }

  ghost function Slots(snap: seq<(nat, int, string)>): set<nat> {
    set k | 0 <= k < |snap| :: snap[k].0
  }

  lemma {:induction false} SlotsCount(snap: seq<(nat, int, string)>)
    requires forall j, k :: 0 <= j < k < |snap| ==> snap[j].0 < snap[k].0
    ensures |Slots(snap)| == |snap|
  {
    if snap != [] {
      var init := snap[..|snap| - 1];
      SlotsCount(init);
      assert Slots(snap) == Slots(init) + {snap[|snap| - 1].0};
    }
  }

  lemma Subset(a: set<nat>, b: set<nat>)
    requires a <= b
    ensures |a| <= |b|
  {
    assert b == a + (b - a);
  }

  /** A snapshot has no more peers than were connected before, and no fewer than after. */
  lemma SnapCount(before: seq<Conn>, after: seq<Conn>, snap: seq<(nat, int, string)>, all: bool)
    requires forall k :: 0 <= k < |snap| ==> snap[k].0 < |before| && before[snap[k].0].connected
    requires forall j, k :: 0 <= j < k < |snap| ==> snap[j].0 < snap[k].0
    requires all ==> forall i :: 0 <= i < |after| && after[i].connected ==>
                     (i, after[i].fd, after[i].cluster) in snap
    ensures |snap| <= |Live(before)| && (all ==> |Live(after)| <= |snap|)
  {
    SlotsCount(snap);
    Subset(Slots(snap), Live(before));
    if all {
      forall i | i in Live(after) ensures i in Slots(snap) {
        assert (i, after[i].fd, after[i].cluster) in snap;
      }
      Subset(Live(after), Slots(snap));
    }
  }

  ghost predicate Differ(snap: seq<(nat, int, string)>, j: nat, k: nat) {
    j < k < |snap| ==> snap[j].2 != snap[k].2
  }

  lemma OneTarget(snap: seq<(nat, int, string)>, target: string)
    requires forall k :: 0 <= k < |snap| ==> snap[k].2 == target
    requires forall j, k :: 0 <= j < k < |snap| ==> snap[j].2 != snap[k].2
    ensures |snap| <= 1
  {
    assert Differ(snap, 0, 1);
  }

  lemma MovedEntry(a: seq<Cluster>, b: seq<Cluster>, c: nat, name: string, addr: string, port: int)
    requires c < |a| <= |b| && a[c].name == name && Cluster(name, addr, port) !in a && Cluster(name, addr, port) in b
    requires forall i :: 0 <= i < |a| ==> b[i].name == a[i].name
    requires forall i, j :: 0 <= i < j < |b| ==> b[i].name != b[j].name
    ensures b[c] != a[c]
  {
  }

  /** A dial's cluster has been cancelled since it began. */
  ghost predicate Behind(w: World, id: nat) {
    && id in w.dials && id in w.seen
    && var c := IndexOf(w.clusters, w.dials[id].cluster);
       c < |w.clusters| == |w.cancels| && w.seen[id] < w.cancels[c]
  }

  lemma StillCancelled(w: World, u: World, id: nat)
    requires Core(u) && Behind(w, id) && Grew(w, u)
    requires id in u.dials && u.dials[id] == w.dials[id] && id in u.seen && u.seen[id] == w.seen[id]
    ensures Behind(u, id)
  {
    var c := IndexOf(w.clusters, w.dials[id].cluster);
    NameIndex(u, c);
  }

  /** A cancelled dial that gets its socket is still cancelled. */
  lemma StillBehind(w: World, u: World, id: nat)
    requires Behind(w, id) && id in u.dials && u.dials[id].cluster == w.dials[id].cluster
    requires u.clusters == w.clusters && u.cancels == w.cancels && u.seen == w.seen
    ensures Behind(u, id)
  {
  }

  lemma DistinctNames(w: World)
    requires Core(w)
    ensures forall i, j :: 0 <= i < j < |w.clusters| ==> w.clusters[i].name != w.clusters[j].name
  {
  }

  /** With no dial in flight, every open socket is in exactly one slot: nothing leaks. */
  lemma NothingLeaks(w: World, fd: int)
    requires Core(w) && w.dials == map[] && fd in w.owner
    ensures exists i: nat :: i < w.count && w.conns[i].connected && w.conns[i].fd == fd &&
                             forall j: nat :: j < |w.conns| && w.conns[j].connected && w.conns[j].fd == fd ==> j == i
  {
    assert OwnerOk(w, fd);
    var i := w.owner[fd].index;
    assert SlotOk(w, i);
    forall j: nat | j < |w.conns| && w.conns[j].connected && w.conns[j].fd == fd ensures j == i { assert SlotOk(w, j); }
  }

  lemma SlotFd(w: World, i: nat)
    requires Core(w) && i < |w.conns|
    ensures w.conns[i].connected ==> w.conns[i].fd >= 0 && i < w.count
  {
    assert SlotOk(w, i);
  }

  lemma FadedClear(w: World, i: nat)
    requires Core(w) && i < w.count
    ensures Faded(w.conns, w.conns[i := EMPTY])
  {
    assert SlotOk(w, i);
  }
}
