/** The name service of ns.c on its hash tables, whatever they hold: the tables behind every control
    message and the packets it causes, and when both are those of the registry. */
module NameTables {
  import opened Common
  import opened Probing
  import opened SlotWalk
  import opened HashTable
  import opened HashKey
  import opened NameService
  import opened Replication
  import opened ServiceTables

  /** The services table of every node known. */
  type Nodes = map<Id, Table>

  datatype Store = Store(local: Id, nodes: Nodes, lookups: seq<Lookup>)

  ghost function TableOf(nodes: Nodes, n: Id): Table {
    if n in nodes then nodes[n] else []
  }

  /** node_get adds an empty table for a node that was not known. */
  ghost function With(nodes: Nodes, n: Id): Nodes {
    if n in nodes then nodes else nodes[n := []]
  }

  /** The entries of a table in slot order. */
  ghost function Listed(s: Table): seq<Registered> {
    Met(Entries(s))
  }

  /** What server_del finds for a port. */
  ghost function EntryAt(nodes: Nodes, a: Addr): Option<Registered> {
    Found(TableOf(nodes, a.node), HashU32(a.port))
  }

  ghost function Without(nodes: Nodes, a: Addr): Nodes {
    nodes[a.node := Removed(TableOf(nodes, a.node), Own, HashU32(a.port))]
  }

  /** The loop of ctrl_cmd_bye from slot k on: what server_del finds for the port of each entry met
      is removed, which need not be the entry met. */
  ghost function Left(s: Table, k: nat): (t: Table)
    ensures |t| == |s|
    decreases |s| - k
  {
    if k >= |s| then s
    else Left(if s[k].Live? then Removed(s, Own, HashU32(s[k].value.at.port)) else s, k + 1)
  }

  ghost function Leavers(s: Table, k: nat): seq<Registered>
    decreases |s| - k
  {
    if k >= |s| then []
    else if !s[k].Live? then Leavers(s, k + 1)
    else
      var key := HashU32(s[k].value.at.port);
      (match Found(s, key) case None => [] case Some(e) => [e]) + Leavers(Removed(s, Own, key), k + 1)
  }

  function Unfit(f: Filter): Registered -> bool {
    (e: Registered) => !ServerMatch(e.what, f)
  }

  /** The answer of server_query, the nodes taken in the given order. */
  ghost function Queried(nodes: Nodes, order: seq<Id>, f: Filter): seq<Registered> {
    if order == [] then []
    else Queried(nodes, order[..|order| - 1], f) + Kept(Listed(TableOf(nodes, order[|order| - 1])), Unfit(f))
  }

  ghost predicate EveryNode(nodes: Nodes, order: seq<Id>) {
    && (forall n :: n in order <==> n in nodes)
    && forall i, j :: 0 <= i < j < |order| ==> order[i] != order[j]
  }

  // ----- One message -----

  ghost predicate Rejected(s: Store, from: Addr, m: Message) {
    match m
    case NewServer(w, at) =>
      var a := Claimed(s.local, from, at);
      from.node != a.node || w.service == 0 || a.port == 0
    case DelServer(_, at) =>
      var a := Claimed(s.local, from, at);
      from.node != a.node || EntryAt(s.nodes, a).None?
    case DelClient(c) => from.node != c.node || (from.node == s.local && from.port != c.port)
    case NewLookup(_, _) => from.node != s.local
    case _ => false
  }

  /** The store behind message m from the given address. */
  ghost function Handled(s: Store, from: Addr, m: Message): Store {
    match m
    case Hello => s.(nodes := With(s.nodes, s.local))
    case Bye(_) => s.(nodes := With(s.nodes[from.node := Left(TableOf(s.nodes, from.node), 0)], s.local))
    case DelClient(c) =>
      if Rejected(s, from, m) then s
      else s.(nodes := With(Without(s.nodes, c), s.local), lookups := Kept(s.lookups, OfClient(c)))
    case NewServer(w, at) =>
      var a := Claimed(s.local, from, at);
      if Rejected(s, from, m) then s
      else s.(nodes := s.nodes[a.node := Reputted(TableOf(s.nodes, a.node), HashU32(a.port), Registered(w, a))])
    case DelServer(_, at) =>
      var a := Claimed(s.local, from, at);
      if from.node != a.node then s else s.(nodes := Without(s.nodes, a))
    case NewLookup(sv, i) =>
      if Rejected(s, from, m) then s else s.(lookups := s.lookups + [Lookup(sv, i, from)])
    case DelLookup(sv, i) => s.(lookups := Kept(s.lookups, Ended(from, sv, i)))
    case Other => s
  }

  /** One announcement for every entry. */
  function Introduced(es: seq<Registered>, to: Addr): seq<Packet> {
    if es == [] then []
    else
      var e := es[|es| - 1];
      Introduced(es[..|es| - 1], to) + [Packet(To(to), NewServer(e.what, e.at))]
  }

  /** The removal of one entry after the other. */
  function Retired(local: Id, ls: seq<Lookup>, es: seq<Registered>): seq<Packet> {
    if es == [] then []
    else Retired(local, ls, es[..|es| - 1]) + Removal(local, ls, es[|es| - 1].what, es[|es| - 1].at)
  }

  ghost function OneRetired(local: Id, ls: seq<Lookup>, e: Option<Registered>): seq<Packet> {
    match e
    case None => []
    case Some(x) => Removal(local, ls, x.what, x.at)
  }

  /** The local services told of a departure, once the tables have changed. */
  ghost function Locals(s: Store): seq<Addr> {
    Ats(Listed(TableOf(s.nodes, s.local)))
  }

  /** The packets sent for message m. */
  ghost function Sent(s: Store, from: Addr, m: Message, order: seq<Id>): seq<Packet> {
    if Rejected(s, from, m) then []
    else match m
      case Hello => [Packet(To(from), Hello)] + Introduced(Listed(TableOf(s.nodes, s.local)), from)
      case Bye(_) =>
        Retired(s.local, s.lookups, Leavers(TableOf(s.nodes, from.node), 0))
        + Forwards(Locals(Handled(s, from, m)), Bye(from.node))
      case DelClient(c) =>
        OneRetired(s.local, Kept(s.lookups, OfClient(c)), EntryAt(s.nodes, c)) + Forwards(Locals(Handled(s, from, m)), m)
      case NewServer(w, at) => Arrival(s.local, s.lookups, w, Claimed(s.local, from, at))
      case DelServer(_, at) => OneRetired(s.local, s.lookups, EntryAt(s.nodes, Claimed(s.local, from, at)))
      case NewLookup(sv, i) =>
        Introduced(Queried(s.nodes, order, Filter(sv, i, 0)), from) + [Packet(To(from), TERMINATOR)]
      case _ => []
  }

  /** The order in which the nodes are asked matters to a lookup that is accepted. */
  ghost predicate Visits(s: Store, from: Addr, m: Message, order: seq<Id>) {
    m.NewLookup? && !Rejected(s, from, m) ==> EveryNode(s.nodes, order)
  }

  // ----- What every message keeps, on any tables -----

  ghost predicate Sound(nodes: Nodes) {
    forall n :: n in nodes ==> Reachable(nodes[n], Own) && Tidy(nodes[n], n)
  }

  lemma {:induction false} EmptySound(n: Id)
    ensures Reachable<nat, Registered>([], Own) && Tidy([], n)
  {
  }

  lemma {:induction false} RemovedSound(s: Table, n: Id, key: nat)
    requires Reachable(s, Own) && Tidy(s, n)
    ensures Reachable(Removed(s, Own, key), Own) && Tidy(Removed(s, Own, key), n)
  {
    hide Find; hide Reachable; hide HashU32;
    match Find(s, Own, key, 0) {
      case None =>
      case Some(r) => RemoveReachable(s, Own, r);
    }
  }

  lemma {:induction false} LeftSound(s: Table, n: Id, k: nat)
    requires Reachable(s, Own) && Tidy(s, n)
    ensures Reachable(Left(s, k), Own) && Tidy(Left(s, k), n)
    decreases |s| - k
  {
    hide Reachable; hide Tidy; hide HashU32; hide Removed;
    if k < |s| {
      if s[k].Live? {
        RemovedSound(s, n, HashU32(s[k].value.at.port));
        LeftSound(Removed(s, Own, HashU32(s[k].value.at.port)), n, k + 1);
      } else {
        LeftSound(s, n, k + 1);
      }
    }
  }

  lemma {:induction false} PutSound(s: Table, n: Id, e: Registered)
    requires Reachable(s, Own) && Tidy(s, n) && e.at.node == n && e.what.service != 0 && e.at.port != 0
    ensures Reachable(Put(s, Own, HashU32(e.at.port), e), Own) && Tidy(Put(s, Own, HashU32(e.at.port), e), n)
  {
    hide Place; hide Reachable; hide HashU32;
    if Place(s, Own, HashU32(e.at.port), 0).Some? {
      PutReachable(s, Own, HashU32(e.at.port), e);
    }
  }

  lemma {:induction false} RehashedTidy(s: Table, n: Id, size: nat)
    requires Tidy(s, n)
    ensures Reachable(Rehashed(s, Own, size), Own) && Tidy(Rehashed(s, Own, size), n)
  {
    hide Put; hide Reachable; hide HashU32;
    if s == [] {
      BlankTable(Rehashed(s, Own, size), Own);
    } else {
      var t, x := s[..|s| - 1], s[|s| - 1];
      assert forall k :: 0 <= k < |t| ==> t[k] == s[k];
      RehashedTidy(t, n, size);
      if x.Live? {
        PutSound(Rehashed(t, Own, size), n, x.value);
      }
    }
  }

  lemma {:induction false} ReputtedSound(s: Table, n: Id, e: Registered)
    requires Reachable(s, Own) && Tidy(s, n) && e.at.node == n && e.what.service != 0 && e.at.port != 0
    ensures Reachable(Reputted(s, HashU32(e.at.port), e), Own) && Tidy(Reputted(s, HashU32(e.at.port), e), n)
  {
    hide Put; hide Reachable; hide Tidy; hide HashU32; hide Rehashed;
    RehashedTidy(s, n, |s| + 256);
    PutSound(Roomy(s), n, e);
  }

  lemma {:induction false} TableSound(nodes: Nodes, n: Id)
    requires Sound(nodes)
    ensures Reachable(TableOf(nodes, n), Own) && Tidy(TableOf(nodes, n), n) && Sound(With(nodes, n))
  {
    hide Reachable; hide Tidy;
    EmptySound(n);
  }

  /** Every message keeps, in every table, each entry where a search can reach it, under the hash of
      its own port and in the table of its own node. */
  lemma {:induction false} HandledSound(s: Store, from: Addr, m: Message)
    requires Sound(s.nodes)
    ensures Sound(Handled(s, from, m).nodes)
  {
    hide Reachable; hide Tidy; hide HashU32; hide Removed; hide Reputted; hide Left;
    match m {
      case Hello => TableSound(s.nodes, s.local);
      case Bye(_) =>
        TableSound(s.nodes, from.node);
        LeftSound(TableOf(s.nodes, from.node), from.node, 0);
        TableSound(s.nodes[from.node := Left(TableOf(s.nodes, from.node), 0)], s.local);
      case DelClient(c) =>
        TableSound(s.nodes, c.node);
        RemovedSound(TableOf(s.nodes, c.node), c.node, HashU32(c.port));
        TableSound(Without(s.nodes, c), s.local);
      case NewServer(w, at) =>
        var a := Claimed(s.local, from, at);
        TableSound(s.nodes, a.node);
        if !Rejected(s, from, m) {
          ReputtedSound(TableOf(s.nodes, a.node), a.node, Registered(w, a));
        }
      case DelServer(_, at) =>
        var a := Claimed(s.local, from, at);
        TableSound(s.nodes, a.node);
        RemovedSound(TableOf(s.nodes, a.node), a.node, HashU32(a.port));
      case _ =>
    }
  }

  // ----- What BYE leaves behind -----

  /** The key has an entry between its home and the end of the table and another one that a probe
      reaches only around the end. */
  ghost predicate Around(s: Table, key: nat) {
    exists j, k :: 0 <= k < j < |s| && Holds(s[j], key) && Holds(s[k], key) && k < Home(Own, key, |s|) <= j
  }

  /** If no key has entries on both sides, the entry met first is the one found. */
  lemma {:induction false} MetIsFound(s: Table, n: Id, k: nat)
    requires Reachable(s, Own) && Tidy(s, n) && k < |s| && s[k].Live? && !Around(s, s[k].key)
    requires forall j :: 0 <= j < k ==> !s[j].Live?
    ensures Find(s, Own, HashU32(s[k].value.at.port), 0) == Some(k)
  {
    hide HashU32; hide Find;
    var key := s[k].key;
    var h := Home(Own, key, |s|);
    forall j | 0 <= j < |s| && j != k && Holds(s[j], key) ensures Distance(|s|, h, k) < Distance(|s|, h, j) {
      assert k < j;
      assert Holds(s[k], key);
    }
    FindClosest(s, Own, key, k);
  }

  lemma {:induction false} RemovedNotAround(s: Table, r: nat, key: nat)
    requires r < |s| && !Around(s, key)
    ensures !Around(s[r := Deleted], key)
  {
  }

  lemma {:induction false} AllLeave(s: Table, n: Id, k: nat)
    requires Reachable(s, Own) && Tidy(s, n) && k <= |s| && forall j :: 0 <= j < k ==> !s[j].Live?
    requires forall key :: !Around(s, key)
    ensures forall j :: 0 <= j < |s| ==> !Left(s, k)[j].Live?
    decreases |s| - k
  {
    hide HashU32; hide Find; hide Reachable; hide Around; hide Tidy;
    if k < |s| {
      if s[k].Live? {
        MetIsFound(s, n, k);
        RemovedSound(s, n, HashU32(s[k].value.at.port));
        var t := s[k := Deleted];
        forall key ensures !Around(t, key) {
          RemovedNotAround(s, k, key);
        }
        AllLeave(t, n, k + 1);
      } else {
        AllLeave(s, n, k + 1);
      }
    }
  }

  /** An entry of the key that the walk has passed. */
  ghost predicate Passed(s: Table, k: nat, key: nat) {
    exists j :: 0 <= j < |s| && j < k && Holds(s[j], key)
  }

  /** Once an entry of a key has been passed, one of them stays. */
  lemma {:induction false} PassedStays(s: Table, n: Id, k: nat, key: nat)
    requires Tidy(s, n) && k <= |s| && Passed(s, k, key)
    ensures Passed(Left(s, k), |s|, key)
    decreases |s| - k
  {
    hide HashU32; hide Find; hide Reachable;
    if k < |s| {
      var j :| 0 <= j < |s| && j < k && Holds(s[j], key);
      if s[k].Live? {
        var x := HashU32(s[k].value.at.port);
        var t := Removed(s, Own, x);
        assert Tidy(t, n);
        if Find(s, Own, x, 0) == Some(j) {
          assert Holds(t[k], key);
        } else {
          assert Holds(t[j], key);
        }
        PassedStays(t, n, k + 1, key);
      } else {
        PassedStays(s, n, k + 1, key);
      }
    }
  }

  /** The first entry around the end is met first, and another one is removed in its place. */
  lemma {:induction false} FirstPassed(s: Table, n: Id, k: nat, key: nat, i: nat, j: nat)
    requires Reachable(s, Own) && Tidy(s, n) && k <= i < j < |s| && Holds(s[i], key) && Holds(s[j], key)
    requires i < Home(Own, key, |s|) <= j
    ensures Passed(Left(s, k), |s|, key)
    decreases |s| - k
  {
    hide HashU32; hide Reachable; hide Tidy; hide Find; hide Removed;
    if !s[k].Live? {
      FirstPassed(s, n, k + 1, key, i, j);
    } else {
      var x := HashU32(s[k].value.at.port);
      var t := Removed(s, Own, x);
      RemovedSound(s, n, x);
      KeyOfSlot(s, n, k);
      if s[k].key == key {
        NotFoundLast(s, key, k, j);
        assert Holds(t[k], key);
        PassedStays(t, n, k + 1, key);
      } else {
        OthersStay(s, x, key, i);
        OthersStay(s, x, key, j);
        FirstPassed(t, n, k + 1, key, i, j);
      }
    }
  }

  lemma {:induction false} KeyOfSlot(s: Table, n: Id, k: nat)
    requires Tidy(s, n) && k < |s| && s[k].Live?
    ensures s[k].key == HashU32(s[k].value.at.port)
  {
    hide HashU32;
  }

  lemma {:induction false} OthersStay(s: Table, x: nat, key: nat, i: nat)
    requires x != key && i < |s| && Holds(s[i], key)
    ensures Holds(Removed(s, Own, x)[i], key)
  {
    hide Find;
  }

  /** A search does not end at an entry behind the end of the table while there is one before it. */
  lemma {:induction false} NotFoundLast(s: Table, key: nat, k: nat, j: nat)
    requires Reachable(s, Own) && k < j < |s| && Holds(s[k], key) && Holds(s[j], key)
    requires k < Home(Own, key, |s|) <= j
    ensures Holds(Removed(s, Own, key)[k], key)
  {
    hide Find;
    var h := Home(Own, key, |s|);
    FindBefore(s, key, 0, Distance(|s|, h, j));
  }

  lemma {:induction false} FindBefore(s: Table, key: nat, i: nat, d: nat)
    requires Reachable(s, Own) && i <= d < |s| && Holds(Probe(s, Own, key, d), key)
    ensures Find(s, Own, key, i).Some? ==>
      Distance(|s|, Home(Own, key, |s|), Find(s, Own, key, i).value) <= d
    decreases d - i
  {
    hide Reachable;
    WrapDistance(|s|, Home(Own, key, |s|), i);
    if i < d {
      FindBefore(s, key, i + 1, d);
    }
  }

  /** BYE empties the table of the node if and only if no key has entries on both sides of the end
      of the table; otherwise a server that left is still there. */
  lemma {:induction false} LeftExact(s: Table, n: Id)
    requires Reachable(s, Own) && Tidy(s, n)
    ensures (forall k :: 0 <= k < |s| ==> !Left(s, 0)[k].Live?) <==> forall key :: !Around(s, key)
  {
    hide HashU32; hide Reachable; hide Tidy; hide Left;
    if forall key :: !Around(s, key) {
      AllLeave(s, n, 0);
    } else {
      var key :| Around(s, key);
      var j, i :| 0 <= i < j < |s| && Holds(s[j], key) && Holds(s[i], key) && i < Home(Own, key, |s|) <= j;
      FirstPassed(s, n, 0, key, i, j);
    }
  }
}
