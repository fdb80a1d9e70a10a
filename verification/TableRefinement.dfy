/** The hash tables of ns.c stand for the registry as long as every registration finds its port free or
    no deletion marker before its entry. */
module TableRefinement {
  import opened Common
  import opened Probing
  import opened SlotWalk
  import opened HashTable
  import opened HashKey
  import opened NameService
  import opened Replication
  import opened ServiceTables
  import opened NameTables

  /** The table of node n has one entry for every server of n. */
  ghost predicate TableGood(s: Table, n: Id, r: Registry) {
    Reachable(s, Own) && Unique(s) && Stands(Told(s), n, r)
  }

  ghost predicate Standing(nodes: Nodes, r: Registry) {
    && (forall n :: n in nodes ==> TableGood(nodes[n], n, r))
    && forall a :: a in r ==> a.node in nodes
  }

  /** A registration finds its port free, or no deletion marker before its entry. */
  ghost predicate MayPut(s: Store, from: Addr, m: Message) {
    m.NewServer? && !Rejected(s, from, m) ==>
      var a := Claimed(s.local, from, m.at);
      CanPut(TableOf(s.nodes, a.node), Own, HashU32(a.port))
  }

  /** The registry a store stands for. */
  ghost function Abstract(s: Store, r: Registry): State {
    State(s.local, r, s.lookups)
  }

  // ----- One table -----

  lemma {:induction false} EmptyGood(n: Id, r: Registry)
    requires forall a :: a in r ==> a.node != n
    ensures TableGood([], n, r)
  {
    StandsEmpty(n, r);
  }

  lemma {:induction false} TableOfGood(nodes: Nodes, n: Id, r: Registry)
    requires Standing(nodes, r)
    ensures TableGood(TableOf(nodes, n), n, r) && Standing(With(nodes, n), r)
  {
    hide TableGood;
    if n !in nodes {
      EmptyGood(n, r);
    }
  }

  /** A search in the table of a node answers as the registry does. */
  lemma {:induction false} FoundGood(s: Table, a: Addr, r: Registry)
    requires TableGood(s, a.node, r)
    ensures Found(s, HashU32(a.port)) == if a in r then Some(Registered(r[a], a)) else None
  {
    hide HashU32; hide Reachable; hide Unique; hide Stands; hide Told;
    UniqueTells(s, Own, HashU32(a.port));
    StandsAt(Told(s), a.node, r, a);
  }

  /** The registry is the same as far as node n is concerned. */
  ghost predicate SameAt(r: Registry, q: Registry, n: Id) {
    forall a: Addr :: a.node == n ==> (a in r <==> a in q) && (a in r ==> r[a] == q[a])
  }

  lemma {:induction false} GoodSame(s: Table, n: Id, r: Registry, q: Registry)
    requires TableGood(s, n, r) && SameAt(r, q, n)
    ensures TableGood(s, n, q)
  {
    hide HashU32; hide Reachable; hide Unique; hide Told;
  }

  /** A new table for one node, and a registry that differs there only. */
  lemma {:induction false} ReplaceStands(nodes: Nodes, r: Registry, n: Id, s: Table, q: Registry)
    requires Standing(nodes, r) && TableGood(s, n, q) && forall c: Id :: c != n ==> SameAt(r, q, c)
    ensures Standing(nodes[n := s], q)
  {
    hide TableGood;
    forall c | c in nodes && c != n ensures TableGood(nodes[c], c, q) {
      GoodSame(nodes[c], c, r, q);
    }
    forall a | a in q ensures a.node in nodes[n := s] {
      if a.node != n {
        assert SameAt(r, q, a.node);
      }
    }
  }

  lemma {:induction false} RemovedGood(s: Table, a: Addr, r: Registry)
    requires TableGood(s, a.node, r)
    ensures TableGood(Removed(s, Own, HashU32(a.port)), a.node, r - {a})
  {
    hide HashU32; hide Reachable; hide Unique; hide Told; hide Stands;
    var key := HashU32(a.port);
    ToldRepresents(s);
    StandsDrop(Told(s), a.node, r, a);
    var t := Removed(s, Own, key);
    match Find(s, Own, key, 0) {
      case Some(k) =>
        RemoveKeeps(s, Own, k, Told(s));
        ToldRepresents(t);
        RepresentsOne(t, Told(t), Told(s) - {key});
      case None =>
        FindAgrees(s, Own, Told(s), key);
        assert Told(s) - {key} == Told(s);
    }
  }

  lemma {:induction false} PutGood(s: Table, a: Addr, w: Service, r: Registry)
    requires TableGood(s, a.node, r) && CanPut(s, Own, HashU32(a.port)) && LiveCount(s) < |s|
    ensures TableGood(Put(s, Own, HashU32(a.port), Registered(w, a)), a.node, r[a := w])
  {
    hide HashU32; hide Reachable; hide Unique; hide Told; hide Stands; hide CanPut; hide LiveCount; hide Place; hide Put;
    var key, e := HashU32(a.port), Registered(w, a);
    var t := Put(s, Own, key, e);
    PlaceExists(s, Own, key);
    PutReachable(s, Own, key, e);
    PutUnique(s, Own, key, e);
    ToldRepresents(s);
    PutRepresents(s, Own, key, e, Told(s));
    ToldRepresents(t);
    RepresentsOne(t, Told(t), Told(s)[key := e]);
    StandsPut(Told(s), a.node, r, a, w);
  }

  lemma {:induction false} RoomyGood(s: Table, n: Id, r: Registry, key: nat)
    requires TableGood(s, n, r)
    ensures TableGood(Roomy(s), n, r) && LiveCount(Roomy(s)) < |Roomy(s)|
    ensures CanPut(s, Own, key) ==> CanPut(Roomy(s), Own, key)
  {
    hide HashU32; hide Reachable; hide Unique; hide Told; hide Stands; hide CanPut; hide Rehashed;
    if LiveCount(s) >= |s| {
      var t := Rehashed(s, Own, |s| + 256);
      RehashedIs(s, Own, |s| + 256);
      ToldRepresents(t);
      RepresentsOne(t, Told(t), Told(s));
      FreshCanPut(t, Own, key);
    }
  }

  lemma {:induction false} ReputtedGood(s: Table, a: Addr, w: Service, r: Registry)
    requires TableGood(s, a.node, r) && CanPut(s, Own, HashU32(a.port))
    ensures TableGood(Reputted(s, HashU32(a.port), Registered(w, a)), a.node, r[a := w])
  {
    hide HashU32; hide TableGood; hide CanPut; hide Put; hide Roomy;
    RoomyGood(s, a.node, r, HashU32(a.port));
    PutGood(Roomy(s), a, w, r);
  }

  /** An entry of the table is a server of its node. */
  lemma {:induction false} SlotGood(s: Table, n: Id, r: Registry, k: nat)
    requires TableGood(s, n, r) && k < |s| && s[k].Live?
    ensures var e := s[k].value;
      && e.at in r && e.at.node == n && r[e.at] == e.what && s[k].key == HashU32(e.at.port)
      && Find(s, Own, s[k].key, 0) == Some(k)
  {
    hide HashU32; hide Reachable; hide Told; hide Find;
    ToldRepresents(s);
    LiveIsIn(s, Told(s), k);
    FindExact(s, Own, s[k].key, k);
  }

  lemma {:induction false} NoneGood(s: Table, n: Id, r: Registry)
    requires TableGood(s, n, r) && forall k :: 0 <= k < |s| ==> !s[k].Live?
    ensures AddrsOf(r, n) == {}
  {
    hide HashU32; hide Reachable; hide Told; hide Unique;
    ToldRepresents(s);
    AllGone(s, Told(s));
  }

  /** The entries of the table list the servers of its node. */
  lemma {:induction false} ListedGood(s: Table, n: Id, r: Registry)
    requires TableGood(s, n, r)
    ensures Stated(Listed(s), r) && Lists(Ats(Listed(s)), AddrsOf(r, n))
  {
    hide HashU32; hide Reachable; hide Told; hide Unique; hide Stands; hide Met; hide Ats; hide Lists; hide Stated;
    hide Entries;
    ToldRepresents(s);
    EntriesAreContents(s, Told(s));
    EntriesDistinct(s);
    WalkLists(Entries(s), Told(s), n, r);
  }

  // ----- BYE -----

  lemma {:induction false} NothingLeft(s: Table, n: Id, r: Registry)
    requires TableGood(s, n, r) && forall k :: 0 <= k < |s| ==> !s[k].Live?
    ensures Leavers(s, |s|) == [] && Left(s, |s|) == s && Stated([], r) && Lists(Ats([]), AddrsOf(r, n))
    ensures r - AddrsOf(r, n) == r
  {
    hide TableGood;
    NoneGood(s, n, r);
  }

  lemma {:induction false} OneLeaves(es: seq<Registered>, e: Registered, r: Registry, n: Id)
    requires e.at in r && e.at.node == n && r[e.at] == e.what
    requires Stated(es, r - {e.at}) && Lists(Ats(es), AddrsOf(r - {e.at}, n))
    ensures Stated([e] + es, r) && Lists(Ats([e] + es), AddrsOf(r, n))
    ensures r - {e.at} - AddrsOf(r - {e.at}, n) == r - AddrsOf(r, n)
  {
    hide Ats;
    var xs, ys := Ats([e] + es), Ats(es);
    assert xs == [e.at] + ys;
    forall a ensures a in xs <==> a in AddrsOf(r, n) {
      assert a in xs <==> a == e.at || a in ys;
    }
    forall i, j | 0 <= i < j < |xs| ensures xs[i] != xs[j] {
      assert xs[j] in ys;
    }
  }

  /** The loop of ctrl_cmd_bye over a table with one entry per port removes every server of the
      node once. */
  lemma {:induction false} LeftGood(s: Table, n: Id, r: Registry, k: nat)
    requires TableGood(s, n, r) && k <= |s| && forall j :: 0 <= j < k ==> !s[j].Live?
    ensures TableGood(Left(s, k), n, r - AddrsOf(r, n))
    ensures Stated(Leavers(s, k), r) && Lists(Ats(Leavers(s, k)), AddrsOf(r, n))
    decreases |s| - k
  {
    hide TableGood; hide HashU32; hide Stated; hide Lists; hide Ats; hide AddrsOf; hide Find;
    if k == |s| {
      NothingLeft(s, n, r);
    } else if s[k].Live? {
      var e := s[k].value;
      SlotGood(s, n, r, k);
      RemovedGood(s, e.at, r);
      var t := Removed(s, Own, HashU32(e.at.port));
      assert t == s[k := Deleted];
      LeftGood(t, n, r - {e.at}, k + 1);
      OneLeaves(Leavers(t, k + 1), e, r, n);
    } else {
      LeftGood(s, n, r, k + 1);
    }
  }

  // ----- The packets -----

  lemma {:induction false} IntroducedIsDump(es: seq<Registered>, r: Registry, to: Addr)
    requires Stated(es, r)
    ensures forall a :: a in Ats(es) ==> a in r
    ensures Introduced(es, to) == Dump(r, Ats(es), to)
  {
    if es != [] {
      var init := es[..|es| - 1];
      assert forall i :: 0 <= i < |init| ==> init[i] == es[i];
      IntroducedIsDump(init, r, to);
      assert Ats(es)[..|es| - 1] == Ats(init);
    }
  }

  lemma {:induction false} RetiredIsRemovals(es: seq<Registered>, s: State)
    requires Stated(es, s.servers)
    ensures forall a :: a in Ats(es) ==> a in s.servers
    ensures Retired(s.local, s.lookups, es) == Removals(s, Ats(es))
  {
    hide Removal;
    if es != [] {
      var init := es[..|es| - 1];
      assert forall i :: 0 <= i < |init| ==> init[i] == es[i];
      RetiredIsRemovals(init, s);
      assert Ats(es)[..|es| - 1] == Ats(init);
    }
  }

  // ----- Queries -----

  /** The servers that match a filter. */
  ghost function Selected(r: Registry, f: Filter): set<Addr> {
    set a | a in r && ServerMatch(r[a], f)
  }

  ghost function OfNodes(r: Registry, ns: seq<Id>): set<Addr> {
    set a | a in r && a.node in ns
  }

  lemma {:induction false} KeptDistinct(all: seq<Registered>, drop: Registered -> bool)
    requires forall i, j :: 0 <= i < j < |all| ==> all[i].at != all[j].at
    ensures forall i, j :: 0 <= i < j < |Kept(all, drop)| ==> Kept(all, drop)[i].at != Kept(all, drop)[j].at
  {
    if all != [] {
      var init := all[..|all| - 1];
      KeptDistinct(init, drop);
      forall e | e in Kept(init, drop) ensures e.at != all[|all| - 1].at {
        KeptIs(init, drop, e);
      }
    }
  }

  lemma {:induction false} KeptListed(all: seq<Registered>, r: Registry, f: Filter, n: Id)
    requires Stated(all, r) && Lists(Ats(all), AddrsOf(r, n))
    ensures Stated(Kept(all, Unfit(f)), r)
    ensures Lists(Ats(Kept(all, Unfit(f))), Selected(r, f) * AddrsOf(r, n))
  {
    hide Ats; hide Kept; hide ServerMatch;
    var es := Kept(all, Unfit(f));
    forall i, j | 0 <= i < j < |all| ensures all[i].at != all[j].at {
      assert Ats(all)[i] != Ats(all)[j];
    }
    KeptDistinct(all, Unfit(f));
    forall e ensures e in es <==> e in all && ServerMatch(e.what, f) {
      KeptIs(all, Unfit(f), e);
    }
    forall i | 0 <= i < |es|
      ensures es[i].at in Selected(r, f) * AddrsOf(r, n) && r[es[i].at] == es[i].what
    {
      assert es[i] in all;
      var j :| 0 <= j < |all| && all[j] == es[i];
      assert Ats(all)[j] in Ats(all);
    }
    forall a | a in Selected(r, f) * AddrsOf(r, n) ensures a in Ats(es) {
      assert a in Ats(all);
      var j :| 0 <= j < |all| && Ats(all)[j] == a;
      assert all[j] in es;
      var i :| 0 <= i < |es| && es[i] == all[j];
      assert Ats(es)[i] == a;
    }
  }

  lemma {:induction false} MoreListed(es: seq<Registered>, more: seq<Registered>, r: Registry, f: Filter,
                                      ns: seq<Id>, n: Id)
    requires Stated(es, r) && Stated(more, r) && n !in ns
    requires Lists(Ats(es), Selected(r, f) * OfNodes(r, ns))
    requires Lists(Ats(more), Selected(r, f) * AddrsOf(r, n))
    ensures Stated(es + more, r)
    ensures Lists(Ats(es + more), Selected(r, f) * OfNodes(r, ns + [n]))
  {
    hide ServerMatch; hide Ats; hide Selected;
    var both, x, y := Ats(es + more), Ats(es), Ats(more);
    assert both == x + y;
    forall a ensures a in both <==> a in Selected(r, f) * OfNodes(r, ns + [n]) {
      assert a in both <==> a in x || a in y;
    }
    forall i, j | 0 <= i < j < |both| ensures both[i] != both[j] {
      if i < |x| <= j {
        assert both[i] in x && both[j] in y;
      }
    }
  }

  lemma {:induction false} NothingQueried(r: Registry, f: Filter)
    ensures Stated([], r) && Lists(Ats([]), Selected(r, f) * OfNodes(r, []))
  {
  }

  /** A query over tables that stand for the registry meets every matching server of the nodes
      asked exactly once. */
  lemma {:induction false} QueriedGood(nodes: Nodes, r: Registry, order: seq<Id>, f: Filter)
    requires Standing(nodes, r) && forall i, j :: 0 <= i < j < |order| ==> order[i] != order[j]
    ensures Stated(Queried(nodes, order, f), r)
    ensures Lists(Ats(Queried(nodes, order, f)), Selected(r, f) * OfNodes(r, order))
  {
    hide TableGood; hide ServerMatch; hide Listed; hide Standing; hide Lists; hide Stated; hide Ats; hide Selected;
    hide OfNodes; hide Kept;
    if order == [] {
      NothingQueried(r, f);
    } else {
      var init, n := order[..|order| - 1], order[|order| - 1];
      QueriedGood(nodes, r, init, f);
      TableOfGood(nodes, n, r);
      ListedGood(TableOf(nodes, n), n, r);
      KeptListed(Listed(TableOf(nodes, n)), r, f, n);
      MoreListed(Queried(nodes, init, f), Kept(Listed(TableOf(nodes, n)), Unfit(f)), r, f, init, n);
      assert init + [n] == order;
    }
  }

  /** The first answer to a lookup selects the servers that later notices would be about. */
  lemma {:induction false} QueryIsMatching(r: Registry, l: Lookup)
    ensures Selected(r, Filter(l.service, l.instance, 0)) == Matching(r, l)
  {
    hide ServerMatch; hide Matches;
    forall a | a in r ensures ServerMatch(r[a], Filter(l.service, l.instance, 0)) <==> Matches(l, r[a]) {
      MatchAgrees(l, r[a]);
    }
  }

  lemma {:induction false} AllNodes(nodes: Nodes, r: Registry, order: seq<Id>)
    requires Standing(nodes, r) && EveryNode(nodes, order)
    ensures OfNodes(r, order) == r.Keys
  {
    hide TableGood;
  }

  // ----- One message -----

  /** A message on tables that stand for the registry does to them what it does to the registry,
      and sends the same packets. */
  ghost predicate Agrees(s: Store, r: Registry, from: Addr, m: Message, order: seq<Id>, walk: seq<Addr>, told: seq<Addr>) {
    var a := Abstract(s, r);
    var t, b := Handled(s, from, m), After(a, from, m);
    && (Rejected(s, from, m) <==> Refused(a, from, m))
    && Order(a, from, m, walk, told)
    && Sent(s, from, m, order) == Output(a, from, m, walk, told)
    && Standing(t.nodes, b.servers) && t.local == b.local && t.lookups == b.lookups
  }

  lemma {:induction false} EntryGood(nodes: Nodes, r: Registry, a: Addr)
    requires Standing(nodes, r)
    ensures EntryAt(nodes, a) == if a in r then Some(Registered(r[a], a)) else None
    ensures Standing(Without(nodes, a), r - {a})
  {
    hide TableGood; hide Standing; hide HashU32; hide Removed; hide Found;
    TableOfGood(nodes, a.node, r);
    FoundGood(TableOf(nodes, a.node), a, r);
    RemovedGood(TableOf(nodes, a.node), a, r);
    ReplaceStands(nodes, r, a.node, Removed(TableOf(nodes, a.node), Own, HashU32(a.port)), r - {a});
  }

  lemma {:induction false} HelloAgrees(s: Store, r: Registry, from: Addr, order: seq<Id>)
    requires Standing(s.nodes, r)
    ensures Agrees(s, r, from, Hello, order, Ats(Listed(TableOf(s.nodes, s.local))), [])
  {
    hide TableGood; hide Standing; hide Listed; hide Introduced; hide Dump; hide Ats; hide Lists; hide Stated;
    var t := TableOf(s.nodes, s.local);
    TableOfGood(s.nodes, s.local, r);
    ListedGood(t, s.local, r);
    IntroducedIsDump(Listed(t), r, from);
  }

  /** The local services once the tables have changed. */
  lemma {:induction false} LocalsGood(s: Store, r: Registry)
    requires Standing(s.nodes, r)
    ensures Lists(Locals(s), AddrsOf(r, s.local))
  {
    hide TableGood; hide Standing; hide Listed; hide Ats; hide Lists;
    TableOfGood(s.nodes, s.local, r);
    ListedGood(TableOf(s.nodes, s.local), s.local, r);
  }

  lemma {:induction false} ByeAgrees(s: Store, r: Registry, from: Addr, m: Message, order: seq<Id>)
    requires Standing(s.nodes, r) && m.Bye?
    ensures Agrees(s, r, from, m, order, Ats(Leavers(TableOf(s.nodes, from.node), 0)), Locals(Handled(s, from, m)))
  {
    hide TableGood; hide Standing; hide Listed; hide Ats; hide Lists; hide Stated; hide Left; hide Leavers; hide Retired;
    hide Removals; hide Forwards;
    var n := from.node;
    var t, q := TableOf(s.nodes, n), r - AddrsOf(r, n);
    TableOfGood(s.nodes, n, r);
    LeftGood(t, n, r, 0);
    ReplaceStands(s.nodes, r, n, Left(t, 0), q);
    TableOfGood(s.nodes[n := Left(t, 0)], s.local, q);
    RetiredIsRemovals(Leavers(t, 0), Abstract(s, r));
    LocalsGood(Handled(s, from, m), q);
  }

  lemma {:induction false} DelClientAgrees(s: Store, r: Registry, from: Addr, c: Addr, order: seq<Id>)
    requires Standing(s.nodes, r)
    ensures Agrees(s, r, from, DelClient(c), order, [],
                   if Rejected(s, from, DelClient(c)) then [] else Locals(Handled(s, from, DelClient(c))))
  {
    hide TableGood; hide Standing; hide Locals; hide Lists; hide Forwards; hide Removal; hide Kept; hide Without;
    hide EntryAt;
    if !Rejected(s, from, DelClient(c)) {
      EntryGood(s.nodes, r, c);
      TableOfGood(Without(s.nodes, c), s.local, r - {c});
      LocalsGood(Handled(s, from, DelClient(c)), r - {c});
    }
  }

  lemma {:induction false} NewServerAgrees(s: Store, r: Registry, from: Addr, w: Service, at: Addr, order: seq<Id>)
    requires Standing(s.nodes, r) && MayPut(s, from, NewServer(w, at))
    ensures Agrees(s, r, from, NewServer(w, at), order, [], [])
  {
    hide TableGood; hide Standing; hide Arrival; hide Reputted; hide HashU32; hide CanPut;
    if !Rejected(s, from, NewServer(w, at)) {
      var a := Claimed(s.local, from, at);
      var t := TableOf(s.nodes, a.node);
      TableOfGood(s.nodes, a.node, r);
      ReputtedGood(t, a, w, r);
      ReplaceStands(s.nodes, r, a.node, Reputted(t, HashU32(a.port), Registered(w, a)), r[a := w]);
    }
  }

  lemma {:induction false} DelServerAgrees(s: Store, r: Registry, from: Addr, w: Service, at: Addr, order: seq<Id>)
    requires Standing(s.nodes, r)
    ensures Agrees(s, r, from, DelServer(w, at), order, [], [])
  {
    hide TableGood; hide Standing; hide Removal; hide Without; hide EntryAt;
    var a := Claimed(s.local, from, at);
    EntryGood(s.nodes, r, a);
    assert a !in r ==> r - {a} == r;
  }

  lemma {:induction false} NewLookupAgrees(s: Store, r: Registry, from: Addr, sv: Word, i: Word, order: seq<Id>)
    requires Standing(s.nodes, r) && Visits(s, from, NewLookup(sv, i), order)
    ensures Agrees(s, r, from, NewLookup(sv, i), order,
                   if from.node != s.local then [] else Ats(Queried(s.nodes, order, Filter(sv, i, 0))), [])
  {
    hide TableGood; hide Standing; hide Queried; hide Ats; hide Lists; hide Stated; hide Introduced; hide Dump;
    hide Selected; hide OfNodes; hide Matching;
    if from.node != s.local {
      return;
    }
    var f := Filter(sv, i, 0);
    QueriedGood(s.nodes, r, order, f);
    AllNodes(s.nodes, r, order);
    assert Selected(r, f) * r.Keys == Selected(r, f) by {
      SelectedWithin(r, f);
    }
    QueryIsMatching(r, Lookup(sv, i, from));
    IntroducedIsDump(Queried(s.nodes, order, f), r, from);
  }

  lemma {:induction false} SelectedWithin(r: Registry, f: Filter)
    ensures Selected(r, f) * r.Keys == Selected(r, f)
  {
    hide ServerMatch;
  }

  /** Every message on tables that stand for a registry: if a registration may be put, they stand
      for the new registry, and what is sent is what the registry's service sends. */
  lemma {:induction false} Refines(s: Store, r: Registry, from: Addr, m: Message, order: seq<Id>)
    returns (walk: seq<Addr>, told: seq<Addr>)
    requires Standing(s.nodes, r) && MayPut(s, from, m) && Visits(s, from, m, order)
    ensures Agrees(s, r, from, m, order, walk, told)
  {
    walk, told := [], [];
    match m {
      case Hello =>
        HelloAgrees(s, r, from, order);
        walk := Ats(Listed(TableOf(s.nodes, s.local)));
      case Bye(_) =>
        ByeAgrees(s, r, from, m, order);
        walk, told := Ats(Leavers(TableOf(s.nodes, from.node), 0)), Locals(Handled(s, from, m));
      case DelClient(c) =>
        DelClientAgrees(s, r, from, c, order);
        told := if Rejected(s, from, m) then [] else Locals(Handled(s, from, m));
      case NewServer(w, at) => NewServerAgrees(s, r, from, w, at, order);
      case DelServer(w, at) => DelServerAgrees(s, r, from, w, at, order);
      case NewLookup(sv, i) =>
        NewLookupAgrees(s, r, from, sv, i, order);
        walk := if from.node != s.local then [] else Ats(Queried(s.nodes, order, Filter(sv, i, 0)));
      case DelLookup(_, _) =>
      case Other =>
    }
  }

  lemma {:induction false} HandledLocal(s: Store, from: Addr, m: Message)
    ensures Handled(s, from, m).local == s.local
  {
  }

  lemma {:induction false} TwiceNotGood(s: Table, a: Addr, w: Service, r: Registry)
    requires TableGood(s, a.node, r) && !CanPut(s, Own, HashU32(a.port))
    ensures !Unique(Reputted(s, HashU32(a.port), Registered(w, a)))
  {
    hide HashU32; hide Reachable; hide Stands; hide CanPut; hide Rehashed; hide Put; hide LiveCount; hide Unique;
    var key := HashU32(a.port);
    if LiveCount(s) == |s| {
      FullCanPut(s, Own, key);
    }
    PlaceExists(s, Own, key);
    PutUnique(s, Own, key, Registered(w, a));
  }

  /** Exactly then: a registration that may not be put leaves tables that stand for no registry. */
  lemma {:induction false} RefinesExact(s: Store, r: Registry, from: Addr, m: Message)
    requires Standing(s.nodes, r)
    ensures (exists q :: Standing(Handled(s, from, m).nodes, q)) <==> MayPut(s, from, m)
  {
    hide TableGood; hide CanPut; hide HashU32; hide Reputted; hide Standing; hide Left; hide Without; hide With;
    if MayPut(s, from, m) {
      if m.NewLookup? {
        assert Standing(Handled(s, from, m).nodes, r);
      } else {
        var _, _ := Refines(s, r, from, m, []);
        assert Standing(Handled(s, from, m).nodes, After(Abstract(s, r), from, m).servers);
      }
    } else {
      var a := Claimed(s.local, from, m.at);
      TableOfGood(s.nodes, a.node, r);
      TwiceNotGood(TableOf(s.nodes, a.node), a, m.what, r);
      forall q ensures !Standing(Handled(s, from, m).nodes, q) {
        NotStanding(Handled(s, from, m).nodes, a.node, q);
      }
    }
  }

  lemma {:induction false} NotStanding(nodes: Nodes, n: Id, q: Registry)
    requires n in nodes && !Unique(nodes[n])
    ensures !Standing(nodes, q)
  {
    hide Unique;
  }

  /** Tables that stand for a valid registry are tidy, so what ServiceTables says applies to them. */
  lemma {:induction false} GoodTidy(s: Table, n: Id, a: State)
    requires TableGood(s, n, a.servers) && NameService.Valid(a)
    ensures Tidy(s, n)
  {
    hide HashU32; hide TableGood; hide Find;
    forall k | 0 <= k < |s| && s[k].Live?
      ensures s[k].key == HashU32(s[k].value.at.port) && s[k].value.at.node == n
      ensures s[k].value.what.service != 0 && s[k].value.at.port != 0
    {
      SlotGood(s, n, a.servers, k);
    }
  }

  /** A port that is not registered can be, and so can any port of a node nothing of which was
      deleted. */
  lemma {:induction false} FreePort(s: Store, r: Registry, from: Addr, m: Message)
    requires Standing(s.nodes, r) && m.NewServer?
    requires var a := Claimed(s.local, from, m.at);
      a in r ==> forall k :: 0 <= k < |TableOf(s.nodes, a.node)| ==> !TableOf(s.nodes, a.node)[k].Deleted?
    ensures MayPut(s, from, m)
  {
    hide TableGood; hide CanPut; hide HashU32; hide Standing; hide Found;
    var a := Claimed(s.local, from, m.at);
    var t := TableOf(s.nodes, a.node);
    TableOfGood(s.nodes, a.node, r);
    if a in r {
      FreshCanPut(t, Own, HashU32(a.port));
    } else {
      FoundGood(t, a, r);
      UnfoundCanPut(t, HashU32(a.port), a.node, r);
    }
  }

  lemma {:induction false} UnfoundCanPut(s: Table, key: nat, n: Id, r: Registry)
    requires TableGood(s, n, r) && Found(s, key).None?
    ensures CanPut(s, Own, key)
  {
    hide CanPut; hide Stands; hide Told; hide Find; hide Reachable;
    ToldRepresents(s);
    FindAgrees(s, Own, Told(s), key);
    AbsentCanPut(s, Own, key, Told(s));
  }
}
