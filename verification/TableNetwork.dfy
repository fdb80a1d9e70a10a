/** The network of name services with their hash tables: what Network proves about registries holds of the
    tables, as long as every registration may be put. */
module TableNetwork {
  import opened Common
  import opened Probing
  import opened SlotWalk
  import opened HashTable
  import opened HashKey
  import opened NameService
  import opened Replication
  import opened Network
  import opened NameTables
  import opened TableRefinement
  import ServiceTables

  /** As Net, with the tables of every name service in place of its registry. */
  datatype Sites = Sites(at: map<Id, Store>, links: map<Link, seq<Message>>, synced: set<Link>)

  datatype Step =
    | Speak(node: Id, port: Id, msg: Message, order: seq<Id>)
    | Hear(link: Link, order: seq<Id>)
    | Reset(node: Id)

  ghost predicate Sited(t: Sites) {
    && (forall a :: a in t.at ==> t.at[a].local == a)
    && forall l :: l in t.links <==> l.src in t.at && l.dst in t.at && l.src != l.dst
  }

  /** The name service that acts in a step, whose message it handles and which. */
  ghost function Actor(e: Step): Id {
    match e
    case Speak(a, _, _, _) => a
    case Hear(l, _) => l.dst
    case Reset(a) => a
  }

  ghost function Sender(e: Step): Addr
    requires !e.Reset?
  {
    match e
    case Speak(a, p, _, _) => Addr(a, p)
    case Hear(l, _) => Addr(l.src, CTRL)
  }

  ghost function Said(t: Sites, e: Step): Message
    requires Sited(t) && CanStep(t, e) && !e.Reset?
  {
    match e
    case Speak(_, _, m, _) => m
    case Hear(l, _) => t.links[l][0]
  }

  ghost predicate CanStep(t: Sites, e: Step)
    requires Sited(t)
  {
    match e
    case Speak(a, p, m, order) => a in t.at && Visits(t.at[a], Addr(a, p), m, order)
    case Hear(l, order) => l in t.links && t.links[l] != [] && Visits(t.at[l.dst], Addr(l.src, CTRL), t.links[l][0], order)
    case Reset(a) => a in t.at
  }

  /** If the step registers a server, its port is free or no deletion marker lies before its entry. */
  ghost predicate StepMayPut(t: Sites, e: Step)
    requires Sited(t) && CanStep(t, e)
  {
    !e.Reset? ==> MayPut(t.at[Actor(e)], Sender(e), Said(t, e))
  }

  ghost function SiteAfter(t: Sites, e: Step, a: Id): Store
    requires Sited(t) && CanStep(t, e) && a in t.at
  {
    if a != Actor(e) then t.at[a]
    else if e.Reset? then Store(a, map[], [])
    else Handled(t.at[a], Sender(e), Said(t, e))
  }

  /** The messages the step puts on a link of the name service that acts. */
  ghost function Emitted(t: Sites, e: Step, l: Link): seq<Message>
    requires Sited(t) && CanStep(t, e) && !e.Reset?
  {
    Picked(Sent(t.at[Actor(e)], Sender(e), Said(t, e), e.order), OnLink(l.dst))
  }

  ghost function LinkAfter(t: Sites, e: Step, l: Link): seq<Message>
    requires Sited(t) && CanStep(t, e) && l in t.links
  {
    if e.Reset? then if l.src == e.node then [Bye(e.node), Hello] else if l.dst == e.node then [] else t.links[l]
    else if e.Hear? && l == e.link then t.links[l][1..]
    else if l.src == Actor(e) then t.links[l] + Emitted(t, e, l)
    else t.links[l]
  }

  ghost predicate InSync(t: Sites, e: Step, l: Link)
    requires Sited(t) && CanStep(t, e) && l in t.links
  {
    match e
    case Speak(_, _, _, _) => l in t.synced
    case Hear(k, _) => l in t.synced || (t.links[k][0] == Hello && l == Link(k.dst, k.src))
    case Reset(a) => l.src == a || (l.dst != a && l in t.synced)
  }

  ghost function Stepped(t: Sites, e: Step): Sites
    requires Sited(t) && CanStep(t, e)
  {
    Sites(map a | a in t.at :: SiteAfter(t, e, a),
          map l | l in t.links :: LinkAfter(t, e, l),
          set l | l in t.links && InSync(t, e, l))
  }

  // ----- One step -----

  /** The tables of every site stand for the registry of the node. */
  ghost predicate Mirrors(t: Sites, n: Net) {
    && t.at.Keys == n.ns.Keys && t.links == n.links && t.synced == n.synced
    && forall a :: a in t.at ==>
         && t.at[a].local == n.ns[a].local == a && t.at[a].lookups == n.ns[a].lookups
         && Standing(t.at[a].nodes, n.ns[a].servers)
  }

  lemma {:induction false} SteppedAt(t: Sites, e: Step)
    requires Sited(t) && CanStep(t, e)
    ensures var t' := Stepped(t, e);
      && t'.at.Keys == t.at.Keys && (forall a :: a in t.at ==> t'.at[a] == SiteAfter(t, e, a))
      && t'.links.Keys == t.links.Keys && (forall l :: l in t.links ==> t'.links[l] == LinkAfter(t, e, l))
  {
    hide SiteAfter; hide LinkAfter; hide InSync; hide Sited; hide CanStep;
  }

  lemma {:induction false} SameMap<K, V>(x: map<K, V>, y: map<K, V>)
    requires x.Keys == y.Keys && forall k :: k in x ==> x[k] == y[k]
    ensures x == y
  {
  }

  /** The links and their state after matching steps. */
  lemma {:induction false} SteppedSame(t: Sites, n: Net, e: Step, f: Event)
    requires Sited(t) && CanStep(t, e) && WellFormed(n) && Enabled(n, f) && Mirrors(t, n)
    requires forall l :: l in t.links ==> LinkAfter(t, e, l) == Flight(n, f, l)
    requires forall l :: l in t.links ==> (InSync(t, e, l) <==> SyncedAfter(n, f, l))
    requires forall a :: a in t.at ==>
      var x, y := SiteAfter(t, e, a), NodeAfter(n, f, a);
      x.local == y.local == a && x.lookups == y.lookups && Standing(x.nodes, y.servers)
    ensures Mirrors(Stepped(t, e), Next(n, f))
  {
    hide SiteAfter; hide LinkAfter; hide Flight; hide SyncedAfter; hide NodeAfter; hide Standing; hide InSync; hide Enabled;
    hide CanStep; hide WellFormed; hide Sited;
    var t', n' := Stepped(t, e), Next(n, f);
    SteppedAt(t, e);
    NextNodes(n, f);
    NextLinks(n, f);
    SameMap(t'.links, n'.links);
    assert t'.synced == n'.synced;
    assert forall a :: a in t'.at.Keys <==> a in t.at.Keys;
  }

  /** A step that handles a message is matched by the same message on the registry. */
  lemma {:induction false} MessageMirrors(t: Sites, n: Net, e: Step) returns (f: Event)
    requires WellFormed(n) && Mirrors(t, n) && Sited(t) && CanStep(t, e) && StepMayPut(t, e) && !e.Reset?
    ensures Enabled(n, f) && Mirrors(Stepped(t, e), Next(n, f))
  {
    hide Standing; hide Handled; hide After; hide Sent; hide Output; hide Order; hide Picked; hide MayPut; hide Visits;
    hide Rejected; hide Refused; hide Valid;
    var a := Actor(e);
    assert a in t.at && a in n.ns.Keys;
    var s, from, m := t.at[a], Sender(e), Said(t, e);
    var walk, told := Refines(s, n.ns[a].servers, from, m, e.order);
    assert Abstract(s, n.ns[a].servers) == n.ns[a];
    f := if e.Speak? then Client(e.node, e.port, e.msg, walk, told) else Deliver(e.link, walk, told);
    assert Enabled(n, f);
    HandledLocal(s, from, m);
    SteppedSame(t, n, e, f);
  }

  lemma {:induction false} NothingStands()
    ensures Standing(map[], map[])
  {
  }

  lemma {:induction false} ResetMirrors(t: Sites, n: Net, e: Step)
    requires WellFormed(n) && Mirrors(t, n) && Sited(t) && CanStep(t, e) && e.Reset?
    ensures Enabled(n, Restart(e.node)) && Mirrors(Stepped(t, e), Next(n, Restart(e.node)))
  {
    hide Valid; hide Standing;
    assert e.node in n.ns.Keys;
    NothingStands();
    SteppedSame(t, n, e, Restart(e.node));
  }

  // ----- Runs -----

  ghost function StartSites(nodes: set<Id>): Sites {
    var n := Start(nodes);
    Sites(map a | a in nodes :: Store(a, map[], []), n.links, n.synced)
  }

  /** Every step can be taken, and every registration finds its port free or no deletion marker
      before its entry. */
  ghost predicate Orderly(t: Sites, run: seq<Step>)
    decreases run
  {
    && Sited(t)
    && (run == [] || (CanStep(t, run[0]) && StepMayPut(t, run[0]) && Orderly(Stepped(t, run[0]), run[1..])))
  }

  ghost function Reached(t: Sites, run: seq<Step>): Sites
    requires Orderly(t, run)
    decreases run
  {
    if run == [] then t else Reached(Stepped(t, run[0]), run[1..])
  }

  /** Every orderly run of the tables is matched by a run of the registries. */
  lemma {:induction false} RunMirrors(t: Sites, n: Net, run: seq<Step>) returns (fs: seq<Event>)
    requires WellFormed(n) && Mirrors(t, n) && Orderly(t, run)
    ensures Legal(n, fs) && Mirrors(Reached(t, run), Run(n, fs))
    decreases run
  {
    hide Mirrors; hide WellFormed; hide Enabled; hide CanStep; hide Sited; hide StepMayPut; hide Stepped; hide Next;
    if run == [] {
      fs := [];
    } else {
      var e := run[0];
      var f := if e.Reset? then Restart(e.node) else Restart(0);
      if e.Reset? {
        ResetMirrors(t, n, e);
      } else {
        f := MessageMirrors(t, n, e);
      }
      NextWellFormed(n, f);
      var rest := RunMirrors(Stepped(t, e), Next(n, f), run[1..]);
      fs := [f] + rest;
      assert fs[1..] == rest;
    }
  }

  lemma {:induction false} StartMirrors(nodes: set<Id>)
    ensures WellFormed(Start(nodes)) && Mirrors(StartSites(nodes), Start(nodes))
  {
    hide Valid; hide Standing;
    StartReplicated(nodes);
    NothingStands();
  }

  // ----- What a peer knows -----

  /** The servers in the table a name service keeps of node n. */
  ghost function Known(s: Store, n: Id): Registry {
    ServiceTables.Heard(TableOf(s.nodes, n), n)
  }

  lemma {:induction false} AppliedWithin(n: Id, v: Registry, ms: seq<Message>)
    requires forall a :: a in v ==> a.node == n
    ensures forall a :: a in Applied(v, n, ms) ==> a.node == n
  {
    if ms != [] {
      AppliedWithin(n, v, ms[..|ms| - 1]);
    }
  }

  /** It is what the registry has of that node. */
  lemma {:induction false} KnownIsView(s: Store, n: Id, b: State)
    requires Standing(s.nodes, b.servers) && NameService.Valid(b)
    ensures Known(s, n) == View(b.servers, n)
  {
    hide Standing; hide HashU32; hide Told; hide NameService.Valid; hide TableGood; hide ServiceTables.Dumped; hide Applied;
    var t, r := TableOf(s.nodes, n), b.servers;
    TableOfGood(s.nodes, n, r);
    GoodTidy(t, n, b);
    AppliedWithin(n, map[], ServiceTables.Dumped(t));
    forall a: Addr ensures a in Known(s, n) <==> a in View(r, n)
      ensures a in Known(s, n) ==> Known(s, n)[a] == View(r, n)[a]
    {
      if a.node == n {
        ServiceTables.HeardIsTold(t, n, a);
        GoodStands(t, n, r);
        ServiceTables.StandsAt(Told(t), n, r, a);
      }
    }
  }

  lemma {:induction false} GoodStands(s: ServiceTables.Table, n: Id, r: Registry)
    requires TableGood(s, n, r)
    ensures ServiceTables.Stands(Told(s), n, r)
  {
  }

  /** In every state that any number of name services reach by an orderly run, whatever clients do and
      whichever nodes restart: the table kept of a peer, with what is in flight applied, has only
      entries of the peer's own table; all of them on a synced link, and otherwise a HELLO is on its
      way back. */
  lemma {:induction false} TablesReplicated(nodes: set<Id>, run: seq<Step>, a: Id, b: Id)
    requires Orderly(StartSites(nodes), run) && a in nodes && b in nodes && a != b
    ensures var t := Reached(StartSites(nodes), run);
      && a in t.at && b in t.at && Link(a, b) in t.links && Link(b, a) in t.links
      && var v := Applied(Known(t.at[b], a), a, t.links[Link(a, b)]);
         && Sub(v, Known(t.at[a], a))
         && (Link(a, b) in t.synced ==> v == Known(t.at[a], a))
         && (Link(a, b) !in t.synced ==> Hello in t.links[Link(b, a)])
  {
    hide Standing; hide Applied; hide View; hide Sub; hide Start; hide Legal; hide Run; hide Orderly; hide Reached;
    hide Known; hide StartSites; hide Next; hide NameService.Valid;
    StartMirrors(nodes);
    var n0 := Start(nodes);
    var fs := RunMirrors(StartSites(nodes), n0, run);
    AlwaysReplicated(nodes, fs, a, b);
    StartReplicated(nodes);
    RunKeeps(n0, fs);
    var t, n := Reached(StartSites(nodes), run), Run(n0, fs);
    assert a in t.at.Keys && b in t.at.Keys;
    KnownIsView(t.at[b], a, n.ns[b]);
    KnownIsView(t.at[a], a, n.ns[a]);
  }

  /** So, on a synced link with nothing in flight, a peer answers for every port of a node as the node
      does itself. */
  lemma {:induction false} SameAnswers(nodes: set<Id>, run: seq<Step>, a: Id, b: Id, port: Id)
    requires Orderly(StartSites(nodes), run) && a in nodes && b in nodes && a != b
    ensures var t := Reached(StartSites(nodes), run);
      && a in t.at && b in t.at && Link(a, b) in t.links
      && (Link(a, b) in t.synced && t.links[Link(a, b)] == [] ==>
          EntryAt(t.at[b].nodes, Addr(a, port)) == EntryAt(t.at[a].nodes, Addr(a, port)))
  {
    hide Standing; hide Applied; hide Sub; hide Start; hide Legal; hide Run; hide Orderly; hide Reached;
    hide StartSites; hide Next; hide NameService.Valid; hide EntryAt;
    StartMirrors(nodes);
    var n0 := Start(nodes);
    var fs := RunMirrors(StartSites(nodes), n0, run);
    AlwaysReplicated(nodes, fs, a, b);
    var t, n := Reached(StartSites(nodes), run), Run(n0, fs);
    assert a in t.at.Keys && b in t.at.Keys;
    NothingApplied(View(n.ns[b].servers, a), a);
    var x := Addr(a, port);
    EntryGood(t.at[a].nodes, n.ns[a].servers, x);
    EntryGood(t.at[b].nodes, n.ns[b].servers, x);
    ViewMember(n.ns[a].servers, x, a);
    ViewMember(n.ns[b].servers, x, a);
  }
}
