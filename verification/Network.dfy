/** Runs of a network of name services: clients speak, links deliver, nodes restart. */
module Network {
  import opened Common
  import opened NameService
  import opened Replication

  datatype Link = Link(src: Id, dst: Id)

  /** The name services, the messages in flight, and the links whose receiver has had the
      whole of the sender's servers announced to it. */
  datatype Net = Net(ns: map<Id, State>, links: map<Link, seq<Message>>, synced: set<Link>)

  datatype Event =
    | Client(node: Id, port: Id, msg: Message, walk: seq<Addr>, told: seq<Addr>)
    | Deliver(link: Link, walk: seq<Addr>, told: seq<Addr>)
    | Restart(node: Id)

  ghost predicate WellFormed(n: Net) {
    && (forall a :: a in n.ns ==> n.ns[a].local == a && Valid(n.ns[a]))
    && forall l :: l in n.links <==> l.src in n.ns && l.dst in n.ns && l.src != l.dst
  }

  ghost predicate Enabled(n: Net, e: Event)
    requires WellFormed(n)
  {
    match e
    case Client(a, p, m, walk, told) => a in n.ns && Order(n.ns[a], Addr(a, p), m, walk, told)
    case Deliver(l, walk, told) =>
      l in n.links && n.links[l] != [] && Order(n.ns[l.dst], Addr(l.src, CTRL), n.links[l][0], walk, told)
    case Restart(a) => a in n.ns
  }

  /** The name service whose message handler runs, and what it is given. */
  ghost function NodeAfter(n: Net, e: Event, a: Id): State
    requires WellFormed(n) && Enabled(n, e) && a in n.ns
  {
    match e
    case Client(b, p, m, _, _) => if a == b then After(n.ns[a], Addr(a, p), m) else n.ns[a]
    case Deliver(l, _, _) => if a == l.dst then After(n.ns[a], Addr(l.src, CTRL), n.links[l][0]) else n.ns[a]
    case Restart(b) => if a == b then State(a, map[], []) else n.ns[a]
  }

  /** The messages in flight on a link afterwards. A restart loses what was in flight, tells
      the peers BYE, and the new name service says HELLO. */
  ghost function Flight(n: Net, e: Event, l: Link): seq<Message>
    requires WellFormed(n) && Enabled(n, e) && l in n.links
  {
    match e
    case Client(a, p, m, walk, told) =>
      if l.src == a then n.links[l] + Picked(Output(n.ns[a], Addr(a, p), m, walk, told), OnLink(l.dst))
      else n.links[l]
    case Deliver(k, walk, told) =>
      if l == k then n.links[l][1..]
      else if l.src == k.dst
      then n.links[l] + Picked(Output(n.ns[k.dst], Addr(k.src, CTRL), n.links[k][0], walk, told), OnLink(l.dst))
      else n.links[l]
    case Restart(a) => if l.src == a then [Bye(a), Hello] else if l.dst == a then [] else n.links[l]
  }

  ghost predicate SyncedAfter(n: Net, e: Event, l: Link)
    requires WellFormed(n) && Enabled(n, e) && l in n.links
  {
    match e
    case Client(_, _, _, _, _) => l in n.synced
    case Deliver(k, _, _) => l in n.synced || (n.links[k][0] == Hello && l == Link(k.dst, k.src))
    case Restart(a) => l.src == a || (l.dst != a && l in n.synced)
  }

  ghost function Next(n: Net, e: Event): Net
    requires WellFormed(n) && Enabled(n, e)
  {
    Net(map a | a in n.ns :: NodeAfter(n, e, a),
        map l | l in n.links :: Flight(n, e, l),
        set l | l in n.links && SyncedAfter(n, e, l))
  }

  lemma {:induction false} NextNodes(n: Net, e: Event)
    requires WellFormed(n) && Enabled(n, e)
    ensures var n' := Next(n, e);
      n'.ns.Keys == n.ns.Keys && forall a :: a in n.ns ==> n'.ns[a] == NodeAfter(n, e, a)
  {
    hide NodeAfter; hide Flight; hide SyncedAfter; hide Enabled; hide WellFormed;
  }

  lemma {:induction false} NextLinks(n: Net, e: Event)
    requires WellFormed(n) && Enabled(n, e)
    ensures var n' := Next(n, e);
      && n'.links.Keys == n.links.Keys && (forall l :: l in n.links ==> n'.links[l] == Flight(n, e, l))
      && forall l :: l in n.links ==> (l in n'.synced <==> SyncedAfter(n, e, l))
  {
    hide NodeAfter; hide Flight; hide SyncedAfter; hide Enabled; hide WellFormed;
  }

  lemma {:induction false} NodeAfterValid(n: Net, e: Event, a: Id)
    requires WellFormed(n) && Enabled(n, e) && a in n.ns
    ensures NodeAfter(n, e, a).local == a && Valid(NodeAfter(n, e, a))
  {
    hide Order; hide After; hide Output; hide Valid;
    match e {
      case Client(b, p, m, _, _) => AfterValid(n.ns[a], Addr(a, p), m);
      case Deliver(l, _, _) => AfterValid(n.ns[a], Addr(l.src, CTRL), n.links[l][0]);
      case Restart(b) => EmptyValid(a);
    }
  }

  lemma {:induction false} NextWellFormed(n: Net, e: Event)
    requires WellFormed(n) && Enabled(n, e)
    ensures WellFormed(Next(n, e))
  {
    hide NodeAfter; hide Enabled; hide Next; hide Valid; hide Flight; hide SyncedAfter;
    NextNodes(n, e);
    NextLinks(n, e);
    forall a | a in n.ns ensures NodeAfter(n, e, a).local == a && Valid(NodeAfter(n, e, a)) {
      NodeAfterValid(n, e, a);
    }
    var n' := Next(n, e);
    assert forall l :: l in n'.links.Keys <==> l in n.links.Keys;
    assert forall a :: a in n'.ns.Keys <==> a in n.ns.Keys;
  }

  /** The ends of a link. */
  lemma {:induction false} Ends(n: Net, l: Link)
    requires WellFormed(n) && l in n.links
    ensures l.src in n.ns && l.dst in n.ns && l.src != l.dst && Link(l.dst, l.src) in n.links
    ensures n.ns[l.src].local == l.src && n.ns[l.dst].local == l.dst && Valid(n.ns[l.src]) && Valid(n.ns[l.dst])
  {
  }

  lemma {:induction false} EmptyValid(a: Id)
    ensures Valid(State(a, map[], []))
  {
  }

  // ----- The invariant of one link -----

  /** The receiver's view of the sender, once it has applied what is in flight, has no server
      the sender lacks; if synced it is the sender's own; if not, a HELLO is on its way back. */
  ghost predicate Good(own: State, peer: State, flight: seq<Message>, back: seq<Message>, synced: bool) {
    var v := Applied(View(peer.servers, own.local), own.local, flight);
    && Sub(v, View(own.servers, own.local))
    && (synced ==> v == View(own.servers, own.local))
    && (!synced ==> Hello in back)
  }

  ghost predicate GoodLink(n: Net, l: Link)
    requires WellFormed(n) && l in n.links
  {
    Good(n.ns[l.src], n.ns[l.dst], n.links[l], n.links[Link(l.dst, l.src)], l in n.synced)
  }

  ghost predicate Replicated(n: Net)
    requires WellFormed(n)
  {
    forall l :: l in n.links ==> GoodLink(n, l)
  }

  lemma {:induction false} ClientOfSource(own: State, peer: State, flight: seq<Message>, back: seq<Message>,
                                          synced: bool,
                       port: Id, m: Message, walk: seq<Addr>, told: seq<Addr>)
    requires Good(own, peer, flight, back, synced) && Valid(own) && peer.local != own.local
    requires Order(own, Addr(own.local, port), m, walk, told)
    ensures var from := Addr(own.local, port);
      Good(After(own, from, m), peer,
           flight + Picked(Output(own, from, m, walk, told), OnLink(peer.local)), back, synced)
  {
    hide Order; hide After; hide Output; hide Valid; hide View; hide Sub; hide Applied; hide Picked; hide LinkMessages;
    var from, n := Addr(own.local, port), own.local;
    var w := View(peer.servers, n);
    LinkOutput(own, from, m, walk, told, peer.local);
    PeersFollow(own, port, m, walk, told, peer.local, Applied(w, n, flight));
    AppliedConcat(w, n, flight, LinkMessages(own, from, m, walk, told, peer.local));
    AfterValid(own, from, m);
  }

  lemma {:induction false} ClientOfPeer(own: State, peer: State, flight: seq<Message>, back: seq<Message>, synced: bool,
                     port: Id, m: Message, more: seq<Message>)
    requires Good(own, peer, flight, back, synced) && peer.local != own.local
    ensures Good(own, After(peer, Addr(peer.local, port), m), flight, back + more, synced)
  {
    hide After; hide View; hide Sub; hide Applied;
    LocalMessage(peer, port, m, own.local);
  }

  /** The receiver takes the first message in flight. */
  lemma {:induction false} PeerReceives(own: State, peer: State, flight: seq<Message>, back: seq<Message>,
                                        synced: bool, more: seq<Message>)
    requires Good(own, peer, flight, back, synced) && peer.local != own.local && flight != []
    ensures Good(own, After(peer, Addr(own.local, CTRL), flight[0]), flight[1..], back + more, synced)
  {
    hide After; hide View; hide Sub; hide Applied; hide Apply;
    PeerMessage(peer, own.local, flight[0], own.local);
    AppliedFirst(View(peer.servers, own.local), own.local, flight);
  }

  /** The receiver takes a message from a third node. */
  lemma {:induction false} PeerHearsOther(own: State, peer: State, flight: seq<Message>, back: seq<Message>,
                                          synced: bool,
                       c: Id, m: Message, more: seq<Message>)
    requires Good(own, peer, flight, back, synced) && c != peer.local && c != own.local
    ensures Good(own, After(peer, Addr(c, CTRL), m), flight, back + more, synced)
  {
    hide After; hide View; hide Sub; hide Applied;
    PeerMessage(peer, c, m, own.local);
  }

  /** On messages from another node, only a HELLO is answered on a link, on the way back. */
  lemma {:induction false} RemoteOnLink(s: State, c: Id, m: Message, walk: seq<Addr>, told: seq<Addr>, peer: Id)
    requires c != s.local && Order(s, Addr(c, CTRL), m, walk, told)
    ensures LinkMessages(s, Addr(c, CTRL), m, walk, told, peer)
         == if m == Hello && c == peer then [Hello] + Announcements(s.servers, walk) else []
  {
    hide Kept; hide Announcements;
    if m.Bye? {
      FarewellsNone(s.servers, walk, s.local);
    }
  }

  /** The sender takes a message from any other node. */
  lemma {:induction false} SourceReceives(own: State, peer: State, flight: seq<Message>, back: seq<Message>,
                                          synced: bool,
                       c: Id, m: Message, walk: seq<Addr>, told: seq<Addr>, back': seq<Message>)
    requires Good(own, peer, flight, back, synced) && Valid(own) && peer.local != own.local && c != own.local
    requires Order(own, Addr(c, CTRL), m, walk, told)
    requires (m == Hello && c == peer.local) || (Hello in back ==> Hello in back')
    ensures Good(After(own, Addr(c, CTRL), m), peer,
                 flight + Picked(Output(own, Addr(c, CTRL), m, walk, told), OnLink(peer.local)),
                 back', synced || (m == Hello && c == peer.local))
  {
    hide Order; hide After; hide Output; hide Valid; hide View; hide Sub; hide Applied; hide Picked; hide LinkMessages;
    hide Announcements;
    var from, n := Addr(c, CTRL), own.local;
    var w := View(peer.servers, n);
    AfterValid(own, from, m);
    PeerMessage(own, c, m, n);
    LinkOutput(own, from, m, walk, told, peer.local);
    RemoteOnLink(own, c, m, walk, told, peer.local);
    if m == Hello && c == peer.local {
      OrderHello(own, from, walk, told);
      AppliedConcat(w, n, flight, [Hello] + Announcements(own.servers, walk));
      HelloCatchesUp(own, walk, Applied(w, n, flight));
      SubSelf(View(own.servers, n));
    } else {
      assert flight + [] == flight;
    }
  }

  lemma {:induction false} OrderHello(s: State, from: Addr, walk: seq<Addr>, told: seq<Addr>)
    requires Order(s, from, Hello, walk, told)
    ensures Lists(walk, AddrsOf(s.servers, s.local))
  {
  }

  lemma {:induction false} SubSelf(v: Registry)
    ensures Sub(v, v)
  {
  }

  lemma {:induction false} SourceRestarts(own: Id, peer: State, back: seq<Message>)
    ensures Good(State(own, map[], []), peer, [Bye(own), Hello], back, true)
  {
    hide Applied; hide View;
    var w := View(peer.servers, own);
    assert [Bye(own), Hello] == [Bye(own)] + [Hello];
    AppliedConcat(w, own, [Bye(own)], [Hello]);
    AppliedOne(w, own, Bye(own));
    AppliedOne(map[], own, Hello);
    ViewEmpty(own);
  }

  lemma {:induction false} PeerRestarts(own: State, peer: Id)
    ensures Good(own, State(peer, map[], []), [], [Bye(peer), Hello], false)
  {
    hide Applied; hide View;
    ViewEmpty(own.local);
    NothingApplied(map[], own.local);
    assert [Bye(peer), Hello][1] == Hello;
  }

  lemma {:induction false} ViewEmpty(n: Id)
    ensures View(map[], n) == map[]
  {
  }

  // ----- The invariant of the network -----

  ghost predicate Keeps(n: Net, e: Event, l: Link)
    requires WellFormed(n) && Enabled(n, e) && l in n.links
  {
    Good(NodeAfter(n, e, l.src), NodeAfter(n, e, l.dst), Flight(n, e, l), Flight(n, e, Link(l.dst, l.src)),
         SyncedAfter(n, e, l))
  }

  lemma {:induction false} GoodNext(n: Net, e: Event, l: Link)
    requires WellFormed(n) && Enabled(n, e) && l in n.links && WellFormed(Next(n, e)) && Keeps(n, e, l)
    ensures l in Next(n, e).links && GoodLink(Next(n, e), l)
  {
    hide Good; hide NodeAfter; hide Flight; hide SyncedAfter; hide Enabled; hide WellFormed; hide Next;
    Ends(n, l);
    NextNodes(n, e);
    NextLinks(n, e);
  }

  lemma {:induction false} ClientKeeps(n: Net, e: Event, l: Link)
    requires WellFormed(n) && Enabled(n, e) && e.Client? && l in n.links && GoodLink(n, l)
    ensures Keeps(n, e, l)
  {
    hide Good; hide Order; hide After; hide Output; hide Picked; hide Valid; hide OnLink; hide WellFormed;
    Ends(n, l);
    var src, dst, back := n.ns[l.src], n.ns[l.dst], n.links[Link(l.dst, l.src)];
    if e.node == l.src {
      ClientOfSource(src, dst, n.links[l], back, l in n.synced, e.port, e.msg, e.walk, e.told);
    } else if e.node == l.dst {
      var more := Picked(Output(dst, Addr(l.dst, e.port), e.msg, e.walk, e.told), OnLink(l.src));
      ClientOfPeer(src, dst, n.links[l], back, l in n.synced, e.port, e.msg, more);
    }
  }

  lemma {:induction false} DeliverKeeps(n: Net, e: Event, l: Link)
    requires WellFormed(n) && Enabled(n, e) && e.Deliver? && l in n.links && GoodLink(n, l)
    ensures Keeps(n, e, l)
  {
    hide Good; hide Order; hide After; hide Output; hide Picked; hide Valid; hide OnLink; hide WellFormed;
    Ends(n, l);
    Ends(n, e.link);
    if l.dst == e.link.dst {
      DeliverToPeer(n, e, l);
    } else if l.src == e.link.dst {
      DeliverToSource(n, e, l);
    }
  }

  lemma {:induction false} DeliverToPeer(n: Net, e: Event, l: Link)
    requires WellFormed(n) && Enabled(n, e) && e.Deliver? && l in n.links && GoodLink(n, l) && l.dst == e.link.dst
    ensures Keeps(n, e, l)
  {
    hide Good; hide Order; hide After; hide Output; hide Picked; hide Valid; hide OnLink; hide WellFormed;
    Ends(n, l);
    Ends(n, e.link);
    var src, dst, back := n.ns[l.src], n.ns[l.dst], n.links[Link(l.dst, l.src)];
    var c, m := e.link.src, n.links[e.link][0];
    var more := Picked(Output(dst, Addr(c, CTRL), m, e.walk, e.told), OnLink(l.src));
    if l.src == c {
      PeerReceives(src, dst, n.links[l], back, l in n.synced, more);
    } else {
      PeerHearsOther(src, dst, n.links[l], back, l in n.synced, c, m, more);
    }
  }

  lemma {:induction false} DeliverToSource(n: Net, e: Event, l: Link)
    requires WellFormed(n) && Enabled(n, e) && e.Deliver? && l in n.links && GoodLink(n, l) && l.src == e.link.dst
    ensures Keeps(n, e, l)
  {
    hide Good; hide Order; hide After; hide Output; hide Picked; hide Valid; hide OnLink; hide WellFormed;
    Ends(n, l);
    Ends(n, e.link);
    var src, dst, back := n.ns[l.src], n.ns[l.dst], n.links[Link(l.dst, l.src)];
    var c, m := e.link.src, n.links[e.link][0];
    var back' := if l.dst == c then back[1..] else back;
    SourceReceives(src, dst, n.links[l], back, l in n.synced, c, m, e.walk, e.told, back');
  }

  lemma {:induction false} RestartKeeps(n: Net, e: Event, l: Link)
    requires WellFormed(n) && Enabled(n, e) && e.Restart? && l in n.links && GoodLink(n, l)
    ensures Keeps(n, e, l)
  {
    hide Good; hide Order; hide After; hide Output; hide Picked; hide Valid; hide OnLink;
    if e.node == l.src {
      SourceRestarts(l.src, n.ns[l.dst], []);
    } else if e.node == l.dst {
      PeerRestarts(n.ns[l.src], l.dst);
    }
  }

  /** Every event keeps every link good. */
  lemma {:induction false} EventKeeps(n: Net, e: Event)
    requires WellFormed(n) && Enabled(n, e) && Replicated(n)
    ensures WellFormed(Next(n, e)) && Replicated(Next(n, e))
  {
    hide Good; hide Order; hide NodeAfter; hide Flight; hide SyncedAfter; hide GoodLink; hide Enabled;
    NextWellFormed(n, e);
    forall l | l in n.links ensures GoodLink(Next(n, e), l) {
      match e {
        case Client(_, _, _, _, _) => ClientKeeps(n, e, l);
        case Deliver(_, _, _) => DeliverKeeps(n, e, l);
        case Restart(_) => RestartKeeps(n, e, l);
      }
      GoodNext(n, e, l);
    }
  }

  // ----- Runs -----

  /** All nodes up, nothing registered, nothing in flight. */
  ghost function Start(nodes: set<Id>): Net {
    var links := set a, b | a in nodes && b in nodes && a != b :: Link(a, b);
    Net(map a | a in nodes :: State(a, map[], []), map l | l in links :: [], links)
  }

  lemma {:induction false} StartLinks(nodes: set<Id>, l: Link)
    ensures l in Start(nodes).links <==> l.src in nodes && l.dst in nodes && l.src != l.dst
    ensures l in Start(nodes).links ==> l in Start(nodes).synced && Start(nodes).links[l] == []
  {
    assert l == Link(l.src, l.dst);
  }

  lemma {:induction false} StartReplicated(nodes: set<Id>)
    ensures WellFormed(Start(nodes)) && Replicated(Start(nodes))
  {
    hide Applied; hide View; hide Valid;
    var n := Start(nodes);
    assert WellFormed(n) by {
      forall a | a in nodes ensures Valid(n.ns[a]) {
        EmptyValid(a);
      }
      forall l ensures l in n.links <==> l.src in n.ns && l.dst in n.ns && l.src != l.dst {
        StartLinks(nodes, l);
      }
    }
    forall l | l in n.links ensures GoodLink(n, l) {
      StartLinks(nodes, l);
      StartLinks(nodes, Link(l.dst, l.src));
      StartGood(n.ns[l.src], n.ns[l.dst], n.links[Link(l.dst, l.src)]);
    }
  }

  lemma {:induction false} StartGood(own: State, peer: State, back: seq<Message>)
    requires own.servers == peer.servers == map[]
    ensures Good(own, peer, [], back, true)
  {
    ViewEmpty(own.local);
    NothingApplied(map[], own.local);
  }

  ghost predicate Legal(n: Net, run: seq<Event>)
    decreases run
  {
    WellFormed(n) && (run == [] || (Enabled(n, run[0]) && Legal(Next(n, run[0]), run[1..])))
  }

  ghost function Run(n: Net, run: seq<Event>): Net
    requires Legal(n, run)
    decreases run
  {
    if run == [] then n else Run(Next(n, run[0]), run[1..])
  }

  lemma {:induction false} RunKeeps(n: Net, run: seq<Event>)
    requires Legal(n, run) && Replicated(n)
    ensures WellFormed(Run(n, run)) && Replicated(Run(n, run))
    decreases run
  {
    hide Good; hide Enabled; hide Next; hide WellFormed; hide Replicated;
    if run != [] {
      EventKeeps(n, run[0]);
      RunKeeps(Next(n, run[0]), run[1..]);
    }
  }

  /** In every reachable state of any number of name services, on every link: the receiver's
      view of the sender, with what is in flight applied, has only the sender's own servers;
      on a synced link it has all of them, and on any other a HELLO is on its way back. */
  lemma {:induction false} AlwaysReplicated(nodes: set<Id>, run: seq<Event>, a: Id, b: Id)
    requires Legal(Start(nodes), run) && a in nodes && b in nodes && a != b
    ensures var n := Run(Start(nodes), run);
      && a in n.ns && b in n.ns && Link(a, b) in n.links && Link(b, a) in n.links
      && var v := Applied(View(n.ns[b].servers, a), a, n.links[Link(a, b)]);
         && Sub(v, View(n.ns[a].servers, a))
         && (Link(a, b) in n.synced ==> v == View(n.ns[a].servers, a))
         && (Link(a, b) !in n.synced ==> Hello in n.links[Link(b, a)])
  {
    hide Applied; hide View; hide Sub; hide Start; hide Legal; hide Run; hide Enabled; hide Next;
    StartReplicated(nodes);
    var n0 := Start(nodes);
    RunKeeps(n0, run);
    RunNodes(n0, run);
    StartNodes(nodes);
    var n := Run(n0, run);
    assert GoodLink(n, Link(a, b));
  }

  /** From an empty start, or from the handling of the receiver's HELLO on, a link stays synced
      until its receiver restarts, whatever else happens. */
  lemma {:induction false} StaysSynced(n: Net, run: seq<Event>, l: Link)
    requires Legal(n, run) && l in n.links && Restart(l.dst) !in run
    requires l in n.synced
    ensures l in Run(n, run).links && l in Run(n, run).synced
    decreases run
  {
    hide Next; hide WellFormed; hide Enabled; hide Flight; hide NodeAfter;
    if run != [] {
      NextLinks(n, run[0]);
      assert SyncedAfter(n, run[0], l);
      StaysSynced(Next(n, run[0]), run[1..], l);
    }
  }

  /** Two nodes that start together agree, once what is in flight is applied, throughout any
      run in which the receiver does not restart. */
  lemma {:induction false} SameServers(nodes: set<Id>, run: seq<Event>, a: Id, b: Id)
    requires Legal(Start(nodes), run) && a in nodes && b in nodes && a != b && Restart(b) !in run
    ensures var n := Run(Start(nodes), run);
      && a in n.ns && b in n.ns && Link(a, b) in n.links
      && Applied(View(n.ns[b].servers, a), a, n.links[Link(a, b)]) == View(n.ns[a].servers, a)
  {
    hide Applied; hide View; hide Sub; hide Start; hide Legal; hide Run; hide Enabled; hide Next;
    AlwaysReplicated(nodes, run, a, b);
    StartLinks(nodes, Link(a, b));
    StaysSynced(Start(nodes), run, Link(a, b));
  }

  lemma {:induction false} StartNodes(nodes: set<Id>)
    ensures Start(nodes).ns.Keys == nodes
  {
  }

  lemma {:induction false} RunNodes(n: Net, run: seq<Event>)
    requires Legal(n, run)
    ensures Run(n, run).ns.Keys == n.ns.Keys
    decreases run
  {
    hide NodeAfter; hide Flight; hide SyncedAfter; hide Enabled; hide WellFormed;
    if run != [] {
      NextWellFormed(n, run[0]);
      RunNodes(Next(n, run[0]), run[1..]);
    }
  }

  // ----- HELLO is answered by HELLO -----

  ghost function Hellos(ms: seq<Message>): nat {
    if ms == [] then 0 else Hellos(ms[..|ms| - 1]) + if ms[|ms| - 1] == Hello then 1 else 0
  }

  lemma {:induction false} HellosConcat(x: seq<Message>, y: seq<Message>)
    ensures Hellos(x + y) == Hellos(x) + Hellos(y)
  {
    if y == [] {
      assert x + y == x;
    } else {
      assert (x + y)[..|x + y| - 1] == x + y[..|y| - 1];
      HellosConcat(x, y[..|y| - 1]);
    }
  }

  lemma {:induction false} NoHellos(ms: seq<Message>)
    requires Hello !in ms
    ensures Hellos(ms) == 0
  {
    if ms != [] {
      NoHellos(ms[..|ms| - 1]);
    }
  }

  lemma {:induction false} HellosFirst(ms: seq<Message>)
    requires ms != []
    ensures Hellos(ms) == Hellos(ms[1..]) + if ms[0] == Hello then 1 else 0
  {
    assert ms == [ms[0]] + ms[1..];
    HellosConcat([ms[0]], ms[1..]);
    assert Hellos([ms[0]][..0]) == 0;
  }

  lemma {:induction false} DumpNoHello(r: Registry, order: seq<Addr>, local: Id)
    requires forall a :: a in order ==> a in r
    ensures Hello !in Announcements(r, order) && Hello !in Farewells(r, order, local)
  {
    if order != [] {
      DumpNoHello(r, order[..|order| - 1], local);
    }
  }

  lemma {:induction false} HellosOnLink(s: State, from: Addr, m: Message, walk: seq<Addr>, told: seq<Addr>, peer: Id)
    requires Valid(s) && Order(s, from, m, walk, told) && peer != s.local
    ensures Hellos(Picked(Output(s, from, m, walk, told), OnLink(peer)))
         == if m == Hello && from == Addr(peer, CTRL) then 1 else 0
  {
    hide Hellos; hide Announcements; hide Farewells; hide Output; hide Picked; hide Valid; hide After;
    LinkOutput(s, from, m, walk, told, peer);
    var ms := LinkMessages(s, from, m, walk, told, peer);
    if m == Hello && from == Addr(peer, CTRL) {
      DumpNoHello(s.servers, walk, s.local);
      HellosFirst(ms);
      assert ms[1..] == Announcements(s.servers, walk);
      NoHellos(ms[1..]);
    } else {
      if m.Bye? {
        DumpNoHello(s.servers, walk, s.local);
      }
      NoHellos(ms);
    }
  }

  /** The HELLOs in flight between two nodes, both ways. */
  ghost function HellosBetween(n: Net, a: Id, b: Id): nat
    requires Link(a, b) in n.links && Link(b, a) in n.links
  {
    Hellos(n.links[Link(a, b)]) + Hellos(n.links[Link(b, a)])
  }

  ghost predicate Restarts(e: Event, a: Id, b: Id) {
    e.Restart? && (e.node == a || e.node == b)
  }

  lemma {:induction false} ClientHellos(n: Net, e: Event, l: Link)
    requires WellFormed(n) && Enabled(n, e) && e.Client? && l in n.links
    ensures Hellos(Flight(n, e, l)) == Hellos(n.links[l])
  {
    hide Hellos; hide Order; hide Output; hide Picked; hide Valid; hide OnLink; hide WellFormed;
    Ends(n, l);
    if l.src == e.node {
      var from := Addr(e.node, e.port);
      HellosOnLink(n.ns[l.src], from, e.msg, e.walk, e.told, l.dst);
      HellosConcat(n.links[l], Picked(Output(n.ns[l.src], from, e.msg, e.walk, e.told), OnLink(l.dst)));
    }
  }

  lemma {:induction false} DeliverHellos(n: Net, e: Event, l: Link)
    requires WellFormed(n) && Enabled(n, e) && e.Deliver? && l in n.links
    ensures var hello := if n.links[e.link][0] == Hello then 1 else 0;
      Hellos(Flight(n, e, l)) == Hellos(n.links[l])
        - (if l == e.link then hello else 0) + if l == Link(e.link.dst, e.link.src) then hello else 0
  {
    hide Hellos; hide Order; hide Output; hide Picked; hide Valid; hide OnLink; hide WellFormed;
    Ends(n, l);
    Ends(n, e.link);
    var k := e.link;
    if l == k {
      HellosFirst(n.links[l]);
    } else if l.src == k.dst {
      var from, m := Addr(k.src, CTRL), n.links[k][0];
      HellosOnLink(n.ns[l.src], from, m, e.walk, e.told, l.dst);
      HellosConcat(n.links[l], Picked(Output(n.ns[l.src], from, m, e.walk, e.told), OnLink(l.dst)));
    }
  }

  /** As long as neither node restarts, every HELLO delivered between them is replaced by
      another: their number never changes. */
  lemma {:induction false} HellosConserved(n: Net, e: Event, a: Id, b: Id)
    requires WellFormed(n) && Enabled(n, e) && Link(a, b) in n.links && !Restarts(e, a, b)
    ensures Link(b, a) in n.links && Link(a, b) in Next(n, e).links && Link(b, a) in Next(n, e).links
    ensures HellosBetween(Next(n, e), a, b) == HellosBetween(n, a, b)
  {
    hide Hellos; hide Order; hide Output; hide Picked; hide Valid; hide OnLink; hide WellFormed; hide Next;
    Ends(n, Link(a, b));
    NextLinks(n, e);
    match e {
      case Client(_, _, _, _, _) =>
        ClientHellos(n, e, Link(a, b));
        ClientHellos(n, e, Link(b, a));
      case Deliver(_, _, _) =>
        DeliverHellos(n, e, Link(a, b));
        DeliverHellos(n, e, Link(b, a));
      case Restart(_) =>
    }
  }

  /** So over any run without a restart of the two, once a HELLO is in flight between two name
      services one always is. */
  lemma {:induction false} HelloForever(n: Net, run: seq<Event>, a: Id, b: Id)
    requires Legal(n, run) && Link(a, b) in n.links && Link(b, a) in n.links
    requires forall e :: e in run ==> !Restarts(e, a, b)
    ensures var n' := Run(n, run);
      Link(a, b) in n'.links && Link(b, a) in n'.links && HellosBetween(n', a, b) == HellosBetween(n, a, b)
    decreases run
  {
    hide Hellos; hide Next; hide WellFormed; hide Enabled; hide HellosBetween; hide Restarts;
    if run != [] {
      HellosConserved(n, run[0], a, b);
      HelloForever(Next(n, run[0]), run[1..], a, b);
    }
  }
}
