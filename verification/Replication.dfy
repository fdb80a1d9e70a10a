/** Name services on several nodes, joined by links that neither lose nor reorder messages. */
module Replication {
  import opened Common
  import opened NameService

  // ----- A peer's copy of one node's servers -----

  /** What a registry holds of one node. */
  ghost function View(r: Registry, n: Id): Registry {
    map a | a in r && a.node == n :: r[a]
  }

  /** What a message from node n does to the receiver's view of n. */
  ghost function Apply(v: Registry, n: Id, m: Message): Registry {
    match m
    case Bye(_) => map[]
    case DelClient(c) => if c.node == n then v - {c} else v
    case NewServer(w, a) => if a.node == n && w.service != 0 && a.port != 0 then v[a := w] else v
    case DelServer(_, a) => if a.node == n then v - {a} else v
    case _ => v
  }

  ghost function Applied(v: Registry, n: Id, ms: seq<Message>): Registry {
    if ms == [] then v else Apply(Applied(v, n, ms[..|ms| - 1]), n, ms[|ms| - 1])
  }

  lemma {:induction false} AppliedConcat(v: Registry, n: Id, x: seq<Message>, y: seq<Message>)
    ensures Applied(v, n, x + y) == Applied(Applied(v, n, x), n, y)
  {
    if y == [] {
      assert x + y == x;
    } else {
      var init := y[..|y| - 1];
      assert (x + y)[..|x + y| - 1] == x + init;
      AppliedConcat(v, n, x, init);
    }
  }

  lemma {:induction false} AppliedOne(v: Registry, n: Id, m: Message)
    ensures Applied(v, n, [m]) == Apply(v, n, m)
  {
    assert [m][..0] == [];
    assert Applied(v, n, [m][..0]) == v;
  }

  /** Receiving the first message in flight changes nothing about what is to come. */
  lemma {:induction false} AppliedFirst(v: Registry, n: Id, ms: seq<Message>)
    requires ms != []
    ensures Applied(Apply(v, n, ms[0]), n, ms[1..]) == Applied(v, n, ms)
  {
    assert ms == [ms[0]] + ms[1..];
    AppliedConcat(v, n, [ms[0]], ms[1..]);
    AppliedOne(v, n, ms[0]);
  }

  ghost predicate Sub(v: Registry, w: Registry) {
    forall a :: a in v ==> a in w && v[a] == w[a]
  }

  // ----- One name service: what it keeps of the nodes -----

  lemma {:induction false} ViewDrop(r: Registry, a: Addr, c: Id)
    ensures View(r - {a}, c) == View(r, c) - {a}
    ensures a.node != c ==> View(r - {a}, c) == View(r, c)
  {
  }

  lemma {:induction false} ViewPut(r: Registry, a: Addr, w: Service, c: Id)
    ensures View(r[a := w], c) == if a.node == c then View(r, c)[a := w] else View(r, c)
  {
  }

  lemma {:induction false} ViewClear(r: Registry, n: Id, c: Id)
    ensures View(r - AddrsOf(r, n), c) == if c == n then map[] else View(r, c)
  {
  }

  /** A message from a peer changes the view of that peer as Apply says, and no other. */
  lemma {:induction false} PeerMessage(s: State, n: Id, m: Message, c: Id)
    requires n != s.local
    ensures var t := After(s, Addr(n, CTRL), m);
      View(t.servers, c) == if c == n then Apply(View(s.servers, n), n, m) else View(s.servers, c)
  {
    hide Kept; hide View; hide AddrsOf;
    match m {
      case Bye(_) => ViewClear(s.servers, n, c);
      case DelClient(a) => ViewDrop(s.servers, a, c);
      case NewServer(w, a) => ViewPut(s.servers, a, w, c);
      case DelServer(_, a) =>
        ViewDrop(s.servers, a, c);
        ViewMember(s.servers, a, n);
      case _ =>
    }
  }

  lemma {:induction false} ViewMember(r: Registry, a: Addr, n: Id)
    ensures a in View(r, n) <==> a in r && a.node == n
    ensures a !in r ==> View(r, n) - {a} == View(r, n)
  {
  }

  /** A local message changes the view of the local node only. */
  lemma {:induction false} LocalMessage(s: State, port: Id, m: Message, c: Id)
    requires c != s.local
    ensures View(After(s, Addr(s.local, port), m).servers, c) == View(s.servers, c)
  {
    hide Kept; hide View; hide AddrsOf;
    match m {
      case Bye(_) => ViewClear(s.servers, s.local, c);
      case DelClient(a) => ViewDrop(s.servers, a, c);
      case NewServer(w, _) => ViewPut(s.servers, Addr(s.local, port), w, c);
      case DelServer(_, _) => ViewDrop(s.servers, Addr(s.local, port), c);
      case _ =>
    }
  }

  // ----- One name service: what it puts on a link -----

  function OnLink(peer: Id): Dest -> bool {
    (d: Dest) => d.Broadcast? || d == To(Addr(peer, CTRL))
  }

  lemma {:induction false} PickedOne(p: Packet, pick: Dest -> bool)
    ensures Picked([p], pick) == if pick(p.dest) then [p.msg] else []
  {
    assert Picked([p][..0], pick) == [];
  }

  /** Notices stay on the node. */
  lemma {:induction false} NoticesStay(ls: seq<Lookup>, local: Id, w: Service, m: Message, peer: Id)
    requires peer != local && forall l :: l in ls ==> l.sq.node == local
    ensures Picked(Notices(ls, w, m), OnLink(peer)) == []
  {
    if ls != [] {
      var l := ls[|ls| - 1];
      NoticesStay(ls[..|ls| - 1], local, w, m, peer);
      var x := if Matches(l, w) then [Packet(To(l.sq), m)] else [];
      PickedConcat(Notices(ls[..|ls| - 1], w, m), x, OnLink(peer));
      if x != [] {
        PickedOne(x[0], OnLink(peer));
      }
    }
  }

  lemma {:induction false} ForwardsStay(order: seq<Addr>, local: Id, m: Message, peer: Id)
    requires peer != local && forall a :: a in order ==> a.node == local
    ensures Picked(Forwards(order, m), OnLink(peer)) == []
  {
    if order != [] {
      var a := order[|order| - 1];
      ForwardsStay(order[..|order| - 1], local, m, peer);
      PickedConcat(Forwards(order[..|order| - 1], m), [Packet(To(a), m)], OnLink(peer));
      PickedOne(Packet(To(a), m), OnLink(peer));
    }
  }

  /** An optional broadcast followed by notices puts just the broadcast on the link. */
  lemma {:induction false} BroadcastOnly(b: bool, m: Message, ls: seq<Lookup>, local: Id, w: Service, peer: Id)
    requires peer != local && forall l :: l in ls ==> l.sq.node == local
    ensures Picked((if b then [Packet(Broadcast, m)] else []) + Notices(ls, w, m), OnLink(peer))
         == if b then [m] else []
  {
    var x := if b then [Packet(Broadcast, m)] else [];
    PickedConcat(x, Notices(ls, w, m), OnLink(peer));
    NoticesStay(ls, local, w, m, peer);
    if b {
      PickedOne(x[0], OnLink(peer));
    }
  }

  /** The announcements among the removals of servers: one for every local server. */
  ghost function Farewells(r: Registry, order: seq<Addr>, local: Id): seq<Message>
    requires forall a :: a in order ==> a in r
  {
    if order == [] then []
    else var a := order[|order| - 1];
         Farewells(r, order[..|order| - 1], local) + if a.node == local then [DelServer(r[a], a)] else []
  }

  lemma {:induction false} RemovalsOnLink(s: State, order: seq<Addr>, peer: Id)
    requires peer != s.local && Valid(s) && forall a :: a in order ==> a in s.servers
    ensures Picked(Removals(s, order), OnLink(peer)) == Farewells(s.servers, order, s.local)
  {
    if order != [] {
      var init, a := order[..|order| - 1], order[|order| - 1];
      RemovalsOnLink(s, init, peer);
      var w := s.servers[a];
      PickedConcat(Removals(s, init), Removal(s.local, s.lookups, w, a), OnLink(peer));
      BroadcastOnly(a.node == s.local, DelServer(w, a), s.lookups, s.local, w, peer);
    }
  }

  ghost function Announcements(r: Registry, order: seq<Addr>): seq<Message>
    requires forall a :: a in order ==> a in r
  {
    if order == [] then []
    else var a := order[|order| - 1];
         Announcements(r, order[..|order| - 1]) + [NewServer(r[a], a)]
  }

  lemma {:induction false} DumpOnLink(r: Registry, order: seq<Addr>, to: Addr, pick: Dest -> bool)
    requires forall a :: a in order ==> a in r
    ensures Picked(Dump(r, order, to), pick) == if pick(To(to)) then Announcements(r, order) else []
  {
    if order != [] {
      var init, a := order[..|order| - 1], order[|order| - 1];
      DumpOnLink(r, init, to, pick);
      PickedConcat(Dump(r, init, to), [Packet(To(to), NewServer(r[a], a))], pick);
      PickedOne(Packet(To(to), NewServer(r[a], a)), pick);
    }
  }

  // ----- One name service: its peers follow it -----

  /** The peer's view v of node n goes to v' while n's own servers go from x to y. */
  ghost predicate Follows(v: Registry, x: Registry, v': Registry, y: Registry) {
    Sub(v, x) ==> Sub(v', y) && (v == x ==> v' == y)
  }

  ghost function Chosen(r: Registry, order: seq<Addr>): Registry
    requires forall a :: a in order ==> a in r
  {
    map a | a in order :: r[a]
  }

  lemma {:induction false} FarewellsApplied(r: Registry, order: seq<Addr>, n: Id, v: Registry)
    requires forall a :: a in order ==> a in r && a.node == n
    ensures Applied(v, n, Farewells(r, order, n)) == v - Members(order)
  {
    hide Members;
    hide Applied;
    if order == [] {
      NothingApplied(v, n);
    } else {
      var init, a := order[..|order| - 1], order[|order| - 1];
      OneMore(order);
      FarewellsApplied(r, init, n, v);
      AppliedConcat(v, n, Farewells(r, init, n), [DelServer(r[a], a)]);
      AppliedOne(v - Members(init), n, DelServer(r[a], a));
    }
  }

  lemma {:induction false} NothingApplied(v: Registry, n: Id)
    ensures Applied(v, n, []) == v && v - Members([]) == v
    ensures forall r :: v + Chosen(r, []) == v
  {
    forall r ensures v + Chosen(r, []) == v {
    }
  }

  lemma {:induction false} FarewellsNone(r: Registry, order: seq<Addr>, n: Id)
    requires forall a :: a in order ==> a in r && a.node != n
    ensures Farewells(r, order, n) == []
  {
    if order != [] {
      FarewellsNone(r, order[..|order| - 1], n);
    }
  }

  lemma {:induction false} OneMoreChosen(r: Registry, order: seq<Addr>, v: Registry)
    requires order != [] && forall a :: a in order ==> a in r
    ensures forall a :: a in order[..|order| - 1] ==> a in order
    ensures var a := order[|order| - 1]; v + Chosen(r, order) == (v + Chosen(r, order[..|order| - 1]))[a := r[a]]
  {
    assert order == order[..|order| - 1] + [order[|order| - 1]];
  }

  lemma {:induction false} AnnouncementsApplied(r: Registry, order: seq<Addr>, n: Id, v: Registry)
    requires forall a :: a in order ==> a in r && a.node == n && r[a].service != 0 && a.port != 0
    ensures Applied(v, n, Announcements(r, order)) == v + Chosen(r, order)
  {
    hide Chosen; hide Applied;
    if order == [] {
      NothingApplied(v, n);
      assert v + Chosen(r, []) == v;
    } else {
      var init, a := order[..|order| - 1], order[|order| - 1];
      OneMoreChosen(r, order, v);
      AnnouncementsApplied(r, init, n, v);
      AppliedConcat(v, n, Announcements(r, init), [NewServer(r[a], a)]);
      AppliedOne(v + Chosen(r, init), n, NewServer(r[a], a));
    }
  }

  /** What a message makes a name service put on the link to a peer. */
  ghost function LinkMessages(s: State, from: Addr, m: Message, walk: seq<Addr>, told: seq<Addr>,
                              peer: Id): seq<Message>
    requires Order(s, from, m, walk, told)
  {
    if Refused(s, from, m) then []
    else match m
      case Hello => if from == Addr(peer, CTRL) then [Hello] + Announcements(s.servers, walk) else []
      case Bye(_) => Farewells(s.servers, walk, s.local)
      case DelClient(c) => if c in s.servers && c.node == s.local then [DelServer(s.servers[c], c)] else []
      case NewServer(w, at) =>
        var a := Claimed(s.local, from, at);
        if a.node == s.local then [NewServer(w, a)] else []
      case DelServer(_, at) =>
        var a := Claimed(s.local, from, at);
        if a.node == s.local then [DelServer(s.servers[a], a)] else []
      case _ => []
  }

  lemma {:induction false} HelloOnLink(s: State, from: Addr, walk: seq<Addr>, peer: Id)
    requires forall a :: a in walk ==> a in s.servers
    ensures Picked([Packet(To(from), Hello)] + Dump(s.servers, walk, from), OnLink(peer))
         == if from == Addr(peer, CTRL) then [Hello] + Announcements(s.servers, walk) else []
  {
    hide Picked; hide Dump; hide Announcements;
    PickedConcat([Packet(To(from), Hello)], Dump(s.servers, walk, from), OnLink(peer));
    PickedOne(Packet(To(from), Hello), OnLink(peer));
    DumpOnLink(s.servers, walk, from, OnLink(peer));
  }

  lemma {:induction false} AnswerOnLink(r: Registry, from: Addr, walk: seq<Addr>, peer: Id)
    requires from.node != peer && forall a :: a in walk ==> a in r
    ensures Picked(Dump(r, walk, from) + [Packet(To(from), TERMINATOR)], OnLink(peer)) == []
  {
    hide Picked; hide Dump; hide Announcements;
    PickedConcat(Dump(r, walk, from), [Packet(To(from), TERMINATOR)], OnLink(peer));
    PickedOne(Packet(To(from), TERMINATOR), OnLink(peer));
    DumpOnLink(r, walk, from, OnLink(peer));
  }

  lemma {:induction false} DepartureOnLink(x: seq<Packet>, told: seq<Addr>, local: Id, m: Message, peer: Id)
    requires peer != local && forall a :: a in told ==> a.node == local
    ensures Picked(x + Forwards(told, m), OnLink(peer)) == Picked(x, OnLink(peer))
  {
    PickedConcat(x, Forwards(told, m), OnLink(peer));
    ForwardsStay(told, local, m, peer);
  }

  lemma {:induction false} KeptLocal(s: State, drop: Lookup -> bool)
    requires Valid(s)
    ensures forall l :: l in Kept(s.lookups, drop) ==> l.sq.node == s.local
  {
    forall l | l in Kept(s.lookups, drop) ensures l.sq.node == s.local {
      KeptIs(s.lookups, drop, l);
    }
  }

  lemma {:induction false} LinkOutput(s: State, from: Addr, m: Message, walk: seq<Addr>, told: seq<Addr>, peer: Id)
    requires Valid(s) && Order(s, from, m, walk, told) && peer != s.local
    ensures Picked(Output(s, from, m, walk, told), OnLink(peer)) == LinkMessages(s, from, m, walk, told, peer)
  {
    hide Kept; hide Notices; hide Dump; hide Forwards; hide Removals; hide Announcements; hide Farewells;
    if !Refused(s, from, m) {
      match m {
        case Hello => HelloOnLink(s, from, walk, peer);
        case Bye(_) =>
          DepartureOnLink(Removals(s, walk), told, s.local, Bye(from.node), peer);
          RemovalsOnLink(s, walk, peer);
        case DelClient(c) =>
          var ls := Kept(s.lookups, OfClient(c));
          KeptLocal(s, OfClient(c));
          DepartureOnLink(if c in s.servers then Removal(s.local, ls, s.servers[c], c) else [], told, s.local, m, peer);
          if c in s.servers {
            BroadcastOnly(c.node == s.local, DelServer(s.servers[c], c), ls, s.local, s.servers[c], peer);
          }
        case NewServer(w, at) =>
          var a := Claimed(s.local, from, at);
          BroadcastOnly(a.node == s.local, NewServer(w, a), s.lookups, s.local, w, peer);
        case DelServer(_, at) =>
          var a := Claimed(s.local, from, at);
          BroadcastOnly(a.node == s.local, DelServer(s.servers[a], a), s.lookups, s.local, s.servers[a], peer);
        case NewLookup(_, _) => AnswerOnLink(s.servers, from, walk, peer);
        case _ =>
      }
    }
  }

  /** Whatever a client does, the peers that have applied what is in flight follow. */
  lemma {:induction false} PeersFollow(s: State, port: Id, m: Message, walk: seq<Addr>, told: seq<Addr>, peer: Id,
                                       v: Registry)
    requires Valid(s) && Order(s, Addr(s.local, port), m, walk, told) && peer != s.local
    ensures var from := Addr(s.local, port);
      Follows(v, View(s.servers, s.local),
              Applied(v, s.local, LinkMessages(s, from, m, walk, told, peer)),
              View(After(s, from, m).servers, s.local))
  {
    hide Kept; hide View; hide AddrsOf; hide Applied; hide Follows; hide Sub; hide Farewells;
    var from, n := Addr(s.local, port), s.local;
    NothingApplied(v, n);
    FollowsSame(v, View(s.servers, n));
    if !Refused(s, from, m) {
      match m {
        case Bye(_) =>
          ListsLocal(walk, s.servers, n);
          FarewellsApplied(s.servers, walk, n, v);
          ViewClear(s.servers, n, n);
          FollowsClear(v, s.servers, walk, n);
        case DelClient(_) =>
          if from in s.servers {
            AppliedOne(v, n, DelServer(s.servers[from], from));
          }
          ViewDrop(s.servers, from, n);
          FollowsDrop(v, View(s.servers, n), from);
          ViewMember(s.servers, from, n);
        case NewServer(w, _) =>
          AppliedOne(v, n, NewServer(w, from));
          ViewPut(s.servers, from, w, n);
          FollowsPut(v, View(s.servers, n), from, w);
        case DelServer(_, _) =>
          AppliedOne(v, n, DelServer(s.servers[from], from));
          ViewDrop(s.servers, from, n);
          FollowsDrop(v, View(s.servers, n), from);
        case _ =>
      }
    }
  }

  lemma {:induction false} ListsLocal(walk: seq<Addr>, r: Registry, n: Id)
    requires Lists(walk, AddrsOf(r, n))
    ensures forall a :: a in walk ==> a in r && a.node == n
  {
  }

  lemma {:induction false} FollowsSame(v: Registry, x: Registry)
    ensures Follows(v, x, v, x)
  {
  }

  lemma {:induction false} FollowsDrop(v: Registry, x: Registry, a: Addr)
    ensures Follows(v, x, v - {a}, x - {a})
    ensures a !in x ==> Follows(v, x, v, x - {a})
  {
    assert a !in x ==> x - {a} == x;
  }

  lemma {:induction false} FollowsPut(v: Registry, x: Registry, a: Addr, w: Service)
    ensures Follows(v, x, v[a := w], x[a := w])
  {
  }

  lemma {:induction false} FollowsClear(v: Registry, r: Registry, walk: seq<Addr>, n: Id)
    requires Lists(walk, AddrsOf(r, n))
    ensures Follows(v, View(r, n), v - Members(walk), map[])
  {
    if Sub(v, View(r, n)) {
      assert v - Members(walk) == map[];
    }
  }

  /** A dump brings a peer that may lack servers, but has no wrong ones, up to date. */
  lemma {:induction false} HelloCatchesUp(s: State, walk: seq<Addr>, v: Registry)
    requires Valid(s) && Lists(walk, AddrsOf(s.servers, s.local)) && Sub(v, View(s.servers, s.local))
    ensures Applied(v, s.local, [Hello] + Announcements(s.servers, walk)) == View(s.servers, s.local)
  {
    hide Applied; hide Announcements;
    ListsLocal(walk, s.servers, s.local);
    AppliedConcat(v, s.local, [Hello], Announcements(s.servers, walk));
    AppliedOne(v, s.local, Hello);
    AnnouncementsApplied(s.servers, walk, s.local, v);
    assert v + Chosen(s.servers, walk) == View(s.servers, s.local);
  }
}
