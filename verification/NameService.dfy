/** What the QRTR name service of ns.c does with one control message. */
module NameService {
  import opened Common

  /** Node and port numbers. */
  type Id = u32

  /** Service and instance numbers, which may be masked. */
  type Word = bv32

  /** The control port, where the name services of other nodes are reached. */
  const CTRL: Id := 0xffff_fffe

  datatype Addr = Addr(node: Id, port: Id)
  datatype Service = Service(service: Word, instance: Word)
  datatype Lookup = Lookup(service: Word, instance: Word, sq: Addr)

  datatype Message =
    | Hello
    | Bye(node: Id)
    | DelClient(client: Addr)
    | NewServer(what: Service, at: Addr)
    | DelServer(what: Service, at: Addr)
    | NewLookup(service: Word, instance: Word)
    | DelLookup(service: Word, instance: Word)
    | Other

  datatype Dest = Broadcast | To(addr: Addr)
  datatype Packet = Packet(dest: Dest, msg: Message)

  /** The services of all nodes, by node and port. */
  type Registry = map<Addr, Service>

  datatype State = State(local: Id, servers: Registry, lookups: seq<Lookup>)

  /** The notice without a server that ends the answer to a lookup. */
  const TERMINATOR := NewServer(Service(0, 0), Addr(0, 0))

  // ----- Matching -----

  datatype Filter = Filter(service: Word, instance: Word, ifilter: Word)

  /** The instance test of server_match: a filter without a mask compares whole instances. */
  predicate InstanceMatch(instance: Word, wanted: Word, mask: Word) {
    if mask == 0 && wanted != 0 then instance & 0xffff_ffff == wanted else instance & mask == wanted
  }

  /** server_match */
  predicate ServerMatch(w: Service, f: Filter) {
    !(f.service != 0 && w.service != f.service) && InstanceMatch(w.instance, f.instance, f.ifilter)
  }

  /** The test before a notice: zero stands for any service, any instance. */
  predicate Matches(l: Lookup, w: Service) {
    (l.service == 0 || l.service == w.service) && (l.instance == 0 || l.instance == w.instance)
  }

  lemma {:induction false} AllBits(x: Word, y: Word)
    ensures InstanceMatch(x, y, 0) <==> y == 0 || y == x
  {
    assert x & 0xffff_ffff == x;
    assert x & 0 == 0;
  }

  /** The first answer and the later notices of a lookup select the same servers. */
  lemma {:induction false} MatchAgrees(l: Lookup, w: Service)
    ensures ServerMatch(w, Filter(l.service, l.instance, 0)) <==> Matches(l, w)
  {
    hide InstanceMatch;
    AllBits(w.instance, l.instance);
  }

  // ----- The new state -----

  /** Local servers are taken at the address they send from. */
  function Claimed(local: Id, from: Addr, at: Addr): Addr {
    if from.node == local then from else at
  }

  /** The messages refused, or deleting what is not there. */
  predicate Refused(s: State, from: Addr, m: Message) {
    match m
    case NewServer(w, at) => from.node != Claimed(s.local, from, at).node || w.service == 0 || Claimed(s.local, from, at).port == 0
    case DelServer(_, at) => from.node != Claimed(s.local, from, at).node || Claimed(s.local, from, at) !in s.servers
    case DelClient(c) => from.node != c.node || (from.node == s.local && from.port != c.port)
    case NewLookup(_, _) => from.node != s.local
    case _ => false
  }

  function OfClient(c: Addr): Lookup -> bool {
    (l: Lookup) => l.sq == c
  }

  function Ended(from: Addr, service: Word, instance: Word): Lookup -> bool {
    (l: Lookup) => l.sq == from && l.service == service && (l.instance == 0 || l.instance == instance)
  }

  function AddrsOf(servers: Registry, node: Id): set<Addr> {
    set a | a in servers && a.node == node
  }

  /** The state behind message m from the given address. */
  function After(s: State, from: Addr, m: Message): State {
    if Refused(s, from, m) then s
    else match m
      case Bye(_) => s.(servers := s.servers - AddrsOf(s.servers, from.node))
      case DelClient(c) => s.(servers := s.servers - {c}, lookups := Kept(s.lookups, OfClient(c)))
      case NewServer(w, at) => s.(servers := s.servers[Claimed(s.local, from, at) := w])
      case DelServer(_, at) => s.(servers := s.servers - {Claimed(s.local, from, at)})
      case NewLookup(sv, i) => s.(lookups := s.lookups + [Lookup(sv, i, from)])
      case DelLookup(sv, i) => s.(lookups := Kept(s.lookups, Ended(from, sv, i)))
      case _ => s
  }

  // ----- The packets sent -----

  /** One notice for every lookup that matches w. */
  function Notices(ls: seq<Lookup>, w: Service, m: Message): seq<Packet> {
    if ls == [] then []
    else Notices(ls[..|ls| - 1], w, m)
         + if Matches(ls[|ls| - 1], w) then [Packet(To(ls[|ls| - 1].sq), m)] else []
  }

  /** A server appears: local ones are broadcast, then the observers are told. */
  function Arrival(local: Id, ls: seq<Lookup>, w: Service, a: Addr): seq<Packet> {
    (if a.node == local then [Packet(Broadcast, NewServer(w, a))] else []) + Notices(ls, w, NewServer(w, a))
  }

  /** A server goes: local ones are broadcast, then the observers are told. */
  function Removal(local: Id, ls: seq<Lookup>, w: Service, a: Addr): seq<Packet> {
    (if a.node == local then [Packet(Broadcast, DelServer(w, a))] else []) + Notices(ls, w, DelServer(w, a))
  }

  function Removals(s: State, order: seq<Addr>): seq<Packet>
    requires forall a :: a in order ==> a in s.servers
  {
    if order == [] then []
    else var a := order[|order| - 1];
         Removals(s, order[..|order| - 1]) + Removal(s.local, s.lookups, s.servers[a], a)
  }

  /** One announcement for every server listed. */
  function Dump(servers: Registry, order: seq<Addr>, to: Addr): seq<Packet>
    requires forall a :: a in order ==> a in servers
  {
    if order == [] then []
    else var a := order[|order| - 1];
         Dump(servers, order[..|order| - 1], to) + [Packet(To(to), NewServer(servers[a], a))]
  }

  function Forwards(order: seq<Addr>, m: Message): seq<Packet> {
    if order == [] then []
    else Forwards(order[..|order| - 1], m) + [Packet(To(order[|order| - 1]), m)]
  }

  /** The sequence meets every member of the set exactly once. */
  ghost predicate Lists(order: seq<Addr>, x: set<Addr>) {
    && (forall a :: a in order <==> a in x)
    && forall i, j :: 0 <= i < j < |order| ==> order[i] != order[j]
  }

  ghost function Members(order: seq<Addr>): set<Addr> {
    set a | a in order
  }

  lemma {:induction false} OneMore(order: seq<Addr>)
    requires order != []
    ensures Members(order) == Members(order[..|order| - 1]) + {order[|order| - 1]}
    ensures forall a :: a in order[..|order| - 1] ==> a in order
  {
    assert order == order[..|order| - 1] + [order[|order| - 1]];
  }

  function Matching(servers: Registry, l: Lookup): set<Addr> {
    set a | a in servers && Matches(l, servers[a])
  }

  /** The orders in which the hash tables may be walked: the services the message is about,
      then the local services told of a departure. */
  ghost predicate Order(s: State, from: Addr, m: Message, walk: seq<Addr>, told: seq<Addr>) {
    if Refused(s, from, m) then walk == told == []
    else match m
      case Hello => Lists(walk, AddrsOf(s.servers, s.local)) && told == []
      case Bye(_) =>
        Lists(walk, AddrsOf(s.servers, from.node)) && Lists(told, AddrsOf(After(s, from, m).servers, s.local))
      case DelClient(_) => walk == [] && Lists(told, AddrsOf(After(s, from, m).servers, s.local))
      case NewLookup(sv, i) => Lists(walk, Matching(s.servers, Lookup(sv, i, from))) && told == []
      case _ => walk == told == []
  }

  ghost function Output(s: State, from: Addr, m: Message, walk: seq<Addr>, told: seq<Addr>): seq<Packet>
    requires Order(s, from, m, walk, told)
  {
    if Refused(s, from, m) then []
    else match m
      case Hello => [Packet(To(from), Hello)] + Dump(s.servers, walk, from)
      case Bye(_) => Removals(s, walk) + Forwards(told, Bye(from.node))
      case DelClient(c) =>
        (if c in s.servers then Removal(s.local, Kept(s.lookups, OfClient(c)), s.servers[c], c) else [])
        + Forwards(told, m)
      case NewServer(w, at) => Arrival(s.local, s.lookups, w, Claimed(s.local, from, at))
      case DelServer(_, at) =>
        var a := Claimed(s.local, from, at);
        Removal(s.local, s.lookups, s.servers[a], a)
      case NewLookup(_, _) => Dump(s.servers, walk, from) + [Packet(To(from), TERMINATOR)]
      case _ => []
  }

  // ----- What every message keeps -----

  /** Every server has a service and a port, and every observer is local. */
  ghost predicate Valid(s: State) {
    && (forall a :: a in s.servers ==> s.servers[a].service != 0 && a.port != 0)
    && forall l :: l in s.lookups ==> l.sq.node == s.local
  }

  lemma {:induction false} AfterValid(s: State, from: Addr, m: Message)
    requires Valid(s)
    ensures Valid(After(s, from, m)) && After(s, from, m).local == s.local
  {
    var t := After(s, from, m);
    forall l | l in t.lookups ensures l.sq.node == s.local {
      if m.DelClient? {
        KeptIs(s.lookups, OfClient(m.client), l);
      } else if m.DelLookup? {
        KeptIs(s.lookups, Ended(from, m.service, m.instance), l);
      }
    }
  }

  /** The messages in a batch of packets whose destination is picked. */
  function Picked(out: seq<Packet>, pick: Dest -> bool): seq<Message> {
    if out == [] then []
    else Picked(out[..|out| - 1], pick) + if pick(out[|out| - 1].dest) then [out[|out| - 1].msg] else []
  }

  lemma {:induction false} PickedConcat(x: seq<Packet>, y: seq<Packet>, pick: Dest -> bool)
    ensures Picked(x + y, pick) == Picked(x, pick) + Picked(y, pick)
  {
    if y == [] {
      assert x + y == x;
    } else {
      var init := y[..|y| - 1];
      assert (x + y)[..|x + y| - 1] == x + init;
      PickedConcat(x, init, pick);
    }
  }
}
