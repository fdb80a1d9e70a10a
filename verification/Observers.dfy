/** What the observers of a name service learn: the notices sent to one address, replayed. */
module Observers {
  import opened Common
  import opened NameService
  import opened Replication

  /** Some lookup of address q matches w. */
  ghost predicate Wanted(ls: seq<Lookup>, q: Addr, w: Service) {
    exists l :: l in ls && l.sq == q && Matches(l, w)
  }

  /** The servers that the lookups of q ask for. */
  ghost function Watched(s: State, q: Addr): Registry {
    map a | a in s.servers && Wanted(s.lookups, q, s.servers[a]) :: s.servers[a]
  }

  /** An observer adds what is new, drops what is deleted, and adds nothing at the terminator. */
  ghost function Noted(v: Registry, m: Message): Registry {
    match m
    case NewServer(w, a) => if m == TERMINATOR then v else v[a := w]
    case DelServer(_, a) => v - {a}
    case _ => v
  }

  ghost function Replay(v: Registry, ms: seq<Message>): Registry {
    if ms == [] then v else Noted(Replay(v, ms[..|ms| - 1]), ms[|ms| - 1])
  }

  function Toward(q: Addr): Dest -> bool {
    (d: Dest) => d == To(q)
  }

  lemma {:induction false} ReplayConcat(v: Registry, x: seq<Message>, y: seq<Message>)
    ensures Replay(v, x + y) == Replay(Replay(v, x), y)
  {
    if y == [] {
      assert x + y == x;
    } else {
      assert (x + y)[..|x + y| - 1] == x + y[..|y| - 1];
      ReplayConcat(v, x, y[..|y| - 1]);
    }
  }

  lemma {:induction false} ReplayOne(v: Registry, m: Message)
    ensures Replay(v, [m]) == Noted(v, m)
  {
    assert Replay(v, [m][..0]) == v;
  }

  /** Hearing the same notice again changes nothing. */
  lemma {:induction false} ReplaySame(v: Registry, ms: seq<Message>, m: Message)
    requires forall x :: x in ms ==> x == m
    ensures Replay(v, ms) == if ms == [] then v else Noted(v, m)
  {
    if ms != [] {
      var init := ms[..|ms| - 1];
      forall x | x in init ensures x == m {
        assert x in ms;
      }
      assert ms[|ms| - 1] in ms;
      ReplaySame(v, init, m);
      assert Noted(Noted(v, m), m) == Noted(v, m);
    }
  }

  // ----- The notices -----

  /** Address q gets notices exactly when it wants the server. */
  lemma {:induction false} NoticesToward(ls: seq<Lookup>, w: Service, m: Message, q: Addr)
    ensures var ms := Picked(Notices(ls, w, m), Toward(q));
      (forall x :: x in ms ==> x == m) && (ms != [] <==> Wanted(ls, q, w))
  {
    hide Wanted; hide Picked; hide Matches;
    if ls == [] {
      NothingWanted(q, w);
    } else {
      var init, l := ls[..|ls| - 1], ls[|ls| - 1];
      NoticesToward(init, w, m, q);
      WantedSnoc(init, l, q, w);
      assert ls == init + [l];
      var x := if Matches(l, w) then [Packet(To(l.sq), m)] else [];
      PickedConcat(Notices(init, w, m), x, Toward(q));
      NothingWanted(q, w);
      if x != [] {
        PickedOne(x[0], Toward(q));
      }
    }
  }

  lemma {:induction false} NothingWanted(q: Addr, w: Service)
    ensures !Wanted([], q, w) && Picked([], Toward(q)) == []
  {
  }

  lemma {:induction false} WantedSnoc(ls: seq<Lookup>, l: Lookup, q: Addr, w: Service)
    ensures Wanted(ls + [l], q, w) <==> Wanted(ls, q, w) || (l.sq == q && Matches(l, w))
  {
    assert l in ls + [l];
    if Wanted(ls, q, w) {
      var k :| k in ls && k.sq == q && Matches(k, w);
      assert k in ls + [l];
    }
  }

  /** Notices about one server, behind an optional broadcast, replayed. */
  lemma {:induction false} NoticesReplayed(b: bool, ls: seq<Lookup>, w: Service, m: Message, q: Addr, v: Registry)
    ensures Replay(v, Picked((if b then [Packet(Broadcast, m)] else []) + Notices(ls, w, m), Toward(q)))
         == if Wanted(ls, q, w) then Noted(v, m) else v
  {
    hide Replay; hide Notices; hide Wanted;
    var x := if b then [Packet(Broadcast, m)] else [];
    var ms := Picked(Notices(ls, w, m), Toward(q));
    PickedConcat(x, Notices(ls, w, m), Toward(q));
    if b {
      PickedOne(x[0], Toward(q));
    }
    assert [] + ms == ms;
    NoticesToward(ls, w, m, q);
    ReplaySame(v, ms, m);
  }

  ghost function WantedAmong(s: State, order: seq<Addr>, q: Addr): set<Addr>
    requires forall a :: a in order ==> a in s.servers
  {
    set a | a in order && Wanted(s.lookups, q, s.servers[a])
  }

  lemma {:induction false} WantedAmongSnoc(s: State, order: seq<Addr>, q: Addr)
    requires order != [] && forall a :: a in order ==> a in s.servers
    ensures var a := order[|order| - 1];
      WantedAmong(s, order, q)
      == WantedAmong(s, order[..|order| - 1], q) + if Wanted(s.lookups, q, s.servers[a]) then {a} else {}
  {
    assert order == order[..|order| - 1] + [order[|order| - 1]];
  }

  lemma {:induction false} RemovalsReplayed(s: State, order: seq<Addr>, q: Addr, v: Registry)
    requires forall a :: a in order ==> a in s.servers
    ensures Replay(v, Picked(Removals(s, order), Toward(q))) == v - WantedAmong(s, order, q)
  {
    hide Replay; hide Picked; hide Wanted; hide WantedAmong; hide Notices;
    if order == [] {
      NothingRemoved(s, q, v);
    } else {
      var init, a := order[..|order| - 1], order[|order| - 1];
      RemovalsReplayed(s, init, q, v);
      WantedAmongSnoc(s, order, q);
      var w := s.servers[a];
      var x := Removal(s.local, s.lookups, w, a);
      PickedConcat(Removals(s, init), x, Toward(q));
      ReplayConcat(v, Picked(Removals(s, init), Toward(q)), Picked(x, Toward(q)));
      NoticesReplayed(a.node == s.local, s.lookups, w, DelServer(w, a), q, v - WantedAmong(s, init, q));
    }
  }

  lemma {:induction false} NothingRemoved(s: State, q: Addr, v: Registry)
    ensures Replay(v, Picked([], Toward(q))) == v && v - WantedAmong(s, [], q) == v
  {
    assert WantedAmong(s, [], q) == {};
  }

  /** Departures told to services are no notices. */
  lemma {:induction false} ForwardsReplayed(order: seq<Addr>, m: Message, q: Addr, v: Registry)
    requires m.Bye? || m.DelClient?
    ensures Replay(v, Picked(Forwards(order, m), Toward(q))) == v
  {
    if order != [] {
      var init, a := order[..|order| - 1], order[|order| - 1];
      ForwardsReplayed(init, m, q, v);
      var x := [Packet(To(a), m)];
      PickedConcat(Forwards(init, m), x, Toward(q));
      PickedOne(x[0], Toward(q));
      ReplayConcat(v, Picked(Forwards(init, m), Toward(q)), Picked(x, Toward(q)));
      ReplayOne(v, m);
    }
  }

  lemma {:induction false} AnnouncementsReplayed(r: Registry, order: seq<Addr>, v: Registry)
    requires forall a :: a in order ==> a in r && r[a].service != 0
    ensures Replay(v, Announcements(r, order)) == v + Chosen(r, order)
    ensures TERMINATOR !in Announcements(r, order)
  {
    hide Chosen; hide Replay;
    if order == [] {
      NothingChosen(r, v);
    } else {
      var init, a := order[..|order| - 1], order[|order| - 1];
      OneMoreChosen(r, order, v);
      AnnouncementsReplayed(r, init, v);
      ReplayConcat(v, Announcements(r, init), [NewServer(r[a], a)]);
      ReplayOne(v + Chosen(r, init), NewServer(r[a], a));
    }
  }

  lemma {:induction false} NothingChosen(r: Registry, v: Registry)
    ensures Replay(v, []) == v && v + Chosen(r, []) == v
  {
  }

  // ----- One message -----

  /** The observer does not itself end its lookups, close, or ask for the dump meant for peers. */
  ghost predicate Undisturbed(from: Addr, m: Message, q: Addr) {
    from == q ==> !m.Hello? && !m.DelLookup? && !m.DelClient?
  }

  /** If the message replaces a server that q watches, q wants the new one too. */
  ghost predicate Replaceable(s: State, from: Addr, m: Message, q: Addr) {
    m.NewServer? && !Refused(s, from, m) ==>
      var a := Claimed(s.local, from, m.at);
      a in s.servers && Wanted(s.lookups, q, s.servers[a]) ==> Wanted(s.lookups, q, m.what)
  }

  lemma {:induction false} WantedKept(ls: seq<Lookup>, drop: Lookup -> bool, q: Addr, w: Service)
    requires forall l :: l in ls && l.sq == q ==> !drop(l)
    ensures Wanted(Kept(ls, drop), q, w) <==> Wanted(ls, q, w)
  {
    forall l ensures l in Kept(ls, drop) <==> l in ls && !drop(l) {
      KeptIs(ls, drop, l);
    }
  }

  /** What q wants changes only by its own new lookup. */
  lemma {:induction false} WantedAfter(s: State, from: Addr, m: Message, q: Addr, w: Service)
    requires Valid(s) && Undisturbed(from, m, q)
    ensures Wanted(After(s, from, m).lookups, q, w) <==>
      Wanted(s.lookups, q, w)
      || (m.NewLookup? && !Refused(s, from, m) && from == q && Matches(Lookup(m.service, m.instance, q), w))
  {
    hide Wanted; hide Kept;
    match m {
      case DelClient(c) =>
        if !Refused(s, from, m) {
          WantedKept(s.lookups, OfClient(c), q, w);
        }
      case DelLookup(sv, i) => WantedKept(s.lookups, Ended(from, sv, i), q, w);
      case NewLookup(sv, i) => WantedSnoc(s.lookups, Lookup(sv, i, from), q, w);
      case _ =>
    }
  }

  ghost predicate SameWants(s: State, t: State, q: Addr) {
    forall w :: Wanted(t.lookups, q, w) <==> Wanted(s.lookups, q, w)
  }

  lemma {:induction false} WatchedArrival(s: State, t: State, q: Addr, a: Addr, w: Service)
    requires t.servers == s.servers[a := w] && SameWants(s, t, q)
    ensures var v := Watched(s, q);
      (if Wanted(s.lookups, q, w) then v[a := w] else v) == Watched(t, q)
      <==> (a in s.servers && Wanted(s.lookups, q, s.servers[a]) ==> Wanted(s.lookups, q, w))
  {
    hide Wanted;
    var v, u := Watched(s, q), Watched(t, q);
    assert Wanted(t.lookups, q, w) <==> Wanted(s.lookups, q, w);
    if Wanted(s.lookups, q, w) {
      assert v[a := w] == u;
    } else {
      assert a !in u;
      if a !in v {
        assert v == u;
      }
    }
  }

  lemma {:induction false} WatchedRemoval(s: State, t: State, q: Addr, gone: set<Addr>, noted: set<Addr>)
    requires t.servers == s.servers - gone && SameWants(s, t, q)
    requires forall a :: a in noted <==> a in gone && a in s.servers && Wanted(s.lookups, q, s.servers[a])
    ensures Watched(s, q) - noted == Watched(t, q)
  {
    hide Wanted;
  }

  lemma {:induction false} WatchedSame(s: State, t: State, q: Addr)
    requires t.servers == s.servers && SameWants(s, t, q)
    ensures Watched(t, q) == Watched(s, q)
  {
    hide Wanted;
  }

  lemma {:induction false} WatchedAnswer(s: State, t: State, q: Addr, l: Lookup, walk: seq<Addr>)
    requires t.servers == s.servers && t.lookups == s.lookups + [l] && l.sq == q && Lists(walk, Matching(s.servers, l))
    ensures forall a :: a in walk ==> a in s.servers
    ensures Watched(s, q) + Chosen(s.servers, walk) == Watched(t, q)
  {
    hide Wanted;
    var v, u := Watched(s, q) + Chosen(s.servers, walk), Watched(t, q);
    forall a ensures a in v <==> a in u {
      if a in s.servers {
        WantedSnoc(s.lookups, l, q, s.servers[a]);
      }
    }
  }

  lemma {:induction false} AnswerToward(s: State, from: Addr, walk: seq<Addr>, q: Addr)
    requires forall a :: a in walk ==> a in s.servers
    ensures Picked(Dump(s.servers, walk, from) + [Packet(To(from), TERMINATOR)], Toward(q))
         == if from == q then Announcements(s.servers, walk) + [TERMINATOR] else []
  {
    hide Picked; hide Dump; hide Announcements;
    PickedConcat(Dump(s.servers, walk, from), [Packet(To(from), TERMINATOR)], Toward(q));
    PickedOne(Packet(To(from), TERMINATOR), Toward(q));
    DumpOnLink(s.servers, walk, from, Toward(q));
  }

  /** A lookup is answered by each matching server and then the terminator, which is never a server. */
  lemma {:induction false} LookupAnswered(s: State, q: Addr, service: Word, instance: Word, walk: seq<Addr>)
    requires Valid(s) && q.node == s.local && Order(s, q, NewLookup(service, instance), walk, [])
    ensures var log := Picked(Output(s, q, NewLookup(service, instance), walk, []), Toward(q));
      && log == Announcements(s.servers, walk) + [TERMINATOR]
      && TERMINATOR !in log[..|log| - 1]
      && Replay(Watched(s, q), log) == Watched(After(s, q, NewLookup(service, instance)), q)
  {
    hide Picked; hide Dump; hide Announcements; hide Replay; hide Wanted;
    var l, t := Lookup(service, instance, q), After(s, q, NewLookup(service, instance));
    WatchedAnswer(s, t, q, l, walk);
    AnswerToward(s, q, walk, q);
    AnnouncementsReplayed(s.servers, walk, Watched(s, q));
    ReplayConcat(Watched(s, q), Announcements(s.servers, walk), [TERMINATOR]);
    ReplayOne(Watched(t, q), TERMINATOR);
    var log := Announcements(s.servers, walk) + [TERMINATOR];
    assert log[..|log| - 1] == Announcements(s.servers, walk);
  }

  lemma {:induction false} SameWantsAfter(s: State, from: Addr, m: Message, q: Addr)
    requires Valid(s) && Undisturbed(from, m, q) && !(m.NewLookup? && from == q)
    ensures SameWants(s, After(s, from, m), q)
  {
    hide Wanted; hide After;
    forall w ensures Wanted(After(s, from, m).lookups, q, w) <==> Wanted(s.lookups, q, w) {
      WantedAfter(s, from, m, q, w);
    }
  }

  /** Bye: the notices remove from the observer's map what it watched of the node. */
  lemma {:induction false} ByeReplayed(s: State, from: Addr, m: Message, walk: seq<Addr>, told: seq<Addr>, q: Addr)
    requires Valid(s) && m.Bye? && Order(s, from, m, walk, told)
    ensures Replay(Watched(s, q), Picked(Output(s, from, m, walk, told), Toward(q)))
         == Watched(After(s, from, m), q)
  {
    hide Picked; hide Replay; hide Wanted; hide Removals; hide Forwards; hide Valid;
    var x, y := Removals(s, walk), Forwards(told, Bye(from.node));
    var v := Watched(s, q);
    PickedConcat(x, y, Toward(q));
    ReplayConcat(v, Picked(x, Toward(q)), Picked(y, Toward(q)));
    RemovalsReplayed(s, walk, q, v);
    ForwardsReplayed(told, Bye(from.node), q, v - WantedAmong(s, walk, q));
    WatchedRemoval(s, After(s, from, m), q, AddrsOf(s.servers, from.node), WantedAmong(s, walk, q));
  }

  lemma {:induction false} DelClientReplayed(s: State, from: Addr, m: Message, walk: seq<Addr>, told: seq<Addr>,
                                             q: Addr)
    requires Valid(s) && m.DelClient? && Undisturbed(from, m, q) && !Refused(s, from, m) && Order(s, from, m, walk, told)
    ensures Replay(Watched(s, q), Picked(Output(s, from, m, walk, told), Toward(q)))
         == Watched(After(s, from, m), q)
  {
    hide Picked; hide Replay; hide Wanted; hide Forwards; hide Valid; hide Kept; hide Notices; hide Watched;
    var c, v, t := m.client, Watched(s, q), After(s, from, m);
    SameWantsAfter(s, from, m, q);
    var x := if c in s.servers then Removal(s.local, t.lookups, s.servers[c], c) else [];
    var y := Forwards(told, m);
    PickedConcat(x, y, Toward(q));
    ReplayConcat(v, Picked(x, Toward(q)), Picked(y, Toward(q)));
    if c in s.servers {
      var w := s.servers[c];
      NoticesReplayed(c.node == s.local, t.lookups, w, DelServer(w, c), q, v);
      assert Wanted(t.lookups, q, w) <==> Wanted(s.lookups, q, w);
      WatchedRemoval(s, t, q, {c}, if Wanted(s.lookups, q, w) then {c} else {});
      assert v - {} == v;
    } else {
      NothingRemoved(s, q, v);
      WatchedRemoval(s, t, q, {c}, {});
      assert v - {} == v;
    }
    ForwardsReplayed(told, m, q, Watched(t, q));
  }

  lemma {:induction false} NewServerReplayed(s: State, from: Addr, m: Message, walk: seq<Addr>, told: seq<Addr>,
                                             q: Addr)
    requires Valid(s) && m.NewServer? && !Refused(s, from, m) && Order(s, from, m, walk, told)
    ensures Replay(Watched(s, q), Picked(Output(s, from, m, walk, told), Toward(q))) == Watched(After(s, from, m), q)
      <==> Replaceable(s, from, m, q)
  {
    hide Picked; hide Replay; hide Wanted; hide Valid; hide Notices; hide Watched;
    var a, w, v := Claimed(s.local, from, m.at), m.what, Watched(s, q);
    NoticesReplayed(a.node == s.local, s.lookups, w, NewServer(w, a), q, v);
    WatchedArrival(s, After(s, from, m), q, a, w);
  }

  lemma {:induction false} DelServerReplayed(s: State, from: Addr, m: Message, walk: seq<Addr>, told: seq<Addr>,
                                             q: Addr)
    requires Valid(s) && m.DelServer? && !Refused(s, from, m) && Order(s, from, m, walk, told)
    ensures Replay(Watched(s, q), Picked(Output(s, from, m, walk, told), Toward(q))) == Watched(After(s, from, m), q)
  {
    hide Picked; hide Replay; hide Wanted; hide Valid; hide Notices; hide Watched;
    var a, v := Claimed(s.local, from, m.at), Watched(s, q);
    var w := s.servers[a];
    NoticesReplayed(a.node == s.local, s.lookups, w, DelServer(w, a), q, v);
    WatchedRemoval(s, After(s, from, m), q, {a}, if Wanted(s.lookups, q, w) then {a} else {});
    assert v - {} == v;
  }

  lemma {:induction false} OthersReplayed(s: State, from: Addr, m: Message, walk: seq<Addr>, told: seq<Addr>, q: Addr)
    requires Valid(s) && Undisturbed(from, m, q) && Order(s, from, m, walk, told)
    requires Refused(s, from, m) || m.Hello? || m.DelLookup? || m.Other? || (m.NewLookup? && from != q)
    ensures Replay(Watched(s, q), Picked(Output(s, from, m, walk, told), Toward(q))) == Watched(After(s, from, m), q)
  {
    hide Replay; hide Wanted; hide Valid; hide Watched; hide Kept; hide Dump; hide Announcements;
    NothingRemoved(s, q, Watched(s, q));
    if !Refused(s, from, m) {
      SameWantsAfter(s, from, m, q);
      WatchedSame(s, After(s, from, m), q);
      if m.Hello? {
        PickedConcat([Packet(To(from), Hello)], Dump(s.servers, walk, from), Toward(q));
        PickedOne(Packet(To(from), Hello), Toward(q));
        DumpOnLink(s.servers, walk, from, Toward(q));
      } else if m.NewLookup? {
        AnswerToward(s, from, walk, q);
      }
    }
  }

  /** After any message, what q makes of its notices is exactly what its lookups ask for, if and
      only if the message does not replace a server q watches by one it does not ask for. */
  lemma {:induction false} ObserverStep(s: State, from: Addr, m: Message, walk: seq<Addr>, told: seq<Addr>, q: Addr)
    requires Valid(s) && Undisturbed(from, m, q) && Order(s, from, m, walk, told)
    ensures Replay(Watched(s, q), Picked(Output(s, from, m, walk, told), Toward(q))) == Watched(After(s, from, m), q)
      <==> Replaceable(s, from, m, q)
  {
    hide Replay; hide Wanted; hide Valid; hide Watched; hide Output; hide After; hide Picked; hide Refused;
    if Refused(s, from, m) || m.Hello? || m.DelLookup? || m.Other? || (m.NewLookup? && from != q) {
      OthersReplayed(s, from, m, walk, told, q);
    } else {
      match m {
        case Bye(_) => ByeReplayed(s, from, m, walk, told, q);
        case DelClient(_) => DelClientReplayed(s, from, m, walk, told, q);
        case NewServer(_, _) => NewServerReplayed(s, from, m, walk, told, q);
        case DelServer(_, _) => DelServerReplayed(s, from, m, walk, told, q);
        case NewLookup(sv, i) =>
          OrderLookup(s, q, m, walk, told);
          LookupAnswered(s, q, sv, i, walk);
      }
    }
  }

  lemma {:induction false} OrderLookup(s: State, q: Addr, m: Message, walk: seq<Addr>, told: seq<Addr>)
    requires m.NewLookup? && !Refused(s, q, m) && Order(s, q, m, walk, told)
    ensures told == [] && q.node == s.local
  {
  }

  // ----- Runs -----

  datatype Input = Input(from: Addr, msg: Message, walk: seq<Addr>, told: seq<Addr>)

  /** The messages can be handled one after the other, walking the tables as recorded. */
  ghost predicate Heard(s: State, run: seq<Input>)
    decreases run
  {
    run == [] ||
    (Order(s, run[0].from, run[0].msg, run[0].walk, run[0].told)
     && Heard(After(s, run[0].from, run[0].msg), run[1..]))
  }

  ghost function End(s: State, run: seq<Input>): State
    decreases run
  {
    if run == [] then s else End(After(s, run[0].from, run[0].msg), run[1..])
  }

  /** Everything sent to q on the way. */
  ghost function Log(s: State, run: seq<Input>, q: Addr): seq<Message>
    requires Heard(s, run)
    decreases run
  {
    if run == [] then []
    else Picked(Output(s, run[0].from, run[0].msg, run[0].walk, run[0].told), Toward(q))
         + Log(After(s, run[0].from, run[0].msg), run[1..], q)
  }

  ghost predicate Faithful(s: State, run: seq<Input>, q: Addr)
    decreases run
  {
    run == [] ||
    (Undisturbed(run[0].from, run[0].msg, q) && Replaceable(s, run[0].from, run[0].msg, q)
     && Faithful(After(s, run[0].from, run[0].msg), run[1..], q))
  }

  /** Over every run in which no watched server is replaced by one that is not asked for, the
      replayed notices are exactly the registry filtered by the lookups of q. */
  lemma {:induction false} ObserverRun(s: State, run: seq<Input>, q: Addr)
    requires Valid(s) && Heard(s, run) && Faithful(s, run, q)
    ensures Replay(Watched(s, q), Log(s, run, q)) == Watched(End(s, run), q)
    decreases run
  {
    hide Replay; hide Valid; hide Watched; hide Output; hide After; hide Picked; hide Order;
    if run == [] {
      NothingChosen(map[], Watched(s, q));
    } else {
      var e := run[0];
      var t := After(s, e.from, e.msg);
      ObserverStep(s, e.from, e.msg, e.walk, e.told, q);
      AfterValid(s, e.from, e.msg);
      ObserverRun(t, run[1..], q);
      ReplayConcat(Watched(s, q), Picked(Output(s, e.from, e.msg, e.walk, e.told), Toward(q)), Log(t, run[1..], q));
    }
  }

  /** After the first k messages the replayed notices are what the lookups of q ask for. */
  ghost predicate ExactAfter(s: State, run: seq<Input>, k: nat, q: Addr)
    requires k <= |run|
  {
    Heard(s, run[..k]) && Replay(Watched(s, q), Log(s, run[..k], q)) == Watched(End(s, run[..k]), q)
  }

  ghost predicate ExactThroughout(s: State, run: seq<Input>, q: Addr) {
    forall k :: 0 <= k <= |run| ==> ExactAfter(s, run, k, q)
  }

  lemma {:induction false} HeardPrefix(s: State, run: seq<Input>, k: nat)
    requires Heard(s, run) && k <= |run|
    ensures Heard(s, run[..k])
    decreases run
  {
    hide Order; hide After;
    if k > 0 {
      HeardPrefix(After(s, run[0].from, run[0].msg), run[1..], k - 1);
      assert run[..k][1..] == run[1..][..k - 1];
    }
  }

  /** The first message and then k more. */
  lemma {:induction false} ExactNext(s: State, run: seq<Input>, k: nat, q: Addr)
    requires Valid(s) && Heard(s, run) && k < |run|
    requires Undisturbed(run[0].from, run[0].msg, q) && Replaceable(s, run[0].from, run[0].msg, q)
    ensures ExactAfter(s, run, k + 1, q) <==> ExactAfter(After(s, run[0].from, run[0].msg), run[1..], k, q)
  {
    hide Order; hide After; hide Output; hide Picked; hide Watched; hide Replay; hide Valid;
    var e := run[0];
    var t, prefix := After(s, e.from, e.msg), run[..k + 1];
    HeardPrefix(s, run, k + 1);
    assert prefix[0] == e && prefix[1..] == run[1..][..k];
    ObserverStep(s, e.from, e.msg, e.walk, e.told, q);
    ReplayConcat(Watched(s, q), Picked(Output(s, e.from, e.msg, e.walk, e.told), Toward(q)), Log(t, prefix[1..], q));
  }

  lemma {:induction false} FirstExact(s: State, run: seq<Input>, q: Addr)
    requires Valid(s) && Heard(s, run) && run != [] && Undisturbed(run[0].from, run[0].msg, q)
    ensures ExactAfter(s, run, 0, q) && (ExactAfter(s, run, 1, q) <==> Replaceable(s, run[0].from, run[0].msg, q))
  {
    hide Order; hide After; hide Output; hide Picked; hide Watched; hide Replay; hide Valid; hide Replaceable;
    var e := run[0];
    HeardPrefix(s, run, 1);
    ExactNone(s, run, q);
    var out := Picked(Output(s, e.from, e.msg, e.walk, e.told), Toward(q));
    var one := run[..1];
    assert one[0] == e && one[1..] == [];
    assert End(s, one) == End(After(s, e.from, e.msg), one[1..]) == After(s, e.from, e.msg);
    assert Log(s, one, q) == out + Log(After(s, e.from, e.msg), one[1..], q) == out;
    ObserverStep(s, e.from, e.msg, e.walk, e.told, q);
  }

  lemma {:induction false} ExactNone(s: State, run: seq<Input>, q: Addr)
    ensures ExactAfter(s, run, 0, q)
  {
    hide Watched;
    assert run[..0] == [];
    NothingChosen(map[], Watched(s, q));
  }

  /** Over every run that q does not disturb, the replayed notices are at all times exactly the
      registry filtered by the lookups of q, if and only if no watched server is ever replaced by
      one that is not asked for. */
  lemma {:induction false} ObserverExact(s: State, run: seq<Input>, q: Addr)
    requires Valid(s) && Heard(s, run) && AllUndisturbed(run, q)
    ensures ExactThroughout(s, run, q) <==> Faithful(s, run, q)
    decreases run
  {
    hide Order; hide After; hide Valid; hide Undisturbed; hide Replaceable; hide ExactAfter; hide AllUndisturbed;
    ExactNone(s, run, q);
    if run != [] {
      var e := run[0];
      var t := After(s, e.from, e.msg);
      TailUndisturbed(run, q);
      AfterValid(s, e.from, e.msg);
      FirstExact(s, run, q);
      ObserverExact(t, run[1..], q);
      if Replaceable(s, e.from, e.msg, q) {
        forall k: nat | k < |run|
          ensures ExactAfter(s, run, k + 1, q) <==> ExactAfter(t, run[1..], k, q)
        {
          ExactNext(s, run, k, q);
        }
        SameThroughout(s, t, run, q);
      }
    }
  }

  lemma {:induction false} SameThroughout(s: State, t: State, run: seq<Input>, q: Addr)
    requires run != [] && ExactAfter(s, run, 0, q)
    requires forall k: nat :: k < |run| ==> (ExactAfter(s, run, k + 1, q) <==> ExactAfter(t, run[1..], k, q))
    ensures ExactThroughout(s, run, q) <==> ExactThroughout(t, run[1..], q)
  {
    hide ExactAfter;
    if ExactThroughout(t, run[1..], q) {
      forall k | 0 <= k <= |run| ensures ExactAfter(s, run, k, q) {
        if k > 0 {
          assert ExactAfter(t, run[1..], k - 1, q);
        }
      }
    }
    if ExactThroughout(s, run, q) {
      forall k | 0 <= k <= |run[1..]| ensures ExactAfter(t, run[1..], k, q) {
        assert ExactAfter(s, run, k + 1, q);
      }
    }
  }

  /** The failing case, from an empty registry: q looks for service 1; a registers service 1 and
      then, at the same port, service 2. Nobody tells q, who goes on believing in service 1. */
  lemma {:induction false} OutdatedView(q: Addr, a: Addr, i: Word, j: Word)
    requires a.node == q.node && a.port != 0
    ensures var s := State(q.node, map[], []);
      var run := [Input(q, NewLookup(1, 0), [], []), Input(a, NewServer(Service(1, i), a), [], []),
                  Input(a, NewServer(Service(2, j), a), [], [])];
      && Heard(s, run) && Replay(map[], Log(s, run, q)) == map[a := Service(1, i)]
      && Watched(End(s, run), q) == map[] && End(s, run).servers == map[a := Service(2, j)]
  {
    hide Replay; hide Picked; hide Wanted;
    var s := State(q.node, map[], []);
    var m1, m2, m3 := NewLookup(1, 0), NewServer(Service(1, i), a), NewServer(Service(2, j), a);
    var l := Lookup(1, 0, q);
    var s1, s2, s3 := State(q.node, map[], [l]), State(q.node, map[a := Service(1, i)], [l]),
                      State(q.node, map[a := Service(2, j)], [l]);
    var run := [Input(q, m1, [], []), Input(a, m2, [], []), Input(a, m3, [], [])];
    assert After(s, q, m1) == s1 && After(s1, a, m2) == s2 && After(s2, a, m3) == s3;
    assert run[1..] == [run[1], run[2]] && run[1..][1..] == [run[2]] && run[1..][1..][1..] == [];
    WantsOne(q, i, j);
    assert Watched(s1, q) == map[] && Watched(s2, q) == map[a := Service(1, i)] && Watched(s3, q) == map[];
    assert Heard(s2, run[1..][1..]);
    assert Heard(s1, run[1..]);
    var x1, x2, x3 := Picked(Output(s, q, m1, [], []), Toward(q)), Picked(Output(s1, a, m2, [], []), Toward(q)),
                      Picked(Output(s2, a, m3, [], []), Toward(q));
    ObserverStep(s, q, m1, [], [], q);
    WatchesNone(s, q);
    ObserverStep(s1, a, m2, [], [], q);
    NoticesReplayed(true, [l], Service(2, j), m3, q, Watched(s2, q));
    assert End(s2, run[1..][1..]) == End(s3, run[1..][1..][1..]) == s3;
    assert End(s1, run[1..]) == End(s2, run[1..][1..]);
    assert End(s, run) == End(s1, run[1..]);
    assert Log(s2, run[1..][1..], q) == x3 + [] == x3;
    assert Log(s1, run[1..], q) == x2 + x3;
    assert Log(s, run, q) == x1 + (x2 + x3);
    ReplayConcat(map[], x1, x2 + x3);
    ReplayConcat(map[], x2, x3);
  }

  lemma {:induction false} WantsOne(q: Addr, i: Word, j: Word)
    ensures Wanted([Lookup(1, 0, q)], q, Service(1, i)) && !Wanted([Lookup(1, 0, q)], q, Service(2, j))
  {
    assert Lookup(1, 0, q) in [Lookup(1, 0, q)];
  }

  ghost predicate WantsAll(s: State, q: Addr) {
    forall w :: Wanted(s.lookups, q, w)
  }

  ghost predicate AllUndisturbed(run: seq<Input>, q: Addr) {
    forall e :: e in run ==> Undisturbed(e.from, e.msg, q)
  }

  /** An observer of everything loses nothing by replacements. */
  lemma {:induction false} AllWanted(s: State, run: seq<Input>, q: Addr)
    requires Valid(s) && WantsAll(s, q) && AllUndisturbed(run, q)
    ensures Faithful(s, run, q) && WantsAll(End(s, run), q)
    decreases run
  {
    hide Valid; hide After; hide Wanted; hide Undisturbed;
    if run != [] {
      var e := run[0];
      var t := After(s, e.from, e.msg);
      forall w ensures Wanted(t.lookups, q, w) {
        WantedAfter(s, e.from, e.msg, q, w);
      }
      AfterValid(s, e.from, e.msg);
      AllWanted(t, run[1..], q);
    }
  }

  lemma {:induction false} WatchesAll(s: State, q: Addr)
    requires WantsAll(s, q)
    ensures Watched(s, q) == s.servers
  {
    hide Wanted;
  }

  lemma {:induction false} WatchesNone(s: State, q: Addr)
    requires forall l :: l in s.lookups ==> l.sq != q
    ensures Watched(s, q) == map[]
  {
  }

  lemma {:induction false} ZeroWantsAll(s: State, q: Addr)
    requires q.node == s.local
    ensures WantsAll(After(s, q, NewLookup(0, 0)), q)
  {
    var ls := s.lookups + [Lookup(0, 0, q)];
    forall w ensures Wanted(ls, q, w) {
      assert Lookup(0, 0, q) in ls;
    }
  }

  /** Without any condition on the servers: a client whose one lookup asks for everything knows
      the whole registry at all times. */
  lemma {:induction false} WholeRegistry(s: State, run: seq<Input>, q: Addr)
    requires Valid(s) && Heard(s, run) && AllUndisturbed(run, q)
    requires run != [] && run[0].from == q && run[0].msg == NewLookup(0, 0) && q.node == s.local
    requires forall l :: l in s.lookups ==> l.sq != q
    ensures Replay(map[], Log(s, run, q)) == End(s, run).servers
  {
    hide Replay; hide Wanted; hide Valid; hide Watched; hide Output; hide After; hide Picked; hide Order; hide Undisturbed;
    hide Log; hide WantsAll; hide AllUndisturbed;
    var t := After(s, q, run[0].msg);
    ZeroWantsAll(s, q);
    AfterValid(s, q, run[0].msg);
    TailUndisturbed(run, q);
    AllWanted(t, run[1..], q);
    WatchesNone(s, q);
    WatchesAll(End(s, run), q);
    ObserverRun(s, run, q);
  }

  lemma {:induction false} TailUndisturbed(run: seq<Input>, q: Addr)
    requires AllUndisturbed(run, q) && run != []
    ensures AllUndisturbed(run[1..], q) && Undisturbed(run[0].from, run[0].msg, q)
  {
  }

  // ----- One notice for each lookup -----

  ghost function Times(ms: seq<Message>, m: Message): nat {
    if ms == [] then 0 else Times(ms[..|ms| - 1], m) + if ms[|ms| - 1] == m then 1 else 0
  }

  lemma {:induction false} TimesConcat(x: seq<Message>, y: seq<Message>, m: Message)
    ensures Times(x + y, m) == Times(x, m) + Times(y, m)
  {
    if y == [] {
      assert x + y == x;
    } else {
      assert (x + y)[..|x + y| - 1] == x + y[..|y| - 1];
      TimesConcat(x, y[..|y| - 1], m);
    }
  }

  lemma {:induction false} TimesOne(x: Message, m: Message)
    ensures Times([x], m) == if x == m then 1 else 0
  {
    assert Times([x][..0], m) == 0;
  }

  /** How many lookups of q match w. */
  ghost function Tally(ls: seq<Lookup>, q: Addr, w: Service): nat {
    if ls == [] then 0
    else var l := ls[|ls| - 1]; Tally(ls[..|ls| - 1], q, w) + if l.sq == q && Matches(l, w) then 1 else 0
  }

  lemma {:induction false} NoticesCounted(ls: seq<Lookup>, w: Service, x: Message, q: Addr, m: Message)
    ensures Times(Picked(Notices(ls, w, x), Toward(q)), m) == if x == m then Tally(ls, q, w) else 0
  {
    hide Matches;
    if ls != [] {
      var init, l := ls[..|ls| - 1], ls[|ls| - 1];
      NoticesCounted(init, w, x, q, m);
      var ps := if Matches(l, w) then [Packet(To(l.sq), x)] else [];
      PickedConcat(Notices(init, w, x), ps, Toward(q));
      TimesConcat(Picked(Notices(init, w, x), Toward(q)), Picked(ps, Toward(q)), m);
      if ps != [] {
        PickedOne(ps[0], Toward(q));
        TimesOne(x, m);
      }
    }
  }

  lemma {:induction false} RemovalCounted(local: Id, ls: seq<Lookup>, w: Service, a: Addr, q: Addr, m: Message)
    ensures Times(Picked(Removal(local, ls, w, a), Toward(q)), m) == if m == DelServer(w, a) then Tally(ls, q, w) else 0
  {
    hide Times; hide Notices; hide Tally;
    var x := DelServer(w, a);
    var ps := if a.node == local then [Packet(Broadcast, x)] else [];
    PickedConcat(ps, Notices(ls, w, x), Toward(q));
    if ps != [] {
      PickedOne(ps[0], Toward(q));
    }
    assert [] + Picked(Notices(ls, w, x), Toward(q)) == Picked(Notices(ls, w, x), Toward(q));
    NoticesCounted(ls, w, x, q, m);
  }

  lemma {:induction false} RemovalsCounted(s: State, order: seq<Addr>, q: Addr, w: Service, a: Addr)
    requires forall b :: b in order ==> b in s.servers
    requires forall i, j :: 0 <= i < j < |order| ==> order[i] != order[j]
    ensures Times(Picked(Removals(s, order), Toward(q)), DelServer(w, a))
         == if a in order && s.servers[a] == w then Tally(s.lookups, q, w) else 0
  {
    hide Times; hide Tally; hide Picked;
    if order == [] {
      NothingCounted(q, DelServer(w, a));
    } else {
      var init, b := order[..|order| - 1], order[|order| - 1];
      assert order == init + [b];
      RemovalsCounted(s, init, q, w, a);
      var x := Removal(s.local, s.lookups, s.servers[b], b);
      PickedConcat(Removals(s, init), x, Toward(q));
      TimesConcat(Picked(Removals(s, init), Toward(q)), Picked(x, Toward(q)), DelServer(w, a));
      RemovalCounted(s.local, s.lookups, s.servers[b], b, q, DelServer(w, a));
    }
  }

  lemma {:induction false} NothingCounted(q: Addr, m: Message)
    ensures Times(Picked([], Toward(q)), m) == 0
  {
  }

  lemma {:induction false} ForwardsCounted(order: seq<Addr>, x: Message, q: Addr, m: Message)
    requires x != m
    ensures Times(Picked(Forwards(order, x), Toward(q)), m) == 0
  {
    if order != [] {
      var init, a := order[..|order| - 1], order[|order| - 1];
      ForwardsCounted(init, x, q, m);
      PickedConcat(Forwards(init, x), [Packet(To(a), x)], Toward(q));
      PickedOne(Packet(To(a), x), Toward(q));
      TimesConcat(Picked(Forwards(init, x), Toward(q)), Picked([Packet(To(a), x)], Toward(q)), m);
      TimesOne(x, m);
    }
  }

  /** BYE empties the node, and each of its servers yields one notice for every lookup that
      matches it, and no other notice is sent. */
  lemma {:induction false} ByeNotices(s: State, from: Addr, m: Message, walk: seq<Addr>, told: seq<Addr>, q: Addr,
                                      w: Service, a: Addr)
    requires m.Bye? && Order(s, from, m, walk, told)
    ensures forall b :: b in After(s, from, m).servers <==> b in s.servers && b.node != from.node
    ensures Times(Picked(Output(s, from, m, walk, told), Toward(q)), DelServer(w, a))
         == if a in s.servers && a.node == from.node && s.servers[a] == w then Tally(s.lookups, q, w) else 0
  {
    hide Times; hide Tally; hide Picked; hide Removals; hide Forwards;
    var x, y := Removals(s, walk), Forwards(told, Bye(from.node));
    PickedConcat(x, y, Toward(q));
    TimesConcat(Picked(x, Toward(q)), Picked(y, Toward(q)), DelServer(w, a));
    RemovalsCounted(s, walk, q, w, a);
    ForwardsCounted(told, Bye(from.node), q, DelServer(w, a));
  }
}
