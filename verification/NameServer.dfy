/** The handlers of ns.c, which change the tables of servers and the lookups in place and send packets:
    they do what NameTables says, whatever the tables hold. */
module NameServer {
  import opened Common
  import opened Probing
  import opened HashTable
  import opened HashKey
  import opened NameService
  import opened ServiceTables
  import opened NameTables
  import opened TableRuns

  const EINVAL := -22
  const ENOENT := -2

  lemma {:induction false} ForwardsNext(order: seq<Addr>, m: Message, i: nat)
    requires i < |order|
    ensures Forwards(order[..i + 1], m) == Forwards(order[..i], m) + [Packet(To(order[i]), m)]
  {
    assert order[..i + 1][..i] == order[..i];
  }

  lemma {:induction false} NoticesNext(ls: seq<Lookup>, w: Service, m: Message, i: nat)
    requires i < |ls|
    ensures Notices(ls[..i + 1], w, m)
         == Notices(ls[..i], w, m) + if Matches(ls[i], w) then [Packet(To(ls[i].sq), m)] else []
  {
    assert ls[..i + 1][..i] == ls[..i];
  }

  lemma {:induction false} NoNotices(w: Service, m: Message)
    ensures Notices([], w, m) == []
  {
  }

  lemma {:induction false} IntroducedNext(es: seq<Registered>, to: Addr, i: nat)
    requires i < |es|
    ensures Introduced(es[..i + 1], to) == Introduced(es[..i], to) + [Packet(To(to), NewServer(es[i].what, es[i].at))]
  {
    assert es[..i + 1][..i] == es[..i];
  }

  ghost function AsSeq(e: Option<Registered>): seq<Registered> {
    match e
    case None => []
    case Some(x) => [x]
  }

  lemma {:induction false} RetiredNext(local: Id, ls: seq<Lookup>, es: seq<Registered>, e: Option<Registered>)
    ensures Retired(local, ls, es + AsSeq(e)) == Retired(local, ls, es) + OneRetired(local, ls, e)
  {
    hide Removal;
    assert (es + AsSeq(e))[..|es|] == es;
    if e.None? {
      assert es + [] == es;
    }
  }

  lemma {:induction false} KeptNone(all: seq<Registered>, drop: Registered -> bool)
    ensures Kept(all[..0], drop) == []
  {
  }

  /** Slots without an entry are passed over. */
  lemma {:induction false} LeftSkip(s: Table, i: nat, j: nat)
    requires i <= j <= |s| && forall k :: i <= k < j ==> !s[k].Live?
    ensures Left(s, i) == Left(s, j) && Leavers(s, i) == Leavers(s, j)
    decreases j - i
  {
    if i < j {
      LeftSkip(s, i + 1, j);
    }
  }

  lemma {:induction false} NothingQueried(nodes: Nodes, f: Filter)
    ensures Queried(nodes, [], f) == []
  {
  }

  lemma {:induction false} QueriedNext(nodes: Nodes, order: seq<Id>, n: Id, f: Filter)
    ensures Queried(nodes, order + [n], f) == Queried(nodes, order, f) + Kept(Listed(TableOf(nodes, n)), Unfit(f))
  {
    assert (order + [n])[..|order|] == order;
  }

  /** The services table of every node known; NodeGet of HashKey justifies the outer map. */
  class Tables {
    var nodes: map<Id, HashMap<Registered>>
    ghost var seen: Nodes
    ghost var repr: set<object>

    /** In the table of node n the count is right, every entry can be found, and its slots are seen. */
    ghost predicate Good(n: Id)
      reads this, repr
    {
      && n in nodes && nodes[n] in repr && nodes[n].data in repr && this !in repr
      && nodes[n].Sound() && n in seen && seen[n] == nodes[n].data[..]
    }

    /** The tables are good and separate. */
    ghost predicate Valid()
      reads this, repr
    {
      && this !in repr && seen.Keys == nodes.Keys
      && (forall n :: n in nodes ==> Good(n))
      && forall m, n :: m in nodes && n in nodes && m != n ==> nodes[m] != nodes[n] && nodes[m].data != nodes[n].data
    }

    constructor ()
      ensures Valid() && seen == map[] && fresh(repr)
    {
      nodes, seen, repr := map[], map[], {};
    }

    /** A node that was not known gets an empty table. */
    method MakeNode(n: Id) returns (t: HashMap<Registered>)
      requires Valid() && n !in nodes
      modifies this
      ensures Valid() && nodes == old(nodes)[n := t] && seen == old(seen)[n := []]
      ensures fresh(t) && fresh(t.data) && t.data.Length == 0 && repr == old(repr) + {t, t.data}
    {
      hide HashMap.Sound; hide HashMap.Valid;
      t := new HashMap<Registered>();
      assert forall m :: m in nodes ==> Good(m);
      nodes, seen, repr := nodes[n := t], seen[n := []], repr + {t, t.data};
      assert t.data[..] == [];
    }

    /** node_get: the node's table, made if there was none. */
    method NodeGet(n: Id) returns (t: HashMap<Registered>)
      requires Valid()
      modifies this
      ensures Valid() && n in nodes && nodes[n] == t && seen == With(old(seen), n)
      ensures t in repr && t.data in repr && fresh(repr - old(repr)) && old(repr) <= repr
      ensures n in seen && t.data[..] == seen[n] == TableOf(old(seen), n)
    {
      hide HashMap.Sound; hide HashMap.Valid;
      assert n in nodes <==> n in seen.Keys;
      if n in nodes {
        assert Good(n);
        t := nodes[n];
      } else {
        t := MakeNode(n);
      }
    }

    /** map_for_each over the services of a node. */
    method Walk(n: Id) returns (es: seq<Registered>)
      requires Valid() && n in nodes
      ensures Valid() && es == Listed(TableOf(seen, n))
    {
      hide HashMap.Sound; hide HashMap.Valid; hide Met; hide Entries;
      assert Good(n);
      var visited := nodes[n].ForEach();
      es := Met(visited);
    }

    /** The walk over one node in server_query. */
    method QueryNode(n: Id, f: Filter) returns (es: seq<Registered>)
      requires Valid() && n in nodes
      ensures Valid() && es == Kept(Listed(TableOf(seen, n)), Unfit(f))
    {
      hide Kept; hide Listed; hide HashMap.Sound;
      var all := Walk(n);
      es := [];
      KeptNone(all, Unfit(f));
      for i := 0 to |all|
        invariant Valid() && es == Kept(all[..i], Unfit(f))
      {
        KeptNext(all, Unfit(f), i);
        if ServerMatch(all[i].what, f) {
          es := es + [all[i]];
        }
      }
      assert all[..|all|] == all;
    }

    /** server_query: the entries that match the filter, node by node. */
    method Query(f: Filter) returns (es: seq<Registered>, order: seq<Id>)
      requires Valid()
      ensures Valid() && EveryNode(seen, order) && es == Queried(seen, order, f)
    {
      hide Good; hide Kept; hide Listed; hide Queried; hide TableOf;
      es, order := [], [];
      NothingQueried(seen, f);
      var left := nodes.Keys;
      while left != {}
        invariant Valid() && left <= nodes.Keys && es == Queried(seen, order, f)
        invariant forall n :: n in order <==> n in nodes && n !in left
        invariant forall i, j :: 0 <= i < j < |order| ==> order[i] != order[j]
      {
        var n :| n in left;
        var more := QueryNode(n, f);
        QueriedNext(seen, order, n, f);
        es, order := es + more, order + [n];
        left := left - {n};
      }
      assert forall n :: n in nodes.Keys <==> n in seen.Keys;
    }

    /** map_reput in server_add. */
    method Enter(t: HashMap<Registered>, w: Service, a: Addr)
      requires Valid() && a.node in nodes && nodes[a.node] == t && a.node in seen
      modifies this, t, t.data
      ensures Valid() && fresh(repr - old(repr)) && old(repr) <= repr
      ensures seen == old(seen)[a.node := Reputted(old(seen)[a.node], HashU32(a.port), Registered(w, a))]
    {
      hide HashMap.Sound; hide HashMap.Valid; hide Reputted; hide HashU32; hide Replaced; hide Roomy; hide CanPut;
      hide Unique; hide With; hide TableOf;
      assert forall n :: n in nodes ==> Good(n);
      var _ := t.Reput(HashU32(a.port), Registered(w, a));
      Note(a.node);
    }

    /** The slots of the table of node n, which has changed, are seen. */
    ghost method Note(n: Id)
      requires n in nodes && n in seen && this !in repr && seen.Keys == nodes.Keys && nodes[n].Sound()
      requires nodes[n] in repr
      requires forall m :: m in nodes && m != n ==> Good(m) && nodes[m] != nodes[n] && nodes[m].data != nodes[n].data
      requires forall m, k :: m in nodes && k in nodes && m != k && m != n && k != n ==>
        nodes[m] != nodes[k] && nodes[m].data != nodes[k].data
      modifies this`seen, this`repr
      ensures Valid() && seen == old(seen)[n := nodes[n].data[..]] && repr == old(repr) + {nodes[n].data}
    {
      hide HashMap.Sound; hide HashMap.Valid;
      seen, repr := seen[n := nodes[n].data[..]], repr + {nodes[n].data};
    }

    /** server_add, on any table. */
    method Add(w: Service, a: Addr) returns (ok: bool)
      requires Valid()
      modifies this, repr
      ensures Valid() && (ok <==> w.service != 0 && a.port != 0) && fresh(repr - old(repr)) && old(repr) <= repr
      ensures seen == if ok
        then old(seen)[a.node := Reputted(TableOf(old(seen), a.node), HashU32(a.port), Registered(w, a))]
        else old(seen)
    {
      hide Valid; hide Reputted; hide HashU32;
      if w.service == 0 || a.port == 0 {
        return false;
      }
      var t := NodeGet(a.node);
      Enter(t, w, a);
      return true;
    }

    /** map_get and map_remove in server_del. */
    method Unregister(t: HashMap<Registered>, a: Addr) returns (found: Option<Registered>)
      requires Valid() && a.node in nodes && nodes[a.node] == t && a.node in seen
      modifies this`seen, t, t.data
      ensures Valid() && t.data == old(t.data) && found == Found(old(seen)[a.node], HashU32(a.port))
      ensures seen == old(seen)[a.node := Removed(old(seen)[a.node], Own, HashU32(a.port))]
      ensures t.data[..] == seen[a.node]
    {
      hide HashMap.Sound; hide HashMap.Valid; hide HashU32; hide Removed; hide Found;
      assert forall n :: n in nodes ==> Good(n);
      found := t.Get(HashU32(a.port));
      var _ := t.Remove(HashU32(a.port));
      seen := seen[a.node := t.data[..]];
    }
  }

  class Server {
    const local: Id
    const tables: Tables
    var lookups: seq<Lookup>
    var sent: seq<Packet>

    ghost function Abs(): Store
      reads this, tables
    {
      Store(local, tables.seen, lookups)
    }

    ghost predicate Valid()
      reads this, tables, tables.repr
    {
      tables.Valid() && this !in tables.repr
    }

    constructor (node: Id)
      ensures Valid() && Abs() == Store(node, map[], []) && sent == [] && fresh(tables) && fresh(tables.repr)
    {
      local, lookups, sent := node, [], [];
      tables := new Tables();
    }

    method Send(dest: Dest, m: Message)
      modifies this`sent
      ensures sent == old(sent) + [Packet(dest, m)]
    {
      sent := sent + [Packet(dest, m)];
    }

    /** The loop over the observers in ctrl_cmd_new_server and server_del. */
    method Notify(w: Service, m: Message)
      modifies this`sent
      ensures sent == old(sent) + Notices(lookups, w, m)
    {
      hide Notices;
      NoNotices(w, m);
      for i := 0 to |lookups|
        invariant sent == old(sent) + Notices(lookups[..i], w, m)
      {
        var l := lookups[i];
        NoticesNext(lookups, w, m, i);
        if !(l.service != 0 && l.service != w.service) && !(l.instance != 0 && l.instance != w.instance) {
          Send(To(l.sq), m);
        }
      }
      assert lookups[..|lookups|] == lookups;
    }

    /** annouce_servers, and the answer to a lookup. */
    method Announce(es: seq<Registered>, to: Addr)
      modifies this`sent
      ensures sent == old(sent) + Introduced(es, to)
    {
      for i := 0 to |es|
        invariant sent == old(sent) + Introduced(es[..i], to)
      {
        IntroducedNext(es, to, i);
        Send(To(to), NewServer(es[i].what, es[i].at));
      }
      assert es[..|es|] == es;
    }

    /** The propagation of BYE and DEL_CLIENT to the local services. */
    method Forward(order: seq<Addr>, m: Message)
      modifies this`sent
      ensures sent == old(sent) + Forwards(order, m)
    {
      for i := 0 to |order|
        invariant sent == old(sent) + Forwards(order[..i], m)
      {
        ForwardsNext(order, m, i);
        Send(To(order[i]), m);
      }
      assert order[..|order|] == order;
    }

    /** The packets of server_del for the entry found. */
    method Retire(e: Registered)
      modifies this`sent
      ensures sent == old(sent) + Removal(local, lookups, e.what, e.at)
    {
      hide Notices;
      if e.at.node == local {
        Send(Broadcast, DelServer(e.what, e.at));
      }
      Notify(e.what, DelServer(e.what, e.at));
    }

    /** The safe iteration that drops lookups. */
    method Drop(drop: Lookup -> bool)
      modifies this`lookups
      ensures lookups == Kept(old(lookups), drop)
    {
      var kept := [];
      for i := 0 to |lookups|
        invariant lookups == old(lookups) && kept == Kept(lookups[..i], drop)
      {
        KeptNext(lookups, drop, i);
        if !drop(lookups[i]) {
          kept := kept + [lookups[i]];
        }
      }
      assert lookups[..|lookups|] == lookups;
      lookups := kept;
    }

    /** t is the table of node n. */
    ghost predicate IsTable(t: HashMap<Registered>, n: Id)
      reads this, tables, tables.repr, t
    {
      && Valid() && n in tables.nodes && tables.nodes[n] == t && t in tables.repr && t.data in tables.repr
      && n in tables.seen && tables.seen[n] == t.data[..]
    }

    /** server_del on the table of the node: the entry found for the port, if any, becomes a deletion
        marker, and its removal is told. */
    method Delete(t: HashMap<Registered>, a: Addr) returns (rc: int)
      requires IsTable(t, a.node)
      modifies tables`seen, this`sent, t, t.data
      ensures IsTable(t, a.node) && t.data == old(t.data)
      ensures var found := Found(old(tables.seen)[a.node], HashU32(a.port));
        && rc == (if found.None? then ENOENT else 0)
        && sent == old(sent) + OneRetired(local, lookups, found)
      ensures tables.seen == old(tables.seen)[a.node := Removed(old(tables.seen)[a.node], Own, HashU32(a.port))]
    {
      hide HashU32; hide Tables.Valid; hide Removal; hide Found; hide Removed;
      var found := tables.Unregister(t, a);
      match found {
        case None =>
          return ENOENT;
        case Some(e) =>
          Retire(e);
          return 0;
      }
    }

    /** One turn of the loop of ctrl_cmd_bye: server_del for the port of the entry met, and on to the
        next entry. */
    method DeleteSlot(t: HashMap<Registered>, n: Id, k: nat) returns (next: nat, ghost found: Option<Registered>)
      requires IsTable(t, n) && k < t.data.Length && t.data[k].Live?
      modifies tables`seen, this`sent, t, t.data
      ensures IsTable(t, n) && t.data == old(t.data) && k < next <= t.data.Length
      ensures next < t.data.Length ==> t.data[next].Live?
      ensures tables.seen == old(tables.seen)[n := tables.seen[n]]
      ensures Left(old(tables.seen)[n], k) == Left(tables.seen[n], next)
      ensures Leavers(old(tables.seen)[n], k) == AsSeq(found) + Leavers(tables.seen[n], next)
      ensures sent == old(sent) + OneRetired(local, lookups, found)
    {
      hide HashU32; hide Tables.Valid; hide Left; hide Leavers; hide Removal; hide Removed; hide Found;
      ghost var now := tables.seen[n];
      var port := t.data[k].value.at.port;
      LeftStep(now, k);
      found := Found(now, HashU32(port));
      var _ := Delete(t, Addr(n, port));
      next := t.IterFrom(k + 1);
      LeftSkip(tables.seen[n], k + 1, next);
    }

    /** The loop of ctrl_cmd_bye over the table of the node that left. */
    method DeleteAll(t: HashMap<Registered>, n: Id)
      requires IsTable(t, n)
      modifies tables`seen, this`sent, t, t.data
      ensures IsTable(t, n) && tables.seen == old(tables.seen)[n := Left(old(tables.seen)[n], 0)]
      ensures sent == old(sent) + Retired(local, lookups, Leavers(old(tables.seen)[n], 0))
    {
      hide Tables.Valid; hide Left; hide Leavers; hide Retired; hide OneRetired; hide AsSeq;
      ghost var s, seen, es := tables.seen[n], tables.seen, [];
      var it := t.IterFrom(0);
      LeftSkip(s, 0, it);
      NothingRetired(local, lookups);
      while it < t.data.Length
        invariant IsTable(t, n) && t.data == old(t.data)
        invariant it <= t.data.Length && (it < t.data.Length ==> t.data[it].Live?)
        invariant tables.seen == seen[n := tables.seen[n]]
        invariant Left(tables.seen[n], it) == Left(s, 0) && es + Leavers(tables.seen[n], it) == Leavers(s, 0)
        invariant sent == old(sent) + Retired(local, lookups, es)
        decreases t.data.Length - it
      {
        ghost var found;
        it, found := DeleteSlot(t, n, it);
        RetiredNext(local, lookups, es, found);
        es := es + AsSeq(found);
      }
      AllPassed(tables.seen[n], it, es);
    }

    /** The walk over the local services. */
    method Locals() returns (es: seq<Registered>)
      requires Valid()
      modifies tables
      ensures Valid() && tables.seen == With(old(tables.seen), local) && es == Listed(TableOf(tables.seen, local))
      ensures fresh(tables.repr - old(tables.repr)) && old(tables.repr) <= tables.repr
    {
      hide Tables.Valid; hide Listed;
      var _ := tables.NodeGet(local);
      es := tables.Walk(local);
    }

    method HelloCmd(from: Addr)
      requires Valid()
      modifies this`sent, tables
      ensures Valid() && Abs() == Handled(old(Abs()), from, Hello)
      ensures sent == old(sent) + Sent(old(Abs()), from, Hello, [])
      ensures fresh(tables.repr - old(tables.repr)) && old(tables.repr) <= tables.repr
    {
      hide Tables.Valid; hide Listed; hide Introduced;
      Send(To(from), Hello);
      var es := Locals();
      Announce(es, from);
    }

    method ByeCmd(from: Addr, m: Message)
      requires m.Bye? && Valid()
      modifies this`sent, tables, tables.repr
      ensures Valid() && Abs() == Handled(old(Abs()), from, m)
      ensures sent == old(sent) + Sent(old(Abs()), from, m, [])
      ensures fresh(tables.repr - old(tables.repr)) && old(tables.repr) <= tables.repr
    {
      hide Tables.Valid; hide Listed; hide Left; hide Leavers; hide Retired; hide Forwards; hide Ats;
      var t := tables.NodeGet(from.node);
      DeleteAll(t, from.node);
      var es := Locals();
      Forward(Ats(es), Bye(from.node));
    }

    method DelClientCmd(from: Addr, c: Addr) returns (rc: int)
      requires Valid()
      modifies this`lookups, this`sent, tables, tables.repr
      ensures Valid() && Abs() == Handled(old(Abs()), from, DelClient(c))
      ensures sent == old(sent) + Sent(old(Abs()), from, DelClient(c), [])
      ensures rc < 0 <==> Rejected(old(Abs()), from, DelClient(c))
      ensures fresh(tables.repr - old(tables.repr)) && old(tables.repr) <= tables.repr
    {
      hide Tables.Valid; hide Listed; hide Kept; hide Removal; hide Forwards; hide Ats; hide Removed; hide HashU32;
      hide Found;
      if from.node != c.node || (from.node == local && from.port != c.port) {
        return EINVAL;
      }
      Drop(OfClient(c));
      var t := tables.NodeGet(c.node);
      var _ := Delete(t, c);
      var es := Locals();
      Forward(Ats(es), DelClient(c));
      return 0;
    }

    method NewServerCmd(from: Addr, w: Service, at: Addr) returns (rc: int)
      requires Valid()
      modifies this`sent, tables, tables.repr
      ensures Valid() && Abs() == Handled(old(Abs()), from, NewServer(w, at))
      ensures sent == old(sent) + Sent(old(Abs()), from, NewServer(w, at), [])
      ensures rc < 0 <==> Rejected(old(Abs()), from, NewServer(w, at))
      ensures fresh(tables.repr - old(tables.repr)) && old(tables.repr) <= tables.repr
    {
      hide Tables.Valid; hide Notices; hide Reputted; hide HashU32;
      var a := at;
      if from.node == local {
        a := from;
      }
      if from.node != a.node {
        return EINVAL;
      }
      var ok := tables.Add(w, a);
      if !ok {
        return EINVAL;
      }
      if a.node == local {
        Send(Broadcast, NewServer(w, a));
      }
      Notify(w, NewServer(w, a));
      return 0;
    }

    method DelServerCmd(from: Addr, w: Service, at: Addr) returns (rc: int)
      requires Valid()
      modifies this`sent, tables, tables.repr
      ensures Valid() && Abs() == Handled(old(Abs()), from, DelServer(w, at))
      ensures sent == old(sent) + Sent(old(Abs()), from, DelServer(w, at), [])
      ensures rc < 0 <==> Rejected(old(Abs()), from, DelServer(w, at))
      ensures fresh(tables.repr - old(tables.repr)) && old(tables.repr) <= tables.repr
    {
      hide Tables.Valid; hide Removal; hide Removed; hide HashU32; hide Found;
      var a := at;
      if from.node == local {
        a := from;
      }
      if from.node != a.node {
        return EINVAL;
      }
      if from.node == local && from.port != a.port {
        return EINVAL;
      }
      var t := tables.NodeGet(a.node);
      rc := Delete(t, a);
    }

    method NewLookupCmd(from: Addr, service: Word, instance: Word) returns (rc: int, order: seq<Id>)
      requires Valid()
      modifies this`lookups, this`sent
      ensures Valid() && Abs() == Handled(old(Abs()), from, NewLookup(service, instance))
      ensures Visits(old(Abs()), from, NewLookup(service, instance), order)
      ensures sent == old(sent) + Sent(old(Abs()), from, NewLookup(service, instance), order)
      ensures rc < 0 <==> Rejected(old(Abs()), from, NewLookup(service, instance))
    {
      hide Tables.Valid; hide Queried; hide Introduced; hide EveryNode;
      if from.node != local {
        return EINVAL, [];
      }
      lookups := lookups + [Lookup(service, instance, from)];
      var es;
      es, order := tables.Query(Filter(service, instance, 0));
      Announce(es, from);
      Send(To(from), TERMINATOR);
      rc := 0;
    }

    /** ctrl_port_fn: every message, whatever the tables hold, makes of them what is specified and
        sends the packets specified, and a negative code comes back exactly for those rejected. */
    method Handle(from: Addr, m: Message) returns (rc: int, order: seq<Id>)
      requires Valid()
      modifies this, tables, tables.repr
      ensures Valid() && Abs() == Handled(old(Abs()), from, m)
      ensures Visits(old(Abs()), from, m, order) && sent == old(sent) + Sent(old(Abs()), from, m, order)
      ensures rc < 0 <==> Rejected(old(Abs()), from, m)
      ensures fresh(tables.repr - old(tables.repr)) && old(tables.repr) <= tables.repr
    {
      hide Tables.Valid; hide Handled; hide Sent;
      rc, order := 0, [];
      NothingElse(Abs(), from, m);
      match m {
        case Hello => HelloCmd(from);
        case Bye(_) => ByeCmd(from, m);
        case DelClient(c) => rc := DelClientCmd(from, c);
        case NewServer(w, at) => rc := NewServerCmd(from, w, at);
        case DelServer(w, at) => rc := DelServerCmd(from, w, at);
        case NewLookup(sv, i) => rc, order := NewLookupCmd(from, sv, i);
        case DelLookup(sv, i) => Drop(Ended(from, sv, i));
        case Other =>
      }
    }

    /** The name service at work: any number of messages. */
    method Serve(msgs: seq<(Addr, Message)>) returns (ghost run: seq<Call>)
      requires Valid()
      modifies this, tables, tables.repr
      ensures Valid() && |run| == |msgs|
      ensures forall i :: 0 <= i < |run| ==> run[i].from == msgs[i].0 && run[i].msg == msgs[i].1
      ensures Proper(old(Abs()), run) && Abs() == Final(old(Abs()), run) && sent == old(sent) + AllSent(old(Abs()), run)
    {
      hide Tables.Valid; hide Handled; hide Sent; hide Visits; hide Rejected;
      run := [];
      ghost var s := Abs();
      for i := 0 to |msgs|
        invariant Valid() && |run| == i && fresh(tables.repr - old(tables.repr))
        invariant forall j :: 0 <= j < i ==> run[j].from == msgs[j].0 && run[j].msg == msgs[j].1
        invariant Proper(s, run) && Abs() == Final(s, run) && sent == old(sent) + AllSent(s, run)
      {
        var _, order := Handle(msgs[i].0, msgs[i].1);
        var c := Call(msgs[i].0, msgs[i].1, order);
        OneCallMore(s, run, c);
        run := run + [c];
      }
    }
  }

  lemma {:induction false} NothingRetired(local: Id, ls: seq<Lookup>)
    ensures Retired(local, ls, []) == []
  {
  }

  /** One turn of the loop of ctrl_cmd_bye. */
  lemma {:induction false} LeftStep(s: Table, k: nat)
    requires k < |s| && s[k].Live?
    ensures var key := HashU32(s[k].value.at.port);
      && Left(s, k) == Left(Removed(s, Own, key), k + 1)
      && Leavers(s, k) == AsSeq(Found(s, key)) + Leavers(Removed(s, Own, key), k + 1)
  {
    hide HashU32; hide Found; hide Removed;
  }

  lemma {:induction false} AllPassed(s: Table, k: nat, es: seq<Registered>)
    requires k >= |s|
    ensures Left(s, k) == s && es + Leavers(s, k) == es
  {
  }

  /** A message that only drops lookups, or is not known, sends nothing. */
  lemma {:induction false} NothingElse(s: Store, from: Addr, m: Message)
    ensures m.DelLookup? ==>
      && Sent(s, from, m, []) == []
      && Handled(s, from, m) == s.(lookups := Kept(s.lookups, Ended(from, m.service, m.instance)))
    ensures m.Other? ==> Sent(s, from, m, []) == [] && Handled(s, from, m) == s
  {
  }

  lemma {:induction false} OneCallMore(s: Store, run: seq<Call>, c: Call)
    ensures var t := Final(s, run);
      && Final(s, run + [c]) == Handled(t, c.from, c.msg)
      && AllSent(s, run + [c]) == AllSent(s, run) + Sent(t, c.from, c.msg, c.order)
      && (Proper(s, run + [c]) <==> Proper(s, run) && Visits(t, c.from, c.msg, c.order))
    decreases run
  {
    hide Handled; hide Sent; hide Visits;
    var more := run + [c];
    if run == [] {
      assert more[1..] == [];
    } else {
      assert more[1..] == run[1..] + [c];
      OneCallMore(Handled(s, run[0].from, run[0].msg), run[1..], c);
    }
  }
}
