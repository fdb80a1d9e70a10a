/** Runs of the name service on its hash tables, alone and in a network, and what they share with runs on
    the registry. */
module TableRuns {
  import opened Common
  import opened Probing
  import opened SlotWalk
  import opened HashTable
  import opened NameService
  import opened Replication
  import opened ServiceTables
  import opened HashKey
  import opened NameTables
  import opened TableRefinement
  import opened Observers

  // ----- One name service -----

  /** A message, with the order in which its query, if it makes one, meets the nodes. */
  datatype Call = Call(from: Addr, msg: Message, order: seq<Id>)

  ghost predicate Proper(s: Store, run: seq<Call>)
    decreases run
  {
    run == [] ||
    (Visits(s, run[0].from, run[0].msg, run[0].order) && Proper(Handled(s, run[0].from, run[0].msg), run[1..]))
  }

  /** Every registration finds its port free, or no deletion marker before its entry. */
  ghost predicate AllMayPut(s: Store, run: seq<Call>)
    decreases run
  {
    run == [] ||
    (MayPut(s, run[0].from, run[0].msg) && AllMayPut(Handled(s, run[0].from, run[0].msg), run[1..]))
  }

  ghost function Final(s: Store, run: seq<Call>): Store
    decreases run
  {
    if run == [] then s else Final(Handled(s, run[0].from, run[0].msg), run[1..])
  }

  ghost function AllSent(s: Store, run: seq<Call>): seq<Packet>
    decreases run
  {
    if run == [] then []
    else Sent(s, run[0].from, run[0].msg, run[0].order) + AllSent(Handled(s, run[0].from, run[0].msg), run[1..])
  }

  ghost predicate SameCalls(run: seq<Call>, ins: seq<Input>) {
    |run| == |ins| && forall i :: 0 <= i < |run| ==> run[i].from == ins[i].from && run[i].msg == ins[i].msg
  }

  /** Any run keeps every table sound, whatever is registered. */
  lemma {:induction false} FinalSound(s: Store, run: seq<Call>)
    requires Sound(s.nodes)
    ensures Sound(Final(s, run).nodes)
    decreases run
  {
    hide Sound; hide Handled;
    if run != [] {
      HandledSound(s, run[0].from, run[0].msg);
      FinalSound(Handled(s, run[0].from, run[0].msg), run[1..]);
    }
  }

  /** Over every run in which all registrations may be put, the tables stand for the registry, and
      everybody is sent what the registry's service sends. */
  lemma {:induction false} RunRefines(s: Store, r: Registry, run: seq<Call>) returns (ins: seq<Input>)
    requires Standing(s.nodes, r) && Proper(s, run) && AllMayPut(s, run)
    ensures var a := Abstract(s, r);
      && SameCalls(run, ins) && Observers.Heard(a, ins) && Standing(Final(s, run).nodes, End(a, ins).servers)
      && Abstract(Final(s, run), End(a, ins).servers) == End(a, ins)
      && forall q :: Picked(AllSent(s, run), Toward(q)) == Log(a, ins, q)
    decreases run
  {
    hide Standing; hide Handled; hide After; hide MayPut; hide Visits; hide Sent; hide Output; hide Order; hide Picked;
    hide Rejected; hide Refused;
    if run == [] {
      ins := [];
      NothingPicked();
    } else {
      var c := run[0];
      var a, t := Abstract(s, r), Handled(s, c.from, c.msg);
      var walk, told := Refines(s, r, c.from, c.msg, c.order);
      var q := After(a, c.from, c.msg).servers;
      var rest := RunRefines(t, q, run[1..]);
      var first := Input(c.from, c.msg, walk, told);
      ins := [first] + rest;
      assert ins[1..] == rest;
      forall i | 0 <= i < |run| ensures run[i].from == ins[i].from && run[i].msg == ins[i].msg {
        if i > 0 {
          assert run[i] == run[1..][i - 1] && ins[i] == rest[i - 1];
        }
      }
      forall z ensures Picked(AllSent(s, run), Toward(z)) == Log(a, ins, z) {
        PickedConcat(Sent(s, c.from, c.msg, c.order), AllSent(t, run[1..]), Toward(z));
      }
    }
  }

  lemma {:induction false} NothingPicked()
    ensures forall q :: Picked([], Toward(q)) == []
  {
  }

  /** A client that asked for everything first and is not disturbed knows, over every such run, what
      map_get answers for any node and port. */
  lemma {:induction false} ObserverKnowsTables(node: Id, run: seq<Call>, q: Addr, a: Addr)
    requires var s := Store(node, map[], []); Proper(s, run) && AllMayPut(s, run)
    requires run != [] && run[0].from == q && run[0].msg == NewLookup(0, 0) && q.node == node
    requires forall c :: c in run ==> Undisturbed(c.from, c.msg, q)
    ensures var s := Store(node, map[], []);
      Looked(Replay(map[], Picked(AllSent(s, run), Toward(q))), a)
      == match EntryAt(Final(s, run).nodes, a) case None => None case Some(e) => Some(e.what)
  {
    hide Replay; hide Picked; hide AllSent; hide EntryAt; hide Proper; hide AllMayPut; hide Undisturbed; hide Log;
    var s := Store(node, map[], []);
    assert Standing(s.nodes, map[]);
    var ins := RunRefines(s, map[], run);
    assert AllUndisturbed(ins, q) by {
      forall e | e in ins ensures Undisturbed(e.from, e.msg, q) {
        var i :| 0 <= i < |ins| && ins[i] == e;
        assert run[i] in run;
      }
    }
    var b := Abstract(s, map[]);
    WholeRegistry(b, ins, q);
    EntryGood(Final(s, run).nodes, End(b, ins).servers, a);
  }

  // ----- The run that goes wrong -----

  lemma {:induction false} Registers(s: Store, t: Table, a: Addr, w: Service, p: nat)
    requires s.nodes == map[s.local := t] && a.node == s.local && w.service != 0 && a.port != 0
    requires LiveCount(t) < |t| && Place(t, Own, HashU32(a.port), 0) == Some(p)
    ensures Handled(s, a, NewServer(w, a))
         == s.(nodes := map[s.local := t[p := Live(HashU32(a.port), Registered(w, a))]])
  {
    hide LiveCount; hide Place; hide HashU32;
  }

  lemma {:induction false} Unregisters(s: Store, t: Table, a: Addr, w: Service, p: nat)
    requires s.nodes == map[s.local := t] && a.node == s.local && Find(t, Own, HashU32(a.port), 0) == Some(p)
    ensures Handled(s, a, DelServer(w, a)) == s.(nodes := map[s.local := t[p := Deleted]])
  {
    hide Find; hide HashU32;
  }

  /** The first registration makes a table of 256 slots. */
  lemma {:induction false} FirstRegisters(n: Id, t: Table, a: Addr, w: Service, p: nat)
    requires a.node == n && w.service != 0 && a.port != 0 && |t| == 256 && forall k :: 0 <= k < |t| ==> t[k].Empty?
    requires Place(t, Own, HashU32(a.port), 0) == Some(p)
    ensures Handled(Store(n, map[], []), a, NewServer(w, a))
         == Store(n, map[n := t[p := Live(HashU32(a.port), Registered(w, a))]], [])
  {
    hide Place; hide HashU32;
    NothingRehashed<Registered>([], t);
    var e: Table := [];
    assert e[..0] == e;
    assert Roomy(e) == t;
  }

  /** Port 257 twice, as ServiceTables.RegisteredTwice has it, by messages of local clients; and again
      once it is deleted. */
  ghost function TwiceRun(n: Id, w0: Service, w: Service, w': Service): seq<Call> {
    var a, b := Addr(n, 1), Addr(n, 257);
    [Call(a, NewServer(w0, a), []), Call(b, NewServer(w, b), []), Call(a, DelServer(w0, a), []),
     Call(b, NewServer(w', b), []), Call(b, DelServer(w', b), [])]
  }

  lemma {:induction false} RunStep(s: Store, run: seq<Call>, k: nat, t: Store)
    requires k < |run| && Final(s, run[..k]) == t
    ensures Final(s, run[..k + 1]) == Handled(t, run[k].from, run[k].msg)
    decreases k
  {
    hide Handled;
    if k > 0 {
      var u := Handled(s, run[0].from, run[0].msg);
      assert run[..k][1..] == run[1..][..k - 1] && run[..k + 1][1..] == run[1..][..k];
      RunStep(u, run[1..], k - 1, t);
    } else {
      assert run[..1][1..] == [];
    }
  }

  /** The tables of that run are those of ServiceTables.Run, so the name service reaches a table with
      port 257 in it twice: a peer told of it keeps w, where map_get answers w', and after the deletion
      of port 257 the node answers w. */
  lemma {:induction false} TwiceReached(n: Id, w0: Service, w: Service, w': Service)
    requires w0.service != 0 && w.service != 0 && w'.service != 0
    ensures var s, run, b, ts := Store(n, map[], []), TwiceRun(n, w0, w, w'), Addr(n, 257), Run(n, w0, w, w');
      && (forall k :: 1 <= k <= 5 ==> Final(s, run[..k]) == Store(n, map[n := ts[k]], []))
      && EntryAt(Final(s, run[..4]).nodes, b) == Some(Registered(w', b)) && ServiceTables.Heard(ts[4], n) == map[b := w]
      && EntryAt(Final(s, run).nodes, b) == Some(Registered(w, b))
  {
    hide HashU32; hide Place; hide Find; hide Handled; hide LiveCount; hide ServiceTables.Heard; hide Final;
    var s, run, b, ts := Store(n, map[], []), TwiceRun(n, w0, w, w'), Addr(n, 257), Run(n, w0, w, w');
    var a := Addr(n, 1);
    RegisteredTwice(n, w0, w, w');
    BlankCount(ts[0]);
    LiveCountUpdate(ts[0], 177, ts[1][177]);
    LiveCountUpdate(ts[1], 178, ts[2][178]);
    LiveCountUpdate(ts[2], 177, Deleted);
    NoRun(s, run);
    RunStep(s, run, 0, s);
    FirstRegisters(n, ts[0], a, w0, 177);
    RunStep(s, run, 1, Store(n, map[n := ts[1]], []));
    Registers(Store(n, map[n := ts[1]], []), ts[1], b, w, 178);
    RunStep(s, run, 2, Store(n, map[n := ts[2]], []));
    Unregisters(Store(n, map[n := ts[2]], []), ts[2], a, w0, 177);
    RunStep(s, run, 3, Store(n, map[n := ts[3]], []));
    Registers(Store(n, map[n := ts[3]], []), ts[3], b, w', 177);
    RunStep(s, run, 4, Store(n, map[n := ts[4]], []));
    Unregisters(Store(n, map[n := ts[4]], []), ts[4], b, w', 177);
    assert run[..5] == run;
  }

  lemma {:induction false} NoRun(s: Store, run: seq<Call>)
    ensures Final(s, run[..0]) == s
  {
  }
}
