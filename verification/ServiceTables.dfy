/** The services of one node in a table of map.c, and what a dump of that table tells a peer. */
module ServiceTables {
  import opened Common
  import opened Probing
  import opened HashTable
  import opened HashKey
  import opened SlotWalk
  import opened NameService
  import opened Replication

  /** struct server */
  datatype Registered = Registered(what: Service, at: Addr)

  type Table = Slots<Registered>

  /** Every entry is a proper server of node n, under the hash of its port. */
  ghost predicate Tidy(s: Table, n: Id) {
    forall k :: 0 <= k < |s| && s[k].Live? ==>
      && s[k].key == HashU32(s[k].value.at.port) && s[k].value.at.node == n
      && s[k].value.what.service != 0 && s[k].value.at.port != 0
  }

  /** annouce_servers on the table as it is: one NEW_SERVER for every entry, in slot order. */
  ghost function Dumped(s: Table): seq<Message> {
    if s == [] then []
    else
      var x := s[|s| - 1];
      Dumped(s[..|s| - 1]) + if x.Live? then [NewServer(x.value.what, x.value.at)] else []
  }

  /** What map_get answers for a port. */
  ghost function Answer(s: Table, a: Addr): Option<Service> {
    match Find(s, Own, HashU32(a.port), 0)
    case None => None
    case Some(r) => Some(s[r].value.what)
  }

  ghost function Looked(v: Registry, a: Addr): Option<Service> {
    if a in v then Some(v[a]) else None
  }

  /** What a peer that starts from nothing makes of the dump. */
  ghost function Heard(s: Table, n: Id): Registry {
    Applied(map[], n, Dumped(s))
  }

  /** The peer has, port by port, the last entry told. */
  lemma {:induction false} HeardIsTold(s: Table, n: Id, a: Addr)
    requires Tidy(s, n) && a.node == n
    ensures a in Heard(s, n) <==> HashU32(a.port) in Told(s)
    ensures a in Heard(s, n) ==> Told(s)[HashU32(a.port)] == Registered(Heard(s, n)[a], a)
  {
    hide HashU32; hide Applied;
    if s == [] {
      NothingApplied(map[], n);
    } else {
      var t, x := s[..|s| - 1], s[|s| - 1];
      assert Tidy(t, n) by {
        assert forall k :: 0 <= k < |t| ==> t[k] == s[k];
      }
      HeardIsTold(t, n, a);
      if x.Live? {
        var m := NewServer(x.value.what, x.value.at);
        AppliedConcat(map[], n, Dumped(t), [m]);
        AppliedOne(Heard(t, n), n, m);
        HashInjective(a.port, x.value.at.port);
      } else {
        assert Dumped(t) + [] == Dumped(t);
      }
    }
  }

  /** The peer agrees with map_get about a port exactly when the walk tells its key right. */
  lemma {:induction false} DumpAgrees(s: Table, n: Id, a: Addr)
    requires Tidy(s, n) && a.node == n
    ensures Looked(Heard(s, n), a) == Answer(s, a) <==> TellsRight(s, Own, HashU32(a.port))
  {
    hide Told; hide HashU32; hide Heard;
    HeardIsTold(s, n, a);
    match Find(s, Own, HashU32(a.port), 0) {
      case None =>
      case Some(r) => HashInjective(a.port, s[r].value.at.port);
    }
  }

  ghost predicate DumpRight(s: Table, n: Id) {
    forall a: Addr :: a.node == n ==> Looked(Heard(s, n), a) == Answer(s, a)
  }

  /** A key that is no port's hash is in no such table. */
  lemma {:induction false} StrangeKey(s: Table, n: Id, x: nat)
    requires Tidy(s, n) && forall p: Id :: HashU32(p) != x
    ensures TellsRight(s, Own, x)
  {
    hide Find; hide Told;
    assert forall j :: 0 <= j < |s| ==> !Holds(s[j], x);
    FindNone(s, Own, x);
    ToldNot(s, x);
  }

  lemma {:induction false} DumpTells(s: Table, n: Id)
    requires Tidy(s, n)
    ensures DumpRight(s, n) <==> forall x: nat :: TellsRight(s, Own, x)
  {
    hide TellsRight; hide Heard; hide Answer; hide Looked; hide Tidy; hide HashU32;
    if DumpRight(s, n) {
      forall x: nat ensures TellsRight(s, Own, x) {
        if p: Id :| HashU32(p) == x {
          DumpAgrees(s, n, Addr(n, p));
        } else {
          StrangeKey(s, n, x);
        }
      }
    }
    if forall x: nat :: TellsRight(s, Own, x) {
      forall a: Addr | a.node == n ensures Looked(Heard(s, n), a) == Answer(s, a) {
        DumpAgrees(s, n, a);
      }
    }
  }

  /** server_add on a table with distinct keys: afterwards a peer that hears the dump agrees with
      map_get on every port if and only if the port was not registered, or no deletion marker lay
      before its entry, or the old entry lies in an earlier slot, or nothing but the same server
      was registered again. */
  lemma {:induction false} RegisterTells(s: Table, n: Id, e: Registered)
    requires Reachable(s, Own) && Unique(s) && Tidy(s, n) && Place(s, Own, HashU32(e.at.port), 0).Some?
    requires e.at.node == n && e.what.service != 0 && e.at.port != 0
    ensures var key := HashU32(e.at.port);
      DumpRight(Put(s, Own, key, e), n) <==>
        || CanPut(s, Own, key)
        || exists k :: 0 <= k < |s| && Holds(s[k], key) && (k < Place(s, Own, key, 0).value || s[k].value == e)
  {
    hide TellsRight; hide CanPut; hide DumpRight; hide Reachable; hide HashU32; hide Place;
    var key := HashU32(e.at.port);
    PutTells(s, Own, key, e);
    DumpTells(Put(s, Own, key, e), n);
  }

  // ----- The table of a node as part of the registry -----

  /** The entries of the table of node n are the servers of n. */
  ghost predicate Stands(c: map<nat, Registered>, n: Id, r: Registry) {
    && (forall k :: k in c ==>
          && c[k].at.node == n && k == HashU32(c[k].at.port) && c[k].at in r && r[c[k].at] == c[k].what)
    && forall a :: a in r && a.node == n ==> HashU32(a.port) in c
  }

  lemma {:induction false} StandsAt(c: map<nat, Registered>, n: Id, r: Registry, a: Addr)
    requires Stands(c, n, r) && a.node == n
    ensures HashU32(a.port) in c <==> a in r
    ensures a in r ==> c[HashU32(a.port)] == Registered(r[a], a)
  {
    hide HashU32;
    if HashU32(a.port) in c {
      HashInjective(a.port, c[HashU32(a.port)].at.port);
    }
  }

  lemma {:induction false} StandsPut(c: map<nat, Registered>, n: Id, r: Registry, a: Addr, w: Service)
    requires Stands(c, n, r)
    ensures a.node == n ==> Stands(c[HashU32(a.port) := Registered(w, a)], n, r[a := w])
    ensures a.node != n ==> Stands(c, n, r[a := w])
  {
    hide HashU32;
    if a.node == n {
      var c' := c[HashU32(a.port) := Registered(w, a)];
      forall k | k in c'
        ensures c'[k].at.node == n && k == HashU32(c'[k].at.port) && c'[k].at in r[a := w]
                && r[a := w][c'[k].at] == c'[k].what
      {
        if k != HashU32(a.port) {
          assert c[k].at != a;
        }
      }
    }
  }

  lemma {:induction false} StandsDrop(c: map<nat, Registered>, n: Id, r: Registry, a: Addr)
    requires Stands(c, n, r)
    ensures a.node == n ==> Stands(c - {HashU32(a.port)}, n, r - {a})
    ensures a.node != n ==> Stands(c, n, r - {a})
  {
    hide HashU32;
    if a.node == n {
      forall b | b in r - {a} && b.node == n ensures HashU32(b.port) in c - {HashU32(a.port)} {
        HashInjective(a.port, b.port);
      }
      forall k | k in c - {HashU32(a.port)} ensures c[k].at != a {
      }
    }
  }

  lemma {:induction false} StandsEmpty(n: Id, r: Registry)
    requires forall a :: a in r ==> a.node != n
    ensures Stands(map[], n, r)
  {
  }

  /** The entries met by a walk, without their keys. */
  function Met(visited: seq<(nat, Registered)>): (r: seq<Registered>)
    ensures |r| == |visited| && forall i :: 0 <= i < |r| ==> r[i] == visited[i].1
  {
    if visited == [] then [] else Met(visited[..|visited| - 1]) + [visited[|visited| - 1].1]
  }

  function Ats(es: seq<Registered>): (r: seq<Addr>)
    ensures |r| == |es| && forall i :: 0 <= i < |r| ==> r[i] == es[i].at
  {
    if es == [] then [] else Ats(es[..|es| - 1]) + [es[|es| - 1].at]
  }

  /** The entries say what the registry says. */
  ghost predicate Stated(es: seq<Registered>, r: Registry) {
    forall i :: 0 <= i < |es| ==> es[i].at in r && r[es[i].at] == es[i].what
  }

  /** The walk met exactly the entries of the table, each once. */
  ghost predicate Walked(visited: seq<(nat, Registered)>, c: map<nat, Registered>) {
    && (forall e :: e in visited <==> e.0 in c && c[e.0] == e.1)
    && forall i, j :: 0 <= i < j < |visited| ==> visited[i].0 != visited[j].0
  }

  lemma {:induction false} WalkLists(visited: seq<(nat, Registered)>, c: map<nat, Registered>, n: Id, r: Registry)
    requires Stands(c, n, r) && Walked(visited, c)
    ensures Stated(Met(visited), r) && Lists(Ats(Met(visited)), AddrsOf(r, n))
  {
    hide HashU32; hide Ats; hide Met;
    var es := Met(visited);
    var order := Ats(es);
    forall i | 0 <= i < |order|
      ensures es[i].at in AddrsOf(r, n) && r[es[i].at] == es[i].what && HashU32(order[i].port) == visited[i].0
    {
      assert visited[i] in visited;
    }
    forall a ensures a in order <==> a in AddrsOf(r, n) {
      if a in AddrsOf(r, n) {
        StandsAt(c, n, r, a);
        var e := (HashU32(a.port), Registered(r[a], a));
        assert e in visited;
        var i :| 0 <= i < |visited| && visited[i] == e;
        assert order[i] == a;
      }
    }
  }

  // ----- A run that goes wrong -----

  lemma {:induction false} BlankDump(s: Table, i: nat, j: nat)
    requires i <= j <= |s| && forall k :: i <= k < j ==> !s[k].Live?
    ensures Dumped(s[..j]) == Dumped(s[..i])
    decreases j
  {
    if i < j {
      BlankDump(s, i, j - 1);
      assert s[..j][..j - 1] == s[..j - 1];
    }
  }

  lemma {:induction false} DumpNextEntry(s: Table, i: nat)
    requires i < |s| && s[i].Live?
    ensures Dumped(s[..i + 1]) == Dumped(s[..i]) + [NewServer(s[i].value.what, s[i].value.at)]
  {
    assert s[..i + 1][..i] == s[..i];
  }

  lemma {:induction false} TwoDumped(s: Table, i: nat)
    requires i + 2 <= |s| && s[i].Live? && s[i + 1].Live?
    requires forall k :: 0 <= k < |s| && k != i && k != i + 1 ==> !s[k].Live?
    ensures Dumped(s) == [NewServer(s[i].value.what, s[i].value.at), NewServer(s[i + 1].value.what, s[i + 1].value.at)]
  {
    hide Dumped;
    BlankDump(s, 0, i);
    DumpNextEntry(s, i);
    DumpNextEntry(s, i + 1);
    BlankDump(s, i + 2, |s|);
    assert s[..|s|] == s && s[..0] == [];
    NothingDumped();
  }

  lemma {:induction false} NothingDumped()
    ensures Dumped([]) == []
  {
  }

  /** Ports 1 and 257 share home slot 177 of 256. */
  lemma {:induction false} SharedHome()
    ensures HashU32(1) != HashU32(257) && Home<nat>(Own, HashU32(1), 256) == 177
      && Home<nat>(Own, HashU32(257), 256) == 177
  {
  }

  /** The tables of the run below. */
  ghost function Run(n: Id, w0: Service, w: Service, w': Service): (seq<Table>)
    ensures |Run(n, w0, w, w')| == 6 && forall i :: 0 <= i < 6 ==> |Run(n, w0, w, w')[i]| == 256
  {
    var blank: Table := seq(256, _ => Empty);
    var s1 := blank[177 := Live(HashU32(1), Registered(w0, Addr(n, 1)))];
    var s2 := s1[178 := Live(HashU32(257), Registered(w, Addr(n, 257)))];
    var s3 := s2[177 := Deleted];
    var s4 := s3[177 := Live(HashU32(257), Registered(w', Addr(n, 257)))];
    [blank, s1, s2, s3, s4, s4[177 := Deleted]]
  }

  /** NEW 1, NEW 257 with w, DEL 1, NEW 257 with w': the last goes to the deletion marker and leaves
      w behind it. A node that says HELLO now is told w' and then w, and keeps w, where map_get
      answers w'. And when 257 is deleted, the peers drop it while the table still holds w. */
  lemma {:induction false} RegisteredTwice(n: Id, w0: Service, w: Service, w': Service)
    requires w.service != 0 && w'.service != 0
    ensures var s, k1, k2, a := Run(n, w0, w, w'), HashU32(1), HashU32(257), Addr(n, 257);
      && Place(s[0], Own, k1, 0) == Some(177) && Place(s[1], Own, k2, 0) == Some(178)
      && Find(s[2], Own, k1, 0) == Some(177) && Place(s[3], Own, k2, 0) == Some(177) && !CanPut(s[3], Own, k2)
      && Answer(s[4], a) == Some(w') && Heard(s[4], n) == map[a := w]
      && Find(s[4], Own, k2, 0) == Some(177) && Answer(s[5], a) == Some(w)
      && Apply(Heard(s[4], n), n, DelServer(w', a)) == map[]
  {
    hide HashU32; hide Dumped; hide Applied;
    SharedHome();
    var s, k1, k2, a := Run(n, w0, w, w'), HashU32(1), HashU32(257), Addr(n, 257);
    assert Probe(s[1], Own, k2, 0).Live? && Probe(s[1], Own, k2, 1) == Empty;
    assert Place(s[1], Own, k2, 1) == Some(178);
    assert Probe(s[3], Own, k2, 0) == Deleted && Holds(s[3][178], k2) && Distance(256, 177, 178) == 1;
    assert Probe(s[5], Own, k2, 0) == Deleted && Probe(s[5], Own, k2, 1) == s[5][178];
    assert Find(s[5], Own, k2, 1) == Some(178);
    TwoDumped(s[4], 177);
    var m', m := NewServer(w', a), NewServer(w, a);
    assert [m', m] == [m'] + [m];
    AppliedConcat(map[], n, [m'], [m]);
    AppliedOne(map[], n, m');
    AppliedOne(map[a := w'], n, m);
    assert map[a := w'][a := w] == map[a := w];
  }
}
