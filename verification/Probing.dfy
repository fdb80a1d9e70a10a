/** Linear probing over a circular table, as map.c and assoc.c do it. */
module Probing {
  import opened Common

  /** A slot holds nothing, a deletion marker, or an entry. */
  datatype Slot<K, V> = Empty | Deleted | Live(key: K, value: V)

  /** The slot reached from home after i steps. */
  function Wrap(n: nat, home: nat, i: nat): (k: nat)
    requires home < n && i < n
    ensures k < n
  {
    if home + i < n then home + i else home + i - n
  }

  /** Steps from home to slot k. */
  function Distance(n: nat, home: nat, k: nat): (i: nat)
    requires home < n && k < n
    ensures i < n && Wrap(n, home, i) == k
  {
    if home <= k then k - home else k + n - home
  }

  lemma {:induction false} WrapDistance(n: nat, home: nat, i: nat)
    requires home < n && i < n
    ensures Distance(n, home, Wrap(n, home, i)) == i
  {
  }

  /** The step idx = (idx + 1) % size. */
  lemma {:induction false} WrapNext(n: nat, home: nat, i: nat)
    requires home < n && i + 1 < n
    ensures Wrap(n, home, i + 1) == (Wrap(n, home, i) + 1) % n
  {
  }

  function Home<K>(hash: K -> nat, key: K, n: nat): (h: nat)
    requires n > 0
    ensures h < n
  {
    hash(key) % n
  }

  /** The slot looked at in step i of a probe for key. */
  function Probe<K, V>(s: seq<Slot<K, V>>, hash: K -> nat, key: K, i: nat): Slot<K, V>
    requires i < |s|
  {
    s[Wrap(|s|, Home(hash, key, |s|), i)]
  }

  predicate Holds<K(==), V>(x: Slot<K, V>, key: K) {
    x.Live? && x.key == key
  }

  /** Where a search for key ends, from step i on: at its entry, or nowhere. */
  function Find<K(==), V>(s: seq<Slot<K, V>>, hash: K -> nat, key: K, i: nat): (r: Option<nat>)
    requires i <= |s|
    ensures r.Some? ==> r.value < |s| && Holds(s[r.value], key)
    decreases |s| - i
  {
    if i == |s| || Probe(s, hash, key, i).Empty? then None
    else if Holds(Probe(s, hash, key, i), key) then Some(Wrap(|s|, Home(hash, key, |s|), i))
    else Find(s, hash, key, i + 1)
  }

  /** Where key is put, from step i on: the first slot that is free or holds it. */
  function Place<K(==), V>(s: seq<Slot<K, V>>, hash: K -> nat, key: K, i: nat): (r: Option<nat>)
    requires i <= |s|
    ensures r.Some? ==> r.value < |s| && (!s[r.value].Live? || Holds(s[r.value], key))
    decreases |s| - i
  {
    if i == |s| then None
    else if !Probe(s, hash, key, i).Live? || Holds(Probe(s, hash, key, i), key)
    then Some(Wrap(|s|, Home(hash, key, |s|), i))
    else Place(s, hash, key, i + 1)
  }

  /** No empty slot lies between an entry and its home, so a search reaches it. */
  ghost predicate Reachable<K(!new), V>(s: seq<Slot<K, V>>, hash: K -> nat) {
    forall k, i :: 0 <= k < |s| && s[k].Live? && 0 <= i < Distance(|s|, Home(hash, s[k].key, |s|), k)
      ==> !Probe(s, hash, s[k].key, i).Empty?
  }

  ghost predicate Unique<K, V>(s: seq<Slot<K, V>>) {
    forall j, k :: 0 <= j < k < |s| && s[j].Live? && s[k].Live? ==> s[j].key != s[k].key
  }

  /** The table stands for the finite map m. */
  ghost predicate Represents<K, V>(s: seq<Slot<K, V>>, m: map<K, V>) {
    && (forall k :: 0 <= k < |s| && s[k].Live? ==> s[k].key in m && m[s[k].key] == s[k].value)
    && forall key :: key in m ==> exists k :: 0 <= k < |s| && Holds(s[k], key)
  }

  function LiveCount<K, V>(s: seq<Slot<K, V>>): (n: nat)
    ensures n <= |s|
  {
    if s == [] then 0 else (if s[0].Live? then 1 else 0) + LiveCount(s[1..])
  }

  // ----- Searching -----

  /** A search finds the entry it stops at, and stops at the first. */
  lemma {:induction false} FindStops<K, V>(s: seq<Slot<K, V>>, hash: K -> nat, key: K, i: nat, d: nat)
    requires i <= d < |s| && Holds(Probe(s, hash, key, d), key)
    requires forall j :: i <= j < d ==> !Probe(s, hash, key, j).Empty?
    ensures Find(s, hash, key, i).Some?
    ensures (forall j :: i <= j < d ==> !Holds(Probe(s, hash, key, j), key))
            ==> Find(s, hash, key, i) == Some(Wrap(|s|, Home(hash, key, |s|), d))
    decreases d - i
  {
    if i < d && !Holds(Probe(s, hash, key, i), key) {
      FindStops(s, hash, key, i + 1, d);
    }
  }

  /** In a reachable table with distinct keys a search finds exactly the entry of its key. */
  lemma {:induction false} FindExact<K(!new), V>(s: seq<Slot<K, V>>, hash: K -> nat, key: K, k: nat)
    requires Reachable(s, hash) && Unique(s) && k < |s|
    ensures Holds(s[k], key) <==> Find(s, hash, key, 0) == Some(k)
  {
    if Holds(s[k], key) {
      FindStops(s, hash, key, 0, Distance(|s|, Home(hash, key, |s|), k));
      var r := Find(s, hash, key, 0).value;
      assert Holds(s[r], key);
    }
  }

  /** A search answers as the map does. */
  lemma {:induction false} FindAgrees<K(!new), V>(s: seq<Slot<K, V>>, hash: K -> nat, m: map<K, V>, key: K)
    requires Reachable(s, hash) && Unique(s) && Represents(s, m)
    ensures var r := Find(s, hash, key, 0);
      if key in m then r.Some? && s[r.value].value == m[key] else r.None?
  {
    if key in m {
      var k :| 0 <= k < |s| && Holds(s[k], key);
      FindExact(s, hash, key, k);
    }
  }

  // ----- Free slots -----

  lemma {:induction false} SomeFree<K, V>(s: seq<Slot<K, V>>) returns (k: nat)
    requires LiveCount(s) < |s|
    ensures k < |s| && !s[k].Live?
  {
    if s[0].Live? {
      k := SomeFree(s[1..]);
      k := k + 1;
    } else {
      k := 0;
    }
  }

  lemma {:induction false} PlaceStops<K, V>(s: seq<Slot<K, V>>, hash: K -> nat, key: K, i: nat, d: nat)
    requires i <= d < |s| && !Probe(s, hash, key, d).Live?
    ensures Place(s, hash, key, i).Some?
    decreases d - i
  {
    if i < d && Place(s, hash, key, i) == Place(s, hash, key, i + 1) {
      PlaceStops(s, hash, key, i + 1, d);
    }
  }

  /** A table with a slot that is not live always has a place for a key. */
  lemma {:induction false} PlaceExists<K, V>(s: seq<Slot<K, V>>, hash: K -> nat, key: K)
    requires LiveCount(s) < |s|
    ensures Place(s, hash, key, 0).Some?
  {
    var k := SomeFree(s);
    PlaceStops(s, hash, key, 0, Distance(|s|, Home(hash, key, |s|), k));
  }

  lemma {:induction false} LiveCountUpdate<K, V>(s: seq<Slot<K, V>>, k: nat, x: Slot<K, V>)
    requires k < |s|
    ensures LiveCount(s[k := x]) == LiveCount(s) - (if s[k].Live? then 1 else 0) + (if x.Live? then 1 else 0)
  {
    if k > 0 {
      LiveCountUpdate(s[1..], k - 1, x);
      assert s[k := x][1..] == s[1..][k - 1 := x];
    } else {
      assert s[k := x][1..] == s[1..];
    }
  }

  /** The entries of a table with distinct keys are as many as the map's keys. */
  lemma {:induction false} CountAgrees<K, V>(s: seq<Slot<K, V>>, m: map<K, V>)
    requires Unique(s) && Represents(s, m)
    ensures LiveCount(s) == |m|
  {
    if s == [] {
      assert m.Keys == {};
    } else {
      var t := s[1..];
      var m' := if s[0].Live? then m - {s[0].key} else m;
      forall key | key in m' ensures exists k :: 0 <= k < |t| && Holds(t[k], key) {
        var k :| 0 <= k < |s| && Holds(s[k], key);
        assert t[k - 1] == s[k];
      }
      CountAgrees(t, m');
      if s[0].Live? {
        assert m'.Keys == m.Keys - {s[0].key};
      }
    }
  }

  // ----- Putting -----

  /** The place found for a key is d steps from home, past entries of other keys only. */
  lemma {:induction false} PlaceIsFirst<K, V>(s: seq<Slot<K, V>>, hash: K -> nat, key: K, i: nat) returns (d: nat)
    requires i <= |s| && Place(s, hash, key, i).Some?
    ensures i <= d < |s| && Place(s, hash, key, i) == Some(Wrap(|s|, Home(hash, key, |s|), d))
    ensures forall j :: i <= j < d ==> Probe(s, hash, key, j).Live? && Probe(s, hash, key, j).key != key
    decreases |s| - i
  {
    if !Probe(s, hash, key, i).Live? || Holds(Probe(s, hash, key, i), key) {
      d := i;
    } else {
      d := PlaceIsFirst(s, hash, key, i + 1);
    }
  }

  ghost function Put<K, V>(s: seq<Slot<K, V>>, hash: K -> nat, key: K, value: V): (t: seq<Slot<K, V>>)
    ensures |t| == |s|
  {
    match Place(s, hash, key, 0)
    case None => s
    case Some(p) => s[p := Live(key, value)]
  }

  lemma {:induction false} PutReachable<K(!new), V>(s: seq<Slot<K, V>>, hash: K -> nat, key: K, value: V)
    requires Reachable(s, hash) && Place(s, hash, key, 0).Some?
    ensures Reachable(Put(s, hash, key, value), hash)
  {
    var d := PlaceIsFirst(s, hash, key, 0);
    var t, p := Put(s, hash, key, value), Place(s, hash, key, 0).value;
    WrapDistance(|s|, Home(hash, key, |s|), d);
    forall k, i | 0 <= k < |t| && t[k].Live? && 0 <= i < Distance(|t|, Home(hash, t[k].key, |t|), k)
      ensures !Probe(t, hash, t[k].key, i).Empty?
    {
      if k == p {
        assert Probe(s, hash, key, i).Live?;
      } else {
        assert !Probe(s, hash, s[k].key, i).Empty?;
      }
    }
  }

  /** The key is absent, or no deletion marker lies between its home and its entry. */
  ghost predicate CanPut<K(!new), V>(s: seq<Slot<K, V>>, hash: K -> nat, key: K) {
    forall k, i :: 0 <= k < |s| && Holds(s[k], key) && 0 <= i < Distance(|s|, Home(hash, key, |s|), k)
      ==> !Probe(s, hash, key, i).Deleted?
  }

  /** If the key may be put, its place is its own entry or it has none. */
  lemma {:induction false} PlaceIsOwn<K(!new), V>(s: seq<Slot<K, V>>, hash: K -> nat, key: K, k: nat)
    requires Reachable(s, hash) && Unique(s) && Place(s, hash, key, 0).Some? && k < |s| && Holds(s[k], key)
    ensures CanPut(s, hash, key) <==> Place(s, hash, key, 0).value == k
  {
    var d := PlaceIsFirst(s, hash, key, 0);
    var h := Home(hash, key, |s|);
    var e := Distance(|s|, h, k);
    WrapDistance(|s|, h, d);
    assert e < d ==> !Holds(Probe(s, hash, key, e), key);
    assert d < e ==> !Probe(s, hash, key, d).Empty?;
    if d == e {
      forall j, i | 0 <= j < |s| && Holds(s[j], key) && 0 <= i < Distance(|s|, h, j)
        ensures !Probe(s, hash, key, i).Deleted?
      {
        assert j == k;
      }
    }
  }

  /** Putting keeps the keys distinct exactly when the key may be put. */
  lemma {:induction false} PutUnique<K(!new), V>(s: seq<Slot<K, V>>, hash: K -> nat, key: K, value: V)
    requires Reachable(s, hash) && Unique(s) && Place(s, hash, key, 0).Some?
    ensures Unique(Put(s, hash, key, value)) <==> CanPut(s, hash, key)
  {
    var t, p := Put(s, hash, key, value), Place(s, hash, key, 0).value;
    if k :| 0 <= k < |s| && Holds(s[k], key) {
      PlaceIsOwn(s, hash, key, k);
      if p != k {
        assert t[k].Live? && t[p].Live? && t[k].key == t[p].key;
      }
    }
  }

  lemma {:induction false} PutRepresents<K(!new), V>(s: seq<Slot<K, V>>, hash: K -> nat, key: K, value: V, m: map<K, V>)
    requires Reachable(s, hash) && Unique(s) && Place(s, hash, key, 0).Some? && CanPut(s, hash, key)
    requires Represents(s, m)
    ensures Represents(Put(s, hash, key, value), m[key := value])
  {
    var t, p := Put(s, hash, key, value), Place(s, hash, key, 0).value;
    forall k | 0 <= k < |t| && t[k].Live? && k != p ensures t[k].key != key {
      if Holds(s[k], key) {
        PlaceIsOwn(s, hash, key, k);
      }
    }
    var m' := m[key := value];
    forall x | x in m' ensures exists k :: 0 <= k < |t| && Holds(t[k], x) {
      if x == key {
        assert Holds(t[p], x);
      } else {
        var k :| 0 <= k < |s| && Holds(s[k], x);
        assert Holds(t[k], x);
      }
    }
  }

  /** When the key may not be put, the table ends up with two entries for it. */
  lemma {:induction false} PutDuplicates<K(!new), V>(s: seq<Slot<K, V>>, hash: K -> nat, key: K, value: V)
    requires Reachable(s, hash) && Unique(s) && Place(s, hash, key, 0).Some? && !CanPut(s, hash, key)
    ensures var t, p := Put(s, hash, key, value), Place(s, hash, key, 0).value;
      s[p].Deleted? && exists k :: 0 <= k < |s| && k != p && Holds(s[k], key) && t[k] == s[k] && Holds(t[p], key)
  {
    var k, i :| 0 <= k < |s| && Holds(s[k], key) && 0 <= i < Distance(|s|, Home(hash, key, |s|), k)
      && Probe(s, hash, key, i).Deleted?;
    PlaceIsOwn(s, hash, key, k);
    var d := PlaceIsFirst(s, hash, key, 0);
    var p := Place(s, hash, key, 0).value;
    assert !Holds(s[p], key);
    PlaceStops(s, hash, key, 0, i);
    PlaceNotAfter(s, hash, key, 0, i);
    WrapDistance(|s|, Home(hash, key, |s|), d);
    assert !Probe(s, hash, key, d).Empty?;
  }

  lemma {:induction false} PlaceNotAfter<K, V>(s: seq<Slot<K, V>>, hash: K -> nat, key: K, i: nat, d: nat)
    requires i <= d < |s| && !Probe(s, hash, key, d).Live? && Place(s, hash, key, i).Some?
    ensures Distance(|s|, Home(hash, key, |s|), Place(s, hash, key, i).value) <= d
    decreases d - i
  {
    if i < d && Probe(s, hash, key, i).Live? && !Holds(Probe(s, hash, key, i), key) {
      PlaceNotAfter(s, hash, key, i + 1, d);
    } else {
      WrapDistance(|s|, Home(hash, key, |s|), i);
    }
  }

  // ----- Removing -----

  /** The table without the entry a search for key finds. */
  ghost function Removed<K, V>(s: seq<Slot<K, V>>, hash: K -> nat, key: K): (t: seq<Slot<K, V>>)
    ensures |t| == |s|
  {
    match Find(s, hash, key, 0)
    case None => s
    case Some(r) => s[r := Deleted]
  }

  lemma {:induction false} RemoveReachable<K(!new), V>(s: seq<Slot<K, V>>, hash: K -> nat, k: nat)
    requires Reachable(s, hash) && k < |s|
    ensures Reachable(s[k := Deleted], hash)
  {
    var t := s[k := Deleted];
    forall j, i | 0 <= j < |t| && t[j].Live? && 0 <= i < Distance(|t|, Home(hash, t[j].key, |t|), j)
      ensures !Probe(t, hash, t[j].key, i).Empty?
    {
      assert !Probe(s, hash, s[j].key, i).Empty?;
    }
  }

  lemma {:induction false} RemoveKeeps<K(!new), V>(s: seq<Slot<K, V>>, hash: K -> nat, k: nat, m: map<K, V>)
    requires Reachable(s, hash) && Unique(s) && Represents(s, m) && k < |s| && s[k].Live?
    ensures var t := s[k := Deleted]; Reachable(t, hash) && Unique(t) && Represents(t, m - {s[k].key})
  {
    var t, key := s[k := Deleted], s[k].key;
    RemoveReachable(s, hash, k);
    forall x | x in m - {key} ensures exists j :: 0 <= j < |t| && Holds(t[j], x) {
      var j :| 0 <= j < |s| && Holds(s[j], x);
      assert Holds(t[j], x);
    }
  }

  // ----- Whole tables -----

  lemma {:induction false} FullIsLive<K, V>(s: seq<Slot<K, V>>)
    requires LiveCount(s) == |s|
    ensures forall k :: 0 <= k < |s| ==> s[k].Live?
  {
    if s != [] {
      FullIsLive(s[1..]);
    }
  }

  lemma {:induction false} BlankCount<K, V>(s: seq<Slot<K, V>>)
    requires forall k :: 0 <= k < |s| ==> s[k].Empty?
    ensures LiveCount(s) == 0
  {
    if s != [] {
      BlankCount(s[1..]);
    }
  }

  /** A table represents one map only. */
  lemma {:induction false} RepresentsOne<K, V>(s: seq<Slot<K, V>>, m: map<K, V>, m': map<K, V>)
    requires Represents(s, m) && Represents(s, m')
    ensures m == m'
  {
    forall key | key in m ensures key in m' && m'[key] == m[key] {
      var k :| 0 <= k < |s| && Holds(s[k], key);
    }
    forall key | key in m' ensures key in m {
      var k :| 0 <= k < |s| && Holds(s[k], key);
    }
  }

  /** One more slot of the old table has been carried over. */
  lemma {:induction false} CarryOver<K, V>(s: seq<Slot<K, V>>, i: nat, m: map<K, V>)
    requires Unique(s) && i < |s| && Represents(s[..i], m)
    ensures s[i].Live? ==> s[i].key !in m && Represents(s[..i + 1], m[s[i].key := s[i].value])
    ensures !s[i].Live? ==> Represents(s[..i + 1], m)
  {
    var t := s[..i + 1];
    assert forall k :: 0 <= k < i ==> t[k] == s[..i][k];
    var m' := if s[i].Live? then m[s[i].key := s[i].value] else m;
    forall key | key in m' ensures exists k :: 0 <= k < |t| && Holds(t[k], key) {
      if s[i].Live? && key == s[i].key {
        assert Holds(t[i], key);
      } else {
        var k :| 0 <= k < i && Holds(s[..i][k], key);
        assert Holds(t[k], key);
      }
    }
  }

  lemma {:induction false} FullCanPut<K(!new), V>(s: seq<Slot<K, V>>, hash: K -> nat, key: K)
    requires LiveCount(s) == |s|
    ensures CanPut(s, hash, key)
  {
    FullIsLive(s);
  }

  lemma {:induction false} FreshCanPut<K(!new), V>(s: seq<Slot<K, V>>, hash: K -> nat, key: K)
    requires forall k :: 0 <= k < |s| ==> !s[k].Deleted?
    ensures CanPut(s, hash, key)
  {
  }

  lemma {:induction false} NothingCarried<K, V>(s: seq<Slot<K, V>>)
    ensures Represents(s[..0], map[])
  {
  }

  lemma {:induction false} AbsentCanPut<K(!new), V>(s: seq<Slot<K, V>>, hash: K -> nat, key: K, m: map<K, V>)
    requires Represents(s, m) && key !in m
    ensures CanPut(s, hash, key)
  {
  }

  lemma {:induction false} BlankTable<K(!new), V>(s: seq<Slot<K, V>>, hash: K -> nat)
    requires forall k :: 0 <= k < |s| ==> s[k].Empty?
    ensures LiveCount(s) == 0 && Reachable(s, hash) && Unique(s) && Represents(s, map[])
  {
    BlankCount(s);
  }

  lemma {:induction false} PreviousIs<K(!new), V>(s: seq<Slot<K, V>>, hash: K -> nat, key: K, m: map<K, V>)
    requires Reachable(s, hash) && Unique(s) && Represents(s, m) && Place(s, hash, key, 0).Some? && CanPut(s, hash, key)
    ensures var x := s[Place(s, hash, key, 0).value];
      if key in m then x == Live(key, m[key]) else !x.Live?
  {
    if key in m {
      var k :| 0 <= k < |s| && Holds(s[k], key);
      PlaceIsOwn(s, hash, key, k);
    }
  }

  lemma {:induction false} LiveIsIn<K, V>(s: seq<Slot<K, V>>, m: map<K, V>, k: nat)
    requires Represents(s, m) && k < |s| && s[k].Live?
    ensures s[k].key in m && m[s[k].key] == s[k].value
  {
  }

  lemma {:induction false} AllGone<K, V>(s: seq<Slot<K, V>>, m: map<K, V>)
    requires Represents(s, m) && forall k :: 0 <= k < |s| ==> !s[k].Live?
    ensures m == map[]
  {
    assert forall k, key :: 0 <= k < |s| ==> !Holds(s[k], key);
    assert m.Keys == {};
  }

  lemma {:induction false} AbsentFromTable<K, V>(s: seq<Slot<K, V>>, m: map<K, V>, key: K)
    requires Represents(s, m) && key !in m
    ensures forall k :: 0 <= k < |s| ==> !Holds(s[k], key)
  {
  }

  // ----- Walking -----

  /** The entries of a table in slot order. */
  ghost function Entries<K, V>(s: seq<Slot<K, V>>): seq<(K, V)> {
    if s == [] then []
    else Entries(s[..|s| - 1]) + if s[|s| - 1].Live? then [(s[|s| - 1].key, s[|s| - 1].value)] else []
  }

  ghost predicate InTable<K, V>(s: seq<Slot<K, V>>, e: (K, V)) {
    exists k :: 0 <= k < |s| && s[k] == Live(e.0, e.1)
  }

  lemma {:induction false} EntryInTable<K, V>(s: seq<Slot<K, V>>, e: (K, V))
    ensures e in Entries(s) <==> InTable(s, e)
  {
    if s != [] {
      var t := s[..|s| - 1];
      EntryInTable(t, e);
      if k :| 0 <= k < |t| && t[k] == Live(e.0, e.1) {
        assert s[k] == t[k];
      }
      if k :| 0 <= k < |s| && s[k] == Live(e.0, e.1) {
        if k < |t| {
          assert t[k] == s[k];
        }
      }
    }
  }

  lemma {:induction false} EntriesDistinct<K, V>(s: seq<Slot<K, V>>)
    requires Unique(s)
    ensures forall i, j :: 0 <= i < j < |Entries(s)| ==> Entries(s)[i].0 != Entries(s)[j].0
  {
    if s != [] {
      var t := s[..|s| - 1];
      EntriesDistinct(t);
      var es := Entries(s);
      forall i, j | 0 <= i < j < |es| ensures es[i].0 != es[j].0 {
        if j == |Entries(t)| {
          EntryInTable(t, es[i]);
          var k :| 0 <= k < |t| && t[k] == Live(es[i].0, es[i].1);
          assert s[k] == t[k];
        }
      }
    }
  }

  lemma {:induction false} EntriesStep<K, V>(s: seq<Slot<K, V>>, i: nat)
    requires i < |s| && s[i].Live?
    ensures Entries(s[..i + 1]) == Entries(s[..i]) + [(s[i].key, s[i].value)]
  {
    assert s[..i + 1][..i] == s[..i];
  }

  lemma {:induction false} EntriesSkip<K, V>(s: seq<Slot<K, V>>, i: nat, j: nat)
    requires i <= j <= |s| && forall k :: i <= k < j ==> !s[k].Live?
    ensures Entries(s[..j]) == Entries(s[..i]) && Entries(s[..0]) == []
    decreases j
  {
    if i < j {
      EntriesSkip(s, i, j - 1);
      assert s[..j][..j - 1] == s[..j - 1];
    }
  }

  lemma {:induction false} EntriesAreContents<K, V>(s: seq<Slot<K, V>>, m: map<K, V>)
    requires Represents(s, m)
    ensures forall e :: e in Entries(s) <==> e.0 in m && m[e.0] == e.1
  {
    forall e: (K, V) ensures e in Entries(s) <==> e.0 in m && m[e.0] == e.1 {
      EntryInTable(s, e);
      if e.0 in m && m[e.0] == e.1 {
        var k :| 0 <= k < |s| && Holds(s[k], e.0);
        assert s[k] == Live(e.0, e.1);
      }
    }
  }
}
