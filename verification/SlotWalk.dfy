/** What a walk over the slots tells, compared with what a search answers. */
module SlotWalk {
  import opened Common
  import opened Probing

  // ----- Told in order, later entries replacing earlier ones -----

  ghost function Told<K, V>(s: seq<Slot<K, V>>): map<K, V> {
    if s == [] then map[]
    else
      var m, x := Told(s[..|s| - 1]), s[|s| - 1];
      if x.Live? then m[x.key := x.value] else m
  }

  lemma {:induction false} ToldIs<K, V>(s: seq<Slot<K, V>>, key: K, k: nat)
    requires k < |s| && Holds(s[k], key) && forall j :: k < j < |s| ==> !Holds(s[j], key)
    ensures key in Told(s) && Told(s)[key] == s[k].value
  {
    if k + 1 < |s| {
      var t := s[..|s| - 1];
      assert t[k] == s[k] && forall j :: 0 <= j < |t| ==> t[j] == s[j];
      ToldIs(t, key, k);
      assert !Holds(s[|s| - 1], key);
    }
  }

  lemma {:induction false} ToldNot<K, V>(s: seq<Slot<K, V>>, key: K)
    requires forall j :: 0 <= j < |s| ==> !Holds(s[j], key)
    ensures key !in Told(s)
  {
    if s != [] {
      var t := s[..|s| - 1];
      assert forall j :: 0 <= j < |t| ==> t[j] == s[j];
      ToldNot(t, key);
      assert !Holds(s[|s| - 1], key);
    }
  }

  /** With distinct keys, what is told is what the table stands for. */
  lemma {:induction false} ToldRepresents<K, V>(s: seq<Slot<K, V>>)
    requires Unique(s)
    ensures Represents(s, Told(s))
  {
    forall k | 0 <= k < |s| && s[k].Live? ensures s[k].key in Told(s) && Told(s)[s[k].key] == s[k].value {
      ToldIs(s, s[k].key, k);
    }
    forall key | key in Told(s) ensures exists k :: 0 <= k < |s| && Holds(s[k], key) {
      if forall k :: 0 <= k < |s| ==> !Holds(s[k], key) {
        ToldNot(s, key);
      }
    }
  }

  // ----- Growing -----

  /** The entries of s put one after the other into n empty slots. */
  ghost function Rehashed<K, V>(s: seq<Slot<K, V>>, hash: K -> nat, n: nat): (t: seq<Slot<K, V>>)
    ensures |t| == n
  {
    if s == [] then seq(n, _ => Empty)
    else
      var t, x := Rehashed(s[..|s| - 1], hash, n), s[|s| - 1];
      if x.Live? then Put(t, hash, x.key, x.value) else t
  }

  lemma {:induction false} RehashedNext<K, V>(s: seq<Slot<K, V>>, hash: K -> nat, n: nat, i: nat)
    requires i < |s|
    ensures Rehashed(s[..i + 1], hash, n)
         == if s[i].Live? then Put(Rehashed(s[..i], hash, n), hash, s[i].key, s[i].value) else Rehashed(s[..i], hash, n)
  {
    assert s[..i + 1][..i] == s[..i];
  }

  /** A table that was rehashed has no deletion markers and one entry for every key, the last of
      the old ones, whether or not keys were distinct. */
  lemma {:induction false} RehashedIs<K(!new), V>(s: seq<Slot<K, V>>, hash: K -> nat, n: nat)
    requires |s| < n
    ensures var t := Rehashed(s, hash, n);
      && Reachable(t, hash) && Unique(t) && Represents(t, Told(s)) && LiveCount(t) <= |s|
      && forall k :: 0 <= k < |t| ==> !t[k].Deleted?
  {
    hide Reachable; hide Unique; hide Represents; hide LiveCount; hide Place; hide CanPut;
    if s == [] {
      BlankTable(Rehashed(s, hash, n), hash);
    } else {
      var t, x := Rehashed(s[..|s| - 1], hash, n), s[|s| - 1];
      RehashedIs(s[..|s| - 1], hash, n);
      if x.Live? {
        PlaceExists(t, hash, x.key);
        FreshCanPut(t, hash, x.key);
        PutReachable(t, hash, x.key, x.value);
        PutUnique(t, hash, x.key, x.value);
        PutRepresents(t, hash, x.key, x.value, Told(s[..|s| - 1]));
        LiveCountUpdate(t, Place(t, hash, x.key, 0).value, Live(x.key, x.value));
      }
    }
  }

  /** Who heard the walk knows of the key what a search answers. */
  ghost predicate TellsRight<K, V>(s: seq<Slot<K, V>>, hash: K -> nat, key: K) {
    match Find(s, hash, key, 0)
    case None => key !in Told(s)
    case Some(r) => key in Told(s) && Told(s)[key] == s[r].value
  }

  // ----- Searching where a key may have several entries -----

  /** A search ends at the entry of the key that is closest to its home. */
  lemma {:induction false} FindClosest<K(!new), V>(s: seq<Slot<K, V>>, hash: K -> nat, key: K, k: nat)
    requires Reachable(s, hash) && k < |s| && Holds(s[k], key)
    requires forall j :: 0 <= j < |s| && j != k && Holds(s[j], key) ==>
      Distance(|s|, Home(hash, key, |s|), k) < Distance(|s|, Home(hash, key, |s|), j)
    ensures Find(s, hash, key, 0) == Some(k)
  {
    var h := Home(hash, key, |s|);
    var d := Distance(|s|, h, k);
    forall i | 0 <= i < d ensures !Holds(Probe(s, hash, key, i), key) {
      WrapDistance(|s|, h, i);
    }
    FindStops(s, hash, key, 0, d);
  }

  lemma {:induction false} FindNone<K, V>(s: seq<Slot<K, V>>, hash: K -> nat, key: K)
    requires forall j :: 0 <= j < |s| ==> !Holds(s[j], key)
    ensures Find(s, hash, key, 0) == None
  {
  }

  /** A key with one entry, or none, is told right. */
  lemma {:induction false} OnlyTellsRight<K(!new), V>(s: seq<Slot<K, V>>, hash: K -> nat, key: K)
    requires Reachable(s, hash)
    requires forall j, k :: 0 <= j < k < |s| && Holds(s[j], key) ==> !Holds(s[k], key)
    ensures TellsRight(s, hash, key)
  {
    hide Find; hide Told;
    if k :| 0 <= k < |s| && Holds(s[k], key) {
      FindClosest(s, hash, key, k);
      ToldIs(s, key, k);
    } else {
      FindNone(s, hash, key);
      ToldNot(s, key);
    }
  }

  /** A table with distinct keys tells every key right. */
  lemma {:induction false} UniqueTells<K(!new), V>(s: seq<Slot<K, V>>, hash: K -> nat, key: K)
    requires Reachable(s, hash) && Unique(s)
    ensures TellsRight(s, hash, key)
  {
    hide TellsRight; hide Reachable;
    OnlyTellsRight(s, hash, key);
  }

  /** After a put, the walk still tells the other keys right. */
  lemma {:induction false} OthersTold<K(!new), V>(s: seq<Slot<K, V>>, hash: K -> nat, key: K, value: V, x: K)
    requires Reachable(s, hash) && Unique(s) && Place(s, hash, key, 0).Some? && x != key
    ensures TellsRight(Put(s, hash, key, value), hash, x)
  {
    hide TellsRight; hide Place; hide Reachable;
    PutReachable(s, hash, key, value);
    OnlyTellsRight(Put(s, hash, key, value), hash, x);
  }

  /** A put from distinct keys leaves every key told right if and only if the key was absent, or no
      deletion marker came before its entry, or the old entry lies in an earlier slot than the
      new one (the probe wrapped around), or it is the same value again. */
  lemma {:induction false} PutTells<K(!new), V>(s: seq<Slot<K, V>>, hash: K -> nat, key: K, value: V)
    requires Reachable(s, hash) && Unique(s) && Place(s, hash, key, 0).Some?
    ensures (forall x :: TellsRight(Put(s, hash, key, value), hash, x)) <==>
      || CanPut(s, hash, key)
      || exists k :: 0 <= k < |s| && Holds(s[k], key) && (k < Place(s, hash, key, 0).value || s[k].value == value)
  {
    hide TellsRight; hide CanPut; hide Place; hide Reachable;
    var t, p := Put(s, hash, key, value), Place(s, hash, key, 0).value;
    forall x | x != key ensures TellsRight(t, hash, x) {
      OthersTold(s, hash, key, value, x);
    }
    if CanPut(s, hash, key) {
      PutReachable(s, hash, key, value);
      PutUnique(s, hash, key, value);
      UniqueTells(t, hash, key);
    } else {
      var k := TwoEntries(s, hash, key, value);
      TwoTold(t, hash, key, p, k);
      assert forall j :: 0 <= j < |s| && Holds(s[j], key) ==> j == k;
    }
  }

  /** The two entries left by a put behind a marker: the new one at the place, the old one further
      from home. */
  lemma {:induction false} TwoEntries<K(!new), V>(s: seq<Slot<K, V>>, hash: K -> nat, key: K, value: V) returns (k: nat)
    requires Reachable(s, hash) && Unique(s) && Place(s, hash, key, 0).Some? && !CanPut(s, hash, key)
    ensures var t, p := Put(s, hash, key, value), Place(s, hash, key, 0).value;
      && k < |s| && k != p && Holds(s[k], key) && t[k] == s[k] && t[p] == Live(key, value) && Reachable(t, hash)
      && Find(t, hash, key, 0) == Some(p)
      && forall j :: 0 <= j < |t| && Holds(t[j], key) ==> j == p || j == k
  {
    var t, p := Put(s, hash, key, value), Place(s, hash, key, 0).value;
    PutDuplicates(s, hash, key, value);
    k :| 0 <= k < |s| && k != p && Holds(s[k], key) && t[k] == s[k] && Holds(t[p], key);
    PutReachable(s, hash, key, value);
    PlaceNotAfterOwn(s, hash, key, k);
    FindClosest(t, hash, key, p);
  }

  /** The place of a key is no further from home than an entry of it. */
  lemma {:induction false} PlaceNotAfterOwn<K, V>(s: seq<Slot<K, V>>, hash: K -> nat, key: K, k: nat)
    requires k < |s| && Holds(s[k], key) && Place(s, hash, key, 0).Some? && Place(s, hash, key, 0).value != k
    ensures var h := Home(hash, key, |s|);
      Distance(|s|, h, Place(s, hash, key, 0).value) < Distance(|s|, h, k)
  {
    var d := PlaceIsFirst(s, hash, key, 0);
    var h := Home(hash, key, |s|);
    WrapDistance(|s|, h, d);
    assert Holds(Probe(s, hash, key, Distance(|s|, h, k)), key);
  }

  lemma {:induction false} TwoTold<K, V>(t: seq<Slot<K, V>>, hash: K -> nat, key: K, p: nat, k: nat)
    requires p < |t| && k < |t| && p != k && Holds(t[p], key) && Holds(t[k], key) && Find(t, hash, key, 0) == Some(p)
    requires forall j :: 0 <= j < |t| && Holds(t[j], key) ==> j == p || j == k
    ensures TellsRight(t, hash, key) <==> k < p || t[k].value == t[p].value
  {
    hide Find; hide Told;
    ToldIs(t, key, if k < p then p else k);
  }

  // ----- Every key told once -----

  /** The values a walk tells of a key, in slot order. */
  ghost function Announced<K, V>(s: seq<Slot<K, V>>, key: K): seq<V> {
    if s == [] then []
    else Announced(s[..|s| - 1], key) + if Holds(s[|s| - 1], key) then [s[|s| - 1].value] else []
  }

  /** What a search answers, as a sequence of at most one. */
  ghost function Answered<K, V>(s: seq<Slot<K, V>>, hash: K -> nat, key: K): seq<V> {
    match Find(s, hash, key, 0)
    case None => []
    case Some(r) => [s[r].value]
  }

  lemma {:induction false} AnnouncedNone<K, V>(s: seq<Slot<K, V>>, key: K)
    requires forall j :: 0 <= j < |s| ==> !Holds(s[j], key)
    ensures Announced(s, key) == []
  {
    if s != [] {
      var t := s[..|s| - 1];
      assert forall j :: 0 <= j < |t| ==> t[j] == s[j];
      AnnouncedNone(t, key);
    }
  }

  lemma {:induction false} AnnouncedOne<K, V>(s: seq<Slot<K, V>>, key: K, k: nat)
    requires k < |s| && Holds(s[k], key) && forall j :: 0 <= j < |s| && j != k ==> !Holds(s[j], key)
    ensures Announced(s, key) == [s[k].value]
  {
    var t := s[..|s| - 1];
    assert forall j :: 0 <= j < |t| ==> t[j] == s[j];
    if k + 1 == |s| {
      AnnouncedNone(t, key);
    } else {
      AnnouncedOne(t, key, k);
    }
  }

  lemma {:induction false} AnnouncedSome<K, V>(s: seq<Slot<K, V>>, key: K, k: nat)
    requires k < |s| && Holds(s[k], key)
    ensures |Announced(s, key)| >= 1
  {
    if k + 1 < |s| {
      assert s[..|s| - 1][k] == s[k];
      AnnouncedSome(s[..|s| - 1], key, k);
    }
  }

  lemma {:induction false} AnnouncedTwice<K, V>(s: seq<Slot<K, V>>, key: K, j: nat, k: nat)
    requires j < k < |s| && Holds(s[j], key) && Holds(s[k], key)
    ensures |Announced(s, key)| >= 2
  {
    var t := s[..|s| - 1];
    assert t[j] == s[j];
    if k + 1 == |s| {
      AnnouncedSome(t, key, j);
    } else {
      assert t[k] == s[k];
      AnnouncedTwice(t, key, j, k);
    }
  }

  /** A walk tells of every key exactly what a search answers, once, if and only if the keys are
      distinct. */
  lemma {:induction false} AnnouncedExact<K(!new), V>(s: seq<Slot<K, V>>, hash: K -> nat)
    requires Reachable(s, hash)
    ensures (forall key :: Announced(s, key) == Answered(s, hash, key)) <==> Unique(s)
  {
    hide Announced; hide Find; hide Reachable;
    if Unique(s) {
      forall key ensures Announced(s, key) == Answered(s, hash, key) {
        AnnouncedRight(s, hash, key);
      }
    } else {
      var j, k :| 0 <= j < k < |s| && s[j].Live? && s[k].Live? && s[j].key == s[k].key;
      AnnouncedTwice(s, s[j].key, j, k);
      assert Announced(s, s[j].key) != Answered(s, hash, s[j].key);
    }
  }

  lemma {:induction false} AnnouncedRight<K(!new), V>(s: seq<Slot<K, V>>, hash: K -> nat, key: K)
    requires Reachable(s, hash) && Unique(s)
    ensures Announced(s, key) == Answered(s, hash, key)
  {
    hide Announced; hide Find;
    if k :| 0 <= k < |s| && Holds(s[k], key) {
      FindClosest(s, hash, key, k);
      AnnouncedOne(s, key, k);
    } else {
      FindNone(s, hash, key);
      AnnouncedNone(s, key);
    }
  }
}
