/** The hash table of map.c: unsigned keys, deletion markers, growth by 256 slots. */
module HashTable {
  import opened Common
  import opened Probing
  import opened SlotWalk

  /** map.c takes the key itself as the hash. */
  function Own(key: nat): nat {
    key
  }

  type Slots<V> = seq<Slot<nat, V>>

  /** What map_get answers, whatever the table holds. */
  function Found<V>(s: Slots<V>, key: nat): Option<V> {
    match Find(s, Own, key, 0)
    case None => None
    case Some(r) => Some(s[r].value)
  }

  /** The table with room for one more: a full one is rehashed first. */
  ghost function Roomy<V>(s: Slots<V>): Slots<V> {
    if LiveCount(s) < |s| then s else Rehashed(s, Own, |s| + 256)
  }

  /** The table behind map_reput, and the value it returns. */
  ghost function Reputted<V>(s: Slots<V>, key: nat, value: V): Slots<V> {
    Put(Roomy(s), Own, key, value)
  }

  ghost function Replaced<V>(s: Slots<V>, key: nat): Option<V> {
    match Place(s, Own, key, 0)
    case None => None
    case Some(p) => if s[p].Live? then Some(s[p].value) else None
  }

  class HashMap<V> {
    var data: array<Slot<nat, V>>
    var count: nat
    ghost var contents: map<nat, V>

    /** The count is right and every entry can be found. */
    ghost predicate Sound()
      reads this, data
    {
      count == LiveCount(data[..]) && Reachable(data[..], Own)
    }

    ghost predicate Valid()
      reads this, data
    {
      Sound() && Unique(data[..]) && Represents(data[..], contents)
    }

    constructor ()
      ensures Valid() && fresh(data) && data.Length == 0 && contents == map[]
    {
      data := new Slot<nat, V>[0];
      count, contents := 0, map[];
    }

    /** map_hash: the slot for key, counted as used if it was not; -1 when the table is full.
        It never runs through the whole table in vain (-2). */
    method Hash(key: nat) returns (rc: int)
      requires Sound()
      modifies this`count
      ensures rc == -1 <==> old(count) == data.Length
      ensures rc == -1 ==> count == old(count)
      ensures rc != -1 ==>
        && Place(data[..], Own, key, 0) == Some(rc) && 0 <= rc < data.Length
        && count == old(count) + if data[rc].Live? then 0 else 1
    {
      if count == data.Length {
        return -1;
      }
      PlaceExists(data[..], Own, key);
      var idx := key % data.Length;
      for i := 0 to data.Length
        invariant i < data.Length ==> idx == Wrap(data.Length, Home(Own, key, data.Length), i)
        invariant Place(data[..], Own, key, 0) == Place(data[..], Own, key, i)
        invariant count == old(count)
      {
        if !data[idx].Live? {
          count := count + 1;
          return idx;
        }
        if data[idx].key == key {
          return idx;
        }
        if i + 1 < data.Length {
          WrapNext(data.Length, Home(Own, key, data.Length), i);
        }
        idx := (idx + 1) % data.Length;
      }
      return -2;
    }

    /** map_reput, on any table. If keys were distinct they still are, and the map is updated,
        exactly when the key was absent or no deletion marker lay before its entry. The table grows
        at most once, and only when it is full. */
    method Reput(key: nat, value: V) returns (previous: Option<V>)
      requires Sound()
      modifies this, data
      ensures Sound() && count <= old(count) + 1
      ensures data[..] == Reputted(old(data[..]), key, value) && previous == Replaced(Roomy(old(data[..])), key)
      ensures if old(count) < old(data.Length) then data == old(data) else fresh(data)
      ensures old(Valid() && CanPut(data[..], Own, key)) ==>
        && Valid() && contents == old(contents)[key := value]
        && previous == if key in old(contents) then Some(old(contents)[key]) else None
      ensures old(Valid() && !CanPut(data[..], Own, key)) ==> !Unique(data[..]) && previous == None
      decreases if count == data.Length then 2 else 0
    {
      hide Reachable; hide Unique; hide Represents; hide LiveCount; hide Place; hide Rehashed; hide CanPut;
      ghost var was, free := Valid(), CanPut(data[..], Own, key);
      var rc := Hash(key);
      if rc < 0 {
        FullCanPut(data[..], Own, key);
        Rehash();
        FreshCanPut(data[..], Own, key);
        rc := Hash(key);
      }
      ghost var s := data[..];
      PutReachable(s, Own, key, value);
      if was {
        Entered(s, key, value, contents);
      }
      LiveCountUpdate(s, rc, Live(key, value));
      previous := if data[rc].Live? then Some(data[rc].value) else None;
      data[rc] := Live(key, value);
      assert data[..] == Put(s, Own, key, value);
      contents := contents[key := value];
    }

    /** map_rehash: 256 more slots, deletion markers gone. A key that had several entries keeps the
        last, so with distinct keys the map is the same. */
    method Rehash()
      requires Sound()
      modifies this
      ensures Valid() && fresh(data) && data[..] == Rehashed(old(data[..]), Own, old(data.Length) + 256)
      ensures contents == Told(old(data[..])) && count < data.Length && count <= old(data.Length)
      ensures forall k :: 0 <= k < data.Length ==> !data[k].Deleted?
      ensures old(Valid()) ==> contents == old(contents) && count == old(count)
      decreases 1
    {
      hide Reachable; hide Unique; hide Represents; hide LiveCount; hide CanPut; hide Rehashed; hide Told; hide Put;
      var before := data;
      ghost var s, n, m, was := data[..], data.Length + 256, contents, Valid();
      data := new Slot<nat, V>[before.Length + 256](_ => Empty);
      count := 0;
      NothingRehashed(s, data[..]);
      for i := 0 to before.Length
        invariant fresh(data) && data.Length == n && before[..] == s
        invariant Sound() && data[..] == Rehashed(s[..i], Own, n) && count <= i
      {
        RehashedNext(s, Own, n, i);
        if before[i].Live? {
          var _ := Reput(before[i].key, before[i].value);
        }
      }
      assert s[..before.Length] == s;
      RehashedIs(s, Own, n);
      contents := Told(s);
      if was {
        SameTold(s, data[..], m);
      }
    }

    /** map_find: the slot of key, or -1. */
    method FindSlot(key: nat) returns (r: int)
      ensures Find(data[..], Own, key, 0) == if r < 0 then None else Some(r)
      ensures r >= 0 ==> r < data.Length && Holds(data[r], key)
    {
      if data.Length == 0 {
        return -1;
      }
      var idx := key % data.Length;
      for i := 0 to data.Length
        invariant i < data.Length ==> idx == Wrap(data.Length, Home(Own, key, data.Length), i)
        invariant Find(data[..], Own, key, 0) == Find(data[..], Own, key, i)
      {
        var e := data[idx];
        if i + 1 < data.Length {
          WrapNext(data.Length, Home(Own, key, data.Length), i);
        }
        if e.Empty? {
          return -1;
        }
        if e.Live? && e.key == key {
          return idx;
        }
        idx := (idx + 1) % data.Length;
      }
      return -1;
    }

    /** map_get */
    method Get(key: nat) returns (r: Option<V>)
      ensures r == Found(data[..], key)
      ensures Valid() ==> r == if key in contents then Some(contents[key]) else None
    {
      if Valid() {
        FindAgrees(data[..], Own, contents, key);
      }
      var k := FindSlot(key);
      r := if k < 0 then None else Some(data[k].value);
    }

    /** map_remove: the entry found becomes a deletion marker; with distinct keys every other key
        keeps its answer. */
    method Remove(key: nat) returns (missing: bool)
      requires Sound()
      modifies this, data
      ensures Sound() && data == old(data) && data[..] == Removed(old(data[..]), Own, key)
      ensures missing <==> Found(old(data[..]), key).None?
      ensures old(Valid()) ==>
        && Valid() && contents == old(contents) - {key} && (missing <==> key !in old(contents))
        && forall k :: 0 <= k < data.Length ==>
             data[k] == if Holds(old(data[k]), key) then Deleted else old(data[k])
    {
      hide Reachable; hide Represents; hide LiveCount;
      ghost var s, was := data[..], Valid();
      if was {
        FindAgrees(s, Own, contents, key);
      }
      var r := FindSlot(key);
      if r >= 0 {
        RemoveReachable(s, Own, r);
        if was {
          RemoveKeeps(s, Own, r, contents);
        }
        LiveCountUpdate(s, r, Deleted);
        data[r] := Deleted;
        assert data[..] == s[r := Deleted];
        count := count - 1;
        contents := contents - {key};
      } else if was {
        AbsentFromTable(s, contents, key);
      }
      missing := r < 0;
    }

    /** map_length */
    method Length() returns (n: nat)
      requires Sound()
      ensures n == LiveCount(data[..]) && (Valid() ==> n == |contents|)
    {
      if Valid() {
        CountAgrees(data[..], contents);
      }
      n := count;
    }

    /** map_clear */
    method Clear()
      modifies this, data
      ensures Valid() && data == old(data) && contents == map[]
    {
      for i := 0 to data.Length
        invariant data == old(data) && forall k :: 0 <= k < i ==> data[k].Empty?
      {
        if !data[i].Empty? {
          data[i] := Empty;
        }
      }
      count, contents := 0, map[];
      BlankTable(data[..], Own);
    }

    /** map_iter_from: the first entry at or behind start. */
    method IterFrom(start: nat) returns (k: nat)
      requires start <= data.Length
      ensures start <= k <= data.Length && (k < data.Length ==> data[k].Live?)
      ensures forall j :: start <= j < k ==> !data[j].Live?
    {
      k := start;
      while k < data.Length && !data[k].Live?
        invariant start <= k <= data.Length
        invariant forall j :: start <= j < k ==> !data[j].Live?
      {
        k := k + 1;
      }
    }

    /** map_for_each meets every entry exactly once, in slot order. */
    method ForEach() returns (visited: seq<(nat, V)>)
      ensures visited == Entries(data[..])
      ensures Valid() ==>
        && (forall e :: e in visited <==> e.0 in contents && contents[e.0] == e.1)
        && forall i, j :: 0 <= i < j < |visited| ==> visited[i].0 != visited[j].0
    {
      hide Reachable; hide Unique; hide Represents; hide LiveCount; hide Entries;
      visited := [];
      ghost var s := data[..];
      var it := IterFrom(0);
      EntriesSkip(s, 0, it);
      while it < data.Length
        invariant it <= data.Length && (it < data.Length ==> data[it].Live?) && Entries(s[..it]) == visited
        decreases data.Length - it
      {
        EntriesStep(s, it);
        visited := visited + [(data[it].key, data[it].value)];
        var before := it + 1;
        it := IterFrom(before);
        EntriesSkip(s, before, it);
      }
      assert s[..|s|] == s;
      if Valid() {
        EntriesDistinct(s);
        EntriesAreContents(s, contents);
      }
    }

    /** map_for_each with a body that removes the entry it visits: every entry is visited
        exactly once, and the map ends up empty. */
    method RemoveEach() returns (visited: seq<(nat, V)>)
      requires Valid()
      modifies this, data
      ensures Valid() && contents == map[] && count == 0
      ensures forall i, j :: 0 <= i < j < |visited| ==> visited[i].0 != visited[j].0
      ensures forall e :: e in visited ==> e.0 in old(contents) && old(contents)[e.0] == e.1
      ensures forall key :: key in old(contents) ==> (key, old(contents)[key]) in visited
    {
      hide Reachable; hide Unique; hide LiveCount; hide Represents; hide Visited;
      visited := [];
      VisitNone(contents);
      ghost var m := contents;
      var it := IterFrom(0);
      while it < data.Length
        invariant Valid() && it <= data.Length && (it < data.Length ==> data[it].Live?)
        invariant forall j :: 0 <= j < it ==> !data[j].Live?
        invariant data == old(data) && Visited(m, contents, visited)
        decreases data.Length - it
      {
        var e := data[it];
        LiveIsIn(data[..], contents, it);
        VisitOne(m, contents, visited, e.key, e.value);
        visited := visited + [(e.key, e.value)];
        var _ := Remove(e.key);
        it := IterFrom(it + 1);
      }
      AllGone(data[..], contents);
      VisitedAll(m, visited);
      CountAgrees(data[..], contents);
    }
  }

  /** A put on a table with distinct keys. */
  lemma {:induction false} Entered<V>(s: Slots<V>, key: nat, value: V, m: map<nat, V>)
    requires Reachable(s, Own) && Unique(s) && Represents(s, m) && Place(s, Own, key, 0).Some?
    ensures var t := Put(s, Own, key, value);
      if CanPut(s, Own, key) then
        && Unique(t) && Represents(t, m[key := value])
        && Replaced(s, key) == if key in m then Some(m[key]) else None
      else !Unique(t) && Replaced(s, key) == None
  {
    hide Reachable; hide Unique; hide Represents; hide Place; hide CanPut; hide Put;
    PutUnique(s, Own, key, value);
    if CanPut(s, Own, key) {
      PutRepresents(s, Own, key, value, m);
      PreviousIs(s, Own, key, m);
    } else {
      PutDuplicates(s, Own, key, value);
    }
  }

  lemma {:induction false} NothingRehashed<V>(s: Slots<V>, t: Slots<V>)
    requires forall k :: 0 <= k < |t| ==> t[k].Empty?
    ensures t == Rehashed(s[..0], Own, |t|) && LiveCount(t) == 0 && Reachable(t, Own)
  {
    BlankTable(t, Own);
  }

  /** Rehashing a table with distinct keys keeps the map. */
  lemma {:induction false} SameTold<V>(s: Slots<V>, t: Slots<V>, m: map<nat, V>)
    requires Unique(s) && Represents(s, m) && Unique(t) && Represents(t, Told(s))
    ensures Told(s) == m && LiveCount(s) == LiveCount(t)
  {
    hide Unique; hide Represents; hide Told; hide LiveCount;
    ToldRepresents(s);
    RepresentsOne(s, m, Told(s));
    CountAgrees(s, m);
    CountAgrees(t, m);
  }

  /** What has been visited and what is left make up m, and nothing was visited twice. */
  ghost predicate Visited<V>(m: map<nat, V>, left: map<nat, V>, visited: seq<(nat, V)>) {
    && (forall i, j :: 0 <= i < j < |visited| ==> visited[i].0 != visited[j].0)
    && (forall e :: e in visited ==> e.0 in m && e.0 !in left && m[e.0] == e.1)
    && (forall key :: key in m && key !in left ==> (key, m[key]) in visited)
    && forall key :: key in left ==> key in m && m[key] == left[key]
  }

  lemma {:induction false} VisitNone<V>(m: map<nat, V>)
    ensures Visited(m, m, [])
  {
  }

  lemma {:induction false} VisitedAll<V>(m: map<nat, V>, visited: seq<(nat, V)>)
    requires Visited(m, map[], visited)
    ensures forall i, j :: 0 <= i < j < |visited| ==> visited[i].0 != visited[j].0
    ensures forall e :: e in visited ==> e.0 in m && m[e.0] == e.1
    ensures forall key :: key in m ==> (key, m[key]) in visited
  {
  }

  lemma {:induction false} VisitOne<V>(m: map<nat, V>, left: map<nat, V>, visited: seq<(nat, V)>, key: nat, value: V)
    requires Visited(m, left, visited) && key in left && left[key] == value
    ensures Visited(m, left - {key}, visited + [(key, value)])
  {
    var next := visited + [(key, value)];
    forall i, j | 0 <= i < j < |next| ensures next[i].0 != next[j].0 {
      if j == |visited| {
        assert visited[i] in visited;
      }
    }
  }
}
