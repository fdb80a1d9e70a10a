/** The growing string table of assoc.c: linear probing, no removal, growth at 80 % use. */
module AssocTable {
  import opened Common
  import opened Probing

  /** An empty slot lies ahead of step i of every probe, or the key does. */
  ghost predicate Ends<V>(s: seq<Slot<string, V>>, hash: string -> nat, key: string, d: nat) {
    d < |s| && (!Probe(s, hash, key, d).Live? || Holds(Probe(s, hash, key, d), key))
  }

  /** A probe ends if a slot is free or the key is there. */
  lemma {:induction false} ProbeEnds<V>(s: seq<Slot<string, V>>, hash: string -> nat, key: string, m: map<string,
                                        V>) returns (d: nat)
    requires Represents(s, m) && (LiveCount(s) < |s| || key in m)
    ensures Ends(s, hash, key, d)
  {
    var k: nat;
    if LiveCount(s) < |s| {
      k := SomeFree(s);
    } else {
      k :| 0 <= k < |s| && Holds(s[k], key);
    }
    d := Distance(|s|, Home(hash, key, |s|), k);
  }

  /** A probe for an absent key in a full table never stops. */
  lemma {:induction false} ProbeNeverEnds<V>(s: seq<Slot<string, V>>, hash: string -> nat, key: string, m: map<string,
                                             V>, d: nat)
    requires Represents(s, m) && LiveCount(s) == |s| && key !in m
    ensures !Ends(s, hash, key, d)
  {
    hide LiveCount; hide Represents; hide Find; hide Place;
    FullIsLive(s);
    if d < |s| {
      LiveIsIn(s, m, Wrap(|s|, Home(hash, key, |s|), d));
    }
  }

  class Assoc<V> {
    const hash: string -> nat
    var slots: array<Slot<string, V>>
    var fill: nat
    ghost var contents: map<string, V>

    ghost predicate Valid()
      reads this, slots
    {
      && slots.Length > 0 && fill == LiveCount(slots[..])
      && Reachable(slots[..], hash) && Unique(slots[..]) && Represents(slots[..], contents)
      && forall k :: 0 <= k < slots.Length ==> !slots[k].Deleted?
    }

    /** assoc_init */
    constructor (hash: string -> nat, size: nat)
      requires size > 0
      ensures Valid() && fresh(slots) && slots.Length == size && fill == 0 && contents == map[] && this.hash == hash
    {
      this.hash := hash;
      slots := new Slot<string, V>[size](_ => Empty);
      fill, contents := 0, map[];
      new;
      BlankTable(slots[..], hash);
    }

    /** The probe loop of assoc_get and _assoc_set: the slot of key, or the first empty one. */
    method Seek(key: string) returns (h: nat)
      requires Valid() && (fill < slots.Length || key in contents)
      ensures Place(slots[..], hash, key, 0) == Some(h) && h < slots.Length
    {
      hide Reachable; hide Unique; hide Represents; hide LiveCount;
      ghost var d := ProbeEnds(slots[..], hash, key, contents);
      ghost var i := 0;
      h := hash(key) % slots.Length;
      while slots[h].Live? && slots[h].key != key
        invariant 0 <= i <= d < slots.Length && h == Wrap(slots.Length, Home(hash, key, slots.Length), i)
        invariant Place(slots[..], hash, key, 0) == Place(slots[..], hash, key, i)
        decreases d - i
      {
        assert Probe(slots[..], hash, key, i) == slots[h];
        WrapNext(slots.Length, Home(hash, key, slots.Length), i);
        h := (h + 1) % slots.Length;
        i := i + 1;
      }
    }

    /** assoc_get. The probe is certain to end just when a slot is free or the key is there. */
    method Get(key: string) returns (r: Option<V>)
      requires Valid() && (fill < slots.Length || key in contents)
      ensures r == if key in contents then Some(contents[key]) else None
    {
      var h := Seek(key);
      FreshCanPut(slots[..], hash, key);
      PreviousIs(slots[..], hash, key, contents);
      r := if slots[h].Live? then Some(slots[h].value) else None;
    }

    /** assoc_set. Its own assertion asks for a free slot. Afterwards the table is at most 80 %
        full but for one entry, so from six slots on a free one is always left; five or
        fewer never grow. The calls that fill the larger table do not grow it again. */
    method Set(key: string, value: V)
      requires Valid() && fill < slots.Length
      modifies this, slots
      ensures Valid() && contents == old(contents)[key := value] && fill == |contents|
      ensures 5 * fill <= 4 * slots.Length + 5
      ensures slots.Length >= 6 ==> fill < slots.Length
      ensures if 5 * old(fill) > 4 * old(slots.Length)
              then fresh(slots) && slots.Length == old(slots.Length) * 5 / 4
              else slots == old(slots)
      ensures old(slots.Length) <= 5 ==> slots == old(slots)
      decreases if 5 * fill > 4 * slots.Length then 2 else 0
    {
      hide Reachable; hide Unique; hide Represents; hide LiveCount; hide Place;
      if 5 * fill > 4 * slots.Length {
        Grow();
      }
      var h := Seek(key);
      ghost var s := slots[..];
      FreshCanPut(s, hash, key);
      PutReachable(s, hash, key, value);
      PutUnique(s, hash, key, value);
      PutRepresents(s, hash, key, value, contents);
      LiveCountUpdate(s, h, Live(key, value));
      if !slots[h].Live? {
        fill := fill + 1;
      }
      slots[h] := Live(key, value);
      assert slots[..] == Put(s, hash, key, value);
      contents := contents[key := value];
      CountAgrees(slots[..], contents);
    }

    /** The growing branch of _assoc_set. */
    method Grow()
      requires Valid() && fill < slots.Length && 5 * fill > 4 * slots.Length
      modifies this
      ensures Valid() && fresh(slots) && slots.Length == old(slots.Length) * 5 / 4
      ensures contents == old(contents) && fill == old(fill)
      decreases 1
    {
      hide Reachable; hide Unique; hide Represents; hide LiveCount;
      ghost var s, m := slots[..], contents;
      var larger := new Assoc<V>(hash, slots.Length * 5 / 4);
      NothingCarried(s);
      CountAgrees(s, m);
      for i := 0 to slots.Length
        invariant larger.Valid() && fresh(larger) && fresh(larger.slots) && larger.hash == hash
        invariant larger.slots.Length == slots.Length * 5 / 4
        invariant unchanged(this) && slots[..] == s
        invariant Represents(s[..i], larger.contents) && forall k :: k in larger.contents ==> k in m
      {
        CarryOver(s, i, larger.contents);
        if slots[i].Live? {
          LiveIsIn(s, m, i);
          CountAgrees(larger.slots[..], larger.contents);
          Fewer(larger.contents, m, s[i].key);
          larger.Set(slots[i].key, slots[i].value);
        }
      }
      assert s[..slots.Length] == s;
      RepresentsOne(s, larger.contents, m);
      CountAgrees(larger.slots[..], m);
      slots, fill := larger.slots, larger.fill;
    }

    /** assoc_next: the first entry at or behind iter, and the position behind it. */
    method Next(iter: nat) returns (r: Option<(string, V)>, next: nat)
      requires iter <= slots.Length
      ensures r.None? ==> next == iter && forall j :: iter <= j < slots.Length ==> !slots[j].Live?
      ensures r.Some? ==>
        && iter < next <= slots.Length && slots[next - 1] == Live(r.value.0, r.value.1)
        && forall j :: iter <= j < next - 1 ==> !slots[j].Live?
    {
      var it := iter;
      while it < slots.Length && !slots[it].Live?
        invariant iter <= it <= slots.Length
        invariant forall j :: iter <= j < it ==> !slots[j].Live?
      {
        it := it + 1;
      }
      if it == slots.Length {
        return None, iter;
      }
      return Some((slots[it].key, slots[it].value)), it + 1;
    }

    /** assoc_foreach meets every key exactly once, with its value. */
    method ForEach() returns (visited: seq<(string, V)>)
      requires Valid()
      ensures forall e :: e in visited <==> e.0 in contents && contents[e.0] == e.1
      ensures forall i, j :: 0 <= i < j < |visited| ==> visited[i].0 != visited[j].0
    {
      hide Reachable; hide Unique; hide Represents; hide LiveCount; hide Entries;
      visited := [];
      ghost var s := slots[..];
      var r, it := Next(0);
      EntriesSkip(s, 0, if r.Some? then it - 1 else |s|);
      assert s[..|s|] == s;
      while r.Some?
        invariant r.Some? ==> 0 < it <= slots.Length && slots[it - 1] == Live(r.value.0, r.value.1)
        invariant r.Some? ==> Entries(s[..it - 1]) == visited
        invariant r.None? ==> Entries(s) == visited
        decreases r.Some?, slots.Length - it
      {
        EntriesStep(s, it - 1);
        visited := visited + [r.value];
        var before := it;
        r, it := Next(it);
        EntriesSkip(s, before, if r.Some? then it - 1 else |s|);
        assert s[..|s|] == s;
      }
      EntriesDistinct(s);
      EntriesAreContents(s, contents);
    }
  }

  /** The bound of six is exact: a table of one to five slots is filled by as many keys. */
  method FillSmall<V>(hash: string -> nat, keys: seq<string>, value: V) returns (table: Assoc<V>)
    requires 1 <= |keys| <= 5 && forall i, j :: 0 <= i < j < |keys| ==> keys[i] != keys[j]
    ensures table.Valid() && table.slots.Length == |keys| && table.fill == |keys|
  {
    hide Reachable; hide Unique; hide Represents; hide LiveCount;
    table := new Assoc<V>(hash, |keys|);
    for i := 0 to |keys|
      invariant table.Valid() && fresh(table) && fresh(table.slots) && table.slots.Length == |keys|
      invariant table.fill == |table.contents| == i
      invariant forall k :: k in table.contents ==> k in keys[..i]
    {
      table.Set(keys[i], value);
    }
  }

  lemma {:induction false} Fewer<V>(m: map<string, V>, m': map<string, V>, key: string)
    requires key in m' && key !in m && forall k :: k in m ==> k in m'
    ensures |m| < |m'|
  {
    assert m.Keys < m'.Keys;
    SubsetSize(m.Keys, m'.Keys);
  }

  lemma {:induction false} SubsetSize(a: set<string>, b: set<string>)
    requires a < b
    ensures |a| < |b|
  {
    if x :| x in a {
      SubsetSize(a - {x}, b - {x});
    } else {
      assert b != {};
    }
  }
}
