/** hash_u32 of hash.c as the only identity of a key in map.c, and node_get of ns.c built on it. */
module HashKey {
  import opened Common
  import opened Probing
  import opened HashTable

  /** value * 2654435761, truncated to 32 bits. */
  function HashU32(value: u32): (h: u32) {
    value * 2654435761 % 0x1_0000_0000
  }

  /** The multiplier is odd: multiplying by its inverse undoes the hash. */
  function UnhashU32(h: u32): (value: u32) {
    h * 244002641 % 0x1_0000_0000
  }

  lemma {:induction false} Remainder(x: int, q: int, r: int)
    requires 0 <= r < 0x1_0000_0000 && x == q * 0x1_0000_0000 + r
    ensures x % 0x1_0000_0000 == r
  {
  }

  lemma {:induction false} Unhash(value: u32)
    ensures UnhashU32(HashU32(value)) == value
  {
    var v: int, h: int := value, HashU32(value);
    var q: int := (v * 2654435761) / 0x1_0000_0000;
    assert v * 2654435761 == q * 0x1_0000_0000 + h;
    Remainder(h * 244002641, 150801925 * v - 244002641 * q, v);
  }

  /** Different values never share a hash. */
  lemma {:induction false} HashInjective(a: u32, b: u32)
    ensures HashU32(a) == HashU32(b) <==> a == b
  {
    Unhash(a);
    Unhash(b);
  }

  datatype Node = Node(id: u32)

  /** Every record sits under the hash of its own id. */
  ghost predicate Keyed(nodes: map<nat, Node>) {
    forall k :: k in nodes ==> k == HashU32(nodes[k].id)
  }

  /** node_get: the record of that node, made if there was none; never another node's. */
  method NodeGet(nodes: HashMap<Node>, id: u32) returns (node: Node)
    requires nodes.Valid() && Keyed(nodes.contents)
    modifies nodes, nodes.data
    ensures nodes.Valid() && Keyed(nodes.contents)
    ensures node == Node(id) && nodes.contents == old(nodes.contents)[HashU32(id) := node]
  {
    var found := nodes.Get(HashU32(id));
    match found {
      case Some(n) =>
        HashInjective(n.id, id);
        node := n;
        assert nodes.contents == nodes.contents[HashU32(id) := node];
      case None =>
        node := Node(id);
        AbsentCanPut(nodes.data[..], Own, HashU32(id), nodes.contents);
        var _ := nodes.Reput(HashU32(id), node);
    }
  }
}
