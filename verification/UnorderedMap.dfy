/**
 The chained hash map of `include/utils/unordered_map.hpp`. Every operation works on one chain while it
 holds the lock of that chain, so operations are modelled one at a time.
 */
module UnorderedMap {
  import opened Wrappers
  import opened Sequences

  predicate HasKey<K(==), V>(s: seq<(K, V)>, key: K) {
    exists i :: 0 <= i < |s| && s[i].0 == key
  }

  ghost predicate DistinctKeys<K, V>(s: seq<(K, V)>) {
    forall i, j | 0 <= i < j < |s| :: s[i].0 != s[j].0
  }

  /** `ValueBucket`. */
  class Node<K, V> {
    const key: K
    var value: V
    var chain: Node?<K, V>

    constructor (key: K, value: V)
      ensures this.key == key && this.value == value && chain == null
    {
      this.key, this.value, chain := key, value, null;
    }
  }

  /** `TableBucket`: the head of a chain. */
  class Bucket<K(==), V> {
    var chain: Node?<K, V>
    /** The nodes reached from here, in order. */
    ghost var nodes: seq<Node<K, V>>
    ghost var repr: set<Node<K, V>>
    /** What they hold. */
    ghost var pairs: seq<(K, V)>

    ghost function NodeAt(i: nat): Node?<K, V>
      reads this`nodes
    {
      if i < |nodes| then nodes[i] else null
    }

    ghost predicate LinkAt(i: nat)
      requires i < |nodes|
      reads this`nodes, nodes
    {
      nodes[i].chain == NodeAt(i + 1)
    }

    ghost predicate Valid()
      reads this, repr
    {
      && repr == (set n | n in nodes)
      && chain == NodeAt(0)
      && (forall i | 0 <= i < |nodes| :: LinkAt(i))
      && (forall i, j | 0 <= i < j < |nodes| :: nodes[i] != nodes[j])
      && |pairs| == |nodes| && forall i | 0 <= i < |nodes| :: pairs[i] == (nodes[i].key, nodes[i].value)
    }

    constructor ()
      ensures Valid() && nodes == [] && pairs == [] && repr == {}
    {
      chain, nodes, pairs, repr := null, [], [], {};
    }

    /** The walk that all operations share: up to the node with this key, or the end. */
    method Walk(key: K) returns (previous: Node?<K, V>, current: Node?<K, V>, ghost at: nat)
      requires Valid()
      ensures at <= |nodes| && current == NodeAt(at)
      ensures previous == if at == 0 then null else nodes[at - 1]
      ensures forall i | 0 <= i < at :: pairs[i].0 != key
      ensures at < |nodes| ==> pairs[at].0 == key
      ensures current != null <==> HasKey(pairs, key)
      ensures current != null ==> current in repr && current.key == key
    {
      previous, current := null, chain;
      at := 0;
      while current != null && current.key != key
        invariant at <= |nodes| && current == NodeAt(at)
        invariant previous == if at == 0 then null else nodes[at - 1]
        invariant forall i | 0 <= i < at :: pairs[i].0 != key
        decreases |nodes| - at
      {
        assert LinkAt(at) && pairs[at].0 == current.key;
        previous, current := current, current.chain;
        at := at + 1;
      }
    }

    /** Puts a new node at the end, unless the key is there. */
    method Append(key: K, value: V) returns (added: bool)
      requires Valid()
      modifies this, repr
      ensures Valid() && added == !HasKey(old(pairs), key)
      ensures pairs == if added then old(pairs) + [(key, value)] else old(pairs)
      ensures repr >= old(repr) && fresh(repr - old(repr)) && (!added ==> repr == old(repr))
    {
      var previous, current;
      ghost var at;
      previous, current, at := Walk(key);
      if current != null {
        assert HasKey(pairs, key) by {
          assert pairs[at].0 == key;
        }
        return false;
      }
      ghost var all := nodes;
      var node := new Node(key, value);
      if previous == null {
        chain := node;
      } else {
        previous.chain := node;
      }
      nodes, pairs, repr := nodes + [node], pairs + [(key, value)], repr + {node};
      forall i | 0 <= i < |nodes| ensures LinkAt(i) {
        if i < |all| {
          assert old(LinkAt(i)) && nodes[i] == all[i];
        }
      }
      added := true;
    }

    /** Unlinks the node with this key wherever it is in the chain; the others stay as they are. */
    method Unlink(key: K) returns (erased: bool, ghost at: nat)
      requires Valid()
      modifies this, repr
      ensures Valid() && erased == HasKey(old(pairs), key)
      ensures erased ==> at < |old(pairs)| && old(pairs)[at].0 == key && pairs == RemoveAt(old(pairs), at)
      ensures !erased ==> pairs == old(pairs)
      ensures repr <= old(repr)
    {
      var previous, current;
      previous, current, at := Walk(key);
      erased := current != null;
      if erased {
        assert HasKey(pairs, key) by {
          assert pairs[at].0 == key;
        }
        Skip(previous, current, at);
      }
    }

    /** `*chain = std::move((*chain)->chain)`. */
    method Skip(previous: Node?<K, V>, current: Node<K, V>, ghost at: nat)
      requires Valid() && at < |nodes| && current == nodes[at] && previous == if at == 0 then null else nodes[at - 1]
      modifies this, repr
      ensures Valid() && pairs == RemoveAt(old(pairs), at) && nodes == RemoveAt(old(nodes), at)
      ensures repr <= old(repr)
    {
      ghost var all := nodes;
      assert LinkAt(at);
      if previous == null {
        chain := current.chain;
      } else {
        previous.chain := current.chain;
      }
      nodes, pairs, repr := RemoveAt(nodes, at), RemoveAt(pairs, at), repr - {current};
      assert forall i | 0 <= i < |nodes| :: nodes[i] == all[if i < at then i else i + 1];
      forall i | 0 <= i < |nodes| ensures LinkAt(i) {
        assert old(LinkAt(if i < at then i else i + 1));
      }
    }

    method Find(key: K) returns (r: Option<V>)
      requires Valid()
      ensures r.Some? <==> HasKey(pairs, key)
      ensures r.Some? ==> exists i :: 0 <= i < |pairs| && pairs[i] == (key, r.value)
    {
      var previous, current;
      ghost var at;
      previous, current, at := Walk(key);
      if current == null {
        return None;
      }
      assert pairs[at] == (key, current.value);
      r := Some(current.value);
    }
  }

  /** The chain a key belongs to. */
  function Position<K>(hash: K -> nat, key: K, buckets: nat): (r: nat)
    requires buckets > 0
    ensures r < buckets
  {
    hash(key) % buckets
  }

  /** The chains hold exactly the entries of the map, each key once and in its chain. */
  ghost predicate Represents<K(!new), V>(hash: K -> nat, chains: seq<seq<(K, V)>>, contents: map<K, V>) {
    && chains != []
    && (forall i | 0 <= i < |chains| :: DistinctKeys(chains[i]))
    && (forall i, p | 0 <= i < |chains| && p in chains[i] ::
          Position(hash, p.0, |chains|) == i && p.0 in contents && contents[p.0] == p.1)
    && (forall k | k in contents :: (k, contents[k]) in chains[Position(hash, k, |chains|)])
  }

  lemma KeyIsThere<K(!new), V>(hash: K -> nat, chains: seq<seq<(K, V)>>, contents: map<K, V>, key: K)
    requires Represents(hash, chains, contents)
    ensures key in contents <==> HasKey(chains[Position(hash, key, |chains|)], key)
    ensures forall v :: (key, v) in chains[Position(hash, key, |chains|)] <==> key in contents && v == contents[key]
  {
    var c := chains[Position(hash, key, |chains|)];
    if i :| 0 <= i < |c| && c[i].0 == key {
      assert c[i] in c;
    }
    if key in contents {
      var i :| 0 <= i < |c| && c[i] == (key, contents[key]);
      assert c[i].0 == key;
    }
  }

  lemma PushKeeps<K(!new), V>(hash: K -> nat, chains: seq<seq<(K, V)>>, contents: map<K, V>, key: K, value: V)
    requires Represents(hash, chains, contents) && key !in contents
    ensures var p := Position(hash, key, |chains|);
            Represents(hash, chains[p := chains[p] + [(key, value)]], contents[key := value])
  {
    hide Position;
    var p := Position(hash, key, |chains|);
    var c, d := chains[p], chains[p] + [(key, value)];
    assert (key, value) in d && forall q | q in c :: q in d;
    forall i | 0 <= i < |c| ensures c[i].0 != key {
      assert c[i] in c;
    }
  }

  /** Removing the entry of a key from a chain leaves exactly those of other keys. */
  lemma ChainWithout<K, V>(c: seq<(K, V)>, at: nat)
    requires at < |c| && DistinctKeys(c)
    ensures var d := RemoveAt(c, at);
            && DistinctKeys(d) && (forall q | q in d :: q in c && q.0 != c[at].0)
            && forall q | q in c && q.0 != c[at].0 :: q in d
  {
    var d := RemoveAt(c, at);
    forall i | 0 <= i < |d| ensures d[i] == c[if i < at then i else i + 1] && d[i].0 != c[at].0 {
    }
    forall q | q in c && q.0 != c[at].0 ensures q in d {
      var i :| 0 <= i < |c| && c[i] == q;
      assert d[if i < at then i else i - 1] == q;
    }
  }

  lemma EraseKeeps<K(!new), V>(hash: K -> nat, chains: seq<seq<(K, V)>>, contents: map<K, V>, key: K, at: nat)
    requires Represents(hash, chains, contents)
    requires var c := chains[Position(hash, key, |chains|)]; at < |c| && c[at].0 == key
    ensures var p := Position(hash, key, |chains|);
            key in contents && Represents(hash, chains[p := RemoveAt(chains[p], at)], contents - {key})
  {
    hide Position, RemoveAt, DistinctKeys;
    var p := Position(hash, key, |chains|);
    var c := chains[p];
    assert c[at] in c;
    ChainWithout(c, at);
    var d := RemoveAt(c, at);
    forall k | k in contents && k != key && Position(hash, k, |chains|) == p ensures (k, contents[k]) in d {
      assert (k, contents[k]) in c;
    }
  }

  class UnorderedMap<K(==, !new), V> {
    const hash: K -> nat
    var table: seq<Bucket<K, V>>
    var size: nat
    /** The mathematical map this object implements. */
    ghost var contents: map<K, V>

    /** What the chains hold, and all their nodes. */
    ghost var chains: seq<seq<(K, V)>>
    ghost var repr: set<Node<K, V>>

    /** The chains are well-formed and share no node. */
    ghost predicate Linked()
      reads this`table, this`repr, this`chains, table, repr
    {
      && |chains| == |table|
      && (forall i | 0 <= i < |table| :: table[i].pairs == chains[i])
      && (forall i | 0 <= i < |table| :: table[i].repr <= repr)
      && (forall i | 0 <= i < |table| :: table[i].Valid())
      && (forall i, j | 0 <= i < j < |table| :: table[i] != table[j] && table[i].repr !! table[j].repr)
    }

    ghost predicate Valid()
      reads this, table, repr
    {
      Linked() && Represents(hash, chains, contents) && size == |contents|
    }

    function BucketOf(key: K): Bucket<K, V>
      requires table != []
      reads this`table
    {
      table[Position(hash, key, |table|)]
    }

    constructor (hash: K -> nat, bucketCount: nat)
      requires bucketCount >= 1
      ensures Valid() && contents == map[] && |table| == bucketCount && this.hash == hash
    {
      this.hash, size, contents, table := hash, 0, map[], [];
      chains, repr := [], {};
      new;
      hide UnorderedMap.Linked;
      NothingLinked();
      AddBucket();
      for i := 0 to bucketCount - 1
        invariant |table| == |chains| == i + 1 && contents == map[] && size == 0 && this.hash == hash
        invariant Linked() && forall k | 0 <= k < |chains| :: chains[k] == []
      {
        AddBucket();
      }
    }

    lemma NothingLinked()
      requires table == [] && chains == []
      ensures Linked()
    {
    }

    method AddBucket()
      requires Linked()
      modifies this`table, this`chains
      ensures Linked() && chains == old(chains) + [[]] && |table| == |chains| && fresh(table[|table| - 1])
      ensures table[..|table| - 1] == old(table)
    {
      hide Bucket.Valid;
      var bucket := new Bucket<K, V>();
      table, chains := table + [bucket], chains + [[]];
    }

    /** Appending to one chain leaves the others alone. */
    method AppendAt(bucket: Bucket<K, V>, position: nat, key: K, value: V) returns (added: bool)
      requires Linked() && position < |table| && bucket == table[position]
      modifies this`chains, this`repr, bucket, bucket.repr
      ensures Linked() && added == !HasKey(old(chains[position]), key)
      ensures chains == if added then old(chains[position := chains[position] + [(key, value)]]) else old(chains)
    {
      hide Bucket.Valid, HasKey;
      added := bucket.Append(key, value);
      forall i | 0 <= i < |table| && i != position
        ensures table[i].Valid() && table[i].repr == old(table[i].repr) && table[i].pairs == old(table[i].pairs)
      {
        assert table[i] != bucket && old(table[i].repr) !! old(bucket.repr);
      }
      chains, repr := chains[position := bucket.pairs], repr + bucket.repr;
    }

    /** Unlinking from one chain leaves the others alone. */
    method UnlinkAt(bucket: Bucket<K, V>, position: nat, key: K) returns (erased: bool, ghost at: nat)
      requires Linked() && position < |table| && bucket == table[position]
      modifies this`chains, this`repr, bucket, bucket.repr
      ensures Linked() && erased == HasKey(old(chains[position]), key)
      ensures erased ==> at < |old(chains[position])| && old(chains[position])[at].0 == key
      ensures chains == if erased then old(chains)[position := RemoveAt(old(chains[position]), at)] else old(chains)
    {
      hide Bucket.Valid, HasKey;
      erased, at := bucket.Unlink(key);
      forall i | 0 <= i < |table| && i != position
        ensures table[i].Valid() && table[i].repr == old(table[i].repr) && table[i].pairs == old(table[i].pairs)
      {
        assert table[i] != bucket && old(table[i].repr) !! old(bucket.repr);
      }
      chains := chains[position := bucket.pairs];
    }

    /** `push` refines adding an entry whose key is new. */
    method Push(key: K, value: V) returns (added: bool)
      requires table != [] && Valid()
      modifies this`size, this`contents, this`chains, this`repr, BucketOf(key), BucketOf(key).repr
      ensures Valid() && added == (key !in old(contents))
      ensures contents == if added then old(contents)[key := value] else old(contents)
    {
      hide Represents, Position, UnorderedMap.Linked, HasKey;
      LinkedLengths();
      KeyIsThere(hash, chains, contents, key);
      var position := Position(hash, key, |table|);
      added := AppendAt(table[position], position, key, value);
      if added {
        PushKeeps(hash, old(chains), contents, key, value);
        size := size + 1;
        contents := contents[key := value];
      }
    }

    /** `erase` refines removing a key. */
    method Erase(key: K) returns (erased: bool)
      requires table != [] && Valid()
      modifies this`size, this`contents, this`chains, this`repr, BucketOf(key), BucketOf(key).repr
      ensures Valid() && erased == (key in old(contents)) && contents == old(contents) - {key}
    {
      hide Represents, Position, UnorderedMap.Linked, HasKey, RemoveAt;
      LinkedLengths();
      KeyIsThere(hash, chains, contents, key);
      var position := Position(hash, key, |table|);
      ghost var at;
      erased, at := UnlinkAt(table[position], position, key);
      if erased {
        EraseKeeps(hash, old(chains), contents, key, at);
        size := size - 1;
        contents := contents - {key};
      }
    }

    lemma LinkedLengths()
      requires Linked()
      ensures |chains| == |table|
    {
    }

    /** `find` refines the lookup. */
    method Find(key: K) returns (r: Option<V>)
      requires table != [] && Valid()
      ensures r == if key in contents then Some(contents[key]) else None
    {
      hide Represents, Position, Bucket.Valid;
      KeyIsThere(hash, chains, contents, key);
      var position := Position(hash, key, |table|);
      r := table[position].Find(key);
    }

    /** `insert`: the entry just added, or the end if the key was there. */
    method Insert(key: K, value: V) returns (r: Option<V>)
      requires table != [] && Valid()
      modifies this`size, this`contents, this`chains, this`repr, BucketOf(key), BucketOf(key).repr
      ensures Valid() && contents == if key in old(contents) then old(contents) else old(contents)[key := value]
      ensures r == if key in old(contents) then None else Some(value)
    {
      hide Represents, UnorderedMap.Linked, Position;
      var added := Push(key, value);
      if !added {
        return None;
      }
      r := Find(key);
    }
  }
}
