/** A chained hash table whose nodes also form a doubly linked list in insertion order. */
module LinkedHashTables {
  import opened Sequences
  import opened OrderedDicts

  class HashNode<K, V> {
    const key: K
    var value: V
    var nextInBucket: HashNode?<K, V>
    var prevInOrder: HashNode?<K, V>
    var nextInOrder: HashNode?<K, V>

    constructor (key: K, value: V)
      ensures this.key == key && this.value == value
      ensures nextInBucket == null && prevInOrder == null && nextInOrder == null
    {
      this.key := key;
      this.value := value;
      nextInBucket, prevInOrder, nextInOrder := null, null, null;
    }
  }

  ghost function NodeAt<K, V>(nodes: seq<HashNode<K, V>>, i: int): HashNode?<K, V> {
    if 0 <= i < |nodes| then nodes[i] else null
  }

  /** The i-th node knows its neighbours in the order list. */
  ghost predicate InOrder<K, V>(nodes: seq<HashNode<K, V>>, i: nat)
    requires i < |nodes|
    reads nodes`prevInOrder, nodes`nextInOrder
  {
    nodes[i].prevInOrder == NodeAt(nodes, i - 1) && nodes[i].nextInOrder == NodeAt(nodes, i + 1)
  }

  /** `nodes` is the list from head to tail: links are mutual inverses and end at both ends. */
  ghost predicate OrderLinked<K, V>(nodes: seq<HashNode<K, V>>, head: HashNode?<K, V>, tail: HashNode?<K, V>)
    reads nodes`prevInOrder, nodes`nextInOrder
  {
    && head == NodeAt(nodes, 0) && tail == NodeAt(nodes, |nodes| - 1)
    && forall i {:trigger InOrder(nodes, i)} :: 0 <= i < |nodes| ==> InOrder(nodes, i)
  }

  ghost predicate InChain<K, V>(chain: seq<HashNode<K, V>>, j: nat)
    requires j < |chain|
    reads chain`nextInBucket
  {
    chain[j].nextInBucket == NodeAt(chain, j + 1)
  }

  /** `chain` is the bucket's list from its first node to null. */
  ghost predicate Chained<K, V>(chain: seq<HashNode<K, V>>, first: HashNode?<K, V>)
    reads chain`nextInBucket
  {
    && first == NodeAt(chain, 0)
    && forall j {:trigger InChain(chain, j)} :: 0 <= j < |chain| ==> InChain(chain, j)
  }

  ghost predicate KeysDiffer<K, V>(nodes: seq<HashNode<K, V>>) {
    forall i, j :: 0 <= i < j < |nodes| ==> nodes[i].key != nodes[j].key
  }

  function Index<K>(hashOf: K -> int, capacity: nat, key: K): (i: nat)
    requires capacity > 0
    ensures i < capacity
  {
    hashOf(key) % capacity
  }

  ghost predicate InItsChain<K, V>(hashOf: K -> int, chains: seq<seq<HashNode<K, V>>>, n: HashNode<K, V>)
    requires |chains| > 0
  {
    n in chains[Index(hashOf, |chains|, n.key)]
  }

  /** The chain of bucket b holds listed nodes whose keys hash there, once each. */
  ghost predicate ChainBelongs<K, V>(hashOf: K -> int, chain: seq<HashNode<K, V>>, nodes: seq<HashNode<K, V>>, capacity: nat, b: nat)
    requires capacity > 0
  {
    && NoDuplicates(chain)
    && forall j :: 0 <= j < |chain| ==> chain[j] in nodes && Index(hashOf, capacity, chain[j].key) == b
  }

  /** Every listed node is in the chain of its key's bucket, and chains hold nothing else. */
  ghost predicate Covers<K, V>(hashOf: K -> int, chains: seq<seq<HashNode<K, V>>>, nodes: seq<HashNode<K, V>>) {
    && |chains| > 0
    && (forall n {:trigger InItsChain(hashOf, chains, n)} :: n in nodes ==> InItsChain(hashOf, chains, n))
    && (forall b {:trigger ChainBelongs(hashOf, chains[b], nodes, |chains|, b)} :: 0 <= b < |chains| ==>
          ChainBelongs(hashOf, chains[b], nodes, |chains|, b))
  }

  ghost predicate ListedIn<K, V>(chain: seq<HashNode<K, V>>, nodes: seq<HashNode<K, V>>) {
    forall j :: 0 <= j < |chain| ==> chain[j] in nodes
  }

  /** Each bucket holds the first node of its chain. */
  ghost predicate AllChained<K, V>(chains: seq<seq<HashNode<K, V>>>, buckets: array<HashNode?<K, V>>, nodes: seq<HashNode<K, V>>)
    requires |chains| == buckets.Length
    reads buckets, nodes`nextInBucket
  {
    forall b {:trigger ListedIn(chains[b], nodes)} {:trigger Chained(chains[b], buckets[b])} :: 0 <= b < |chains| ==>
      ListedIn(chains[b], nodes) && Chained(chains[b], buckets[b])
  }

  /** The key-value pairs of a list of nodes, in list order. */
  ghost function Entries<K, V>(nodes: seq<HashNode<K, V>>): (d: Dict<K, V>)
    reads nodes`value
    ensures |d| == |nodes| && forall i :: 0 <= i < |d| ==> d[i] == (nodes[i].key, nodes[i].value)
  {
    if nodes == [] then []
    else
      var last := nodes[|nodes| - 1];
      Entries(nodes[..|nodes| - 1]) + [(last.key, last.value)]
  }

  class LinkedHashTable<K(==), V(==)> {
    // How keys hash, and the value Python calls None.
    const hashOf: K -> int
    const none: V
    const loadFactor: real
    var capacity: nat
    var size: nat
    var buckets: array<HashNode?<K, V>>
    var head: HashNode?<K, V>
    var tail: HashNode?<K, V>
    // The order list and the bucket chains, as sequences of nodes.
    ghost var order: seq<HashNode<K, V>>
    ghost var chains: seq<seq<HashNode<K, V>>>

    /** The chains of the bucket array are well linked and hold exactly the given nodes. */
    ghost predicate Bucketed(nodes: seq<HashNode<K, V>>)
      reads this`capacity, this`buckets, this`chains, buckets, nodes`nextInBucket
    {
      && 0 < capacity == |chains| == buckets.Length
      && Covers(hashOf, chains, nodes) && AllChained(chains, buckets, nodes)
    }

    ghost predicate Listed()
      reads this`head, this`tail, this`order, order`prevInOrder, order`nextInOrder
    {
      KeysDiffer(order) && OrderLinked(order, head, tail)
    }

    ghost predicate Valid()
      reads this, buckets, order`nextInBucket, order`prevInOrder, order`nextInOrder
    {
      size == |order| && Listed() && Bucketed(order)
    }

    ghost function Contents(): Dict<K, V>
      reads this`order, order`value
    {
      Entries(order)
    }

    constructor (hashOf: K -> int, none: V, capacity: nat, loadFactor: real)
      requires capacity > 0 && 0.0 < loadFactor <= 1.0
      ensures Valid() && Contents() == [] && this.hashOf == hashOf && this.none == none
      ensures this.capacity == capacity && this.loadFactor == loadFactor
      ensures fresh(buckets)
    {
      this.hashOf, this.none, this.loadFactor := hashOf, none, loadFactor;
      this.capacity, size := capacity, 0;
      buckets := new HashNode?<K, V>[capacity](_ => null);
      head, tail := null, null;
      order, chains := [], seq(capacity, _ => []);
    }

    /** Walks the chain of a key's bucket, as put, get and remove each do. */
    method Locate(key: K) returns (current: HashNode?<K, V>, prev: HashNode?<K, V>, ghost j: nat)
      requires Bucketed(order)
      ensures var chain := chains[Index(hashOf, capacity, key)];
              && j <= |chain| && current == NodeAt(chain, j) && prev == NodeAt(chain, j - 1)
      ensures current == null ==> !Has(Contents(), key)
      ensures current != null ==> current.key == key && current in order
    {
      var b := hashOf(key) % capacity;
      ghost var chain := chains[b];
      current, prev, j := buckets[b], null, 0;
      assert ListedIn(chain, order) && Chained(chain, buckets[b]);
      while current != null && current.key != key
        invariant j <= |chain| && current == NodeAt(chain, j) && prev == NodeAt(chain, j - 1)
        invariant forall i :: 0 <= i < j ==> chain[i].key != key
        decreases |chain| - j
      {
        assert InChain(chain, j);
        prev, current, j := current, current.nextInBucket, j + 1;
      }
      if current == null {
        AbsentFromChain(hashOf, chains, order, key);
      }
    }

    // ---------- Inserting ----------

    /** Makes a node the first of its bucket's chain. */
    method PushIntoBucket(node: HashNode<K, V>, ghost nodes: seq<HashNode<K, V>>)
      requires Bucketed(nodes) && node !in nodes
      modifies buckets, this`chains, node`nextInBucket
      ensures Bucketed(nodes + [node])
    {
      var b := hashOf(node.key) % capacity;
      node.nextInBucket := buckets[b];
      buckets[b] := node;
      ghost var before := chains;
      chains := chains[b := [node] + chains[b]];
      CoversGrows(hashOf, before, nodes, node);
      forall c | 0 <= c < |chains| ensures ListedIn(chains[c], nodes + [node]) && Chained(chains[c], buckets[c]) {
        assert old(ListedIn(before[c], nodes) && Chained(before[c], buckets[c]));
        forall j | 0 <= j < |chains[c]| ensures InChain(chains[c], j) && chains[c][j] in nodes + [node] {
          if c != b {
            assert old(InChain(before[c], j));
          } else if j > 0 {
            assert old(InChain(before[c], j - 1));
          }
        }
      }
    }

    /** Appends a node to the order list. */
    method LinkAtTail(node: HashNode<K, V>)
      requires OrderLinked(order, head, tail) && node !in order && NoDuplicates(order)
      requires node.prevInOrder == null && node.nextInOrder == null
      modifies this`head, this`tail, node`prevInOrder, order`nextInOrder
      ensures OrderLinked(order + [node], head, tail)
    {
      if tail == null {
        head, tail := node, node;
      } else {
        tail.nextInOrder := node;
        node.prevInOrder := tail;
        tail := node;
      }
      forall i | 0 <= i < |order| + 1 ensures InOrder(order + [node], i) {
        if i < |order| {
          assert old(InOrder(order, i)) && (order + [node])[i] == order[i];
        }
      }
    }

    method AppendToOrder(node: HashNode<K, V>)
      requires Listed() && node !in order && KeysDiffer(order + [node]) && Bucketed(order + [node])
      requires node.prevInOrder == null && node.nextInOrder == null
      modifies this`head, this`tail, this`order, node`prevInOrder, order`nextInOrder
      ensures order == old(order) + [node] && Listed() && Bucketed(order)
      ensures Contents() == old(Contents()) + [(node.key, node.value)]
    {
      DistinctKeysDistinctNodes(order);
      LinkAtTail(node);
      ghost var before := order;
      order := order + [node];
      assert order[..|order| - 1] == before;
    }

    /** Links a node into its bucket and to the end of the order list. */
    method Link(node: HashNode<K, V>)
      requires Valid() && node !in order && KeysDiffer(order + [node])
      requires node.prevInOrder == null && node.nextInOrder == null
      modifies this`head, this`tail, this`order, this`chains, this`size, buckets
      modifies node`prevInOrder, node`nextInBucket, order`nextInOrder
      ensures Valid() && order == old(order) + [node]
      ensures Contents() == old(Contents()) + [(node.key, node.value)]
    {
      PushIntoBucket(node, order);
      assert Listed();
      AppendToOrder(node);
      size := size + 1;
    }

    method Append(key: K, value: V)
      requires Valid() && !Has(Contents(), key)
      modifies this`head, this`tail, this`order, this`chains, this`size, buckets, order`nextInOrder
      ensures Valid() && Contents() == old(Contents()) + [(key, value)]
      ensures forall i :: 0 <= i < |order| ==> order[i] in old(order) || fresh(order[i])
    {
      var node := new HashNode(key, value);
      AbsentKeyDiffers(order, node);
      Link(node);
    }

    // ---------- Growing ----------

    /** Puts every node of the order list into its bucket, from head to tail. */
    method Redistribute()
      requires Listed() && Bucketed([])
      modifies buckets, this`chains, order`nextInBucket
      ensures Bucketed(order)
    {
      var current := head;
      ghost var i := 0;
      while current != null
        invariant i <= |order| && current == NodeAt(order, i)
        invariant Listed() && Bucketed(order[..i])
        decreases |order| - i
      {
        assert InOrder(order, i);
        var next := current.nextInOrder;
        TakeOneMore(order, i);
        PushIntoBucket(current, order[..i]);
        current, i := next, i + 1;
      }
      TakeAll(order);
    }

    /** Replaces the bucket array by one of n buckets. */
    method Resize(n: nat)
      requires n > 0 && Listed()
      modifies this`capacity, this`buckets, this`chains, order`nextInBucket
      ensures Bucketed(order) && capacity == n && fresh(buckets)
    {
      capacity := n;
      buckets := new HashNode?<K, V>[n](_ => null);
      chains := seq(n, _ => []);
      Redistribute();
    }

    /** Grows the bucket array by half; neither contents nor order change. */
    method Rehash()
      requires Valid()
      modifies this`capacity, this`buckets, this`chains, order`nextInBucket
      ensures Valid() && capacity == old(capacity) * 3 / 2 && fresh(buckets)
    {
      Resize(capacity * 3 / 2);
    }

    /** The load check that ends an insertion. */
    method GrowIfCrowded()
      requires Valid()
      modifies this`capacity, this`buckets, this`chains, order`nextInBucket
      ensures Valid() && capacity == NextCapacity(old(capacity), size, loadFactor)
      ensures buckets == old(buckets) || fresh(buckets)
    {
      if size as real >= capacity as real * loadFactor {
        Rehash();
      }
    }

    /** The inserting half of put. */
    method InsertNew(key: K, value: V)
      requires Valid() && !Has(Contents(), key)
      modifies this, buckets, order
      ensures Valid() && Contents() == old(Contents()) + [(key, value)]
      ensures buckets == old(buckets) || fresh(buckets)
      ensures forall i :: 0 <= i < |order| ==> order[i] in old(order) || fresh(order[i])
      ensures capacity == NextCapacity(old(capacity), old(size) + 1, loadFactor)
    {
      Append(key, value);
      GrowIfCrowded();
    }

    // ---------- Operations ----------

    /** Overwrites the value of a listed node. */
    method Overwrite(node: HashNode<K, V>, value: V)
      requires KeysDiffer(order) && node in order
      modifies node`value
      ensures Has(old(Contents()), node.key) && OrderedDicts.Get(old(Contents()), node.key, none) == old(node.value)
      ensures Contents() == OrderedDicts.Put(old(Contents()), node.key, value)
    {
      ghost var p :| 0 <= p < |order| && order[p] == node;
      ListedKeyIsFoundThere(order, p);
      node.value := value;
      assert Contents() == old(Contents())[p := (node.key, value)];
    }

    /** Inserts or updates; returns the previous value, or none. */
    method Put(key: K, value: V) returns (previous: V)
      requires Valid()
      modifies this, buckets, order
      ensures Valid() && Contents() == OrderedDicts.Put(old(Contents()), key, value)
      ensures previous == OrderedDicts.Get(old(Contents()), key, none)
      ensures buckets == old(buckets) || fresh(buckets)
      ensures forall i :: 0 <= i < |order| ==> order[i] in old(order) || fresh(order[i])
      ensures capacity == if Has(old(Contents()), key) then old(capacity) else NextCapacity(old(capacity), old(size) + 1, loadFactor)
    {
      var current, _, _ := Locate(key);
      if current != null {
        previous := current.value;
        Overwrite(current, value);
      } else {
        InsertNew(key, value);
        previous := none;
      }
    }

    /** Takes a node out of its bucket's chain, given its predecessor there. */
    method UnlinkFromBucket(node: HashNode<K, V>, prev: HashNode?<K, V>, ghost j: nat, ghost p: nat)
      requires Bucketed(order) && KeysDiffer(order) && p < |order| && order[p] == node
      requires var chain := chains[Index(hashOf, capacity, node.key)];
               j < |chain| && chain[j] == node && prev == NodeAt(chain, j - 1)
      modifies buckets, this`chains, order`nextInBucket
      ensures Bucketed(Without(order, p))
    {
      var b := hashOf(node.key) % capacity;
      ghost var before := chains;
      ghost var chain := chains[b];
      assert ListedIn(chain, order) && Chained(chain, buckets[b]) && InChain(chain, j);
      if prev == null {
        buckets[b] := node.nextInBucket;
      } else {
        assert InChain(chain, j - 1);
        prev.nextInBucket := node.nextInBucket;
      }
      chains := chains[b := Without(chain, j)];
      CoversShrinks(hashOf, before, order, b, j, p);
      forall c | 0 <= c < |chains| ensures ListedIn(chains[c], Without(order, p)) && Chained(chains[c], buckets[c]) {
        assert ChainBelongs(hashOf, before[c], order, |before|, c) && ChainBelongs(hashOf, chains[c], Without(order, p), |chains|, c);
        assert old(ListedIn(before[c], order) && Chained(before[c], buckets[c]));
        forall i | 0 <= i < |chains[c]| ensures InChain(chains[c], i) {
          assert old(InChain(before[c], i));
          if c == b && i >= j {
            assert old(InChain(before[c], i + 1));
          }
        }
      }
    }

    /** Joins the order neighbours of a node to each other. */
    method Bypass(node: HashNode<K, V>, ghost p: nat)
      requires Listed() && p < |order| && order[p] == node
      modifies this`head, this`tail, order`prevInOrder, order`nextInOrder
      ensures OrderLinked(Without(order, p), head, tail)
    {
      assert InOrder(order, p);
      assert (p > 0 ==> InOrder(order, p - 1)) && (p + 1 < |order| ==> InOrder(order, p + 1));
      if node.prevInOrder != null {
        node.prevInOrder.nextInOrder := node.nextInOrder;
      } else {
        head := node.nextInOrder;
      }
      if node.nextInOrder != null {
        node.nextInOrder.prevInOrder := node.prevInOrder;
      } else {
        tail := node.prevInOrder;
      }
      ghost var nodes := Without(order, p);
      forall i | 0 <= i < |nodes| ensures InOrder(nodes, i) {
        assert old(InOrder(order, if i < p then i else i + 1));
      }
    }

    /** Takes a node out of its chain and out of the order list. */
    method Unlink(node: HashNode<K, V>, prev: HashNode?<K, V>, ghost j: nat, ghost p: nat)
      requires Valid() && p < |order| && order[p] == node
      requires var chain := chains[Index(hashOf, capacity, node.key)];
               j < |chain| && chain[j] == node && prev == NodeAt(chain, j - 1)
      modifies this`head, this`tail, this`order, this`chains, this`size, buckets
      modifies order`nextInBucket, order`prevInOrder, order`nextInOrder
      ensures Valid() && order == Without(old(order), p)
    {
      UnlinkFromBucket(node, prev, j, p);
      Bypass(node, p);
      assert Bucketed(Without(order, p));
      order, size := Without(order, p), size - 1;
    }

    /** The part of remove that follows finding the node. */
    method RemoveNode(node: HashNode<K, V>, prev: HashNode?<K, V>, ghost j: nat)
      requires Valid() && node in order
      requires var chain := chains[Index(hashOf, capacity, node.key)];
               j < |chain| && chain[j] == node && prev == NodeAt(chain, j - 1)
      modifies this`head, this`tail, this`order, this`chains, this`size, buckets
      modifies order`nextInBucket, order`prevInOrder, order`nextInOrder
      ensures Valid() && Contents() == OrderedDicts.Remove(old(Contents()), node.key)
      ensures OrderedDicts.Get(old(Contents()), node.key, none) == node.value
      ensures forall i :: 0 <= i < |order| ==> order[i] in old(order)
    {
      ghost var p :| 0 <= p < |order| && order[p] == node;
      EntriesWithout(order, p);
      ghost var rest := Without(order, p);
      ghost var entries := Entries(rest);
      Unlink(node, prev, j, p);
      assert Entries(rest) == entries;
    }

    /** Removes a key; returns the value it had, or none. */
    method Remove(key: K) returns (removed: V)
      requires Valid()
      modifies this, buckets, order
      ensures Valid() && Contents() == OrderedDicts.Remove(old(Contents()), key)
      ensures removed == OrderedDicts.Get(old(Contents()), key, none)
      ensures buckets == old(buckets) && capacity == old(capacity)
      ensures forall i :: 0 <= i < |order| ==> order[i] in old(order)
    {
      var current, prev, j := Locate(key);
      if current != null {
        RemoveNode(current, prev, j);
        removed := current.value;
      } else {
        removed := none;
      }
    }

    /** The stored value, or none. */
    method Get(key: K) returns (value: V)
      requires Valid()
      ensures value == OrderedDicts.Get(Contents(), key, none)
    {
      var current, _, _ := Locate(key);
      if current != null {
        ghost var p :| 0 <= p < |order| && order[p] == current;
        ListedKeyIsFoundThere(order, p);
        value := current.value;
      } else {
        value := none;
      }
    }

    /** Agrees with membership only for values other than none. */
    method Contains(key: K) returns (found: bool)
      requires Valid()
      ensures found <==> Has(Contents(), key) && OrderedDicts.Get(Contents(), key, none) != none
    {
      var value := Get(key);
      found := value != none;
    }

    method Clear()
      requires Valid()
      modifies this
      ensures Valid() && Contents() == [] && capacity == old(capacity) && fresh(buckets)
    {
      buckets := new HashNode?<K, V>[capacity](_ => null);
      head, tail := null, null;
      size := 0;
      order, chains := [], seq(capacity, _ => []);
    }

    /** What iterating from head to tail yields. */
    method Items() returns (items: seq<(K, V)>)
      requires Valid()
      ensures items == Contents()
    {
      items := [];
      var current := head;
      ghost var i := 0;
      while current != null
        invariant i <= |order| && current == NodeAt(order, i)
        invariant items == Contents()[..i]
        decreases |order| - i
      {
        assert InOrder(order, i);
        items := items + [(current.key, current.value)];
        current, i := current.nextInOrder, i + 1;
      }
    }
  }

  /** The capacity after an insertion that makes the size n. */
  function NextCapacity(capacity: nat, n: nat, loadFactor: real): nat {
    if n as real >= capacity as real * loadFactor then capacity * 3 / 2 else capacity
  }

  lemma AbsentFromChain<K, V>(hashOf: K -> int, chains: seq<seq<HashNode<K, V>>>, nodes: seq<HashNode<K, V>>, key: K)
    requires Covers(hashOf, chains, nodes)
    requires forall i :: 0 <= i < |chains[Index(hashOf, |chains|, key)]| ==> chains[Index(hashOf, |chains|, key)][i].key != key
    ensures !Has(Entries(nodes), key)
  {
    forall i | 0 <= i < |nodes| ensures nodes[i].key != key {
      assert InItsChain(hashOf, chains, nodes[i]);
    }
  }

  ghost function Without<T>(s: seq<T>, p: nat): seq<T>
    requires p < |s|
  {
    s[..p] + s[p + 1..]
  }

  lemma RemovedAt<K, V>(d: Dict<K, V>, k: K, p: nat)
    requires p < |d| && Position(d, k) == p
    ensures OrderedDicts.Remove(d, k) == Without(d, p)
  {
  }

  lemma WithoutIsPart<T>(s: seq<T>, p: nat)
    requires p < |s|
    ensures forall i :: 0 <= i < |Without(s, p)| ==> Without(s, p)[i] in s
  {
  }

  lemma AnyWithout<T>(s: seq<T>, p: nat, r: seq<T>)
    requires p < |s| && |r| == |s| - 1
    requires forall i :: 0 <= i < p ==> r[i] == s[i]
    requires forall i :: p <= i < |r| ==> r[i] == s[i + 1]
    ensures r == Without(s, p)
  {
  }

  /** Dropping the p-th node removes its key, and that node held the key's value. */
  lemma EntriesWithout<K, V>(nodes: seq<HashNode<K, V>>, p: nat)
    requires KeysDiffer(nodes) && p < |nodes|
    ensures Entries(Without(nodes, p)) == OrderedDicts.Remove(Entries(nodes), nodes[p].key)
    ensures Has(Entries(nodes), nodes[p].key) && Entries(nodes)[Position(Entries(nodes), nodes[p].key)].1 == nodes[p].value
    ensures forall i :: 0 <= i < |Without(nodes, p)| ==> Without(nodes, p)[i] in nodes
  {
    ListedKeyIsFoundThere(nodes, p);
    WithoutIsPart(nodes, p);
    RemovedAt(Entries(nodes), nodes[p].key, p);
    AnyWithout(Entries(nodes), p, Entries(Without(nodes, p)));
  }

  lemma CoversShrinks<K, V>(hashOf: K -> int, chains: seq<seq<HashNode<K, V>>>, nodes: seq<HashNode<K, V>>, b: nat, j: nat, p: nat)
    requires Covers(hashOf, chains, nodes) && KeysDiffer(nodes)
    requires b < |chains| && j < |chains[b]| && p < |nodes| && chains[b][j] == nodes[p]
    ensures Covers(hashOf, chains[b := Without(chains[b], j)], Without(nodes, p))
  {
    var chains', nodes' := chains[b := Without(chains[b], j)], Without(nodes, p);
    assert ChainBelongs(hashOf, chains[b], nodes, |chains|, b);
    forall n | n in nodes' ensures InItsChain(hashOf, chains', n) {
      assert InItsChain(hashOf, chains, n);
      var chain := chains[Index(hashOf, |chains|, n.key)];
      var i :| 0 <= i < |chain| && chain[i] == n;
      assert n != nodes[p];
      if Index(hashOf, |chains|, n.key) == b {
        assert Without(chain, j)[if i < j then i else i - 1] == n;
      }
    }
    forall c | 0 <= c < |chains'| ensures ChainBelongs(hashOf, chains'[c], nodes', |chains'|, c) {
      assert ChainBelongs(hashOf, chains[c], nodes, |chains|, c);
      forall i | 0 <= i < |chains'[c]| ensures chains'[c][i] in nodes' && Index(hashOf, |chains|, chains'[c][i].key) == c {
        var n := chains'[c][i];
        assert n == chains[c][if c == b && i >= j then i + 1 else i];
        var q :| 0 <= q < |nodes| && nodes[q] == n;
        assert n != nodes[p];
        assert nodes'[if q < p then q else q - 1] == n;
      }
    }
  }

  lemma CoversGrows<K, V>(hashOf: K -> int, chains: seq<seq<HashNode<K, V>>>, nodes: seq<HashNode<K, V>>, node: HashNode<K, V>)
    requires Covers(hashOf, chains, nodes) && node !in nodes
    ensures var b := Index(hashOf, |chains|, node.key); Covers(hashOf, chains[b := [node] + chains[b]], nodes + [node])
  {
    var b := Index(hashOf, |chains|, node.key);
    var chains' := chains[b := [node] + chains[b]];
    forall n | n in nodes + [node] ensures InItsChain(hashOf, chains', n) {
      assert n != node ==> InItsChain(hashOf, chains, n);
    }
    forall c | 0 <= c < |chains'| ensures ChainBelongs(hashOf, chains'[c], nodes + [node], |chains'|, c) {
      assert ChainBelongs(hashOf, chains[c], nodes, |chains|, c);
    }
  }

  lemma AbsentKeyDiffers<K, V>(nodes: seq<HashNode<K, V>>, node: HashNode<K, V>)
    requires KeysDiffer(nodes) && !Has(Entries(nodes), node.key)
    ensures KeysDiffer(nodes + [node])
  {
    forall i | 0 <= i < |nodes| ensures nodes[i].key != node.key {
      assert Entries(nodes)[i].0 != node.key;
    }
  }

  lemma DistinctKeysDistinctNodes<K, V>(nodes: seq<HashNode<K, V>>)
    requires KeysDiffer(nodes)
    ensures NoDuplicates(nodes)
  {
    forall i, j | 0 <= i < j < |nodes| ensures nodes[i] != nodes[j] {
      assert nodes[i].key != nodes[j].key;
    }
  }

  lemma ListedKeyIsFoundThere<K, V>(nodes: seq<HashNode<K, V>>, p: nat)
    requires KeysDiffer(nodes) && p < |nodes|
    ensures Position(Entries(nodes), nodes[p].key) == p
  {
    FirstAt(Entries(nodes), nodes[p].key, p);
  }
}
