/** Whole runs of the hash table: it answers as an insertion-ordered map, and its load stays bounded. */
module TableRuns {
  import opened OrderedDicts
  import opened LinkedHashTables

  datatype Op<K, V> = PutOp(key: K, value: V) | GetOp(key: K) | RemoveOp(key: K) | ClearOp

  function After<K(==), V>(d: Dict<K, V>, op: Op<K, V>): Dict<K, V> {
    match op
    case PutOp(k, v) => Put(d, k, v)
    case GetOp(_) => d
    case RemoveOp(k) => Remove(d, k)
    case ClearOp => []
  }

  function AfterAll<K(==), V>(d: Dict<K, V>, ops: seq<Op<K, V>>): Dict<K, V> {
    if ops == [] then d else After(AfterAll(d, ops[..|ops| - 1]), ops[|ops| - 1])
  }

  /** What an operation returns; clear returns nothing of interest. */
  function Answer<K(==), V>(d: Dict<K, V>, op: Op<K, V>, none: V): V {
    if op.ClearOp? then none else Get(d, op.key, none)
  }

  function Answers<K(==), V>(d: Dict<K, V>, ops: seq<Op<K, V>>, none: V): seq<V> {
    if ops == [] then []
    else
      var rest := ops[..|ops| - 1];
      Answers(d, rest, none) + [Answer(AfterAll(d, rest), ops[|ops| - 1], none)]
  }

  /** The same operations on a plain map, with no order. */
  ghost function AfterOnMap<K, V>(m: map<K, V>, ops: seq<Op<K, V>>): map<K, V> {
    if ops == [] then m
    else
      var before := AfterOnMap(m, ops[..|ops| - 1]);
      match ops[|ops| - 1]
      case PutOp(k, v) => before[k := v]
      case GetOp(_) => before
      case RemoveOp(k) => before - {k}
      case ClearOp => map[]
  }

  /** Runs keep keys distinct and act on the denoted map as they should. */
  lemma {:induction false} RunsActOnTheMap<K, V>(d: Dict<K, V>, ops: seq<Op<K, V>>)
    requires DistinctKeys(d)
    ensures DistinctKeys(AfterAll(d, ops))
    ensures ToMap(AfterAll(d, ops)) == AfterOnMap(ToMap(d), ops)
  {
    if ops != [] {
      RunsActOnTheMap(d, ops[..|ops| - 1]);
      var before := AfterAll(d, ops[..|ops| - 1]);
      match ops[|ops| - 1]
      case PutOp(k, v) => PutIsUpdate(before, k, v);
      case GetOp(_) =>
      case RemoveOp(k) => RemoveIsRestriction(before, k);
      case ClearOp =>
    }
  }

  /** The entries are fewer than the load factor allows. */
  predicate Fits(capacity: nat, size: nat, loadFactor: real) {
    size as real < capacity as real * loadFactor
  }

  /** Fewer entries than allowed, with a growth step that is worth at least one entry. */
  ghost predicate UnderLoad(capacity: nat, size: nat, loadFactor: real) {
    Fits(capacity, size, loadFactor) && (capacity / 2) as real * loadFactor >= 1.0
  }

  lemma MoreBucketsHoldMore(a: nat, b: nat, loadFactor: real)
    requires 0.0 < loadFactor
    ensures (a + b) as real * loadFactor == a as real * loadFactor + b as real * loadFactor
    ensures b as real * loadFactor >= 0.0
  {
  }

  /** Growing by half adds at least one entry's worth of room. */
  lemma GrowingMakesRoom(capacity: nat, size: nat, loadFactor: real)
    requires 0.0 < loadFactor && UnderLoad(capacity, size, loadFactor)
    ensures UnderLoad(capacity * 3 / 2, size + 1, loadFactor)
  {
    var half := capacity / 2;
    assert capacity * 3 / 2 == capacity + half;
    MoreBucketsHoldMore(capacity, half, loadFactor);
    MoreBucketsHoldMore(half, (capacity + half) / 2 - half, loadFactor);
  }

  /** One insertion keeps the load below the factor, growing or not. */
  lemma InsertionKeepsLoad(capacity: nat, size: nat, loadFactor: real)
    requires 0.0 < loadFactor && UnderLoad(capacity, size, loadFactor)
    ensures UnderLoad(NextCapacity(capacity, size + 1, loadFactor), size + 1, loadFactor)
  {
    GrowingMakesRoom(capacity, size, loadFactor);
  }

  function CapacityAfter<K(==), V>(capacity: nat, d: Dict<K, V>, op: Op<K, V>, loadFactor: real): nat {
    if op.PutOp? && !Has(d, op.key) then NextCapacity(capacity, |d| + 1, loadFactor) else capacity
  }

  lemma OperationKeepsLoad<K, V>(capacity: nat, d: Dict<K, V>, op: Op<K, V>, loadFactor: real)
    requires 0.0 < loadFactor && UnderLoad(capacity, |d|, loadFactor)
    ensures UnderLoad(CapacityAfter(capacity, d, op, loadFactor), |After(d, op)|, loadFactor)
  {
    if op.PutOp? && !Has(d, op.key) {
      assert |After(d, op)| == |d| + 1;
      InsertionKeepsLoad(capacity, |d|, loadFactor);
    } else {
      assert |After(d, op)| <= |d|;
    }
  }

  function CapacityAfterAll<K(==), V>(capacity: nat, d: Dict<K, V>, ops: seq<Op<K, V>>, loadFactor: real): nat {
    if ops == [] then capacity
    else
      var rest := ops[..|ops| - 1];
      CapacityAfter(CapacityAfterAll(capacity, d, rest, loadFactor), AfterAll(d, rest), ops[|ops| - 1], loadFactor)
  }

  // ---------- Exactly when the load stays below the factor ----------

  /** The capacity of a table after n insertions and nothing else. */
  function Grown(capacity: nat, n: nat, loadFactor: real): nat {
    if n == 0 then capacity else NextCapacity(Grown(capacity, n - 1, loadFactor), n, loadFactor)
  }

  /** Mere insertions never overfill the table. */
  ghost predicate InsertionsFit(capacity: nat, loadFactor: real) {
    forall n: nat {:trigger Grown(capacity, n, loadFactor)} :: Fits(Grown(capacity, n, loadFactor), n, loadFactor)
  }

  /** The first few insertions do not. */
  ghost predicate FewInsertionsFit(capacity: nat, few: nat, loadFactor: real) {
    forall n: nat {:trigger Grown(capacity, n, loadFactor)} :: n <= few ==> Fits(Grown(capacity, n, loadFactor), n, loadFactor)
  }

  /** A run ends with fewer entries than the load factor allows. */
  ghost predicate RunFits<K, V>(capacity: nat, ops: seq<Op<K, V>>, loadFactor: real) {
    Fits(CapacityAfterAll(capacity, [], ops, loadFactor), |AfterAll<K, V>([], ops)|, loadFactor)
  }

  lemma MoreRoomIsNotNeeded(capacity: nat, size: nat, m: nat, loadFactor: real)
    requires size < m && Fits(capacity, m, loadFactor)
    ensures NextCapacity(capacity, size + 1, loadFactor) == capacity
  {
  }

  /** The capacity of any run is that of some number of insertions, no fewer than its entries. */
  lemma {:induction false} RunsGrowAsInsertions<K, V>(capacity: nat, ops: seq<Op<K, V>>, loadFactor: real) returns (m: nat)
    requires InsertionsFit(capacity, loadFactor)
    ensures |AfterAll<K, V>([], ops)| <= m && CapacityAfterAll(capacity, [], ops, loadFactor) == Grown(capacity, m, loadFactor)
  {
    if ops == [] {
      m := 0;
    } else {
      var rest, op := ops[..|ops| - 1], ops[|ops| - 1];
      var d := AfterAll<K, V>([], rest);
      m := RunsGrowAsInsertions(capacity, rest, loadFactor);
      assert Fits(Grown(capacity, m, loadFactor), m, loadFactor);
      if op.PutOp? && !Has(d, op.key) {
        if |d| == m {
          m := m + 1;
        } else {
          MoreRoomIsNotNeeded(Grown(capacity, m, loadFactor), |d|, m, loadFactor);
        }
      }
    }
  }

  lemma FewerFitToo(capacity: nat, size: nat, m: nat, loadFactor: real)
    requires size <= m && Fits(capacity, m, loadFactor)
    ensures Fits(capacity, size, loadFactor)
  {
  }

  /** Insertions of the first n of a supply of keys. */
  function Insertions<K, V>(keys: nat -> K, v: V, n: nat): seq<Op<K, V>> {
    if n == 0 then [] else Insertions(keys, v, n - 1) + [PutOp(keys(n - 1), v)]
  }

  ghost predicate AllDifferent<K(!new)>(keys: nat -> K) {
    forall i: nat, j: nat :: i < j ==> keys(i) != keys(j)
  }

  lemma InsertionsOneMore<K, V>(keys: nat -> K, v: V, n: nat)
    requires n > 0
    ensures var ops := Insertions(keys, v, n);
            ops[..|ops| - 1] == Insertions(keys, v, n - 1) && ops[|ops| - 1] == PutOp(keys(n - 1), v)
  {
  }

  /** Every insertion of a new key appends it. */
  lemma {:induction false} InsertionsAppend<K(!new), V>(keys: nat -> K, v: V, n: nat)
    requires AllDifferent(keys)
    ensures var d := AfterAll([], Insertions(keys, v, n));
            |d| == n && !Has(d, keys(n)) && forall i :: 0 <= i < n ==> d[i].0 == keys(i)
  {
    if n > 0 {
      InsertionsAppend(keys, v, n - 1);
      InsertionsOneMore(keys, v, n);
    }
  }

  lemma CapacityOneMore<K, V>(capacity: nat, ops: seq<Op<K, V>>, k: K, v: V, loadFactor: real)
    requires !Has(AfterAll([], ops), k)
    ensures CapacityAfterAll(capacity, [], ops + [PutOp(k, v)], loadFactor)
         == NextCapacity(CapacityAfterAll(capacity, [], ops, loadFactor), |AfterAll([], ops)| + 1, loadFactor)
  {
    assert (ops + [PutOp(k, v)])[..|ops|] == ops;
  }

  lemma {:induction false} InsertionsGrow<K(!new), V>(capacity: nat, keys: nat -> K, v: V, n: nat, loadFactor: real)
    requires AllDifferent(keys)
    ensures CapacityAfterAll(capacity, [], Insertions(keys, v, n), loadFactor) == Grown(capacity, n, loadFactor)
  {
    if n > 0 {
      InsertionsGrow(capacity, keys, v, n - 1, loadFactor);
      InsertionsAppend(keys, v, n - 1);
      CapacityOneMore(capacity, Insertions(keys, v, n - 1), keys(n - 1), v, loadFactor);
    }
  }

  /** No run ever leaves the table as full as its load factor if and only if mere insertions never do.
      The key type needs an endless supply of keys. */
  lemma LoadStaysBelowExactly<K(!new), V(!new)>(capacity: nat, loadFactor: real, keys: nat -> K, v: V)
    requires AllDifferent(keys)
    ensures (forall ops: seq<Op<K, V>> :: RunFits(capacity, ops, loadFactor)) <==> InsertionsFit(capacity, loadFactor)
  {
    if InsertionsFit(capacity, loadFactor) {
      forall ops: seq<Op<K, V>> ensures RunFits(capacity, ops, loadFactor) {
        RunsFit(capacity, ops, loadFactor);
      }
    }
    if forall ops: seq<Op<K, V>> :: RunFits(capacity, ops, loadFactor) {
      forall n: nat ensures Fits(Grown(capacity, n, loadFactor), n, loadFactor) {
        InsertionsAppend(keys, v, n);
        InsertionsGrow(capacity, keys, v, n, loadFactor);
        assert RunFits(capacity, Insertions(keys, v, n), loadFactor);
      }
    }
  }

  lemma RunsFit<K, V>(capacity: nat, ops: seq<Op<K, V>>, loadFactor: real)
    requires InsertionsFit(capacity, loadFactor)
    ensures RunFits(capacity, ops, loadFactor)
  {
    var m := RunsGrowAsInsertions(capacity, ops, loadFactor);
    assert Fits(Grown(capacity, m, loadFactor), m, loadFactor);
    FewerFitToo(Grown(capacity, m, loadFactor), |AfterAll<K, V>([], ops)|, m, loadFactor);
  }

  lemma {:induction false} GrowthKeepsRoom(capacity: nat, start: nat, n: nat, loadFactor: real)
    requires 0.0 < loadFactor && start <= n && UnderLoad(Grown(capacity, start, loadFactor), start, loadFactor)
    ensures UnderLoad(Grown(capacity, n, loadFactor), n, loadFactor)
  {
    if start < n {
      GrowthKeepsRoom(capacity, start, n - 1, loadFactor);
      InsertionKeepsLoad(Grown(capacity, n - 1, loadFactor), n - 1, loadFactor);
    }
  }

  /** It is enough to look at the insertions up to the first from which a growth step is worth an entry. */
  lemma FewInsertionsDecide(capacity: nat, few: nat, loadFactor: real)
    requires 0.0 < loadFactor && (Grown(capacity, few, loadFactor) / 2) as real * loadFactor >= 1.0
    ensures InsertionsFit(capacity, loadFactor) <==> FewInsertionsFit(capacity, few, loadFactor)
  {
    if FewInsertionsFit(capacity, few, loadFactor) {
      forall n: nat ensures Fits(Grown(capacity, n, loadFactor), n, loadFactor) {
        if few <= n {
          GrowthKeepsRoom(capacity, few, n, loadFactor);
        }
      }
    }
  }

  /** From wherever a growth step is worth an entry, no run ever leaves the table as full as its load
      factor. */
  lemma {:induction false} RunsKeepLoad<K, V>(capacity: nat, d: Dict<K, V>, ops: seq<Op<K, V>>, loadFactor: real)
    requires 0.0 < loadFactor && UnderLoad(capacity, |d|, loadFactor)
    ensures UnderLoad(CapacityAfterAll(capacity, d, ops, loadFactor), |AfterAll(d, ops)|, loadFactor)
  {
    if ops != [] {
      var rest := ops[..|ops| - 1];
      RunsKeepLoad(capacity, d, rest, loadFactor);
      OperationKeepsLoad(CapacityAfterAll(capacity, d, rest, loadFactor), AfterAll(d, rest), ops[|ops| - 1], loadFactor);
    }
  }

  /** The bound the defaults meet: 64 buckets and a load factor of four fifths. */
  lemma DefaultsKeepLoad<K, V>(ops: seq<Op<K, V>>)
    ensures |AfterAll([], ops)| as real < CapacityAfterAll(64, [], ops, 0.8) as real * 0.8
  {
    RunsKeepLoad(64, [], ops, 0.8);
  }

  /** Two buckets at nine tenths meet it too, although their first growth step is worth less than an
      entry. */
  lemma TwoBucketsKeepLoad<K, V>(ops: seq<Op<K, V>>)
    ensures |AfterAll([], ops)| as real < CapacityAfterAll(2, [], ops, 0.9) as real * 0.9
  {
    assert Grown(2, 1, 0.9) == 2 && Grown(2, 2, 0.9) == 3 && Grown(2, 3, 0.9) == 4;
    FewInsertionsDecide(2, 3, 0.9);
    RunsFit(2, ops, 0.9);
  }

  /** Two buckets at one half do not: two insertions make four buckets, and overload them. */
  lemma TwoInsertionsOverload<K, V>(a: K, b: K, v: V)
    requires a != b
    ensures var ops := [PutOp(a, v), PutOp(b, v)];
            && AfterAll([], ops) == [(a, v), (b, v)] && CapacityAfterAll(2, [], ops, 0.5) == 4
            && !RunFits(2, ops, 0.5)
  {
    var ops: seq<Op<K, V>> := [PutOp(a, v), PutOp(b, v)];
    assert ops[..1] == [PutOp(a, v)] && ops[..1][..0] == [];
    assert AfterAll([], ops[..1]) == [(a, v)] && CapacityAfterAll(2, [], ops[..1], 0.5) == 3;
  }

  /** A table of one bucket never grows, so that the first insertion overloads it. */
  lemma {:induction false} OneBucketOverloads(n: nat, loadFactor: real)
    requires 0.0 < loadFactor <= 1.0
    ensures Grown(1, n, loadFactor) == 1 && (n > 0 ==> !Fits(Grown(1, n, loadFactor), n, loadFactor))
  {
    if n > 0 {
      OneBucketOverloads(n - 1, loadFactor);
    }
  }

  /** Executes a sequence of operations on a table. */
  method Run<K(==), V(==)>(t: LinkedHashTable<K, V>, ops: seq<Op<K, V>>) returns (answers: seq<V>)
    requires t.Valid()
    modifies t, t.buckets, t.order
    ensures t.Valid() && t.Contents() == AfterAll(old(t.Contents()), ops)
    ensures answers == Answers(old(t.Contents()), ops, t.none)
    ensures t.size == |t.Contents()| && t.capacity == CapacityAfterAll(old(t.capacity), old(t.Contents()), ops, t.loadFactor)
  {
    answers := [];
    ghost var d := t.Contents();
    for i := 0 to |ops|
      invariant t.Valid() && t.Contents() == AfterAll(d, ops[..i])
      invariant t.buckets == old(t.buckets) || fresh(t.buckets)
      invariant forall k :: 0 <= k < |t.order| ==> t.order[k] in old(t.order) || fresh(t.order[k])
      invariant answers == Answers(d, ops[..i], t.none)
      invariant t.capacity == CapacityAfterAll(old(t.capacity), d, ops[..i], t.loadFactor)
    {
      assert ops[..i + 1][..i] == ops[..i];
      var answer := Step(t, ops[i]);
      answers := answers + [answer];
    }
    assert ops[..|ops|] == ops;
  }

  /** One operation on a table. */
  method Step<K(==), V(==)>(t: LinkedHashTable<K, V>, op: Op<K, V>) returns (answer: V)
    requires t.Valid()
    modifies t, t.buckets, t.order
    ensures t.Valid() && t.Contents() == After(old(t.Contents()), op)
    ensures answer == Answer(old(t.Contents()), op, t.none)
    ensures t.buckets == old(t.buckets) || fresh(t.buckets)
    ensures forall k :: 0 <= k < |t.order| ==> t.order[k] in old(t.order) || fresh(t.order[k])
    ensures t.capacity == CapacityAfter(old(t.capacity), old(t.Contents()), op, t.loadFactor)
  {
    answer := t.none;
    match op
    case PutOp(k, v) => answer := t.Put(k, v);
    case GetOp(k) => answer := t.Get(k);
    case RemoveOp(k) => answer := t.Remove(k);
    case ClearOp => t.Clear();
  }
}
