/** Collecting named groups into buckets by some key of theirs, as two of the grouping steps do. */
module GroupBuckets {
  import opened Sequences
  import opened OrderedDicts
  import opened DictContents

  type Groups<F> = Dict<string, seq<F>>

  /** The named groups sharing one key, in order. */
  type Bucket<K, F> = (K, Groups<F>)

  type KeyOf<!F, K> = ((string, seq<F>)) -> K

  function Concat<F>(groups: Groups<F>): seq<F> {
    if groups == [] then [] else Concat(groups[..|groups| - 1]) + groups[|groups| - 1].1
  }

  lemma {:induction false} ConcatHoldsContents<F>(groups: Groups<F>)
    ensures multiset(Concat(groups)) == Contents(groups)
  {
    if groups != [] {
      ConcatHoldsContents(groups[..|groups| - 1]);
    }
  }

  /** Buckets in order of first appearance of their keys. */
  function Buckets<K(==), F>(groups: Groups<F>, keyOf: KeyOf<F, K>): seq<Bucket<K, F>> {
    if groups == [] then []
    else
      var rest, last := Buckets(groups[..|groups| - 1], keyOf), groups[|groups| - 1];
      Put(rest, keyOf(last), Get(rest, keyOf(last), []) + [last])
  }

  /** Distinctly named groups, all with this key. */
  ghost predicate BucketOk<K, F>(b: Bucket<K, F>, keyOf: KeyOf<F, K>) {
    && b.1 != [] && DistinctKeys(b.1)
    && forall i :: 0 <= i < |b.1| ==> keyOf(b.1[i]) == b.0
  }

  ghost predicate BucketsOk<K, F>(buckets: seq<Bucket<K, F>>, keyOf: KeyOf<F, K>) {
    && DistinctKeys(buckets)
    && forall i {:trigger BucketOk(buckets[i], keyOf)} :: 0 <= i < |buckets| ==> BucketOk(buckets[i], keyOf)
  }

  /** The names inside a bucket are among the given ones. */
  ghost predicate Within<K, F>(b: Bucket<K, F>, names: set<string>) {
    forall i :: 0 <= i < |b.1| ==> b.1[i].0 in names
  }

  lemma {:induction false} BucketsAreOk<K, F>(groups: Groups<F>, keyOf: KeyOf<F, K>)
    requires DistinctKeys(groups)
    ensures BucketsOk(Buckets(groups, keyOf), keyOf)
    ensures forall i :: 0 <= i < |Buckets(groups, keyOf)| ==> Within(Buckets(groups, keyOf)[i], KeySet(groups))
  {
    if groups != [] {
      var init, last := groups[..|groups| - 1], groups[|groups| - 1];
      BucketsAreOk(init, keyOf);
      var rest, key := Buckets(init, keyOf), keyOf(last);
      PutKeepsDistinct(rest, key, Get(rest, key, []) + [last]);
      assert last.0 !in KeySet(init);
      var p := Position(rest, key);
      if p < |rest| {
        assert BucketOk(rest[p], keyOf) && Within(rest[p], KeySet(init));
      }
      forall i | 0 <= i < |Buckets(groups, keyOf)|
        ensures BucketOk(Buckets(groups, keyOf)[i], keyOf) && Within(Buckets(groups, keyOf)[i], KeySet(groups)) {
        if i < |rest| {
          assert BucketOk(rest[i], keyOf) && Within(rest[i], KeySet(init));
        }
        KeysGrow(groups);
      }
    }
  }

  lemma KeysGrow<F>(groups: Groups<F>)
    requires groups != []
    ensures KeySet(groups) == KeySet(groups[..|groups| - 1]) + {groups[|groups| - 1].0}
  {
    var init, last := groups[..|groups| - 1], groups[|groups| - 1];
    assert groups == init + [last];
    forall k ensures k in KeySet(groups) <==> k in KeySet(init) + {last.0} {
      if k in KeySet(init) {
        var i :| 0 <= i < |init| && init[i].0 == k;
        assert groups[i].0 == k;
      }
    }
  }

  /** The buckets' groups put together, bucket by bucket. */
  ghost function Flat<K, F>(buckets: seq<Bucket<K, F>>): Dict<K, seq<F>> {
    seq(|buckets|, i requires 0 <= i < |buckets| => (buckets[i].0, Concat(buckets[i].1)))
  }

  lemma FlatPut<K, F>(buckets: seq<Bucket<K, F>>, key: K, members: Groups<F>)
    ensures Flat(Put(buckets, key, members)) == Put(Flat(buckets), key, Concat(members))
  {
    FirstAt(Flat(buckets), key, Position(buckets, key));
  }

  lemma FlatGet<K, F>(buckets: seq<Bucket<K, F>>, key: K)
    ensures Get(Flat(buckets), key, []) == Concat(Get(buckets, key, []))
  {
    FirstAt(Flat(buckets), key, Position(buckets, key));
  }

  lemma ConcatMore<F>(members: Groups<F>, last: (string, seq<F>))
    ensures Concat(members + [last]) == Concat(members) + last.1
    ensures multiset(Concat(members + [last])) == multiset(Concat(members)) + multiset(last.1)
  {
    assert (members + [last])[..|members|] == members;
  }

  /** Bucketing loses no file. */
  lemma {:induction false} BucketsHoldEverything<K, F>(groups: Groups<F>, keyOf: KeyOf<F, K>)
    ensures Contents(Flat(Buckets(groups, keyOf))) == Contents(groups)
  {
    if groups != [] {
      var init, last := groups[..|groups| - 1], groups[|groups| - 1];
      BucketsHoldEverything(init, keyOf);
      var rest, key := Buckets(init, keyOf), keyOf(last);
      var members := Get(rest, key, []);
      FlatPut(rest, key, members + [last]);
      FlatGet(rest, key);
      ContentsOfPut(Flat(rest), key, Concat(members + [last]));
      ConcatMore(members, last);
      Cancel(Contents(Flat(Buckets(groups, keyOf))), Contents(Flat(rest)), multiset(Concat(members)), multiset(last.1));
    }
  }

  lemma FlatGrows<K, F>(buckets: seq<Bucket<K, F>>, m: nat)
    requires m < |buckets|
    ensures Contents(Flat(buckets[..m + 1])) == Contents(Flat(buckets[..m])) + multiset(Concat(buckets[m].1))
  {
    assert Flat(buckets[..m + 1])[..m] == Flat(buckets[..m]);
  }
}
