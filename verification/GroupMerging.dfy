/** Merging groups whose names differ only in a numbered suffix. */
module GroupMerging {
  import opened Sequences
  import opened OrderedDicts
  import opened DictContents
  import opened GroupBuckets
  import opened GroupNames

  type BaseBucket<F> = Bucket<string, F>

  function ByBase<F>(): KeyOf<F, string> {
    (group: (string, seq<F>)) => BaseName(group.0)
  }

  /** Groups by base name. */
  function BaseBuckets<F>(groups: Groups<F>): seq<BaseBucket<F>> {
    Buckets(groups, ByBase())
  }

  /** Writes one bucket into the merged groups: several groups under a fresh form of the base name,
      a lone group under its own name whatever is there. */
  ghost function MergeStep<F>(merged: Groups<F>, bucket: BaseBucket<F>): Groups<F> {
    if |bucket.1| > 1 then Put(merged, UniqueName(bucket.0, KeySet(merged)), Concat(bucket.1))
    else if |bucket.1| == 1 then Put(merged, bucket.1[0].0, bucket.1[0].1)
    else merged
  }

  ghost function MergeAll<F>(buckets: seq<BaseBucket<F>>): Groups<F> {
    if buckets == [] then [] else MergeStep(MergeAll(buckets[..|buckets| - 1]), buckets[|buckets| - 1])
  }

  method GroupByBase<F>(groups: Groups<F>) returns (buckets: seq<BaseBucket<F>>)
    ensures buckets == BaseBuckets(groups)
  {
    buckets := [];
    for i := 0 to |groups|
      invariant buckets == BaseBuckets(groups[..i])
    {
      var base := BaseName(groups[i].0);
      buckets := Put(buckets, base, Get(buckets, base, []) + [groups[i]]);
      assert groups[..i + 1][..i] == groups[..i];
    }
    TakeAll(groups);
  }

  method MergeSimilarGroupNames<F>(groups: Groups<F>) returns (merged: Groups<F>)
    ensures merged == MergeAll(BaseBuckets(groups))
  {
    if |groups| <= 1 {
      FewGroupsStay(groups);
      return groups;
    }
    var buckets := GroupByBase(groups);
    merged := [];
    for i := 0 to |buckets|
      invariant merged == MergeAll(buckets[..i])
    {
      var base, members := buckets[i].0, buckets[i].1;
      assert buckets[..i + 1][..i] == buckets[..i];
      if |members| > 1 {
        var files := [];
        for j := 0 to |members|
          invariant files == Concat(members[..j])
        {
          assert members[..j + 1][..j] == members[..j];
          files := files + members[j].1;
        }
        TakeAll(members);
        var name, _ := EnsureUniqueGroupName(base, merged);
        merged := Put(merged, name, files);
      } else if |members| == 1 {
        merged := Put(merged, members[0].0, members[0].1);
      }
    }
    TakeAll(buckets);
  }

  lemma FewGroupsStay<F>(groups: Groups<F>)
    requires |groups| <= 1
    ensures MergeAll(BaseBuckets(groups)) == groups
  {
    if |groups| == 1 {
      var base := BaseName(groups[0].0);
      assert groups[..0] == [] && BaseBuckets(groups[..0]) == [];
      var buckets: seq<BaseBucket<F>> := Put([], base, Get([], base, []) + [groups[0]]);
      assert BaseBuckets(groups) == buckets;
      assert buckets[..0] == [] && buckets[0].1 == [groups[0]];
      assert MergeAll(buckets) == MergeStep([], buckets[0]);
    }
  }

  // ---------- When merging loses files, exactly ----------

  predicate Shared<F>(b: BaseBucket<F>) {
    |b.1| > 1
  }

  predicate Lone<F>(b: BaseBucket<F>) {
    |b.1| == 1
  }

  /** Bucket j holds one group, whose name is the base under which bucket i, met earlier, was merged. */
  ghost predicate Clobbers<F>(buckets: seq<BaseBucket<F>>, i: nat, j: nat)
    requires i < |buckets| && j < |buckets|
  {
    && i < j && Shared(buckets[i]) && Lone(buckets[j])
    && buckets[j].1[0].0 == buckets[i].0 && Concat(buckets[i].1) != []
  }

  /** Merging will overwrite a merged group that holds files. */
  ghost predicate SomeGroupIsClobbered<F>(groups: Groups<F>) {
    exists i, j :: 0 <= i < j < |BaseBuckets(groups)| && Clobbers(BaseBuckets(groups), i, j)
  }

  /** The key that bucket i is written under. */
  ghost function Written<F>(buckets: seq<BaseBucket<F>>, i: nat): string
    requires i < |buckets| && buckets[i].1 != []
  {
    if Shared(buckets[i]) then UniqueName(buckets[i].0, KeySet(MergeAll(buckets[..i]))) else buckets[i].1[0].0
  }

  /** Several names with one base: one is numbered, so numbering the base again keeps the base. */
  lemma SharedBaseTakesSuffixes<F>(b: BaseBucket<F>, k: nat)
    requires BucketOk(b, ByBase()) && Shared(b)
    ensures BaseName(Suffixed(b.0, k)) == b.0
  {
    assert b.1[0].0 != b.1[1].0;
    if IsNumbered(b.1[0].0) {
      BasesTakeSuffixes(b.1[0].0, k);
    } else {
      BasesTakeSuffixes(b.1[1].0, k);
    }
  }

  lemma UniqueNameForm(name: string, used: set<string>) returns (k: nat)
    ensures UniqueName(name, used) == name || UniqueName(name, used) == Suffixed(name, k)
    ensures UniqueName(name, used) !in used
  {
    k := FirstUnusedIsUnused(name, used, 1);
  }

  /** Only a merged bucket can share its key with a lone group, and only as its plain base name. */
  lemma OnlySharedBucketsCollide<F>(buckets: seq<BaseBucket<F>>, i: nat, j: nat)
    requires BucketsOk(buckets, ByBase()) && i < |buckets| && j < |buckets| && i != j
    requires BucketOk(buckets[i], ByBase()) && BucketOk(buckets[j], ByBase()) && Lone(buckets[j])
    requires Written(buckets, i) == buckets[j].1[0].0
    ensures Shared(buckets[i]) && buckets[i].0 == buckets[j].1[0].0
  {
    assert buckets[i].0 != buckets[j].0;
    if Shared(buckets[i]) {
      var k := UniqueNameForm(buckets[i].0, KeySet(MergeAll(buckets[..i])));
      SharedBaseTakesSuffixes(buckets[i], k);
    }
  }

  /** The merged keys are those the buckets were written under. */
  lemma {:induction false} KeysAreWritten<F>(buckets: seq<BaseBucket<F>>, m: nat, key: string)
    requires BucketsOk(buckets, ByBase()) && m <= |buckets| && key in KeySet(MergeAll(buckets[..m]))
    ensures exists i :: 0 <= i < m && BucketOk(buckets[i], ByBase()) && Written(buckets, i) == key
    decreases m
  {
    if m > 0 {
      assert buckets[..m][..m - 1] == buckets[..m - 1];
      assert BucketOk(buckets[m - 1], ByBase());
      var before := MergeAll(buckets[..m - 1]);
      assert MergeAll(buckets[..m]) == MergeStep(before, buckets[m - 1]);
      var b := buckets[m - 1];
      PutKeySet(before, Written(buckets, m - 1), if Shared(b) then Concat(b.1) else b.1[0].1);
      if key != Written(buckets, m - 1) {
        KeysAreWritten(buckets, m - 1, key);
      }
    }
  }

  lemma MergeStepIsPut<F>(buckets: seq<BaseBucket<F>>, m: nat)
    requires BucketsOk(buckets, ByBase()) && m < |buckets|
    ensures BucketOk(buckets[m], ByBase())
    ensures MergeAll(buckets[..m + 1]) == Put(MergeAll(buckets[..m]), Written(buckets, m), Concat(buckets[m].1))
  {
    assert BucketOk(buckets[m], ByBase());
    assert buckets[..m + 1][..m] == buckets[..m];
    var b := buckets[m];
    if Lone(b) {
      assert b.1[..0] == [];
      assert Concat(b.1) == b.1[0].1;
    }
  }

  /** A shared bucket is written under a key that is not there yet. */
  lemma SharedKeysAreFresh<F>(buckets: seq<BaseBucket<F>>, m: nat)
    requires m < |buckets| && Shared(buckets[m])
    ensures Written(buckets, m) !in KeySet(MergeAll(buckets[..m]))
  {
    var _ := UniqueNameForm(buckets[m].0, KeySet(MergeAll(buckets[..m])));
  }

  lemma WritingStores<F>(buckets: seq<BaseBucket<F>>, m: nat)
    requires BucketsOk(buckets, ByBase()) && m < |buckets| && BucketOk(buckets[m], ByBase())
    ensures Has(MergeAll(buckets[..m + 1]), Written(buckets, m))
    ensures Get(MergeAll(buckets[..m + 1]), Written(buckets, m), []) == Concat(buckets[m].1)
  {
    MergeStepIsPut(buckets, m);
    GetAfterPut(MergeAll(buckets[..m]), Written(buckets, m), Concat(buckets[m].1), Written(buckets, m));
  }

  /** Writing a bucket leaves a present key alone, unless the bucket is a lone group of that name. */
  lemma WritingSpares<F>(buckets: seq<BaseBucket<F>>, m: nat, key: string)
    requires BucketsOk(buckets, ByBase()) && m < |buckets| && BucketOk(buckets[m], ByBase())
    requires Has(MergeAll(buckets[..m]), key)
    requires Lone(buckets[m]) ==> buckets[m].1[0].0 != key
    ensures Has(MergeAll(buckets[..m + 1]), key)
    ensures Get(MergeAll(buckets[..m + 1]), key, []) == Get(MergeAll(buckets[..m]), key, [])
  {
    MergeStepIsPut(buckets, m);
    HasIsMembership(MergeAll(buckets[..m]), key);
    if Shared(buckets[m]) {
      SharedKeysAreFresh(buckets, m);
    }
    GetAfterPut(MergeAll(buckets[..m]), Written(buckets, m), Concat(buckets[m].1), key);
  }

  /** A merged group keeps its files until a lone group of that name is written. */
  lemma {:induction false} ValueStays<F>(buckets: seq<BaseBucket<F>>, i: nat, m: nat)
    requires BucketsOk(buckets, ByBase()) && i < m <= |buckets| && BucketOk(buckets[i], ByBase()) && Shared(buckets[i])
    requires forall j :: i < j < m && Lone(buckets[j]) ==> buckets[j].1[0].0 != Written(buckets, i)
    ensures Get(MergeAll(buckets[..m]), Written(buckets, i), []) == Concat(buckets[i].1)
    ensures Has(MergeAll(buckets[..m]), Written(buckets, i))
    decreases m
  {
    var k, key := m - 1, Written(buckets, i);
    assert BucketOk(buckets[k], ByBase());
    if i == k {
      WritingStores(buckets, k);
    } else {
      ValueStays(buckets, i, k);
      WritingSpares(buckets, k, key);
    }
  }

  /** What the m-th bucket overwrites: nothing, unless it is a lone group clobbering an earlier merge. */
  lemma LostIsClobbered<F>(buckets: seq<BaseBucket<F>>, m: nat)
    requires BucketsOk(buckets, ByBase()) && m < |buckets| && BucketOk(buckets[m], ByBase())
    requires Get(MergeAll(buckets[..m]), Written(buckets, m), []) != []
    ensures exists i :: 0 <= i < m && Clobbers(buckets, i, m)
  {
    var before, key := MergeAll(buckets[..m]), Written(buckets, m);
    HasIsMembership(before, key);
    if Shared(buckets[m]) {
      SharedKeysAreFresh(buckets, m);
    } else {
      KeysAreWritten(buckets, m, key);
      var i :| 0 <= i < m && BucketOk(buckets[i], ByBase()) && Written(buckets, i) == key;
      OnlySharedBucketsCollide(buckets, i, m);
      LoneNamesDiffer(buckets, m);
      ValueStays(buckets, i, m);
      assert Clobbers(buckets, i, m);
    }
  }

  lemma LoneNamesDiffer<F>(buckets: seq<BaseBucket<F>>, m: nat)
    requires BucketsOk(buckets, ByBase()) && m < |buckets| && Lone(buckets[m])
    ensures forall j :: 0 <= j < m && Lone(buckets[j]) ==> buckets[j].1[0].0 != buckets[m].1[0].0
  {
    assert BucketOk(buckets[m], ByBase());
    forall j | 0 <= j < m && Lone(buckets[j]) ensures buckets[j].1[0].0 != buckets[m].1[0].0 {
      assert BucketOk(buckets[j], ByBase()) && buckets[j].0 != buckets[m].0;
    }
  }

  lemma ClobberedIsLost<F>(buckets: seq<BaseBucket<F>>, i: nat, m: nat)
    requires BucketsOk(buckets, ByBase()) && i < m < |buckets| && BucketOk(buckets[i], ByBase()) && BucketOk(buckets[m], ByBase())
    requires Clobbers(buckets, i, m)
    ensures Get(MergeAll(buckets[..m]), Written(buckets, m), []) == Concat(buckets[i].1) != []
  {
    var base := buckets[i].0;
    if base in KeySet(MergeAll(buckets[..i])) {
      KeysAreWritten(buckets, i, base);
      var l :| 0 <= l < i && BucketOk(buckets[l], ByBase()) && Written(buckets, l) == base;
      OnlySharedBucketsCollide(buckets, l, m);
      assert false;
    }
    LoneNamesDiffer(buckets, m);
    ValueStays(buckets, i, m);
  }

  ghost predicate ClobberedBy<F>(buckets: seq<BaseBucket<F>>, m: nat)
    requires m <= |buckets|
  {
    exists i, j :: 0 <= i < j < m && Clobbers(buckets, i, j)
  }

  lemma LossAtStep<F>(buckets: seq<BaseBucket<F>>, m: nat)
    requires BucketsOk(buckets, ByBase()) && m < |buckets| && BucketOk(buckets[m], ByBase())
    ensures var lost := Get(MergeAll(buckets[..m]), Written(buckets, m), []);
            ClobberedBy(buckets, m + 1) <==> ClobberedBy(buckets, m) || lost != []
  {
    var lost := Get(MergeAll(buckets[..m]), Written(buckets, m), []);
    if lost != [] {
      LostIsClobbered(buckets, m);
    }
    if ClobberedBy(buckets, m + 1) && !ClobberedBy(buckets, m) {
      var i, j :| 0 <= i < j < m + 1 && Clobbers(buckets, i, j);
      assert BucketOk(buckets[i], ByBase());
      ClobberedIsLost(buckets, i, m);
    }
  }

  /** After m buckets, files are lost exactly when some clobbering has happened. */
  ghost predicate BalancedAt<F>(buckets: seq<BaseBucket<F>>, m: nat)
    requires m <= |buckets|
  {
    Balanced(ClobberedBy(buckets, m), Contents(MergeAll(buckets[..m])), Contents(Flat(buckets[..m])))
  }

  lemma BalancedAtStart<F>(buckets: seq<BaseBucket<F>>)
    ensures BalancedAt(buckets, 0)
  {
    assert buckets[..0] == [];
  }

  lemma LossStep<F>(buckets: seq<BaseBucket<F>>, m: nat)
    requires BucketsOk(buckets, ByBase()) && m < |buckets| && BucketOk(buckets[m], ByBase()) && BalancedAt(buckets, m)
    ensures BalancedAt(buckets, m + 1)
  {
    var before, added := MergeAll(buckets[..m]), Concat(buckets[m].1);
    var lost := Get(before, Written(buckets, m), []);
    MergeStepIsPut(buckets, m);
    ContentsOfPut(before, Written(buckets, m), added);
    FlatGrows(buckets, m);
    LossAtStep(buckets, m);
    BalanceStep(ClobberedBy(buckets, m), Contents(before), Contents(Flat(buckets[..m])),
                multiset(lost), multiset(added), Contents(MergeAll(buckets[..m + 1])));
  }

  lemma {:induction false} LossIsExact<F>(buckets: seq<BaseBucket<F>>, m: nat)
    requires BucketsOk(buckets, ByBase()) && m <= |buckets|
    ensures BalancedAt(buckets, m)
    decreases m
  {
    if m == 0 {
      BalancedAtStart(buckets);
    } else {
      assert BucketOk(buckets[m - 1], ByBase());
      LossIsExact(buckets, m - 1);
      LossStep(buckets, m - 1);
    }
  }

  /** Merging conserves the files of distinctly named groups if and only if no group's name is the only
      one with its base while also being the base under which others, met earlier, were merged. */
  lemma MergingConservesExactlyUnlessClobbered<F>(groups: Groups<F>)
    requires DistinctKeys(groups)
    ensures Contents(MergeAll(BaseBuckets(groups))) == Contents(groups) <==> !SomeGroupIsClobbered(groups)
  {
    var buckets := BaseBuckets(groups);
    BucketsAreOk(groups, ByBase<F>());
    BucketsHoldEverything(groups, ByBase<F>());
    TakeAll(buckets);
    LossIsExact(buckets, |buckets|);
  }

  /** The groups' base names are their own bases. */
  ghost predicate BasesAreBases<F>(groups: Groups<F>) {
    forall n {:trigger BaseName(BaseName(n))} :: n in KeySet(groups) ==> BaseName(BaseName(n)) == BaseName(n)
  }

  /** A lone group named like another bucket's base shows a base name that is not its own base. */
  lemma CollisionNeedsUnevenBases<F>(groups: Groups<F>, i: nat, j: nat)
    requires DistinctKeys(groups) && i < |BaseBuckets(groups)| && j < |BaseBuckets(groups)| && i != j
    requires Lone(BaseBuckets(groups)[j]) && BaseBuckets(groups)[j].1[0].0 == BaseBuckets(groups)[i].0
    ensures !BasesAreBases(groups)
  {
    var buckets := BaseBuckets(groups);
    BucketsAreOk(groups, ByBase<F>());
    assert BucketOk(buckets[i], ByBase()) && BucketOk(buckets[j], ByBase()) && Within(buckets[i], KeySet(groups));
    var n := buckets[i].1[0].0;
    assert n in KeySet(groups) && BaseName(n) == buckets[i].0 && BaseName(BaseName(n)) == buckets[j].0;
  }

  /** Where taking the base name twice gives nothing new, merging conserves every file and leaves
      exactly one group per base name. */
  lemma IdempotentBasesConserve<F>(groups: Groups<F>)
    requires DistinctKeys(groups) && BasesAreBases(groups)
    ensures Contents(MergeAll(BaseBuckets(groups))) == Contents(groups)
    ensures |MergeAll(BaseBuckets(groups))| == |BaseBuckets(groups)|
  {
    var buckets := BaseBuckets(groups);
    forall i: nat, j: nat | i < j < |buckets| ensures !Clobbers(buckets, i, j) {
      if Clobbers(buckets, i, j) {
        CollisionNeedsUnevenBases(groups, i, j);
      }
    }
    MergingConservesExactlyUnlessClobbered(groups);
    BucketsAreOk(groups, ByBase<F>());
    TakeAll(buckets);
    OneGroupPerBase(groups, |buckets|);
  }

  lemma FreshKey<F>(groups: Groups<F>, m: nat)
    requires DistinctKeys(groups) && BasesAreBases(groups) && m < |BaseBuckets(groups)|
    requires BucketsOk(BaseBuckets(groups), ByBase()) && BucketOk(BaseBuckets(groups)[m], ByBase())
    ensures Written(BaseBuckets(groups), m) !in KeySet(MergeAll(BaseBuckets(groups)[..m]))
  {
    var buckets := BaseBuckets(groups);
    var before, key := MergeAll(buckets[..m]), Written(buckets, m);
    if Shared(buckets[m]) {
      SharedKeysAreFresh(buckets, m);
    } else if key in KeySet(before) {
      KeysAreWritten(buckets, m, key);
      var i :| 0 <= i < m && BucketOk(buckets[i], ByBase()) && Written(buckets, i) == key;
      OnlySharedBucketsCollide(buckets, i, m);
      CollisionNeedsUnevenBases(groups, i, m);
    }
  }

  lemma {:induction false} OneGroupPerBase<F>(groups: Groups<F>, m: nat)
    requires DistinctKeys(groups) && BasesAreBases(groups) && m <= |BaseBuckets(groups)| && BucketsOk(BaseBuckets(groups), ByBase())
    ensures |MergeAll(BaseBuckets(groups)[..m])| == m
    decreases m
  {
    if m > 0 {
      OneGroupPerBase(groups, m - 1);
      MergeStepIsPut(BaseBuckets(groups), m - 1);
      FreshKey(groups, m - 1);
      HasIsMembership(MergeAll(BaseBuckets(groups)[..m - 1]), Written(BaseBuckets(groups), m - 1));
    }
  }

  lemma DoublyNumberedNames()
    ensures BaseName("A (1) (2)") == "A (1)" && BaseName("A (1) (3)") == "A (1)" && BaseName("A (1)") == "A"
  {
    assert Suffixed("A", 1) == "A (1)" && Suffixed("A (1)", 2) == "A (1) (2)" && Suffixed("A (1)", 3) == "A (1) (3)";
    SuffixedHasBase("A", 1);
    SuffixedHasBase("A (1)", 2);
    SuffixedHasBase("A (1)", 3);
  }

  /** Without that hypothesis files are lost: two groups numbered twice over, then one numbered once. */
  lemma DoublyNumberedGroupsAreLost<F>(first: seq<F>, second: seq<F>, third: seq<F>)
    requires first != [] || second != []
    ensures var groups := [("A (1) (2)", first), ("A (1) (3)", second), ("A (1)", third)];
            SomeGroupIsClobbered(groups) && Contents(MergeAll(BaseBuckets(groups))) != Contents(groups)
  {
    var groups := [("A (1) (2)", first), ("A (1) (3)", second), ("A (1)", third)];
    DoublyNumberedNames();
    DoublyNumberedBuckets(groups);
    ConcatOfTwo(groups[0], groups[1]);
    assert Clobbers(BaseBuckets(groups), 0, 1);
    MergingConservesExactlyUnlessClobbered(groups);
  }

  lemma ConcatOfTwo<F>(a: (string, seq<F>), b: (string, seq<F>))
    ensures Concat([a, b]) == a.1 + b.1
  {
    assert [a, b][..1] == [a] && [a][..0] == [];
    assert Concat([a]) == a.1;
  }

  lemma DoublyNumberedBuckets<F>(groups: Groups<F>)
    requires |groups| == 3 && BaseName(groups[0].0) == BaseName(groups[1].0) != BaseName(groups[2].0)
    ensures BaseBuckets(groups) == [(BaseName(groups[0].0), [groups[0], groups[1]]), (BaseName(groups[2].0), [groups[2]])]
  {
    assert groups[..2][..1] == groups[..1] && groups[..1][..0] == [];
    NewBucket(groups[..1], []);
    SameBucket(groups[..2], [groups[0]]);
    assert [groups[0]] + [groups[1]] == [groups[0], groups[1]];
    NewBucket(groups, [(BaseName(groups[0].0), [groups[0], groups[1]])]);
  }

  lemma NewBucket<F>(groups: Groups<F>, before: seq<BaseBucket<F>>)
    requires groups != [] && BaseBuckets(groups[..|groups| - 1]) == before
    requires !Has(before, BaseName(groups[|groups| - 1].0))
    ensures BaseBuckets(groups) == before + [(BaseName(groups[|groups| - 1].0), [groups[|groups| - 1]])]
  {
    assert [] + [groups[|groups| - 1]] == [groups[|groups| - 1]];
  }

  lemma SameBucket<F>(groups: Groups<F>, members: Groups<F>)
    requires groups != []
    requires BaseBuckets(groups[..|groups| - 1]) == [(BaseName(groups[|groups| - 1].0), members)]
    ensures BaseBuckets(groups) == [(BaseName(groups[|groups| - 1].0), members + [groups[|groups| - 1]])]
  {
  }
}
