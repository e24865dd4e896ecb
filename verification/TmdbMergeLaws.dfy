/** What merging by TMDB id guarantees: it invents nothing, loses only what key clashes overwrite,
    leaves one group per id, and settles after one application. */
module TmdbMergeLaws {
  import opened Options
  import opened Sequences
  import opened OrderedDicts
  import opened DictContents
  import opened GroupBuckets
  import opened CanonicalIds
  import opened TmdbMerging

  // ---------- Conservation ----------

  lemma {:induction false} WritingInventsNothing(start: Series, buckets: seq<TmdbBucket>, m: nat)
    requires m <= |buckets|
    ensures Contents(WriteAll(start, buckets[..m])) <= Contents(start) + Contents(Flat(buckets[..m]))
    decreases m
  {
    if m > 0 {
      assert buckets[..m][..m - 1] == buckets[..m - 1];
      WritingInventsNothing(start, buckets, m - 1);
      var before, b := WriteAll(start, buckets[..m - 1]), buckets[m - 1];
      ContentsOfPut(before, KeyFor(b), Concat(b.1));
      FlatGrows(buckets, m - 1);
      Traded(Contents(start) + Contents(Flat(buckets[..m - 1])), Contents(before), Contents(WriteAll(start, buckets[..m])),
             multiset(Get(before, KeyFor(b), [])), multiset(Concat(b.1)));
      AddedOnOneSide(Contents(start), Contents(Flat(buckets[..m - 1])), multiset(Concat(b.1)));
    }
  }

  lemma Traded<F>(all: multiset<F>, before: multiset<F>, after: multiset<F>, lost: multiset<F>, added: multiset<F>)
    requires before <= all && after + lost == before + added
    ensures after <= all + added
    ensures lost == multiset{} && before == all ==> after == all + added
    ensures |after| + |lost| == |before| + |added|
  {
    assert after <= after + lost;
    assert |after + lost| == |before + added|;
    assert lost == multiset{} ==> after + lost == after;
  }

  /** Every file of the merged groups was there before, no more often than before. */
  lemma MergingInventsNothing(groups: Series)
    requires DistinctKeys(groups)
    ensures Contents(MergeById(groups)) <= Contents(groups)
  {
    var buckets := IdBuckets(groups);
    WritingInventsNothing(Having(groups, false), buckets, |buckets|);
    TakeAll(buckets);
    BucketsHoldEverything(Having(groups, true), ById());
    SplittingKeepsContents(groups);
  }

  /** The m-th bucket is written under a key that already holds files. */
  ghost predicate Overwrites(start: Series, buckets: seq<TmdbBucket>, m: nat)
    requires m < |buckets|
  {
    Get(start, KeyFor(buckets[m]), []) != [] || exists i :: 0 <= i < m && KeyFor(buckets[i]) == KeyFor(buckets[m])
  }

  /** One of the first m buckets overwrites. */
  ghost predicate Clashing(start: Series, buckets: seq<TmdbBucket>, m: nat)
    requires m <= |buckets|
  {
    exists i :: 0 <= i < m && Overwrites(start, buckets, i)
  }

  /** Some merged or identified group is written under the name of an unidentified group that holds
      files, or under the same name as another. */
  ghost predicate KeysClash(groups: Series) {
    Clashing(Having(groups, false), IdBuckets(groups), |IdBuckets(groups)|)
  }

  /** A key holds files once a bucket has been written under it, or if it did at the start. */
  lemma {:induction false} WrittenKeysHoldFiles(start: Series, buckets: seq<TmdbBucket>, m: nat, key: string)
    requires m <= |buckets|
    requires forall i :: 0 <= i < |buckets| ==> Concat(buckets[i].1) != []
    ensures Get(WriteAll(start, buckets[..m]), key, []) != [] <==>
              Get(start, key, []) != [] || exists i :: 0 <= i < m && KeyFor(buckets[i]) == key
    decreases m
  {
    if m > 0 {
      assert buckets[..m][..m - 1] == buckets[..m - 1];
      var before, b := WriteAll(start, buckets[..m - 1]), buckets[m - 1];
      WrittenKeysHoldFiles(start, buckets, m - 1, key);
      GetAfterPut(before, KeyFor(b), Concat(b.1), key);
    }
  }

  /** All files up to the m-th bucket, and those that the first m writes keep. */
  ghost function Given(start: Series, buckets: seq<TmdbBucket>, m: nat): multiset<FileMetadata>
    requires m <= |buckets|
  {
    Contents(start) + Contents(Flat(buckets[..m]))
  }

  ghost function Kept(start: Series, buckets: seq<TmdbBucket>, m: nat): multiset<FileMetadata>
    requires m <= |buckets|
  {
    Contents(WriteAll(start, buckets[..m]))
  }

  /** After m writes, files are lost exactly when keys have clashed. */
  ghost predicate BalancedAt(start: Series, buckets: seq<TmdbBucket>, m: nat)
    requires m <= |buckets|
  {
    Balanced(Clashing(start, buckets, m), Kept(start, buckets, m), Given(start, buckets, m))
  }

  lemma BalancedAtStart(start: Series, buckets: seq<TmdbBucket>)
    ensures BalancedAt(start, buckets, 0)
  {
    assert WriteAll(start, buckets[..0]) == start;
    assert Contents(Flat(buckets[..0])) == multiset{};
  }

  lemma {:induction false} LossIsExact(start: Series, buckets: seq<TmdbBucket>, m: nat)
    requires m <= |buckets|
    requires forall i :: 0 <= i < |buckets| ==> Concat(buckets[i].1) != []
    ensures BalancedAt(start, buckets, m)
    decreases m
  {
    if m == 0 {
      BalancedAtStart(start, buckets);
    } else {
      LossIsExact(start, buckets, m - 1);
      LossStep(start, buckets, m - 1);
    }
  }

  /** One more write keeps the balance. */
  lemma LossStep(start: Series, buckets: seq<TmdbBucket>, m: nat)
    requires m < |buckets|
    requires forall i :: 0 <= i < |buckets| ==> Concat(buckets[i].1) != []
    requires BalancedAt(start, buckets, m)
    ensures BalancedAt(start, buckets, m + 1)
  {
    var b := buckets[m];
    var lost := Get(WriteAll(start, buckets[..m]), KeyFor(b), []);
    ClashingOneMore(start, buckets, m);
    assert multiset(lost) == multiset{} <==> lost == [];
    WriteTrades(start, buckets, m);
    BalanceStep(Clashing(start, buckets, m), Kept(start, buckets, m), Given(start, buckets, m),
                multiset(lost), multiset(Concat(b.1)), Kept(start, buckets, m + 1));
  }

  lemma ClashingOneMore(start: Series, buckets: seq<TmdbBucket>, m: nat)
    requires m < |buckets|
    requires forall i :: 0 <= i < |buckets| ==> Concat(buckets[i].1) != []
    ensures Clashing(start, buckets, m + 1) <==>
              Clashing(start, buckets, m) || Get(WriteAll(start, buckets[..m]), KeyFor(buckets[m]), []) != []
  {
    assert Clashing(start, buckets, m + 1) <==> Clashing(start, buckets, m) || Overwrites(start, buckets, m);
    WrittenKeysHoldFiles(start, buckets, m, KeyFor(buckets[m]));
  }

  lemma WriteTrades(start: Series, buckets: seq<TmdbBucket>, m: nat)
    requires m < |buckets|
    ensures Given(start, buckets, m + 1) == Given(start, buckets, m) + multiset(Concat(buckets[m].1))
    ensures Kept(start, buckets, m + 1) + multiset(Get(WriteAll(start, buckets[..m]), KeyFor(buckets[m]), []))
         == Kept(start, buckets, m) + multiset(Concat(buckets[m].1))
  {
    assert buckets[..m + 1][..m] == buckets[..m];
    ContentsOfPut(WriteAll(start, buckets[..m]), KeyFor(buckets[m]), Concat(buckets[m].1));
    FlatGrows(buckets, m);
    AddedOnOneSide(Contents(start), Contents(Flat(buckets[..m])), multiset(Concat(buckets[m].1)));
  }

  lemma IdentifiedBucketsHoldFiles(groups: Series)
    requires DistinctKeys(groups)
    ensures forall i :: 0 <= i < |IdBuckets(groups)| ==> Concat(IdBuckets(groups)[i].1) != []
  {
    var having, buckets := Having(groups, true), IdBuckets(groups);
    HavingKeepsDistinct(groups, true);
    IdBucketsAreOk(groups);
    HavingIsFilter(groups, true);
    forall i | 0 <= i < |buckets| ensures Concat(buckets[i].1) != [] {
      assert BucketOk(buckets[i], ById());
      BucketMembersAreGroups(having, i);
      var members := buckets[i].1;
      ConcatMore(members[..|members| - 1], members[|members| - 1]);
      assert members == members[..|members| - 1] + [members[|members| - 1]];
      assert members[|members| - 1] in having;
    }
  }

  lemma {:induction false} BucketMembersAreGroups(groups: Series, i: nat)
    requires i < |Buckets(groups, ById())|
    ensures forall g :: g in Buckets(groups, ById())[i].1 ==> g in groups
  {
    if groups != [] {
      var rest, last := groups[..|groups| - 1], groups[|groups| - 1];
      var before, after := Buckets(rest, ById()), Buckets(groups, ById());
      if i < |before| {
        BucketMembersAreGroups(rest, i);
      }
      forall g | g in after[i].1 ensures g in groups {
        assert g == last || (i < |before| && g in before[i].1);
        assert groups == rest + [last];
      }
    }
  }

  /** Merging keeps every file if and only if no keys clash. */
  lemma MergingConservesExactlyUnlessKeysClash(groups: Series)
    requires DistinctKeys(groups)
    ensures Contents(MergeById(groups)) == Contents(groups) <==> !KeysClash(groups)
  {
    var buckets := IdBuckets(groups);
    IdentifiedBucketsHoldFiles(groups);
    LossIsExact(Having(groups, false), buckets, |buckets|);
    TakeAll(buckets);
    BucketsHoldEverything(Having(groups, true), ById());
    SplittingKeepsContents(groups);
  }

  lemma OneFileVotes(f: FileMetadata)
    ensures Canonical([f]) == f.tmdbId
  {
    assert [f][..0] == [];
    assert Ids([f]) == if f.tmdbId.Some? then [f.tmdbId.value] else [];
  }

  /** Two groups of one file each with one id fall into one bucket, and the third stays. */
  lemma TwoGroupsShareABucket(a: string, b: string, x: string, f: FileMetadata, g: FileMetadata, h: FileMetadata)
    requires f.tmdbId.Some? && f.tmdbId == g.tmdbId && h.tmdbId == None
    ensures var groups := [(a, [f]), (b, [g]), (x, [h])];
            Having(groups, false) == [(x, [h])] && IdBuckets(groups) == [(f.tmdbId, [(a, [f]), (b, [g])])]
  {
    OneFileVotes(f);
    OneFileVotes(g);
    OneFileVotes(h);
    var one, two, groups: Series := [(a, [f])], [(a, [f]), (b, [g])], [(a, [f]), (b, [g]), (x, [h])];
    assert [] + [one[0]] == one && one + [two[1]] == two && two + [groups[2]] == groups;
    forall identified: bool ensures Having(groups, identified) == if identified then two else [groups[2]] {
      HavingNext([], one[0], identified);
      HavingNext(one, two[1], identified);
      HavingNext(two, groups[2], identified);
    }
    BucketOfTwo(a, b, f, g);
  }

  lemma BucketOfTwo(a: string, b: string, f: FileMetadata, g: FileMetadata)
    requires Canonical([f]) == Canonical([g])
    ensures Buckets([(a, [f]), (b, [g])], ById()) == [(Canonical([f]), [(a, [f]), (b, [g])])]
  {
    var one, two: Series := [(a, [f])], [(a, [f]), (b, [g])];
    assert one[..0] == [] && two[..1] == one;
    var bucket: TmdbBucket := (Canonical([f]), one);
    assert ById()(one[0]) == Canonical([f]) && ById()(two[1]) == Canonical([g]);
    assert Buckets(one[..0], ById()) == [] && [] + [one[0]] == one;
    assert Buckets(one, ById()) == [bucket];
    assert Get([bucket], Canonical([g]), []) == one;
    assert one + [two[1]] == two;
  }

  lemma FilesOfTwoGroups(a: string, b: string, f: FileMetadata, g: FileMetadata)
    ensures Concat([(a, [f]), (b, [g])]) == [f, g]
  {
    var one, two: Series := [(a, [f])], [(a, [f]), (b, [g])];
    assert one[..0] == [] && two[..1] == one;
    assert Concat(one) == [f] && [f] + [g] == [f, g];
  }

  lemma BestOfTwoFiles(f: FileMetadata, g: FileMetadata, id: Option<int>)
    requires Titles(f, id) && Confidence(f) > -1.0 && !Titles(g, id)
    ensures BestOf([f, g], id) == (f.title, Confidence(f))
  {
    assert [f][..0] == [] && [f, g][..1] == [f];
    assert BestOf([f], id) == (f.title, Confidence(f));
  }

  /** Two groups of one id, one of them titled confidently: the title names the merged group. */
  lemma TitleNamesTheMergedGroup(a: string, b: string, f: FileMetadata, g: FileMetadata)
    requires Titles(f, f.tmdbId) && Confidence(f) > -1.0 && !Titles(g, f.tmdbId)
    ensures Concat([(a, [f]), (b, [g])]) == [f, g] && KeyFor((f.tmdbId, [(a, [f]), (b, [g])])) == f.title
  {
    FilesOfTwoGroups(a, b, f, g);
    BestOfTwoFiles(f, g, f.tmdbId);
  }

  /** An unidentified group that is called like the title of two identified ones is overwritten. */
  lemma MergedTitleOverwrites(a: string, b: string, f: FileMetadata, g: FileMetadata, h: FileMetadata)
    requires f.tmdbId.Some? && f.tmdbId == g.tmdbId && h.tmdbId == None
    requires Titles(f, f.tmdbId) && Confidence(f) > -1.0 && !Titles(g, f.tmdbId)
    ensures var groups := [(a, [f]), (b, [g]), (f.title, [h])];
            KeysClash(groups) && MergeById(groups) == [(f.title, [f, g])]
  {
    var groups := [(a, [f]), (b, [g]), (f.title, [h])];
    var bucket := (f.tmdbId, [(a, [f]), (b, [g])]);
    TwoGroupsShareABucket(a, b, f.title, f, g, h);
    TitleNamesTheMergedGroup(a, b, f, g);
    assert Get(Having(groups, false), f.title, []) == [h];
    assert Overwrites(Having(groups, false), IdBuckets(groups), 0);
    assert [bucket][..0] == [] && WriteAll(Having(groups, false), []) == [(f.title, [h])];
    assert MergeById(groups) == Put([(f.title, [h])], f.title, [f, g]);
  }

  lemma LastGroupHolds(rest: Series, x: string, h: FileMetadata)
    ensures h in Contents(rest + [(x, [h])])
  {
    ContentsOfAppend(rest, (x, [h]));
    assert h in [h] && h in multiset([h]);
  }

  lemma OneGroupHolds(x: string, files: seq<FileMetadata>, h: FileMetadata)
    ensures h in Contents([(x, files)]) <==> h in files
  {
    ContentsOfAppend([], (x, files));
    assert [] + [(x, files)] == [(x, files)];
  }

  /** Two files of series 1, one matched to the title X with confidence 0.9, and an unmatched file that the
      file names have put in a group X. */
  const MATCHED := FileMetadata("/a/1.mkv", "1.mkv", "X", Some(1), Some(0.9))
  const UNTITLED := FileMetadata("/b/2.mkv", "2.mkv", "", Some(1), None)
  const UNMATCHED := FileMetadata("/c/3.mkv", "3.mkv", "", None, None)

  const THREE_GROUPS: Series := [("A", [MATCHED]), ("B", [UNTITLED]), ("X", [UNMATCHED])]

  /** Their keys clash, and the unmatched file is lost. */
  lemma UnmatchedNamesakeIsLost()
    ensures DistinctKeys(THREE_GROUPS) && KeysClash(THREE_GROUPS)
    ensures MergeById(THREE_GROUPS) == [("X", [MATCHED, UNTITLED])]
    ensures UNMATCHED in Contents(THREE_GROUPS) && UNMATCHED !in Contents(MergeById(THREE_GROUPS))
  {
    MergedTitleOverwrites("A", "B", MATCHED, UNTITLED, UNMATCHED);
    assert THREE_GROUPS == THREE_GROUPS[..2] + [("X", [UNMATCHED])];
    LastGroupHolds(THREE_GROUPS[..2], "X", UNMATCHED);
    OneGroupHolds("X", [MATCHED, UNTITLED], UNMATCHED);
  }

  // ---------- One group per id ----------

  /** No two groups share a canonical id. */
  ghost predicate UniqueIds(groups: Series) {
    forall i, j :: 0 <= i < j < |groups| && Canonical(groups[i].1).Some? ==>
      Canonical(groups[i].1) != Canonical(groups[j].1)
  }

  /** Every identified group's id is that of one of the buckets. */
  ghost predicate IdsFrom(groups: Series, buckets: seq<TmdbBucket>) {
    forall i :: 0 <= i < |groups| && Canonical(groups[i].1).Some? ==> Canonical(groups[i].1) in KeySet(buckets)
  }

  lemma MembersShareTheirId(groups: Series, b: TmdbBucket)
    requires BucketOk(b, ById()) && b.0.Some?
    ensures Canonical(Concat(b.1)) == b.0
  {
    forall i | 0 <= i < |b.1| ensures Canonical(b.1[i].1) == Some(b.0.value) {
      assert ById()(b.1[i]) == b.0;
    }
    MergedGroupKeepsItsId(b.1, b.0.value);
  }

  lemma IdBucketsAreIdentified(groups: Series)
    requires DistinctKeys(groups)
    ensures forall i :: 0 <= i < |IdBuckets(groups)| ==> IdBuckets(groups)[i].0.Some?
  {
    var having, buckets := Having(groups, true), IdBuckets(groups);
    IdBucketsAreOk(groups);
    HavingIsFilter(groups, true);
    forall i | 0 <= i < |buckets| ensures buckets[i].0.Some? {
      assert BucketOk(buckets[i], ById());
      BucketMembersAreGroups(having, i);
      assert buckets[i].1[0] in having && ById()(buckets[i].1[0]) == buckets[i].0;
    }
  }

  lemma {:induction false} WritingKeepsIdsUnique(groups: Series, m: nat)
    requires DistinctKeys(groups) && m <= |IdBuckets(groups)|
    ensures var written := WriteAll(Having(groups, false), IdBuckets(groups)[..m]);
            DistinctKeys(written) && UniqueIds(written) && IdsFrom(written, IdBuckets(groups)[..m])
    decreases m
  {
    var buckets, start := IdBuckets(groups), Having(groups, false);
    if m == 0 {
      HavingKeepsDistinct(groups, false);
      HavingIsFilter(groups, false);
      assert forall i :: 0 <= i < |start| ==> start[i] in start;
    } else {
      var k := m - 1;
      WritingKeepsIdsUnique(groups, k);
      assert buckets[..m][..k] == buckets[..k];
      IdBucketsAreOk(groups);
      assert BucketOk(buckets[k], ById());
      IdBucketsAreIdentified(groups);
      MembersShareTheirId(groups, buckets[k]);
      var before := WriteAll(start, buckets[..k]);
      PutKeepsDistinct(before, KeyFor(buckets[k]), Concat(buckets[k].1));
      PutKeepsIdsUnique(before, buckets, k, KeyFor(buckets[k]), Concat(buckets[k].1));
    }
  }

  lemma PutKeepsIdsUnique(before: Series, buckets: seq<TmdbBucket>, m: nat, key: string, files: seq<FileMetadata>)
    requires m < |buckets| && DistinctKeys(buckets)
    requires UniqueIds(before) && IdsFrom(before, buckets[..m])
    requires Canonical(files).Some? && Canonical(files) == buckets[m].0
    ensures UniqueIds(Put(before, key, files)) && IdsFrom(Put(before, key, files), buckets[..m + 1])
  {
    var after := Put(before, key, files);
    var p := Position(before, key);
    forall i | 0 <= i < |after| && Canonical(after[i].1).Some?
      ensures Canonical(after[i].1) in KeySet(buckets[..m + 1]) {
      if i == p {
        assert buckets[..m + 1][m].0 == Canonical(after[i].1);
      } else {
        assert after[i] == before[i];
        var b :| 0 <= b < |buckets[..m]| && buckets[..m][b].0 == Canonical(before[i].1);
        assert buckets[..m + 1][b].0 == Canonical(after[i].1);
      }
    }
    forall i | 0 <= i < |after| && i != p ensures after[i] == before[i] && Canonical(after[i].1) != Canonical(files) {
      if Canonical(before[i].1).Some? {
        var b :| 0 <= b < |buckets[..m]| && buckets[..m][b].0 == Canonical(before[i].1);
        assert buckets[b].0 != buckets[m].0;
      }
    }
  }

  /** After merging, names are distinct and no two groups share a canonical id. */
  lemma MergedGroupsHaveUniqueIds(groups: Series)
    requires DistinctKeys(groups)
    ensures DistinctKeys(MergeById(groups)) && UniqueIds(MergeById(groups))
  {
    WritingKeepsIdsUnique(groups, |IdBuckets(groups)|);
    TakeAll(IdBuckets(groups));
  }

  // ---------- Merging again ----------

  /** Each group as a bucket of its own. */
  ghost function Singletons(groups: Series): seq<TmdbBucket> {
    seq(|groups|, i requires 0 <= i < |groups| => (Canonical(groups[i].1), [groups[i]]))
  }

  lemma {:induction false} UniqueIdsBucketAlone(groups: Series)
    requires UniqueIds(groups) && forall i :: 0 <= i < |groups| ==> Canonical(groups[i].1).Some?
    ensures Buckets(groups, ById()) == Singletons(groups)
  {
    if groups != [] {
      var rest, last := groups[..|groups| - 1], groups[|groups| - 1];
      UniqueIdsBucketAlone(rest);
      FirstAt(Singletons(rest), Canonical(last.1), |rest|);
      assert [] + [last] == [last];
      assert Singletons(groups) == Singletons(rest) + [(Canonical(last.1), [last])];
    }
  }

  lemma {:induction false} SingletonsAppend(start: Series, groups: Series)
    requires DistinctKeys(start + groups)
    ensures WriteAll(start, Singletons(groups)) == start + groups
  {
    if groups == [] {
      assert start + groups == start;
    } else {
      var rest, last := groups[..|groups| - 1], groups[|groups| - 1];
      assert Singletons(groups)[..|rest|] == Singletons(rest);
      assert (start + rest) == (start + groups)[..|start| + |rest|];
      SingletonsAppend(start, rest);
      assert [last][..0] == [];
      assert Concat([last]) == last.1;
      assert (start + groups)[|start + rest|] == last;
      assert forall i :: 0 <= i < |start + rest| ==> (start + groups)[i] == (start + rest)[i];
      FirstAt(start + rest, last.0, |start + rest|);
      assert (start + rest) + [last] == start + groups;
    }
  }

  lemma {:induction false} HavingKeepsIdsUnique(groups: Series)
    requires UniqueIds(groups)
    ensures UniqueIds(Having(groups, true))
  {
    if groups != [] {
      var rest, last := groups[..|groups| - 1], groups[|groups| - 1];
      HavingKeepsIdsUnique(rest);
      HavingIsFilter(rest, true);
      forall i | 0 <= i < |Having(rest, true)| ensures Canonical(Having(rest, true)[i].1) != Canonical(last.1) {
        assert Having(rest, true)[i] in rest;
      }
    }
  }

  /** Merging groups whose ids are already unique only moves the identified ones to the end. */
  lemma UniqueIdsAreOnlyReordered(groups: Series)
    requires DistinctKeys(groups) && UniqueIds(groups)
    ensures MergeById(groups) == Having(groups, false) + Having(groups, true)
  {
    var none, some := Having(groups, false), Having(groups, true);
    HavingKeepsIdsUnique(groups);
    HavingIsFilter(groups, true);
    assert forall i :: 0 <= i < |some| ==> some[i] in some;
    UniqueIdsBucketAlone(some);
    HalvesStayDistinct(groups);
    SingletonsAppend(none, some);
  }

  lemma HalvesStayDistinct(groups: Series)
    requires DistinctKeys(groups)
    ensures DistinctKeys(Having(groups, false) + Having(groups, true))
  {
    var none, some := Having(groups, false), Having(groups, true);
    HavingKeepsDistinct(groups, false);
    HavingKeepsDistinct(groups, true);
    HavingIsFilter(groups, false);
    HavingIsFilter(groups, true);
    forall i, j | 0 <= i < |none| && 0 <= j < |some| ensures none[i].0 != some[j].0 {
      assert none[i] in none && some[j] in some;
      var p :| 0 <= p < |groups| && groups[p] == none[i];
      var q :| 0 <= q < |groups| && groups[q] == some[j];
      assert p != q;
    }
  }

  lemma SameEntriesSameMap(d: Series, e: Series)
    requires DistinctKeys(d) && DistinctKeys(e) && forall g :: g in d <==> g in e
    ensures ToMap(d) == ToMap(e)
  {
    forall k ensures k in KeySet(d) <==> k in KeySet(e) {
      HasIsMembership(d, k);
      HasIsMembership(e, k);
      if k in KeySet(d) { assert d[Position(d, k)] in e; }
      if k in KeySet(e) { assert e[Position(e, k)] in d; }
    }
    assert ToMap(d).Keys == ToMap(e).Keys;
    forall k | k in ToMap(d) ensures ToMap(d)[k] == ToMap(e)[k] {
      HasIsMembership(d, k);
      assert d[Position(d, k)] in e;
      var q :| 0 <= q < |e| && e[q] == d[Position(d, k)];
      PositionIs(e, q);
    }
  }

  /** Merging is idempotent: a second merge gives the same map. It may move groups that took over an
      unidentified group's place to the end; a third merge moves nothing. */
  lemma MergingIsIdempotent(groups: Series)
    requires DistinctKeys(groups)
    ensures var once := MergeById(groups);
            && ToMap(MergeById(once)) == ToMap(once)
            && MergeById(once) == Having(once, false) + Having(once, true)
            && MergeById(MergeById(once)) == MergeById(once)
  {
    var once := MergeById(groups);
    MergedGroupsHaveUniqueIds(groups);
    UniqueIdsAreOnlyReordered(once);
    var twice := MergeById(once);
    MergedGroupsHaveUniqueIds(once);
    HavingIsFilter(once, false);
    HavingIsFilter(once, true);
    assert forall g :: g in twice <==> g in once;
    SameEntriesSameMap(twice, once);
    UniqueIdsAreOnlyReordered(twice);
    HavingOfHalves(Having(once, false), Having(once, true), false);
    HavingOfHalves(Having(once, false), Having(once, true), true);
  }

  /** Groups that all have an id, or all have none. */
  ghost predicate AllAlike(groups: Series, has: bool) {
    forall i :: 0 <= i < |groups| ==> Canonical(groups[i].1).Some? == has
  }

  lemma HavingOfHalves(none: Series, some: Series, identified: bool)
    requires forall g :: g in none ==> Canonical(g.1) == None
    requires forall g :: g in some ==> Canonical(g.1).Some?
    ensures Having(none + some, identified) == if identified then some else none
  {
    assert AllAlike(none, false) && AllAlike(some, true);
    HavingAll(none, some, true, identified);
    HavingAll([], none, false, identified);
    assert [] + none == none && [] + some == some && none + [] == none;
  }

  /** They are all kept or all left out. */
  lemma {:induction false} HavingAll(before: Series, groups: Series, has: bool, identified: bool)
    requires AllAlike(groups, has)
    ensures Having(before + groups, identified) == Having(before, identified) + (if has == identified then groups else [])
  {
    if groups == [] {
      assert before + groups == before;
    } else {
      var rest, last := groups[..|groups| - 1], groups[|groups| - 1];
      assert groups == rest + [last];
      HavingAll(before, rest, has, identified);
      HavingNext(before + rest, last, identified);
      JoinedAtEnd(before, rest, last);
      JoinedAtEnd(Having(before, identified), rest, last);
    }
  }

  lemma JoinedAtEnd(a: Series, b: Series, last: (string, seq<FileMetadata>))
    ensures (a + b) + [last] == a + (b + [last])
  {
  }

  lemma HavingNext(groups: Series, last: (string, seq<FileMetadata>), identified: bool)
    ensures Having(groups + [last], identified)
         == if Canonical(last.1).Some? == identified then Having(groups, identified) + [last] else Having(groups, identified)
  {
    assert (groups + [last])[..|groups|] == groups;
  }
}
