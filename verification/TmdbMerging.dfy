/** Merging series groups whose files vote for the same TMDB id. */
module TmdbMerging {
  import opened Options
  import opened Sequences
  import opened OrderedDicts
  import opened DictContents
  import opened GroupBuckets
  import opened CanonicalIds

  type Series = Groups<FileMetadata>
  type TmdbBucket = Bucket<Option<int>, FileMetadata>

  function ById(): KeyOf<FileMetadata, Option<int>> {
    (group: (string, seq<FileMetadata>)) => Canonical(group.1)
  }

  /** The groups with, or without, a canonical id, in order. */
  function Having(groups: Series, identified: bool): Series {
    if groups == [] then []
    else Having(groups[..|groups| - 1], identified)
         + (if Canonical(groups[|groups| - 1].1).Some? == identified then [groups[|groups| - 1]] else [])
  }

  function IdBuckets(groups: Series): seq<TmdbBucket> {
    Buckets(Having(groups, true), ById())
  }

  function Confidence(fm: FileMetadata): real {
    if fm.confidence.Some? then fm.confidence.value else 0.0
  }

  /** A file whose title may name the merged group. */
  predicate Titles(fm: FileMetadata, id: Option<int>) {
    fm.tmdbId.Some? && fm.tmdbId == id && fm.title != "" && fm.title != fm.name
  }

  /** The title and confidence of the first most confident titling file; -1 stands for none yet. */
  function BestOf(files: seq<FileMetadata>, id: Option<int>): (string, real) {
    if files == [] then ("", -1.0)
    else
      var best, fm := BestOf(files[..|files| - 1], id), files[|files| - 1];
      if Titles(fm, id) && Confidence(fm) > best.1 then (fm.title, Confidence(fm)) else best
  }

  /** How sure the match of a file is; without a confidence not at all. */
  function Sureness(fm: FileMetadata): real {
    match fm.confidence
    case None => 0.0
    case Some(c) => c
  }

  /** A file of the series whose title is not empty and more than its file name. */
  predicate Usable(fm: FileMetadata, id: Option<int>) {
    id.Some? && fm.tmdbId == id && |fm.title| > 0 && fm.name != fm.title
  }

  /** The file at i may name the merged group, and no other that may is surer, nor as sure and earlier. */
  ghost predicate NamesIt(files: seq<FileMetadata>, id: Option<int>, i: nat) {
    && i < |files| && Usable(files[i], id) && Sureness(files[i]) > -1.0
    && forall j :: 0 <= j < |files| && Usable(files[j], id) ==>
         Sureness(files[j]) < Sureness(files[i]) || (Sureness(files[j]) == Sureness(files[i]) && i <= j)
  }

  lemma {:induction false} SurestTitleIsBest(files: seq<FileMetadata>, id: Option<int>, i: nat)
    requires NamesIt(files, id, i)
    ensures BestOf(files, id) == (files[i].title, Sureness(files[i]))
  {
    var rest, last := files[..|files| - 1], files[|files| - 1];
    if i < |rest| {
      assert NamesIt(rest, id, i);
      SurestTitleIsBest(rest, id, i);
    } else {
      LessSureIsLess(rest, id, Sureness(last));
    }
  }

  lemma {:induction false} LessSureIsLess(files: seq<FileMetadata>, id: Option<int>, sureness: real)
    requires sureness > -1.0 && forall j :: 0 <= j < |files| && Usable(files[j], id) ==> Sureness(files[j]) < sureness
    ensures BestOf(files, id).1 < sureness
  {
    if files != [] {
      LessSureIsLess(files[..|files| - 1], id, sureness);
    }
  }

  /** The key of a merged group: its best title, or the name of its first member. */
  function MergeKey(b: TmdbBucket): string
    requires b.1 != []
  {
    var best := BestOf(Concat(b.1), b.0).0;
    if best != "" then best else b.1[0].0
  }

  /** A merged group is called by the title of the first of its surest files that have a usable one. */
  lemma SurestTitleNamesTheGroup(b: TmdbBucket, i: nat)
    requires b.1 != [] && NamesIt(Concat(b.1), b.0, i)
    ensures MergeKey(b) == Concat(b.1)[i].title
  {
    SurestTitleIsBest(Concat(b.1), b.0, i);
  }

  /** Without such a file it keeps the name of its first member. */
  lemma {:induction false} UntitledIsUnnamed(files: seq<FileMetadata>, id: Option<int>)
    requires forall j :: 0 <= j < |files| ==> !Usable(files[j], id)
    ensures BestOf(files, id) == ("", -1.0)
  {
    if files != [] {
      UntitledIsUnnamed(files[..|files| - 1], id);
    }
  }

  lemma FirstMemberNamesTheRest(b: TmdbBucket)
    requires b.1 != [] && forall j :: 0 <= j < |Concat(b.1)| ==> !Usable(Concat(b.1)[j], b.0)
    ensures MergeKey(b) == b.1[0].0
  {
    UntitledIsUnnamed(Concat(b.1), b.0);
  }

  /** A lone member keeps its own name. */
  function KeyFor(b: TmdbBucket): string {
    if |b.1| == 1 then b.1[0].0 else if b.1 == [] then "" else MergeKey(b)
  }

  /** Writes the buckets one after the other over the groups without an id. */
  function WriteAll(start: Series, buckets: seq<TmdbBucket>): Series {
    if buckets == [] then start
    else
      var last := buckets[|buckets| - 1];
      Put(WriteAll(start, buckets[..|buckets| - 1]), KeyFor(last), Concat(last.1))
  }

  function MergeById(groups: Series): Series {
    WriteAll(Having(groups, false), IdBuckets(groups))
  }

  // ---------- The code ----------

  /** Goes on looking through one group's files. */
  method BestOfFiles(files: seq<FileMetadata>, id: Option<int>, start: (string, real), ghost before: seq<FileMetadata>) returns (best: (string, real))
    requires start == BestOf(before, id)
    ensures best == BestOf(before + files, id)
  {
    best := start;
    assert before + files[..0] == before;
    for j := 0 to |files|
      invariant best == BestOf(before + files[..j], id)
    {
      var fm := files[j];
      assert (before + files[..j + 1])[..|before| + j] == before + files[..j];
      if Titles(fm, id) && Confidence(fm) > best.1 {
        best := (fm.title, Confidence(fm));
      }
    }
    TakeAll(files);
  }

  method BestTitleForMerge(items: Series, id: Option<int>) returns (title: string)
    requires items != []
    ensures title == MergeKey((id, items))
  {
    var best := ("", -1.0);
    for i := 0 to |items|
      invariant best == BestOf(Concat(items[..i]), id)
    {
      assert items[..i + 1][..i] == items[..i];
      best := BestOfFiles(items[i].1, id, best, Concat(items[..i]));
    }
    TakeAll(items);
    title := if best.0 != "" then best.0 else items[0].0;
  }

  /** A dictionary of series groups that the merging rewrites in place. */
  class SeriesGroups {
    var groups: Series

    constructor (groups: Series)
      ensures this.groups == groups
    {
      this.groups := groups;
    }

    method CollectTmdbBuckets() returns (buckets: seq<TmdbBucket>, unmerged: Series)
      ensures buckets == IdBuckets(groups) && unmerged == Having(groups, false)
    {
      buckets, unmerged := [], [];
      for i := 0 to |groups|
        invariant buckets == IdBuckets(groups[..i]) && unmerged == Having(groups[..i], false)
      {
        TakeOneMore(groups, i);
        assert groups[..i + 1][..i] == groups[..i];
        var group := groups[i];
        var id := CanonicalId(group.1);
        assert Having(groups[..i + 1], id == None) == Having(groups[..i], id == None);
        if id == None {
          unmerged := unmerged + [group];
        } else {
          BucketsGrow(groups[..i], group);
          buckets := Put(buckets, id, Get(buckets, id, []) + [group]);
        }
      }
      TakeAll(groups);
    }

    method ApplyMergedGroup(id: Option<int>, items: Series)
      requires |items| > 1
      modifies this
      ensures groups == Put(old(groups), KeyFor((id, items)), Concat(items))
    {
      var files := [];
      for i := 0 to |items|
        invariant files == Concat(items[..i])
      {
        assert items[..i + 1][..i] == items[..i];
        files := files + items[i].1;
      }
      TakeAll(items);
      var key := BestTitleForMerge(items, id);
      groups := Put(groups, key, files);
    }

    method WriteBucket(bucket: TmdbBucket)
      requires bucket.1 != []
      modifies this
      ensures groups == Put(old(groups), KeyFor(bucket), Concat(bucket.1))
    {
      if |bucket.1| == 1 {
        assert bucket.1[..0] == [];
        assert Concat(bucket.1) == bucket.1[0].1;
        groups := Put(groups, bucket.1[0].0, bucket.1[0].1);
      } else {
        ApplyMergedGroup(bucket.0, bucket.1);
      }
    }

    method MergeGroupsByTmdbId()
      requires DistinctKeys(groups)
      modifies this
      ensures groups == MergeById(old(groups))
    {
      IdBucketsAreOk(groups);
      var buckets, unmerged := CollectTmdbBuckets();
      groups := unmerged;
      for i := 0 to |buckets|
        invariant groups == WriteAll(unmerged, buckets[..i])
      {
        assert BucketOk(buckets[i], ById());
        assert buckets[..i + 1][..i] == buckets[..i];
        WriteBucket(buckets[i]);
      }
      TakeAll(buckets);
    }
  }

  lemma IdBucketsAreOk(groups: Series)
    requires DistinctKeys(groups)
    ensures BucketsOk(IdBuckets(groups), ById())
  {
    HavingKeepsDistinct(groups, true);
    BucketsAreOk(Having(groups, true), ById());
  }

  lemma BucketsGrow(groups: Series, group: (string, seq<FileMetadata>))
    requires Canonical(group.1).Some?
    ensures var buckets, id := IdBuckets(groups), Canonical(group.1);
            IdBuckets(groups + [group]) == Put(buckets, id, Get(buckets, id, []) + [group])
  {
    assert (groups + [group])[..|groups|] == groups;
    assert Having(groups + [group], true) == Having(groups, true) + [group];
    assert (Having(groups, true) + [group])[..|Having(groups, true)|] == Having(groups, true);
  }

  // ---------- Splitting the groups ----------

  lemma {:induction false} HavingIsFilter(groups: Series, identified: bool)
    ensures forall g :: g in Having(groups, identified) <==> g in groups && Canonical(g.1).Some? == identified
  {
    if groups != [] {
      HavingIsFilter(groups[..|groups| - 1], identified);
      assert groups == groups[..|groups| - 1] + [groups[|groups| - 1]];
    }
  }

  lemma {:induction false} HavingKeepsDistinct(groups: Series, identified: bool)
    requires DistinctKeys(groups)
    ensures DistinctKeys(Having(groups, identified))
  {
    if groups != [] {
      var rest, last := groups[..|groups| - 1], groups[|groups| - 1];
      HavingKeepsDistinct(rest, identified);
      HavingIsFilter(rest, identified);
      forall i | 0 <= i < |Having(rest, identified)| ensures Having(rest, identified)[i].0 != last.0 {
        assert Having(rest, identified)[i] in rest;
      }
    }
  }

  /** Splitting the groups by whether they have an id keeps all files. */
  ghost predicate SplitsEvenly(groups: Series) {
    Contents(Having(groups, false)) + Contents(Having(groups, true)) == Contents(groups)
  }

  lemma {:induction false} SplittingKeepsContents(groups: Series)
    ensures SplitsEvenly(groups)
  {
    if groups != [] {
      var rest, last := groups[..|groups| - 1], groups[|groups| - 1];
      assert groups == rest + [last];
      SplittingKeepsContents(rest);
      SplittingOneMore(rest, last);
    }
  }

  lemma SplittingOneMore(rest: Series, last: (string, seq<FileMetadata>))
    requires SplitsEvenly(rest)
    ensures SplitsEvenly(rest + [last])
  {
    var f, t, more := Contents(Having(rest, false)), Contents(Having(rest, true)), multiset(last.1);
    ContentsOfAppend(rest, last);
    HavingOneMore(rest, last);
    AddedOnOneSide(f, t, more);
    if Canonical(last.1).Some? {
      assert Contents(Having(rest + [last], false)) == f && Contents(Having(rest + [last], true)) == t + more;
    } else {
      assert Contents(Having(rest + [last], false)) == f + more && Contents(Having(rest + [last], true)) == t;
    }
  }

  lemma HavingOneMore(rest: Series, last: (string, seq<FileMetadata>))
    ensures var has := Canonical(last.1).Some?;
            && Contents(Having(rest + [last], has)) == Contents(Having(rest, has)) + multiset(last.1)
            && Having(rest + [last], !has) == Having(rest, !has)
  {
    var has := Canonical(last.1).Some?;
    assert (rest + [last])[..|rest|] == rest;
    ContentsOfAppend(Having(rest, has), last);
    assert Having(rest + [last], has) == Having(rest, has) + [last];
  }

  lemma ContentsOfAppend(groups: Series, last: (string, seq<FileMetadata>))
    ensures Contents(groups + [last]) == Contents(groups) + multiset(last.1)
  {
    assert (groups + [last])[..|groups|] == groups;
  }

  lemma AddedOnOneSide<F>(a: multiset<F>, b: multiset<F>, more: multiset<F>)
    ensures a + (b + more) == (a + b) + more && (a + more) + b == (a + b) + more
    ensures (b + more) + a == (a + b) + more && a + b == b + a
  {
  }
}
