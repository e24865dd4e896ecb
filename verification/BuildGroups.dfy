/** Building the displayed groups: whatever the merging overwrites comes back in a catch-all group. */
module BuildGroups {
  import opened Options
  import opened Sequences
  import opened OrderedDicts
  import opened DictContents
  import opened GroupBuckets
  import opened CanonicalIds
  import opened TmdbMerging
  import opened TmdbMergeLaws

  const UNCATEGORIZED := "미분류"

  /** A group as the file grouper returns it: a title and the paths of its files. */
  datatype FileGroup = FileGroup(title: string, paths: seq<string>)

  /** A displayed group, numbered from 1. */
  datatype GroupView = GroupView(id: nat, name: string, files: seq<FileMetadata>)

  /** Resolving a path, and stripping the episode from a group title. */
  type Resolve = string -> string
  type Normalize = string -> string

  /** Files by resolved path; a later file takes the place of an earlier one. */
  function ByPath(files: seq<FileMetadata>, resolve: Resolve): map<string, FileMetadata> {
    if files == [] then map[]
    else ByPath(files[..|files| - 1], resolve)[resolve(files[|files| - 1].path) := files[|files| - 1]]
  }

  /** The known files behind a list of paths. */
  function Found(paths: seq<string>, byPath: map<string, FileMetadata>, resolve: Resolve): seq<FileMetadata> {
    if paths == [] then []
    else
      var q := resolve(paths[|paths| - 1]);
      Found(paths[..|paths| - 1], byPath, resolve) + (if q in byPath then [byPath[q]] else [])
  }

  function SeriesOf(groups: seq<FileGroup>, byPath: map<string, FileMetadata>, resolve: Resolve, normalize: Normalize): Series {
    if groups == [] then []
    else
      var rest, last := SeriesOf(groups[..|groups| - 1], byPath, resolve, normalize), groups[|groups| - 1];
      var found := Found(last.paths, byPath, resolve);
      if found == [] then rest else Put(rest, normalize(last.title), Get(rest, normalize(last.title), []) + found)
  }

  function ResolvedIn(files: seq<FileMetadata>, resolve: Resolve): set<string> {
    set f | f in files :: resolve(f.path)
  }

  /** The files not yet in any group. */
  function Leftover(files: seq<FileMetadata>, grouped: set<string>, resolve: Resolve): seq<FileMetadata> {
    if files == [] then []
    else
      var last := files[|files| - 1];
      Leftover(files[..|files| - 1], grouped, resolve) + (if resolve(last.path) in grouped then [] else [last])
  }

  function WithCatchAll(groups: Series, files: seq<FileMetadata>, resolve: Resolve): Series {
    var left := Leftover(files, ResolvedIn(Concat(groups), resolve), resolve);
    if left == [] then groups else Put(groups, UNCATEGORIZED, Get(groups, UNCATEGORIZED, []) + left)
  }

  function Views(groups: Series): seq<GroupView> {
    seq(|groups|, i requires 0 <= i < |groups| => GroupView(i + 1, groups[i].0, groups[i].1))
  }

  function Built(files: seq<FileMetadata>, groups: seq<FileGroup>, resolve: Resolve, normalize: Normalize): Series {
    WithCatchAll(MergeById(SeriesOf(groups, ByPath(files, resolve), resolve, normalize)), files, resolve)
  }

  // ---------- The code ----------

  method FilesBehind(paths: seq<string>, byPath: map<string, FileMetadata>, resolve: Resolve) returns (found: seq<FileMetadata>)
    ensures found == Found(paths, byPath, resolve)
  {
    found := [];
    for j := 0 to |paths|
      invariant found == Found(paths[..j], byPath, resolve)
    {
      assert paths[..j + 1][..j] == paths[..j];
      var resolved := resolve(paths[j]);
      if resolved in byPath {
        found := found + [byPath[resolved]];
      }
    }
    TakeAll(paths);
  }

  /** Adds files to the series of a name, which is made if it is new. */
  method AddToSeries(series: Series, name: string, found: seq<FileMetadata>) returns (r: Series)
    ensures r == Put(series, name, Get(series, name, []) + found)
  {
    r := series;
    if !Has(r, name) {
      PutTwice(r, name, [], found);
      r := Put(r, name, []);
    }
    r := Put(r, name, Get(r, name, []) + found);
  }

  method FileGroupsToSeriesGroups(groups: seq<FileGroup>, byPath: map<string, FileMetadata>, resolve: Resolve, normalize: Normalize)
    returns (series: Series)
    ensures series == SeriesOf(groups, byPath, resolve, normalize)
  {
    series := [];
    for i := 0 to |groups|
      invariant series == SeriesOf(groups[..i], byPath, resolve, normalize)
    {
      assert groups[..i + 1][..i] == groups[..i];
      var found := FilesBehind(groups[i].paths, byPath, resolve);
      if found == [] {
        continue;
      }
      series := AddToSeries(series, normalize(groups[i].title), found);
    }
    TakeAll(groups);
  }

  /** Making an empty entry first changes nothing. */
  lemma PutTwice(d: Series, k: string, first: seq<FileMetadata>, v: seq<FileMetadata>)
    requires !Has(d, k)
    ensures Put(Put(d, k, first), k, v) == Put(d, k, v)
    ensures Get(Put(d, k, first), k, []) == first
    ensures Get(d, k, []) == []
  {
    PositionInPut(d, k, first, k);
  }

  method IndexByPath(files: seq<FileMetadata>, resolve: Resolve) returns (byPath: map<string, FileMetadata>)
    ensures byPath == ByPath(files, resolve)
  {
    byPath := map[];
    for i := 0 to |files|
      invariant byPath == ByPath(files[..i], resolve)
    {
      assert files[..i + 1][..i] == files[..i];
      byPath := byPath[resolve(files[i].path) := files[i]];
    }
    TakeAll(files);
  }

  method MergedSeries(files: seq<FileMetadata>, groups: seq<FileGroup>, resolve: Resolve, normalize: Normalize) returns (merged: Series)
    ensures merged == MergeById(SeriesOf(groups, ByPath(files, resolve), resolve, normalize))
  {
    var byPath := IndexByPath(files, resolve);
    var series := FileGroupsToSeriesGroups(groups, byPath, resolve, normalize);
    SeriesNamesAreDistinct(groups, byPath, resolve, normalize);
    var state := new SeriesGroups(series);
    state.MergeGroupsByTmdbId();
    merged := state.groups;
  }

  /** The displayed groups are numbered from 1 on, differently named and not empty; from disjoint groups of
      files with distinct paths, every file is displayed exactly once. */
  method Execute(files: seq<FileMetadata>, groups: seq<FileGroup>, resolve: Resolve, normalize: Normalize)
    returns (views: seq<GroupView>)
    ensures views == if files == [] then [] else Views(Built(files, groups, resolve, normalize))
    ensures forall i :: 0 <= i < |views| ==> views[i].id == i + 1 && views[i].files != []
    ensures forall i, j :: 0 <= i < j < |views| ==> views[i].name != views[j].name
    ensures DistinctPaths(files, resolve) && DisjointGroups(groups, resolve) ==> Displayed(views) == multiset(files)
  {
    DisplayIsComplete(files, groups, resolve, normalize);
    if files == [] {
      return [];
    }
    var result := MergedSeries(files, groups, resolve, normalize);
    var grouped := CollectResolved(result, resolve);
    var ungrouped := CollectUngrouped(files, grouped, resolve);
    if ungrouped != [] {
      result := Put(result, UNCATEGORIZED, Get(result, UNCATEGORIZED, []) + ungrouped);
    }
    views := Numbered(result);
  }

  method Numbered(result: Series) returns (views: seq<GroupView>)
    ensures views == Views(result)
  {
    views := [];
    for i := 0 to |result|
      invariant views == Views(result)[..i]
    {
      views := views + [GroupView(i + 1, result[i].0, result[i].1)];
    }
  }

  method CollectResolved(groups: Series, resolve: Resolve) returns (grouped: set<string>)
    ensures grouped == ResolvedIn(Concat(groups), resolve)
  {
    grouped := {};
    for i := 0 to |groups|
      invariant grouped == ResolvedIn(Concat(groups[..i]), resolve)
    {
      assert groups[..i + 1][..i] == groups[..i];
      grouped := grouped + set f | f in groups[i].1 :: resolve(f.path);
    }
    TakeAll(groups);
  }

  method CollectUngrouped(files: seq<FileMetadata>, grouped: set<string>, resolve: Resolve) returns (left: seq<FileMetadata>)
    ensures left == Leftover(files, grouped, resolve)
  {
    left := [];
    for i := 0 to |files|
      invariant left == Leftover(files[..i], grouped, resolve)
    {
      assert files[..i + 1][..i] == files[..i];
      if resolve(files[i].path) !in grouped {
        left := left + [files[i]];
      }
    }
    TakeAll(files);
  }

  // ---------- What is displayed ----------

  /** The files of all displayed groups together. */
  ghost function Displayed(views: seq<GroupView>): multiset<FileMetadata> {
    if views == [] then multiset{} else Displayed(views[..|views| - 1]) + multiset(views[|views| - 1].files)
  }

  lemma {:induction false} ViewsDisplayContents(groups: Series)
    ensures Displayed(Views(groups)) == Contents(groups)
  {
    if groups != [] {
      var n := |groups| - 1;
      assert Views(groups)[..n] == Views(groups[..n]);
      ViewsDisplayContents(groups[..n]);
    }
  }

  /** Groups that all hold files. */
  ghost predicate NoneEmpty(groups: Series) {
    forall i :: 0 <= i < |groups| ==> groups[i].1 != []
  }

  lemma {:induction false} SeriesAreNotEmpty(groups: seq<FileGroup>, byPath: map<string, FileMetadata>, resolve: Resolve, normalize: Normalize)
    ensures NoneEmpty(SeriesOf(groups, byPath, resolve, normalize))
  {
    if groups != [] {
      SeriesAreNotEmpty(groups[..|groups| - 1], byPath, resolve, normalize);
    }
  }

  lemma {:induction false} WritingLeavesNoneEmpty(start: Series, buckets: seq<TmdbBucket>)
    requires NoneEmpty(start) && forall i :: 0 <= i < |buckets| ==> Concat(buckets[i].1) != []
    ensures NoneEmpty(WriteAll(start, buckets))
  {
    if buckets != [] {
      WritingLeavesNoneEmpty(start, buckets[..|buckets| - 1]);
    }
  }

  lemma MergingLeavesNoneEmpty(groups: Series)
    requires DistinctKeys(groups) && NoneEmpty(groups)
    ensures NoneEmpty(MergeById(groups))
  {
    HavingIsFilter(groups, false);
    assert forall i :: 0 <= i < |Having(groups, false)| ==> Having(groups, false)[i] in groups;
    IdentifiedBucketsHoldFiles(groups);
    WritingLeavesNoneEmpty(Having(groups, false), IdBuckets(groups));
  }

  lemma CatchAllIsDistinctAndNotEmpty(groups: Series, files: seq<FileMetadata>, resolve: Resolve)
    requires DistinctKeys(groups) && NoneEmpty(groups)
    ensures DistinctKeys(WithCatchAll(groups, files, resolve)) && NoneEmpty(WithCatchAll(groups, files, resolve))
  {
    var left := Leftover(files, ResolvedIn(Concat(groups), resolve), resolve);
    PutKeepsDistinct(groups, UNCATEGORIZED, Get(groups, UNCATEGORIZED, []) + left);
  }

  /** The built groups are distinctly named, and none is empty. */
  lemma BuiltAreDistinctAndNotEmpty(files: seq<FileMetadata>, groups: seq<FileGroup>, resolve: Resolve, normalize: Normalize)
    ensures DistinctKeys(Built(files, groups, resolve, normalize)) && NoneEmpty(Built(files, groups, resolve, normalize))
  {
    var byPath := ByPath(files, resolve);
    var series := SeriesOf(groups, byPath, resolve, normalize);
    SeriesNamesAreDistinct(groups, byPath, resolve, normalize);
    SeriesAreNotEmpty(groups, byPath, resolve, normalize);
    MergingLeavesNoneEmpty(series);
    MergedGroupsHaveUniqueIds(series);
    CatchAllIsDistinctAndNotEmpty(MergeById(series), files, resolve);
  }

  /** Everything that the displayed groups promise. */
  lemma DisplayIsComplete(files: seq<FileMetadata>, groups: seq<FileGroup>, resolve: Resolve, normalize: Normalize)
    ensures var views := if files == [] then [] else Views(Built(files, groups, resolve, normalize));
            && (forall i :: 0 <= i < |views| ==> views[i].id == i + 1 && views[i].files != [])
            && (forall i, j :: 0 <= i < j < |views| ==> views[i].name != views[j].name)
            && (DistinctPaths(files, resolve) && DisjointGroups(groups, resolve) ==> Displayed(views) == multiset(files))
  {
    BuiltAreDistinctAndNotEmpty(files, groups, resolve, normalize);
    ViewsDisplayContents(Built(files, groups, resolve, normalize));
    if DistinctPaths(files, resolve) && DisjointGroups(groups, resolve) {
      EveryFileIsGroupedOnce(files, groups, resolve, normalize);
    }
  }

  // ---------- Which series a file goes to ----------

  /** The paths of all groups whose titles normalise to a name, in order. */
  ghost function PathsNamed(groups: seq<FileGroup>, normalize: Normalize, name: string): seq<string> {
    if groups == [] then []
    else PathsNamed(groups[..|groups| - 1], normalize, name)
         + (if normalize(groups[|groups| - 1].title) == name then groups[|groups| - 1].paths else [])
  }

  /** The series of a name holds, in order, the known files of exactly the groups whose titles normalise
      to that name. */
  lemma {:induction false} SeriesFollowTheTitles(groups: seq<FileGroup>, byPath: map<string, FileMetadata>, resolve: Resolve, normalize: Normalize, name: string)
    ensures Get(SeriesOf(groups, byPath, resolve, normalize), name, []) == Found(PathsNamed(groups, normalize, name), byPath, resolve)
  {
    if groups != [] {
      var init, last := groups[..|groups| - 1], groups[|groups| - 1];
      SeriesFollowTheTitles(init, byPath, resolve, normalize, name);
      FoundOfConcat(PathsNamed(init, normalize, name), last.paths, byPath, resolve);
      var rest, found := SeriesOf(init, byPath, resolve, normalize), Found(last.paths, byPath, resolve);
      GetAfterPut(rest, normalize(last.title), Get(rest, normalize(last.title), []) + found, name);
      assert PathsNamed(init, normalize, name) + [] == PathsNamed(init, normalize, name);
      assert Found(PathsNamed(init, normalize, name), byPath, resolve) + [] == Found(PathsNamed(init, normalize, name), byPath, resolve);
    }
  }

  /** Of several files with one resolved path the last is known. */
  lemma {:induction false} TheLastFileIsKnown(files: seq<FileMetadata>, resolve: Resolve, i: nat)
    requires i < |files| && forall j :: i < j < |files| ==> resolve(files[j].path) != resolve(files[i].path)
    ensures resolve(files[i].path) in ByPath(files, resolve) && ByPath(files, resolve)[resolve(files[i].path)] == files[i]
  {
    if i < |files| - 1 {
      TheLastFileIsKnown(files[..|files| - 1], resolve, i);
    }
  }

  // ---------- Conservation ----------

  lemma {:induction false} SeriesNamesAreDistinct(groups: seq<FileGroup>, byPath: map<string, FileMetadata>, resolve: Resolve, normalize: Normalize)
    ensures DistinctKeys(SeriesOf(groups, byPath, resolve, normalize))
  {
    if groups != [] {
      var rest, last := SeriesOf(groups[..|groups| - 1], byPath, resolve, normalize), groups[|groups| - 1];
      SeriesNamesAreDistinct(groups[..|groups| - 1], byPath, resolve, normalize);
      PutKeepsDistinct(rest, normalize(last.title), Get(rest, normalize(last.title), []) + Found(last.paths, byPath, resolve));
    }
  }

  /** No two files resolve to one path. */
  ghost predicate DistinctPaths(files: seq<FileMetadata>, resolve: Resolve) {
    forall i, j :: 0 <= i < j < |files| ==> resolve(files[i].path) != resolve(files[j].path)
  }

  function AllPaths(groups: seq<FileGroup>): seq<string> {
    if groups == [] then [] else AllPaths(groups[..|groups| - 1]) + groups[|groups| - 1].paths
  }

  /** The grouper's groups are disjoint: no two of their files resolve to one path. */
  ghost predicate DisjointGroups(groups: seq<FileGroup>, resolve: Resolve) {
    forall i, j :: 0 <= i < j < |AllPaths(groups)| ==> resolve(AllPaths(groups)[i]) != resolve(AllPaths(groups)[j])
  }

  lemma {:induction false} ByPathIsCorrect(files: seq<FileMetadata>, resolve: Resolve)
    ensures forall q :: q in ByPath(files, resolve) ==> ByPath(files, resolve)[q] in files && resolve(ByPath(files, resolve)[q].path) == q
    ensures forall f :: f in files ==> resolve(f.path) in ByPath(files, resolve)
  {
    if files != [] {
      ByPathIsCorrect(files[..|files| - 1], resolve);
      assert files == files[..|files| - 1] + [files[|files| - 1]];
    }
  }

  lemma {:induction false} FoundOfConcat(a: seq<string>, b: seq<string>, byPath: map<string, FileMetadata>, resolve: Resolve)
    ensures Found(a + b, byPath, resolve) == Found(a, byPath, resolve) + Found(b, byPath, resolve)
  {
    if b == [] {
      assert a + b == a;
    } else {
      assert (a + b)[..|a + b| - 1] == a + b[..|b| - 1];
      FoundOfConcat(a, b[..|b| - 1], byPath, resolve);
    }
  }

  /** The series groups hold exactly the known files of the grouper's groups. */
  lemma {:induction false} SeriesHoldWhatIsFound(groups: seq<FileGroup>, byPath: map<string, FileMetadata>, resolve: Resolve, normalize: Normalize)
    ensures Contents(SeriesOf(groups, byPath, resolve, normalize)) == multiset(Found(AllPaths(groups), byPath, resolve))
  {
    if groups != [] {
      var init, last := groups[..|groups| - 1], groups[|groups| - 1];
      SeriesHoldWhatIsFound(init, byPath, resolve, normalize);
      FoundOfConcat(AllPaths(init), last.paths, byPath, resolve);
      var rest, found := SeriesOf(init, byPath, resolve, normalize), Found(last.paths, byPath, resolve);
      ExtendingAdds(rest, normalize(last.title), found);
      assert multiset(Found(AllPaths(init), byPath, resolve) + found) == multiset(Found(AllPaths(init), byPath, resolve)) + multiset(found);
    }
  }

  lemma ExtendingAdds(d: Series, k: string, more: seq<FileMetadata>)
    ensures Contents(Put(d, k, Get(d, k, []) + more)) == Contents(d) + multiset(more)
  {
    ContentsOfPut(d, k, Get(d, k, []) + more);
    assert multiset(Get(d, k, []) + more) == multiset(Get(d, k, [])) + multiset(more);
    Cancel(Contents(Put(d, k, Get(d, k, []) + more)), Contents(d), multiset(Get(d, k, [])), multiset(more));
  }

  /** What is found lies among the files and under the given paths. */
  lemma {:induction false} FoundAreKnown(paths: seq<string>, files: seq<FileMetadata>, resolve: Resolve, f: FileMetadata)
    requires f in Found(paths, ByPath(files, resolve), resolve)
    ensures f in files && exists i :: 0 <= i < |paths| && resolve(paths[i]) == resolve(f.path)
  {
    ByPathIsCorrect(files, resolve);
    var rest := paths[..|paths| - 1];
    if f in Found(rest, ByPath(files, resolve), resolve) {
      FoundAreKnown(rest, files, resolve, f);
      var i :| 0 <= i < |rest| && resolve(rest[i]) == resolve(f.path);
      assert paths[i] == rest[i];
    } else {
      assert resolve(paths[|paths| - 1]) == resolve(f.path);
    }
  }

  lemma {:induction false} KnownPathsAreFound(paths: seq<string>, byPath: map<string, FileMetadata>, resolve: Resolve, i: nat)
    requires i < |paths| && resolve(paths[i]) in byPath
    ensures byPath[resolve(paths[i])] in Found(paths, byPath, resolve)
  {
    if i < |paths| - 1 {
      KnownPathsAreFound(paths[..|paths| - 1], byPath, resolve, i);
    }
  }

  /** With distinct paths a file is found under some paths exactly if one of them leads to it. */
  lemma FoundExactly(paths: seq<string>, files: seq<FileMetadata>, resolve: Resolve, f: FileMetadata)
    requires DistinctPaths(files, resolve) && f in files
    ensures f in Found(paths, ByPath(files, resolve), resolve) <==> exists i :: 0 <= i < |paths| && resolve(paths[i]) == resolve(f.path)
  {
    ByPathIsCorrect(files, resolve);
    if f in Found(paths, ByPath(files, resolve), resolve) {
      FoundAreKnown(paths, files, resolve, f);
    }
    if i: nat :| i < |paths| && resolve(paths[i]) == resolve(f.path) {
      KnownPathsAreFound(paths, ByPath(files, resolve), resolve, i);
      SamePathSameFile(files, resolve, f, ByPath(files, resolve)[resolve(f.path)]);
    }
  }

  /** From disjoint groups each file is found at most once. */
  lemma {:induction false} FoundOnce(paths: seq<string>, files: seq<FileMetadata>, resolve: Resolve, f: FileMetadata)
    requires forall i, j :: 0 <= i < j < |paths| ==> resolve(paths[i]) != resolve(paths[j])
    ensures multiset(Found(paths, ByPath(files, resolve), resolve))[f] <= 1
  {
    if paths != [] {
      var rest, byPath, q := paths[..|paths| - 1], ByPath(files, resolve), resolve(paths[|paths| - 1]);
      FoundOnce(rest, files, resolve, f);
      var before := Found(rest, byPath, resolve);
      if q in byPath {
        ByPathIsCorrect(files, resolve);
        assert multiset(before + [byPath[q]]) == multiset(before) + multiset{byPath[q]};
        if byPath[q] in before {
          FoundAreKnown(rest, files, resolve, byPath[q]);
        }
      }
    }
  }

  lemma CountOneMore(files: seq<FileMetadata>, last: FileMetadata, f: FileMetadata)
    ensures multiset(files + [last])[f] == multiset(files)[f] + (if f == last then 1 else 0)
  {
    assert multiset(files + [last]) == multiset(files) + multiset{last};
  }

  lemma LeftoverOneMore(rest: seq<FileMetadata>, last: FileMetadata, grouped: set<string>, resolve: Resolve)
    ensures Leftover(rest + [last], grouped, resolve)
         == if resolve(last.path) in grouped then Leftover(rest, grouped, resolve) else Leftover(rest, grouped, resolve) + [last]
  {
    assert (rest + [last])[..|rest|] == rest;
  }

  lemma LeftoverCount(rest: seq<FileMetadata>, last: FileMetadata, grouped: set<string>, resolve: Resolve, f: FileMetadata)
    ensures multiset(Leftover(rest + [last], grouped, resolve))[f]
         == multiset(Leftover(rest, grouped, resolve))[f] + (if resolve(last.path) !in grouped && f == last then 1 else 0)
  {
    LeftoverOneMore(rest, last, grouped, resolve);
    CountOneMore(Leftover(rest, grouped, resolve), last, f);
  }

  lemma {:induction false} LeftoverIsFilter(files: seq<FileMetadata>, grouped: set<string>, resolve: Resolve, f: FileMetadata)
    ensures multiset(Leftover(files, grouped, resolve))[f] == if resolve(f.path) in grouped then 0 else multiset(files)[f]
  {
    if files != [] {
      var rest, last := files[..|files| - 1], files[|files| - 1];
      assert files == rest + [last];
      LeftoverIsFilter(rest, grouped, resolve, f);
      LeftoverCount(rest, last, grouped, resolve, f);
      CountOneMore(rest, last, f);
    }
  }

  lemma DistinctPathsOccurOnce(files: seq<FileMetadata>, resolve: Resolve, f: FileMetadata)
    requires DistinctPaths(files, resolve)
    ensures multiset(files)[f] == if f in files then 1 else 0
  {
    if files != [] {
      var rest, last := files[..|files| - 1], files[|files| - 1];
      DistinctPathsOccurOnce(rest, resolve, f);
      assert files == rest + [last];
      assert multiset(rest + [last]) == multiset(rest) + multiset{last};
      if f in rest {
        var i :| 0 <= i < |rest| && rest[i] == f;
        assert resolve(files[i].path) != resolve(files[|rest|].path);
      }
    }
  }

  /** The catch-all restores whatever subset of the files has survived to all of them. */
  lemma CatchAllCompletes(groups: Series, files: seq<FileMetadata>, resolve: Resolve)
    requires DistinctPaths(files, resolve)
    requires forall f :: Contents(groups)[f] <= (if f in files then 1 else 0)
    ensures Contents(WithCatchAll(groups, files, resolve)) == multiset(files)
  {
    var grouped := ResolvedIn(Concat(groups), resolve);
    var left := Leftover(files, grouped, resolve);
    ConcatHoldsContents(groups);
    ExtendingAdds(groups, UNCATEGORIZED, left);
    forall f ensures (Contents(groups) + multiset(left))[f] == multiset(files)[f] {
      LeftoverIsFilter(files, grouped, resolve, f);
      DistinctPathsOccurOnce(files, resolve, f);
      assert f in Concat(groups) <==> Contents(groups)[f] > 0;
      if resolve(f.path) in grouped && f in files {
        var g :| g in Concat(groups) && resolve(g.path) == resolve(f.path);
        assert Contents(groups)[g] > 0;
        SamePathSameFile(files, resolve, f, g);
      }
    }
    assert Contents(groups) + multiset(left) == multiset(files);
    assert left == [] ==> Contents(groups) + multiset(left) == Contents(groups);
  }

  /** The catch-all group is extended by the files that are in no group, in order; other groups stay. */
  lemma CatchAllExtends(groups: Series, files: seq<FileMetadata>, resolve: Resolve, name: string)
    ensures Get(WithCatchAll(groups, files, resolve), name, [])
         == if name == UNCATEGORIZED then Get(groups, name, []) + Leftover(files, ResolvedIn(Concat(groups), resolve), resolve)
            else Get(groups, name, [])
  {
    var left := Leftover(files, ResolvedIn(Concat(groups), resolve), resolve);
    GetAfterPut(groups, UNCATEGORIZED, Get(groups, UNCATEGORIZED, []) + left, name);
    assert Get(groups, name, []) + [] == Get(groups, name, []);
  }

  lemma LastOfThreeIsLeft(f: FileMetadata, g: FileMetadata, h: FileMetadata, grouped: set<string>, resolve: Resolve)
    requires resolve(f.path) in grouped && resolve(g.path) in grouped && resolve(h.path) !in grouped
    ensures Leftover([f, g, h], grouped, resolve) == [h]
  {
    assert [f, g, h][..2] == [f, g] && [f, g][..1] == [f] && [f][..0] == [];
    assert Leftover([f], grouped, resolve) == [] && Leftover([f, g], grouped, resolve) == [];
  }

  lemma CatchAllTakesTheLast(x: string, f: FileMetadata, g: FileMetadata, h: FileMetadata, resolve: Resolve)
    requires x != UNCATEGORIZED && resolve(h.path) != resolve(f.path) && resolve(h.path) != resolve(g.path)
    ensures WithCatchAll([(x, [f, g])], [f, g, h], resolve) == [(x, [f, g]), (UNCATEGORIZED, [h])]
  {
    var merged: Series := [(x, [f, g])];
    assert merged[..0] == [] && Concat(merged) == [f, g];
    var grouped := ResolvedIn([f, g], resolve);
    assert f in [f, g] && g in [f, g];
    LastOfThreeIsLeft(f, g, h, grouped, resolve);
    assert Position(merged, UNCATEGORIZED) == 1;
    assert [] + [h] == [h];
  }

  /** The catch-all group brings the unmatched file of the three groups back. */
  lemma CatchAllSavesTheUnmatched(resolve: Resolve)
    requires resolve(UNMATCHED.path) != resolve(MATCHED.path) && resolve(UNMATCHED.path) != resolve(UNTITLED.path)
    ensures WithCatchAll(MergeById(THREE_GROUPS), [MATCHED, UNTITLED, UNMATCHED], resolve)
         == [("X", [MATCHED, UNTITLED]), (UNCATEGORIZED, [UNMATCHED])]
  {
    UnmatchedNamesakeIsLost();
    assert "X" != UNCATEGORIZED;
    CatchAllTakesTheLast("X", MATCHED, UNTITLED, UNMATCHED, resolve);
  }

  lemma SamePathSameFile(files: seq<FileMetadata>, resolve: Resolve, f: FileMetadata, g: FileMetadata)
    requires DistinctPaths(files, resolve) && f in files && g in files && resolve(f.path) == resolve(g.path)
    ensures f == g
  {
    var i :| 0 <= i < |files| && files[i] == f;
    var j :| 0 <= j < |files| && files[j] == g;
  }

  /** Every input file is in the built groups exactly once, even where merged titles overwrite groups. */
  lemma EveryFileIsGroupedOnce(files: seq<FileMetadata>, groups: seq<FileGroup>, resolve: Resolve, normalize: Normalize)
    requires DistinctPaths(files, resolve) && DisjointGroups(groups, resolve)
    ensures Contents(Built(files, groups, resolve, normalize)) == multiset(files)
  {
    var byPath := ByPath(files, resolve);
    var series := SeriesOf(groups, byPath, resolve, normalize);
    SeriesNamesAreDistinct(groups, byPath, resolve, normalize);
    SeriesHoldWhatIsFound(groups, byPath, resolve, normalize);
    MergingInventsNothing(series);
    forall f ensures Contents(MergeById(series))[f] <= (if f in files then 1 else 0) {
      assert Contents(MergeById(series))[f] <= Contents(series)[f];
      FoundOnce(AllPaths(groups), files, resolve, f);
      if f in Found(AllPaths(groups), byPath, resolve) {
        FoundAreKnown(AllPaths(groups), files, resolve, f);
      }
    }
    CatchAllCompletes(MergeById(series), files, resolve);
  }

  // ---------- A whole display ----------

  // One group from each of three directories, before normalising.
  const THREE_FILES := [MATCHED, UNTITLED, UNMATCHED]
  const FOUND_GROUPS := [FileGroup("A - 01", ["/a/1.mkv"]), FileGroup("B - 02", ["/b/2.mkv"]), FileGroup("X - 03", ["/c/3.mkv"])]

  lemma ThreeFilesByPath(byPath: map<string, FileMetadata>, same: Resolve)
    requires (forall p :: same(p) == p) && byPath == ByPath(THREE_FILES, same)
    ensures "/a/1.mkv" in byPath && byPath["/a/1.mkv"] == MATCHED
    ensures "/b/2.mkv" in byPath && byPath["/b/2.mkv"] == UNTITLED
    ensures "/c/3.mkv" in byPath && byPath["/c/3.mkv"] == UNMATCHED
  {
    assert "/a/1.mkv"[1] != "/b/2.mkv"[1] && "/a/1.mkv"[1] != "/c/3.mkv"[1] && "/b/2.mkv"[1] != "/c/3.mkv"[1];
    TheLastFileIsKnown(THREE_FILES, same, 0);
    TheLastFileIsKnown(THREE_FILES, same, 1);
    TheLastFileIsKnown(THREE_FILES, same, 2);
  }

  lemma OneFound(path: string, byPath: map<string, FileMetadata>, same: Resolve)
    requires same(path) == path && path in byPath
    ensures Found([path], byPath, same) == [byPath[path]]
  {
    assert [path][..0] == [];
  }

  lemma NewSeries(groups: seq<FileGroup>, last: FileGroup, found: FileMetadata, byPath: map<string, FileMetadata>, same: Resolve, normalize: Normalize)
    requires Found(last.paths, byPath, same) == [found] && !Has(SeriesOf(groups, byPath, same, normalize), normalize(last.title))
    ensures SeriesOf(groups + [last], byPath, same, normalize)
         == SeriesOf(groups, byPath, same, normalize) + [(normalize(last.title), [found])]
  {
    assert (groups + [last])[..|groups|] == groups && [] + [found] == [found];
  }

  lemma ThreeSeries(byPath: map<string, FileMetadata>, same: Resolve, normalize: Normalize)
    requires (forall p :: same(p) == p) && byPath == ByPath(THREE_FILES, same)
    requires normalize("A - 01") == "A" && normalize("B - 02") == "B" && normalize("X - 03") == "X"
    ensures SeriesOf(FOUND_GROUPS, byPath, same, normalize) == THREE_GROUPS
  {
    ThreeFilesByPath(byPath, same);
    OneFound("/a/1.mkv", byPath, same);
    OneFound("/b/2.mkv", byPath, same);
    OneFound("/c/3.mkv", byPath, same);
    var groups := FOUND_GROUPS;
    assert "A"[0] != "B"[0] && "A"[0] != "X"[0] && "B"[0] != "X"[0];
    NewSeries([], groups[0], MATCHED, byPath, same, normalize);
    assert [] + [groups[0]] == groups[..1];
    NewSeries(groups[..1], groups[1], UNTITLED, byPath, same, normalize);
    assert groups[..1] + [groups[1]] == groups[..2];
    NewSeries(groups[..2], groups[2], UNMATCHED, byPath, same, normalize);
    assert groups[..2] + [groups[2]] == groups;
  }

  lemma ThreeFilesAreBuilt(same: Resolve, normalize: Normalize)
    requires forall p :: same(p) == p
    requires normalize("A - 01") == "A" && normalize("B - 02") == "B" && normalize("X - 03") == "X"
    ensures Built(THREE_FILES, FOUND_GROUPS, same, normalize) == [("X", [MATCHED, UNTITLED]), (UNCATEGORIZED, [UNMATCHED])]
  {
    ThreeSeries(ByPath(THREE_FILES, same), same, normalize);
    assert UNMATCHED.path[1] != MATCHED.path[1] && UNMATCHED.path[1] != UNTITLED.path[1];
    CatchAllSavesTheUnmatched(same);
  }

  lemma TwoViews(a: (string, seq<FileMetadata>), b: (string, seq<FileMetadata>))
    ensures Views([a, b]) == [GroupView(1, a.0, a.1), GroupView(2, b.0, b.1)]
  {
  }

  /** Two files of one series, titled X, and an unmatched one whose name looks like X: the merged group is
      displayed first, and the file it has pushed out under the catch-all name. */
  method DisplayThreeFiles(same: Resolve, normalize: Normalize) returns (views: seq<GroupView>)
    requires forall p :: same(p) == p
    requires normalize("A - 01") == "A" && normalize("B - 02") == "B" && normalize("X - 03") == "X"
    ensures views == [GroupView(1, "X", [MATCHED, UNTITLED]), GroupView(2, UNCATEGORIZED, [UNMATCHED])]
  {
    ThreeFilesAreBuilt(same, normalize);
    TwoViews(("X", [MATCHED, UNTITLED]), (UNCATEGORIZED, [UNMATCHED]));
    views := Execute(THREE_FILES, FOUND_GROUPS, same, normalize);
  }
}
