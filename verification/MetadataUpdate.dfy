/** The fast path after a metadata update: keep the groups and renew their files, when that is safe. */
module MetadataUpdates {
  import opened Options
  import opened Sequences
  import opened CanonicalIds
  import opened BuildGroups

  type ById = map<int, set<nat>>

  function PathsOf(files: seq<FileMetadata>): seq<string> {
    seq(|files|, i requires 0 <= i < |files| => files[i].path)
  }

  /** The new ids of files, where they have one. */
  ghost function IdsOf(files: seq<FileMetadata>, byPath: map<string, FileMetadata>, resolve: Resolve): set<int> {
    set f | f in Found(PathsOf(files), byPath, resolve) && f.tmdbId.Some? :: f.tmdbId.value
  }

  /** The new files of the i-th group. */
  ghost function Renewed(group: GroupView, byPath: map<string, FileMetadata>, resolve: Resolve): seq<FileMetadata> {
    Found(PathsOf(group.files), byPath, resolve)
  }

  /** Which groups an id would be in. */
  ghost function Holders(groups: seq<GroupView>, byPath: map<string, FileMetadata>, resolve: Resolve, id: int): set<nat> {
    set i: nat | i < |groups| && id in IdsOf(groups[i].files, byPath, resolve)
  }

  ghost predicate Shares(groups: seq<GroupView>, byPath: map<string, FileMetadata>, resolve: Resolve, i: nat, j: nat, id: int)
    requires i < j < |groups|
  {
    id in IdsOf(groups[i].files, byPath, resolve) && id in IdsOf(groups[j].files, byPath, resolve)
  }

  /** Two groups would come to share an id. */
  ghost predicate NeedsMerge(groups: seq<GroupView>, byPath: map<string, FileMetadata>, resolve: Resolve) {
    exists i, j, id :: 0 <= i < j < |groups| && Shares(groups, byPath, resolve, i, j, id)
  }

  ghost function GroupedPaths(groups: seq<GroupView>, resolve: Resolve): set<string> {
    set i, f | 0 <= i < |groups| && f in groups[i].files :: resolve(f.path)
  }

  /** The groups that keep files, renewed, under their old places and names. */
  ghost function Updates(groups: seq<GroupView>, byPath: map<string, FileMetadata>, resolve: Resolve): seq<GroupView> {
    if groups == [] then []
    else
      var last := groups[|groups| - 1];
      var renewed := Renewed(last, byPath, resolve);
      Updates(groups[..|groups| - 1], byPath, resolve)
        + (if renewed == [] then [] else [GroupView(|groups|, last.name, renewed)])
  }

  /** When the fast path may be taken. */
  ghost predicate Safe(groups: seq<GroupView>, files: seq<FileMetadata>, resolve: Resolve) {
    && groups != [] && files != []
    && ByPath(files, resolve).Keys == GroupedPaths(groups, resolve) && |ByPath(files, resolve)| == |files|
    && !NeedsMerge(groups, ByPath(files, resolve), resolve)
  }

  // ---------- The code ----------

  method IdForFile(fm: FileMetadata, byPath: map<string, FileMetadata>, resolve: Resolve) returns (id: Option<int>)
    ensures id == if resolve(fm.path) in byPath then byPath[resolve(fm.path)].tmdbId else None
  {
    var resolved := resolve(fm.path);
    if resolved !in byPath {
      return None;
    }
    return byPath[resolved].tmdbId;
  }

  /** The table of holders, complete for the groups before the i-th and for some ids of the i-th. */
  ghost predicate HolderOk(table: ById, groups: seq<GroupView>, byPath: map<string, FileMetadata>, resolve: Resolve, more: set<int>, id: int) {
    var holders := Holders(groups, byPath, resolve, id) + (if id in more then {|groups|} else {});
    (id in table <==> holders != {}) && (id in table ==> table[id] == holders)
  }

  ghost predicate HoldersOk(table: ById, groups: seq<GroupView>, byPath: map<string, FileMetadata>, resolve: Resolve, more: set<int>) {
    forall id {:trigger HolderOk(table, groups, byPath, resolve, more, id)} :: HolderOk(table, groups, byPath, resolve, more, id)
  }

  lemma FoundOneMore(files: seq<FileMetadata>, fm: FileMetadata, byPath: map<string, FileMetadata>, resolve: Resolve)
    ensures Found(PathsOf(files + [fm]), byPath, resolve)
         == Found(PathsOf(files), byPath, resolve) + (if resolve(fm.path) in byPath then [byPath[resolve(fm.path)]] else [])
  {
    assert PathsOf(files + [fm])[..|files|] == PathsOf(files);
  }

  ghost function NewIds(fm: FileMetadata, byPath: map<string, FileMetadata>, resolve: Resolve): set<int> {
    var q := resolve(fm.path);
    if q in byPath && byPath[q].tmdbId.Some? then {byPath[q].tmdbId.value} else {}
  }

  lemma IdsOneMore(files: seq<FileMetadata>, fm: FileMetadata, byPath: map<string, FileMetadata>, resolve: Resolve)
    ensures IdsOf(files + [fm], byPath, resolve) == IdsOf(files, byPath, resolve) + NewIds(fm, byPath, resolve)
  {
    FoundOneMore(files, fm, byPath, resolve);
  }

  lemma NotingKeepsHolders(table: ById, groups: seq<GroupView>, byPath: map<string, FileMetadata>, resolve: Resolve, more: set<int>, id: int)
    requires HoldersOk(table, groups, byPath, resolve, more)
    ensures HoldersOk(table[id := (if id in table then table[id] else {}) + {|groups|}], groups, byPath, resolve, more + {id})
  {
    var table' := table[id := (if id in table then table[id] else {}) + {|groups|}];
    forall x ensures HolderOk(table', groups, byPath, resolve, more + {id}, x) {
      assert HolderOk(table, groups, byPath, resolve, more, x);
    }
  }

  lemma NextGroup(table: ById, groups: seq<GroupView>, g: GroupView, byPath: map<string, FileMetadata>, resolve: Resolve)
    requires HoldersOk(table, groups, byPath, resolve, IdsOf(g.files, byPath, resolve))
    ensures HoldersOk(table, groups + [g], byPath, resolve, {})
  {
    forall id ensures HolderOk(table, groups + [g], byPath, resolve, {}, id) {
      assert HolderOk(table, groups, byPath, resolve, IdsOf(g.files, byPath, resolve), id);
      assert Holders(groups + [g], byPath, resolve, id)
          == Holders(groups, byPath, resolve, id) + (if id in IdsOf(g.files, byPath, resolve) then {|groups|} else {});
    }
  }

  method NoteGroup(table: ById, ghost groups: seq<GroupView>, index: nat, files: seq<FileMetadata>, byPath: map<string, FileMetadata>, resolve: Resolve)
    returns (r: ById)
    requires HoldersOk(table, groups, byPath, resolve, {}) && index == |groups|
    ensures HoldersOk(r, groups, byPath, resolve, IdsOf(files, byPath, resolve))
  {
    r := table;
    assert IdsOf([], byPath, resolve) == {};
    for j := 0 to |files|
      invariant HoldersOk(r, groups, byPath, resolve, IdsOf(files[..j], byPath, resolve))
    {
      TakeOneMore(files, j);
      IdsOneMore(files[..j], files[j], byPath, resolve);
      var id := IdForFile(files[j], byPath, resolve);
      if id.Some? {
        NotingKeepsHolders(r, groups, byPath, resolve, IdsOf(files[..j], byPath, resolve), id.value);
        r := r[id.value := (if id.value in r then r[id.value] else {}) + {index}];
      } else {
        assert IdsOf(files[..j + 1], byPath, resolve) == IdsOf(files[..j], byPath, resolve);
      }
    }
    TakeAll(files);
  }

  lemma TwoMembers(s: set<nat>)
    ensures |s| > 1 <==> exists i, j :: i < j && i in s && j in s
  {
    if exists i, j :: i < j && i in s && j in s {
      var i, j :| i < j && i in s && j in s;
      assert |s| == |s - {i, j}| + |{i, j}|;
    }
    if |s| > 1 {
      var i :| i in s;
      assert |s - {i}| == |s| - 1 > 0;
      var j :| j in s - {i};
      assert i < j || j < i;
    }
  }

  lemma SharedIdIsHeldTwice(table: ById, groups: seq<GroupView>, byPath: map<string, FileMetadata>, resolve: Resolve)
    requires HoldersOk(table, groups, byPath, resolve, {}) && NeedsMerge(groups, byPath, resolve)
    ensures exists id :: id in table && |table[id]| > 1
  {
    var i, j, id :| 0 <= i < j < |groups| && Shares(groups, byPath, resolve, i, j, id);
    assert HolderOk(table, groups, byPath, resolve, {}, id);
    assert i in Holders(groups, byPath, resolve, id) && j in Holders(groups, byPath, resolve, id);
    TwoMembers(table[id]);
  }

  lemma HeldTwiceIsShared(table: ById, groups: seq<GroupView>, byPath: map<string, FileMetadata>, resolve: Resolve, id: int)
    requires HoldersOk(table, groups, byPath, resolve, {}) && id in table && |table[id]| > 1
    ensures NeedsMerge(groups, byPath, resolve)
  {
    assert HolderOk(table, groups, byPath, resolve, {}, id);
    TwoMembers(table[id]);
    var i, j :| i < j && i in table[id] && j in table[id];
    assert Shares(groups, byPath, resolve, i, j, id);
  }

  lemma SharedIdNeedsMerge(table: ById, groups: seq<GroupView>, byPath: map<string, FileMetadata>, resolve: Resolve)
    requires HoldersOk(table, groups, byPath, resolve, {})
    ensures NeedsMerge(groups, byPath, resolve) <==> exists id :: id in table && |table[id]| > 1
  {
    if NeedsMerge(groups, byPath, resolve) {
      SharedIdIsHeldTwice(table, groups, byPath, resolve);
    } else if id :| id in table && |table[id]| > 1 {
      HeldTwiceIsShared(table, groups, byPath, resolve, id);
    }
  }

  /** Whether some id would be in more than one group, by a table of the groups of each id. */
  method NeedsMergeByTmdbId(groups: seq<GroupView>, byPath: map<string, FileMetadata>, resolve: Resolve) returns (b: bool)
    ensures b <==> NeedsMerge(groups, byPath, resolve)
  {
    var table: ById := map[];
    forall id ensures HolderOk(table, [], byPath, resolve, {}, id) {
    }
    for i := 0 to |groups|
      invariant HoldersOk(table, groups[..i], byPath, resolve, {})
    {
      TakeOneMore(groups, i);
      table := NoteGroup(table, groups[..i], i, groups[i].files, byPath, resolve);
      NextGroup(table, groups[..i], groups[i], byPath, resolve);
    }
    TakeAll(groups);
    SharedIdNeedsMerge(table, groups, byPath, resolve);
    b := exists id | id in table :: |table[id]| > 1;
  }

  method CollectPaths(groups: seq<GroupView>, resolve: Resolve) returns (paths: set<string>)
    ensures paths == GroupedPaths(groups, resolve)
  {
    paths := {};
    for i := 0 to |groups|
      invariant paths == GroupedPaths(groups[..i], resolve)
    {
      PathsOneMore(groups[..i], groups[i], resolve);
      TakeOneMore(groups, i);
      paths := paths + set f | f in groups[i].files :: resolve(f.path);
    }
    TakeAll(groups);
  }

  lemma PathsOneMore(groups: seq<GroupView>, g: GroupView, resolve: Resolve)
    ensures GroupedPaths(groups + [g], resolve) == GroupedPaths(groups, resolve) + set f | f in g.files :: resolve(f.path)
  {
    var all := groups + [g];
    assert all[|groups|] == g && forall i :: 0 <= i < |groups| ==> all[i] == groups[i];
  }

  method RenewGroups(groups: seq<GroupView>, byPath: map<string, FileMetadata>, resolve: Resolve) returns (updated: seq<GroupView>)
    ensures updated == Updates(groups, byPath, resolve)
  {
    updated := [];
    for i := 0 to |groups|
      invariant updated == Updates(groups[..i], byPath, resolve)
    {
      assert groups[..i + 1][..i] == groups[..i];
      var renewed := FilesBehind(PathsOf(groups[i].files), byPath, resolve);
      if renewed == [] {
        continue;
      }
      updated := updated + [GroupView(i + 1, groups[i].name, renewed)];
    }
    TakeAll(groups);
  }

  /** None asks for a full rebuild. */
  method ApplyMetadataUpdate(groups: seq<GroupView>, files: seq<FileMetadata>, resolve: Resolve) returns (updated: Option<seq<GroupView>>)
    ensures updated == if Safe(groups, files, resolve) then Some(Updates(groups, ByPath(files, resolve), resolve)) else None
  {
    if groups == [] || files == [] {
      return None;
    }
    var byPath := IndexByPath(files, resolve);
    var existing := CollectPaths(groups, resolve);
    if byPath.Keys != existing || |byPath| != |files| {
      return None;
    }
    var merge := NeedsMergeByTmdbId(groups, byPath, resolve);
    if merge {
      return None;
    }
    var renewed := RenewGroups(groups, byPath, resolve);
    updated := Some(renewed);
  }

  // ---------- What the fast path keeps ----------

  ghost function PathsIn(groups: seq<GroupView>): seq<string> {
    if groups == [] then [] else PathsIn(groups[..|groups| - 1]) + PathsOf(groups[|groups| - 1].files)
  }

  ghost function FilesIn(groups: seq<GroupView>): seq<FileMetadata> {
    if groups == [] then [] else FilesIn(groups[..|groups| - 1]) + groups[|groups| - 1].files
  }

  /** No path is in the groups twice. */
  ghost predicate GroupedOnce(groups: seq<GroupView>, resolve: Resolve) {
    forall i, j :: 0 <= i < j < |PathsIn(groups)| ==> resolve(PathsIn(groups)[i]) != resolve(PathsIn(groups)[j])
  }

  lemma {:induction false} UpdatesHoldWhatIsFound(groups: seq<GroupView>, byPath: map<string, FileMetadata>, resolve: Resolve)
    ensures FilesIn(Updates(groups, byPath, resolve)) == Found(PathsIn(groups), byPath, resolve)
  {
    if groups != [] {
      var rest, last := groups[..|groups| - 1], groups[|groups| - 1];
      UpdatesHoldWhatIsFound(rest, byPath, resolve);
      FoundOfConcat(PathsIn(rest), PathsOf(last.files), byPath, resolve);
      var updates := Updates(rest, byPath, resolve);
      assert Updates(groups, byPath, resolve) != updates ==> Updates(groups, byPath, resolve)[..|updates|] == updates;
    }
  }

  ghost predicate Leads(paths: seq<string>, resolve: Resolve, q: string) {
    exists i :: 0 <= i < |paths| && resolve(paths[i]) == q
  }

  lemma LeadsOfConcat(a: seq<string>, b: seq<string>, resolve: Resolve, q: string)
    ensures Leads(a + b, resolve, q) <==> Leads(a, resolve, q) || Leads(b, resolve, q)
  {
    if Leads(a, resolve, q) {
      var i :| 0 <= i < |a| && resolve(a[i]) == q;
      assert resolve((a + b)[i]) == q;
    }
    if Leads(b, resolve, q) {
      var i :| 0 <= i < |b| && resolve(b[i]) == q;
      assert resolve((a + b)[|a| + i]) == q;
    }
  }

  lemma LeadsOfFiles(files: seq<FileMetadata>, resolve: Resolve, q: string)
    ensures Leads(PathsOf(files), resolve, q) <==> exists f :: f in files && resolve(f.path) == q
  {
    if exists f :: f in files && resolve(f.path) == q {
      var f :| f in files && resolve(f.path) == q;
      var i :| 0 <= i < |files| && files[i] == f;
      assert resolve(PathsOf(files)[i]) == q;
    }
  }

  lemma {:induction false} PathsAreGrouped(groups: seq<GroupView>, resolve: Resolve, q: string)
    ensures q in GroupedPaths(groups, resolve) <==> Leads(PathsIn(groups), resolve, q)
  {
    if groups != [] {
      var rest, last := groups[..|groups| - 1], groups[|groups| - 1];
      PathsAreGrouped(rest, resolve, q);
      PathsOneMore(rest, last, resolve);
      assert rest + [last] == groups;
      LeadsOfConcat(PathsIn(rest), PathsOf(last.files), resolve, q);
      LeadsOfFiles(last.files, resolve, q);
    }
  }

  lemma DistinctOneMore(rest: seq<FileMetadata>, last: FileMetadata, resolve: Resolve)
    ensures DistinctPaths(rest + [last], resolve) <==> DistinctPaths(rest, resolve) && resolve(last.path) !in ByPath(rest, resolve)
  {
    var files, byPath, q := rest + [last], ByPath(rest, resolve), resolve(last.path);
    ByPathIsCorrect(rest, resolve);
    if q in byPath {
      var i :| 0 <= i < |rest| && rest[i] == byPath[q];
      assert files[i] == rest[i] && files[|rest|] == last;
    } else if DistinctPaths(rest, resolve) {
      forall i, j | 0 <= i < j < |files| ensures resolve(files[i].path) != resolve(files[j].path) {
        assert rest[i] in rest && files[i] == rest[i];
      }
    }
    if DistinctPaths(files, resolve) {
      forall i, j | 0 <= i < j < |rest| ensures resolve(rest[i].path) != resolve(rest[j].path) {
        assert files[i] == rest[i] && files[j] == rest[j];
      }
    }
  }

  /** The map of files by path is as large as the list exactly if no two files resolve to one path. */
  lemma {:induction false} SizeMeansDistinct(files: seq<FileMetadata>, resolve: Resolve)
    ensures |ByPath(files, resolve)| <= |files|
    ensures |ByPath(files, resolve)| == |files| <==> DistinctPaths(files, resolve)
  {
    if files != [] {
      var rest, last := files[..|files| - 1], files[|files| - 1];
      assert files == rest + [last];
      SizeMeansDistinct(rest, resolve);
      DistinctOneMore(rest, last, resolve);
      assert ByPath(files, resolve).Keys == ByPath(rest, resolve).Keys + {resolve(last.path)};
    }
  }

  lemma OneNewFile(groups: seq<GroupView>, files: seq<FileMetadata>, resolve: Resolve, f: FileMetadata)
    requires Safe(groups, files, resolve) && DistinctPaths(files, resolve)
    ensures f in Found(PathsIn(groups), ByPath(files, resolve), resolve) <==> f in files
  {
    var byPath, paths := ByPath(files, resolve), PathsIn(groups);
    ByPathIsCorrect(files, resolve);
    if f in files {
      var q := resolve(f.path);
      PathsAreGrouped(groups, resolve, q);
      assert Leads(paths, resolve, q);
      var i :| 0 <= i < |paths| && resolve(paths[i]) == q;
      KnownPathsAreFound(paths, byPath, resolve, i);
      SamePathSameFile(files, resolve, f, byPath[q]);
    }
    if f in Found(paths, byPath, resolve) {
      FoundAreKnown(paths, files, resolve, f);
    }
  }

  // ---------- When the fast path is taken, exactly ----------

  /** One of the files has this path. */
  ghost predicate HasPath(files: seq<FileMetadata>, resolve: Resolve, q: string) {
    exists f :: f in files && resolve(f.path) == q
  }

  /** A group shows the file, or an older state of it. */
  ghost predicate Shows(group: GroupView, resolve: Resolve, f: FileMetadata) {
    HasPath(group.files, resolve, resolve(f.path))
  }

  /** Two new files of one id, shown in two different groups. */
  ghost predicate Clash(groups: seq<GroupView>, files: seq<FileMetadata>, resolve: Resolve, i: nat, j: nat, f: FileMetadata, g: FileMetadata)
    requires i < |groups| && j < |groups|
  {
    && f in files && g in files && f.tmdbId.Some? && f.tmdbId == g.tmdbId
    && Shows(groups[i], resolve, f) && Shows(groups[j], resolve, g)
  }

  lemma ShownIsFound(group: GroupView, files: seq<FileMetadata>, resolve: Resolve, f: FileMetadata)
    requires DistinctPaths(files, resolve)
    ensures f in Found(PathsOf(group.files), ByPath(files, resolve), resolve) <==> f in files && Shows(group, resolve, f)
  {
    if f in files {
      FoundExactly(PathsOf(group.files), files, resolve, f);
      LeadsOfFiles(group.files, resolve, resolve(f.path));
      assert Leads(PathsOf(group.files), resolve, resolve(f.path)) <==> Shows(group, resolve, f);
    } else if f in Found(PathsOf(group.files), ByPath(files, resolve), resolve) {
      FoundAreKnown(PathsOf(group.files), files, resolve, f);
    }
  }

  lemma IdIsOfAShownFile(group: GroupView, files: seq<FileMetadata>, resolve: Resolve, id: int)
    requires DistinctPaths(files, resolve)
    ensures id in IdsOf(group.files, ByPath(files, resolve), resolve) <==>
              exists f :: f in files && Shows(group, resolve, f) && f.tmdbId == Some(id)
  {
    var found := Found(PathsOf(group.files), ByPath(files, resolve), resolve);
    if id in IdsOf(group.files, ByPath(files, resolve), resolve) {
      var f :| f in found && f.tmdbId.Some? && f.tmdbId.value == id;
      ShownIsFound(group, files, resolve, f);
    }
    if f :| f in files && Shows(group, resolve, f) && f.tmdbId == Some(id) {
      ShownIsFound(group, files, resolve, f);
    }
  }

  /** Groups have to be merged exactly if two new files of one id are shown in different groups. */
  lemma MergeIsNeededExactly(groups: seq<GroupView>, files: seq<FileMetadata>, resolve: Resolve)
    requires DistinctPaths(files, resolve)
    ensures NeedsMerge(groups, ByPath(files, resolve), resolve) <==>
              exists i: nat, j: nat, f, g :: i < j < |groups| && Clash(groups, files, resolve, i, j, f, g)
  {
    var byPath := ByPath(files, resolve);
    if NeedsMerge(groups, byPath, resolve) {
      var i, j, id :| 0 <= i < j < |groups| && Shares(groups, byPath, resolve, i, j, id);
      IdIsOfAShownFile(groups[i], files, resolve, id);
      IdIsOfAShownFile(groups[j], files, resolve, id);
      var f :| f in files && Shows(groups[i], resolve, f) && f.tmdbId == Some(id);
      var g :| g in files && Shows(groups[j], resolve, g) && g.tmdbId == Some(id);
      assert Clash(groups, files, resolve, i, j, f, g);
    } else if i: nat, j: nat, f, g :| i < j < |groups| && Clash(groups, files, resolve, i, j, f, g) {
      var id := f.tmdbId.value;
      IdIsOfAShownFile(groups[i], files, resolve, id);
      IdIsOfAShownFile(groups[j], files, resolve, id);
      assert Shares(groups, byPath, resolve, i, j, id);
    }
  }

  ghost predicate SomeGroupHas(groups: seq<GroupView>, resolve: Resolve, q: string) {
    exists i :: 0 <= i < |groups| && HasPath(groups[i].files, resolve, q)
  }

  /** The groups show the paths of the files and no others. */
  ghost predicate SamePaths(groups: seq<GroupView>, files: seq<FileMetadata>, resolve: Resolve) {
    forall q {:trigger HasPath(files, resolve, q)} {:trigger SomeGroupHas(groups, resolve, q)} ::
      HasPath(files, resolve, q) <==> SomeGroupHas(groups, resolve, q)
  }

  lemma KnownPaths(files: seq<FileMetadata>, resolve: Resolve, q: string)
    ensures q in ByPath(files, resolve) <==> HasPath(files, resolve, q)
  {
    ByPathIsCorrect(files, resolve);
  }

  lemma GroupedPathsExactly(groups: seq<GroupView>, resolve: Resolve, q: string)
    ensures q in GroupedPaths(groups, resolve) <==> SomeGroupHas(groups, resolve, q)
  {
    if SomeGroupHas(groups, resolve, q) {
      var i :| 0 <= i < |groups| && HasPath(groups[i].files, resolve, q);
      var f :| f in groups[i].files && resolve(f.path) == q;
    }
  }

  lemma SameKeysSamePaths(groups: seq<GroupView>, files: seq<FileMetadata>, resolve: Resolve)
    ensures ByPath(files, resolve).Keys == GroupedPaths(groups, resolve) <==> SamePaths(groups, files, resolve)
  {
    forall q ensures q in ByPath(files, resolve).Keys <==> HasPath(files, resolve, q)
      ensures q in GroupedPaths(groups, resolve) <==> SomeGroupHas(groups, resolve, q) {
      KnownPaths(files, resolve, q);
      GroupedPathsExactly(groups, resolve, q);
    }
  }

  /** The fast path is taken if and only if there are groups and files, no two files share a path, the
      groups show exactly the paths of the files, and no two groups would show files of one id. */
  lemma FastPathExactly(groups: seq<GroupView>, files: seq<FileMetadata>, resolve: Resolve)
    ensures Safe(groups, files, resolve) <==>
              && groups != [] && files != [] && DistinctPaths(files, resolve) && SamePaths(groups, files, resolve)
              && !exists i: nat, j: nat, f, g :: i < j < |groups| && Clash(groups, files, resolve, i, j, f, g)
  {
    SizeMeansDistinct(files, resolve);
    SameKeysSamePaths(groups, files, resolve);
    if DistinctPaths(files, resolve) {
      MergeIsNeededExactly(groups, files, resolve);
    }
  }

  /** When the fast path is taken, the updated groups hold every new file exactly once, provided that no
      path was in the groups twice. */
  lemma UpdatesKeepEveryFile(groups: seq<GroupView>, files: seq<FileMetadata>, resolve: Resolve)
    requires Safe(groups, files, resolve) && GroupedOnce(groups, resolve)
    ensures multiset(FilesIn(Updates(groups, ByPath(files, resolve), resolve))) == multiset(files)
  {
    var found := Found(PathsIn(groups), ByPath(files, resolve), resolve);
    UpdatesHoldWhatIsFound(groups, ByPath(files, resolve), resolve);
    SizeMeansDistinct(files, resolve);
    forall f ensures multiset(found)[f] == multiset(files)[f] {
      FoundOnce(PathsIn(groups), files, resolve, f);
      DistinctPathsOccurOnce(files, resolve, f);
      OneNewFile(groups, files, resolve, f);
    }
  }

  /** An updated group is the renewed group whose number it keeps. */
  ghost predicate Renews(u: GroupView, groups: seq<GroupView>, byPath: map<string, FileMetadata>, resolve: Resolve) {
    && 1 <= u.id <= |groups| && u.files != []
    && u.name == groups[u.id - 1].name && u.files == Renewed(groups[u.id - 1], byPath, resolve)
  }

  ghost predicate AllRenew(updates: seq<GroupView>, groups: seq<GroupView>, byPath: map<string, FileMetadata>, resolve: Resolve) {
    && (forall k {:trigger updates[k]} :: 0 <= k < |updates| ==> Renews(updates[k], groups, byPath, resolve))
    && (forall k, l {:trigger updates[k], updates[l]} :: 0 <= k < l < |updates| ==> updates[k].id < updates[l].id)
  }

  lemma {:induction false} UpdatesKeepNumbers(groups: seq<GroupView>, byPath: map<string, FileMetadata>, resolve: Resolve)
    ensures AllRenew(Updates(groups, byPath, resolve), groups, byPath, resolve)
  {
    if groups != [] {
      var rest, last := groups[..|groups| - 1], groups[|groups| - 1];
      UpdatesKeepNumbers(rest, byPath, resolve);
      assert groups == rest + [last];
      UpdatesOneMore(Updates(rest, byPath, resolve), rest, last, byPath, resolve);
    }
  }

  lemma UpdatesOneMore(before: seq<GroupView>, rest: seq<GroupView>, last: GroupView, byPath: map<string, FileMetadata>, resolve: Resolve)
    requires AllRenew(before, rest, byPath, resolve)
    ensures AllRenew(before, rest + [last], byPath, resolve)
    ensures var renewed := Renewed(last, byPath, resolve);
            renewed != [] ==> AllRenew(before + [GroupView(|rest| + 1, last.name, renewed)], rest + [last], byPath, resolve)
  {
    forall k | 0 <= k < |before| ensures Renews(before[k], rest + [last], byPath, resolve) && before[k].id <= |rest| {
      assert Renews(before[k], rest, byPath, resolve);
    }
  }

  lemma {:induction false} FoundOneByOne(files: seq<FileMetadata>, byPath: map<string, FileMetadata>, resolve: Resolve)
    requires forall f :: f in files ==> resolve(f.path) in byPath
    ensures |Found(PathsOf(files), byPath, resolve)| == |files|
    ensures forall k :: 0 <= k < |files| ==> Found(PathsOf(files), byPath, resolve)[k] == byPath[resolve(files[k].path)]
  {
    if files != [] {
      var rest, last := files[..|files| - 1], files[|files| - 1];
      assert files == rest + [last];
      FoundOneByOne(rest, byPath, resolve);
      FoundOneMore(rest, last, byPath, resolve);
    }
  }

  /** When the fast path is taken, each group keeps its files in order, each now with its new metadata. */
  lemma UpdatesKeepStructure(groups: seq<GroupView>, files: seq<FileMetadata>, resolve: Resolve, i: nat)
    requires Safe(groups, files, resolve) && i < |groups|
    ensures var renewed := Renewed(groups[i], ByPath(files, resolve), resolve);
            && |renewed| == |groups[i].files|
            && forall k :: 0 <= k < |renewed| ==> renewed[k] in files && resolve(renewed[k].path) == resolve(groups[i].files[k].path)
  {
    forall f | f in groups[i].files ensures resolve(f.path) in ByPath(files, resolve) {
      assert resolve(f.path) in GroupedPaths(groups, resolve);
    }
    FoundOneByOne(groups[i].files, ByPath(files, resolve), resolve);
    ByPathIsCorrect(files, resolve);
  }

  lemma SharedIdIsNeed(groups: seq<GroupView>, byPath: map<string, FileMetadata>, resolve: Resolve, i: nat, j: nat, f: FileMetadata, g: FileMetadata)
    requires i < j < |groups| && f in Renewed(groups[i], byPath, resolve) && g in Renewed(groups[j], byPath, resolve)
    requires f.tmdbId.Some? && f.tmdbId == g.tmdbId
    ensures NeedsMerge(groups, byPath, resolve)
  {
    assert Shares(groups, byPath, resolve, i, j, f.tmdbId.value);
  }

  /** Two updated groups that share an id come from two groups that would. */
  lemma SharedUpdateIsNeed(groups: seq<GroupView>, byPath: map<string, FileMetadata>, resolve: Resolve, updates: seq<GroupView>,
                           k: nat, l: nat, f: FileMetadata, g: FileMetadata)
    requires AllRenew(updates, groups, byPath, resolve) && k < l < |updates|
    requires f in updates[k].files && g in updates[l].files && f.tmdbId.Some? && f.tmdbId == g.tmdbId
    ensures NeedsMerge(groups, byPath, resolve)
  {
    assert Renews(updates[k], groups, byPath, resolve) && Renews(updates[l], groups, byPath, resolve);
    SharedIdIsNeed(groups, byPath, resolve, updates[k].id - 1, updates[l].id - 1, f, g);
  }

  /** When the fast path is taken, no two updated groups share an id: there is nothing to merge. */
  lemma UpdatesShareNoId(groups: seq<GroupView>, files: seq<FileMetadata>, resolve: Resolve, k: nat, l: nat, f: FileMetadata, g: FileMetadata)
    requires Safe(groups, files, resolve) && k < l < |Updates(groups, ByPath(files, resolve), resolve)|
    requires f in Updates(groups, ByPath(files, resolve), resolve)[k].files && g in Updates(groups, ByPath(files, resolve), resolve)[l].files
    ensures f.tmdbId == g.tmdbId ==> f.tmdbId == None
  {
    var byPath := ByPath(files, resolve);
    UpdatesKeepNumbers(groups, byPath, resolve);
    if f.tmdbId.Some? && f.tmdbId == g.tmdbId {
      SharedUpdateIsNeed(groups, byPath, resolve, Updates(groups, byPath, resolve), k, l, f, g);
    }
  }
}
