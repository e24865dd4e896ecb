/** The subtitle index: hash and name lookups kept up to date as files come and go. */
module SubtitleIndexes {
  import opened Sequences
  import opened Lexicographic
  import opened SubtitleFilters

  /** Joins the end of the group under a key, unless it is in already. */
  method Join(m: Groups, key: string, p: Path) returns (r: Groups)
    ensures r == if key in m && p in m[key] then m else Appended(m, key, p)
  {
    r := m;
    if key !in r {
      r := r[key := []];
    }
    if p !in r[key] {
      r := r[key := r[key] + [p]];
    }
  }

  /** Leaves the group under a key, and drops the group if it is then empty. */
  method Leave(m: Groups, key: string, p: Path) returns (r: Groups)
    requires key in m ==> m[key] != []
    ensures r == Taken(m, key, p)
  {
    r := m;
    if key in r {
      DroppedAbsent(r[key], p);
      if p in r[key] {
        r := r[key := Dropped(r[key], p)];
      }
      if r[key] == [] {
        r := r - {key};
      }
    }
  }

  lemma {:induction false} DroppedAbsent(s: seq<Path>, p: Path)
    ensures p !in s ==> Dropped(s, p) == s
  {
    if s != [] {
      DroppedAbsent(s[1..], p);
    }
  }

  method SortKeys(keys: set<string>) returns (r: seq<string>)
    ensures Sorted(r) && Keys(r) == keys
  {
    r := [];
    var rest := keys;
    while rest != {}
      invariant Sorted(r) && rest <= keys && Keys(r) == keys - rest
      decreases |rest|
    {
      var k :| k in rest;
      assert k !in Keys(r);
      r := Insort(r, k);
      rest := rest - {k};
    }
  }

  class SubtitleIndex {
    const disk: Disk
    var hashIndex: Groups
    var nameIndex: Groups
    var sortedNameKeys: seq<string>
    var pathToMetadata: map<Path, (string, string)>
    /** The files that the lookups find, and those that have metadata. */
    ghost var live: seq<Path>
    ghost var known: set<Path>

    ghost function Value(): Index
      reads this
    {
      Index(hashIndex, nameIndex, sortedNameKeys, pathToMetadata)
    }

    ghost predicate Valid()
      reads this
    {
      Serves(Value(), disk, live) && Described(pathToMetadata, disk, known) && Elements(live) <= known
    }

    constructor (disk: Disk)
      ensures Valid() && live == [] && known == {} && this.disk == disk
    {
      this.disk := disk;
      hashIndex, nameIndex, sortedNameKeys, pathToMetadata, live, known := map[], map[], [], map[], [], {};
    }

    /** False stands for the OSError of a file that cannot be read. */
    method IndexSingleFile(p: Path) returns (read: bool)
      requires Filled(Value(), disk, live) && Described(pathToMetadata, disk, known) && disk.present(p)
      modifies `hashIndex, `nameIndex, `pathToMetadata, `live, `known
      ensures Filled(Value(), disk, live) && Described(pathToMetadata, disk, known)
      ensures live == Added(disk, old(live), p)
      ensures read == disk.readable(p) && known == old(known) + (if read then {p} else {})
    {
      if !disk.readable(p) {
        return false;
      }
      var hash, name := disk.hashOf(p), disk.nameOf(p);
      KnownGroups(Value(), disk, live, p);
      AddingFills(Value(), disk, live, p);
      AddedIsDescribed(pathToMetadata, disk, known, p);
      hashIndex := Join(hashIndex, hash, p);
      if name != "" {
        nameIndex := Join(nameIndex, name, p);
      }
      pathToMetadata := pathToMetadata[p := (hash, name)];
      live, known := Added(disk, live, p), known + {p};
      return true;
    }

    /** The metadata of earlier builds is not cleared: their files stay known. */
    method BuildIndex(files: seq<Path>)
      requires Valid()
      modifies this
      ensures Valid() && live == Built(disk, files) && known == old(known) + Elements(live)
    {
      hashIndex, nameIndex, sortedNameKeys, live := map[], map[], [], [];
      for i := 0 to |files|
        invariant Filled(Value(), disk, live) && Described(pathToMetadata, disk, known)
        invariant live == Built(disk, files[..i]) && known == old(known) + Elements(live)
      {
        assert files[..i + 1][..i] == files[..i];
        if disk.present(files[i]) {
          ghost var before := live;
          var read := IndexSingleFile(files[i]);
          assert read ==> Elements(live) == Elements(before) + {files[i]};
        }
      }
      TakeAll(files);
      sortedNameKeys := SortKeys(nameIndex.Keys);
    }

    method GetByHash(hash: string) returns (files: seq<Path>)
      requires Valid()
      ensures files == Matching(live, disk.hashOf, hash)
    {
      assert GroupOk(hashIndex, live, disk.hashOf, true, hash);
      files := if hash in hashIndex then hashIndex[hash] else [];
    }

    method GetByName(name: string) returns (files: seq<Path>)
      requires Valid()
      ensures files == if name == "" then [] else Matching(live, disk.nameOf, name)
    {
      assert GroupOk(nameIndex, live, disk.nameOf, false, name);
      files := if name in nameIndex then nameIndex[name] else [];
    }

    /** Collects from the insertion point on, and stops at the first name that does not fit. */
    method CollectRun(prefix: string, start: nat) returns (files: seq<Path>)
      requires Valid() && InsertionPoint(sortedNameKeys, prefix, start)
      ensures Keys(sortedNameKeys) <= nameIndex.Keys
      ensures files == WithPrefix(sortedNameKeys, nameIndex, prefix)
    {
      files := [];
      var i := start;
      NoneBelow(sortedNameKeys, nameIndex, prefix, start);
      while i < |sortedNameKeys| && StartsWith(sortedNameKeys[i], prefix)
        invariant start <= i <= |sortedNameKeys|
        invariant Keys(sortedNameKeys[..i]) <= nameIndex.Keys
        invariant files == WithPrefix(sortedNameKeys[..i], nameIndex, prefix)
      {
        OneMoreKey(sortedNameKeys, nameIndex, prefix, i);
        files := files + nameIndex[sortedNameKeys[i]];
        i := i + 1;
      }
      RunEnds(sortedNameKeys, nameIndex, prefix, start, i);
    }

    /** Bisection and an early stop find what a scan of all names would. */
    method GetByNamePrefix(prefix: string) returns (files: seq<Path>)
      requires Valid()
      ensures Keys(sortedNameKeys) <= nameIndex.Keys
      ensures files == if prefix == "" then [] else WithPrefix(sortedNameKeys, nameIndex, prefix)
    {
      if prefix == "" || sortedNameKeys == [] {
        return [];
      }
      var start := BisectLeft(sortedNameKeys, prefix);
      files := CollectRun(prefix, start);
    }

    method AddFile(p: Path)
      requires Valid()
      modifies this
      ensures Valid() && live == if p in old(known) then old(live) else Added(disk, old(live), p)
      ensures known == old(known) + Elements(live)
    {
      assert DescribedOk(pathToMetadata, disk, known, p);
      if !disk.present(p) || p in pathToMetadata || !disk.readable(p) {
        return;
      }
      var hash, name := disk.hashOf(p), disk.nameOf(p);
      KnownGroups(Value(), disk, live, p);
      AddingFills(Value(), disk, live, p);
      AddedIsDescribed(pathToMetadata, disk, known, p);
      hashIndex := Join(hashIndex, hash, p);
      if name != "" {
        JoinName(name, p);
      }
      pathToMetadata := pathToMetadata[p := (hash, name)];
      live, known := Added(disk, live, p), known + {p};
    }

    /** A new name also enters the sorted list. */
    method JoinName(name: string, p: Path)
      requires Sorted(sortedNameKeys) && Keys(sortedNameKeys) == nameIndex.Keys
      requires name in nameIndex ==> p !in nameIndex[name]
      modifies `nameIndex, `sortedNameKeys
      ensures Sorted(sortedNameKeys) && Keys(sortedNameKeys) == nameIndex.Keys
      ensures nameIndex == Appended(old(nameIndex), name, p)
    {
      var isNewName := name !in nameIndex;
      nameIndex := Join(nameIndex, name, p);
      if isNewName {
        assert name !in Keys(sortedNameKeys);
        sortedNameKeys := Insort(sortedNameKeys, name);
      }
    }

    method RemoveFile(p: Path)
      requires Valid()
      modifies this
      ensures Valid() && live == Without(old(live), p) && known == old(known) - {p}
    {
      assert DescribedOk(pathToMetadata, disk, known, p);
      if p !in pathToMetadata {
        WithoutAbsent(live, p);
        return;
      }
      var (hash, name) := pathToMetadata[p];
      RemovingFills(Value(), disk, live, p);
      RemovedIsDescribed(pathToMetadata, disk, known, p);
      GroupsAreNotEmpty(Value(), disk, live, hash, name);
      WithoutElements(live, p);
      hashIndex := Leave(hashIndex, hash, p);
      if name != "" && name in nameIndex {
        nameIndex := Leave(nameIndex, name, p);
        if name !in nameIndex && name in sortedNameKeys {
          DroppedIsSorted(sortedNameKeys, name);
          sortedNameKeys := Dropped(sortedNameKeys, name);
        }
      }
      pathToMetadata := pathToMetadata - {p};
      live, known := Without(live, p), known - {p};
    }
  }
}
