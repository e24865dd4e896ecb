/** An index kept up to date is the index one would build afresh. */
module SubtitleRuns {
  import opened Sequences
  import opened Lexicographic
  import opened SubtitleFilters
  import opened SubtitleIndexes

  datatype Change = Add(file: Path) | Remove(file: Path)

  ghost function Changed(d: Disk, live: seq<Path>, change: Change): seq<Path> {
    match change
    case Add(p) => Added(d, live, p)
    case Remove(p) => Without(live, p)
  }

  /** The surviving files, in the order in which they last came in. */
  ghost function Survivors(d: Disk, live: seq<Path>, changes: seq<Change>): seq<Path> {
    if changes == [] then live
    else Changed(d, Survivors(d, live, changes[..|changes| - 1]), changes[|changes| - 1])
  }

  ghost predicate Proper(d: Disk, live: seq<Path>) {
    NoDuplicates(live) && forall p :: p in live ==> Indexable(d, p)
  }

  lemma ChangesKeepProper(d: Disk, live: seq<Path>, change: Change)
    requires Proper(d, live)
    ensures Proper(d, Changed(d, live, change))
  {
    if change.Add? {
      if change.file !in live {
        AppendKeepsDistinct(live, change.file);
      }
    } else {
      WithoutIsDistinct(live, change.file);
      WithoutIsIndexable(d, live, change.file);
    }
  }

  lemma {:induction false} SurvivorsAreProper(d: Disk, live: seq<Path>, changes: seq<Change>)
    requires Proper(d, live)
    ensures Proper(d, Survivors(d, live, changes))
  {
    if changes != [] {
      SurvivorsAreProper(d, live, changes[..|changes| - 1]);
      ChangesKeepProper(d, Survivors(d, live, changes[..|changes| - 1]), changes[|changes| - 1]);
    }
  }

  lemma {:induction false} BuiltIsProper(d: Disk, files: seq<Path>)
    ensures Proper(d, Built(d, files))
  {
    if files != [] {
      BuiltIsProper(d, files[..|files| - 1]);
      ChangesKeepProper(d, Built(d, files[..|files| - 1]), Add(files[|files| - 1]));
    }
  }

  /** Building over distinct files that can be read takes them all, in order. */
  lemma {:induction false} BuildingKeepsProperLists(d: Disk, files: seq<Path>)
    requires Proper(d, files)
    ensures Built(d, files) == files
  {
    if files != [] {
      var rest, last := files[..|files| - 1], files[|files| - 1];
      assert files == rest + [last];
      BuildingKeepsProperLists(d, rest);
      assert last in files && last !in rest;
    }
  }

  /** Building and then changing gives the list, and so the index, of one build over the survivors. */
  lemma ChangingIsRebuilding(d: Disk, files: seq<Path>, changes: seq<Change>, kept: Index, rebuilt: Index)
    requires Indexes(kept, d, Survivors(d, Built(d, files), changes))
    requires Indexes(rebuilt, d, Built(d, Survivors(d, Built(d, files), changes)))
    ensures kept == rebuilt
  {
    BuiltIsProper(d, files);
    SurvivorsAreProper(d, Built(d, files), changes);
    BuildingKeepsProperLists(d, Survivors(d, Built(d, files), changes));
    IndexIsUnique(kept, rebuilt, d, Survivors(d, Built(d, files), changes));
  }

  /** Adding a file that is not in and removing it again is no change. */
  lemma AddingIsUndone(d: Disk, live: seq<Path>, p: Path)
    requires p !in live
    ensures Without(Added(d, live, p), p) == live
  {
    WithoutAbsent(live, p);
    WithoutOfAppend(live, p, p);
  }

  /** A build on a fresh index and any changes after it: only the surviving files are known. */
  method BuildAndChange(disk: Disk, files: seq<Path>, changes: seq<Change>) returns (index: SubtitleIndex)
    ensures fresh(index) && index.Valid() && index.disk == disk
    ensures index.live == Survivors(disk, Built(disk, files), changes) && index.known == Elements(index.live)
  {
    index := new SubtitleIndex(disk);
    index.BuildIndex(files);
    for i := 0 to |changes|
      invariant fresh(index) && index.Valid() && index.disk == disk
      invariant index.live == Survivors(disk, Built(disk, files), changes[..i]) && index.known == Elements(index.live)
    {
      assert changes[..i + 1][..i] == changes[..i];
      match changes[i] {
        case Add(p) => index.AddFile(p);
        case Remove(p) =>
          WithoutElements(index.live, p);
          index.RemoveFile(p);
      }
    }
    TakeAll(changes);
  }

  /** In every field the kept index is the one built afresh over the survivors. */
  method CompareWithRebuild(disk: Disk, files: seq<Path>, changes: seq<Change>, survivors: seq<Path>)
    returns (kept: SubtitleIndex, rebuilt: SubtitleIndex)
    requires survivors == Survivors(disk, Built(disk, files), changes)
    ensures kept.live == rebuilt.live == survivors && kept.Value() == rebuilt.Value()
  {
    kept := BuildAndChange(disk, files, changes);
    rebuilt := new SubtitleIndex(disk);
    rebuilt.BuildIndex(survivors);
    assert rebuilt.known == Elements(rebuilt.live);
    ChangingIsRebuilding(disk, files, changes, kept.Value(), rebuilt.Value());
    BuiltIsProper(disk, files);
    SurvivorsAreProper(disk, Built(disk, files), changes);
    BuildingKeepsProperLists(disk, survivors);
  }

  /** Exactly the state before, field by field. */
  method AddAndRemove(index: SubtitleIndex, p: Path)
    requires index.Valid() && index.known == Elements(index.live) && p !in index.live
    modifies index
    ensures index.Valid() && index.Value() == old(index.Value())
  {
    ghost var before, live := index.Value(), index.live;
    index.AddFile(p);
    index.RemoveFile(p);
    AddingIsUndone(index.disk, live, p);
    assert index.known == Elements(live);
    IndexIsUnique(before, index.Value(), index.disk, live);
  }

  /** After a second build on the same index, a file that only the first build saw cannot be added
      back: the leftover metadata says that it is in already. */
  method SecondBuildShutsOut(disk: Disk, p: Path) returns (index: SubtitleIndex)
    requires Indexable(disk, p)
    ensures index.Valid() && index.live == [] && p in index.known
  {
    index := new SubtitleIndex(disk);
    index.BuildIndex([p]);
    assert [p][..0] == [] && index.live == [p];
    index.BuildIndex([]);
    index.AddFile(p);
  }
}
