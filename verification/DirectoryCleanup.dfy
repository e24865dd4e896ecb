/** Removing the directories that organising files has left empty. */
module DirectoryCleanup {
  import opened DirectoryTrees

  /** Enough passes for any tree, unless directories keep being refused and then given up. */
  const MAX_ITERATIONS := 100

  lemma RemovingEmptyKeepsTree(dirs: set<Path>, files: set<Path>, p: Path)
    requires Tree(dirs, files) && p in dirs && IsEmpty(dirs, files, p)
    ensures Tree(dirs - {p}, files)
  {
    forall q | q in dirs - {p} && q != ROOT ensures Parent(q) in dirs - {p} {
      assert !ChildOf(q, p);
    }
    forall f | f in files ensures Parent(f) in dirs - {p} {
      assert !ChildOf(f, p);
    }
  }

  /** The removable directories among those already visited. */
  ghost function Visited(dirs: set<Path>, files: set<Path>, obstacles: Obstacles, walk: seq<Path>): set<Path> {
    set p | p in dirs && Removable(dirs, files, obstacles, p) && p in walk
  }

  /** When the walk reaches p, p is empty and lets itself be removed exactly when it is removable. */
  lemma ReachedWhenEmpty(dirs: set<Path>, files: set<Path>, obstacles: Obstacles, walk: seq<Path>, i: nat)
    requires Tree(dirs, files) && BottomUp(dirs, obstacles, walk) && i < |walk| && walk[i] != ROOT
    ensures IsEmpty(dirs - Visited(dirs, files, obstacles, walk[..i]), files, walk[i]) && !obstacles.refused(walk[i])
       <==> Removable(dirs, files, obstacles, walk[i])
    ensures walk[i] in dirs && walk[i] !in walk[..i]
  {
    var p, left := walk[i], dirs - Visited(dirs, files, obstacles, walk[..i]);
    assert forall j :: 0 <= j < i ==> !Within(walk[i], walk[j]);
    if Removable(dirs, files, obstacles, p) {
      assert Within(p, p);
      forall q | q in dirs && ChildOf(q, p) ensures q !in left {
        RemovableBelow(dirs, files, obstacles, p, q);
        assert Within(q, p) && q in walk;
        var j :| 0 <= j < |walk| && walk[j] == q;
        assert walk[..i][j] == q;
      }
      forall f | f in files ensures !ChildOf(f, p) {
        assert !Within(f, p);
      }
    } else if !obstacles.refused(p) {
      var q := SomethingStays(dirs, files, obstacles, p);
      assert q in left || q in files;
    }
  }

  lemma VisitedOneMore(dirs: set<Path>, files: set<Path>, obstacles: Obstacles, walk: seq<Path>, i: nat)
    requires i < |walk|
    ensures Visited(dirs, files, obstacles, walk[..i + 1])
         == Visited(dirs, files, obstacles, walk[..i]) + (if Removable(dirs, files, obstacles, walk[i]) then {walk[i]} else {})
  {
    assert walk[..i + 1] == walk[..i] + [walk[i]];
  }

  lemma AllVisited(dirs: set<Path>, files: set<Path>, obstacles: Obstacles, walk: seq<Path>)
    requires BottomUp(dirs, obstacles, walk)
    ensures Visited(dirs, files, obstacles, walk) == AllRemovable(dirs, files, obstacles)
  {
  }

  /** With the same obstacles a second pass finds nothing left to remove. */
  lemma PassesAreIdempotent(dirs: set<Path>, files: set<Path>, obstacles: Obstacles)
    ensures AllRemovable(dirs - AllRemovable(dirs, files, obstacles), files, obstacles) == {}
  {
    var left := dirs - AllRemovable(dirs, files, obstacles);
    forall p | p in left ensures !Removable(left, files, obstacles, p) {
      if p != ROOT && Hollow(files, p) && Reached(obstacles, p) {
        var q :| q in dirs && Within(q, p) && Stuck(obstacles, q);
        assert Within(q, q) && q in left;
      }
    }
  }

  lemma RootIsAncestor(dirs: set<Path>, files: set<Path>)
    requires Tree(dirs, files) && ROOT !in dirs
    ensures dirs == {}
  {
    if dirs != {} {
      var p :| p in dirs;
      AncestorsAreThere(dirs, files, p, ROOT);
    }
  }

  /** All that has gone from `start` are directories without files, and never the root. */
  ghost predicate OnlyHollowGone(start: set<Path>, dirs: set<Path>, files: set<Path>) {
    dirs <= start && forall p {:trigger Hollow(files, p)} :: p in start && p !in dirs ==> p != ROOT && Hollow(files, p)
  }

  ghost predicate SameObstacles(a: Obstacles, b: Obstacles) {
    forall p {:trigger a.refused(p)} {:trigger b.refused(p)} {:trigger a.unlistable(p)} {:trigger b.unlistable(p)} ::
      a.refused(p) == b.refused(p) && a.unlistable(p) == b.unlistable(p)
  }

  lemma SameObstaclesSameRemovable(dirs: set<Path>, files: set<Path>, a: Obstacles, b: Obstacles)
    requires SameObstacles(a, b)
    ensures AllRemovable(dirs, files, a) == AllRemovable(dirs, files, b)
  {
    forall p | p in dirs ensures Free(dirs, a, p) <==> Free(dirs, b, p) {
    }
    forall p | p in dirs ensures Reached(a, p) <==> Reached(b, p) {
    }
  }

  /** What a pass removes adds to what is gone. */
  lemma PassAddsUp(start: set<Path>, before: set<Path>, files: set<Path>, gone: set<Path>, obstacles: Obstacles)
    requires OnlyHollowGone(start, before, files) && gone == AllRemovable(before, files, obstacles)
    ensures OnlyHollowGone(start, before - gone, files)
    ensures |start - (before - gone)| == |start - before| + |gone|
    ensures gone == {} <==> |gone| == 0
  {
    assert start - (before - gone) == (start - before) + gone;
    forall p | p in start && p !in before - gone ensures p != ROOT && Hollow(files, p) {
      assert Hollow(files, p);
    }
  }

  method Deepest(paths: set<Path>) returns (deepest: Path)
    requires paths != {}
    ensures deepest in paths && forall q :: q in paths ==> |q| <= |deepest|
  {
    deepest :| deepest in paths;
    var rest := paths - {deepest};
    while rest != {}
      invariant rest <= paths && deepest in paths
      invariant forall q :: q in paths - rest ==> |q| <= |deepest|
      decreases |rest|
    {
      var q :| q in rest;
      if |q| > |deepest| {
        deepest := q;
      }
      rest := rest - {q};
    }
  }

  lemma NotWithinDeeper(q: Path, p: Path)
    requires |q| <= |p| && q != p
    ensures !Within(q, p)
  {
  }

  /** Some bottom-up walk of the directories as they are now. */
  method Walk(dirs: set<Path>, obstacles: Obstacles) returns (walk: seq<Path>)
    ensures BottomUp(dirs, obstacles, walk)
  {
    walk := [];
    var reached := set p | p in dirs && Reached(obstacles, p);
    var rest := reached;
    while rest != {}
      invariant rest <= reached && forall p :: p in reached <==> p in walk || p in rest
      invariant forall i, j {:trigger walk[i], walk[j]} :: 0 <= i < j < |walk| ==> !Within(walk[j], walk[i])
      invariant forall i, q {:trigger Within(q, walk[i])} :: 0 <= i < |walk| && q in rest ==> !Within(q, walk[i])
      decreases |rest|
    {
      var p := Deepest(rest);
      forall q | q in rest && q != p ensures !Within(q, p) {
        NotWithinDeeper(q, p);
      }
      walk, rest := walk + [p], rest - {p};
    }
  }

  class DirectoryTree {
    const files: set<Path>
    var dirs: set<Path>

    ghost predicate Valid()
      reads this
    {
      Tree(dirs, files)
    }

    constructor (dirs: set<Path>, files: set<Path>)
      requires Tree(dirs, files)
      ensures Valid() && this.dirs == dirs && this.files == files
    {
      this.dirs, this.files := dirs, files;
    }

    /** `refused` stands for an OSError from looking into the directory or removing it. */
    method TryRemoveEmptyDir(p: Path, refused: bool) returns (removed: bool)
      requires Valid()
      modifies this
      ensures Valid()
      ensures removed <==> p in old(dirs) && IsEmpty(old(dirs), files, p) && !refused
      ensures dirs == if removed then old(dirs) - {p} else old(dirs)
    {
      if p !in dirs {
        return false;
      }
      if !refused && IsEmpty(dirs, files, p) {
        RemovingEmptyKeepsTree(dirs, files, p);
        dirs := dirs - {p};
        return true;
      }
      return false;
    }

    /** The visit to the i-th directory of a walk removes it exactly if it is removable. */
    method Visit(ghost before: set<Path>, walk: seq<Path>, i: nat, obstacles: Obstacles, ghost gone: set<Path>) returns (n: nat, ghost gone': set<Path>)
      requires Valid() && Tree(before, files) && BottomUp(before, obstacles, walk) && i < |walk| && walk[i] != ROOT
      requires dirs == before - gone && gone == Visited(before, files, obstacles, walk[..i])
      modifies this
      ensures Valid() && dirs == before - gone' && |gone'| == |gone| + n
      ensures gone' == Visited(before, files, obstacles, walk[..i + 1])
    {
      ReachedWhenEmpty(before, files, obstacles, walk, i);
      VisitedOneMore(before, files, obstacles, walk, i);
      var removed := TryRemoveEmptyDir(walk[i], obstacles.refused(walk[i]));
      n, gone' := 0, gone;
      if removed {
        n, gone' := 1, gone + {walk[i]};
      }
    }

    /** One pass over a bottom-up walk removes exactly the removable directories. */
    method RemoveEmptyDirsOnePass(walk: seq<Path>, obstacles: Obstacles) returns (removed: nat)
      requires Valid() && BottomUp(dirs, obstacles, walk)
      modifies this
      ensures Valid() && dirs == old(dirs) - AllRemovable(old(dirs), files, obstacles)
      ensures removed == |AllRemovable(old(dirs), files, obstacles)|
    {
      ghost var before := dirs;
      removed := 0;
      if ROOT !in dirs {
        RootIsAncestor(dirs, files);
        assert AllRemovable(dirs, files, obstacles) == {};
        return;
      }
      ghost var gone: set<Path> := {};
      assert Visited(before, files, obstacles, walk[..0]) == {};
      for i := 0 to |walk|
        invariant Valid() && dirs == before - gone && removed == |gone|
        invariant gone == Visited(before, files, obstacles, walk[..i])
      {
        if walk[i] != ROOT {
          var n;
          n, gone := Visit(before, walk, i, obstacles, gone);
          removed := removed + n;
        } else {
          VisitedOneMore(before, files, obstacles, walk, i);
        }
      }
      assert walk[..|walk|] == walk;
      AllVisited(before, files, obstacles, walk);
    }

    /** A pass that walks the directories as they are. */
    method Pass(obstacles: Obstacles, ghost start: set<Path>) returns (removed: nat)
      requires Valid() && OnlyHollowGone(start, dirs, files)
      modifies this
      ensures Valid() && dirs == old(dirs) - AllRemovable(old(dirs), files, obstacles) && OnlyHollowGone(start, dirs, files)
      ensures |start - dirs| == |start - old(dirs)| + removed
      ensures removed == 0 <==> AllRemovable(old(dirs), files, obstacles) == {}
    {
      var walk := Walk(dirs, obstacles);
      PassAddsUp(start, dirs, files, AllRemovable(dirs, files, obstacles), obstacles);
      removed := RemoveEmptyDirsOnePass(walk, obstacles);
    }

    /** Passes until one removes nothing. What stands in the way of each pass may change from pass to pass; files
        are never touched, and what goes is counted. With obstacles that stay the same, as when there
        are none, the first pass does it all and the second ends the loop. */
    method RemoveEmptyLeafDirs(obstacles: nat -> Obstacles) returns (total: nat, iterations: nat)
      requires Valid()
      modifies this
      ensures Valid() && OnlyHollowGone(old(dirs), dirs, files)
      ensures total == |old(dirs) - dirs| && iterations <= MAX_ITERATIONS
      ensures Steady(obstacles) ==> dirs == old(dirs) - AllRemovable(old(dirs), files, obstacles(0)) && iterations <= 2
    {
      total, iterations := 0, 0;
      ghost var start := dirs;
      ghost var all := AllRemovable(start, files, obstacles(0));
      if ROOT !in dirs {
        RootIsAncestor(dirs, files);
        return;
      }
      while iterations < MAX_ITERATIONS
        invariant Valid() && OnlyHollowGone(start, dirs, files)
        invariant total == |start - dirs| && iterations <= MAX_ITERATIONS
        invariant iterations == 0 ==> dirs == start
        invariant Steady(obstacles) && iterations > 0 ==> iterations == 1 && dirs == start - all
      {
        if Steady(obstacles) {
          SteadyPass(start, dirs, files, obstacles, iterations);
        }
        var removed := Pass(obstacles(iterations), start);
        iterations, total := iterations + 1, total + removed;
        if removed == 0 {
          break;
        }
      }
    }
  }

  /** Every pass meets the same obstacles. */
  ghost predicate Steady(obstacles: nat -> Obstacles) {
    forall pass {:trigger obstacles(pass)} :: SameObstacles(obstacles(pass), obstacles(0))
  }

  lemma SteadyPass(start: set<Path>, dirs: set<Path>, files: set<Path>, obstacles: nat -> Obstacles, pass: nat)
    requires Steady(obstacles)
    ensures AllRemovable(dirs, files, obstacles(pass)) == AllRemovable(dirs, files, obstacles(0))
    ensures dirs == start - AllRemovable(start, files, obstacles(0)) ==> AllRemovable(dirs, files, obstacles(pass)) == {}
  {
    SameObstaclesSameRemovable(dirs, files, obstacles(pass), obstacles(0));
    PassesAreIdempotent(start, files, obstacles(0));
  }
}
