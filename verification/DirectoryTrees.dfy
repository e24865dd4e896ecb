/** Directory trees as sets of paths, and what a bottom-up walk over one may look like. */
module DirectoryTrees {

  /** The components of a path below the root; the root is the empty path. */
  type Path = seq<string>

  const ROOT: Path := []

  function Parent(p: Path): Path
    requires p != ROOT
  {
    p[..|p| - 1]
  }

  predicate ChildOf(q: Path, p: Path) {
    q != ROOT && Parent(q) == p
  }

  /** Below or equal. */
  predicate Within(q: Path, p: Path) {
    p <= q
  }

  /** Everything has its parent directory; nothing is both a directory and something else. */
  ghost predicate Tree(dirs: set<Path>, files: set<Path>) {
    && dirs !! files && ROOT !in files
    && (forall p {:trigger Parent(p)} :: p in dirs && p != ROOT ==> Parent(p) in dirs)
    && (forall f {:trigger Parent(f)} :: f in files ==> Parent(f) in dirs)
  }

  predicate IsEmpty(dirs: set<Path>, files: set<Path>, p: Path) {
    && (forall q :: q in dirs ==> !ChildOf(q, p))
    && (forall f :: f in files ==> !ChildOf(f, p))
  }

  /** No file anywhere below. */
  ghost predicate Hollow(files: set<Path>, p: Path) {
    forall f :: f in files ==> !Within(f, p)
  }

  /** What goes wrong in one pass: directories that cannot be listed, and ones that refuse to go. */
  datatype Obstacles = Obstacles(unlistable: Path -> bool, refused: Path -> bool)

  predicate Stuck(obstacles: Obstacles, p: Path) {
    obstacles.unlistable(p) || obstacles.refused(p)
  }

  /** A walk comes to a directory exactly if it can list it and all directories above it. */
  predicate Reached(obstacles: Obstacles, p: Path) {
    forall n {:trigger p[..n]} :: 0 <= n <= |p| ==> !obstacles.unlistable(p[..n])
  }

  /** No directory at or below p is stuck. */
  ghost predicate Free(dirs: set<Path>, obstacles: Obstacles, p: Path) {
    forall q {:trigger Within(q, p)} :: q in dirs && Within(q, p) ==> !Stuck(obstacles, q)
  }

  /** What cleaning up should remove: the directories other than the root that a walk comes to and that
      hold no file however deep, and nothing that is stuck. */
  ghost predicate Removable(dirs: set<Path>, files: set<Path>, obstacles: Obstacles, p: Path) {
    p in dirs && p != ROOT && Hollow(files, p) && Reached(obstacles, p) && Free(dirs, obstacles, p)
  }

  ghost function AllRemovable(dirs: set<Path>, files: set<Path>, obstacles: Obstacles): set<Path> {
    set p | p in dirs && Removable(dirs, files, obstacles, p)
  }

  /** A directory goes exactly if it is not the root, no file lies below it, it can be listed and so can
      everything above it, and nothing at or below it is unlistable or refuses to go. */
  lemma RemovableExactly(dirs: set<Path>, files: set<Path>, obstacles: Obstacles, p: Path)
    ensures p in AllRemovable(dirs, files, obstacles) <==>
              && p in dirs && |p| > 0
              && (forall f :: f in files ==> !(p <= f))
              && (forall q {:trigger obstacles.unlistable(q)} :: q <= p ==> !obstacles.unlistable(q))
              && (forall q :: q in dirs && p <= q ==> !obstacles.unlistable(q) && !obstacles.refused(q))
  {
    if p in AllRemovable(dirs, files, obstacles) {
      forall q | q in dirs && p <= q ensures !obstacles.unlistable(q) && !obstacles.refused(q) {
        assert Within(q, p);
      }
      forall f | f in files ensures !(p <= f) {
        assert !Within(f, p);
      }
      forall q {:trigger obstacles.unlistable(q)} | q <= p ensures !obstacles.unlistable(q) {
        assert p[..|q|] == q;
      }
    }
  }

  /** Every directory that can be reached once, each before its ancestors. */
  ghost predicate BottomUp(dirs: set<Path>, obstacles: Obstacles, walk: seq<Path>) {
    && (forall p :: p in walk <==> p in dirs && Reached(obstacles, p))
    && (forall i, j {:trigger walk[i], walk[j]} :: 0 <= i < j < |walk| ==> !Within(walk[j], walk[i]))
  }

  /** The child of p on the way down to a path strictly below it. */
  function Towards(q: Path, p: Path): Path
    requires Within(q, p) && q != p
  {
    q[..|p| + 1]
  }

  lemma TowardsIsChild(q: Path, p: Path)
    requires Within(q, p) && q != p
    ensures ChildOf(Towards(q, p), p) && Within(q, Towards(q, p))
  {
    assert q[..|p| + 1][..|p|] == q[..|p|];
  }

  /** A path in the tree has all paths above it in the tree. */
  lemma {:induction false} AncestorsAreThere(dirs: set<Path>, files: set<Path>, q: Path, p: Path)
    requires Tree(dirs, files) && (q in dirs || q in files) && Within(q, p) && q != p
    ensures p in dirs
    decreases |q|
  {
    assert Parent(q) in dirs;
    if Parent(q) != p {
      assert p == q[..|p|] == Parent(q)[..|p|];
      AncestorsAreThere(dirs, files, Parent(q), p);
    }
  }

  lemma WithinIsTransitive(a: Path, b: Path, c: Path)
    requires Within(a, b) && Within(b, c)
    ensures Within(a, c)
  {
  }

  /** The children of what is removable are removable. */
  lemma RemovableBelow(dirs: set<Path>, files: set<Path>, obstacles: Obstacles, p: Path, q: Path)
    requires Removable(dirs, files, obstacles, p) && q in dirs && ChildOf(q, p)
    ensures Removable(dirs, files, obstacles, q)
  {
    assert Within(q, p);
    forall f | f in files ensures !Within(f, q) {
      if Within(f, q) {
        WithinIsTransitive(f, q, p);
      }
    }
    forall x | x in dirs && Within(x, q) ensures !Stuck(obstacles, x) {
      WithinIsTransitive(x, q, p);
    }
    forall n | 0 <= n <= |q| ensures !obstacles.unlistable(q[..n]) {
      if n <= |p| {
        assert q[..n] == p[..n];
      } else {
        assert q[..n] == q;
      }
    }
  }

  /** Whatever is reached and not removable, and does not refuse itself, has something right below it that
      stays. */
  lemma SomethingStays(dirs: set<Path>, files: set<Path>, obstacles: Obstacles, p: Path) returns (q: Path)
    requires Tree(dirs, files) && p in dirs && p != ROOT && Reached(obstacles, p)
    requires !Removable(dirs, files, obstacles, p) && !obstacles.refused(p)
    ensures ChildOf(q, p) && (q in files || (q in dirs && !Removable(dirs, files, obstacles, q)))
  {
    if !Hollow(files, p) {
      var f :| f in files && Within(f, p);
      q := Towards(f, p);
      TowardsIsChild(f, p);
      if q != f {
        AncestorsAreThere(dirs, files, f, q);
      }
    } else {
      var d :| d in dirs && Within(d, p) && Stuck(obstacles, d);
      assert p[..|p|] == p;
      q := Towards(d, p);
      TowardsIsChild(d, p);
      if q != d {
        AncestorsAreThere(dirs, files, d, q);
      }
    }
  }
}
