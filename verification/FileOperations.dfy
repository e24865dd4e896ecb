/** Moving and copying files over an abstract file system: what one operation does. */
module FileOperations {
  import opened Options

  /** Path components below the root; the root is the empty path. */
  type Path = seq<string>
  type Content = string

  datatype Kind = Move | Copy
  datatype Operation = Operation(kind: Kind, source: Path, destination: Path)

  datatype State = State(files: map<Path, Content>, dirs: set<Path>)

  /** What the outside world refuses: making a directory, or carrying out an operation. */
  datatype Env = Env(noDirectory: Path -> bool, noTransfer: Operation -> bool)

  datatype Error = NotFound | NotAFile | ParentIsNoDirectory | Traversal | NoDirectory | NoTransfer
  datatype Outcome = Done | Skipped | Failed(error: Error)

  function Parent(p: Path): Path {
    if p == [] then [] else p[..|p| - 1]
  }

  function Name(p: Path): string {
    if p == [] then "" else p[|p| - 1]
  }

  /** A file system: no path is both a file and a directory, and everything lies in a directory up to
      the root. */
  ghost predicate Consistent(s: State) {
    && s.files.Keys !! s.dirs && [] in s.dirs
    && (forall f {:trigger Parent(f)} :: f in s.files ==> Parent(f) in s.dirs)
    && (forall d {:trigger Parent(d)} :: d in s.dirs ==> Parent(d) in s.dirs)
  }

  /** What lies above a file or directory is a directory. */
  lemma {:induction false} AboveIsADirectory(s: State, q: Path, p: Path)
    requires Consistent(s) && (q in s.files || q in s.dirs) && p <= q && p != q
    ensures p in s.dirs
    decreases |q|
  {
    assert Parent(q) in s.dirs;
    if p != Parent(q) {
      AboveIsADirectory(s, Parent(q), p);
    }
  }

  /** The checks, in the order in which they are made. */
  function Check(s: State, op: Operation): Option<Error> {
    if op.source !in s.files && op.source !in s.dirs then Some(NotFound)
    else if op.source !in s.files then Some(NotAFile)
    else if Parent(op.destination) in s.files then Some(ParentIsNoDirectory)
    else if ".." in op.destination then Some(Traversal)
    else None
  }

  /** mkdir with parents: makes what is missing from the top down, and may stop half-way. */
  function MakeDirs(env: Env, s: State, p: Path): (r: (bool, set<Path>))
    requires [] in s.dirs
    ensures s.dirs <= r.1 && (r.0 <==> p in r.1)
    ensures forall q :: q in r.1 && q !in s.dirs ==> q <= p && q !in s.files && !env.noDirectory(q)
    decreases |p|
  {
    if p in s.dirs then (true, s.dirs)
    else if p in s.files then (false, s.dirs)
    else
      var (ok, dirs) := MakeDirs(env, s, Parent(p));
      assert |Parent(p)| < |p| && p !in dirs;
      if !ok || env.noDirectory(p) then (false, dirs) else (true, dirs + {p})
  }

  /** Where a transfer puts the file: inside the destination if that is a directory. */
  function Target(s: State, op: Operation): Path {
    if op.destination in s.dirs then op.destination + [Name(op.source)] else op.destination
  }

  /** shutil.move refuses to replace a file inside a destination directory, but does replace the
      destination file itself; shutil.copy2 replaces either, and refuses to copy a file onto itself. */
  predicate Transfers(env: Env, s: State, op: Operation) {
    var t := Target(s, op);
    && !env.noTransfer(op) && t !in s.dirs
    && (op.kind == Move && op.destination in s.dirs ==> t !in s.files)
    && (op.kind == Copy ==> t != op.source)
  }

  function Transferred(files: map<Path, Content>, op: Operation, t: Path): map<Path, Content>
    requires op.source in files
  {
    if op.kind == Move then (files - {op.source})[t := files[op.source]] else files[t := files[op.source]]
  }

  /** One operation, checked, with its directory made, and carried out. */
  function Executed(env: Env, s: State, op: Operation, dryRun: bool): (Outcome, State)
    requires [] in s.dirs
  {
    var error := Check(s, op);
    if error.Some? then (Failed(error.value), s)
    else if dryRun then (Skipped, s)
    else
      var (ok, dirs) := MakeDirs(env, s, Parent(op.destination));
      var made := State(s.files, dirs);
      if !ok then (Failed(NoDirectory), made)
      else if !Transfers(env, made, op) then (Failed(NoTransfer), made)
      else (Done, State(Transferred(s.files, op, Target(made, op)), dirs))
  }

  lemma {:induction false} MakingStaysConsistent(env: Env, s: State, p: Path)
    requires Consistent(s)
    ensures Consistent(State(s.files, MakeDirs(env, s, p).1))
    decreases |p|
  {
    if p !in s.dirs && p !in s.files {
      MakingStaysConsistent(env, s, Parent(p));
    }
  }

  /** Moving or copying a file into a directory leaves a file system. */
  lemma TransferStaysConsistent(s: State, op: Operation)
    requires Consistent(s) && op.source in s.files && Parent(op.destination) in s.dirs
    ensures Target(s, op) !in s.dirs ==> Consistent(State(Transferred(s.files, op, Target(s, op)), s.dirs))
  {
    assert op.destination in s.dirs ==> Parent(Target(s, op)) == op.destination;
  }

  lemma ExecutionStaysConsistent(env: Env, s: State, op: Operation, dryRun: bool)
    requires Consistent(s)
    ensures Consistent(Executed(env, s, op, dryRun).1)
  {
    var made := State(s.files, MakeDirs(env, s, Parent(op.destination)).1);
    MakingStaysConsistent(env, s, Parent(op.destination));
    if op.source in s.files && Parent(op.destination) in made.dirs {
      TransferStaysConsistent(made, op);
    }
  }

  /** Only success changes files, and then by exactly one transfer. */
  lemma FilesChangeOnlyOnSuccess(env: Env, s: State, op: Operation, dryRun: bool)
    requires [] in s.dirs
    ensures var (outcome, s') := Executed(env, s, op, dryRun);
            && (outcome != Done ==> s'.files == s.files)
            && (outcome == Done ==> op.source in s.files && !dryRun && s'.files == Transferred(s.files, op, Target(s', op)))
  {
  }

  /** A path is lost when its content is neither where it was nor at the target. */
  ghost predicate Lost(s: State, s': State, op: Operation, p: Path) {
    p in s.files && p != op.source && (p !in s'.files || s'.files[p] != s.files[p])
  }

  // ---------- When an operation succeeds, and what it then replaces ----------

  /** Each directory down to p is there, or can be made. */
  ghost predicate CanMake(env: Env, s: State, p: Path) {
    forall k {:trigger p[..k]} :: 0 <= k <= |p| ==> p[..k] in s.dirs || (p[..k] !in s.files && !env.noDirectory(p[..k]))
  }

  lemma {:induction false} MakeDirsSucceedsExactly(env: Env, s: State, p: Path)
    requires Consistent(s)
    ensures MakeDirs(env, s, p).0 <==> CanMake(env, s, p)
    decreases |p|
  {
    assert p[..|p|] == p;
    if p in s.dirs {
      forall k | 0 <= k <= |p| ensures p[..k] in s.dirs {
        if p[..k] != p {
          AboveIsADirectory(s, p, p[..k]);
        }
      }
    } else if p !in s.files {
      var q := Parent(p);
      MakeDirsSucceedsExactly(env, s, q);
      assert forall k :: 0 <= k <= |q| ==> q[..k] == p[..k];
      assert forall k :: 0 <= k <= |p| && p[..k] != p ==> k <= |q|;
    }
  }

  /** The directories made for an operation change neither its target nor whether it may go ahead. */
  lemma MakingKeepsTarget(env: Env, s: State, op: Operation)
    requires [] in s.dirs
    ensures var made := State(s.files, MakeDirs(env, s, Parent(op.destination)).1);
            Target(made, op) == Target(s, op) && (Transfers(env, made, op) <==> Transfers(env, s, op))
  {
    var d, made := op.destination, MakeDirs(env, s, Parent(op.destination)).1;
    assert !(d <= Parent(d)) || d == [];
    assert d in made <==> d in s.dirs;
    assert Target(s, op) in made <==> Target(s, op) in s.dirs;
  }

  /** A file goes into the destination if that is a directory, under its own name: nothing of that name may
      be there, but that a copy does replace a file. Elsewhere only a copy onto itself is refused. */
  ghost predicate PlaceIsFree(s: State, op: Operation)
    requires op.source != []
  {
    if op.destination in s.dirs then
      var inside := op.destination + [op.source[|op.source| - 1]];
      inside !in s.dirs && (if op.kind == Move then inside !in s.files else inside != op.source)
    else
      op.kind == Copy ==> op.destination != op.source
  }

  /** What a caller can check beforehand: a file to take, a place to put it, and nothing in the way. */
  ghost predicate Allowed(env: Env, s: State, op: Operation) {
    && op.source in s.files && op.source != [] && ".." !in op.destination
    && CanMake(env, s, Parent(op.destination)) && PlaceIsFree(s, op) && !env.noTransfer(op)
  }

  /** An operation succeeds if and only if it is allowed. */
  lemma ExecutionSucceedsExactly(env: Env, s: State, op: Operation)
    requires Consistent(s)
    ensures Executed(env, s, op, false).0 == Done <==> Allowed(env, s, op)
  {
    var p := Parent(op.destination);
    MakeDirsSucceedsExactly(env, s, p);
    MakingKeepsTarget(env, s, op);
    assert p[..|p|] == p;
  }

  lemma AboveOrEqual(q: Path, p: Path)
    requires p != []
    ensures q <= p <==> q == p || q <= Parent(p)
  {
  }

  /** Making a directory leaves behind, also where it stops half-way, exactly the directories on the way
      that could be made. */
  lemma {:induction false} MakesWhatItCan(env: Env, s: State, p: Path, q: Path)
    requires Consistent(s)
    ensures q in MakeDirs(env, s, p).1 <==> q in s.dirs || (q <= p && CanMake(env, s, q))
    decreases |p|
  {
    MakeDirsSucceedsExactly(env, s, p);
    if p in s.dirs {
      if q <= p && q != p {
        AboveIsADirectory(s, p, q);
      }
    } else if p in s.files {
      if q <= p && q != p {
        AboveIsADirectory(s, p, q);
      }
      assert p[..|p|] == p;
    } else {
      MakesWhatItCan(env, s, Parent(p), q);
      MakeDirsSucceedsExactly(env, s, Parent(p));
      AboveOrEqual(q, p);
    }
  }

  /** Where nothing is at the destination, no file on the way to it and nothing refused, a move takes the
      file there, a copy leaves it in both places, all else stays, and exactly the directories on the way
      have been added. */
  lemma FreshPlaceIsReached(env: Env, s: State, op: Operation)
    requires Consistent(s) && op.source in s.files && ".." !in op.destination
    requires op.destination !in s.files && op.destination !in s.dirs
    requires forall q :: q in s.files ==> !(q <= op.destination)
    requires (forall q :: !env.noDirectory(q)) && !env.noTransfer(op)
    ensures var (outcome, after) := Executed(env, s, op, false);
            && outcome == Done
            && (forall q :: q in after.dirs <==> q in s.dirs || (q <= op.destination && q != op.destination))
            && after.files == match op.kind
                              case Move => (s.files - {op.source})[op.destination := s.files[op.source]]
                              case Copy => s.files[op.destination := s.files[op.source]]
  {
    var above := Parent(op.destination);
    assert op.source != [] && above <= op.destination;
    assert forall k :: 0 <= k <= |above| ==> above[..k] <= op.destination;
    ExecutionSucceedsExactly(env, s, op);
    MakingKeepsTarget(env, s, op);
    var dirs := MakeDirs(env, s, above).1;
    forall q ensures q in dirs <==> q in s.dirs || (q <= op.destination && q != op.destination) {
      MakesWhatItCan(env, s, above, q);
      assert q <= above ==> forall k :: 0 <= k <= |q| ==> q[..k] == above[..k];
      AboveOrEqual(q, op.destination);
    }
  }

  /** The docstrings promise FileExistsError, but an existing destination file is replaced: an operation
      changes what a path other than its source holds if and only if it is allowed and that path is its
      target and holds something else. An allowed one leaves the source's content at the target. */
  lemma ReplacesExactlyTheTarget(env: Env, s: State, op: Operation, p: Path)
    requires Consistent(s)
    ensures Lost(s, Executed(env, s, op, false).1, op, p) <==>
              Allowed(env, s, op) && p == Target(s, op) && p != op.source && p in s.files && s.files[p] != s.files[op.source]
    ensures var after := Executed(env, s, op, false).1;
            Allowed(env, s, op) ==> Target(s, op) in after.files && after.files[Target(s, op)] == s.files[op.source]
  {
    ExecutionSucceedsExactly(env, s, op);
    MakingKeepsTarget(env, s, op);
    FilesChangeOnlyOnSuccess(env, s, op, false);
  }
}
