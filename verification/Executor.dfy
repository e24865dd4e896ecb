/** The executor: single operations, and batches that go on after an error and remember the
    directories they have made. */
module Executors {
  import opened Options
  import opened Sequences
  import opened FileOperations

  /** The state after a batch, and the outcome of each of its operations. */
  ghost function StateAfter(env: Env, s: State, ops: seq<Operation>, dryRun: bool): (r: State)
    requires [] in s.dirs
    ensures [] in r.dirs
  {
    if ops == [] then s
    else
      var before := StateAfter(env, s, ops[..|ops| - 1], dryRun);
      var after := Executed(env, before, ops[|ops| - 1], dryRun).1;
      DirectoriesStay(env, before, ops[|ops| - 1], dryRun);
      after
  }

  ghost function Outcomes(env: Env, s: State, ops: seq<Operation>, dryRun: bool): (r: seq<Outcome>)
    requires [] in s.dirs
    ensures |r| == |ops|
  {
    if ops == [] then []
    else
      var rest := ops[..|ops| - 1];
      Outcomes(env, s, rest, dryRun) + [Executed(env, StateAfter(env, s, rest, dryRun), ops[|ops| - 1], dryRun).0]
  }

  lemma DirectoriesStay(env: Env, s: State, op: Operation, dryRun: bool)
    requires [] in s.dirs
    ensures s.dirs <= Executed(env, s, op, dryRun).1.dirs
  {
  }

  class FileOperationExecutor {
    const env: Env
    var files: map<Path, Content>
    var dirs: set<Path>

    ghost function Value(): State
      reads this
    {
      State(files, dirs)
    }

    ghost predicate Valid()
      reads this
    {
      Consistent(Value())
    }

    constructor (env: Env, s: State)
      requires Consistent(s)
      ensures Valid() && Value() == s && this.env == env
    {
      this.env, files, dirs := env, s.files, s.dirs;
    }

    /** Passes exactly what could go ahead in some surroundings; each error names what is wrong. */
    method ValidateOperation(op: Operation) returns (error: Option<Error>)
      ensures error == None <==> op.source in files && Parent(op.destination) !in files && ".." !in op.destination
      ensures error == Some(NotFound) <==> op.source !in files && op.source !in dirs
      ensures error == Some(NotAFile) <==> op.source in dirs && op.source !in files
      ensures error == Some(ParentIsNoDirectory) <==> op.source in files && Parent(op.destination) in files
      ensures error == Some(Traversal) ==> ".." in op.destination
      ensures error.Some? ==> error.value.NotFound? || error.value.NotAFile? || error.value.ParentIsNoDirectory? || error.value.Traversal?
    {
      if op.source !in files && op.source !in dirs {
        return Some(NotFound);
      }
      if op.source !in files {
        return Some(NotAFile);
      }
      if Parent(op.destination) in files {
        return Some(ParentIsNoDirectory);
      }
      if ".." in op.destination {
        return Some(Traversal);
      }
      return None;
    }

    method EnsureDestinationDirectory(destination: Path) returns (ok: bool)
      requires Valid()
      modifies `dirs
      ensures Valid() && (ok, dirs) == MakeDirs(env, old(Value()), Parent(destination))
    {
      MakingStaysConsistent(env, Value(), Parent(destination));
      var made := MakeDirs(env, State(files, dirs), Parent(destination));
      ok, dirs := made.0, made.1;
    }

    method PerformOperation(op: Operation) returns (ok: bool)
      requires Valid() && op.source in files && Parent(op.destination) in dirs
      modifies `files
      ensures Valid() && ok == Transfers(env, old(Value()), op)
      ensures files == if ok then Transferred(old(files), op, Target(old(Value()), op)) else old(files)
    {
      var t := Target(State(files, dirs), op);
      TransferStaysConsistent(Value(), op);
      if env.noTransfer(op) || t in dirs {
        return false;
      }
      if op.kind == Move {
        if op.destination in dirs && t in files {
          return false;
        }
        files := (files - {op.source})[t := files[op.source]];
      } else {
        if t == op.source {
          return false;
        }
        files := files[t := files[op.source]];
      }
      return true;
    }

    /** A directory in the cache of created ones is not made again, which makes no difference. */
    method Execute(op: Operation, dryRun: bool, created: Option<set<Path>>) returns (outcome: Outcome, created': Option<set<Path>>)
      requires Valid() && (created.Some? ==> created.value <= dirs)
      modifies `files, `dirs
      ensures Valid() && (outcome, Value()) == Executed(env, old(Value()), op, dryRun)
      ensures created'.Some? == created.Some? && (created'.Some? ==> created'.value <= dirs)
    {
      created' := created;
      var error := ValidateOperation(op);
      assert error == Check(Value(), op);
      if error.Some? {
        return Failed(error.value), created;
      }
      if dryRun {
        return Skipped, created;
      }
      var directory := Parent(op.destination);
      if created.None? || directory !in created.value {
        var made := EnsureDestinationDirectory(op.destination);
        if !made {
          return Failed(NoDirectory), created;
        }
        if created.Some? {
          created' := Some(created.value + {directory});
        }
      }
      var ok := PerformOperation(op);
      outcome := if ok then Done else Failed(NoTransfer);
    }

    /** One outcome for each operation, in order; errors do not stop the batch. */
    method ExecuteBatch(ops: seq<Operation>, dryRun: bool) returns (outcomes: seq<Outcome>)
      requires Valid()
      modifies `files, `dirs
      ensures Valid() && Value() == StateAfter(env, old(Value()), ops, dryRun)
      ensures outcomes == Outcomes(env, old(Value()), ops, dryRun)
    {
      ghost var s := Value();
      outcomes := [];
      var created: Option<set<Path>> := Some({});
      for i := 0 to |ops|
        invariant Valid() && Value() == StateAfter(env, s, ops[..i], dryRun)
        invariant outcomes == Outcomes(env, s, ops[..i], dryRun)
        invariant created.Some? && created.value <= dirs
      {
        assert ops[..i + 1][..i] == ops[..i];
        var outcome;
        outcome, created := Execute(ops[i], dryRun, created);
        outcomes := outcomes + [outcome];
      }
      TakeAll(ops);
    }

    /** The same operations one by one, without the cache: the same state and outcomes. */
    method ExecuteUncached(ops: seq<Operation>, dryRun: bool) returns (outcomes: seq<Outcome>)
      requires Valid()
      modifies `files, `dirs
      ensures Valid() && Value() == StateAfter(env, old(Value()), ops, dryRun)
      ensures outcomes == Outcomes(env, old(Value()), ops, dryRun)
    {
      ghost var s := Value();
      outcomes := [];
      for i := 0 to |ops|
        invariant Valid() && Value() == StateAfter(env, s, ops[..i], dryRun)
        invariant outcomes == Outcomes(env, s, ops[..i], dryRun)
      {
        assert ops[..i + 1][..i] == ops[..i];
        var outcome, _ := Execute(ops[i], dryRun, None);
        outcomes := outcomes + [outcome];
      }
      TakeAll(ops);
    }
  }
}
