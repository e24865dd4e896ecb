/** The way back: the successful moves of a batch, reversed, run through the same executor. */
module BatchUndo {
  import opened Options
  import opened FileOperations
  import opened Executors
  import opened BatchLaws

  function Back(op: Operation): Operation {
    Operation(Move, op.destination, op.source)
  }

  ghost predicate Moved(ops: seq<Operation>, outcomes: seq<Outcome>, i: nat)
    requires |ops| == |outcomes|
  {
    i < |ops| && outcomes[i] == Done && ops[i].kind == Move
  }

  /** The moves back, last one first. */
  function Backs(ops: seq<Operation>, outcomes: seq<Outcome>): seq<Operation>
    requires |ops| == |outcomes|
    decreases |ops|
  {
    if ops == [] then []
    else
      var n := |ops| - 1;
      (if outcomes[n] == Done && ops[n].kind == Move then [Back(ops[n])] else []) + Backs(ops[..n], outcomes[..n])
  }

  ghost predicate BackOf(ops: seq<Operation>, outcomes: seq<Outcome>, i: nat, b: Operation)
    requires |ops| == |outcomes|
  {
    Moved(ops, outcomes, i) && b == Back(ops[i])
  }

  lemma BacksOneMore(ops: seq<Operation>, outcomes: seq<Outcome>, b: Operation)
    requires |ops| == |outcomes| > 0
    ensures var n := |ops| - 1;
            b in Backs(ops, outcomes) <==> BackOf(ops, outcomes, n, b) || b in Backs(ops[..n], outcomes[..n])
  {
  }

  lemma SomeBackOneMore(ops: seq<Operation>, outcomes: seq<Outcome>, b: Operation)
    requires |ops| == |outcomes| > 0
    ensures var n := |ops| - 1;
            (exists i: nat :: BackOf(ops, outcomes, i, b)) <==>
            BackOf(ops, outcomes, n, b) || exists i: nat :: BackOf(ops[..n], outcomes[..n], i, b)
  {
    var n := |ops| - 1;
    if i: nat :| BackOf(ops[..n], outcomes[..n], i, b) {
      assert BackOf(ops, outcomes, i, b);
    } else if i: nat :| BackOf(ops, outcomes, i, b) && i < n {
      assert BackOf(ops[..n], outcomes[..n], i, b);
    }
  }

  lemma {:induction false} BacksAreOfMoves(ops: seq<Operation>, outcomes: seq<Outcome>, b: Operation)
    requires |ops| == |outcomes|
    ensures b in Backs(ops, outcomes) <==> exists i: nat :: BackOf(ops, outcomes, i, b)
    decreases |ops|
  {
    if ops != [] {
      BacksOneMore(ops, outcomes, b);
      BacksAreOfMoves(ops[..|ops| - 1], outcomes[..|ops| - 1], b);
      SomeBackOneMore(ops, outcomes, b);
    }
  }

  // ---------- The moves back are a separate batch themselves ----------

  ghost predicate Apart(a: Operation, b: Operation) {
    && a.source != b.source && a.source != b.destination && b.source != a.destination
    && !(a.destination <= b.destination) && !(b.destination <= a.destination)
  }

  lemma SeparateWithFirst(a: Operation, rest: seq<Operation>)
    requires Separate(rest) && a.source != a.destination && forall b :: b in rest ==> Apart(a, b)
    ensures Separate([a] + rest)
  {
    var all := [a] + rest;
    assert forall k :: 0 < k < |all| ==> all[k] == rest[k - 1] && Apart(a, all[k]);
  }

  lemma SeparateOps(ops: seq<Operation>, i: nat, j: nat)
    requires Separate(ops) && i < j < |ops|
    ensures ops[i].source != ops[j].source && ops[i].source != ops[j].destination && ops[j].source != ops[i].destination
    ensures ops[i].destination != ops[j].destination && ops[i].source != ops[i].destination && ops[j].source != ops[j].destination
  {
    assert ops[j].source != ops[i].destination && ops[i].source != ops[i].destination && ops[j].source != ops[j].destination;
    assert !(ops[i].destination <= ops[j].destination);
  }

  /** Of two files neither lies above the other. */
  lemma FilesAreLeaves(s: State, f: Path, g: Path)
    requires Consistent(s) && f in s.files && g in s.files && f != g
    ensures !(f <= g)
  {
    if f <= g {
      AboveIsADirectory(s, g, f);
    }
  }

  lemma {:induction false} BacksAreSeparate(s: State, ops: seq<Operation>, outcomes: seq<Outcome>)
    requires |ops| == |outcomes| && Consistent(s) && Separate(ops)
    requires forall i: nat :: Moved(ops, outcomes, i) ==> ops[i].source in s.files
    ensures Separate(Backs(ops, outcomes))
    decreases |ops|
  {
    if ops != [] {
      var n := |ops| - 1;
      var rest, done := ops[..n], outcomes[..n];
      SeparateBefore(ops, n);
      forall i: nat | Moved(rest, done, i) ensures rest[i].source in s.files {
        assert Moved(ops, outcomes, i);
      }
      BacksAreSeparate(s, rest, done);
      if Moved(ops, outcomes, n) {
        forall b | b in Backs(rest, done) ensures Apart(Back(ops[n]), b) {
          BacksAreOfMoves(rest, done, b);
          var i: nat :| BackOf(rest, done, i, b);
          assert Moved(ops, outcomes, i);
          SeparateOps(ops, i, n);
          FilesAreLeaves(s, ops[i].source, ops[n].source);
          FilesAreLeaves(s, ops[n].source, ops[i].source);
        }
        assert ops[n].source != ops[n].destination;
        SeparateWithFirst(Back(ops[n]), Backs(rest, done));
      }
    }
  }

  // ---------- States along a batch ----------

  lemma {:induction false} BatchStaysConsistent(env: Env, s: State, ops: seq<Operation>)
    requires Consistent(s)
    ensures Consistent(StateAfter(env, s, ops, false)) && s.dirs <= StateAfter(env, s, ops, false).dirs
  {
    if ops != [] {
      var rest, op := ops[..|ops| - 1], ops[|ops| - 1];
      BatchStaysConsistent(env, s, rest);
      ExecutionStaysConsistent(env, StateAfter(env, s, rest, false), op, false);
      DirectoriesStay(env, StateAfter(env, s, rest, false), op, false);
    }
  }

  lemma {:induction false} OutcomeAt(env: Env, s: State, ops: seq<Operation>, k: nat)
    requires [] in s.dirs && k < |ops|
    ensures Outcomes(env, s, ops, false)[k] == Executed(env, StateAfter(env, s, ops[..k], false), ops[k], false).0
  {
    var n := |ops| - 1;
    if k < n {
      OutcomeAt(env, s, ops[..n], k);
      assert ops[..n][..k] == ops[..k];
    }
  }

  lemma StateAt(env: Env, s: State, ops: seq<Operation>, k: nat)
    requires [] in s.dirs && k < |ops|
    ensures StateAfter(env, s, ops[..k + 1], false) == Executed(env, StateAfter(env, s, ops[..k], false), ops[k], false).1
  {
    assert ops[..k + 1][..k] == ops[..k];
  }

  /** Errors do not stop a batch: each operation succeeds if and only if it is allowed in the state that
      those before it have left, whatever became of them. */
  lemma EveryOperationIsTried(env: Env, s: State, ops: seq<Operation>, k: nat)
    requires Consistent(s) && k < |ops|
    ensures Outcomes(env, s, ops, false)[k] == Done <==> Allowed(env, StateAfter(env, s, ops[..k], false), ops[k])
    ensures Outcomes(env, s, ops, false)[k] != Done ==>
              StateAfter(env, s, ops[..k + 1], false).files == StateAfter(env, s, ops[..k], false).files
  {
    var before := StateAfter(env, s, ops[..k], false);
    BatchStaysConsistent(env, s, ops[..k]);
    OutcomeAt(env, s, ops, k);
    StateAt(env, s, ops, k);
    ExecutionSucceedsExactly(env, before, ops[k]);
    FilesChangeOnlyOnSuccess(env, before, ops[k], false);
  }

  /** A successful move of a separate batch: its file was there from the start, and is now at the
      destination. */
  lemma MovedFilesWereThere(env: Env, s: State, ops: seq<Operation>, i: nat)
    requires [] in s.dirs && Separate(ops) && AllFresh(s, ops) && Moved(ops, Outcomes(env, s, ops, false), i)
    ensures var end := StateAfter(env, s, ops, false);
            && ops[i].source in s.files && ops[i].source !in end.files
            && ops[i].destination in end.files && end.files[ops[i].destination] == s.files[ops[i].source]
  {
    BatchesConserveFiles(env, s, ops);
    var files, outcomes := StateAfter(env, s, ops, false).files, Outcomes(env, s, ops, false);
    assert PathOk(s.files, files, ops, outcomes, ops[i].source) && PathOk(s.files, files, ops, outcomes, ops[i].destination);
  }

  // ---------- When a move back succeeds ----------

  /** The old place is still free, can be named, and the move is not refused. */
  ghost predicate CanReturn(env: Env, end: State, op: Operation) {
    op.source !in end.dirs && ".." !in op.source && !env.noTransfer(Back(op))
  }

  ghost predicate AllCanReturn(env: Env, end: State, ops: seq<Operation>, outcomes: seq<Outcome>)
    requires |ops| == |outcomes|
  {
    forall i: nat {:trigger Moved(ops, outcomes, i)} :: Moved(ops, outcomes, i) ==> CanReturn(env, end, ops[i])
  }

  /** A move that can only go where nothing is, to a directory that is there. */
  ghost predicate Ready(env: Env, s: State, b: Operation) {
    && b.kind == Move && b.source in s.files && Parent(b.destination) in s.dirs
    && ".." !in b.destination && !env.noTransfer(b)
  }

  lemma ReadyIsDone(env: Env, s: State, b: Operation)
    requires Consistent(s) && Ready(env, s, b) && b.destination !in s.dirs
    ensures Executed(env, s, b, false).0 == Done
  {
  }

  lemma ReadyStaysReady(env: Env, s: State, bs: seq<Operation>, n: nat)
    requires Consistent(s) && Separate(bs) && AllFresh(s, bs) && n < |bs| && Ready(env, s, bs[n])
    ensures Executed(env, StateAfter(env, s, bs[..n], false), bs[n], false).0 == Done
  {
    var before, outcomes := StateAfter(env, s, bs[..n], false), Outcomes(env, s, bs[..n], false);
    BatchStaysConsistent(env, s, bs[..n]);
    FilesAreAccountedFor(env, s, bs, n);
    SeparateBefore(bs, n + 1);
    assert bs[..n + 1] == bs[..n] + [bs[n]];
    SourceIsUntouched(bs[..n], outcomes, bs[n]);
    assert PathOk(s.files, before.files, bs[..n], outcomes, bs[n].source);
    DestinationsStayFree(env, s, bs, n, n);
    ReadyIsDone(env, before, bs[n]);
  }

  // ---------- Restoring ----------

  /** A path holds what it held before the batch, or a copy that the batch made there. */
  ghost predicate RestoredAt(files0: map<Path, Content>, files: map<Path, Content>, ops: seq<Operation>, outcomes: seq<Outcome>, p: Path)
    requires |ops| == |outcomes|
  {
    if Copied(ops, outcomes, p)
    then forall i :: 0 <= i < |ops| && outcomes[i] == Done && ops[i].kind == Copy && ops[i].destination == p ==>
           ops[i].source in files0 && p in files && files[p] == files0[ops[i].source]
    else (p in files <==> p in files0) && (p in files ==> files[p] == files0[p])
  }

  ghost predicate Copied(ops: seq<Operation>, outcomes: seq<Outcome>, p: Path)
    requires |ops| == |outcomes|
  {
    exists i :: 0 <= i < |ops| && outcomes[i] == Done && ops[i].kind == Copy && ops[i].destination == p
  }

  ghost predicate Restored(files0: map<Path, Content>, files: map<Path, Content>, ops: seq<Operation>, outcomes: seq<Outcome>)
    requires |ops| == |outcomes|
  {
    forall p {:trigger RestoredAt(files0, files, ops, outcomes, p)} :: RestoredAt(files0, files, ops, outcomes, p)
  }

  /** The moves back, given that each can return, form a batch that wholly succeeds. */
  lemma BacksSucceed(env: Env, undo: Env, s: State, ops: seq<Operation>)
    requires Consistent(s) && Separate(ops) && AllFresh(s, ops)
    requires AllCanReturn(undo, StateAfter(env, s, ops, false), ops, Outcomes(env, s, ops, false))
    ensures var end, bs := StateAfter(env, s, ops, false), Backs(ops, Outcomes(env, s, ops, false));
            && Separate(bs) && AllFresh(end, bs)
            && forall k :: 0 <= k < |bs| ==> Outcomes(undo, end, bs, false)[k] == Done && bs[k].kind == Move
  {
    var end, outcomes := StateAfter(env, s, ops, false), Outcomes(env, s, ops, false);
    var bs := Backs(ops, outcomes);
    BatchStaysConsistent(env, s, ops);
    forall i: nat | Moved(ops, outcomes, i) ensures ops[i].source in s.files {
      MovedFilesWereThere(env, s, ops, i);
    }
    BacksAreSeparate(s, ops, outcomes);
    forall k | 0 <= k < |bs| ensures Ready(undo, end, bs[k]) && bs[k].destination !in end.files && bs[k].destination !in end.dirs {
      assert bs[k] in bs;
      BacksAreOfMoves(ops, outcomes, bs[k]);
      var i: nat :| BackOf(ops, outcomes, i, bs[k]);
      MovedFilesWereThere(env, s, ops, i);
    }
    forall k | 0 <= k < |bs| ensures Outcomes(undo, end, bs, false)[k] == Done {
      ReadyStaysReady(undo, end, bs, k);
      OutcomeAt(undo, end, bs, k);
    }
  }

  lemma BackIndex(ops: seq<Operation>, outcomes: seq<Outcome>, i: nat) returns (k: nat)
    requires |ops| == |outcomes| && Moved(ops, outcomes, i)
    ensures k < |Backs(ops, outcomes)| && Backs(ops, outcomes)[k] == Back(ops[i])
  {
    BacksAreOfMoves(ops, outcomes, Back(ops[i]));
    assert BackOf(ops, outcomes, i, Back(ops[i]));
    k :| 0 <= k < |Backs(ops, outcomes)| && Backs(ops, outcomes)[k] == Back(ops[i]);
  }

  lemma NotBackNotTouched(ops: seq<Operation>, outcomes: seq<Outcome>, dones: seq<Outcome>, p: Path)
    requires |ops| == |outcomes| && |dones| == |Backs(ops, outcomes)|
    requires forall i: nat :: Moved(ops, outcomes, i) ==> ops[i].source != p && ops[i].destination != p
    ensures Untouched(Backs(ops, outcomes), dones, p)
  {
    var bs := Backs(ops, outcomes);
    forall k | 0 <= k < |bs| ensures bs[k].destination != p && bs[k].source != p {
      assert bs[k] in bs;
      BacksAreOfMoves(ops, outcomes, bs[k]);
      var i: nat :| BackOf(ops, outcomes, i, bs[k]);
    }
  }

  /** After the moves back, at one path. */
  lemma PathIsRestored(env: Env, undo: Env, s: State, ops: seq<Operation>, p: Path)
    requires Consistent(s) && Separate(ops) && AllFresh(s, ops)
    requires AllCanReturn(undo, StateAfter(env, s, ops, false), ops, Outcomes(env, s, ops, false))
    ensures var end, outcomes := StateAfter(env, s, ops, false), Outcomes(env, s, ops, false);
            RestoredAt(s.files, StateAfter(undo, end, Backs(ops, outcomes), false).files, ops, outcomes, p)
  {
    var end, outcomes := StateAfter(env, s, ops, false), Outcomes(env, s, ops, false);
    var bs := Backs(ops, outcomes);
    var files, dones := StateAfter(undo, end, bs, false).files, Outcomes(undo, end, bs, false);
    BacksSucceed(env, undo, s, ops);
    BatchesConserveFiles(env, s, ops);
    BatchesConserveFiles(undo, end, bs);
    assert PathOk(s.files, end.files, ops, outcomes, p) && PathOk(end.files, files, bs, dones, p);
    if i: nat :| Moved(ops, outcomes, i) && (ops[i].source == p || ops[i].destination == p) {
      MovedIsRestored(env, undo, s, ops, i, p);
    } else {
      NotBackNotTouched(ops, outcomes, dones, p);
      if !Copied(ops, outcomes, p) {
        assert Untouched(ops, outcomes, p);
      }
    }
  }

  /** At both ends of a move. */
  lemma MovedIsRestored(env: Env, undo: Env, s: State, ops: seq<Operation>, i: nat, p: Path)
    requires Consistent(s) && Separate(ops) && AllFresh(s, ops) && Moved(ops, Outcomes(env, s, ops, false), i)
    requires AllCanReturn(undo, StateAfter(env, s, ops, false), ops, Outcomes(env, s, ops, false))
    requires ops[i].source == p || ops[i].destination == p
    ensures var end, outcomes := StateAfter(env, s, ops, false), Outcomes(env, s, ops, false);
            RestoredAt(s.files, StateAfter(undo, end, Backs(ops, outcomes), false).files, ops, outcomes, p)
  {
    var end, outcomes := StateAfter(env, s, ops, false), Outcomes(env, s, ops, false);
    var bs := Backs(ops, outcomes);
    BacksSucceed(env, undo, s, ops);
    BatchesConserveFiles(undo, end, bs);
    MovedFilesWereThere(env, s, ops, i);
    var k := BackIndex(ops, outcomes, i);
    assert Outcomes(undo, end, bs, false)[k] == Done && bs[k].kind == Move;
    assert PathOk(end.files, StateAfter(undo, end, bs, false).files, bs, Outcomes(undo, end, bs, false), p);
    NotCopied(ops, outcomes, i, p);
  }

  lemma NotCopied(ops: seq<Operation>, outcomes: seq<Outcome>, i: nat, p: Path)
    requires |ops| == |outcomes| && Separate(ops) && Moved(ops, outcomes, i) && (ops[i].source == p || ops[i].destination == p)
    ensures !Copied(ops, outcomes, p)
  {
    forall j | 0 <= j < |ops| && ops[j].kind == Copy ensures ops[j].destination != p {
      assert ops[i].source != ops[j].destination;
      assert !(ops[i].destination <= ops[j].destination);
    }
  }

  // ---------- When a move back fails ----------

  /** One step of the way back puts nothing at the old place of a file that cannot return. */
  lemma StepLeavesEmpty(undo: Env, end: State, s: State, ops: seq<Operation>, outcomes: seq<Outcome>, d: nat, now: State, b: Operation)
    requires |ops| == |outcomes| && Consistent(s) && Separate(ops) && Moved(ops, outcomes, d) && !CanReturn(undo, end, ops[d])
    requires forall i: nat :: Moved(ops, outcomes, i) ==> ops[i].source in s.files
    requires Consistent(now) && end.dirs <= now.dirs && ops[d].source !in now.files && b in Backs(ops, outcomes)
    ensures ops[d].source !in Executed(undo, now, b, false).1.files
  {
    var f, after := ops[d].source, Executed(undo, now, b, false).1;
    FilesChangeOnlyOnSuccess(undo, now, b, false);
    DirectoriesStay(undo, now, b, false);
    BacksAreOfMoves(ops, outcomes, b);
    var j: nat :| BackOf(ops, outcomes, j, b);
    assert Moved(ops, outcomes, j);
    if j != d {
      var i, k := if j < d then j else d, if j < d then d else j;
      SeparateOps(ops, i, k);
      assert Parent(f) in s.dirs && b.destination in s.files;
      assert Parent(b.destination + [Name(b.source)]) == b.destination;
    }
  }

  lemma {:induction false} PlaceStaysEmpty(undo: Env, end: State, s: State, ops: seq<Operation>, outcomes: seq<Outcome>, d: nat, n: nat)
    requires |ops| == |outcomes| && Consistent(s) && Separate(ops) && Moved(ops, outcomes, d) && !CanReturn(undo, end, ops[d])
    requires forall i: nat :: Moved(ops, outcomes, i) ==> ops[i].source in s.files
    requires Consistent(end) && ops[d].source !in end.files && n <= |Backs(ops, outcomes)|
    ensures ops[d].source !in StateAfter(undo, end, Backs(ops, outcomes)[..n], false).files
  {
    var bs := Backs(ops, outcomes);
    if n == 0 {
      assert bs[..0] == [];
    } else {
      PlaceStaysEmpty(undo, end, s, ops, outcomes, d, n - 1);
      BatchStaysConsistent(undo, end, bs[..n - 1]);
      assert bs[n - 1] in bs;
      StepLeavesEmpty(undo, end, s, ops, outcomes, d, StateAfter(undo, end, bs[..n - 1], false), bs[n - 1]);
      OneMoreOperation(undo, end, bs, n - 1);
    }
  }

  lemma UnreturnedIsMissing(env: Env, undo: Env, s: State, ops: seq<Operation>, d: nat)
    requires Consistent(s) && Separate(ops) && AllFresh(s, ops) && Moved(ops, Outcomes(env, s, ops, false), d)
    requires !CanReturn(undo, StateAfter(env, s, ops, false), ops[d])
    ensures var end, outcomes := StateAfter(env, s, ops, false), Outcomes(env, s, ops, false);
            !RestoredAt(s.files, StateAfter(undo, end, Backs(ops, outcomes), false).files, ops, outcomes, ops[d].source)
  {
    var end, outcomes := StateAfter(env, s, ops, false), Outcomes(env, s, ops, false);
    var bs := Backs(ops, outcomes);
    BatchStaysConsistent(env, s, ops);
    forall i: nat | Moved(ops, outcomes, i) ensures ops[i].source in s.files {
      MovedFilesWereThere(env, s, ops, i);
    }
    MovedFilesWereThere(env, s, ops, d);
    PlaceStaysEmpty(undo, end, s, ops, outcomes, d, |bs|);
    assert bs[..|bs|] == bs;
    NotCopied(ops, outcomes, d, ops[d].source);
  }

  /** Running the successful moves back, last one first, through the executor restores every path, but
      for the copies made, if and only if each of them can return: its old place has not become a
      directory, has no ".." in it, and the move back is not refused. */
  lemma UndoRestoresExactly(env: Env, undo: Env, s: State, ops: seq<Operation>)
    requires Consistent(s) && Separate(ops) && AllFresh(s, ops)
    ensures var end, outcomes := StateAfter(env, s, ops, false), Outcomes(env, s, ops, false);
            Restored(s.files, StateAfter(undo, end, Backs(ops, outcomes), false).files, ops, outcomes)
            <==> AllCanReturn(undo, end, ops, outcomes)
  {
    var end, outcomes := StateAfter(env, s, ops, false), Outcomes(env, s, ops, false);
    var files := StateAfter(undo, end, Backs(ops, outcomes), false).files;
    if AllCanReturn(undo, end, ops, outcomes) {
      forall p ensures RestoredAt(s.files, files, ops, outcomes, p) {
        PathIsRestored(env, undo, s, ops, p);
      }
    } else {
      var d: nat :| Moved(ops, outcomes, d) && !CanReturn(undo, end, ops[d]);
      UnreturnedIsMissing(env, undo, s, ops, d);
      assert !RestoredAt(s.files, files, ops, outcomes, ops[d].source);
    }
  }

  // ---------- A condition on the batch alone ----------

  lemma {:induction false} OffTheWayStaysFree(env: Env, s: State, ops: seq<Operation>, d: Path)
    requires [] in s.dirs && d !in s.dirs && forall i :: 0 <= i < |ops| ==> !(d <= Parent(ops[i].destination))
    ensures d !in StateAfter(env, s, ops, false).dirs
  {
    if ops != [] {
      var rest, op := ops[..|ops| - 1], ops[|ops| - 1];
      assert forall i :: 0 <= i < |rest| ==> rest[i] == ops[i];
      OffTheWayStaysFree(env, s, rest, d);
      assert d !in MakeDirs(env, StateAfter(env, s, rest, false), Parent(op.destination)).1;
    }
  }

  /** For a batch of moves: if no source is at or above the directory of another's destination, sources
      have no ".." in them and the moves back are not refused, undoing restores the file map. */
  lemma UndoRestoresFiles(env: Env, undo: Env, s: State, ops: seq<Operation>)
    requires Consistent(s) && Separate(ops) && AllFresh(s, ops)
    requires forall i :: 0 <= i < |ops| ==> ops[i].kind == Move && ".." !in ops[i].source && !undo.noTransfer(Back(ops[i]))
    requires forall i, j :: 0 <= i < |ops| && 0 <= j < |ops| ==> !(ops[i].source <= Parent(ops[j].destination))
    ensures var end := StateAfter(env, s, ops, false);
            StateAfter(undo, end, Backs(ops, Outcomes(env, s, ops, false)), false).files == s.files
  {
    var end, outcomes := StateAfter(env, s, ops, false), Outcomes(env, s, ops, false);
    var files := StateAfter(undo, end, Backs(ops, outcomes), false).files;
    forall i: nat | Moved(ops, outcomes, i) ensures CanReturn(undo, end, ops[i]) {
      MovedFilesWereThere(env, s, ops, i);
      OffTheWayStaysFree(env, s, ops, ops[i].source);
    }
    UndoRestoresExactly(env, undo, s, ops);
    forall p ensures p in files <==> p in s.files
    ensures p in files ==> files[p] == s.files[p] {
      assert RestoredAt(s.files, files, ops, outcomes, p);
    }
  }

  // ---------- A batch that cannot be undone ----------

  const FIRST := Operation(Move, ["x", "y"], ["q"])
  const SECOND := Operation(Move, ["b"], ["x", "y", "z"])

  function Start(a: Content, b: Content): State {
    State(map[["x", "y"] := a, ["b"] := b], {[], ["x"]})
  }

  function End(a: Content, b: Content): State {
    State(map[["q"] := a, ["x", "y", "z"] := b], {[], ["x"], ["x", "y"]})
  }

  lemma StartIsProper(a: Content, b: Content)
    ensures Consistent(Start(a, b)) && Separate([FIRST, SECOND]) && AllFresh(Start(a, b), [FIRST, SECOND])
  {
    assert Parent(["x", "y"]) == ["x"] && Parent(["x"]) == [] && Parent(["b"]) == [];
    assert ["q"][0] != ["x", "y", "z"][0];
  }

  lemma FirstGoes(env: Env, a: Content, b: Content)
    requires !env.noTransfer(FIRST)
    ensures Executed(env, Start(a, b), FIRST, false) == (Done, State(map[["b"] := b, ["q"] := a], {[], ["x"]}))
  {
    assert Parent(["q"]) == [];
    ByTransfer(env, Start(a, b), FIRST, {[], ["x"]}, ["q"], map[["b"] := b, ["q"] := a]);
  }

  lemma SecondGoes(env: Env, a: Content, b: Content)
    requires !env.noDirectory(["x", "y"]) && !env.noTransfer(SECOND)
    ensures Executed(env, State(map[["b"] := b, ["q"] := a], {[], ["x"]}), SECOND, false) == (Done, End(a, b))
  {
    var s := State(map[["b"] := b, ["q"] := a], {[], ["x"]});
    assert Parent(["x", "y", "z"]) == ["x", "y"] && Parent(["x", "y"]) == ["x"];
    assert MakeDirs(env, s, ["x"]) == (true, s.dirs);
    assert s.dirs + {["x", "y"]} == End(a, b).dirs;
    ByTransfer(env, s, SECOND, End(a, b).dirs, ["x", "y", "z"], End(a, b).files);
  }

  lemma SecondReturns(env: Env, a: Content, b: Content)
    requires !env.noTransfer(Back(SECOND))
    ensures Executed(env, End(a, b), Back(SECOND), false) == (Done, State(map[["q"] := a, ["b"] := b], End(a, b).dirs))
  {
    assert Parent(["b"]) == [];
    ByTransfer(env, End(a, b), Back(SECOND), End(a, b).dirs, ["b"], map[["q"] := a, ["b"] := b]);
  }

  lemma FirstIsMisplaced(env: Env, a: Content, b: Content)
    requires !env.noTransfer(Back(FIRST))
    ensures Executed(env, State(map[["q"] := a, ["b"] := b], End(a, b).dirs), Back(FIRST), false)
         == (Done, State(map[["b"] := b, ["x", "y", "q"] := a], End(a, b).dirs))
  {
    assert Parent(["x", "y"]) == ["x"];
    ByTransfer(env, State(map[["q"] := a, ["b"] := b], End(a, b).dirs), Back(FIRST), End(a, b).dirs,
               ["x", "y", "q"], map[["b"] := b, ["x", "y", "q"] := a]);
  }

  /** The second move makes a directory where the first file was, and the first file, on its way back,
      ends up inside it, with every operation reported as done. */
  lemma UndoCanMissTheOldPlace(env: Env, a: Content, b: Content)
    requires (forall p :: !env.noDirectory(p)) && (forall op :: !env.noTransfer(op))
    ensures var s, ops := Start(a, b), [FIRST, SECOND];
            var end, outcomes := StateAfter(env, s, ops, false), Outcomes(env, s, ops, false);
            && Consistent(s) && Separate(ops) && AllFresh(s, ops) && outcomes == [Done, Done]
            && Outcomes(env, end, Backs(ops, outcomes), false) == [Done, Done]
            && StateAfter(env, end, Backs(ops, outcomes), false).files == map[["b"] := b, ["x", "y", "q"] := a]
  {
    StartIsProper(a, b);
    FirstGoes(env, a, b);
    SecondGoes(env, a, b);
    SecondReturns(env, a, b);
    FirstIsMisplaced(env, a, b);
    TwoOperations(env, Start(a, b), FIRST, State(map[["b"] := b, ["q"] := a], {[], ["x"]}), SECOND, End(a, b));
    TwoBacks(FIRST, SECOND);
    TwoOperations(env, End(a, b), Back(SECOND), State(map[["q"] := a, ["b"] := b], End(a, b).dirs),
                  Back(FIRST), State(map[["b"] := b, ["x", "y", "q"] := a], End(a, b).dirs));
  }

  lemma ByTransfer(env: Env, s: State, op: Operation, dirs: set<Path>, t: Path, files: map<Path, Content>)
    requires [] in s.dirs && Check(s, op) == None && MakeDirs(env, s, Parent(op.destination)) == (true, dirs)
    requires Target(State(s.files, dirs), op) == t && Transfers(env, State(s.files, dirs), op)
    requires Transferred(s.files, op, t) == files
    ensures Executed(env, s, op, false) == (Done, State(files, dirs))
  {
  }

  lemma TwoBacks(op1: Operation, op2: Operation)
    requires op1.kind == op2.kind == Move
    ensures Backs([op1, op2], [Done, Done]) == [Back(op2), Back(op1)]
  {
    assert [op1, op2][..1] == [op1] && [Done, Done][..1] == [Done] && [op1][..0] == [] && [Done][..0] == [];
    assert Backs([op1], [Done]) == [Back(op1)] + Backs([], []);
  }

  lemma TwoOperations(env: Env, s: State, op1: Operation, s1: State, op2: Operation, s2: State)
    requires [] in s.dirs && [] in s1.dirs && Executed(env, s, op1, false) == (Done, s1) && Executed(env, s1, op2, false) == (Done, s2)
    ensures StateAfter(env, s, [op1, op2], false) == s2 && Outcomes(env, s, [op1, op2], false) == [Done, Done]
  {
    var ops := [op1, op2];
    assert ops[..1] == [op1] && [op1][..0] == [];
    assert StateAfter(env, s, [op1], false) == s1 && Outcomes(env, s, [op1], false) == [Done];
  }
}
