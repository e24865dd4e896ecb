/** What a batch of file operations keeps: every file's content. */
module BatchLaws {
  import opened Options
  import opened FileOperations
  import opened Executors

  /** Each file is asked for once; destinations are not sources, nor above or equal to one another. */
  ghost predicate Separate(ops: seq<Operation>) {
    && (forall i, j {:trigger ops[i].source, ops[j].source} :: 0 <= i < j < |ops| ==> ops[i].source != ops[j].source)
    && (forall i, j {:trigger ops[i].source, ops[j].destination} :: 0 <= i < |ops| && 0 <= j < |ops| ==> ops[i].source != ops[j].destination)
    && (forall i, j {:trigger ops[i].destination, ops[j].destination} :: 0 <= i < |ops| && 0 <= j < |ops| && i != j ==>
          !(ops[i].destination <= ops[j].destination))
  }

  /** Nothing is at any destination yet. */
  ghost predicate AllFresh(s: State, ops: seq<Operation>) {
    forall i :: 0 <= i < |ops| ==> ops[i].destination !in s.files && ops[i].destination !in s.dirs
  }

  /** What is to be found at a path after the batch: a file that arrived, nothing where one has left,
      and otherwise what was there before. */
  ghost predicate PathOk(files0: map<Path, Content>, files: map<Path, Content>, ops: seq<Operation>, outcomes: seq<Outcome>, p: Path)
    requires |ops| == |outcomes|
  {
    && (forall i :: 0 <= i < |ops| && outcomes[i] == Done && ops[i].destination == p ==>
          ops[i].source in files0 && p in files && files[p] == files0[ops[i].source])
    && (forall i :: 0 <= i < |ops| && outcomes[i] == Done && ops[i].kind == Move && ops[i].source == p ==> p !in files)
    && (Untouched(ops, outcomes, p) ==> (p in files <==> p in files0) && (p in files ==> files[p] == files0[p]))
  }

  ghost predicate Untouched(ops: seq<Operation>, outcomes: seq<Outcome>, p: Path)
    requires |ops| == |outcomes|
  {
    forall i :: 0 <= i < |ops| && outcomes[i] == Done ==> ops[i].destination != p && (ops[i].kind == Move ==> ops[i].source != p)
  }

  ghost predicate AllOk(files0: map<Path, Content>, files: map<Path, Content>, ops: seq<Operation>, outcomes: seq<Outcome>)
    requires |ops| == |outcomes|
  {
    forall p {:trigger PathOk(files0, files, ops, outcomes, p)} :: PathOk(files0, files, ops, outcomes, p)
  }

  lemma NotAboveParent(d: Path, e: Path)
    requires e != [] && (d == e || !(d <= e))
    ensures !(d <= Parent(e))
  {
    assert Parent(e) <= e;
  }

  /** An operation makes directories only strictly above its destination. */
  lemma PathStaysFree(env: Env, s: State, op: Operation, d: Path)
    requires [] in s.dirs && d !in s.dirs && op.destination != [] && (d == op.destination || !(d <= op.destination))
    ensures d !in Executed(env, s, op, false).1.dirs
  {
    NotAboveParent(d, op.destination);
    assert d !in MakeDirs(env, s, Parent(op.destination)).1;
  }

  lemma {:induction false} DestinationsStayFree(env: Env, s: State, ops: seq<Operation>, n: nat, j: nat)
    requires [] in s.dirs && Separate(ops) && AllFresh(s, ops) && n <= |ops| && j < |ops|
    ensures ops[j].destination !in StateAfter(env, s, ops[..n], false).dirs
  {
    if n == 0 {
      assert ops[..0] == [];
    } else {
      DestinationsStayFree(env, s, ops, n - 1, j);
      var before := StateAfter(env, s, ops[..n - 1], false);
      assert ops[..n][..n - 1] == ops[..n - 1];
      assert ops[n - 1].destination !in s.dirs;
      PathStaysFree(env, before, ops[n - 1], ops[j].destination);
    }
  }

  /** An operation on a file that no earlier one has touched finds it as it was. */
  lemma SourceIsUntouched(ops: seq<Operation>, outcomes: seq<Outcome>, op: Operation)
    requires |ops| == |outcomes| && Separate(ops + [op])
    ensures Untouched(ops, outcomes, op.source)
  {
    var all := ops + [op];
    forall i | 0 <= i < |ops| ensures ops[i].destination != op.source && ops[i].source != op.source {
      assert all[i] == ops[i] && all[|ops|] == op;
      assert all[i].source != all[|ops|].source && all[|ops|].source != all[i].destination;
    }
  }

  /** The new operation's paths are not those of earlier ones. */
  lemma OtherPaths(ops: seq<Operation>, op: Operation)
    requires Separate(ops + [op])
    ensures forall i :: 0 <= i < |ops| ==>
              && ops[i].destination != op.destination && ops[i].source != op.destination
              && ops[i].source != op.source && ops[i].destination != op.source
    ensures op.source != op.destination
  {
    var all := ops + [op];
    assert all[|ops|] == op;
    forall i | 0 <= i < |ops|
      ensures ops[i].destination != op.destination && ops[i].source != op.destination
           && ops[i].source != op.source && ops[i].destination != op.source
    {
      assert all[i] == ops[i];
      assert all[i].source != all[|ops|].source && all[|ops|].source != all[i].destination;
      assert all[i].source != all[|ops|].destination && !(all[i].destination <= all[|ops|].destination);
    }
    assert all[|ops|].source != all[|ops|].destination;
  }

  /** One more operation, at one path. */
  lemma TransferKeepsPath(files0: map<Path, Content>, files: map<Path, Content>, ops: seq<Operation>, outcomes: seq<Outcome>, op: Operation, p: Path)
    requires |ops| == |outcomes| && Separate(ops + [op]) && op.source in files
    requires PathOk(files0, files, ops, outcomes, p) && PathOk(files0, files, ops, outcomes, op.source)
    ensures PathOk(files0, Transferred(files, op, op.destination), ops + [op], outcomes + [Done], p)
  {
    OtherPaths(ops, op);
    SourceIsUntouched(ops, outcomes, op);
    var files', ops', outcomes' := Transferred(files, op, op.destination), ops + [op], outcomes + [Done];
    assert forall i :: 0 <= i < |ops| ==> ops'[i] == ops[i] && outcomes'[i] == outcomes[i];
    assert ops'[|ops|] == op && outcomes'[|ops|] == Done;
    if Untouched(ops', outcomes', p) {
      assert p != op.destination && (op.kind == Move ==> p != op.source);
      assert Untouched(ops, outcomes, p);
    }
  }

  lemma NoTransferKeepsPath(files0: map<Path, Content>, files: map<Path, Content>, ops: seq<Operation>, outcomes: seq<Outcome>, op: Operation, o: Outcome, p: Path)
    requires |ops| == |outcomes| && o != Done && PathOk(files0, files, ops, outcomes, p)
    ensures PathOk(files0, files, ops + [op], outcomes + [o], p)
  {
    var ops', outcomes' := ops + [op], outcomes + [o];
    assert forall i :: 0 <= i < |ops| ==> ops'[i] == ops[i] && outcomes'[i] == outcomes[i];
    assert outcomes'[|ops|] != Done;
    if Untouched(ops', outcomes', p) {
      assert Untouched(ops, outcomes, p);
    }
  }

  lemma SeparateBefore(ops: seq<Operation>, n: nat)
    requires Separate(ops) && n <= |ops|
    ensures Separate(ops[..n])
  {
  }

  /** The n-th operation of a separate batch goes to its own destination, if anywhere. */
  lemma StepIsATransfer(env: Env, s: State, ops: seq<Operation>, n: nat)
    requires [] in s.dirs && Separate(ops) && AllFresh(s, ops) && n < |ops|
    ensures var before, (o, after) := StateAfter(env, s, ops[..n], false), Executed(env, StateAfter(env, s, ops[..n], false), ops[n], false);
            if o == Done then ops[n].source in before.files && after.files == Transferred(before.files, ops[n], ops[n].destination)
            else after.files == before.files
  {
    DestinationsStayFree(env, s, ops, n + 1, n);
    assert ops[..n + 1][..n] == ops[..n];
    FilesChangeOnlyOnSuccess(env, StateAfter(env, s, ops[..n], false), ops[n], false);
  }

  /** One more operation, at all paths. */
  lemma OperationKeepsAll(files0: map<Path, Content>, files: map<Path, Content>, ops: seq<Operation>, outcomes: seq<Outcome>,
                          op: Operation, o: Outcome, files': map<Path, Content>)
    requires |ops| == |outcomes| && Separate(ops + [op]) && AllOk(files0, files, ops, outcomes)
    requires if o == Done then op.source in files && files' == Transferred(files, op, op.destination) else files' == files
    ensures AllOk(files0, files', ops + [op], outcomes + [o])
  {
    forall p ensures PathOk(files0, files', ops + [op], outcomes + [o], p) {
      assert PathOk(files0, files, ops, outcomes, p) && PathOk(files0, files, ops, outcomes, op.source);
      if o == Done {
        TransferKeepsPath(files0, files, ops, outcomes, op, p);
      } else {
        NoTransferKeepsPath(files0, files, ops, outcomes, op, o, p);
      }
    }
  }

  /** All is as the outcomes say after the given operations. */
  ghost predicate Accounted(env: Env, s: State, ops: seq<Operation>)
    requires [] in s.dirs
  {
    AllOk(s.files, StateAfter(env, s, ops, false).files, ops, Outcomes(env, s, ops, false))
  }

  lemma OneMoreAccounted(env: Env, s: State, ops: seq<Operation>, n: nat)
    requires [] in s.dirs && Separate(ops) && AllFresh(s, ops) && n < |ops| && Accounted(env, s, ops[..n])
    ensures Accounted(env, s, ops[..n + 1])
  {
    var before := StateAfter(env, s, ops[..n], false);
    var result := Executed(env, before, ops[n], false);
    StepIsATransfer(env, s, ops, n);
    SeparateBefore(ops, n + 1);
    OneMoreOperation(env, s, ops, n);
    OperationKeepsAll(s.files, before.files, ops[..n], Outcomes(env, s, ops[..n], false), ops[n], result.0, result.1.files);
  }

  lemma {:induction false} FilesAreAccountedFor(env: Env, s: State, ops: seq<Operation>, n: nat)
    requires [] in s.dirs && Separate(ops) && AllFresh(s, ops) && n <= |ops|
    ensures Accounted(env, s, ops[..n])
  {
    if n == 0 {
      NothingYet(s.files);
      assert ops[..0] == [];
    } else {
      FilesAreAccountedFor(env, s, ops, n - 1);
      OneMoreAccounted(env, s, ops, n - 1);
    }
  }

  lemma NothingYet(files: map<Path, Content>)
    ensures AllOk(files, files, [], [])
  {
    forall p ensures PathOk(files, files, [], [], p) {
    }
  }

  /** Conservation. After a separate batch to fresh destinations every file is where its outcome says:
      at its destination, with the content it had at the source, if the operation was done; gone from
      the source only if that was a move; and otherwise exactly as before, as are all other paths. */
  lemma BatchesConserveFiles(env: Env, s: State, ops: seq<Operation>)
    requires [] in s.dirs && Separate(ops) && AllFresh(s, ops)
    ensures AllOk(s.files, StateAfter(env, s, ops, false).files, ops, Outcomes(env, s, ops, false))
  {
    FilesAreAccountedFor(env, s, ops, |ops|);
    assert ops[..|ops|] == ops;
  }

  /** A dry run changes nothing, and skips exactly what the checks let through. */
  lemma {:induction false} DryRunsChangeNothing(env: Env, s: State, ops: seq<Operation>)
    requires [] in s.dirs
    ensures StateAfter(env, s, ops, true) == s
    ensures forall i :: 0 <= i < |ops| ==>
              Outcomes(env, s, ops, true)[i] == if Check(s, ops[i]).Some? then Failed(Check(s, ops[i]).value) else Skipped
  {
    if ops != [] {
      DryRunsChangeNothing(env, s, ops[..|ops| - 1]);
    }
  }

  lemma OneMoreOperation(env: Env, s: State, ops: seq<Operation>, n: nat)
    requires [] in s.dirs && n < |ops|
    ensures var result := Executed(env, StateAfter(env, s, ops[..n], false), ops[n], false);
            && ops[..n + 1] == ops[..n] + [ops[n]] && StateAfter(env, s, ops[..n + 1], false) == result.1
            && Outcomes(env, s, ops[..n + 1], false) == Outcomes(env, s, ops[..n], false) + [result.0]
  {
    assert ops[..n + 1][..n] == ops[..n];
  }

  /** Two moves to one destination: both succeed, and the first file is lost. */
  lemma SharedDestinationLosesAFile(env: Env, a: string, b: string, c: string, x: Content, y: Content)
    requires a != b && b != c && a != c && c != ".." && (forall op :: !env.noTransfer(op))
    ensures var s, ops := State(map[[a] := x, [b] := y], {[]}), [Operation(Move, [a], [c]), Operation(Move, [b], [c])];
            && Consistent(s) && Outcomes(env, s, ops, false) == [Done, Done]
            && StateAfter(env, s, ops, false).files == map[[c] := y]
  {
    var s, ops := State(map[[a] := x, [b] := y], {[]}), [Operation(Move, [a], [c]), Operation(Move, [b], [c])];
    var once := State(map[[b] := y, [c] := x], {[]});
    assert Executed(env, s, ops[0], false) == (Done, once) by {
      assert Transferred(s.files, ops[0], [c]) == once.files;
    }
    assert ops[..1] == [ops[0]] && ops[..1][..0] == [];
    assert StateAfter(env, s, ops[..1], false) == once && Outcomes(env, s, ops[..1], false) == [Done];
    assert Executed(env, once, ops[1], false) == (Done, State(map[[c] := y], {[]})) by {
      assert Transferred(once.files, ops[1], [c]) == map[[c] := y];
    }
  }
}
