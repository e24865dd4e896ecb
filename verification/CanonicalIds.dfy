/** The TMDB id a list of files votes for: the most common one, ties going to the first seen. */
module CanonicalIds {
  import opened Options
  import opened OrderedDicts
  import opened GroupBuckets

  datatype FileMetadata = FileMetadata(path: string, name: string, title: string, tmdbId: Option<int>, confidence: Option<real>)

  function Ids(files: seq<FileMetadata>): seq<int> {
    if files == [] then []
    else Ids(files[..|files| - 1]) + (if files[|files| - 1].tmdbId.Some? then [files[|files| - 1].tmdbId.value] else [])
  }

  function Count(ids: seq<int>, x: int): nat {
    if ids == [] then 0 else Count(ids[..|ids| - 1], x) + (if ids[|ids| - 1] == x then 1 else 0)
  }

  /** Where x is first seen, or the length. */
  function FirstSeen(ids: seq<int>, x: int): (p: nat)
    ensures p <= |ids| && (p < |ids| ==> ids[p] == x)
    ensures forall i :: 0 <= i < p ==> ids[i] != x
  {
    if ids == [] then 0 else if ids[0] == x then 0 else 1 + FirstSeen(ids[1..], x)
  }

  /** The winner among the first n ids, by count over all of them. */
  function Leader(ids: seq<int>, n: nat): int
    requires 0 < n <= |ids|
  {
    if n == 1 then ids[0]
    else
      var best := Leader(ids, n - 1);
      if Count(ids, ids[n - 1]) > Count(ids, best) then ids[n - 1] else best
  }

  function Canonical(files: seq<FileMetadata>): Option<int> {
    var ids := Ids(files);
    if ids == [] then None else Some(Leader(ids, |ids|))
  }

  method CanonicalId(files: seq<FileMetadata>) returns (id: Option<int>)
    ensures id == Canonical(files)
  {
    var ids := [];
    for i := 0 to |files|
      invariant ids == Ids(files[..i])
    {
      assert files[..i + 1][..i] == files[..i];
      if files[i].tmdbId.Some? {
        ids := ids + [files[i].tmdbId.value];
      }
    }
    assert files[..|files|] == files;
    if ids == [] {
      return None;
    }
    var best := ids[0];
    for n := 1 to |ids|
      invariant best == Leader(ids, n)
    {
      if Count(ids, ids[n]) > Count(ids, best) {
        best := ids[n];
      }
    }
    id := Some(best);
  }

  // ---------- In terms of the files ----------

  /** The files that vote for an id, by their places in the list. */
  ghost function Voters(files: seq<FileMetadata>, x: int): set<nat> {
    set i: nat | i < |files| && files[i].tmdbId == Some(x)
  }

  lemma {:induction false} CountIsOfVoters(files: seq<FileMetadata>, x: int)
    ensures Count(Ids(files), x) == |Voters(files, x)|
  {
    if files == [] {
      assert Voters(files, x) == {};
    } else {
      var n := |files| - 1;
      CountIsOfVoters(files[..n], x);
      assert Voters(files, x) == Voters(files[..n], x) + (if files[n].tmdbId == Some(x) then {n} else {});
      assert files[n].tmdbId == None ==> Ids(files) == Ids(files[..n]);
      assert files[n].tmdbId.Some? ==> Ids(files)[..|Ids(files)| - 1] == Ids(files[..n]);
    }
  }

  /** The i-th file is the first to vote as it does. */
  ghost predicate FirstVoter(files: seq<FileMetadata>, i: nat) {
    i < |files| && files[i].tmdbId.Some? && forall j :: 0 <= j < i ==> files[j].tmdbId != files[i].tmdbId
  }

  /** Of two ids the one that a file brings up first is seen first. */
  lemma {:induction false} EarlierVoterSeenFirst(files: seq<FileMetadata>, i: nat, j: nat)
    requires i < j && FirstVoter(files, i) && FirstVoter(files, j)
    ensures FirstSeen(Ids(files), files[i].tmdbId.value) < FirstSeen(Ids(files), files[j].tmdbId.value)
  {
    var rest, last := files[..|files| - 1], files[|files| - 1];
    if j < |rest| {
      EarlierVoterSeenFirst(rest, i, j);
      SeenFirstInFront(Ids(rest), if last.tmdbId.Some? then [last.tmdbId.value] else [], files[i].tmdbId.value);
      SeenFirstInFront(Ids(rest), if last.tmdbId.Some? then [last.tmdbId.value] else [], files[j].tmdbId.value);
      VotesAreIds(rest, i);
      VotesAreIds(rest, j);
    } else {
      VotesAreIds(rest, i);
      SeenFirstInFront(Ids(rest), [last.tmdbId.value], files[i].tmdbId.value);
      NoVoteNoId(rest, last.tmdbId.value);
    }
  }

  lemma {:induction false} VotesAreIds(files: seq<FileMetadata>, i: nat)
    requires i < |files| && files[i].tmdbId.Some?
    ensures files[i].tmdbId.value in Ids(files)
  {
    if i < |files| - 1 {
      VotesAreIds(files[..|files| - 1], i);
    }
  }

  lemma {:induction false} NoVoteNoId(files: seq<FileMetadata>, x: int)
    requires forall i :: 0 <= i < |files| ==> files[i].tmdbId != Some(x)
    ensures x !in Ids(files)
  {
    if files != [] {
      NoVoteNoId(files[..|files| - 1], x);
    }
  }

  lemma SeenFirstInFront(a: seq<int>, b: seq<int>, x: int)
    ensures x in a ==> FirstSeen(a + b, x) == FirstSeen(a, x) < |a|
    ensures x !in a ==> FirstSeen(a + b, x) >= |a|
  {
    if x in a {
      FirstSeenIs(a + b, x, FirstSeen(a, x));
    }
  }

  /** A list of files has the id of its i-th file, the first to have it, if and only if no id is that of more
      files and none that comes up earlier is that of as many. */
  lemma MostVotedWins(files: seq<FileMetadata>, i: nat)
    requires FirstVoter(files, i)
    ensures Canonical(files) == files[i].tmdbId <==> forall j :: FirstVoter(files, j) ==> Beats(files, i, j)
  {
    VotesAreIds(files, i);
    CanonicalWins(files);
    var ids, c := Ids(files), Canonical(files).value;
    if Canonical(files) == files[i].tmdbId {
      forall j: nat | FirstVoter(files, j) ensures Beats(files, i, j) {
        WinnerBeats(files, i, j);
      }
    } else if forall j :: FirstVoter(files, j) ==> Beats(files, i, j) {
      var k := FirstVoterFor(files, c);
      assert Beats(files, i, k);
      WinnerBeats(files, k, i);
    }
  }

  /** No more files vote as the j-th does than as the i-th does, or as many if i comes first. */
  ghost predicate Beats(files: seq<FileMetadata>, i: nat, j: nat)
    requires i < |files| && j < |files| && files[i].tmdbId.Some? && files[j].tmdbId.Some?
  {
    var mine, other := |Voters(files, files[i].tmdbId.value)|, |Voters(files, files[j].tmdbId.value)|;
    other < mine || (other == mine && i <= j)
  }

  lemma WinnerBeats(files: seq<FileMetadata>, i: nat, j: nat)
    requires FirstVoter(files, i) && FirstVoter(files, j) && Canonical(files) == files[i].tmdbId
    ensures Beats(files, i, j)
  {
    VotesAreIds(files, i);
    VotesAreIds(files, j);
    CanonicalWins(files);
    var ids, mine, other := Ids(files), files[i].tmdbId.value, files[j].tmdbId.value;
    CountIsOfVoters(files, mine);
    CountIsOfVoters(files, other);
    assert Count(ids, other) <= Count(ids, mine);
    if j < i {
      EarlierVoterSeenFirst(files, j, i);
    }
  }

  lemma FirstVoterOf(files: seq<FileMetadata>, k: nat) returns (i: nat)
    requires k < |files| && files[k].tmdbId.Some?
    ensures FirstVoter(files, i) && files[i].tmdbId == files[k].tmdbId
    decreases k
  {
    i := k;
    if j: nat :| j < k && files[j].tmdbId == files[k].tmdbId {
      i := FirstVoterOf(files, j);
    }
  }

  lemma FirstVoterFor(files: seq<FileMetadata>, x: int) returns (i: nat)
    requires x in Ids(files)
    ensures FirstVoter(files, i) && files[i].tmdbId == Some(x)
  {
    CountIsPresence(Ids(files), x);
    CountIsOfVoters(files, x);
    assert Voters(files, x) != {};
    var k :| k in Voters(files, x);
    i := FirstVoterOf(files, k);
  }

  /** No id occurs more often than c, and none as often was seen earlier. */
  ghost predicate Wins(ids: seq<int>, c: int) {
    && c in ids
    && forall x {:trigger Count(ids, x)} :: Count(ids, x) <= Count(ids, c)
         && (x in ids && Count(ids, x) == Count(ids, c) ==> FirstSeen(ids, c) <= FirstSeen(ids, x))
  }

  lemma {:induction false} CountIsPresence(ids: seq<int>, x: int)
    ensures Count(ids, x) > 0 <==> x in ids
  {
    if ids != [] {
      CountIsPresence(ids[..|ids| - 1], x);
      assert ids == ids[..|ids| - 1] + [ids[|ids| - 1]];
    }
  }

  lemma FirstSeenIs(ids: seq<int>, x: int, p: nat)
    requires p < |ids| && ids[p] == x && forall i :: 0 <= i < p ==> ids[i] != x
    ensures FirstSeen(ids, x) == p
  {
  }

  /** The leader among the first n beats everything met so far, first seen winning ties. */
  lemma {:induction false} LeaderLeads(ids: seq<int>, n: nat)
    requires 0 < n <= |ids|
    ensures var b := Leader(ids, n);
            && FirstSeen(ids, b) < n
            && forall i :: 0 <= i < n ==> (Count(ids, ids[i]) <= Count(ids, b)
                                           && (Count(ids, ids[i]) == Count(ids, b) ==> FirstSeen(ids, b) <= i))
  {
    if n == 1 {
      FirstSeenIs(ids, ids[0], 0);
    } else {
      LeaderLeads(ids, n - 1);
      var b := Leader(ids, n - 1);
      if Count(ids, ids[n - 1]) > Count(ids, b) {
        FirstSeenIs(ids, ids[n - 1], n - 1);
      }
    }
  }

  /** The canonical id is the one that wins. */
  lemma CanonicalWins(files: seq<FileMetadata>)
    requires Ids(files) != []
    ensures Canonical(files).Some? && Wins(Ids(files), Canonical(files).value)
  {
    var ids := Ids(files);
    var c := Leader(ids, |ids|);
    LeaderLeads(ids, |ids|);
    forall x ensures Count(ids, x) <= Count(ids, c) && (x in ids && Count(ids, x) == Count(ids, c) ==> FirstSeen(ids, c) <= FirstSeen(ids, x)) {
      CountIsPresence(ids, x);
      if x in ids {
        var i := FirstSeen(ids, x);
        assert ids[i] == x;
      }
    }
  }

  lemma WinnersAgree(ids: seq<int>, a: int, b: int)
    requires Wins(ids, a) && Wins(ids, b)
    ensures a == b
  {
    assert Count(ids, a) <= Count(ids, b) && Count(ids, b) <= Count(ids, a);
    assert FirstSeen(ids, a) == FirstSeen(ids, b);
  }

  lemma {:induction false} CountAdds(a: seq<int>, b: seq<int>, x: int)
    ensures Count(a + b, x) == Count(a, x) + Count(b, x)
  {
    if b == [] {
      assert a + b == a;
    } else {
      assert (a + b)[..|a + b| - 1] == a + b[..|b| - 1];
      CountAdds(a, b[..|b| - 1], x);
    }
  }

  /** An id that wins two lists wins their concatenation. */
  lemma WinningTwiceWins(a: seq<int>, b: seq<int>, c: int)
    requires Wins(a, c) && Wins(b, c)
    ensures Wins(a + b, c)
  {
    forall x ensures Count(a + b, x) <= Count(a + b, c)
      && (x in a + b && Count(a + b, x) == Count(a + b, c) ==> FirstSeen(a + b, c) <= FirstSeen(a + b, x)) {
      CountAdds(a, b, x);
      CountAdds(a, b, c);
      assert Count(a, x) <= Count(a, c) && Count(b, x) <= Count(b, c);
      if Count(a + b, x) == Count(a + b, c) {
        CountIsPresence(a, x);
        CountIsPresence(a, c);
        FirstSeenInFront(a, b, c);
        FirstSeenInFront(a, b, x);
      }
    }
  }

  lemma FirstSeenInFront(a: seq<int>, b: seq<int>, x: int)
    requires x in a
    ensures FirstSeen(a + b, x) == FirstSeen(a, x)
  {
    var p := FirstSeen(a, x);
    assert forall i :: 0 <= i < p ==> (a + b)[i] == a[i];
    FirstSeenIs(a + b, x, p);
  }

  lemma {:induction false} IdsOfConcat(f: seq<FileMetadata>, g: seq<FileMetadata>)
    ensures Ids(f + g) == Ids(f) + Ids(g)
  {
    if g == [] {
      assert f + g == f;
    } else {
      assert (f + g)[..|f + g| - 1] == f + g[..|g| - 1];
      IdsOfConcat(f, g[..|g| - 1]);
    }
  }

  /** Lists that agree on their canonical id keep it when put together. */
  lemma {:induction false} MergedGroupKeepsItsId(members: Groups<FileMetadata>, c: int)
    requires members != [] && forall i :: 0 <= i < |members| ==> Canonical(members[i].1) == Some(c)
    ensures Canonical(Concat(members)) == Some(c)
  {
    var last := members[|members| - 1];
    var rest := members[..|members| - 1];
    CanonicalWins(last.1);
    IdsOfConcat(Concat(rest), last.1);
    if rest == [] {
      assert Concat(members) == last.1;
    } else {
      MergedGroupKeepsItsId(rest, c);
      CanonicalWins(Concat(rest));
      WinningTwiceWins(Ids(Concat(rest)), Ids(last.1), c);
      CanonicalWins(Concat(members));
      WinnersAgree(Ids(Concat(members)), c, Canonical(Concat(members)).value);
    }
  }
}
