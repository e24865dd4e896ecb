/** Merging the groups of several matchers: names that share a group end up together. */
module WeightedMerge {
  import opened Sequences
  import opened UnionFinds

  /** A file's identity throughout this strategy is its bare name, not its directory. */
  datatype ScannedFile = ScannedFile(directory: string, name: string)

  /** `id` is the identity of the group object: two groups with one id are one group. */
  datatype Group = Group(id: nat, title: string, files: seq<ScannedFile>)

  /** One group together with the matcher that produced it. */
  type Tagged = (string, Group)

  /** One matcher and its groups, in the order of the results dictionary. */
  datatype MatcherResult = MatcherResult(matcher: string, groups: seq<Group>)

  function Names(files: seq<ScannedFile>): set<string> {
    set f | f in files :: f.name
  }

  function Tag(matcher: string, groups: seq<Group>): (r: seq<Tagged>)
    ensures |r| == |groups| && forall i :: 0 <= i < |r| ==> r[i] == (matcher, groups[i])
  {
    seq(|groups|, i requires 0 <= i < |groups| => (matcher, groups[i]))
  }

  function AllTagged(results: seq<MatcherResult>): seq<Tagged> {
    if results == [] then []
    else AllTagged(results[..|results| - 1])
         + Tag(results[|results| - 1].matcher, results[|results| - 1].groups)
  }

  /** Within one matcher, one identity is one group. */
  ghost predicate IdentitiesConsistent(all: seq<Tagged>) {
    forall t, u :: t in all && u in all && t.0 == u.0 && t.1.id == u.1.id ==> t == u
  }

  ghost function AllNames(all: seq<Tagged>): set<string> {
    set t, n | t in all && n in Names(t.1.files) :: n
  }

  // ---------- Chains of overlapping groups ----------

  ghost predicate Holds(t: Tagged, a: string, b: string) {
    a in Names(t.1.files) && b in Names(t.1.files)
  }

  ghost predicate Together(all: seq<Tagged>, a: string, b: string) {
    exists t :: t in all && Holds(t, a, b)
  }

  /** a and b are the ends of a chain of n overlapping groups. */
  ghost predicate Chain(all: seq<Tagged>, a: string, b: string, n: nat)
    decreases n
  {
    if n == 0 then a == b else exists m :: Together(all, a, m) && Chain(all, m, b, n - 1)
  }

  ghost predicate Connected(all: seq<Tagged>, a: string, b: string) {
    exists n: nat :: Chain(all, a, b, n)
  }

  lemma {:induction false} ChainsJoin(all: seq<Tagged>, a: string, b: string, c: string, m: nat, n: nat)
    requires Chain(all, a, b, m) && Chain(all, b, c, n)
    ensures Chain(all, a, c, m + n)
    decreases m
  {
    if m > 0 {
      var k :| Together(all, a, k) && Chain(all, k, b, m - 1);
      ChainsJoin(all, k, b, c, m - 1, n);
    }
  }

  lemma {:induction false} ChainsReverse(all: seq<Tagged>, a: string, b: string, n: nat)
    requires Chain(all, a, b, n)
    ensures Chain(all, b, a, n)
    decreases n
  {
    if n > 0 {
      var k :| Together(all, a, k) && Chain(all, k, b, n - 1);
      ChainsReverse(all, k, b, n - 1);
      assert Together(all, k, a);
      assert Chain(all, a, a, 0);
      assert Chain(all, k, a, 1);
      ChainsJoin(all, b, k, a, n - 1, 1);
    }
  }

  /** Being linked by a chain is an equivalence. */
  lemma ConnectedIsEquivalence(all: seq<Tagged>, a: string, b: string, c: string)
    ensures Connected(all, a, a)
    ensures Connected(all, a, b) ==> Connected(all, b, a)
    ensures Connected(all, a, b) && Connected(all, b, c) ==> Connected(all, a, c)
  {
    assert Chain(all, a, a, 0);
    if Connected(all, a, b) {
      var m: nat :| Chain(all, a, b, m);
      ChainsReverse(all, a, b, m);
      if Connected(all, b, c) {
        var n: nat :| Chain(all, b, c, n);
        ChainsJoin(all, a, b, c, m, n);
      }
    }
  }

  lemma TogetherIsConnected(all: seq<Tagged>, a: string, b: string)
    requires Together(all, a, b)
    ensures Connected(all, a, b)
  {
    assert Chain(all, b, b, 0);
    assert Chain(all, a, b, 1);
  }

  // ---------- What the representatives mean ----------

  ghost predicate SameClass(rep: Links, names: set<string>) {
    forall a, b :: a in names && b in names && a in rep && b in rep ==> rep[a] == rep[b]
  }

  /** No element was ever merged without a chain that justifies it. */
  ghost predicate Justified(all: seq<Tagged>, rep: Links) {
    forall e :: e in rep ==> Connected(all, e, rep[e])
  }

  /** Every listed group lies in one class. */
  ghost predicate Closed(rep: Links, groups: seq<Tagged>) {
    forall t :: t in groups ==> SameClass(rep, Names(t.1.files))
  }

  lemma JoiningKeepsClass(rep: Links, x: string, y: string, names: set<string>)
    requires x in rep && y in rep && SameClass(rep, names)
    ensures SameClass(Joined(rep, x, y), names)
  {
  }

  lemma JoiningStaysJustified(all: seq<Tagged>, rep: Links, x: string, y: string)
    requires x in rep && y in rep && rep.Keys == AllNames(all)
    requires Justified(all, rep) && Together(all, x, y)
    ensures Justified(all, Joined(rep, x, y))
  {
    var rep' := Joined(rep, x, y);
    forall e | e in rep' ensures Connected(all, e, rep'[e]) {
      if rep[e] == rep[x] {
        TogetherIsConnected(all, x, y);
        ConnectedIsEquivalence(all, x, rep[x], x);
        ConnectedIsEquivalence(all, e, rep[e], x);
        ConnectedIsEquivalence(all, e, x, y);
        ConnectedIsEquivalence(all, e, y, rep[y]);
      }
    }
  }

  lemma GroupsStayInClass(all: seq<Tagged>, rep: Links, a: string, b: string)
    requires rep.Keys == AllNames(all) && Closed(rep, all)
    requires Together(all, a, b)
    ensures a in rep && b in rep && rep[a] == rep[b]
  {
    var t :| t in all && Holds(t, a, b);
    assert a in AllNames(all) && b in AllNames(all);
    assert SameClass(rep, Names(t.1.files));
  }

  lemma {:induction false} ChainsStayInClass(all: seq<Tagged>, rep: Links, a: string, b: string, n: nat)
    requires rep.Keys == AllNames(all) && Closed(rep, all) && a in rep
    requires Chain(all, a, b, n)
    ensures b in rep && rep[a] == rep[b]
    decreases n
  {
    if n > 0 {
      var m :| Together(all, a, m) && Chain(all, m, b, n - 1);
      GroupsStayInClass(all, rep, a, m);
      ChainsStayInClass(all, rep, m, b, n - 1);
    }
  }

  /** A justified, closed union-find represents exactly the closure of "in one group". */
  lemma RepresentativesAreTheClosure(all: seq<Tagged>, rep: Links, a: string, b: string)
    requires rep.Keys == AllNames(all) && Justified(all, rep) && Closed(rep, all)
    requires a in rep && b in rep
    ensures rep[a] == rep[b] <==> Connected(all, a, b)
  {
    if rep[a] == rep[b] {
      ConnectedIsEquivalence(all, b, rep[b], b);
      ConnectedIsEquivalence(all, a, rep[a], b);
    }
    if Connected(all, a, b) {
      var n: nat :| Chain(all, a, b, n);
      ChainsStayInClass(all, rep, a, b, n);
    }
  }

  // ---------- Indexing files by name ----------

  ghost predicate SameKeys(keys: seq<string>, index: map<string, seq<Tagged>>) {
    NoDuplicates(keys) && forall n :: n in keys <==> n in index
  }

  /** The names known so far, and then those of the files that are new. */
  function NamesSoFar(keys: seq<string>, files: seq<ScannedFile>): seq<string> {
    if files == [] then keys
    else
      var known := NamesSoFar(keys, files[..|files| - 1]);
      var last := files[|files| - 1].name;
      if last in known then known else known + [last]
  }

  /** All names in order of first appearance. */
  function NamesInOrder(all: seq<Tagged>): seq<string> {
    if all == [] then [] else NamesSoFar(NamesInOrder(all[..|all| - 1]), all[|all| - 1].1.files)
  }

  /** A group, once for each of the files that has the name. */
  function Repeated(t: Tagged, name: string, files: seq<ScannedFile>): seq<Tagged> {
    if files == [] then []
    else Repeated(t, name, files[..|files| - 1]) + (if files[|files| - 1].name == name then [t] else [])
  }

  /** What the index lists under a name: the groups with such a file, in order. */
  function Listed(all: seq<Tagged>, name: string): seq<Tagged> {
    if all == [] then []
    else Listed(all[..|all| - 1], name) + Repeated(all[|all| - 1], name, all[|all| - 1].1.files)
  }

  lemma {:induction false} RepeatedIsMembership(t: Tagged, name: string, files: seq<ScannedFile>)
    ensures forall u :: u in Repeated(t, name, files) <==> u == t && name in Names(files)
  {
    if files != [] {
      var rest, last := files[..|files| - 1], files[|files| - 1];
      RepeatedIsMembership(t, name, rest);
      assert files == rest + [last];
      assert Names(files) == Names(rest) + {last.name};
    }
  }

  lemma {:induction false} ListedIsFilter(all: seq<Tagged>, name: string)
    ensures forall u :: u in Listed(all, name) <==> u in all && name in Names(u.1.files)
  {
    if all != [] {
      var rest, last := all[..|all| - 1], all[|all| - 1];
      ListedIsFilter(rest, name);
      RepeatedIsMembership(last, name, last.1.files);
      assert all == rest + [last];
    }
  }

  function At(index: map<string, seq<Tagged>>, name: string): seq<Tagged> {
    if name in index then index[name] else []
  }

  ghost predicate Lists(all: seq<Tagged>, index: map<string, seq<Tagged>>, name: string) {
    At(index, name) == Listed(all, name)
  }

  /** `index` lists, under each name, the groups naming it; `keys` is its insertion order. */
  ghost predicate Indexes(all: seq<Tagged>, keys: seq<string>, index: map<string, seq<Tagged>>) {
    && SameKeys(keys, index) && keys == NamesInOrder(all) && index.Keys == AllNames(all)
    && forall n {:trigger Lists(all, index, n)} :: Lists(all, index, n)
  }

  /** The same while group t is being entered and only some of its files have been. */
  ghost predicate Enters(all: seq<Tagged>, t: Tagged, files: seq<ScannedFile>, index: map<string, seq<Tagged>>, name: string) {
    At(index, name) == Listed(all, name) + Repeated(t, name, files)
  }

  ghost predicate Indexing(all: seq<Tagged>, t: Tagged, files: seq<ScannedFile>, index: map<string, seq<Tagged>>) {
    && index.Keys == AllNames(all) + Names(files)
    && forall n {:trigger Enters(all, t, files, index, n)} :: Enters(all, t, files, index, n)
  }

  lemma IndexingStarts(all: seq<Tagged>, t: Tagged, keys: seq<string>, index: map<string, seq<Tagged>>)
    requires Indexes(all, keys, index)
    ensures Indexing(all, t, [], index)
  {
    forall n ensures Enters(all, t, [], index, n) {
      assert Lists(all, index, n);
    }
  }

  lemma IndexingEnds(all: seq<Tagged>, t: Tagged, keys: seq<string>, index: map<string, seq<Tagged>>)
    requires SameKeys(keys, index) && Indexing(all, t, t.1.files, index)
    requires keys == NamesSoFar(NamesInOrder(all), t.1.files)
    ensures Indexes(all + [t], keys, index)
  {
    assert AllNames(all + [t]) == AllNames(all) + Names(t.1.files);
    assert (all + [t])[..|all|] == all;
    forall n ensures Lists(all + [t], index, n) {
      assert Enters(all, t, t.1.files, index, n);
    }
  }

  /** Listing t under the name of one more file. */
  function Entered(index: map<string, seq<Tagged>>, name: string, t: Tagged): map<string, seq<Tagged>> {
    index[name := At(index, name) + [t]]
  }

  lemma EntersStep(all: seq<Tagged>, t: Tagged, files: seq<ScannedFile>, index: map<string, seq<Tagged>>, file: ScannedFile, name: string)
    requires Enters(all, t, files, index, name)
    ensures Enters(all, t, files + [file], Entered(index, file.name, t), name)
  {
    assert (files + [file])[..|files|] == files;
    assert Repeated(t, name, files + [file]) == Repeated(t, name, files) + (if file.name == name then [t] else []);
  }

  lemma IndexingStep(all: seq<Tagged>, t: Tagged, files: seq<ScannedFile>, index: map<string, seq<Tagged>>, file: ScannedFile)
    requires Indexing(all, t, files, index)
    ensures Indexing(all, t, files + [file], Entered(index, file.name, t))
  {
    assert Names(files + [file]) == Names(files) + {file.name};
    forall n ensures Enters(all, t, files + [file], Entered(index, file.name, t), n) {
      assert Enters(all, t, files, index, n);
      EntersStep(all, t, files, index, file, n);
    }
  }

  method EnterFile(ghost all: seq<Tagged>, t: Tagged, ghost files: seq<ScannedFile>, file: ScannedFile,
                   keys: seq<string>, index: map<string, seq<Tagged>>, ghost before: seq<string>)
    returns (keys': seq<string>, index': map<string, seq<Tagged>>)
    requires SameKeys(keys, index) && keys == NamesSoFar(before, files) && Indexing(all, t, files, index)
    ensures SameKeys(keys', index') && keys' == NamesSoFar(before, files + [file])
    ensures Indexing(all, t, files + [file], index')
  {
    var name := file.name;
    keys', index' := keys, index;
    IndexingStep(all, t, files, index, file);
    assert (files + [file])[..|files|] == files;
    if name !in index' {
      keys', index' := keys' + [name], index'[name := []];
    }
    index' := index'[name := index'[name] + [t]];
    assert index' == Entered(index, name, t);
  }

  method IndexGroup(ghost all: seq<Tagged>, t: Tagged, keys: seq<string>, index: map<string, seq<Tagged>>)
    returns (keys': seq<string>, index': map<string, seq<Tagged>>)
    requires Indexes(all, keys, index)
    ensures Indexes(all + [t], keys', index')
  {
    keys', index' := keys, index;
    IndexingStarts(all, t, keys, index);
    var files := t.1.files;
    for k := 0 to |files|
      invariant SameKeys(keys', index') && keys' == NamesSoFar(keys, files[..k])
      invariant Indexing(all, t, files[..k], index')
    {
      TakeOneMore(files, k);
      keys', index' := EnterFile(all, t, files[..k], files[k], keys', index', keys);
    }
    TakeAll(files);
    IndexingEnds(all, t, keys', index');
  }

  method BuildFileToGroups(results: seq<MatcherResult>) returns (keys: seq<string>, index: map<string, seq<Tagged>>)
    ensures Indexes(AllTagged(results), keys, index)
  {
    keys, index := [], map[];
    for i := 0 to |results|
      invariant Indexes(AllTagged(results[..i]), keys, index)
    {
      var matcher, groups := results[i].matcher, results[i].groups;
      ghost var done := AllTagged(results[..i]);
      for j := 0 to |groups|
        invariant done == AllTagged(results[..i]) + Tag(matcher, groups)[..j]
        invariant Indexes(done, keys, index)
      {
        keys, index := IndexGroup(done, (matcher, groups[j]), keys, index);
        done := done + [(matcher, groups[j])];
      }
      assert done == AllTagged(results[..i]) + Tag(matcher, groups);
      AllTaggedGrows(results, i);
    }
    TakeAll(results);
  }

  lemma AllTaggedGrows(results: seq<MatcherResult>, i: nat)
    requires i < |results|
    ensures AllTagged(results[..i + 1])
         == AllTagged(results[..i]) + Tag(results[i].matcher, results[i].groups)
  {
    assert results[..i + 1][..i] == results[..i];
  }

  // ---------- Connecting ----------

  ghost predicate ConnectedSoFar(all: seq<Tagged>, done: seq<Tagged>, rep: Links) {
    rep.Keys == AllNames(all) && Justified(all, rep) && Closed(rep, done)
  }

  lemma JoiningKeepsConnected(all: seq<Tagged>, done: seq<Tagged>, rep: Links, x: string, y: string)
    requires ConnectedSoFar(all, done, rep) && Together(all, x, y) && x in rep && y in rep
    ensures ConnectedSoFar(all, done, Joined(rep, x, y))
  {
    JoiningStaysJustified(all, rep, x, y);
    forall t | t in done ensures SameClass(Joined(rep, x, y), Names(t.1.files)) {
      JoiningKeepsClass(rep, x, y, Names(t.1.files));
    }
    assert Joined(rep, x, y).Keys == rep.Keys;
  }

  function Members(names: seq<string>): set<string> {
    set n | n in names
  }

  /** One group's names, in file order, kept when they are in the index. */
  method IndexedNames(group: Group, index: map<string, seq<Tagged>>) returns (names: seq<string>)
    requires Names(group.files) <= index.Keys
    ensures |names| == |group.files| && Members(names) == Names(group.files)
  {
    names := [];
    for i := 0 to |group.files|
      invariant |names| == i && Members(names) == Names(group.files[..i])
    {
      var name := group.files[i].name;
      assert Names(group.files[..i + 1]) == Names(group.files[..i]) + {name};
      assert name in Names(group.files);
      if name in index {
        names := names + [name];
      }
    }
    assert group.files[..|group.files|] == group.files;
  }

  lemma JoiningWidensClass(rep: Links, names: set<string>, first: string, other: string)
    requires first in names && first in rep && other in rep && SameClass(rep, names)
    ensures SameClass(Joined(rep, first, other), names + {other})
  {
  }

  lemma NamesOfOneGroup(all: seq<Tagged>, t: Tagged, names: seq<string>, k: nat)
    requires t in all && 1 <= k < |names| && Members(names) == Names(t.1.files)
    ensures names[0] in AllNames(all) && names[k] in AllNames(all)
    ensures Together(all, names[0], names[k]) && names[0] in Members(names[..k])
    ensures Members(names[..k + 1]) == Members(names[..k]) + {names[k]}
  {
    assert names[0] in Members(names) && names[k] in Members(names);
    assert Holds(t, names[0], names[k]);
    assert names[..k][0] == names[0];
    TakeOneMore(names, k);
  }

  lemma JoiningOneMore(all: seq<Tagged>, done: seq<Tagged>, rep: Links, t: Tagged, names: seq<string>, k: nat)
    requires t in all && 1 <= k < |names| && Members(names) == Names(t.1.files)
    requires ConnectedSoFar(all, done, rep) && SameClass(rep, Members(names[..k]))
    ensures names[0] in rep && names[k] in rep
    ensures ConnectedSoFar(all, done, Joined(rep, names[0], names[k]))
    ensures SameClass(Joined(rep, names[0], names[k]), Members(names[..k + 1]))
  {
    NamesOfOneGroup(all, t, names, k);
    JoiningKeepsConnected(all, done, rep, names[0], names[k]);
    JoiningWidensClass(rep, Members(names[..k]), names[0], names[k]);
  }

  /** Unites the first name of a group with each of the others. */
  method ConnectGroup(uf: UnionFind, names: seq<string>, ghost all: seq<Tagged>, ghost done: seq<Tagged>, ghost t: Tagged)
    requires uf.Valid() && ConnectedSoFar(all, done, uf.rep) && t in all
    requires Members(names) == Names(t.1.files)
    modifies uf
    ensures uf.Valid() && ConnectedSoFar(all, done + [t], uf.rep)
  {
    if |names| >= 2 {
      var first := names[0];
      for k := 1 to |names|
        invariant uf.Valid() && ConnectedSoFar(all, done, uf.rep)
        invariant SameClass(uf.rep, Members(names[..k]))
      {
        JoiningOneMore(all, done, uf.rep, t, names, k);
        uf.Union(first, names[k]);
      }
      TakeAll(names);
    }
    OneMoreConnected(all, done, uf.rep, names, t);
  }

  lemma OneMoreConnected(all: seq<Tagged>, done: seq<Tagged>, rep: Links, names: seq<string>, t: Tagged)
    requires ConnectedSoFar(all, done, rep) && Members(names) == Names(t.1.files)
    requires |names| < 2 || SameClass(rep, Members(names))
    ensures ConnectedSoFar(all, done + [t], rep)
  {
    if |names| < 2 {
      assert SameClass(rep, Members(names));
    }
  }

  /** Every identity already seen belongs to a group already done. */
  ghost predicate SeenAreDone(seen: set<(string, nat)>, done: seq<Tagged>) {
    forall key :: key in seen ==> exists t :: t in done && key == (t.0, t.1.id)
  }

  lemma {:induction false} PrefixIsTagged(results: seq<MatcherResult>, i: nat)
    requires i <= |results|
    ensures forall t :: t in AllTagged(results[..i]) ==> t in AllTagged(results)
    decreases |results| - i
  {
    if i == |results| {
      assert results[..i] == results;
    } else {
      AllTaggedGrows(results, i);
      PrefixIsTagged(results, i + 1);
    }
  }

  /** A group object met again is skipped; it was connected the first time. */
  method ConnectOnce(uf: UnionFind, index: map<string, seq<Tagged>>, t: Tagged, seen: set<(string, nat)>,
                     ghost all: seq<Tagged>, ghost done: seq<Tagged>) returns (seen': set<(string, nat)>)
    requires uf.Valid() && ConnectedSoFar(all, done, uf.rep) && SeenAreDone(seen, done)
    requires index.Keys == AllNames(all) && IdentitiesConsistent(all)
    requires t in all && forall u :: u in done ==> u in all
    modifies uf
    ensures uf.Valid() && ConnectedSoFar(all, done + [t], uf.rep) && SeenAreDone(seen', done + [t])
  {
    var key := (t.0, t.1.id);
    if key in seen {
      assert t in done;
      seen' := seen;
    } else {
      seen' := seen + {key};
      assert Names(t.1.files) <= AllNames(all);
      var names := IndexedNames(t.1, index);
      ConnectGroup(uf, names, all, done, t);
      assert t in done + [t];
    }
  }

  lemma InitiallyConnected(all: seq<Tagged>, rep: Links)
    requires rep.Keys == AllNames(all) && forall n :: n in rep ==> rep[n] == n
    ensures ConnectedSoFar(all, [], rep)
  {
    forall n | n in rep ensures Connected(all, n, rep[n]) {
      ConnectedIsEquivalence(all, n, n, n);
    }
  }

  method ConnectMatcher(uf: UnionFind, index: map<string, seq<Tagged>>, matcher: string, groups: seq<Group>,
                        seen: set<(string, nat)>, ghost all: seq<Tagged>, ghost before: seq<Tagged>)
    returns (seen': set<(string, nat)>)
    requires uf.Valid() && ConnectedSoFar(all, before, uf.rep) && SeenAreDone(seen, before)
    requires index.Keys == AllNames(all) && IdentitiesConsistent(all)
    requires forall u :: u in before + Tag(matcher, groups) ==> u in all
    modifies uf
    ensures uf.Valid() && ConnectedSoFar(all, before + Tag(matcher, groups), uf.rep)
    ensures SeenAreDone(seen', before + Tag(matcher, groups))
  {
    seen' := seen;
    ghost var done := before;
    for j := 0 to |groups|
      invariant done == before + Tag(matcher, groups)[..j]
      invariant uf.Valid() && ConnectedSoFar(all, done, uf.rep) && SeenAreDone(seen', done)
    {
      assert (matcher, groups[j]) == Tag(matcher, groups)[j];
      seen' := ConnectOnce(uf, index, (matcher, groups[j]), seen', all, done);
      done := done + [(matcher, groups[j])];
    }
    assert done == before + Tag(matcher, groups);
  }

  /** After this loop, equal representatives mean exactly the closure of "in one group". */
  method ConnectOverlappingFiles(keys: seq<string>, index: map<string, seq<Tagged>>, results: seq<MatcherResult>)
    returns (uf: UnionFind)
    requires Indexes(AllTagged(results), keys, index) && IdentitiesConsistent(AllTagged(results))
    ensures fresh(uf) && uf.Valid() && ConnectedSoFar(AllTagged(results), AllTagged(results), uf.rep)
  {
    ghost var all := AllTagged(results);
    uf := new UnionFind(keys);
    InitiallyConnected(all, uf.rep);
    var seen: set<(string, nat)> := {};
    for i := 0 to |results|
      invariant fresh(uf) && uf.Valid() && ConnectedSoFar(all, AllTagged(results[..i]), uf.rep)
      invariant SeenAreDone(seen, AllTagged(results[..i]))
    {
      AllTaggedGrows(results, i);
      PrefixIsTagged(results, i + 1);
      seen := ConnectMatcher(uf, index, results[i].matcher, results[i].groups, seen, all, AllTagged(results[..i]));
    }
    TakeAll(results);
  }

  // ---------- Components ----------

  /** The names of `done` with representative r. */
  ghost function ClassOf(rep: Links, done: seq<string>, r: string): set<string> {
    set n | n in done && n in rep && rep[n] == r
  }

  /** t names some member of the cluster. */
  ghost predicate Touches(t: Tagged, cluster: set<string>) {
    exists n :: n in cluster && n in Names(t.1.files)
  }

  /** `groups` collects exactly the groups that name a member of the cluster. */
  ghost predicate Collects(all: seq<Tagged>, groups: seq<Tagged>, cluster: set<string>, t: Tagged) {
    t in groups <==> t in all && Touches(t, cluster)
  }

  /** The names of `done` with representative r, in order. */
  ghost function ClassInOrder(rep: Links, done: seq<string>, r: string): seq<string> {
    if done == [] then []
    else
      var last := done[|done| - 1];
      ClassInOrder(rep, done[..|done| - 1], r) + (if last in rep && rep[last] == r then [last] else [])
  }

  /** Groups and then those of the others that are new. */
  function Extended(groups: seq<Tagged>, others: seq<Tagged>): seq<Tagged> {
    if others == [] then groups
    else
      var known := Extended(groups, others[..|others| - 1]);
      var last := others[|others| - 1];
      if last in known then known else known + [last]
  }

  /** The groups naming the first name, then the new ones naming the second, and so on. */
  function Collected(all: seq<Tagged>, names: seq<string>): seq<Tagged> {
    if names == [] then [] else Extended(Collected(all, names[..|names| - 1]), Listed(all, names[|names| - 1]))
  }

  ghost predicate ComponentOf(all: seq<Tagged>, rep: Links, done: seq<string>, cluster: set<string>,
                              groups: seq<Tagged>, seen: set<(string, nat)>, r: string) {
    && cluster == ClassOf(rep, done, r) && cluster != {} && NoDuplicates(groups)
    && groups == Collected(all, ClassInOrder(rep, done, r))
    && (forall t {:trigger Collects(all, groups, cluster, t)} :: Collects(all, groups, cluster, t))
    && (forall key :: key in seen <==> exists t :: t in groups && key == (t.0, t.1.id))
  }

  /** A root's cluster of names, the groups touching it, and the identities of those groups. */
  datatype Component = Component(cluster: set<string>, groups: seq<Tagged>, seen: set<(string, nat)>)

  ghost predicate AllComponents(all: seq<Tagged>, rep: Links, done: seq<string>, comps: map<string, Component>) {
    forall r {:trigger comps[r]} :: r in comps ==>
      ComponentOf(all, rep, done, comps[r].cluster, comps[r].groups, comps[r].seen, r)
  }

  ghost predicate Rooted(rep: Links, done: seq<string>, roots: seq<string>, comps: map<string, Component>) {
    && NoDuplicates(roots)
    && (forall r :: r in roots <==> r in comps)
    && (forall n :: n in done ==> n in rep && rep[n] in comps)
  }

  /** `roots` is the insertion order of the component dictionaries. */
  ghost predicate Components(all: seq<Tagged>, rep: Links, done: seq<string>, roots: seq<string>, comps: map<string, Component>) {
    Rooted(rep, done, roots, comps) && AllComponents(all, rep, done, comps)
  }

  /** Adds the groups of one name to a root's list, skipping identities already there. */
  method CollectGroups(ghost all: seq<Tagged>, listed: seq<Tagged>, groups: seq<Tagged>, seen: set<(string, nat)>)
    returns (groups': seq<Tagged>, seen': set<(string, nat)>)
    requires IdentitiesConsistent(all)
    requires (forall t :: t in listed ==> t in all) && (forall t :: t in groups ==> t in all)
    requires NoDuplicates(groups) && forall key :: key in seen <==> exists t :: t in groups && key == (t.0, t.1.id)
    ensures NoDuplicates(groups') && forall t :: t in groups' <==> t in groups || t in listed
    ensures groups' == Extended(groups, listed)
    ensures forall key :: key in seen' <==> exists t :: t in groups' && key == (t.0, t.1.id)
  {
    groups', seen' := groups, seen;
    for k := 0 to |listed|
      invariant NoDuplicates(groups') && forall t :: t in groups' <==> t in groups || t in listed[..k]
      invariant groups' == Extended(groups, listed[..k])
      invariant forall key :: key in seen' <==> exists t :: t in groups' && key == (t.0, t.1.id)
    {
      var t := listed[k];
      TakeOneMore(listed, k);
      assert listed[..k + 1][..k] == listed[..k];
      if (t.0, t.1.id) !in seen' {
        seen' := seen' + {(t.0, t.1.id)};
        ghost var before := groups';
        assert t !in groups';
        groups' := groups' + [t];
        assert forall u :: u in groups' <==> u in before || u == t;
      } else {
        assert t in groups';
      }
    }
    TakeAll(listed);
  }

  /** One more name for its root: its groups follow in order. */
  lemma GroupsGrowInOrder(all: seq<Tagged>, rep: Links, done: seq<string>, name: string)
    requires name in rep
    ensures Collected(all, ClassInOrder(rep, done + [name], rep[name]))
         == Extended(Collected(all, ClassInOrder(rep, done, rep[name])), Listed(all, name))
  {
    assert (done + [name])[..|done|] == done;
    var names := ClassInOrder(rep, done + [name], rep[name]);
    assert names == ClassInOrder(rep, done, rep[name]) + [name];
    assert names[..|names| - 1] == ClassInOrder(rep, done, rep[name]);
  }

  /** One more name for its root: the cluster gains it, the groups gain those listed under it. */
  lemma ComponentGrows(all: seq<Tagged>, rep: Links, done: seq<string>, name: string, listed: seq<Tagged>,
                       before: seq<Tagged>, groups: seq<Tagged>, seen: set<(string, nat)>)
    requires name in rep
    requires var cluster := ClassOf(rep, done, rep[name]);
             forall t {:trigger Collects(all, before, cluster, t)} :: Collects(all, before, cluster, t)
    requires before == Collected(all, ClassInOrder(rep, done, rep[name])) && listed == Listed(all, name)
    requires NoDuplicates(groups) && groups == Extended(before, listed)
    requires forall t :: t in listed <==> t in all && name in Names(t.1.files)
    requires forall t :: t in groups <==> t in before || t in listed
    requires forall key :: key in seen <==> exists t :: t in groups && key == (t.0, t.1.id)
    ensures ComponentOf(all, rep, done + [name], ClassOf(rep, done, rep[name]) + {name}, groups, seen, rep[name])
  {
    var old', new' := ClassOf(rep, done, rep[name]), ClassOf(rep, done + [name], rep[name]);
    assert new' == old' + {name};
    GroupsGrowInOrder(all, rep, done, name);
    forall t ensures Collects(all, groups, new', t) {
      assert Collects(all, before, old', t);
      if Touches(t, old') {
        var n :| n in old' && n in Names(t.1.files);
        assert n in new';
      }
      if name in Names(t.1.files) {
        assert name in new';
      }
    }
  }

  lemma ComponentKept(all: seq<Tagged>, rep: Links, done: seq<string>, name: string, c: Component, r: string)
    requires name in rep && rep[name] != r
    requires ComponentOf(all, rep, done, c.cluster, c.groups, c.seen, r)
    ensures ComponentOf(all, rep, done + [name], c.cluster, c.groups, c.seen, r)
  {
    assert ClassOf(rep, done + [name], r) == ClassOf(rep, done, r);
    assert (done + [name])[..|done|] == done;
    assert ClassInOrder(rep, done + [name], r) == ClassInOrder(rep, done, r) + [] == ClassInOrder(rep, done, r);
  }

  lemma AllComponentsGrow(all: seq<Tagged>, rep: Links, done: seq<string>, comps: map<string, Component>, name: string, c: Component)
    requires AllComponents(all, rep, done, comps) && name in rep
    requires ComponentOf(all, rep, done + [name], c.cluster, c.groups, c.seen, rep[name])
    ensures AllComponents(all, rep, done + [name], comps[rep[name] := c])
  {
    var comps' := comps[rep[name] := c];
    forall r | r in comps'
      ensures ComponentOf(all, rep, done + [name], comps'[r].cluster, comps'[r].groups, comps'[r].seen, r) {
      if r != rep[name] {
        ComponentKept(all, rep, done, name, comps[r], r);
      }
    }
  }

  lemma RootedGrows(rep: Links, done: seq<string>, roots: seq<string>, comps: map<string, Component>, name: string, c: Component)
    requires Rooted(rep, done, roots, comps) && name in rep
    ensures Rooted(rep, done + [name], if rep[name] in comps then roots else roots + [rep[name]], comps[rep[name] := c])
  {
    if rep[name] !in comps {
      forall i | 0 <= i < |roots| ensures roots[i] != rep[name] {
        assert roots[i] in roots;
      }
    }
  }

  /** Entering one name keeps every component exact. */
  lemma ComponentsGrow(all: seq<Tagged>, rep: Links, done: seq<string>, roots: seq<string>, comps: map<string, Component>,
                       name: string, c: Component)
    requires Components(all, rep, done, roots, comps) && name in rep
    requires ComponentOf(all, rep, done + [name], c.cluster, c.groups, c.seen, rep[name])
    ensures Components(all, rep, done + [name], if rep[name] in comps then roots else roots + [rep[name]], comps[rep[name] := c])
  {
    AllComponentsGrow(all, rep, done, comps, name, c);
    RootedGrows(rep, done, roots, comps, name, c);
  }

  method BuildComponents(keys: seq<string>, index: map<string, seq<Tagged>>, uf: UnionFind, ghost all: seq<Tagged>)
    returns (roots: seq<string>, comps: map<string, Component>)
    requires Indexes(all, keys, index) && IdentitiesConsistent(all) && uf.Valid() && uf.rep.Keys == AllNames(all)
    modifies uf
    ensures uf.Valid() && uf.rep == old(uf.rep)
    ensures Components(all, uf.rep, keys, roots, comps)
  {
    roots, comps := [], map[];
    ghost var rep := uf.rep;
    for i := 0 to |keys|
      invariant uf.Valid() && uf.rep == rep
      invariant Components(all, rep, keys[..i], roots, comps)
    {
      var name := keys[i];
      assert name in index;
      var root := uf.Find(name);
      var c := EnterName(all, rep, keys[..i], roots, comps, root, name, index[name], keys, index);
      ComponentsGrow(all, rep, keys[..i], roots, comps, name, c);
      TakeOneMore(keys, i);
      if root !in comps {
        roots := roots + [root];
      }
      comps := comps[root := c];
    }
    TakeAll(keys);
  }

  method EnterName(ghost all: seq<Tagged>, ghost rep: Links, ghost done: seq<string>, ghost roots: seq<string>,
                   comps: map<string, Component>, root: string, name: string, listed: seq<Tagged>,
                   ghost keys: seq<string>, ghost index: map<string, seq<Tagged>>) returns (c: Component)
    requires Components(all, rep, done, roots, comps) && IdentitiesConsistent(all)
    requires Indexes(all, keys, index) && name in index && listed == index[name] && name in rep && rep[name] == root
    ensures ComponentOf(all, rep, done + [name], c.cluster, c.groups, c.seen, root)
  {
    c := if root in comps then comps[root] else Component({}, [], {});
    ComponentBefore(all, rep, done, roots, comps, root);
    assert Lists(all, index, name);
    ListedIsFilter(all, name);
    var groups, seen := CollectGroups(all, listed, c.groups, c.seen);
    ComponentGrows(all, rep, done, name, listed, c.groups, groups, seen);
    c := Component(c.cluster + {name}, groups, seen);
  }

  lemma ComponentBefore(all: seq<Tagged>, rep: Links, done: seq<string>, roots: seq<string>, comps: map<string, Component>, root: string)
    requires Components(all, rep, done, roots, comps)
    ensures var c := if root in comps then comps[root] else Component({}, [], {});
            && c.cluster == ClassOf(rep, done, root) && NoDuplicates(c.groups)
            && c.groups == Collected(all, ClassInOrder(rep, done, root))
            && (forall t {:trigger Collects(all, c.groups, c.cluster, t)} :: Collects(all, c.groups, c.cluster, t))
            && (forall t :: t in c.groups ==> t in all)
            && (forall key :: key in c.seen <==> exists t :: t in c.groups && key == (t.0, t.1.id))
  {
    var c := if root in comps then comps[root] else Component({}, [], {});
    if root !in comps {
      NoClassYet(rep, done, root);
    }
    forall t ensures Collects(all, c.groups, c.cluster, t) {
    }
    forall t | t in c.groups ensures t in all {
      assert Collects(all, c.groups, c.cluster, t);
    }
  }

  lemma {:induction false} NoClassYet(rep: Links, done: seq<string>, r: string)
    requires forall n :: n in done ==> n in rep && rep[n] != r
    ensures ClassInOrder(rep, done, r) == []
  {
    if done != [] {
      NoClassYet(rep, done[..|done| - 1], r);
    }
  }

  // ---------- One merged group per component ----------

  /** The files of a list whose names are in the cluster. */
  function Within(files: seq<ScannedFile>, cluster: set<string>): seq<ScannedFile> {
    if files == [] then []
    else Within(files[..|files| - 1], cluster)
         + (if files[|files| - 1].name in cluster then [files[|files| - 1]] else [])
  }

  function Gathered(groups: seq<Tagged>, cluster: set<string>): seq<ScannedFile> {
    if groups == [] then []
    else Gathered(groups[..|groups| - 1], cluster) + Within(groups[|groups| - 1].1.files, cluster)
  }

  /** Keeps the first file of each name, in order. */
  function FirstPerName(files: seq<ScannedFile>): seq<ScannedFile> {
    if files == [] then []
    else
      var kept := FirstPerName(files[..|files| - 1]);
      if files[|files| - 1].name in Names(kept) then kept else kept + [files[|files| - 1]]
  }

  ghost predicate OneFilePerName(files: seq<ScannedFile>) {
    forall i, j :: 0 <= i < j < |files| ==> files[i].name != files[j].name
  }

  lemma {:induction false} WithinIsFilter(files: seq<ScannedFile>, cluster: set<string>)
    ensures forall f :: f in Within(files, cluster) <==> f in files && f.name in cluster
  {
    if files != [] {
      WithinIsFilter(files[..|files| - 1], cluster);
      assert files == files[..|files| - 1] + [files[|files| - 1]];
    }
  }

  lemma {:induction false} GatheredIsFilter(groups: seq<Tagged>, cluster: set<string>)
    ensures forall f :: f in Gathered(groups, cluster) <==> f.name in cluster && exists t :: t in groups && f in t.1.files
  {
    if groups != [] {
      GatheredIsFilter(groups[..|groups| - 1], cluster);
      assert groups == groups[..|groups| - 1] + [groups[|groups| - 1]];
      WithinIsFilter(groups[|groups| - 1].1.files, cluster);
    }
  }

  /** Dropping repeats loses no name, invents no file and leaves one file per name. */
  lemma {:induction false} FirstPerNameKeepsNames(files: seq<ScannedFile>)
    ensures OneFilePerName(FirstPerName(files))
    ensures Names(FirstPerName(files)) == Names(files)
    ensures forall f :: f in FirstPerName(files) ==> f in files
  {
    if files != [] {
      var rest, last := files[..|files| - 1], files[|files| - 1];
      FirstPerNameKeepsNames(rest);
      assert files == rest + [last];
      assert Names(files) == Names(rest) + {last.name};
      var kept := FirstPerName(rest);
      if last.name !in Names(kept) {
        assert FirstPerName(files) == kept + [last];
        assert Names(kept + [last]) == Names(kept) + {last.name};
        assert forall i :: 0 <= i < |kept| ==> kept[i] in kept && kept[i].name in Names(kept);
      }
    }
  }

  function Weight(weights: map<string, real>, matcher: string): real {
    if matcher in weights then weights[matcher] else 0.0
  }

  /** The total weight of the matchers whose groups carry this title. */
  function Score(groups: seq<Tagged>, weights: map<string, real>, title: string): real {
    if groups == [] then 0.0
    else Score(groups[..|groups| - 1], weights, title)
         + (if groups[|groups| - 1].1.title == title then Weight(weights, groups[|groups| - 1].0) else 0.0)
  }

  /** Titles in order of first appearance. */
  function Titles(groups: seq<Tagged>): seq<string> {
    if groups == [] then []
    else
      var titles := Titles(groups[..|groups| - 1]);
      var last := groups[|groups| - 1].1.title;
      if last in titles then titles else titles + [last]
  }

  /** The first of the titles of greatest score. */
  ghost predicate IsBestTitle(groups: seq<Tagged>, weights: map<string, real>, best: string) {
    exists p :: 0 <= p < |Titles(groups)| && Titles(groups)[p] == best
      && (forall q :: 0 <= q < p ==> Score(groups, weights, Titles(groups)[q]) < Score(groups, weights, best))
      && (forall q :: p < q < |Titles(groups)| ==> Score(groups, weights, Titles(groups)[q]) <= Score(groups, weights, best))
  }

  /** The scores of the titles seen so far, and of no others. */
  ghost predicate ScoresOk(groups: seq<Tagged>, weights: map<string, real>, scores: map<string, real>) {
    forall t {:trigger Score(groups, weights, t)} ::
      (t in scores ==> scores[t] == Score(groups, weights, t)) && (t !in scores ==> Score(groups, weights, t) == 0.0)
  }

  lemma ScoreOneMore(groups: seq<Tagged>, g: Tagged, weights: map<string, real>, t: string)
    ensures Score(groups + [g], weights, t)
         == Score(groups, weights, t) + (if g.1.title == t then Weight(weights, g.0) else 0.0)
  {
    assert (groups + [g])[..|groups|] == groups;
  }

  lemma AddingKeepsScores(groups: seq<Tagged>, g: Tagged, weights: map<string, real>, scores: map<string, real>)
    requires ScoresOk(groups, weights, scores)
    ensures var t := g.1.title; var before := if t in scores then scores[t] else 0.0;
            ScoresOk(groups + [g], weights, scores[t := before + Weight(weights, g.0)])
  {
    var t := g.1.title;
    var before := if t in scores then scores[t] else 0.0;
    var scores' := scores[t := before + Weight(weights, g.0)];
    forall x
      ensures (x in scores' ==> scores'[x] == Score(groups + [g], weights, x)) && (x !in scores' ==> Score(groups + [g], weights, x) == 0.0)
    {
      ScoreOneMore(groups, g, weights, x);
    }
  }

  method TitleScores(groups: seq<Tagged>, weights: map<string, real>) returns (titles: seq<string>, scores: map<string, real>)
    ensures titles == Titles(groups)
    ensures forall t :: t in titles ==> t in scores && scores[t] == Score(groups, weights, t)
  {
    titles, scores := [], map[];
    for k := 0 to |groups|
      invariant titles == Titles(groups[..k]) && ScoresOk(groups[..k], weights, scores)
      invariant forall t :: t in titles <==> t in scores
    {
      var weight := Weight(weights, groups[k].0);
      var title := groups[k].1.title;
      TakeOneMore(groups, k);
      AddingKeepsScores(groups[..k], groups[k], weights, scores);
      assert groups[..k + 1][..k] == groups[..k];
      ghost var before := scores;
      if title !in scores {
        titles, scores := titles + [title], scores[title := 0.0];
      }
      scores := scores[title := scores[title] + weight];
      assert scores == before[title := scores[title]];
    }
    TakeAll(groups);
  }

  method BestTitle(groups: seq<Tagged>, weights: map<string, real>) returns (best: string)
    requires groups != []
    ensures IsBestTitle(groups, weights, best)
  {
    var titles, scores := TitleScores(groups, weights);
    var p := 0;
    for k := 1 to |titles|
      invariant 0 <= p < k
      invariant forall q :: 0 <= q < p ==> scores[titles[q]] < scores[titles[p]]
      invariant forall q :: p < q < k ==> scores[titles[q]] <= scores[titles[p]]
    {
      if scores[titles[p]] < scores[titles[k]] {
        p := k;
      }
    }
    best := titles[p];
  }

  method FilesWithin(files: seq<ScannedFile>, cluster: set<string>) returns (kept: seq<ScannedFile>)
    ensures kept == Within(files, cluster)
  {
    kept := [];
    for j := 0 to |files|
      invariant kept == Within(files[..j], cluster)
    {
      assert files[..j + 1][..j] == files[..j];
      if files[j].name in cluster {
        kept := kept + [files[j]];
      }
    }
    TakeAll(files);
  }

  method Deduplicate(files: seq<ScannedFile>) returns (unique: seq<ScannedFile>)
    ensures unique == FirstPerName(files)
  {
    var seen: set<string>;
    seen, unique := {}, [];
    for k := 0 to |files|
      invariant unique == FirstPerName(files[..k]) && seen == Names(unique)
    {
      assert files[..k + 1][..k] == files[..k];
      if files[k].name !in seen {
        unique, seen := unique + [files[k]], seen + {files[k].name};
      }
    }
    TakeAll(files);
  }

  method CreateMergedGroup(cluster: set<string>, groups: seq<Tagged>, weights: map<string, real>) returns (merged: Group)
    requires groups != []
    ensures merged.files == FirstPerName(Gathered(groups, cluster))
    ensures IsBestTitle(groups, weights, merged.title)
  {
    var allFiles := [];
    for i := 0 to |groups|
      invariant allFiles == Gathered(groups[..i], cluster)
    {
      assert groups[..i + 1][..i] == groups[..i];
      var kept := FilesWithin(groups[i].1.files, cluster);
      allFiles := allFiles + kept;
    }
    TakeAll(groups);
    var unique := Deduplicate(allFiles);
    var title := BestTitle(groups, weights);
    merged := Group(0, title, unique);
  }

  // ---------- The whole merge ----------

  /** Merged group i is made from the component of root i. */
  ghost predicate MadeFrom(merged: Group, c: Component) {
    merged.files == FirstPerName(Gathered(c.groups, c.cluster))
  }

  /** ... and carries the title that weighs most among the component's groups. */
  ghost predicate WellMade(merged: Group, c: Component, weights: map<string, real>) {
    MadeFrom(merged, c) && c.groups != [] && IsBestTitle(c.groups, weights, merged.title)
  }

  method BuildMergedGroups(roots: seq<string>, comps: map<string, Component>, weights: map<string, real>)
    returns (merged: seq<Group>)
    requires forall r :: r in roots ==> r in comps && comps[r].cluster != {} && comps[r].groups != []
    ensures |merged| == |roots|
    ensures forall i :: 0 <= i < |roots| ==> WellMade(merged[i], comps[roots[i]], weights)
  {
    merged := [];
    for i := 0 to |roots|
      invariant |merged| == i
      invariant forall j :: 0 <= j < i ==> WellMade(merged[j], comps[roots[j]], weights)
    {
      var c := comps[roots[i]];
      if c.cluster != {} {
        var group := CreateMergedGroup(c.cluster, c.groups, weights);
        merged := merged + [group];
      }
    }
  }

  /** A component's merged group holds one file for each name of the class, taken from an input group. */
  lemma ComponentFiles(all: seq<Tagged>, rep: Links, keys: seq<string>, c: Component, r: string)
    requires ComponentOf(all, rep, keys, c.cluster, c.groups, c.seen, r)
    requires forall n :: n in keys ==> n in AllNames(all)
    ensures c.groups != []
    ensures var files := FirstPerName(Gathered(c.groups, c.cluster));
            && Names(files) == c.cluster && OneFilePerName(files)
            && forall f :: f in files ==> exists t :: t in all && f in t.1.files
  {
    var gathered := Gathered(c.groups, c.cluster);
    FirstPerNameKeepsNames(gathered);
    GatheredIsFilter(c.groups, c.cluster);
    forall n | n in c.cluster ensures n in Names(gathered) && c.groups != [] {
      NamedByAGroup(all, c.groups, c.cluster, n);
    }
    forall f | f in gathered ensures exists t :: t in all && f in t.1.files {
      var t :| t in c.groups && f in t.1.files;
      assert Collects(all, c.groups, c.cluster, t);
    }
  }

  lemma NamedByAGroup(all: seq<Tagged>, groups: seq<Tagged>, cluster: set<string>, n: string)
    requires n in cluster && n in AllNames(all)
    requires forall t {:trigger Collects(all, groups, cluster, t)} :: Collects(all, groups, cluster, t)
    ensures groups != [] && n in Names(Gathered(groups, cluster))
  {
    var t :| t in all && n in Names(t.1.files);
    var f :| f in t.1.files && f.name == n;
    assert Collects(all, groups, cluster, t);
    GatheredIsFilter(groups, cluster);
  }

  /** The merged groups partition all names, and two names share one exactly when a chain of
      overlapping input groups links them; each holds one file per name, taken from the input. */
  ghost predicate ClosurePartition(all: seq<Tagged>, merged: seq<Group>) {
    && (forall i :: 0 <= i < |merged| ==>
          merged[i].files != [] && OneFilePerName(merged[i].files) && Names(merged[i].files) <= AllNames(all))
    && (forall n :: n in AllNames(all) ==> exists i :: 0 <= i < |merged| && n in Names(merged[i].files))
    && (forall i, j :: 0 <= i < j < |merged| ==> Names(merged[i].files) !! Names(merged[j].files))
    && (forall i, a, b :: 0 <= i < |merged| && a in Names(merged[i].files) && b in AllNames(all) ==>
          (b in Names(merged[i].files) <==> Connected(all, a, b)))
    && (forall i, f :: 0 <= i < |merged| && f in merged[i].files ==> exists t :: t in all && f in t.1.files)
  }

  /** The names of a list that are in a set. */
  function Those(names: seq<string>, cluster: set<string>): seq<string> {
    if names == [] then []
    else Those(names[..|names| - 1], cluster) + (if names[|names| - 1] in cluster then [names[|names| - 1]] else [])
  }

  lemma {:induction false} ClassIsThose(rep: Links, done: seq<string>, r: string, cluster: set<string>)
    requires forall n :: n in done ==> n in rep && (n in cluster <==> rep[n] == r)
    ensures ClassInOrder(rep, done, r) == Those(done, cluster)
  {
    if done != [] {
      ClassIsThose(rep, done[..|done| - 1], r, cluster);
    }
  }

  /** The input groups that share a name with a set of names, in the order in which those names appear. */
  function SourcesOf(all: seq<Tagged>, names: set<string>): seq<Tagged> {
    Collected(all, Those(NamesInOrder(all), names))
  }

  /** Their first file of each of the names. */
  function FilesOf(all: seq<Tagged>, names: set<string>): seq<ScannedFile> {
    FirstPerName(Gathered(SourcesOf(all, names), names))
  }

  /** The title is the first of greatest weight among exactly the input groups that share a name with the
      merged group, each counted once. */
  ghost predicate WellTitled(all: seq<Tagged>, weights: map<string, real>, names: set<string>, title: string) {
    var groups := SourcesOf(all, names);
    && NoDuplicates(groups) && IsBestTitle(groups, weights, title)
    && forall t {:trigger Collects(all, groups, names, t)} :: Collects(all, groups, names, t)
  }

  /** A merged group has the first file of each of its names, and the first title of greatest weight. */
  ghost predicate WellMerged(all: seq<Tagged>, weights: map<string, real>, merged: Group) {
    && merged.files == FilesOf(all, Names(merged.files))
    && WellTitled(all, weights, Names(merged.files), merged.title)
  }

  ghost predicate AllWellMerged(all: seq<Tagged>, weights: map<string, real>, merged: seq<Group>) {
    forall i :: 0 <= i < |merged| ==> WellMerged(all, weights, merged[i])
  }

  lemma ComponentsMakeTheGroup(all: seq<Tagged>, rep: Links, keys: seq<string>, c: Component, r: string, weights: map<string, real>, merged: Group)
    requires ComponentOf(all, rep, keys, c.cluster, c.groups, c.seen, r)
    requires keys == NamesInOrder(all) && forall n :: n in keys ==> n in AllNames(all) && n in rep
    requires WellMade(merged, c, weights)
    ensures WellMerged(all, weights, merged)
  {
    ComponentFiles(all, rep, keys, c, r);
    ClassIsThose(rep, keys, r, c.cluster);
    assert SourcesOf(all, Names(merged.files)) == c.groups;
  }

  /** One file for each name of a class, each from an input group. */
  ghost predicate FilesOfClass(all: seq<Tagged>, files: seq<ScannedFile>, names: set<string>) {
    && names != {} && Names(files) == names && OneFilePerName(files)
    && forall f :: f in files ==> exists t :: t in all && f in t.1.files
  }

  lemma ComponentMakesTheClass(all: seq<Tagged>, rep: Links, keys: seq<string>, roots: seq<string>,
                               comps: map<string, Component>, merged: Group, i: nat)
    requires Components(all, rep, keys, roots, comps) && i < |roots| && roots[i] in comps && MadeFrom(merged, comps[roots[i]])
    requires forall n :: n in keys <==> n in AllNames(all)
    ensures FilesOfClass(all, merged.files, ClassOf(rep, keys, roots[i]))
  {
    ComponentFiles(all, rep, keys, comps[roots[i]], roots[i]);
  }

  lemma ComponentsMakeThePartition(all: seq<Tagged>, rep: Links, keys: seq<string>, roots: seq<string>,
                                   comps: map<string, Component>, merged: seq<Group>)
    requires Components(all, rep, keys, roots, comps) && ConnectedSoFar(all, all, rep)
    requires forall n :: n in keys <==> n in AllNames(all)
    requires |merged| == |roots| && forall i :: 0 <= i < |roots| ==> MadeFrom(merged[i], comps[roots[i]])
    ensures ClosurePartition(all, merged)
  {
    forall i | 0 <= i < |merged| ensures FilesOfClass(all, merged[i].files, ClassOf(rep, keys, roots[i])) {
      ComponentMakesTheClass(all, rep, keys, roots, comps, merged[i], i);
    }
    ClassesPartition(all, rep, keys, roots, comps, merged);
  }

  lemma ClassesPartition(all: seq<Tagged>, rep: Links, keys: seq<string>, roots: seq<string>,
                         comps: map<string, Component>, merged: seq<Group>)
    requires Rooted(rep, keys, roots, comps) && ConnectedSoFar(all, all, rep)
    requires forall n :: n in keys <==> n in AllNames(all)
    requires |merged| == |roots|
    requires forall i :: 0 <= i < |merged| ==> Names(merged[i].files) == ClassOf(rep, keys, roots[i])
    ensures forall n :: n in AllNames(all) ==> exists i :: 0 <= i < |merged| && n in Names(merged[i].files)
    ensures forall i, j :: 0 <= i < j < |merged| ==> Names(merged[i].files) !! Names(merged[j].files)
    ensures forall i, a, b :: 0 <= i < |merged| && a in Names(merged[i].files) && b in AllNames(all) ==>
              (b in Names(merged[i].files) <==> Connected(all, a, b))
  {
    forall n | n in AllNames(all) ensures exists i :: 0 <= i < |merged| && n in Names(merged[i].files) {
      var i :| 0 <= i < |roots| && roots[i] == rep[n];
      assert n in ClassOf(rep, keys, roots[i]);
    }
    forall i, a, b | 0 <= i < |merged| && a in Names(merged[i].files) && b in AllNames(all)
      ensures b in Names(merged[i].files) <==> Connected(all, a, b) {
      RepresentativesAreTheClosure(all, rep, a, b);
    }
  }

  /** The strategy's grouping, up to the final ordering by confidence. */
  method MergeOverlappingGroups(results: seq<MatcherResult>, weights: map<string, real>) returns (merged: seq<Group>)
    requires IdentitiesConsistent(AllTagged(results))
    ensures ClosurePartition(AllTagged(results), merged)
    ensures AllWellMerged(AllTagged(results), weights, merged)
  {
    ghost var all := AllTagged(results);
    var keys, index := BuildFileToGroups(results);
    var uf := ConnectOverlappingFiles(keys, index, results);
    var roots, comps := BuildComponents(keys, index, uf, all);
    forall r | r in roots ensures comps[r].cluster != {} && comps[r].groups != [] {
      ComponentFiles(all, uf.rep, keys, comps[r], r);
    }
    merged := BuildMergedGroups(roots, comps, weights);
    forall i | 0 <= i < |merged| ensures WellMerged(all, weights, merged[i]) {
      ComponentsMakeTheGroup(all, uf.rep, keys, comps[roots[i]], roots[i], weights, merged[i]);
    }
    ComponentsMakeThePartition(all, uf.rep, keys, roots, comps, merged);
  }

  /** The merged group with one name of an input group has all its names. */
  lemma OneNameTakesTheGroup(all: seq<Tagged>, merged: seq<Group>, t: Tagged, i: nat, a: string)
    requires ClosurePartition(all, merged) && t in all && i < |merged|
    requires a in Names(t.1.files) && a in Names(merged[i].files)
    ensures Names(t.1.files) <= Names(merged[i].files)
  {
    forall b | b in Names(t.1.files) ensures b in Names(merged[i].files) {
      assert Holds(t, a, b) && b in AllNames(all);
      TogetherIsConnected(all, a, b);
    }
  }

  /** Every non-empty input group lies wholly inside exactly one merged group. */
  lemma InputGroupsStayWhole(all: seq<Tagged>, merged: seq<Group>, t: Tagged)
    requires ClosurePartition(all, merged) && t in all && t.1.files != []
    ensures exists i :: 0 <= i < |merged| && Names(t.1.files) <= Names(merged[i].files)
              && forall j :: 0 <= j < |merged| && j != i ==> Names(t.1.files) !! Names(merged[j].files)
  {
    var a := t.1.files[0].name;
    assert t.1.files[0] in t.1.files;
    assert a in Names(t.1.files) && a in AllNames(all);
    var i :| 0 <= i < |merged| && a in Names(merged[i].files);
    OneNameTakesTheGroup(all, merged, t, i, a);
    forall j | 0 <= j < |merged| && j != i ensures Names(t.1.files) !! Names(merged[j].files) {
      assert Names(merged[i].files) !! Names(merged[j].files);
    }
  }

  /** No partition that keeps the input groups whole is finer: names in one merged group have one
      colour under any colouring that gives each input group a single colour. */
  lemma MergedPartitionIsFinest(all: seq<Tagged>, merged: seq<Group>, colour: Links, i: nat, a: string, b: string)
    requires ClosurePartition(all, merged) && i < |merged|
    requires colour.Keys == AllNames(all) && Closed(colour, all)
    requires a in Names(merged[i].files) && b in Names(merged[i].files)
    ensures colour[a] == colour[b]
  {
    assert Connected(all, a, b);
    var n: nat :| Chain(all, a, b, n);
    ChainsStayInClass(all, colour, a, b, n);
  }

  // ---------- Which title wins ----------

  /** The matchers of the groups that carry a title. */
  ghost function Carriers(groups: seq<Tagged>, title: string): seq<string> {
    if groups == [] then []
    else Carriers(groups[..|groups| - 1], title) + (if groups[|groups| - 1].1.title == title then [groups[|groups| - 1].0] else [])
  }

  /** The weights of some matchers added up; a matcher without a weight adds nothing. */
  ghost function SumOf(weights: map<string, real>, matchers: seq<string>): real {
    if matchers == [] then 0.0
    else if matchers[0] in weights then weights[matchers[0]] + SumOf(weights, matchers[1..])
    else SumOf(weights, matchers[1..])
  }

  lemma {:induction false} SumOfAppend(weights: map<string, real>, matchers: seq<string>, last: string)
    ensures SumOf(weights, matchers + [last]) == SumOf(weights, matchers) + (if last in weights then weights[last] else 0.0)
  {
    if matchers == [] {
      assert matchers + [last] == [last] && [last][1..] == [];
    } else {
      assert (matchers + [last])[1..] == matchers[1..] + [last];
      SumOfAppend(weights, matchers[1..], last);
    }
  }

  lemma {:induction false} ScoresAreSums(groups: seq<Tagged>, weights: map<string, real>, title: string)
    ensures Score(groups, weights, title) == SumOf(weights, Carriers(groups, title))
  {
    if groups != [] {
      var rest, last := groups[..|groups| - 1], groups[|groups| - 1];
      ScoresAreSums(rest, weights, title);
      if last.1.title == title {
        SumOfAppend(weights, Carriers(rest, title), last.0);
      } else {
        assert Carriers(groups, title) == Carriers(rest, title) + [] == Carriers(rest, title);
      }
    }
  }

  /** The weights of the matchers whose groups carry it. */
  ghost function WeightOfTitle(groups: seq<Tagged>, weights: map<string, real>, title: string): real {
    SumOf(weights, Carriers(groups, title))
  }

  /** The p-th group brings up its title first. */
  ghost predicate FirstCarrier(groups: seq<Tagged>, p: nat) {
    p < |groups| && forall q :: 0 <= q < p ==> groups[q].1.title != groups[p].1.title
  }

  lemma {:induction false} TitlesAreCarried(groups: seq<Tagged>, t: string)
    ensures t in Titles(groups) <==> exists q :: 0 <= q < |groups| && groups[q].1.title == t
  {
    if groups != [] {
      var rest, last := groups[..|groups| - 1], groups[|groups| - 1];
      TitlesAreCarried(rest, t);
      assert forall q :: 0 <= q < |rest| ==> groups[q] == rest[q];
      if last.1.title == t {
        assert groups[|rest|].1.title == t;
      }
    }
  }

  lemma {:induction false} TitlesDiffer(groups: seq<Tagged>)
    ensures NoDuplicates(Titles(groups))
  {
    if groups != [] {
      var before, title := Titles(groups[..|groups| - 1]), groups[|groups| - 1].1.title;
      TitlesDiffer(groups[..|groups| - 1]);
      forall i | 0 <= i < |before| && title !in before ensures before[i] != title {
        assert before[i] in before;
      }
    }
  }

  /** A title that comes up first at p stands before one that comes up later. */
  lemma {:induction false} EarlierCarrierEarlierTitle(groups: seq<Tagged>, p: nat, q: nat) returns (a: nat, b: nat)
    requires p < q && FirstCarrier(groups, p) && FirstCarrier(groups, q)
    ensures a < b < |Titles(groups)| && Titles(groups)[a] == groups[p].1.title && Titles(groups)[b] == groups[q].1.title
  {
    var rest, last := groups[..|groups| - 1], groups[|groups| - 1];
    assert groups == rest + [last];
    if q < |rest| {
      assert FirstCarrier(rest, p) && FirstCarrier(rest, q);
      a, b := EarlierCarrierEarlierTitle(rest, p, q);
    } else {
      TitlesAreCarried(rest, rest[p].1.title);
      TitlesAreCarried(rest, last.1.title);
      a :| 0 <= a < |Titles(rest)| && Titles(rest)[a] == rest[p].1.title;
      b := |Titles(rest)|;
    }
  }

  lemma FirstCarrierOf(groups: seq<Tagged>, q: nat) returns (first: nat)
    requires q < |groups|
    ensures first <= q && FirstCarrier(groups, first) && groups[first].1.title == groups[q].1.title
    decreases q
  {
    first := q;
    if r: nat :| r < q && groups[r].1.title == groups[q].1.title {
      first := FirstCarrierOf(groups, r);
    }
  }

  /** Title a stands before title b, both compared by score. */
  ghost predicate Ordered(groups: seq<Tagged>, weights: map<string, real>, p: nat, q: nat)
    requires p < |groups| && q < |groups|
  {
    var mine, other := WeightOfTitle(groups, weights, groups[p].1.title), WeightOfTitle(groups, weights, groups[q].1.title);
    other < mine || (other == mine && p < q)
  }

  lemma BestAt(groups: seq<Tagged>, weights: map<string, real>, best: string, a: nat, b: nat)
    requires IsBestTitle(groups, weights, best)
    requires a < |Titles(groups)| && b < |Titles(groups)| && Titles(groups)[a] == best && a != b
    ensures Score(groups, weights, Titles(groups)[b]) < Score(groups, weights, best)
         || (Score(groups, weights, Titles(groups)[b]) == Score(groups, weights, best) && a < b)
  {
    TitlesDiffer(groups);
  }

  /** The best title outweighs the others ... */
  lemma BestOutweighs(groups: seq<Tagged>, weights: map<string, real>, p: nat, q: nat)
    requires FirstCarrier(groups, p) && q < |groups| && groups[q].1.title != groups[p].1.title
    requires IsBestTitle(groups, weights, groups[p].1.title)
    ensures Ordered(groups, weights, p, q)
  {
    ScoresAreSums(groups, weights, groups[p].1.title);
    ScoresAreSums(groups, weights, groups[q].1.title);
    var first := FirstCarrierOf(groups, q);
    var a, b;
    if p < first {
      a, b := EarlierCarrierEarlierTitle(groups, p, first);
    } else {
      b, a := EarlierCarrierEarlierTitle(groups, first, p);
    }
    BestAt(groups, weights, groups[p].1.title, a, b);
  }

  /** ... and a title that outweighs the others is best. */
  lemma OutweighingIsBest(groups: seq<Tagged>, weights: map<string, real>, p: nat)
    requires FirstCarrier(groups, p)
    requires forall q {:trigger Ordered(groups, weights, p, q)} :: 0 <= q < |groups| && groups[q].1.title != groups[p].1.title ==> Ordered(groups, weights, p, q)
    ensures IsBestTitle(groups, weights, groups[p].1.title)
  {
    var titles, best := Titles(groups), groups[p].1.title;
    TitlesDiffer(groups);
    TitlesAreCarried(groups, best);
    ScoresAreSums(groups, weights, best);
    var a :| 0 <= a < |titles| && titles[a] == best;
    forall b | 0 <= b < |titles| && b != a
      ensures Score(groups, weights, titles[b]) < Score(groups, weights, best)
           || (b > a && Score(groups, weights, titles[b]) == Score(groups, weights, best)) {
      ScoresAreSums(groups, weights, titles[b]);
      TitlesAreCarried(groups, titles[b]);
      var q: nat :| q < |groups| && groups[q].1.title == titles[b];
      var first := FirstCarrierOf(groups, q);
      assert Ordered(groups, weights, p, first);
      if p < first {
        var c, d := EarlierCarrierEarlierTitle(groups, p, first);
        assert titles[c] == titles[a] && titles[d] == titles[b];
      }
    }
  }

  /** The group merged from some input groups is called by the title that comes up first at p if and only
      if the matchers that carry that title weigh more, together, than those of any other title, or as much
      as a title that comes up later. */
  lemma HeaviestTitleWins(groups: seq<Tagged>, weights: map<string, real>, p: nat)
    requires FirstCarrier(groups, p)
    ensures IsBestTitle(groups, weights, groups[p].1.title) <==>
              forall q {:trigger Ordered(groups, weights, p, q)} :: 0 <= q < |groups| && groups[q].1.title != groups[p].1.title ==> Ordered(groups, weights, p, q)
  {
    if IsBestTitle(groups, weights, groups[p].1.title) {
      forall q: nat | q < |groups| && groups[q].1.title != groups[p].1.title ensures Ordered(groups, weights, p, q) {
        BestOutweighs(groups, weights, p, q);
      }
    } else if forall q {:trigger Ordered(groups, weights, p, q)} :: 0 <= q < |groups| && groups[q].1.title != groups[p].1.title ==> Ordered(groups, weights, p, q) {
      OutweighingIsBest(groups, weights, p);
    }
  }

  lemma OnlyOneIsBest(groups: seq<Tagged>, weights: map<string, real>, a: string, b: string)
    requires IsBestTitle(groups, weights, a) && IsBestTitle(groups, weights, b)
    ensures a == b
  {
  }

  // The weights of the default settings.
  const DEFAULT_WEIGHTS := map["title" := 0.6, "hash" := 0.3, "season" := 0.1]

  lemma OneOfTwo(groups: seq<Tagged>, t: Tagged, u: Tagged, i: nat, j: nat, k: nat)
    requires NoDuplicates(groups) && i < |groups| && j < |groups| && k < |groups| && groups[i] == t && groups[j] == u
    requires forall v :: v in groups ==> v == t || v == u
    ensures k == i || k == j
  {
    assert groups[k] in groups;
  }

  lemma TwoGroups(groups: seq<Tagged>, t: Tagged, u: Tagged)
    requires NoDuplicates(groups) && t in groups && u in groups && t != u
    requires forall v :: v in groups ==> v == t || v == u
    ensures groups == [t, u] || groups == [u, t]
  {
    var i: nat :| i < |groups| && groups[i] == t;
    var j: nat :| j < |groups| && groups[j] == u;
    OneOfTwo(groups, t, u, i, j, 0);
    OneOfTwo(groups, t, u, i, j, 1);
    if |groups| > 2 {
      OneOfTwo(groups, t, u, i, j, 2);
    }
  }

  lemma CarriersOfTwo(t: Tagged, u: Tagged)
    requires t.1.title != u.1.title
    ensures Carriers([t, u], t.1.title) == [t.0] && Carriers([t, u], u.1.title) == [u.0]
  {
    assert [t, u][..1] == [t] && [t][..0] == [];
    assert Carriers([t], t.1.title) == [t.0] && Carriers([t], u.1.title) == [];
  }

  /** One weight is more than another; a matcher without a weight weighs nothing. */
  predicate Heavier(weights: map<string, real>, a: string, b: string) {
    a in weights && weights[a] > (if b in weights then weights[b] else 0.0)
  }

  lemma SumOfOne(weights: map<string, real>, matcher: string)
    ensures SumOf(weights, [matcher]) == if matcher in weights then weights[matcher] else 0.0
  {
    assert [matcher][1..] == [];
  }

  lemma BestOfTwoGroups(groups: seq<Tagged>, weights: map<string, real>, t: Tagged, u: Tagged)
    requires groups == [t, u] || groups == [u, t]
    requires t.1.title != u.1.title && Heavier(weights, t.0, u.0)
    ensures IsBestTitle(groups, weights, t.1.title)
  {
    CarriersOfTwo(t, u);
    CarriersOfTwo(u, t);
    SumOfOne(weights, t.0);
    SumOfOne(weights, u.0);
    OutweighingIsBest(groups, weights, if groups[0] == t then 0 else 1);
  }

  /** Where a merged group is made of two groups with different titles, the one from the heavier matcher
      gives it its title. */
  lemma HeavierMatcherNamesTheGroup(all: seq<Tagged>, weights: map<string, real>, merged: Group, t: Tagged, u: Tagged)
    requires WellMerged(all, weights, merged)
    requires t != u && forall v :: v in all && Touches(v, Names(merged.files)) <==> v == t || v == u
    requires t.1.title != u.1.title && Heavier(weights, t.0, u.0)
    ensures merged.title == t.1.title
  {
    var names := Names(merged.files);
    var groups := SourcesOf(all, names);
    forall v ensures v in groups <==> v == t || v == u {
      assert Collects(all, groups, names, v);
    }
    TwoGroups(groups, t, u);
    BestOfTwoGroups(groups, weights, t, u);
    OnlyOneIsBest(groups, weights, merged.title, t.1.title);
  }

  lemma HeavierOfTwoMatchers(all: seq<Tagged>, merged: seq<Group>, weights: map<string, real>, t: Tagged, u: Tagged, f: ScannedFile)
    requires all == [u, t] && t.1.files == [f] && u.1.files == [f] && t.1.title != u.1.title && Heavier(weights, t.0, u.0)
    requires |merged| == 1 && Names(merged[0].files) == {f.name} && AllWellMerged(all, weights, merged)
    ensures merged[0].title == t.1.title
  {
    TouchedByBoth(u, t, f);
    assert WellMerged(all, weights, merged[0]);
    HeavierMatcherNamesTheGroup(all, weights, merged[0], t, u);
  }

  lemma NamedByTheHeavier(results: seq<MatcherResult>, weights: map<string, real>, merged: seq<Group>, b: Group, a: Group, f: ScannedFile)
    requires results == [MatcherResult("hash", [b]), MatcherResult("title", [a])]
    requires a.files == [f] && b.files == [f] && a.title != b.title && Heavier(weights, "title", "hash")
    requires ClosurePartition(AllTagged(results), merged) && AllWellMerged(AllTagged(results), weights, merged)
    ensures |merged| == 1 && merged[0].title == a.title && Names(merged[0].files) == {f.name}
  {
    var all := AllTagged(results);
    TwoMatchersTagged(results, b, a);
    FirstNames(("hash", b), ("title", a), f, f);
    OneNameIsOneGroup(all, merged, f.name);
    HeavierOfTwoMatchers(all, merged, weights, ("title", a), ("hash", b), f);
  }

  /** One file that the hash matcher puts in group B and the title matcher in group A: with the default
      weights it ends up in A, although B comes first. */
  method MergeTwoMatchers(f: ScannedFile) returns (merged: seq<Group>)
    ensures |merged| == 1 && merged[0].title == "A" && Names(merged[0].files) == {f.name}
  {
    var b, a := Group(0, "B", [f]), Group(1, "A", [f]);
    var results := [MatcherResult("hash", [b]), MatcherResult("title", [a])];
    assert IdentitiesConsistent(AllTagged(results)) by {
      TwoMatchersTagged(results, b, a);
    }
    merged := MergeOverlappingGroups(results, DEFAULT_WEIGHTS);
    NamedByTheHeavier(results, DEFAULT_WEIGHTS, merged, b, a, f);
  }

  lemma TwoMatchersTagged(results: seq<MatcherResult>, b: Group, a: Group)
    requires results == [MatcherResult("hash", [b]), MatcherResult("title", [a])]
    ensures AllTagged(results) == [("hash", b), ("title", a)] && IdentitiesConsistent(AllTagged(results))
  {
    assert results[..1][..0] == [] && AllTagged(results[..1]) == [("hash", b)];
  }

  lemma TouchedByBoth(u: Tagged, t: Tagged, f: ScannedFile)
    requires u.1.files == [f] && t.1.files == [f]
    ensures forall v :: v in [u, t] && Touches(v, {f.name}) <==> v == t || v == u
  {
    assert f in [f] && f.name in Names([f]);
    assert f.name in Names(u.1.files) && f.name in Names(t.1.files);
  }

  /** f is a file of some input group. */
  ghost predicate IsInput(all: seq<Tagged>, f: ScannedFile) {
    exists t :: t in all && f in t.1.files
  }

  ghost predicate Survives(merged: seq<Group>, f: ScannedFile) {
    exists i :: 0 <= i < |merged| && f in merged[i].files
  }

  /** Two different input files share a bare name. */
  ghost predicate Namesakes(all: seq<Tagged>, f: ScannedFile, g: ScannedFile) {
    f != g && f.name == g.name && IsInput(all, f) && IsInput(all, g)
  }

  /** Identity is the bare name: of two files of one name, at most one survives the merge. */
  lemma NamesakesCollapse(all: seq<Tagged>, merged: seq<Group>, f: ScannedFile, g: ScannedFile, i: nat, j: nat)
    requires ClosurePartition(all, merged) && i < |merged| && j < |merged|
    requires f.name == g.name && f in merged[i].files && g in merged[j].files
    ensures f == g && i == j
  {
    assert f.name in Names(merged[i].files) && g.name in Names(merged[j].files);
    var p :| 0 <= p < |merged[i].files| && merged[i].files[p] == f;
    var q :| 0 <= q < |merged[j].files| && merged[j].files[q] == g;
  }

  /** Some file of each input name survives. */
  lemma NamesSurvive(all: seq<Tagged>, merged: seq<Group>, f: ScannedFile) returns (survivor: ScannedFile)
    requires ClosurePartition(all, merged) && IsInput(all, f)
    ensures survivor.name == f.name && Survives(merged, survivor) && IsInput(all, survivor)
  {
    var t :| t in all && f in t.1.files;
    assert f.name in Names(t.1.files) && f.name in AllNames(all);
    var i :| 0 <= i < |merged| && f.name in Names(merged[i].files);
    survivor :| survivor in merged[i].files && survivor.name == f.name;
  }

  /** The merge keeps every input file if and only if no two different ones share a bare name. */
  lemma FilesSurviveExactlyWithoutNamesakes(all: seq<Tagged>, merged: seq<Group>)
    requires ClosurePartition(all, merged)
    ensures (forall f :: IsInput(all, f) ==> Survives(merged, f)) <==> !exists f, g :: Namesakes(all, f, g)
  {
    if f, g :| Namesakes(all, f, g) {
      if Survives(merged, f) && Survives(merged, g) {
        var i :| 0 <= i < |merged| && f in merged[i].files;
        var j :| 0 <= j < |merged| && g in merged[j].files;
        NamesakesCollapse(all, merged, f, g, i, j);
      }
    } else {
      forall f | IsInput(all, f) ensures Survives(merged, f) {
        var survivor := NamesSurvive(all, merged, f);
        assert !Namesakes(all, f, survivor);
      }
    }
  }

  lemma FirstNames(t: Tagged, u: Tagged, f: ScannedFile, g: ScannedFile)
    requires t.1.files == [f] && u.1.files == [g] && f.name == g.name
    ensures NamesInOrder([t, u]) == [f.name] && AllNames([t, u]) == {f.name}
  {
    assert f in [f] && f.name in Names([f]) && Names([f]) == Names([g]) == {f.name};
    assert [t, u][..1] == [t] && [t][..0] == [] && [f][..0] == [] && [g][..0] == [];
    assert NamesSoFar([], [f]) == [f.name] && NamesSoFar([f.name], [g]) == [f.name];
    assert NamesInOrder([t]) == [f.name];
    assert t in [t, u] && AllNames([t, u]) == {f.name};
  }

  lemma RepeatedOnce(t: Tagged, f: ScannedFile)
    ensures Repeated(t, f.name, [f]) == [t]
  {
    assert [f][..0] == [];
  }

  lemma ListedOfTwo(t: Tagged, u: Tagged, f: ScannedFile, g: ScannedFile)
    requires t.1.files == [f] && u.1.files == [g] && f.name == g.name
    ensures Listed([t, u], f.name) == [t, u]
  {
    assert [t, u][..1] == [t] && [t][..0] == [];
    RepeatedOnce(t, f);
    RepeatedOnce(u, g);
    assert Listed([t], f.name) == [t];
  }

  /** Two groups of one file each, the files being namesakes: both are collected, in order. */
  lemma SourcesOfTwo(t: Tagged, u: Tagged, f: ScannedFile, g: ScannedFile)
    requires t != u && t.1.files == [f] && u.1.files == [g] && f.name == g.name
    ensures Collected([t, u], Those([f.name], {f.name})) == [t, u]
  {
    ListedOfTwo(t, u, f, g);
    assert [f.name][..0] == [] && Those([f.name], {f.name}) == [f.name];
    assert [t, u][..1] == [t] && [t][..0] == [];
    assert Extended([], [t]) == [t] && u !in [t];
    assert Extended([], [t, u]) == [t, u];
  }

  lemma FirstOfTwo(t: Tagged, u: Tagged, f: ScannedFile, g: ScannedFile)
    requires t.1.files == [f] && u.1.files == [g] && f.name == g.name
    ensures FirstPerName(Gathered([t, u], {f.name})) == [f]
  {
    assert [t, u][..1] == [t] && [t][..0] == [] && [f][..0] == [] && [g][..0] == [];
    assert Within([f], {f.name}) == [f] && Within([g], {f.name}) == [g];
    assert Gathered([t], {f.name}) == [f] && Gathered([t, u], {f.name}) == [f, g];
    assert [f, g][..1] == [f] && FirstPerName([f]) == [f];
    assert f in [f] && g.name in Names([f]);
  }

  lemma FilesOfTwo(t: Tagged, u: Tagged, f: ScannedFile, g: ScannedFile)
    requires t != u && t.1.files == [f] && u.1.files == [g] && f.name == g.name
    ensures FilesOf([t, u], {f.name}) == [f]
  {
    FirstNames(t, u, f, g);
    SourcesOfTwo(t, u, f, g);
    FirstOfTwo(t, u, f, g);
  }

  lemma OneNameIsOneGroup(all: seq<Tagged>, merged: seq<Group>, name: string)
    requires ClosurePartition(all, merged) && AllNames(all) == {name}
    ensures |merged| == 1 && Names(merged[0].files) == {name}
  {
    assert name in AllNames(all);
    forall i | 0 <= i < |merged| ensures name in Names(merged[i].files) && i == 0 {
      var first, other := merged[0].files, merged[i].files;
      assert first[0] in first && first[0].name in Names(first);
      assert other[0] in other && other[0].name in Names(other);
    }
    var last := |merged| - 1;
    assert name in Names(merged[last].files);
  }

  lemma FirstIsKept(all: seq<Tagged>, merged: seq<Group>, weights: map<string, real>, f: ScannedFile)
    requires |merged| == 1 && Names(merged[0].files) == {f.name} && FilesOf(all, {f.name}) == [f]
    requires AllWellMerged(all, weights, merged)
    ensures merged[0].files == [f]
  {
    assert WellMerged(all, weights, merged[0]);
  }

  lemma OnlyFirstIsLeft(merged: seq<Group>, f: ScannedFile, g: ScannedFile)
    requires |merged| == 1 && merged[0].files == [f] && f != g
    ensures Survives(merged, f) && !Survives(merged, g)
  {
    assert f in merged[0].files;
  }

  /** Episode 1 of two seasons, each in its own directory and in its own group: only the first is left. */
  lemma SecondDirectoryIsLost(merged: seq<Group>, weights: map<string, real>)
    requires var results := [MatcherResult("title", [Group(0, "Show S1", [ScannedFile("S1", "01.mkv")]),
                                                     Group(1, "Show S2", [ScannedFile("S2", "01.mkv")])])];
             var all := AllTagged(results);
             ClosurePartition(all, merged) && AllWellMerged(all, weights, merged)
    ensures Survives(merged, ScannedFile("S1", "01.mkv")) && !Survives(merged, ScannedFile("S2", "01.mkv"))
  {
    var f, g := ScannedFile("S1", "01.mkv"), ScannedFile("S2", "01.mkv");
    var t, u: Tagged := ("title", Group(0, "Show S1", [f])), ("title", Group(1, "Show S2", [g]));
    var results := [MatcherResult("title", [t.1, u.1])];
    var all := AllTagged(results);
    assert results[..0] == [] && all == [t, u];
    FirstNames(t, u, f, g);
    FilesOfTwo(t, u, f, g);
    OneNameIsOneGroup(all, merged, f.name);
    FirstIsKept(all, merged, weights, f);
    OnlyFirstIsLeft(merged, f, g);
  }
}
