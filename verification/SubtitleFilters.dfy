/** What a subtitle index should hold, in terms of the list of files that are in it. */
module SubtitleFilters {
  import opened Sequences
  import opened Lexicographic

  type Path = string

  /** The files on disk, fixed for the life of the index: whether a file is there, whether it can be
      read, the hash of its contents and its normalised name. */
  datatype Disk = Disk(present: Path -> bool, readable: Path -> bool, hashOf: Path -> string, nameOf: Path -> string)

  predicate Indexable(d: Disk, p: Path) {
    d.present(p) && d.readable(p)
  }

  type Groups = map<string, seq<Path>>

  /** The fields of an index. */
  datatype Index = Index(hashes: Groups, names: Groups, keys: seq<string>, metadata: map<Path, (string, string)>)

  /** The files with a given hash, or name, in order. */
  ghost function Matching(live: seq<Path>, keyOf: Path -> string, key: string): seq<Path> {
    if live == [] then []
    else Matching(live[..|live| - 1], keyOf, key) + (if keyOf(live[|live| - 1]) == key then [live[|live| - 1]] else [])
  }

  ghost function Without(live: seq<Path>, p: Path): seq<Path> {
    if live == [] then []
    else Without(live[..|live| - 1], p) + (if live[|live| - 1] != p then [live[|live| - 1]] else [])
  }

  /** A file joins at the end, unless it is in already or cannot be indexed. */
  ghost function Added(d: Disk, live: seq<Path>, p: Path): seq<Path> {
    if Indexable(d, p) && p !in live then live + [p] else live
  }

  ghost function Built(d: Disk, files: seq<Path>): seq<Path> {
    if files == [] then [] else Added(d, Built(d, files[..|files| - 1]), files[|files| - 1])
  }

  // ---------- When an index agrees with a list of files ----------

  /** The group under a key is the plain filter of the list; empty groups, and the empty name, have no entry. */
  ghost predicate GroupOk(m: Groups, live: seq<Path>, keyOf: Path -> string, blank: bool, key: string) {
    && (key in m <==> Matching(live, keyOf, key) != [] && (blank || key != ""))
    && (key in m ==> m[key] == Matching(live, keyOf, key))
  }

  ghost predicate Grouped(m: Groups, live: seq<Path>, keyOf: Path -> string, blank: bool) {
    forall key {:trigger GroupOk(m, live, keyOf, blank, key)} :: GroupOk(m, live, keyOf, blank, key)
  }

  ghost predicate DescribedOk(metadata: map<Path, (string, string)>, d: Disk, known: set<Path>, p: Path) {
    (p in metadata <==> p in known) && (p in metadata ==> metadata[p] == (d.hashOf(p), d.nameOf(p)))
  }

  ghost predicate Described(metadata: map<Path, (string, string)>, d: Disk, known: set<Path>) {
    forall p {:trigger DescribedOk(metadata, d, known, p)} :: DescribedOk(metadata, d, known, p)
  }

  /** Both groupings. */
  ghost predicate Filled(ix: Index, d: Disk, live: seq<Path>) {
    && NoDuplicates(live) && (forall p :: p in live ==> Indexable(d, p))
    && Grouped(ix.hashes, live, d.hashOf, true) && Grouped(ix.names, live, d.nameOf, false)
  }

  /** All lookups: the groupings, and the sorted names. */
  ghost predicate Serves(ix: Index, d: Disk, live: seq<Path>) {
    Filled(ix, d, live) && Sorted(ix.keys) && Keys(ix.keys) == ix.names.Keys
  }

  ghost function Elements(live: seq<Path>): set<Path> {
    set p | p in live
  }

  /** All four fields. */
  ghost predicate Indexes(ix: Index, d: Disk, live: seq<Path>) {
    Serves(ix, d, live) && Described(ix.metadata, d, Elements(live))
  }

  lemma {:induction false} MatchingHolds(live: seq<Path>, keyOf: Path -> string, key: string, p: Path)
    ensures p in Matching(live, keyOf, key) <==> p in live && keyOf(p) == key
  {
    if live != [] {
      MatchingHolds(live[..|live| - 1], keyOf, key, p);
      assert live == live[..|live| - 1] + [live[|live| - 1]];
    }
  }

  lemma MatchingOfAppend(live: seq<Path>, keyOf: Path -> string, key: string, p: Path)
    ensures Matching(live + [p], keyOf, key) == Matching(live, keyOf, key) + (if keyOf(p) == key then [p] else [])
  {
    assert (live + [p])[..|live|] == live;
  }

  lemma {:induction false} WithoutHolds(live: seq<Path>, p: Path, x: Path)
    ensures x in Without(live, p) <==> x in live && x != p
  {
    if live != [] {
      WithoutHolds(live[..|live| - 1], p, x);
      assert live == live[..|live| - 1] + [live[|live| - 1]];
    }
  }

  lemma {:induction false} WithoutAbsent(live: seq<Path>, p: Path)
    requires p !in live
    ensures Without(live, p) == live
  {
    if live != [] {
      WithoutAbsent(live[..|live| - 1], p);
      assert live == live[..|live| - 1] + [live[|live| - 1]];
    }
  }

  lemma WithoutOfAppend(live: seq<Path>, p: Path, x: Path)
    ensures Without(live + [x], p) == Without(live, p) + (if x != p then [x] else [])
  {
    assert (live + [x])[..|live|] == live;
  }

  /** Filtering and removing commute. */
  lemma {:induction false} MatchingOfWithout(live: seq<Path>, keyOf: Path -> string, key: string, p: Path)
    ensures Matching(Without(live, p), keyOf, key) == Without(Matching(live, keyOf, key), p)
  {
    if live != [] {
      var rest, x := live[..|live| - 1], live[|live| - 1];
      MatchingOfWithout(rest, keyOf, key, p);
      MatchingOfAppend(Without(rest, p), keyOf, key, x);
      WithoutOfAppend(Matching(rest, keyOf, key), p, x);
      assert Without(live, p) == if x != p then Without(rest, p) + [x] else Without(rest, p);
      assert Matching(live, keyOf, key) == if keyOf(x) == key then Matching(rest, keyOf, key) + [x] else Matching(rest, keyOf, key);
    }
  }

  lemma AppendKeepsDistinct(live: seq<Path>, p: Path)
    requires NoDuplicates(live) && p !in live
    ensures NoDuplicates(live + [p])
  {
    forall i, j | 0 <= i < j < |live + [p]| ensures (live + [p])[i] != (live + [p])[j] {
      if j == |live| {
        assert live[i] in live;
      }
    }
  }

  lemma {:induction false} MatchingIsDistinct(live: seq<Path>, keyOf: Path -> string, key: string)
    requires NoDuplicates(live)
    ensures NoDuplicates(Matching(live, keyOf, key))
  {
    if live != [] {
      var rest, x := live[..|live| - 1], live[|live| - 1];
      MatchingIsDistinct(rest, keyOf, key);
      MatchingHolds(rest, keyOf, key, x);
      assert x !in rest;
      if keyOf(x) == key {
        AppendKeepsDistinct(Matching(rest, keyOf, key), x);
      }
    }
  }

  lemma {:induction false} WithoutIsDistinct(live: seq<Path>, p: Path)
    requires NoDuplicates(live)
    ensures NoDuplicates(Without(live, p))
  {
    if live != [] {
      var rest, x := live[..|live| - 1], live[|live| - 1];
      WithoutIsDistinct(rest, p);
      WithoutHolds(rest, p, x);
      assert x !in rest;
      if x != p {
        AppendKeepsDistinct(Without(rest, p), x);
      }
    }
  }

  lemma {:induction false} WithoutOfPrepend(x: Path, rest: seq<Path>, p: Path)
    ensures Without([x] + rest, p) == (if x != p then [x] else []) + Without(rest, p)
  {
    if rest == [] {
      assert [x] + rest == [] + [x];
      WithoutOfAppend([], p, x);
    } else {
      var front, last := rest[..|rest| - 1], rest[|rest| - 1];
      var first, tail := if x != p then [x] else [], if last != p then [last] else [];
      WithoutOfPrepend(x, front, p);
      WithoutOfAppend([x] + front, p, last);
      assert [x] + rest == ([x] + front) + [last];
      assert Without(rest, p) == Without(front, p) + tail;
      assert (first + Without(front, p)) + tail == first + (Without(front, p) + tail);
    }
  }

  /** In a list without duplicates, dropping the first occurrence drops all. */
  lemma {:induction false} DroppedIsWithout(s: seq<Path>, p: Path)
    requires NoDuplicates(s)
    ensures Dropped(s, p) == Without(s, p)
  {
    if s != [] {
      assert s == [s[0]] + s[1..];
      WithoutOfPrepend(s[0], s[1..], p);
      assert Without(s, p) == (if s[0] != p then [s[0]] else []) + Without(s[1..], p);
      if s[0] == p {
        assert p !in s[1..];
        WithoutAbsent(s[1..], p);
      } else {
        DroppedIsWithout(s[1..], p);
      }
    }
  }

  // ---------- Adding and removing ----------

  function Appended(m: Groups, key: string, p: Path): Groups {
    m[key := (if key in m then m[key] else []) + [p]]
  }

  function Taken(m: Groups, key: string, p: Path): Groups {
    if key !in m then m
    else
      var rest := Dropped(m[key], p);
      if rest == [] then m - {key} else m[key := rest]
  }

  lemma AppendKeepsGrouped(m: Groups, live: seq<Path>, keyOf: Path -> string, blank: bool, p: Path)
    requires Grouped(m, live, keyOf, blank)
    ensures Grouped(if blank || keyOf(p) != "" then Appended(m, keyOf(p), p) else m, live + [p], keyOf, blank)
  {
    var m' := if blank || keyOf(p) != "" then Appended(m, keyOf(p), p) else m;
    forall key ensures GroupOk(m', live + [p], keyOf, blank, key) {
      assert GroupOk(m, live, keyOf, blank, key);
      MatchingOfAppend(live, keyOf, key, p);
    }
  }

  lemma TakeKeepsGrouped(m: Groups, live: seq<Path>, keyOf: Path -> string, blank: bool, p: Path)
    requires Grouped(m, live, keyOf, blank) && NoDuplicates(live)
    ensures Grouped(if blank || keyOf(p) != "" then Taken(m, keyOf(p), p) else m, Without(live, p), keyOf, blank)
  {
    var m' := if blank || keyOf(p) != "" then Taken(m, keyOf(p), p) else m;
    forall key ensures GroupOk(m', Without(live, p), keyOf, blank, key) {
      assert GroupOk(m, live, keyOf, blank, key);
      MatchingOfWithout(live, keyOf, key, p);
      MatchingIsDistinct(live, keyOf, key);
      DroppedIsWithout(Matching(live, keyOf, key), p);
      if keyOf(p) != key {
        MatchingHolds(live, keyOf, key, p);
        WithoutAbsent(Matching(live, keyOf, key), p);
      }
    }
  }

  lemma AddedIsDescribed(metadata: map<Path, (string, string)>, d: Disk, known: set<Path>, p: Path)
    requires Described(metadata, d, known)
    ensures Described(metadata[p := (d.hashOf(p), d.nameOf(p))], d, known + {p})
  {
    var metadata' := metadata[p := (d.hashOf(p), d.nameOf(p))];
    forall x ensures DescribedOk(metadata', d, known + {p}, x) {
      assert DescribedOk(metadata, d, known, x);
    }
  }

  lemma RemovedIsDescribed(metadata: map<Path, (string, string)>, d: Disk, known: set<Path>, p: Path)
    requires Described(metadata, d, known)
    ensures Described(metadata - {p}, d, known - {p})
  {
    forall x ensures DescribedOk(metadata - {p}, d, known - {p}, x) {
      assert DescribedOk(metadata, d, known, x);
    }
  }

  lemma WithoutElements(live: seq<Path>, p: Path)
    ensures Elements(Without(live, p)) == Elements(live) - {p}
  {
    forall x ensures x in Without(live, p) <==> x in live && x != p {
      WithoutHolds(live, p, x);
    }
  }

  lemma WithoutIsIndexable(d: Disk, live: seq<Path>, p: Path)
    requires forall x :: x in live ==> Indexable(d, x)
    ensures forall x :: x in Without(live, p) ==> Indexable(d, x)
  {
    forall x | x in Without(live, p) ensures Indexable(d, x) {
      WithoutHolds(live, p, x);
    }
  }

  // ---------- One file in or out of the filled index ----------

  /** A file is in its groups exactly when it is in the list. */
  lemma KnownGroups(ix: Index, d: Disk, live: seq<Path>, p: Path)
    requires Filled(ix, d, live)
    ensures p in live <==> d.hashOf(p) in ix.hashes && p in ix.hashes[d.hashOf(p)]
    ensures d.nameOf(p) != "" ==> (p in live <==> d.nameOf(p) in ix.names && p in ix.names[d.nameOf(p)])
  {
    assert GroupOk(ix.hashes, live, d.hashOf, true, d.hashOf(p));
    assert GroupOk(ix.names, live, d.nameOf, false, d.nameOf(p));
    MatchingHolds(live, d.hashOf, d.hashOf(p), p);
    MatchingHolds(live, d.nameOf, d.nameOf(p), p);
  }

  lemma GroupsAreNotEmpty(ix: Index, d: Disk, live: seq<Path>, hash: string, name: string)
    requires Filled(ix, d, live)
    ensures hash in ix.hashes ==> ix.hashes[hash] != []
    ensures name in ix.names ==> ix.names[name] != []
  {
    assert GroupOk(ix.hashes, live, d.hashOf, true, hash);
    assert GroupOk(ix.names, live, d.nameOf, false, name);
  }

  /** The index with a new file in its groups. */
  ghost function WithFile(ix: Index, d: Disk, p: Path): Index {
    ix.(hashes := Appended(ix.hashes, d.hashOf(p), p),
        names := if d.nameOf(p) != "" then Appended(ix.names, d.nameOf(p), p) else ix.names)
  }

  ghost function WithoutFile(ix: Index, d: Disk, p: Path): Index {
    ix.(hashes := Taken(ix.hashes, d.hashOf(p), p),
        names := if d.nameOf(p) != "" then Taken(ix.names, d.nameOf(p), p) else ix.names)
  }

  lemma AddingFills(ix: Index, d: Disk, live: seq<Path>, p: Path)
    requires Filled(ix, d, live)
    ensures Indexable(d, p) && p !in live ==> Filled(WithFile(ix, d, p), d, Added(d, live, p))
  {
    if Indexable(d, p) && p !in live {
      AppendKeepsGrouped(ix.hashes, live, d.hashOf, true, p);
      AppendKeepsGrouped(ix.names, live, d.nameOf, false, p);
      AppendKeepsDistinct(live, p);
    }
  }

  lemma RemovingFills(ix: Index, d: Disk, live: seq<Path>, p: Path)
    requires Filled(ix, d, live)
    ensures Filled(WithoutFile(ix, d, p), d, Without(live, p))
  {
    TakeKeepsGrouped(ix.hashes, live, d.hashOf, true, p);
    TakeKeepsGrouped(ix.names, live, d.nameOf, false, p);
    WithoutIsDistinct(live, p);
    WithoutIsIndexable(d, live, p);
  }

  // ---------- The index is determined by the list ----------

  lemma SameGroups(a: Groups, b: Groups, live: seq<Path>, keyOf: Path -> string, blank: bool)
    requires Grouped(a, live, keyOf, blank) && Grouped(b, live, keyOf, blank)
    ensures a == b
  {
    forall key ensures key in a <==> key in b
    ensures key in a ==> a[key] == b[key]
    {
      assert GroupOk(a, live, keyOf, blank, key) && GroupOk(b, live, keyOf, blank, key);
    }
  }

  lemma SameMetadata(a: map<Path, (string, string)>, b: map<Path, (string, string)>, d: Disk, known: set<Path>)
    requires Described(a, d, known) && Described(b, d, known)
    ensures a == b
  {
    forall p ensures p in a <==> p in b
    ensures p in a ==> a[p] == b[p]
    {
      assert DescribedOk(a, d, known, p) && DescribedOk(b, d, known, p);
    }
  }

  /** Two indexes over the same list of files are the same in every field. */
  lemma IndexIsUnique(a: Index, b: Index, d: Disk, live: seq<Path>)
    requires Indexes(a, d, live) && Indexes(b, d, live)
    ensures a == b
  {
    SameGroups(a.hashes, b.hashes, live, d.hashOf, true);
    SameGroups(a.names, b.names, live, d.nameOf, false);
    SameMetadata(a.metadata, b.metadata, d, Elements(live));
    SortedIsUnique(a.keys, b.keys);
  }

  // ---------- Prefix lookup ----------

  /** The lists of all keys that start with the prefix, one after the other in key order. */
  ghost function WithPrefix(keys: seq<string>, names: Groups, prefix: string): seq<Path>
    requires Keys(keys) <= names.Keys
  {
    if keys == [] then []
    else
      var rest, last := keys[..|keys| - 1], keys[|keys| - 1];
      assert last in Keys(keys) && Keys(rest) <= Keys(keys);
      WithPrefix(rest, names, prefix) + (if StartsWith(last, prefix) then names[last] else [])
  }

  lemma {:induction false} NothingMore(keys: seq<string>, names: Groups, prefix: string, i: nat, j: nat)
    requires Keys(keys) <= names.Keys && i <= j <= |keys|
    requires forall k :: i <= k < j ==> !StartsWith(keys[k], prefix)
    ensures Keys(keys[..i]) <= names.Keys && Keys(keys[..j]) <= names.Keys
    ensures WithPrefix(keys[..j], names, prefix) == WithPrefix(keys[..i], names, prefix)
    decreases j
  {
    assert Keys(keys[..i]) <= Keys(keys) && Keys(keys[..j]) <= Keys(keys);
    if i < j {
      NothingMore(keys, names, prefix, i, j - 1);
      assert keys[..j][..j - 1] == keys[..j - 1];
    }
  }

  lemma NoneBelow(keys: seq<string>, names: Groups, prefix: string, start: nat)
    requires Keys(keys) <= names.Keys && Sorted(keys) && InsertionPoint(keys, prefix, start)
    ensures Keys(keys[..start]) <= names.Keys && WithPrefix(keys[..start], names, prefix) == []
  {
    PrefixRunIsContiguous(keys, prefix, start);
    NothingMore(keys, names, prefix, 0, start);
  }

  lemma OneMoreKey(keys: seq<string>, names: Groups, prefix: string, i: nat)
    requires Keys(keys) <= names.Keys && i < |keys| && StartsWith(keys[i], prefix)
    ensures keys[i] in names && Keys(keys[..i]) <= names.Keys && Keys(keys[..i + 1]) <= names.Keys
    ensures WithPrefix(keys[..i + 1], names, prefix) == WithPrefix(keys[..i], names, prefix) + names[keys[i]]
  {
    assert Keys(keys[..i]) <= Keys(keys) && Keys(keys[..i + 1]) <= Keys(keys) && keys[i] in Keys(keys);
    assert keys[..i + 1][..i] == keys[..i];
  }

  /** Once a key at or above the insertion point does not fit, no later one does. */
  lemma RunEnds(keys: seq<string>, names: Groups, prefix: string, start: nat, i: nat)
    requires Keys(keys) <= names.Keys && Sorted(keys) && InsertionPoint(keys, prefix, start) && start <= i <= |keys|
    requires i < |keys| ==> !StartsWith(keys[i], prefix)
    ensures Keys(keys[..i]) <= names.Keys && WithPrefix(keys, names, prefix) == WithPrefix(keys[..i], names, prefix)
  {
    PrefixRunIsContiguous(keys, prefix, start);
    NothingMore(keys, names, prefix, i, |keys|);
    TakeAll(keys);
  }

  lemma {:induction false} WithPrefixHolds(keys: seq<string>, names: Groups, prefix: string, p: Path)
    requires Keys(keys) <= names.Keys
    ensures p in WithPrefix(keys, names, prefix) <==> exists k :: k in keys && StartsWith(k, prefix) && p in names[k]
  {
    if keys != [] {
      var rest, last := keys[..|keys| - 1], keys[|keys| - 1];
      assert last in Keys(keys) && Keys(rest) <= Keys(keys) && keys == rest + [last];
      WithPrefixHolds(rest, names, prefix, p);
    }
  }

  /** Over an index, prefix lookup finds exactly the files whose normalised name starts with the prefix. */
  lemma PrefixLookupFindsTheNames(ix: Index, d: Disk, live: seq<Path>, prefix: string, p: Path)
    requires Serves(ix, d, live) && prefix != ""
    ensures p in WithPrefix(ix.keys, ix.names, prefix) <==> p in live && prefix <= d.nameOf(p)
  {
    WithPrefixHolds(ix.keys, ix.names, prefix, p);
    var name := d.nameOf(p);
    MatchingHolds(live, d.nameOf, name, p);
    assert GroupOk(ix.names, live, d.nameOf, false, name);
    forall k | k in ix.keys && p in ix.names[k] ensures k == name && p in live {
      assert k in Keys(ix.keys);
      assert GroupOk(ix.names, live, d.nameOf, false, k);
      MatchingHolds(live, d.nameOf, k, p);
    }
    if p in live && StartsWith(name, prefix) {
      assert name in Keys(ix.keys);
    }
  }

  /** The files found come in the order of their names. */
  ghost predicate InNameOrder(d: Disk, files: seq<Path>) {
    forall i, j {:trigger files[i], files[j]} :: 0 <= i < j < |files| ==> !Less(d.nameOf(files[j]), d.nameOf(files[i]))
  }

  lemma {:induction false} PrefixLookupIsInOrder(ix: Index, d: Disk, live: seq<Path>, prefix: string, n: nat)
    requires Serves(ix, d, live) && n <= |ix.keys|
    ensures Keys(ix.keys[..n]) <= ix.names.Keys
    ensures InNameOrder(d, WithPrefix(ix.keys[..n], ix.names, prefix))
    ensures forall p :: p in WithPrefix(ix.keys[..n], ix.names, prefix) ==> exists k :: 0 <= k < n && ix.keys[k] == d.nameOf(p)
  {
    assert Keys(ix.keys[..n]) <= Keys(ix.keys);
    if n > 0 {
      var last := ix.keys[n - 1];
      assert ix.keys[..n][..n - 1] == ix.keys[..n - 1];
      PrefixLookupIsInOrder(ix, d, live, prefix, n - 1);
      assert last in Keys(ix.keys);
      assert GroupOk(ix.names, live, d.nameOf, false, last);
      var before, more := WithPrefix(ix.keys[..n - 1], ix.names, prefix), ix.names[last];
      forall p | p in more ensures d.nameOf(p) == last {
        MatchingHolds(live, d.nameOf, last, p);
      }
      forall p | p in before ensures !Less(last, d.nameOf(p)) {
        var k :| 0 <= k < n - 1 && ix.keys[k] == d.nameOf(p);
        LessIsAsymmetric(ix.keys[k], last);
      }
      LessIsStrict(last);
      OrderOfConcat(d, before, more, last);
      assert before + [] == before;
    }
  }

  lemma OrderOfConcat(d: Disk, before: seq<Path>, more: seq<Path>, last: string)
    requires InNameOrder(d, before) && !Less(last, last)
    requires (forall p :: p in more ==> d.nameOf(p) == last) && forall p :: p in before ==> !Less(last, d.nameOf(p))
    ensures InNameOrder(d, before + more)
  {
    var s := before + more;
    forall i, j | 0 <= i < j < |s| ensures !Less(d.nameOf(s[j]), d.nameOf(s[i])) {
      if j >= |before| {
        assert s[j] in more;
        assert if i < |before| then s[i] in before else s[i] in more;
      }
    }
  }

  /** No file is found twice. */
  lemma {:induction false} PrefixLookupFindsOnce(ix: Index, d: Disk, live: seq<Path>, prefix: string, n: nat)
    requires Serves(ix, d, live) && n <= |ix.keys|
    ensures Keys(ix.keys[..n]) <= ix.names.Keys
    ensures NoDuplicates(WithPrefix(ix.keys[..n], ix.names, prefix))
  {
    assert Keys(ix.keys[..n]) <= Keys(ix.keys);
    if n > 0 {
      var rest, last := ix.keys[..n - 1], ix.keys[n - 1];
      assert ix.keys[..n][..n - 1] == rest;
      PrefixLookupFindsOnce(ix, d, live, prefix, n - 1);
      assert last in Keys(ix.keys);
      assert GroupOk(ix.names, live, d.nameOf, false, last);
      MatchingIsDistinct(live, d.nameOf, last);
      forall p | p in ix.names[last] ensures p !in WithPrefix(rest, ix.names, prefix) {
        OneNameEach(ix, d, live, prefix, n - 1, p);
      }
      JoinsDistinct(WithPrefix(rest, ix.names, prefix), ix.names[last]);
    }
  }

  lemma OneNameEach(ix: Index, d: Disk, live: seq<Path>, prefix: string, n: nat, p: Path)
    requires Serves(ix, d, live) && n < |ix.keys| && ix.keys[n] in ix.names && p in ix.names[ix.keys[n]]
    requires Keys(ix.keys[..n]) <= ix.names.Keys
    ensures p !in WithPrefix(ix.keys[..n], ix.names, prefix)
  {
    var rest, last := ix.keys[..n], ix.keys[n];
    assert GroupOk(ix.names, live, d.nameOf, false, last);
    MatchingHolds(live, d.nameOf, last, p);
    WithPrefixHolds(rest, ix.names, prefix, p);
    forall k | k in rest ensures p !in ix.names[k] {
      assert k in Keys(rest);
      assert GroupOk(ix.names, live, d.nameOf, false, k);
      MatchingHolds(live, d.nameOf, k, p);
      var i :| 0 <= i < n && ix.keys[i] == k;
      assert Less(ix.keys[i], ix.keys[n]);
      LessIsStrict(last);
    }
  }

  lemma JoinsDistinct(a: seq<Path>, b: seq<Path>)
    requires NoDuplicates(a) && NoDuplicates(b) && forall p :: p in b ==> p !in a
    ensures NoDuplicates(a + b)
  {
    var s := a + b;
    forall i, j | 0 <= i < j < |s| ensures s[i] != s[j] {
      if i < |a| <= j {
        assert s[j] in b && s[i] in a;
      }
    }
  }
}
