/** The resolution analyser, a client that fills two hash tables in step and then a third. */
module Resolutions {
  import opened Options
  import opened Sequences
  import opened OrderedDicts
  import opened LinkedHashTables
  import opened Sightings

  /** A set of levels that the first table shares with the loop that fills it. */
  class LevelSet {
    var members: set<bool>

    constructor ()
      ensures members == {}
    {
      members := {};
    }
  }

  datatype Summary = Summary(title: string, mixed: bool, resolutions: set<bool>, fileCount: nat)

  // The tables' default sizes.
  const CAPACITY := 64
  const LOAD_FACTOR := 0.8

  type LevelTable = LinkedHashTable<string, LevelSet?>
  type CountTable = LinkedHashTable<string, Option<nat>>
  type SummaryTable = LinkedHashTable<string, Option<Summary>>

  // ---------- What the tables hold ----------

  function Including(titles: seq<string>, title: string): seq<string> {
    if title in titles then titles else titles + [title]
  }

  /** Row i of the first table: the i-th title and its own set, holding that title's levels. */
  ghost predicate LevelRow(d: Dict<string, LevelSet?>, sets: seq<LevelSet>, titles: seq<string>, seen: seq<Sighting>, i: nat)
    requires i < |d| == |sets| == |titles|
    reads sets
  {
    d[i] == (titles[i], sets[i]) && sets[i].members == Levels(seen, titles[i])
  }

  ghost predicate LevelsKept(d: Dict<string, LevelSet?>, sets: seq<LevelSet>, titles: seq<string>, seen: seq<Sighting>)
    reads sets
  {
    && |d| == |sets| == |titles| && NoDuplicates(sets) && NoDuplicates(titles)
    && forall i {:trigger LevelRow(d, sets, titles, seen, i)} :: 0 <= i < |d| ==> LevelRow(d, sets, titles, seen, i)
  }

  ghost predicate CountRow(d: Dict<string, Option<nat>>, titles: seq<string>, seen: seq<Sighting>, i: nat)
    requires i < |d| == |titles|
  {
    d[i] == (titles[i], Some(Count(seen, titles[i])))
  }

  ghost predicate CountsKept(d: Dict<string, Option<nat>>, titles: seq<string>, seen: seq<Sighting>) {
    && |d| == |titles| && NoDuplicates(titles)
    && forall i {:trigger CountRow(d, titles, seen, i)} :: 0 <= i < |d| ==> CountRow(d, titles, seen, i)
  }

  ghost predicate LevelsTallied(levels: LevelTable, sets: seq<LevelSet>, titles: seq<string>, seen: seq<Sighting>)
    reads levels, levels.buckets, levels.order, sets
  {
    levels.Valid() && levels.none == null && LevelsKept(levels.Contents(), sets, titles, seen)
  }

  ghost predicate CountsTallied(counts: CountTable, d: Dict<string, Option<nat>>)
    reads counts, counts.buckets, counts.order
  {
    counts.Valid() && counts.none == None && counts.Contents() == d
  }

  /** One more for a title that may be new. */
  function Counted(d: Dict<string, Option<nat>>, title: string): Dict<string, Option<nat>> {
    var n := Get(d, title, None);
    Put(d, title, Some(if n.Some? then n.value + 1 else 1))
  }

  ghost function CountDict(seen: seq<Sighting>): Dict<string, Option<nat>> {
    if seen == [] then [] else Counted(CountDict(seen[..|seen| - 1]), seen[|seen| - 1].title)
  }

  /** Where a title is among distinct titles that key a dictionary. */
  lemma TitlePosition<V>(d: Dict<string, V>, titles: seq<string>, title: string)
    requires |d| == |titles| && NoDuplicates(titles) && forall i :: 0 <= i < |d| ==> d[i].0 == titles[i]
    ensures Has(d, title) <==> title in titles
    ensures Has(d, title) ==> titles[Position(d, title)] == title
  {
    if title in titles {
      var i :| 0 <= i < |titles| && titles[i] == title;
      assert d[i].0 == title;
    }
  }

  // ---------- The counts ----------

  lemma CountLookup(d: Dict<string, Option<nat>>, titles: seq<string>, seen: seq<Sighting>, title: string)
    requires CountsKept(d, titles, seen)
    ensures Has(d, title) <==> title in titles
    ensures title in titles ==> titles[Position(d, title)] == title
    ensures Get(d, title, None) == if title in titles then Some(Count(seen, title)) else None
  {
    forall i | 0 <= i < |d| ensures d[i].0 == titles[i] {
      assert CountRow(d, titles, seen, i);
    }
    TitlePosition(d, titles, title);
    if Has(d, title) {
      assert CountRow(d, titles, seen, Position(d, title));
    }
  }

  lemma CountedRow(d: Dict<string, Option<nat>>, titles: seq<string>, seen: seq<Sighting>, s: Sighting, i: nat)
    requires CountsKept(d, titles, seen) && i < |Including(titles, s.title)| == |Counted(d, s.title)|
    requires s.title !in titles ==> Count(seen, s.title) == 0
    ensures CountRow(Counted(d, s.title), Including(titles, s.title), seen + [s], i)
  {
    var title, p := s.title, Position(d, s.title);
    CountLookup(d, titles, seen, title);
    SeenOneMore(seen, s, Including(titles, title)[i]);
    if i == p {
      assert Including(titles, title)[i] == title && Counted(d, title)[i] == (title, Some(Count(seen, title) + 1));
    } else {
      assert CountRow(d, titles, seen, i) && Counted(d, title)[i] == d[i];
      assert titles[i] != title;
    }
  }

  lemma CountingKeepsCounts(d: Dict<string, Option<nat>>, titles: seq<string>, seen: seq<Sighting>, s: Sighting)
    requires CountsKept(d, titles, seen) && (s.title !in titles ==> Count(seen, s.title) == 0)
    ensures CountsKept(Counted(d, s.title), Including(titles, s.title), seen + [s])
  {
    CountLookup(d, titles, seen, s.title);
    forall i | 0 <= i < |Counted(d, s.title)| ensures CountRow(Counted(d, s.title), Including(titles, s.title), seen + [s], i) {
      CountedRow(d, titles, seen, s, i);
    }
    forall i | 0 <= i < |titles| && s.title !in titles ensures titles[i] != s.title {
      assert titles[i] in titles;
    }
  }

  /** Counting sighting by sighting gives each title its count, titles in order of appearance. */
  lemma {:induction false} CountDictIsRight(seen: seq<Sighting>)
    ensures CountsKept(CountDict(seen), Titles(seen), seen)
  {
    if seen != [] {
      var rest, last := seen[..|seen| - 1], seen[|seen| - 1];
      CountDictIsRight(rest);
      TitleIsSeen(rest, last.title);
      CountingKeepsCounts(CountDict(rest), Titles(rest), rest, last);
      assert rest + [last] == seen;
    }
  }

  lemma CountedIs(d: Dict<string, Option<nat>>, title: string, existing: Option<nat>, n: nat)
    requires existing == Get(d, title, None) && n == if existing.Some? then existing.value + 1 else 1
    ensures Counted(d, title) == Put(d, title, Some(n))
  {
  }

  /** Adds to the count of a title. */
  method NoteCount(counts: CountTable, title: string, ghost d: Dict<string, Option<nat>>)
    requires CountsTallied(counts, d)
    modifies counts, counts.buckets, counts.order
    ensures CountsTallied(counts, Counted(d, title))
    ensures counts.buckets == old(counts.buckets) || fresh(counts.buckets)
    ensures forall i :: 0 <= i < |counts.order| ==> counts.order[i] in old(counts.order) || fresh(counts.order[i])
  {
    var existing := counts.Get(title);
    var n := if existing.Some? then existing.value else 0;
    CountedIs(d, title, existing, n + 1);
    var _ := counts.Put(title, Some(n + 1));
  }

  // ---------- The levels ----------

  lemma LevelLookup(d: Dict<string, LevelSet?>, sets: seq<LevelSet>, titles: seq<string>, seen: seq<Sighting>, title: string)
    requires LevelsKept(d, sets, titles, seen)
    ensures Has(d, title) <==> title in titles
    ensures Has(d, title) ==> var p := Position(d, title); titles[p] == title && Get(d, title, null) == sets[p]
    ensures !Has(d, title) ==> Get(d, title, null) == null
  {
    forall i | 0 <= i < |d| ensures d[i].0 == titles[i] {
      assert LevelRow(d, sets, titles, seen, i);
    }
    TitlePosition(d, titles, title);
    if Has(d, title) {
      assert LevelRow(d, sets, titles, seen, Position(d, title));
    }
  }

  lemma NewRow(d: Dict<string, LevelSet?>, sets: seq<LevelSet>, titles: seq<string>, seen: seq<Sighting>, title: string, more: LevelSet)
    requires LevelsKept(d, sets, titles, seen) && title !in titles && more !in sets
    requires more.members == {} == Levels(seen, title)
    ensures LevelsKept(d + [(title, more)], sets + [more], titles + [title], seen)
  {
    var d', sets', titles' := d + [(title, more)], sets + [more], titles + [title];
    forall i | 0 <= i < |d'| ensures LevelRow(d', sets', titles', seen, i) {
      assert i < |d| ==> LevelRow(d, sets, titles, seen, i);
    }
    forall i | 0 <= i < |titles| ensures titles[i] != title && sets[i] != more {
      assert titles[i] in titles && sets[i] in sets;
    }
  }

  method EnterNewSet(levels: LevelTable, title: string, ghost sets: seq<LevelSet>, ghost titles: seq<string>, ghost seen: seq<Sighting>)
    returns (more: LevelSet)
    requires LevelsTallied(levels, sets, titles, seen) && title !in titles && Levels(seen, title) == {}
    modifies levels, levels.buckets, levels.order
    ensures fresh(more) && LevelsTallied(levels, sets + [more], titles + [title], seen)
    ensures levels.buckets == old(levels.buckets) || fresh(levels.buckets)
    ensures forall i :: 0 <= i < |levels.order| ==> levels.order[i] in old(levels.order) || fresh(levels.order[i])
  {
    LevelLookup(levels.Contents(), sets, titles, seen, title);
    more := new LevelSet();
    NewRow(levels.Contents(), sets, titles, seen, title, more);
    var _ := levels.Put(title, more);
  }

  /** The level set of a title, made and entered in the table if the title is new. */
  method LevelSetOf(levels: LevelTable, title: string, ghost sets: seq<LevelSet>, ghost titles: seq<string>, ghost seen: seq<Sighting>)
    returns (existing: LevelSet, ghost sets': seq<LevelSet>, ghost p: nat)
    requires LevelsTallied(levels, sets, titles, seen) && (title !in titles ==> Levels(seen, title) == {})
    modifies levels, levels.buckets, levels.order
    ensures LevelsTallied(levels, sets', Including(titles, title), seen)
    ensures p < |sets'| && sets'[p] == existing && Including(titles, title)[p] == title
    ensures levels.buckets == old(levels.buckets) || fresh(levels.buckets)
    ensures forall i :: 0 <= i < |levels.order| ==> levels.order[i] in old(levels.order) || fresh(levels.order[i])
    ensures forall i :: 0 <= i < |sets'| ==> sets'[i] in sets || fresh(sets'[i])
  {
    LevelLookup(levels.Contents(), sets, titles, seen, title);
    var found := levels.Get(title);
    if found != null {
      return found, sets, Position(levels.Contents(), title);
    }
    existing := EnterNewSet(levels, title, sets, titles, seen);
    sets', p := sets + [existing], |sets|;
  }

  /** Adding to one title's set gives what one more sighting of it tells. */
  method AddLevel(existing: LevelSet, s: Sighting, ghost d: Dict<string, LevelSet?>, ghost sets: seq<LevelSet>,
                  ghost titles: seq<string>, ghost seen: seq<Sighting>, ghost p: nat)
    requires LevelsKept(d, sets, titles, seen) && p < |sets| && sets[p] == existing && titles[p] == s.title
    modifies existing
    ensures LevelsKept(d, sets, titles, seen + [s])
  {
    existing.members := existing.members + {s.high};
    forall i | 0 <= i < |d| ensures LevelRow(d, sets, titles, seen + [s], i) {
      assert old(LevelRow(d, sets, titles, seen, i));
      SeenOneMore(seen, s, titles[i]);
    }
  }

  /** Adds to the level set of the sighting's title, through the reference that the table holds. */
  method NoteLevel(levels: LevelTable, s: Sighting, ghost sets: seq<LevelSet>, ghost titles: seq<string>, ghost seen: seq<Sighting>)
    returns (ghost sets': seq<LevelSet>)
    requires LevelsTallied(levels, sets, titles, seen) && (s.title !in titles ==> Levels(seen, s.title) == {})
    modifies levels, levels.buckets, levels.order, sets
    ensures LevelsTallied(levels, sets', Including(titles, s.title), seen + [s])
    ensures levels.buckets == old(levels.buckets) || fresh(levels.buckets)
    ensures forall i :: 0 <= i < |levels.order| ==> levels.order[i] in old(levels.order) || fresh(levels.order[i])
    ensures forall i :: 0 <= i < |sets'| ==> sets'[i] in sets || fresh(sets'[i])
  {
    var existing;
    ghost var p;
    existing, sets', p := LevelSetOf(levels, s.title, sets, titles, seen);
    AddLevel(existing, s, levels.Contents(), sets', Including(titles, s.title), seen, p);
  }

  // ---------- Both tables in step ----------

  /** `owned` holds all objects that a table is made of. */
  ghost predicate MadeOf<K, V>(t: LinkedHashTable<K, V>, owned: set<object>)
    reads t
  {
    t in owned && t.buckets in owned && forall i :: 0 <= i < |t.order| ==> t.order[i] in owned
  }

  ghost predicate AllIn(sets: seq<LevelSet>, owned: set<object>) {
    forall i :: 0 <= i < |sets| ==> sets[i] in owned
  }

  ghost function Objects<K, V>(t: LinkedHashTable<K, V>): set<object>
    reads t
  {
    {t, t.buckets} + set n: HashNode<K, V> | n in t.order
  }

  method NoteCountOwned(counts: CountTable, title: string, ghost d: Dict<string, Option<nat>>, ghost owned: set<object>)
    returns (ghost owned': set<object>)
    requires CountsTallied(counts, d) && MadeOf(counts, owned)
    modifies counts, counts.buckets, counts.order
    ensures CountsTallied(counts, Counted(d, title)) && MadeOf(counts, owned')
    ensures owned <= owned' && fresh(owned' - owned)
  {
    NoteCount(counts, title, d);
    owned' := owned + Objects(counts);
    forall o | o in owned' - owned ensures fresh(o) {
      if o != counts && o != counts.buckets {
        var k :| 0 <= k < |counts.order| && counts.order[k] == o;
      }
    }
  }

  method NoteLevelOwned(levels: LevelTable, s: Sighting, ghost sets: seq<LevelSet>, ghost titles: seq<string>, ghost seen: seq<Sighting>, ghost owned: set<object>)
    returns (ghost sets': seq<LevelSet>, ghost owned': set<object>)
    requires LevelsTallied(levels, sets, titles, seen) && (s.title !in titles ==> Levels(seen, s.title) == {})
    requires MadeOf(levels, owned) && AllIn(sets, owned)
    modifies levels, levels.buckets, levels.order, sets
    ensures LevelsTallied(levels, sets', Including(titles, s.title), seen + [s]) && MadeOf(levels, owned') && AllIn(sets', owned')
    ensures owned <= owned' && fresh(owned' - owned)
  {
    sets' := NoteLevel(levels, s, sets, titles, seen);
    ghost var more := owned + Objects(levels);
    forall o | o in more - owned ensures fresh(o) {
      if o != levels && o != levels.buckets {
        var k :| 0 <= k < |levels.order| && levels.order[k] == o;
      }
    }
    owned' := more + set x | x in sets';
  }

  /** Noting a level leaves the other table alone. */
  method NoteLevelBeside(levels: LevelTable, counts: CountTable, s: Sighting, ghost sets: seq<LevelSet>, ghost titles: seq<string>,
                         ghost seen: seq<Sighting>, ghost d: Dict<string, Option<nat>>, ghost owned: set<object>)
    returns (ghost sets': seq<LevelSet>, ghost owned': set<object>)
    requires LevelsTallied(levels, sets, titles, seen) && CountsTallied(counts, d)
    requires s.title !in titles ==> Levels(seen, s.title) == {}
    requires MadeOf(levels, owned) && MadeOf(counts, owned) && AllIn(sets, owned)
    modifies levels, levels.buckets, levels.order, sets
    ensures LevelsTallied(levels, sets', Including(titles, s.title), seen + [s]) && CountsTallied(counts, d)
    ensures MadeOf(levels, owned') && MadeOf(counts, owned') && AllIn(sets', owned')
    ensures owned <= owned' && fresh(owned' - owned)
  {
    sets', owned' := NoteLevelOwned(levels, s, sets, titles, seen, owned);
  }

  /** Noting a count leaves the other table alone, whatever that has tallied. */
  method NoteCountBeside(levels: LevelTable, counts: CountTable, title: string, ghost sets: seq<LevelSet>, ghost titles: seq<string>,
                         ghost seen: seq<Sighting>, ghost d: Dict<string, Option<nat>>, ghost owned: set<object>)
    returns (ghost owned': set<object>)
    requires LevelsTallied(levels, sets, titles, seen) && CountsTallied(counts, d)
    requires MadeOf(levels, owned) && MadeOf(counts, owned)
    modifies counts, counts.buckets, counts.order
    ensures LevelsTallied(levels, sets, titles, seen) && CountsTallied(counts, Counted(d, title))
    ensures MadeOf(levels, owned') && MadeOf(counts, owned')
    ensures owned <= owned' && fresh(owned' - owned)
  {
    owned' := NoteCountOwned(counts, title, d, owned);
  }

  /** One sighting, entered in both tables. */
  method Note(levels: LevelTable, counts: CountTable, s: Sighting, ghost sets: seq<LevelSet>, ghost titles: seq<string>,
              ghost seen: seq<Sighting>, ghost d: Dict<string, Option<nat>>, ghost owned: set<object>)
    returns (ghost sets': seq<LevelSet>, ghost owned': set<object>)
    requires LevelsTallied(levels, sets, titles, seen) && CountsTallied(counts, d)
    requires s.title !in titles ==> Levels(seen, s.title) == {}
    requires MadeOf(levels, owned) && MadeOf(counts, owned) && AllIn(sets, owned)
    modifies owned
    ensures LevelsTallied(levels, sets', Including(titles, s.title), seen + [s]) && CountsTallied(counts, Counted(d, s.title))
    ensures MadeOf(levels, owned') && MadeOf(counts, owned') && AllIn(sets', owned')
    ensures owned <= owned' && fresh(owned' - owned)
  {
    sets', owned' := NoteLevelBeside(levels, counts, s, sets, titles, seen, d, owned);
    owned' := NoteCountBeside(levels, counts, s.title, sets', Including(titles, s.title), seen + [s], d, owned');
  }

  method NewTables(hashOf: string -> int) returns (levels: LevelTable, counts: CountTable, ghost owned: set<object>)
    ensures LevelsTallied(levels, [], [], []) && CountsTallied(counts, [])
    ensures MadeOf(levels, owned) && MadeOf(counts, owned) && fresh(owned)
  {
    levels := new LinkedHashTable<string, LevelSet?>(hashOf, null, CAPACITY, LOAD_FACTOR);
    counts := new LinkedHashTable<string, Option<nat>>(hashOf, None, CAPACITY, LOAD_FACTOR);
    assert levels.order == [] && counts.order == [];
    owned := {levels, levels.buckets, counts, counts.buckets};
  }

  /** What one more sighting changes. */
  lemma NextSighting(seen: seq<Sighting>, s: Sighting)
    ensures Titles(seen + [s]) == Including(Titles(seen), s.title)
    ensures CountDict(seen + [s]) == Counted(CountDict(seen), s.title)
    ensures s.title !in Titles(seen) ==> Levels(seen, s.title) == {}
  {
    SeenOneMore(seen, s, s.title);
    TitleIsSeen(seen, s.title);
    assert (seen + [s])[..|seen|] == seen;
  }

  /** Fills both tables, title by title in step: at all times they have the same keys in the same order. */
  method Tally(sightings: seq<Sighting>, hashOf: string -> int) returns (levels: LevelTable, counts: CountTable, ghost sets: seq<LevelSet>)
    ensures LevelsTallied(levels, sets, Titles(sightings), sightings) && CountsTallied(counts, CountDict(sightings))
  {
    ghost var owned;
    levels, counts, owned := NewTables(hashOf);
    sets := [];
    ghost var seen: seq<Sighting>, titles: seq<string>, d: Dict<string, Option<nat>> := [], [], [];
    for i := 0 to |sightings|
      invariant fresh(owned) && MadeOf(levels, owned) && MadeOf(counts, owned) && AllIn(sets, owned)
      invariant seen == sightings[..i] && titles == Titles(seen) && d == CountDict(seen)
      invariant LevelsTallied(levels, sets, titles, seen) && CountsTallied(counts, d)
    {
      var s := sightings[i];
      TakeOneMore(sightings, i);
      NextSighting(seen, s);
      sets, owned := Note(levels, counts, s, sets, titles, seen, d, owned);
      seen, titles, d := seen + [s], Including(titles, s.title), Counted(d, s.title);
    }
    TakeAll(sightings);
  }

  // ---------- The summaries ----------

  ghost function SummaryOf(seen: seq<Sighting>, title: string): Summary {
    Summary(title, |Levels(seen, title)| > 1, Levels(seen, title), Count(seen, title))
  }

  /** What the analysis should return: a summary for each title, in order. */
  ghost function SummaryDict(titles: seq<string>, seen: seq<Sighting>): Dict<string, Option<Summary>> {
    if titles == [] then []
    else SummaryDict(titles[..|titles| - 1], seen) + [(titles[|titles| - 1], Some(SummaryOf(seen, titles[|titles| - 1])))]
  }

  lemma {:induction false} SummaryKeys(titles: seq<string>, seen: seq<Sighting>)
    ensures |SummaryDict(titles, seen)| == |titles|
    ensures forall i :: 0 <= i < |titles| ==> SummaryDict(titles, seen)[i].0 == titles[i]
  {
    if titles != [] {
      SummaryKeys(titles[..|titles| - 1], seen);
    }
  }

  lemma SummaryDictGrows(titles: seq<string>, seen: seq<Sighting>, n: nat)
    requires n < |titles| && NoDuplicates(titles)
    ensures SummaryDict(titles[..n + 1], seen) == Put(SummaryDict(titles[..n], seen), titles[n], Some(SummaryOf(seen, titles[n])))
  {
    var d := SummaryDict(titles[..n], seen);
    SummaryKeys(titles[..n], seen);
    assert titles[..n + 1][..n] == titles[..n];
    assert forall i :: 0 <= i < n ==> d[i].0 == titles[i] != titles[n];
    assert !Has(d, titles[n]);
  }

  /** Makes the summary of one title; an empty title is refused. */
  method Summarise(title: string, levels: set<bool>, count: nat) returns (summary: Option<Summary>)
    ensures summary == if title == "" then None else Some(Summary(title, |levels| > 1, levels, count))
  {
    if title == "" {
      return None;
    }
    return Some(Summary(title, |levels| > 1, levels, count));
  }

  /** Reads row i of both tables. */
  method ReadRow(counts: CountTable, items: seq<(string, LevelSet?)>, i: nat, ghost sets: seq<LevelSet>, ghost titles: seq<string>,
                 ghost seen: seq<Sighting>, ghost d: Dict<string, Option<nat>>)
    returns (summary: Option<Summary>)
    requires LevelsKept(items, sets, titles, seen) && CountsTallied(counts, d) && CountsKept(d, titles, seen) && i < |items|
    ensures items[i].0 == titles[i] && summary == if titles[i] == "" then None else Some(SummaryOf(seen, titles[i]))
  {
    assert LevelRow(items, sets, titles, seen, i);
    CountLookup(d, titles, seen, titles[i]);
    var count := counts.Get(items[i].0);
    summary := Summarise(items[i].0, items[i].1.members, if count.Some? then count.value else 0);
  }

  /** Enters the summary of row i, if its title is not empty. */
  method AddRow(table: SummaryTable, counts: CountTable, items: seq<(string, LevelSet?)>, i: nat,
                ghost sets: seq<LevelSet>, ghost titles: seq<string>, ghost seen: seq<Sighting>, ghost d: Dict<string, Option<nat>>) returns (ok: bool)
    requires LevelsKept(items, sets, titles, seen) && CountsTallied(counts, d) && CountsKept(d, titles, seen) && i < |items|
    requires table.Valid() && table.Contents() == SummaryDict(titles[..i], seen)
    modifies table, table.buckets, table.order
    ensures ok <==> titles[i] != ""
    ensures ok ==> table.Valid() && table.Contents() == SummaryDict(titles[..i + 1], seen)
    ensures table.buckets == old(table.buckets) || fresh(table.buckets)
    ensures forall k :: 0 <= k < |table.order| ==> table.order[k] in old(table.order) || fresh(table.order[k])
  {
    var summary := ReadRow(counts, items, i, sets, titles, seen, d);
    if summary.None? {
      return false;
    }
    SummaryDictGrows(titles, seen, i);
    var _ := table.Put(items[i].0, summary);
    return true;
  }

  method AddRowOwned(table: SummaryTable, counts: CountTable, items: seq<(string, LevelSet?)>, i: nat,
                     ghost sets: seq<LevelSet>, ghost titles: seq<string>, ghost seen: seq<Sighting>,
                     ghost d: Dict<string, Option<nat>>, ghost owned: set<object>)
    returns (ok: bool, ghost owned': set<object>)
    requires LevelsKept(items, sets, titles, seen) && CountsTallied(counts, d) && CountsKept(d, titles, seen) && i < |items|
    requires table.Valid() && table.Contents() == SummaryDict(titles[..i], seen) && MadeOf(table, owned)
    modifies table, table.buckets, table.order
    ensures ok <==> titles[i] != ""
    ensures ok ==> table.Valid() && table.Contents() == SummaryDict(titles[..i + 1], seen)
    ensures MadeOf(table, owned') && owned <= owned' && fresh(owned' - owned)
  {
    ok := AddRow(table, counts, items, i, sets, titles, seen, d);
    owned' := owned + Objects(table);
    forall o | o in owned' - owned ensures fresh(o) {
      if o != table && o != table.buckets {
        var k :| 0 <= k < |table.order| && table.order[k] == o;
      }
    }
  }

  method NewSummaries(hashOf: string -> int) returns (table: SummaryTable, ghost owned: set<object>)
    ensures table.Valid() && table.Contents() == [] && MadeOf(table, owned) && fresh(owned)
  {
    table := new LinkedHashTable<string, Option<Summary>>(hashOf, None, CAPACITY, LOAD_FACTOR);
    assert table.order == [];
    owned := {table, table.buckets};
  }

  method SummariseAll(counts: CountTable, items: seq<(string, LevelSet?)>, hashOf: string -> int,
                      ghost sets: seq<LevelSet>, ghost titles: seq<string>, ghost seen: seq<Sighting>, ghost d: Dict<string, Option<nat>>)
    returns (table: SummaryTable, ok: bool)
    requires LevelsKept(items, sets, titles, seen) && CountsTallied(counts, d) && CountsKept(d, titles, seen)
    ensures ok <==> "" !in titles
    ensures ok ==> table.Valid() && table.Contents() == SummaryDict(titles, seen)
  {
    ghost var owned;
    table, owned := NewSummaries(hashOf);
    for i := 0 to |items|
      invariant fresh(owned) && MadeOf(table, owned)
      invariant table.Valid() && table.Contents() == SummaryDict(titles[..i], seen)
      invariant forall k :: 0 <= k < i ==> titles[k] != ""
    {
      ok, owned := AddRowOwned(table, counts, items, i, sets, titles, seen, d, owned);
      if !ok {
        return;
      }
    }
    ok := true;
    TakeAll(titles);
  }

  // ---------- The whole analysis ----------

  method ExtractAll(files: seq<ScannedFile>, isHigh: string -> bool) returns (seen: seq<Sighting>)
    ensures seen == Extracted(files, isHigh)
  {
    seen := [];
    for i := 0 to |files|
      invariant seen == Extracted(files[..i], isHigh)
    {
      assert files[..i + 1][..i] == files[..i];
      var info := Extract(files[i], isHigh);
      if info.Some? {
        seen := seen + [info.value];
      }
    }
    TakeAll(files);
  }

  /** What a table of summaries says of one title is so for the files that count for it. */
  ghost predicate TellsOf(d: Dict<string, Option<Summary>>, files: seq<ScannedFile>, isHigh: string -> bool, title: string) {
    && (Has(d, title) <==> exists i :: 0 <= i < |files| && CountsFor(files[i], title))
    && (Has(d, title) ==>
          exists summary :: Get(d, title, None) == Some(summary) && SaysWell(summary, files, isHigh, title))
  }

  ghost predicate HasLevel(files: seq<ScannedFile>, isHigh: string -> bool, title: string, high: bool) {
    exists i :: 0 <= i < |files| && CountsFor(files[i], title) && IsHigh(files[i], isHigh) == high
  }

  /** The summary counts the files of the title, has the levels they have, and calls them mixed if some
      are high and some are not. */
  ghost predicate SaysWell(summary: Summary, files: seq<ScannedFile>, isHigh: string -> bool, title: string) {
    && summary.title == title && summary.fileCount == |FilesFor(files, title)|
    && (summary.mixed <==> HasLevel(files, isHigh, title, true) && HasLevel(files, isHigh, title, false))
    && forall high :: high in summary.resolutions <==> HasLevel(files, isHigh, title, high)
  }

  lemma SummarySaysWell(files: seq<ScannedFile>, isHigh: string -> bool, title: string)
    ensures SaysWell(SummaryOf(Extracted(files, isHigh), title), files, isHigh, title)
  {
    CountIsOfFiles(files, isHigh, title);
    TwoBools(Levels(Extracted(files, isHigh), title));
    LevelsAreOfFiles(files, isHigh, title, true);
    LevelsAreOfFiles(files, isHigh, title, false);
  }

  lemma {:induction false} SummaryAt(titles: seq<string>, seen: seq<Sighting>, i: nat)
    requires i < |titles|
    ensures |SummaryDict(titles, seen)| == |titles| && SummaryDict(titles, seen)[i] == (titles[i], Some(SummaryOf(seen, titles[i])))
  {
    SummaryKeys(titles, seen);
    SummaryKeys(titles[..|titles| - 1], seen);
    if i < |titles| - 1 {
      SummaryAt(titles[..|titles| - 1], seen, i);
    }
  }

  lemma SummaryLookup(titles: seq<string>, seen: seq<Sighting>, title: string)
    requires NoDuplicates(titles)
    ensures Has(SummaryDict(titles, seen), title) <==> title in titles
    ensures title in titles ==> Get(SummaryDict(titles, seen), title, None) == Some(SummaryOf(seen, title))
  {
    var d := SummaryDict(titles, seen);
    SummaryKeys(titles, seen);
    TitlePosition(d, titles, title);
    if title in titles {
      SummaryAt(titles, seen, Position(d, title));
    }
  }

  /** The summaries are true of the files, title by title. */
  lemma SummariesTellOfTheFiles(files: seq<ScannedFile>, isHigh: string -> bool, title: string)
    ensures TellsOf(SummaryDict(Titles(Extracted(files, isHigh)), Extracted(files, isHigh)), files, isHigh, title)
  {
    var seen := Extracted(files, isHigh);
    TitlesAreDistinct(seen);
    SummaryLookup(Titles(seen), seen, title);
    SummarySaysWell(files, isHigh, title);
    CountIsOfFiles(files, isHigh, title);
    TitleIsSeen(seen, title);
    FilesForIsNotEmpty(files, title);
  }

  lemma FilesForIsNotEmpty(files: seq<ScannedFile>, title: string)
    ensures |FilesFor(files, title)| > 0 <==> exists i :: 0 <= i < |files| && CountsFor(files[i], title)
  {
    if i: nat :| i < |files| && CountsFor(files[i], title) {
      assert i in FilesFor(files, title);
    }
    if FilesFor(files, title) != {} {
      var i :| i in FilesFor(files, title);
    }
  }

  /** Analyses the files. It fails, as the summary of a series without a title does, exactly if such a
      series turns up; otherwise the table holds one summary for each title in order of appearance. */
  method AnalyzeSeries(files: seq<ScannedFile>, isHigh: string -> bool, hashOf: string -> int) returns (summaries: SummaryTable, ok: bool)
    ensures ok <==> "" !in Titles(Extracted(files, isHigh))
    ensures ok <==> forall i :: 0 <= i < |files| ==> !CountsFor(files[i], "")
    ensures ok ==> summaries.Valid()
    ensures ok ==> summaries.Contents() == SummaryDict(Titles(Extracted(files, isHigh)), Extracted(files, isHigh))
    ensures ok ==> forall title {:trigger TellsOf(summaries.Contents(), files, isHigh, title)} :: TellsOf(summaries.Contents(), files, isHigh, title)
  {
    var seen := ExtractAll(files, isHigh);
    CountIsOfFiles(files, isHigh, "");
    TitleIsSeen(seen, "");
    FilesForIsNotEmpty(files, "");
    var levels, counts;
    ghost var sets;
    levels, counts, sets := Tally(seen, hashOf);
    var items := levels.Items();
    CountDictIsRight(seen);
    summaries, ok := SummariseAll(counts, items, hashOf, sets, Titles(seen), seen, CountDict(seen));
    forall title ensures TellsOf(SummaryDict(Titles(seen), seen), files, isHigh, title) {
      SummariesTellOfTheFiles(files, isHigh, title);
    }
  }

  // Two files of a matched series, one of them named otherwise, in two resolutions.
  const TWO_FILES := [ScannedFile(Some("Frieren"), "1080p", Some(true), "Sousou no Frieren"),
                      ScannedFile(Some("Frieren"), "480p", Some(true), "")]

  lemma TwoFilesSeen(isHigh: string -> bool)
    requires isHigh("1080p") && !isHigh("480p")
    ensures Extracted(TWO_FILES, isHigh) == [Sighting("Frieren", true), Sighting("Frieren", false)]
  {
    assert TWO_FILES[..1] == [TWO_FILES[0]] && TWO_FILES[..1][..0] == [];
    assert Extracted(TWO_FILES[..1], isHigh) == [Sighting("Frieren", true)];
  }

  lemma TwoSightings(title: string)
    ensures var seen := [Sighting(title, true), Sighting(title, false)];
            Titles(seen) == [title] && SummaryOf(seen, title) == Summary(title, true, {true, false}, 2)
  {
    var one, seen := [Sighting(title, true)], [Sighting(title, true), Sighting(title, false)];
    assert one[..0] == [] && seen[..1] == one && [] + [one[0]] == one && one + [seen[1]] == seen;
    SeenOneMore([], one[0], title);
    SeenOneMore(one, seen[1], title);
    TwoBools(Levels(seen, title));
  }

  /** They make one summary, under the title of the match: two files, of mixed resolution. */
  method AnalyzeTwoFiles(isHigh: string -> bool, hashOf: string -> int) returns (summaries: SummaryTable)
    requires isHigh("1080p") && !isHigh("480p")
    ensures summaries.Valid()
    ensures summaries.Contents() == [("Frieren", Some(Summary("Frieren", true, {true, false}, 2)))]
  {
    TwoFilesSeen(isHigh);
    TwoSightings("Frieren");
    assert "" != "Frieren";
    var ok;
    summaries, ok := AnalyzeSeries(TWO_FILES, isHigh, hashOf);
    assert ["Frieren"][..0] == [];
  }
}
