/** What one file tells about its series, and what a list of such sightings tells about each series. */
module Sightings {
  import opened Options
  import opened Sequences

  /** A file whose resolution is known: its series title and whether the resolution is high. */
  datatype Sighting = Sighting(title: string, high: bool)

  /** A scanned file: the matched title, the quality in its metadata (empty for none), and what the
      patterns find in its name: whether the resolution is high, and a title. */
  datatype ScannedFile = ScannedFile(matched: Option<string>, quality: string, inName: Option<bool>, nameTitle: string)

  /** The quality in the metadata wins over the file name; the matched title wins over the name's. */
  function Extract(f: ScannedFile, isHigh: string -> bool): Option<Sighting> {
    if f.matched.Some? && f.quality != "" then Some(Sighting(f.matched.value, isHigh(f.quality)))
    else if f.matched.Some? && f.inName.Some? then Some(Sighting(f.matched.value, f.inName.value))
    else if f.nameTitle != "" && f.inName.Some? then Some(Sighting(f.nameTitle, f.inName.value))
    else None
  }

  function Extracted(files: seq<ScannedFile>, isHigh: string -> bool): seq<Sighting> {
    if files == [] then []
    else
      var last := Extract(files[|files| - 1], isHigh);
      Extracted(files[..|files| - 1], isHigh) + (if last.Some? then [last.value] else [])
  }

  // ---------- What a file is counted as ----------

  /** A file counts for a series if it is matched to it, or is unmatched and named after it, and something
      tells its resolution: for a matched file its quality or its name, for an unmatched one its name. */
  predicate CountsFor(f: ScannedFile, title: string) {
    && (f.matched.Some? ==> f.matched.value == title)
    && (f.matched == None ==> f.nameTitle == title && title != "")
    && (f.inName == None ==> f.matched.Some? && f.quality != "")
  }

  /** A matched file's quality settles its level, whatever its name says. */
  predicate IsHigh(f: ScannedFile, isHigh: string -> bool) {
    if f.matched.Some? && f.quality != "" then isHigh(f.quality) else f.inName == Some(true)
  }

  /** The files that count for a series, by their places in the list. */
  ghost function FilesFor(files: seq<ScannedFile>, title: string): set<nat> {
    set i: nat | i < |files| && CountsFor(files[i], title)
  }

  lemma ExtractIsCount(f: ScannedFile, isHigh: string -> bool, title: string)
    ensures CountsFor(f, title) <==> Extract(f, isHigh).Some? && Extract(f, isHigh).value.title == title
    ensures CountsFor(f, title) ==> Extract(f, isHigh) == Some(Sighting(title, IsHigh(f, isHigh)))
  {
  }

  /** A series has as many sightings as files that count for it. */
  lemma {:induction false} CountIsOfFiles(files: seq<ScannedFile>, isHigh: string -> bool, title: string)
    ensures Count(Extracted(files, isHigh), title) == |FilesFor(files, title)|
  {
    if files == [] {
      assert FilesFor(files, title) == {};
    } else {
      var rest, last := files[..|files| - 1], files[|files| - 1];
      CountIsOfFiles(rest, isHigh, title);
      ExtractIsCount(last, isHigh, title);
      assert FilesFor(files, title) == FilesFor(rest, title) + (if CountsFor(last, title) then {|rest|} else {});
      if Extract(last, isHigh).Some? {
        SeenOneMore(Extracted(rest, isHigh), Extract(last, isHigh).value, title);
      } else {
        assert Extracted(files, isHigh) == Extracted(rest, isHigh) + [] == Extracted(rest, isHigh);
      }
    }
  }

  /** It has a level exactly if a file that counts for it has. */
  lemma {:induction false} LevelsAreOfFiles(files: seq<ScannedFile>, isHigh: string -> bool, title: string, high: bool)
    ensures high in Levels(Extracted(files, isHigh), title) <==>
              exists i :: 0 <= i < |files| && CountsFor(files[i], title) && IsHigh(files[i], isHigh) == high
  {
    if files != [] {
      var rest, last := files[..|files| - 1], files[|files| - 1];
      LevelsAreOfFiles(rest, isHigh, title, high);
      ExtractIsCount(last, isHigh, title);
      assert files == rest + [last];
      if Extract(last, isHigh).Some? {
        SeenOneMore(Extracted(rest, isHigh), Extract(last, isHigh).value, title);
      } else {
        assert Extracted(files, isHigh) == Extracted(rest, isHigh) + [] == Extracted(rest, isHigh);
      }
      if i :| 0 <= i < |rest| && CountsFor(rest[i], title) && IsHigh(rest[i], isHigh) == high {
        assert files[i] == rest[i];
      }
      if i :| 0 <= i < |files| && CountsFor(files[i], title) && IsHigh(files[i], isHigh) == high && i < |rest| {
        assert files[i] == rest[i];
      }
      if CountsFor(last, title) && IsHigh(last, isHigh) == high {
        assert files[|rest|] == last;
      }
    }
  }

  /** Matched files count for the titles of their matches alone: a title that only their names give is
      never listed. */
  lemma MatchedFilesKeepTheirTitle(files: seq<ScannedFile>, isHigh: string -> bool, title: string)
    requires forall i :: 0 <= i < |files| ==> files[i].matched.Some? && files[i].matched.value != title
    ensures title !in Titles(Extracted(files, isHigh))
  {
    CountIsOfFiles(files, isHigh, title);
    TitleIsSeen(Extracted(files, isHigh), title);
    assert FilesFor(files, title) == {};
  }

  /** The titles in order of first appearance. */
  ghost function Titles(seen: seq<Sighting>): seq<string> {
    if seen == [] then []
    else
      var before, last := Titles(seen[..|seen| - 1]), seen[|seen| - 1];
      if last.title in before then before else before + [last.title]
  }

  ghost function Levels(seen: seq<Sighting>, title: string): set<bool> {
    if seen == [] then {}
    else
      var last := seen[|seen| - 1];
      Levels(seen[..|seen| - 1], title) + (if last.title == title then {last.high} else {})
  }

  ghost function Count(seen: seq<Sighting>, title: string): nat {
    if seen == [] then 0
    else Count(seen[..|seen| - 1], title) + (if seen[|seen| - 1].title == title then 1 else 0)
  }

  lemma SeenOneMore(seen: seq<Sighting>, s: Sighting, title: string)
    ensures Titles(seen + [s]) == if s.title in Titles(seen) then Titles(seen) else Titles(seen) + [s.title]
    ensures Levels(seen + [s], title) == Levels(seen, title) + (if s.title == title then {s.high} else {})
    ensures Count(seen + [s], title) == Count(seen, title) + (if s.title == title then 1 else 0)
  {
    assert (seen + [s])[..|seen|] == seen;
  }

  lemma {:induction false} TitlesAreDistinct(seen: seq<Sighting>)
    ensures NoDuplicates(Titles(seen))
  {
    if seen != [] {
      var before, last := Titles(seen[..|seen| - 1]), seen[|seen| - 1];
      TitlesAreDistinct(seen[..|seen| - 1]);
      if last.title !in before {
        forall i | 0 <= i < |before| ensures before[i] != last.title {
          assert before[i] in before;
        }
      }
    }
  }

  /** A title is listed exactly when it has been seen, and then it has a level and a count. */
  lemma {:induction false} TitleIsSeen(seen: seq<Sighting>, title: string)
    ensures title in Titles(seen) <==> Count(seen, title) > 0
    ensures title in Titles(seen) <==> Levels(seen, title) != {}
    ensures title in Titles(seen) <==> exists i :: 0 <= i < |seen| && seen[i].title == title
  {
    if seen != [] {
      var rest, last := seen[..|seen| - 1], seen[|seen| - 1];
      TitleIsSeen(rest, title);
      assert forall i :: 0 <= i < |rest| ==> rest[i] == seen[i];
      if last.title == title {
        assert seen[|seen| - 1].title == title;
      }
    }
  }

  lemma {:induction false} LevelIsSeen(seen: seq<Sighting>, title: string, high: bool)
    ensures high in Levels(seen, title) <==> Sighting(title, high) in seen
  {
    if seen != [] {
      LevelIsSeen(seen[..|seen| - 1], title, high);
      assert seen == seen[..|seen| - 1] + [seen[|seen| - 1]];
    }
  }

  lemma TwoBools(s: set<bool>)
    ensures |s| > 1 <==> true in s && false in s
  {
    var t, f := if true in s then {true} else {}, if false in s then {false} else {};
    forall b ensures b in s <==> b in t + f {
      if b {
      } else {
      }
    }
    assert s == t + f;
  }

  /** A series is mixed exactly when it has been seen both high and low. */
  lemma MixedMeansBoth(seen: seq<Sighting>, title: string)
    ensures |Levels(seen, title)| > 1 <==> Sighting(title, true) in seen && Sighting(title, false) in seen
  {
    TwoBools(Levels(seen, title));
    LevelIsSeen(seen, title, true);
    LevelIsSeen(seen, title, false);
  }

  ghost function Total(seen: seq<Sighting>, titles: seq<string>): nat {
    if titles == [] then 0 else Total(seen, titles[..|titles| - 1]) + Count(seen, titles[|titles| - 1])
  }

  lemma {:induction false} TotalOneMore(seen: seq<Sighting>, s: Sighting, titles: seq<string>)
    requires NoDuplicates(titles)
    ensures Total(seen + [s], titles) == Total(seen, titles) + (if s.title in titles then 1 else 0)
  {
    if titles != [] {
      var rest, last := titles[..|titles| - 1], titles[|titles| - 1];
      assert titles == rest + [last] && last !in rest;
      TotalOneMore(seen, s, rest);
      SeenOneMore(seen, s, last);
    }
  }

  /** The file counts of all series add up to the number of sightings. */
  lemma {:induction false} CountsAddUp(seen: seq<Sighting>)
    ensures Total(seen, Titles(seen)) == |seen|
  {
    if seen != [] {
      var rest, last := seen[..|seen| - 1], seen[|seen| - 1];
      assert seen == rest + [last];
      CountsAddUp(rest);
      TitlesAreDistinct(rest);
      TotalOneMore(rest, last, Titles(rest));
      if last.title !in Titles(rest) {
        TitleIsSeen(rest, last.title);
        SeenOneMore(rest, last, last.title);
        assert Titles(seen)[..|Titles(rest)|] == Titles(rest);
      }
    }
  }
}
