# A verified model of AniVault's core

AniVault scans anime files, groups them into series, asks TMDB for metadata and moves the files
into place. This project models the parts of it that hold state, loop or do arithmetic, in Dafny 4.11,
and proves what they promise. `dafny verify dfyconfig.toml` checks everything.

Code that changes things step by step is imperative here too: classes with the source's fields, methods
with the source's loops, each proved against a specification function or relation, and lemmas that say what
that specification means. There are six parts.

1. **The ordered hash table.** `LinkedHashTable.dfy` lays bucket chains and a doubly linked order list over
   the same heap nodes. Its specification is the insertion-ordered dictionary of `OrderedDict.dfy`;
   `TableRuns.dfy` lifts it to whole runs and bounds the load. `Resolution.dfy` is a client that fills two
   tables in step, one of them with shared set objects, and is proved against the plain statistics of
   `Sightings.dfy`.
2. **Merging overlapping groups.** `UnionFind.dfy` and `WeightedMerge.dfy`: the merged groups are the finest
   partition of the file names that keeps every input group whole.
3. **Grouping by series.** `GroupNames.dfy`, `GroupBuckets.dfy`, `GroupMerging.dfy`, `CanonicalIds.dfy`,
   `TmdbMerging.dfy`, `TmdbMergeLaws.dfy`, `BuildGroups.dfy`, `MetadataUpdate.dfy`: dictionaries that are
   cleared, refilled and sometimes overwritten, what they keep and exactly when they lose something.
4. **The rate-limited request protocol.** `TokenBucket.dfy` and `RateLimitMachine.dfy` are the limiter and the
   circuit breaker. `RequestProtocol.dfy` is a transition system of any number of interleaved requests over
   them and the semaphore, `RequestSafety.dfy` what each step keeps, `RequestRuns.dfy` what every run keeps, and
   `TmdbClient.dfy` the client code of one request, proved to be a run of that system.
5. **The subtitle index.** `Lexicographic.dfy`, `SubtitleFilters.dfy`, `SubtitleIndex.dfy`, `SubtitleRuns.dfy`:
   three maps and a sorted key list that stay equal to plain filters of the files that are in.
6. **Moving files and cleaning up.** `FileOperations.dfy`, `Executor.dfy`, `BatchLaws.dfy`, `BatchUndo.dfy` over a file map, and
   `DirectoryTrees.dfy`, `DirectoryCleanup.dfy` over a directory tree.

Times, tokens, confidences and thresholds are reals. The hash function, path resolution, title normalisation, the
contents of files on disk, what the outside world refuses, API answers and clock readings are parameters.
Python dictionaries whose order matters are sequences of pairs; exceptions are results.

## Where the code falls short of what it is for

- Name merging (`grouper.py:200-238`) writes a lone group under its own name without looking whether an earlier
  merge has taken that name: the groups "A (1) (2)", "A (1) (3)" and "A (1)" lose files. `GroupMerging` proves that
  nothing is lost if and only if no lone group is named like the shared base of earlier ones, and that names whose base
  is its own base are safe.
- Merging by TMDB id (`build_groups_use_case.py:208-241`) may overwrite a group when a merged title is already a key.
  `TmdbMergeLaws` states exactly when, with three such groups, and `BuildGroups` that the catch-all group brings the lost files back.
- `execute` and its helpers promise `FileExistsError` (`executor.py:102`, `executor.py:393`), but an existing destination file is
  replaced. `FileOperations.ReplacesExactlyTheTarget` says, from the state before, exactly what will be lost.
- Moving a batch's files back in reverse order does not always restore them: a directory made by the batch may stand where a file
  was, and the file moves into it. `BatchUndo.UndoRestoresExactly` says exactly when it does.
- A hash table need not stay below its load factor, since growth by half is rounded down. `TableRuns.LoadStaysBelowExactly` says
  exactly which capacities and load factors do; the defaults do.
- A 429 without Retry-After doubles the old delay (`state_machine.py:91`), so a delay of zero stays zero.
  `RateLimitMachine.DelaysAreDueToRetryAfter` says exactly after which histories there is a delay.
- `handle_error(429)` would wait for a lock it holds (`state_machine.py:131-142`); the client never calls it so.
- A second `build_index` on the same index leaves the old metadata (`subtitle_index.py:93-95`), and a file
  that only the first build saw can then not be added; `SubtitleRuns.SecondBuildShutsOut`.
- The comment at `main.py:323-327` expects several passes; one bottom-up pass already removes everything that goes.
- `__contains__` (`linked_hash_table.py:312-314`) denies keys stored with None.
- Namesakes in different directories are one file to the weighted merge (`strategies.py:248-254`);
  `WeightedMerge.FilesSurviveExactlyWithoutNamesakes`.

## Model

| member | source | states |
|---|---|---|
| `UnionFinds.UnionFind.Find` | src/anivault/core/file_grouper/strategies.py:25-28 | terminates on every reachable parent map, returns the element's representative, and compression redirects links without changing any representative |
| `UnionFinds.UnionFind.Union` | src/anivault/core/file_grouper/strategies.py:30-33 | merges exactly the two classes named and leaves all others alone |
| `UnionFinds.UnionFind.constructor` | src/anivault/core/file_grouper/strategies.py:22-23 | every element starts as its own representative |
| `UnionFinds.RepresentativeIsWhereClimbingStops` | src/anivault/core/file_grouper/strategies.py:25-28 | the representative is where following parent links ends, after any sufficient number of steps |
| `WeightedMerge.ConnectedIsEquivalence` | src/anivault/core/file_grouper/strategies.py:174-194 | being joined by a chain of overlapping groups is reflexive, symmetric and transitive on the grouped names |
| `WeightedMerge.RepresentativesAreTheClosure` | src/anivault/core/file_grouper/strategies.py:174-194 | where every input group has one representative and no union lacked a chain, two names have one representative if and only if a chain of overlapping groups joins them |
| `WeightedMerge.BuildFileToGroups` | src/anivault/core/file_grouper/strategies.py:159-171 | the index lists for each name exactly the matcher groups that hold it, in order, and its keys are the names in order of first appearance |
| `WeightedMerge.ConnectOverlappingFiles` | src/anivault/core/file_grouper/strategies.py:173-195 | the loop with its set of seen groups leaves names connected exactly as the closure says |
| `WeightedMerge.BuildComponents` | src/anivault/core/file_grouper/strategies.py:196-214 | one component for each representative, with all its names and all groups that touch it, in the order in which its names list them |
| `WeightedMerge.CreateMergedGroup` | src/anivault/core/file_grouper/strategies.py:233-266 | the first file of each name of the component, under the first title of greatest weight |
| `WeightedMerge.MergeOverlappingGroups` | src/anivault/core/file_grouper/strategies.py:145-266 | merged groups partition the names of all matcher groups and put two names together if and only if overlapping groups chain them; each holds the first input file of each of its names and the first title of greatest weight, its groups counted once and in the order in which its names list them |
| `WeightedMerge.HeaviestTitleWins` | src/anivault/core/file_grouper/strategies.py:256-264 | a title names the merged group if and only if the weights of the matchers that carry it add up to more than those of any other title, or to as much as those of a title that comes up later |
| `WeightedMerge.HeavierMatcherNamesTheGroup` | src/anivault/core/file_grouper/strategies.py:256-264 | of two overlapping groups with different titles the one of the heavier matcher names the merged group; a matcher without a weight weighs nothing |
| `WeightedMerge.MergeTwoMatchers` | src/anivault/core/file_grouper/strategies.py:145-266 | a file in group B by hash and group A by title ends up in one group A, with the default weights |
| `WeightedMerge.InputGroupsStayWhole` | src/anivault/core/file_grouper/strategies.py:145-232 | each non-empty input group lies wholly inside one merged group and meets no other |
| `WeightedMerge.MergedPartitionIsFinest` | src/anivault/core/file_grouper/strategies.py:145-232 | any partition that keeps the input groups whole is at most as fine |
| `WeightedMerge.NamesakesCollapse` | src/anivault/core/file_grouper/strategies.py:248-254 | of two files with one name at most one survives |
| `WeightedMerge.FilesSurviveExactlyWithoutNamesakes` | src/anivault/core/file_grouper/strategies.py:145-266 | every input file survives the merge if and only if no two different input files share a bare name |
| `WeightedMerge.SecondDirectoryIsLost` | src/anivault/core/file_grouper/strategies.py:233-266 | episode 1 of two seasons in two directories: only the first is left |
| `LinkedHashTables.LinkedHashTable.constructor` | src/anivault/core/data_structures/linked_hash_table.py:96-118 | an empty table of the given capacity and load factor |
| `LinkedHashTables.LinkedHashTable.Put` | src/anivault/core/data_structures/linked_hash_table.py:158-204 | updates in place or appends, returns the previous value, keeps chains and order list well formed, and grows exactly when the load factor is reached |
| `LinkedHashTables.LinkedHashTable.Get` | src/anivault/core/data_structures/linked_hash_table.py:206-223 | the value the ordered dictionary has for the key, or None |
| `LinkedHashTables.LinkedHashTable.Remove` | src/anivault/core/data_structures/linked_hash_table.py:225-268 | unlinks the node from its chain and from the order list, and returns its value |
| `LinkedHashTables.LinkedHashTable.Rehash` | src/anivault/core/data_structures/linked_hash_table.py:270-287 | capacity grows to floor(1.5 * capacity), and every node is in its new chain, with order list and values untouched |
| `LinkedHashTables.LinkedHashTable.Clear` | src/anivault/core/data_structures/linked_hash_table.py:289-294 | empties the table and keeps its capacity |
| `LinkedHashTables.LinkedHashTable.Items` | src/anivault/core/data_structures/linked_hash_table.py:296-306 | iteration yields all pairs in insertion order |
| `LinkedHashTables.LinkedHashTable.Contains` | src/anivault/core/data_structures/linked_hash_table.py:312-314 | true exactly for present keys whose value is not None |
| `OrderedDicts.PutIsUpdate` | src/anivault/core/data_structures/linked_hash_table.py:158-204 | put is a map update that keeps the position of a present key and appends an absent one |
| `OrderedDicts.RemoveIsRestriction` | src/anivault/core/data_structures/linked_hash_table.py:225-268 | remove is map restriction and keeps keys distinct |
| `TableRuns.Run` | src/anivault/core/data_structures/linked_hash_table.py:158-306 | any sequence of operations gives the contents and the answers of the insertion-ordered dictionary, and the predicted capacity |
| `TableRuns.RunsActOnTheMap` | src/anivault/core/data_structures/linked_hash_table.py:158-294 | any sequence of operations acts on the denoted map as on a plain map and keeps keys distinct |
| `TableRuns.RunsKeepLoad` | src/anivault/core/data_structures/linked_hash_table.py:198-202 | from any state with size below capacity times load factor, if half the capacity, rounded down, times the load factor is at least 1, no run leaves size at or above capacity times load factor |
| `TableRuns.DefaultsKeepLoad` | src/anivault/core/data_structures/linked_hash_table.py:96-118 | the default capacity and load factor meet that bound for every run |
| `TableRuns.LoadStaysBelowExactly` | src/anivault/core/data_structures/linked_hash_table.py:198-287 | no run from the empty table ever leaves size at or above capacity times load factor if and only if n insertions alone do not, for any n |
| `TableRuns.FewInsertionsDecide` | src/anivault/core/data_structures/linked_hash_table.py:198-287 | only the insertions up to the first growth step worth an entry have to be looked at |
| `TableRuns.TwoBucketsKeepLoad` | src/anivault/core/data_structures/linked_hash_table.py:198-287 | capacity 2 with load factor 0.9 meets the bound for every run |
| `TableRuns.TwoInsertionsOverload` | src/anivault/core/data_structures/linked_hash_table.py:198-287 | capacity 2 with load factor 0.5 does not: two insertions give four buckets and break it |
| `TableRuns.OneBucketOverloads` | src/anivault/core/data_structures/linked_hash_table.py:270-287 | one bucket stays one bucket, and its first entry breaks the bound |
| `Resolutions.Tally` | src/anivault/core/organizer/resolution.py:151-170 | the two tables have the same titles in order of first appearance, one holding shared sets with each title's levels, the other each title's count |
| `Resolutions.CountDictIsRight` | src/anivault/core/organizer/resolution.py:165-170 | counting one sighting after the other gives every title its number of sightings |
| `Resolutions.AnalyzeSeries` | src/anivault/core/organizer/resolution.py:114-188 | one summary for each title in order of appearance, or failure exactly if a file counts for the empty title; each summary has the number of files that count for the title and the levels they have, and is mixed if they have both |
| `Resolutions.AnalyzeTwoFiles` | src/anivault/core/organizer/resolution.py:114-188 | two files matched to Frieren in 1080p and 480p, one of them named otherwise: one mixed summary of two files under the matched title |
| `Sightings.CountIsOfFiles` | src/anivault/core/organizer/resolution.py:190-241 | a title is counted once for each file matched to it, or unmatched and named so, whose quality or name tells the resolution |
| `Sightings.LevelsAreOfFiles` | src/anivault/core/organizer/resolution.py:190-241 | a title has a level if and only if such a file has it; the quality of a matched file settles its level whatever its name says |
| `Sightings.MatchedFilesKeepTheirTitle` | src/anivault/core/organizer/resolution.py:205-228 | matched files never count for any title but that of their match |
| `Sightings.MixedMeansBoth` | src/anivault/core/organizer/resolution.py:172-183 | a series is mixed if and only if it has been seen both high and low |
| `Sightings.CountsAddUp` | src/anivault/core/organizer/resolution.py:165-183 | file counts add up to the number of resolved files |
| `Sightings.TitleIsSeen` | src/anivault/core/organizer/resolution.py:155-170 | a title is listed exactly if some resolved file has it, and then its levels and count are not empty |
| `GroupNames.EnsureUniqueGroupName` | src/anivault/core/file_grouper/grouper.py:186-198 | returns an unused name after at most one more try than there are names |
| `GroupNames.FirstUnusedIsUnused` | src/anivault/core/file_grouper/grouper.py:186-198 | the name found is unused and all earlier candidates are taken |
| `GroupNames.SuffixesDiffer` | src/anivault/core/file_grouper/grouper.py:186-198 | different counters give different candidates, since decimal notation is injective |
| `GroupNames.SuffixedHasBase` | src/anivault/core/file_grouper/grouper.py:200-238 | adding a numbered suffix and taking the base name gives the name back |
| `GroupNames.OwnBaseExactly` | src/anivault/core/file_grouper/grouper.py:213-219 | a name has a base other than itself if and only if it is a stem that does not end in white space, white space, and a number in parentheses, and then the stem is the base |
| `GroupNames.SomeBases` | src/anivault/core/file_grouper/grouper.py:213-219 | "Frieren (OVA)" is its own base, and an ideographic space before a number is white space |
| `GroupNames.DecimalHasItsValue` | src/anivault/core/file_grouper/grouper.py:186-198 | counters are written as decimal numerals of their value |
| `GroupMerging.MergeSimilarGroupNames` | src/anivault/core/file_grouper/grouper.py:200-238 | bucketing by base name and writing the buckets one after the other |
| `GroupMerging.MergingConservesExactlyUnlessClobbered` | src/anivault/core/file_grouper/grouper.py:200-238 | the merged groups hold the same files if and only if no lone group is named like a base under which earlier groups with files were merged |
| `GroupMerging.IdempotentBasesConserve` | src/anivault/core/file_grouper/grouper.py:200-238 | where base names are their own bases, every file is kept and there is one group for each base |
| `GroupMerging.DoublyNumberedGroupsAreLost` | src/anivault/core/file_grouper/grouper.py:200-238 | three concrete names for which files are lost |
| `CanonicalIds.CanonicalId` | src/anivault/application/use_cases/build_groups_use_case.py:176-182 | the id of a group, or none if no file has one |
| `CanonicalIds.CanonicalWins` | src/anivault/application/use_cases/build_groups_use_case.py:181-181 | it is a most common id, and of those the first seen |
| `CanonicalIds.MostVotedWins` | src/anivault/application/use_cases/build_groups_use_case.py:176-182 | over the files: the id is that of the first file to bring it up, no id has more files, and none that comes up earlier has as many |
| `CanonicalIds.WinnersAgree` | src/anivault/application/use_cases/build_groups_use_case.py:181-181 | at most one id is that |
| `CanonicalIds.MergedGroupKeepsItsId` | src/anivault/application/use_cases/build_groups_use_case.py:208-226 | a merged group still has the id of its bucket |
| `TmdbMerging.SeriesGroups.CollectTmdbBuckets` | src/anivault/application/use_cases/build_groups_use_case.py:167-187 | groups with an id go to buckets in order, the others stay |
| `TmdbMerging.BestTitleForMerge` | src/anivault/application/use_cases/build_groups_use_case.py:190-205 | the first of the most confident usable titles, else the first member's name |
| `TmdbMerging.SurestTitleNamesTheGroup` | src/anivault/application/use_cases/build_groups_use_case.py:190-205 | the merged group is called by the title of the first of its most confident files of that id whose title is not empty and not their file name |
| `TmdbMerging.FirstMemberNamesTheRest` | src/anivault/application/use_cases/build_groups_use_case.py:205-205 | without such a file by the name of its first member |
| `TmdbMerging.SeriesGroups.ApplyMergedGroup` | src/anivault/application/use_cases/build_groups_use_case.py:208-225 | all members' files under the merged title, replacing what was there |
| `TmdbMerging.SeriesGroups.MergeGroupsByTmdbId` | src/anivault/application/use_cases/build_groups_use_case.py:228-241 | clears and refills the dictionary with the unidentified groups and then each bucket |
| `TmdbMergeLaws.MergingInventsNothing` | src/anivault/application/use_cases/build_groups_use_case.py:228-241 | no file appears more often than before |
| `TmdbMergeLaws.MergingConservesExactlyUnlessKeysClash` | src/anivault/application/use_cases/build_groups_use_case.py:208-241 | all files are kept if and only if no bucket is written under a key that holds files |
| `TmdbMergeLaws.UnmatchedNamesakeIsLost` | src/anivault/application/use_cases/build_groups_use_case.py:208-241 | three concrete groups whose keys clash: the merged group takes the place of an unidentified one, whose file is lost |
| `TmdbMergeLaws.MergedGroupsHaveUniqueIds` | src/anivault/application/use_cases/build_groups_use_case.py:228-241 | afterwards no two groups share an id |
| `TmdbMergeLaws.MergingIsIdempotent` | src/anivault/application/use_cases/build_groups_use_case.py:228-241 | a second merge gives the same map, at most reordered, and a third changes nothing |
| `BuildGroups.FileGroupsToSeriesGroups` | src/anivault/application/use_cases/build_groups_use_case.py:244-258 | each series name gets the known files of all groups that normalise to it |
| `BuildGroups.SeriesFollowTheTitles` | src/anivault/application/use_cases/build_groups_use_case.py:244-258 | a series name has, in order, the known files of exactly the groups whose titles normalise to it |
| `BuildGroups.FoundExactly` | src/anivault/application/use_cases/build_groups_use_case.py:251-251 | with distinct paths a file is found under some paths if and only if one of them leads to it |
| `BuildGroups.TheLastFileIsKnown` | src/anivault/application/use_cases/build_groups_use_case.py:313-313 | of several files with one resolved path the last one is known |
| `BuildGroups.Execute` | src/anivault/application/use_cases/build_groups_use_case.py:293-330 | the displayed groups are numbered from 1 on, differently named and not empty, and from disjoint groups of files with distinct paths every file is displayed exactly once |
| `BuildGroups.DisplayThreeFiles` | src/anivault/application/use_cases/build_groups_use_case.py:293-330 | three files from three groups: the merged series X with two of them, and the third under the catch-all name |
| `BuildGroups.CatchAllCompletes` | src/anivault/application/use_cases/build_groups_use_case.py:323-328 | whatever part of the files has survived, the catch-all makes it all of them |
| `BuildGroups.CatchAllExtends` | src/anivault/application/use_cases/build_groups_use_case.py:323-328 | the catch-all group keeps what it has and is extended by the ungrouped files in order; other groups stay |
| `BuildGroups.CatchAllSavesTheUnmatched` | src/anivault/application/use_cases/build_groups_use_case.py:323-328 | the catch-all group brings that file back |
| `BuildGroups.EveryFileIsGroupedOnce` | src/anivault/application/use_cases/build_groups_use_case.py:293-330 | with distinct paths and disjoint groups every file is in the result exactly once, even where merged titles overwrite groups |
| `MetadataUpdates.NeedsMergeByTmdbId` | src/anivault/application/use_cases/build_groups_use_case.py:261-287 | the table of each id's groups finds exactly whether two groups would share an id |
| `MetadataUpdates.ApplyMetadataUpdate` | src/anivault/application/use_cases/build_groups_use_case.py:332-373 | the fast path is taken exactly when paths agree, are distinct and no two groups would share an id |
| `MetadataUpdates.FastPathExactly` | src/anivault/application/use_cases/build_groups_use_case.py:351-362 | said of the files: the fast path is taken if and only if there are groups and files, no two files share a path, the groups show exactly the paths of the files, and no two groups would show files of one id |
| `MetadataUpdates.UpdatesKeepEveryFile` | src/anivault/application/use_cases/build_groups_use_case.py:351-373 | then every new file is in the updated groups exactly once, if no path was grouped twice |
| `MetadataUpdates.UpdatesKeepStructure` | src/anivault/application/use_cases/build_groups_use_case.py:364-371 | then each group keeps its files in order, with the new metadata |
| `MetadataUpdates.UpdatesShareNoId` | src/anivault/application/use_cases/build_groups_use_case.py:361-371 | then no two updated groups share an id |
| `MetadataUpdates.SizeMeansDistinct` | src/anivault/application/use_cases/build_groups_use_case.py:351-359 | the size test on the path map is exactly distinctness of the resolved paths |
| `TokenBucket.TokenBucketRateLimiter.Refill` | src/anivault/infrastructure/rate_limiter.py:95-136 | adds what accrued, capped, and moves the refill time only if something accrued |
| `TokenBucket.TokenBucketRateLimiter.TryAcquire` | src/anivault/infrastructure/rate_limiter.py:163-200 | rejects bad amounts; grants exactly if that many tokens are there or have accrued at the rate, and then takes exactly that many of the capped sum |
| `TokenBucket.GrantedExactly` | src/anivault/infrastructure/rate_limiter.py:163-200 | in any run a use hands out what it asks for if and only if it asks for 1 to capacity tokens and that many are there or have accrued |
| `TokenBucket.TokensAreConserved` | src/anivault/infrastructure/rate_limiter.py:95-200 | while no refill is cut off by the capacity, tokens granted and tokens left are those at the start plus rate times the advance of the refill time |
| `TokenBucket.BurstsAreGrantedUpToCapacity` | src/anivault/infrastructure/rate_limiter.py:163-200 | of n requests for one token at one reading a full bucket grants exactly the first capacity many |
| `TokenBucket.TokenBucketRateLimiter.GetTokensAvailable` | src/anivault/infrastructure/rate_limiter.py:251-254 | whole tokens after a refill, never more than the capacity |
| `TokenBucket.TokenBucketRateLimiter.Reset` | src/anivault/infrastructure/rate_limiter.py:289-291 | a full bucket from now on |
| `TokenBucket.GrantsAreBoundedUnderAnyClock` | src/anivault/infrastructure/rate_limiter.py:114-121 | without resets and under any clock at all, tokens stay in range and grants are at most capacity plus rate times the advance of the refill time |
| `TokenBucket.GrantsAreBoundedWithResets` | src/anivault/infrastructure/rate_limiter.py:178-200 | with k resets and a clock that does not go back, grants are at most (1 + k) * capacity plus rate times elapsed time |
| `RateLimitMachine.RateLimitStateMachine.Handle429` | src/anivault/infrastructure/state_machine.py:72-97 | records the error, throttles with the capped Retry-After, or with twice the old delay up to a minute |
| `RateLimitMachine.Every429Throttles` | src/anivault/infrastructure/state_machine.py:72-97 | after any history at all, cache-only mode included, a 429 throttles |
| `RateLimitMachine.ThrottledExactly` | src/anivault/infrastructure/state_machine.py:72-142 | the machine throttles if and only if there has been a 429 since the last reset and, since the last one, neither an error that trips the breaker nor a success after the delay it asked for |
| `RateLimitMachine.CacheOnlyExactly` | src/anivault/infrastructure/state_machine.py:72-142 | it is in cache-only mode if and only if an error has tripped the breaker with neither a 429 nor a reset since |
| `RateLimitMachine.RequestsWaitOutThe429` | src/anivault/infrastructure/state_machine.py:144-173 | while it throttles, requests have to wait exactly for the delay that the last 429 asked for, counted from that 429 |
| `RateLimitMachine.RequestsAreAllowedExactly` | src/anivault/infrastructure/state_machine.py:144-160 | over any history a request is allowed if and only if the breaker has not tripped and no 429 has its delay running |
| `RateLimitMachine.AMinuteAfterThe429` | src/anivault/infrastructure/state_machine.py:72-173 | Retry-After 60 at second 1000, the first event of all: requests wait until 1060 |
| `RateLimitMachine.RateLimitStateMachine.HandleSuccess` | src/anivault/infrastructure/state_machine.py:99-120 | leaves throttling only after the delay |
| `RateLimitMachine.RateLimitStateMachine.HandleError` | src/anivault/infrastructure/state_machine.py:122-142 | trips on the error rate, and would block exactly for an untripped 429 |
| `RateLimitMachine.RateLimitStateMachine.CleanOldTimestamps` | src/anivault/infrastructure/state_machine.py:187-198 | pops both queues from the front |
| `RateLimitMachine.RateLimitStateMachine.GetStats` | src/anivault/infrastructure/state_machine.py:220-250 | counts by filtering the queues, the error share that decides whether the breaker trips, and the recommended delay |
| `RateLimitMachine.PoppingIsFiltering` | src/anivault/infrastructure/state_machine.py:187-198 | popping the front of an ascending queue is filtering it |
| `RateLimitMachine.QueuesAreWindowed` | src/anivault/infrastructure/state_machine.py:187-198 | with a clock that does not go back the queues are exactly the events since the last reset that lie in the window |
| `RateLimitMachine.RecentIsTheWindow` | src/anivault/infrastructure/state_machine.py:187-198 | a time is in the window if and only if it is no older than the window is long |
| `RateLimitMachine.TimesAreOfEvents` | src/anivault/infrastructure/state_machine.py:72-142 | the recorded errors are the 429s and the other errors since the last reset, the recorded successes the successes |
| `RateLimitMachine.StatsCountTheHistory` | src/anivault/infrastructure/state_machine.py:220-250 | the reported counts are those of the whole history filtered by the window |
| `RateLimitMachine.BreakerTripsExactly` | src/anivault/infrastructure/state_machine.py:122-142 | an error trips the breaker if and only if the windowed history holds ten events or more with the error share at the threshold |
| `RateLimitMachine.ModesAndDelaysStayInBounds` | src/anivault/infrastructure/state_machine.py:72-120 | the sleeping mode is never entered and the delay stays between 0 and max(60, the cap) |
| `RateLimitMachine.ModeChangesAreDueTo` | src/anivault/infrastructure/state_machine.py:72-142 | which event alone can cause each change of mode |
| `RateLimitMachine.RequestsAreAllowedExactlyWithoutDelay` | src/anivault/infrastructure/state_machine.py:144-173 | at one reading a request is allowed if and only if the mode is not cache-only and the recommended delay is zero |
| `RateLimitMachine.WithoutRetryAfterNothingIsDelayed` | src/anivault/infrastructure/state_machine.py:82-91 | if no 429 carries Retry-After the delay stays zero for ever |
| `RateLimitMachine.DelaysAreDueToRetryAfter` | src/anivault/infrastructure/state_machine.py:72-120 | there is a delay if and only if some 429 brought a positive Retry-After, and since then there has been no reset, no 429 with one that is not positive, and no success that ended throttling |
| `RateLimitMachine.TheLast429IsRemembered` | src/anivault/infrastructure/state_machine.py:72-97 | over any history the machine has the time of the last 429 since the last reset, and while throttled the delay that this 429 asked for |
| `RateLimitMachine.ThrottlingEndsExactly` | src/anivault/infrastructure/state_machine.py:99-120 | an event ends throttling if and only if it is a reset, or a success no earlier after the last 429 of the history than the delay that one asked for |
| `RequestRuns.RunsKeepInv` | src/anivault/infrastructure/tmdb/tmdb_client.py:331-501 | every interleaving of any number of requests keeps the invariant of slots, requests, breaker, bucket and records |
| `RequestRuns.SlotsAreConserved` | src/anivault/infrastructure/semaphore_manager.py:301-380 | free slots plus requests inside equal the limit; a request enters at most once and releases exactly if it entered |
| `RequestRuns.ConcurrentCallsAreLimited` | src/anivault/infrastructure/tmdb/tmdb_client.py:353-360 | calls under way never outnumber the slots |
| `RequestRuns.RequestsAreMetered` | src/anivault/infrastructure/tmdb/tmdb_client.py:391-433 | one token and at most retry_attempts + 1 calls per request, and one breaker event for each call that succeeded or ended in an API error |
| `RequestRuns.HandleErrorNeverSees429` | src/anivault/infrastructure/tmdb/tmdb_client.py:466-501 | in no run is handle_error called with 429, and the breaker is in the state its events give |
| `RequestRuns.BackoffIsExponential` | src/anivault/infrastructure/tmdb/tmdb_client.py:460-464 | after k backoffs a request has slept retry_delay * (2^k - 1) in them, and one that made every call has backed off retry_attempts times |
| `RequestRuns.RetriesTakeTime` | src/anivault/infrastructure/tmdb/tmdb_client.py:460-464 | however requests interleave, the k-th retry of a request begins no sooner than retry_delay * (2^k - 1) after the start |
| `RequestRuns.SleepEndsWhenAllowed` | src/anivault/infrastructure/tmdb/tmdb_client.py:386-389 | a request that asks for the delay sleeps until the first moment at which the breaker, as it then is, allows a request |
| `RequestRuns.NobodyWakesEarly` | src/anivault/infrastructure/tmdb/tmdb_client.py:386-464 | a sleeping request goes on no sooner than its sleep is over, unless it is cancelled |
| `RequestRuns.ApiCallsAreBounded` | src/anivault/infrastructure/tmdb/tmdb_client.py:391-433 | over a whole run the API calls are at most retry_attempts + 1 for each token, and tokens at most (1 + resets) * capacity plus rate times elapsed time |
| `TmdbClients.TmdbClient.CheckRequestPermissibility` | src/anivault/infrastructure/tmdb/tmdb_client.py:362-389 | refuses exactly in cache-only mode, else waits for exactly the recommended delay, after which the breaker allows the request |
| `TmdbClients.TmdbClient.ApplyRateLimiting` | src/anivault/infrastructure/tmdb/tmdb_client.py:391-397 | the polling loop ends with exactly one token taken |
| `TmdbClients.PausingHelps` | src/anivault/infrastructure/tmdb/tmdb_client.py:396-397 | each pause brings a token or comes one whole pause nearer to it |
| `TmdbClients.TmdbClient.ProcessErrorResponse` | src/anivault/infrastructure/tmdb/tmdb_client.py:466-501 | 429 is recorded, the delay it asks for is waited out, no sooner after it than Retry-After up to the cap, and the bucket is full then and the breaker open to the next call; everything else is recorded by handle_error without blocking, without a wait and without touching the bucket |
| `TmdbClients.TmdbClient.HandleTmdbException` | src/anivault/infrastructure/tmdb/tmdb_client.py:435-464 | after each failed attempt but the last the request backs off |
| `TmdbClients.TmdbClient.ExecuteWithRetry` | src/anivault/infrastructure/tmdb/tmdb_client.py:399-433 | the result is that of the first call not to end in an API error, with exactly the calls, events and backoff that implies |
| `TmdbClients.TmdbClient.MakeRequest` | src/anivault/infrastructure/tmdb/tmdb_client.py:331-360 | refused exactly in cache-only mode or without a slot; otherwise the calls decide, and the slot is given back |
| `TmdbClients.ExhaustionTakesEveryCall` | src/anivault/infrastructure/tmdb/tmdb_client.py:416-433 | retries are exhausted if and only if every call ends in an API error, and then all are made |
| `TmdbClients.FirstOtherAnswerDecides` | src/anivault/infrastructure/tmdb/tmdb_client.py:416-433 | the first call not to end in an API error is the last one made; its response is returned, its other error raised |
| `TmdbClients.ClientsRunTheProtocol` | src/anivault/infrastructure/tmdb/tmdb_client.py:331-501 | what the client code does is a run of the request protocol |
| `Lexicographic.BisectLeft` | src/anivault/core/subtitle_index.py:132-132 | the insertion point: all smaller keys before it, none after |
| `Lexicographic.LessIsAlphabetical` | src/anivault/core/subtitle_index.py:132-169 | strings are ordered by the first character in which they differ, smaller characters and ends first |
| `Lexicographic.Insort` | src/anivault/core/subtitle_index.py:168-169 | inserting a new key keeps the list strictly sorted |
| `Lexicographic.PrefixRunIsContiguous` | src/anivault/core/subtitle_index.py:132-140 | the keys with a prefix form one run that begins at the insertion point |
| `SubtitleIndexes.SubtitleIndex.IndexSingleFile` | src/anivault/core/subtitle_index.py:69-89 | adds a readable file once to its groups, and changes nothing for an unreadable one |
| `SubtitleIndexes.SubtitleIndex.BuildIndex` | src/anivault/core/subtitle_index.py:91-117 | the lookups hold exactly the files that can be read, in order; files of earlier builds stay known |
| `SubtitleIndexes.SubtitleIndex.GetByHash` | src/anivault/core/subtitle_index.py:119-121 | the plain filter of the indexed files by hash |
| `SubtitleIndexes.SubtitleIndex.GetByName` | src/anivault/core/subtitle_index.py:123-125 | the plain filter by normalised name; nothing for the empty name |
| `SubtitleIndexes.SubtitleIndex.GetByNamePrefix` | src/anivault/core/subtitle_index.py:127-142 | bisection and early stop give the lists of all keys with the prefix in key order; nothing for the empty prefix |
| `SubtitleIndexes.SubtitleIndex.AddFile` | src/anivault/core/subtitle_index.py:144-179 | an unknown readable file joins at the end; all four fields stay consistent |
| `SubtitleIndexes.SubtitleIndex.RemoveFile` | src/anivault/core/subtitle_index.py:181-205 | the file leaves all four fields, and empty groups and their keys go |
| `SubtitleFilters.IndexIsUnique` | src/anivault/core/subtitle_index.py:33-38 | the list of indexed files determines every field of the index |
| `SubtitleFilters.PrefixLookupFindsTheNames` | src/anivault/core/subtitle_index.py:127-142 | prefix lookup finds a file if and only if it is indexed and its normalised name has the prefix |
| `SubtitleFilters.PrefixLookupFindsOnce` | src/anivault/core/subtitle_index.py:127-142 | no file is found twice |
| `SubtitleFilters.PrefixLookupIsInOrder` | src/anivault/core/subtitle_index.py:127-142 | files are found in the order of their names |
| `SubtitleRuns.ChangingIsRebuilding` | src/anivault/core/subtitle_index.py:91-205 | a build and any adds and removes end in the index of one build over the survivors |
| `SubtitleRuns.CompareWithRebuild` | src/anivault/core/subtitle_index.py:91-205 | the same for two index objects, field by field |
| `SubtitleRuns.AddAndRemove` | src/anivault/core/subtitle_index.py:144-205 | adding an absent file and removing it restores all fields |
| `SubtitleRuns.SecondBuildShutsOut` | src/anivault/core/subtitle_index.py:91-157 | after a second build a file that only the first saw cannot be added |
| `FileOperations.MakeDirs` | src/anivault/core/organizer/executor.py:354-373 | makes only missing directories on the way down, never over a file, and succeeds exactly if the directory is then there |
| `FileOperations.MakesWhatItCan` | src/anivault/core/organizer/executor.py:354-373 | also where it stops half-way, what is there afterwards is what was there and exactly the directories on the way that can be made |
| `FileOperations.ReplacesExactlyTheTarget` | src/anivault/core/organizer/executor.py:375-431 | told from the state before: a path loses its content if and only if the operation will succeed and the path is its target, another file with other content; after success the target holds the source's content |
| `FileOperations.ExecutionSucceedsExactly` | src/anivault/core/organizer/executor.py:301-431 | an operation succeeds if and only if its source is a file, no file stands on the way to its directory, ".." is not in its destination, the missing directories can be made and the transfer is not refused |
| `FileOperations.FreshPlaceIsReached` | src/anivault/core/organizer/executor.py:354-431 | to a fresh destination with nothing in the way a move takes the file, a copy leaves it in both places, all other files stay, and exactly the directories on the way are added |
| `FileOperations.ExecutionStaysConsistent` | src/anivault/core/organizer/executor.py:77-147 | an operation leaves a proper file system: everything in a directory, nothing both file and directory |
| `Executors.FileOperationExecutor.PerformOperation` | src/anivault/core/organizer/executor.py:375-431 | moves or copies, into the destination if that is a directory, or changes nothing |
| `Executors.FileOperationExecutor.Execute` | src/anivault/core/organizer/executor.py:77-147 | the outcome and the new state do not depend on the cache of created directories |
| `Executors.FileOperationExecutor.ExecuteBatch` | src/anivault/core/organizer/executor.py:149-235 | one outcome per operation in order, errors not stopping the batch |
| `Executors.FileOperationExecutor.ExecuteUncached` | src/anivault/core/organizer/executor.py:122-132 | without the cache: the same state and outcomes |
| `BatchLaws.BatchesConserveFiles` | src/anivault/core/organizer/executor.py:149-235 | with distinct sources and fresh, separate destinations each file is where its outcome says with its content, and all else is untouched |
| `BatchUndo.EveryOperationIsTried` | src/anivault/core/organizer/executor.py:149-235 | each operation of a batch succeeds if and only if it is allowed in the state those before it have left, whatever became of them |
| `BatchUndo.UndoRestoresExactly` | src/anivault/core/organizer/executor.py:399-407 | executing the successful moves backwards after a batch restores every file, copies apart, if and only if no source has become a directory, none has ".." in it and no move back is refused |
| `BatchUndo.UndoRestoresFiles` | src/anivault/core/organizer/executor.py:399-407 | for a batch of moves: that is so if no source is at or above the directory of another's destination |
| `BatchUndo.UndoCanMissTheOldPlace` | src/anivault/core/organizer/executor.py:399-407 | a batch of two moves whose undo reports two successes and leaves a file in the wrong place |
| `BatchLaws.DryRunsChangeNothing` | src/anivault/core/organizer/executor.py:113-121 | a dry run changes nothing and reports exactly the failed checks |
| `BatchLaws.SharedDestinationLosesAFile` | src/anivault/core/organizer/executor.py:399-407 | two moves to one destination both succeed and the first file is lost |
| `DirectoryCleanup.DirectoryTree.TryRemoveEmptyDir` | src/anivault/core/organizer/main.py:294-305 | removes a directory exactly if it is there, empty and not refused |
| `DirectoryTrees.RemovableExactly` | src/anivault/core/organizer/main.py:294-317 | what a pass removes, path by path: not the root, no file below, nothing unlistable at, above or below it, and nothing at or below it that refuses to go |
| `DirectoryCleanup.DirectoryTree.RemoveEmptyDirsOnePass` | src/anivault/core/organizer/main.py:307-317 | one bottom-up pass removes exactly the non-root directories that the walk comes to, without a file below and without a directory below that refuses or cannot be listed, and counts them; what is under a directory that cannot be listed stays |
| `DirectoryCleanup.PassesAreIdempotent` | src/anivault/core/organizer/main.py:319-345 | with the same obstacles a second pass finds nothing |
| `DirectoryCleanup.DirectoryTree.RemoveEmptyLeafDirs` | src/anivault/core/organizer/main.py:319-345 | whatever cannot be listed or refuses to go, only directories without files go and the total counts them; with steady obstacles the loop ends within two passes |

## Left out

- MergeOverlappingGroups: evidence and the final sort by confidence, which only reorder and annotate the groups.
- IdentitiesConsistent: that one group identity means one group is a precondition of the merge, as Python's `id` gives it.
- The other grouping strategies, the matchers and their scores: their results are the inputs here.
- Display fields of a group (title, season, episodes, confidence, resolution, language).
- Two groups with one title entering name normalisation collapse before merging (`grouper.py:500`); names are distinct keys here.
- BaseName: names with line feeds, and digits outside ASCII.
- MakeRequest: no other request runs in between; interleavings are those of `RequestProtocol`.
- ConcurrentCallsAreLimited: is about awaited calls; a request cancelled while its call runs in a thread gives its slot back, and the thread goes on.
- The event loop that a blocking semaphore acquire would stall; a waiting request is one that enters or times out.
- ResetBucket and ResetMachine happen at any time in the protocol, as the client's reset does; who calls it is not modelled.
- Retry-After parsing beyond a number of seconds or nothing; negative values are excluded only where delays are bounded.
- Float rounding: reals throughout.
- LinkedHashTable's hash: any function of the key, reduced modulo the capacity.
- The patterns that find a resolution or a title in a file name: what they find is an input.
- Title and subtitle name normalisation, path resolution and content hashing: functions of their argument.
- The per-directory cache of subtitle indexes.
- Transfers that stop half-way, as a move between devices can; an operation here happens or does not.
- Operation logging, subtitle matching and destination path templates.
- UndoRestoresFiles: is about the file map; directories made by the batch stay, and the exact condition is that of UndoRestoresExactly.
- Symbolic links: a link is a file to the directory cleanup.
- SQLite cache, keyring, encryption, settings, GUI and command line: input and output or library wrappers.
