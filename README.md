# Challenger tracker: daily reconciliation and season rollover

This project models the data-keeping core of a daily Challenger-league tracker (`update.py`).
Each day, for every configured platform region, the tracker fetches the ordered Challenger
leaderboard and merges it into the region's stored player records:

- tenure (`daysInChallenger`), the activity streak, the rank history, and the overall and public
  average ranks;
- every player missing from the day's snapshot is marked inactive;
- the region's list is re-ranked by tenure and saved.

Before the daily update, a season monitor checks three sample regions. If at least two of them
served an empty league while their stored document still had active players, it declares a
season reset. Then:

- the current documents are archived under the next free `YYYY_N` name;
- the live documents are cleared;
- the list of archived seasons is regenerated.

The model is written in Dafny, module by module:

- `Config`: the routing table of 15 regions in three routing groups, the sample regions, and
  the 15% visibility threshold.
- `Records`: snapshot entries, fetch results, player records, region documents and the record
  invariant `WellFormed`.
- `Reconciler`: `update_region`. Its three loops are methods (`MergeSnapshot`, `MarkInactive`,
  `RankByTenure`), each proved against a specification function. The function `Reconciled` gives
  the saved list. The dict `player_map` is a `PlayerMap`: the keys in insertion order, the
  records they map to, and the set `current_puuids`.
- `ReconcilerProperties`: a closed form of every record after a run (`FinalRecord`), and the
  promises of `update_region` proved about `Reconciled`.
- `SeasonMonitor`: `detect_season_reset`, a loop over the sample regions proved against the
  counting functions, and the lemmas about its verdict.
- `Archiver`:
  - `get_next_archive_name`, a loop over the year's directories;
  - `archive_current_data`, with a copy loop and a clearing loop over maps of documents;
  - `generate_seasons_list`, a function over the archive directory's listing.
- `Text`: Python's string order, `str(int)`, `int(str)` and `str.split('_')[1]`.
- `Sorting`: Python's stable `sorted`, with its order, stability and permutation proved.

The file system is passed in and out as values:

- the stored documents are a map from region code to document;
- the archive directory is an optional listing of `(name, isDir)` entries.

Each HTTP request is an input `Fetch`: failed, or a status with its entries. The account
lookup's display name and tag are folded into each entry. The timestamp and the year are
parameters.

Three behaviours of the code run against what a reader might expect, and the model keeps them:

- A puuid listed twice in one snapshot is not last-write-wins. Its second occurrence finds the
  record already updated and active (update.py:244-273), so tenure and history are bumped twice
  and the streak grows by two (`DuplicateEntryCountsTwice`).
- The archive names are listed in descending string order, which is what
  `sorted(..., reverse=True)` does on strings. That is not the "most recent first" announced by the
  comment at update.py:387: `2025_10` is listed after `2025_9` (`TenthArchiveAfterNinth`).
- The test `had_data_count >= 2` in the reset verdict (update.py:99) never decides anything.
  `empty_count >= 2` implies it, because only a region that had data can count as emptied
  (`ResetIffTwoEmptied`).

## Model

| member | source | states |
|---|---|---|
| Config.MinPlayersThreshold | update.py:228 | the threshold is 15% of the capacity rounded down: `t*100 <= maxSlots*15 < (t+1)*100` |
| Records.Deactivate | update.py:309-314 | a dropped record is inactive, with no current rank, no points and streak 0; its puuid, history, tenure and both averages are kept |
| Reconciler.IndexPlayers | update.py:222 | the dict built from the stored list (`Indexes`) is consistent, its keys are exactly the stored puuids in the order in which each puuid first occurs, and each key maps to the last stored record with that puuid |
| Reconciler.FirstIndexIsFirst | update.py:222 | no stored record ahead of `FirstIndex` has the puuid, so it is the first occurrence |
| Reconciler.LastIndexIsLast | update.py:222 | no stored record after `LastIndex` has the puuid, so the dict keeps the last record |
| Reconciler.Step | update.py:233-299 | one snapshot iteration keeps the dict consistent and adds the entry's puuid to the keys and to `current_puuids` |
| Reconciler.Merged | update.py:233-306 | after the snapshot loop the dict is consistent, its keys are the stored puuids plus the snapshot's, and `current_puuids` is exactly the snapshot's puuids |
| Reconciler.MergeSnapshot | update.py:233-306 | the loop's dict, key order and seen set are those of the fold `Merged` over the entries in leaderboard order |
| Reconciler.MarkInactive | update.py:309-314 | the second loop leaves every unseen record deactivated and every seen record unchanged (`Deactivated`) |
| Reconciler.RankByTenure | update.py:317-319 | the saved list is the stable sort by tenure with `rank` set to each record's 1-based place |
| Reconciler.UpdateRegion | update.py:214-329 | a failed fetch, or a status other than 200, saves nothing; otherwise the saved document carries the region's name and code, the reconciled list and the run's timestamp |
| ReconcilerProperties.NewPlayerAppeared | update.py:283-299 | a new record is a blank record seen once at its position |
| ReconcilerProperties.MergedRecord | update.py:233-299 | after the loop, a puuid the snapshot lists is its prior record seen at all its positions, through its last entry; any other puuid is present and unchanged exactly when it was stored |
| ReconcilerProperties.ReconciledRecords | update.py:222-319 | every saved record is the closed form `FinalRecord` of its puuid, numbered by its place in the list |
| ReconcilerProperties.ReconciledPresent | update.py:244-299 | a saved record whose puuid is in the snapshot: active, current rank its last position, history extended by its positions, tenure and streak grown by their number (the streak restarting if it was inactive), `avgRankAll` the history's mean, `avgRank` that mean exactly when the snapshot reaches the threshold and `None` otherwise, first-seen date kept, name/tag/points/wins/losses from its last entry |
| ReconcilerProperties.ReconciledSeenOnce | update.py:244-299 | a puuid listed once at index `idx`: active, current rank `idx+1`, `idx+1` appended to the history, tenure +1, streak +1 if it was active and 1 otherwise |
| ReconcilerProperties.OnceMoreHistory | update.py:270-297 | the history then ends with `idx+1`; for a new player it is exactly `[idx+1]`, with tenure 1 and streak 1 |
| ReconcilerProperties.SeenAtFromBlank | update.py:283-299 | a new player's history is exactly its positions, its tenure and streak their number, its first-seen date the run's timestamp |
| ReconcilerProperties.PriorOfNew | update.py:283-299 | a puuid absent from the stored list starts from a blank record |
| ReconcilerProperties.ReconciledAbsent | update.py:308-314 | a saved record whose puuid is not in the snapshot was stored, and is that stored record deactivated and numbered |
| ReconcilerProperties.EmptySnapshotDeactivatesAll | update.py:308-314 | after an empty snapshot the list holds exactly the stored puuids, all inactive with no current rank and streak 0, history and tenure unchanged |
| ReconcilerProperties.ReconciledKeys | update.py:222-326 | the saved list holds exactly the stored puuids plus the snapshot's, none of them twice |
| ReconcilerProperties.ReconciledOrder | update.py:317-319 | the saved list is non-increasing in tenure and its `rank` fields are 1..n in list order |
| ReconcilerProperties.MergedOrder | update.py:233-306 | the snapshot loop keeps the stored keys in place and appends only puuids new to the dict, in the order of their first snapshot position |
| ReconcilerProperties.DictOrder | update.py:222-306 | after the loop the keys rise in `DictPlace`: stored puuids by their first stored record, then new puuids by their first snapshot position |
| ReconcilerProperties.ReconciledTies | update.py:222-319 | records of equal tenure are saved in dict order: a stored puuid ahead of a new one, stored puuids by their first stored record, new puuids by their first snapshot position |
| ReconcilerProperties.ReconciledWellFormed | update.py:244-319 | if every stored record is well formed, every saved record is: history length equals tenure, streak at least 1 while active and 0 otherwise and never above tenure, current rank and points exactly while active, current rank the last history entry, `avgRankAll` the history's mean |
| ReconcilerProperties.DuplicateEntryCountsTwice | update.py:244-273 | a snapshot listing the same new puuid twice saves one record with tenure 2, history `[1, 2]`, streak 2 and current rank 2 |
| Sorting.SortBySorted | update.py:317 | the sort's result is ordered by the key, for any total preorder |
| Sorting.SortByStable | update.py:317 | records with equal keys keep their relative order |
| Sorting.SortByTiesByPlace | update.py:317 | if a rank rises strictly along the input, records with equal keys still come in rising rank after the sort |
| Sorting.SortByDistinct | update.py:317 | sorting introduces no repetition |
| SeasonMonitor.DetectSeasonReset | update.py:50-108 | the loop's verdict is `EmptyCount >= 2 && HadDataCount >= 2` over the sample regions `euw1`, `na1`, `kr`, with `had_data` counted from the stored document before the fetch |
| SeasonMonitor.EmptyAtMostHadData | update.py:76-93 | no more regions are counted empty than had data |
| SeasonMonitor.ResetIffTwoEmptied | update.py:98-99 | a reset is declared if and only if at least two regions are counted empty |
| SeasonMonitor.ResetIffTwoWitnesses | update.py:62-99 | a reset is declared if and only if two different sampled regions had data and now serve a successful, empty league |
| SeasonMonitor.NoResetWhenFetchesFail | update.py:84-93 | when every sampled fetch fails, no region counts as empty and no reset is declared, whatever is stored |
| SeasonMonitor.NoResetWithoutHistory | update.py:68-81 | with no stored documents nothing had data, and no reset is declared |
| Text.ParseIntOfIntToString | update.py:129-135 | `int(str(n)) == n` for every integer |
| Text.ParseIntWhitespace | update.py:129 | `int()` strips a tab around the digits (`"\t5"` is 5) but not the separator U+001C (`"\x1c5"` is no integer) |
| Text.SecondFieldOfJoin | update.py:129 | `(a + "_" + b).split('_')[1] == b` when neither part holds an underscore |
| Text.StrLeTotal | update.py:384-387 | Python's string order is total |
| Text.StrLeTransitive | update.py:384-387 | Python's string order is transitive |
| Archiver.NextArchiveName | update.py:110-135 | the loop returns `year_N` with `N = NextNumber`, a function of the listing and the year, so two calls with no write in between agree |
| Archiver.NextNumberSpec | update.py:115-134 | N is larger than every parsed suffix of a directory named `year_...`; N-1 is such a suffix, or N is 1 and there is none (no archive directory, no directory of the year, or none whose suffix parses) |
| Archiver.ArchiveNameParts | update.py:116-135 | the name starts with `year_` and its suffix parses back to N |
| Archiver.NextNameFresh | update.py:115-135 | the chosen name is not the name of any existing directory |
| Archiver.NextAfterSingleArchive | update.py:119-135 | with only `year_n` present, the next name is `year_(n+1)` |
| Archiver.SingleArchive | update.py:119-135 | with only the directory `year_<field>` present, N is the parsed field plus one, or 1 when the field does not parse |
| Archiver.SuffixWhitespace | update.py:128-134 | `year_\t5` counts as archive 5, so N is 6; `year_\x1c5` is skipped, so N is 1 |
| Archiver.CopyRegions | update.py:146-155 | the copy loop copies each present document and counts the copies |
| Archiver.ClearRegions | update.py:171-174 | the clearing loop removes each present document |
| Archiver.ArchiveCurrentData | update.py:137-176 | the archive receives the copies, the metadata carries the name, timestamp and count, the live documents of all regions are removed, and the seasons list is regenerated from the listing after `makedirs` |
| Archiver.CopiedSpec | update.py:149-155 | the archive holds exactly the live documents of the listed codes, unchanged |
| Archiver.ClearedSpec | update.py:171-174 | what stays live is exactly the documents of unlisted codes, unchanged |
| Archiver.CountIsCopies | update.py:146-161 | with no code listed twice, `regions_archived` equals the number of documents archived |
| Config.AllRegionsListed | update.py:13-35 | the flattened routing table is the 15 codes, group by group |
| Config.AllRegionsDistinct | update.py:13-35 | no region code is configured twice |
| Archiver.ArchiveMovesRegions | update.py:147-175 | every live document of a configured region is copied and no longer live, every other one stays live and is not copied, contents are unchanged, and the count equals the number of copies |
| Archiver.SeasonsListMembers | update.py:377-387 | the seasons list holds exactly the directories whose name has an underscore, each as often as the listing has it |
| Archiver.SeasonsListDescending | update.py:384-387 | the seasons list is in descending string order |
| Archiver.TenthArchiveAfterNinth | update.py:384-387 | string order puts `2025_9` ahead of `2025_10` |
| Archiver.NewArchiveListed | update.py:110-176 | the chosen archive name is absent from the seasons list before archiving and present after |

## Left out

- The HTTP clients `get_challenger_league` and `get_account_info` (update.py:37-48, 178-190) are network calls. They are inputs here: a `Fetch` per region, with the display name and tag already in each entry (the lookup's `"Unknown"`/`"0000"` fallback included).
- A 200 response whose JSON body is an empty object counts as a failed fetch in both functions. A caller passes `FetchFailed` for it.
- A non-empty body without an `entries` key counts as an empty league in `detect_season_reset`, where a caller passes `Fetched(200, [])`. In `update_region` it raises (update.py:229), and the model does not represent that.
- `time.sleep` rate limiting and the thread per routing group in `update_all_regions` and `process_routing_group` (update.py:332-375) are timing and concurrency.
- JSON encoding, `load_existing_data` and `save_region_data`, `shutil.copy2`, `os.remove`, `os.listdir` and the writes of `metadata.json` and `seasons.json` are file I/O. Documents, the archive and the listing are values passed in and returned. The updates to the file system are therefore not modelled in place, and neither is aliasing between the files.
- An error part-way through archiving, such as a failing copy, aborts the source. The model has no failing copy.
- `os.makedirs` when a file (not a directory) of the archive's name already exists raises in the source. `AfterMakedirs` does not model that case.
- `datetime.now` is the parameter `now` (the ISO timestamp) and `year`. `print` logging and `total_checked`, which is only printed, are left out.
- A snapshot entry missing a key makes the source skip the rest of that entry's processing (update.py:304-306). Entries here are well typed.
- A stored document that fails to parse counts as not having data in `detect_season_reset` (update.py:80-81). The store holds only parsed documents.
- A stored record that the snapshot lists may lack `isActive`, `daysInChallenger`, `currentStreak` or `rankHistory`. Such a field is read as its default (`false`, 0, 0, `[]`), which is what the `.get(..., default)` reads and `'field' in player` tests at update.py:247-273 amount to. The `Player` type always carries every field, so the model starts from the default.
- A stored record without `puuid` makes `update_region` raise at update.py:222. So does a stored record without `daysInChallenger` that the snapshot does not list, in the sort at update.py:317. Either way nothing is saved for the region, and the exception ends the routing group's thread (update.py:338), so the group's later regions are not updated either. The model has no record with a missing field: it sorts such a record by a tenure of 0 and saves the list.
- A stored record that the snapshot does not list keeps any other missing field missing when the source saves it. The model saves it with that field at its default.
- Floating point: `avgRankAll` and `avgRank` are exact `real` means. `int(max_slots * 0.15)` is `max_slots * 15 / 100`, which agrees on the configured capacities 300, 200 and 50.
- Text.ParseInt: accepts ASCII digits only, while Python's `int()` also accepts other Unicode decimal digits. A suffix written in such digits would parse in the source and is skipped here.
- script.js is the browser front end (rendering, table sorting) and is not part of this model.
