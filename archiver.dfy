/**
 * Season archiving: choosing the next `YYYY_N` archive name, copying every
 * region document into the archive, clearing the live documents, and listing
 * the archived seasons.
 */
module Archiver {
  import opened Wrappers
  import opened Config
  import opened Records
  import opened Text
  import opened Sorting

  /** One name in the archive directory, and whether it is a directory. */
  datatype DirEntry = DirEntry(name: string, isDir: bool)

  /** The archive directory: `None` when it does not exist, else its entries. */
  type Listing = Option<seq<DirEntry>>

  /** `f"{current_year}_"`. */
  function YearPrefix(year: nat): string
  {
    NatToString(year) + "_"
  }

  /** `f"{current_year}_{n}"`. */
  function ArchiveName(year: nat, n: int): string
  {
    NatToString(year) + "_" + IntToString(n)
  }

  /** `existing`: the directories of the year, in listing order. */
  function YearArchives(entries: seq<DirEntry>, year: nat): seq<string>
  {
    if entries == [] then []
    else
      var d := entries[|entries| - 1];
      YearArchives(entries[..|entries| - 1], year)
        + (if StartsWith(d.name, YearPrefix(year)) && d.isDir then [d.name] else [])
  }

  /** `int(name.split('_')[1])`, `None` where either step raises. */
  function Suffix(name: string): Option<int>
  {
    match SecondField(name)
    case None => None
    case Some(field) => ParseInt(field)
  }

  /** `numbers`: the suffixes that parse, in order. */
  function ParsedSuffixes(names: seq<string>): seq<int>
  {
    if names == [] then []
    else
      var s := Suffix(names[|names| - 1]);
      ParsedSuffixes(names[..|names| - 1]) + (if s.Some? then [s.value] else [])
  }

  /** Python's `max` on a non-empty list. */
  function Max(s: seq<int>): (m: int)
    requires s != []
    ensures m in s
    ensures forall i :: 0 <= i < |s| ==> s[i] <= m
  {
    if |s| == 1 then s[0]
    else
      var m := Max(s[..|s| - 1]);
      assert forall i :: 0 <= i < |s| - 1 ==> s[..|s| - 1][i] == s[i];
      if s[|s| - 1] > m then s[|s| - 1] else m
  }

  /** The `N` that `get_next_archive_name` picks. */
  function NextNumber(listing: Listing, year: nat): int
  {
    if listing.None? then 1
    else
      var existing := YearArchives(listing.value, year);
      if existing == [] then 1
      else
        var numbers := ParsedSuffixes(existing);
        if numbers != [] then Max(numbers) + 1 else 1
  }

  /**
   * `get_next_archive_name`: the year's directories are parsed one by one,
   * names whose suffix is not an integer being skipped, and the name after
   * the largest suffix is returned.
   */
  method NextArchiveName(year: nat, listing: Listing) returns (name: string)
    ensures name == ArchiveName(year, NextNumber(listing, year))
  {
    if listing.None? {
      return ArchiveName(year, 1);
    }
    var existing := YearArchives(listing.value, year);
    if existing == [] {
      return ArchiveName(year, 1);
    }
    var numbers: seq<int> := [];
    for i := 0 to |existing|
      invariant numbers == ParsedSuffixes(existing[..i])
    {
      assert existing[..i + 1][..i] == existing[..i];
      var field := SecondField(existing[i]);
      if field.Some? {
        var num := ParseInt(field.value);
        if num.Some? {
          numbers := numbers + [num.value];
        }
      }
    }
    assert existing[..|existing|] == existing;
    var nextNum := if numbers != [] then Max(numbers) + 1 else 1;
    NextNumberOfNumbers(listing.value, year);
    assert nextNum == NextNumber(listing, year);
    name := ArchiveName(year, nextNum);
  }

  /** `n` is the suffix of a directory of the year. */
  predicate Numbered(entries: seq<DirEntry>, year: nat, n: int)
  {
    exists d :: d in entries && d.isDir && StartsWith(d.name, YearPrefix(year)) && Suffix(d.name) == Some(n)
  }

  lemma {:induction false} YearArchivesMembers(entries: seq<DirEntry>, year: nat)
    ensures forall x :: x in YearArchives(entries, year)
              <==> exists d :: d in entries && d.isDir && StartsWith(d.name, YearPrefix(year)) && d.name == x
  {
    if entries != [] {
      var n := |entries| - 1;
      YearArchivesMembers(entries[..n], year);
      assert entries == entries[..n] + [entries[n]];
    }
  }

  lemma {:induction false} ParsedSuffixesMembers(names: seq<string>)
    ensures forall n :: n in ParsedSuffixes(names) <==> exists x :: x in names && Suffix(x) == Some(n)
  {
    if names != [] {
      var k := |names| - 1;
      ParsedSuffixesMembers(names[..k]);
      assert names == names[..k] + [names[k]];
    }
  }

  /** The numbers the year's directories are already using. */
  lemma NumbersInUse(entries: seq<DirEntry>, year: nat)
    ensures forall n :: n in ParsedSuffixes(YearArchives(entries, year)) <==> Numbered(entries, year, n)
  {
    YearArchivesMembers(entries, year);
    ParsedSuffixesMembers(YearArchives(entries, year));
  }

  /**
   * The chosen number is one past the largest suffix in use for the year, or
   * 1 when none is (no archive directory, no directory of the year, or none
   * whose suffix parses).
   */
  lemma NextNumberSpec(listing: Listing, year: nat)
    ensures listing.Some? ==> forall n :: Numbered(listing.value, year, n) ==> n < NextNumber(listing, year)
    ensures || (listing.Some? && Numbered(listing.value, year, NextNumber(listing, year) - 1))
            || (NextNumber(listing, year) == 1 && (listing.Some? ==> forall n :: !Numbered(listing.value, year, n)))
  {
    if listing.Some? {
      NextNumberAbove(listing.value, year);
      NextNumberTaken(listing.value, year);
    }
  }

  lemma NextNumberAbove(entries: seq<DirEntry>, year: nat)
    ensures forall n :: Numbered(entries, year, n) ==> n < NextNumber(Some(entries), year)
  {
    var numbers := ParsedSuffixes(YearArchives(entries, year));
    NextNumberOfNumbers(entries, year);
    forall n | Numbered(entries, year, n) ensures n < NextNumber(Some(entries), year) {
      NumberedInUse(entries, year, n);
      var t :| 0 <= t < |numbers| && numbers[t] == n;
    }
  }

  lemma NextNumberTaken(entries: seq<DirEntry>, year: nat)
    ensures || Numbered(entries, year, NextNumber(Some(entries), year) - 1)
            || (NextNumber(Some(entries), year) == 1 && forall n :: !Numbered(entries, year, n))
  {
    NextNumberOfNumbers(entries, year);
    if ParsedSuffixes(YearArchives(entries, year)) != [] {
      MaxNumbered(entries, year);
    } else {
      NoneNumbered(entries, year);
    }
  }

  lemma MaxNumbered(entries: seq<DirEntry>, year: nat)
    requires ParsedSuffixes(YearArchives(entries, year)) != []
    ensures Numbered(entries, year, Max(ParsedSuffixes(YearArchives(entries, year))))
  {
    InUseNumbered(entries, year, Max(ParsedSuffixes(YearArchives(entries, year))));
  }

  lemma NoneNumbered(entries: seq<DirEntry>, year: nat)
    requires ParsedSuffixes(YearArchives(entries, year)) == []
    ensures forall n :: !Numbered(entries, year, n)
  {
    forall n ensures !Numbered(entries, year, n) {
      NumberedInUse(entries, year, n);
    }
  }

  lemma NumberedInUse(entries: seq<DirEntry>, year: nat, n: int)
    ensures Numbered(entries, year, n) ==> n in ParsedSuffixes(YearArchives(entries, year))
  {
    NumbersInUse(entries, year);
  }

  lemma InUseNumbered(entries: seq<DirEntry>, year: nat, n: int)
    requires n in ParsedSuffixes(YearArchives(entries, year))
    ensures Numbered(entries, year, n)
  {
    NumbersInUse(entries, year);
  }

  /** The chosen number in terms of the year's parsed suffixes. */
  lemma NextNumberOfNumbers(entries: seq<DirEntry>, year: nat)
    ensures var numbers := ParsedSuffixes(YearArchives(entries, year));
            && (numbers == [] ==> NextNumber(Some(entries), year) == 1)
            && (numbers != [] ==> NextNumber(Some(entries), year) == Max(numbers) + 1)
  {
    if YearArchives(entries, year) == [] {
      assert ParsedSuffixes([]) == [];
    }
  }

  lemma ArchiveNameParts(year: nat, n: int)
    ensures StartsWith(ArchiveName(year, n), YearPrefix(year))
    ensures Suffix(ArchiveName(year, n)) == Some(n)
  {
    var y := NatToString(year);
    assert forall j :: 0 <= j < |y| ==> y[j] != '_';
    NoUnderscoreInIntToString(n);
    SecondFieldOfJoin(y, IntToString(n));
    ParseIntOfIntToString(n);
    assert ArchiveName(year, n)[..|YearPrefix(year)|] == YearPrefix(year);
  }

  /** The chosen name is not the name of any directory already in the archive directory. */
  lemma NextNameFresh(listing: seq<DirEntry>, year: nat)
    ensures forall d :: d in listing && d.isDir ==> d.name != ArchiveName(year, NextNumber(Some(listing), year))
  {
    var next := NextNumber(Some(listing), year);
    NextNumberSpec(Some(listing), year);
    ArchiveNameParts(year, next);
    forall d | d in listing && d.isDir
      ensures d.name != ArchiveName(year, next)
    {
      if StartsWith(d.name, YearPrefix(year)) && Suffix(d.name).Some? {
        assert Numbered(listing, year, Suffix(d.name).value);
      }
    }
  }

  /** With only the archive `Y_n` present, the next archive is `Y_(n+1)`. */
  lemma NextAfterSingleArchive(year: nat, n: int)
    ensures NextNumber(Some([DirEntry(ArchiveName(year, n), true)]), year) == n + 1
  {
    var name := ArchiveName(year, n);
    var listing := [DirEntry(name, true)];
    ArchiveNameParts(year, n);
    assert YearArchives(listing, year) == [name] by {
      assert listing[..0] == [];
    }
    assert ParsedSuffixes([name]) == [n] by {
      assert [name][..0] == [];
    }
  }

  /** A single directory `YYYY_<field>` yields the number after its parsed suffix, or 1. */
  lemma SingleArchive(year: nat, field: string)
    requires '_' !in field
    ensures NextNumber(Some([DirEntry(YearPrefix(year) + field, true)]), year)
            == if ParseInt(field).Some? then ParseInt(field).value + 1 else 1
  {
    var y := NatToString(year);
    assert forall j :: 0 <= j < |y| ==> y[j] != '_';
    SecondFieldOfJoin(y, field);
    var name: string := y + "_" + field;
    assert name[..|YearPrefix(year)|] == YearPrefix(year);
    assert YearArchives([DirEntry(name, true)], year) == [name] by {
      assert [DirEntry(name, true)][..0] == [];
    }
    assert ParsedSuffixes([name]) == ParsedSuffixes([]) + (if ParseInt(field).Some? then [ParseInt(field).value] else []) by {
      assert [name][..0] == [];
    }
  }

  /**
   * `int()` strips a tab around the suffix but not the separator U+001C: the
   * directory `YYYY_\t5` is archive 5, while `YYYY_\x1c5` is skipped.
   */
  lemma SuffixWhitespace(year: nat)
    ensures NextNumber(Some([DirEntry(YearPrefix(year) + "\t5", true)]), year) == 6
    ensures NextNumber(Some([DirEntry(YearPrefix(year) + "\U{1C}5", true)]), year) == 1
  {
    ParseIntWhitespace();
    SingleArchive(year, "\t5");
    SingleArchive(year, "\U{1C}5");
  }

  /** The metadata file written into each archive. */
  datatype Metadata = Metadata(archiveName: string, archivedDate: string, regionsArchived: nat)

  /** The documents copied into the archive for the region codes `codes`. */
  function Copied(codes: seq<RegionCode>, live: Store): Store
  {
    if codes == [] then map[]
    else
      var c := codes[|codes| - 1];
      var m := Copied(codes[..|codes| - 1], live);
      if c in live then m[c := live[c]] else m
  }

  /** `archived_count`. */
  function CountPresent(codes: seq<RegionCode>, live: Store): nat
  {
    if codes == [] then 0
    else CountPresent(codes[..|codes| - 1], live) + (if codes[|codes| - 1] in live then 1 else 0)
  }

  /** The live documents left once those of `codes` are removed. */
  function Cleared(codes: seq<RegionCode>, live: Store): Store
  {
    if codes == [] then live
    else Cleared(codes[..|codes| - 1], live) - {codes[|codes| - 1]}
  }

  /** The archive directory after `os.makedirs(archive_dir, exist_ok=True)`. */
  function AfterMakedirs(listing: Listing, name: string): Listing
  {
    if listing.None? then Some([DirEntry(name, true)])
    else if exists d :: d in listing.value && d.isDir && d.name == name then listing
    else Some(listing.value + [DirEntry(name, true)])
  }

  /** The directory names with an underscore, in listing order. */
  function SeasonDirs(entries: seq<DirEntry>): seq<string>
  {
    if entries == [] then []
    else
      var d := entries[|entries| - 1];
      SeasonDirs(entries[..|entries| - 1]) + (if d.isDir && '_' in d.name then [d.name] else [])
  }

  /** `reverse=True` on strings. */
  predicate TextuallyLater(a: string, b: string)
  {
    StrLe(b, a)
  }

  /** `generate_seasons_list`: the seasons, in descending string order; none without an archive directory. */
  function SeasonsList(listing: Listing): seq<string>
  {
    if listing.None? then [] else SortBy(SeasonDirs(listing.value), TextuallyLater)
  }

  /** The copy loop of `archive_current_data`: each present document is copied and counted. */
  method CopyRegions(codes: seq<RegionCode>, live: Store) returns (copies: Store, archivedCount: nat)
    ensures copies == Copied(codes, live)
    ensures archivedCount == CountPresent(codes, live)
  {
    archivedCount := 0;
    copies := map[];
    for i := 0 to |codes|
      invariant copies == Copied(codes[..i], live)
      invariant archivedCount == CountPresent(codes[..i], live)
    {
      assert codes[..i + 1][..i] == codes[..i];
      var code := codes[i];
      if code in live {
        copies := copies[code := live[code]];
        archivedCount := archivedCount + 1;
      }
    }
    assert codes[..|codes|] == codes;
  }

  /** The clearing loop of `archive_current_data`: each present document is removed. */
  method ClearRegions(codes: seq<RegionCode>, live: Store) returns (remaining: Store)
    ensures remaining == Cleared(codes, live)
  {
    remaining := live;
    for i := 0 to |codes|
      invariant remaining == Cleared(codes[..i], live)
    {
      assert codes[..i + 1][..i] == codes[..i];
      var code := codes[i];
      if code in remaining {
        remaining := remaining - {code};
      }
    }
    assert codes[..|codes|] == codes;
  }

  /**
   * `archive_current_data`: copies each region's document into the archive and
   * counts the copies, writes the metadata, removes the live documents of all
   * regions, and regenerates the seasons list. `live` is the `data` directory's
   * region documents, `listing` the archive directory beforehand, `now` the
   * run's timestamp.
   */
  method ArchiveCurrentData(name: string, live: Store, listing: Listing, now: string)
    returns (copies: Store, metadata: Metadata, remaining: Store, seasons: seq<string>)
    ensures copies == Copied(AllRegions, live)
    ensures metadata == Metadata(name, now, CountPresent(AllRegions, live))
    ensures remaining == Cleared(AllRegions, live)
    ensures seasons == SeasonsList(AfterMakedirs(listing, name))
  {
    var archives := AfterMakedirs(listing, name);
    var archivedCount;
    copies, archivedCount := CopyRegions(AllRegions, live);
    metadata := Metadata(name, now, archivedCount);
    remaining := ClearRegions(AllRegions, live);
    seasons := SeasonsList(archives);
  }

  /** The archive holds exactly the live documents of the listed regions, unchanged. */
  lemma {:induction false} CopiedSpec(codes: seq<RegionCode>, live: Store)
    ensures forall c :: c in Copied(codes, live) <==> c in live && c in codes
    ensures forall c :: c in Copied(codes, live) ==> Copied(codes, live)[c] == live[c]
  {
    if codes != [] {
      var n := |codes| - 1;
      CopiedSpec(codes[..n], live);
      assert codes == codes[..n] + [codes[n]];
    }
  }

  /** What stays live is exactly the documents of codes not listed. */
  lemma {:induction false} ClearedSpec(codes: seq<RegionCode>, live: Store)
    ensures forall c :: c in Cleared(codes, live) <==> c in live && c !in codes
    ensures forall c :: c in Cleared(codes, live) ==> Cleared(codes, live)[c] == live[c]
  {
    if codes != [] {
      var n := |codes| - 1;
      ClearedSpec(codes[..n], live);
      assert codes == codes[..n] + [codes[n]];
    }
  }

  /** With no code listed twice, the count in the metadata is the number of documents archived. */
  lemma {:induction false} CountIsCopies(codes: seq<RegionCode>, live: Store)
    requires Distinct(codes)
    ensures CountPresent(codes, live) == |Copied(codes, live)|
  {
    if codes != [] {
      var n := |codes| - 1;
      assert Distinct(codes[..n]);
      CountIsCopies(codes[..n], live);
      CopiedSpec(codes[..n], live);
      assert codes[n] !in codes[..n];
    }
  }

  /** Archiving moves every live document of a configured region into the archive and keeps every other one. */
  lemma ArchiveMovesRegions(live: Store)
    ensures forall c :: c in live ==> (c in Copied(AllRegions, live) <==> c !in Cleared(AllRegions, live))
    ensures forall i :: 0 <= i < |AllRegions| ==> AllRegions[i] !in Cleared(AllRegions, live)
    ensures forall c :: c in Copied(AllRegions, live) ==> c in live && Copied(AllRegions, live)[c] == live[c]
    ensures forall c :: c in Cleared(AllRegions, live) ==> c in live && Cleared(AllRegions, live)[c] == live[c]
    ensures CountPresent(AllRegions, live) == |Copied(AllRegions, live)|
  {
    CopiedSpec(AllRegions, live);
    ClearedSpec(AllRegions, live);
    AllRegionsDistinct();
    CountIsCopies(AllRegions, live);
  }

  lemma {:induction false} SeasonDirsMembers(entries: seq<DirEntry>)
    ensures forall x :: x in SeasonDirs(entries) <==> exists d :: d in entries && d.isDir && '_' in d.name && d.name == x
  {
    if entries != [] {
      var n := |entries| - 1;
      SeasonDirsMembers(entries[..n]);
      assert entries == entries[..n] + [entries[n]];
    }
  }

  lemma TextuallyLaterTotal()
    ensures TotalPreorder(TextuallyLater)
  {
    forall x, y ensures TextuallyLater(x, y) || TextuallyLater(y, x) {
      StrLeTotal(x, y);
    }
    forall x, y, z | TextuallyLater(x, y) && TextuallyLater(y, z) ensures TextuallyLater(x, z) {
      StrLeTransitive(z, y, x);
    }
  }

  /** The seasons list holds each directory with an underscore in its name, as often as the listing does. */
  lemma SeasonsListMembers(listing: seq<DirEntry>)
    ensures multiset(SeasonsList(Some(listing))) == multiset(SeasonDirs(listing))
    ensures forall x :: x in SeasonsList(Some(listing)) <==> exists d :: d in listing && d.isDir && '_' in d.name && d.name == x
  {
    var r := SeasonsList(Some(listing));
    SeasonDirsMembers(listing);
    forall x ensures x in r <==> x in SeasonDirs(listing) {
      assert x in r <==> x in multiset(r);
      assert x in SeasonDirs(listing) <==> x in multiset(SeasonDirs(listing));
    }
  }

  /** The seasons list runs from the largest name to the smallest in string order. */
  lemma SeasonsListDescending(listing: seq<DirEntry>)
    ensures var r := SeasonsList(Some(listing));
            forall i, j :: 0 <= i < j < |r| ==> StrLe(r[j], r[i])
  {
    TextuallyLaterTotal();
    SortBySorted(SeasonDirs(listing), TextuallyLater);
  }

  /**
   * The order is that of strings, not of archive numbers: a tenth archive
   * of a year is listed after the ninth.
   */
  lemma TenthArchiveAfterNinth()
    ensures SeasonsList(Some([DirEntry("2025_9", true), DirEntry("2025_10", true)])) == ["2025_9", "2025_10"]
  {
    var listing := [DirEntry("2025_9", true), DirEntry("2025_10", true)];
    assert SeasonDirs(listing) == ["2025_9", "2025_10"] by {
      assert listing[..1] == [DirEntry("2025_9", true)] && listing[..1][..0] == [];
    }
    NinthSortsFirst();
  }

  lemma NinthSortsFirst()
    ensures SortBy(["2025_9", "2025_10"], TextuallyLater) == ["2025_9", "2025_10"]
  {
    assert SortBy(["2025_10"], TextuallyLater) == ["2025_10"] by {
      assert ["2025_10"][1..] == [];
    }
    assert ["2025_9", "2025_10"][1..] == ["2025_10"];
    TenGoesBeforeNine();
  }

  lemma TenGoesBeforeNine()
    ensures StrLe("2025_10", "2025_9")
  {
    assert "2025_10"[1..] == "025_10" && "2025_9"[1..] == "025_9";
    assert "025_10"[1..] == "25_10" && "025_9"[1..] == "25_9";
    assert "25_10"[1..] == "5_10" && "25_9"[1..] == "5_9";
    assert "5_10"[1..] == "_10" && "5_9"[1..] == "_9";
    assert "_10"[1..] == "10" && "_9"[1..] == "9";
  }

  /**
   * A reset archives under a fresh name, and the regenerated list shows it
   * although the list before did not.
   */
  lemma NewArchiveListed(listing: Listing, year: nat)
    ensures var name := ArchiveName(year, NextNumber(listing, year));
            && name !in SeasonsList(listing)
            && name in SeasonsList(AfterMakedirs(listing, name))
  {
    ArchiveNameParts(year, NextNumber(listing, year));
    NewArchiveNotListedBefore(listing, year);
    NewArchiveListedAfter(listing, ArchiveName(year, NextNumber(listing, year)), year);
  }

  lemma NewArchiveNotListedBefore(listing: Listing, year: nat)
    ensures ArchiveName(year, NextNumber(listing, year)) !in SeasonsList(listing)
  {
    if listing.Some? {
      NextNameFresh(listing.value, year);
      SeasonsListMembers(listing.value);
    }
  }

  lemma NewArchiveListedAfter(listing: Listing, name: string, year: nat)
    requires StartsWith(name, YearPrefix(year))
    ensures name in SeasonsList(AfterMakedirs(listing, name))
  {
    var after := AfterMakedirs(listing, name).value;
    MakedirsListsDir(listing, name);
    PrefixUnderscore(name, year);
    SeasonsListMembers(after);
    assert DirEntry(name, true) in after && DirEntry(name, true).name == name;
  }

  /** After `os.makedirs`, the archive directory lists the new directory. */
  lemma MakedirsListsDir(listing: Listing, name: string)
    ensures AfterMakedirs(listing, name).Some?
    ensures DirEntry(name, true) in AfterMakedirs(listing, name).value
  {
    if listing.Some? && exists d :: d in listing.value && d.isDir && d.name == name {
      var d :| d in listing.value && d.isDir && d.name == name;
      assert d == DirEntry(name, true);
    }
  }

  lemma PrefixUnderscore(name: string, year: nat)
    requires StartsWith(name, YearPrefix(year))
    ensures '_' in name
  {
    var y := NatToString(year);
    assert name[..|y| + 1][|y|] == '_';
  }
}
