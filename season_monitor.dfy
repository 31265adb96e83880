/**
 * Season-reset detection: a reset is declared when at least two of the
 * sample regions served an empty Challenger league although their stored
 * document still listed active players.
 */
module SeasonMonitor {
  import opened Wrappers
  import opened Config
  import opened Records

  /** The stored document of a region, `None` when its file does not exist. */
  function Stored(store: Store, code: RegionCode): Option<RegionDoc>
  {
    if code in store then Some(store[code]) else None
  }

  /** The number of players flagged active. */
  function ActiveCount(players: seq<Player>): (n: nat)
    ensures n <= |players|
  {
    if players == [] then 0
    else ActiveCount(players[..|players| - 1]) + (if players[|players| - 1].isActive then 1 else 0)
  }

  /** `had_data`: a stored document with at least one active player. */
  predicate HadData(doc: Option<RegionDoc>)
  {
    doc.Some? && ActiveCount(doc.value.players) > 0
  }

  /** A region that had data and now serves a successful, empty league. */
  predicate EmptiedAt(store: Store, fetch: RegionCode -> Fetch, code: RegionCode)
  {
    HadData(Stored(store, code)) && FetchOk(fetch(code)) && fetch(code).entries == []
  }

  /** `had_data_count` after checking `codes`. */
  function HadDataCount(codes: seq<RegionCode>, store: Store): (n: nat)
    ensures n <= |codes|
  {
    if codes == [] then 0
    else HadDataCount(codes[..|codes| - 1], store) + (if HadData(Stored(store, codes[|codes| - 1])) then 1 else 0)
  }

  /** `empty_count` after checking `codes`. */
  function EmptyCount(codes: seq<RegionCode>, store: Store, fetch: RegionCode -> Fetch): (n: nat)
    ensures n <= |codes|
  {
    if codes == [] then 0
    else EmptyCount(codes[..|codes| - 1], store, fetch) + (if EmptiedAt(store, fetch, codes[|codes| - 1]) then 1 else 0)
  }

  /** The verdict: at least two emptied regions and at least two that had data. */
  predicate ResetDetected(codes: seq<RegionCode>, store: Store, fetch: RegionCode -> Fetch)
  {
    EmptyCount(codes, store, fetch) >= 2 && HadDataCount(codes, store) >= 2
  }

  /**
   * `detect_season_reset`: checks the sample regions in order, counting those
   * that had data and those that had data and now come back empty. `fetch`
   * stands for the league request of each region.
   */
  method DetectSeasonReset(store: Store, fetch: RegionCode -> Fetch) returns (reset: bool)
    ensures reset == ResetDetected(SampleRegions, store, fetch)
  {
    var regions := SampleRegions;
    var emptyCount, hadDataCount := 0, 0;
    for i := 0 to |regions|
      invariant emptyCount == EmptyCount(regions[..i], store, fetch)
      invariant hadDataCount == HadDataCount(regions[..i], store)
    {
      assert regions[..i + 1][..i] == regions[..i];
      var code := regions[i];
      var hadData := false;
      if code in store {
        var active := ActiveCount(store[code].players);
        if active > 0 {
          hadData := true;
          hadDataCount := hadDataCount + 1;
        }
      }
      var league := fetch(code);
      if FetchOk(league) {
        var isEmpty := |league.entries| == 0;
        if isEmpty && hadData {
          emptyCount := emptyCount + 1;
        }
      }
    }
    assert regions[..|regions|] == regions;
    reset := emptyCount >= 2 && hadDataCount >= 2;
  }

  /** Every emptied region also had data. */
  lemma {:induction false} EmptyAtMostHadData(codes: seq<RegionCode>, store: Store, fetch: RegionCode -> Fetch)
    ensures EmptyCount(codes, store, fetch) <= HadDataCount(codes, store)
  {
    if codes != [] {
      EmptyAtMostHadData(codes[..|codes| - 1], store, fetch);
    }
  }

  /** So the clause on `had_data_count` never changes the verdict. */
  lemma ResetIffTwoEmptied(codes: seq<RegionCode>, store: Store, fetch: RegionCode -> Fetch)
    ensures ResetDetected(codes, store, fetch) <==> EmptyCount(codes, store, fetch) >= 2
  {
    EmptyAtMostHadData(codes, store, fetch);
  }

  /** At least one emptied region is counted exactly when one of the codes is emptied. */
  lemma {:induction false} EmptyCountPositive(codes: seq<RegionCode>, store: Store, fetch: RegionCode -> Fetch)
    ensures EmptyCount(codes, store, fetch) >= 1 <==> exists i :: 0 <= i < |codes| && EmptiedAt(store, fetch, codes[i])
  {
    if codes != [] {
      var n := |codes| - 1;
      var init := codes[..n];
      EmptyCountPositive(init, store, fetch);
      if exists i :: 0 <= i < n && EmptiedAt(store, fetch, init[i]) {
        var i :| 0 <= i < n && EmptiedAt(store, fetch, init[i]);
        assert EmptiedAt(store, fetch, codes[i]);
      }
      if exists i :: 0 <= i < |codes| && EmptiedAt(store, fetch, codes[i]) {
        var i :| 0 <= i < |codes| && EmptiedAt(store, fetch, codes[i]);
        if i < n {
          assert EmptiedAt(store, fetch, init[i]);
        }
      }
    }
  }

  /** Two different emptied positions among `codes`. */
  predicate TwoEmptied(codes: seq<RegionCode>, store: Store, fetch: RegionCode -> Fetch)
  {
    exists i, j :: 0 <= i < j < |codes| && EmptiedAt(store, fetch, codes[i]) && EmptiedAt(store, fetch, codes[j])
  }

  /** A reset is declared exactly when two different sample positions are emptied. */
  lemma ResetIffTwoWitnesses(codes: seq<RegionCode>, store: Store, fetch: RegionCode -> Fetch)
    ensures ResetDetected(codes, store, fetch) <==> TwoEmptied(codes, store, fetch)
  {
    ResetIffTwoEmptied(codes, store, fetch);
    TwoEmptiedCounted(codes, store, fetch);
    if EmptyCount(codes, store, fetch) >= 2 {
      CountedTwoEmptied(codes, store, fetch);
    }
  }

  lemma {:induction false} CountedTwoEmptied(codes: seq<RegionCode>, store: Store, fetch: RegionCode -> Fetch)
    requires EmptyCount(codes, store, fetch) >= 2
    ensures TwoEmptied(codes, store, fetch)
  {
    var n := |codes| - 1;
    var init := codes[..n];
    if EmptiedAt(store, fetch, codes[n]) {
      EmptyCountPositive(init, store, fetch);
      var i :| 0 <= i < n && EmptiedAt(store, fetch, init[i]);
      assert EmptiedAt(store, fetch, codes[i]) && EmptiedAt(store, fetch, codes[n]);
    } else {
      CountedTwoEmptied(init, store, fetch);
      var i, j :| 0 <= i < j < n && EmptiedAt(store, fetch, init[i]) && EmptiedAt(store, fetch, init[j]);
      assert EmptiedAt(store, fetch, codes[i]) && EmptiedAt(store, fetch, codes[j]);
    }
  }

  lemma {:induction false} TwoEmptiedCounted(codes: seq<RegionCode>, store: Store, fetch: RegionCode -> Fetch)
    ensures TwoEmptied(codes, store, fetch) ==> EmptyCount(codes, store, fetch) >= 2
  {
    if TwoEmptied(codes, store, fetch) {
      var n := |codes| - 1;
      var init := codes[..n];
      var i, j :| 0 <= i < j < |codes| && EmptiedAt(store, fetch, codes[i]) && EmptiedAt(store, fetch, codes[j]);
      assert EmptiedAt(store, fetch, init[i]);
      if j < n {
        assert EmptiedAt(store, fetch, init[j]);
        TwoEmptiedCounted(init, store, fetch);
      } else {
        EmptyCountPositive(init, store, fetch);
      }
    }
  }

  /** When no league request succeeds, no reset is declared, whatever is stored. */
  lemma {:induction false} NoResetWhenFetchesFail(codes: seq<RegionCode>, store: Store, fetch: RegionCode -> Fetch)
    requires forall i :: 0 <= i < |codes| ==> !FetchOk(fetch(codes[i]))
    ensures EmptyCount(codes, store, fetch) == 0
    ensures !ResetDetected(codes, store, fetch)
  {
    if codes != [] {
      var n := |codes| - 1;
      assert forall i :: 0 <= i < n ==> codes[..n][i] == codes[i];
      NoResetWhenFetchesFail(codes[..n], store, fetch);
    }
  }

  /** On a first run, with nothing stored, no reset is declared. */
  lemma {:induction false} NoResetWithoutHistory(codes: seq<RegionCode>, fetch: RegionCode -> Fetch)
    ensures HadDataCount(codes, map[]) == 0
    ensures !ResetDetected(codes, map[], fetch)
  {
    if codes != [] {
      NoResetWithoutHistory(codes[..|codes| - 1], fetch);
    }
  }
}
