/**
 * What a reconciliation run does to each record, stated without the loop:
 * a record's history grows by the positions at which its puuid appears in
 * the snapshot, its tenure and streak by their number, and a record whose
 * puuid does not appear is deactivated and otherwise kept as it was.
 */
module ReconcilerProperties {
  import opened Wrappers
  import opened Config
  import opened Records
  import opened Sorting
  import opened Reconciler

  /** The 1-based positions at which `k` appears in the snapshot, in leaderboard order. */
  function Positions(entries: seq<Entry>, k: Puuid): (pos: seq<nat>)
    ensures forall j :: 0 <= j < |pos| ==> 1 <= pos[j] <= |entries| && entries[pos[j] - 1].puuid == k
  {
    if entries == [] then []
    else
      var n := |entries| - 1;
      Positions(entries[..n], k) + (if entries[n].puuid == k then [n + 1] else [])
  }

  lemma {:induction false} PositionsNonEmpty(entries: seq<Entry>, k: Puuid)
    ensures Positions(entries, k) != [] <==> k in EntryPuuids(entries)
  {
    if entries != [] {
      var n := |entries| - 1;
      PositionsNonEmpty(entries[..n], k);
    }
  }

  /** The last entry of the snapshot for `k`: the one whose name, points and record are kept. */
  function LastEntry(entries: seq<Entry>, k: Puuid): (e: Entry)
    requires Positions(entries, k) != []
    ensures e.puuid == k
  {
    var n := |entries| - 1;
    if entries[n].puuid == k then entries[n] else LastEntry(entries[..n], k)
  }

  /** It is the entry at the last of the puuid's positions. */
  lemma {:induction false} LastEntryAtLastPosition(entries: seq<Entry>, k: Puuid)
    requires Positions(entries, k) != []
    ensures var pos := Positions(entries, k); entries[pos[|pos| - 1] - 1] == LastEntry(entries, k)
  {
    var n := |entries| - 1;
    var pos := Positions(entries, k);
    if entries[n].puuid != k {
      var init := entries[..n];
      PositionsOther(entries, k);
      LastEntryAtLastPosition(init, k);
      var p := pos[|pos| - 1];
      assert 1 <= p <= n && init[p - 1] == LastEntry(init, k);
      assert init[p - 1] == entries[p - 1];
    } else {
      PositionsLast(entries, k);
      assert pos[|pos| - 1] == n + 1;
    }
  }

  /** The record a puuid is taken to have had when the snapshot does not know it yet. */
  function Blank(k: Puuid, now: string): Player
  {
    Player(k, "", "", None, 0, 0, now, 0, 0, None, None, 0.0, [], false, 0)
  }

  /** The record `k` had before the run, or a blank one first seen `now`. */
  function Prior(m0: PlayerMap, k: Puuid, now: string): Player
  {
    if k in m0.records then m0.records[k] else Blank(k, now)
  }

  /** Record `p` after being seen at the 1-based positions `pos`, the last time through entry `e`. */
  function Appeared(p: Player, e: Entry, pos: seq<nat>, visible: bool): Player
    requires pos != []
  {
    var history := p.rankHistory + pos;
    p.(summonerName := e.gameName, tagLine := e.tagLine, leaguePoints := Some(e.leaguePoints),
       wins := e.wins, losses := e.losses, isActive := true, currentRank := Some(pos[|pos| - 1]),
       daysInChallenger := p.daysInChallenger + |pos|,
       currentStreak := (if p.isActive then p.currentStreak else 0) + |pos|,
       rankHistory := history, avgRankAll := Mean(history),
       avgRank := if visible then Some(Mean(history)) else None)
  }

  /** The record of `k` when the run is over (before the overall rank is assigned). */
  function FinalRecord(m0: PlayerMap, entries: seq<Entry>, visible: bool, now: string, k: Puuid): Player
  {
    var pos := Positions(entries, k);
    if pos != [] then Appeared(Prior(m0, k, now), LastEntry(entries, k), pos, visible)
    else Deactivate(Prior(m0, k, now))
  }

  lemma MeanSingleton(r: nat)
    ensures Mean([r]) == r as real
  {
    assert [r][..0] == [];
    assert Sum([r]) == r;
  }

  /** A new record is a blank one seen once. */
  lemma NewPlayerAppeared(e: Entry, r: nat, visible: bool, now: string)
    ensures NewPlayer(e, r, visible, now) == Appeared(Blank(e.puuid, now), e, [r], visible)
  {
    MeanSingleton(r);
  }

  /** Seeing a record once more extends its positions by one. */
  lemma SeenAgain(p: Player, e0: Entry, pos: seq<nat>, e: Entry, r: nat, visible: bool)
    requires pos != []
    ensures Seen(Appeared(p, e0, pos, visible), e, r, visible) == Appeared(p, e, pos + [r], visible)
  {
    assert p.rankHistory + pos + [r] == p.rankHistory + (pos + [r]);
  }

  lemma SeenFirst(p: Player, e: Entry, r: nat, visible: bool)
    ensures Seen(p, e, r, visible) == Appeared(p, e, [r], visible)
  {
  }

  /** One loop iteration leaves the other records alone. */
  lemma StepOther(m: PlayerMap, e: Entry, idx: nat, visible: bool, now: string, k: Puuid)
    requires Consistent(m) && e.puuid != k
    ensures k in Step(m, e, idx, visible, now).records <==> k in m.records
    ensures k in m.records ==> Step(m, e, idx, visible, now).records[k] == m.records[k]
  {
  }

  /** An iteration that meets a record already seen in this snapshot. */
  lemma StepAgain(m: PlayerMap, e: Entry, n: nat, visible: bool, now: string,
                  p: Player, e0: Entry, pos0: seq<nat>)
    requires Consistent(m) && pos0 != []
    requires e.puuid in m.records && m.records[e.puuid] == Appeared(p, e0, pos0, visible)
    ensures Step(m, e, n, visible, now).records[e.puuid] == Appeared(p, e, pos0 + [n + 1], visible)
  {
    SeenAgain(p, e0, pos0, e, n + 1, visible);
  }

  /** An iteration that meets a stored record for the first time in this snapshot. */
  lemma StepFirst(m: PlayerMap, e: Entry, n: nat, visible: bool, now: string)
    requires Consistent(m) && e.puuid in m.records
    ensures Step(m, e, n, visible, now).records[e.puuid] == Appeared(m.records[e.puuid], e, [n + 1], visible)
  {
    SeenFirst(m.records[e.puuid], e, n + 1, visible);
  }

  /** An iteration that meets a puuid with no record. */
  lemma StepNew(m: PlayerMap, e: Entry, n: nat, visible: bool, now: string)
    requires Consistent(m) && e.puuid !in m.records
    ensures Step(m, e, n, visible, now).records[e.puuid] == Appeared(Blank(e.puuid, now), e, [n + 1], visible)
  {
    NewPlayerAppeared(e, n + 1, visible, now);
  }

  /** The positions and last entry of the puuid met by the last iteration. */
  lemma PositionsLast(entries: seq<Entry>, k: Puuid)
    requires entries != [] && entries[|entries| - 1].puuid == k
    ensures var n := |entries| - 1;
            Positions(entries, k) == Positions(entries[..n], k) + [n + 1]
            && LastEntry(entries, k) == entries[n]
  {
  }

  /** The positions and last entry of a puuid the last iteration does not meet. */
  lemma PositionsOther(entries: seq<Entry>, k: Puuid)
    requires entries != [] && entries[|entries| - 1].puuid != k
    ensures var n := |entries| - 1;
            Positions(entries, k) == Positions(entries[..n], k)
            && (Positions(entries, k) != [] ==> LastEntry(entries, k) == LastEntry(entries[..n], k))
  {
  }

  /** The snapshot loop, record by record. */
  lemma {:induction false} MergedRecord(m0: PlayerMap, entries: seq<Entry>, visible: bool, now: string, k: Puuid)
    requires Consistent(m0)
    ensures Positions(entries, k) != [] ==>
              var m := Merged(m0, entries, visible, now);
              k in m.records &&
              m.records[k] == Appeared(Prior(m0, k, now), LastEntry(entries, k), Positions(entries, k), visible)
    ensures Positions(entries, k) == [] ==>
              var m := Merged(m0, entries, visible, now);
              (k in m.records <==> k in m0.records) && (k in m0.records ==> m.records[k] == m0.records[k])
  {
    if entries != [] {
      var n := |entries| - 1;
      var init := entries[..n];
      var e := entries[n];
      MergedRecord(m0, init, visible, now, k);
      var before := Merged(m0, init, visible, now);
      assert Merged(m0, entries, visible, now) == Step(before, e, n, visible, now);
      var pos0 := Positions(init, k);
      if e.puuid == k {
        PositionsLast(entries, k);
        if pos0 != [] {
          StepAgain(before, e, n, visible, now, Prior(m0, k, now), LastEntry(init, k), pos0);
        } else if k in m0.records {
          StepFirst(before, e, n, visible, now);
          assert pos0 + [n + 1] == [n + 1];
        } else {
          StepNew(before, e, n, visible, now);
          assert pos0 + [n + 1] == [n + 1];
        }
      } else {
        PositionsOther(entries, k);
        StepOther(before, e, n, visible, now, k);
      }
    }
  }

  /** Every record once the loops are done (the overall rank aside) is its closed form. */
  lemma FinalRecords(m0: PlayerMap, entries: seq<Entry>, visible: bool, now: string)
    requires Consistent(m0) && m0.seen == {}
    ensures var m := Merged(m0, entries, visible, now);
            forall k :: k in m.records ==> Deactivated(m.records, m.seen)[k] == FinalRecord(m0, entries, visible, now, k)
  {
    var m := Merged(m0, entries, visible, now);
    forall k | k in m.records
      ensures Deactivated(m.records, m.seen)[k] == FinalRecord(m0, entries, visible, now, k)
    {
      MergedRecord(m0, entries, visible, now, k);
      PositionsNonEmpty(entries, k);
    }
  }

  lemma {:induction false} InPuuids(players: seq<Player>, k: Puuid)
    ensures k in Puuids(players) <==> exists i :: 0 <= i < |players| && players[i].puuid == k
  {
    if players != [] {
      var n := |players| - 1;
      InPuuids(players[..n], k);
      if k in Puuids(players[..n]) {
        var i :| 0 <= i < n && players[..n][i].puuid == k;
        assert players[i].puuid == k;
      }
      if exists i :: 0 <= i < |players| && players[i].puuid == k {
        var i :| 0 <= i < |players| && players[i].puuid == k;
        if i < n { assert players[..n][i].puuid == k; }
      }
    }
  }

  /** A list whose puuids are pairwise different has as many puuids as records. */
  lemma {:induction false} PuuidsCount(players: seq<Player>)
    requires forall i, j :: 0 <= i < j < |players| ==> players[i].puuid != players[j].puuid
    ensures |Puuids(players)| == |players|
  {
    if players != [] {
      var n := |players| - 1;
      PuuidsCount(players[..n]);
      InPuuids(players[..n], players[n].puuid);
    }
  }

  lemma TenureFirstTotal()
    ensures TotalPreorder(TenureFirst)
  {
  }

  /** The list the run sorts: every element is the record its puuid maps to, and no puuid is listed twice. */
  lemma ValuesFacts(m: PlayerMap)
    requires Consistent(m)
    ensures var d := Deactivated(m.records, m.seen);
            var vals := Values(m.order, d);
            && (forall x :: x in vals ==> x.puuid in m.records && x == d[x.puuid])
            && (forall j :: 0 <= j < |vals| ==> vals[j].puuid == m.order[j])
            && Distinct(vals)
  {
    var d := Deactivated(m.records, m.seen);
    var vals := Values(m.order, d);
    assert forall j :: 0 <= j < |vals| ==> vals[j] == d[m.order[j]] && vals[j].puuid == m.order[j];
  }

  /** The list the run sorts holds each record in its closed form. */
  lemma ValuesFinal(m0: PlayerMap, entries: seq<Entry>, visible: bool, now: string)
    requires Consistent(m0) && m0.seen == {}
    ensures var m := Merged(m0, entries, visible, now);
            forall x :: x in Values(m.order, Deactivated(m.records, m.seen)) ==>
              x == FinalRecord(m0, entries, visible, now, x.puuid)
  {
    var m := Merged(m0, entries, visible, now);
    FinalRecords(m0, entries, visible, now);
    ValuesFacts(m);
  }

  lemma PermutedFinal(vals: seq<Player>, sorted: seq<Player>, m0: PlayerMap, entries: seq<Entry>,
                      visible: bool, now: string)
    requires multiset(sorted) == multiset(vals)
    requires forall x :: x in vals ==> x == FinalRecord(m0, entries, visible, now, x.puuid)
    ensures forall x :: x in sorted ==> x == FinalRecord(m0, entries, visible, now, x.puuid)
  {
    forall x | x in sorted ensures x == FinalRecord(m0, entries, visible, now, x.puuid) {
      assert x in multiset(vals);
    }
  }

  lemma RankedFinal(sorted: seq<Player>, m0: PlayerMap, entries: seq<Entry>, visible: bool, now: string)
    requires forall x :: x in sorted ==> x == FinalRecord(m0, entries, visible, now, x.puuid)
    ensures var out := AssignRanks(sorted);
            forall i :: 0 <= i < |out| ==> out[i] == FinalRecord(m0, entries, visible, now, out[i].puuid).(rank := i + 1)
  {
    var out := AssignRanks(sorted);
    forall i | 0 <= i < |out|
      ensures out[i] == FinalRecord(m0, entries, visible, now, out[i].puuid).(rank := i + 1)
    {
      assert sorted[i] in sorted;
    }
  }

  /** Every saved record is its closed form, numbered by its place in the list. */
  lemma ReconciledRecords(players: seq<Player>, entries: seq<Entry>, maxSlots: nat, now: string)
    ensures var out := Reconciled(players, entries, maxSlots, now);
            var m0 := IndexPlayers(players);
            forall i :: 0 <= i < |out| ==>
              out[i] == FinalRecord(m0, entries, Visible(|entries|, maxSlots), now, out[i].puuid).(rank := i + 1)
  {
    var m0 := IndexPlayers(players);
    var v := Visible(|entries|, maxSlots);
    var m := Merged(m0, entries, v, now);
    var vals := Values(m.order, Deactivated(m.records, m.seen));
    var sorted := SortBy(vals, TenureFirst);
    ValuesFinal(m0, entries, v, now);
    PermutedFinal(vals, sorted, m0, entries, v, now);
    RankedFinal(sorted, m0, entries, v, now);
  }

  /** Ranking a permutation of a list keeps exactly its puuids. */
  lemma PermutedKeys(vals: seq<Player>, sorted: seq<Player>, order: seq<Puuid>)
    requires multiset(sorted) == multiset(vals)
    requires |vals| == |order| && forall j :: 0 <= j < |vals| ==> vals[j].puuid == order[j]
    ensures forall k :: k in Puuids(AssignRanks(sorted)) <==> k in order
  {
    var out := AssignRanks(sorted);
    assert forall i :: 0 <= i < |out| ==> out[i].puuid == sorted[i].puuid;
    forall k ensures k in Puuids(out) <==> k in order {
      InPuuids(out, k);
      if k in Puuids(out) {
        var i :| 0 <= i < |out| && out[i].puuid == k;
        assert sorted[i] in multiset(vals);
        var j :| 0 <= j < |vals| && vals[j] == sorted[i];
        assert order[j] == k;
      }
      if k in order {
        var j :| 0 <= j < |order| && order[j] == k;
        assert vals[j] in multiset(sorted);
        var i :| 0 <= i < |sorted| && sorted[i] == vals[j];
        assert out[i].puuid == k;
      }
    }
  }

  /** ... and repeats none of them when the list did not. */
  lemma PermutedDistinct(vals: seq<Player>, sorted: seq<Player>, order: seq<Puuid>)
    requires multiset(sorted) == multiset(vals) && Distinct(sorted)
    requires |vals| == |order| && forall j :: 0 <= j < |vals| ==> vals[j].puuid == order[j]
    requires Distinct(order)
    ensures var out := AssignRanks(sorted);
            forall i, j :: 0 <= i < j < |out| ==> out[i].puuid != out[j].puuid
  {
    forall i, j | 0 <= i < j < |sorted| ensures sorted[i].puuid != sorted[j].puuid {
      assert sorted[i] in multiset(vals) && sorted[j] in multiset(vals);
      var a :| 0 <= a < |vals| && vals[a] == sorted[i];
      var b :| 0 <= b < |vals| && vals[b] == sorted[j];
      assert a != b;
    }
  }

  /** The list the run sorts follows the key order of the dict. */
  lemma ValuesPuuids(m: PlayerMap)
    requires Consistent(m)
    ensures var vals := Values(m.order, Deactivated(m.records, m.seen));
            && (forall j :: 0 <= j < |vals| ==> vals[j].puuid == m.order[j])
            && Distinct(vals)
  {
    var vals := Values(m.order, Deactivated(m.records, m.seen));
    assert forall j :: 0 <= j < |vals| ==> vals[j].puuid == m.order[j];
  }

  /** No record is dropped, every snapshot puuid gets one, and none gets two. */
  lemma ReconciledKeys(players: seq<Player>, entries: seq<Entry>, maxSlots: nat, now: string)
    ensures var out := Reconciled(players, entries, maxSlots, now);
            Puuids(out) == Puuids(players) + EntryPuuids(entries)
    ensures var out := Reconciled(players, entries, maxSlots, now);
            forall i, j :: 0 <= i < j < |out| ==> out[i].puuid != out[j].puuid
  {
    var m := Merged(IndexPlayers(players), entries, Visible(|entries|, maxSlots), now);
    RankedKeys(m);
  }

  /** The ranked list of a consistent dict lists each of its keys exactly once. */
  lemma RankedKeys(m: PlayerMap)
    requires Consistent(m)
    ensures var out := AssignRanks(SortBy(Values(m.order, Deactivated(m.records, m.seen)), TenureFirst));
            && Puuids(out) == m.records.Keys
            && forall i, j :: 0 <= i < j < |out| ==> out[i].puuid != out[j].puuid
  {
    var vals := Values(m.order, Deactivated(m.records, m.seen));
    var sorted := SortBy(vals, TenureFirst);
    ValuesPuuids(m);
    SortByDistinct(vals, TenureFirst);
    PermutedKeys(vals, sorted, m.order);
    PermutedDistinct(vals, sorted, m.order);
    assert forall k :: k in m.order <==> k in m.records;
  }

  /** The list runs from the longest tenure down, and `rank` numbers it from 1. */
  lemma ReconciledOrder(players: seq<Player>, entries: seq<Entry>, maxSlots: nat, now: string)
    ensures var out := Reconciled(players, entries, maxSlots, now);
            forall i :: 0 <= i < |out| ==> out[i].rank == i + 1
    ensures var out := Reconciled(players, entries, maxSlots, now);
            forall i, j :: 0 <= i < j < |out| ==> out[i].daysInChallenger >= out[j].daysInChallenger
  {
    var m := Merged(IndexPlayers(players), entries, Visible(|entries|, maxSlots), now);
    var vals := Values(m.order, Deactivated(m.records, m.seen));
    TenureFirstTotal();
    SortBySorted(vals, TenureFirst);
  }

  /**
   * The keys from index `from` on are new to `records` and come in the order
   * in which their puuids first appear in the snapshot.
   */
  predicate AppendedInOrder(order: seq<Puuid>, from: nat, records: map<Puuid, Player>, entries: seq<Entry>)
  {
    && from <= |order|
    && (forall a :: from <= a < |order| ==> order[a] !in records && Positions(entries, order[a]) != [])
    && (forall a, b :: from <= a < b < |order| ==> Positions(entries, order[a])[0] < Positions(entries, order[b])[0])
  }

  /** Extending the snapshot by one entry keeps every earlier first position. */
  lemma FirstPositionKept(entries: seq<Entry>, k: Puuid)
    requires entries != [] && Positions(entries[..|entries| - 1], k) != []
    ensures Positions(entries, k) != [] && Positions(entries, k)[0] == Positions(entries[..|entries| - 1], k)[0]
  {
    var n := |entries| - 1;
    var tail: seq<nat> := if entries[n].puuid == k then [n + 1] else [];
    assert (Positions(entries[..n], k) + tail)[0] == Positions(entries[..n], k)[0];
  }

  lemma AppendedStep(order: seq<Puuid>, from: nat, records: map<Puuid, Player>, entries: seq<Entry>, isNew: bool)
    requires entries != [] && AppendedInOrder(order, from, records, entries[..|entries| - 1])
    requires var k := entries[|entries| - 1].puuid;
      isNew ==> k !in records && k !in EntryPuuids(entries[..|entries| - 1])
    ensures var k := entries[|entries| - 1].puuid;
      AppendedInOrder(if isNew then order + [k] else order, from, records, entries)
  {
    var n := |entries| - 1;
    var k := entries[n].puuid;
    AppendedKept(order, from, records, entries);
    if isNew {
      PositionsNonEmpty(entries[..n], k);
      assert Positions(entries, k) == [n + 1];
      AppendedLast(order, from, records, entries, k);
    }
  }

  lemma AppendedKept(order: seq<Puuid>, from: nat, records: map<Puuid, Player>, entries: seq<Entry>)
    requires entries != [] && AppendedInOrder(order, from, records, entries[..|entries| - 1])
    ensures AppendedInOrder(order, from, records, entries)
    ensures forall a :: from <= a < |order| ==> Positions(entries, order[a])[0] < |entries|
  {
    var n := |entries| - 1;
    forall a | from <= a < |order|
      ensures Positions(entries, order[a]) != [] && Positions(entries, order[a])[0] == Positions(entries[..n], order[a])[0] <= n
    {
      FirstPositionKept(entries, order[a]);
    }
  }

  lemma AppendedLast(order: seq<Puuid>, from: nat, records: map<Puuid, Player>, entries: seq<Entry>, k: Puuid)
    requires AppendedInOrder(order, from, records, entries)
    requires forall a :: from <= a < |order| ==> Positions(entries, order[a])[0] < |entries|
    requires k !in records && Positions(entries, k) == [|entries|]
    ensures AppendedInOrder(order + [k], from, records, entries)
  {
    var next := order + [k];
    forall a | from <= a < |next| ensures next[a] !in records && Positions(entries, next[a]) != [] {
      if a < |order| {
        assert next[a] == order[a];
      }
    }
    forall a, b | from <= a < b < |next|
      ensures Positions(entries, next[a])[0] < Positions(entries, next[b])[0]
    {
      assert next[a] == order[a];
      if b < |order| {
        assert next[b] == order[b];
      }
    }
  }

  /**
   * The snapshot loop keeps the stored keys in place and appends each new
   * puuid when it first appears, so new keys follow their first positions.
   */
  lemma {:induction false} MergedOrder(m0: PlayerMap, entries: seq<Entry>, visible: bool, now: string)
    requires Consistent(m0)
    ensures var m := Merged(m0, entries, visible, now);
            |m0.order| <= |m.order| && m.order[..|m0.order|] == m0.order
    ensures var m := Merged(m0, entries, visible, now);
            AppendedInOrder(m.order, |m0.order|, m0.records, entries)
  {
    if entries != [] {
      var n := |entries| - 1;
      var mi := Merged(m0, entries[..n], visible, now);
      MergedOrder(m0, entries[..n], visible, now);
      var k := entries[n].puuid;
      AppendedStep(mi.order, |m0.order|, m0.records, entries, k !in mi.records);
      var m := Merged(m0, entries, visible, now);
      assert m.order == if k in mi.records then mi.order else mi.order + [k];
      assert m.order[..|m0.order|] == mi.order[..|m0.order|];
    }
  }

  /**
   * A puuid's place among the dict's keys: a stored puuid by the index of
   * its first stored record, a new one after all stored records by its first
   * snapshot position.
   */
  function DictPlace(players: seq<Player>, entries: seq<Entry>, k: Puuid): nat
  {
    if k in Puuids(players) then FirstIndex(players, k)
    else |players| + (if Positions(entries, k) != [] then Positions(entries, k)[0] else 0)
  }

  /** The keys rise in `DictPlace`. */
  predicate InDictOrder(order: seq<Puuid>, players: seq<Player>, entries: seq<Entry>)
  {
    forall a, b :: 0 <= a < b < |order| ==> DictPlace(players, entries, order[a]) < DictPlace(players, entries, order[b])
  }

  /** The dict's keys after the snapshot loop come in `DictPlace` order. */
  lemma DictOrder(players: seq<Player>, entries: seq<Entry>, visible: bool, now: string)
    ensures InDictOrder(Merged(IndexPlayers(players), entries, visible, now).order, players, entries)
  {
    var m0 := IndexPlayers(players);
    var m := Merged(m0, entries, visible, now);
    MergedOrder(m0, entries, visible, now);
    forall a, b | 0 <= a < b < |m.order|
      ensures DictPlace(players, entries, m.order[a]) < DictPlace(players, entries, m.order[b])
    {
      if a < |m0.order| {
        assert m.order[a] == m0.order[a] && m0.order[a] in m0.records;
        if b < |m0.order| {
          assert m.order[b] == m0.order[b] && m0.order[b] in m0.records;
        }
      }
    }
  }

  /** Records of equal tenure come in `DictPlace` order. */
  predicate TiesInDictOrder(out: seq<Player>, players: seq<Player>, entries: seq<Entry>)
  {
    forall i, j :: 0 <= i < j < |out| && out[i].daysInChallenger == out[j].daysInChallenger ==>
      DictPlace(players, entries, out[i].puuid) < DictPlace(players, entries, out[j].puuid)
  }

  /**
   * `sorted` is stable: records of equal tenure are saved in the order of
   * their keys in the dict, stored puuids first by their first stored record,
   * then new puuids by their first snapshot position.
   */
  lemma ReconciledTies(players: seq<Player>, entries: seq<Entry>, maxSlots: nat, now: string)
    ensures TiesInDictOrder(Reconciled(players, entries, maxSlots, now), players, entries)
  {
    var m := Merged(IndexPlayers(players), entries, Visible(|entries|, maxSlots), now);
    DictOrder(players, entries, Visible(|entries|, maxSlots), now);
    RankedTies(m, players, entries);
  }

  /** Ties in the ranked list of a dict come in the order of its keys. */
  lemma RankedTies(m: PlayerMap, players: seq<Player>, entries: seq<Entry>)
    requires Consistent(m) && InDictOrder(m.order, players, entries)
    ensures TiesInDictOrder(AssignRanks(SortBy(Values(m.order, Deactivated(m.records, m.seen)), TenureFirst)), players, entries)
  {
    var vals := Values(m.order, Deactivated(m.records, m.seen));
    var place := (p: Player) => DictPlace(players, entries, p.puuid);
    ValuesPuuids(m);
    assert forall a, b :: 0 <= a < b < |vals| ==> place(vals[a]) < place(vals[b]);
    TenureFirstTotal();
    SortByTiesByPlace(vals, TenureFirst, place);
    SortedTies(SortBy(vals, TenureFirst), place, players, entries);
  }

  lemma SortedTies(sorted: seq<Player>, place: Player -> int, players: seq<Player>, entries: seq<Entry>)
    requires TiesByPlace(sorted, TenureFirst, place)
    requires forall p :: place(p) == DictPlace(players, entries, p.puuid)
    ensures TiesInDictOrder(AssignRanks(sorted), players, entries)
  {
    var out := AssignRanks(sorted);
    forall i, j | 0 <= i < j < |out| && out[i].daysInChallenger == out[j].daysInChallenger
      ensures DictPlace(players, entries, out[i].puuid) < DictPlace(players, entries, out[j].puuid)
    {
      assert out[i].puuid == sorted[i].puuid && out[j].puuid == sorted[j].puuid;
      assert Tied(TenureFirst, sorted[i], sorted[j]);
    }
  }

  lemma SavedRecord(players: seq<Player>, entries: seq<Entry>, maxSlots: nat, now: string, i: nat)
    requires i < |Reconciled(players, entries, maxSlots, now)|
    ensures var q := Reconciled(players, entries, maxSlots, now)[i];
            q == FinalRecord(IndexPlayers(players), entries, Visible(|entries|, maxSlots), now, q.puuid).(rank := i + 1)
  {
    ReconciledRecords(players, entries, maxSlots, now);
  }

  /**
   * `q` is `p` after being seen at its positions in the snapshot: active,
   * ranked at its last position, its history extended by its positions, tenure
   * and streak grown by their number (the streak starting over if `p` was
   * inactive), the overall average the mean of the history, the public
   * average published only when `visible`, and the name, tag, points, wins
   * and losses of its last entry.
   */
  predicate SeenAt(q: Player, p: Player, entries: seq<Entry>, visible: bool)
  {
    var pos := Positions(entries, q.puuid);
    && pos != []
    && q.puuid == p.puuid
    && q.isActive && q.currentRank == Some(pos[|pos| - 1])
    && q.rankHistory == p.rankHistory + pos
    && q.daysInChallenger == p.daysInChallenger + |pos|
    && q.currentStreak == (if p.isActive then p.currentStreak else 0) + |pos|
    && q.avgRankAll == Mean(q.rankHistory)
    && q.avgRank == (if visible then Some(q.avgRankAll) else None)
    && q.firstSeenDate == p.firstSeenDate
    && var e := LastEntry(entries, q.puuid);
       q.summonerName == e.gameName && q.tagLine == e.tagLine
       && q.leaguePoints == Some(e.leaguePoints) && q.wins == e.wins && q.losses == e.losses
  }

  /** A saved record whose puuid is in the snapshot is its stored record (or a blank one) seen at its positions. */
  lemma ReconciledPresent(players: seq<Player>, entries: seq<Entry>, maxSlots: nat, now: string, i: nat)
    requires i < |Reconciled(players, entries, maxSlots, now)|
    requires Reconciled(players, entries, maxSlots, now)[i].puuid in EntryPuuids(entries)
    ensures var q := Reconciled(players, entries, maxSlots, now)[i];
            SeenAt(q, Prior(IndexPlayers(players), q.puuid, now), entries, |entries| >= MinPlayersThreshold(maxSlots))
  {
    var q := Reconciled(players, entries, maxSlots, now)[i];
    var visible := Visible(|entries|, maxSlots);
    var p := Prior(IndexPlayers(players), q.puuid, now);
    SavedRecord(players, entries, maxSlots, now, i);
    PositionsNonEmpty(entries, q.puuid);
    var pos := Positions(entries, q.puuid);
    RankedSeenAt(q, p, entries, q.puuid, visible, i + 1);
  }

  lemma RankedSeenAt(q: Player, p: Player, entries: seq<Entry>, k: Puuid, visible: bool, r: nat)
    requires Positions(entries, k) != [] && p.puuid == k
    requires q == Appeared(p, LastEntry(entries, k), Positions(entries, k), visible).(rank := r)
    ensures SeenAt(q, p, entries, visible)
  {
  }

  /** A puuid the stored list does not hold starts from a blank record dated `now`. */
  lemma PriorOfNew(players: seq<Player>, k: Puuid, now: string)
    requires k !in Puuids(players)
    ensures Prior(IndexPlayers(players), k, now) == Blank(k, now)
  {
  }

  /** So a new player's history is exactly its positions, and its tenure and streak their number. */
  lemma SeenAtFromBlank(q: Player, entries: seq<Entry>, visible: bool, now: string)
    requires SeenAt(q, Blank(q.puuid, now), entries, visible)
    ensures q.rankHistory == Positions(entries, q.puuid)
    ensures q.daysInChallenger == q.currentStreak == |Positions(entries, q.puuid)|
    ensures q.firstSeenDate == now
  {
    assert [] + Positions(entries, q.puuid) == Positions(entries, q.puuid);
  }

  /**
   * A record whose puuid is not in the snapshot was stored before, and is
   * kept deactivated: inactive, no current rank, points or streak, and the
   * same history, tenure and averages as the stored record.
   */
  lemma ReconciledAbsent(players: seq<Player>, entries: seq<Entry>, maxSlots: nat, now: string, i: nat)
    requires i < |Reconciled(players, entries, maxSlots, now)|
    requires Reconciled(players, entries, maxSlots, now)[i].puuid !in EntryPuuids(entries)
    ensures var q := Reconciled(players, entries, maxSlots, now)[i];
            && q.puuid in IndexPlayers(players).records
            && IndexPlayers(players).records[q.puuid] in players
            && q == Deactivate(IndexPlayers(players).records[q.puuid]).(rank := i + 1)
  {
    var out := Reconciled(players, entries, maxSlots, now);
    var q := out[i];
    SavedRecord(players, entries, maxSlots, now, i);
    ReconciledKeys(players, entries, maxSlots, now);
    PositionsNonEmpty(entries, q.puuid);
    InPuuids(out, q.puuid);
  }

  /** An empty snapshot keeps every stored record, deactivated, with its history and tenure. */
  lemma EmptySnapshotDeactivatesAll(players: seq<Player>, maxSlots: nat, now: string)
    ensures Puuids(Reconciled(players, [], maxSlots, now)) == Puuids(players)
    ensures var out := Reconciled(players, [], maxSlots, now);
            forall i :: 0 <= i < |out| ==>
              && out[i].puuid in IndexPlayers(players).records
              && !out[i].isActive && out[i].currentRank == None && out[i].currentStreak == 0
              && out[i].rankHistory == IndexPlayers(players).records[out[i].puuid].rankHistory
              && out[i].daysInChallenger == IndexPlayers(players).records[out[i].puuid].daysInChallenger
  {
    var out := Reconciled(players, [], maxSlots, now);
    ReconciledKeys(players, [], maxSlots, now);
    forall i | 0 <= i < |out|
      ensures && out[i].puuid in IndexPlayers(players).records
              && !out[i].isActive && out[i].currentRank == None && out[i].currentStreak == 0
              && out[i].rankHistory == IndexPlayers(players).records[out[i].puuid].rankHistory
              && out[i].daysInChallenger == IndexPlayers(players).records[out[i].puuid].daysInChallenger
    {
      ReconciledAbsent(players, [], maxSlots, now, i);
    }
  }

  lemma {:induction false} PositionsOnce(entries: seq<Entry>, idx: nat)
    requires idx < |entries|
    requires forall j :: 0 <= j < |entries| && j != idx ==> entries[j].puuid != entries[idx].puuid
    ensures Positions(entries, entries[idx].puuid) == [idx + 1]
  {
    var k := entries[idx].puuid;
    var n := |entries| - 1;
    var init := entries[..n];
    assert forall j :: 0 <= j < n ==> init[j] == entries[j];
    if idx < n {
      PositionsOnce(init, idx);
      PositionsOther(entries, k);
    } else {
      PositionsAbsent(init, k);
      PositionsLast(entries, k);
    }
  }

  lemma {:induction false} PositionsAbsent(entries: seq<Entry>, k: Puuid)
    requires forall j :: 0 <= j < |entries| ==> entries[j].puuid != k
    ensures Positions(entries, k) == []
  {
    if entries != [] {
      PositionsAbsent(entries[..|entries| - 1], k);
    }
  }

  /**
   * `q` is `p` seen once more, at 1-based position `r`: one more day of
   * tenure, `r` appended to the history and taken as current rank, the streak
   * one longer if `p` was active and 1 otherwise.
   */
  predicate OnceMore(q: Player, p: Player, r: nat)
  {
    && q.isActive && q.currentRank == Some(r)
    && q.rankHistory == p.rankHistory + [r]
    && q.daysInChallenger == p.daysInChallenger + 1
    && q.currentStreak == (if p.isActive then p.currentStreak + 1 else 1)
  }

  /** The usual case of a puuid listed once, at 0-based index `idx`. */
  lemma ReconciledSeenOnce(players: seq<Player>, entries: seq<Entry>, maxSlots: nat, now: string, i: nat, idx: nat)
    requires i < |Reconciled(players, entries, maxSlots, now)|
    requires idx < |entries| && entries[idx].puuid == Reconciled(players, entries, maxSlots, now)[i].puuid
    requires forall j :: 0 <= j < |entries| && j != idx ==> entries[j].puuid != entries[idx].puuid
    ensures var q := Reconciled(players, entries, maxSlots, now)[i];
            OnceMore(q, Prior(IndexPlayers(players), q.puuid, now), idx + 1)
  {
    var q := Reconciled(players, entries, maxSlots, now)[i];
    var p := Prior(IndexPlayers(players), q.puuid, now);
    PositionsNonEmpty(entries, q.puuid);
    PositionsOnce(entries, idx);
    ReconciledPresent(players, entries, maxSlots, now, i);
    SeenAtOnce(q, p, entries, Visible(|entries|, maxSlots), idx + 1);
  }

  lemma SeenAtOnce(q: Player, p: Player, entries: seq<Entry>, visible: bool, r: nat)
    requires SeenAt(q, p, entries, visible) && Positions(entries, q.puuid) == [r]
    ensures OnceMore(q, p, r)
  {
  }

  /** Seen once more, the history ends with the new position; from a blank record, it is that position alone. */
  lemma OnceMoreHistory(q: Player, p: Player, r: nat, now: string)
    requires OnceMore(q, p, r)
    ensures q.rankHistory[|q.rankHistory| - 1] == r
    ensures p == Blank(q.puuid, now) ==> q.rankHistory == [r] && q.daysInChallenger == 1 && q.currentStreak == 1
  {
    LastOfAppend(p.rankHistory, r);
  }

  lemma LastOfAppend(s: seq<nat>, x: nat)
    ensures (s + [x])[|s + [x]| - 1] == x
  {
  }

  lemma AppearedWellFormed(p: Player, e: Entry, pos: seq<nat>, visible: bool)
    requires WellFormed(p) && pos != []
    ensures WellFormed(Appeared(p, e, pos, visible))
  {
    var q := Appeared(p, e, pos, visible);
    assert q.rankHistory[|q.rankHistory| - 1] == pos[|pos| - 1];
  }

  lemma FinalWellFormed(m0: PlayerMap, entries: seq<Entry>, visible: bool, now: string, k: Puuid)
    requires WellFormed(Prior(m0, k, now))
    ensures WellFormed(FinalRecord(m0, entries, visible, now, k))
  {
    var pos := Positions(entries, k);
    if pos != [] {
      AppearedWellFormed(Prior(m0, k, now), LastEntry(entries, k), pos, visible);
    }
  }

  /** A stored record, or a blank one, keeps the record invariant. */
  lemma PriorWellFormed(players: seq<Player>, k: Puuid, now: string)
    requires forall p :: p in players ==> WellFormed(p)
    ensures WellFormed(Prior(IndexPlayers(players), k, now))
  {
    var m0 := IndexPlayers(players);
    if k in m0.records {
      assert m0.records[k] in players;
    }
  }

  /** Numbering a record leaves the record invariant alone. */
  lemma RankedWellFormed(f: Player, r: nat)
    requires WellFormed(f)
    ensures WellFormed(f.(rank := r))
  {
  }

  lemma SavedWellFormed(players: seq<Player>, entries: seq<Entry>, maxSlots: nat, now: string, i: nat)
    requires forall p :: p in players ==> WellFormed(p)
    requires i < |Reconciled(players, entries, maxSlots, now)|
    ensures WellFormed(Reconciled(players, entries, maxSlots, now)[i])
  {
    var q := Reconciled(players, entries, maxSlots, now)[i];
    var m0 := IndexPlayers(players);
    var f := FinalRecord(m0, entries, Visible(|entries|, maxSlots), now, q.puuid);
    SavedRecord(players, entries, maxSlots, now, i);
    PriorWellFormed(players, q.puuid, now);
    FinalWellFormed(m0, entries, Visible(|entries|, maxSlots), now, q.puuid);
    RankedWellFormed(f, i + 1);
  }

  /** Reconciling keeps the record invariant of every record. */
  lemma ReconciledWellFormed(players: seq<Player>, entries: seq<Entry>, maxSlots: nat, now: string)
    requires forall p :: p in players ==> WellFormed(p)
    ensures forall q :: q in Reconciled(players, entries, maxSlots, now) ==> WellFormed(q)
  {
    var out := Reconciled(players, entries, maxSlots, now);
    forall q | q in out ensures WellFormed(q) {
      var i :| 0 <= i < |out| && out[i] == q;
      SavedWellFormed(players, entries, maxSlots, now, i);
    }
  }

  /**
   * A puuid listed twice in one snapshot is counted twice: two days of
   * tenure, both positions in the history, a streak of 2.
   */
  predicate CountedTwice(q: Player)
  {
    q.daysInChallenger == 2 && q.rankHistory == [1, 2] && q.currentStreak == 2 && q.currentRank == Some(2)
  }

  lemma DuplicateEntryCountsTwice(e: Entry, maxSlots: nat, now: string)
    ensures var out := Reconciled([], [e, e], maxSlots, now);
            |out| == 1 && CountedTwice(out[0])
  {
    var entries := [e, e];
    var out := Reconciled([], entries, maxSlots, now);
    DuplicateSavedOnce(e, maxSlots, now);
    TwoPositions(e);
    PriorOfNew([], e.puuid, now);
    ReconciledPresent([], entries, maxSlots, now, 0);
    SeenAtFromBlank(out[0], entries, |entries| >= MinPlayersThreshold(maxSlots), now);
  }

  lemma DuplicateSavedOnce(e: Entry, maxSlots: nat, now: string)
    ensures var out := Reconciled([], [e, e], maxSlots, now);
            |out| == 1 && out[0].puuid == e.puuid && e.puuid in EntryPuuids([e, e])
  {
    var out := Reconciled([], [e, e], maxSlots, now);
    ReconciledKeys([], [e, e], maxSlots, now);
    TwoPositions(e);
    PuuidsCount(out);
    InPuuids(out, e.puuid);
  }

  lemma TwoPositions(e: Entry)
    ensures EntryPuuids([e, e]) == {e.puuid}
    ensures Positions([e, e], e.puuid) == [1, 2]
  {
    var entries := [e, e];
    assert entries[..1] == [e] && [e][..0] == [];
    assert EntryPuuids([e]) == {e.puuid};
    assert Positions([e], e.puuid) == [1];
    assert Positions(entries, e.puuid) == Positions(entries[..1], e.puuid) + [2];
  }
}
