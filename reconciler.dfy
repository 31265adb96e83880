/**
 * The reconciler: merges one day's ordered leaderboard snapshot into a
 * region's player records (tenure, streak, rank history, averages), marks
 * everyone missing from the snapshot inactive, and ranks all records by tenure.
 */
module Reconciler {
  import opened Wrappers
  import opened Config
  import opened Records
  import opened Sorting

  /**
   * The `player_map` dict (its keys in insertion order and the records they
   * map to) together with `current_puuids`, the puuids seen so far in the snapshot.
   */
  datatype PlayerMap = PlayerMap(order: seq<Puuid>, records: map<Puuid, Player>, seen: set<Puuid>)

  predicate Consistent(m: PlayerMap)
  {
    && Distinct(m.order)
    && (forall i :: 0 <= i < |m.order| ==> m.order[i] in m.records)
    && (forall k :: k in m.records ==> k in m.order)
    && (forall k :: k in m.records ==> m.records[k].puuid == k)
  }

  /** Putting a record under its own puuid keeps a dict consistent. */
  lemma Put(m: PlayerMap, v: Player, seen: set<Puuid>)
    requires Consistent(m)
    ensures Consistent(PlayerMap(if v.puuid in m.records then m.order else m.order + [v.puuid],
                                 m.records[v.puuid := v], seen))
  {
    var k := v.puuid;
    var order := if k in m.records then m.order else m.order + [k];
    var records := m.records[k := v];
    assert forall i :: 0 <= i < |order| ==> order[i] in records by {
      forall i | 0 <= i < |order| ensures order[i] in records {
        if i < |m.order| { assert order[i] == m.order[i]; }
      }
    }
    assert forall q :: q in records ==> q in order by {
      forall q | q in records ensures q in order {
        if q != k { assert q in m.records; }
      }
    }
  }

  /** The puuids of a list of records. */
  function Puuids(players: seq<Player>): set<Puuid>
  {
    if players == [] then {} else Puuids(players[..|players| - 1]) + {players[|players| - 1].puuid}
  }

  /** The puuids of a snapshot. */
  function EntryPuuids(entries: seq<Entry>): set<Puuid>
  {
    if entries == [] then {} else EntryPuuids(entries[..|entries| - 1]) + {entries[|entries| - 1].puuid}
  }

  /** The index of the first stored record with puuid `k`, or `|players|` when there is none. */
  function FirstIndex(players: seq<Player>, k: Puuid): (i: nat)
    ensures i <= |players|
    ensures i < |players| <==> k in Puuids(players)
    ensures i < |players| ==> players[i].puuid == k
  {
    if players == [] then 0
    else
      var n := |players| - 1;
      var f := FirstIndex(players[..n], k);
      if f < n then f else if players[n].puuid == k then n else n + 1
  }

  /** The index of the last stored record with puuid `k`, or -1 when there is none. */
  function LastIndex(players: seq<Player>, k: Puuid): (i: int)
    ensures -1 <= i < |players|
    ensures 0 <= i <==> k in Puuids(players)
    ensures 0 <= i ==> players[i].puuid == k
  {
    if players == [] then -1
    else if players[|players| - 1].puuid == k then |players| - 1
    else LastIndex(players[..|players| - 1], k)
  }

  /** No record ahead of `FirstIndex` has the puuid. */
  lemma {:induction false} FirstIndexIsFirst(players: seq<Player>, k: Puuid)
    ensures forall j :: 0 <= j < FirstIndex(players, k) ==> players[j].puuid != k
  {
    if players != [] {
      var n := |players| - 1;
      FirstIndexIsFirst(players[..n], k);
      assert forall j :: 0 <= j < n ==> players[..n][j] == players[j];
    }
  }

  /** No record after `LastIndex` has the puuid. */
  lemma {:induction false} LastIndexIsLast(players: seq<Player>, k: Puuid)
    ensures forall j :: LastIndex(players, k) < j < |players| ==> players[j].puuid != k
  {
    if players != [] && players[|players| - 1].puuid != k {
      var n := |players| - 1;
      LastIndexIsLast(players[..n], k);
      assert forall j :: 0 <= j < n ==> players[..n][j] == players[j];
    }
  }

  /** Each key maps to the last record with that puuid. */
  predicate LastRecords(records: map<Puuid, Player>, players: seq<Player>)
  {
    forall k :: k in records ==> 0 <= LastIndex(players, k) && records[k] == players[LastIndex(players, k)]
  }

  /** The keys come in the order in which their puuids first occur. */
  predicate FirstOccurrenceOrder(order: seq<Puuid>, players: seq<Player>)
  {
    forall a, b :: 0 <= a < b < |order| ==> FirstIndex(players, order[a]) < FirstIndex(players, order[b])
  }

  /**
   * `m` is the dict `{p['puuid']: p for p in players}`: its keys are the stored
   * puuids, each placed where its puuid first occurs and mapped to the last
   * record with that puuid.
   */
  predicate Indexes(m: PlayerMap, players: seq<Player>)
  {
    && Consistent(m) && m.seen == {}
    && m.records.Keys == Puuids(players)
    && LastRecords(m.records, players)
    && FirstOccurrenceOrder(m.order, players)
  }

  /** `{p['puuid']: p for p in players}`, built one record at a time. */
  function IndexPlayers(players: seq<Player>): (m: PlayerMap)
    ensures Indexes(m, players)
  {
    if players == [] then PlayerMap([], map[], {})
    else
      var m := IndexPlayers(players[..|players| - 1]);
      var p := players[|players| - 1];
      var r := PlayerMap(if p.puuid in m.records then m.order else m.order + [p.puuid],
                         m.records[p.puuid := p], {});
      IndexStep(players, m, r);
      r
  }

  lemma IndexStep(players: seq<Player>, m: PlayerMap, r: PlayerMap)
    requires players != [] && Indexes(m, players[..|players| - 1])
    requires var p := players[|players| - 1];
      r == PlayerMap(if p.puuid in m.records then m.order else m.order + [p.puuid],
                     m.records[p.puuid := p], {})
    ensures Indexes(r, players)
  {
    Put(m, players[|players| - 1], {});
    IndexedKeys(players, m.records);
    IndexedLast(players, m.records, r.records);
    IndexedFirst(players, m.order, r.order);
  }

  lemma IndexedKeys(players: seq<Player>, records: map<Puuid, Player>)
    requires players != [] && records.Keys == Puuids(players[..|players| - 1])
    ensures records[players[|players| - 1].puuid := players[|players| - 1]].Keys == Puuids(players)
  {
  }

  lemma IndexedLast(players: seq<Player>, records: map<Puuid, Player>, next: map<Puuid, Player>)
    requires players != []
    requires records.Keys == Puuids(players[..|players| - 1])
    requires LastRecords(records, players[..|players| - 1])
    requires next == records[players[|players| - 1].puuid := players[|players| - 1]]
    ensures LastRecords(next, players)
  {
  }

  lemma IndexedFirst(players: seq<Player>, keys: seq<Puuid>, order: seq<Puuid>)
    requires players != []
    requires forall a :: 0 <= a < |keys| ==> keys[a] in Puuids(players[..|players| - 1])
    requires FirstOccurrenceOrder(keys, players[..|players| - 1])
    requires var p := players[|players| - 1];
      order == if p.puuid in Puuids(players[..|players| - 1]) then keys else keys + [p.puuid]
    ensures FirstOccurrenceOrder(order, players)
  {
    FirstIndexKept(players);
    forall a, b | 0 <= a < b < |order|
      ensures FirstIndex(players, order[a]) < FirstIndex(players, order[b])
    {
      assert order[a] == keys[a];
      if b < |keys| {
        assert order[b] == keys[b];
      }
    }
  }

  /** Appending a record moves no first occurrence; a new puuid first occurs at the end. */
  lemma FirstIndexKept(players: seq<Player>)
    requires players != []
    ensures var n := |players| - 1;
      forall k :: k in Puuids(players[..n]) ==> FirstIndex(players, k) == FirstIndex(players[..n], k) < n
    ensures var n := |players| - 1;
      players[n].puuid !in Puuids(players[..n]) ==> FirstIndex(players, players[n].puuid) == n
  {
  }

  /** Whether this run publishes `avgRank`: the snapshot holds at least 15% of the capacity. */
  predicate Visible(total: nat, maxSlots: nat)
  {
    total >= MinPlayersThreshold(maxSlots)
  }

  /** The record created for a puuid first seen at 1-based position `rank`. */
  function NewPlayer(e: Entry, rank: nat, visible: bool, now: string): Player
  {
    Player(e.puuid, e.gameName, e.tagLine, Some(e.leaguePoints), e.wins, e.losses, now,
           1, 1, Some(rank), if visible then Some(rank as real) else None, rank as real,
           [rank], true, 0)
  }

  /** A known record seen again at 1-based position `rank`. */
  function Seen(p: Player, e: Entry, rank: nat, visible: bool): Player
  {
    var history := p.rankHistory + [rank];
    p.(summonerName := e.gameName, tagLine := e.tagLine, leaguePoints := Some(e.leaguePoints),
       wins := e.wins, losses := e.losses, isActive := true, currentRank := Some(rank),
       daysInChallenger := p.daysInChallenger + 1,
       currentStreak := if p.isActive then p.currentStreak + 1 else 1,
       rankHistory := history, avgRankAll := Mean(history),
       avgRank := if visible then Some(Mean(history)) else None)
  }

  /** One iteration of the snapshot loop, for the entry at 0-based index `idx`. */
  function Step(m: PlayerMap, e: Entry, idx: nat, visible: bool, now: string): (r: PlayerMap)
    requires Consistent(m)
    ensures Consistent(r)
    ensures r.records.Keys == m.records.Keys + {e.puuid} && r.seen == m.seen + {e.puuid}
  {
    if e.puuid in m.records then
      Put(m, Seen(m.records[e.puuid], e, idx + 1, visible), m.seen + {e.puuid});
      PlayerMap(m.order, m.records[e.puuid := Seen(m.records[e.puuid], e, idx + 1, visible)],
                m.seen + {e.puuid})
    else
      Put(m, NewPlayer(e, idx + 1, visible, now), m.seen + {e.puuid});
      PlayerMap(m.order + [e.puuid], m.records[e.puuid := NewPlayer(e, idx + 1, visible, now)],
                m.seen + {e.puuid})
  }

  /** The snapshot loop over `entries`, in leaderboard order. */
  function Merged(m: PlayerMap, entries: seq<Entry>, visible: bool, now: string): (r: PlayerMap)
    requires Consistent(m)
    ensures Consistent(r)
    ensures r.records.Keys == m.records.Keys + EntryPuuids(entries)
    ensures r.seen == m.seen + EntryPuuids(entries)
  {
    if entries == [] then m
    else
      var n := |entries| - 1;
      Step(Merged(m, entries[..n], visible, now), entries[n], n, visible, now)
  }

  lemma MergedPrefix(m: PlayerMap, entries: seq<Entry>, idx: nat, visible: bool, now: string)
    requires Consistent(m) && idx < |entries|
    ensures Merged(m, entries[..idx + 1], visible, now)
         == Step(Merged(m, entries[..idx], visible, now), entries[idx], idx, visible, now)
  {
    assert entries[..idx + 1][..idx] == entries[..idx];
  }

  /** The loop that marks every record whose puuid was not seen as inactive. */
  function Deactivated(records: map<Puuid, Player>, seen: set<Puuid>): (r: map<Puuid, Player>)
    ensures r.Keys == records.Keys
  {
    map k | k in records :: if k in seen then records[k] else Deactivate(records[k])
  }

  /** `player_map.values()`, in key insertion order. */
  function Values(order: seq<Puuid>, records: map<Puuid, Player>): (s: seq<Player>)
    requires forall i :: 0 <= i < |order| ==> order[i] in records
    ensures |s| == |order|
  {
    seq(|order|, i requires 0 <= i < |order| => records[order[i]])
  }

  /** The sort key of `sorted(..., key=daysInChallenger, reverse=True)`. */
  function TenureFirst(a: Player, b: Player): bool
  {
    a.daysInChallenger >= b.daysInChallenger
  }

  /** `rank = idx + 1` along the sorted list. */
  function AssignRanks(s: seq<Player>): (r: seq<Player>)
    ensures |r| == |s|
  {
    seq(|s|, i requires 0 <= i < |s| => s[i].(rank := i + 1))
  }

  /** The player list the reconciler saves for a region. */
  function Reconciled(players: seq<Player>, entries: seq<Entry>, maxSlots: nat, now: string): seq<Player>
  {
    var m := Merged(IndexPlayers(players), entries, Visible(|entries|, maxSlots), now);
    AssignRanks(SortBy(Values(m.order, Deactivated(m.records, m.seen)), TenureFirst))
  }

  /** The players of the stored document, or none when the region has no document yet. */
  function StoredPlayers(existing: Option<RegionDoc>): seq<Player>
  {
    if existing.Some? then existing.value.players else []
  }

  /** The snapshot loop of `update_region`: each entry, in leaderboard order, updates or adds its record. */
  method MergeSnapshot(m0: PlayerMap, entries: seq<Entry>, visible: bool, now: string) returns (m: PlayerMap)
    requires Consistent(m0)
    ensures m == Merged(m0, entries, visible, now)
  {
    var order, playerMap, currentPuuids := m0.order, m0.records, m0.seen;
    assert entries[..0] == [];
    for idx := 0 to |entries|
      invariant PlayerMap(order, playerMap, currentPuuids) == Merged(m0, entries[..idx], visible, now)
    {
      var e := entries[idx];
      MergedPrefix(m0, entries, idx, visible, now);
      currentPuuids := currentPuuids + {e.puuid};
      if e.puuid in playerMap {
        playerMap := playerMap[e.puuid := Seen(playerMap[e.puuid], e, idx + 1, visible)];
      } else {
        playerMap := playerMap[e.puuid := NewPlayer(e, idx + 1, visible, now)];
        order := order + [e.puuid];
      }
    }
    assert entries[..|entries|] == entries;
    m := PlayerMap(order, playerMap, currentPuuids);
  }

  /** The second loop of `update_region`: every record whose puuid was not seen is marked inactive. */
  method MarkInactive(m: PlayerMap) returns (records: map<Puuid, Player>)
    requires Consistent(m)
    ensures records == Deactivated(m.records, m.seen)
  {
    records := m.records;
    var order := m.order;
    for j := 0 to |order|
      invariant MarkedUpTo(m, records, j)
    {
      var puuid := order[j];
      MarkStep(m, records, j);
      if puuid !in m.seen {
        records := records[puuid := Deactivate(records[puuid])];
      }
    }
    MarkDone(m, records);
  }

  /** The records after the second loop has visited the first `j` keys. */
  predicate MarkedUpTo(m: PlayerMap, records: map<Puuid, Player>, j: nat)
    requires Consistent(m)
  {
    && j <= |m.order|
    && records.Keys == m.records.Keys
    && (forall t :: 0 <= t < j ==> records[m.order[t]] == Deactivated(m.records, m.seen)[m.order[t]])
    && (forall t :: j <= t < |m.order| ==> records[m.order[t]] == m.records[m.order[t]])
  }

  lemma MarkStep(m: PlayerMap, records: map<Puuid, Player>, j: nat)
    requires Consistent(m) && j < |m.order| && MarkedUpTo(m, records, j)
    ensures var k := m.order[j];
            MarkedUpTo(m, if k !in m.seen then records[k := Deactivate(records[k])] else records, j + 1)
  {
    var k := m.order[j];
    assert forall t :: 0 <= t < |m.order| && t != j ==> m.order[t] != k;
  }

  lemma MarkDone(m: PlayerMap, records: map<Puuid, Player>)
    requires Consistent(m) && MarkedUpTo(m, records, |m.order|)
    ensures records == Deactivated(m.records, m.seen)
  {
    forall k | k in records ensures records[k] == Deactivated(m.records, m.seen)[k] {
      var t :| 0 <= t < |m.order| && m.order[t] == k;
    }
  }

  /** The sort by tenure (most days first, ties in their existing order) and the loop that numbers the result. */
  method RankByTenure(players: seq<Player>) returns (ranked: seq<Player>)
    ensures ranked == AssignRanks(SortBy(players, TenureFirst))
  {
    ranked := SortBy(players, TenureFirst);
    ghost var unranked := ranked;
    for i := 0 to |ranked|
      invariant |ranked| == |unranked|
      invariant forall t :: 0 <= t < i ==> ranked[t] == unranked[t].(rank := t + 1)
      invariant forall t :: i <= t < |ranked| ==> ranked[t] == unranked[t]
    {
      ranked := ranked[i := ranked[i].(rank := i + 1)];
    }
    assert forall t :: 0 <= t < |ranked| ==> ranked[t] == AssignRanks(unranked)[t];
  }

  /**
   * `update_region`: after a failed fetch nothing is saved (`None`); otherwise
   * the region's new document. The account lookups are already folded into
   * the entries, and `now` is the run's timestamp.
   */
  method UpdateRegion(region: RegionConfig, fetch: Fetch, existing: Option<RegionDoc>, now: string)
    returns (saved: Option<RegionDoc>)
    ensures !FetchOk(fetch) ==> saved == None
    ensures FetchOk(fetch) ==> saved == Some(RegionDoc(region.name, region.code,
              Reconciled(StoredPlayers(existing), fetch.entries, region.maxSlots, now), now))
  {
    if !FetchOk(fetch) {
      return None;
    }
    var playerMap := IndexPlayers(StoredPlayers(existing));
    var threshold := MinPlayersThreshold(region.maxSlots);
    var total := |fetch.entries|;
    playerMap := MergeSnapshot(playerMap, fetch.entries, total >= threshold, now);
    var records := MarkInactive(playerMap);
    var sortedPlayers := RankByTenure(Values(playerMap.order, records));
    saved := Some(RegionDoc(region.name, region.code, sortedPlayers, now));
  }
}
