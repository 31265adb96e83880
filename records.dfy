/**
 * The persisted shapes: a leaderboard entry as fetched, a player record as
 * stored in a region's document, and the region document itself.
 */
module Records {
  import opened Wrappers
  import opened Config

  type Puuid = string

  /**
   * One leaderboard entry, with the display name and tag that the account
   * lookup returned for it (the lookup's "Unknown"/"0000" fallback included).
   */
  datatype Entry = Entry(puuid: Puuid, leaguePoints: int, wins: int, losses: int,
                         gameName: string, tagLine: string)

  /** A leaderboard fetch: failed (no data), or a response with its status and entries. */
  datatype Fetch = FetchFailed | Fetched(status: int, entries: seq<Entry>)

  predicate FetchOk(f: Fetch) { f.Fetched? && f.status == 200 }

  /**
   * One player's record. A field an older document lacks is read as its
   * default (0, false, []), which is what every `.get(..., default)` and
   * `'field' in player` test of the reconciler amounts to.
   */
  datatype Player = Player(
    puuid: Puuid,
    summonerName: string,
    tagLine: string,
    leaguePoints: Option<int>,
    wins: int,
    losses: int,
    firstSeenDate: string,
    daysInChallenger: nat,
    currentStreak: nat,
    currentRank: Option<nat>,
    avgRank: Option<real>,
    avgRankAll: real,
    rankHistory: seq<nat>,
    isActive: bool,
    rank: nat)

  /** A region's persisted document. */
  datatype RegionDoc = RegionDoc(region: string, regionCode: RegionCode, players: seq<Player>,
                                 lastUpdate: string)

  function Sum(s: seq<nat>): nat
  {
    if s == [] then 0 else Sum(s[..|s| - 1]) + s[|s| - 1]
  }

  /** `sum(s) / len(s)`. */
  function Mean(s: seq<nat>): real
    requires s != []
  {
    (Sum(s) as real) / (|s| as real)
  }

  /** A player missing from today's snapshot: history, tenure and averages are kept. */
  function Deactivate(p: Player): (q: Player)
    ensures !q.isActive && q.currentRank == None && q.leaguePoints == None && q.currentStreak == 0
    ensures q.rankHistory == p.rankHistory && q.daysInChallenger == p.daysInChallenger
    ensures q.avgRankAll == p.avgRankAll && q.avgRank == p.avgRank && q.puuid == p.puuid
  {
    p.(isActive := false, currentRank := None, leaguePoints := None, currentStreak := 0)
  }

  /**
   * The record invariant the reconciler keeps: one history entry per day on
   * the leaderboard, a streak exactly while active and never longer than the
   * tenure, a current rank and points exactly while active, the current rank
   * being the last one recorded, and the overall average being the history's mean.
   */
  predicate WellFormed(p: Player)
  {
    && |p.rankHistory| == p.daysInChallenger
    && (p.isActive ==> p.currentStreak >= 1)
    && (!p.isActive ==> p.currentStreak == 0)
    && p.currentStreak <= p.daysInChallenger
    && (p.isActive <==> p.currentRank.Some?)
    && (p.isActive <==> p.leaguePoints.Some?)
    && (p.isActive ==> p.currentRank == Some(p.rankHistory[|p.rankHistory| - 1]))
    && (p.rankHistory != [] ==> p.avgRankAll == Mean(p.rankHistory))
  }

  /** The stored region documents (`data/<code>_players.json`), by region code. */
  type Store = map<RegionCode, RegionDoc>
}
