/** The "Player Summaries" page: one row per entry of the summary response,
    ordered by boss damage, with attempt counts flagged against the quotas. */
module PlayerSummary {
  import opened Wrappers
  import opened Records
  import opened Sheet
  import opened Catalog
  import opened Ordering

  const MAX_BOSS_ATTEMPTS: int := 5
  const MAX_MINION_ATTEMPTS: int := 9

  /** An attempt count is flagged with the error style unless it meets the quota. */
  function QuotaFormat(attempts: int, quota: int): (f: Format)
    ensures f == ErrorFormat <==> attempts != quota
    ensures f != ErrorFormat ==> f == Unformatted
  {
    if attempts == quota then Unformatted else ErrorFormat
  }

  /** The sort key `int(bossDamage)`. */
  function BossDamageKey(entry: (string, PlayerStats)): real {
    entry.1.bossDamage as real
  }

  /** The entries in descending order of boss damage, ties in response order. */
  function SortedStats(stats: SummaryResponse): (r: SummaryResponse)
    ensures |r| == |stats| && multiset(r) == multiset(stats)
    ensures NonIncreasing(r, BossDamageKey)
    ensures forall k :: WithKey(r, BossDamageKey, k) == WithKey(stats, BossDamageKey, k)
  {
    SortDescNonIncreasing(stats, BossDamageKey);
    assert forall k :: WithKey(SortDesc(stats, BossDamageKey), BossDamageKey, k) == WithKey(stats, BossDamageKey, k) by {
      forall k ensures WithKey(SortDesc(stats, BossDamageKey), BossDamageKey, k) == WithKey(stats, BossDamageKey, k) {
        SortDescStable(stats, BossDamageKey, k);
      }
    }
    SortDesc(stats, BossDamageKey)
  }

  /** The player cell: the roster name, or an error-styled "Unknown player" text. */
  function NameWrite(guild: Guild, row: nat, playerId: string): (r: Result<Write, Fault>)
    ensures r.Failure? <==> LookupPlayer(guild, playerId).Failure?
    ensures r.Success? ==> r.value.row == row && r.value.col == 0
    ensures forall name :: RosterNames(guild, playerId, name) ==>
      r == Success(Write(row, 0, Text(name), Unformatted))
    ensures r.Success? && (forall name :: !RosterNames(guild, playerId, name)) ==>
      r.value == Write(row, 0, Text("Unknown player: " + playerId), ErrorFormat)
  {
    var name :- LookupPlayer(guild, playerId);
    match name
    case None => Success(Write(row, 0, Text("Unknown player: " + playerId), ErrorFormat))
    case Some(n) => Success(Write(row, 0, Text(n), Unformatted))
  }

  /** One player row: name, boss damage, boss attempts, minion points, minion attempts. */
  function SummaryRow(guild: Guild, row: nat, playerId: string, s: PlayerStats): (r: Result<seq<Write>, Fault>)
    ensures r.Failure? <==> LookupPlayer(guild, playerId).Failure?
    ensures r.Success? ==>
      && |r.value| == 5
      && (forall c :: 0 <= c < 5 ==> r.value[c].row == row && r.value[c].col == c)
      && r.value[0] == NameWrite(guild, row, playerId).value
      && r.value[1].value == Int(s.bossDamage)
      && r.value[2].value == Int(s.bossAttemptsSpent)
      && r.value[3].value == Int(s.nodesPoints)
      && r.value[4].value == Int(s.nodesAttemptsSpent)
      && r.value[1].format == Unformatted
      && r.value[3].format == Unformatted
      && (r.value[2].format == ErrorFormat <==> s.bossAttemptsSpent != MAX_BOSS_ATTEMPTS)
      && (r.value[4].format == ErrorFormat <==> s.nodesAttemptsSpent != MAX_MINION_ATTEMPTS)
      && r.value[2].format == QuotaFormat(s.bossAttemptsSpent, MAX_BOSS_ATTEMPTS)
      && r.value[4].format == QuotaFormat(s.nodesAttemptsSpent, MAX_MINION_ATTEMPTS)
  {
    var name :- NameWrite(guild, row, playerId);
    Success([
      name,
      Write(row, 1, Int(s.bossDamage), Unformatted),
      Write(row, 2, Int(s.bossAttemptsSpent), QuotaFormat(s.bossAttemptsSpent, MAX_BOSS_ATTEMPTS)),
      Write(row, 3, Int(s.nodesPoints), Unformatted),
      Write(row, 4, Int(s.nodesAttemptsSpent), QuotaFormat(s.nodesAttemptsSpent, MAX_MINION_ATTEMPTS))
    ])
  }

  /** The rows of `entries`, numbered from `first`. */
  function SummaryRows(guild: Guild, entries: SummaryResponse, first: nat): (r: Result<seq<seq<Write>>, Fault>)
    ensures r.Failure? <==> entries != [] && guild.results.Some? && |guild.results.value| < 2
    ensures r.Failure? ==> r.error == IndexError
    ensures r.Success? ==> |r.value| == |entries|
    ensures r.Success? ==> forall k :: 0 <= k < |entries| ==>
      SummaryRow(guild, first + k, entries[k].0, entries[k].1) == Success(r.value[k])
    decreases |entries|
  {
    if entries == [] then Success([])
    else
      match SummaryRow(guild, first, entries[0].0, entries[0].1)
      case Failure(e) => Failure(e)
      case Success(row) =>
        match SummaryRows(guild, entries[1..], first + 1)
        case Failure(e) => Failure(e)
        case Success(rest) => Success([row] + rest)
  }

  /** The header row: five unformatted labels in row 0, columns 0..4. */
  function SummaryHeader(): (h: seq<Write>)
    ensures |h| == 5
    ensures forall c :: 0 <= c < 5 ==> h[c].row == 0 && h[c].col == c && h[c].format == Unformatted && h[c].value.Text?
    ensures h[0].value == Text("Player") && h[1].value == Text("Boss Damage")
    ensures h[2].value == Text("Boss Attempts") && h[3].value == Text("Minions Points")
    ensures h[4].value == Text("Minions Attempts")
  {
    [ Write(0, 0, Text("Player"), Unformatted),
      Write(0, 1, Text("Boss Damage"), Unformatted),
      Write(0, 2, Text("Boss Attempts"), Unformatted),
      Write(0, 3, Text("Minions Points"), Unformatted),
      Write(0, 4, Text("Minions Attempts"), Unformatted) ]
  }

  /** The header row, then the rows of `entries` (already in page order) from row 1. */
  function SummaryPage(guild: Guild, entries: SummaryResponse): (r: Result<seq<seq<Write>>, Fault>)
    ensures r.Failure? <==> entries != [] && guild.results.Some? && |guild.results.value| < 2
    ensures r.Failure? ==> r.error == IndexError
    ensures r.Success? ==> |r.value| == |entries| + 1 && r.value[0] == SummaryHeader()
    ensures r.Success? ==> forall k :: 0 <= k < |entries| ==>
      SummaryRow(guild, k + 1, entries[k].0, entries[k].1) == Success(r.value[k + 1])
  {
    var rows :- SummaryRows(guild, entries, 1);
    Success([SummaryHeader()] + rows)
  }

  /** `add_damage_summaries_page`: the header row, then one row per summary entry
      in descending boss-damage order. A failed page carries the IndexError of
      the roster lookup. */
  function SummarySheet(guild: Guild, stats: SummaryResponse): (r: Result<seq<seq<Write>>, Fault>)
    ensures r.Failure? <==> stats != [] && guild.results.Some? && |guild.results.value| < 2
    ensures r.Failure? ==> r.error == IndexError
    ensures r.Success? ==> |r.value| == |stats| + 1 && r.value[0] == SummaryHeader()
    ensures r.Success? ==> forall k :: 0 <= k < |stats| ==>
      SummaryRow(guild, k + 1, SortedStats(stats)[k].0, SortedStats(stats)[k].1) == Success(r.value[k + 1])
  {
    SummaryPage(guild, SortedStats(stats))
  }

  /** Down the page, the boss-damage column never increases. */
  lemma SummarySheetOrdered(guild: Guild, stats: SummaryResponse, i: nat, j: nat)
    requires SummarySheet(guild, stats).Success?
    requires 1 <= i < j <= |stats|
    ensures SummarySheet(guild, stats).value[i][1].value.Int?
    ensures SummarySheet(guild, stats).value[j][1].value.Int?
    ensures SummarySheet(guild, stats).value[i][1].value.i >= SummarySheet(guild, stats).value[j][1].value.i
  {
    var sorted := SortedStats(stats);
    assert BossDamageKey(sorted[i - 1]) >= BossDamageKey(sorted[j - 1]);
  }
}
