/** The already-parsed input records of the raid-event dump, the roster and
    the hero catalog, and the faults that end a run. */
module Records {
  import opened Wrappers

  /** An exception that aborts the conversion (no workbook is produced). */
  datatype Fault =
    | UnknownColor(color: int)          // lookup_color past the rank table
    | IndexError                        // a list or array index out of range
    | KeyError(key: string)             // a mandatory dictionary key is absent
    | NoneAttacker(slot: nat)           // get_attacker returned None for a hero slot
    | UnknownHeroType(kind: string)     // a hero slot holds a non-hero attacker
    | UnknownResultCount(count: nat)    // the dump's results list has neither 3 nor 4 entries
    | MalformedResponse                 // a results entry is not of the shape its page reads
    | UndefinedAverage                  // a hero's average has no positive entry (numpy gives NaN)

  /** One roster member; `name` is None when the record has no "name" key. */
  datatype Member = Member(name: Option<string>)

  /** The guild file: `results` is None when the top-level key is absent; each
      entry holds the `result.response.clan.members` dictionary, or None when
      any key on that path is absent. */
  datatype Guild = Guild(results: Option<seq<Option<map<string, Member>>>>)

  /** The hero and pet catalogs, read as lists of display names indexed by id
      (index 0 of the hero list is a placeholder). */
  datatype HeroData = HeroData(heroes: seq<string>, pets: seq<string>)

  /** One per-player entry of the summary response. */
  datatype PlayerStats = PlayerStats(
    bossDamage: int,
    bossAttemptsSpent: int,
    nodesPoints: int,
    nodesAttemptsSpent: int)

  /** One value of a match's `attackers` dictionary, with its dictionary key
      (`key`, as an int) next to the record's own fields. Penetration fields may
      be absent from the record. */
  datatype Attacker = Attacker(
    key: int,
    kind: string,
    id: int,
    color: int,
    power: int,
    hp: int,
    magicPenetration: Option<int>,
    armorPenetration: Option<int>,
    favorPetId: int,
    favorPower: int)

  /** The boss's `extra` record of the first progress entry. */
  datatype Progress = Progress(damageTaken: int, damageTakenNextLevel: int)

  /** One entry of `effects.attackers`: buff identifier and magnitude. */
  datatype Effect = Effect(name: string, amount: int)

  /** One boss match: `damage` holds the values of `result.damage`,
      `attackers` the values of the attackers dictionary in its order. */
  datatype Match = Match(
    startTime: int,
    level: int,
    damage: seq<int>,
    progress: Progress,
    effects: seq<Effect>,
    attackers: seq<Attacker>)

  /** The boss-match response: player id to that player's matches by match id,
      both in dictionary order. */
  type MatchResponse = seq<(string, seq<(string, Match)>)>

  /** The summary response: player id to that player's statistics. */
  type SummaryResponse = seq<(string, PlayerStats)>
}
