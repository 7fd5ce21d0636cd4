/** The row logic of the "Boss Match Detail" page: boss-progress figures,
    the flattening and ordering of all (player, match) pairs, the buff string,
    and the columns of one match (five hero blocks and one pet block). */
module MatchDetail {
  import opened Wrappers
  import opened Records
  import opened Sheet
  import opened Catalog
  import opened Text
  import opened Ordering

  function Sum(xs: seq<int>): int
    decreases |xs|
  {
    if xs == [] then 0 else Sum(xs[..|xs| - 1]) + xs[|xs| - 1]
  }

  /** How many of `xs` are strictly positive. */
  function CountPositive(xs: seq<int>): (n: nat)
    ensures n <= |xs|
    decreases |xs|
  {
    if xs == [] then 0 else CountPositive(xs[..|xs| - 1]) + (if xs[|xs| - 1] > 0 then 1 else 0)
  }

  /** The two boss figures in column order: damageTaken, damageTakenNextLevel. */
  function BossFigures(p: Progress): seq<int> {
    [p.damageTaken, p.damageTakenNextLevel]
  }

  /** "Number of Bosses Fought": the figures that are strictly positive. */
  function BossesFought(p: Progress): (n: nat)
    ensures n <= 2
    ensures n == 0 <==> p.damageTaken <= 0 && p.damageTakenNextLevel <= 0
    ensures n == 2 <==> p.damageTaken > 0 && p.damageTakenNextLevel > 0
  {
    var xs := BossFigures(p);
    assert xs[..1][..0] == [] && xs[..1][0] == p.damageTaken && xs[1] == p.damageTakenNextLevel;
    assert CountPositive(xs[..1]) == CountPositive(xs[..1][..0]) + (if p.damageTaken > 0 then 1 else 0);
    CountPositive(xs)
  }

  /** "Total Damage to Boss": the sum of the figures. */
  function TotalBossDamage(p: Progress): (t: int)
    ensures t == p.damageTaken + p.damageTakenNextLevel
  {
    var xs := BossFigures(p);
    assert xs[..1][..0] == [] && xs[..1][0] == p.damageTaken && xs[1] == p.damageTakenNextLevel;
    assert Sum(xs[..1]) == Sum(xs[..1][..0]) + p.damageTaken;
    Sum(xs)
  }


  /** One (player, match) pair of the boss-match response. */
  datatype MatchEntry = MatchEntry(playerId: string, matchId: string, m: Match)

  ghost predicate InResponse(response: MatchResponse, e: MatchEntry) {
    exists i :: 0 <= i < |response| && response[i].0 == e.playerId && (e.matchId, e.m) in response[i].1
  }

  function PlayerEntries(playerId: string, matches: seq<(string, Match)>): (r: seq<MatchEntry>)
    ensures |r| == |matches|
    ensures forall j :: 0 <= j < |matches| ==> r[j] == MatchEntry(playerId, matches[j].0, matches[j].1)
  {
    seq(|matches|, j requires 0 <= j < |matches| => MatchEntry(playerId, matches[j].0, matches[j].1))
  }

  function MatchCount(response: MatchResponse): nat
    decreases |response|
  {
    if response == [] then 0 else |response[0].1| + MatchCount(response[1..])
  }

  /** `all_matches`: every (player, match) pair, players in response order and
      each player's matches in their order. */
  function AllMatches(response: MatchResponse): (r: seq<MatchEntry>)
    ensures |r| == MatchCount(response)
    ensures forall e :: e in r <==> InResponse(response, e)
    decreases |response|
  {
    if response == [] then []
    else
      var rest := AllMatches(response[1..]);
      var here := PlayerEntries(response[0].0, response[0].1);
      assert forall e :: e in here <==> e.playerId == response[0].0 && (e.matchId, e.m) in response[0].1 by {
        forall e: MatchEntry | e.playerId == response[0].0 && (e.matchId, e.m) in response[0].1 ensures e in here {
          var j :| 0 <= j < |response[0].1| && response[0].1[j] == (e.matchId, e.m);
          assert here[j] == e;
        }
      }
      assert forall e :: InResponse(response, e) <==> InResponse(response[1..], e) || e in here by {
        forall e: MatchEntry | InResponse(response, e) ensures InResponse(response[1..], e) || e in here {
          var i :| 0 <= i < |response| && response[i].0 == e.playerId && (e.matchId, e.m) in response[i].1;
          if i > 0 {
            assert response[1..][i - 1] == response[i];
          }
        }
        forall e: MatchEntry | InResponse(response[1..], e) ensures InResponse(response, e) {
          var i :| 0 <= i < |response[1..]| && response[1..][i].0 == e.playerId && (e.matchId, e.m) in response[1..][i].1;
          assert response[i + 1] == response[1..][i];
        }
      }
      here + rest
  }

  /** The sort key: the sum of the values of `result.damage`. */
  function MatchDamageKey(e: MatchEntry): real {
    Sum(e.m.damage) as real
  }

  /** `sorted_matches`: all pairs in descending order of the damage key, ties in
      iteration order. */
  function SortedMatches(response: MatchResponse): (r: seq<MatchEntry>)
    ensures |r| == MatchCount(response)
    ensures multiset(r) == multiset(AllMatches(response))
    ensures forall e :: e in r <==> InResponse(response, e)
    ensures NonIncreasing(r, MatchDamageKey)
    ensures forall k :: WithKey(r, MatchDamageKey, k) == WithKey(AllMatches(response), MatchDamageKey, k)
  {
    var all := AllMatches(response);
    SortDescNonIncreasing(all, MatchDamageKey);
    assert forall k :: WithKey(SortDesc(all, MatchDamageKey), MatchDamageKey, k) == WithKey(all, MatchDamageKey, k) by {
      forall k ensures WithKey(SortDesc(all, MatchDamageKey), MatchDamageKey, k) == WithKey(all, MatchDamageKey, k) {
        SortDescStable(all, MatchDamageKey, k);
      }
    }
    var r := SortDesc(all, MatchDamageKey);
    assert forall e :: e in r <==> e in all by {
      forall e: MatchEntry ensures e in r <==> e in all {
        assert e in r <==> e in multiset(r);
      }
    }
    r
  }

  const PERCENT_BUFF: string := "percentDamageBuff_any"
  const REPLAY_URL: string := "https://hero-wars.com?replay_id="

  /** The value of a buff in the effects dictionary (keys are unique). */
  function EffectAmount(effects: seq<Effect>, name: string): (r: Option<int>)
    ensures r.None? <==> forall k :: 0 <= k < |effects| ==> effects[k].name != name
    ensures r.Some? ==> exists k :: 0 <= k < |effects| && effects[k] == Effect(name, r.value)
    decreases |effects|
  {
    if effects == [] then None
    else if effects[0].name == name then Some(effects[0].amount)
    else
      var r := EffectAmount(effects[1..], name);
      assert forall k :: 1 <= k < |effects| ==> effects[k] == effects[1..][k - 1];
      r
  }

  /** One entry of the buff column, `name:value`. */
  function BuffEntry(e: Effect): string {
    e.name + ":" + Decimal(e.amount)
  }

  /** The "Buffs" column: the entries joined with commas, in dictionary order. */
  function BuffString(effects: seq<Effect>): string {
    Join(seq(|effects|, k requires 0 <= k < |effects| => BuffEntry(effects[k])), ',')
  }

  /** The buff column can be split back into its entries when no buff name holds
      a comma, and each entry's value reads back as the buff's magnitude. */
  lemma BuffStringRoundTrip(effects: seq<Effect>)
    requires |effects| >= 1
    requires forall k :: 0 <= k < |effects| ==> ',' !in effects[k].name
    ensures |Split(BuffString(effects), ',')| == |effects|
    ensures forall k :: 0 <= k < |effects| ==>
      Split(BuffString(effects), ',')[k] == effects[k].name + ":" + Decimal(effects[k].amount)
    ensures forall k :: 0 <= k < |effects| ==> ParseInt(Decimal(effects[k].amount)) == effects[k].amount
  {
    var parts := seq(|effects|, k requires 0 <= k < |effects| => BuffEntry(effects[k]));
    forall k | 0 <= k < |parts| ensures ',' !in parts[k] {
      assert parts[k] == effects[k].name + ":" + Decimal(effects[k].amount);
    }
    SplitJoin(parts, ',');
    forall k | 0 <= k < |effects| ensures ParseInt(Decimal(effects[k].amount)) == effects[k].amount {
      DecimalRoundTrip(effects[k].amount);
    }
  }

  /** `get_attacker`: the slot-th attacker, or None past the end. */
  function GetAttacker(attackers: seq<Attacker>, slot: nat): (r: Option<Attacker>)
    ensures r.Some? <==> slot < |attackers|
    ensures r.Some? ==> r.value == attackers[slot]
  {
    if slot < |attackers| then Some(attackers[slot]) else None
  }

  /** `write_hero`: name, color, power, HP, both penetrations (absent means 0),
      patroned pet's name and patronage power. */
  function HeroColumns(data: HeroData, a: Attacker): (r: Result<seq<Column>, Fault>)
    ensures r.Success? <==>
      LookupHero(data.heroes, a.id).Success? && LookupColor(a.color).Success? &&
      LookupPet(data.pets, a.favorPetId).Success?
    ensures r.Success? ==> |r.value| == 8
    ensures r.Success? ==>
      && r.value[0] == Plain(Text(LookupHero(data.heroes, a.id).value))
      && r.value[1] == Plain(Text(LookupColor(a.color).value))
      && r.value[2] == Column(Int(a.power), IntegerFormat, true)
      && r.value[3] == Column(Int(a.hp), IntegerFormat, true)
      && r.value[4] == Column(Int(if a.magicPenetration.Some? then a.magicPenetration.value else 0), IntegerFormat, true)
      && r.value[5] == Column(Int(if a.armorPenetration.Some? then a.armorPenetration.value else 0), IntegerFormat, true)
      && r.value[7] == Column(Int(a.favorPower), IntegerFormat, true)
    ensures r.Success? ==>
      r.value[6].value == (if LookupPet(data.pets, a.favorPetId).value.Some? then Text(LookupPet(data.pets, a.favorPetId).value.value) else Null)
    ensures r.Success? ==> CellFormat(r.value[0]) == Unformatted && CellFormat(r.value[1]) == Unformatted
    ensures r.Success? ==> (CellFormat(r.value[6]) == ErrorFormat <==> a.favorPetId == 0)
    ensures r.Success? && a.favorPetId != 0 ==> CellFormat(r.value[6]) == Unformatted
    ensures LookupHero(data.heroes, a.id).Failure? ==> r == Failure(LookupHero(data.heroes, a.id).error)
    ensures LookupHero(data.heroes, a.id).Success? && LookupColor(a.color).Failure? ==>
      r == Failure(LookupColor(a.color).error)
    ensures LookupHero(data.heroes, a.id).Success? && LookupColor(a.color).Success? && LookupPet(data.pets, a.favorPetId).Failure? ==>
      r == Failure(LookupPet(data.pets, a.favorPetId).error)
  {
    var name :- LookupHero(data.heroes, a.id);
    var color :- LookupColor(a.color);
    var patron :- LookupPet(data.pets, a.favorPetId);
    Success([
      Plain(Text(name)),
      Plain(Text(color)),
      Column(Int(a.power), IntegerFormat, true),
      Column(Int(a.hp), IntegerFormat, true),
      Column(Int(if a.magicPenetration.Some? then a.magicPenetration.value else 0), IntegerFormat, true),
      Column(Int(if a.armorPenetration.Some? then a.armorPenetration.value else 0), IntegerFormat, true),
      Plain(if patron.Some? then Text(patron.value) else Null),
      Column(Int(a.favorPower), IntegerFormat, true)
    ])
  }

  /** `write_pet`: a missing pet gives three warning-styled empty cells; a pet
      whose id resolves to "no pet" gets an error-styled name cell. */
  function PetColumns(data: HeroData, pet: Option<Attacker>): (r: Result<seq<Column>, Fault>)
    ensures pet.None? ==> r == Success([Column(Null, WarningFormat, true), Column(Null, WarningFormat, true), Column(Null, WarningFormat, true)])
    ensures pet.Some? ==> (r.Success? <==> LookupPet(data.pets, pet.value.id).Success? && LookupColor(pet.value.color).Success?)
    ensures r.Success? ==> |r.value| == 3
    ensures r.Success? && pet.Some? ==>
      && (CellFormat(r.value[0]) == ErrorFormat <==> pet.value.id == 0)
      && r.value[0].value ==
        (if LookupPet(data.pets, pet.value.id).value.Some? then Text(LookupPet(data.pets, pet.value.id).value.value) else Null)
      && r.value[1].value == Text(LookupColor(pet.value.color).value)
      && r.value[2] == Column(Int(pet.value.power), IntegerFormat, true)
    ensures r.Success? && pet.Some? ==>
      && CellFormat(r.value[1]) == Unformatted
      && (pet.value.id != 0 ==> CellFormat(r.value[0]) == Unformatted)
    ensures pet.Some? && LookupPet(data.pets, pet.value.id).Failure? ==>
      r == Failure(LookupPet(data.pets, pet.value.id).error)
    ensures pet.Some? && LookupPet(data.pets, pet.value.id).Success? && LookupColor(pet.value.color).Failure? ==>
      r == Failure(LookupColor(pet.value.color).error)
  {
    match pet
    case None =>
      Success([Column(Null, WarningFormat, true), Column(Null, WarningFormat, true), Column(Null, WarningFormat, true)])
    case Some(p) =>
      var name :- LookupPet(data.pets, p.id);
      var color :- LookupColor(p.color);
      Success([
        Column(if name.Some? then Text(name.value) else Null, if name.None? then ErrorFormat else Unformatted, true),
        Plain(Text(color)),
        Column(Int(p.power), IntegerFormat, true)
      ])
  }

  /** An attacker of type "hero" (the alternative is a pet). */
  predicate IsHero(a: Attacker) {
    a.kind == "hero"
  }

  /** The hero blocks for slots `slot`..4: each slot must hold an attacker of
      type "hero"; a missing attacker or any other type ends the run. */
  function HeroSlots(data: HeroData, attackers: seq<Attacker>, slot: nat): (r: Result<seq<Column>, Fault>)
    requires slot <= 5
    ensures r.Success? ==> |r.value| == 8 * (5 - slot)
    ensures r.Success? ==> forall i :: slot <= i < 5 ==> i < |attackers| && IsHero(attackers[i])
    ensures slot < 5 && |attackers| <= slot ==> r == Failure(NoneAttacker(slot))
    decreases 5 - slot
  {
    if slot == 5 then Success([])
    else if slot >= |attackers| then Failure(NoneAttacker(slot))
    else if !IsHero(attackers[slot]) then Failure(UnknownHeroType(attackers[slot].kind))
    else
      match HeroColumns(data, attackers[slot])
      case Failure(err) => Failure(err)
      case Success(cols) =>
        match HeroSlots(data, attackers, slot + 1)
        case Failure(err) => Failure(err)
        case Success(rest) => Success(cols + rest)
  }

  /** Slot i holds a hero whose eight cells resolve. */
  predicate HeroReady(data: HeroData, attackers: seq<Attacker>, i: nat) {
    i < |attackers| && IsHero(attackers[i]) && HeroColumns(data, attackers[i]).Success?
  }

  /** The slots from `slot` on are written exactly when each holds a hero
      whose block resolves. */
  lemma {:induction false} HeroSlotsSucceed(data: HeroData, attackers: seq<Attacker>, slot: nat)
    requires slot <= 5
    ensures HeroSlots(data, attackers, slot).Success? <==> forall i :: slot <= i < 5 ==> HeroReady(data, attackers, i)
    decreases 5 - slot
  {
    if slot < 5 {
      HeroSlotsSucceed(data, attackers, slot + 1);
      assert (forall i :: slot <= i < 5 ==> HeroReady(data, attackers, i)) <==>
        HeroReady(data, attackers, slot) && forall i :: slot + 1 <= i < 5 ==> HeroReady(data, attackers, i);
      if HeroReady(data, attackers, slot) {
        assert HeroSlots(data, attackers, slot).Success? <==> HeroSlots(data, attackers, slot + 1).Success?;
      } else {
        assert HeroSlots(data, attackers, slot).Failure?;
      }
    }
  }

  /** In written hero blocks, block i (counted from `slot`) is the eight
      cells of the i-th attacker. */
  lemma {:induction false} HeroSlotsBlock(data: HeroData, attackers: seq<Attacker>, slot: nat, i: nat)
    requires slot <= i < 5
    requires HeroSlots(data, attackers, slot).Success?
    ensures HeroReady(data, attackers, i)
    ensures HeroSlots(data, attackers, slot).value[8 * (i - slot)..8 * (i - slot) + 8] == HeroColumns(data, attackers[i]).value
    decreases i - slot
  {
    assert HeroReady(data, attackers, slot);
    var cols := HeroColumns(data, attackers[slot]).value;
    var rest := HeroSlots(data, attackers, slot + 1);
    assert HeroSlots(data, attackers, slot).value == cols + rest.value;
    if slot < i {
      HeroSlotsBlock(data, attackers, slot + 1, i);
      BlockAfter(cols, rest.value, i - slot);
    } else {
      assert (cols + rest.value)[0..8] == cols;
    }
  }

  /** Block k of eight in `head + tail`, past an eight-cell head, is block k - 1 of `tail`. */
  lemma BlockAfter<T>(head: seq<T>, tail: seq<T>, k: nat)
    requires |head| == 8 && 1 <= k && 8 * k + 8 <= 8 + |tail|
    ensures (head + tail)[8 * k..8 * k + 8] == tail[8 * (k - 1)..8 * (k - 1) + 8]
  {
    assert 8 * k - |head| == 8 * (k - 1);
    SliceAfter(head, tail, 8 * k, 8 * k + 8);
  }

  /** A slice lying wholly in the second part of a concatenation. */
  lemma SliceAfter<T>(a: seq<T>, b: seq<T>, lo: nat, hi: nat)
    requires |a| <= lo <= hi <= |a| + |b|
    ensures (a + b)[lo..hi] == b[lo - |a|..hi - |a|]
  {
  }

  /** The first slot, from `slot` on, that is missing, holds a non-hero or
      has a block that fails decides the fault. */
  lemma {:induction false} HeroSlotsFirstFailure(data: HeroData, attackers: seq<Attacker>, slot: nat, i: nat)
    requires slot <= i < 5
    requires forall j :: slot <= j < i ==> HeroReady(data, attackers, j)
    ensures |attackers| <= i ==> HeroSlots(data, attackers, slot) == Failure(NoneAttacker(i))
    ensures i < |attackers| && !IsHero(attackers[i]) ==>
      HeroSlots(data, attackers, slot) == Failure(UnknownHeroType(attackers[i].kind))
    ensures i < |attackers| && IsHero(attackers[i]) && HeroColumns(data, attackers[i]).Failure? ==>
      HeroSlots(data, attackers, slot) == Failure(HeroColumns(data, attackers[i]).error)
    decreases i - slot
  {
    if slot < i {
      assert HeroReady(data, attackers, slot);
      HeroSlotsFirstFailure(data, attackers, slot + 1, i);
    }
  }

  /** Hero blocks for all five slots need five hero attackers in front. */
  lemma HeroBlocksFilled(data: HeroData, attackers: seq<Attacker>)
    requires HeroSlots(data, attackers, 0).Success?
    ensures |attackers| >= 5 && forall i :: 0 <= i < 5 ==> IsHero(attackers[i])
  {
    assert 4 < |attackers| && IsHero(attackers[4]);
  }

  /** Python's `list * n`. */
  function Repeat<T>(s: seq<T>, n: nat): (r: seq<T>)
    ensures |r| == |s| * n
  {
    if n == 0 then [] else s + Repeat(s, n - 1)
  }

  function MainNames(): seq<string> {
    [ "Player name", "Datetime", "Replay Link", "Boss Level at End of Fight",
      "Number of Bosses Fought", "Total Damage to Boss", "Damage to Boss #1",
      "Damage to Boss #2", "Guild Morale", "Buffs" ]
  }

  function HeroNames(): seq<string> {
    [ "Hero Name", "Hero Color", "Hero Power", "Hero HP", "Hero Magic Penetration",
      "Hero Armor Penetration", "Patroned Pet Name", "Pet Patron Power" ]
  }

  function PetNames(): seq<string> {
    ["Pet Name", "Pet Color", "Pet Power"]
  }

  /** The header row: 10 match columns, 5 hero blocks of 8, one pet block of 3. */
  function HeaderColumns(): (cols: seq<Column>)
    ensures |cols| == 10 + 5 * 8 + 3 == 53
    ensures forall c :: 0 <= c < |cols| ==> cols[c].value.Text? && CellFormat(cols[c]) == Unformatted
  {
    var names := MainNames() + Repeat(HeroNames(), 5) + PetNames();
    seq(|names|, c requires 0 <= c < |names| => Plain(Text(names[c])))
  }

  /** The ten match columns before the hero blocks: player, date, replay link,
      ending level, bosses fought, total damage, the two boss figures, the
      percent damage buff and the buff string. An unknown player is None. */
  function MatchInfoColumns(player: Option<string>, e: MatchEntry, buff: int): (cols: seq<Column>)
    ensures |cols| == 10
    ensures cols[0].value == (if player.Some? then Text(player.value) else Null)
    ensures CellFormat(cols[0]) == ErrorFormat <==> player.None?
    ensures cols[1].value == Timestamp(e.m.startTime)
    ensures cols[2].value == Text(REPLAY_URL + e.matchId)
    ensures cols[3].value == Int(e.m.level)
    ensures cols[4].value == Int(BossesFought(e.m.progress))
    ensures cols[5] == Column(Int(e.m.progress.damageTaken + e.m.progress.damageTakenNextLevel), IntegerFormat, true)
    ensures cols[6] == Column(Int(e.m.progress.damageTaken), IntegerFormat, true)
    ensures cols[7] == Column(Int(e.m.progress.damageTakenNextLevel), IntegerFormat, true)
    ensures cols[8] == Column(Int(buff), PercentFormat, true)
    ensures cols[9].value == Text(BuffString(e.m.effects))
    ensures player.Some? ==> CellFormat(cols[0]) == Unformatted
    ensures && CellFormat(cols[1]) == Unformatted && CellFormat(cols[2]) == Unformatted
            && CellFormat(cols[3]) == Unformatted && CellFormat(cols[4]) == Unformatted
            && CellFormat(cols[9]) == Unformatted
  {
    var p := e.m.progress;
    [ Plain(if player.Some? then Text(player.value) else Null),
      Plain(Timestamp(e.m.startTime)),
      Plain(Text(REPLAY_URL + e.matchId)),
      Plain(Int(e.m.level)),
      Plain(Int(BossesFought(p))),
      Column(Int(TotalBossDamage(p)), IntegerFormat, true),
      Column(Int(p.damageTaken), IntegerFormat, true),
      Column(Int(p.damageTakenNextLevel), IntegerFormat, true),
      Column(Int(buff), PercentFormat, true),
      Plain(Text(BuffString(e.m.effects))) ]
  }

  /** With non-negative boss figures, the "Total Damage to Boss" cell is 0
      exactly when the "Number of Bosses Fought" cell is 0. */
  lemma NoDamageIffNoBoss(player: Option<string>, e: MatchEntry, buff: int)
    requires e.m.progress.damageTaken >= 0 && e.m.progress.damageTakenNextLevel >= 0
    ensures MatchInfoColumns(player, e, buff)[5].value == Int(0) <==>
            MatchInfoColumns(player, e, buff)[4].value == Int(0)
  {
  }

  /** One match row, in the order the source writes it. The player lookup,
      the "percentDamageBuff_any" key, the five hero slots and the pet block
      can each end the run, in that order. */
  function MatchColumns(guild: Guild, data: HeroData, e: MatchEntry): Result<seq<Column>, Fault> {
    match LookupPlayer(guild, e.playerId)
    case Failure(err) => Failure(err)
    case Success(player) =>
      match EffectAmount(e.m.effects, PERCENT_BUFF)
      case None => Failure(KeyError(PERCENT_BUFF))
      case Some(buff) =>
        match HeroSlots(data, e.m.attackers, 0)
        case Failure(err) => Failure(err)
        case Success(heroes) =>
          match PetColumns(data, GetAttacker(e.m.attackers, 5))
          case Failure(err) => Failure(err)
          case Success(pet) => Success(MatchInfoColumns(player, e, buff) + heroes + pet)
  }

  /** A row fails exactly when one of its four steps fails, and the first
      step to fail gives the fault: the player lookup, the percent damage
      buff, the hero blocks, then the pet block. */
  lemma MatchColumnsFaults(guild: Guild, data: HeroData, e: MatchEntry)
    ensures MatchColumns(guild, data, e).Failure? <==>
      || LookupPlayer(guild, e.playerId).Failure?
      || EffectAmount(e.m.effects, PERCENT_BUFF).None?
      || HeroSlots(data, e.m.attackers, 0).Failure?
      || PetColumns(data, GetAttacker(e.m.attackers, 5)).Failure?
    ensures LookupPlayer(guild, e.playerId).Failure? ==>
      MatchColumns(guild, data, e) == Failure(LookupPlayer(guild, e.playerId).error)
    ensures LookupPlayer(guild, e.playerId).Success? && EffectAmount(e.m.effects, PERCENT_BUFF).None? ==>
      MatchColumns(guild, data, e) == Failure(KeyError(PERCENT_BUFF))
    ensures (&& LookupPlayer(guild, e.playerId).Success? && EffectAmount(e.m.effects, PERCENT_BUFF).Some?
             && HeroSlots(data, e.m.attackers, 0).Failure?) ==>
      MatchColumns(guild, data, e) == Failure(HeroSlots(data, e.m.attackers, 0).error)
    ensures (&& LookupPlayer(guild, e.playerId).Success? && EffectAmount(e.m.effects, PERCENT_BUFF).Some?
             && HeroSlots(data, e.m.attackers, 0).Success? && PetColumns(data, GetAttacker(e.m.attackers, 5)).Failure?) ==>
      MatchColumns(guild, data, e) == Failure(PetColumns(data, GetAttacker(e.m.attackers, 5)).error)
  {
  }

  /** A successful row is the ten match columns, forty hero columns and the
      pet block, in that order. */
  lemma MatchColumnsParts(guild: Guild, data: HeroData, e: MatchEntry)
    requires MatchColumns(guild, data, e).Success?
    ensures LookupPlayer(guild, e.playerId).Success?
    ensures EffectAmount(e.m.effects, PERCENT_BUFF).Some?
    ensures HeroSlots(data, e.m.attackers, 0).Success?
    ensures PetColumns(data, GetAttacker(e.m.attackers, 5)).Success?
    ensures MatchColumns(guild, data, e).value ==
      MatchInfoColumns(LookupPlayer(guild, e.playerId).value, e, EffectAmount(e.m.effects, PERCENT_BUFF).value)
      + HeroSlots(data, e.m.attackers, 0).value
      + PetColumns(data, GetAttacker(e.m.attackers, 5)).value
  {
  }

  /** A successful row has 53 cells and five hero attackers in front; a match
      without the percent damage buff has no row. */
  lemma MatchColumnsShape(guild: Guild, data: HeroData, e: MatchEntry)
    ensures MatchColumns(guild, data, e).Success? ==> |MatchColumns(guild, data, e).value| == 53
    ensures MatchColumns(guild, data, e).Success? ==>
      |e.m.attackers| >= 5 && forall i :: 0 <= i < 5 ==> IsHero(e.m.attackers[i])
    ensures EffectAmount(e.m.effects, PERCENT_BUFF).None? ==> MatchColumns(guild, data, e).Failure?
  {
    if MatchColumns(guild, data, e).Success? {
      MatchColumnsParts(guild, data, e);
      var info := MatchInfoColumns(LookupPlayer(guild, e.playerId).value, e, EffectAmount(e.m.effects, PERCENT_BUFF).value);
      var heroes := HeroSlots(data, e.m.attackers, 0).value;
      var pet := PetColumns(data, GetAttacker(e.m.attackers, 5)).value;
      assert |info| == 10 && |heroes| == 40 && |pet| == 3;
      HeroBlocksFilled(data, e.m.attackers);
    }
  }

  /** A successful row opens with the ten match columns. */
  lemma MatchInfoPrefix(guild: Guild, data: HeroData, e: MatchEntry)
    requires MatchColumns(guild, data, e).Success?
    ensures LookupPlayer(guild, e.playerId).Success? && EffectAmount(e.m.effects, PERCENT_BUFF).Some?
    ensures MatchColumns(guild, data, e).value[..10] ==
      MatchInfoColumns(LookupPlayer(guild, e.playerId).value, e, EffectAmount(e.m.effects, PERCENT_BUFF).value)
  {
    MatchColumnsParts(guild, data, e);
  }

  /** A successful row closes with the pet block. */
  lemma MatchPetSuffix(guild: Guild, data: HeroData, e: MatchEntry)
    requires MatchColumns(guild, data, e).Success?
    ensures |MatchColumns(guild, data, e).value| == 53
    ensures PetColumns(data, GetAttacker(e.m.attackers, 5)).Success?
    ensures MatchColumns(guild, data, e).value[50..] == PetColumns(data, GetAttacker(e.m.attackers, 5)).value
  {
    MatchColumnsParts(guild, data, e);
    var info := MatchInfoColumns(LookupPlayer(guild, e.playerId).value, e, EffectAmount(e.m.effects, PERCENT_BUFF).value);
    var heroes := HeroSlots(data, e.m.attackers, 0).value;
    assert |info + heroes| == 50;
  }

  /** A match without a sixth attacker ends its row with three empty
      warning-styled pet cells. */
  lemma MissingPetWarnings(guild: Guild, data: HeroData, e: MatchEntry)
    requires MatchColumns(guild, data, e).Success?
    requires |e.m.attackers| <= 5
    ensures var cols := MatchColumns(guild, data, e).value;
      |cols| == 53 && cols[50..] == [Column(Null, WarningFormat, true), Column(Null, WarningFormat, true), Column(Null, WarningFormat, true)]
  {
    MatchPetSuffix(guild, data, e);
    assert GetAttacker(e.m.attackers, 5).None?;
  }

  /** The row function of the page, for a given roster and catalog. */
  function RowOf(guild: Guild, data: HeroData): MatchEntry -> Result<seq<Column>, Fault> {
    e => MatchColumns(guild, data, e)
  }

  /** The rows of the sorted pairs, or the fault of the first that fails. */
  function MatchRows(guild: Guild, data: HeroData, entries: seq<MatchEntry>): (r: Result<seq<seq<Column>>, Fault>)
    ensures r.Success? <==> forall k :: 0 <= k < |entries| ==> MatchColumns(guild, data, entries[k]).Success?
    ensures r.Success? ==> |r.value| == |entries|
    ensures r.Success? ==> forall k :: 0 <= k < |entries| ==> MatchColumns(guild, data, entries[k]) == Success(r.value[k])
    ensures r.Success? ==> forall k :: 0 <= k < |entries| ==> |r.value[k]| == 53
    ensures r.Failure? ==> exists k ::
      && 0 <= k < |entries|
      && (forall j :: 0 <= j < k ==> MatchColumns(guild, data, entries[j]).Success?)
      && MatchColumns(guild, data, entries[k]) == Failure(r.error)
  {
    CollectRowsSpec(RowOf(guild, data), entries);
    CollectRowsFault(RowOf(guild, data), entries);
    forall k | 0 <= k < |entries|
      ensures MatchColumns(guild, data, entries[k]).Success? ==> |MatchColumns(guild, data, entries[k]).value| == 53
    {
      MatchColumnsShape(guild, data, entries[k]);
    }
    CollectRows(RowOf(guild, data), entries)
  }

  /** `add_match_detail_page` as rows of columns: the header, then one row per
      (player, match) pair in descending damage order. */
  function MatchDetailRows(guild: Guild, data: HeroData, response: MatchResponse): (r: Result<seq<seq<Column>>, Fault>)
    ensures r.Success? ==> |r.value| == MatchCount(response) + 1
    ensures r.Success? ==> forall k :: 0 <= k < |r.value| ==> |r.value[k]| == 53
    ensures r.Success? ==> r.value[0] == HeaderColumns()
    ensures var sorted := SortedMatches(response);
      r.Success? <==> forall k :: 0 <= k < |sorted| ==> MatchColumns(guild, data, sorted[k]).Success?
  {
    match MatchRows(guild, data, SortedMatches(response))
    case Failure(err) => Failure(err)
    case Success(rows) => Success([HeaderColumns()] + rows)
  }

  /** Row k+1 of the page is the row of the k-th pair in descending damage
      order. */
  lemma MatchDetailOrder(guild: Guild, data: HeroData, response: MatchResponse)
    requires MatchDetailRows(guild, data, response).Success?
    ensures var sorted := SortedMatches(response);
      forall k :: 0 <= k < |sorted| ==>
        MatchDetailRows(guild, data, response).value[k + 1] == MatchColumns(guild, data, sorted[k]).value
  {
    var sorted := SortedMatches(response);
    var rows := MatchRows(guild, data, sorted);
    assert MatchDetailRows(guild, data, response).value == [HeaderColumns()] + rows.value;
  }

  /** A failed page carries the fault of the first pair, in descending damage
      order, whose row fails. */
  lemma MatchDetailFault(guild: Guild, data: HeroData, response: MatchResponse)
    requires MatchDetailRows(guild, data, response).Failure?
    ensures var sorted := SortedMatches(response);
      exists k ::
        && 0 <= k < |sorted|
        && (forall j :: 0 <= j < k ==> MatchColumns(guild, data, sorted[j]).Success?)
        && MatchColumns(guild, data, sorted[k]) == Failure(MatchDetailRows(guild, data, response).error)
  {
    var sorted := SortedMatches(response);
    var rows := MatchRows(guild, data, sorted);
    assert rows.Failure? && rows.error == MatchDetailRows(guild, data, response).error;
  }
}
