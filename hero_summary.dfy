/** The "Hero Summary" page: a match-by-hero table of presence, committed
    power and team damage filled in place, per-hero counts, averages over the
    strictly positive entries, and the ranking by team damage per power.
    Column 0 stands for the pet, which is taken to be in every match. */
module HeroSummary {
  import opened Wrappers
  import opened Records
  import opened Sheet
  import opened Catalog
  import opened Ordering
  import opened MatchDetail

  /** The nominal power seeded into the pet column of every match. */
  const PET_BASELINE_POWER: int := 100000

  /** numpy's index rule along an axis of length n: a negative index counts
      from the end; anything else outside the axis is an IndexError. */
  function Slot(key: int, n: nat): (r: Option<nat>)
    ensures r.Some? <==> -(n as int) <= key < n
    ensures r.Some? ==> r.value < n && (r.value == key || r.value == key + n)
  {
    if 0 <= key < n then Some(key) else if -(n as int) <= key < 0 then Some(n + key) else None
  }

  /** A hero attacker whose key lands in column h. */
  predicate HitsColumn(a: Attacker, h: nat, n: nat) {
    IsHero(a) && Slot(a.key, n) == Some(h)
  }

  /** Every hero attacker's key is a valid column index. */
  predicate KeysInRange(attackers: seq<Attacker>, n: nat) {
    forall j :: 0 <= j < |attackers| && IsHero(attackers[j]) ==> Slot(attackers[j].key, n).Some?
  }

  predicate AllKeysInRange(matches: seq<Match>, n: nat) {
    forall i :: 0 <= i < |matches| ==> KeysInRange(matches[i].attackers, n)
  }

  /** How many hero attackers of one match land in column h. */
  function HeroHits(attackers: seq<Attacker>, h: nat, n: nat): (c: nat)
    ensures c <= |attackers|
    decreases |attackers|
  {
    if attackers == [] then 0
    else HeroHits(attackers[..|attackers| - 1], h, n) + (if HitsColumn(attackers[|attackers| - 1], h, n) then 1 else 0)
  }

  /** The power of the last hero attacker landing in column h (later writes win). */
  function LastPower(attackers: seq<Attacker>, h: nat, n: nat): Option<int>
    decreases |attackers|
  {
    if attackers == [] then None
    else if HitsColumn(attackers[|attackers| - 1], h, n) then Some(attackers[|attackers| - 1].power)
    else LastPower(attackers[..|attackers| - 1], h, n)
  }

  /** A column has an entry from this match's attackers exactly when some hero lands in it. */
  lemma {:induction false} HitsIffPresent(attackers: seq<Attacker>, h: nat, n: nat)
    ensures HeroHits(attackers, h, n) > 0 <==> LastPower(attackers, h, n).Some?
    ensures LastPower(attackers, h, n).Some? <==> exists j :: 0 <= j < |attackers| && HitsColumn(attackers[j], h, n)
    decreases |attackers|
  {
    if attackers != [] {
      var init := attackers[..|attackers| - 1];
      HitsIffPresent(init, h, n);
      assert forall j :: 0 <= j < |init| ==> init[j] == attackers[j];
    }
  }

  /** The power matrix entry before column 0 is touched by a hero: the hero's
      power, or the seeded value (the pet baseline in column 0, zero elsewhere). */
  function PowerAfter(attackers: seq<Attacker>, h: nat, n: nat): int {
    match LastPower(attackers, h, n)
    case Some(p) => p
    case None => if h == 0 then PET_BASELINE_POWER else 0
  }

  /** The presence matrix entry: the pet column always, a hero column when a hero landed there. */
  predicate Present(m: Match, h: nat, n: nat) {
    h == 0 || LastPower(m.attackers, h, n).Some?
  }

  function PowerCell(m: Match, h: nat, n: nat): int {
    PowerAfter(m.attackers, h, n)
  }

  /** The team-damage matrix entry: the match's progress total where present, else 0. */
  function TeamDamageCell(m: Match, h: nat, n: nat): int {
    if Present(m, h, n) then TotalBossDamage(m.progress) else 0
  }

  /** `arr_counts[h]`: hero attackers landing in column h over all matches. */
  function HeroCount(matches: seq<Match>, h: nat, n: nat): nat
    decreases |matches|
  {
    if matches == [] then 0
    else HeroCount(matches[..|matches| - 1], h, n) + HeroHits(matches[|matches| - 1].attackers, h, n)
  }

  /** A hero counted zero times appears in no match. */
  lemma {:induction false} CountZeroIffAbsent(matches: seq<Match>, h: nat, n: nat)
    ensures HeroCount(matches, h, n) == 0 <==> forall i :: 0 <= i < |matches| ==> LastPower(matches[i].attackers, h, n).None?
    decreases |matches|
  {
    if matches != [] {
      var init := matches[..|matches| - 1];
      CountZeroIffAbsent(init, h, n);
      HitsIffPresent(matches[|matches| - 1].attackers, h, n);
      assert forall i :: 0 <= i < |init| ==> init[i] == matches[i];
    }
  }

  /** One more attacker updates every column's hit count and last power. */
  lemma AttackerStep(attackers: seq<Attacker>, j: nat, n: nat)
    requires j < |attackers|
    ensures forall h: nat ::
      HeroHits(attackers[..j + 1], h, n) == HeroHits(attackers[..j], h, n) + (if HitsColumn(attackers[j], h, n) then 1 else 0)
    ensures forall h: nat ::
      LastPower(attackers[..j + 1], h, n) == if HitsColumn(attackers[j], h, n) then Some(attackers[j].power) else LastPower(attackers[..j], h, n)
    ensures KeysInRange(attackers[..j], n) && (IsHero(attackers[j]) ==> Slot(attackers[j].key, n).Some?) ==>
      KeysInRange(attackers[..j + 1], n)
  {
    var next := attackers[..j + 1];
    assert next[..|next| - 1] == attackers[..j] && next[|next| - 1] == attackers[j];
    assert forall k :: 0 <= k < j + 1 ==> next[k] == attackers[k];
  }

  /** Records one match's attackers into row i of the table, in dictionary order. */
  method RecordMatch(i: nat, attackers: seq<Attacker>, total: int, n: nat,
                     counts: array<int>, powers: array2<int>, presence: array2<bool>, teamDamages: array2<int>)
    returns (ok: bool)
    requires counts.Length == n
    requires powers.Length1 == n && presence.Length1 == n && teamDamages.Length1 == n
    requires powers != teamDamages
    requires i < powers.Length0 && i < presence.Length0 && i < teamDamages.Length0
    requires forall h :: 0 <= h < n ==>
      powers[i, h] == PowerAfter([], h, n) && presence[i, h] == (h == 0) && teamDamages[i, h] == 0
    modifies counts, powers, presence, teamDamages
    ensures ok <==> KeysInRange(attackers, n)
    ensures ok ==> forall h :: 0 <= h < n ==> counts[h] == old(counts[h]) + HeroHits(attackers, h, n)
    ensures ok ==> forall h :: 0 <= h < n ==>
      && powers[i, h] == PowerAfter(attackers, h, n)
      && presence[i, h] == (h == 0 || LastPower(attackers, h, n).Some?)
      && teamDamages[i, h] == (if LastPower(attackers, h, n).Some? then total else 0)
    ensures forall r, h :: 0 <= r < powers.Length0 && r != i && 0 <= h < n ==> powers[r, h] == old(powers[r, h])
    ensures forall r, h :: 0 <= r < presence.Length0 && r != i && 0 <= h < n ==> presence[r, h] == old(presence[r, h])
    ensures forall r, h :: 0 <= r < teamDamages.Length0 && r != i && 0 <= h < n ==> teamDamages[r, h] == old(teamDamages[r, h])
  {
    for j := 0 to |attackers|
      invariant KeysInRange(attackers[..j], n)
      invariant forall h :: 0 <= h < n ==> counts[h] == old(counts[h]) + HeroHits(attackers[..j], h, n)
      invariant forall h :: 0 <= h < n ==>
        && powers[i, h] == PowerAfter(attackers[..j], h, n)
        && presence[i, h] == (h == 0 || LastPower(attackers[..j], h, n).Some?)
        && teamDamages[i, h] == (if LastPower(attackers[..j], h, n).Some? then total else 0)
      invariant forall r, h :: 0 <= r < powers.Length0 && r != i && 0 <= h < n ==> powers[r, h] == old(powers[r, h])
      invariant forall r, h :: 0 <= r < presence.Length0 && r != i && 0 <= h < n ==> presence[r, h] == old(presence[r, h])
      invariant forall r, h :: 0 <= r < teamDamages.Length0 && r != i && 0 <= h < n ==> teamDamages[r, h] == old(teamDamages[r, h])
    {
      var a := attackers[j];
      AttackerStep(attackers, j, n);
      if IsHero(a) {
        var slot := Slot(a.key, n);
        if slot.None? {
          assert !KeysInRange(attackers, n) by {
            assert IsHero(attackers[j]) && Slot(attackers[j].key, n).None?;
          }
          return false;
        }
        var h := slot.value;
        counts[h] := counts[h] + 1;
        powers[i, h] := a.power;
        teamDamages[i, h] := total;
        presence[i, h] := true;
      }
    }
    assert attackers[..|attackers|] == attackers;
    return true;
  }

  /** The team-damage entry before the pet column is overwritten with the match totals. */
  function HeroTeamDamage(m: Match, h: nat, n: nat): int {
    if LastPower(m.attackers, h, n).Some? then TotalBossDamage(m.progress) else 0
  }

  /** The loop over all matches: records each one's total and attackers into
      its row, stopping at the first hero key outside the table. */
  method RecordMatches(matches: seq<Match>, n: nat, damages: array<int>, counts: array<int>,
                       powers: array2<int>, presence: array2<bool>, teamDamages: array2<int>)
    returns (ok: bool)
    requires damages != counts && powers != teamDamages
    requires damages.Length == |matches| && counts.Length == n
    requires powers.Length0 == |matches| && presence.Length0 == |matches| && teamDamages.Length0 == |matches|
    requires powers.Length1 == n && presence.Length1 == n && teamDamages.Length1 == n
    requires forall h :: 0 <= h < n ==> counts[h] == 0
    requires forall r, h :: 0 <= r < |matches| && 0 <= h < n ==>
      powers[r, h] == PowerAfter([], h, n) && presence[r, h] == (h == 0) && teamDamages[r, h] == 0
    modifies damages, counts, powers, presence, teamDamages
    ensures ok <==> AllKeysInRange(matches, n)
    ensures ok ==> forall i :: 0 <= i < |matches| ==> damages[i] == TotalBossDamage(matches[i].progress)
    ensures ok ==> forall h :: 0 <= h < n ==> counts[h] == HeroCount(matches, h, n)
    ensures ok ==> forall i, h :: 0 <= i < |matches| && 0 <= h < n ==>
      && powers[i, h] == PowerCell(matches[i], h, n)
      && presence[i, h] == Present(matches[i], h, n)
      && teamDamages[i, h] == HeroTeamDamage(matches[i], h, n)
  {
    for i := 0 to |matches|
      invariant AllKeysInRange(matches[..i], n)
      invariant forall r :: 0 <= r < i ==> damages[r] == TotalBossDamage(matches[r].progress)
      invariant forall h :: 0 <= h < n ==> counts[h] == HeroCount(matches[..i], h, n)
      invariant forall r, h :: 0 <= r < i && 0 <= h < n ==>
        && powers[r, h] == PowerCell(matches[r], h, n)
        && presence[r, h] == Present(matches[r], h, n)
        && teamDamages[r, h] == HeroTeamDamage(matches[r], h, n)
      invariant forall r, h :: i <= r < |matches| && 0 <= h < n ==>
        powers[r, h] == PowerAfter([], h, n) && presence[r, h] == (h == 0) && teamDamages[r, h] == 0
    {
      var total := TotalBossDamage(matches[i].progress);
      damages[i] := total;
      var recorded := RecordMatch(i, matches[i].attackers, total, n, counts, powers, presence, teamDamages);
      if !recorded {
        return false;
      }
      assert matches[..i + 1][..i] == matches[..i] && matches[..i + 1][i] == matches[i];
      assert forall r :: 0 <= r < i + 1 ==> matches[..i + 1][r] == matches[r];
    }
    assert matches[..|matches|] == matches;
    return true;
  }

  /** Builds the match-by-hero table: fails (IndexError) when the hero catalog
      is empty, so there is no pet column to seed, or when a hero key falls
      outside the table. */
  method FillHeroTable(matches: seq<Match>, n: nat)
    returns (ok: bool, damages: array<int>, counts: array<int>,
             powers: array2<int>, presence: array2<bool>, teamDamages: array2<int>)
    ensures fresh(damages) && fresh(counts) && fresh(powers) && fresh(presence) && fresh(teamDamages)
    ensures damages.Length == |matches| && counts.Length == n
    ensures powers.Length0 == |matches| && presence.Length0 == |matches| && teamDamages.Length0 == |matches|
    ensures powers.Length1 == n && presence.Length1 == n && teamDamages.Length1 == n
    ensures ok <==> n > 0 && AllKeysInRange(matches, n)
    ensures ok ==> forall i :: 0 <= i < |matches| ==> damages[i] == TotalBossDamage(matches[i].progress)
    ensures ok ==> forall h :: 0 <= h < n ==> counts[h] == HeroCount(matches, h, n)
    ensures ok ==> forall i, h :: 0 <= i < |matches| && 0 <= h < n ==>
      && powers[i, h] == PowerCell(matches[i], h, n)
      && presence[i, h] == Present(matches[i], h, n)
      && teamDamages[i, h] == TeamDamageCell(matches[i], h, n)
  {
    var m := |matches|;
    damages := new int[m](_ => 0);
    counts := new int[n](_ => 0);
    powers := new int[m, n]((_, _) => 0);
    presence := new bool[m, n]((_, _) => false);
    teamDamages := new int[m, n]((_, _) => 0);
    if n == 0 {
      return false, damages, counts, powers, presence, teamDamages;
    }
    forall i | 0 <= i < m {
      presence[i, 0] := true;
    }
    forall i | 0 <= i < m {
      powers[i, 0] := PET_BASELINE_POWER;
    }
    ok := RecordMatches(matches, n, damages, counts, powers, presence, teamDamages);
    if ok {
      forall i | 0 <= i < m {
        teamDamages[i, 0] := damages[i];
      }
    }
  }

  /** Column h of the power matrix over all matches. */
  function PowerColumn(matches: seq<Match>, h: nat, n: nat): (col: seq<int>)
    ensures |col| == |matches|
    ensures forall i :: 0 <= i < |matches| ==> col[i] == PowerCell(matches[i], h, n)
  {
    seq(|matches|, i requires 0 <= i < |matches| => PowerCell(matches[i], h, n))
  }

  /** Column h of the team-damage matrix over all matches. */
  function TeamDamageColumn(matches: seq<Match>, h: nat, n: nat): (col: seq<int>)
    ensures |col| == |matches|
    ensures forall i :: 0 <= i < |matches| ==> col[i] == TeamDamageCell(matches[i], h, n)
  {
    seq(|matches|, i requires 0 <= i < |matches| => TeamDamageCell(matches[i], h, n))
  }

  /** Column h of a filled matrix, as `arr[:, h]`. */
  function ArrayColumn(a: array2<int>, h: nat): (col: seq<int>)
    requires h < a.Length1
    reads a
    ensures |col| == a.Length0
    ensures forall i :: 0 <= i < a.Length0 ==> col[i] == a[i, h]
  {
    seq(a.Length0, i requires 0 <= i < a.Length0 reads a => a[i, h])
  }

  /** The sum of the strictly positive entries. */
  function SumPositive(xs: seq<int>): int
    decreases |xs|
  {
    if xs == [] then 0 else SumPositive(xs[..|xs| - 1]) + (if xs[|xs| - 1] > 0 then xs[|xs| - 1] else 0)
  }

  /** If every positive entry is at least lo, the positive sum is at least lo
      times the number of positive entries. */
  lemma {:induction false} SumPositiveLower(xs: seq<int>, lo: int)
    requires forall k :: 0 <= k < |xs| && xs[k] > 0 ==> lo <= xs[k]
    ensures lo * CountPositive(xs) <= SumPositive(xs)
    decreases |xs|
  {
    if xs != [] {
      var init := xs[..|xs| - 1];
      assert forall k :: 0 <= k < |init| ==> init[k] == xs[k];
      SumPositiveLower(init, lo);
      assert lo * (CountPositive(init) + 1) == lo * CountPositive(init) + lo;
    }
  }

  /** If every positive entry is at most hi, the positive sum is at most hi
      times the number of positive entries. */
  lemma {:induction false} SumPositiveUpper(xs: seq<int>, hi: int)
    requires forall k :: 0 <= k < |xs| && xs[k] > 0 ==> xs[k] <= hi
    ensures SumPositive(xs) <= hi * CountPositive(xs)
    decreases |xs|
  {
    if xs != [] {
      var init := xs[..|xs| - 1];
      assert forall k :: 0 <= k < |init| ==> init[k] == xs[k];
      SumPositiveUpper(init, hi);
      assert hi * (CountPositive(init) + 1) == hi * CountPositive(init) + hi;
    }
  }

  lemma QuotientAtLeast(sum: int, count: int, lo: int)
    requires count > 0 && lo * count <= sum
    ensures lo as real <= sum as real / count as real
  {
    assert (lo * count) as real == lo as real * count as real;
    var q := sum as real / count as real;
    assert q * count as real == sum as real;
  }

  lemma QuotientAtMost(sum: int, count: int, hi: int)
    requires count > 0 && sum <= hi * count
    ensures sum as real / count as real <= hi as real
  {
    assert (hi * count) as real == hi as real * count as real;
    var q := sum as real / count as real;
    assert q * count as real == sum as real;
  }

  /** `numpy.mean(col, where=col > 0)`: the mean of the strictly positive
      entries, None (NaN) when there are none. */
  function AveragePositive(xs: seq<int>): (r: Option<real>)
    ensures r.None? <==> CountPositive(xs) == 0
    ensures r.Some? ==> r.value >= 1.0
    ensures r.Some? ==> r.value * CountPositive(xs) as real == SumPositive(xs) as real
  {
    if CountPositive(xs) == 0 then None
    else
      SumPositiveLower(xs, 1);
      QuotientAtLeast(SumPositive(xs), CountPositive(xs), 1);
      Some(SumPositive(xs) as real / CountPositive(xs) as real)
  }

  /** The strictly positive entries, in order: what `where=col > 0` selects. */
  function Positives(xs: seq<int>): (ps: seq<int>)
    ensures forall x :: x in ps <==> x in xs && x > 0
    decreases |xs|
  {
    if xs == [] then []
    else
      var init := xs[..|xs| - 1];
      assert xs == init + [xs[|xs| - 1]];
      Positives(init) + (if xs[|xs| - 1] > 0 then [xs[|xs| - 1]] else [])
  }

  /** The average is the arithmetic mean of the selected entries: their sum
      divided by their number, and undefined when none is selected. */
  lemma {:induction false} AverageIsMeanOfPositives(xs: seq<int>)
    ensures AveragePositive(xs).None? <==> Positives(xs) == []
    ensures AveragePositive(xs).Some? ==>
      AveragePositive(xs).value * |Positives(xs)| as real == Sum(Positives(xs)) as real
  {
    PositivesCountSum(xs);
  }

  lemma {:induction false} PositivesCountSum(xs: seq<int>)
    ensures |Positives(xs)| == CountPositive(xs)
    ensures Sum(Positives(xs)) == SumPositive(xs)
    decreases |xs|
  {
    if xs != [] {
      var init := xs[..|xs| - 1];
      var last := xs[|xs| - 1];
      PositivesCountSum(init);
      if last > 0 {
        var ps := Positives(init) + [last];
        assert ps[..|ps| - 1] == Positives(init);
        assert Sum(ps) == Sum(Positives(init)) + last;
      } else {
        assert Positives(init) + [] == Positives(init);
      }
    }
  }

  /** The mean lies within the range of the positive entries. */
  lemma AverageWithinBounds(xs: seq<int>, lo: int, hi: int)
    requires forall k :: 0 <= k < |xs| && xs[k] > 0 ==> lo <= xs[k] <= hi
    requires AveragePositive(xs).Some?
    ensures lo as real <= AveragePositive(xs).value <= hi as real
  {
    SumPositiveLower(xs, lo);
    SumPositiveUpper(xs, hi);
    QuotientAtLeast(SumPositive(xs), CountPositive(xs), lo);
    QuotientAtMost(SumPositive(xs), CountPositive(xs), hi);
  }

  /** Entries that are not positive do not move the mean. */
  lemma {:induction false} AverageIgnoresNonPositive(xs: seq<int>, x: int)
    requires x <= 0
    ensures AveragePositive(xs + [x]) == AveragePositive(xs)
  {
    assert (xs + [x])[..|xs|] == xs;
  }

  /** Column h of the table for a hero that is in no match is all zeros. */
  lemma {:induction false} AbsentColumnsZero(matches: seq<Match>, h: nat, n: nat)
    requires h > 0
    requires forall i :: 0 <= i < |matches| ==> LastPower(matches[i].attackers, h, n).None?
    ensures CountPositive(PowerColumn(matches, h, n)) == 0
    ensures CountPositive(TeamDamageColumn(matches, h, n)) == 0
  {
    NoPositive(PowerColumn(matches, h, n));
    NoPositive(TeamDamageColumn(matches, h, n));
  }

  lemma {:induction false} NoPositive(xs: seq<int>)
    requires forall k :: 0 <= k < |xs| ==> xs[k] <= 0
    ensures CountPositive(xs) == 0
    decreases |xs|
  {
    if xs != [] {
      var init := xs[..|xs| - 1];
      assert forall k :: 0 <= k < |init| ==> init[k] == xs[k];
      NoPositive(init);
    }
  }

  /** One row of the page: name, appearance count, the two averages and the
      score `avg_team_damage / avg_power` (None where numpy gives NaN). */
  datatype HeroRow = HeroRow(name: string, count: int, avgPower: Option<real>,
                             avgTeamDamage: Option<real>, score: Option<real>)

  function MakeRow(name: string, count: int, powers: seq<int>, teamDamages: seq<int>): (row: HeroRow)
    ensures row.name == name && row.count == count
    ensures row.avgPower == AveragePositive(powers) && row.avgTeamDamage == AveragePositive(teamDamages)
    ensures row.score.Some? <==> row.avgPower.Some? && row.avgTeamDamage.Some?
    ensures row.score.Some? ==> row.score.value > 0.0 && row.score.value * row.avgPower.value == row.avgTeamDamage.value
  {
    var power := AveragePositive(powers);
    var damage := AveragePositive(teamDamages);
    var score := if power.Some? && damage.Some? then Some(damage.value / power.value) else None;
    HeroRow(name, count, power, damage, score)
  }

  /** The rows for heroes 1 .. n-1 (column 0 is the pet), in catalog order,
      from the filled arrays. */
  method HeroRows(heroes: seq<string>, counts: array<int>, powers: array2<int>, teamDamages: array2<int>)
    returns (rows: seq<HeroRow>)
    requires counts.Length == |heroes| && powers.Length1 == |heroes| && teamDamages.Length1 == |heroes|
    ensures |rows| == if heroes == [] then 0 else |heroes| - 1
    ensures forall k :: 0 <= k < |rows| ==>
      rows[k] == MakeRow(heroes[k + 1], counts[k + 1], ArrayColumn(powers, k + 1), ArrayColumn(teamDamages, k + 1))
  {
    rows := [];
    var h := 1;
    while h < |heroes|
      invariant 1 <= h && (h <= |heroes| || h == 1)
      invariant |rows| == h - 1
      invariant forall k :: 0 <= k < |rows| ==>
        rows[k] == MakeRow(heroes[k + 1], counts[k + 1], ArrayColumn(powers, k + 1), ArrayColumn(teamDamages, k + 1))
    {
      var name := LookupHero(heroes, h);
      rows := rows + [MakeRow(name.value, counts[h], ArrayColumn(powers, h), ArrayColumn(teamDamages, h))];
      h := h + 1;
    }
  }

  /** The unsorted rows as functions of the matches: an IndexError when the
      table cannot be built. */
  function HeroTable(matches: seq<Match>, heroes: seq<string>): (r: Result<seq<HeroRow>, Fault>)
    ensures r.Failure? <==> heroes == [] || !AllKeysInRange(matches, |heroes|)
    ensures r.Success? ==> |r.value| == |heroes| - 1
    ensures r.Success? ==> forall k :: 0 <= k < |r.value| ==>
      r.value[k] == MakeRow(heroes[k + 1], HeroCount(matches, k + 1, |heroes|),
                            PowerColumn(matches, k + 1, |heroes|), TeamDamageColumn(matches, k + 1, |heroes|))
  {
    var n := |heroes|;
    if n == 0 || !AllKeysInRange(matches, n) then Failure(IndexError)
    else Success(seq(n - 1, k requires 0 <= k < n - 1 =>
      MakeRow(heroes[k + 1], HeroCount(matches, k + 1, n), PowerColumn(matches, k + 1, n), TeamDamageColumn(matches, k + 1, n))))
  }

  /** A catalog hero that is in no match has no averages and no score. */
  lemma AbsentHeroUnscored(matches: seq<Match>, heroes: seq<string>, h: nat)
    requires HeroTable(matches, heroes).Success?
    requires 1 <= h < |heroes| && HeroCount(matches, h, |heroes|) == 0
    ensures HeroTable(matches, heroes).value[h - 1].score.None?
    ensures HeroTable(matches, heroes).value[h - 1].avgPower.None?
  {
    CountZeroIffAbsent(matches, h, |heroes|);
    AbsentColumnsZero(matches, h, |heroes|);
  }

  /** The sort key: the score (every row that gets sorted has one). */
  function ScoreKey(row: HeroRow): real {
    if row.score.Some? then row.score.value else 0.0
  }

  /** The rows in descending score order, ties in catalog order; a row
      without a score (numpy's NaN) ends the page instead. */
  function RankHeroes(rows: seq<HeroRow>): (r: Result<seq<HeroRow>, Fault>)
    ensures r.Failure? <==> exists k :: 0 <= k < |rows| && rows[k].score.None?
    ensures r.Success? ==> |r.value| == |rows| && multiset(r.value) == multiset(rows)
    ensures r.Success? ==> NonIncreasing(r.value, ScoreKey)
    ensures r.Success? ==> forall k :: WithKey(r.value, ScoreKey, k) == WithKey(rows, ScoreKey, k)
  {
    if exists k :: 0 <= k < |rows| && rows[k].score.None? then Failure(UndefinedAverage)
    else
      SortDescNonIncreasing(rows, ScoreKey);
      assert forall k :: WithKey(SortDesc(rows, ScoreKey), ScoreKey, k) == WithKey(rows, ScoreKey, k) by {
        forall k ensures WithKey(SortDesc(rows, ScoreKey), ScoreKey, k) == WithKey(rows, ScoreKey, k) {
          SortDescStable(rows, ScoreKey, k);
        }
      }
      Success(SortDesc(rows, ScoreKey))
  }

  function OptionalReal(v: Option<real>): Value {
    if v.Some? then Real(v.value) else Null
  }

  /** The five cells of a ranked row, each with the integer number format. */
  function HeroRowColumns(row: HeroRow): (cols: seq<Column>)
    ensures |cols| == 5
    ensures forall c :: 0 <= c < 5 ==> CellFormat(cols[c]) == IntegerFormat
    ensures cols[0].value == Text(row.name) && cols[1].value == Int(row.count)
    ensures forall v :: row.avgPower == Some(v) ==> cols[2].value == Real(v)
    ensures forall v :: row.avgTeamDamage == Some(v) ==> cols[3].value == Real(v)
    ensures forall v :: row.score == Some(v) ==> cols[4].value == Real(v)
    ensures row.avgPower.None? ==> cols[2].value == Null
    ensures row.avgTeamDamage.None? ==> cols[3].value == Null
    ensures row.score.None? ==> cols[4].value == Null
  {
    [ Column(Text(row.name), IntegerFormat, true),
      Column(Int(row.count), IntegerFormat, true),
      Column(OptionalReal(row.avgPower), IntegerFormat, true),
      Column(OptionalReal(row.avgTeamDamage), IntegerFormat, true),
      Column(OptionalReal(row.score), IntegerFormat, true) ]
  }

  function HeroHeader(): (cols: seq<Column>)
    ensures |cols| == 5
    ensures forall c :: 0 <= c < 5 ==> cols[c].value.Text? && CellFormat(cols[c]) == Unformatted
  {
    [ Plain(Text("Hero")), Plain(Text("Count")), Plain(Text("Average power")),
      Plain(Text("Average team damage")), Plain(Text("Team Damage per Hero Power")) ]
  }

  /** The page's rows of cells: the header, then the ranked heroes. */
  function HeroSheetRows(ranked: seq<HeroRow>): (rows: seq<seq<Column>>)
    ensures |rows| == |ranked| + 1 && rows[0] == HeroHeader()
    ensures forall k :: 0 <= k < |ranked| ==> rows[k + 1] == HeroRowColumns(ranked[k])
  {
    [HeroHeader()] + seq(|ranked|, k requires 0 <= k < |ranked| => HeroRowColumns(ranked[k]))
  }

  /** The matches of the response in response order (this page does not sort them). */
  function Matches(response: MatchResponse): (ms: seq<Match>)
    ensures |ms| == MatchCount(response)
    ensures forall i :: 0 <= i < |ms| ==> ms[i] == AllMatches(response)[i].m
  {
    var all := AllMatches(response);
    seq(|all|, i requires 0 <= i < |all| => all[i].m)
  }

  /** `add_hero_summary_page` as a function of its inputs: the table fails
      with an IndexError, an unscored hero with `UndefinedAverage`; otherwise
      the header and one five-cell row per catalog hero after the placeholder,
      ranked, are written from row 0. */
  function HeroSummarySheet(response: MatchResponse, data: HeroData): (r: Result<seq<Write>, Fault>)
    ensures var table := HeroTable(Matches(response), data.heroes);
      && (table.Failure? ==> r == Failure(IndexError))
      && (table.Success? ==>
        && (r.Failure? <==> exists k :: 0 <= k < |table.value| && table.value[k].score.None?)
        && (r.Failure? ==> r.error == UndefinedAverage)
        && (r.Success? ==> r.value == SheetWrites(0, HeroSheetRows(RankHeroes(table.value).value))))
  {
    match HeroTable(Matches(response), data.heroes)
    case Failure(err) => Failure(err)
    case Success(rows) =>
      match RankHeroes(rows)
      case Failure(err) => Failure(err)
      case Success(ranked) => Success(SheetWrites(0, HeroSheetRows(ranked)))
  }

  /** A written page holds five cells for the header and for each catalog
      hero after the placeholder. */
  lemma HeroSummaryWidth(response: MatchResponse, data: HeroData)
    requires HeroSummarySheet(response, data).Success?
    ensures |HeroSummarySheet(response, data).value| == 5 * |data.heroes|
  {
    var table := HeroTable(Matches(response), data.heroes).value;
    var page := HeroSheetRows(RankHeroes(table).value);
    SheetWritesLength(0, page, 5);
  }

  /** The page as the source builds it, over arrays, equals the function. */
  method HeroSummaryPage(response: MatchResponse, data: HeroData) returns (r: Result<seq<Write>, Fault>)
    ensures r == HeroSummarySheet(response, data)
  {
    var matches := Matches(response);
    var n := |data.heroes|;
    var ok, damages, counts, powers, presence, teamDamages := FillHeroTable(matches, n);
    if !ok {
      return Failure(IndexError);
    }
    var rows := HeroRows(data.heroes, counts, powers, teamDamages);
    forall h | 1 <= h < n
      ensures ArrayColumn(powers, h) == PowerColumn(matches, h, n)
      ensures ArrayColumn(teamDamages, h) == TeamDamageColumn(matches, h, n)
    {
    }
    assert rows == HeroTable(matches, data.heroes).value;
    match RankHeroes(rows)
    case Failure(err) =>
      return Failure(err);
    case Success(ranked) =>
      return Success(SheetWrites(0, HeroSheetRows(ranked)));
  }

  /** A catalog hero that appears in no boss match has no score, so the page
      (and the conversion) ends in a fault. */
  lemma AbsentHeroFailsPage(response: MatchResponse, data: HeroData, h: nat)
    requires AllKeysInRange(Matches(response), |data.heroes|)
    requires 1 <= h < |data.heroes| && HeroCount(Matches(response), h, |data.heroes|) == 0
    ensures HeroSummarySheet(response, data) == Failure(UndefinedAverage)
  {
    var table := HeroTable(Matches(response), data.heroes);
    AbsentHeroUnscored(Matches(response), data.heroes, h);
    assert table.value[h - 1].score.None?;
  }
}
