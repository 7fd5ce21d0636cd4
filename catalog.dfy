/** The lookups every page uses: color rank labels, the hero and pet
    catalogs, and the roster's player names. */
module Catalog {
  import opened Wrappers
  import opened Records

  /** The color ranks, indexed by the color id the game records. */
  function AllColors(): (t: seq<string>)
    ensures |t| == 19
    ensures t[0] == "NONE" && t[1] == "W" && t[18] == "R+2"
  {
    [ "NONE",
      "W",
      "G", "G+1",
      "B", "B+1", "B+2",
      "V", "V+1", "V+2", "V+3",
      "O", "O+1", "O+2", "O+3", "O+4",
      "R", "R+1", "R+2" ]
  }

  /** Python list indexing: a negative index counts from the end; anything
      else outside the list is an IndexError. */
  function PyIndex<T>(s: seq<T>, i: int): (r: Option<T>)
    ensures r.Some? <==> -|s| <= i < |s|
    ensures 0 <= i < |s| ==> r == Some(s[i])
    ensures -|s| <= i < 0 ==> r == Some(s[|s| + i])
  {
    if 0 <= i < |s| then Some(s[i])
    else if -|s| <= i < 0 then Some(s[|s| + i])
    else None
  }

  /** `lookup_color`: ids up to the table's length are looked up, any larger id
      is an unknown color. A negative id reaches Python's list indexing. */
  function LookupColor(color: int): (r: Result<string, Fault>)
    ensures 0 <= color < 19 ==> r == Success(AllColors()[color])
    ensures color >= 19 ==> r == Failure(UnknownColor(color))
    ensures -19 <= color < 0 ==> r == Success(AllColors()[19 + color])
    ensures color < -19 ==> r == Failure(IndexError)
    ensures r.Success? ==> r.value in AllColors()
  {
    if color < |AllColors()| then
      match PyIndex(AllColors(), color)
      case Some(rank) => Success(rank)
      case None => Failure(IndexError)
    else
      Failure(UnknownColor(color))
  }

  /** Pet ids start at this value; pet `id` sits at index `id - PET_ID_START`. */
  const PET_ID_START: int := 6000

  /** `lookup_pet`: id 0 means "no pet" and does not touch the catalog. */
  function LookupPet(pets: seq<string>, petId: int): (r: Result<Option<string>, Fault>)
    ensures petId == 0 ==> r == Success(None)
    ensures petId != 0 ==> (r.Success? <==> -|pets| <= petId - PET_ID_START < |pets|)
    ensures petId != 0 && 0 <= petId - PET_ID_START < |pets| ==>
      r == Success(Some(pets[petId - PET_ID_START]))
    ensures petId != 0 && -|pets| <= petId - PET_ID_START < 0 ==>
      r == Success(Some(pets[|pets| + petId - PET_ID_START]))
    ensures r.Failure? ==> r.error == IndexError
  {
    if petId == 0 then Success(None)
    else
      match PyIndex(pets, petId - PET_ID_START)
      case Some(name) => Success(Some(name))
      case None => Failure(IndexError)
  }

  /** `lookup_hero`: a direct catalog index; a missing hero ends the run. */
  function LookupHero(heroes: seq<string>, heroId: int): (r: Result<string, Fault>)
    ensures r.Success? <==> -|heroes| <= heroId < |heroes|
    ensures 0 <= heroId < |heroes| ==> r == Success(heroes[heroId])
    ensures -|heroes| <= heroId < 0 ==> r == Success(heroes[|heroes| + heroId])
    ensures r.Failure? ==> r.error == IndexError
  {
    match PyIndex(heroes, heroId)
    case Some(name) => Success(name)
    case None => Failure(IndexError)
  }

  /** The roster's name for a player, when the whole key path
      results[1].result.response.clan.members[id].name exists. */
  ghost predicate RosterNames(guild: Guild, playerId: string, name: string) {
    && guild.results.Some?
    && |guild.results.value| >= 2
    && guild.results.value[1].Some?
    && playerId in guild.results.value[1].value
    && guild.results.value[1].value[playerId].name == Some(name)
  }

  /** `lookup_player`: a missing key on the path gives None; only a results
      list too short to have an entry 1 raises (the source catches KeyError only). */
  function LookupPlayer(guild: Guild, playerId: string): (r: Result<Option<string>, Fault>)
    ensures r.Failure? <==> guild.results.Some? && |guild.results.value| < 2
    ensures r.Failure? ==> r.error == IndexError
    ensures forall name :: r == Success(Some(name)) <==> RosterNames(guild, playerId, name)
  {
    match guild.results
    case None => Success(None)
    case Some(results) =>
      if |results| < 2 then Failure(IndexError)
      else
        match results[1]
        case None => Success(None)
        case Some(members) =>
          if playerId in members then Success(members[playerId].name) else Success(None)
  }
}
