/** The game record both views work on, and the lookups they share. */
module GameModel {

  datatype Option<T> = None | Some(value: T)
  {
    /** Swift's `x ?? default`. */
    function GetOr(default: T): T
    {
      if Some? then value else default
    }
  }

  /** A game's identity (a UUID). */
  type Uuid = nat

  /** `Platform`, `Status` and `Recency` are Swift enums whose cases are not part of
      this model: a value stands for a case, and the order of a case list
      (`allCases`) is given separately where it matters. */
  type Platform = nat
  type Status = nat
  type Recency = nat

  /** One entry of the catalog (`Game`). */
  datatype Game = Game(
    id: Uuid,
    name: string,
    launcher: string,
    icon: string,
    platform: Platform,
    status: Status,
    metadata: map<string, string>,
    recency: Recency,
    isFavorite: bool,
    isHidden: bool)

  /** `metadata[key] ?? ""`. */
  function Lookup(metadata: map<string, string>, key: string): string
  {
    if key in metadata then metadata[key] else ""
  }

  /** The identities of a catalog, in catalog order. */
  function Ids(games: seq<Game>): (r: seq<Uuid>)
    ensures |r| == |games|
    ensures forall i :: 0 <= i < |games| ==> r[i] == games[i].id
  {
    seq(|games|, i requires 0 <= i < |games| => games[i].id)
  }

  predicate UniqueIds(games: seq<Game>)
  {
    forall i, j :: 0 <= i < j < |games| ==> games[i].id != games[j].id
  }

  /** `games.firstIndex(where: { $0.id == selectedGame })`, where the selection is
      optional and no game matches an empty selection. */
  function FirstMatch(games: seq<Game>, selected: Option<Uuid>): (r: Option<nat>)
    ensures r.None? <==> forall i :: 0 <= i < |games| ==> Some(games[i].id) != selected
    ensures r.Some? ==> r.value < |games| && Some(games[r.value].id) == selected
    ensures r.Some? ==> forall j :: 0 <= j < r.value ==> Some(games[j].id) != selected
  {
    if games == [] then None
    else if Some(games[0].id) == selected then Some(0)
    else
      match FirstMatch(games[1..], selected)
      case None => None
      case Some(i) => Some(i + 1)
  }
}
