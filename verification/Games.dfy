/** Installed games as every layer of the program shares them. */
module Games {
  import opened Common

  /** An absolute path by components, so `starts_with` is being a prefix. */
  type Path = seq<string>

  /** A game id in its displayed `launcher:key` form. */
  type GameId = string

  datatype InstallState = Idle | UpdatePending | Busy | Broken(online: bool)

  datatype Game = Game(
    id: GameId, also: seq<GameId>, manual: bool, dir: Path, build: Option<string>, state: InstallState)
  {
    function Ids(): seq<GameId> { [id] + also }
  }
}
