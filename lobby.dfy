/** The lobby record that clients see (lobby/lobby.go). */
module Lobbies {
  /** One game session: its display name, capacity, occupancy and endpoint. */
  datatype Lobby = Lobby(name: string, maxPlayers: int, numPlayers: int, host: string, port: int)

  /**
   * NewLobby: a lobby with the given name and capacity; every other field
   * keeps Go's zero value (no players, no host, port 0).
   */
  function NewLobby(name: string, maxPlayers: int): (l: Lobby)
    ensures l.name == name && l.maxPlayers == maxPlayers
    ensures l.numPlayers == 0
    ensures l.host == "" && l.port == 0
  {
    Lobby(name, maxPlayers, 0, "", 0)
  }
}
