# Lobby registry of the game-server load balancer, in Dafny

This project models the core of a small Go control plane that hands out game
servers. The core is an in-memory directory of lobbies held in two maps,
`lobbies` (the `Lobby` records clients see) and `statuses` (a `PlayersJoined`
latch and the game process pid). Both maps are keyed by the endpoint key
`host_port`. The model covers:

- the key function `createKey`;
- the lowest-free-port search `identifyNextPort`;
- the handlers `CreateLobby`, `UpdateLobby`, `ReapLobby` and `GetLobbies`;
- the start-up seeding `initLobbies`;
- one pass of the `reaper` loop;
- the `Lobby` record and `NewLobby` from `lobby/lobby.go`.

Each Go handler runs entirely under one registry lock, so each is modelled as
one atomic method of the class `Registry.Registry`. The class owns the two
maps as `map` fields. Its invariant `Registry.Consistent` says that both maps
hold the same keys and that every lobby is filed under
`createKey(Host, Port)`. The constructor establishes it, and `InitLobbies`,
every handler and the sweep keep it.

The modelled file `main.go` reaches two things outside the program:

- The process spawner is a parameter `spawn: int -> SpawnOutcome`. It says,
  for each port, whether a game server started and with which pid.
- `syscall.Kill` is a parameter `killable: set<int>`, the pids whose kill
  succeeds.

Files:

- `wrappers.dfy`: the `Option` type.
- `decimal.dfy`: `strconv.Itoa` and its inverse parse.
- `keys.dfy`: `createKey`, splitting a key at its last `_`, round trip and injectivity.
- `lobby.dfy`: the `Lobby` record and `NewLobby`.
- `string_order.dfy`: Go's string order and `sort.Strings`. The sort is
  specified as "sorted and a permutation" and written as an insertion sort.
  Under a total order that contract fixes the output uniquely.
- `registry.dfy`: the two-map registry, its invariant, the handlers, the
  reaper sweep and the snapshot.

Behaviour of the code that the model keeps:

- The reaper's test in `main.go` has no `pid != -1` check. The seeded
  `localhost` entry survives only because its host is not the managed host.
  `SweepSparesSeed` proves that it is never reaped.
- `UpdateLobby` and `ReapLobby` dereference the map entry without a check.
  They have no "not found" result, so the model requires the key to be
  present.
- A failed spawn calls `log.Fatal`. See "Left out".
- Created lobbies always get capacity 8 (`CreatedMaxPlayers`).

## Model

| member | source | states |
|---|---|---|
| `Lobbies.NewLobby` | lobby/lobby.go:18-20 | the new lobby has the given name and capacity, no players, empty host and port 0 |
| `Decimal.Itoa` | main.go:47 | the decimal text is non-empty, starts with '-' exactly for negative numbers, and is digits otherwise |
| `Decimal.NatToDecimal` | main.go:47 | the digits of a natural number are non-empty and all decimal digits; one digit exactly below 10; the first digit is '0' only for zero (no leading zeros) |
| `Decimal.ItoaRoundTrip` | main.go:47 | parsing the decimal text of any integer gives that integer back |
| `Decimal.DigitsRoundTrip` | main.go:47 | parsing the digits of any natural number gives it back |
| `Keys.CreateKey` | main.go:46-48 | the key is the host, then '_', then a non-empty tail with no '_' in it |
| `Keys.LastSeparator` | main.go:46-48 | finds the last '_' of a key: the position holds '_' and nothing after it does; None when there is none |
| `Keys.KeyRoundTrip` | main.go:46-48 | splitting a key at its last '_' and parsing the tail recovers exactly (host, port) |
| `Keys.KeyInjective` | main.go:46-48 | two keys are equal if and only if their hosts and ports are equal, so distinct endpoints never collide |
| `StringOrder.LessTotal` | main.go:59 | Go's string order relates any two different strings one way or the other |
| `StringOrder.LessTransitive` | main.go:59 | Go's string order is transitive |
| `StringOrder.SortStrings` | main.go:59 | sort.Strings returns a permutation of its input in non-decreasing order |
| `StringOrder.SortedDistinctIsStrict` | main.go:55-59 | sorting map keys, which are all different, gives a strictly ascending sequence |
| `Registry.Joined` | main.go:144-148 | an update keeps the pid and leaves the latch set if and only if it was set or the new count is positive |
| `Registry.LatchOverUpdates` | main.go:143-148 | over any series of updates the latch ends set if and only if it was set before or some update reported players; the pid never changes |
| `Registry.EndpointsUnique` | main.go:125-126 | two different entries of a consistent registry never share (host, port) |
| `Registry.FiledUnderOwnEndpoint` | main.go:125-126 | the lobby found under createKey(host, port) has that host and that port |
| `Registry.FilingKeepsConsistent` | main.go:125-126 | filing a lobby under its own key, with a status beside it, keeps both maps on the same keys and every lobby under its own key |
| `Registry.LowestFreePortUnique` | main.go:70-79 | there is only one lowest free port on the managed host |
| `Registry.LowestFreePortFromStart` | main.go:70-79 | in any registry where ports 9000 and 9001 are free on the managed host, the lowest free port is 9000, and 9001 once a lobby is filed under the 9000 key |
| `Registry.SweepKeepsConsistent` | main.go:185-186 | deleting the same keys from both maps keeps the registry consistent |
| `Registry.SweepRemovesExactly` | main.go:176-188 | a sweep removes an entry if and only if it is on the managed host, empty, latched and its kill succeeds; every other entry, including those whose kill failed, is kept unchanged |
| `Registry.SweepSparesUnused` | main.go:178 | a sweep never removes an entry whose latch is clear |
| `Registry.SweepSparesSeed` | main.go:156-168 | a sweep never removes the seeded localhost:8888 entry |
| `Registry.SweepIdempotent` | main.go:176-188 | a second sweep with the same kill outcomes removes nothing |
| `Registry.SnapshotInKeyOrder` | main.go:55-65 | looking up a sorted permutation of the keys yields one lobby per key, each filed under its own key, in strictly ascending key order, and every lobby appears |
| `Registry.Registry.constructor` | main.go:34-39 | the registry starts with both maps empty, which is consistent |
| `Registry.Registry.InitLobbies` | main.go:152-169 | files the "localhost lobby" (capacity 8, no players, localhost:8888) with a clear latch and pid -1 under its own key; the registry stays consistent |
| `Registry.Registry.IdentifyNextPort` | main.go:70-79 | returns a port at least 9000 whose managed-host key is absent, and every port from 9000 below it is taken: the lowest free port; the loop terminates because the map is finite |
| `Registry.Registry.CreateLobby` | main.go:107-126 | allocates the lowest free port; if the spawn fails both maps are unchanged; otherwise a lobby (name, capacity 8, no players, managed host, that port) and a status (clear latch, spawned pid) are filed under the same previously absent key and nothing else changes |
| `Registry.Registry.UpdateLobby` | main.go:130-149 | sets only that lobby's player count; its latch becomes set when the count is positive and is never cleared; nothing else changes |
| `Registry.Registry.ReapLobby` | main.go:196-204 | sets the managed-host lobby's player count to 0 and its latch to set, which makes it reapable; deletes nothing and touches no other entry |
| `Registry.Registry.ReaperSweep` | main.go:175-190 | one sweep deletes from both maps exactly the reapable entries whose kill succeeds, visiting keys in any order, and keeps the registry consistent |
| `Registry.Registry.CollectKeys` | main.go:55-58 | collects every key of the lobbies map exactly once |
| `Registry.Registry.LookUpAll` | main.go:61-65 | looks up each key in order and copies the lobby filed under it |
| `Registry.Registry.GetLobbies` | main.go:51-67 | the snapshot has one lobby per key, each equal to the lobby filed under its own key, in strictly ascending key order, with every lobby present |
| `Registry.SuccessiveCreates` | main.go:107-126 | after start-up, two successful creates get ports 9000 and then 9001 on the managed host |
| `Registry.CreateAfterFailedSpawn` | main.go:107-112 | after start-up, a create whose spawn fails files nothing, so the next create still gets port 9000 |

## Left out

- HTTP transport is not modelled: routing, JSON decoding and encoding, writing the response, and `strconv.Atoi` of the `/reap/{port}` parameter. The handlers take already-parsed names and integers, and `GetLobbies` returns the list instead of encoding it. A request body that fails to decode makes the Go handler return without change, so it is not modelled.
- Concurrency is not modelled: the read/write lock, the `go reaper()` goroutine, the endless loop and the 10-second sleep. Each handler and each sweep is one atomic step, which is what the lock guarantees.
- The spawner is an oracle parameter. The `exec.Command` call, its flags and the per-port log file name are not modelled.
- `syscall.Kill` is an oracle parameter: the set of pids whose kill succeeds.
- Logging is not modelled.
- Registry.Registry.CreateLobby: in the Go source a failed launch calls `log.Fatal`, which ends the whole process. The error return and the handler's error branch after it never run. The model takes that error branch: it returns `None` and leaves both maps unchanged. The model also returns the allocated port and the created lobby so that contracts can name them. The Go handler returns nothing to its caller.
- Registry.Registry.UpdateLobby: an absent key makes the Go handler dereference nil and panic. The model requires the key to be present and does not model the panic.
- Registry.Registry.ReapLobby: an absent key makes the Go handler dereference nil and panic. The model requires the key to be present and does not model the panic.
- Go's fixed-width `int` is modelled as unbounded. Overflow of the port counter is not modelled; it would need about 2^63 lobbies.
- Go's `*Lobby` and `*status` pointers are modelled as values stored in the maps. Each pointer is held only by its map entry, so writing through it is the same as replacing the entry. `GetLobbies` copies the records (`*lobby`), which a sequence of values also does.
- Go compares strings byte by byte in UTF-8. The model compares characters by code point, which gives the same order for valid text.
