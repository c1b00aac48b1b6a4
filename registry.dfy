/**
 * The lobby registry of main.go: two maps, `lobbies` and `statuses`, keyed by
 * the endpoint key of each lobby, and the handlers that change them. Each
 * handler runs entirely under the registry lock, so each is modelled as one
 * atomic step on the two maps.
 *
 * The process spawner is a parameter `spawn` (what it returns for a port) and
 * the kill system call is a parameter `killable` (the pids whose kill
 * succeeds).
 */
module Registry {
  import opened Wrappers
  import opened Keys
  import opened Lobbies
  import opened StringOrder

  /** Bookkeeping that is never shown to clients. */
  datatype Status = Status(playersJoined: bool, pid: int)

  /** What the process spawner reports for one launch. */
  datatype SpawnOutcome = Spawned(pid: int) | SpawnFailed

  /** The only host on which game servers are spawned and reaped. */
  const DefaultHost: string := "pylon1.usc.edu"
  /** The first port tried for a new game server. */
  const StartPort: int := 9000
  /** The capacity every created lobby gets, whatever the request said. */
  const CreatedMaxPlayers: int := 8

  /** The statically seeded lobby, which has no process behind it. */
  const SeedLobby: Lobby := Lobby("localhost lobby", 8, 0, "localhost", 8888)
  const SentinelPid: int := -1

  /** The key a lobby is filed under. */
  function KeyOf(l: Lobby): string {
    CreateKey(l.host, l.port)
  }

  /**
   * The registry invariant: both maps hold the same keys, and every lobby is
   * filed under the key of its own host and port.
   */
  ghost predicate Consistent(ls: map<string, Lobby>, ss: map<string, Status>) {
    && ls.Keys == ss.Keys
    && forall k :: k in ls ==> KeyOf(ls[k]) == k
  }

  /**
   * `port` is the lowest port, from StartPort up, whose default-host key is
   * absent from `ls`.
   */
  ghost predicate IsLowestFreePort(ls: map<string, Lobby>, port: int) {
    && port >= StartPort
    && CreateKey(DefaultHost, port) !in ls
    && forall q :: StartPort <= q < port ==> CreateKey(DefaultHost, q) in ls
  }

  /** There is at most one lowest free port. */
  lemma LowestFreePortUnique(ls: map<string, Lobby>, p: int, q: int)
    requires IsLowestFreePort(ls, p) && IsLowestFreePort(ls, q)
    ensures p == q
  {
  }

  /**
   * When neither StartPort nor the port after it is taken on the managed
   * host, the lowest free port is StartPort; once a lobby is filed there, it
   * is the port after it.
   */
  lemma LowestFreePortFromStart(ls: map<string, Lobby>, l: Lobby)
    requires CreateKey(DefaultHost, StartPort) !in ls && CreateKey(DefaultHost, StartPort + 1) !in ls
    ensures IsLowestFreePort(ls, StartPort)
    ensures IsLowestFreePort(ls[CreateKey(DefaultHost, StartPort) := l], StartPort + 1)
  {
    KeyInjective(DefaultHost, StartPort, DefaultHost, StartPort + 1);
  }

  /** No latch that was set in `before` is clear in `after`. */
  ghost predicate LatchesKept(before: map<string, Status>, after: map<string, Status>) {
    forall k :: k in before && k in after && before[k].playersJoined ==> after[k].playersJoined
  }

  /** The reaper's test: on the managed host, empty, and used at least once. */
  predicate Reapable(l: Lobby, s: Status) {
    l.host == DefaultHost && l.numPlayers == 0 && s.playersJoined
  }

  /** The keys one reaper sweep deletes: reapable entries whose kill succeeds. */
  function ReapedKeys(ls: map<string, Lobby>, ss: map<string, Status>, killable: set<int>): set<string> {
    set k | k in ls && k in ss && Reapable(ls[k], ss[k]) && ss[k].pid in killable
  }

  /** The status after an update reports `numPlayers` players. */
  function Joined(s: Status, numPlayers: int): (r: Status)
    ensures r.pid == s.pid
    ensures r.playersJoined <==> s.playersJoined || numPlayers > 0
  {
    if numPlayers > 0 then s.(playersJoined := true) else s
  }

  /** The status after a series of updates, oldest first. */
  function JoinedAll(s: Status, reports: seq<int>): Status
    decreases |reports|
  {
    if reports == [] then s else JoinedAll(Joined(s, reports[0]), reports[1..])
  }

  /**
   * Over any series of updates the latch ends up set exactly when it was set
   * before or some update reported players; updates never reset it and never
   * touch the pid.
   */
  lemma {:induction false} LatchOverUpdates(s: Status, reports: seq<int>)
    ensures JoinedAll(s, reports).pid == s.pid
    ensures JoinedAll(s, reports).playersJoined <==>
              s.playersJoined || exists i :: 0 <= i < |reports| && reports[i] > 0
    decreases |reports|
  {
    if reports != [] {
      LatchOverUpdates(Joined(s, reports[0]), reports[1..]);
      assert forall i :: 1 <= i < |reports| ==> reports[i] == reports[1..][i - 1];
      if exists i :: 1 <= i < |reports| && reports[i] > 0 {
        var i :| 1 <= i < |reports| && reports[i] > 0;
        assert reports[1..][i - 1] > 0;
      }
    }
  }

  /** Distinct entries of a consistent registry have distinct endpoints. */
  lemma EndpointsUnique(ls: map<string, Lobby>, ss: map<string, Status>, k1: string, k2: string)
    requires Consistent(ls, ss)
    requires k1 in ls && k2 in ls && k1 != k2
    ensures ls[k1].host != ls[k2].host || ls[k1].port != ls[k2].port
  {
  }

  /** The lobby filed under `CreateKey(host, port)` has that host and port. */
  lemma FiledUnderOwnEndpoint(ls: map<string, Lobby>, ss: map<string, Status>, host: string, port: int)
    requires Consistent(ls, ss)
    requires CreateKey(host, port) in ls
    ensures ls[CreateKey(host, port)].host == host && ls[CreateKey(host, port)].port == port
  {
    var l := ls[CreateKey(host, port)];
    KeyInjective(l.host, l.port, host, port);
  }

  /** Filing a lobby under its own key, with a status beside it, keeps the maps consistent. */
  lemma FilingKeepsConsistent(ls: map<string, Lobby>, ss: map<string, Status>, l: Lobby, s: Status)
    requires Consistent(ls, ss)
    ensures Consistent(ls[KeyOf(l) := l], ss[KeyOf(l) := s])
  {
  }

  /** A sweep keeps both maps consistent. */
  lemma SweepKeepsConsistent(ls: map<string, Lobby>, ss: map<string, Status>, killable: set<int>)
    requires Consistent(ls, ss)
    ensures Consistent(ls - ReapedKeys(ls, ss, killable), ss - ReapedKeys(ls, ss, killable))
  {
  }

  /**
   * What a sweep removes: an entry is removed exactly when it is reapable and
   * its kill succeeds; every entry it keeps is left as it was.
   */
  lemma SweepRemovesExactly(ls: map<string, Lobby>, ss: map<string, Status>, killable: set<int>, k: string)
    requires Consistent(ls, ss) && k in ls
    ensures k !in ls - ReapedKeys(ls, ss, killable) <==> Reapable(ls[k], ss[k]) && ss[k].pid in killable
    ensures k in ls - ReapedKeys(ls, ss, killable) ==>
              (ls - ReapedKeys(ls, ss, killable))[k] == ls[k] && (ss - ReapedKeys(ls, ss, killable))[k] == ss[k]
  {
  }

  /** A sweep never removes an entry no player has joined. */
  lemma SweepSparesUnused(ls: map<string, Lobby>, ss: map<string, Status>, killable: set<int>, k: string)
    requires k in ss && !ss[k].playersJoined
    ensures k !in ReapedKeys(ls, ss, killable)
  {
  }

  /** A sweep never removes the seeded localhost entry. */
  lemma SweepSparesSeed(ls: map<string, Lobby>, ss: map<string, Status>, killable: set<int>)
    requires Consistent(ls, ss)
    ensures KeyOf(SeedLobby) !in ReapedKeys(ls, ss, killable)
  {
    if KeyOf(SeedLobby) in ls {
      FiledUnderOwnEndpoint(ls, ss, SeedLobby.host, SeedLobby.port);
    }
  }

  /** A second sweep with the same kill outcomes removes nothing more. */
  lemma SweepIdempotent(ls: map<string, Lobby>, ss: map<string, Status>, killable: set<int>)
    ensures ReapedKeys(ls - ReapedKeys(ls, ss, killable), ss - ReapedKeys(ls, ss, killable), killable) == {}
  {
  }

  /** Taking one more key out of the pending set of a sweep. */
  lemma RemoveStep<V>(m: map<string, V>, doomed: set<string>, pending: set<string>, key: string)
    requires key in pending && pending <= m.Keys
    ensures key in m - (doomed - pending)
    ensures (m - (doomed - pending))[key] == m[key]
    ensures m - (doomed - (pending - {key})) ==
              if key in doomed then (m - (doomed - pending)) - {key} else m - (doomed - pending)
  {
  }

  /** The in-memory lobby directory. */
  class Registry {
    var lobbies: map<string, Lobby>
    var statuses: map<string, Status>

    ghost predicate Valid()
      reads this
    {
      Consistent(lobbies, statuses)
    }

    /** The registry as the program starts it: both maps empty. */
    constructor ()
      ensures Valid()
      ensures lobbies == map[] && statuses == map[]
    {
      lobbies := map[];
      statuses := map[];
    }

    /** initLobbies: files the seeded localhost lobby with the sentinel pid. */
    method InitLobbies()
      requires Valid()
      modifies this
      ensures Valid()
      ensures lobbies == old(lobbies)[KeyOf(SeedLobby) := SeedLobby]
      ensures statuses == old(statuses)[KeyOf(SeedLobby) := Status(false, SentinelPid)]
    {
      var lobby1 := SeedLobby;
      var status1 := Status(false, SentinelPid);
      lobbies := lobbies[CreateKey(lobby1.host, lobby1.port) := lobby1];
      statuses := statuses[CreateKey(lobby1.host, lobby1.port) := status1];
    }

    /** identifyNextPort: the lowest port from StartPort up not yet taken on DefaultHost. */
    method IdentifyNextPort() returns (port: int)
      ensures IsLowestFreePort(lobbies, port)
    {
      port := StartPort;
      ghost var taken: set<string> := {};
      while CreateKey(DefaultHost, port) in lobbies
        invariant port >= StartPort
        invariant forall q :: StartPort <= q < port ==> CreateKey(DefaultHost, q) in lobbies
        invariant taken <= lobbies.Keys
        invariant forall k :: k in taken ==> exists q :: StartPort <= q < port && k == CreateKey(DefaultHost, q)
        decreases lobbies.Keys - taken
      {
        var key := CreateKey(DefaultHost, port);
        forall k | k in taken
          ensures k != key
        {
          var q :| StartPort <= q < port && k == CreateKey(DefaultHost, q);
          KeyInjective(DefaultHost, q, DefaultHost, port);
        }
        taken := taken + {key};
        port := port + 1;
      }
    }

    /**
     * CreateLobby: takes the lowest free port, asks the spawner for a game
     * server there and, if it started, files a new empty lobby and a fresh
     * status under that port's key. A failed spawn changes nothing.
     */
    method CreateLobby(name: string, spawn: int -> SpawnOutcome) returns (port: int, created: Option<Lobby>)
      requires Valid()
      modifies this
      ensures Valid()
      ensures IsLowestFreePort(old(lobbies), port)
      ensures created.None? <==> spawn(port).SpawnFailed?
      ensures created.None? ==> lobbies == old(lobbies) && statuses == old(statuses)
      ensures created.Some? ==>
                && created.value == Lobby(name, CreatedMaxPlayers, 0, DefaultHost, port)
                && KeyOf(created.value) !in old(lobbies)
                && lobbies == old(lobbies)[KeyOf(created.value) := created.value]
                && statuses == old(statuses)[KeyOf(created.value) := Status(false, spawn(port).pid)]
      ensures LatchesKept(old(statuses), statuses)
    {
      port := IdentifyNextPort();
      var outcome := spawn(port);
      if outcome.SpawnFailed? {
        return port, None;
      }
      var newLobby := Lobby(name, CreatedMaxPlayers, 0, DefaultHost, port);
      var newStatus := Status(false, outcome.pid);
      lobbies := lobbies[CreateKey(newLobby.host, newLobby.port) := newLobby];
      statuses := statuses[CreateKey(newLobby.host, newLobby.port) := newStatus];
      created := Some(newLobby);
    }

    /**
     * UpdateLobby: records the reported player count of the lobby at
     * (host, port) and sets its latch when the count is positive. The lobby
     * must exist: the handler dereferences the map entry unchecked.
     */
    method UpdateLobby(host: string, port: int, numPlayers: int)
      requires Valid()
      requires CreateKey(host, port) in lobbies
      modifies this
      ensures Valid()
      ensures lobbies == old(lobbies)[CreateKey(host, port) := old(lobbies)[CreateKey(host, port)].(numPlayers := numPlayers)]
      ensures statuses == old(statuses)[CreateKey(host, port) := Joined(old(statuses)[CreateKey(host, port)], numPlayers)]
      ensures LatchesKept(old(statuses), statuses)
    {
      var key := CreateKey(host, port);
      var originalLobby := lobbies[key];
      FilingKeepsConsistent(lobbies, statuses, originalLobby.(numPlayers := numPlayers), Joined(statuses[key], numPlayers));
      lobbies := lobbies[key := originalLobby.(numPlayers := numPlayers)];
      var originalStatus := statuses[key];
      if numPlayers > 0 {
        statuses := statuses[key := originalStatus.(playersJoined := true)];
      }
    }

    /**
     * ReapLobby: arms the default-host lobby on `port` for the next sweep by
     * marking it empty and used. It deletes nothing. The lobby must exist.
     */
    method ReapLobby(port: int)
      requires Valid()
      requires CreateKey(DefaultHost, port) in lobbies
      modifies this
      ensures Valid()
      ensures lobbies == old(lobbies)[CreateKey(DefaultHost, port) := old(lobbies)[CreateKey(DefaultHost, port)].(numPlayers := 0)]
      ensures statuses == old(statuses)[CreateKey(DefaultHost, port) := old(statuses)[CreateKey(DefaultHost, port)].(playersJoined := true)]
      ensures Reapable(lobbies[CreateKey(DefaultHost, port)], statuses[CreateKey(DefaultHost, port)])
      ensures LatchesKept(old(statuses), statuses)
    {
      var key := CreateKey(DefaultHost, port);
      FiledUnderOwnEndpoint(lobbies, statuses, DefaultHost, port);
      FilingKeepsConsistent(lobbies, statuses, lobbies[key].(numPlayers := 0), statuses[key].(playersJoined := true));
      lobbies := lobbies[key := lobbies[key].(numPlayers := 0)];
      statuses := statuses[key := statuses[key].(playersJoined := true)];
    }

    /**
     * One pass of the reaper: visits every entry in an arbitrary order and,
     * for each reapable one, kills its process; when the kill succeeds the
     * entry is deleted from both maps, otherwise it is kept for a later pass.
     */
    method ReaperSweep(killable: set<int>)
      requires Valid()
      modifies this
      ensures Valid()
      ensures lobbies == old(lobbies) - ReapedKeys(old(lobbies), old(statuses), killable)
      ensures statuses == old(statuses) - ReapedKeys(old(lobbies), old(statuses), killable)
      ensures LatchesKept(old(statuses), statuses)
    {
      ghost var doomed := ReapedKeys(lobbies, statuses, killable);
      var pending := lobbies.Keys;
      while pending != {}
        invariant pending <= old(lobbies).Keys
        invariant lobbies == old(lobbies) - (doomed - pending)
        invariant statuses == old(statuses) - (doomed - pending)
        decreases pending
      {
        var key :| key in pending;
        RemoveStep(old(lobbies), doomed, pending, key);
        RemoveStep(old(statuses), doomed, pending, key);
        var lobby := lobbies[key];
        var status := statuses[key];
        if lobby.host == DefaultHost && lobby.numPlayers == 0 && status.playersJoined {
          if status.pid in killable {
            lobbies := lobbies - {key};
            statuses := statuses - {key};
          }
        }
        pending := pending - {key};
      }
      SweepKeepsConsistent(old(lobbies), old(statuses), killable);
    }

    /** The keys of `lobbies`, each once, in the arbitrary order a map range visits them. */
    method CollectKeys() returns (names: seq<string>)
      ensures Distinct(names)
      ensures forall k :: k in names <==> k in lobbies
      ensures |names| == |lobbies|
    {
      names := [];
      var pending := lobbies.Keys;
      while pending != {}
        invariant pending <= lobbies.Keys
        invariant forall k :: k in names <==> k in lobbies && k !in pending
        invariant Distinct(names)
        invariant |names| + |pending| == |lobbies|
        decreases pending
      {
        var name :| name in pending;
        names := names + [name];
        pending := pending - {name};
      }
    }

    /** The lobbies filed under `keys`, in the order of `keys`. */
    method LookUpAll(keys: seq<string>) returns (list: seq<Lobby>)
      requires forall j :: 0 <= j < |keys| ==> keys[j] in lobbies
      ensures |list| == |keys|
      ensures forall j :: 0 <= j < |keys| ==> list[j] == lobbies[keys[j]]
    {
      list := [];
      var i := 0;
      while i < |keys|
        invariant 0 <= i <= |keys|
        invariant |list| == i
        invariant forall j :: 0 <= j < i ==> list[j] == lobbies[keys[j]]
      {
        list := list + [lobbies[keys[i]]];
        i := i + 1;
      }
    }

    /**
     * GetLobbies: a snapshot of every lobby, one per key, in ascending key
     * order.
     */
    method GetLobbies() returns (list: seq<Lobby>)
      requires Valid()
      ensures |list| == |lobbies|
      ensures forall i :: 0 <= i < |list| ==> KeyOf(list[i]) in lobbies && lobbies[KeyOf(list[i])] == list[i]
      ensures forall i, j :: 0 <= i < j < |list| ==> Less(KeyOf(list[i]), KeyOf(list[j]))
      ensures forall k :: k in lobbies ==> lobbies[k] in list
    {
      var names := CollectKeys();
      var sorted := SortStrings(names);
      assert |sorted| == |names| by {
        assert |multiset(sorted)| == |multiset(names)|;
      }
      forall j | 0 <= j < |sorted|
        ensures sorted[j] in lobbies
      {
        assert sorted[j] in multiset(names);
      }

      list := LookUpAll(sorted);
      SnapshotInKeyOrder(lobbies, statuses, names, sorted, list);
    }
  }

  /**
   * The lobbies looked up, in order, for a sorted permutation of the keys of
   * a consistent registry are one per key, in strictly ascending key order.
   */
  lemma SnapshotInKeyOrder(ls: map<string, Lobby>, ss: map<string, Status>,
                           names: seq<string>, sorted: seq<string>, list: seq<Lobby>)
    requires Consistent(ls, ss)
    requires Distinct(names) && forall k :: k in names <==> k in ls
    requires Sorted(sorted) && multiset(sorted) == multiset(names)
    requires |list| == |sorted|
    requires forall j :: 0 <= j < |sorted| ==> sorted[j] in ls && list[j] == ls[sorted[j]]
    ensures forall i :: 0 <= i < |list| ==> KeyOf(list[i]) == sorted[i]
    ensures forall i, j :: 0 <= i < j < |list| ==> Less(KeyOf(list[i]), KeyOf(list[j]))
    ensures forall k :: k in ls ==> ls[k] in list
  {
    SortedDistinctIsStrict(sorted, names);
    forall k | k in ls
      ensures ls[k] in list
    {
      assert k in multiset(sorted);
      var j :| 0 <= j < |sorted| && sorted[j] == k;
      assert list[j] == ls[k];
    }
  }

  /**
   * From a freshly started registry, two successful creates get ports 9000
   * and 9001 on the managed host.
   */
  method SuccessiveCreates(name1: string, name2: string, spawn: int -> SpawnOutcome)
    returns (first: Option<Lobby>, second: Option<Lobby>)
    requires spawn(StartPort).Spawned? && spawn(StartPort + 1).Spawned?
    ensures first.Some? && first.value.host == DefaultHost && first.value.port == 9000
    ensures second.Some? && second.value.host == DefaultHost && second.value.port == 9001
  {
    var r := new Registry();
    r.InitLobbies();
    assert r.lobbies.Keys == {KeyOf(SeedLobby)};
    KeyInjective(DefaultHost, StartPort, SeedLobby.host, SeedLobby.port);
    KeyInjective(DefaultHost, StartPort + 1, SeedLobby.host, SeedLobby.port);

    ghost var before := r.lobbies;
    var port;
    port, first := r.CreateLobby(name1, spawn);
    LowestFreePortFromStart(before, first.value);
    LowestFreePortUnique(before, port, StartPort);

    ghost var after := r.lobbies;
    assert after == before[CreateKey(DefaultHost, StartPort) := first.value];
    port, second := r.CreateLobby(name2, spawn);
    LowestFreePortUnique(after, port, StartPort + 1);
  }

  /**
   * From a freshly started registry, a create whose spawn fails files
   * nothing, so the next successful create still gets port 9000.
   */
  method CreateAfterFailedSpawn(name: string, failing: int -> SpawnOutcome, working: int -> SpawnOutcome)
    returns (failed: Option<Lobby>, created: Option<Lobby>)
    requires failing(StartPort).SpawnFailed? && working(StartPort).Spawned?
    ensures failed == None
    ensures created.Some? && created.value.host == DefaultHost && created.value.port == 9000
  {
    var r := new Registry();
    r.InitLobbies();
    assert r.lobbies.Keys == {KeyOf(SeedLobby)};
    KeyInjective(DefaultHost, StartPort, SeedLobby.host, SeedLobby.port);
    KeyInjective(DefaultHost, StartPort + 1, SeedLobby.host, SeedLobby.port);
    LowestFreePortFromStart(r.lobbies, SeedLobby);

    ghost var before := r.lobbies;
    var port;
    port, failed := r.CreateLobby(name, failing);
    LowestFreePortUnique(before, port, StartPort);

    port, created := r.CreateLobby(name, working);
    LowestFreePortUnique(before, port, StartPort);
  }
}
