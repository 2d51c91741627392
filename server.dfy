/** The server's mutable state: the room registry, updated in place by the
    create handler and by the event loop. Locks and channels are gone; each
    method runs to completion as one step. */
module ServerState {
  import opened Wrappers
  import opened Text
  import opened Games
  import opened Listing
  import opened Registry
  import opened Events
  import opened Handlers

  class Server {
    /** `safeGames.games`: lower-cased room name to game. */
    var games: Table

    ghost predicate Valid()
      reads this
    {
      Normalized(games)
    }

    /** `New`: an empty registry. */
    constructor ()
      ensures Valid() && games == map[]
    {
      games := map[];
    }

    /** `getGameByRoom`: the game registered under the room, in any letter case. */
    method GetGameByRoom(room: string) returns (g: Option<Game>)
      ensures g == Lookup(games, room)
      ensures Valid() ==> (g.Some? <==> exists k :: k in games && EqualFold(k, room))
    {
      var key := RoomKey(room);
      if key in games {
        g := Some(games[key]);
      } else {
        g := None;
      }
      if Valid() {
        LookupFindsFoldedKey(games, room);
      }
    }

    /** `createGameIfNotExists`: if no game has the room's key, ask
        `game.New` (here `newGame`) for one and register it under that key. */
    method CreateGameIfNotExists(room: string, defaultDeck: string, newGame: (string, string) -> Result<Game, GameError>)
      returns (err: Option<GameError>)
      requires Valid()
      modifies this
      ensures Valid()
      ensures (err, games) == Create(old(games), room, newGame(room, defaultDeck))
    {
      var existing := GetGameByRoom(room);
      if existing.Some? {
        return None;
      }
      var made := newGame(room, defaultDeck);
      if made.Failure? {
        return Some(made.error);
      }
      games := games[RoomKey(room) := made.value];
      err := None;
    }

    /** `createRoomHandler`: refuse anything but POST, send an invalid name
        back to the index, otherwise create the room if needed and redirect. */
    method CreateRoomHandler(httpMethod: string, room: string, defaultDeck: string,
                             roomNameIsValid: string -> bool, newGame: (string, string) -> Result<Game, GameError>)
      returns (resp: Response)
      requires Valid()
      modifies this
      ensures Valid()
      ensures CreateRoomGate(httpMethod, roomNameIsValid(room)).Some? ==>
        resp == CreateRoomGate(httpMethod, roomNameIsValid(room)).value && games == old(games)
      ensures CreateRoomGate(httpMethod, roomNameIsValid(room)).None? ==>
        var (err, after) := Create(old(games), room, newGame(room, defaultDeck));
        resp == CreateRoomRedirect(room, err) && games == after
    {
      var refused := CreateRoomGate(httpMethod, roomNameIsValid(room));
      if refused.Some? {
        return refused.value;
      }
      var err := CreateGameIfNotExists(room, defaultDeck, newGame);
      resp := CreateRoomRedirect(room, err);
    }

    /** The key-collecting loop of the SIGUSR1 branch: every key once, in
        the order the map hands them out. */
    method CollectKeys() returns (keys: seq<string>)
      ensures Distinct(keys)
      ensures forall k :: k in keys <==> k in games
      ensures |keys| == |games|
    {
      keys := [];
      var rest := games.Keys;
      while rest != {}
        invariant rest <= games.Keys
        invariant Distinct(keys)
        invariant forall k :: k in keys <==> k in games && k !in rest
        invariant |keys| + |rest| == |games|
        decreases |rest|
      {
        var k :| k in rest;
        keys := keys + [k];
        rest := rest - {k};
      }
    }

    /** The numbering loop of the SIGUSR1 branch: one "room #n" line per
        key, numbered from 1, with that room's client count. */
    method NumberRooms(keys: seq<string>, clientsOf: Game -> nat) returns (lines: seq<RoomLine>)
      requires forall k :: k in keys ==> k in games
      ensures |lines| == |keys|
      ensures forall j :: 0 <= j < |lines| ==> lines[j] == RoomLine(j + 1, keys[j], clientsOf(games[keys[j]]))
    {
      lines := [];
      for i := 0 to |keys|
        invariant |lines| == i
        invariant forall j :: 0 <= j < i ==> lines[j] == RoomLine(j + 1, keys[j], clientsOf(games[keys[j]]))
      {
        lines := lines + [RoomLine(i + 1, keys[i], clientsOf(games[keys[i]]))];
      }
    }

    /** The SIGUSR1 branch of `ListenForEvents`: collect the keys, sort
        them, and number them from 1. The registry is only read. */
    method StatusReport(clientsOf: Game -> nat) returns (report: Report)
      ensures Describes(report, games, clientsOf)
    {
      if |games| == 0 {
        return NoActiveRooms;
      }
      var keys := CollectKeys();
      SortStringsSorted(keys);
      SortStringsKeeps(keys);
      var sorted := SortStrings(keys);
      var lines := NumberRooms(sorted, clientsOf);
      NumberedKeysDescribe(sorted, lines, games, clientsOf);
      report := ActiveRooms(lines);
    }

    /** One pass of the `ListenForEvents` loop. */
    method HandleEvent(e: Event, clientsOf: Game -> nat) returns (step: Step)
      requires Valid()
      modifies this
      ensures Valid()
      ensures games == After(old(games), e)
      ensures step.ShutDown? <==> IsTermination(e)
      ensures e.DestroyGame? ==> step == Continue(None)
      ensures IsStatus(e) ==> step.Continue? && step.report.Some? && Describes(step.report.value, games, clientsOf)
    {
      match e
      case DestroyGame(g) =>
        var key := RoomKey(g.room);
        if key in games {
          games := games - {key};
        }
        step := Continue(None);
      case OsSignal(signal) =>
        if signal == SigUsr1 {
          var report := StatusReport(clientsOf);
          step := Continue(Some(report));
        } else {
          step := ShutDown;
        }
    }

    /** `ListenForEvents` over the events that arrive, in the order they are
        taken: it handles them until the first SIGTERM or SIGINT, on which it
        sends `true` on `done` once and returns. Clients join and leave
        between events, so `clientsAt(i)` gives the counts as they stand when
        the event at position `i` is handled. */
    method ListenForEvents(events: seq<Event>, clientsAt: nat -> (Game -> nat)) returns (done: seq<bool>, reports: seq<Report>)
      requires Valid()
      modifies this
      ensures Valid()
      ensures done == if FirstTermination(events) < |events| then [true] else []
      ensures games == Replay(old(games), events[..Handled(events)])
      ensures DescribesAll(reports, StatusStates(old(games), events[..Handled(events)]),
                           StatusPositions(events[..Handled(events)]), clientsAt)
    {
      done, reports := [], [];
      // `stopped` stands for the `return` after `done <- true`: no event after
      // the termination signal is handled.
      var i, stopped := 0, false;
      while i < |events| && !stopped
        invariant 0 <= i <= |events|
        invariant Valid()
        invariant stopped ==> 0 < i && FirstTermination(events) == i - 1
        invariant !stopped ==> forall j :: 0 <= j < i ==> !IsTermination(events[j])
        invariant done == if stopped then [true] else []
        invariant games == Replay(old(games), events[..i])
        invariant DescribesAll(reports, StatusStates(old(games), events[..i]), StatusPositions(events[..i]), clientsAt)
      {
        ReplayStep(old(games), events, i);
        var step := HandleEvent(events[i], clientsAt(i));
        if step.ShutDown? {
          FirstTerminationAt(events, i);
          done, stopped := [true], true;
        } else if step.report.Some? {
          DescribesAllSnoc(reports, StatusStates(old(games), events[..i]), StatusPositions(events[..i]),
                           step.report.value, games, i, clientsAt);
          reports := reports + [step.report.value];
        }
        i := i + 1;
      }
      assert i == Handled(events);
    }
  }
}
