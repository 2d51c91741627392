/** The room registry as a value: a map from lower-cased room name to game.
    These functions say what `getGameByRoom`, `createGameIfNotExists` and
    the destroy branch of `ListenForEvents` do to the map; the class in
    ServerState performs them in place. */
module Registry {
  import opened Wrappers
  import opened Text
  import opened Games

  type Table = map<string, Game>

  /** `roomKey`: the key a room is stored under. */
  function RoomKey(room: string): (key: string)
    ensures IsLowerCase(key)
    ensures EqualFold(key, room)
  {
    ToLowerNormalizes(room);
    ToLower(room)
  }

  /** Every key is in lower case: all insertions go through RoomKey. */
  ghost predicate Normalized(t: Table) {
    forall k :: k in t ==> IsLowerCase(k)
  }

  /** Every game sits under the key of its own room name. */
  ghost predicate Indexed(t: Table) {
    forall k :: k in t ==> RoomKey(t[k].room) == k
  }

  /** `getGameByRoom`: the game stored under the room's key, or nil. */
  function Lookup(t: Table, room: string): Option<Game> {
    if RoomKey(room) in t then Some(t[RoomKey(room)]) else None
  }

  /** `createGameIfNotExists` on the map: the error it returns and the map
      it leaves, given what `game.New` answers for this room. */
  function Create(t: Table, room: string, made: Result<Game, GameError>): (r: (Option<GameError>, Table))
    ensures forall k :: k in t ==> k in r.1 && r.1[k] == t[k]
    ensures forall k :: k in r.1 && k != RoomKey(room) ==> k in t
    ensures r.0.Some? <==> Lookup(t, room).None? && made.Failure?
    ensures r.0.Some? ==> r.0.value == made.error && r.1 == t
    ensures Lookup(r.1, room) ==
      if Lookup(t, room).None? && made.Success? then Some(made.value) else Lookup(t, room)
  {
    if RoomKey(room) in t then (None, t)
    else match made
      case Failure(e) => (Some(e), t)
      case Success(g) => (None, t[RoomKey(room) := g])
  }

  /** The destroy branch of `ListenForEvents`: delete the key of the game's
      room if present. Only the key is compared, never the stored game. */
  function Remove(t: Table, g: Game): (r: Table)
    ensures Lookup(r, g.room).None?
    ensures forall k :: k in r <==> k in t && k != RoomKey(g.room)
    ensures forall k :: k in r ==> r[k] == t[k]
  {
    var key := RoomKey(g.room);
    if key in t then t - {key} else t
  }

  /** Lookup does not see letter case. */
  lemma LookupCaseInsensitive(t: Table, a: string, b: string)
    requires EqualFold(a, b)
    ensures Lookup(t, a) == Lookup(t, b)
  {
    ToLowerEqualIffEqualFold(a, b);
  }

  /** On a normalized map, lookup finds a game exactly when some key equals
      the room up to letter case, and then it is that key's game. */
  lemma LookupFindsFoldedKey(t: Table, room: string)
    requires Normalized(t)
    ensures Lookup(t, room).Some? <==> exists k :: k in t && EqualFold(k, room)
    ensures forall k :: k in t && EqualFold(k, room) ==> Lookup(t, room) == Some(t[k])
  {
    forall k | k in t && EqualFold(k, room) ensures RoomKey(room) == k {
      ToLowerEqualIffEqualFold(k, room);
      ToLowerNormalizes(k);
    }
    if Lookup(t, room).Some? {
      assert RoomKey(room) in t && EqualFold(RoomKey(room), room);
    }
  }

  /** Creating a room twice, under any spelling of its name, creates it once:
      once a create succeeds, a second one returns no error and changes nothing. */
  lemma CreateIdempotent(t: Table, room: string, again: string, made: Result<Game, GameError>, madeAgain: Result<Game, GameError>)
    requires EqualFold(room, again)
    ensures var (err, t1) := Create(t, room, made);
      err.None? ==> Create(t1, again, madeAgain) == (None, t1)
  {
    var (err, t1) := Create(t, room, made);
    LookupCaseInsensitive(t1, room, again);
  }

  /** Create keeps every key in lower case, and keeps each game under its own
      room's key when `game.New` keeps the requested room name. */
  lemma CreatePreservesInvariants(t: Table, room: string, made: Result<Game, GameError>)
    ensures Normalized(t) ==> Normalized(Create(t, room, made).1)
    ensures Indexed(t) && (made.Success? ==> EqualFold(made.value.room, room)) ==> Indexed(Create(t, room, made).1)
  {
  }

  /** A destroyed game is no longer reachable under any room name, and a
      later create of the same room inserts the new game. */
  lemma DestroyedGameUnreachable(t: Table, g: Game, room: string, made: Game)
    requires Indexed(t)
    ensures Lookup(Remove(t, g), room) != Some(g)
    ensures Create(Remove(t, g), g.room, Success(made)) == (None, Remove(t, g)[RoomKey(g.room) := made])
  {
  }

  /** Remove keeps every key in lower case and every game under its own key. */
  lemma RemovePreservesInvariants(t: Table, g: Game)
    ensures Normalized(t) ==> Normalized(Remove(t, g))
    ensures Indexed(t) ==> Indexed(Remove(t, g))
  {
  }
}
