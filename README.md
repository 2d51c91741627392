# Sibyl server core in Dafny

Sibyl is a planning-poker server. Participants join a named room, pick
estimation cards privately and reveal them together. This project models the
sequential core of its `server` package (`server/server.go`):

- **Room registry.** A map from the lower-cased room name to a game handle.
  It supports case-insensitive lookup (`getGameByRoom`, `roomKey`), idempotent
  creation through the game constructor (`createGameIfNotExists`), and
  deletion by key when a game reports that it has no clients left.
- **Websocket dispatcher** (`HandleWsRequest`). A request passes a gate only
  when its room and token are the bound game's. A closed switch then maps six
  action tags to one game operation. An unknown tag does nothing, and so does
  an unknown deck id.
- **Event loop** (`ListenForEvents`). It consumes destroy notifications and the
  SIGTERM/SIGINT/SIGUSR1 signals. SIGUSR1 produces a sorted, numbered listing
  of the rooms and leaves the registry alone. A termination signal sends
  `true` on `done` once and ends the loop.
- **HTTP decisions.** What `createRoomHandler` answers, which message
  `indexHandler` shows, which room `roomHandler` serves, and whether `wsHandler`
  accepts a connection.

Layout, one module per file:

- `wrappers.dfy`: Option and Result.
- `text.dfy`: ASCII `ToLower`/`ToUpper`.
- `listing.dfy`: the string order used by `sort.Strings`, and an insertion sort.
- `games.dfy`: the game handle as a record (room, token), and the
  constructor's errors.
- `registry.dfy`: the registry as a value, with lookup, create and remove.
- `protocol.dfy`: the dispatcher.
- `events.dfy`: events, the status report and replay of an event sequence.
- `handlers.dfy`: the HTTP decisions.
- `server.dfy`: class `Server`, whose `games` map field is updated in place
  by the create handler and by the event loop.

Two behaviours of the code are worth stating outright:

- The destroy branch deletes by key only. It does not check that the stored
  game is the one being destroyed, and `Registry.Remove` does the same.
- `createGameIfNotExists` returns only an error, never the existing game.

External code becomes parameters:

- `game.New(room, deck, ...)` becomes `newGame: (string, string) -> Result<Game, GameError>`.
  Its random token is inside its answer.
- `game.RoomNameIsValid` becomes `roomNameIsValid: string -> bool`.
- `RegisteredClientsCount` becomes `clientsOf: Game -> nat` for a single
  status dump. Over a run of the event loop it becomes
  `clientsAt: nat -> (Game -> nat)`: clients join and leave between events,
  so `clientsAt(i)` gives the counts as they stand when the event at position
  `i` is handled.
- The deck catalog `deck.AllDecks` becomes the set of its keys.

## Model

| member | source | states |
|---|---|---|
| Text.ToLower | server/server.go:285-287 | the key has the room's length and each character is its lower-case form |
| Text.ToLowerNormalizes | server/server.go:285-287 | a room key is in lower case, so lower-casing it again changes nothing |
| Text.ToLowerEqualIffEqualFold | server/server.go:285-287 | two rooms have the same key exactly when they are equal up to letter case |
| Text.ToUpper | server/server.go:138 | the result has the method's length and each character is its upper-case form |
| Text.ToUpperIsPost | server/server.go:138 | the method check accepts exactly the spellings of "post" in any letter case |
| Registry.RoomKey | server/server.go:285-287 | a room's key is in lower case and equals the room up to letter case |
| Registry.Lookup | server/server.go:256-265 | the game stored under the room's lower-cased key, or nil; `LookupCaseInsensitive` and `LookupFindsFoldedKey` state what this means for callers |
| Registry.LookupCaseInsensitive | server/server.go:256-265 | two room names equal up to letter case find the same entry, or both find nil |
| Registry.LookupFindsFoldedKey | server/server.go:256-265 | on a map of lower-case keys, lookup finds a game exactly when some key equals the room up to case, and then it is that key's game |
| Registry.Create | server/server.go:267-283 | no existing entry is overwritten and only the room's key can be added; an error is returned exactly when the room is absent and the constructor fails, and then the map is unchanged; afterwards lookup of the room yields the existing game, or else the new one |
| Registry.CreateIdempotent | server/server.go:267-271 | after a create that returns no error, a second create under any spelling of the room returns no error and leaves the map unchanged |
| Registry.CreatePreservesInvariants | server/server.go:272-282 | create keeps every key in lower case, and keeps each game under its own room's key when the constructor keeps the requested name |
| Registry.Remove | server/server.go:334-341 | after a destroy the room is not found; exactly the game's room key is gone and every other entry is unchanged |
| Registry.DestroyedGameUnreachable | server/server.go:334-341 | on a registry where each game sits under its own room's key: once destroyed, a game is reachable under no room name, and a later create of its room inserts the new game |
| Registry.RemovePreservesInvariants | server/server.go:334-341 | destroy keeps every key in lower case and every game under its own key |
| Listing.LessTransitive | server/server.go:355 | the order used for the listing is transitive |
| Listing.LessTotal | server/server.go:355 | of two distinct room keys, exactly one comes first |
| Listing.SortStrings | server/server.go:355 | the sorted keys are a permutation of the keys given (same multiset); `SortStringsSorted` and `SortStringsKeeps` state the order and the elements |
| Listing.SortStringsSorted | server/server.go:355 | sorting distinct keys puts them in strictly ascending order |
| Listing.SortStringsKeeps | server/server.go:355 | sorting keeps exactly the keys it was given, with the same count |
| Listing.SortedUnique | server/server.go:351-358 | two strictly ascending key lists with the same keys are equal |
| Protocol.ActionOf | server/server.go:33-38 | every operation is selected by one of the six tags |
| Protocol.HandleWsRequest | server/server.go:300-324 | a request with a stale room or token selects nothing; a selected operation matches the request's tag and carries its card, deck or value; an operation is selected exactly when the gate passes, the tag is one of the six, and for "deck" the id is in the catalog |
| Protocol.RequestFor | server/server.go:42-49 | the request built for an operation passes the gate, carries the operation's tag and carries its arguments |
| Protocol.DispatchRoundTrip | server/server.go:305-324 | each operation is selected by its own request, and a request selects a given operation exactly when it passes the gate and has that operation's tag and arguments |
| Events.After | server/server.go:334-341 | an event other than a destroy leaves the registry unchanged; a destroy applies `Registry.Remove` |
| Events.Replay | server/server.go:332-341 | a run of events never adds a room; `ReplayOnlyRemoves` states what it removes and keeps |
| Events.Handled | server/server.go:360-364 | the loop takes every event, or stops right after the first SIGTERM or SIGINT, which is then the last event it handles and has no termination signal before it |
| Events.StatusPositions | server/server.go:342-359 | the positions of exactly the SIGUSR1 events, strictly ascending: where each status dump is taken |
| Events.ReplayStep | server/server.go:332-365 | one more event applies that event's effect to the registry, and a SIGUSR1 records the registry as it stood |
| Events.DescribesUnique | server/server.go:351-358 | the status listing is fully determined by the registry, whatever order the map yields its keys in |
| Events.FirstTermination | server/server.go:360-364 | gives the position of the first SIGTERM or SIGINT, or the length when there is none; every earlier event is a destroy or a SIGUSR1 |
| Events.ReplayOnlyRemoves | server/server.go:332-341 | a run of events only removes entries, never changes one, removes only the rooms of destroyed games, and keeps the key invariants |
| Handlers.CreateRoomGate | server/server.go:138-148 | a method other than POST in any case gets 405 with `Allow: POST`; a POST with an invalid name is redirected to `/?invalid`; otherwise creation goes ahead |
| Handlers.CreateRoomRedirect | server/server.go:151-164 | a 303 redirect: to `/r/<room>` exactly on success, to `/?invalid` exactly on `ErrInvalidRoomName`, to `/?error` exactly on any other error |
| Handlers.RoomFromPath | server/server.go:224-225 | the room is what follows the three-character `/r/` prefix |
| Handlers.RoomHandler | server/server.go:223-234 | the room page is a redirect naming the requested room exactly when lookup misses; otherwise it shows the registered game's room name and token |
| Handlers.CreatedRoomIsServed | server/server.go:162-163 | the redirect after a successful create leads to the page of the game now registered for that room |
| Handlers.FormValue | server/server.go:181 | a key given with values yields its first value; any other key yields "" |
| Handlers.IndexHandler | server/server.go:168-188 | a path other than "/" gets a 404, and only such a path; otherwise no message exactly when the query requests none, and else the highest-ranked requested message (invalid > not found > error) |
| Handlers.NotFoundRoomIsNamed | server/server.go:229-231 | a room-page miss on a non-empty room leads to an index page naming that room |
| Handlers.WsAdmit | server/server.go:191-204 | a connection is accepted exactly when the room is registered and the token is that game's, and it is bound to that game |
| Handlers.AdmittedClientPassesGate | server/server.go:300-303 | a client admitted with a token passes the dispatcher's gate exactly with requests naming its game's room and that token |
| ServerState.Server.constructor | server/server.go:99-106 | the registry starts empty |
| ServerState.Server.GetGameByRoom | server/server.go:256-265 | returns the registered game for the room's key, or nil; with keys kept lower case, a game is returned exactly when some key equals the room up to case |
| ServerState.Server.CreateGameIfNotExists | server/server.go:267-283 | the returned error and the new map are those of `Registry.Create` for the constructor's answer; keys stay lower-case |
| ServerState.Server.CreateRoomHandler | server/server.go:137-164 | a refused or invalid request leaves the registry unchanged; otherwise the registry and the redirect follow the create's outcome |
| ServerState.Server.CollectKeys | server/server.go:351-354 | collects every key of the registry exactly once |
| ServerState.Server.NumberRooms | server/server.go:356-358 | line j is room #j+1, carrying the j-th key and that room's client count |
| ServerState.Server.StatusReport | server/server.go:342-359 | "no active rooms" for an empty registry; otherwise every key once, in ascending order, numbered 1..n, with its client count; the registry is only read |
| ServerState.Server.HandleEvent | server/server.go:333-365 | a destroy removes the room's key; SIGUSR1 reports the registry without changing it; SIGTERM and SIGINT, and only they, stop the loop |
| ServerState.Server.ListenForEvents | server/server.go:328-367 | `true` is sent on `done` once, exactly when a termination signal arrives; no event after it is handled; the registry ends as the replay of the handled events; the j-th report describes the registry as it stood at the j-th SIGUSR1 handled, with the client counts in force at that SIGUSR1's position |

## Left out

- HTTP serving, template loading and execution, static files, the favicon and
  configuration (server/server.go:92-134, 369-382). These are I/O and library
  wrappers. Rendering is reduced to the values a page would show.
- The websocket upgrade and the `ReadPump`/`WritePump` goroutines
  (server/server.go:206-219). They are transport code. `Client`, its
  connection and its `SetName` (server/server.go:320) are not part of this
  model.
- The read-write mutex and the `destroyGame` and signal channels. Every
  operation is one sequential step. The event loop reads a finite sequence
  that stands for the order in which `select` takes the events. The race
  between the lookup and the insert in `createGameIfNotExists` is a
  concurrency property and cannot be stated in this model.
- The internals of the game package. These are `New`, token generation,
  `RoomNameIsValid`, the operations `AddCard`, `Reveal`, `Reset`, `SetDeck`,
  `SetTopic` and `SendUpdate`, and `RegisteredClientsCount`. The
  package is not part of this model. The dispatcher returns the operation as
  a value and does not run it.
- `deck.AllDecks` contents. Only the catalog's key set is used. The deck list
  and JSON that `roomHandler` hands to its template (server/server.go:236-252)
  are left out with the templates.
- Logging and the debug JSON dump (server/server.go:291-298). The status
  listing is returned as a report value instead of being logged.
- Unicode case mapping. `strings.ToLower`/`ToUpper` map only ASCII letters
  here.
- `url.QueryEscape` on the not-found redirect. The model carries the room
  name itself.
- The message texts of the index page. The model shows which message is
  chosen, not its wording.
- `sort.Strings` sorts in place. It is modelled as a function on a sequence.
- Client registration and removal (server/server.go:212-216). The live counts
  are not derived from these calls; `clientsAt` gives them, position by
  position, as a parameter.
