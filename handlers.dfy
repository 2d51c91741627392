/** The decisions the HTTP handlers take once their inputs are parsed:
    which response `createRoomHandler` sends, which message the index page
    shows, which room the room page is for, and whether `/ws` accepts a
    connection. Rendering, redirect writing and the upgrade are not modelled. */
module Handlers {
  import opened Wrappers
  import opened Text
  import opened Games
  import opened Registry
  import Protocol

  const MethodPost := "POST"
  const StatusSeeOther := 303
  const StatusMethodNotAllowed := 405
  const RoomPathPrefix := "/r/"

  /** A response that is not a rendered page. */
  datatype Response = Refused(status: int, allow: string) | Redirect(status: int, location: string)

  /** The response `createRoomHandler` gives before touching the registry:
      a method other than POST (in any case) is refused, an invalid room
      name goes back to the index. None means: go on and create the room. */
  function CreateRoomGate(httpMethod: string, roomNameIsValid: bool): (resp: Option<Response>)
    ensures resp == Some(Refused(StatusMethodNotAllowed, MethodPost)) <==> !EqualFold(httpMethod, "post")
    ensures resp == Some(Redirect(StatusSeeOther, "/?invalid")) <==> EqualFold(httpMethod, "post") && !roomNameIsValid
    ensures resp.None? <==> EqualFold(httpMethod, "post") && roomNameIsValid
  {
    ToUpperIsPost(httpMethod);
    if ToUpper(httpMethod) != MethodPost then Some(Refused(StatusMethodNotAllowed, MethodPost))
    else if !roomNameIsValid then Some(Redirect(StatusSeeOther, "/?invalid"))
    else None
  }

  /** The redirect `createRoomHandler` sends once `createGameIfNotExists`
      has answered: the room page on success, the index otherwise. */
  function CreateRoomRedirect(room: string, err: Option<GameError>): (resp: Response)
    ensures resp.Redirect? && resp.status == StatusSeeOther
    ensures err.None? <==> resp.location == RoomPathPrefix + room
    ensures err == Some(ErrInvalidRoomName) <==> resp.location == "/?invalid"
    ensures err.Some? && err.value.OtherError? <==> resp.location == "/?error"
  {
    // The room page and the two index locations differ in their second character.
    assert (RoomPathPrefix + room)[1] == 'r' && "/?invalid"[1] == '?' && "/?error"[1] == '?';
    match err
    case None => Redirect(StatusSeeOther, RoomPathPrefix + room)
    case Some(ErrInvalidRoomName) => Redirect(StatusSeeOther, "/?invalid")
    case Some(OtherError(_)) => Redirect(StatusSeeOther, "/?error")
  }

  /** The room a `/r/<room>` path names: the path without its first three
      characters. The mux sends only paths under "/r/" to `roomHandler`
      (server/server.go:125), so the path is never shorter than the prefix;
      a shorter one would make the slice panic. */
  function RoomFromPath(path: string): (room: string)
    requires |path| >= |RoomPathPrefix|
    ensures path[..|RoomPathPrefix|] + room == path
  {
    path[|RoomPathPrefix|..]
  }

  /** What `roomHandler` serves. */
  datatype RoomPage = NotFoundRedirect(room: string) | RenderRoom(room: string, token: string)

  /** `roomHandler`: the page of the game registered for the path's room,
      or a redirect to the index naming the missing room. The page shows
      the room name the game was created with, not the spelling requested. */
  function RoomHandler(t: Table, path: string): (page: RoomPage)
    requires |path| >= |RoomPathPrefix|
    ensures page.NotFoundRedirect? <==> Lookup(t, RoomFromPath(path)).None?
    ensures page.NotFoundRedirect? ==> page.room == RoomFromPath(path)
    ensures page.RenderRoom? ==> var g := Lookup(t, RoomFromPath(path)).value; page == RenderRoom(g.room, g.token)
  {
    match Lookup(t, RoomFromPath(path))
    case None => NotFoundRedirect(RoomFromPath(path))
    case Some(g) => RenderRoom(g.room, g.token)
  }

  /** After a successful create, the redirect leads to the page of the game
      now registered for that room: the one just created, or the one that
      was already there. */
  lemma CreatedRoomIsServed(t: Table, room: string, made: Result<Game, GameError>)
    requires Create(t, room, made).0.None?
    ensures var resp := CreateRoomRedirect(room, None);
      var g := Lookup(Create(t, room, made).1, room);
      g.Some? && RoomHandler(Create(t, room, made).1, resp.location) == RenderRoom(g.value.room, g.value.token)
  {
  }

  /** A parsed query string: each key with its values. */
  type Form = map<string, seq<string>>

  /** `FormValue`: the first value of the key, or "". */
  function FormValue(form: Form, key: string): (v: string)
    ensures key in form && |form[key]| > 0 ==> v == form[key][0]
    ensures v != "" ==> key in form && |form[key]| > 0
  {
    if key in form && |form[key]| > 0 then form[key][0] else ""
  }

  /** The message above the room-creation form. */
  datatype IndexMessage = NoMessage | InvalidRoomName | RoomNotFound(room: string) | RequestFailed

  datatype IndexPage = PageNotFound | IndexForm(message: IndexMessage)

  /** `indexHandler`: 404 for any path but "/"; otherwise the highest-ranked
      message the query asks for (`invalid` before `notfound` before `error`),
      and no message exactly when it asks for none. */
  function IndexHandler(path: string, form: Form): (page: IndexPage)
    ensures page.PageNotFound? <==> path != "/"
    ensures page.IndexForm? ==> (page.message == NoMessage <==> Requested(form) == {})
    ensures page.IndexForm? && page.message != NoMessage ==>
      page.message in Requested(form) && forall m :: m in Requested(form) ==> Rank(m) <= Rank(page.message)
  {
    if path != "/" then PageNotFound
    else if "invalid" in form then IndexForm(InvalidRoomName)
    else if FormValue(form, "notfound") != "" then IndexForm(RoomNotFound(FormValue(form, "notfound")))
    else if "error" in form then IndexForm(RequestFailed)
    else IndexForm(NoMessage)
  }

  /** Every message the query asks for, regardless of precedence. */
  function Requested(form: Form): set<IndexMessage> {
    (if "invalid" in form then {InvalidRoomName} else {})
    + (if FormValue(form, "notfound") != "" then {RoomNotFound(FormValue(form, "notfound"))} else {})
    + (if "error" in form then {RequestFailed} else {})
  }

  function Rank(m: IndexMessage): nat {
    match m
    case NoMessage => 0
    case RequestFailed => 1
    case RoomNotFound(_) => 2
    case InvalidRoomName => 3
  }

  /** A room-page miss leads to an index page naming the missing room,
      provided the path named a room at all. */
  lemma NotFoundRoomIsNamed(t: Table, path: string)
    requires |path| >= |RoomPathPrefix|
    requires RoomHandler(t, path).NotFoundRedirect? && RoomFromPath(path) != ""
    ensures IndexHandler("/", map["notfound" := [RoomHandler(t, path).room]]) == IndexForm(RoomNotFound(RoomFromPath(path)))
  {
  }

  /** `wsHandler`'s checks before the upgrade: the room must be registered
      and the token must be that game's. The answer is the game to bind to. */
  function WsAdmit(t: Table, room: string, token: string): (g: Option<Game>)
    ensures g.Some? <==> Lookup(t, room).Some? && Lookup(t, room).value.token == token
    ensures g.Some? ==> g == Lookup(t, room)
  {
    match Lookup(t, room)
    case None => None
    case Some(game) => if token == game.token then Some(game) else None
  }

  /** A client admitted with a token passes the dispatcher's gate exactly
      with requests naming its game's room and that token. */
  lemma AdmittedClientPassesGate(t: Table, room: string, token: string, r: Protocol.WsRequest)
    requires WsAdmit(t, room, token).Some?
    ensures Protocol.Current(WsAdmit(t, room, token).value, r) <==>
      r.room == WsAdmit(t, room, token).value.room && r.token == token
  {
  }
}
