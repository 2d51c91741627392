/** The websocket dispatcher `HandleWsRequest`: a validation gate on the
    request's room and token, then a closed switch from action tag to one
    game operation. The operations themselves belong to the game. */
module Protocol {
  import opened Wrappers
  import opened Games

  const ActionSelectCard := "select"
  const ActionReveal := "reveal"
  const ActionReset := "reset"
  const ActionDeck := "deck"
  const ActionTopic := "topic"
  const ActionUsername := "username"

  /** The six tags the switch recognizes. */
  const Actions: set<string> :=
    {ActionSelectCard, ActionReveal, ActionReset, ActionDeck, ActionTopic, ActionUsername}

  /** A decoded websocket message. */
  datatype WsRequest = WsRequest(action: string, card: int, deck: string, room: string, token: string, value: string)

  /** The one call the dispatcher makes on the client's game. `Rename` sets
      the client's name and then asks the game to send an update. `SetDeck`
      carries the catalog key of the deck that replaces the current one. */
  datatype Op =
    | AddCard(card: int, deck: string)
    | Reveal
    | Reset
    | SetDeck(deck: string)
    | SetTopic(topic: string)
    | Rename(name: string)

  /** The tag that selects an operation. */
  function ActionOf(op: Op): (a: string)
    ensures a in Actions
  {
    match op
    case AddCard(_, _) => ActionSelectCard
    case Reveal => ActionReveal
    case Reset => ActionReset
    case SetDeck(_) => ActionDeck
    case SetTopic(_) => ActionTopic
    case Rename(_) => ActionUsername
  }

  /** The operation's arguments are the request's fields. */
  predicate Carries(op: Op, r: WsRequest) {
    match op
    case AddCard(card, deck) => card == r.card && deck == r.deck
    case Reveal => true
    case Reset => true
    case SetDeck(deck) => deck == r.deck
    case SetTopic(topic) => topic == r.value
    case Rename(name) => name == r.value
  }

  /** The gate: the request names the room and token of the client's game. */
  predicate Current(bound: Game, r: WsRequest) {
    r.room == bound.room && r.token == bound.token
  }

  /** `HandleWsRequest`: the operation a request from a client bound to
      `bound` performs, if any; `decks` is the key set of the deck catalog.
      A stale request, an unknown tag or an unknown deck performs nothing. */
  function HandleWsRequest(bound: Game, r: WsRequest, decks: set<string>): (op: Option<Op>)
    ensures !Current(bound, r) ==> op.None?
    ensures op.Some? ==> ActionOf(op.value) == r.action && Carries(op.value, r)
    ensures op.Some? <==> Current(bound, r) && r.action in Actions && (r.action == ActionDeck ==> r.deck in decks)
  {
    if !Current(bound, r) then None
    else if r.action == ActionSelectCard then Some(AddCard(r.card, r.deck))
    else if r.action == ActionReveal then Some(Reveal)
    else if r.action == ActionReset then Some(Reset)
    else if r.action == ActionDeck then (if r.deck in decks then Some(SetDeck(r.deck)) else None)
    else if r.action == ActionTopic then Some(SetTopic(r.value))
    else if r.action == ActionUsername then Some(Rename(r.value))
    else None
  }

  /** The request a client of `bound` sends to perform `op`. */
  function RequestFor(op: Op, bound: Game): (r: WsRequest)
    ensures Current(bound, r) && ActionOf(op) == r.action && Carries(op, r)
  {
    match op
    case AddCard(card, deck) => WsRequest(ActionSelectCard, card, deck, bound.room, bound.token, "")
    case Reveal => WsRequest(ActionReveal, 0, "", bound.room, bound.token, "")
    case Reset => WsRequest(ActionReset, 0, "", bound.room, bound.token, "")
    case SetDeck(deck) => WsRequest(ActionDeck, 0, deck, bound.room, bound.token, "")
    case SetTopic(topic) => WsRequest(ActionTopic, 0, "", bound.room, bound.token, topic)
    case Rename(name) => WsRequest(ActionUsername, 0, "", bound.room, bound.token, name)
  }

  /** Every operation is reached by its own request, and by nothing else:
      the tag and the payload fields decide the operation. */
  lemma DispatchRoundTrip(op: Op, bound: Game, r: WsRequest, decks: set<string>)
    requires op.SetDeck? ==> op.deck in decks
    ensures HandleWsRequest(bound, RequestFor(op, bound), decks) == Some(op)
    ensures HandleWsRequest(bound, r, decks) == Some(op) <==>
      Current(bound, r) && r.action == ActionOf(op) && Carries(op, r) && (op.SetDeck? ==> op.deck in decks)
  {
  }
}
