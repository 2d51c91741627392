/** What the server sees of the game package: a game handle's identity and
    the errors its constructor reports. The game's own state machine
    (cards, reveal, reset, deck, topic, clients) is not part of this model. */
module Games {

  /** A `*game.Game` as the server uses it: the room name it was created
      with and its random capability token. */
  datatype Game = Game(room: string, token: string)

  /** The errors `game.New` can return. */
  datatype GameError = ErrInvalidRoomName | OtherError(reason: string)
}
