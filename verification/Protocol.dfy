/** The constants, enumerations and records that server/protocol.h shares with
    every other component. */
module Protocol {
  const MAX_PLAYERS: nat := 5
  const MAX_WORD_LEN: nat := 32
  const MAX_CHAT_LEN: nat := 256
  const MAX_ROOMS: nat := 100
  const ROUND_TIME: nat := 90
  const RECONNECT_TIMEOUT: nat := 300
  const BUFFER_SIZE: nat := 4096

  datatype Option<+T> = None | Some(value: T)

  datatype Phase = Waiting | Playing | Ended

  datatype PlayerState = Lobby | InRoom | InGame | Drawing | Guessing | Disconnected

  /** A connected client. Two players are the same player exactly when they are
      the same object, as the pointer comparisons of the server have it. */
  class Player {
    var playerId: nat
    var token: string
    var score: int
    var state: PlayerState
    var rtt: nat
    var isDrawing: bool
    var hasGuessed: bool
    var hasDrawn: bool

    /** A fresh connection starts from zeroed memory. */
    constructor ()
      ensures Snapshot() == Seat(this, 0, "", 0, Lobby, 0, false, false, false)
    {
      playerId, token, score, state, rtt := 0, "", 0, Lobby, 0;
      isDrawing, hasGuessed, hasDrawn := false, false, false;
    }

    /** A saved state overwrites the fields of a returning player. */
    method CopyBack(saved: Seat)
      modifies this
      ensures Snapshot() == old(Snapshot()).(
        playerId := saved.playerId, score := saved.score, state := saved.state, isDrawing := saved.isDrawing,
        hasGuessed := saved.hasGuessed, token := saved.token)
    {
      playerId, score, state := saved.playerId, saved.score, saved.state;
      isDrawing, hasGuessed, token := saved.isDrawing, saved.hasGuessed, saved.token;
    }

    /** handle_register. */
    method Register(id: nat, newToken: string)
      modifies this
      ensures Snapshot() == old(Snapshot()).(playerId := id, state := Lobby, score := 0, token := newToken)
    {
      playerId, state, score, token := id, Lobby, 0, newToken;
    }

    function Snapshot(): (s: Seat)
      reads this
    {
      Seat(this, playerId, token, score, state, rtt, isDrawing, hasGuessed, hasDrawn)
    }
  }

  /** What a room sees of the player on one of its seats. */
  datatype Seat = Seat(
    who: Player,
    playerId: nat,
    token: string,
    score: int,
    state: PlayerState,
    rtt: nat,
    isDrawing: bool,
    hasGuessed: bool,
    hasDrawn: bool)

  datatype Kind =
    | GameStart
    | RoundStart
    | RoundEnd
    | GameEnd
    | ScoreUpdate
    | GuessCorrect
    | ChatBroadcast
    | TimerUpdate(seconds: int)
    | CountdownUpdate(left: int)

  /** A message the room engine hands to the sockets: a broadcast to all seats,
      or the word to draw, which goes to one player only. */
  datatype Message =
    | Announce(kind: Kind)
    | WordToDraw(to: Player, word: string)

  /** The value of a room. `drawer` is -1 until the first turn starts. */
  datatype RoomView = RoomView(
    id: nat,
    isPrivate: bool,
    seats: seq<Seat>,
    phase: Phase,
    drawer: int,
    word: string,
    round: int,
    total: int,
    roundStart: nat,
    timeLeft: int,
    strokes: nat,
    createdAt: nat,
    countdownStart: nat,
    countdownActive: bool,
    sent: seq<Message>)
}
