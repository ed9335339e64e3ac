/** The records of the game server (`Room`, `Player1`, `Player2`,
    `GameResult`) and the messages a handler produces: its reply to the
    caller's callback and the events it pushes to other sockets. */
module Room {
  import opened Common

  type SocketId = string

  datatype RoomState = Waiting | ChallengeSet | Completed

  /** The role a socket plays in the room it joined (`socket.playerRole`). */
  datatype Role = P1 | P2 | Spectator

  /** The room creator. `numberHash` is set by submit-challenge, `salt` and
      `number` by reveal. */
  datatype Player1 = Player1(
    socketId: SocketId,
    sessionId: string,
    name: Option<string>,
    numberHash: Option<string>,
    salt: Option<string>,
    number: Option<int>)

  /** The guesser. `number` is set by submit-guess. */
  datatype Player2 = Player2(
    socketId: SocketId,
    sessionId: string,
    name: Option<string>,
    number: Option<int>)

  /** The snapshot built at reveal. Fields the source types as non-null but
      fills with a non-null assertion (`!`) are optional here, since the
      handlers do not guarantee them. */
  datatype GameResult = GameResult(
    player1Number: int,
    player2Number: Option<int>,
    salt: string,
    numberHash: Option<string>,
    matched: bool,
    challenge: Option<string>,
    player1Name: Option<string>,
    player2Name: Option<string>)

  datatype Room = Room(
    state: RoomState,
    player1: Player1,
    player2: Option<Player2>,
    spectators: seq<SocketId>,
    challenge: Option<string>,
    maxNumber: int,
    result: Option<GameResult>,
    createdAt: int)

  /** The room `create-room` registers. */
  function NewRoom(socketId: SocketId, sessionId: string, now: int): (r: Room)
    ensures r.state == Waiting && r.maxNumber == 10
    ensures r.player2.None? && r.spectators == [] && r.challenge.None? && r.result.None?
    ensures r.player1.socketId == socketId && r.player1.sessionId == sessionId
    ensures r.player1.name.None? && r.player1.numberHash.None?
    ensures r.player1.salt.None? && r.player1.number.None?
    ensures r.createdAt == now
  {
    Room(Waiting, Player1(socketId, sessionId, None, None, None, None), None, [], None, 10, None, now)
  }

  /** Server-to-client events with their payloads. */
  datatype Event =
    | PlayerJoined
    | Player2Named(name: string)
    | ChallengeReady(challenge: Option<string>, maxNumber: int, player1Name: Option<string>)
    | GuessSubmitted(player2Name: Option<string>)
    | GameResultEvent(result: GameResult)
    | OpponentDisconnected

  /** The wire name `io.to(…).emit` uses for an event. */
  function EventName(e: Event): string {
    match e
    case PlayerJoined => "player-joined"
    case Player2Named(_) => "player2-named"
    case ChallengeReady(_, _, _) => "challenge-ready"
    case GuessSubmitted(_) => "guess-submitted"
    case GameResultEvent(_) => "game-result"
    case OpponentDisconnected => "opponent-disconnected"
  }

  /** One outbound event addressed to one socket. */
  datatype Push = Push(to: SocketId, event: Event)

  /** The payload a handler passes to the caller's callback. */
  datatype Reply =
    | NoReply
    | Failure(error: string)
    | Ok
    | Created(roomCode: string, sessionId: string)
    | Rejoined(role: Role, state: RoomState, challenge: Option<string>, maxNumber: int,
               result: Option<GameResult>, opponentName: Option<string>)
    | JoinedAsSpectator(roomCode: string, state: RoomState, challenge: Option<string>, maxNumber: int,
                        player1Name: Option<string>, player2Name: Option<string>, result: Option<GameResult>)
    | JoinedCompleted(roomCode: string, state: RoomState, result: Option<GameResult>)
    | JoinedAsPlayer2(roomCode: string, sessionId: string, hasChallenge: bool,
                      challenge: Option<string>, maxNumber: int, player1Name: Option<string>)
    | Revealed(snapshot: GameResult)

  const RoomNotFound := "Room not found"
  const InvalidSession := "Invalid session"
  const InvalidOperation := "Invalid operation"
  const FieldsRequired := "Challenge and number are required"

  /** Side effects handed to collaborators outside the state machine. */
  datatype GameData = GameData(
    roomCode: string,
    player1Name: Option<string>,
    player2Name: Option<string>,
    challenge: Option<string>,
    maxNumber: int,
    player1Number: int,
    player2Number: Option<int>,
    matched: bool)

  datatype Effect =
    | SaveGame(data: GameData)
    /** Delete the room under `code` after `delayMs` (captured code). */
    | DeleteLater(code: string, delayMs: int)
    /** Delete whatever room the calling socket is in when the timer fires. */
    | DeleteSocketRoomLater(delayMs: int)

  /** What one handler run does to one room. */
  datatype Step = Step(room: Room, reply: Reply, pushes: seq<Push>, effects: seq<Effect>)

  /** The handler left the room as it was and only answered. */
  function Answer(room: Room, reply: Reply): (s: Step)
    ensures s.room == room && s.reply == reply && s.pushes == [] && s.effects == []
  {
    Step(room, reply, [], [])
  }
}
