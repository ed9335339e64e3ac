/** The per-room handlers of the TypeScript server (src/index.ts), each a
    run-to-completion transition
      (room, caller's role, input) -> (room', reply, pushes, effects).
    Looking the room up from the socket and writing it back is in `Server`. */
module RoomMachine {
  import opened Common
  import opened Room

  /** Milliseconds a completed room is kept for late rejoins. */
  const RevealRetentionMs := 300000

  /** `name || fallback`: the empty string is falsy too. */
  function DefaultName(name: Option<string>, fallback: string): (r: string)
    ensures name.Some? && name.value != "" ==> r == name.value
    ensures name.None? || name.value == "" ==> r == fallback
  {
    match name
    case Some(n) => if n != "" then n else fallback
    case None => fallback
  }

  /** Everything but the spectator list is the same. */
  predicate SameGame(a: Room, b: Room) {
    && a.state == b.state && a.player1 == b.player1 && a.player2 == b.player2
    && a.challenge == b.challenge && a.maxNumber == b.maxNumber
    && a.result == b.result && a.createdAt == b.createdAt
  }

  /** The name of the other player, as the rejoin reply reports it
      (`room.player2?.name`; `undefined` and `null` both read as absent). */
  function OpponentOfPlayer1(room: Room): Option<string> {
    match room.player2
    case Some(p2) => p2.name
    case None => None
  }

  /** `rejoin-room` on a room that exists: player 1's token is tried first,
      then player 2's; a match rebinds only that player's socket. */
  function Rejoin(room: Room, socketId: SocketId, sessionId: string): (s: Step)
    ensures s.pushes == [] && s.effects == []
    ensures sessionId == room.player1.sessionId ==>
              && s.room.player1.socketId == socketId
              && s.room.(player1 := s.room.player1.(socketId := room.player1.socketId)) == room
              && s.reply == Rejoined(P1, room.state, room.challenge, room.maxNumber, room.result,
                                     OpponentOfPlayer1(room))
    ensures sessionId != room.player1.sessionId && room.player2.Some?
            && sessionId == room.player2.value.sessionId ==>
              && s.room.player2.Some? && s.room.player2.value.socketId == socketId
              && s.room.(player2 := Some(s.room.player2.value.(socketId := room.player2.value.socketId))) == room
              && s.reply == Rejoined(P2, room.state, room.challenge, room.maxNumber, room.result,
                                     room.player1.name)
    ensures sessionId != room.player1.sessionId
            && (room.player2.None? || sessionId != room.player2.value.sessionId) ==>
              s.room == room && s.reply == Failure(InvalidSession)
  {
    if room.player1.sessionId == sessionId then
      Step(room.(player1 := room.player1.(socketId := socketId)),
           Rejoined(P1, room.state, room.challenge, room.maxNumber, room.result, OpponentOfPlayer1(room)),
           [], [])
    else if room.player2.Some? && room.player2.value.sessionId == sessionId then
      Step(room.(player2 := Some(room.player2.value.(socketId := socketId))),
           Rejoined(P2, room.state, room.challenge, room.maxNumber, room.result, room.player1.name),
           [], [])
    else
      Answer(room, Failure(InvalidSession))
  }

  /** `join-room` on a room that exists, registered under `code`. A present
      player 2 makes the caller a spectator, checked before completion; a
      completed room without player 2 also admits a spectator; otherwise the
      caller becomes player 2 with the fresh token `sessionId`. */
  function Join(room: Room, code: string, socketId: SocketId, sessionId: string): (s: Step)
    ensures s.effects == []
    ensures room.player2.Some? ==>
              && SameGame(room, s.room) && s.room.spectators == room.spectators + [socketId]
              && s.reply.JoinedAsSpectator? && s.reply.roomCode == code
              && s.reply.state == room.state && s.reply.result == room.result
              && s.reply.challenge == room.challenge && s.reply.maxNumber == room.maxNumber
              && s.reply.player1Name == room.player1.name
              && s.reply.player2Name == room.player2.value.name
              && s.pushes == []
    ensures room.player2.None? && room.state == Completed ==>
              && SameGame(room, s.room) && s.room.spectators == room.spectators + [socketId]
              && s.reply == JoinedCompleted(code, Completed, room.result)
              && s.pushes == []
    ensures room.player2.None? && room.state != Completed ==>
              && s.room.player2 == Some(Player2(socketId, sessionId, None, None))
              && s.room.(player2 := None) == room
              && s.reply.JoinedAsPlayer2? && s.reply.sessionId == sessionId && s.reply.roomCode == code
              && (s.reply.hasChallenge <==> room.state == ChallengeSet)
              && s.reply.challenge == room.challenge && s.reply.maxNumber == room.maxNumber
              && s.reply.player1Name == room.player1.name
              && s.pushes == [Push(room.player1.socketId, PlayerJoined)]
  {
    if room.player2.Some? then
      Step(room.(spectators := room.spectators + [socketId]),
           JoinedAsSpectator(code, room.state, room.challenge, room.maxNumber,
                             room.player1.name, room.player2.value.name, room.result),
           [], [])
    else if room.state == Completed then
      Step(room.(spectators := room.spectators + [socketId]),
           JoinedCompleted(code, room.state, room.result), [], [])
    else
      Step(room.(player2 := Some(Player2(socketId, sessionId, None, None))),
           JoinedAsPlayer2(code, sessionId, room.state == ChallengeSet, room.challenge,
                           room.maxNumber, room.player1.name),
           [Push(room.player1.socketId, PlayerJoined)], [])
  }

  /** `set-name`: player 1 and a present player 2 record a name; player 2's
      name is also pushed to player 1. Any other caller gets success and
      changes nothing. */
  function SetName(room: Room, role: Option<Role>, name: string): (s: Step)
    ensures s.reply == Ok && s.effects == []
    ensures role == Some(P1) ==>
              s.room.player1.name == Some(name) && s.room == room.(player1 := s.room.player1)
              && s.room.player1.(name := room.player1.name) == room.player1 && s.pushes == []
    ensures role == Some(P2) && room.player2.Some? ==>
              && s.room.player2.Some? && s.room.player2.value.name == Some(name)
              && s.room.player2.value.(name := room.player2.value.name) == room.player2.value
              && s.room == room.(player2 := s.room.player2)
              && s.pushes == [Push(room.player1.socketId, Player2Named(name))]
    ensures role != Some(P1) && (role != Some(P2) || room.player2.None?) ==>
              s.room == room && s.pushes == []
  {
    if role == Some(P1) then
      Step(room.(player1 := room.player1.(name := Some(name))), Ok, [], [])
    else if role == Some(P2) && room.player2.Some? then
      Step(room.(player2 := Some(room.player2.value.(name := Some(name)))), Ok,
           [Push(room.player1.socketId, Player2Named(name))], [])
    else
      Answer(room, Ok)
  }

  /** `submit-challenge`: only player 1, and only with a non-empty challenge
      and hash. It does not look at `state`, so it also applies to a
      completed room. */
  function SubmitChallenge(room: Room, role: Option<Role>, challenge: string, maxNumber: int,
                           numberHash: string): (s: Step)
    ensures s.effects == []
    ensures role != Some(P1) ==> s == Answer(room, Failure(InvalidOperation))
    ensures role == Some(P1) && (challenge == "" || numberHash == "") ==>
              s == Answer(room, Failure(FieldsRequired))
    ensures role == Some(P1) && challenge != "" && numberHash != "" ==>
              && s.reply == Ok
              && s.room.state == ChallengeSet && s.room.challenge == Some(challenge)
              && s.room.maxNumber == maxNumber && s.room.player1.numberHash == Some(numberHash)
              && s.room.player1.(numberHash := room.player1.numberHash) == room.player1
              && s.room.(state := room.state, challenge := room.challenge, maxNumber := room.maxNumber,
                         player1 := room.player1) == room
              && (room.player2.None? ==> s.pushes == [])
              && (room.player2.Some? ==>
                    s.pushes == [Push(room.player2.value.socketId,
                                      ChallengeReady(Some(challenge), maxNumber, room.player1.name))])
  {
    if role != Some(P1) then
      Answer(room, Failure(InvalidOperation))
    else if challenge == "" || numberHash == "" then
      Answer(room, Failure(FieldsRequired))
    else
      var room' := room.(challenge := Some(challenge), maxNumber := maxNumber,
                         player1 := room.player1.(numberHash := Some(numberHash)),
                         state := ChallengeSet);
      var pushes := match room'.player2
        case Some(p2) =>
          [Push(p2.socketId, ChallengeReady(room'.challenge, room'.maxNumber, room'.player1.name))]
        case None => [];
      Step(room', Ok, pushes, [])
  }

  /** `submit-guess`: only a present player 2. The number is stored as given,
      without a range check, and may be replaced by a later guess. */
  function SubmitGuess(room: Room, role: Option<Role>, number: int): (s: Step)
    ensures s.effects == []
    ensures role != Some(P2) || room.player2.None? ==> s == Answer(room, Failure(InvalidOperation))
    ensures role == Some(P2) && room.player2.Some? ==>
              && s.reply == Ok
              && s.room.player2 == Some(room.player2.value.(number := Some(number)))
              && s.room.(player2 := room.player2) == room
              && s.pushes == [Push(room.player1.socketId, GuessSubmitted(room.player2.value.name))]
  {
    if role != Some(P2) || room.player2.None? then
      Answer(room, Failure(InvalidOperation))
    else
      var p2 := room.player2.value.(number := Some(number));
      Step(room.(player2 := Some(p2)), Ok, [Push(room.player1.socketId, GuessSubmitted(p2.name))], [])
  }

  /** The result pushed to player 2 and then to every spectator, in order. */
  function ResultPushes(p2: SocketId, spectators: seq<SocketId>, result: GameResult): (ps: seq<Push>)
    ensures |ps| == 1 + |spectators|
    ensures ps[0].to == p2
    ensures forall i :: 1 <= i < |ps| ==> ps[i].to == spectators[i - 1]
    ensures forall i :: 0 <= i < |ps| ==> ps[i].event == GameResultEvent(result)
  {
    [Push(p2, GameResultEvent(result))] + seq(|spectators|, i requires 0 <= i < |spectators| =>
                                              Push(spectators[i], GameResultEvent(result)))
  }

  /** `reveal-number`: only player 1 and only once player 2 exists (player 2
      need not have guessed). It completes the room and builds one result,
      which is stored, returned and pushed. */
  function Reveal(room: Room, code: string, role: Option<Role>, number: int, salt: string): (s: Step)
    ensures role != Some(P1) || room.player2.None? ==> s == Answer(room, Failure(InvalidOperation))
    ensures role == Some(P1) && room.player2.Some? ==>
              var p2 := room.player2.value;
              && s.reply.Revealed?
              && var res := s.reply.snapshot;
              && s.room.state == Completed
              && s.room.result == Some(res)
              && s.room.player1 == room.player1.(number := Some(number), salt := Some(salt))
              && s.room.(state := room.state, result := room.result, player1 := room.player1) == room
              && res.player1Number == number && res.salt == salt
              && res.player2Number == p2.number
              && res.numberHash == room.player1.numberHash && res.challenge == room.challenge
              && (res.matched <==> p2.number == Some(number))
              && res.player1Name == Some(DefaultName(room.player1.name, "Player 1"))
              && res.player2Name == Some(DefaultName(p2.name, "Player 2"))
              && s.pushes == ResultPushes(p2.socketId, room.spectators, res)
              && s.effects == [SaveGame(GameData(code, res.player1Name, res.player2Name,
                                                 Some(room.challenge.GetOr("")), room.maxNumber,
                                                 number, p2.number, res.matched)),
                               DeleteLater(code, RevealRetentionMs)]
  {
    if role != Some(P1) || room.player2.None? then
      Answer(room, Failure(InvalidOperation))
    else
      var p1 := room.player1.(number := Some(number), salt := Some(salt));
      var p2 := room.player2.value;
      var matched := p1.number == p2.number;
      var p1Name := DefaultName(p1.name, "Player 1");
      var p2Name := DefaultName(p2.name, "Player 2");
      var saved := GameData(code, Some(p1Name), Some(p2Name), Some(room.challenge.GetOr("")),
                            room.maxNumber, number, p2.number, matched);
      var result := GameResult(number, p2.number, salt, p1.numberHash, matched, room.challenge,
                               Some(p1Name), Some(p2Name));
      Step(room.(player1 := p1, state := Completed, result := Some(result)),
           Revealed(result),
           ResultPushes(p2.socketId, room.spectators, result),
           [SaveGame(saved), DeleteLater(code, RevealRetentionMs)])
  }

  /** `disconnect`: the room is never changed; the other player is told. */
  function Disconnect(room: Room, role: Option<Role>): (s: Step)
    ensures s.room == room && s.reply == NoReply && s.effects == []
    ensures role == Some(P1) && room.player2.Some? ==>
              s.pushes == [Push(room.player2.value.socketId, OpponentDisconnected)]
    ensures role == Some(P2) ==> s.pushes == [Push(room.player1.socketId, OpponentDisconnected)]
    ensures role != Some(P2) && (role != Some(P1) || room.player2.None?) ==> s.pushes == []
  {
    if role == Some(P1) && room.player2.Some? then
      Step(room, NoReply, [Push(room.player2.value.socketId, OpponentDisconnected)], [])
    else if role == Some(P2) then
      Step(room, NoReply, [Push(room.player1.socketId, OpponentDisconnected)], [])
    else
      Answer(room, NoReply)
  }
}
