/** The older JavaScript server (server/index.js). Its handlers are written
    out here on their own and then compared with the TypeScript ones: most
    agree exactly; set-name, submit-guess and reveal-number lack the null
    check on player 2, and reveal-number stores the raw, possibly null,
    names. A null dereference throws a TypeError out of the handler. The
    model stops at the throw: `Threw` carries the room as the assignments
    before it left it, and what the runtime does with the uncaught error is
    not modelled. */
module Legacy {
  import opened Common
  import opened Room
  import RoomMachine
  import RoomInvariant
  import Reg = Registry
  import Server
  import Text

  datatype Outcome =
    | Done(step: Step)
    /** A TypeError was thrown; `room` is the room as left by the
        assignments that ran before it. No reply is sent, and nothing after
        the throw is modelled. */
    | Threw(room: Room)

  /** `create-room`: the room registered for the calling socket. */
  function CreatedRoom(socketId: SocketId, sessionId: string, now: int): (r: Room)
    ensures r.state == Waiting && r.maxNumber == 10 && r.player2.None? && r.spectators == []
    ensures r.challenge.None? && r.result.None? && r.createdAt == now
    ensures r.player1 == Player1(socketId, sessionId, None, None, None, None)
  {
    Room(Waiting, Player1(socketId, sessionId, None, None, None, None), None, [], None, 10, None, now)
  }

  /** `rejoin-room` on a room that exists: player 1's token first, then
      player 2's; anything else is an invalid session. */
  function Rejoin(room: Room, socketId: SocketId, sessionId: string): (s: Step)
    ensures s.pushes == [] && s.effects == []
    ensures s.reply.Rejoined? ==> s.reply.role != Spectator
    ensures sessionId == room.player1.sessionId ==>
              && s.room == room.(player1 := room.player1.(socketId := socketId))
              && s.reply == Rejoined(P1, room.state, room.challenge, room.maxNumber, room.result,
                                     RoomMachine.OpponentOfPlayer1(room))
    ensures sessionId != room.player1.sessionId && room.player2.Some?
            && sessionId == room.player2.value.sessionId ==>
              && s.room == room.(player2 := Some(room.player2.value.(socketId := socketId)))
              && s.reply == Rejoined(P2, room.state, room.challenge, room.maxNumber, room.result,
                                     room.player1.name)
    ensures sessionId != room.player1.sessionId
            && (room.player2.None? || sessionId != room.player2.value.sessionId) ==>
              s == Step(room, Failure(InvalidSession), [], [])
  {
    if room.player1.sessionId == sessionId then
      var opponent := match room.player2 case Some(p2) => p2.name case None => None;
      Step(room.(player1 := room.player1.(socketId := socketId)),
           Rejoined(P1, room.state, room.challenge, room.maxNumber, room.result, opponent), [], [])
    else if room.player2.Some? && room.player2.value.sessionId == sessionId then
      Step(room.(player2 := Some(room.player2.value.(socketId := socketId))),
           Rejoined(P2, room.state, room.challenge, room.maxNumber, room.result, room.player1.name), [], [])
    else
      Step(room, Failure(InvalidSession), [], [])
  }

  function Join(room: Room, code: string, socketId: SocketId, sessionId: string): (s: Step)
    ensures s.effects == []
    ensures room.player2.Some? || room.state == Completed ==>
              s.room == room.(spectators := room.spectators + [socketId]) && s.pushes == []
              && (s.reply.JoinedAsSpectator? <==> room.player2.Some?)
    ensures room.player2.None? && room.state != Completed ==>
              && s.room == room.(player2 := Some(Player2(socketId, sessionId, None, None)))
              && s.reply.JoinedAsPlayer2? && (s.reply.hasChallenge <==> room.state == ChallengeSet)
              && s.reply.roomCode == code && s.reply.sessionId == sessionId
              && s.reply.challenge == room.challenge && s.reply.maxNumber == room.maxNumber
              && s.reply.player1Name == room.player1.name
              && s.pushes == [Push(room.player1.socketId, PlayerJoined)]
  {
    if room.player2.Some? then
      Step(room.(spectators := room.spectators + [socketId]),
           JoinedAsSpectator(code, room.state, room.challenge, room.maxNumber,
                             room.player1.name, room.player2.value.name, room.result), [], [])
    else if room.state == Completed then
      Step(room.(spectators := room.spectators + [socketId]), JoinedCompleted(code, room.state, room.result), [], [])
    else
      Step(room.(player2 := Some(Player2(socketId, sessionId, None, None))),
           JoinedAsPlayer2(code, sessionId, room.state == ChallengeSet, room.challenge, room.maxNumber,
                           room.player1.name),
           [Push(room.player1.socketId, PlayerJoined)], [])
  }

  /** `set-name`: a player-2 socket whose room has no player 2 throws. */
  function SetName(room: Room, role: Option<Role>, name: string): (o: Outcome)
    ensures role == Some(P2) && room.player2.None? ==> o == Threw(room)
    ensures o.Done? ==> o.step.reply == Ok
  {
    if role == Some(P1) then Done(Step(room.(player1 := room.player1.(name := Some(name))), Ok, [], []))
    else if role == Some(P2) then
      match room.player2
      case None => Threw(room)
      case Some(p2) =>
        Done(Step(room.(player2 := Some(p2.(name := Some(name)))), Ok,
                  [Push(room.player1.socketId, Player2Named(name))], []))
    else Done(Step(room, Ok, [], []))
  }

  /** `submit-challenge`: only player 1; empty fields are refused before any
      assignment; the state is not looked at. */
  function SubmitChallenge(room: Room, role: Option<Role>, challenge: string, maxNumber: int,
                           numberHash: string): (s: Step)
    ensures s.effects == []
    ensures role != Some(P1) ==> s == Step(room, Failure(InvalidOperation), [], [])
    ensures (challenge == "" || numberHash == "") ==> s.room == room && s.reply.Failure? && s.pushes == []
    ensures role == Some(P1) && (challenge == "" || numberHash == "") ==> s.reply == Failure(FieldsRequired)
    ensures role == Some(P1) && challenge != "" && numberHash != "" ==>
              && s.reply == Ok
              && s.room.state == ChallengeSet && s.room.challenge == Some(challenge)
              && s.room.maxNumber == maxNumber && s.room.player1.numberHash == Some(numberHash)
              && s.room.player1.(numberHash := room.player1.numberHash) == room.player1
              && s.room.(state := room.state, challenge := room.challenge, maxNumber := room.maxNumber,
                         player1 := room.player1) == room
              && (room.player2.None? ==> s.pushes == [])
              && (room.player2.Some? ==>
                    s.pushes == [Push(room.player2.value.socketId,
                                      ChallengeReady(Some(challenge), maxNumber, room.player1.name))])
  {
    if role != Some(P1) then Step(room, Failure(InvalidOperation), [], [])
    else if challenge == "" || numberHash == "" then Step(room, Failure(FieldsRequired), [], [])
    else
      var room' := room.(challenge := Some(challenge), maxNumber := maxNumber,
                         player1 := room.player1.(numberHash := Some(numberHash)), state := ChallengeSet);
      Step(room', Ok,
           match room.player2
           case Some(p2) => [Push(p2.socketId, ChallengeReady(Some(challenge), maxNumber, room.player1.name))]
           case None => [],
           [])
  }

  /** `submit-guess`: a player-2 socket whose room has no player 2 throws. */
  function SubmitGuess(room: Room, role: Option<Role>, number: int): (o: Outcome)
    ensures role == Some(P2) && room.player2.None? ==> o == Threw(room)
    ensures role != Some(P2) ==> o == Done(Step(room, Failure(InvalidOperation), [], []))
  {
    if role != Some(P2) then Done(Step(room, Failure(InvalidOperation), [], []))
    else
      match room.player2
      case None => Threw(room)
      case Some(p2) =>
        Done(Step(room.(player2 := Some(p2.(number := Some(number)))), Ok,
                  [Push(room.player1.socketId, GuessSubmitted(p2.name))], []))
  }

  /** `reveal-number`: the number, salt and `completed` state are assigned
      before player 2 is read, so without player 2 the handler throws with the
      room marked completed and no result. With player 2 the result and the
      history row carry the raw names, and the deletion timer names no code:
      it deletes the socket's room when it fires. */
  function Reveal(room: Room, code: string, role: Option<Role>, number: int, salt: string): (o: Outcome)
    ensures role != Some(P1) ==> o == Done(Step(room, Failure(InvalidOperation), [], []))
    ensures role == Some(P1) && room.player2.None? ==>
              o == Threw(room.(player1 := room.player1.(number := Some(number), salt := Some(salt)),
                               state := Completed))
    ensures role == Some(P1) && room.player2.Some? ==>
              var p2 := room.player2.value;
              && o.Done? && o.step.reply.Revealed?
              && var res := o.step.reply.snapshot;
              && o.step.room.state == Completed && o.step.room.result == Some(res)
              && o.step.room.player1 == room.player1.(number := Some(number), salt := Some(salt))
              && o.step.room.(state := room.state, result := room.result, player1 := room.player1) == room
              && res.player1Number == number && res.salt == salt && res.player2Number == p2.number
              && res.numberHash == room.player1.numberHash && res.challenge == room.challenge
              && (res.matched <==> p2.number == Some(number))
              && res.player1Name == room.player1.name && res.player2Name == p2.name
              && o.step.pushes == RoomMachine.ResultPushes(p2.socketId, room.spectators, res)
              && o.step.effects == [SaveGame(GameData(code, room.player1.name, p2.name, room.challenge,
                                                      room.maxNumber, number, p2.number, res.matched)),
                                    DeleteSocketRoomLater(RoomMachine.RevealRetentionMs)]
  {
    if role != Some(P1) then Done(Step(room, Failure(InvalidOperation), [], []))
    else
      var p1 := room.player1.(number := Some(number), salt := Some(salt));
      var partial := room.(player1 := p1, state := Completed);
      match room.player2
      case None => Threw(partial)
      case Some(p2) =>
        var matched := p1.number == p2.number;
        var result := GameResult(number, p2.number, salt, p1.numberHash, matched, room.challenge,
                                 p1.name, p2.name);
        var saved := GameData(code, p1.name, p2.name, room.challenge, room.maxNumber, number, p2.number, matched);
        Done(Step(partial.(result := Some(result)), Revealed(result),
                  [Push(p2.socketId, GameResultEvent(result))]
                  + seq(|room.spectators|, i requires 0 <= i < |room.spectators| =>
                          Push(room.spectators[i], GameResultEvent(result))),
                  [SaveGame(saved), DeleteSocketRoomLater(RoomMachine.RevealRetentionMs)]))
  }

  function Disconnect(room: Room, role: Option<Role>): (s: Step)
    ensures s.room == room && s.reply == NoReply && s.effects == []
    ensures role == Some(P1) && room.player2.Some? ==>
              s.pushes == [Push(room.player2.value.socketId, OpponentDisconnected)]
    ensures role == Some(P2) ==> s.pushes == [Push(room.player1.socketId, OpponentDisconnected)]
    ensures role != Some(P2) && (role != Some(P1) || room.player2.None?) ==> s.pushes == []
  {
    if role == Some(P1) && room.player2.Some? then
      Step(room, NoReply, [Push(room.player2.value.socketId, OpponentDisconnected)], [])
    else if role == Some(P2) then Step(room, NoReply, [Push(room.player1.socketId, OpponentDisconnected)], [])
    else Step(room, NoReply, [], [])
  }

  /** The JavaScript delayed deletion reads `socket.roomCode` when the timer
      fires, so it deletes the room the socket is in at that moment. */
  function FireDeleteSocketRoom(reg: Reg.Registry, roomCodeAtFire: Option<string>): (r: Reg.Registry)
    ensures roomCodeAtFire.None? ==> r == reg
    ensures roomCodeAtFire.Some? ==> r.rooms == reg.rooms - {roomCodeAtFire.value}
  {
    match roomCodeAtFire
    case None => reg
    case Some(code) => Reg.Delete(reg, code)
  }

  /** Player 1 reveals in room `code`, then starts a new game from the same
      connection before the five minutes are up ("Play again" keeps the
      socket), so `create-room` points the socket at the new room. When the
      reveal's timer fires, the JavaScript server deletes the new room and
      keeps the finished one. The TypeScript timer, which captured `code`,
      deletes the finished room and keeps the new one. */
  lemma LateDeleteRemovesNewRoom(reg: Reg.Registry, code: string, number: int, salt: string,
                                 socketId: SocketId, rawCode: string, sessionId: string, now: int)
    requires code in reg.rooms && code != "" && reg.rooms[code].player2.Some?
    requires Text.ToUpper(rawCode) != code
    ensures Reveal(reg.rooms[code], code, Some(P1), number, salt).Done?
    ensures var o := Reveal(reg.rooms[code], code, Some(P1), number, salt);
            var newCode := Text.ToUpper(rawCode);
            var newRoom := CreatedRoom(socketId, sessionId, now);
            var played := Reg.Set(Reg.Set(reg, code, o.step.room), newCode, newRoom);
            && o.step.effects[1] == DeleteSocketRoomLater(RoomMachine.RevealRetentionMs)
            && newCode in played.rooms && code in played.rooms
            && newCode !in FireDeleteSocketRoom(played, Some(newCode)).rooms
            && code in FireDeleteSocketRoom(played, Some(newCode)).rooms
            && code !in Server.FireDeleteLater(played, code).rooms
            && newCode in Server.FireDeleteLater(played, code).rooms
            && Server.FireDeleteLater(played, code).rooms[newCode] == newRoom
  {
  }

  /** The creation, rejoin and join handlers behave exactly as in the
      TypeScript server. */
  lemma AgreesWithTypeScript(room: Room, code: string, socketId: SocketId, sessionId: string, now: int)
    ensures CreatedRoom(socketId, sessionId, now) == NewRoom(socketId, sessionId, now)
    ensures Rejoin(room, socketId, sessionId) == RoomMachine.Rejoin(room, socketId, sessionId)
    ensures Join(room, code, socketId, sessionId) == RoomMachine.Join(room, code, socketId, sessionId)
  {
  }

  /** submit-challenge behaves exactly as in the TypeScript server. */
  lemma SubmitChallengeAgrees(room: Room, role: Option<Role>, challenge: string, maxNumber: int,
                              numberHash: string)
    ensures SubmitChallenge(room, role, challenge, maxNumber, numberHash)
            == RoomMachine.SubmitChallenge(room, role, challenge, maxNumber, numberHash)
  {
  }

  /** disconnect behaves exactly as in the TypeScript server. */
  lemma DisconnectAgrees(room: Room, role: Option<Role>)
    ensures Disconnect(room, role) == RoomMachine.Disconnect(room, role)
  {
  }

  /** With player 2 present, set-name and submit-guess agree with the
      TypeScript server; only the missing null check differs. */
  lemma GuardedHandlersAgree(room: Room, role: Option<Role>, name: string, number: int)
    requires room.player2.Some? || role != Some(P2)
    ensures SetName(room, role, name) == Done(RoomMachine.SetName(room, role, name))
    ensures SubmitGuess(room, role, number) == Done(RoomMachine.SubmitGuess(room, role, number))
  {
  }

  /** With player 2 present and both names set and non-empty, the JavaScript
      reveal stores and sends the same result as the TypeScript one. */
  lemma RevealAgreesWhenNamed(room: Room, code: string, number: int, salt: string)
    requires room.player2.Some?
    requires room.player1.name.Some? && room.player1.name.value != ""
    requires room.player2.value.name.Some? && room.player2.value.name.value != ""
    ensures Reveal(room, code, Some(P1), number, salt).Done?
    ensures Reveal(room, code, Some(P1), number, salt).step.room == RoomMachine.Reveal(room, code, Some(P1), number, salt).room
    ensures Reveal(room, code, Some(P1), number, salt).step.reply == RoomMachine.Reveal(room, code, Some(P1), number, salt).reply
    ensures Reveal(room, code, Some(P1), number, salt).step.pushes == RoomMachine.Reveal(room, code, Some(P1), number, salt).pushes
  {
  }

  /** An unnamed player stays null in the JavaScript result, where the
      TypeScript result says "Player 1". */
  lemma RevealKeepsNullNames(room: Room, code: string, number: int, salt: string)
    requires room.player2.Some? && room.player1.name.None?
    ensures Reveal(room, code, Some(P1), number, salt).step.reply.snapshot.player1Name.None?
    ensures RoomMachine.Reveal(room, code, Some(P1), number, salt).reply.snapshot.player1Name == Some("Player 1")
  {
  }

  /** Revealing before anyone joined: the JavaScript handler completes the
      room, then throws; the room as left at the throw is completed without
      a result. The TypeScript handler refuses and changes nothing. */
  lemma RevealWithoutPlayer2LeavesNoResult(socketId: SocketId, sessionId: string, now: int,
                                           code: string, number: int, salt: string)
    ensures var room := NewRoom(socketId, sessionId, now);
            && RoomInvariant.Consistent(room)
            && Reveal(room, code, Some(P1), number, salt).Threw?
            && Reveal(room, code, Some(P1), number, salt).room.state == Completed
            && Reveal(room, code, Some(P1), number, salt).room.result.None?
            && !RoomInvariant.Consistent(Reveal(room, code, Some(P1), number, salt).room)
            && RoomMachine.Reveal(room, code, Some(P1), number, salt).room == room
            && RoomMachine.Reveal(room, code, Some(P1), number, salt).reply == Failure(InvalidOperation)
  {
  }
}
