/** The socket handlers of src/index.ts as transitions of the whole server:
    the registry, the calling socket's own fields (`roomCode`, `playerRole`,
    `sessionId`) and one input give the new registry and socket fields, the
    callback reply, the pushes and the effects. Codes, tokens and the clock
    are inputs. */
module Server {
  import opened Common
  import opened Room
  import Reg = Registry
  import opened RoomMachine
  import opened RoomInvariant
  import Text

  /** The per-socket fields the server stores on a connection. */
  datatype Conn = Conn(id: SocketId, roomCode: Option<string>, role: Option<Role>, sessionId: Option<string>)

  function NewConn(id: SocketId): Conn {
    Conn(id, None, None, None)
  }

  datatype Outcome = Outcome(reg: Reg.Registry, conn: Conn, reply: Reply, pushes: seq<Push>, effects: seq<Effect>)

  /** Nothing changed; only a reply. */
  function Refuse(reg: Reg.Registry, conn: Conn, reply: Reply): (o: Outcome)
    ensures o.reg == reg && o.conn == conn && o.reply == reply && o.pushes == [] && o.effects == []
  {
    Outcome(reg, conn, reply, [], [])
  }

  /** `socket.roomCode ? rooms.get(socket.roomCode) : undefined`. */
  function CurrentCode(reg: Reg.Registry, conn: Conn): (c: Option<string>)
    ensures c.Some? <==> conn.roomCode.Some? && conn.roomCode.value != "" && conn.roomCode.value in reg.rooms
    ensures c.Some? ==> c == conn.roomCode
  {
    match conn.roomCode
    case Some(code) => if code != "" && code in reg.rooms then Some(code) else None
    case None => None
  }

  /** Writes one handler's room back under `code` and keeps the socket. */
  function Apply(reg: Reg.Registry, conn: Conn, code: string, s: Step): (o: Outcome)
    requires code in reg.rooms
    ensures o.reg.rooms == reg.rooms[code := s.room] && o.reg.order == reg.order
    ensures o.conn == conn && o.reply == s.reply && o.pushes == s.pushes && o.effects == s.effects
  {
    Outcome(Reg.Set(reg, code, s.room), conn, s.reply, s.pushes, s.effects)
  }

  /** `create-room`: registers a fresh room under the upper-cased nanoid
      `rawCode`, replacing any room already there. */
  function OnCreateRoom(reg: Reg.Registry, conn: Conn, rawCode: string, sessionId: string, now: int): (o: Outcome)
    ensures var code := Text.ToUpper(rawCode);
            && o.reg.rooms == reg.rooms[code := NewRoom(conn.id, sessionId, now)]
            && o.conn == Conn(conn.id, Some(code), Some(P1), Some(sessionId))
            && o.reply == Created(code, sessionId) && o.pushes == [] && o.effects == []
    ensures Reg.Valid(reg) ==> Reg.Valid(o.reg)
  {
    var code := Text.ToUpper(rawCode);
    Outcome(Reg.Set(reg, code, NewRoom(conn.id, sessionId, now)),
            Conn(conn.id, Some(code), Some(P1), Some(sessionId)), Created(code, sessionId), [], [])
  }

  /** `rejoin-room`: resolves the code case-insensitively, then matches the
      token; on success the socket takes the matched role. */
  function OnRejoinRoom(reg: Reg.Registry, conn: Conn, roomCode: string, sessionId: string): (o: Outcome)
    ensures var code := Text.ToUpper(roomCode);
            && (code !in reg.rooms ==> o == Refuse(reg, conn, Failure(RoomNotFound)))
            && (code in reg.rooms ==>
                  var s := Rejoin(reg.rooms[code], conn.id, sessionId);
                  && o.reg.rooms == reg.rooms[code := s.room] && o.reg.order == reg.order
                  && o.reply == s.reply && o.pushes == []
                  && (s.reply.Rejoined? ==> o.conn == Conn(conn.id, Some(code), Some(s.reply.role), Some(sessionId)))
                  && (!s.reply.Rejoined? ==> o.conn == conn && o.reg == reg))
  {
    var code := Text.ToUpper(roomCode);
    if code !in reg.rooms then Refuse(reg, conn, Failure(RoomNotFound))
    else
      var s := Rejoin(reg.rooms[code], conn.id, sessionId);
      var conn' := if s.reply.Rejoined? then Conn(conn.id, Some(code), Some(s.reply.role), Some(sessionId))
                   else conn;
      Apply(reg, conn', code, s)
  }

  /** `join-room`: a missing room is refused with nothing changed; otherwise
      the socket becomes a spectator or player 2 of the room under the
      upper-cased code. */
  function OnJoinRoom(reg: Reg.Registry, conn: Conn, roomCode: string, freshSession: string): (o: Outcome)
    ensures var code := Text.ToUpper(roomCode);
            && (code !in reg.rooms ==> o == Refuse(reg, conn, Failure(RoomNotFound)))
            && (code in reg.rooms ==>
                  var s := Join(reg.rooms[code], code, conn.id, freshSession);
                  && o.reg.rooms == reg.rooms[code := s.room] && o.reg.order == reg.order
                  && o.reply == s.reply && o.pushes == s.pushes
                  && o.conn.id == conn.id && o.conn.roomCode == Some(code)
                  && (s.reply.JoinedAsPlayer2? ==> o.conn.role == Some(P2) && o.conn.sessionId == Some(freshSession))
                  && (!s.reply.JoinedAsPlayer2? ==> o.conn.role == Some(Spectator) && o.conn.sessionId == conn.sessionId))
  {
    var code := Text.ToUpper(roomCode);
    if code !in reg.rooms then Refuse(reg, conn, Failure(RoomNotFound))
    else
      var s := Join(reg.rooms[code], code, conn.id, freshSession);
      var conn' := if s.reply.JoinedAsPlayer2? then Conn(conn.id, Some(code), Some(P2), Some(freshSession))
                   else conn.(roomCode := Some(code), role := Some(Spectator));
      Apply(reg, conn', code, s)
  }

  /** `set-name`, on the socket's current room. */
  function OnSetName(reg: Reg.Registry, conn: Conn, name: string): (o: Outcome)
    ensures CurrentCode(reg, conn).None? ==> o == Refuse(reg, conn, Failure(RoomNotFound))
    ensures CurrentCode(reg, conn).Some? ==>
              var code := CurrentCode(reg, conn).value;
              o == Apply(reg, conn, code, SetName(reg.rooms[code], conn.role, name))
  {
    match CurrentCode(reg, conn)
    case None => Refuse(reg, conn, Failure(RoomNotFound))
    case Some(code) => Apply(reg, conn, code, SetName(reg.rooms[code], conn.role, name))
  }

  function OnSubmitChallenge(reg: Reg.Registry, conn: Conn, challenge: string, maxNumber: int,
                             numberHash: string): (o: Outcome)
    ensures CurrentCode(reg, conn).None? ==> o == Refuse(reg, conn, Failure(InvalidOperation))
    ensures CurrentCode(reg, conn).Some? ==>
              var code := CurrentCode(reg, conn).value;
              o == Apply(reg, conn, code, SubmitChallenge(reg.rooms[code], conn.role, challenge, maxNumber, numberHash))
  {
    match CurrentCode(reg, conn)
    case None => Refuse(reg, conn, Failure(InvalidOperation))
    case Some(code) =>
      Apply(reg, conn, code, SubmitChallenge(reg.rooms[code], conn.role, challenge, maxNumber, numberHash))
  }

  function OnSubmitGuess(reg: Reg.Registry, conn: Conn, number: int): (o: Outcome)
    ensures CurrentCode(reg, conn).None? ==> o == Refuse(reg, conn, Failure(InvalidOperation))
    ensures CurrentCode(reg, conn).Some? ==>
              var code := CurrentCode(reg, conn).value;
              o == Apply(reg, conn, code, SubmitGuess(reg.rooms[code], conn.role, number))
  {
    match CurrentCode(reg, conn)
    case None => Refuse(reg, conn, Failure(InvalidOperation))
    case Some(code) => Apply(reg, conn, code, SubmitGuess(reg.rooms[code], conn.role, number))
  }

  function OnRevealNumber(reg: Reg.Registry, conn: Conn, number: int, salt: string): (o: Outcome)
    ensures CurrentCode(reg, conn).None? ==> o == Refuse(reg, conn, Failure(InvalidOperation))
    ensures CurrentCode(reg, conn).Some? ==>
              var code := CurrentCode(reg, conn).value;
              o == Apply(reg, conn, code, Reveal(reg.rooms[code], code, conn.role, number, salt))
  {
    match CurrentCode(reg, conn)
    case None => Refuse(reg, conn, Failure(InvalidOperation))
    case Some(code) => Apply(reg, conn, code, Reveal(reg.rooms[code], code, conn.role, number, salt))
  }

  function OnDisconnect(reg: Reg.Registry, conn: Conn): (o: Outcome)
    ensures o.reg == reg && o.conn == conn && o.reply == NoReply && o.effects == []
    ensures CurrentCode(reg, conn).None? ==> o.pushes == []
    ensures CurrentCode(reg, conn).Some? ==>
              o.pushes == Disconnect(reg.rooms[CurrentCode(reg, conn).value], conn.role).pushes
  {
    match CurrentCode(reg, conn)
    case None => Refuse(reg, conn, NoReply)
    case Some(code) =>
      var s := Disconnect(reg.rooms[code], conn.role);
      assert Reg.Set(reg, code, s.room) == reg;
      Outcome(reg, conn, NoReply, s.pushes, [])
  }

  /** The delayed deletion scheduled at reveal (`setTimeout(…, 300000)`),
      run when the timer fires: it deletes the captured code, whatever room
      is registered there by then. */
  function FireDeleteLater(reg: Reg.Registry, code: string): (r: Reg.Registry)
    ensures code != "" ==> r.rooms == reg.rooms - {code}
    ensures code == "" ==> r == reg
    ensures Reg.Valid(reg) ==> Reg.Valid(r)
  {
    if code != "" then Reg.Delete(reg, code) else reg
  }

  /** Inbound socket events with the random values and time they consume. */
  datatype Input =
    | CreateRoom(rawCode: string, sessionId: string, now: int)
    | RejoinRoom(roomCode: string, sessionId: string)
    | JoinRoom(roomCode: string, freshSession: string)
    | SetNameInput(name: string)
    | SubmitChallengeInput(challenge: string, maxNumber: int, numberHash: string)
    | SubmitGuessInput(number: int)
    | RevealNumber(number: int, salt: string)
    | DisconnectInput

  function Handle(reg: Reg.Registry, conn: Conn, input: Input): Outcome {
    match input
    case CreateRoom(rawCode, sessionId, now) => OnCreateRoom(reg, conn, rawCode, sessionId, now)
    case RejoinRoom(roomCode, sessionId) => OnRejoinRoom(reg, conn, roomCode, sessionId)
    case JoinRoom(roomCode, freshSession) => OnJoinRoom(reg, conn, roomCode, freshSession)
    case SetNameInput(name) => OnSetName(reg, conn, name)
    case SubmitChallengeInput(c, m, h) => OnSubmitChallenge(reg, conn, c, m, h)
    case SubmitGuessInput(n) => OnSubmitGuess(reg, conn, n)
    case RevealNumber(n, salt) => OnRevealNumber(reg, conn, n, salt)
    case DisconnectInput => OnDisconnect(reg, conn)
  }

  /** The registry is well formed and every room in it is consistent. */
  ghost predicate Good(reg: Reg.Registry) {
    Reg.Valid(reg) && forall c :: c in reg.rooms ==> Consistent(reg.rooms[c])
  }

  /** Writing a consistent room back keeps the server good. */
  lemma SetKeepsGood(reg: Reg.Registry, code: string, room: Room)
    requires Good(reg) && Consistent(room)
    ensures Good(Reg.Set(reg, code, room))
  {
  }

  /** Writing back a consistent room under the socket's own code keeps the
      server good. */
  lemma ApplyKeepsGood(reg: Reg.Registry, conn: Conn, code: string, s: Step)
    requires Good(reg) && code in reg.rooms && Consistent(s.room)
    ensures Good(Apply(reg, conn, code, s).reg)
  {
    SetKeepsGood(reg, code, s.room);
  }

  lemma RejoinKeepsGood(reg: Reg.Registry, conn: Conn, roomCode: string, sessionId: string)
    requires Good(reg)
    ensures Good(OnRejoinRoom(reg, conn, roomCode, sessionId).reg)
  {
    var code := Text.ToUpper(roomCode);
    if code in reg.rooms {
      RejoinKeepsConsistent(reg.rooms[code], conn.id, sessionId);
      SetKeepsGood(reg, code, Rejoin(reg.rooms[code], conn.id, sessionId).room);
    }
  }

  lemma JoinKeepsGood(reg: Reg.Registry, conn: Conn, roomCode: string, token: string)
    requires Good(reg)
    ensures Good(OnJoinRoom(reg, conn, roomCode, token).reg)
  {
    var code := Text.ToUpper(roomCode);
    if code in reg.rooms {
      JoinKeepsConsistent(reg.rooms[code], code, conn.id, token);
      SetKeepsGood(reg, code, Join(reg.rooms[code], code, conn.id, token).room);
    }
  }

  /** The four handlers that act on the socket's current room. */
  lemma RoomEventKeepsGood(reg: Reg.Registry, conn: Conn, input: Input)
    requires Good(reg)
    requires input.SetNameInput? || input.SubmitChallengeInput? || input.SubmitGuessInput? || input.RevealNumber?
    ensures Good(Handle(reg, conn, input).reg)
  {
    if CurrentCode(reg, conn).Some? {
      var code := CurrentCode(reg, conn).value;
      var room := reg.rooms[code];
      match input {
        case SetNameInput(name) =>
          SetNameKeepsConsistent(room, conn.role, name);
          ApplyKeepsGood(reg, conn, code, SetName(room, conn.role, name));
        case SubmitChallengeInput(c, m, h) =>
          SubmitChallengeKeepsConsistent(room, conn.role, c, m, h);
          ApplyKeepsGood(reg, conn, code, SubmitChallenge(room, conn.role, c, m, h));
        case SubmitGuessInput(n) =>
          SubmitGuessKeepsConsistent(room, conn.role, n);
          ApplyKeepsGood(reg, conn, code, SubmitGuess(room, conn.role, n));
        case RevealNumber(n, salt) =>
          RevealKeepsConsistent(room, code, conn.role, n, salt);
          ApplyKeepsGood(reg, conn, code, Reveal(room, code, conn.role, n, salt));
      }
    }
  }

  /** Every socket event keeps the registry well formed and every room in it
      consistent. */
  lemma HandleKeepsGood(reg: Reg.Registry, conn: Conn, input: Input)
    requires Good(reg)
    ensures Good(Handle(reg, conn, input).reg)
  {
    match input {
      case CreateRoom(rawCode, sessionId, now) =>
        NewRoomConsistent(conn.id, sessionId, now);
        SetKeepsGood(reg, Text.ToUpper(rawCode), NewRoom(conn.id, sessionId, now));
      case RejoinRoom(roomCode, sessionId) =>
        RejoinKeepsGood(reg, conn, roomCode, sessionId);
      case JoinRoom(roomCode, token) =>
        JoinKeepsGood(reg, conn, roomCode, token);
      case DisconnectInput =>
      case _ =>
        RoomEventKeepsGood(reg, conn, input);
    }
  }

  /** The hourly sweep and the delayed deletion only drop rooms, so they
      keep the server good. */
  lemma SweepKeepsGood(reg: Reg.Registry, now: int)
    requires Good(reg)
    ensures Good(Reg.Swept(reg, now))
  {
    Reg.SweptKeepsExactlyFresh(reg, now);
  }

  lemma FireDeleteLaterKeepsGood(reg: Reg.Registry, code: string)
    requires Good(reg)
    ensures Good(FireDeleteLater(reg, code))
  {
  }
}
