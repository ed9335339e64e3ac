/** A consistency invariant of one room that every handler of the
    TypeScript server keeps. It is weaker than the forward-only protocol:
    the handlers let submit-challenge move a completed room back to
    `challenge_set` and let a guess change after the reveal. */
module RoomInvariant {
  import opened Common
  import opened Room
  import opened RoomMachine

  /** The stored result agrees with the reveal that produced it. */
  predicate ResultAgrees(r: Room)
    requires r.result.Some?
  {
    var res := r.result.value;
    && r.player2.Some?
    && r.player1.number == Some(res.player1Number)
    && r.player1.salt == Some(res.salt)
    && (res.matched <==> res.player2Number == Some(res.player1Number))
    && res.player1Name.Some? && res.player1Name.value != ""
    && res.player2Name.Some? && res.player2Name.value != ""
  }

  predicate Consistent(r: Room) {
    && (r.state == Completed ==> r.result.Some?)
    && (r.state == ChallengeSet ==> r.challenge.Some? && r.player1.numberHash.Some?)
    && (r.player1.salt.Some? <==> r.player1.number.Some?)
    && (r.result.Some? ==> ResultAgrees(r))
  }

  lemma NewRoomConsistent(socketId: SocketId, sessionId: string, now: int)
    ensures Consistent(NewRoom(socketId, sessionId, now))
  {
  }

  lemma RejoinKeepsConsistent(room: Room, socketId: SocketId, sessionId: string)
    requires Consistent(room)
    ensures Consistent(Rejoin(room, socketId, sessionId).room)
  {
  }

  lemma JoinKeepsConsistent(room: Room, code: string, socketId: SocketId, sessionId: string)
    requires Consistent(room)
    ensures Consistent(Join(room, code, socketId, sessionId).room)
  {
  }

  lemma SetNameKeepsConsistent(room: Room, role: Option<Role>, name: string)
    requires Consistent(room)
    ensures Consistent(SetName(room, role, name).room)
  {
  }

  lemma SubmitChallengeKeepsConsistent(room: Room, role: Option<Role>, challenge: string, maxNumber: int,
                                       numberHash: string)
    requires Consistent(room)
    ensures Consistent(SubmitChallenge(room, role, challenge, maxNumber, numberHash).room)
  {
  }

  lemma SubmitGuessKeepsConsistent(room: Room, role: Option<Role>, number: int)
    requires Consistent(room)
    ensures Consistent(SubmitGuess(room, role, number).room)
  {
  }

  lemma RevealKeepsConsistent(room: Room, code: string, role: Option<Role>, number: int, salt: string)
    requires Consistent(room)
    ensures Consistent(Reveal(room, code, role, number, salt).room)
  {
  }

  lemma DisconnectKeepsConsistent(room: Room, role: Option<Role>)
    requires Consistent(room)
    ensures Consistent(Disconnect(room, role).room)
  {
  }
}
