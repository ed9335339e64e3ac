/** The whole protocol across its three parties: the browser of player 1
    builds the commitment, the server stores and later releases it, and the
    browser of player 2 checks the reveal against it. */
module Game {
  import opened Common
  import opened Room
  import opened RoomMachine
  import Commitment
  import Client
  import Hex

  /** A room whose stored hash is player 1's commitment to `number` with `salt`. */
  predicate CommittedTo(digest: Commitment.Digest, room: Room, number: int, salt: string) {
    room.player1.numberHash == Some(Commitment.HashCommitment(digest, number, salt))
  }

  /** What player 1's browser sends is accepted by the server, and the room
      then holds a commitment to the picked number. */
  lemma ClientCommitmentIsStored(digest: Commitment.Digest, room: Room, nameInput: string, challengeInput: string,
                                 maxNumber: int, selected: Option<int>, random: seq<Hex.byte>)
    requires forall m :: |digest(m)| == 32
    requires |random| == 16
    requires Client.SubmitEnabled(nameInput, challengeInput, selected)
    ensures var req := Client.SubmitChallenge(digest, nameInput, challengeInput, maxNumber, selected, random);
            && req.Send?
            && var s := SubmitChallenge(room, Some(P1), req.challenge, req.maxNumber, req.numberHash);
            && s.reply == Ok && s.room.state == ChallengeSet
            && CommittedTo(digest, s.room, selected.value, req.salt)
  {
    var req := Client.SubmitChallenge(digest, nameInput, challengeInput, maxNumber, selected, random);
    Commitment.Sha256CommitmentLength(digest, selected.value, req.salt);
  }

  /** An honest reveal is shown to player 2 as verified. */
  lemma HonestRevealVerifies(digest: Commitment.Digest, room: Room, code: string, number: int, salt: string)
    requires CommittedTo(digest, room, number, salt) && room.player2.Some?
    ensures var s := Reveal(room, code, Some(P1), number, salt);
            s.reply.Revealed? && Client.ResultVerified(digest, s.reply.snapshot) == Some(true)
  {
    Commitment.VerifyAcceptsOwnCommitment(digest, number, salt);
  }

  /** A player 1 who reveals a number other than the committed one, with any
      salt, is shown to player 2 as failing verification, provided the
      digest has no collisions. */
  lemma CheatingIsDetected(digest: Commitment.Digest, room: Room, code: string, committed: int,
                           committedSalt: string, number: int, salt: string)
    requires Commitment.CollisionFree(digest)
    requires CommittedTo(digest, room, committed, committedSalt) && room.player2.Some?
    requires number != committed
    ensures var s := Reveal(room, code, Some(P1), number, salt);
            s.reply.Revealed? && Client.ResultVerified(digest, s.reply.snapshot) == Some(false)
  {
    Commitment.VerifyRejectsOtherNumber(digest, committed, committedSalt, number, salt);
  }

  /** The game of the protocol's own walkthrough: player 1 sets "Pick your
      lucky number" over 1..5 committing to 3, player 2 joins and guesses 3,
      player 1 reveals 3; the result matches, verifies, and the saved row
      records 3, 3 and a match. */
  lemma LuckyNumberGame(digest: Commitment.Digest, salt: string, now: int)
    requires forall m :: |digest(m)| == 32
    ensures var code := "ABC123";
            var challenge := "Pick your lucky number";
            var hash := Commitment.HashCommitment(digest, 3, salt);
            var r0 := NewRoom("p1-socket", "p1-session", now);
            var c := SubmitChallenge(r0, Some(P1), challenge, 5, hash);
            var j := Join(c.room, code, "p2-socket", "p2-session");
            var g := SubmitGuess(j.room, Some(P2), 3);
            var v := Reveal(g.room, code, Some(P1), 3, salt);
            && c.reply == Ok && c.pushes == []
            && j.reply == JoinedAsPlayer2(code, "p2-session", true, Some(challenge), 5, None)
            && g.reply == Ok && g.pushes == [Push("p1-socket", GuessSubmitted(None))]
            && v.reply == Revealed(GameResult(3, Some(3), salt, Some(hash), true, Some(challenge),
                                              Some("Player 1"), Some("Player 2")))
            && v.effects == [SaveGame(GameData(code, Some("Player 1"), Some("Player 2"), Some(challenge),
                                               5, 3, Some(3), true)),
                             DeleteLater(code, RevealRetentionMs)]
            && Client.ResultVerified(digest, v.reply.snapshot) == Some(true)
  {
    Commitment.Sha256CommitmentLength(digest, 3, salt);
  }
}
