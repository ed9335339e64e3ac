/** The decision logic of the browser client (public/app.js): gating of
    player 1's form, building the commitment it sends, the number picker and
    the start-up choice between joining and rejoining. The DOM, storage and
    sockets are left to the caller. */
module Client {
  import opened Common
  import opened Text
  import Hex
  import Commitment
  import Room

  /** `validateP1Form`: the submit button is enabled. */
  function SubmitEnabled(nameInput: string, challengeInput: string, selected: Option<int>): bool {
    |Trim(nameInput)| > 0 && |Trim(challengeInput)| > 0 && selected.Some?
  }

  predicate HasVisibleChar(s: string) {
    exists i :: 0 <= i < |s| && !IsJsSpace(s[i])
  }

  /** The button is enabled exactly when the name and the challenge each
      have a non-whitespace character and a number is picked. */
  lemma SubmitEnabledIff(nameInput: string, challengeInput: string, selected: Option<int>)
    ensures SubmitEnabled(nameInput, challengeInput, selected)
            <==> HasVisibleChar(nameInput) && HasVisibleChar(challengeInput) && selected.Some?
  {
    TrimNonEmptyIff(nameInput);
    TrimNonEmptyIff(challengeInput);
  }

  /** What `submitChallenge` sends: nothing, or `set-name` followed by
      `submit-challenge` with a fresh commitment. */
  datatype ChallengeRequest =
    | Blocked
    | Send(name: string, challenge: string, maxNumber: int, salt: string, numberHash: string)

  /** `submitChallenge`, given the 16 random salt bytes and SHA-256. */
  function SubmitChallenge(digest: Commitment.Digest, nameInput: string, challengeInput: string,
                           maxNumber: int, selected: Option<int>, random: seq<Hex.byte>): (r: ChallengeRequest)
    requires |random| == 16
    ensures r.Blocked? <==> !SubmitEnabled(nameInput, challengeInput, selected)
    ensures r.Send? ==>
              && r.name == Trim(nameInput) && r.name != ""
              && r.challenge == Trim(challengeInput) && r.challenge != ""
              && r.maxNumber == maxNumber
              && |r.salt| == 32 && Hex.IsLowerHex(r.salt)
              && Commitment.VerifyCommitment(digest, selected.value, r.salt, r.numberHash)
  {
    var name := Trim(nameInput);
    var challenge := Trim(challengeInput);
    if name == "" || challenge == "" || selected.None? then Blocked
    else
      var salt := Commitment.GenerateSalt(random);
      Send(name, challenge, maxNumber, salt, Commitment.HashCommitment(digest, selected.value, salt))
  }

  /** `createNumberPicker`: one button per value of `for (i = 1; i <= maxNumber; i++)`. */
  method NumberPicker(maxNumber: int) returns (options: seq<int>)
    ensures |options| == if maxNumber < 1 then 0 else maxNumber
    ensures forall k :: 0 <= k < |options| ==> options[k] == k + 1
  {
    options := [];
    var i := 1;
    while i <= maxNumber
      invariant 1 <= i <= if maxNumber < 1 then 1 else maxNumber + 1
      invariant |options| == i - 1
      invariant forall k :: 0 <= k < |options| ==> options[k] == k + 1
    {
      options := options + [i];
      i := i + 1;
    }
  }

  /** The picker offers the values from 1 to `maxNumber`, ascending, each once. */
  method NumberPickerRange(maxNumber: int) returns (options: seq<int>)
    ensures forall v :: v in options <==> 1 <= v <= maxNumber
    ensures forall a, b :: 0 <= a < b < |options| ==> options[a] < options[b]
  {
    options := NumberPicker(maxNumber);
    forall v | 1 <= v <= maxNumber
      ensures v in options
    {
      assert options[v - 1] == v;
    }
  }

  /** The part of the saved local-storage session that routing reads. */
  datatype SavedSession = SavedSession(roomCode: string, sessionId: string)

  /** Where the client goes at start-up. */
  datatype Route = JoinUrlRoom(code: string) | RejoinSaved(session: SavedSession) | Landing

  /** A `?room=` parameter that JavaScript treats as true: present and non-empty. */
  predicate Truthy(url: Option<string>) {
    url.Some? && url.value != ""
  }

  /** `init`. */
  function InitRoute(url: Option<string>, saved: Option<SavedSession>): Route {
    if Truthy(url) && (saved.None? || saved.value.roomCode != ToUpper(url.value)) then JoinUrlRoom(url.value)
    else if saved.Some? then RejoinSaved(saved.value)
    else if Truthy(url) then JoinUrlRoom(url.value)
    else Landing
  }

  /** `rejoinRoom`'s failure path: clear the session, then `checkUrlForRoom`. */
  function AfterRejoinFailed(url: Option<string>): (r: Route)
    ensures r.JoinUrlRoom? <==> Truthy(url)
    ensures r.JoinUrlRoom? ==> r.code == url.value
    ensures !r.JoinUrlRoom? ==> r == Landing
  {
    if Truthy(url) then JoinUrlRoom(url.value) else Landing
  }

  /** Start-up joins the URL room when it names a room other than the saved
      one (or nothing is saved), rejoins when a session is saved and the URL
      names no other room, and otherwise stays on the landing view. The third
      `if (urlRoomCode)` of `init` is never the one that decides. */
  lemma InitRouteChoice(url: Option<string>, saved: Option<SavedSession>)
    ensures InitRoute(url, saved).JoinUrlRoom? <==>
              Truthy(url) && (saved.None? || saved.value.roomCode != ToUpper(url.value))
    ensures InitRoute(url, saved).RejoinSaved? <==>
              saved.Some? && (!Truthy(url) || saved.value.roomCode == ToUpper(url.value))
    ensures InitRoute(url, saved) == Landing <==> !Truthy(url) && saved.None?
    ensures InitRoute(url, saved).RejoinSaved? ==> InitRoute(url, saved).session == saved.value
    ensures InitRoute(url, saved).JoinUrlRoom? ==> InitRoute(url, saved).code == url.value
  {
  }

  /** A URL room is never lost: the client joins it directly, or it is the
      saved room and a failed rejoin falls back to joining it. */
  lemma UrlRoomIsReached(url: Option<string>, saved: Option<SavedSession>)
    requires Truthy(url)
    ensures || InitRoute(url, saved) == JoinUrlRoom(url.value)
            || (&& InitRoute(url, saved).RejoinSaved?
                && InitRoute(url, saved).session.roomCode == ToUpper(url.value)
                && AfterRejoinFailed(url) == JoinUrlRoom(url.value))
  {
  }

  /** `showResult`'s check of the revealed result against the commitment
      player 2 saw. A result without a hash makes `showResult` throw before
      any verdict is shown. */
  function ResultVerified(digest: Commitment.Digest, result: Room.GameResult): (v: Option<bool>)
    ensures v.None? <==> result.numberHash.None?
    ensures v == Some(true) <==>
              result.numberHash.Some?
              && Commitment.HashCommitment(digest, result.player1Number, result.salt) == result.numberHash.value
  {
    match result.numberHash
    case None => None
    case Some(h) => Some(Commitment.VerifyCommitment(digest, result.player1Number, result.salt, h))
  }
}
