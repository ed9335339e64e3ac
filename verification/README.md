# one-to-ten: a Dafny model of the room session protocol

one-to-ten is a two-player guessing game played over Socket.IO. Player 1
creates a room and commits to a secret number with a salted SHA-256 hash.
Player 2 joins by code and guesses. Player 1 then reveals the number and the
salt. Every viewer recomputes the hash to check that player 1 did not
change the number. Spectators may watch.

This project models the core of that protocol as pure Dafny functions:

- **The per-room state machine** of the TypeScript server (`src/index.ts`).
  Each socket handler is a transition
  `(room, caller's role, input) -> (room', reply, pushes, effects)`.
  Pushes are the events sent to other sockets. Effects are the history
  write and the delayed deletion.
- **The server around it.** This is the room registry, a JavaScript `Map`,
  kept together with its insertion order. It also covers the socket's own
  fields, the dispatch of inbound events, the hourly sweep of stale rooms
  and the `/api/rooms` listing.
- **The older JavaScript server** (`server/index.js`). Its handlers are
  written out separately and compared with the TypeScript ones. Its sweep
  (server/index.js:340-349) is the same as the TypeScript sweep, so
  `Registry.Sweep` stands for both.
- **The browser client's logic** (`public/app.js`). This covers the salt
  and commitment codec (hex, decimal, UTF-8), the gating of player 1's form,
  the number picker, the start-up routing between joining and rejoining,
  and the check of a revealed result.

Random values, tokens, room codes, the clock and SHA-256 are parameters.
SHA-256 is an arbitrary function `seq<byte> -> seq<byte>`. Where a property
needs it, it is assumed collision-free or 32 bytes long.

Modules:

| module | file |
|---|---|
| `Common` | common.dfy |
| `Text` | text.dfy |
| `Hex` | hex.dfy |
| `Decimal` | decimal.dfy |
| `Utf8` | utf8.dfy |
| `Commitment` | commitment.dfy |
| `Room` | room.dfy |
| `RoomMachine` | machine.dfy |
| `RoomInvariant` | invariant.dfy |
| `Registry` | registry.dfy |
| `Server` | server.dfy |
| `Legacy` | legacy.dfy |
| `Client` | client.dfy |
| `Game` | game.dfy |

The model follows the code where the code is looser than the protocol's
description:

- `submit-challenge` does not look at the room's state. It can move a
  completed room back to `challenge_set`, and the old result stays.
- `submit-guess` may be repeated and has no range check.
- `reveal-number` needs player 2 to be present but does not need a guess.
- `create-room` overwrites any room registered under the same code.

The room invariant proved (`RoomInvariant.Consistent`) is therefore the one
the code keeps:

- a completed room has a result;
- a room in `challenge_set` has a challenge and a hash;
- the salt is set exactly when the number is;
- a stored result agrees with the reveal that produced it.

It is not the stricter forward-only protocol.

## Model

| member | source | states |
|---|---|---|
| Text.ToUpper | src/index.ts:139 | `toUpperCase` on room codes: same length, each ASCII letter upper-cased, every other character kept |
| Text.ToUpperIdempotent | src/index.ts:109-140 | a code upper-cased at creation is left unchanged by the upper-casing done on lookup |
| Text.TrimNonEmptyIff | public/app.js:162-165 | `trim().length > 0` holds exactly when the input has a character outside ECMAScript's whitespace set |
| Registry.LookupIgnoresCase | src/index.ts:139-140 | two codes that differ only in letter case find the same room |
| Hex.ByteHexDigits | public/app.js:116 | `toString(16).padStart(2, '0')` gives exactly two hex digits, high nibble first, with a leading zero below 16 |
| Hex.DecodeEncode | public/app.js:113-117 | the hex text of a byte string decodes back to those bytes |
| Hex.EncodeIsLowerHex | public/app.js:125 | the digest's hex text uses only `0-9a-f` |
| Hex.EncodeInjective | public/app.js:124-125 | different digests give different hex strings |
| Decimal.ParseToDecimal | public/app.js:120 | the decimal text of an integer in the commitment message parses back to that integer |
| Decimal.ToDecimalHasNoColon | public/app.js:120 | the number's text is non-empty and has no `:`, so the colon in the message separates the number from the salt |
| Utf8.DecodeEncode | public/app.js:121-122 | `TextEncoder` output decodes back to the message, so the hashed bytes determine the message |
| Utf8.EncodeInjective | public/app.js:121-122 | different messages give different UTF-8 bytes |
| Utf8.EncodeAscii | public/app.js:120-122 | an ASCII message is encoded one byte per character, unchanged |
| Commitment.GenerateSalt | public/app.js:113-117 | the salt has 32 lower-case hex characters and decodes back to the 16 random bytes |
| Commitment.SplitMessageRoundTrip | public/app.js:120 | the message `${number}:${salt}` splits back into the same number and salt |
| Commitment.MessageInjective | public/app.js:120 | two commitment messages are equal only for the same number and salt |
| Commitment.HashCommitment | public/app.js:119-126 | the commitment is the lower-case hex of the digest, twice as long as the digest |
| Commitment.Sha256CommitmentLength | public/app.js:123-125 | with a 32-byte digest the commitment has 64 characters |
| Commitment.VerifyAcceptsOwnCommitment | public/app.js:128-131 | recomputing a commitment from its own number and salt verifies |
| Commitment.CommitmentBinding | public/app.js:119-126 | with a collision-free digest, equal commitments come from the same number and salt |
| Commitment.VerifyRejectsOtherNumber | public/app.js:128-131 | with a collision-free digest, no salt makes a different number verify against a commitment |
| Room.NewRoom | src/index.ts:112-128 | a created room is `waiting`, has maximum 10, no player 2, no spectators, challenge or result, and player 1 holds only the caller's socket and token |
| RoomMachine.DefaultName | src/index.ts:360-361 | JavaScript's name-or-fallback: a present non-empty name is kept; a missing or empty one gives the fallback |
| RoomMachine.Rejoin | src/index.ts:147-189 | player 1's token is tried first, then player 2's. A match rebinds only that player's socket and reports state, challenge, maximum, result and the other name. Any other token is refused with `Invalid session` and nothing changes |
| RoomMachine.Join | src/index.ts:202-266 | a present player 2 makes the caller a spectator, appended last. A completed room without player 2 does the same. Otherwise the caller becomes player 2 with the fresh token, and the reply carries the code, challenge, maximum and player 1's name, with `hasChallenge` holding exactly in `challenge_set`. Player 1 is told |
| RoomMachine.SetName | src/index.ts:278-286 | player 1 or a present player 2 records the name, and player 2's name is pushed to player 1. Any other caller changes nothing. The reply is always success |
| RoomMachine.SubmitChallenge | src/index.ts:291-317 | only player 1. A missing challenge or hash is refused with no change. Otherwise the room goes to `challenge_set` with the challenge, maximum and hash, whatever its state was, and a present player 2 is sent the challenge |
| RoomMachine.SubmitGuess | src/index.ts:324-337 | only a present player 2. The guess replaces any earlier one, nothing else changes, and player 1 is told |
| RoomMachine.ResultPushes | src/index.ts:389-392 | the result goes to player 2 first, then to each spectator in join order |
| RoomMachine.Reveal | src/index.ts:345-402 | only player 1 with player 2 present. The room completes, and one result is stored, returned and pushed. `matched` holds exactly when the guess equals the revealed number. Names are defaulted. The history row and a 5-minute deletion of the code follow |
| RoomMachine.Disconnect | src/index.ts:406-416 | the room is unchanged, and only the other player, when there is one, is told |
| RoomInvariant.NewRoomConsistent | src/index.ts:112-128 | a created room satisfies the room invariant |
| RoomInvariant.RejoinKeepsConsistent | src/index.ts:147-189 | rejoining keeps the room invariant |
| RoomInvariant.JoinKeepsConsistent | src/index.ts:202-266 | joining keeps the room invariant |
| RoomInvariant.SetNameKeepsConsistent | src/index.ts:278-286 | naming keeps the room invariant |
| RoomInvariant.SubmitChallengeKeepsConsistent | src/index.ts:291-317 | setting the challenge keeps the room invariant, also when it reopens a completed room |
| RoomInvariant.SubmitGuessKeepsConsistent | src/index.ts:324-337 | guessing keeps the room invariant, also after the reveal |
| RoomInvariant.RevealKeepsConsistent | src/index.ts:345-385 | revealing keeps the room invariant: a completed room always has a result that agrees with the number, salt, match and names |
| RoomInvariant.DisconnectKeepsConsistent | src/index.ts:406-416 | disconnecting keeps the room invariant |
| Registry.Get | src/index.ts:140 | `rooms.get` finds a room exactly when its code is registered |
| Registry.Set | src/index.ts:112 | `rooms.set` replaces an entry in place, or appends a new code at the end of the iteration order, and keeps the registry well formed |
| Registry.Delete | src/index.ts:400 | `rooms.delete` removes exactly that code from the map and the order, and keeps the registry well formed |
| Registry.SweptKeepsExactlyFresh | src/index.ts:421-430 | the sweep keeps exactly the rooms at most an hour old, each unchanged, and keeps the registry well formed |
| Registry.SweepIdempotent | src/index.ts:421-430 | a second sweep at the same time removes nothing more |
| Registry.RoomExpiresAfterAnHour | src/index.ts:425 | a room is swept exactly when it is more than 60·60·1000 ms old |
| Registry.Sweep | src/index.ts:421-430 | walking the rooms in insertion order and deleting each stale one gives the swept registry |
| Registry.Candidates | src/index.ts:85-95 | each collected row is a joinable registered room, summarised as registered |
| Registry.CandidatesOnce | src/index.ts:85-95 | with a duplicate-free order, each joinable room is collected exactly once, and no other room is |
| Registry.SortNewestFirst | src/index.ts:98 | sorting yields a newest-first permutation of the rows |
| Registry.ListJoinableExact | src/index.ts:83-99 | `/api/rooms` lists each room in `challenge_set` without player 2 exactly once, newest first, and nothing else |
| Server.CurrentCode | src/index.ts:272 | a handler acts on a room only when the socket's code is truthy and registered |
| Server.OnCreateRoom | src/index.ts:109-135 | the upper-cased code is bound to a fresh room, replacing any room there, and the socket becomes that room's player 1 with the new token |
| Server.OnRejoinRoom | src/index.ts:138-190 | an unknown code is refused with nothing changed. Otherwise the room's rejoin applies, and on success the socket takes the matched role and token |
| Server.OnJoinRoom | src/index.ts:193-268 | an unknown code is refused with nothing changed. Otherwise the room's join applies. A new player 2 gets the fresh token, and a spectator keeps its own |
| Server.OnSetName | src/index.ts:271-287 | without a current room the reply is `Room not found`; otherwise the room's set-name is written back |
| Server.OnSubmitChallenge | src/index.ts:290-320 | without a current room the reply is `Invalid operation`; otherwise the room's submit-challenge is written back |
| Server.OnSubmitGuess | src/index.ts:323-340 | without a current room the reply is `Invalid operation`; otherwise the room's submit-guess is written back |
| Server.OnRevealNumber | src/index.ts:343-403 | without a current room the reply is `Invalid operation`; otherwise the room's reveal is written back under the socket's code |
| Server.OnDisconnect | src/index.ts:406-417 | the registry and socket are unchanged, and only the room's disconnect pushes go out |
| Server.FireDeleteLater | src/index.ts:397-402 | when the reveal's timer fires, the captured code is deleted if it is truthy, whatever room is there by then |
| Server.HandleKeepsGood | src/index.ts:108-418 | every socket event keeps the registry well formed and every room in it consistent |
| Server.SweepKeepsGood | src/index.ts:421-430 | the sweep keeps the registry well formed and every room consistent |
| Server.FireDeleteLaterKeepsGood | src/index.ts:397-402 | the delayed deletion keeps the registry well formed and every room consistent |
| Legacy.CreatedRoom | server/index.js:32-58 | the JavaScript server creates the same fresh room |
| Legacy.Rejoin | server/index.js:61-113 | player 1's token is tried first, then player 2's, and a match rebinds only that player's socket. Any other token is refused with `Invalid session` and nothing changed |
| Legacy.Join | server/index.js:116-191 | with player 2 present, or in a completed room, the caller is appended as a spectator, nobody is told, and only the first case reports the players. Otherwise the caller becomes player 2 with no name or number, and the reply carries the code, token, challenge, maximum and player 1's name, with `hasChallenge` holding exactly in `challenge_set`. Player 1 is told |
| Legacy.SetName | server/index.js:194-210 | a player-2 socket whose room has no player 2 throws |
| Legacy.SubmitChallenge | server/index.js:212-243 | only player 1. An empty challenge or hash is refused with no change. Otherwise the room goes to `challenge_set` with the challenge, maximum and hash, whatever its state was, and a present player 2 is sent the challenge |
| Legacy.SubmitGuess | server/index.js:246-263 | a player-2 socket whose room has no player 2 throws; any other role is refused |
| Legacy.Reveal | server/index.js:266-322 | without player 2, the handler throws after the room was marked completed with the number and salt. With player 2, player 1's number and salt are stored, nothing else but the state and result changes, the result and the history row carry the raw names, `matched` holds exactly when the guess equals the number, and the deletion timer names no code |
| Legacy.Disconnect | server/index.js:325-336 | the room is unchanged, and only the other player, when there is one, is told |
| Legacy.FireDeleteSocketRoom | server/index.js:319-321 | the JavaScript timer deletes the room the socket is in when it fires, or nothing if it is in none |
| Legacy.LateDeleteRemovesNewRoom | server/index.js:319-321 | after a reveal, a new room created from the same socket before the timer fires is deleted by it, and the finished room stays; the TypeScript timer deletes the finished room and keeps the new one |
| Legacy.AgreesWithTypeScript | server/index.js:32-191 | create, rejoin and join behave exactly as in the TypeScript server |
| Legacy.SubmitChallengeAgrees | server/index.js:212-243 | submit-challenge behaves exactly as in the TypeScript server |
| Legacy.DisconnectAgrees | server/index.js:325-336 | disconnect behaves exactly as in the TypeScript server |
| Legacy.GuardedHandlersAgree | server/index.js:194-263 | when player 2 is present, or the caller is not player 2, set-name and submit-guess agree with the TypeScript server |
| Legacy.RevealAgreesWhenNamed | server/index.js:266-317 | when both players have non-empty names, the JavaScript reveal stores, returns and pushes the same result as the TypeScript one |
| Legacy.RevealKeepsNullNames | server/index.js:295-304 | an unnamed player 1 stays null in the JavaScript result, where the TypeScript result says "Player 1" |
| Legacy.RevealWithoutPlayer2LeavesNoResult | server/index.js:266-277 | revealing in a fresh room throws, and the room as left at the throw is completed with no result, which breaks the room invariant. The TypeScript handler refuses and changes nothing |
| Client.SubmitEnabledIff | public/app.js:162-167 | the submit button is enabled exactly when the name and the challenge each contain a non-whitespace character and a number is picked |
| Client.SubmitChallenge | public/app.js:310-341 | nothing is sent exactly when the form is not valid. Otherwise the trimmed, non-empty name and challenge are sent, with a 32-digit hex salt and a hash that verifies against the picked number |
| Client.NumberPicker | public/app.js:146-158 | the picker offers `1, 2, …, maxNumber` in order, and nothing when the maximum is below 1 |
| Client.NumberPickerRange | public/app.js:146-158 | the picker offers exactly the values from 1 to the maximum, strictly ascending |
| Client.AfterRejoinFailed | public/app.js:285-289 | after a refused rejoin the client joins the URL's room exactly when the URL names one, and otherwise shows the landing view |
| Client.InitRouteChoice | public/app.js:591-612 | start-up joins the URL's room when it names a room other than the saved one, or when nothing is saved. It rejoins when a session is saved and the URL names no other room. Otherwise it stays on the landing view |
| Client.UrlRoomIsReached | public/app.js:170-177 | a room named in the URL is joined directly, or it is the saved room and a failed rejoin falls back to joining it |
| Client.ResultVerified | public/app.js:384-386 | the result view shows "verified" exactly when the recomputed commitment equals the result's hash, and it gives no verdict without a hash |
| Game.ClientCommitmentIsStored | public/app.js:310-334 | what player 1's browser sends is accepted, and the room then holds a commitment to the picked number |
| Game.HonestRevealVerifies | src/index.ts:373-388 | an honest reveal is shown to player 2 as verified |
| Game.CheatingIsDetected | public/app.js:384-388 | with a collision-free digest, revealing a number other than the committed one, with any salt, is shown as failing verification |
| Game.LuckyNumberGame | src/index.ts:290-403 | the walkthrough game ("Pick your lucky number", 1 to 5, committed 3, guessed 3) ends matched and verified, and saves a history row with 3, 3 and a match |

## Left out

- Socket.IO transport, rooms-as-broadcast-groups, HTTP routing and logging. Replies, pushes and effects are returned as data.
- The history database (`src/db.ts`, `server/db.js`) and `/api/history`. A reveal emits a `SaveGame` effect; a failing save is caught in the source and changes nothing else.
- Timers. The 5-minute deletion after a reveal is an effect, and firing it is a separate function. The minute-by-minute sweep is a function of the current time. Interleavings of timers with events are not modelled in general; the one that matters for the JavaScript timer is composed by hand in Legacy.LateDeleteRemovesNewRoom.
- `nanoid` codes and tokens, `crypto.getRandomValues` and `Date.now()` are inputs. Collisions between generated codes are not excluded: creation then overwrites, as the source does.
- SHA-256 is a parameter. Properties that need a real hash assume a collision-free or a 32-byte digest.
- Text.ToUpper: upper-cases ASCII letters only. JavaScript's full Unicode case mapping is not modelled. Created codes are ASCII, so creation is exact, but `join-room` and `rejoin-room` also upper-case codes typed by the user or taken from the URL. There the full mapping can turn other characters into ASCII letters (`ß` to `SS`, `ı` to `I`, `ſ` to `S`), so a typed `abßcd` finds the room `ABSSCD` in JavaScript while the model reports `Room not found`.
- Registry.LookupIgnoresCase: holds for the ASCII mapping only; codes that reach the same room through the full Unicode mapping are not covered.
- Client.UrlRoomIsReached: compares the saved code with the URL code under the ASCII mapping only; a URL code with non-ASCII characters that JavaScript upper-cases to the saved code is not covered.
- Legacy.Reveal: a `Threw` outcome stops at the thrown TypeError and gives the room as the assignments before it left it. Nothing in server/index.js catches an exception from a socket listener, and what the runtime then does (by Node's default, ending the process and losing every room) is not modelled.
- Legacy.SetName, Legacy.SubmitGuess: the same holds for their `Threw` outcomes.
- Decimal.ParseToDecimal: covers integers. JavaScript number formatting of fractions, of magnitudes of 1e21 or more (exponent form) and of `-0` is not modelled. Numbers are Dafny integers with no range check, like the server.
- Utf8.DecodeEncode: strings are sequences of Unicode scalar values. Lone surrogates, which `TextEncoder` replaces with U+FFFD, cannot occur.
- Registry.SortNewestFirst: proves newest-first order and permutation. That rows with equal `createdAt` keep their insertion order (the engine's sort is stable, and so is the model's insertion) is not stated as a lemma.
- The DOM side of the client: views, labels, `localStorage` parsing, `parseInt(...) || 10` for the maximum, the join form, history and room-list rendering, and the number-picker click handlers. `SavedSession` keeps only the code and token that routing reads.
- The rejoin reply's opponent name flattens `undefined` (no player 2) and `null` (unnamed player 2) into one "absent" value.
- The typed payload shapes of the socket events. A payload missing a field, which JavaScript would read as `undefined`, is not modelled.

## Findings

| source | as written | input that shows it | evidently intended | confidence | as-written member | corrected member |
|---|---|---|---|---|---|---|
| server/index.js:266-277 | `reveal-number` assigns the number, the salt and `completed` before reading `room.player2.number`, which throws an uncaught TypeError when no one has joined; the room as left at the throw is completed with no result, and nothing in the file catches the error | player 1 sends `reveal-number` in a room where player 2 never joined | refuse the reveal without changing the room, as src/index.ts:345 does, so that a completed room always has a result | not executed | Legacy.RevealWithoutPlayer2LeavesNoResult | RoomInvariant.RevealKeepsConsistent |
| server/index.js:319-321 | the deletion timer set by `reveal-number` reads `socket.roomCode` when it fires, five minutes later | player 1 reveals in room A, clicks "Play again" and creates room B on the same connection within five minutes; the timer deletes B and A stays | delete the room that was revealed, as src/index.ts:397-401 does by capturing the code first | not executed | Legacy.LateDeleteRemovesNewRoom | Server.FireDeleteLater |
