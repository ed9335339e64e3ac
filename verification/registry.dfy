/** The process-wide room registry: a JavaScript `Map<string, Room>`, kept
    here with its insertion order (the order `rooms.entries()` visits), the
    hourly stale-room sweep and the `/api/rooms` listing. */
module Registry {
  import opened Common
  import opened Room
  import Text

  datatype Registry = Registry(rooms: map<string, Room>, order: seq<string>)

  predicate NoDup(s: seq<string>) {
    forall i, j :: 0 <= i < j < |s| ==> s[i] != s[j]
  }

  /** `order` lists every key of `rooms` exactly once. */
  ghost predicate Valid(reg: Registry) {
    && NoDup(reg.order)
    && (forall c :: c in reg.rooms <==> c in reg.order)
  }

  const Empty := Registry(map[], [])

  lemma EmptyValid()
    ensures Valid(Empty)
  {
  }

  /** `rooms.get(code)`. */
  function Get(reg: Registry, code: string): (r: Option<Room>)
    ensures r.Some? <==> code in reg.rooms
    ensures r.Some? ==> r.value == reg.rooms[code]
  {
    if code in reg.rooms then Some(reg.rooms[code]) else None
  }

  /** A lookup by a code the user typed: `rooms.get(code.toUpperCase())`. */
  function Lookup(reg: Registry, userCode: string): Option<Room> {
    Get(reg, Text.ToUpper(userCode))
  }

  /** Codes that differ only in letter case find the same room. */
  lemma LookupIgnoresCase(reg: Registry, a: string, b: string)
    requires Text.ToUpper(a) == Text.ToUpper(b)
    ensures Lookup(reg, a) == Lookup(reg, b)
  {
  }

  /** `s` without any occurrence of `c`. */
  function RemoveAll(s: seq<string>, c: string): (r: seq<string>)
    ensures forall x :: x in r <==> x in s && x != c
  {
    if |s| == 0 then []
    else if s[0] == c then RemoveAll(s[1..], c)
    else [s[0]] + RemoveAll(s[1..], c)
  }

  lemma NoDupCons(x: string, t: seq<string>)
    ensures NoDup([x] + t) <==> x !in t && NoDup(t)
  {
    if x !in t && NoDup(t) {
      var s := [x] + t;
      forall i, j | 0 <= i < j < |s|
        ensures s[i] != s[j]
      {
        if i > 0 {
          assert s[i] == t[i - 1] && s[j] == t[j - 1];
        } else {
          assert s[j] == t[j - 1];
        }
      }
    }
    if NoDup([x] + t) {
      var s := [x] + t;
      forall k | 0 <= k < |t|
        ensures t[k] != x
      {
        assert s[0] == x && s[k + 1] == t[k];
      }
      forall i, j | 0 <= i < j < |t|
        ensures t[i] != t[j]
      {
        assert s[i + 1] == t[i] && s[j + 1] == t[j];
      }
    }
  }

  lemma {:induction false} RemoveAllNoDup(s: seq<string>, c: string)
    ensures NoDup(s) ==> NoDup(RemoveAll(s, c))
  {
    if |s| > 0 && NoDup(s) {
      NoDupCons(s[0], s[1..]);
      assert [s[0]] + s[1..] == s;
      RemoveAllNoDup(s[1..], c);
      if s[0] != c {
        NoDupCons(s[0], RemoveAll(s[1..], c));
      }
    }
  }

  /** `rooms.set(code, room)`: replaces an existing entry in place (no
      collision check) or appends a new one at the end of the order. */
  function Set(reg: Registry, code: string, room: Room): (r: Registry)
    ensures r.rooms == reg.rooms[code := room]
    ensures code in reg.rooms ==> r.order == reg.order
    ensures code !in reg.rooms ==> r.order == reg.order + [code]
    ensures Valid(reg) ==> Valid(r)
  {
    if code in reg.rooms then Registry(reg.rooms[code := room], reg.order)
    else Registry(reg.rooms[code := room], reg.order + [code])
  }

  /** `rooms.delete(code)`. */
  function Delete(reg: Registry, code: string): (r: Registry)
    ensures r.rooms == reg.rooms - {code}
    ensures r.order == RemoveAll(reg.order, code)
    ensures Valid(reg) ==> Valid(r)
  {
    RemoveAllNoDup(reg.order, code);
    Registry(reg.rooms - {code}, RemoveAll(reg.order, code))
  }

  /** Age after which the sweep removes a room, in milliseconds. */
  const StaleAfterMs := 60 * 60 * 1000

  predicate IsStale(room: Room, now: int) {
    now - room.createdAt > StaleAfterMs
  }

  /** Codes of `order` whose room the sweep keeps. */
  function Survivors(order: seq<string>, rooms: map<string, Room>, now: int): (r: seq<string>)
    ensures forall x :: x in r <==> x in order && (x !in rooms || !IsStale(rooms[x], now))
  {
    if |order| == 0 then []
    else if order[0] in rooms && IsStale(rooms[order[0]], now) then Survivors(order[1..], rooms, now)
    else [order[0]] + Survivors(order[1..], rooms, now)
  }

  /** The registry after a sweep at time `now`, defined by what it keeps. */
  function Swept(reg: Registry, now: int): (r: Registry)
  {
    Registry(map c | c in reg.rooms && !IsStale(reg.rooms[c], now) :: reg.rooms[c],
             Survivors(reg.order, reg.rooms, now))
  }

  /** A sweep removes exactly the stale rooms, leaves every other room as it
      was, and keeps the registry well formed. */
  lemma SweptKeepsExactlyFresh(reg: Registry, now: int)
    ensures forall c :: c in Swept(reg, now).rooms <==> c in reg.rooms && !IsStale(reg.rooms[c], now)
    ensures forall c :: c in Swept(reg, now).rooms ==> Swept(reg, now).rooms[c] == reg.rooms[c]
    ensures Valid(reg) ==> Valid(Swept(reg, now))
  {
    if Valid(reg) {
      SurvivorsNoDup(reg.order, reg.rooms, now);
    }
  }

  lemma {:induction false} SurvivorsNoDup(order: seq<string>, rooms: map<string, Room>, now: int)
    requires NoDup(order)
    ensures NoDup(Survivors(order, rooms, now))
  {
    if |order| > 0 {
      NoDupCons(order[0], order[1..]);
      assert [order[0]] + order[1..] == order;
      SurvivorsNoDup(order[1..], rooms, now);
      if !(order[0] in rooms && IsStale(rooms[order[0]], now)) {
        NoDupCons(order[0], Survivors(order[1..], rooms, now));
      }
    }
  }

  /** Sweeping twice at the same time is sweeping once. */
  lemma SweepIdempotent(reg: Registry, now: int)
    ensures Swept(Swept(reg, now), now).rooms == Swept(reg, now).rooms
  {
  }

  /** A room never touched again is gone from any sweep more than an hour
      after its creation, and still present at any sweep up to an hour. */
  lemma RoomExpiresAfterAnHour(reg: Registry, code: string, now: int)
    requires code in reg.rooms
    ensures now > reg.rooms[code].createdAt + StaleAfterMs ==> code !in Swept(reg, now).rooms
    ensures now <= reg.rooms[code].createdAt + StaleAfterMs ==> code in Swept(reg, now).rooms
  {
  }

  lemma {:induction false} RemoveAllSplit(a: seq<string>, c: string, b: seq<string>)
    requires c !in a && c !in b
    ensures RemoveAll(a + [c] + b, c) == a + b
  {
    if |a| == 0 {
      assert (a + [c] + b)[1..] == b;
      RemoveAllAbsent(b, c);
    } else {
      assert (a + [c] + b)[1..] == a[1..] + [c] + b;
      RemoveAllSplit(a[1..], c, b);
      assert [a[0]] + (a[1..] + b) == a + b;
    }
  }

  lemma {:induction false} RemoveAllAbsent(s: seq<string>, c: string)
    requires c !in s
    ensures RemoveAll(s, c) == s
  {
    if |s| > 0 {
      RemoveAllAbsent(s[1..], c);
    }
  }

  lemma {:induction false} SurvivorsAppend(a: seq<string>, x: string, rooms: map<string, Room>, now: int)
    ensures Survivors(a + [x], rooms, now)
            == Survivors(a, rooms, now) + (if x in rooms && IsStale(rooms[x], now) then [] else [x])
  {
    if |a| == 0 {
      assert Survivors([x], rooms, now) == (if x in rooms && IsStale(rooms[x], now) then [] else [x]) + Survivors([], rooms, now);
    } else {
      assert (a + [x])[1..] == a[1..] + [x];
      SurvivorsAppend(a[1..], x, rooms, now);
    }
  }

  /** Codes in `s` whose room is stale at `now`. */
  ghost function StaleIn(s: seq<string>, rooms: map<string, Room>, now: int): set<string> {
    set c | c in s && c in rooms && IsStale(rooms[c], now)
  }

  /** The registry after the sweep loop has visited the first `i` codes. */
  ghost function SweptPrefix(reg: Registry, i: nat, now: int): Registry
    requires i <= |reg.order|
  {
    Registry(reg.rooms - StaleIn(reg.order[..i], reg.rooms, now),
             Survivors(reg.order[..i], reg.rooms, now) + reg.order[i..])
  }

  /** In a duplicate-free order, the code at `i` occurs neither before nor after `i`. */
  lemma NoDupAt(s: seq<string>, i: nat)
    requires NoDup(s) && i < |s|
    ensures s[i] !in s[..i] && s[i] !in s[i + 1..]
  {
    forall k | 0 <= k < i
      ensures s[..i][k] != s[i]
    {
      assert s[..i][k] == s[k];
    }
    var after := s[i + 1..];
    forall k | 0 <= k < |after|
      ensures after[k] != s[i]
    {
      assert after[k] == s[i + 1 + k];
    }
  }

  lemma StaleInAppend(a: seq<string>, x: string, rooms: map<string, Room>, now: int)
    ensures StaleIn(a + [x], rooms, now)
            == StaleIn(a, rooms, now) + (if x in rooms && IsStale(rooms[x], now) then {x} else {})
  {
  }

  /** Visiting the code at `i` deletes its room exactly when it is stale. */
  lemma SweepStepRooms(reg: Registry, i: nat, now: int)
    requires NoDup(reg.order) && i < |reg.order| && reg.order[i] in reg.rooms
    ensures reg.order[i] in SweptPrefix(reg, i, now).rooms
    ensures SweptPrefix(reg, i, now).rooms[reg.order[i]] == reg.rooms[reg.order[i]]
    ensures SweptPrefix(reg, i + 1, now).rooms
            == if IsStale(reg.rooms[reg.order[i]], now) then SweptPrefix(reg, i, now).rooms - {reg.order[i]}
               else SweptPrefix(reg, i, now).rooms
  {
    var code := reg.order[i];
    NoDupAt(reg.order, i);
    assert reg.order[..i + 1] == reg.order[..i] + [code];
    StaleInAppend(reg.order[..i], code, reg.rooms, now);
  }

  /** The same step on the order: the visited code is removed exactly when stale. */
  lemma SurvivorsStep(order: seq<string>, i: nat, rooms: map<string, Room>, now: int)
    requires NoDup(order) && i < |order| && order[i] in rooms
    ensures Survivors(order[..i + 1], rooms, now) + order[i + 1..]
            == if IsStale(rooms[order[i]], now) then RemoveAll(Survivors(order[..i], rooms, now) + order[i..], order[i])
               else Survivors(order[..i], rooms, now) + order[i..]
  {
    var code := order[i];
    var pre := Survivors(order[..i], rooms, now);
    var rest := order[i + 1..];
    assert order[..i + 1] == order[..i] + [code];
    SurvivorsAppend(order[..i], code, rooms, now);
    assert order[i..] == [code] + rest;
    assert pre + order[i..] == pre + [code] + rest;
    if IsStale(rooms[code], now) {
      NoDupAt(order, i);
      RemoveAllSplit(pre, code, rest);
    }
  }

  lemma SweepStepOrder(reg: Registry, i: nat, now: int)
    requires NoDup(reg.order) && i < |reg.order| && reg.order[i] in reg.rooms
    ensures SweptPrefix(reg, i + 1, now).order
            == if IsStale(reg.rooms[reg.order[i]], now) then RemoveAll(SweptPrefix(reg, i, now).order, reg.order[i])
               else SweptPrefix(reg, i, now).order
  {
    SurvivorsStep(reg.order, i, reg.rooms, now);
  }

  lemma SweptPrefixEnds(reg: Registry, now: int)
    requires Valid(reg)
    ensures SweptPrefix(reg, 0, now) == reg
    ensures SweptPrefix(reg, |reg.order|, now) == Swept(reg, now)
  {
    assert reg.order[..0] == [] && reg.order[0..] == reg.order;
    assert reg.order[..|reg.order|] == reg.order;
    assert reg.order[|reg.order|..] == [];
    assert Survivors(reg.order, reg.rooms, now) + [] == Survivors(reg.order, reg.rooms, now);
    assert SweptPrefix(reg, 0, now).rooms == reg.rooms;
    assert SweptPrefix(reg, |reg.order|, now).rooms == Swept(reg, now).rooms;
  }

  /** The timer callback: walks `rooms.entries()` in insertion order and
      deletes every room older than an hour, as the server does each minute. */
  method Sweep(reg: Registry, now: int) returns (r: Registry)
    requires Valid(reg)
    ensures r == Swept(reg, now)
  {
    SweptPrefixEnds(reg, now);
    r := reg;
    var i := 0;
    while i < |reg.order|
      invariant 0 <= i <= |reg.order|
      invariant r == SweptPrefix(reg, i, now)
    {
      var code := reg.order[i];
      SweepStepRooms(reg, i, now);
      SweepStepOrder(reg, i, now);
      if IsStale(r.rooms[code], now) {
        r := Delete(r, code);
      }
      i := i + 1;
    }
  }

  /** One row of the `/api/rooms` response. */
  datatype ActiveRoom = ActiveRoom(
    roomCode: string,
    player1Name: Option<string>,
    challenge: Option<string>,
    maxNumber: int,
    createdAt: int)

  /** A room is listed when its challenge is set and no player 2 joined. */
  predicate Joinable(room: Room) {
    room.state == ChallengeSet && room.player2.None?
  }

  function Summary(code: string, room: Room): ActiveRoom {
    ActiveRoom(code, room.player1.name, room.challenge, room.maxNumber, room.createdAt)
  }

  /** The joinable rooms in `rooms.entries()` order, before sorting. */
  function Candidates(order: seq<string>, rooms: map<string, Room>): (r: seq<ActiveRoom>)
    ensures forall i :: 0 <= i < |r| ==>
              && r[i].roomCode in order && r[i].roomCode in rooms && Joinable(rooms[r[i].roomCode])
              && r[i] == Summary(r[i].roomCode, rooms[r[i].roomCode])
  {
    if |order| == 0 then []
    else if order[0] in rooms && Joinable(rooms[order[0]]) then
      [Summary(order[0], rooms[order[0]])] + Candidates(order[1..], rooms)
    else Candidates(order[1..], rooms)
  }

  /** With a duplicate-free order, each joinable room is a candidate exactly once. */
  lemma {:induction false} CandidatesOnce(order: seq<string>, rooms: map<string, Room>, c: string)
    requires NoDup(order)
    ensures multiset(Candidates(order, rooms))[Summary(c, rooms[c])] ==
              if c in order && c in rooms && Joinable(rooms[c]) then 1 else 0
  {
    if c in rooms && |order| > 0 {
      NoDupCons(order[0], order[1..]);
      assert [order[0]] + order[1..] == order;
      CandidatesOnce(order[1..], rooms, c);
      var rest := Candidates(order[1..], rooms);
      var x := Summary(c, rooms[c]);
      assert c in order <==> c == order[0] || c in order[1..];
      if order[0] in rooms && Joinable(rooms[order[0]]) {
        assert multiset([Summary(order[0], rooms[order[0]])] + rest)
               == multiset{Summary(order[0], rooms[order[0]])} + multiset(rest);
      }
    }
  }

  predicate NewestFirst(s: seq<ActiveRoom>) {
    forall i, j :: 0 <= i < j < |s| ==> s[i].createdAt >= s[j].createdAt
  }

  /** Places `x` before the first element that is not newer than it, so that
      among equal timestamps the earlier element stays first. */
  function Insert(x: ActiveRoom, s: seq<ActiveRoom>): (r: seq<ActiveRoom>)
    requires NewestFirst(s)
    ensures NewestFirst(r)
    ensures multiset(r) == multiset(s) + multiset{x}
  {
    if |s| == 0 || x.createdAt >= s[0].createdAt then
      ConsNewestFirst(x, s);
      [x] + s
    else
      var t := Insert(x, s[1..]);
      assert s == [s[0]] + s[1..];
      forall k | 0 <= k < |t|
        ensures s[0].createdAt >= t[k].createdAt
      {
        assert t[k] in multiset(t);
        assert t[k] == x || t[k] in multiset(s[1..]);
      }
      ConsNewestFirst(s[0], t);
      [s[0]] + t
  }

  lemma ConsNewestFirst(y: ActiveRoom, t: seq<ActiveRoom>)
    requires NewestFirst(t)
    requires forall k :: 0 <= k < |t| ==> y.createdAt >= t[k].createdAt
    ensures NewestFirst([y] + t)
  {
    var s := [y] + t;
    forall i, j | 0 <= i < j < |s|
      ensures s[i].createdAt >= s[j].createdAt
    {
      assert s[j] == t[j - 1];
      if i > 0 {
        assert s[i] == t[i - 1];
      }
    }
  }

  /** `activeRooms.sort((a, b) => b.createdAt - a.createdAt)`: a stable sort,
      newest first. */
  function SortNewestFirst(s: seq<ActiveRoom>): (r: seq<ActiveRoom>)
    ensures NewestFirst(r)
    ensures multiset(r) == multiset(s)
  {
    if |s| == 0 then []
    else
      assert s == [s[0]] + s[1..];
      Insert(s[0], SortNewestFirst(s[1..]))
  }

  /** The `/api/rooms` response. */
  function ListJoinable(reg: Registry): seq<ActiveRoom> {
    SortNewestFirst(Candidates(reg.order, reg.rooms))
  }

  /** The listing holds exactly the rooms in `challenge_set` with no player 2,
      each once and as registered, newest first. */
  lemma ListJoinableExact(reg: Registry)
    requires Valid(reg)
    ensures NewestFirst(ListJoinable(reg))
    ensures forall a :: a in ListJoinable(reg) ==>
              a.roomCode in reg.rooms && Joinable(reg.rooms[a.roomCode])
              && a == Summary(a.roomCode, reg.rooms[a.roomCode])
    ensures forall c :: c in reg.rooms ==>
              multiset(ListJoinable(reg))[Summary(c, reg.rooms[c])] == if Joinable(reg.rooms[c]) then 1 else 0
  {
    var cands := Candidates(reg.order, reg.rooms);
    forall a | a in ListJoinable(reg)
      ensures a.roomCode in reg.rooms && Joinable(reg.rooms[a.roomCode])
              && a == Summary(a.roomCode, reg.rooms[a.roomCode])
    {
      assert a in multiset(ListJoinable(reg));
      assert a in multiset(cands);
    }
    forall c | c in reg.rooms
      ensures multiset(ListJoinable(reg))[Summary(c, reg.rooms[c])] == if Joinable(reg.rooms[c]) then 1 else 0
    {
      CandidatesOnce(reg.order, reg.rooms, c);
    }
  }
}
