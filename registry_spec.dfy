/// The effect of each socket and form handler on the room registry, as
/// functions from the registry before to the registry after, the invariant
/// every reachable registry keeps, and how the handlers compose.
module RegistrySpec {
  import opened ChatTypes
  import opened Text
  import opened Codes

  /** The name a chat message is posted under: the session's name, or the
      responder's name when the session has none. */
  function SenderName(name: Option<string>): string {
    if name.Some? then name.value else Bot
  }

  /** A responder exchange as it sits in a history: any first entry, the
      placeholder, then a reply by the responder holding no newline. */
  predicate IsExchange(t: seq<Msg>) {
    |t| == 3 && t[1] == Msg(Bot, Thinking) && t[2].name == Bot && '\n' !in t[2].message
  }

  /** The three history entries one chat message adds, in posting order: the
      user's message, the placeholder, the reply made displayable. */
  function Exchange(name: Option<string>, data: string, reply: string): (t: seq<Msg>)
    ensures IsExchange(t)
    ensures t[0] == Msg(SenderName(name), data)
    ensures t[2].message == ReplaceNewlines(reply)
  {
    [Msg(SenderName(name), data), Msg(Bot, Thinking), Msg(Bot, ReplaceNewlines(reply))]
  }

  /** A history made of whole exchanges only. Join and leave notices are never
      stored, so nothing else can appear in it. */
  predicate WellFormedHistory(h: seq<Msg>)
    decreases |h|
  {
    |h| == 0 || (|h| >= 3 && IsExchange(h[|h| - 3..]) && WellFormedHistory(h[..|h| - 3]))
  }

  /** What holds of every registry the handlers can reach from the empty one. */
  ghost predicate Inv(rooms: Rooms) {
    forall c {:trigger RoomInv(c, rooms[c])} :: c in rooms ==> RoomInv(c, rooms[c])
  }

  /** A live room: its key is a generated code, its count is not negative and
      its history is made of whole exchanges. */
  predicate RoomInv(code: string, room: Room) {
    IsCode(code, CodeLength) && room.members >= 0 && WellFormedHistory(room.messages)
  }

  /** `rooms[code] = {"members": 0, "messages": []}`. */
  function Created(rooms: Rooms, code: string): (r: Rooms)
    ensures r.Keys == rooms.Keys + {code}
    ensures r[code] == Room(0, [])
    ensures forall c :: c in rooms && c != code ==> r[c] == rooms[c]
    ensures code !in rooms ==> |r| == |rooms| + 1
  {
    rooms[code := Room(0, [])]
  }

  /** A connect event counts the connection in its room exactly when the
      session has a non-empty room and name and the room is live. */
  predicate Admits(rooms: Rooms, s: Session) {
    Filled(s.room) && Filled(s.name) && s.room.value in rooms
  }

  /** The registry after a connect event. */
  function Connected(rooms: Rooms, s: Session): (r: Rooms)
    ensures r.Keys == rooms.Keys
    ensures forall c :: c in rooms && !(Admits(rooms, s) && c == s.room.value) ==> r[c] == rooms[c]
    ensures Admits(rooms, s) ==>
      var c := s.room.value;
      r[c].members == rooms[c].members + 1 && r[c].messages == rooms[c].messages
  {
    if Admits(rooms, s) then
      var c := s.room.value;
      rooms[c := rooms[c].(members := rooms[c].members + 1)]
    else rooms
  }

  /** The session names a live room (disconnect and message test only this). */
  predicate InLiveRoom(rooms: Rooms, s: Session) {
    s.room.Some? && s.room.value in rooms
  }

  /** The registry after a disconnect event: one member less, and the room
      gone once its count is no longer positive. */
  function Disconnected(rooms: Rooms, s: Session): (r: Rooms)
    ensures r.Keys <= rooms.Keys
    ensures forall c :: c in rooms && s.room != Some(c) ==> c in r && r[c] == rooms[c]
    ensures !InLiveRoom(rooms, s) ==> r == rooms
    ensures InLiveRoom(rooms, s) ==>
      var c := s.room.value;
      (c in r <==> rooms[c].members - 1 > 0) &&
      (c in r ==> r[c] == rooms[c].(members := rooms[c].members - 1))
  {
    if InLiveRoom(rooms, s) then
      var c := s.room.value;
      var left := rooms[c := rooms[c].(members := rooms[c].members - 1)];
      if left[c].members <= 0 then left - {c} else left
    else rooms
  }

  /** The registry after a chat message: the exchange is appended to the
      session's room, if it is live. */
  function Messaged(rooms: Rooms, s: Session, data: string, reply: string): (r: Rooms)
    ensures r.Keys == rooms.Keys
    ensures forall c :: c in rooms && s.room != Some(c) ==> r[c] == rooms[c]
    ensures InLiveRoom(rooms, s) ==>
      var c := s.room.value;
      r[c].members == rooms[c].members &&
      r[c].messages == rooms[c].messages + Exchange(s.name, data, reply)
  {
    if InLiveRoom(rooms, s) then
      var c := s.room.value;
      rooms[c := rooms[c].(messages := rooms[c].messages + Exchange(s.name, data, reply))]
    else rooms
  }

  // ---------------------------------------------------------------------
  // Histories

  /** Appending a whole exchange keeps a history well formed. */
  lemma AppendExchange(h: seq<Msg>, t: seq<Msg>)
    requires WellFormedHistory(h) && IsExchange(t)
    ensures WellFormedHistory(h + t)
  {
  }

  /** Read position by position, a well-formed history has a length divisible
      by three, and every exchange in it has the placeholder second and a
      newline-free reply by the responder third. */
  lemma {:induction false} WellFormedHistoryAt(h: seq<Msg>, k: nat)
    requires WellFormedHistory(h)
    ensures |h| % 3 == 0
    ensures 3 * k + 2 < |h| ==>
      h[3 * k + 1] == Msg(Bot, Thinking) && h[3 * k + 2].name == Bot && '\n' !in h[3 * k + 2].message
  {
    if |h| > 0 {
      var front := h[..|h| - 3];
      var last := h[|h| - 3..];
      assert WellFormedHistory(front) && IsExchange(last);
      assert h == front + last;
      WellFormedHistoryAt(front, k);
      if 3 * k + 2 < |front| {
        assert h[3 * k + 1] == front[3 * k + 1];
        assert h[3 * k + 2] == front[3 * k + 2];
      } else if 3 * k + 2 < |h| {
        assert 3 * k == |front|;
        assert h[3 * k + 1] == h[|h| - 3..][1];
        assert h[3 * k + 2] == h[|h| - 3..][2];
      }
    }
  }

  // ---------------------------------------------------------------------
  // The invariant

  /** A room created under a generated code keeps the invariant. */
  lemma CreatedKeepsInv(rooms: Rooms, code: string)
    requires Inv(rooms) && IsCode(code, CodeLength)
    ensures Inv(Created(rooms, code))
  {
  }

  /** A connect only raises a count, so the invariant survives it. */
  lemma ConnectedKeepsInv(rooms: Rooms, s: Session)
    requires Inv(rooms)
    ensures Inv(Connected(rooms, s))
  {
    var r := Connected(rooms, s);
    forall c | c in r ensures RoomInv(c, r[c]) {
      assert RoomInv(c, rooms[c]);
    }
  }

  /** A disconnect never leaves a room with a negative count: the room is
      dropped before its count can go below one. */
  lemma DisconnectedKeepsInv(rooms: Rooms, s: Session)
    requires Inv(rooms)
    ensures Inv(Disconnected(rooms, s))
  {
    var r := Disconnected(rooms, s);
    forall c | c in r ensures RoomInv(c, r[c]) {
      assert RoomInv(c, rooms[c]);
    }
  }

  /** A chat message appends a whole exchange, so every history stays made
      of whole exchanges. */
  lemma MessagedKeepsInv(rooms: Rooms, s: Session, data: string, reply: string)
    requires Inv(rooms)
    ensures Inv(Messaged(rooms, s, data, reply))
  {
    var r := Messaged(rooms, s, data, reply);
    forall c | c in r ensures RoomInv(c, r[c]) {
      assert RoomInv(c, rooms[c]);
      if s.room == Some(c) {
        AppendExchange(rooms[c].messages, Exchange(s.name, data, reply));
      }
    }
  }

  // ---------------------------------------------------------------------
  // Composition of handlers

  /** A connect followed by a disconnect of the same session restores the
      registry, except that a room nobody had connected to yet is torn down. */
  lemma ConnectThenDisconnect(rooms: Rooms, s: Session)
    requires Inv(rooms) && Admits(rooms, s)
    ensures var c := s.room.value;
      Disconnected(Connected(rooms, s), s) == if rooms[c].members == 0 then rooms - {c} else rooms
  {
    var c := s.room.value;
    assert RoomInv(c, rooms[c]);
    var after := Disconnected(Connected(rooms, s), s);
    if rooms[c].members == 0 {
      assert after == rooms - {c};
    } else {
      assert after.Keys == rooms.Keys;
      assert after == rooms;
    }
  }

  /** The leave of the last member tears the room down, and a further leave
      for the same code changes nothing at all. */
  lemma LastLeaveTearsDown(rooms: Rooms, s: Session)
    requires InLiveRoom(rooms, s) && rooms[s.room.value].members <= 1
    ensures s.room.value !in Disconnected(rooms, s)
    ensures Disconnected(Disconnected(rooms, s), s) == Disconnected(rooms, s)
  {
  }

  /** No handler removes or rewrites history: a room that is live before and
      after an event keeps its old history as a prefix. */
  lemma HistoryOnlyGrows(rooms: Rooms, s: Session, data: string, reply: string, c: string, code: string)
    requires c in rooms
    ensures code !in rooms ==> c in Created(rooms, code) && Created(rooms, code)[c] == rooms[c]
    ensures c in Connected(rooms, s) && rooms[c].messages == Connected(rooms, s)[c].messages
    ensures c in Disconnected(rooms, s) ==> rooms[c].messages == Disconnected(rooms, s)[c].messages
    ensures c in Messaged(rooms, s, data, reply) &&
            rooms[c].messages <= Messaged(rooms, s, data, reply)[c].messages
  {
  }

  /** The life of one room: A creates `WXYZ` and connects, Bob connects, A
      says hello, A leaves (one member remains), Bob leaves (the room is gone). */
  lemma OneRoomLifetime(reply: string)
    ensures
      var a := Session(Some("WXYZ"), Some("A"));
      var b := Session(Some("WXYZ"), Some("Bob"));
      var r1 := Connected(Connected(Created(map[], "WXYZ"), a), b);
      var r2 := Messaged(r1, a, "hello", reply);
      var r3 := Disconnected(r2, a);
      var r4 := Disconnected(r3, b);
      && r1["WXYZ"].members == 2
      && r2["WXYZ"].messages == [Msg("A", "hello"), Msg(Bot, Thinking), Msg(Bot, ReplaceNewlines(reply))]
      && "WXYZ" in r3 && r3["WXYZ"].members == 1
      && r4 == map[]
  {
  }
}
