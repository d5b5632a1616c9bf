/// The chat server's handlers over the process-wide room registry: code
/// allocation, the home form, the room page guard, and the socket events
/// `message`, `connect` and `disconnect`. Each handler runs as one step.
module ChatServer {
  import opened ChatTypes
  import opened Text
  import opened Codes
  import opened HomeForm
  import opened RegistrySpec

  /** What the home page answers: the empty form, the form again with an
      error and the submitted fields, or a redirect to the room page.
      `NoFreshCode` stands for a generator that never stops drawing because
      every drawn code was taken. */
  datatype HomeResponse =
    | ShowForm
    | FormError(error: string, code: Option<string>, name: Option<string>)
    | GoToRoom
    | NoFreshCode

  /** What the room page answers: back to the home page, or the room with
      its history. */
  datatype RoomResponse = GoHome | ShowRoom(code: string, messages: seq<Msg>)

  /** In a reachable registry only a generated code can be joined: any other
      code, typed by hand, is answered with "Room does not exist.". */
  lemma JoinOnlyGeneratedCodes(form: Form, rooms: Rooms)
    requires Inv(rooms)
    ensures Decide(form, rooms.Keys).JoinRoom? ==> IsCode(Decide(form, rooms.Keys).code, CodeLength)
  {
    var d := Decide(form, rooms.Keys);
    if d.JoinRoom? {
      assert RoomInv(d.code, rooms[d.code]);
    }
  }

  /** Two rooms created one after the other, with no room deleted in between,
      get different codes: the second code is drawn against the registry that
      already holds the first, and neither was live before. */
  lemma SuccessiveCodesDiffer(rooms: Rooms, first: seq<seq<nat>>, second: seq<seq<nat>>)
    requires AreDraws(first, CodeLength) && AreDraws(second, CodeLength)
    ensures var c1 := FirstFresh(first, rooms.Keys);
      c1.Some? ==>
        var c2 := FirstFresh(second, Created(rooms, c1.value).Keys);
        c2.Some? ==> c1.value != c2.value && c1.value !in rooms && c2.value !in rooms
  {
  }

  class Registry {
    /** Room code to room record, shared by every handler. */
    var rooms: Rooms

    ghost predicate Valid()
      reads this
    {
      Inv(rooms)
    }

    constructor ()
      ensures Valid() && rooms == map[]
    {
      rooms := map[];
    }

    /** Draws codes of `length` letters until one is not a live code.
        `attempts` holds the letter draws of each attempt in turn; when all
        of them collide the answer is `None` (the generator would go on
        drawing). The registry is only read. */
    method GenerateUniqueCode(length: nat, attempts: seq<seq<nat>>) returns (code: Option<string>)
      requires AreDraws(attempts, length)
      ensures code == FirstFresh(attempts, rooms.Keys)
      ensures code.Some? ==> IsCode(code.value, length) && code.value !in rooms
    {
      var i := 0;
      while i < |attempts|
        invariant 0 <= i <= |attempts|
        invariant FirstFresh(attempts, rooms.Keys) == FirstFresh(attempts[i..], rooms.Keys)
      {
        var draw := attempts[i];
        var candidate := "";
        for k := 0 to length
          invariant candidate == Spell(draw[..k])
        {
          assert draw[..k + 1][..k] == draw[..k];
          candidate := candidate + [Uppercase[draw[k]]];
        }
        assert draw[..length] == draw;
        if candidate !in rooms {
          return Some(candidate);
        }
        assert attempts[i..][1..] == attempts[i + 1..];
        i := i + 1;
      }
      return None;
    }

    /** The home page. The session is cleared first; a valid POST binds it to
        `(room, name)`, creating a room under a fresh code when asked to. */
    method Home(request: Request, attempts: seq<seq<nat>>) returns (response: HomeResponse, session: Session)
      requires Valid()
      requires AreDraws(attempts, CodeLength)
      modifies this
      ensures Valid()
      ensures request.Get? ==> response == ShowForm && session == NoSession && rooms == old(rooms)
      ensures request.Post? && Decide(request.form, old(rooms).Keys).Reject? ==>
        && response == FormError(Decide(request.form, old(rooms).Keys).error, request.form.code, request.form.name)
        && session == NoSession
        && rooms == old(rooms)
      ensures request.Post? && Decide(request.form, old(rooms).Keys).JoinRoom? ==>
        && response == GoToRoom
        && session == Session(Some(Decide(request.form, old(rooms).Keys).code), request.form.name)
        && rooms == old(rooms)
      ensures request.Post? && Decide(request.form, old(rooms).Keys).CreateRoom? ==>
        var drawn := FirstFresh(attempts, old(rooms).Keys);
        && (drawn.None? ==> response == NoFreshCode && session == NoSession && rooms == old(rooms))
        && (drawn.Some? ==>
              && drawn.value !in old(rooms)
              && IsCode(drawn.value, CodeLength)
              && response == GoToRoom
              && session == Session(Some(drawn.value), request.form.name)
              && rooms == Created(old(rooms), drawn.value))
      // a redirect to the room page always lands in a live room
      ensures response == GoToRoom ==> RoomPage(session).ShowRoom?
    {
      session := NoSession;
      if request.Get? {
        return ShowForm, session;
      }
      var form := request.form;
      var decision := Decide(form, rooms.Keys);
      match decision {
        case Reject(error) =>
          return FormError(error, form.code, form.name), session;
        case JoinRoom(code) =>
          session := Session(Some(code), form.name);
        case CreateRoom =>
          var code := GenerateUniqueCode(CodeLength, attempts);
          if code.None? {
            return NoFreshCode, session;
          }
          CreatedKeepsInv(rooms, code.value);
          rooms := Created(rooms, code.value);
          session := Session(Some(code.value), form.name);
      }
      response := GoToRoom;
    }

    /** The room page: shown only when the session has a room and a name and
        the room is still live. */
    function RoomPage(session: Session): (v: RoomResponse)
      reads this
      ensures v.ShowRoom? <==> session.room.Some? && session.name.Some? && session.room.value in rooms
      ensures v.ShowRoom? ==> v.code == session.room.value && v.messages == rooms[v.code].messages
    {
      if session.room.None? || session.name.None? || session.room.value !in rooms then GoHome
      else ShowRoom(session.room.value, rooms[session.room.value].messages)
    }

    /** A chat message from the session's browser. In a live room it sends and
        stores the message, the placeholder and the displayable reply, in this
        order; `reply` is the text the responder produced for `data`. */
    method Message(session: Session, data: string, reply: string) returns (sent: seq<Outbound>)
      requires Valid()
      modifies this
      ensures Valid()
      ensures rooms == Messaged(old(rooms), session, data, reply)
      ensures InLiveRoom(old(rooms), session) ==>
        var t := Exchange(session.name, data, reply);
        sent == [Broadcast(session.room.value, t[0]), Broadcast(session.room.value, t[1]), Broadcast(session.room.value, t[2])]
      ensures !InLiveRoom(old(rooms), session) ==> sent == []
    {
      if session.room.None? || session.room.value !in rooms {
        return [];
      }
      var room := session.room.value;
      ghost var before := rooms;

      var content := Msg(SenderName(session.name), data);
      sent := [Broadcast(room, content)];
      rooms := rooms[room := rooms[room].(messages := rooms[room].messages + [content])];

      var filler := Msg(Bot, Thinking);
      sent := sent + [Broadcast(room, filler)];
      rooms := rooms[room := rooms[room].(messages := rooms[room].messages + [filler])];

      var answer := Msg(Bot, ReplaceNewlines(reply));
      sent := sent + [Broadcast(room, answer)];
      rooms := rooms[room := rooms[room].(messages := rooms[room].messages + [answer])];

      assert rooms == Messaged(before, session, data, reply) by {
        assert before[room].messages + [content] + [filler] + [answer]
            == before[room].messages + Exchange(session.name, data, reply);
      }
      MessagedKeepsInv(before, session, data, reply);
      assert sent == [Broadcast(room, content), Broadcast(room, filler), Broadcast(room, answer)];
      assert Exchange(session.name, data, reply) == [content, filler, answer];
    }

    /** A browser connects: with a complete session and a live room it is
        counted as a member and its arrival is announced (not stored). */
    method Connect(session: Session) returns (sent: seq<Outbound>)
      requires Valid()
      modifies this
      ensures Valid()
      ensures rooms == Connected(old(rooms), session)
      ensures sent == if Admits(old(rooms), session)
                      then [Outbound(session.room, session.name, EnteredNotice)]
                      else []
    {
      ConnectedKeepsInv(rooms, session);
      if !Filled(session.room) || !Filled(session.name) {
        return [];
      }
      var room := session.room.value;
      if room !in rooms {
        return [];
      }
      sent := [Outbound(session.room, session.name, EnteredNotice)];
      rooms := rooms[room := rooms[room].(members := rooms[room].members + 1)];
    }

    /** A browser disconnects: its live room loses a member and is deleted
        when none remain. The departure is announced in every case, even for
        a room just deleted or never live, and is not stored. */
    method Disconnect(session: Session) returns (sent: seq<Outbound>)
      requires Valid()
      modifies this
      ensures Valid()
      ensures rooms == Disconnected(old(rooms), session)
      ensures sent == [Outbound(session.room, session.name, LeftNotice)]
    {
      DisconnectedKeepsInv(rooms, session);
      var room := session.room;
      if room.Some? && room.value in rooms {
        var c := room.value;
        rooms := rooms[c := rooms[c].(members := rooms[c].members - 1)];
        if rooms[c].members <= 0 {
          rooms := rooms - {c};
        }
      }
      sent := [Outbound(room, session.name, LeftNotice)];
    }
  }
}
