/// Values shared by the chat server's handlers: optional fields, the session
/// binding, room records, history entries and outbound socket messages.
module ChatTypes {

  datatype Option<T> = None | Some(value: T)

  /** A form field or session entry that is present and non-empty: the
      truthiness test `not x` fails exactly for these. */
  predicate Filled(o: Option<string>) {
    o.Some? && o.value != ""
  }

  /** The per-browser session: the bound room code and display name, each
      absent after `session.clear()`. */
  datatype Session = Session(room: Option<string>, name: Option<string>)

  const NoSession: Session := Session(None, None)

  /** One entry of a room's history, `{"name": ..., "message": ...}`. */
  datatype Msg = Msg(name: string, message: string)

  /** The record kept per live room, `{"members": ..., "messages": [...]}`. */
  datatype Room = Room(members: int, messages: seq<Msg>)

  /** The process-wide registry: room code to room record. */
  type Rooms = map<string, Room>

  /** One socket `send(payload, to=room)`; the target room and the sender name
      are read from the session and may be missing. */
  datatype Outbound = Outbound(to: Option<string>, name: Option<string>, message: string)

  /** The display name of the automated responder. */
  const Bot: string := "AI_CHATBOT"
  /** The placeholder the responder posts while the reply is pending. */
  const Thinking: string := "thinking..."
  const EnteredNotice: string := "has entered the room"
  const LeftNotice: string := "has left the room"

  /** The send of a history entry to its room. */
  function Broadcast(room: string, m: Msg): Outbound {
    Outbound(Some(room), Some(m.name), m.message)
  }
}
