# Room registry of a Flask/Socket.IO chat server with an AI responder

This project models the core of `main.py`: the process-wide dictionary
`rooms`, which maps a four-letter room code to `{"members": int, "messages": list}`,
and the handlers that read and change it.

- `generate_unique_code` draws upper-case codes until it finds one that no live room uses.
- The `home` form either shows an error together with the submitted code and name, or
  binds the session to `(room, name)`. When asked to create a room, it first inserts a
  fresh room with no members and no messages.
- The `room` page guard sends the browser back home unless the session has a room and a
  name and that room is still live.
- The socket events change the registry:
  - `connect` counts one more member.
  - `disconnect` counts one fewer and deletes the room once no member is left.
  - `message` appends three entries to the room's history: the user's message, the
    responder's "thinking..." placeholder, and the responder's reply with every newline
    shown as `<br>`.

The Dafny modules follow these components:

- `ChatTypes` (chat_types.dfy) holds the values: session, room record, history entry and
  outbound send.
- `Text` (text.dfy) holds the newline replacement applied to the reply.
- `Codes` (codes.dfy) holds the spelling of a code from letter draws and the first unused
  code among several attempts.
- `HomeForm` (home_form.dfy) holds the validation order of the join/create form.
- `RegistrySpec` (registry_spec.dfy) holds each handler's effect on the registry as a
  function of the registry before it. It also holds the registry invariant and the lemmas
  about how handlers compose.
- `ChatServer` (chat_server.dfy) holds the class `Registry`. Its field `rooms` is updated
  in place by one method per handler, and each method is proved against the
  `RegistrySpec` function for that handler.

The model uses these stand-ins:

- The session is an input pair `Session(room, name)`, either part possibly absent.
- The page a handler renders, or the redirect it issues, is a result value.
- Each socket `send` is recorded in a returned list `sent`.
- The responder's text is an input string `reply`.
- The random letter draws are an input: a list of attempts, each one a list of indices
  into `A`–`Z`.

The registry invariant `RegistrySpec.Inv` holds after every handler. It says three
things about every live room:

- its key is a four-letter upper-case code;
- its member count is not negative;
- its history is a run of whole exchanges of the form [message, placeholder,
  newline-free responder reply].

Join and leave notices are only sent; they are never stored in the history.

Where the code behaves differently from what one might expect, the model follows the
code:

- The empty-code check for `join` (main.py:50) runs before the `create` branch
  (main.py:54). A form with both buttons and an empty code is therefore rejected; create
  does not simply win.
- The "has entered/left the room" notices are sent but never appended to the history
  (main.py:131, main.py:148).
- `message` checks only that the session's room is live, not that the session has a
  name. Without a name, the user's entry is posted as `AI_CHATBOT` (main.py:79-83).
- `connect` uses Python truthiness: an empty room or name is treated like a missing one.
  The `room` page tests only `is None` (main.py:71, main.py:124).
- The code does not handle responder failures. No error-notice reply exists in the code,
  so none is modelled.

## Model

| member | source | states |
|---|---|---|
| `ChatServer.Registry.constructor` | main.py:24 | The registry starts empty and satisfies the invariant. |
| `ChatServer.Registry.GenerateUniqueCode` | main.py:26-34 | The result is the word of the first attempt that is not a live code. It has exactly `length` upper-case letters and is not a key of `rooms`. When every attempt collides, there is no result. `rooms` is only read. |
| `Codes.Spell` | main.py:28-30 | Repeated `code += random.choice(ascii_uppercase)` yields a word with one letter per draw, in draw order, each letter in `A`–`Z`. |
| `Codes.FirstFresh` | main.py:27-33 | The first attempt's word that is absent from the live codes. It is missing exactly when every attempt's word is live. |
| `HomeForm.Decide` | main.py:47-58 | A missing or empty name is rejected with "Please enter a name." first. With `join` set and an empty code, the form is rejected with "Please enter a a room code.", even with `create` set. Otherwise `create` creates a room. Without `create`, a live code is joined even when `join` is unset, and a missing code or one no live room uses is rejected with "Room does not exist.". |
| `HomeForm.CreateIgnoresCode` | main.py:53-56 | With `create` set, the supplied code does not affect the decision. |
| `ChatServer.Registry.Home` | main.py:39-65 | The session is always cleared first. An error echoes the error, code and name and leaves `rooms` unchanged. A join binds `(code, name)` and leaves `rooms` unchanged. A create inserts exactly one new key, absent before, as a four-letter code with 0 members and no messages, and binds the session to it whatever code was supplied. A redirect always lands on a live room. |
| `ChatServer.JoinOnlyGeneratedCodes` | main.py:55-58 | In a reachable registry, only a four-letter upper-case code can be joined. |
| `ChatServer.SuccessiveCodesDiffer` | main.py:26-34 | When the generator yields a code, and then yields a second code against the registry that already holds the first, the two codes differ and neither was live before. |
| `ChatServer.Registry.RoomPage` | main.py:69-74 | The room is shown exactly when the session has a room and a name and the room is live. It is shown with that room's history; otherwise the browser goes home. |
| `ChatServer.Registry.Message` | main.py:77-114 | For a live room, the handler sends and appends the user's message, the placeholder and the converted reply, in that order. Members and other rooms are unchanged. For an absent room, it sends nothing and changes nothing. |
| `RegistrySpec.Exchange` | main.py:82-114 | The three entries are: (session name or `AI_CHATBOT`, data), then (`AI_CHATBOT`, "thinking..."), then (`AI_CHATBOT`, reply with newlines replaced), which holds no newline. |
| `RegistrySpec.Messaged` | main.py:78-114 | The key set is unchanged. Only the session's live room changes: its history is extended by the exchange and its member count is kept. |
| `Text.ReplaceNewlines` | main.py:111 | `s.replace('\n', '<br>')` contains no newline. |
| `Text.ReplaceNewlinesLength` | main.py:111 | Each newline adds three characters to the length. |
| `Text.ReplaceNewlinesFixedPoint` | main.py:111 | The replacement leaves a text unchanged if and only if the text holds no newline. |
| `Text.ReplaceNewlinesAppend` | main.py:111 | Replacing in two halves and joining them equals replacing in the whole. |
| `Text.RestoreReplaceNewlines` | main.py:111 | For a reply without `<`, reading `<br>` back as a newline gives the original reply. |
| `ChatServer.Registry.Connect` | main.py:121-132 | With a non-empty room and name and a live room, the handler adds exactly 1 to that room's members and announces the arrival without storing it. Otherwise it sends nothing and changes nothing. |
| `RegistrySpec.Connected` | main.py:122-132 | The key set and every other room are unchanged. Only an admitted session's room gains one member. |
| `ChatServer.Registry.Disconnect` | main.py:136-148 | For a live room, the handler subtracts 1 from members and removes the key when the result is ≤ 0. For an absent room, `rooms` is unchanged. The leave notice is sent in every case and never stored. |
| `RegistrySpec.Disconnected` | main.py:137-146 | No key is added. Every room other than the session's is unchanged. The session's live room survives exactly when its count stays positive, with one member fewer. |
| `RegistrySpec.Created` | main.py:56 | The key set gains exactly the new code, which holds 0 members and no messages. Every other room is unchanged. |
| `RegistrySpec.AppendExchange` | main.py:92-114 | Appending one exchange keeps a history made of whole exchanges. |
| `RegistrySpec.WellFormedHistoryAt` | main.py:92-114 | The history length is a multiple of 3. The second entry of every exchange is the placeholder. The third is a responder reply without a newline. |
| `RegistrySpec.CreatedKeepsInv` | main.py:55-56 | Creating a room under a generated code preserves the invariant. |
| `RegistrySpec.ConnectedKeepsInv` | main.py:132 | `connect` preserves the invariant. |
| `RegistrySpec.DisconnectedKeepsInv` | main.py:143-146 | `disconnect` preserves the invariant, and a member count never becomes negative. |
| `RegistrySpec.MessagedKeepsInv` | main.py:92-114 | `message` preserves the invariant. |
| `RegistrySpec.ConnectThenDisconnect` | main.py:122-146 | A connect followed by a disconnect of the same session restores the registry. The exception is a room that had 0 members, which is then deleted. |
| `RegistrySpec.LastLeaveTearsDown` | main.py:143-146 | The leave of the last member deletes the room. A second leave for the same code changes nothing. |
| `RegistrySpec.HistoryOnlyGrows` | main.py:54-146 | No handler shortens or rewrites a live room's history: creating a room under a fresh code leaves every other room as it was, `connect` and `disconnect` keep the history of a room that stays live, and only `message` extends it. |
| `RegistrySpec.OneRoomLifetime` | main.py:54-146 | A creates WXYZ and connects, Bob connects: 2 members. A says hello: three entries. A leaves: 1 member, and the room stays. Bob leaves: the registry is empty. |

## Left out

- Flask routing, `render_template`, `redirect` and the session cookie (main.py:38-74) are not modelled. The session is an input and the page is a result value.
- Socket.IO `join_room` and `leave_room` (main.py:127, main.py:130, main.py:142) change only the socket layer's broadcast groups and are not modelled. `send` is recorded in the returned list `sent`, but delivery is not modelled.
- The text-generation call `model.generate_content` and its configuration (main.py:5, main.py:14-15, main.py:106) are not modelled. Its `.text` is the input `reply`. Failures of the call, which raise out of the handler after two entries were stored, are not modelled.
- ChatServer.Registry.GenerateUniqueCode: `random.choice` is replaced by caller-supplied draws. When every supplied attempt collides, the model returns no code, and `Home` answers `NoFreshCode` with `rooms` unchanged. The source instead goes on drawing, forever if all 26^4 codes are taken.
- Concurrency is not modelled; each handler is one atomic step. In the source, a room deleted by another connection during the text-generation call would make the final `rooms[room]` lookup fail.
- RegistrySpec.Inv: the whole-exchange shape of every history holds only because each handler is one atomic step. In the source, two messages to the same room during a slow reply can interleave as [message 1, placeholder, message 2, placeholder, reply 1, reply 2].
- The `message` payload is modelled as a string. A payload without a `data` key, which raises in the source, is not modelled.
- Python list aliasing is not modelled. The room page gets a copy of the history, where the source passes the same list object.
- `print` logging, environment loading, secret keys and server start-up (main.py:9-12, main.py:19, main.py:151-152) are not modelled.
