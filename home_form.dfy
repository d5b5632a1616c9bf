/// The validation of the join/create form on the home page: which error it
/// shows, or whether it creates a room or binds the session to an existing one.
module HomeForm {
  import opened ChatTypes

  /** The posted fields. `name` and `code` are missing when the browser did
      not send them; `join` and `create` are the presence of the two buttons. */
  datatype Form = Form(name: Option<string>, code: Option<string>, join: bool, create: bool)

  /** A GET shows the empty form; a POST submits it. */
  datatype Request = Get | Post(form: Form)

  /** What the form asks for once validated. */
  datatype Decision = Reject(error: string) | CreateRoom | JoinRoom(code: string)

  const NameMissing: string := "Please enter a name."
  const CodeMissing: string := "Please enter a a room code."
  const NoSuchRoom: string := "Room does not exist."

  /** The decision for a posted form, given the codes of the live rooms.
      The checks run in order: name, then code when joining, then create,
      then existence of the code. */
  function Decide(form: Form, live: set<string>): (d: Decision)
    // a missing or empty name is rejected first, whatever else is set
    ensures !Filled(form.name) ==> d == Reject(NameMissing)
    // the empty-code check for `join` runs before `create` is looked at
    ensures Filled(form.name) && form.join && !Filled(form.code) ==> d == Reject(CodeMissing)
    // a room is created exactly when the two checks pass and `create` is set
    ensures d.CreateRoom? <==> Filled(form.name) && !(form.join && !Filled(form.code)) && form.create
    // without `create`, a live code is joined, even when `join` is not set
    ensures d.JoinRoom? <==> Filled(form.name) && !(form.join && !Filled(form.code)) && !form.create
                             && form.code.Some? && form.code.value in live
    ensures d.JoinRoom? ==> form.code == Some(d.code) && d.code in live
    // without `create`, a missing code or one no live room uses does not exist
    ensures (Filled(form.name) && !(form.join && !Filled(form.code)) && !form.create
             && (form.code.None? || form.code.value !in live)) ==> d == Reject(NoSuchRoom)
    ensures d.Reject? ==> d.error in {NameMissing, CodeMissing, NoSuchRoom}
  {
    if !Filled(form.name) then Reject(NameMissing)
    else if form.join && !Filled(form.code) then Reject(CodeMissing)
    else if form.create then CreateRoom
    else if form.code.None? || form.code.value !in live then Reject(NoSuchRoom)
    else JoinRoom(form.code.value)
  }

  /** With `create` set, the supplied code plays no part once the empty-code
      check has passed: any two such codes give the same decision. */
  lemma CreateIgnoresCode(form: Form, other: Option<string>, live: set<string>)
    requires form.create && Filled(form.name)
    requires !form.join || (Filled(form.code) && Filled(other))
    ensures Decide(form, live) == Decide(form.(code := other), live) == CreateRoom
  {
  }
}
