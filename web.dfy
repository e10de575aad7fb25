/** Values shared by the route handlers and the image picker: JSON body
    fields, JavaScript truthiness, the resolved session and the HTTP
    response. */
module Web {

  datatype Option<+T> = None | Some(value: T)

  /** One field of a parsed JSON request body: left out of the body
      (`undefined` once destructured), an explicit `null`, or a value. */
  datatype Field<+T> = Absent | Null | Given(value: T)

  /** `if (!x)` on a text field: undefined, null and "" are falsy. */
  predicate TruthyText(f: Field<string>)
  {
    f.Given? && f.value != ""
  }

  /** `if (!x)` on a number field: undefined, null and 0 are falsy. */
  predicate TruthyNumber(f: Field<real>)
  {
    f.Given? && f.value != 0.0
  }

  /** `if (!x)` on a boolean field: undefined, null and false are falsy. */
  predicate TruthyFlag(f: Field<bool>)
  {
    f.Given? && f.value
  }

  /** The text JavaScript's `+` produces for a text field. */
  function Text(f: Field<string>): string
  {
    match f
    case Absent => "undefined"
    case Null => "null"
    case Given(s) => s
  }

  /** The NextAuth session: `session.user` may be missing; an `id` that is
      missing is modelled as "". */
  datatype SessionUser = SessionUser(id: string, role: string)
  datatype Session = Session(user: Option<SessionUser>)

  /** `!session || !session.user || session.user.role !== "admin"` is false. */
  predicate IsAdmin(session: Option<Session>)
  {
    session.Some? && session.value.user.Some? && session.value.user.value.role == "admin"
  }

  /** `!session || !session.user || !session.user.id` is false. */
  predicate HasUserId(session: Option<Session>)
  {
    session.Some? && session.value.user.Some? && session.value.user.value.id != ""
  }

  /** A route handler's answer: `NextResponse.json(body)` (status 200) or
      `new NextResponse(message, { status })`. */
  datatype Response<+T> = Json(body: T) | Status(code: nat, message: string)
  {
    function Code(): nat
    {
      if Json? then 200 else code
    }
  }

  const InternalError: string := "Internal error"
}
