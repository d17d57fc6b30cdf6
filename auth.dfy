/**
  The signed-in user as the route handlers see it, and JavaScript truthiness of optional text
  fields in request bodies and form state.
*/
module Auth {
  import opened Wrappers

  /** The two roles of the application. */
  datatype Role = Contributor | Viewer

  datatype User = User(id: string, role: Role)

  /** `getServerSession(...)`: no session, or the signed-in user. */
  type Session = Option<User>

  /** `!session?.user` fails. */
  predicate SignedIn(session: Session) {
    session.Some?
  }

  /** `!session?.user?.id` fails: a user with an empty id counts as signed out. */
  predicate SignedInWithId(session: Session) {
    session.Some? && session.value.id != ""
  }

  /** An optional text field is truthy: present and not the empty string. */
  predicate Truthy(s: Option<string>) {
    s.Some? && s.value != ""
  }

  /** `s || null`: falsy text becomes null. */
  function OrNull(s: Option<string>): (r: Option<string>)
    ensures r.None? <==> !Truthy(s)
    ensures r.Some? ==> r == s
  {
    if Truthy(s) then s else None
  }
}
