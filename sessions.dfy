/** The session and user lookups the route handlers share. The session
    itself comes from the authentication framework and is an input here. */
module Sessions {
  import opened Models

  /** `session.user.id` and `session.user.email`; the empty string stands
      for an absent field, and an absent session has both empty. */
  datatype Session = Session(id: seq<char>, email: seq<char>)

  /** The users collection, as the three lookups the handlers make:
      `findById`, `findOne({ email })` and `findOne({ username })`. */
  datatype Users = Users(ids: set<Id>, byEmail: map<seq<char>, Id>, byUsername: map<seq<char>, Id>)

  /** Every stored user has an id. */
  predicate ValidUsers(users: Users)
  {
    && [] !in users.ids
    && (forall e :: e in users.byEmail ==> users.byEmail[e] != [])
    && (forall n :: n in users.byUsername ==> users.byUsername[n] != [])
  }

  /** `session?.user?.id` is truthy. */
  predicate Authenticated(session: Session)
  {
    session.id != []
  }

  /** The user lookup of the vote, comment and post handlers: by e-mail when
      the session carries one (OAuth users), by id otherwise. */
  function ResolveUser(session: Session, users: Users): (r: Option<Id>)
    ensures ValidUsers(users) && r.Some? ==> r.value != []
    ensures session.email != [] ==> (r.Some? <==> session.email in users.byEmail)
    ensures session.email == [] ==> r == (if session.id in users.ids then Some(session.id) else None)
  {
    if session.email != [] then
      if session.email in users.byEmail then Some(users.byEmail[session.email]) else None
    else if session.id in users.ids then Some(session.id) else None
  }
}
