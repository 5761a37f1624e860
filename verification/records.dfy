/** The records the watchlist backend keeps in its three collections
    (users, watchlists, journals), the session value that scopes every
    request, and the outcome a request answers with. */
module Records {

  datatype Option<+T> = None | Some(value: T)

  /** Why a request was refused; HttpStatus gives the status code the route
      answers with. */
  datatype Error =
    | Unauthorized          // the session holds no signed-in email
    | AuthenticationFailed  // the identity token did not verify
    | DuplicateName         // the owner already has a watchlist of that name
    | NotFound              // the owner has no watchlist of that name
    | ServerError           // an exception the route does not catch

  function HttpStatus(e: Error): (code: int)
  {
    match e
    case Unauthorized => 401
    case AuthenticationFailed => 401
    case DuplicateName => 400
    case NotFound => 404
    case ServerError => 500
  }

  /** What a handler answers: a JSON-able value, or an error status. */
  datatype Result<+T> = Ok(value: T) | Err(error: Error)

  /** A store-assigned `_id`; clients only ever see it as an opaque string. */
  type Id = nat

  /** What the identity verifier yields for a valid token: its email claim,
      and its name claim, which may be missing. */
  datatype Identity = Identity(email: string, name: Option<string>)

  datatype User = User(id: Id, email: string, name: string)

  /** A movie as the client supplies it. Only `poster_path` is ever looked at;
      the title stands for the rest of the client's payload. */
  datatype Movie = Movie(title: string, posterPath: Option<string>)

  datatype Watchlist = Watchlist(id: Id, name: string, userEmail: string, movies: seq<Movie>)

  datatype JournalEntry = JournalEntry(id: Id, userEmail: string, movieTitle: string, entry: string, date: string)

  /** `session.get("user_email")` is truthy: present and not the empty string. */
  predicate SignedIn(session: Option<string>)
  {
    session.Some? && session.value != ""
  }
}
