/** The request handlers of app.py as transitions of one backend state: the
    users, watchlists and journals collections, in store order, and the
    session's `user_email`. Every handler but sign-in starts with the same
    guard: without a signed-in email it answers 401 and touches nothing. */
module Store {
  import opened Records
  import opened Queries
  import opened Cover

  class Backend {
    var users: seq<User>
    var watchlists: seq<Watchlist>
    var journals: seq<JournalEntry>
    /** `session["user_email"]`, absent until a sign-in succeeds. */
    var session: Option<string>
    /** The next store-assigned `_id`; every record's id is below it. */
    var nextId: nat

    ghost predicate Valid()
      reads this
    {
      && (forall k :: 0 <= k < |users| ==> users[k].id < nextId)
      && (forall k :: 0 <= k < |watchlists| ==> watchlists[k].id < nextId)
      && (forall k :: 0 <= k < |journals| ==> journals[k].id < nextId)
    }

    constructor ()
      ensures Valid()
      ensures users == [] && watchlists == [] && journals == [] && session == None && nextId == 0
    {
      users, watchlists, journals := [], [], [];
      session := None;
      nextId := 0;
    }

    /** `google_auth`: `verified` is what the identity verifier made of the
        token (None when it refused the token or the token has no email). An
        unknown email gets a new user, which needs the name claim; a known
        one keeps its record, name included, and its name claim is never
        read. The session then holds the email. */
    method GoogleAuth(verified: Option<Identity>) returns (r: Result<User>)
      requires Valid()
      modifies this
      ensures Valid()
      ensures verified.None? ==> r == Err(AuthenticationFailed) && unchanged(this)
      ensures verified.Some? && FindUser(old(users), verified.value.email).Some? ==>
                && r == Ok(old(users)[FindUser(old(users), verified.value.email).value])
                && users == old(users) && nextId == old(nextId)
      ensures verified.Some? && FindUser(old(users), verified.value.email).None? && verified.value.name.None? ==>
                r == Err(AuthenticationFailed) && unchanged(this)
      ensures verified.Some? && FindUser(old(users), verified.value.email).None? && verified.value.name.Some? ==>
                && r == Ok(User(old(nextId), verified.value.email, verified.value.name.value))
                && users == old(users) + [r.value] && nextId == old(nextId) + 1
      ensures verified.Some? && FindUser(old(users), verified.value.email).None? && r.Ok? ==>
                forall k :: 0 <= k < |old(users)| ==> old(users)[k].id != r.value.id
      ensures r.Ok? ==>
                && verified.Some? && r.value.email == verified.value.email
                && session == Some(verified.value.email)
                && watchlists == old(watchlists) && journals == old(journals)
                && FindUser(users, verified.value.email).Some?
      ensures UniqueEmails(old(users)) ==> UniqueEmails(users)
    {
      if verified.None? {
        return Err(AuthenticationFailed);
      }
      var idinfo := verified.value;
      var found := FindUser(users, idinfo.email);
      FindUserMeansEmail(users, idinfo.email);
      var user;
      if found.Some? {
        user := users[found.value];
      } else {
        if idinfo.name.None? {
          return Err(AuthenticationFailed);  // `idinfo["name"]` raises KeyError
        }
        user := User(nextId, idinfo.email, idinfo.name.value);
        AppendFreshEmail(users, user);
        users := users + [user];
        nextId := nextId + 1;
      }
      session := Some(user.email);
      r := Ok(user);
    }

    /** `create_watchlist`: refuses a name the owner already uses, otherwise
        appends an empty watchlist owned by the session's email. */
    method CreateWatchlist(name: string) returns (r: Result<Watchlist>)
      requires Valid()
      modifies this
      ensures Valid()
      ensures !SignedIn(old(session)) ==> r == Err(Unauthorized) && unchanged(this)
      ensures SignedIn(old(session)) && FindWatchlist(old(watchlists), old(session).value, name).Some? ==>
                r == Err(DuplicateName) && unchanged(this)
      ensures SignedIn(old(session)) && FindWatchlist(old(watchlists), old(session).value, name).None? ==>
                && r == Ok(Watchlist(old(nextId), name, old(session).value, []))
                && watchlists == old(watchlists) + [r.value]
                && users == old(users) && journals == old(journals)
                && session == old(session) && nextId == old(nextId) + 1
                && FindWatchlist(watchlists, session.value, name) == Some(|watchlists| - 1)
                && OwnedWatchlists(watchlists, session.value) == OwnedWatchlists(old(watchlists), session.value) + [r.value]
      ensures r.Ok? ==> forall k :: 0 <= k < |old(watchlists)| ==> old(watchlists)[k].id != r.value.id
      ensures SignedIn(old(session)) ==>
                forall e :: e != old(session).value ==> OwnedWatchlists(watchlists, e) == OwnedWatchlists(old(watchlists), e)
      ensures UniqueKeys(old(watchlists)) ==> UniqueKeys(watchlists)
    {
      if !SignedIn(session) {
        return Err(Unauthorized);
      }
      var email := session.value;
      var existing := FindWatchlist(watchlists, email, name);
      if existing.Some? {
        return Err(DuplicateName);
      }
      var watchlist := Watchlist(nextId, name, email, []);
      AppendFreshKey(watchlists, watchlist);
      forall e ensures OwnedWatchlists(watchlists + [watchlist], e) ==
                         if email == e then OwnedWatchlists(watchlists, e) + [watchlist] else OwnedWatchlists(watchlists, e) {
        AppendWatchlistView(watchlists, watchlist, e);
      }
      watchlists := watchlists + [watchlist];
      nextId := nextId + 1;
      r := Ok(watchlist);
    }

    /** `add_movie_to_watchlist`: `$push`es the movie onto the first
        watchlist with the session's email and that name; 404 when none. */
    method AddMovieToWatchlist(name: string, movie: Movie) returns (r: Result<()>)
      requires Valid()
      modifies this
      ensures Valid()
      ensures !SignedIn(old(session)) ==> r == Err(Unauthorized) && unchanged(this)
      ensures SignedIn(old(session)) && FindWatchlist(old(watchlists), old(session).value, name).None? ==>
                r == Err(NotFound) && unchanged(this)
      ensures SignedIn(old(session)) && FindWatchlist(old(watchlists), old(session).value, name).Some? ==>
                var i := FindWatchlist(old(watchlists), old(session).value, name).value;
                && r == Ok(())
                && watchlists == old(watchlists)[i := old(watchlists)[i].(movies := old(watchlists)[i].movies + [movie])]
                && users == old(users) && journals == old(journals)
                && session == old(session) && nextId == old(nextId)
                && |watchlists[i].movies| == |old(watchlists)[i].movies| + 1
                && watchlists[i].movies[|watchlists[i].movies| - 1] == movie
                && FindWatchlist(watchlists, session.value, name) == Some(i)
      ensures SignedIn(old(session)) ==>
                forall e :: e != old(session).value ==> OwnedWatchlists(watchlists, e) == OwnedWatchlists(old(watchlists), e)
      ensures UniqueKeys(old(watchlists)) ==> UniqueKeys(watchlists)
    {
      if !SignedIn(session) {
        return Err(Unauthorized);
      }
      var email := session.value;
      var matched := FindWatchlist(watchlists, email, name);
      if matched.None? {
        return Err(NotFound);
      }
      var i := matched.value;
      FindWatchlistMeansKey(watchlists, email, name);
      var updated := watchlists[i].(movies := watchlists[i].movies + [movie]);
      UpdateKeepsFirstMatch(watchlists, i, updated);
      forall e | e != email ensures OwnedWatchlists(watchlists[i := updated], e) == OwnedWatchlists(watchlists, e) {
        UpdateWatchlistView(watchlists, i, updated, e);
      }
      watchlists := watchlists[i := updated];
      r := Ok(());
    }

    /** `get_watchlists`: the session owner's watchlists, in store order. */
    method GetWatchlists() returns (r: Result<seq<Watchlist>>)
      ensures !SignedIn(session) ==> r == Err(Unauthorized)
      ensures SignedIn(session) ==> r == Ok(OwnedWatchlists(watchlists, session.value))
      ensures r.Ok? ==> forall k :: 0 <= k < |r.value| ==> r.value[k] in watchlists && r.value[k].userEmail == session.value
      ensures r.Ok? ==> forall k :: 0 <= k < |watchlists| && watchlists[k].userEmail == session.value ==> watchlists[k] in r.value
    {
      if !SignedIn(session) {
        return Err(Unauthorized);
      }
      OwnedWatchlistsExactly(watchlists, session.value);
      r := Ok(OwnedWatchlists(watchlists, session.value));
    }

    /** `add_journal_entry`: appends an entry owned by the session's email,
        with no check of any kind. */
    method AddJournalEntry(movieTitle: string, entry: string, date: string) returns (r: Result<JournalEntry>)
      requires Valid()
      modifies this
      ensures Valid()
      ensures !SignedIn(old(session)) ==> r == Err(Unauthorized) && unchanged(this)
      ensures SignedIn(old(session)) ==>
                && r == Ok(JournalEntry(old(nextId), old(session).value, movieTitle, entry, date))
                && journals == old(journals) + [r.value]
                && users == old(users) && watchlists == old(watchlists)
                && session == old(session) && nextId == old(nextId) + 1
                && OwnedEntries(journals, session.value) == OwnedEntries(old(journals), session.value) + [r.value]
      ensures r.Ok? ==> forall k :: 0 <= k < |old(journals)| ==> old(journals)[k].id != r.value.id
      ensures SignedIn(old(session)) ==>
                forall e :: e != old(session).value ==> OwnedEntries(journals, e) == OwnedEntries(old(journals), e)
    {
      if !SignedIn(session) {
        return Err(Unauthorized);
      }
      var email := session.value;
      var journalEntry := JournalEntry(nextId, email, movieTitle, entry, date);
      forall e ensures OwnedEntries(journals + [journalEntry], e) ==
                         if email == e then OwnedEntries(journals, e) + [journalEntry] else OwnedEntries(journals, e) {
        AppendEntryView(journals, journalEntry, e);
      }
      journals := journals + [journalEntry];
      nextId := nextId + 1;
      r := Ok(journalEntry);
    }

    /** `get_journal_entries`: the session owner's entries, in store order. */
    method GetJournalEntries() returns (r: Result<seq<JournalEntry>>)
      ensures !SignedIn(session) ==> r == Err(Unauthorized)
      ensures SignedIn(session) ==> r == Ok(OwnedEntries(journals, session.value))
      ensures r.Ok? ==> forall k :: 0 <= k < |r.value| ==> r.value[k] in journals && r.value[k].userEmail == session.value
      ensures r.Ok? ==> forall k :: 0 <= k < |journals| && journals[k].userEmail == session.value ==> journals[k] in r.value
    {
      if !SignedIn(session) {
        return Err(Unauthorized);
      }
      OwnedEntriesExactly(journals, session.value);
      r := Ok(OwnedEntries(journals, session.value));
    }

    /** `get_watchlist`: the first watchlist with the session's email and
        that name; 404 exactly when there is none. */
    method GetWatchlist(name: string) returns (r: Result<Watchlist>)
      ensures !SignedIn(session) ==> r == Err(Unauthorized)
      ensures SignedIn(session) ==>
                (r == Err(NotFound) <==>
                 forall k :: 0 <= k < |watchlists| ==> !(watchlists[k].userEmail == session.value && watchlists[k].name == name))
      ensures SignedIn(session) && FindWatchlist(watchlists, session.value, name).Some? ==>
                r == Ok(watchlists[FindWatchlist(watchlists, session.value, name).value])
      ensures r.Ok? ==> r.value in watchlists && r.value.userEmail == session.value && r.value.name == name
    {
      if !SignedIn(session) {
        return Err(Unauthorized);
      }
      var found := FindWatchlist(watchlists, session.value, name);
      FindWatchlistMeansKey(watchlists, session.value, name);
      if found.None? {
        return Err(NotFound);
      }
      r := Ok(watchlists[found.value]);
    }

    /** `get_watchlist_cover`, with the missing imports supplied: the cover
        laid out from the posters of the watchlist's first four movies.
        `fetch` stands for the HTTP request to the image origin and the
        decoding of its answer; the route catches nothing, so a fetch that
        raises makes it answer 500. */
    method GetWatchlistCover<P>(name: string, fetch: string -> Fetched<P>) returns (r: Result<Cover<P>>)
      ensures !SignedIn(session) ==> r == Err(Unauthorized)
      ensures SignedIn(session) && FindWatchlist(watchlists, session.value, name).None? ==> r == Err(NotFound)
      ensures SignedIn(session) && FindWatchlist(watchlists, session.value, name).Some? ==>
                var first := FirstMovies(watchlists[FindWatchlist(watchlists, session.value, name).value].movies);
                r == if AnyRaised(first, fetch) then Err(ServerError) else Ok(Layout(Posters(first, fetch)))
      ensures r.Err? ==> HttpStatus(r.error) == (if !SignedIn(session) then 401 else if r.error == NotFound then 404 else 500)
      ensures r.Ok? && r.value.Collage? ==>
                && 2 <= |r.value.cells| <= MaxPosters
                && r.value.width == 2 * CellWidth
                && (r.value.height == CellHeight || r.value.height == 2 * CellHeight)
    {
      if !SignedIn(session) {
        return Err(Unauthorized);
      }
      var found := FindWatchlist(watchlists, session.value, name);
      if found.None? {
        return Err(NotFound);
      }
      var collected := CollectPosters(watchlists[found.value].movies, fetch);
      if collected.Err? {
        return Err(collected.error);
      }
      var posters := collected.value;
      var cover := Compose(posters);
      if |posters| >= 2 {
        CollageCanvas(posters);
      }
      r := Ok(cover);
    }
  }

  /** How the cover route as written ends: refused by its guard or by its
      lookup, or stopped by a NameError raised at a line of app.py, which
      Flask answers with 500. It has no way to send an image. */
  datatype RouteEnd = Refused(error: Error) | NameErrorAt(line: nat)

  /** `requests` is never imported, so every poster request raises: a fetch
      whose every outcome is Raised. */
  const UnboundRequests: string -> Fetched<()> := (url: string) => Raised

  /** The cover route exactly as app.py has it. None of `requests`, `Image`,
      `BytesIO`, `math` and `send_file` is imported. The guard and the lookup
      run as in GetWatchlistCover; the poster loop runs with UnboundRequests;
      each later step stops at the first unbound name it uses. */
  function CoverRouteAsWritten(session: Option<string>, ws: seq<Watchlist>, name: string): (r: RouteEnd)
    ensures r.Refused? <==> !SignedIn(session) || FindWatchlist(ws, session.value, name).None?
    ensures r == Refused(Unauthorized) <==> !SignedIn(session)
  {
    if !SignedIn(session) then Refused(Unauthorized)
    else match FindWatchlist(ws, session.value, name)
      case None => Refused(NotFound)
      case Some(i) =>
        var first := FirstMovies(ws[i].movies);
        if AnyRaised(first, UnboundRequests) then NameErrorAt(211)  // `requests.get`
        else
          var posters := Posters(first, UnboundRequests);
          if posters == [] then NameErrorAt(217)                    // `send_file`, default cover
          else if |posters| == 1 then NameErrorAt(241)              // `BytesIO`, after `collage = posters[0]`
          else NameErrorAt(225)                                     // `math.ceil`
  }

  /** With `requests` unbound, the poster loop raises exactly when one of the
      movies has a poster path, and otherwise gathers no poster. */
  lemma UnboundRequestsRaise(first: seq<Movie>)
    ensures AnyRaised(first, UnboundRequests) <==> exists k :: 0 <= k < |first| && HasPosterPath(first[k])
    ensures !AnyRaised(first, UnboundRequests) ==> Posters(first, UnboundRequests) == []
  {
    if !AnyRaised(first, UnboundRequests) {
      NoneFetchedGivesNone(first, UnboundRequests);
    }
  }

  /** As written, every request that gets past the guard and the lookup
      stops with a NameError: at the poster request when one of the first
      four movies has a poster path, at `send_file` otherwise. The lines
      that build a collage are never reached. */
  lemma CoverRouteAsWrittenFails(session: Option<string>, ws: seq<Watchlist>, name: string, i: nat)
    requires SignedIn(session) && FindWatchlist(ws, session.value, name) == Some(i)
    ensures i < |ws|
    ensures CoverRouteAsWritten(session, ws, name) ==
              if exists k :: 0 <= k < |FirstMovies(ws[i].movies)| && HasPosterPath(FirstMovies(ws[i].movies)[k])
              then NameErrorAt(211) else NameErrorAt(217)
  {
    UnboundRequestsRaise(FirstMovies(ws[i].movies));
  }

  /** Where the two routes part. For a found watchlist none of whose first
      four movies has a poster path, the route with its imports supplied
      (GetWatchlistCover) answers the default cover whatever the fetch does,
      while the route as written raises at `send_file`. */
  lemma {:induction false} CoverRouteDiscrepancy<P>(session: Option<string>, ws: seq<Watchlist>, name: string, i: nat, fetch: string -> Fetched<P>)
    requires SignedIn(session) && FindWatchlist(ws, session.value, name) == Some(i)
    requires forall k :: 0 <= k < |FirstMovies(ws[i].movies)| ==> !HasPosterPath(FirstMovies(ws[i].movies)[k])
    ensures !AnyRaised(FirstMovies(ws[i].movies), fetch)
    ensures Layout(Posters(FirstMovies(ws[i].movies), fetch)) == DefaultCover
    ensures CoverRouteAsWritten(session, ws, name) == NameErrorAt(217)
  {
    var first := FirstMovies(ws[i].movies);
    NoneFetchedGivesNone(first, fetch);
    CoverRouteAsWrittenFails(session, ws, name, i);
  }

  /** The smallest case: "a@x.com" asks for the cover of its watchlist
      "Favorites", which has no movies. */
  lemma EmptyWatchlistCover<P>(fetch: string -> Fetched<P>)
    ensures CoverRouteAsWritten(Some("a@x.com"), [Watchlist(0, "Favorites", "a@x.com", [])], "Favorites") == NameErrorAt(217)
    ensures Layout(Posters(FirstMovies([]), fetch)) == DefaultCover
  {
    var ws := [Watchlist(0, "Favorites", "a@x.com", [])];
    assert KeyIs("a@x.com", "Favorites")(ws[0]);
    CoverRouteDiscrepancy(Some("a@x.com"), ws, "Favorites", 0, fetch);
  }

  /** One user's session: sign in, create "Favorites", be refused a second
      "Favorites". */
  method SignInAndCreate()
  {
    var app := new Backend();
    FindUserMeansEmail([], "a@x.com");
    var login := app.GoogleAuth(Some(Identity("a@x.com", Some("A"))));
    assert login == Ok(User(0, "a@x.com", "A"));

    var created := app.CreateWatchlist("Favorites");
    assert created == Ok(Watchlist(1, "Favorites", "a@x.com", []));
    var again := app.CreateWatchlist("Favorites");
    assert again == Err(DuplicateName);
    assert app.watchlists == [Watchlist(1, "Favorites", "a@x.com", [])];
  }

  /** Then, signed in as "a@x.com" with an empty "Favorites": add a movie,
      miss an unknown watchlist, read "Favorites" back. */
  method AddAndReadBack(app: Backend)
    requires app.Valid()
    requires app.session == Some("a@x.com")
    requires app.watchlists == [Watchlist(1, "Favorites", "a@x.com", [])]
    modifies app
  {
    var dune := Movie("Dune", Some("/abc.jpg"));
    FindWatchlistMeansKey(app.watchlists, "a@x.com", "Favorites");
    var added := app.AddMovieToWatchlist("Favorites", dune);
    assert added == Ok(());
    assert |app.watchlists| == 1;
    assert app.watchlists[0].movies == [] + [dune] == [dune];
    assert app.watchlists == [Watchlist(1, "Favorites", "a@x.com", [dune])];
    FindWatchlistMeansKey(app.watchlists, "a@x.com", "Classics");
    var missing := app.AddMovieToWatchlist("Classics", dune);
    assert missing == Err(NotFound);

    var read := app.GetWatchlist("Favorites");
    assert read == Ok(Watchlist(1, "Favorites", "a@x.com", [dune]));
  }

  /** Two owners may each have a watchlist of the same name: with "a@x.com"
      owning "Favorites", "b@y.com" signs in and creates its own. */
  method SameNameTwoOwners(app: Backend)
    requires app.Valid()
    requires app.watchlists == [Watchlist(1, "Favorites", "a@x.com", [])]
    modifies app
  {
    ghost var ws := app.watchlists;
    var second := app.GoogleAuth(Some(Identity("b@y.com", Some("B"))));
    assert second.Ok? && second.value.email == "b@y.com";
    assert "a@x.com"[0] != "b@y.com"[0];
    FindWatchlistMeansKey(ws, "b@y.com", "Favorites");
    var theirs := app.CreateWatchlist("Favorites");
    assert theirs == Ok(Watchlist(theirs.value.id, "Favorites", "b@y.com", []));
    assert app.watchlists == ws + [theirs.value];
  }

  /** The name claim is read only for a new user: a returning user signs in
      without one, a new user without one is refused. */
  method SignInWithoutName(app: Backend)
    requires app.Valid()
    requires app.users == [User(0, "a@x.com", "A")]
    modifies app
  {
    FindUserMeansEmail(app.users, "a@x.com");
    var again := app.GoogleAuth(Some(Identity("a@x.com", None)));
    assert again == Ok(User(0, "a@x.com", "A"));
    assert "a@x.com"[0] != "c@z.com"[0];
    FindUserMeansEmail(app.users, "c@z.com");
    var stranger := app.GoogleAuth(Some(Identity("c@z.com", None)));
    assert stranger == Err(AuthenticationFailed);
    assert app.session == Some("a@x.com");
  }
}
