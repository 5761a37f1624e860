# Watchlist and journal backend: a Dafny model

This project models the core of a small Flask backend for a movie
watchlist and journal application (`app.py`). It has two parts.

**The per-user store.** Three collections are held as sequences in store
order: users, watchlists and journal entries. A session value
`user_email` may be absent. Class `Store.Backend` holds all of it, and
each request handler is one method on it:

- `GoogleAuth` signs a user in.
- `CreateWatchlist`, `AddMovieToWatchlist`, `GetWatchlists` and
  `GetWatchlist` work on watchlists.
- `AddJournalEntry` and `GetJournalEntries` work on journal entries.
- `GetWatchlistCover` builds the watchlist cover.

Each guarded handler starts with the same check: if the session holds no
truthy email, it answers 401 (`Unauthorized`) and changes nothing. The
document-store queries are modelled in module `Queries`:

- `find` is `Filter`: every match, in store order.
- `find_one`, and the document that `update_one` modifies, is
  `FirstMatch`: the first match.

The owner-scoped views are built from these two functions.

**The cover composer** (module `Cover`):

- It takes the first four movies.
- It keeps the poster of each movie that has a truthy `poster_path`
  and whose fetch succeeded. The fetch is an oracle parameter with three
  outcomes: an image (status 200, body decoded), another status (the
  movie is skipped), or a raised exception (the route answers 500).
- 0 posters give the default cover. 1 poster is used raw, without
  resizing. 2 to 4 posters give a grid of 600 x 900 cells with
  `cols = min(2, n)` and `rows = ceil(n / cols)`. Poster `i` goes at
  `((i % cols) * 600, (i // cols) * 900)`.

Posters are opaque values of a type parameter. The model keeps only the
counts, the order and the coordinates.

Files: `records.dfy` holds the records, errors and the session guard.
`queries.dfy` holds the store queries and their lemmas. `cover.dfy` holds
poster selection and the grid layout. `store.dfy` holds the handlers and
the cover route as written.

## Model

| member | source | states |
|---|---|---|
| Queries.Filter | app.py:136 | `find` returns only records that are in the collection and satisfy the filter, and every such record; never more records than the collection holds |
| Queries.FirstMatch | app.py:182-185 | `find_one` yields a position holding a match with no match before it, or nothing exactly when no record matches |
| Queries.FindUser | app.py:67 | `users_collection.find_one({"email": ...})`: the first user with that email; FindUserMeansEmail states what it finds |
| Queries.FindWatchlist | app.py:94-97 | `watchlists_collection.find_one({"user_email": ..., "name": ...})`, also at app.py:119-120, 182-185 and 200-203: the first watchlist with that owner and name; FindWatchlistMeansKey states what it finds |
| Queries.OwnedWatchlists | app.py:136 | `watchlists_collection.find({"user_email": ...})`: that owner's watchlists in store order; OwnedWatchlistsExactly states its contents |
| Queries.OwnedEntries | app.py:169 | `journals_collection.find({"user_email": ...})`: that owner's journal entries in store order; OwnedEntriesExactly states its contents |
| Queries.FilterAppend | app.py:136 | `find` keeps store order: the matches of `a + b` are the matches of `a` followed by those of `b` |
| Queries.FilterUpdateRejected | app.py:119-122 | rewriting in place a record the filter rejects, with one it also rejects, leaves the filtered view unchanged |
| Queries.FindUserMeansEmail | app.py:67-68 | the lookup by email finds a user with that email, and finds none exactly when no user has it |
| Queries.FindWatchlistMeansKey | app.py:182-188 | the lookup by (owner, name) finds a watchlist with that key, and finds none exactly when no watchlist has it (the 404 condition) |
| Queries.FindUniqueKey | app.py:94-100 | when (owner, name) keys are unique, looking up a watchlist's own key finds exactly that watchlist |
| Queries.AppendFreshKey | app.py:94-108 | inserting a watchlist whose key is free makes it the one its key finds, and keeps (owner, name) unique |
| Queries.AppendFreshEmail | app.py:67-70 | inserting a user whose email is free makes it the one its email finds, and keeps emails unique |
| Queries.OwnedWatchlistsExactly | app.py:136 | an owner's watchlist listing holds only that owner's watchlists, and all of them |
| Queries.OwnedEntriesExactly | app.py:169 | an owner's journal listing holds only that owner's entries, and all of them |
| Queries.AppendWatchlistView | app.py:103-108 | an inserted watchlist appears last in its owner's listing and changes no other owner's listing |
| Queries.AppendEntryView | app.py:151-157 | an inserted journal entry appears last in its owner's listing and changes no other owner's listing |
| Queries.UpdateWatchlistView | app.py:119-122 | updating a watchlist in place, owner kept, changes no other owner's listing |
| Queries.UpdateKeepsFirstMatch | app.py:119-122 | after the `$push`, the same key still finds the same watchlist |
| Store.Backend.GoogleAuth | app.py:60-79 | failed verification gives 401 and changes nothing; a known email keeps its user (name included) whatever the name claim; a new email without a name claim gives 401 and changes nothing, and with one inserts exactly one user, whose id no earlier user has; on success the session holds the verified email, and email uniqueness is preserved |
| Store.Backend.CreateWatchlist | app.py:83-111 | 401 with nothing changed when signed out; 400 with nothing inserted when the owner already has the name; otherwise exactly one `{name, owner, movies = []}` is appended, with an id no earlier watchlist has. It shows up last in the owner's listing and leaves other owners' listings as they were. (owner, name) uniqueness is preserved |
| Store.Backend.AddMovieToWatchlist | app.py:113-125 | 401 or 404 with nothing changed (no watchlist created); otherwise the movie becomes the last element of the first matching watchlist, whose length grows by one; every other watchlist and every other owner's listing is unchanged |
| Store.Backend.GetWatchlists | app.py:129-141 | 401 when signed out; otherwise exactly the session owner's watchlists, in store order |
| Store.Backend.AddJournalEntry | app.py:144-160 | 401 with nothing changed when signed out; otherwise one entry owned by the session email is appended, unconditionally, with an id no earlier entry has; other owners' listings are unchanged |
| Store.Backend.GetJournalEntries | app.py:163-173 | 401 when signed out; otherwise exactly the session owner's entries, in store order |
| Store.Backend.GetWatchlist | app.py:176-191 | 401 when signed out; 404 exactly when the owner has no watchlist of that name; otherwise the first one, which has that owner and name |
| Store.Backend.GetWatchlistCover | app.py:193-238 | 401 when signed out, 404 when the watchlist is missing; 500 exactly when a poster fetch among its first four movies raises; otherwise the layout of the posters of those movies. A collage then has 2 to 4 cells on a canvas 1200 wide and 900 or 1800 high |
| Store.CoverRouteAsWritten | app.py:193-245 | the cover route as written, with `requests` a fetch that always raises: it is refused (401 or 404) exactly when the guard or the lookup fails, and otherwise ends in a NameError at the first unbound name it reaches; it never sends an image |
| Store.UnboundRequestsRaise | app.py:209-213 | with `requests` unbound, the poster loop raises exactly when one of the first four movies has a truthy poster path, and otherwise gathers no poster |
| Store.CoverRouteAsWrittenFails | app.py:209-217 | past the guard and the lookup the route as written raises NameError (500) at line 211 when a first-four movie has a poster path, and at `send_file` on line 217 otherwise; the collage lines are never reached |
| Store.CoverRouteDiscrepancy | app.py:209-217 | for a found watchlist with no poster paths among its first four movies, the route with its imports supplied answers the default cover for every fetch, while the route as written raises at line 217 |
| Store.EmptyWatchlistCover | app.py:196-217 | the input of the finding: `a@x.com` asking for the cover of its empty `Favorites` gets a NameError at line 217 as written, and the default cover as intended |
| Records.SignedIn | app.py:196-198 | the guard `if not user_email` of every handler but sign-in (also app.py:87, 116, 133, 147, 166, 179): the session value is present and not the empty string |
| Cover.HasPosterPath | app.py:210 | `movie.get("poster_path")` is truthy: present and not empty |
| Cover.PosterOf | app.py:210-213 | a movie without a truthy poster path yields no poster and raises nothing; for one with a path, the three outcomes are exclusive and exhaustive: it yields a poster exactly when its fetch neither raised nor answered another status. PostersStep and PostersComeFromMovies say what the loop makes of it |
| Cover.RaisedAt | app.py:210-213 | the movie's poster is requested and the request or the decoding raises |
| Cover.AnyRaised | app.py:209-213 | some movie among those considered makes the poster loop raise |
| Cover.FirstMovies | app.py:209 | `movies[:4]`: at most four movies, the leading ones, in order |
| Cover.Posters | app.py:209-213 | never more posters than movies considered |
| Cover.PostersAppend | app.py:209-213 | poster selection keeps the movies' order |
| Cover.PostersStep | app.py:210-213 | one iteration of the poster loop appends the movie's poster, if it yields one, after those gathered so far |
| Cover.PostersComeFromMovies | app.py:210-213 | every poster is the successful fetch of a movie with a truthy poster path |
| Cover.AllFetchedKeepsAll | app.py:209-213 | when every fetch succeeds, poster `j` is movie `j`'s poster, none lost |
| Cover.NoneFetchedGivesNone | app.py:209-217 | when no movie yields a poster there are none (the default-cover case) |
| Cover.PosterUrl | app.py:211 | a poster is requested from the image origin followed by exactly the (non-empty) poster path, so distinct paths give distinct URLs |
| Cover.CollectPosters | app.py:208-213 | the loop fails with `ServerError` (status 500) exactly when some fetch among the first four movies raises; otherwise it yields exactly the posters of those movies, in order, at most four |
| Cover.Layout | app.py:215-238 | 0 posters give the default cover, 1 the raw poster, 2 or more a collage with one cell per poster, in poster order |
| Cover.Compose | app.py:220-238 | the canvas-and-paste loop produces the layout |
| Cover.Cols | app.py:224 | `min(2, n)`: at most 2 and at most n, and equal to one of them |
| Cover.Rows | app.py:225 | `math.ceil(n / cols)`: at least one row and never more rows than posters; RowsIsCeiling gives the ceiling |
| Cover.RowsIsCeiling | app.py:224-225 | `rows` is the ceiling of n / cols: all posters fit, and fewer than `cols` cells stay blank |
| Cover.CollageCanvas | app.py:224-232 | the canvas is 1200 x 900 for 2 posters and 1200 x 1800 for 3 or 4 |
| Cover.CellInsideCanvas | app.py:232-238 | every pasted 600 x 900 poster lies inside the canvas |
| Cover.CellsDistinct | app.py:235-238 | no two posters are pasted at the same position |
| Cover.CellsRowMajor | app.py:235-238 | the cell's row and column give back the poster index (row * cols + col): cells fill left to right, top to bottom |

## Left out

- Flask setup, ProxyFix, CORS, the `after_request` header and the session-cookie settings (app.py:13-37): framework configuration with no logic.
- The MongoDB connection and environment loading (app.py:39-56). The collections are in-memory sequences in natural order, and `find_one` and `update_one` act on the first match in that order.
- Store-assigned `_id`s and their stringification: ids are numbers from a counter, and every record's id is below it.
- Google token verification (app.py:64) is an external call. `GoogleAuth` takes its outcome as a parameter: `None` for a refused token or a missing `email` claim, otherwise the verified email and the `name` claim, which may be missing. A missing name raises KeyError (401) only for a new email.
- The poster HTTP request, PIL decoding and resizing, JPEG encoding at quality 85, and `send_file` (app.py:211-245). `fetch` is an oracle from the poster URL (`https://image.tmdb.org/t/p/w500` followed by the path) to an image on status 200, to "other status", or to "raised" when the request raises or a 200 body does not decode. A collage cell records which poster is pasted where; resizing is implied by the cell size. Failures after the posters are gathered (resizing, encoding, a missing default image) are not modelled.
- Cover.CollectPosters: `fetch` is a function of the URL, so two movies with the same poster path get the same outcome; the source requests each one separately and could get different answers.
- Store.Backend.GetWatchlistCover: the request has no timeout, so an image origin that never answers hangs the route; the model has no outcome for that. Two movies with the same poster path share one fetch outcome, as in CollectPosters.
- Request bodies: a missing key (`data["movie"]`, `data["movie_title"]`, `data["entry"]`, `data["date"]`) raises KeyError and gives a 500; this is not modelled. Watchlist names are strings, so a missing `name` (Python `None`) is not modelled.
- Movies carry a title and an optional poster path. The rest of the client's payload is not modelled. A poster path that is not a string is not modelled either.
- `update_one(...).modified_count > 0`: a `$push` always modifies the matched document, so "not modified" is the same as "not matched".
- `rows = math.ceil(n / cols)` uses float division. The model uses integer ceiling division, which agrees for every poster count that can arise (at most 4).
- Store.Backend.GetWatchlistCover: models the route with its missing imports supplied, that is, the evident intent. The route as written fails; see Findings.
- The race between the duplicate check and the insert in `create_watchlist` (app.py:94-108) is concurrency and is not modelled. Neither are the debug `print` calls.

## Findings

| source | as written | input that shows it | evidently intended | confidence | as-written member | corrected member |
|---|---|---|---|---|---|---|
| app.py:1-8, 209-217 | `requests`, `Image`, `BytesIO`, `math` and `send_file` are never imported, so the cover route raises NameError (HTTP 500) whenever the watchlist is found: at line 211 if one of the first four movies has a poster path, otherwise at line 217 | signed in as `a@x.com`, GET the cover of its existing watchlist `Favorites` with no movies: `send_file` is unbound | the default cover for no posters, the raw poster for one, the grid collage for two to four | high; not executed | Store.CoverRouteDiscrepancy | Store.Backend.GetWatchlistCover |
