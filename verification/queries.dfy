/** The document-store queries the handlers issue, over collections held as
    sequences in store order: `find` (every match, in order), `find_one` and
    the target of `update_one` (the first match), and the owner-scoped views
    built from them. */
module Queries {
  import opened Records

  /** `find(filter)`: the records satisfying `p`, in store order. */
  function Filter<T>(s: seq<T>, p: T -> bool): (r: seq<T>)
    ensures |r| <= |s|
    ensures forall k :: 0 <= k < |r| ==> r[k] in s && p(r[k])
    ensures forall k :: 0 <= k < |s| && p(s[k]) ==> s[k] in r
  {
    if s == [] then []
    else (if p(s[0]) then [s[0]] else []) + Filter(s[1..], p)
  }

  /** `find_one(filter)`: the position of the first record satisfying `p`. */
  function FirstMatch<T>(s: seq<T>, p: T -> bool): (r: Option<nat>)
    ensures r.Some? ==> r.value < |s| && p(s[r.value])
    ensures r.Some? ==> forall j :: 0 <= j < r.value ==> !p(s[j])
    ensures r.None? ==> forall j :: 0 <= j < |s| ==> !p(s[j])
  {
    if s == [] then None
    else if p(s[0]) then Some(0)
    else match FirstMatch(s[1..], p)
      case None => None
      case Some(k) => Some(k + 1)
  }

  /** Filtering commutes with concatenation: the result keeps store order. */
  lemma {:induction false} FilterAppend<T>(a: seq<T>, b: seq<T>, p: T -> bool)
    ensures Filter(a + b, p) == Filter(a, p) + Filter(b, p)
  {
    if a == [] {
      assert a + b == b;
    } else {
      assert (a + b)[0] == a[0];
      assert (a + b)[1..] == a[1..] + b;
      FilterAppend(a[1..], b, p);
    }
  }

  /** Replacing a record that the filter rejects by another one it rejects
      leaves the filtered view as it was. */
  lemma {:induction false} FilterUpdateRejected<T>(s: seq<T>, i: nat, x: T, p: T -> bool)
    requires i < |s| && !p(s[i]) && !p(x)
    ensures Filter(s[i := x], p) == Filter(s, p)
  {
    if i == 0 {
      assert s[i := x][1..] == s[1..];
    } else {
      assert s[i := x][0] == s[0];
      assert s[i := x][1..] == s[1..][i - 1 := x];
      FilterUpdateRejected(s[1..], i - 1, x, p);
    }
  }

  // Query filters used by the handlers.

  function EmailIs(email: string): (p: User -> bool)
  {
    (u: User) => u.email == email
  }

  function OwnerIs(email: string): (p: Watchlist -> bool)
  {
    (w: Watchlist) => w.userEmail == email
  }

  function KeyIs(email: string, name: string): (p: Watchlist -> bool)
  {
    (w: Watchlist) => w.userEmail == email && w.name == name
  }

  function EntryOwnerIs(email: string): (p: JournalEntry -> bool)
  {
    (e: JournalEntry) => e.userEmail == email
  }

  /** `users_collection.find_one({"email": email})`. */
  function FindUser(users: seq<User>, email: string): (r: Option<nat>)
  {
    FirstMatch(users, EmailIs(email))
  }

  /** `watchlists_collection.find_one({"user_email": email, "name": name})`. */
  function FindWatchlist(ws: seq<Watchlist>, email: string, name: string): (r: Option<nat>)
  {
    FirstMatch(ws, KeyIs(email, name))
  }

  /** `watchlists_collection.find({"user_email": email})`. */
  function OwnedWatchlists(ws: seq<Watchlist>, email: string): (r: seq<Watchlist>)
  {
    Filter(ws, OwnerIs(email))
  }

  /** `journals_collection.find({"user_email": email})`. */
  function OwnedEntries(js: seq<JournalEntry>, email: string): (r: seq<JournalEntry>)
  {
    Filter(js, EntryOwnerIs(email))
  }

  /** No owner has two watchlists of the same name. The store does not
      enforce this; only the duplicate check of create_watchlist does. */
  ghost predicate UniqueKeys(ws: seq<Watchlist>)
  {
    forall i, j :: 0 <= i < j < |ws| && ws[i].userEmail == ws[j].userEmail ==> ws[i].name != ws[j].name
  }

  /** No two users share an email. */
  ghost predicate UniqueEmails(users: seq<User>)
  {
    forall i, j :: 0 <= i < j < |users| ==> users[i].email != users[j].email
  }

  /** A lookup by email finds the user with that email, and finds nothing
      exactly when no user has it. */
  lemma FindUserMeansEmail(users: seq<User>, email: string)
    ensures FindUser(users, email).Some? ==>
              FindUser(users, email).value < |users| && users[FindUser(users, email).value].email == email
    ensures FindUser(users, email).None? <==> forall k :: 0 <= k < |users| ==> users[k].email != email
  {
  }

  /** A lookup by (owner, name) finds a watchlist with that key, and finds
      nothing exactly when no watchlist has it. */
  lemma FindWatchlistMeansKey(ws: seq<Watchlist>, email: string, name: string)
    ensures FindWatchlist(ws, email, name).Some? ==>
              var i := FindWatchlist(ws, email, name).value;
              i < |ws| && ws[i].userEmail == email && ws[i].name == name
    ensures FindWatchlist(ws, email, name).None? <==>
              forall k :: 0 <= k < |ws| ==> !(ws[k].userEmail == email && ws[k].name == name)
  {
  }

  /** When keys are unique, the lookup by a watchlist's own key finds that
      very watchlist: `find_one` is a lookup by key. */
  lemma FindUniqueKey(ws: seq<Watchlist>, k: nat)
    requires UniqueKeys(ws) && k < |ws|
    ensures FindWatchlist(ws, ws[k].userEmail, ws[k].name) == Some(k)
  {
  }

  /** Appending a watchlist whose key is not yet taken makes it the one the
      lookup by that key finds, and keeps keys unique. */
  lemma AppendFreshKey(ws: seq<Watchlist>, w: Watchlist)
    requires FindWatchlist(ws, w.userEmail, w.name).None?
    ensures FindWatchlist(ws + [w], w.userEmail, w.name) == Some(|ws|)
    ensures UniqueKeys(ws) ==> UniqueKeys(ws + [w])
  {
    FindWatchlistMeansKey(ws, w.userEmail, w.name);
    var p := KeyIs(w.userEmail, w.name);
    assert p((ws + [w])[|ws|]);
    assert forall j :: 0 <= j < |ws| ==> (ws + [w])[j] == ws[j];
  }

  /** A user appended with an email not yet taken is the one the lookup by
      that email finds, and emails stay unique. */
  lemma AppendFreshEmail(users: seq<User>, u: User)
    requires FindUser(users, u.email).None?
    ensures FindUser(users + [u], u.email) == Some(|users|)
    ensures UniqueEmails(users) ==> UniqueEmails(users + [u])
  {
    FindUserMeansEmail(users, u.email);
    var p := EmailIs(u.email);
    assert p((users + [u])[|users|]);
    assert forall j :: 0 <= j < |users| ==> (users + [u])[j] == users[j];
  }

  /** The owner's listing holds exactly that owner's watchlists. */
  lemma OwnedWatchlistsExactly(ws: seq<Watchlist>, email: string)
    ensures forall k :: 0 <= k < |OwnedWatchlists(ws, email)| ==>
              OwnedWatchlists(ws, email)[k] in ws && OwnedWatchlists(ws, email)[k].userEmail == email
    ensures forall k :: 0 <= k < |ws| && ws[k].userEmail == email ==> ws[k] in OwnedWatchlists(ws, email)
  {
  }

  /** The owner's journal listing holds exactly that owner's entries. */
  lemma OwnedEntriesExactly(js: seq<JournalEntry>, email: string)
    ensures forall k :: 0 <= k < |OwnedEntries(js, email)| ==>
              OwnedEntries(js, email)[k] in js && OwnedEntries(js, email)[k].userEmail == email
    ensures forall k :: 0 <= k < |js| && js[k].userEmail == email ==> js[k] in OwnedEntries(js, email)
  {
  }

  /** A watchlist appended at the end shows up last in its owner's listing
      and leaves every other owner's listing unchanged. */
  lemma {:induction false} AppendWatchlistView(ws: seq<Watchlist>, w: Watchlist, email: string)
    ensures OwnedWatchlists(ws + [w], email) ==
              if w.userEmail == email then OwnedWatchlists(ws, email) + [w] else OwnedWatchlists(ws, email)
  {
    FilterAppend(ws, [w], OwnerIs(email));
    assert [w][1..] == [];
  }

  /** A journal entry appended at the end shows up last in its owner's
      listing and leaves every other owner's listing unchanged. */
  lemma {:induction false} AppendEntryView(js: seq<JournalEntry>, j: JournalEntry, email: string)
    ensures OwnedEntries(js + [j], email) ==
              if j.userEmail == email then OwnedEntries(js, email) + [j] else OwnedEntries(js, email)
  {
    FilterAppend(js, [j], EntryOwnerIs(email));
    assert [j][1..] == [];
  }

  /** Rewriting one owner's watchlist in place, owner kept, leaves every other
      owner's listing unchanged. */
  lemma UpdateWatchlistView(ws: seq<Watchlist>, i: nat, w: Watchlist, email: string)
    requires i < |ws| && w.userEmail == ws[i].userEmail && ws[i].userEmail != email
    ensures OwnedWatchlists(ws[i := w], email) == OwnedWatchlists(ws, email)
  {
    FilterUpdateRejected(ws, i, w, OwnerIs(email));
  }

  /** Rewriting a watchlist in place with its key kept, the first match for
      that key is still the same position. */
  lemma UpdateKeepsFirstMatch(ws: seq<Watchlist>, i: nat, w: Watchlist)
    requires i < |ws| && FindWatchlist(ws, w.userEmail, w.name) == Some(i)
    ensures FindWatchlist(ws[i := w], w.userEmail, w.name) == Some(i)
  {
    var p := KeyIs(w.userEmail, w.name);
    var r := FirstMatch(ws[i := w], p);
    assert p(ws[i := w][i]);
    assert r.Some?;
  }
}
