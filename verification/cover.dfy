/** The watchlist cover: which posters are used and where each one lands on
    the collage. Posters are opaque values of a type parameter `P`; fetching
    one is an oracle `fetch` from the poster's URL to its outcome (Fetched). */
module Cover {
  import opened Records

  /** What requesting a poster URL and decoding the answer comes to. */
  datatype Fetched<P> =
    | Image(image: P)  // the image origin answered 200 and the body decoded
    | OtherStatus      // the image origin answered with a status other than 200
    | Raised           // the request raised, or a 200 body did not decode

  const ImageOrigin := "https://image.tmdb.org/t/p/w500"
  /** Only the first four movies of a watchlist are considered. */
  const MaxPosters := 4
  /** Every poster of a collage is resized to one cell of this size. */
  const CellWidth := 600
  const CellHeight := 900

  /** `movie.get("poster_path")` is truthy: present and not empty. */
  predicate HasPosterPath(m: Movie)
  {
    m.posterPath.Some? && m.posterPath.value != ""
  }

  /** The URL a movie's poster is requested from. */
  function PosterUrl(m: Movie): (url: string)
    requires HasPosterPath(m)
    ensures |url| > |ImageOrigin| && url[..|ImageOrigin|] == ImageOrigin
    ensures url[|ImageOrigin|..] == m.posterPath.value
  {
    ImageOrigin + m.posterPath.value
  }

  /** The poster a movie contributes: none without a poster path, otherwise
      the image its fetch yields, if any. */
  function PosterOf<P>(m: Movie, fetch: string -> Fetched<P>): (r: Option<P>)
    ensures !HasPosterPath(m) ==> r.None? && !RaisedAt(m, fetch)
    ensures HasPosterPath(m) ==>
              (r.Some? <==> !RaisedAt(m, fetch) && !fetch(PosterUrl(m)).OtherStatus?)
  {
    if HasPosterPath(m) && fetch(PosterUrl(m)).Image? then Some(fetch(PosterUrl(m)).image) else None
  }

  /** The movie's poster is requested, and the request or the decoding raises. */
  predicate RaisedAt<P>(m: Movie, fetch: string -> Fetched<P>)
  {
    HasPosterPath(m) && fetch(PosterUrl(m)).Raised?
  }

  /** Some movie of `ms` makes the poster loop raise. */
  predicate AnyRaised<P>(ms: seq<Movie>, fetch: string -> Fetched<P>)
  {
    exists j :: 0 <= j < |ms| && RaisedAt(ms[j], fetch)
  }

  /** `movies[:4]`. */
  function FirstMovies(movies: seq<Movie>): (r: seq<Movie>)
    ensures |r| <= MaxPosters
    ensures |r| == if |movies| < MaxPosters then |movies| else MaxPosters
    ensures forall k :: 0 <= k < |r| ==> r[k] == movies[k]
  {
    if |movies| <= MaxPosters then movies else movies[..MaxPosters]
  }

  /** The posters obtained from `ms`, one per movie that has a poster path
      whose fetch succeeded, in the movies' order. */
  function Posters<P>(ms: seq<Movie>, fetch: string -> Fetched<P>): (r: seq<P>)
    ensures |r| <= |ms|
  {
    if ms == [] then []
    else
      (match PosterOf(ms[0], fetch) case Some(p) => [p] case None => [])
      + Posters(ms[1..], fetch)
  }

  /** Poster selection keeps the movies' order: the posters of a
      concatenation are those of each part, one after the other. */
  lemma {:induction false} PostersAppend<P>(a: seq<Movie>, b: seq<Movie>, fetch: string -> Fetched<P>)
    ensures Posters(a + b, fetch) == Posters(a, fetch) + Posters(b, fetch)
  {
    if a == [] {
      assert a + b == b;
    } else {
      assert (a + b)[0] == a[0];
      assert (a + b)[1..] == a[1..] + b;
      PostersAppend(a[1..], b, fetch);
    }
  }

  /** One more movie adds its poster, if it yields one, after the others. */
  lemma PostersStep<P>(ms: seq<Movie>, i: nat, fetch: string -> Fetched<P>)
    requires i < |ms|
    ensures Posters(ms[..i + 1], fetch) ==
              Posters(ms[..i], fetch) + (if PosterOf(ms[i], fetch).Some? then [PosterOf(ms[i], fetch).value] else [])
  {
    assert ms[..i + 1] == ms[..i] + [ms[i]];
    PostersAppend(ms[..i], [ms[i]], fetch);
    assert [ms[i]][1..] == [];
  }

  /** Every poster comes from one of the movies, through a successful fetch
      of its poster path. */
  lemma {:induction false} PostersComeFromMovies<P>(ms: seq<Movie>, fetch: string -> Fetched<P>, k: nat)
    requires k < |Posters(ms, fetch)|
    ensures exists j :: 0 <= j < |ms| && HasPosterPath(ms[j]) && PosterOf(ms[j], fetch) == Some(Posters(ms, fetch)[k])
  {
    var head := match PosterOf(ms[0], fetch) case Some(p) => [p] case None => [];
    assert Posters(ms, fetch) == head + Posters(ms[1..], fetch);
    if k < |head| {
      assert HasPosterPath(ms[0]) && PosterOf(ms[0], fetch) == Some(Posters(ms, fetch)[k]);
    } else {
      PostersComeFromMovies(ms[1..], fetch, k - |head|);
      var j :| 0 <= j < |ms[1..]| && HasPosterPath(ms[1..][j]) && PosterOf(ms[1..][j], fetch) == Some(Posters(ms[1..], fetch)[k - |head|]);
      assert ms[1..][j] == ms[j + 1];
    }
  }

  /** When every fetch succeeds, each movie gives its poster, in order. */
  lemma {:induction false} AllFetchedKeepsAll<P>(ms: seq<Movie>, fetch: string -> Fetched<P>)
    requires forall j :: 0 <= j < |ms| ==> PosterOf(ms[j], fetch).Some?
    ensures |Posters(ms, fetch)| == |ms|
    ensures forall j :: 0 <= j < |ms| ==> Posters(ms, fetch)[j] == PosterOf(ms[j], fetch).value
  {
    if ms != [] {
      assert forall j :: 0 <= j < |ms[1..]| ==> ms[1..][j] == ms[j + 1];
      AllFetchedKeepsAll(ms[1..], fetch);
    }
  }

  /** When no movie gives a poster, there are none, and the default cover is
      used. */
  lemma {:induction false} NoneFetchedGivesNone<P>(ms: seq<Movie>, fetch: string -> Fetched<P>)
    requires forall j :: 0 <= j < |ms| ==> PosterOf(ms[j], fetch).None?
    ensures Posters(ms, fetch) == []
  {
    if ms != [] {
      assert forall j :: 0 <= j < |ms[1..]| ==> ms[1..][j] == ms[j + 1];
      NoneFetchedGivesNone(ms[1..], fetch);
    }
  }

  /** The poster-gathering loop over the first four movies. A fetch that
      raises leaves the route, which then answers 500. */
  method CollectPosters<P>(movies: seq<Movie>, fetch: string -> Fetched<P>) returns (r: Result<seq<P>>)
    ensures r.Err? <==> AnyRaised(FirstMovies(movies), fetch)
    ensures r.Err? ==> r.error == ServerError && HttpStatus(r.error) == 500
    ensures r.Ok? ==> r.value == Posters(FirstMovies(movies), fetch) && |r.value| <= MaxPosters
  {
    var first := FirstMovies(movies);
    var posters: seq<P> := [];
    for i := 0 to |first|
      invariant posters == Posters(first[..i], fetch)
      invariant forall j :: 0 <= j < i ==> !RaisedAt(first[j], fetch)
    {
      var movie := first[i];
      PostersStep(first, i, fetch);
      if HasPosterPath(movie) {
        var response := fetch(PosterUrl(movie));
        if response.Raised? {
          assert RaisedAt(first[i], fetch);
          return Err(ServerError);
        }
        if response.Image? {
          assert PosterOf(movie, fetch) == Some(response.image);
          posters := posters + [response.image];
        } else {
          assert PosterOf(movie, fetch) == None;
        }
      } else {
        assert PosterOf(movie, fetch) == None;
      }
    }
    assert first[..|first|] == first;
    r := Ok(posters);
  }

  // Grid layout of a collage of n >= 2 posters.

  /** `min(2, n)`. */
  function Cols(n: nat): (cols: nat)
    ensures cols <= n && cols <= 2
    ensures cols == n || cols == 2
  {
    if n < 2 then n else 2
  }

  /** `math.ceil(n / cols)`. */
  function Rows(n: nat): (rows: nat)
    requires n >= 1
    ensures 1 <= rows <= n
  {
    (n + Cols(n) - 1) / Cols(n)
  }

  /** A poster pasted with its top-left corner at (x, y). */
  datatype Placement<P> = Placement(poster: P, x: nat, y: nat)

  /** The image the route sends back. */
  datatype Cover<P> =
    | DefaultCover                                                   // the bundled default image
    | Raw(poster: P)                                                 // a lone poster, not resized
    | Collage(width: nat, height: nat, cells: seq<Placement<P>>)     // a canvas with resized posters

  /** The cover made from the gathered posters. */
  function Layout<P>(posters: seq<P>): (c: Cover<P>)
    ensures c.DefaultCover? <==> posters == []
    ensures |posters| == 1 ==> c == Raw(posters[0])
    ensures c.Collage? <==> |posters| >= 2
    ensures c.Collage? ==> |c.cells| == |posters|
    ensures c.Collage? ==> forall i :: 0 <= i < |posters| ==> c.cells[i].poster == posters[i]
  {
    var n := |posters|;
    if n == 0 then DefaultCover
    else if n == 1 then Raw(posters[0])
    else
      var cols := Cols(n);
      Collage(CellWidth * cols, CellHeight * Rows(n),
              seq(n, i requires 0 <= i < n => Placement(posters[i], (i % cols) * CellWidth, (i / cols) * CellHeight)))
  }

  /** Building the collage: the canvas, then the paste loop in poster order. */
  method Compose<P>(posters: seq<P>) returns (c: Cover<P>)
    ensures c == Layout(posters)
  {
    var n := |posters|;
    if n == 0 {
      return DefaultCover;
    }
    if n == 1 {
      return Raw(posters[0]);
    }
    var cols := Cols(n);
    var rows := Rows(n);
    var cells: seq<Placement<P>> := [];
    for i := 0 to n
      invariant |cells| == i
      invariant forall k :: 0 <= k < i ==> cells[k] == Placement(posters[k], (k % cols) * CellWidth, (k / cols) * CellHeight)
    {
      var row := i / cols;
      var col := i % cols;
      cells := cells + [Placement(posters[i], col * CellWidth, row * CellHeight)];
    }
    c := Collage(CellWidth * cols, CellHeight * rows, cells);
  }

  /** `rows` is the ceiling of n / cols: the rows hold every poster, and
      fewer than one row's worth of cells stays blank. */
  lemma RowsIsCeiling(n: nat)
    requires n >= 1
    ensures Cols(n) >= 1
    ensures n <= Rows(n) * Cols(n) < n + Cols(n)
  {
  }

  /** Canvas size by poster count: 2 posters give 1200 x 900; 3 or 4 give
      1200 x 1800. */
  lemma CollageCanvas<P>(posters: seq<P>)
    requires 2 <= |posters| <= MaxPosters
    ensures Layout(posters).width == 2 * CellWidth
    ensures Layout(posters).height == if |posters| == 2 then CellHeight else 2 * CellHeight
  {
  }

  /** Each pasted poster lies wholly inside the canvas. */
  lemma CellInsideCanvas<P>(posters: seq<P>, i: nat)
    requires 2 <= |posters| && i < |posters|
    ensures Layout(posters).cells[i].x + CellWidth <= Layout(posters).width
    ensures Layout(posters).cells[i].y + CellHeight <= Layout(posters).height
  {
  }

  /** No two posters are pasted at the same place. */
  lemma CellsDistinct<P>(posters: seq<P>, i: nat, j: nat)
    requires 2 <= |posters| && i < |posters| && j < |posters| && i != j
    ensures (Layout(posters).cells[i].x, Layout(posters).cells[i].y) != (Layout(posters).cells[j].x, Layout(posters).cells[j].y)
  {
  }

  /** Cells fill row-major: the cell at column x / 600 of row y / 900 holds
      poster row * cols + column, so the left-to-right, top-to-bottom reading
      order is the posters' order. */
  lemma CellsRowMajor<P>(posters: seq<P>, i: nat)
    requires 2 <= |posters| && i < |posters|
    ensures Layout(posters).cells[i].x / CellWidth < Cols(|posters|)
    ensures (Layout(posters).cells[i].y / CellHeight) * Cols(|posters|) + Layout(posters).cells[i].x / CellWidth == i
  {
  }
}
