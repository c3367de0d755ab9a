/** The URL configuration of Backend/urls.py: an ordered list of route
    patterns, tried first to last, the first match winning. `<int:name>`
    captures a run of ASCII digits and passes its integer value to the view
    under that name; `<path:path>` matches any non-empty remainder without a
    line break. Patterns built with path() are anchored at both ends except
    `admin/`, which is an include() and so only a prefix. */
module Urls {
  import opened Common

  /** The ids a route can capture. */
  datatype Param = AuthorId | BookId | ReviewId

  /** The keyword arguments a view receives: exactly the ids its route captured. */
  datatype Kwargs = Kwargs(authorId: Option<nat>, bookId: Option<nat>, reviewId: Option<nat>)
  {
    function Get(p: Param): Option<nat>
    {
      match p
      case AuthorId => authorId
      case BookId => bookId
      case ReviewId => reviewId
    }

    function Set(p: Param, v: nat): (k: Kwargs)
      ensures k.Get(p) == Some(v) && forall q :: q != p ==> k.Get(q) == Get(q)
    {
      match p
      case AuthorId => this.(authorId := Some(v))
      case BookId => this.(bookId := Some(v))
      case ReviewId => this.(reviewId := Some(v))
    }
  }

  const NoKwargs := Kwargs(None, None, None)

  datatype Segment = Lit(text: string) | Int(param: Param) | AnyPath

  /** The views the table routes to. */
  datatype Target = Admin | UserDetails | TokenObtainPair | TokenRefresh | AuthorView | BookView | ReviewView | MethodNotAllowed

  /** One entry of urlpatterns; `endpoint` is false only for an include(), which matches a prefix. */
  datatype Route = Route(segments: seq<Segment>, endpoint: bool, target: Target)

  const AdminRoute := Route([Lit("admin/")], false, Admin)
  const UserDetailsRoute := Route([Lit("user-details/")], true, UserDetails)
  const TokenObtainPairRoute := Route([Lit("api/token/")], true, TokenObtainPair)
  const TokenRefreshRoute := Route([Lit("api/token/refresh/")], true, TokenRefresh)
  const AuthorListRoute := Route([Lit("authors/")], true, AuthorView)
  const AuthorDetailRoute := Route([Lit("authors/"), Int(AuthorId), Lit("/")], true, AuthorView)
  const BookListRoute := Route([Lit("books/")], true, BookView)
  const AuthorBooksRoute := Route([Lit("author/"), Int(AuthorId), Lit("/books/")], true, BookView)
  const BookDetailRoute := Route([Lit("author/"), Int(AuthorId), Lit("/books/"), Int(BookId), Lit("/")], true, BookView)
  const ReviewListRoute := Route([Lit("reviews/")], true, ReviewView)
  const BookReviewsRoute := Route([Lit("author/"), Int(AuthorId), Lit("/book/"), Int(BookId), Lit("/reviews")], true, ReviewView)
  const ReviewDetailRoute :=
    Route([Lit("author/"), Int(AuthorId), Lit("/book/"), Int(BookId), Lit("/reviews/"), Int(ReviewId), Lit("/")], true, ReviewView)
  const CatchAllRoute := Route([AnyPath], true, MethodNotAllowed)

  /** urlpatterns, in order. */
  const UrlPatterns: seq<Route> := [
    AdminRoute, UserDetailsRoute, TokenObtainPairRoute, TokenRefreshRoute,
    AuthorListRoute, AuthorDetailRoute, BookListRoute, AuthorBooksRoute, BookDetailRoute,
    ReviewListRoute, BookReviewsRoute, ReviewDetailRoute,
    CatchAllRoute
  ]

  /** The table, entry by entry. */
  lemma RouteTable()
    ensures |UrlPatterns| == 13
    ensures UrlPatterns[0] == AdminRoute && UrlPatterns[1] == UserDetailsRoute
    ensures UrlPatterns[2] == TokenObtainPairRoute && UrlPatterns[3] == TokenRefreshRoute
    ensures UrlPatterns[4] == AuthorListRoute && UrlPatterns[5] == AuthorDetailRoute
    ensures UrlPatterns[6] == BookListRoute && UrlPatterns[7] == AuthorBooksRoute
    ensures UrlPatterns[8] == BookDetailRoute && UrlPatterns[9] == ReviewListRoute
    ensures UrlPatterns[10] == BookReviewsRoute && UrlPatterns[11] == ReviewDetailRoute
    ensures UrlPatterns[12] == CatchAllRoute
  {
  }

  /** Index of the `<path:path>` catch-all, the last entry. */
  const CatchAll: nat := 12

  // ---------------------------------------------------------------- matching

  /** Match the segments against s, adding captured ids to kw. An `<int:...>` capture takes the
      longest run of digits, which is what the backtracking regex [0-9]+ ends up with whenever
      the next segment begins with a non-digit (see WellFormed). */
  function MatchFrom(segs: seq<Segment>, endpoint: bool, s: string, kw: Kwargs): Option<Kwargs>
    decreases |segs|
  {
    if segs == [] then
      if endpoint && s != [] then None else Some(kw)
    else match segs[0]
      case Lit(t) =>
        if StartsWith(t, s) then MatchFrom(segs[1..], endpoint, s[|t|..], kw) else None
      case Int(p) =>
        var n := DigitPrefixLength(s);
        if n == 0 then None else MatchFrom(segs[1..], endpoint, s[n..], kw.Set(p, ParseNat(s[..n])))
      case AnyPath =>
        if s != [] && '\n' !in s then MatchFrom(segs[1..], endpoint, [], kw) else None
  }

  function MatchRoute(r: Route, path: string): Option<Kwargs>
  {
    MatchFrom(r.segments, r.endpoint, path, NoKwargs)
  }

  datatype Resolution = Resolved(target: Target, kwargs: Kwargs) | Unresolved

  /** Try the routes in order; the first that matches decides. */
  function ResolveIn(routes: seq<Route>, path: string): Resolution
    decreases |routes|
  {
    if routes == [] then Unresolved
    else match MatchRoute(routes[0], path)
      case Some(kw) => Resolved(routes[0].target, kw)
      case None => ResolveIn(routes[1..], path)
  }

  /** Django's URL resolution against urlpatterns (the path without its leading slash). */
  function Resolve(path: string): Resolution
  {
    ResolveIn(UrlPatterns, path)
  }

  // ---------------------------------------------------------------- first match wins

  /** The resolver's answer is the first route that matches, and no earlier route matches. */
  lemma {:induction false} ResolveInFirstMatch(routes: seq<Route>, path: string)
    ensures ResolveIn(routes, path).Unresolved? <==> forall j :: 0 <= j < |routes| ==> MatchRoute(routes[j], path).None?
    ensures ResolveIn(routes, path).Resolved? ==>
      exists i :: 0 <= i < |routes| && MatchRoute(routes[i], path) == Some(ResolveIn(routes, path).kwargs) &&
        routes[i].target == ResolveIn(routes, path).target &&
        forall j :: 0 <= j < i ==> MatchRoute(routes[j], path).None?
    decreases |routes|
  {
    if routes != [] && MatchRoute(routes[0], path).None? {
      ResolveInFirstMatch(routes[1..], path);
      var rest := routes[1..];
      assert forall j :: 1 <= j < |routes| ==> routes[j] == rest[j - 1];
      if ResolveIn(rest, path).Resolved? {
        var i :| 0 <= i < |rest| && MatchRoute(rest[i], path) == Some(ResolveIn(rest, path).kwargs) &&
          rest[i].target == ResolveIn(rest, path).target &&
          forall j :: 0 <= j < i ==> MatchRoute(rest[j], path).None?;
        assert MatchRoute(routes[i + 1], path) == Some(ResolveIn(routes, path).kwargs);
      }
    }
  }

  /** Conversely, a route that matches when none before it does is the one chosen. */
  lemma {:induction false} FirstMatchResolves(routes: seq<Route>, path: string, i: nat)
    requires i < |routes| && MatchRoute(routes[i], path).Some?
    requires forall j :: 0 <= j < i ==> MatchRoute(routes[j], path).None?
    ensures ResolveIn(routes, path) == Resolved(routes[i].target, MatchRoute(routes[i], path).value)
    decreases i
  {
    if i > 0 {
      FirstMatchResolves(routes[1..], path, i - 1);
    }
  }

  /** The table form of FirstMatchResolves: route i takes the path when it matches and no earlier one does. */
  lemma ResolvesAt(path: string, i: nat, kw: Kwargs)
    requires i < |UrlPatterns| && MatchRoute(UrlPatterns[i], path) == Some(kw)
    requires forall j :: 0 <= j < i ==> MatchRoute(UrlPatterns[j], path).None?
    ensures Resolve(path) == Resolved(UrlPatterns[i].target, kw)
  {
    FirstMatchResolves(UrlPatterns, path, i);
  }

  // ---------------------------------------------------------------- the catch-all

  /** `<path:path>` accepts exactly the non-empty paths without a line break. */
  lemma CatchAllAccepts(path: string)
    ensures MatchRoute(CatchAllRoute, path).Some? <==> path != [] && '\n' !in path
    ensures MatchRoute(CatchAllRoute, path).Some? ==> MatchRoute(CatchAllRoute, path).value == NoKwargs
  {
  }

  /** Every non-empty path without a line break is resolved: only the empty path (the site root)
      and paths with a line break fall through to Django's 404. */
  lemma ResolveTotal(path: string)
    ensures Resolve(path).Unresolved? ==> path == [] || '\n' in path
    ensures path == [] ==> Resolve(path).Unresolved?
  {
    RouteTable();
    ResolveInFirstMatch(UrlPatterns, path);
    CatchAllAccepts(path);
    if path == [] {
      forall j | 0 <= j < |UrlPatterns| ensures MatchRoute(UrlPatterns[j], path).None? {
      }
    }
  }

  /** A path no earlier route takes goes to method_not_allowed, with no ids. */
  lemma FallsToCatchAll(path: string)
    requires path != [] && '\n' !in path
    requires forall j :: 0 <= j < CatchAll ==> MatchRoute(UrlPatterns[j], path).None?
    ensures Resolve(path) == Resolved(MethodNotAllowed, NoKwargs)
  {
    RouteTable();
    CatchAllAccepts(path);
    FirstMatchResolves(UrlPatterns, path, CatchAll);
  }

  // ---------------------------------------------------------------- reading a path piece by piece

  /** A literal segment consumes exactly its text. */
  lemma MatchLit(segs: seq<Segment>, endpoint: bool, t: string, rest: string, kw: Kwargs)
    requires segs != [] && segs[0] == Lit(t)
    ensures MatchFrom(segs, endpoint, t + rest, kw) == MatchFrom(segs[1..], endpoint, rest, kw)
  {
    StartsWithIsPrefix(t, t + rest);
    assert (t + rest)[|t|..] == rest;
  }

  /** An `<int:...>` segment consumes a whole run of digits when a non-digit follows, leading
      zeros included, and captures the run's value. */
  lemma MatchDigits(segs: seq<Segment>, endpoint: bool, d: string, rest: string, kw: Kwargs)
    requires segs != [] && segs[0].Int? && d != [] && AllDigits(d) && (rest == [] || !IsDigit(rest[0]))
    ensures MatchFrom(segs, endpoint, d + rest, kw) == MatchFrom(segs[1..], endpoint, rest, kw.Set(segs[0].param, ParseNat(d)))
  {
    DigitPrefixOfDigits(d, rest);
    assert (d + rest)[..|d|] == d;
    assert (d + rest)[|d|..] == rest;
  }

  /** An `<int:...>` segment consumes the decimal text of n when a non-digit follows, and captures n. */
  lemma MatchInt(segs: seq<Segment>, endpoint: bool, n: nat, rest: string, kw: Kwargs)
    requires segs != [] && segs[0].Int? && (rest == [] || !IsDigit(rest[0]))
    ensures MatchFrom(segs, endpoint, NatToString(n) + rest, kw) == MatchFrom(segs[1..], endpoint, rest, kw.Set(segs[0].param, n))
  {
    ParseNatToString(n);
    MatchDigits(segs, endpoint, NatToString(n), rest, kw);
  }

  // ---------------------------------------------------------------- paths by their first part

  /** The routes whose first literal differs from the start of the path do not match it. */
  lemma AuthorsHeadMisses(x: string, j: nat)
    requires j < CatchAll && j != 4 && j != 5
    ensures MatchRoute(UrlPatterns[j], "authors/" + x).None?
  {
    RouteTable();
    // One case per route index, so that each case sees a single concrete pattern whose
    // first literal the verifier compares with the start of the path.
    if j == 7 || j == 8 || j == 10 || j == 11 {
      StartsWithIsPrefix("author/", "authors/" + x);
      assert ("authors/" + x)[6] == 's';
    } else if j == 0 {} else if j == 1 {} else if j == 2 {} else if j == 3 {} else if j == 6 {} else {}
  }

  lemma AuthorHeadMisses(x: string, j: nat)
    requires j < CatchAll && j != 7 && j != 8 && j != 10 && j != 11
    ensures MatchRoute(UrlPatterns[j], "author/" + x).None?
  {
    RouteTable();
    // One case per route index, so that each case sees a single concrete pattern whose
    // first literal the verifier compares with the start of the path.
    if j == 4 || j == 5 {
      StartsWithIsPrefix("authors/", "author/" + x);
      assert ("author/" + x)[6] == '/';
    } else if j == 0 {} else if j == 1 {} else if j == 2 {} else if j == 3 {} else if j == 6 {} else {}
  }

  lemma BooksHeadMisses(x: string, j: nat)
    requires j < CatchAll && j != 6
    ensures MatchRoute(UrlPatterns[j], "books/" + x).None?
  {
    RouteTable();
    // One case per route index, so that each case sees a single concrete pattern whose
    // first literal the verifier compares with the start of the path.
    if j == 0 {} else if j == 1 {} else if j == 2 {} else if j == 3 {} else if j == 4 {} else if j == 5 {}
    else if j == 7 {} else if j == 8 {} else if j == 9 {} else if j == 10 {} else {}
  }

  lemma ReviewsHeadMisses(x: string, j: nat)
    requires j < CatchAll && j != 9
    ensures MatchRoute(UrlPatterns[j], "reviews/" + x).None?
  {
    RouteTable();
    // One case per route index, so that each case sees a single concrete pattern whose
    // first literal the verifier compares with the start of the path.
    if j == 0 {} else if j == 1 {} else if j == 2 {} else if j == 3 {} else if j == 4 {} else if j == 5 {}
    else if j == 6 {} else if j == 7 {} else if j == 8 {} else if j == 10 {} else {}
  }

  /** The nested routes under author/<int:author_id>/ read the author id and go on with the rest. */
  lemma AuthorScoped(a: nat, rest: string, r: Route)
    requires r == AuthorBooksRoute || r == BookDetailRoute || r == BookReviewsRoute || r == ReviewDetailRoute
    requires rest == [] || !IsDigit(rest[0])
    ensures MatchRoute(r, "author/" + (NatToString(a) + rest)) ==
      MatchFrom(r.segments[2..], true, rest, NoKwargs.Set(AuthorId, a))
  {
    var segs := r.segments;
    MatchLit(segs, true, "author/", NatToString(a) + rest, NoKwargs);
    MatchInt(segs[1..], true, a, rest, NoKwargs);
  }

  /** The review routes go on with "/book/<int:book_id>" and then their own ending. */
  lemma BookScoped(b: nat, rest: string, kw: Kwargs, r: Route)
    requires r == BookReviewsRoute || r == ReviewDetailRoute
    requires rest == [] || !IsDigit(rest[0])
    ensures MatchFrom(r.segments[2..], true, "/book/" + (NatToString(b) + rest), kw) ==
      MatchFrom(r.segments[4..], true, rest, kw.Set(BookId, b))
  {
    var segs := r.segments[2..];
    MatchLit(segs, true, "/book/", NatToString(b) + rest, kw);
    MatchInt(segs[1..], true, b, rest, kw);
    assert segs[2..] == r.segments[4..];
  }

  /** The book routes spell "/books/" where the review routes spell "/book/". */
  lemma BookNotBooks(x: string)
    ensures !StartsWith("/books/", "/book/" + x) && !StartsWith("/book/", "/books/" + x)
  {
    StartsWithIsPrefix("/books/", "/book/" + x);
    StartsWithIsPrefix("/book/", "/books/" + x);
    assert ("/book/" + x)[5] == '/';
    assert ("/books/" + x)[5] == 's';
  }

  lemma BookRoutesMissBookSpelling(a: nat, x: string, r: Route)
    requires r == AuthorBooksRoute || r == BookDetailRoute
    ensures MatchRoute(r, "author/" + (NatToString(a) + ("/book/" + x))).None?
  {
    AuthorScoped(a, "/book/" + x, r);
    BookNotBooks(x);
  }

  lemma ReviewRoutesMissBooksSpelling(a: nat, x: string, r: Route)
    requires r == BookReviewsRoute || r == ReviewDetailRoute
    ensures MatchRoute(r, "author/" + (NatToString(a) + ("/books/" + x))).None?
  {
    AuthorScoped(a, "/books/" + x, r);
    BookNotBooks(x);
  }

  // ---------------------------------------------------------------- reverse(): each view route is reachable

  /** The paths the named view routes stand for, with their ids filled in. */
  function AuthorListPath(): string { "authors/" }
  function AuthorDetailPath(a: nat): string { "authors/" + (NatToString(a) + "/") }
  function BookListPath(): string { "books/" }
  function AuthorBooksPath(a: nat): string { "author/" + (NatToString(a) + "/books/") }
  function BookDetailPath(a: nat, b: nat): string { "author/" + (NatToString(a) + ("/books/" + (NatToString(b) + "/"))) }
  function ReviewListPath(): string { "reviews/" }
  function BookReviewsPath(a: nat, b: nat): string { "author/" + (NatToString(a) + ("/book/" + (NatToString(b) + "/reviews"))) }
  function ReviewDetailPath(a: nat, b: nat, r: nat): string
  {
    "author/" + (NatToString(a) + ("/book/" + (NatToString(b) + ("/reviews/" + (NatToString(r) + "/")))))
  }

  lemma AuthorListNoEarlier()
    ensures forall j :: 0 <= j < 4 ==> MatchRoute(UrlPatterns[j], AuthorListPath()).None?
  {
    RouteTable();
    forall j | 0 <= j < 4 ensures MatchRoute(UrlPatterns[j], AuthorListPath()).None? {
      assert AuthorListPath() == "authors/" + [];
      AuthorsHeadMisses([], j);
    }
  }

  lemma {:induction false} ReverseAuthorList()
    ensures Resolve(AuthorListPath()) == Resolved(AuthorView, NoKwargs)
  {
    RouteTable();
    AuthorListNoEarlier();
    ResolvesAt(AuthorListPath(), 4, NoKwargs);
  }

  lemma AuthorDetailMatches(a: nat)
    ensures MatchRoute(AuthorDetailRoute, AuthorDetailPath(a)) == Some(Kwargs(Some(a), None, None))
  {
    var segs := AuthorDetailRoute.segments;
    MatchLit(segs, true, "authors/", NatToString(a) + "/", NoKwargs);
    MatchInt(segs[1..], true, a, "/", NoKwargs);
    assert "/" == "/" + [];
    MatchLit(segs[2..], true, "/", [], NoKwargs.Set(AuthorId, a));
  }

  lemma AuthorDetailNoEarlier(a: nat)
    ensures forall j :: 0 <= j < 5 ==> MatchRoute(UrlPatterns[j], AuthorDetailPath(a)).None?
  {
    RouteTable();
    forall j | 0 <= j < 5 ensures MatchRoute(UrlPatterns[j], AuthorDetailPath(a)).None? {
      if j == 4 {
        MatchLit(AuthorListRoute.segments, true, "authors/", NatToString(a) + "/", NoKwargs);
      } else {
        AuthorsHeadMisses(NatToString(a) + "/", j);
      }
    }
  }

  lemma {:induction false} ReverseAuthorDetail(a: nat)
    ensures Resolve(AuthorDetailPath(a)) == Resolved(AuthorView, Kwargs(Some(a), None, None))
  {
    RouteTable();
    AuthorDetailMatches(a);
    AuthorDetailNoEarlier(a);
    ResolvesAt(AuthorDetailPath(a), 5, Kwargs(Some(a), None, None));
  }

  /** `authors/<int:author_id>/` takes any run of digits, leading zeros included, and passes its value. */
  lemma {:induction false} AuthorDetailDigits(d: string)
    requires d != [] && AllDigits(d)
    ensures Resolve("authors/" + (d + "/")) == Resolved(AuthorView, Kwargs(Some(ParseNat(d)), None, None))
  {
    var path := "authors/" + (d + "/");
    var segs := AuthorDetailRoute.segments;
    RouteTable();
    MatchLit(segs, true, "authors/", d + "/", NoKwargs);
    MatchDigits(segs[1..], true, d, "/", NoKwargs);
    assert "/" == "/" + [];
    MatchLit(segs[2..], true, "/", [], NoKwargs.Set(AuthorId, ParseNat(d)));
    forall j | 0 <= j < 5 ensures MatchRoute(UrlPatterns[j], path).None? {
      if j == 4 {
        MatchLit(AuthorListRoute.segments, true, "authors/", d + "/", NoKwargs);
      } else {
        AuthorsHeadMisses(d + "/", j);
      }
    }
    ResolvesAt(path, 5, Kwargs(Some(ParseNat(d)), None, None));
  }

  /** `authors/007/` reaches AuthorView with author_id 7. */
  lemma LeadingZerosAuthorId()
    ensures Resolve("authors/007/") == Resolved(AuthorView, Kwargs(Some(7), None, None))
  {
    AuthorDetailDigits("007");
    assert "authors/" + ("007" + "/") == "authors/007/";
    assert ParseNat("007") == 7 by {
      assert "007"[..2] == "00" && "00"[..1] == "0" && "0"[..0] == [];
    }
  }

  lemma BookListNoEarlier()
    ensures forall j :: 0 <= j < 6 ==> MatchRoute(UrlPatterns[j], BookListPath()).None?
  {
    RouteTable();
    forall j | 0 <= j < 6 ensures MatchRoute(UrlPatterns[j], BookListPath()).None? {
      assert BookListPath() == "books/" + [];
      BooksHeadMisses([], j);
    }
  }

  lemma {:induction false} ReverseBookList()
    ensures Resolve(BookListPath()) == Resolved(BookView, NoKwargs)
  {
    RouteTable();
    BookListNoEarlier();
    ResolvesAt(BookListPath(), 6, NoKwargs);
  }

  lemma AuthorBooksMatches(a: nat)
    ensures MatchRoute(AuthorBooksRoute, AuthorBooksPath(a)) == Some(Kwargs(Some(a), None, None))
  {
    AuthorScoped(a, "/books/", AuthorBooksRoute);
    assert "/books/" == "/books/" + [];
    MatchLit(AuthorBooksRoute.segments[2..], true, "/books/", [], NoKwargs.Set(AuthorId, a));
  }

  lemma AuthorBooksNoEarlier(a: nat)
    ensures forall j :: 0 <= j < 7 ==> MatchRoute(UrlPatterns[j], AuthorBooksPath(a)).None?
  {
    RouteTable();
    forall j | 0 <= j < 7 ensures MatchRoute(UrlPatterns[j], AuthorBooksPath(a)).None? {
      AuthorHeadMisses(NatToString(a) + "/books/", j);
    }
  }

  lemma {:induction false} ReverseAuthorBooks(a: nat)
    ensures Resolve(AuthorBooksPath(a)) == Resolved(BookView, Kwargs(Some(a), None, None))
  {
    RouteTable();
    AuthorBooksMatches(a);
    AuthorBooksNoEarlier(a);
    ResolvesAt(AuthorBooksPath(a), 7, Kwargs(Some(a), None, None));
  }

  lemma BookDetailMatches(a: nat, b: nat)
    ensures MatchRoute(BookDetailRoute, BookDetailPath(a, b)) == Some(Kwargs(Some(a), Some(b), None))
  {
    var kwA := NoKwargs.Set(AuthorId, a);
    AuthorScoped(a, "/books/" + (NatToString(b) + "/"), BookDetailRoute);
    var segs := BookDetailRoute.segments[2..];
    MatchLit(segs, true, "/books/", NatToString(b) + "/", kwA);
    MatchInt(segs[1..], true, b, "/", kwA);
    assert "/" == "/" + [];
    MatchLit(segs[2..], true, "/", [], kwA.Set(BookId, b));
  }

  lemma BookDetailNoEarlier(a: nat, b: nat)
    ensures forall j :: 0 <= j < 8 ==> MatchRoute(UrlPatterns[j], BookDetailPath(a, b)).None?
  {
    RouteTable();
    var rest := "/books/" + (NatToString(b) + "/");
    forall j | 0 <= j < 8 ensures MatchRoute(UrlPatterns[j], BookDetailPath(a, b)).None? {
      if j == 7 {
        AuthorScoped(a, rest, AuthorBooksRoute);
        MatchLit(AuthorBooksRoute.segments[2..], true, "/books/", NatToString(b) + "/", NoKwargs.Set(AuthorId, a));
      } else {
        AuthorHeadMisses(NatToString(a) + rest, j);
      }
    }
  }

  lemma {:induction false} ReverseBookDetail(a: nat, b: nat)
    ensures Resolve(BookDetailPath(a, b)) == Resolved(BookView, Kwargs(Some(a), Some(b), None))
  {
    RouteTable();
    BookDetailMatches(a, b);
    BookDetailNoEarlier(a, b);
    ResolvesAt(BookDetailPath(a, b), 8, Kwargs(Some(a), Some(b), None));
  }

  lemma ReviewListNoEarlier()
    ensures forall j :: 0 <= j < 9 ==> MatchRoute(UrlPatterns[j], ReviewListPath()).None?
  {
    RouteTable();
    forall j | 0 <= j < 9 ensures MatchRoute(UrlPatterns[j], ReviewListPath()).None? {
      assert ReviewListPath() == "reviews/" + [];
      ReviewsHeadMisses([], j);
    }
  }

  lemma {:induction false} ReverseReviewList()
    ensures Resolve(ReviewListPath()) == Resolved(ReviewView, NoKwargs)
  {
    RouteTable();
    ReviewListNoEarlier();
    ResolvesAt(ReviewListPath(), 9, NoKwargs);
  }

  lemma BookReviewsMatches(a: nat, b: nat)
    ensures MatchRoute(BookReviewsRoute, BookReviewsPath(a, b)) == Some(Kwargs(Some(a), Some(b), None))
  {
    var kwA := NoKwargs.Set(AuthorId, a);
    AuthorScoped(a, "/book/" + (NatToString(b) + "/reviews"), BookReviewsRoute);
    BookScoped(b, "/reviews", kwA, BookReviewsRoute);
    assert "/reviews" == "/reviews" + [];
    MatchLit(BookReviewsRoute.segments[4..], true, "/reviews", [], kwA.Set(BookId, b));
  }

  lemma BookReviewsNoEarlier(a: nat, b: nat)
    ensures forall j :: 0 <= j < 10 ==> MatchRoute(UrlPatterns[j], BookReviewsPath(a, b)).None?
  {
    RouteTable();
    forall j | 0 <= j < 10 ensures MatchRoute(UrlPatterns[j], BookReviewsPath(a, b)).None? {
      if j == 7 || j == 8 {
        BookRoutesMissBookSpelling(a, NatToString(b) + "/reviews", UrlPatterns[j]);
      } else {
        AuthorHeadMisses(NatToString(a) + ("/book/" + (NatToString(b) + "/reviews")), j);
      }
    }
  }

  lemma {:induction false} ReverseBookReviews(a: nat, b: nat)
    ensures Resolve(BookReviewsPath(a, b)) == Resolved(ReviewView, Kwargs(Some(a), Some(b), None))
  {
    RouteTable();
    BookReviewsMatches(a, b);
    BookReviewsNoEarlier(a, b);
    ResolvesAt(BookReviewsPath(a, b), 10, Kwargs(Some(a), Some(b), None));
  }

  /** After "/book/<int:book_id>" the review-by-id route goes on with "/reviews/<int:review_id>/". */
  lemma ReviewIdTail(r: nat, kw: Kwargs)
    ensures MatchFrom(ReviewDetailRoute.segments[4..], true, "/reviews/" + (NatToString(r) + "/"), kw) == Some(kw.Set(ReviewId, r))
  {
    var segs := ReviewDetailRoute.segments[4..];
    MatchLit(segs, true, "/reviews/", NatToString(r) + "/", kw);
    MatchInt(segs[1..], true, r, "/", kw);
    assert "/" == "/" + [];
    MatchLit(segs[2..], true, "/", [], kw.Set(ReviewId, r));
  }

  /** The scoped review list ends at "/reviews": it takes nothing after it, not even a slash. */
  lemma ReviewListEndsAtReviews(y: string, kw: Kwargs)
    ensures MatchFrom(BookReviewsRoute.segments[4..], true, "/reviews/" + y, kw).None?
  {
    assert "/reviews/" + y == "/reviews" + ("/" + y);
    MatchLit(BookReviewsRoute.segments[4..], true, "/reviews", "/" + y, kw);
  }

  lemma ReviewDetailMatches(a: nat, b: nat, r: nat)
    ensures MatchRoute(ReviewDetailRoute, ReviewDetailPath(a, b, r)) == Some(Kwargs(Some(a), Some(b), Some(r)))
  {
    var tail := "/reviews/" + (NatToString(r) + "/");
    var kwA := NoKwargs.Set(AuthorId, a);
    AuthorScoped(a, "/book/" + (NatToString(b) + tail), ReviewDetailRoute);
    BookScoped(b, tail, kwA, ReviewDetailRoute);
    ReviewIdTail(r, kwA.Set(BookId, b));
  }

  lemma ReviewDetailMissesBookReviews(a: nat, b: nat, r: nat)
    ensures MatchRoute(BookReviewsRoute, ReviewDetailPath(a, b, r)).None?
  {
    var tail := "/reviews/" + (NatToString(r) + "/");
    var kwA := NoKwargs.Set(AuthorId, a);
    AuthorScoped(a, "/book/" + (NatToString(b) + tail), BookReviewsRoute);
    BookScoped(b, tail, kwA, BookReviewsRoute);
    ReviewListEndsAtReviews(NatToString(r) + "/", kwA.Set(BookId, b));
  }

  lemma ReviewDetailNoEarlier(a: nat, b: nat, r: nat)
    ensures forall j :: 0 <= j < 11 ==> MatchRoute(UrlPatterns[j], ReviewDetailPath(a, b, r)).None?
  {
    RouteTable();
    var x := NatToString(b) + ("/reviews/" + (NatToString(r) + "/"));
    forall j | 0 <= j < 11 ensures MatchRoute(UrlPatterns[j], ReviewDetailPath(a, b, r)).None? {
      if j == 10 {
        ReviewDetailMissesBookReviews(a, b, r);
      } else if j == 7 || j == 8 {
        BookRoutesMissBookSpelling(a, x, UrlPatterns[j]);
      } else {
        AuthorHeadMisses(NatToString(a) + ("/book/" + x), j);
      }
    }
  }

  lemma {:induction false} ReverseReviewDetail(a: nat, b: nat, r: nat)
    ensures Resolve(ReviewDetailPath(a, b, r)) == Resolved(ReviewView, Kwargs(Some(a), Some(b), Some(r)))
  {
    RouteTable();
    ReviewDetailMatches(a, b, r);
    ReviewDetailNoEarlier(a, b, r);
    ResolvesAt(ReviewDetailPath(a, b, r), 11, Kwargs(Some(a), Some(b), Some(r)));
  }

  // ---------------------------------------------------------------- paths that fall through to the catch-all

  /** A decimal rendering never contains a line break. */
  lemma NoLineBreakInDigits(n: nat)
    ensures '\n' !in NatToString(n)
  {
    var d := NatToString(n);
    forall i | 0 <= i < |d| ensures d[i] != '\n' {
      assert IsDigit(d[i]);
    }
  }

  /** `<int:author_id>` takes digits only: `authors/abc/` and the like reach no view but method_not_allowed. */
  lemma NonNumericAuthorId(x: string)
    requires x != [] && !IsDigit(x[0]) && '\n' !in x
    ensures Resolve("authors/" + x) == Resolved(MethodNotAllowed, NoKwargs)
  {
    RouteTable();
    var path := "authors/" + x;
    forall j | 0 <= j < CatchAll ensures MatchRoute(UrlPatterns[j], path).None? {
      if j == 4 {
        MatchLit(AuthorListRoute.segments, true, "authors/", x, NoKwargs);
      } else if j == 5 {
        MatchLit(AuthorDetailRoute.segments, true, "authors/", x, NoKwargs);
      } else {
        AuthorsHeadMisses(x, j);
      }
    }
    FallsToCatchAll(path);
  }

  /** The path of the scoped review list with a trailing slash added. */
  function BookReviewsSlashPath(a: nat, b: nat): string
  {
    "author/" + (NatToString(a) + ("/book/" + (NatToString(b) + "/reviews/")))
  }

  lemma BookReviewsSlashNoMatch(a: nat, b: nat)
    ensures forall j :: 0 <= j < CatchAll ==> MatchRoute(UrlPatterns[j], BookReviewsSlashPath(a, b)).None?
  {
    RouteTable();
    var rest := "/book/" + (NatToString(b) + "/reviews/");
    var kwA := NoKwargs.Set(AuthorId, a);
    forall j | 0 <= j < CatchAll ensures MatchRoute(UrlPatterns[j], BookReviewsSlashPath(a, b)).None? {
      if j == 7 || j == 8 {
        BookRoutesMissBookSpelling(a, NatToString(b) + "/reviews/", UrlPatterns[j]);
      } else if j == 10 {
        AuthorScoped(a, rest, BookReviewsRoute);
        BookScoped(b, "/reviews/", kwA, BookReviewsRoute);
        assert "/reviews/" == "/reviews/" + [];
        ReviewListEndsAtReviews([], kwA.Set(BookId, b));
      } else if j == 11 {
        AuthorScoped(a, rest, ReviewDetailRoute);
        BookScoped(b, "/reviews/", kwA, ReviewDetailRoute);
        assert "/reviews/" == "/reviews/" + [];
        MatchLit(ReviewDetailRoute.segments[4..], true, "/reviews/", [], kwA.Set(BookId, b));
      } else {
        AuthorHeadMisses(NatToString(a) + rest, j);
      }
    }
  }

  lemma SlashAppended(a: nat, b: nat)
    ensures BookReviewsSlashPath(a, b) == BookReviewsPath(a, b) + "/"
  {
    var A, B := NatToString(a), NatToString(b);
    assert B + "/reviews/" == (B + "/reviews") + "/";
    assert "/book/" + (B + "/reviews/") == ("/book/" + (B + "/reviews")) + "/";
    assert A + ("/book/" + (B + "/reviews/")) == (A + ("/book/" + (B + "/reviews"))) + "/";
  }

  /** Unlike every other route, the scoped review list has no trailing slash: with one, the path
      reaches method_not_allowed. */
  lemma {:induction false} ReviewListTrailingSlash(a: nat, b: nat)
    ensures BookReviewsSlashPath(a, b) == BookReviewsPath(a, b) + "/"
    ensures Resolve(BookReviewsSlashPath(a, b)) == Resolved(MethodNotAllowed, NoKwargs)
  {
    SlashAppended(a, b);
    BookReviewsSlashNoMatch(a, b);
    NoLineBreakInDigits(a);
    NoLineBreakInDigits(b);
    FallsToCatchAll(BookReviewsSlashPath(a, b));
  }

  /** Book routes spell `author/<id>/books/...`, review routes `author/<id>/book/...`: a path with the
      one spelling never reaches the view of the other. */
  lemma {:induction false} BookSpellingNeverBookView(a: nat, x: string)
    ensures var r := Resolve("author/" + (NatToString(a) + ("/book/" + x))); r.Resolved? ==> r.target != BookView
  {
    var path := "author/" + (NatToString(a) + ("/book/" + x));
    ViewRoutes();
    ResolveInFirstMatch(UrlPatterns, path);
    AuthorHeadMisses(NatToString(a) + ("/book/" + x), 6);
    RouteTable();
    BookRoutesMissBookSpelling(a, x, AuthorBooksRoute);
    BookRoutesMissBookSpelling(a, x, BookDetailRoute);
  }

  lemma {:induction false} BooksSpellingNeverReviewView(a: nat, x: string)
    ensures var r := Resolve("author/" + (NatToString(a) + ("/books/" + x))); r.Resolved? ==> r.target != ReviewView
  {
    var path := "author/" + (NatToString(a) + ("/books/" + x));
    ViewRoutes();
    ResolveInFirstMatch(UrlPatterns, path);
    AuthorHeadMisses(NatToString(a) + ("/books/" + x), 9);
    RouteTable();
    ReviewRoutesMissBooksSpelling(a, x, BookReviewsRoute);
    ReviewRoutesMissBooksSpelling(a, x, ReviewDetailRoute);
  }

  // ---------------------------------------------------------------- the ids a view receives

  /** Whether a list of segments captures the id p. */
  predicate Captures(segs: seq<Segment>, p: Param)
    decreases |segs|
  {
    segs != [] && (segs[0] == Int(p) || Captures(segs[1..], p))
  }

  /** A match sets exactly the captured ids and leaves the others as they were. */
  lemma {:induction false} MatchCaptures(segs: seq<Segment>, endpoint: bool, s: string, kw: Kwargs)
    requires MatchFrom(segs, endpoint, s, kw).Some?
    ensures forall p :: Captures(segs, p) ==> MatchFrom(segs, endpoint, s, kw).value.Get(p).Some?
    ensures forall p :: !Captures(segs, p) ==> MatchFrom(segs, endpoint, s, kw).value.Get(p) == kw.Get(p)
    decreases |segs|
  {
    if segs != [] {
      match segs[0]
      case Lit(t) =>
        MatchCaptures(segs[1..], endpoint, s[|t|..], kw);
      case Int(q) =>
        var n := DigitPrefixLength(s);
        MatchCaptures(segs[1..], endpoint, s[n..], kw.Set(q, ParseNat(s[..n])));
      case AnyPath =>
        MatchCaptures(segs[1..], endpoint, [], kw);
    }
  }

  /** The view receives exactly the ids of the route that took the path. */
  lemma {:induction false} ResolvedIds(path: string)
    requires Resolve(path).Resolved?
    ensures exists i :: (0 <= i < |UrlPatterns| && UrlPatterns[i].target == Resolve(path).target &&
      forall p :: Resolve(path).kwargs.Get(p).Some? <==> Captures(UrlPatterns[i].segments, p))
  {
    ResolveInFirstMatch(UrlPatterns, path);
    var i :| 0 <= i < |UrlPatterns| && MatchRoute(UrlPatterns[i], path) == Some(Resolve(path).kwargs) &&
      UrlPatterns[i].target == Resolve(path).target &&
      forall j :: 0 <= j < i ==> MatchRoute(UrlPatterns[j], path).None?;
    MatchCaptures(UrlPatterns[i].segments, UrlPatterns[i].endpoint, path, NoKwargs);
    assert forall p :: NoKwargs.Get(p).None?;
  }

  /** The routes of each view. */
  lemma ViewRoutes()
    ensures forall i :: 0 <= i < |UrlPatterns| ==>
      (UrlPatterns[i].target == AuthorView <==> UrlPatterns[i] == AuthorListRoute || UrlPatterns[i] == AuthorDetailRoute)
    ensures forall i :: 0 <= i < |UrlPatterns| ==>
      (UrlPatterns[i].target == BookView <==>
        UrlPatterns[i] == BookListRoute || UrlPatterns[i] == AuthorBooksRoute || UrlPatterns[i] == BookDetailRoute)
    ensures forall i :: 0 <= i < |UrlPatterns| ==>
      (UrlPatterns[i].target == ReviewView <==>
        UrlPatterns[i] == ReviewListRoute || UrlPatterns[i] == BookReviewsRoute || UrlPatterns[i] == ReviewDetailRoute)
    ensures forall i :: 0 <= i < |UrlPatterns| && UrlPatterns[i].target !in {AuthorView, BookView, ReviewView} ==>
      forall p :: !Captures(UrlPatterns[i].segments, p)
  {
    RouteTable();
  }

  lemma {:induction false} AuthorViewIds(path: string)
    requires Resolve(path).Resolved? && Resolve(path).target == AuthorView
    ensures Resolve(path).kwargs.bookId.None? && Resolve(path).kwargs.reviewId.None?
  {
    ResolvedIds(path);
    ViewRoutes();
    assert !Captures(AuthorListRoute.segments, BookId) && !Captures(AuthorListRoute.segments, ReviewId);
    assert !Captures(AuthorDetailRoute.segments, BookId) && !Captures(AuthorDetailRoute.segments, ReviewId);
    assert Resolve(path).kwargs.bookId == Resolve(path).kwargs.Get(BookId);
    assert Resolve(path).kwargs.reviewId == Resolve(path).kwargs.Get(ReviewId);
  }

  lemma {:induction false} BookViewIds(path: string)
    requires Resolve(path).Resolved? && Resolve(path).target == BookView
    ensures Resolve(path).kwargs.reviewId.None?
    ensures Resolve(path).kwargs.bookId.Some? ==> Resolve(path).kwargs.authorId.Some?
  {
    ResolvedIds(path);
    ViewRoutes();
    assert !Captures(BookListRoute.segments, ReviewId) && !Captures(BookListRoute.segments, BookId);
    assert !Captures(AuthorBooksRoute.segments, ReviewId) && !Captures(AuthorBooksRoute.segments, BookId);
    assert !Captures(BookDetailRoute.segments, ReviewId) && Captures(BookDetailRoute.segments, AuthorId);
    assert Resolve(path).kwargs.authorId == Resolve(path).kwargs.Get(AuthorId);
    assert Resolve(path).kwargs.bookId == Resolve(path).kwargs.Get(BookId);
    assert Resolve(path).kwargs.reviewId == Resolve(path).kwargs.Get(ReviewId);
  }

  lemma {:induction false} ReviewViewIds(path: string)
    requires Resolve(path).Resolved? && Resolve(path).target == ReviewView
    ensures Resolve(path).kwargs.bookId.Some? <==> Resolve(path).kwargs.authorId.Some?
    ensures Resolve(path).kwargs.reviewId.Some? ==> Resolve(path).kwargs.bookId.Some?
  {
    ResolvedIds(path);
    ViewRoutes();
    assert !Captures(ReviewListRoute.segments, AuthorId) && !Captures(ReviewListRoute.segments, BookId) &&
      !Captures(ReviewListRoute.segments, ReviewId);
    assert Captures(BookReviewsRoute.segments, AuthorId) && Captures(BookReviewsRoute.segments, BookId) &&
      !Captures(BookReviewsRoute.segments, ReviewId);
    assert Captures(ReviewDetailRoute.segments, AuthorId) && Captures(ReviewDetailRoute.segments, BookId);
    assert Resolve(path).kwargs.authorId == Resolve(path).kwargs.Get(AuthorId);
    assert Resolve(path).kwargs.bookId == Resolve(path).kwargs.Get(BookId);
    assert Resolve(path).kwargs.reviewId == Resolve(path).kwargs.Get(ReviewId);
  }

  /** Every other target receives no id. */
  lemma {:induction false} OtherViewIds(path: string)
    requires Resolve(path).Resolved? && Resolve(path).target !in {AuthorView, BookView, ReviewView}
    ensures Resolve(path).kwargs == NoKwargs
  {
    ResolvedIds(path);
    ViewRoutes();
    var kw := Resolve(path).kwargs;
    assert kw.Get(AuthorId).None? && kw.Get(BookId).None? && kw.Get(ReviewId).None?;
  }
}
