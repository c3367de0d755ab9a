/** One request end to end: resolve the path against urlpatterns, then run
    the view it names. The views of the admin site, the JWT token pair and
    UserDetailsView belong to libraries or are outside this model; a request
    routed to one of them is reported as delegated. */
module Server {
  import opened Common
  import opened Models
  import opened Serializers
  import opened Urls
  import opened Views
  import Orm

  datatype Reply = Answered(response: Response) | Delegated(view: Target)

  predicate IsCatalogueView(view: Target)
  {
    view == AuthorView || view == BookView || view == ReviewView
  }

  method Handle(db: Orm.Store, path: string, verb: Verb, authenticated: bool, data: Data, now: Timestamp)
    returns (reply: Reply)
    requires db.Valid()
    modifies db
    ensures db.Valid()
    ensures Resolve(path).Unresolved? ==> reply == Answered(NotFound)
    ensures Resolve(path).Resolved? && Resolve(path).target == MethodNotAllowed ==>
      reply == Answered(Response(405, Data(MethodNotAllowedBody)))
    ensures Resolve(path).Resolved? && !IsCatalogueView(Resolve(path).target) && Resolve(path).target != MethodNotAllowed ==>
      reply == Delegated(Resolve(path).target)
    ensures (Resolve(path).Resolved? && IsCatalogueView(Resolve(path).target) &&
      DispatchStep(Resolve(path).target, verb, Resolve(path).kwargs, authenticated) != Call) ==>
      reply == Answered(StopResponse(DispatchStep(Resolve(path).target, verb, Resolve(path).kwargs, authenticated), verb))
    ensures verb == Get || !(reply.Answered? && Success(reply.response.status)) ==> unchanged(db)
    ensures (Resolve(path).Resolved? && IsCatalogueView(Resolve(path).target) &&
      DispatchStep(Resolve(path).target, verb, Resolve(path).kwargs, authenticated) == Call) ==>
      reply == Answered(HandlerResponse(Resolve(path).target, verb, Resolve(path).kwargs, old(db.Tables()), old(db.next), data, now)) &&
      db.Tables() == HandlerTables(Resolve(path).target, verb, Resolve(path).kwargs, old(db.Tables()), old(db.next), data, now)
  {
    match Resolve(path)
    case Unresolved =>
      reply := Answered(NotFound);
    case Resolved(view, kw) =>
      if view == MethodNotAllowed {
        reply := Answered(Response(405, Data(MethodNotAllowedBody)));
      } else if !IsCatalogueView(view) {
        reply := Delegated(view);
      } else {
        var step := DispatchStep(view, verb, kw, authenticated);
        if step != Call {
          reply := Answered(StopResponse(step, verb));
        } else {
          var r := Invoke(db, view, verb, kw, data, now);
          reply := Answered(r);
        }
      }
  }

  // ---------------------------------------------------------------- which requests reach a handler

  /** The id a view's detail route adds for its own entity. */
  function OwnId(view: Target): Param
    requires IsCatalogueView(view)
  {
    if view == AuthorView then AuthorId else if view == BookView then BookId else ReviewId
  }

  /** The ids a resolved catalogue path captures are always ones the view's handlers declare. */
  lemma {:induction false} CapturedIdsDeclared(path: string)
    requires Resolve(path).Resolved? && IsCatalogueView(Resolve(path).target)
    ensures var view, kw := Resolve(path).target, Resolve(path).kwargs;
      (view == AuthorView ==> kw.bookId.None? && kw.reviewId.None?) &&
      (view == BookView ==> kw.reviewId.None?)
  {
    var view := Resolve(path).target;
    if view == AuthorView {
      AuthorViewIds(path);
    } else if view == BookView {
      BookViewIds(path);
    }
  }

  /** GET on any catalogue route reaches its handler once the user is authenticated. */
  lemma {:induction false} GetReachesHandler(path: string)
    requires Resolve(path).Resolved? && IsCatalogueView(Resolve(path).target)
    ensures DispatchStep(Resolve(path).target, Get, Resolve(path).kwargs, true) == Call
  {
    CapturedIdsDeclared(path);
  }

  /** PUT and DELETE reach their handler exactly on a route that captures the view's own id;
      anywhere else the call lacks that argument and fails with a server error. */
  lemma {:induction false} WriteNeedsOwnId(path: string, verb: Verb)
    requires Resolve(path).Resolved? && IsCatalogueView(Resolve(path).target)
    requires verb == Put || verb == Delete
    ensures var view, kw := Resolve(path).target, Resolve(path).kwargs;
      DispatchStep(view, verb, kw, true) == (if kw.Get(OwnId(view)).Some? then Call else TypeError)
  {
    CapturedIdsDeclared(path);
  }

  /** POST reaches its handler exactly on a route without the view's own id; on a detail route
      the extra keyword makes the call fail with a server error. */
  lemma {:induction false} PostRefusesOwnId(path: string)
    requires Resolve(path).Resolved? && IsCatalogueView(Resolve(path).target)
    ensures var view, kw := Resolve(path).target, Resolve(path).kwargs;
      DispatchStep(view, Post, kw, true) == (if kw.Get(OwnId(view)).Some? then TypeError else Call)
  {
    var view := Resolve(path).target;
    if view == AuthorView {
      AuthorViewIds(path);
    } else if view == BookView {
      BookViewIds(path);
    } else {
      ReviewViewIds(path);
    }
  }
}
