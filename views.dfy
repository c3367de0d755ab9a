/** The request handlers of Backend/books/views.py: AuthorView, BookView and
    ReviewView, one method per verb handler, each taking the store, the ids its
    route captured and the request body, and returning the response it builds;
    method_not_allowed; and the part of APIView.dispatch that runs before a
    handler (authentication, handler lookup, binding the captured ids to the
    handler's parameters). Ids follow Python truthiness: a missing id and an
    id of 0 both take the "no id" branch. */
module Views {
  import opened Common
  import opened Models
  import opened Serializers
  import opened Urls
  import Orm

  // ---------------------------------------------------------------- responses

  /** A JSON value of a response body. */
  datatype Value = Scalar(json: Json) | Object(fields: seq<(string, Value)>) | Array(items: seq<Value>)

  datatype Body =
    | NoContent                              // Response(status=...) without data
    | Data(value: Value)                     // serializer.data, possibly enriched
    | ValidationErrors(errors: seq<FieldError>) // serializer.errors
    | ServerError                            // Django's page for an uncaught exception

  datatype Response = Response(status: nat, body: Body)

  const NotFound := Response(404, NoContent)

  function Text(s: string): Value
  {
    Scalar(JStr(s))
  }

  function Number(n: int): Value
  {
    Scalar(JInt(n))
  }

  // ---------------------------------------------------------------- serializer output

  /** AuthorSerializer(author).data: the primary key, then the model's fields. */
  function AuthorRow(a: Author): seq<(string, Value)>
  {
    [("id", Number(a.id)), ("name", Text(a.name)), ("bio", Text(a.bio))]
  }

  /** BookSerializer(book).data: the primary key, the plain fields, then the foreign key. */
  function BookRow(b: Book): seq<(string, Value)>
  {
    [("id", Number(b.id)), ("title", Text(b.title)), ("publication_date", Text(b.publicationDate)),
     ("isbn", Text(b.isbn)), ("author", Number(b.author))]
  }

  /** ReviewSerializer(review).data: the primary key, the plain fields, then the foreign keys. */
  function ReviewRow(r: Review): seq<(string, Value)>
  {
    [("id", Number(r.id)), ("rating", Number(r.rating)), ("review_text", Text(r.reviewText)),
     ("created_at", Number(r.createdAt)), ("book", Number(r.book)), ("user", Number(r.user))]
  }

  // ---------------------------------------------------------------- what the querysets select

  /** Book.objects.all(), narrowed to one author's books when `author` is given, in listing order. */
  function BookIds(t: Tables, author: Option<nat>): (ids: seq<nat>)
    ensures Increasing(ids)
    ensures forall k :: k in ids <==> k in t.books && (author.None? || t.books[k].author == author.value)
  {
    Filter(SortedIds(t.books.Keys), k => k in t.books && (author.None? || t.books[k].author == author.value))
  }

  /** Review.objects.all(), narrowed to one book's reviews when `book` is given, in listing order. */
  function ReviewIds(t: Tables, book: Option<nat>): (ids: seq<nat>)
    ensures Increasing(ids)
    ensures forall k :: k in ids <==> k in t.reviews && (book.None? || t.reviews[k].book == book.value)
  {
    Filter(SortedIds(t.reviews.Keys), k => k in t.reviews && (book.None? || t.reviews[k].book == book.value))
  }

  // ---------------------------------------------------------------- enrichment

  /** A listed book: its serializer data with `author_name` added. */
  function BookWithAuthor(t: Tables, id: nat): Value
    requires id in t.books && t.books[id].author in t.authors
  {
    Object(BookRow(t.books[id]) + [("author_name", Text(t.authors[t.books[id].author].name))])
  }

  /** A review as the review endpoints show it: its serializer data with `book_title` added. */
  function ReviewWithTitle(t: Tables, id: nat): Value
    requires id in t.reviews && t.reviews[id].book in t.books
  {
    Object(ReviewRow(t.reviews[id]) + [("book_title", Text(t.books[t.reviews[id].book].title))])
  }

  /** Listed books, each with `author_name` added, in the order of `ids`. */
  function BooksWithAuthor(t: Tables, ids: seq<nat>): (items: seq<Value>)
    requires forall k :: k in ids ==> k in t.books && t.books[k].author in t.authors
    ensures |items| == |ids| && forall j :: 0 <= j < |ids| ==> items[j] == BookWithAuthor(t, ids[j])
  {
    seq(|ids|, i requires 0 <= i < |ids| => BookWithAuthor(t, ids[i]))
  }

  /** Listed reviews, each with `book_title` added, in the order of `ids`. */
  function ReviewsWithTitle(t: Tables, ids: seq<nat>): (items: seq<Value>)
    requires forall k :: k in ids ==> k in t.reviews && t.reviews[k].book in t.books
    ensures |items| == |ids| && forall j :: 0 <= j < |ids| ==> items[j] == ReviewWithTitle(t, ids[j])
  {
    seq(|ids|, i requires 0 <= i < |ids| => ReviewWithTitle(t, ids[i]))
  }

  /** The `reviews` of a book by id: the plain data of the reviews of that book, in listing order. */
  function BookReviews(t: Tables, id: nat): (items: seq<Value>)
    ensures var ids := ReviewIds(t, Some(id));
      |items| == |ids| && forall i :: 0 <= i < |ids| ==> items[i] == Object(ReviewRow(t.reviews[ids[i]]))
  {
    var ids := ReviewIds(t, Some(id));
    seq(|ids|, i requires 0 <= i < |ids| => Object(ReviewRow(t.reviews[ids[i]])))
  }

  /** One book by id: its data, its author's name, and its reviews. */
  function BookDetail(t: Tables, id: nat): Value
    requires id in t.books && t.books[id].author in t.authors
  {
    Object(BookRow(t.books[id]) + [("author_name", Text(t.authors[t.books[id].author].name)), ("reviews", Array(BookReviews(t, id)))])
  }

  // ---------------------------------------------------------------- what each handler answers

  /** The author a valid body describes, stored under key `id`. */
  function SubmittedAuthor(data: Data, id: nat): Author
    requires AuthorValid(data)
  {
    Author(id, CleanText(data, "name"), CleanText(data, "bio"))
  }

  /** The book a valid body describes, stored under key `id`. */
  function SubmittedBook(t: Tables, data: Data, instance: Option<nat>, id: nat): Book
    requires BookValid(t, data, instance)
  {
    Book(id, CleanText(data, "title"), IntOf(data["author"]).value as nat,
         CleanDate(data, "publication_date"), CleanText(data, "isbn"))
  }

  /** The review a valid body describes, stored under key `id` with creation time `createdAt`. */
  function SubmittedReview(t: Tables, data: Data, id: nat, createdAt: Timestamp): Review
    requires ReviewValid(t, data)
  {
    Review(id, IntOf(data["book"]).value as nat, IntOf(data["user"]).value as nat,
           Rating(data), CleanText(data, "review_text"), createdAt)
  }

  /** AuthorView.get over the tables t. */
  function AuthorGetResponse(t: Tables, authorId: Option<nat>): Response
  {
    if Truthy(authorId) then
      if authorId.value in t.authors then Response(200, Data(Object(AuthorRow(t.authors[authorId.value])))) else NotFound
    else
      var ids := SortedIds(t.authors.Keys);
      Response(200, Data(Array(seq(|ids|, i requires 0 <= i < |ids| => Object(AuthorRow(t.authors[ids[i]]))))))
  }

  /** AuthorView.post, with `next` the key the author sequence hands out. */
  function AuthorPostResponse(data: Data, next: nat): Response
  {
    if AuthorValid(data) then Response(201, Data(Object(AuthorRow(SubmittedAuthor(data, next)))))
    else Response(422, ValidationErrors(AuthorErrors(data)))
  }

  function AuthorPutResponse(t: Tables, authorId: nat, data: Data): Response
  {
    if authorId !in t.authors then NotFound
    else if !AuthorValid(data) then Response(422, ValidationErrors(AuthorErrors(data)))
    else Response(200, Data(Object(AuthorRow(SubmittedAuthor(data, authorId)))))
  }

  /** The answer of every delete handler: 204 once the row was found, 404 otherwise. */
  function DeleteResponse(found: bool): Response
  {
    if found then Response(204, NoContent) else NotFound
  }

  /** BookView.get over the tables t. */
  function BookGetResponse(t: Tables, bookId: Option<nat>, authorId: Option<nat>): Response
    requires Consistent(t)
  {
    if Truthy(bookId) then
      if bookId.value in t.books then Response(200, Data(BookDetail(t, bookId.value))) else NotFound
    else if Truthy(authorId) && authorId.value !in t.authors then NotFound
    else
      var ids := BookIds(t, if Truthy(authorId) then authorId else None);
      Response(200, Data(Array(BooksWithAuthor(t, ids))))
  }

  /** What BookView.get answers, branch by branch: a truthy book id decides alone; otherwise a
      missing truthy author is 404 and the list holds exactly the author's (or every) book. */
  lemma BookGetCases(t: Tables, bookId: Option<nat>, authorId: Option<nat>)
    requires Consistent(t)
    ensures var r := BookGetResponse(t, bookId, authorId);
      (Truthy(bookId) && bookId.value in t.books ==> r == Response(200, Data(BookDetail(t, bookId.value)))) &&
      (Truthy(bookId) && bookId.value !in t.books ==> r == NotFound) &&
      (!Truthy(bookId) && Truthy(authorId) && authorId.value !in t.authors ==> r == NotFound) &&
      (!Truthy(bookId) && (Truthy(authorId) ==> authorId.value in t.authors) ==>
        var ids := BookIds(t, if Truthy(authorId) then authorId else None);
        r.status == 200 && r.body.Data? && r.body.value.Array? && |r.body.value.items| == |ids| &&
        (forall k :: k in ids <==> k in t.books && (!Truthy(authorId) || t.books[k].author == authorId.value)) &&
        forall i :: 0 <= i < |ids| ==> r.body.value.items[i] == BookWithAuthor(t, ids[i]))
  {
  }

  function BookPostResponse(t: Tables, data: Data, next: nat): Response
  {
    if BookValid(t, data, None) then Response(201, Data(Object(BookRow(SubmittedBook(t, data, None, next)))))
    else Response(422, ValidationErrors(BookErrors(t, data, None)))
  }

  function BookPutResponse(t: Tables, bookId: nat, data: Data): Response
  {
    if bookId !in t.books then NotFound
    else if !BookValid(t, data, Some(bookId)) then Response(422, ValidationErrors(BookErrors(t, data, Some(bookId))))
    else Response(200, Data(Object(BookRow(SubmittedBook(t, data, Some(bookId), bookId)))))
  }

  /** ReviewView.get over the tables t. */
  function ReviewGetResponse(t: Tables, reviewId: Option<nat>, authorId: Option<nat>, bookId: Option<nat>): Response
    requires Consistent(t)
  {
    if Truthy(reviewId) && Truthy(authorId) && Truthy(bookId) then
      if reviewId.value in t.reviews then Response(200, Data(ReviewWithTitle(t, reviewId.value))) else NotFound
    else if Truthy(authorId) && Truthy(bookId) && bookId.value !in t.books then NotFound
    else
      var ids := ReviewIds(t, if Truthy(authorId) && Truthy(bookId) then bookId else None);
      Response(200, Data(Array(ReviewsWithTitle(t, ids))))
  }

  /** What ReviewView.get answers, branch by branch: one review only when all three ids are truthy;
      otherwise a missing book is 404 when author and book ids are truthy, and the list holds
      exactly that book's (or every) review. */
  lemma ReviewGetCases(t: Tables, reviewId: Option<nat>, authorId: Option<nat>, bookId: Option<nat>)
    requires Consistent(t)
    ensures var r := ReviewGetResponse(t, reviewId, authorId, bookId);
      (Truthy(reviewId) && Truthy(authorId) && Truthy(bookId) ==>
        r == if reviewId.value in t.reviews then Response(200, Data(ReviewWithTitle(t, reviewId.value))) else NotFound) &&
      ((!(Truthy(reviewId) && Truthy(authorId) && Truthy(bookId)) && Truthy(authorId) && Truthy(bookId) &&
        bookId.value !in t.books) ==> r == NotFound) &&
      (!(Truthy(reviewId) && Truthy(authorId) && Truthy(bookId)) &&
        (Truthy(authorId) && Truthy(bookId) ==> bookId.value in t.books) ==>
        var ids := ReviewIds(t, if Truthy(authorId) && Truthy(bookId) then bookId else None);
        r.status == 200 && r.body.Data? && r.body.value.Array? && |r.body.value.items| == |ids| &&
        (forall k :: k in ids <==> k in t.reviews && (!(Truthy(authorId) && Truthy(bookId)) || t.reviews[k].book == bookId.value)) &&
        forall i :: 0 <= i < |ids| ==> r.body.value.items[i] == ReviewWithTitle(t, ids[i]))
  {
  }

  function ReviewPostResponse(t: Tables, data: Data, next: nat, now: Timestamp): Response
  {
    if ReviewValid(t, data) then Response(201, Data(Object(ReviewRow(SubmittedReview(t, data, next, now)))))
    else Response(422, ValidationErrors(ReviewErrors(t, data)))
  }

  function ReviewPutResponse(t: Tables, reviewId: nat, data: Data): Response
  {
    if reviewId !in t.reviews then NotFound
    else if !ReviewValid(t, data) then Response(422, ValidationErrors(ReviewErrors(t, data)))
    else Response(200, Data(Object(ReviewRow(SubmittedReview(t, data, reviewId, t.reviews[reviewId].createdAt)))))
  }

  // ---------------------------------------------------------------- AuthorView

  method AuthorGet(db: Orm.Store, authorId: Option<nat>) returns (r: Response)
    ensures r == AuthorGetResponse(db.Tables(), authorId)
    ensures Truthy(authorId) && authorId.value in db.authors ==>
      r == Response(200, Data(Object(AuthorRow(db.authors[authorId.value]))))
    ensures Truthy(authorId) && authorId.value !in db.authors ==> r == NotFound
    ensures !Truthy(authorId) ==>
      var ids := SortedIds(db.authors.Keys);
      r.status == 200 && r.body.Data? && r.body.value.Array? && |r.body.value.items| == |ids| &&
      forall i :: 0 <= i < |ids| ==> ids[i] in db.authors && r.body.value.items[i] == Object(AuthorRow(db.authors[ids[i]]))
  {
    if Truthy(authorId) {
      if authorId.value in db.authors {
        r := Response(200, Data(Object(AuthorRow(db.authors[authorId.value]))));
      } else {
        r := NotFound;
      }
    } else {
      var authors := db.authors;
      var ids := SortedIds(authors.Keys);
      r := Response(200, Data(Array(seq(|ids|, i requires 0 <= i < |ids| => Object(AuthorRow(authors[ids[i]]))))));
    }
  }

  method AuthorPost(db: Orm.Store, data: Data) returns (r: Response)
    requires db.Valid()
    modifies db
    ensures db.Valid()
    ensures r == AuthorPostResponse(data, old(db.next.author))
    ensures !AuthorValid(data) ==> r == Response(422, ValidationErrors(AuthorErrors(data))) && unchanged(db)
    ensures AuthorValid(data) ==>
      var a := SubmittedAuthor(data, old(db.next.author));
      a.id !in old(db.authors) &&
      r == Response(201, Data(Object(AuthorRow(a)))) &&
      db.Tables() == old(db.Tables()).(authors := old(db.authors)[a.id := a])
  {
    var errors := AuthorErrors(data);
    if errors != [] {
      return Response(422, ValidationErrors(errors));
    }
    var a := db.CreateAuthor(CleanText(data, "name"), CleanText(data, "bio"));
    r := Response(201, Data(Object(AuthorRow(a))));
  }

  method AuthorPut(db: Orm.Store, authorId: nat, data: Data) returns (r: Response)
    requires db.Valid()
    modifies db
    ensures db.Valid()
    ensures r == AuthorPutResponse(old(db.Tables()), authorId, data)
    ensures authorId !in old(db.authors) ==> r == NotFound && unchanged(db)
    ensures authorId in old(db.authors) && !AuthorValid(data) ==>
      r == Response(422, ValidationErrors(AuthorErrors(data))) && unchanged(db)
    ensures authorId in old(db.authors) && AuthorValid(data) ==>
      var a := SubmittedAuthor(data, authorId);
      r == Response(200, Data(Object(AuthorRow(a)))) &&
      db.Tables() == old(db.Tables()).(authors := old(db.authors)[authorId := a]) && db.next == old(db.next)
  {
    if authorId !in db.authors {
      return NotFound;
    }
    var errors := AuthorErrors(data);
    if errors != [] {
      return Response(422, ValidationErrors(errors));
    }
    var a := Author(authorId, CleanText(data, "name"), CleanText(data, "bio"));
    db.SaveAuthor(a);
    r := Response(200, Data(Object(AuthorRow(a))));
  }

  method AuthorDelete(db: Orm.Store, authorId: nat) returns (r: Response)
    requires db.Valid()
    modifies db
    ensures db.Valid()
    ensures r == DeleteResponse(authorId in old(db.authors))
    ensures authorId !in old(db.authors) ==> r == NotFound && unchanged(db)
    ensures authorId in old(db.authors) ==>
      r == Response(204, NoContent) && db.Tables() == CascadeAuthor(old(db.Tables()), authorId) && db.next == old(db.next)
  {
    if authorId !in db.authors {
      return NotFound;
    }
    db.DeleteAuthor(authorId);
    r := Response(204, NoContent);
  }

  // ---------------------------------------------------------------- BookView

  /** A book by id ignores the author id of its path; without a (truthy) book id the list is
      every book, or the books of a (truthy) author id, 404 if that author does not exist. */
  method BookGet(db: Orm.Store, bookId: Option<nat>, authorId: Option<nat>) returns (r: Response)
    requires db.Valid()
    ensures r == BookGetResponse(db.Tables(), bookId, authorId)
  {
    var t := db.Tables();
    if Truthy(bookId) {
      if bookId.value in t.books {
        r := Response(200, Data(BookDetail(t, bookId.value)));
      } else {
        r := NotFound;
      }
      return;
    }
    var author: Option<nat> := None;
    if Truthy(authorId) {
      if authorId.value !in t.authors {
        return NotFound;
      }
      author := authorId;
    }
    var ids := BookIds(t, author);
    var data := ListBooks(t, ids);
    r := Response(200, Data(Array(data)));
  }

  /** The loop of BookView.get over a queryset: each book's data with `author_name` added, in order. */
  method ListBooks(t: Tables, ids: seq<nat>) returns (data: seq<Value>)
    requires forall k :: k in ids ==> k in t.books && t.books[k].author in t.authors
    ensures data == BooksWithAuthor(t, ids)
  {
    data := [];
    var i := 0;
    while i < |ids|
      invariant 0 <= i <= |ids| && |data| == i
      invariant forall j :: 0 <= j < i ==> data[j] == BookWithAuthor(t, ids[j])
    {
      var book := t.books[ids[i]];
      data := data + [Object(BookRow(book) + [("author_name", Text(t.authors[book.author].name))])];
      i := i + 1;
    }
  }

  /** The author id of the path is accepted and ignored: the book's author comes from the body. */
  method BookPost(db: Orm.Store, data: Data) returns (r: Response)
    requires db.Valid()
    modifies db
    ensures db.Valid()
    ensures r == BookPostResponse(old(db.Tables()), data, old(db.next.book))
    ensures !BookValid(old(db.Tables()), data, None) ==>
      r == Response(422, ValidationErrors(BookErrors(old(db.Tables()), data, None))) && unchanged(db)
    ensures BookValid(old(db.Tables()), data, None) ==>
      var b := SubmittedBook(old(db.Tables()), data, None, old(db.next.book));
      b.id !in old(db.books) &&
      r == Response(201, Data(Object(BookRow(b)))) &&
      db.Tables() == old(db.Tables()).(books := old(db.books)[b.id := b])
  {
    var errors := BookErrors(db.Tables(), data, None);
    if errors != [] {
      return Response(422, ValidationErrors(errors));
    }
    var b := db.CreateBook(CleanText(data, "title"), IntOf(data["author"]).value as nat,
                           CleanDate(data, "publication_date"), CleanText(data, "isbn"));
    r := Response(201, Data(Object(BookRow(b))));
  }

  /** The ISBN may stay the same: the uniqueness check leaves out the book being replaced. */
  method BookPut(db: Orm.Store, bookId: nat, data: Data) returns (r: Response)
    requires db.Valid()
    modifies db
    ensures db.Valid()
    ensures r == BookPutResponse(old(db.Tables()), bookId, data)
    ensures bookId !in old(db.books) ==> r == NotFound && unchanged(db)
    ensures bookId in old(db.books) && !BookValid(old(db.Tables()), data, Some(bookId)) ==>
      r == Response(422, ValidationErrors(BookErrors(old(db.Tables()), data, Some(bookId)))) && unchanged(db)
    ensures bookId in old(db.books) && BookValid(old(db.Tables()), data, Some(bookId)) ==>
      var b := SubmittedBook(old(db.Tables()), data, Some(bookId), bookId);
      r == Response(200, Data(Object(BookRow(b)))) &&
      db.Tables() == old(db.Tables()).(books := old(db.books)[bookId := b]) && db.next == old(db.next)
  {
    if bookId !in db.books {
      return NotFound;
    }
    var errors := BookErrors(db.Tables(), data, Some(bookId));
    if errors != [] {
      return Response(422, ValidationErrors(errors));
    }
    var b := Book(bookId, CleanText(data, "title"), IntOf(data["author"]).value as nat,
                  CleanDate(data, "publication_date"), CleanText(data, "isbn"));
    db.SaveBook(b);
    r := Response(200, Data(Object(BookRow(b))));
  }

  method BookDelete(db: Orm.Store, bookId: nat) returns (r: Response)
    requires db.Valid()
    modifies db
    ensures db.Valid()
    ensures r == DeleteResponse(bookId in old(db.books))
    ensures bookId !in old(db.books) ==> r == NotFound && unchanged(db)
    ensures bookId in old(db.books) ==>
      r == Response(204, NoContent) && db.Tables() == CascadeBook(old(db.Tables()), bookId) && db.next == old(db.next)
  {
    if bookId !in db.books {
      return NotFound;
    }
    db.DeleteBook(bookId);
    r := Response(204, NoContent);
  }

  // ---------------------------------------------------------------- ReviewView

  /** A review by id needs all three ids truthy; otherwise the list is every review, or, when
      both the author id and the book id are truthy, the reviews of that book (404 if the book
      does not exist; the author id is never looked up). */
  method ReviewGet(db: Orm.Store, reviewId: Option<nat>, authorId: Option<nat>, bookId: Option<nat>) returns (r: Response)
    requires db.Valid()
    ensures r == ReviewGetResponse(db.Tables(), reviewId, authorId, bookId)
  {
    var t := db.Tables();
    if Truthy(reviewId) && Truthy(authorId) && Truthy(bookId) {
      if reviewId.value in t.reviews {
        r := Response(200, Data(ReviewWithTitle(t, reviewId.value)));
      } else {
        r := NotFound;
      }
      return;
    }
    var book: Option<nat> := None;
    if Truthy(authorId) && Truthy(bookId) {
      if bookId.value !in t.books {
        return NotFound;
      }
      book := bookId;
    }
    var ids := ReviewIds(t, book);
    var data := ListReviews(t, ids);
    r := Response(200, Data(Array(data)));
  }

  /** The loop of ReviewView.get over a queryset: each review's data with `book_title` added, in order. */
  method ListReviews(t: Tables, ids: seq<nat>) returns (data: seq<Value>)
    requires forall k :: k in ids ==> k in t.reviews && t.reviews[k].book in t.books
    ensures data == ReviewsWithTitle(t, ids)
  {
    data := [];
    var i := 0;
    while i < |ids|
      invariant 0 <= i <= |ids| && |data| == i
      invariant forall j :: 0 <= j < i ==> data[j] == ReviewWithTitle(t, ids[j])
    {
      var review := t.reviews[ids[i]];
      data := data + [Object(ReviewRow(review) + [("book_title", Text(t.books[review.book].title))])];
      i := i + 1;
    }
  }

  /** The ids of the path are accepted and ignored: book and user come from the body, and
      created_at is the time of the insert. */
  method ReviewPost(db: Orm.Store, data: Data, now: Timestamp) returns (r: Response)
    requires db.Valid()
    modifies db
    ensures db.Valid()
    ensures r == ReviewPostResponse(old(db.Tables()), data, old(db.next.review), now)
    ensures !ReviewValid(old(db.Tables()), data) ==>
      r == Response(422, ValidationErrors(ReviewErrors(old(db.Tables()), data))) && unchanged(db)
    ensures ReviewValid(old(db.Tables()), data) ==>
      var v := SubmittedReview(old(db.Tables()), data, old(db.next.review), now);
      v.id !in old(db.reviews) &&
      r == Response(201, Data(Object(ReviewRow(v)))) &&
      db.Tables() == old(db.Tables()).(reviews := old(db.reviews)[v.id := v])
  {
    var errors := ReviewErrors(db.Tables(), data);
    if errors != [] {
      return Response(422, ValidationErrors(errors));
    }
    var v := db.CreateReview(IntOf(data["book"]).value as nat, IntOf(data["user"]).value as nat,
                             Rating(data), CleanText(data, "review_text"), now);
    r := Response(201, Data(Object(ReviewRow(v))));
  }

  /** A full update of the review's fields; created_at keeps the value stamped at creation. */
  method ReviewPut(db: Orm.Store, reviewId: nat, data: Data) returns (r: Response)
    requires db.Valid()
    modifies db
    ensures db.Valid()
    ensures r == ReviewPutResponse(old(db.Tables()), reviewId, data)
    ensures reviewId !in old(db.reviews) ==> r == NotFound && unchanged(db)
    ensures reviewId in old(db.reviews) && !ReviewValid(old(db.Tables()), data) ==>
      r == Response(422, ValidationErrors(ReviewErrors(old(db.Tables()), data))) && unchanged(db)
    ensures reviewId in old(db.reviews) && ReviewValid(old(db.Tables()), data) ==>
      var v := SubmittedReview(old(db.Tables()), data, reviewId, old(db.reviews[reviewId].createdAt));
      r == Response(200, Data(Object(ReviewRow(v)))) &&
      db.Tables() == old(db.Tables()).(reviews := old(db.reviews)[reviewId := v]) && db.next == old(db.next)
  {
    if reviewId !in db.reviews {
      return NotFound;
    }
    var errors := ReviewErrors(db.Tables(), data);
    if errors != [] {
      return Response(422, ValidationErrors(errors));
    }
    var v := db.SaveReview(reviewId, IntOf(data["book"]).value as nat, IntOf(data["user"]).value as nat,
                           Rating(data), CleanText(data, "review_text"));
    r := Response(200, Data(Object(ReviewRow(v))));
  }

  method ReviewDelete(db: Orm.Store, reviewId: nat) returns (r: Response)
    requires db.Valid()
    modifies db
    ensures db.Valid()
    ensures r == DeleteResponse(reviewId in old(db.reviews))
    ensures reviewId !in old(db.reviews) ==> r == NotFound && unchanged(db)
    ensures reviewId in old(db.reviews) ==>
      r == Response(204, NoContent) && db.Tables() == RemoveReview(old(db.Tables()), reviewId) && db.next == old(db.next)
  {
    if reviewId !in db.reviews {
      return NotFound;
    }
    db.DeleteReview(reviewId);
    r := Response(204, NoContent);
  }

  // ---------------------------------------------------------------- method_not_allowed

  /** The body method_not_allowed answers with, whatever the verb and the path. */
  const MethodNotAllowedBody := Object([("error", Text("Method Not Allowed")),
                                        ("message", Text("This method is not allowed for this endpoint."))])

  // ---------------------------------------------------------------- APIView.dispatch

  datatype Verb = Get | Post | Put | Patch | Delete

  /** request.method. */
  function VerbName(v: Verb): string
  {
    match v
    case Get => "GET"
    case Post => "POST"
    case Put => "PUT"
    case Patch => "PATCH"
    case Delete => "DELETE"
  }

  /** The keyword parameters of a handler: those without a default and those with one. */
  datatype Signature = Signature(required: set<Param>, optional: set<Param>)

  /** The handler a view defines for a verb, given by its parameters; None when the view defines none. */
  function Handler(view: Target, verb: Verb): Option<Signature>
  {
    match (view, verb)
    case (AuthorView, Get) => Some(Signature({}, {AuthorId}))
    case (AuthorView, Post) => Some(Signature({}, {}))
    case (AuthorView, Put) => Some(Signature({AuthorId}, {}))
    case (AuthorView, Delete) => Some(Signature({AuthorId}, {}))
    case (BookView, Get) => Some(Signature({}, {BookId, AuthorId}))
    case (BookView, Post) => Some(Signature({}, {AuthorId}))
    case (BookView, Put) => Some(Signature({BookId}, {AuthorId}))
    case (BookView, Delete) => Some(Signature({BookId}, {AuthorId}))
    case (ReviewView, Get) => Some(Signature({}, {ReviewId, AuthorId, BookId}))
    case (ReviewView, Post) => Some(Signature({}, {AuthorId, BookId}))
    case (ReviewView, Put) => Some(Signature({ReviewId}, {AuthorId, BookId}))
    case (ReviewView, Delete) => Some(Signature({ReviewId}, {AuthorId, BookId}))
    case _ => None
  }

  /** Whether handler(request, **kwargs) binds: every parameter without a default gets a value
      and no captured id is a keyword the handler does not declare (otherwise a TypeError). */
  predicate Binds(sig: Signature, kw: Kwargs)
  {
    (forall p :: p in sig.required ==> kw.Get(p).Some?) &&
    (forall p :: kw.Get(p).Some? ==> p in sig.required || p in sig.optional)
  }

  datatype Step = Unauthenticated | NoHandler | TypeError | Call

  /** How far dispatch gets: the IsAuthenticated check runs first, then the handler lookup, then the call. */
  function DispatchStep(view: Target, verb: Verb, kw: Kwargs, authenticated: bool): (s: Step)
    ensures !authenticated ==> s == Unauthenticated
    ensures s == Call <==> authenticated && Handler(view, verb).Some? && Binds(Handler(view, verb).value, kw)
    ensures authenticated && verb == Patch ==> s == NoHandler
  {
    if !authenticated then Unauthenticated
    else if Handler(view, verb).None? then NoHandler
    else if !Binds(Handler(view, verb).value, kw) then TypeError
    else Call
  }

  /** The response of a dispatch that stops before a handler runs. */
  function StopResponse(step: Step, verb: Verb): Response
    requires step != Call
  {
    match step
    case Unauthenticated => Response(401, Data(Object([("detail", Text("Authentication credentials were not provided."))])))
    case NoHandler => Response(405, Data(Object([("detail", Text("Method \"" + VerbName(verb) + "\" not allowed."))])))
    case TypeError => Response(500, ServerError)
  }

  /** A status that reports a change: created, updated or deleted. */
  predicate Success(status: nat)
  {
    status == 200 || status == 201 || status == 204
  }

  /** The status a handler answers a successful call with. */
  function SuccessStatus(verb: Verb): nat
  {
    match verb
    case Post => 201
    case Delete => 204
    case _ => 200
  }

  /** What the handler a call reaches answers, from the tables and sequences before the call. */
  function HandlerResponse(view: Target, verb: Verb, kw: Kwargs, t: Tables, next: Orm.Sequences, data: Data, now: Timestamp): Response
    requires Consistent(t) && Handler(view, verb).Some? && Binds(Handler(view, verb).value, kw)
  {
    match verb
    case Get =>
      if view == AuthorView then AuthorGetResponse(t, kw.authorId)
      else if view == BookView then BookGetResponse(t, kw.bookId, kw.authorId)
      else ReviewGetResponse(t, kw.reviewId, kw.authorId, kw.bookId)
    case Post =>
      if view == AuthorView then AuthorPostResponse(data, next.author)
      else if view == BookView then BookPostResponse(t, data, next.book)
      else ReviewPostResponse(t, data, next.review, now)
    case Put =>
      if view == AuthorView then AuthorPutResponse(t, kw.Get(AuthorId).value, data)
      else if view == BookView then BookPutResponse(t, kw.Get(BookId).value, data)
      else ReviewPutResponse(t, kw.Get(ReviewId).value, data)
    case Delete =>
      if view == AuthorView then DeleteResponse(kw.Get(AuthorId).value in t.authors)
      else if view == BookView then DeleteResponse(kw.Get(BookId).value in t.books)
      else DeleteResponse(kw.Get(ReviewId).value in t.reviews)
  }

  /** The tables after the handler a call reaches: a new or replaced row for a valid POST or PUT,
      the cascade for a DELETE of an existing row, and the old tables otherwise. */
  function HandlerTables(view: Target, verb: Verb, kw: Kwargs, t: Tables, next: Orm.Sequences, data: Data, now: Timestamp): Tables
    requires Handler(view, verb).Some? && Binds(Handler(view, verb).value, kw)
  {
    match verb
    case Get => t
    case Post =>
      if view == AuthorView then
        if AuthorValid(data) then t.(authors := t.authors[next.author := SubmittedAuthor(data, next.author)]) else t
      else if view == BookView then
        if BookValid(t, data, None) then t.(books := t.books[next.book := SubmittedBook(t, data, None, next.book)]) else t
      else
        if ReviewValid(t, data) then t.(reviews := t.reviews[next.review := SubmittedReview(t, data, next.review, now)]) else t
    case Put =>
      if view == AuthorView then
        var id := kw.Get(AuthorId).value;
        if id in t.authors && AuthorValid(data) then t.(authors := t.authors[id := SubmittedAuthor(data, id)]) else t
      else if view == BookView then
        var id := kw.Get(BookId).value;
        if id in t.books && BookValid(t, data, Some(id)) then t.(books := t.books[id := SubmittedBook(t, data, Some(id), id)]) else t
      else
        var id := kw.Get(ReviewId).value;
        if id in t.reviews && ReviewValid(t, data) then
          t.(reviews := t.reviews[id := SubmittedReview(t, data, id, t.reviews[id].createdAt)])
        else t
    case Delete =>
      if view == AuthorView then
        var id := kw.Get(AuthorId).value;
        if id in t.authors then CascadeAuthor(t, id) else t
      else if view == BookView then
        var id := kw.Get(BookId).value;
        if id in t.books then CascadeBook(t, id) else t
      else
        var id := kw.Get(ReviewId).value;
        if id in t.reviews then RemoveReview(t, id) else t
  }

  /** A handler answers 200, 201, 204, 404 or 422, and a success is 201 for POST, 204 for DELETE and 200 otherwise. */
  lemma HandlerStatus(view: Target, verb: Verb, kw: Kwargs, t: Tables, next: Orm.Sequences, data: Data, now: Timestamp)
    requires Consistent(t) && Handler(view, verb).Some? && Binds(Handler(view, verb).value, kw)
    ensures var r := HandlerResponse(view, verb, kw, t, next, data, now);
      r.status in {200, 201, 204, 404, 422} && (Success(r.status) ==> r.status == SuccessStatus(verb))
  {
  }

  /** Call the handler of a view for a verb with the captured ids. Only a successful write changes the store. */
  method Invoke(db: Orm.Store, view: Target, verb: Verb, kw: Kwargs, data: Data, now: Timestamp) returns (r: Response)
    requires db.Valid() && Handler(view, verb).Some? && Binds(Handler(view, verb).value, kw)
    modifies db
    ensures db.Valid()
    ensures r == HandlerResponse(view, verb, kw, old(db.Tables()), old(db.next), data, now)
    ensures db.Tables() == HandlerTables(view, verb, kw, old(db.Tables()), old(db.next), data, now)
    ensures verb == Get || !Success(r.status) ==> unchanged(db)
    ensures Success(r.status) ==> r.status == SuccessStatus(verb)
    ensures r.status in {200, 201, 204, 404, 422}
  {
    assert kw.authorId == kw.Get(AuthorId) && kw.bookId == kw.Get(BookId) && kw.reviewId == kw.Get(ReviewId);
    HandlerStatus(view, verb, kw, db.Tables(), db.next, data, now);
    if view == AuthorView {
      r := InvokeAuthorView(db, verb, kw, data, now);
    } else if view == BookView {
      r := InvokeBookView(db, verb, kw, data, now);
    } else {
      r := InvokeReviewView(db, verb, kw, data, now);
    }
  }

  /** AuthorView's handler for a verb. */
  method InvokeAuthorView(db: Orm.Store, verb: Verb, kw: Kwargs, data: Data, now: Timestamp) returns (r: Response)
    requires db.Valid() && Handler(AuthorView, verb).Some? && Binds(Handler(AuthorView, verb).value, kw)
    modifies db
    ensures db.Valid()
    ensures r == HandlerResponse(AuthorView, verb, kw, old(db.Tables()), old(db.next), data, now)
    ensures db.Tables() == HandlerTables(AuthorView, verb, kw, old(db.Tables()), old(db.next), data, now)
    ensures verb == Get || !Success(r.status) ==> unchanged(db)
  {
    assert kw.authorId == kw.Get(AuthorId);
    match verb
    case Get => r := AuthorGet(db, kw.authorId);
    case Post => r := AuthorPost(db, data);
    case Put => r := AuthorPut(db, kw.authorId.value, data);
    case Delete => r := AuthorDelete(db, kw.authorId.value);
  }

  /** BookView's handler for a verb. */
  method InvokeBookView(db: Orm.Store, verb: Verb, kw: Kwargs, data: Data, now: Timestamp) returns (r: Response)
    requires db.Valid() && Handler(BookView, verb).Some? && Binds(Handler(BookView, verb).value, kw)
    modifies db
    ensures db.Valid()
    ensures r == HandlerResponse(BookView, verb, kw, old(db.Tables()), old(db.next), data, now)
    ensures db.Tables() == HandlerTables(BookView, verb, kw, old(db.Tables()), old(db.next), data, now)
    ensures verb == Get || !Success(r.status) ==> unchanged(db)
  {
    assert kw.authorId == kw.Get(AuthorId) && kw.bookId == kw.Get(BookId);
    match verb
    case Get => r := BookGet(db, kw.bookId, kw.authorId);
    case Post => r := BookPost(db, data);
    case Put => r := BookPut(db, kw.bookId.value, data);
    case Delete => r := BookDelete(db, kw.bookId.value);
  }

  /** ReviewView's handler for a verb. */
  method InvokeReviewView(db: Orm.Store, verb: Verb, kw: Kwargs, data: Data, now: Timestamp) returns (r: Response)
    requires db.Valid() && Handler(ReviewView, verb).Some? && Binds(Handler(ReviewView, verb).value, kw)
    modifies db
    ensures db.Valid()
    ensures r == HandlerResponse(ReviewView, verb, kw, old(db.Tables()), old(db.next), data, now)
    ensures db.Tables() == HandlerTables(ReviewView, verb, kw, old(db.Tables()), old(db.next), data, now)
    ensures verb == Get || !Success(r.status) ==> unchanged(db)
  {
    assert kw.authorId == kw.Get(AuthorId) && kw.bookId == kw.Get(BookId) && kw.reviewId == kw.Get(ReviewId);
    match verb
    case Get => r := ReviewGet(db, kw.reviewId, kw.authorId, kw.bookId);
    case Post => r := ReviewPost(db, data, now);
    case Put => r := ReviewPut(db, kw.reviewId.value, data);
    case Delete => r := ReviewDelete(db, kw.reviewId.value);
  }
}
