# Books backend: store, views and routes

A model of the catalogue part of a Django REST framework backend for books. It has three
resources: authors, books and reviews. Users write the reviews. The model has five parts.

- **Store** (`models.dfy`, `orm.dfy`). The four tables are maps from primary key to row.
  Each table has an auto-increment sequence. The store keeps the schema's rules:
  - field lengths;
  - the 1..10 rating choices;
  - unique ISBN and username;
  - foreign keys that name existing rows.

  `Orm.Store` is a class whose methods insert, save and delete rows. Every method keeps
  `Valid()`. A delete follows `on_delete=CASCADE`:
  - an author takes its books and their reviews with it;
  - a book takes its reviews;
  - a user takes the reviews they wrote.
- **Serializers** (`serializers.dfy`). Each `is_valid()` becomes a predicate
  (`AuthorValid`, `BookValid`, `ReviewValid`, `UserValid`) built from field readers with
  DRF's rules for each field kind, within the limits listed under "Left out" (JSON scalars
  only, ASCII digits, no email format). `serializer.errors` is a list of field errors in the
  serializer's field order: for `fields = '__all__'` the plain fields of the model, then its
  foreign keys. `UserSerializer.create` is a method on the store.
- **Views** (`views.dfy`). The `get`/`post`/`put`/`delete` handlers of `AuthorView`,
  `BookView` and `ReviewView` are methods. Each takes the store, the ids its route captured
  and the request body, and returns a status and a body. Details:
  - Ids are Python-truthy: a missing id and an id of 0 both take the list branch.
  - BookView and ReviewView build their lists with loops over the querysets (`BookIds`,
    `ReviewIds`); AuthorView serializes its queryset whole, with `many=True`.
  - `APIView.dispatch` runs before the handler: authentication, then handler lookup, then
    binding the captured ids to the handler's parameters. This is `DispatchStep`.
- **Routes** (`urls.dfy`). `urlpatterns` is an ordered list of patterns matched first to
  last. `<int:...>` takes a run of ASCII digits and `<path:path>` any non-empty text without
  a line break. The `admin/` include matches a prefix.
- **Server** (`server.dfy`). One request goes through route resolution, then dispatch, then
  the handler.

Queryset order is modelled as ascending primary key. That is the order a default queryset
without `ordering` shows on the usual databases.

Behaviour of the code worth knowing:

- The code has no staff or ownership checks. Every catalogue view only requires an
  authenticated user, and nothing answers 403.
- A verb a routed view does not define, such as PATCH, gets DRF's own 405 body
  `{"detail": "Method \"PATCH\" not allowed."}`. It does not get the fixed
  `{error, message}` body, which only the catch-all `method_not_allowed` sends.
- PUT or DELETE on a route without the view's own id (for example PUT `authors/`) calls a
  handler whose id parameter has no default. Python raises `TypeError`, so the answer is
  500, not 405. The same happens for POST on a detail route: the extra keyword is
  unexpected (`Server.WriteNeedsOwnId`, `Server.PostRefusesOwnId`).
- There is no `books/<id>/` route. A book is read by id only through
  `author/<a>/books/<b>/`, and `books/5/` reaches the catch-all (405).

## Model

| member | source | states |
|---|---|---|
| Common.SortedIds | Backend/books/views.py:73-75 | the listing order of a table: strictly increasing ids, exactly the table's keys |
| Common.Filter | Backend/books/views.py:133 | a filtered queryset: exactly the listed ids that satisfy the condition, order kept |
| Common.TrimEmptyIffBlank | Backend/books/serializers.py:11-13 | stripping leaves nothing exactly when the text is all whitespace (what "blank" means to a CharField) |
| Common.TrimPadded | Backend/books/serializers.py:11-13 | stripping text padded with whitespace on both sides gives the text back |
| Models.GenderOf | Backend/books/models.py:6-10 | a submitted gender is accepted exactly when it is one of Male, Female, Other, and maps back to that text |
| Models.PutUserConsistent | Backend/books/models.py:5-13 | storing a well-formed user whose username no other user holds keeps every schema rule |
| Models.PutBookConsistent | Backend/books/models.py:24-28 | storing a book of an existing author with a free ISBN keeps every schema rule, uniqueness of ISBN included |
| Models.PutReviewConsistent | Backend/books/models.py:34-39 | storing a review with a rating in 1..10 of an existing book by an existing user keeps every schema rule |
| Models.CascadeAuthor | Backend/books/models.py:26 | deleting an author removes it, exactly its books and exactly the reviews of those books; everything else is unchanged and no dangling key remains |
| Models.CascadeBook | Backend/books/models.py:35 | deleting a book removes it and exactly its reviews; everything else is unchanged and no dangling key remains |
| Models.CascadeUser | Backend/books/models.py:36 | deleting a user removes them and exactly their reviews; everything else is unchanged |
| Models.RemoveReview | Backend/books/views.py:228 | deleting a review removes that row only |
| Models.ReviewString | Backend/books/models.py:41-42 | a review prints as "Review of " + book title + " by " + username |
| Orm.Store.constructor | Backend/books/models.py:16-39 | an empty database satisfies the rules and every sequence starts at 1 |
| Orm.Store.CreateUser | Backend/books/serializers.py:22-30 | a taken username is an IntegrityError and nothing changes; otherwise exactly one user is added under a fresh key |
| Orm.Store.DeleteUser | Backend/books/models.py:36 | the new tables are the user cascade of the old ones; the rules still hold |
| Orm.Store.CreateAuthor | Backend/books/views.py:81 | exactly one author is added under the next, unused key |
| Orm.Store.SaveAuthor | Backend/books/views.py:93 | the author's row is replaced and nothing else changes |
| Orm.Store.DeleteAuthor | Backend/books/views.py:103 | the new tables are the author cascade of the old ones |
| Orm.Store.CreateBook | Backend/books/views.py:147 | exactly one book is added under the next, unused key; ISBN uniqueness is kept |
| Orm.Store.SaveBook | Backend/books/views.py:159 | the book's row is replaced and nothing else changes |
| Orm.Store.DeleteBook | Backend/books/views.py:169 | the new tables are the book cascade of the old ones |
| Orm.Store.CreateReview | Backend/books/models.py:34-39 | exactly one review is added, stamped with the time of the insert |
| Orm.Store.SaveReview | Backend/books/models.py:39 | the review's fields are replaced and `created_at` keeps its original value |
| Orm.Store.DeleteReview | Backend/books/views.py:228 | exactly that review is removed |
| Serializers.ParseInt | Backend/books/serializers.py:9 | a number is read exactly when the stripped text is digits with at most one leading `-` or `+`; a digit string denotes its decimal value; a leading `-` gives a value of at most 0, anything else a value of at least 0; every other text is refused |
| Serializers.ParseIntRoundTrip | Backend/books/serializers.py:9 | the decimal text of any integer, with any whitespace around it, reads back as that integer |
| Serializers.ParseIntPlusSign | Backend/books/serializers.py:9 | a `+` in front of the digits of a natural number is accepted and reads as that number |
| Serializers.CharValidators | Backend/books/serializers.py:11-13 | a CharField's validators all run: too long gives `max_length`, U+0000 gives `null_characters_not_allowed`, and nothing is reported exactly when neither holds |
| Serializers.CharField | Backend/books/serializers.py:11-13 | accepted exactly when present, not null, not blank once stripped, within the maximum length and free of U+0000; the value is the stripped text; U+0000 is always reported |
| Serializers.IntegerField | Backend/books/serializers.py:9 | accepted exactly when present, not a string over 1000 characters (refused with `max_string_length`) and denoting an integer once a zero fraction is cut off; that integer is the value |
| Serializers.StripZeroFractionDigits | Backend/books/serializers.py:9 | cutting the zero fraction off "digits.000  " leaves the digits |
| Serializers.ZeroFractionAccepted | Backend/books/serializers.py:9 | "5.0", "5." and "5.00 " are read as 5 |
| Serializers.ChoiceField | Backend/books/serializers.py:15 | accepted exactly when the text of the value is one of the choices |
| Serializers.ParseDate | Backend/books/models.py:27 | a parsed date is a real calendar date (year 1..9999, the month's number of days, leap years included) |
| Serializers.PadDigits | Backend/books/models.py:27 | the zero-padded text of a number has the asked width and reads back as that number |
| Serializers.DateText | Backend/books/models.py:27 | a stored date is written YYYY-MM-DD |
| Serializers.DateGroupsOf | Backend/books/models.py:27 | the pattern takes four year digits and one or two digits each for month and day, and reads their values |
| Serializers.DateRoundTrip | Backend/books/models.py:27 | reading the written form of a date gives that date back |
| Serializers.ShortDateAccepted | Backend/books/models.py:27 | a date written with unpadded month and day, such as 2020-1-5, is accepted as that date |
| Serializers.LeapDay | Backend/books/models.py:27 | February 29th is accepted in 2020 and 2000 and refused in 2021 and 1900 |
| Serializers.DateField | Backend/books/models.py:27 | accepted exactly when the value is a string parse_date reads as a calendar date; the stored text is its YYYY-MM-DD form and denotes the same date |
| Serializers.RelatedField | Backend/books/models.py:26 | accepted exactly when the value is the key of an existing row; an empty string is reported as null |
| Serializers.IsbnField | Backend/books/models.py:28 | accepted exactly when a valid text of at most 17 characters that no other book holds; the book being replaced is not counted; a rejected non-blank ISBN reports every failing validator: `unique` exactly when taken (and then first), `max_length` exactly when too long, `null_characters_not_allowed` exactly when it holds U+0000 |
| Serializers.IsbnReportsEveryFailure | Backend/books/models.py:28 | a taken, too long ISBN holding U+0000 reports exactly unique, max_length and null_characters_not_allowed, in that order |
| Serializers.AuthorErrors | Backend/books/serializers.py:36-39 | no errors exactly when the author data is valid |
| Serializers.BookErrors | Backend/books/serializers.py:42-45 | no errors exactly when the book data is valid |
| Serializers.BookErrorsOfEmpty | Backend/books/serializers.py:42-45 | an empty body reports title, publication_date, isbn, author as required, in that order |
| Serializers.ReviewErrors | Backend/books/serializers.py:49-52 | no errors exactly when the review data is valid |
| Serializers.ReviewErrorsOfEmpty | Backend/books/serializers.py:49-52 | an empty body reports rating, review_text, book, user as required, in that order |
| Serializers.Rating | Backend/books/models.py:37 | an accepted rating lies in 1..10, and its decimal text is exactly the text of the submitted value, whether a number or a string |
| Serializers.RatingOfChoice | Backend/books/models.py:37 | every rating choice is the decimal text of a number in 1..10 |
| Serializers.RatingBoundaries | Backend/books/models.py:37 | a submitted number is accepted exactly when it is in 1..10 (0 and 11 refused, 1 and 10 accepted) |
| Serializers.ReadableFields | Backend/books/serializers.py:10 | the output fields are exactly the declared fields that are not write-only |
| Serializers.UserErrors | Backend/books/serializers.py:8-19 | no errors exactly when every declared user field is valid |
| Serializers.UserData | Backend/books/serializers.py:8-19 | user output lists the readable fields in declared order, `id` first; `password` never appears |
| Serializers.CreateUser | Backend/books/serializers.py:21-31 | stores the submitted username, names, email and gender under a fresh key, not the submitted id; a taken username gives the validation message and adds no user |
| Urls.RouteTable | Backend/urls.py:26-41 | the thirteen patterns in their order, the catch-all last |
| Urls.ResolveInFirstMatch | Backend/urls.py:26-41 | the resolved route matches and no earlier route does; unresolved exactly when no route matches |
| Urls.FirstMatchResolves | Backend/urls.py:26-41 | a route that matches when no earlier one does is the one chosen |
| Urls.ResolvesAt | Backend/urls.py:26-41 | the same for the route table itself |
| Urls.CatchAllAccepts | Backend/urls.py:40 | `<path:path>` takes exactly the non-empty paths without a line break, capturing no id |
| Urls.ResolveTotal | Backend/urls.py:26-41 | every non-empty path without a line break resolves; the empty path does not |
| Urls.FallsToCatchAll | Backend/urls.py:40 | a path no earlier route takes goes to method_not_allowed |
| Urls.ReverseAuthorList | Backend/urls.py:31 | `authors/` goes to AuthorView with no id |
| Urls.ReverseAuthorDetail | Backend/urls.py:32 | `authors/<a>/` goes to AuthorView with exactly author_id = a |
| Urls.AuthorDetailDigits | Backend/urls.py:32 | `authors/` followed by any run of digits and `/` goes to AuthorView with author_id the value of the digits, leading zeros included |
| Urls.LeadingZerosAuthorId | Backend/urls.py:32 | `authors/007/` goes to AuthorView with author_id 7 |
| Urls.ReverseBookList | Backend/urls.py:33 | `books/` goes to BookView with no id |
| Urls.ReverseAuthorBooks | Backend/urls.py:34 | `author/<a>/books/` goes to BookView with exactly author_id = a |
| Urls.ReverseBookDetail | Backend/urls.py:35 | `author/<a>/books/<b>/` goes to BookView with exactly author_id and book_id |
| Urls.ReverseReviewList | Backend/urls.py:36 | `reviews/` goes to ReviewView with no id |
| Urls.ReverseBookReviews | Backend/urls.py:37 | `author/<a>/book/<b>/reviews` goes to ReviewView with exactly author_id and book_id |
| Urls.ReverseReviewDetail | Backend/urls.py:38 | `author/<a>/book/<b>/reviews/<r>/` goes to ReviewView with all three ids |
| Urls.NonNumericAuthorId | Backend/urls.py:32 | `authors/` followed by a non-digit reaches method_not_allowed, never AuthorView |
| Urls.ReviewListTrailingSlash | Backend/urls.py:37-38 | the scoped review list with a trailing slash reaches method_not_allowed |
| Urls.BookSpellingNeverBookView | Backend/urls.py:34-35 | a path spelled `author/<a>/book/...` never reaches BookView |
| Urls.BooksSpellingNeverReviewView | Backend/urls.py:37-38 | a path spelled `author/<a>/books/...` never reaches ReviewView |
| Urls.MatchCaptures | Backend/urls.py:32-38 | a match sets exactly the ids its pattern captures |
| Urls.ResolvedIds | Backend/urls.py:26-41 | a view receives exactly the ids of the route that took the path |
| Urls.ViewRoutes | Backend/urls.py:31-38 | which routes lead to each view; the other routes capture nothing |
| Urls.AuthorViewIds | Backend/urls.py:31-32 | AuthorView never receives a book or review id |
| Urls.BookViewIds | Backend/urls.py:33-35 | BookView never receives a review id, and receives a book id only with an author id |
| Urls.ReviewViewIds | Backend/urls.py:36-38 | ReviewView receives a book id exactly when it receives an author id, and a review id only with both |
| Urls.OtherViewIds | Backend/urls.py:27-40 | admin, token, user-details and the catch-all receive no id |
| Views.BookIds | Backend/books/views.py:127-133 | the books listed: exactly those of the given author (or all), increasing ids |
| Views.ReviewIds | Backend/books/views.py:187-193 | the reviews listed: exactly those of the given book (or all), increasing ids |
| Views.BookReviews | Backend/books/views.py:115-121 | a book's `reviews`: one entry per review of that book, in listing order |
| Views.AuthorGet | Backend/books/views.py:64-75 | a truthy id gives that author or 404; otherwise every author in listing order |
| Views.AuthorPost | Backend/books/views.py:77-83 | valid data adds exactly one author and answers 201 with it; invalid data answers 422 with the errors and changes nothing |
| Views.AuthorPut | Backend/books/views.py:85-95 | a missing author is 404 before validation; invalid data 422; otherwise that author is replaced and answered with 200; failures change nothing |
| Views.AuthorDelete | Backend/books/views.py:97-104 | a missing author is 404 with nothing changed; otherwise 204 and the author cascade |
| Views.ListBooks | Backend/books/views.py:135-140 | the list holds, in queryset order, each book's data with `author_name` added |
| Views.BookGet | Backend/books/views.py:110-142 | answers what BookView.get gives over the current tables (`BookGetResponse`, spelled out by `BookGetCases`) |
| Views.BookGetCases | Backend/books/views.py:110-142 | a truthy book id gives that book with `author_name` and its reviews, or 404, whatever the author id; otherwise 404 for a missing truthy author, else exactly that author's (or every) book with `author_name`, in listing order |
| Views.BookPost | Backend/books/views.py:144-149 | valid data adds exactly one book and answers 201; invalid data (a taken ISBN included) answers 422 and changes nothing |
| Views.BookPut | Backend/books/views.py:151-161 | 404, then 422, then the book replaced and 200; the book's own ISBN does not count as taken |
| Views.BookDelete | Backend/books/views.py:163-170 | 404 with nothing changed, or 204 and the book cascade |
| Views.ListReviews | Backend/books/views.py:195-200 | the list holds, in queryset order, each review's data with `book_title` added |
| Views.ReviewGet | Backend/books/views.py:176-201 | answers what ReviewView.get gives over the current tables (`ReviewGetResponse`, spelled out by `ReviewGetCases`) |
| Views.ReviewGetCases | Backend/books/views.py:176-201 | the review with `book_title` only when all three ids are truthy; otherwise exactly the reviews of the book (404 if the book is missing) when author and book ids are truthy, else every review, each with `book_title`, in listing order |
| Views.ReviewPost | Backend/books/views.py:203-208 | valid data adds exactly one review stamped with the current time and answers 201; invalid data answers 422 and changes nothing |
| Views.ReviewPut | Backend/books/views.py:210-220 | 404, then 422, then the review replaced with its `created_at` kept and 200 |
| Views.ReviewDelete | Backend/books/views.py:222-229 | 404 with nothing changed, or 204 and only that review removed |
| Views.DispatchStep | Backend/books/views.py:61-62 | nothing runs unauthenticated; a handler is called exactly when the user is authenticated, the view defines the verb and the ids bind to its parameters; PATCH is never handled |
| Views.HandlerStatus | Backend/books/views.py:64-229 | a handler answers 200, 201, 204, 404 or 422, and a success is 201 for POST, 204 for DELETE and 200 otherwise |
| Views.Invoke | Backend/books/views.py:64-229 | the call answers the response of the handler the view defines for the verb over the old tables and sequences (`HandlerResponse`), and the tables become `HandlerTables`: the new or replaced row, the cascade, or no change; the rules are kept; a read or a failed write leaves the store unchanged; the status facts of `HandlerStatus` |
| Views.InvokeAuthorView | Backend/books/views.py:64-104 | the same response and tables for AuthorView's get, post, put and delete |
| Views.InvokeBookView | Backend/books/views.py:110-170 | the same for BookView's handlers |
| Views.InvokeReviewView | Backend/books/views.py:176-229 | the same for ReviewView's handlers |
| Server.Handle | Backend/urls.py:26-41 | unrouted paths are 404; the catch-all answers 405 with the fixed body for every verb; a dispatch stopped early answers 401, 405 or 500; a request that reaches a catalogue handler is answered with exactly that handler's response and leaves the tables that handler makes; only a successful write changes the store |
| Server.CapturedIdsDeclared | Backend/urls.py:31-38 | every id a catalogue route captures is a parameter of its view's GET |
| Server.GetReachesHandler | Backend/books/views.py:64 | GET on any catalogue route reaches its handler once authenticated |
| Server.WriteNeedsOwnId | Backend/books/views.py:85-229 | PUT and DELETE reach the handler exactly on routes capturing the view's own id, else 500 |
| Server.PostRefusesOwnId | Backend/books/views.py:77-208 | POST reaches the handler exactly on routes without the view's own id, else 500 |

## Left out

- The password is not stored. `set_password` hashes it after the row is created and the user is never saved again, so the model does not claim it persists.
- The JWT token views, the admin site and `UserDetailsView` are routed but run outside the model. `Server.Handle` reports such requests as delegated. `admin.py` only registers the models with the admin site.
- `UserRegistrationView` is not routed, so it is not modelled. Its validation and `create` are (`Serializers.UserErrors`, `Serializers.CreateUser`).
- `custom404` and `NotFoundView` are not wired into the route table. The unresolved empty path is answered by Django's default `page_not_found`; the model keeps its 404 status and abstracts its body.
- HEAD, OPTIONS and TRACE are not modelled. DRF answers them itself: HEAD as GET, OPTIONS with metadata.
- Email format is not checked. `email` is accepted as non-blank text.
- Serializers.DateField: the pattern's `\d` also takes non-ASCII decimal digits, and on Python 3.11 or later `date.fromisoformat` also takes forms such as 20200105 and 2020-W01-3. The model refuses these.
- `created_at` is a clock reading, so it is a parameter of `Views.ReviewPost`. Its JSON rendering is a number.
- Serializers.ParseInt: Python's `int()` also accepts underscores and non-ASCII digits. These are not modelled.
- Serializers.CharField: DRF also refuses lone surrogate characters. A Dafny `char` is a Unicode scalar value, so a lone surrogate cannot be written in the model.
- A request body is a map from field name to a string, an integer or null. JSON booleans, floats, lists and nested objects are not modelled, so their outcomes are missing: a CharField refuses a boolean as `invalid`, a CharField stores a float as its text, and an IntegerField accepts 5.0. A body that is not a JSON object (DRF answers 422 with `non_field_errors`) is not modelled either.
- Ids are unbounded naturals. On Django before 5.0 with SQLite, looking up an id above 2^63-1 raises `OverflowError`. Two kinds of lookup do not catch it, so Django answers 500: the `except X.DoesNotExist` lookups (Backend/books/views.py:67, 87, 99, 113, 153, 165, 179, 212 and 224) and the body ids a `PrimaryKeyRelatedField` reads. The model answers as if the row were missing (404, or `does_not_exist`). The scoped-list lookups at Backend/books/views.py:130-131 and 190-191 sit under a bare `except:` and answer 404 on any version, as the model does.
- Orm.Store.CreateUser: a failed insert does not use up a key of the user sequence. A real database sequence may skip one.
- The 401 body assumes an authentication class that sends `WWW-Authenticate`, as token authentication does. Otherwise DRF would answer 403.
- Django's 500 page is the opaque `ServerError` body.
- Concurrency and transaction atomicity are left to the database.
- Views.Invoke: the sequence counters after a call are not stated. The store's invariant only keeps them above every key in use.
- The catch-all's `path` keyword argument is not passed on, since `method_not_allowed` ignores it.
- Route matching lets `<int:...>` take the longest digit run. For these patterns that is the regex's outcome, because a non-digit always follows the capture.
