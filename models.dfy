/** The four entities of the catalogue (Backend/books/models.py), the tables
    that hold them, the integrity rules the schema declares (field lengths,
    rating choices, unique ISBN and username, foreign keys) and what a
    cascading delete leaves behind. */
module Models {
  import opened Common

  const AuthorNameMaxLength: nat := 100
  const BookTitleMaxLength: nat := 200
  const IsbnMaxLength: nat := 17
  /** username, first_name and last_name of Django's AbstractUser, repeated by UserSerializer. */
  const UserNameMaxLength: nat := 150

  /** FullUser.Gender: the stored value of each choice is its label. */
  datatype Gender = Male | Female | Other

  const GenderChoices: seq<string> := ["Male", "Female", "Other"]

  function GenderChoice(g: Gender): string
  {
    match g
    case Male => "Male"
    case Female => "Female"
    case Other => "Other"
  }

  /** The gender a submitted choice names, if it names one. */
  function GenderOf(s: string): (g: Option<Gender>)
    ensures g.Some? <==> s in GenderChoices
    ensures g.Some? ==> GenderChoice(g.value) == s
  {
    if s == "Male" then Some(Male)
    else if s == "Female" then Some(Female)
    else if s == "Other" then Some(Other)
    else None
  }

  /** A publication date in the YYYY-MM-DD form DateField stores (Serializers.DateText). */
  type Date = string

  /** A creation time, as supplied by the clock when a review is stored. */
  type Timestamp = int

  datatype User = User(id: nat, username: string, firstName: string, lastName: string, email: string, gender: Gender)

  datatype Author = Author(id: nat, name: string, bio: string)

  datatype Book = Book(id: nat, title: string, author: nat, publicationDate: Date, isbn: string)

  datatype Review = Review(id: nat, book: nat, user: nat, rating: int, reviewText: string, createdAt: Timestamp)

  /** The database: one table per model, each keyed by primary key. */
  datatype Tables = Tables(users: map<nat, User>, authors: map<nat, Author>, books: map<nat, Book>, reviews: map<nat, Review>)

  // ---------------------------------------------------------------- field rules

  predicate RatingInRange(rating: int)
  {
    1 <= rating <= 10
  }

  predicate UserFieldsOk(u: User)
  {
    |u.username| <= UserNameMaxLength && |u.firstName| <= UserNameMaxLength && |u.lastName| <= UserNameMaxLength
  }

  predicate AuthorFieldsOk(a: Author)
  {
    |a.name| <= AuthorNameMaxLength
  }

  predicate BookFieldsOk(b: Book)
  {
    |b.title| <= BookTitleMaxLength && |b.isbn| <= IsbnMaxLength
  }

  predicate ReviewFieldsOk(r: Review)
  {
    RatingInRange(r.rating)
  }

  // ---------------------------------------------------------------- integrity

  ghost predicate UsersOk(t: Tables)
  {
    forall k :: k in t.users ==> 0 < k && t.users[k].id == k && UserFieldsOk(t.users[k])
  }

  ghost predicate AuthorsOk(t: Tables)
  {
    forall k :: k in t.authors ==> 0 < k && t.authors[k].id == k && AuthorFieldsOk(t.authors[k])
  }

  /** Every book row is well formed and names an existing author (the `author` foreign key). */
  ghost predicate BooksOk(t: Tables)
  {
    forall k :: k in t.books ==> 0 < k && t.books[k].id == k && BookFieldsOk(t.books[k]) && t.books[k].author in t.authors
  }

  /** Every review row is well formed and names an existing book and an existing user. */
  ghost predicate ReviewsOk(t: Tables)
  {
    forall k :: k in t.reviews ==>
      0 < k && t.reviews[k].id == k && ReviewFieldsOk(t.reviews[k]) &&
      t.reviews[k].book in t.books && t.reviews[k].user in t.users
  }

  /** `isbn` is unique=True on Book; `username` is unique on AbstractUser. */
  ghost predicate UniqueKeys(t: Tables)
  {
    (forall j, k :: j in t.books && k in t.books && t.books[j].isbn == t.books[k].isbn ==> j == k) &&
    (forall j, k :: j in t.users && k in t.users && t.users[j].username == t.users[k].username ==> j == k)
  }

  /** Everything the schema promises about a database state. */
  ghost predicate Consistent(t: Tables)
  {
    UsersOk(t) && AuthorsOk(t) && BooksOk(t) && ReviewsOk(t) && UniqueKeys(t)
  }

  /** No ISBN of a book other than `except` equals `isbn`. */
  predicate IsbnFree(t: Tables, isbn: string, except: Option<nat>)
  {
    forall k :: k in t.books && Some(k) != except ==> t.books[k].isbn != isbn
  }

  predicate UsernameFree(t: Tables, username: string)
  {
    forall k :: k in t.users ==> t.users[k].username != username
  }

  // ---------------------------------------------------------------- writes that keep the rules

  /** Storing a well-formed user under a key whose username no other user holds. */
  lemma PutUserConsistent(t: Tables, u: User)
    requires Consistent(t) && 0 < u.id && UserFieldsOk(u)
    requires forall k :: k in t.users && k != u.id ==> t.users[k].username != u.username
    ensures Consistent(t.(users := t.users[u.id := u]))
  {
    var r := t.(users := t.users[u.id := u]);
    forall j, k | j in r.users && k in r.users && r.users[j].username == r.users[k].username
      ensures j == k
    {
      if j != u.id && k != u.id {
        assert r.users[j] == t.users[j] && r.users[k] == t.users[k];
      }
    }
  }

  /** Storing a well-formed book of an existing author under a key whose ISBN no other book holds. */
  lemma PutBookConsistent(t: Tables, b: Book)
    requires Consistent(t) && 0 < b.id && BookFieldsOk(b) && b.author in t.authors
    requires IsbnFree(t, b.isbn, Some(b.id))
    ensures Consistent(t.(books := t.books[b.id := b]))
  {
    var r := t.(books := t.books[b.id := b]);
    forall j, k | j in r.books && k in r.books && r.books[j].isbn == r.books[k].isbn
      ensures j == k
    {
      if j != b.id && k != b.id {
        assert r.books[j] == t.books[j] && r.books[k] == t.books[k];
      }
    }
  }

  /** Storing a well-formed review of an existing book by an existing user. */
  lemma PutReviewConsistent(t: Tables, v: Review)
    requires Consistent(t) && 0 < v.id && ReviewFieldsOk(v) && v.book in t.books && v.user in t.users
    ensures Consistent(t.(reviews := t.reviews[v.id := v]))
  {
  }

  // ---------------------------------------------------------------- on_delete=CASCADE

  /** The books that go with an author. */
  function BooksOfAuthor(t: Tables, author: nat): set<nat>
  {
    set k | k in t.books && t.books[k].author == author
  }

  /** Deleting an author: the author, its books and the reviews of those books go. */
  function CascadeAuthor(t: Tables, id: nat): (r: Tables)
    requires id in t.authors
    ensures Consistent(t) ==> Consistent(r)
    ensures id !in r.authors && r.users == t.users
    ensures forall k :: k in r.authors <==> k in t.authors && k != id
    ensures forall k :: k in r.books <==> k in t.books && t.books[k].author != id
    ensures Consistent(t) ==> forall k :: k in r.reviews <==> k in t.reviews && t.books[t.reviews[k].book].author != id
    ensures forall k :: k in r.authors ==> r.authors[k] == t.authors[k]
    ensures forall k :: k in r.books ==> r.books[k] == t.books[k]
    ensures forall k :: k in r.reviews ==> k in t.reviews && r.reviews[k] == t.reviews[k]
  {
    var gone := BooksOfAuthor(t, id);
    Tables(t.users, t.authors - {id},
           map k | k in t.books && k !in gone :: t.books[k],
           map k | k in t.reviews && t.reviews[k].book !in gone :: t.reviews[k])
  }

  /** Deleting a book: the book and its reviews go. */
  function CascadeBook(t: Tables, id: nat): (r: Tables)
    requires id in t.books
    ensures Consistent(t) ==> Consistent(r)
    ensures r.users == t.users && r.authors == t.authors
    ensures forall k :: k in r.books <==> k in t.books && k != id
    ensures forall k :: k in r.reviews <==> k in t.reviews && t.reviews[k].book != id
    ensures forall k :: k in r.books ==> r.books[k] == t.books[k]
    ensures forall k :: k in r.reviews ==> r.reviews[k] == t.reviews[k]
  {
    Tables(t.users, t.authors, t.books - {id}, map k | k in t.reviews && t.reviews[k].book != id :: t.reviews[k])
  }

  /** Deleting a review removes that row only. */
  function RemoveReview(t: Tables, id: nat): (r: Tables)
    requires id in t.reviews
    ensures Consistent(t) ==> Consistent(r)
    ensures r.users == t.users && r.authors == t.authors && r.books == t.books
    ensures forall k :: k in r.reviews <==> k in t.reviews && k != id
    ensures forall k :: k in r.reviews ==> r.reviews[k] == t.reviews[k]
  {
    t.(reviews := t.reviews - {id})
  }

  /** Deleting a user: the user and that user's reviews go. */
  function CascadeUser(t: Tables, id: nat): (r: Tables)
    requires id in t.users
    ensures Consistent(t) ==> Consistent(r)
    ensures r.authors == t.authors && r.books == t.books
    ensures forall k :: k in r.users <==> k in t.users && k != id
    ensures forall k :: k in r.reviews <==> k in t.reviews && t.reviews[k].user != id
    ensures forall k :: k in r.users ==> r.users[k] == t.users[k]
    ensures forall k :: k in r.reviews ==> r.reviews[k] == t.reviews[k]
  {
    Tables(t.users - {id}, t.authors, t.books, map k | k in t.reviews && t.reviews[k].user != id :: t.reviews[k])
  }

  // ---------------------------------------------------------------- __str__

  /** Review.__str__: "Review of {book title} by {user}", where a user prints as its username.
      The format is stated piece by piece, so that a caller can read the title and the username
      back out of the text. */
  function ReviewString(t: Tables, r: Review): (s: string)
    requires r.book in t.books && r.user in t.users
    ensures var title, name := t.books[r.book].title, t.users[r.user].username;
      |s| == 14 + |title| + |name| &&
      s[..10] == "Review of " && s[10..10 + |title|] == title &&
      s[10 + |title|..14 + |title|] == " by " && s[14 + |title|..] == name
  {
    "Review of " + t.books[r.book].title + " by " + t.users[r.user].username
  }
}
