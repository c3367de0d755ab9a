/** The database behind the Django models: one map per table, a primary-key
    sequence per table, and the row operations the views and serializers
    perform (create, save, delete with on_delete=CASCADE). Every operation
    keeps the schema's integrity rules (Models.Consistent). */
module Orm {
  import opened Common
  import opened Models

  /** The next primary key each table's auto-increment sequence hands out. */
  datatype Sequences = Sequences(user: nat, author: nat, book: nat, review: nat)

  /** Raised by the database when an insert would break a unique constraint. */
  datatype IntegrityError = IntegrityError

  class Store {
    var users: map<nat, User>
    var authors: map<nat, Author>
    var books: map<nat, Book>
    var reviews: map<nat, Review>
    var next: Sequences

    function Tables(): Tables
      reads this
    {
      Models.Tables(users, authors, books, reviews)
    }

    ghost predicate Valid()
      reads this
    {
      Consistent(Tables()) &&
      0 < next.user && 0 < next.author && 0 < next.book && 0 < next.review &&
      (forall k :: k in users ==> k < next.user) &&
      (forall k :: k in authors ==> k < next.author) &&
      (forall k :: k in books ==> k < next.book) &&
      (forall k :: k in reviews ==> k < next.review)
    }

    constructor ()
      ensures Valid()
      ensures Tables() == Models.Tables(map[], map[], map[], map[])
      ensures next == Sequences(1, 1, 1, 1)
    {
      users, authors, books, reviews := map[], map[], map[], map[];
      next := Sequences(1, 1, 1, 1);
    }

    // ------------------------------------------------------------ users

    /** FullUser.objects.create(...): a unique-constraint violation on username is an IntegrityError. */
    method CreateUser(username: string, firstName: string, lastName: string, email: string, gender: Gender)
      returns (r: Result<User, IntegrityError>)
      requires Valid()
      requires |username| <= UserNameMaxLength && |firstName| <= UserNameMaxLength && |lastName| <= UserNameMaxLength
      modifies this
      ensures Valid()
      ensures !UsernameFree(old(Tables()), username) ==> r == Err(IntegrityError) && unchanged(this)
      ensures UsernameFree(old(Tables()), username) ==>
        r == Ok(User(old(next.user), username, firstName, lastName, email, gender)) &&
        r.value.id !in old(users) &&
        Tables() == old(Tables()).(users := old(users)[r.value.id := r.value]) &&
        next == old(next).(user := old(next.user) + 1)
    {
      if !UsernameFree(Tables(), username) {
        return Err(IntegrityError);
      }
      var u := User(next.user, username, firstName, lastName, email, gender);
      PutUserConsistent(Tables(), u);
      users := users[u.id := u];
      next := next.(user := next.user + 1);
      r := Ok(u);
    }

    /** user.delete(): the user and every review written by that user. */
    method DeleteUser(id: nat)
      requires Valid() && id in users
      modifies this
      ensures Valid()
      ensures Tables() == CascadeUser(old(Tables()), id) && next == old(next)
    {
      var t := CascadeUser(Tables(), id);
      users, reviews := t.users, t.reviews;
    }

    // ------------------------------------------------------------ authors

    method CreateAuthor(name: string, bio: string) returns (a: Author)
      requires Valid() && |name| <= AuthorNameMaxLength
      modifies this
      ensures Valid()
      ensures a == Author(old(next.author), name, bio) && a.id !in old(authors)
      ensures Tables() == old(Tables()).(authors := old(authors)[a.id := a])
      ensures next == old(next).(author := old(next.author) + 1)
    {
      a := Author(next.author, name, bio);
      authors := authors[a.id := a];
      next := next.(author := next.author + 1);
    }

    /** author.save() on an existing row. */
    method SaveAuthor(a: Author)
      requires Valid() && a.id in authors && AuthorFieldsOk(a)
      modifies this
      ensures Valid()
      ensures Tables() == old(Tables()).(authors := old(authors)[a.id := a]) && next == old(next)
    {
      authors := authors[a.id := a];
    }

    /** author.delete(): the author, its books and their reviews. */
    method DeleteAuthor(id: nat)
      requires Valid() && id in authors
      modifies this
      ensures Valid()
      ensures Tables() == CascadeAuthor(old(Tables()), id) && next == old(next)
    {
      var t := CascadeAuthor(Tables(), id);
      authors, books, reviews := t.authors, t.books, t.reviews;
    }

    // ------------------------------------------------------------ books

    method CreateBook(title: string, author: nat, publicationDate: Date, isbn: string) returns (b: Book)
      requires Valid() && author in authors
      requires |title| <= BookTitleMaxLength && |isbn| <= IsbnMaxLength && IsbnFree(Tables(), isbn, None)
      modifies this
      ensures Valid()
      ensures b == Book(old(next.book), title, author, publicationDate, isbn) && b.id !in old(books)
      ensures Tables() == old(Tables()).(books := old(books)[b.id := b])
      ensures next == old(next).(book := old(next.book) + 1)
    {
      b := Book(next.book, title, author, publicationDate, isbn);
      PutBookConsistent(Tables(), b);
      books := books[b.id := b];
      next := next.(book := next.book + 1);
    }

    method SaveBook(b: Book)
      requires Valid() && b.id in books && b.author in authors
      requires BookFieldsOk(b) && IsbnFree(Tables(), b.isbn, Some(b.id))
      modifies this
      ensures Valid()
      ensures Tables() == old(Tables()).(books := old(books)[b.id := b]) && next == old(next)
    {
      PutBookConsistent(Tables(), b);
      books := books[b.id := b];
    }

    /** book.delete(): the book and its reviews. */
    method DeleteBook(id: nat)
      requires Valid() && id in books
      modifies this
      ensures Valid()
      ensures Tables() == CascadeBook(old(Tables()), id) && next == old(next)
    {
      var t := CascadeBook(Tables(), id);
      books, reviews := t.books, t.reviews;
    }

    // ------------------------------------------------------------ reviews

    /** created_at has auto_now_add: the insert stamps it with the current time. */
    method CreateReview(book: nat, user: nat, rating: int, reviewText: string, now: Timestamp) returns (r: Review)
      requires Valid() && book in books && user in users && RatingInRange(rating)
      modifies this
      ensures Valid()
      ensures r == Review(old(next.review), book, user, rating, reviewText, now) && r.id !in old(reviews)
      ensures Tables() == old(Tables()).(reviews := old(reviews)[r.id := r])
      ensures next == old(next).(review := old(next.review) + 1)
    {
      r := Review(next.review, book, user, rating, reviewText, now);
      PutReviewConsistent(Tables(), r);
      reviews := reviews[r.id := r];
      next := next.(review := next.review + 1);
    }

    /** review.save() on an existing row: created_at keeps the value stamped at creation. */
    method SaveReview(id: nat, book: nat, user: nat, rating: int, reviewText: string) returns (r: Review)
      requires Valid() && id in reviews && book in books && user in users && RatingInRange(rating)
      modifies this
      ensures Valid()
      ensures r == Review(id, book, user, rating, reviewText, old(reviews[id].createdAt))
      ensures Tables() == old(Tables()).(reviews := old(reviews)[id := r]) && next == old(next)
    {
      r := Review(id, book, user, rating, reviewText, reviews[id].createdAt);
      PutReviewConsistent(Tables(), r);
      reviews := reviews[id := r];
    }

    method DeleteReview(id: nat)
      requires Valid() && id in reviews
      modifies this
      ensures Valid()
      ensures Tables() == RemoveReview(old(Tables()), id) && next == old(next)
    {
      reviews := reviews - {id};
    }
  }
}
