/** The book operations (`BookService`): listing, finding and searching books
    together with their reviews, the books-with-ratings listing, and the
    three mutations, which keep no two books with the same title and author
    and delete a book's reviews together with it. None of the mutations looks
    at who asks: the `userId` they receive is never used. */
module BookService {
  import opened Wrappers
  import opened Errors
  import opened Text
  import opened Database
  import opened Aggregates

  datatype UserRef = UserRef(id: int, name: string, email: string)

  /** A review with its author, as the book queries include it. */
  datatype ReviewWithUser = ReviewWithUser(id: int, rating: int, text: string, user: UserRef)

  datatype BookView = BookView(id: int, title: string, author: string, reviews: seq<ReviewWithUser>)

  function ReviewWithUserOf(t: Tables, rid: int): (r: ReviewWithUser)
    requires Linked(t) && rid in t.reviews
    ensures r.id == rid && r.rating == t.reviews[rid].rating && r.text == t.reviews[rid].text
    ensures r.user.id == t.reviews[rid].userId
  {
    var rv := t.reviews[rid];
    var u := t.users[rv.userId];
    ReviewWithUser(rid, rv.rating, rv.text, UserRef(rv.userId, u.name, u.email))
  }

  function ReviewIdsIn(rs: seq<ReviewWithUser>): (ids: seq<int>)
    ensures |ids| == |rs| && forall i | 0 <= i < |rs| :: ids[i] == rs[i].id
  {
    seq(|rs|, i requires 0 <= i < |rs| => rs[i].id)
  }

  function BookViewIds(vs: seq<BookView>): (ids: seq<int>)
    ensures |ids| == |vs| && forall i | 0 <= i < |vs| :: ids[i] == vs[i].id
  {
    seq(|vs|, i requires 0 <= i < |vs| => vs[i].id)
  }

  /** The ids of the reviews of book `bid`, ascending. */
  function ReviewIdsOfBook(t: Tables, bid: int): (ids: seq<int>)
    requires Linked(t)
    ensures forall k :: k in ids <==> k in t.reviews && t.reviews[k].bookId == bid
    ensures forall i, j | 0 <= i < j < |ids| :: ids[i] < ids[j]
  {
    ReviewIdsWhere(t, (rv: Review) => rv.bookId == bid)
  }

  /** The reviews of book `bid` with their authors, in id order. */
  function BookReviews(t: Tables, bid: int): (rs: seq<ReviewWithUser>)
    requires Linked(t)
    ensures ReviewIdsIn(rs) == ReviewIdsOfBook(t, bid)
    ensures forall i | 0 <= i < |rs| :: rs[i].id in t.reviews && rs[i] == ReviewWithUserOf(t, rs[i].id)
  {
    var ids := ReviewIdsOfBook(t, bid);
    var rs := seq(|ids|, i requires 0 <= i < |ids| => ReviewWithUserOf(t, ids[i]));
    assert ReviewIdsIn(rs) == ids;
    rs
  }

  function BookViewOf(t: Tables, bid: int): (v: BookView)
    requires Linked(t) && bid in t.books
    ensures v.id == bid && v.title == t.books[bid].title && v.author == t.books[bid].author
    ensures v.reviews == BookReviews(t, bid)
  {
    BookView(bid, t.books[bid].title, t.books[bid].author, BookReviews(t, bid))
  }

  function BookViews(t: Tables, ids: seq<int>): (vs: seq<BookView>)
    requires Linked(t) && forall k | k in ids :: k in t.books
    ensures BookViewIds(vs) == ids
    ensures forall i | 0 <= i < |ids| :: vs[i] == BookViewOf(t, ids[i])
  {
    var vs := seq(|ids|, i requires 0 <= i < |ids| => BookViewOf(t, ids[i]));
    assert BookViewIds(vs) == ids;
    vs
  }

  /** `getAllBooks`: every book once, in id order. */
  function GetAllBooks(t: Tables): (vs: seq<BookView>)
    requires Consistent(t)
    ensures |vs| == |t.books|
    ensures BookViewIds(vs) == BookIds(t)
    ensures forall i | 0 <= i < |vs| :: vs[i].id in t.books && vs[i] == BookViewOf(t, vs[i].id)
  {
    TableCount(t.books, t.nextBookId);
    BookViews(t, BookIds(t))
  }

  /** `getBookById`: the book with its reviews, or nothing. */
  function GetBookById(t: Tables, id: int): (r: Option<BookView>)
    requires Linked(t)
    ensures r.None? <==> id !in t.books
    ensures r.Some? ==> r.value == BookViewOf(t, id)
  {
    if id in t.books then Some(BookViewOf(t, id)) else None
  }

  /** Title or author contains the query (case-sensitively). */
  predicate BookMatches(b: Book, query: string) {
    Contains(b.title, query) || Contains(b.author, query)
  }

  /** `searchBooks`: exactly the books whose title or author contains the
      query, in id order. */
  function SearchBooks(t: Tables, query: string): (vs: seq<BookView>)
    requires Consistent(t)
    ensures forall k :: k in BookViewIds(vs) <==> k in t.books && BookMatches(t.books[k], query)
    ensures forall i, j | 0 <= i < j < |vs| :: vs[i].id < vs[j].id
    ensures forall i | 0 <= i < |vs| :: vs[i].id in t.books && vs[i] == BookViewOf(t, vs[i].id)
  {
    var books := t.books;
    var ids := FilterIds(BookIds(t), k => k in books && BookMatches(books[k], query));
    BookViews(t, ids)
  }

  datatype RatedBook = RatedBook(book: BookView, averageRating: int, reviewCount: int)

  function Ratings(rs: seq<ReviewWithUser>): (ratings: seq<int>)
    ensures |ratings| == |rs| && forall i | 0 <= i < |rs| :: ratings[i] == rs[i].rating
  {
    seq(|rs|, i requires 0 <= i < |rs| => rs[i].rating)
  }

  /** The `map` step of `getBooksWithAverageRating`, with its own copy of
      the average formula. */
  function Rated(v: BookView): (r: RatedBook)
    ensures r.book == v && r.reviewCount == |v.reviews|
    ensures r.averageRating == AverageTenths(Ratings(v.reviews))
  {
    var ratings := Ratings(v.reviews);
    var totalRating := Reduce(0, ratings);
    ReduceIsSum(0, ratings);
    var n := |v.reviews|;
    RatedBook(v, if n > 0 then RoundTenths(totalRating, n) else RoundTenths(0, 1), n)
  }

  /** `getBooksWithAverageRating`: one entry per book, in the order of
      `getAllBooks`, each with its review count and average in tenths. */
  function GetBooksWithAverageRating(t: Tables): (rs: seq<RatedBook>)
    requires Consistent(t)
    ensures |rs| == |GetAllBooks(t)| == |t.books|
    ensures forall i | 0 <= i < |rs| ::
              && rs[i].book == GetAllBooks(t)[i]
              && rs[i].reviewCount == |ReviewIdsOfBook(t, rs[i].book.id)|
              && rs[i].averageRating == AverageTenths(Ratings(BookReviews(t, rs[i].book.id)))
  {
    var books := GetAllBooks(t);
    var rs := seq(|books|, i requires 0 <= i < |books| => Rated(books[i]));
    forall i | 0 <= i < |books|
      ensures rs[i].reviewCount == |ReviewIdsOfBook(t, rs[i].book.id)|
    {
      ReviewCountOfView(t, books[i].id);
    }
    rs
  }

  /** A book's view carries one review per review of the book. */
  lemma ReviewCountOfView(t: Tables, bid: int)
    requires Linked(t) && bid in t.books
    ensures |BookViewOf(t, bid).reviews| == |ReviewIdsOfBook(t, bid)|
  {
    assert |ReviewIdsIn(BookReviews(t, bid))| == |BookReviews(t, bid)|;
  }

  // ---------------------------------------------------------------- createBook

  function WithNewBook(t: Tables, title: string, author: string): Tables {
    t.(books := t.books[t.nextBookId := Book(title, author)], nextBookId := t.nextBookId + 1)
  }

  /** Adding a book whose title and author are not both taken keeps the store
      consistent and the pair unique; nothing else changes. */
  lemma CreateBookKeepsConsistent(t: Tables, title: string, author: string)
    requires Consistent(t) && !PairInUse(t.books, title, author, None)
    ensures var t' := WithNewBook(t, title, author);
            && Consistent(t')
            && t.nextBookId !in t.books
            && t'.books.Keys == t.books.Keys + {t.nextBookId}
            && ReviewIdsOfBook(t', t.nextBookId) == []
  {
    var t' := WithNewBook(t, title, author);
    assert t.nextBookId !in t.books;
    assert forall k | k in t.books :: t.books[k] != Book(title, author);
    assert forall k | k in t'.reviews :: t'.reviews[k].bookId != t.nextBookId;
    NoReviewWhere(t', (rv: Review) => rv.bookId == t.nextBookId);
  }

  /** `createBook`: "A book with this title and author already exists" when
      the pair is taken; otherwise the book is added, with no reviews. */
  method CreateBook(db: Store, title: string, author: string) returns (r: Result<BookView, Error>)
    requires db.Valid()
    modifies db
    ensures db.Valid()
    ensures PairInUse(old(db.books), title, author, None) ==>
              r == Err(Thrown(DuplicateBook)) && db.Snapshot() == old(db.Snapshot())
    ensures !PairInUse(old(db.books), title, author, None) ==>
              && db.Snapshot() == WithNewBook(old(db.Snapshot()), title, author)
              && r == Ok(BookView(old(db.nextBookId), title, author, []))
  {
    var t := db.Snapshot();
    var existing := FindKey(db.books, BookIds(t), (b: Book) => b == Book(title, author));
    if existing.Some? {
      return Err(Thrown(DuplicateBook));
    }
    CreateBookKeepsConsistent(t, title, author);
    var id := db.nextBookId;
    db.books := db.books[id := Book(title, author)];
    db.nextBookId := id + 1;
    r := Ok(BookViewOf(db.Snapshot(), id));
  }

  // ---------------------------------------------------------------- updateBook

  /** `UpdateBookInput`: the fields to change; an absent one is left as it is. */
  datatype BookPatch = BookPatch(title: Option<string>, author: Option<string>)

  /** Neither field is supplied as the empty string. */
  predicate NoEmptyField(data: BookPatch) {
    data.title != Some("") && data.author != Some("")
  }

  /** The row `updateBook` writes, or its error. The duplicate check runs only
      when some field is truthy, and it compares the truthy fields, completed
      with the book's current values, against every other book. The write
      applies every supplied field, empty or not. */
  ghost function UpdatedBook(t: Tables, id: int, data: BookPatch): Result<Book, Error> {
    if id !in t.books then Err(Thrown(BookNotFound))
    else
      var b := t.books[id];
      if (Truthy(data.title) || Truthy(data.author))
         && PairInUse(t.books, if Truthy(data.title) then data.title.value else b.title,
                               if Truthy(data.author) then data.author.value else b.author, Some(id))
      then Err(Thrown(DuplicateBook))
      else Ok(Book(data.title.GetOr(b.title), data.author.GetOr(b.author)))
  }

  /** With no empty field, a successful update keeps every (title, author)
      pair unique and touches no other row. */
  lemma UpdateBookKeepsConsistent(t: Tables, id: int, data: BookPatch)
    requires Consistent(t) && NoEmptyField(data) && UpdatedBook(t, id, data).Ok?
    ensures Consistent(t.(books := t.books[id := UpdatedBook(t, id, data).value]))
  {
    var nb := UpdatedBook(t, id, data).value;
    var b := t.books[id];
    if !(Truthy(data.title) || Truthy(data.author)) {
      assert nb == b;
    }
    assert forall k | k in t.books && k != id :: t.books[k] != nb;
  }

  /** Submitting a book's own title and author again succeeds and leaves the
      book as it was: the duplicate check excludes the book itself. */
  lemma UpdateBookOwnValues(t: Tables, id: int)
    requires Consistent(t) && id in t.books
    ensures var b := t.books[id];
            UpdatedBook(t, id, BookPatch(Some(b.title), Some(b.author))) == Ok(b)
  {
    var b := t.books[id];
    assert forall k | k in t.books && t.books[k] == b :: k == id;
  }

  /** Without the resolver's filtering, an update with an empty title and no
      author skips the duplicate check altogether (`data.title || data.author`
      is falsy) and then writes the empty title, so two books can end up
      with the same title and author. */
  lemma EmptyTitleBypassesDuplicateCheck(t: Tables, id: int, other: int)
    requires Consistent(t) && id in t.books && other in t.books && other != id
    requires t.books[other] == Book("", t.books[id].author)
    ensures UpdatedBook(t, id, BookPatch(Some(""), None)).Ok?
    ensures !UniqueTitleAuthor(t.books[id := UpdatedBook(t, id, BookPatch(Some(""), None)).value])
  {
    var nb := UpdatedBook(t, id, BookPatch(Some(""), None)).value;
    assert nb == Book("", t.books[id].author);
    var books' := t.books[id := nb];
    assert books'[id] == books'[other];
  }

  /** `findFirst` over the other books for the pair (title, author). */
  function FindOtherBook(t: Tables, id: int, title: string, author: string): (r: Option<int>)
    requires IdsBelow(t.books, t.nextBookId)
    ensures r.Some? <==> PairInUse(t.books, title, author, Some(id))
    ensures r.Some? ==> r.value in t.books && r.value != id && t.books[r.value] == Book(title, author)
  {
    FindKey(t.books - {id}, BookIds(t), (b: Book) => b == Book(title, author))
  }

  /** Rewriting a row of the books table keeps every review linked. */
  lemma RewriteBookKeepsLinked(t: Tables, id: int, b: Book)
    requires Linked(t) && id in t.books
    ensures Linked(t.(books := t.books[id := b]))
  {
  }

  /** `updateBook`: "Book not found", then the duplicate check, then the
      write. Linked reviews are never affected; the store stays fully
      consistent whenever no field is the empty string. */
  method UpdateBook(db: Store, id: int, userId: int, data: BookPatch) returns (r: Result<BookView, Error>)
    requires db.Valid()
    modifies db
    ensures Linked(db.Snapshot())
    ensures NoEmptyField(data) ==> db.Valid()
    ensures var s := UpdatedBook(old(db.Snapshot()), id, data);
            && (s.Err? ==> r == Err(s.error) && db.Snapshot() == old(db.Snapshot()))
            && (s.Ok? ==> db.Snapshot() == old(db.Snapshot()).(books := old(db.books)[id := s.value])
                          && r == Ok(BookViewOf(db.Snapshot(), id)))
  {
    var t := db.Snapshot();
    if id !in t.books {
      return Err(Thrown(BookNotFound));
    }
    var book := t.books[id];
    if Truthy(data.title) || Truthy(data.author) {
      var title := if Truthy(data.title) then data.title.value else book.title;
      var author := if Truthy(data.author) then data.author.value else book.author;
      var existing := FindOtherBook(t, id, title, author);
      if existing.Some? {
        return Err(Thrown(DuplicateBook));
      }
    }
    var updated := Book(data.title.GetOr(book.title), data.author.GetOr(book.author));
    assert UpdatedBook(t, id, data) == Ok(updated);
    if NoEmptyField(data) {
      UpdateBookKeepsConsistent(t, id, data);
    }
    RewriteBookKeepsLinked(t, id, updated);
    db.books := db.books[id := updated];
    assert db.Snapshot() == t.(books := t.books[id := updated]);
    r := Ok(BookViewOf(db.Snapshot(), id));
  }

  // ---------------------------------------------------------------- deleteBook

  /** The tables after the book's reviews and then the book are deleted. */
  ghost function WithoutBook(t: Tables, id: int): Tables {
    t.(books := t.books - {id},
       reviews := map k | k in t.reviews && t.reviews[k].bookId != id :: t.reviews[k])
  }

  /** Deleting a book leaves no review pointing at it and keeps the store
      consistent; every other book, every user and every review of another
      book stays as it was. */
  lemma DeleteBookCascade(t: Tables, id: int)
    requires Consistent(t)
    ensures var t' := WithoutBook(t, id);
            && Consistent(t')
            && id !in t'.books
            && (forall k | k in t'.reviews :: t'.reviews[k].bookId != id)
            && (forall k | k in t.books && k != id :: k in t'.books && t'.books[k] == t.books[k])
            && (forall k | k in t.reviews && t.reviews[k].bookId != id :: k in t'.reviews && t'.reviews[k] == t.reviews[k])
            && t'.users == t.users
  {
  }

  /** `deleteBook`: "Book not found" for an unknown id; otherwise the book's
      reviews go first, then the book, and the answer is `true`. */
  method DeleteBook(db: Store, id: int, userId: int) returns (r: Result<bool, Error>)
    requires db.Valid()
    modifies db
    ensures db.Valid()
    ensures id !in old(db.books) ==> r == Err(Thrown(BookNotFound)) && db.Snapshot() == old(db.Snapshot())
    ensures id in old(db.books) ==> r == Ok(true) && db.Snapshot() == WithoutBook(old(db.Snapshot()), id)
  {
    if id !in db.books {
      return Err(Thrown(BookNotFound));
    }
    DeleteBookCascade(db.Snapshot(), id);
    var reviews := db.reviews;
    db.reviews := map k | k in reviews && reviews[k].bookId != id :: reviews[k];
    db.books := db.books - {id};
    return Ok(true);
  }
}
