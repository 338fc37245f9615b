/** The GraphQL entry points of the book module: the `book` and
    `searchBooks` queries, the `createBook`, `updateBook` and `deleteBook`
    mutations, and the `Book.averageRating` and `Book.reviewCount` field
    resolvers. The `books` and `booksWithRating` queries hand the call to the
    service unchanged. The mutations require a signed-in user, who is not
    otherwise consulted. */
module BookResolvers {
  import opened Wrappers
  import opened Errors
  import opened Text
  import opened JsParseInt
  import opened Database
  import opened Aggregates
  import opened BookService
  import opened RequestContext

  /** `book(id)`: "Invalid book ID" when the id has no leading integer, before
      any lookup; "Book not found" when no book has it. */
  function BookQuery(t: Tables, id: string): (r: Result<BookView, Error>)
    requires Consistent(t)
    ensures ParseInt(id).NaN? ==> r == Err(Thrown(InvalidBookId))
    ensures ParseInt(id).Int? && ParseInt(id).value !in t.books ==> r == Err(Thrown(BookNotFound))
    ensures ParseInt(id).Int? && ParseInt(id).value in t.books ==> r == Ok(BookViewOf(t, ParseInt(id).value))
  {
    match ParseInt(id)
    case NaN => Err(Thrown(InvalidBookId))
    case Int(bookId) =>
      match GetBookById(t, bookId)
      case None => Err(Thrown(BookNotFound))
      case Some(b) => Ok(b)
  }

  /** The decimal spelling of an existing book's id finds that book, and so
      does the same spelling followed by any text not starting with a digit
      (`parseInt` stops at the first non-digit). */
  lemma BookQueryByDecimalId(t: Tables, n: nat, rest: string)
    requires Consistent(t) && n in t.books
    requires rest == [] || !IsDecimalDigit(rest[0])
    ensures BookQuery(t, Decimal(n) + rest) == Ok(BookViewOf(t, n))
  {
    DecimalRoundTrip(n, rest);
  }

  /** `searchBooks(query)`: a blank query is refused; otherwise the search
      runs on the trimmed query. */
  function SearchBooksQuery(t: Tables, query: string): (r: Result<seq<BookView>, Error>)
    requires Consistent(t)
    ensures r.Err? <==> IsBlank(query)
    ensures r.Err? ==> r.error == Thrown(SearchQueryRequired)
    ensures r.Ok? ==> forall k :: k in BookViewIds(r.value) <==> k in t.books && BookMatches(t.books[k], Trim(query))
    ensures r.Ok? ==> forall i, j | 0 <= i < j < |r.value| :: r.value[i].id < r.value[j].id
    ensures r.Ok? ==> forall i | 0 <= i < |r.value| :: r.value[i].id in t.books && r.value[i] == BookViewOf(t, r.value[i].id)
  {
    if query == "" || IsBlank(query) then Err(Thrown(SearchQueryRequired))
    else Ok(SearchBooks(t, Trim(query)))
  }

  // ---------------------------------------------------------------- createBook

  /** `createBook(title, author)`: "Not authenticated", then both arguments
      required, then both non-blank; the service receives them trimmed, so a
      created book's title and author are non-empty and carry no surrounding
      whitespace. */
  method CreateBookMutation(db: Store, user: Option<Identity>, title: string, author: string)
    returns (r: Result<BookView, Error>)
    requires db.Valid()
    modifies db
    ensures db.Valid()
    ensures user.None? ==> r == Err(Thrown(NotAuthenticated)) && db.Snapshot() == old(db.Snapshot())
    ensures user.Some? && (title == "" || author == "") ==>
              r == Err(Thrown(TitleAuthorRequired)) && db.Snapshot() == old(db.Snapshot())
    ensures user.Some? && title != "" && author != "" && (IsBlank(title) || IsBlank(author)) ==>
              r == Err(Thrown(TitleAuthorEmpty)) && db.Snapshot() == old(db.Snapshot())
    ensures user.Some? && !IsBlank(title) && !IsBlank(author) ==>
              && (PairInUse(old(db.books), Trim(title), Trim(author), None) ==>
                    r == Err(Thrown(DuplicateBook)) && db.Snapshot() == old(db.Snapshot()))
              && (!PairInUse(old(db.books), Trim(title), Trim(author), None) ==>
                    && db.Snapshot() == WithNewBook(old(db.Snapshot()), Trim(title), Trim(author))
                    && r == Ok(BookView(old(db.nextBookId), Trim(title), Trim(author), [])))
    ensures r.Ok? ==> r.value.title == Trim(title) && r.value.author == Trim(author)
  {
    if user.None? {
      return Err(Thrown(NotAuthenticated));
    }
    if title == "" || author == "" {
      return Err(Thrown(TitleAuthorRequired));
    }
    if IsBlank(title) || IsBlank(author) {
      return Err(Thrown(TitleAuthorEmpty));
    }
    r := CreateBook(db, Trim(title), Trim(author));
  }

  /** A value `createBook` stores is non-empty and trimmed: trimming it
      again changes nothing. */
  lemma CreatedValueIsTrimmed(s: string)
    requires !IsBlank(s)
    ensures Trim(s) != "" && Trim(Trim(s)) == Trim(s)
  {
    TrimIdempotent(s);
  }

  // ---------------------------------------------------------------- updateBook

  /** The `updateData` that `updateBook` hands to the service: each argument
      that is truthy and not blank, trimmed. */
  function BookUpdateData(title: Option<string>, author: Option<string>): BookPatch {
    BookPatch(
      if Truthy(title) && !IsBlank(title.value) then Some(Trim(title.value)) else None,
      if Truthy(author) && !IsBlank(author.value) then Some(Trim(author.value)) else None)
  }

  /** What reaches the service: exactly the non-blank arguments, trimmed, and
      so never an empty string. The service's duplicate check therefore never
      falls back to a row's current value for a field that is then cleared. */
  lemma BookUpdateDataForwarded(title: Option<string>, author: Option<string>)
    ensures var data := BookUpdateData(title, author);
            && NoEmptyField(data)
            && (data.title.Some? <==> title.Some? && !IsBlank(title.value))
            && (data.author.Some? <==> author.Some? && !IsBlank(author.value))
            && (data.title.Some? ==> data.title.value == Trim(title.value) && Truthy(data.title))
            && (data.author.Some? ==> data.author.value == Trim(author.value) && Truthy(data.author))
  {
  }

  /** An update assembled by the resolver keeps the store fully consistent
      whenever the service accepts it. */
  lemma ResolverUpdateKeepsConsistent(t: Tables, id: int, title: Option<string>, author: Option<string>)
    requires Consistent(t)
    requires UpdatedBook(t, id, BookUpdateData(title, author)).Ok?
    ensures Consistent(t.(books := t.books[id := UpdatedBook(t, id, BookUpdateData(title, author)).value]))
  {
    BookUpdateDataForwarded(title, author);
    UpdateBookKeepsConsistent(t, id, BookUpdateData(title, author));
  }

  /** `updateBook(id, title, author)`: "Not authenticated", "Invalid book ID",
      "At least one field ... must be provided" when neither argument is
      truthy, "Title and author cannot be empty" when every truthy argument is
      blank; otherwise the service runs on the trimmed non-blank arguments. */
  method UpdateBookMutation(db: Store, user: Option<Identity>, id: string,
                            title: Option<string>, author: Option<string>)
    returns (r: Result<BookView, Error>)
    requires db.Valid()
    modifies db
    ensures db.Valid()
    ensures user.None? ==> r == Err(Thrown(NotAuthenticated)) && db.Snapshot() == old(db.Snapshot())
    ensures user.Some? && ParseInt(id).NaN? ==>
              r == Err(Thrown(InvalidBookId)) && db.Snapshot() == old(db.Snapshot())
    ensures user.Some? && ParseInt(id).Int? && !Truthy(title) && !Truthy(author) ==>
              r == Err(Thrown(NoBookField)) && db.Snapshot() == old(db.Snapshot())
    ensures (user.Some? && ParseInt(id).Int? && (Truthy(title) || Truthy(author))
             && BookUpdateData(title, author) == BookPatch(None, None)) ==>
              r == Err(Thrown(TitleAuthorEmpty)) && db.Snapshot() == old(db.Snapshot())
    ensures user.Some? && ParseInt(id).Int? && BookUpdateData(title, author) != BookPatch(None, None) ==>
              var s := UpdatedBook(old(db.Snapshot()), ParseInt(id).value, BookUpdateData(title, author));
              && (s.Err? ==> r == Err(s.error) && db.Snapshot() == old(db.Snapshot()))
              && (s.Ok? ==> db.Snapshot() == old(db.Snapshot()).(books := old(db.books)[ParseInt(id).value := s.value])
                            && r == Ok(BookViewOf(db.Snapshot(), ParseInt(id).value)))
  {
    if user.None? {
      return Err(Thrown(NotAuthenticated));
    }
    var parsed := ParseInt(id);
    if parsed.NaN? {
      return Err(Thrown(InvalidBookId));
    }
    var bookId := parsed.value;
    if !Truthy(title) && !Truthy(author) {
      return Err(Thrown(NoBookField));
    }
    var data := BookPatch(None, None);
    if Truthy(title) && !IsBlank(title.value) {
      data := data.(title := Some(Trim(title.value)));
    }
    if Truthy(author) && !IsBlank(author.value) {
      data := data.(author := Some(Trim(author.value)));
    }
    assert data == BookUpdateData(title, author);
    if data == BookPatch(None, None) {
      return Err(Thrown(TitleAuthorEmpty));
    }
    BookUpdateDataForwarded(title, author);
    r := UpdateBook(db, bookId, user.value.id, data);
  }

  // ---------------------------------------------------------------- deleteBook

  /** `deleteBook(id)`: "Not authenticated", "Invalid book ID", then the
      service's delete with its cascade. */
  method DeleteBookMutation(db: Store, user: Option<Identity>, id: string) returns (r: Result<bool, Error>)
    requires db.Valid()
    modifies db
    ensures db.Valid()
    ensures user.None? ==> r == Err(Thrown(NotAuthenticated)) && db.Snapshot() == old(db.Snapshot())
    ensures user.Some? && ParseInt(id).NaN? ==>
              r == Err(Thrown(InvalidBookId)) && db.Snapshot() == old(db.Snapshot())
    ensures user.Some? && ParseInt(id).Int? && ParseInt(id).value !in old(db.books) ==>
              r == Err(Thrown(BookNotFound)) && db.Snapshot() == old(db.Snapshot())
    ensures user.Some? && ParseInt(id).Int? && ParseInt(id).value in old(db.books) ==>
              r == Ok(true) && db.Snapshot() == WithoutBook(old(db.Snapshot()), ParseInt(id).value)
  {
    if user.None? {
      return Err(Thrown(NotAuthenticated));
    }
    var parsed := ParseInt(id);
    if parsed.NaN? {
      return Err(Thrown(InvalidBookId));
    }
    r := DeleteBook(db, parsed.value, user.value.id);
  }

  // ------------------------------------------------------------ field resolvers

  /** `Book.averageRating`: 0 without reviews, otherwise its own copy of the
      rounded mean, which agrees with the shared definition. */
  function BookAverageRating(reviews: Option<seq<ReviewWithUser>>): (a: int)
    ensures a == AverageTenths(Ratings(reviews.GetOr([])))
  {
    if reviews.None? || |reviews.value| == 0 then 0
    else
      var ratings := Ratings(reviews.value);
      ReduceIsSum(0, ratings);
      RoundTenths(Reduce(0, ratings), |reviews.value|)
  }

  /** `Book.reviewCount`: the length of the included reviews, 0 when the
      parent carries none. */
  function BookReviewCount(reviews: Option<seq<ReviewWithUser>>): (n: int)
    ensures n == |reviews.GetOr([])|
    ensures reviews.None? ==> n == 0
  {
    if reviews.Some? then |reviews.value| else 0
  }

  /** On a book as the service returns it, the field resolvers agree with the
      listing with ratings: the same count and the same average. */
  lemma FieldsAgreeWithRatedListing(v: BookView)
    ensures BookReviewCount(Some(v.reviews)) == Rated(v).reviewCount
    ensures BookAverageRating(Some(v.reviews)) == Rated(v).averageRating
  {
  }
}
