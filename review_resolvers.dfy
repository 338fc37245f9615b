/** The review entry points, which talk to the store directly: the `reviews`
    and `review` queries and the `createReview`, `updateReview` and
    `deleteReview` mutations. A review comes back with its user and book
    rows. Update and delete are restricted to the review's author and do not
    tell a missing review from someone else's. */
module ReviewResolvers {
  import opened Wrappers
  import opened Errors
  import opened JsParseInt
  import opened Database
  import opened RequestContext

  /** A review row with the `user` and `book` rows it points at. */
  datatype ReviewRecord = ReviewRecord(id: int, rating: int, text: string, userId: int, bookId: int,
                                       user: User, book: Book)

  function RecordOf(t: Tables, rid: int): (r: ReviewRecord)
    requires Linked(t) && rid in t.reviews
    ensures r.id == rid && r.rating == t.reviews[rid].rating && r.text == t.reviews[rid].text
    ensures r.userId == t.reviews[rid].userId && r.bookId == t.reviews[rid].bookId
    ensures r.user == t.users[r.userId] && r.book == t.books[r.bookId]
  {
    var rv := t.reviews[rid];
    ReviewRecord(rid, rv.rating, rv.text, rv.userId, rv.bookId, t.users[rv.userId], t.books[rv.bookId])
  }

  function RecordIds(rs: seq<ReviewRecord>): (ids: seq<int>)
    ensures |ids| == |rs| && forall i | 0 <= i < |rs| :: ids[i] == rs[i].id
  {
    seq(|rs|, i requires 0 <= i < |rs| => rs[i].id)
  }

  /** `reviews`: every review once, in id order, with its user and book. */
  function AllReviews(t: Tables): (rs: seq<ReviewRecord>)
    requires Linked(t)
    ensures |rs| == |t.reviews|
    ensures RecordIds(rs) == ReviewIds(t)
    ensures forall i | 0 <= i < |rs| :: rs[i].id in t.reviews && rs[i] == RecordOf(t, rs[i].id)
  {
    var ids := ReviewIds(t);
    TableCount(t.reviews, t.nextReviewId);
    var rs := seq(|ids|, i requires 0 <= i < |ids| => RecordOf(t, ids[i]));
    assert RecordIds(rs) == ids;
    rs
  }

  /** `review(id)`: the store refuses the `NaN` that an id without a leading
      integer parses to; otherwise the review, or nothing. */
  function ReviewQuery(t: Tables, id: string): (r: Result<Option<ReviewRecord>, Error>)
    requires Linked(t)
    ensures ParseInt(id).NaN? ==> r == Err(Store(InvalidArgument))
    ensures ParseInt(id).Int? && ParseInt(id).value !in t.reviews ==> r == Ok(None)
    ensures ParseInt(id).Int? && ParseInt(id).value in t.reviews ==> r == Ok(Some(RecordOf(t, ParseInt(id).value)))
  {
    match ParseInt(id)
    case NaN => Err(Store(InvalidArgument))
    case Int(rid) => if rid in t.reviews then Ok(Some(RecordOf(t, rid))) else Ok(None)
  }

  // -------------------------------------------------------------- createReview

  /** The tables after `prisma.review.create`: the new row takes the next id. */
  function WithNewReview(t: Tables, rating: int, text: string, uid: int, bid: int): Tables {
    t.(reviews := t.reviews[t.nextReviewId := Review(rating, text, uid, bid)],
       nextReviewId := t.nextReviewId + 1)
  }

  /** A review by an existing user of an existing book keeps the store
      consistent, takes a fresh id and leaves every other row alone. */
  lemma CreateReviewKeepsConsistent(t: Tables, rating: int, text: string, uid: int, bid: int)
    requires Consistent(t) && uid in t.users && bid in t.books
    ensures var t' := WithNewReview(t, rating, text, uid, bid);
            && Consistent(t')
            && t.nextReviewId !in t.reviews
            && t'.reviews.Keys == t.reviews.Keys + {t.nextReviewId}
            && (forall k | k in t.reviews :: t'.reviews[k] == t.reviews[k])
            && t'.users == t.users && t'.books == t.books
  {
    assert t.nextReviewId !in t.reviews;
  }

  /** The new review is what `review` finds under its id. */
  lemma CreatedReviewIsFound(t: Tables, rating: int, text: string, uid: int, bid: int)
    requires Consistent(t) && uid in t.users && bid in t.books
    ensures ReviewQuery(WithNewReview(t, rating, text, uid, bid), Decimal(t.nextReviewId)) ==
              Ok(Some(ReviewRecord(t.nextReviewId, rating, text, uid, bid, t.users[uid], t.books[bid])))
  {
    CreateReviewKeepsConsistent(t, rating, text, uid, bid);
    assert Decimal(t.nextReviewId) + "" == Decimal(t.nextReviewId);
    DecimalRoundTrip(t.nextReviewId, "");
  }

  /** `createReview(bookId, rating, text)`: "Not authenticated" without an
      identity; then the store refuses an unparsable book id, and a book or
      user that does not exist (the caller's account may have been deleted
      since the token was issued). The rating is stored as given, with no
      range check; a missing text is stored as "". */
  method CreateReview(db: Store, user: Option<Identity>, bookId: string, rating: int, text: Option<string>)
    returns (r: Result<ReviewRecord, Error>)
    requires db.Valid()
    modifies db
    ensures db.Valid()
    ensures user.None? ==> r == Err(Thrown(NotAuthenticated)) && db.Snapshot() == old(db.Snapshot())
    ensures user.Some? && ParseInt(bookId).NaN? ==>
              r == Err(Store(InvalidArgument)) && db.Snapshot() == old(db.Snapshot())
    ensures user.Some? && ParseInt(bookId).Int?
            && (ParseInt(bookId).value !in old(db.books) || user.value.id !in old(db.users)) ==>
              r == Err(Store(ForeignKeyViolation)) && db.Snapshot() == old(db.Snapshot())
    ensures user.Some? && ParseInt(bookId).Int?
            && ParseInt(bookId).value in old(db.books) && user.value.id in old(db.users) ==>
              && db.Snapshot() == WithNewReview(old(db.Snapshot()), rating, text.GetOr(""), user.value.id, ParseInt(bookId).value)
              && r == Ok(RecordOf(db.Snapshot(), old(db.nextReviewId)))
    ensures r.Err? ==> db.Snapshot() == old(db.Snapshot())
    ensures r.Ok? ==>
              && user.Some? && ParseInt(bookId).Int?
              && db.Snapshot() == WithNewReview(old(db.Snapshot()), rating, text.GetOr(""), user.value.id, ParseInt(bookId).value)
              && r.value == RecordOf(db.Snapshot(), old(db.nextReviewId))
              && r.value.rating == rating && r.value.text == text.GetOr("") && r.value.userId == user.value.id
  {
    if user.None? {
      return Err(Thrown(NotAuthenticated));
    }
    var parsed := ParseInt(bookId);
    if parsed.NaN? {
      return Err(Store(InvalidArgument));
    }
    var bid := parsed.value;
    var uid := user.value.id;
    if bid !in db.books || uid !in db.users {
      return Err(Store(ForeignKeyViolation));
    }
    ghost var t' := WithNewReview(db.Snapshot(), rating, text.GetOr(""), uid, bid);
    CreateReviewKeepsConsistent(db.Snapshot(), rating, text.GetOr(""), uid, bid);
    var id := db.nextReviewId;
    db.reviews := db.reviews[id := Review(rating, text.GetOr(""), uid, bid)];
    db.nextReviewId := id + 1;
    assert db.Snapshot() == t';
    r := Ok(RecordOf(db.Snapshot(), id));
  }

  // ------------------------------------------------------------ the owner guard

  /** The lookup `updateReview` and `deleteReview` share: the store refuses
      an unparsable id; a review that is missing and a review written by
      someone else both give "Review not found or not authorized". */
  function OwnedReview(t: Tables, uid: int, id: string): (r: Result<int, Error>)
    ensures ParseInt(id).NaN? <==> r == Err(Store(InvalidArgument))
    ensures r.Ok? <==> ParseInt(id).Int? && ParseInt(id).value in t.reviews && t.reviews[ParseInt(id).value].userId == uid
    ensures r.Ok? ==> r.value == ParseInt(id).value
    ensures ParseInt(id).Int? && r.Err? ==> r.error == Thrown(ReviewNotFoundOrNotAuthorized)
  {
    match ParseInt(id)
    case NaN => Err(Store(InvalidArgument))
    case Int(rid) =>
      if rid !in t.reviews || t.reviews[rid].userId != uid then Err(Thrown(ReviewNotFoundOrNotAuthorized))
      else Ok(rid)
  }

  /** Asking for a review that does not exist and for a review somebody else
      wrote gives the same answer, so the guard does not reveal which reviews
      exist. */
  lemma MissingAndForeignAlike(t: Tables, uid: int, missing: nat, foreign: nat)
    requires missing !in t.reviews
    requires foreign in t.reviews && t.reviews[foreign].userId != uid
    ensures OwnedReview(t, uid, Decimal(missing)) == OwnedReview(t, uid, Decimal(foreign))
    ensures OwnedReview(t, uid, Decimal(missing)) == Err(Thrown(ReviewNotFoundOrNotAuthorized))
  {
    assert Decimal(missing) + "" == Decimal(missing);
    assert Decimal(foreign) + "" == Decimal(foreign);
    DecimalRoundTrip(missing, "");
    DecimalRoundTrip(foreign, "");
  }

  // -------------------------------------------------------------- updateReview

  /** The row after the update: a supplied rating or text replaces the old
      one (an empty text included); the owner and the book never change. */
  function Revised(rv: Review, rating: Option<int>, text: Option<string>): Review {
    Review(rating.GetOr(rv.rating), text.GetOr(rv.text), rv.userId, rv.bookId)
  }

  /** Only the supplied fields change, and an update with neither leaves the
      row as it was. */
  lemma RevisedChangesOnlySupplied(rv: Review, rating: Option<int>, text: Option<string>)
    ensures var rv' := Revised(rv, rating, text);
            && rv'.userId == rv.userId && rv'.bookId == rv.bookId
            && (rating.None? ==> rv'.rating == rv.rating) && (rating.Some? ==> rv'.rating == rating.value)
            && (text.None? ==> rv'.text == rv.text) && (text.Some? ==> rv'.text == text.value)
            && (rating.None? && text.None? ==> rv' == rv)
  {
  }

  /** Rewriting the rating or text of a review keeps the store consistent
      and leaves every other row alone. */
  lemma UpdateReviewKeepsConsistent(t: Tables, rid: int, rating: Option<int>, text: Option<string>)
    requires Consistent(t) && rid in t.reviews
    ensures var t' := t.(reviews := t.reviews[rid := Revised(t.reviews[rid], rating, text)]);
            && Consistent(t')
            && t'.reviews.Keys == t.reviews.Keys
            && (forall k | k in t.reviews && k != rid :: t'.reviews[k] == t.reviews[k])
  {
  }

  /** `updateReview(id, rating, text)`: "Not authenticated", then the owner
      guard, then the partial update, answered with the updated row. */
  method UpdateReview(db: Store, user: Option<Identity>, id: string, rating: Option<int>, text: Option<string>)
    returns (r: Result<ReviewRecord, Error>)
    requires db.Valid()
    modifies db
    ensures db.Valid()
    ensures user.None? ==> r == Err(Thrown(NotAuthenticated)) && db.Snapshot() == old(db.Snapshot())
    ensures user.Some? && OwnedReview(old(db.Snapshot()), user.value.id, id).Err? ==>
              r == Err(OwnedReview(old(db.Snapshot()), user.value.id, id).error) && db.Snapshot() == old(db.Snapshot())
    ensures user.Some? && OwnedReview(old(db.Snapshot()), user.value.id, id).Ok? ==>
              var rid := ParseInt(id).value;
              && db.Snapshot() == old(db.Snapshot()).(reviews := old(db.reviews)[rid := Revised(old(db.reviews)[rid], rating, text)])
              && r == Ok(RecordOf(db.Snapshot(), rid))
  {
    if user.None? {
      return Err(Thrown(NotAuthenticated));
    }
    var found := OwnedReview(db.Snapshot(), user.value.id, id);
    if found.Err? {
      return Err(found.error);
    }
    var rid := found.value;
    UpdateReviewKeepsConsistent(db.Snapshot(), rid, rating, text);
    var review := db.reviews[rid];
    if rating.Some? {
      review := review.(rating := rating.value);
    }
    if text.Some? {
      review := review.(text := text.value);
    }
    assert review == Revised(db.reviews[rid], rating, text);
    db.reviews := db.reviews[rid := review];
    r := Ok(RecordOf(db.Snapshot(), rid));
  }

  // -------------------------------------------------------------- deleteReview

  function WithoutReview(t: Tables, rid: int): Tables {
    t.(reviews := t.reviews - {rid})
  }

  /** Deleting a review removes exactly that row: the store stays
      consistent, every other review, user and book is kept, and `review`
      finds nothing under the id afterwards. */
  lemma DeleteReviewRemovesOne(t: Tables, rid: nat)
    requires Consistent(t)
    ensures var t' := WithoutReview(t, rid);
            && Consistent(t')
            && t'.reviews.Keys == t.reviews.Keys - {rid}
            && (forall k | k in t'.reviews :: t'.reviews[k] == t.reviews[k])
            && t'.users == t.users && t'.books == t.books
            && ReviewQuery(t', Decimal(rid)) == Ok(None)
  {
    assert Decimal(rid) + "" == Decimal(rid);
    DecimalRoundTrip(rid, "");
  }

  /** `deleteReview(id)`: "Not authenticated", then the owner guard, then the
      delete; the answer is `true`. */
  method DeleteReview(db: Store, user: Option<Identity>, id: string) returns (r: Result<bool, Error>)
    requires db.Valid()
    modifies db
    ensures db.Valid()
    ensures user.None? ==> r == Err(Thrown(NotAuthenticated)) && db.Snapshot() == old(db.Snapshot())
    ensures user.Some? && OwnedReview(old(db.Snapshot()), user.value.id, id).Err? ==>
              r == Err(OwnedReview(old(db.Snapshot()), user.value.id, id).error) && db.Snapshot() == old(db.Snapshot())
    ensures user.Some? && OwnedReview(old(db.Snapshot()), user.value.id, id).Ok? ==>
              r == Ok(true) && db.Snapshot() == WithoutReview(old(db.Snapshot()), ParseInt(id).value)
  {
    if user.None? {
      return Err(Thrown(NotAuthenticated));
    }
    var found := OwnedReview(db.Snapshot(), user.value.id, id);
    if found.Err? {
      return Err(found.error);
    }
    db.reviews := db.reviews - {found.value};
    return Ok(true);
  }
}
