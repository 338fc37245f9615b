# Book-review backend: a Dafny model of its business rules

This project models the GraphQL backend of a book-review application. Users
register and sign in with bearer tokens. They list, search, create, update and
delete books. They write, edit and delete reviews. The backend also derives
statistics from the reviews: review counts, average ratings in tenths, a
"favourite genre" (in fact the most-reviewed author) and a top-reviewers
ranking.

The database is modelled as three tables, each a map from a generated id to a
row (`Database.Tables`), plus one auto-increment counter per table.
`Database.Store` is the mutable database that the mutations write through
`modifies` clauses. `Database.Consistent` is the invariant every mutation keeps:
- ids lie below their counters;
- e-mails are unique, names are unique, and (title, author) pairs are unique;
- every review points at an existing user and an existing book.

Each mutation is a method on the store. Its `ensures` ties the new state to a
specification function of the old state (`WithNewBook`, `UpdatedUser`,
`WithoutUser`, `Revised`, ...). Lemmas prove what the backend promises about
those functions: the invariants are kept, deletes cascade, only the supplied
fields change, and the error checks run in a fixed order. Reads are functions
of the tables. A query without an `orderBy` lists rows in ascending id order.

The modules follow the backend's files:

| module | file |
|---|---|
| `AuthService`, `AuthResolvers` | `backend/src/modules/auth/auth.service.ts`, `auth.resolvers.ts` |
| `UserService`, `UserResolvers` | `backend/src/modules/user/user.service.ts`, `user.resolvers.ts` |
| `BookService`, `BookResolvers` | `backend/src/modules/book/book.service.ts`, `book.resolvers.ts` |
| `ReviewResolvers` | the review operations in `backend/src/resolvers.ts` |
| `RequestContext` | `backend/src/context.ts` |
| `Aggregates`, `Ranking`, `Favorites` | the averages, the ranking pipeline and the favourite-author loop of `user.service.ts` |

Supporting modules:
- `Database`: tables, invariant, ordered listing.
- `Credentials`: bcrypt as an ideal hash.
- `Jwt`: tokens as signed claims.
- `JsParseInt`: `parseInt`.
- `Text`: `trim`, truthiness, `replace`, `contains`.
- `Validation`: the e-mail regular expression and the password length.
- `Errors`: the literal error messages.
- `Wrappers`: `Option` and `Result`.

The average rating is an integer number of tenths, computed as
`(20 * total + n) / (2 * n)`, that is `Math.round(10 * total / n)`. That
expression rounds halves upwards. For negative ratings this differs from
"half away from zero"; the code's `Math.round` is what is modelled.

`topUsers` passes `limit || 10` to `slice(0, limit)`. A negative limit
therefore drops that many users from the end of the ranking; `Ranking.SliceEnd`
models this.

The book service writes whatever fields it is given. An update whose title is
the empty string and which carries no author skips the duplicate check
altogether, because `data.title || data.author` is falsy, and then clears the
title. (With a truthy author beside it, the check runs but looks the empty
title up as the book's current title, `data.title || book.title`.) This can
leave two books with the same pair;
`BookService.EmptyTitleBypassesDuplicateCheck` exhibits the first case.
The `updateBook` resolver never forwards an empty field
(`BookResolvers.BookUpdateDataForwarded`), so through the API the store stays
consistent (`BookResolvers.UpdateBookMutation`). For this reason
`BookService.UpdateBook` on its own promises only `Database.Linked`: no
dangling review and ids below the counter.

## Model

| member | source | states |
|---|---|---|
| Text.TrimStart | backend/src/modules/user/user.resolvers.ts:31 | the result is a suffix of the input, does not start with whitespace, and everything cut off is whitespace |
| Text.TrimEnd | backend/src/modules/user/user.resolvers.ts:31 | the result is a prefix of the input, does not end with whitespace, and everything cut off is whitespace |
| Text.TrimHasNoOuterSpace | backend/src/modules/user/user.resolvers.ts:35 | the result of `trim()` neither starts nor ends with whitespace |
| Text.BlankIffAllSpace | backend/src/modules/user/user.resolvers.ts:31 | `s.trim().length === 0` holds exactly when every character is whitespace |
| Text.TrimOfNoSpace | backend/src/modules/user/user.resolvers.ts:146 | a string without whitespace is its own trim |
| Text.TrimIdempotent | backend/src/modules/book/book.resolvers.ts:62-65 | trimming twice is trimming once |
| Text.IndexFrom | backend/src/context.ts:21 | finds the first occurrence of the pattern at or after `from`, or reports that there is none |
| Text.ReplaceFirstSplits | backend/src/context.ts:21 | `replace` with a string pattern changes nothing when the pattern is absent, and otherwise replaces only its first occurrence |
| Text.ReplaceFirstAtStart | backend/src/context.ts:21 | replacing a leading pattern by "" leaves the rest |
| Text.ContainsIffOccurs | backend/src/modules/user/user.service.ts:257-268 | `contains` holds exactly when the query occurs at some position |
| JsParseInt.DigitPrefix | backend/src/modules/user/user.resolvers.ts:13 | `parseInt` reads the longest prefix of digits of the radix |
| JsParseInt.Decimal | backend/src/modules/user/user.resolvers.ts:13 | the decimal spelling of a natural number is a non-empty digit string |
| JsParseInt.DecimalRoundTrip | backend/src/modules/user/user.resolvers.ts:13-16 | `parseInt` of a decimal spelling, followed by text that does not continue the number, gives the number back |
| JsParseInt.NegativeDecimalRoundTrip | backend/src/modules/user/user.resolvers.ts:13-16 | with a leading minus sign, the negated number comes back |
| JsParseInt.NoDigitIsNaN | backend/src/modules/user/user.resolvers.ts:13-16 | a string without any digit parses to `NaN`, so the id guard rejects it |
| Validation.EmailPatternShape | backend/src/modules/auth/auth.resolvers.ts:36-39 | the e-mail regular expression accepts exactly: no whitespace, one '@', a non-empty local part, and a '.' inside the domain with characters on both sides |
| Validation.EmailPatternIsTrimmed | backend/src/modules/user/user.resolvers.ts:137-146 | an address the regular expression accepts is its own trim |
| Credentials.Hash | backend/src/modules/auth/auth.service.ts:50-52 | passwords are hashed with 10 salt rounds |
| Credentials.VerifyOwnHash | backend/src/modules/auth/auth.service.ts:91-96 | a password verifies against its own hash and no other password does |
| Jwt.GenerateToken | backend/src/lib/jwt.ts:5-6 | the token carries the claims given and a seven-day expiry |
| RequestContext.ContextUser | backend/src/context.ts:17-48 | an identity exists exactly when the header is present, the token left after removing "Bearer " is non-empty, and verification yields an object payload; the identity is that payload's id, e-mail and name |
| RequestContext.NoHeaderIsAnonymous | backend/src/context.ts:21-23 | without an Authorization header the request is anonymous, not an error |
| RequestContext.BearerHeader | backend/src/context.ts:21-23 | `Bearer <t>` carries the token `t`, and the header "Bearer " alone gives no identity |
| RequestContext.OnlyFirstBearerRemoved | backend/src/context.ts:21 | only the first "Bearer " is removed, wherever in the header it stands |
| RequestContext.VerificationFailureIsAnonymous | backend/src/context.ts:24-41 | a rejected token and a non-object payload both leave the request anonymous |
| Database.AscendingKeys | backend/src/modules/user/user.service.ts:40-57 | lists exactly the ids of a table below the counter, strictly ascending |
| Database.AscendingKeysCount | backend/src/modules/user/user.service.ts:40-57 | the listing has one entry per id below the counter |
| Database.TableCount | backend/src/modules/user/user.service.ts:40-57 | when every id is below the counter, the listing has one entry per row |
| Database.FindKey | backend/src/modules/book/book.service.ts:71-75 | `findFirst` returns a row that matches, or reports that no listed row does |
| Database.FindUserByEmail | backend/src/modules/auth/auth.service.ts:83-85 | `findUnique` by e-mail finds the user holding the address, and fails exactly when no user holds it |
| Database.FindUserByName | backend/src/modules/user/user.service.ts:126-128 | `findFirst` by name finds a user with that name, and fails exactly when nobody has it |
| Database.ReviewIdsWhere | backend/src/modules/user/user.service.ts:290-291 | lists exactly the reviews satisfying the filter, strictly ascending |
| Database.NoReviewWhere | backend/src/modules/book/book.service.ts:81-99 | when no review satisfies the filter, the listing is empty |
| Database.FilterIds | backend/src/modules/user/user.service.ts:255-269 | filtering an ascending id list keeps exactly the ids that match, in ascending order |
| Database.EmptyTables | backend/src/modules/auth/auth.service.ts:55-61 | the empty database satisfies the invariant |
| Database.Store.constructor | backend/src/modules/auth/auth.service.ts:55-61 | a new store is empty and consistent |
| Aggregates.ReduceIsSum | backend/src/modules/user/user.service.ts:226 | `reduce((sum, r) => sum + r.rating, acc)` is `acc` plus the sum of the ratings |
| Aggregates.RoundTenths | backend/src/modules/user/user.service.ts:249 | the result is `Math.round(10 * total / n)`: the unique `t` with `t - 1/2 <= 10 * total / n < t + 1/2` |
| Aggregates.AverageTenths | backend/src/modules/user/user.service.ts:223-249 | 0 without ratings; otherwise the mean in tenths, rounded half up |
| Aggregates.SumBounds | backend/src/modules/user/user.service.ts:226 | the sum of ratings within `[lo, hi]` lies within `[n * lo, n * hi]` |
| Aggregates.AverageWithinRatings | backend/src/modules/user/user.service.ts:223-249 | a non-empty average lies between the lowest and the highest rating |
| Aggregates.AverageExamples | backend/src/modules/book/book.service.ts:214-219 | no reviews average 0; ratings 4 and 5 average 4.5; ratings 3, 3, 4 average 3.3 |
| Ranking.Summary | backend/src/modules/user/user.service.ts:323-334 | the entry keeps the user's id, name and e-mail, and adds its review count and average in tenths |
| Ranking.Summaries | backend/src/modules/user/user.service.ts:322-334 | one summary per user, in the same order |
| Ranking.Insert | backend/src/modules/user/user.service.ts:335 | inserting adds exactly the one entry |
| Ranking.SortByCount | backend/src/modules/user/user.service.ts:335 | the sort is a permutation of its input |
| Ranking.InsertKeepsOrder | backend/src/modules/user/user.service.ts:335 | inserting into a list ordered by decreasing count keeps it ordered |
| Ranking.InsertWithCount | backend/src/modules/user/user.service.ts:335 | among the entries with one count, insertion places the new entry ahead of those already there |
| Ranking.SortByCountIsStable | backend/src/modules/user/user.service.ts:335 | the sort orders counts non-increasingly and keeps entries with equal counts in their original order |
| Ranking.WithCountOfPrefix | backend/src/modules/user/user.service.ts:336 | a prefix holds an initial part of the entries of each count |
| Ranking.SliceEnd | backend/src/modules/user/user.service.ts:336 | `slice(0, limit)` ends at `min(limit, n)` for a non-negative limit and at `max(n + limit, 0)` for a negative one |
| Ranking.MostReviews | backend/src/modules/user/user.service.ts:322-336 | exactly `slice(0, limit)` of the users' count: `min(limit, n)` entries for a non-negative limit, `n + limit` (at least 0) for a negative one; counts non-increasing; the entries are drawn from the summaries, each at most as often as it occurs; every summary left out counts no more than any entry kept; entries with equal counts are an initial part of the store order |
| Favorites.FirstAppearances | backend/src/modules/user/user.service.ts:238 | the keys of the count table are exactly the reviewed authors |
| Favorites.OccurrencesOfAbsent | backend/src/modules/user/user.service.ts:232-235 | an author absent from the reviews has count 0 |
| Favorites.OccurrencesSnoc | backend/src/modules/user/user.service.ts:232-235 | one more review adds one to its author's count, and adds the author as a key if it is new |
| Favorites.CountAuthors | backend/src/modules/user/user.service.ts:231-235 | the `forEach` loop leaves one key per author, in order of first appearance, and each count equals that author's number of reviews |
| Favorites.PickFavorite | backend/src/modules/user/user.service.ts:237-242 | the `reduce` keeps a key with the highest count that no earlier key exceeds and every later key falls short of: on a tie the later key wins |
| Favorites.PickStep | backend/src/modules/user/user.service.ts:238-241 | one step of the `reduce`: the leader of all keys but the last, compared with the last key by `>`, leads all keys |
| Favorites.FavoriteAuthor | backend/src/modules/user/user.service.ts:230-242 | `IsFavorite`: absent exactly when there are no reviews; otherwise a reviewed author whom no author outnumbers, and every author first reviewed later has strictly fewer reviews, so a tie goes to the later key |
| Favorites.FavoriteExamples | backend/src/modules/user/user.service.ts:237-242 | authors A, A, B give A; authors A, B, B, A tie and give B, the later key |
| AuthService.RegisterKeepsConsistent | backend/src/modules/auth/auth.service.ts:50-61 | adding a user with an unused e-mail and name keeps the invariant; the row takes a fresh id and stores the hash, never the password |
| AuthService.Register | backend/src/modules/auth/auth.service.ts:29-79 | on a conflict nothing is written; the e-mail message wins when the found user has that e-mail, the name message appears only on a name match; otherwise one user is inserted and the token and projection belong to it; the store stays consistent |
| AuthService.Login | backend/src/modules/auth/auth.service.ts:81-114 | succeeds exactly when some user holds the e-mail and the password verifies; every failure reads "Invalid email or password"; the claims are `{ id, email, name }` and the user projection includes the role |
| AuthService.LoginAfterRegister | backend/src/modules/auth/auth.service.ts:55-114 | after a registration, logging in with the same e-mail and password succeeds as the new user, and any other password fails |
| AuthService.GetUserById | backend/src/modules/auth/auth.service.ts:116-126 | the `{ id, email, name, role }` projection of the row, absent exactly for an unknown id |
| AuthService.ValidateUser | backend/src/modules/auth/auth.service.ts:128-134 | "User not found" exactly when `getUserById` finds nothing; otherwise its projection |
| AuthResolvers.RegisterInputError | backend/src/modules/auth/auth.resolvers.ts:26-39 | checks run in order: all fields present, then a password of at least six characters, then the e-mail shape |
| AuthResolvers.RegisterMutation | backend/src/modules/auth/auth.resolvers.ts:18-42 | rejected arguments leave the store untouched; accepted ones get exactly the service's outcome |
| AuthResolvers.RegisteredUserIsWellFormed | backend/src/modules/auth/auth.resolvers.ts:26-41 | every user created through `register` has a well-formed e-mail, a non-empty name and a password of at least six characters |
| AuthResolvers.LoginMutation | backend/src/modules/auth/auth.resolvers.ts:44-54 | an empty e-mail or password is rejected before the lookup; then the service's outcome |
| AuthResolvers.Me | backend/src/modules/auth/auth.resolvers.ts:8-14 | "Not authenticated" without an identity; otherwise `validateUser` of the identity's id |
| UserService.ReviewWithBookOf | backend/src/modules/user/user.service.ts:67-77 | a review shown with its id, rating and text, the id of its book and that book's author |
| UserService.ReviewsWithBook | backend/src/modules/user/user.service.ts:67-77 | one shown review per id, in the order given |
| UserService.ReviewIdsOf | backend/src/modules/user/user.service.ts:67-77 | exactly the user's reviews, ascending |
| UserService.UserReviews | backend/src/modules/user/user.service.ts:67-77 | the user's reviews with their books, in id order |
| UserService.UserViewOf | backend/src/modules/user/user.service.ts:60-80 | id, name and e-mail of the user, never the password, with the user's reviews |
| UserService.UserViews | backend/src/modules/user/user.service.ts:39-58 | one view per id, in the order given |
| UserService.GetAllUsers | backend/src/modules/user/user.service.ts:39-58 | every user once, in id order, each with its reviews |
| UserService.GetUserById | backend/src/modules/user/user.service.ts:60-80 | the user's view, absent exactly for an unknown id |
| UserService.GetUserByEmail | backend/src/modules/user/user.service.ts:82-102 | the view of the user holding the address, absent exactly when nobody does |
| UserService.SearchUsers | backend/src/modules/user/user.service.ts:254-287 | exactly the users whose name or e-mail contains the query, in id order |
| UserService.Reverse | backend/src/modules/user/user.service.ts:301-303 | the same entries in the opposite order |
| UserService.GetUserReviews | backend/src/modules/user/user.service.ts:289-305 | exactly the user's reviews, ids strictly descending, each showing its book; none for an unknown user |
| UserService.UpdateUserKeepsConsistent | backend/src/modules/user/user.service.ts:113-162 | an accepted update keeps e-mails and names unique |
| UserService.UpdateUserPasswordGate | backend/src/modules/user/user.service.ts:141-158 | the password changes only with a new password and a verifying current one, and is stored hashed; the role never changes |
| UserService.UpdateUserOwnValues | backend/src/modules/user/user.service.ts:113-133 | submitting the user's own e-mail and name skips both uniqueness checks and changes nothing |
| UserService.PrepareUserUpdate | backend/src/modules/user/user.service.ts:105-158 | the row the update writes, or the first failing check: user missing, a changed e-mail taken, a changed name taken, a new password without the current one, a wrong current password |
| UserService.UpdateUser | backend/src/modules/user/user.service.ts:104-180 | the first failing check wins (user missing, e-mail taken, name taken, current password missing, current password wrong) and writes nothing; otherwise only that user's row changes, to the supplied fields; the store stays consistent |
| UserService.DeleteUserCascade | backend/src/modules/user/user.service.ts:194-202 | after the delete no review points at the user, the invariant holds, and every other user, every book and every other user's review is unchanged |
| UserService.DeleteUser | backend/src/modules/user/user.service.ts:182-205 | "User not found" for an unknown id; otherwise the user and its reviews are deleted and the answer is true |
| UserService.Ratings | backend/src/modules/user/user.service.ts:226 | the ratings of the reviews, in order |
| UserService.Authors | backend/src/modules/user/user.service.ts:233 | the authors of the reviewed books, in order |
| UserService.StatsAverage | backend/src/modules/user/user.service.ts:223-249 | the statistics' own average formula equals the shared tenths average |
| UserService.GetUserStats | backend/src/modules/user/user.service.ts:207-252 | null exactly for an unknown user; otherwise `IsStatsOf`: the user's id, name and e-mail, its review count, the average in tenths, and the favourite author as `Favorites.IsFavorite` describes it (absent exactly when there are no reviews, no author outnumbers it, a tie goes to the later key) |
| UserService.RatingsOf | backend/src/modules/user/user.service.ts:313-318 | the ratings of the user's reviews, in id order |
| UserService.RatingRows | backend/src/modules/user/user.service.ts:308-320 | one row per user, with its name, e-mail and ratings |
| UserService.GetUsersWithMostReviews | backend/src/modules/user/user.service.ts:307-337 | `slice(0, limit)` of the ranking: `min(limit, users)` entries for a non-negative limit; counts non-increasing; each entry has its user's name, e-mail, count and average; every user without an entry has no more reviews than any user kept; equal counts keep store order |
| UserResolvers.ParseId | backend/src/modules/user/user.resolvers.ts:13-16 | an error exactly when `parseInt` gives `NaN`; otherwise the parsed number |
| UserResolvers.UserQuery | backend/src/modules/user/user.resolvers.ts:12-24 | "Invalid user ID" before any lookup, "User not found" for an unknown id, otherwise the user's view |
| UserResolvers.UserQueryByDecimalId | backend/src/modules/user/user.resolvers.ts:13-21 | the decimal spelling of an existing id finds that user |
| UserResolvers.UserByEmailQuery | backend/src/modules/user/user.resolvers.ts:26-41 | a blank address is refused; otherwise the trimmed address is looked up: "User not found" exactly when nobody holds it, and success with that user's full view when someone does |
| UserResolvers.SearchUsersQuery | backend/src/modules/user/user.resolvers.ts:43-53 | refused exactly for a blank query; otherwise exactly the users whose name or e-mail contains the trimmed query, in id order, each with its full view |
| UserResolvers.UserStatsQuery | backend/src/modules/user/user.resolvers.ts:55-67 | "Invalid user ID" before any lookup, "User not found" for an unknown id; for an existing id, success with exactly the statistics `UserService.IsStatsOf` describes (name, e-mail, count, average, favourite author) |
| UserResolvers.MyStats | backend/src/modules/user/user.resolvers.ts:69-80 | "Not authenticated" first, then "User not found"; for an existing caller, success with exactly the caller's statistics as `UserService.IsStatsOf` describes them |
| UserResolvers.EffectiveLimit | backend/src/modules/user/user.resolvers.ts:87 | a missing or zero limit becomes 10; any other is kept |
| UserResolvers.TopUsers | backend/src/modules/user/user.resolvers.ts:82-88 | `slice(0, limit)` of the ranking with a missing or zero limit read as 10: ten users (or all) without a limit or with 0; counts non-increasing; each entry carries its user's name, e-mail, count and average; every user left out has no more reviews than any user kept; entries with equal counts are an initial part of the store order |
| UserResolvers.MyReviews | backend/src/modules/user/user.resolvers.ts:90-96 | "Not authenticated" exactly without an identity; otherwise exactly the caller's reviews, newest first, each showing its rating, text and book |
| UserResolvers.ProfileInputError | backend/src/modules/user/user.resolvers.ts:119-142 | checks in order: some field given, e-mail not blank, name not blank, new password long enough, e-mail well formed; the first failing check gives its error and none when all pass |
| UserResolvers.ProfileDataForwarded | backend/src/modules/user/user.resolvers.ts:144-150 | the service receives the trimmed, non-empty name, the e-mail as given (already trimmed), and the current password only with a new one |
| UserResolvers.UpdateProfile | backend/src/modules/user/user.resolvers.ts:100-153 | "Not authenticated" first, then the argument checks, each leaving the store untouched; then exactly the service's update with the forwarded data, answered on success with the updated user's view |
| UserResolvers.DeleteAccount | backend/src/modules/user/user.resolvers.ts:155-184 | "Not authenticated", then "Password is required", then "User not found", then "Invalid password", each leaving the store untouched; a verified password deletes the user and its reviews and returns true, and nothing else deletes anything |
| UserResolvers.UserReviewCount | backend/src/modules/user/user.resolvers.ts:193-195 | the number of included reviews, 0 without any |
| UserResolvers.UserAverageRating | backend/src/modules/user/user.resolvers.ts:197-207 | the field's own formula equals the shared tenths average, 0 without reviews |
| BookService.ReviewWithUserOf | backend/src/modules/book/book.service.ts:32-48 | a review shown with its id, rating and text and the id of the user who wrote it |
| BookService.ReviewIdsOfBook | backend/src/modules/book/book.service.ts:32-48 | exactly the book's reviews, ascending |
| BookService.BookReviews | backend/src/modules/book/book.service.ts:32-48 | the book's reviews with their authors, in id order |
| BookService.BookViewOf | backend/src/modules/book/book.service.ts:50-67 | the book's id, title and author with its reviews |
| BookService.BookViews | backend/src/modules/book/book.service.ts:32-48 | one view per id, in the order given |
| BookService.GetAllBooks | backend/src/modules/book/book.service.ts:32-48 | every book once, in id order |
| BookService.GetBookById | backend/src/modules/book/book.service.ts:50-67 | the book's view, absent exactly for an unknown id |
| BookService.SearchBooks | backend/src/modules/book/book.service.ts:174-204 | exactly the books whose title or author contains the query, in id order |
| BookService.Ratings | backend/src/modules/book/book.service.ts:210-213 | the ratings of the reviews, in order |
| BookService.Rated | backend/src/modules/book/book.service.ts:209-221 | the entry keeps the book, counts its reviews, and its own average formula equals the shared tenths average |
| BookService.GetBooksWithAverageRating | backend/src/modules/book/book.service.ts:206-223 | one entry per book in the order of `getAllBooks`, with the book's review count and average |
| BookService.CreateBookKeepsConsistent | backend/src/modules/book/book.service.ts:69-100 | adding an unused pair keeps the invariant, takes a fresh id and adds exactly one book, which has no reviews |
| BookService.CreateBook | backend/src/modules/book/book.service.ts:69-100 | "A book with this title and author already exists" when the pair is taken, writing nothing; otherwise exactly one new book with no reviews |
| BookService.UpdateBookKeepsConsistent | backend/src/modules/book/book.service.ts:112-131 | with no empty field, an accepted update keeps pairs unique |
| BookService.UpdateBookOwnValues | backend/src/modules/book/book.service.ts:112-127 | resubmitting a book's own title and author succeeds and changes nothing: the check excludes the book itself |
| BookService.EmptyTitleBypassesDuplicateCheck | backend/src/modules/book/book.service.ts:113-131 | an empty title with no author skips the duplicate check (neither field is truthy, so the guard fails) and is written, so two books can share a pair |
| BookService.FindOtherBook | backend/src/modules/book/book.service.ts:114-122 | finds a book other than the one updated with the pair, exactly when one exists |
| BookService.RewriteBookKeepsLinked | backend/src/modules/book/book.service.ts:129-131 | rewriting a book row leaves every review linked |
| BookService.UpdateBook | backend/src/modules/book/book.service.ts:102-146 | "Book not found", then the duplicate check on the truthy fields completed with the current values; otherwise only that book changes, to the supplied fields; reviews stay linked, and with no empty field the store stays consistent |
| BookService.DeleteBookCascade | backend/src/modules/book/book.service.ts:161-169 | after the delete no review points at the book, the invariant holds, and all other rows are unchanged |
| BookService.DeleteBook | backend/src/modules/book/book.service.ts:148-172 | "Book not found" for an unknown id; otherwise the book and its reviews are deleted and the answer is true; the caller's id plays no part |
| BookResolvers.BookQuery | backend/src/modules/book/book.resolvers.ts:12-24 | "Invalid book ID" before any lookup, "Book not found" for an unknown id, otherwise the book's view |
| BookResolvers.BookQueryByDecimalId | backend/src/modules/book/book.resolvers.ts:13-21 | the decimal spelling of an existing id, followed by any non-digit text, finds that book |
| BookResolvers.SearchBooksQuery | backend/src/modules/book/book.resolvers.ts:26-36 | refused exactly for a blank query; otherwise exactly the books whose title or author contains the trimmed query, in id order, each with its full view |
| BookResolvers.CreateBookMutation | backend/src/modules/book/book.resolvers.ts:44-66 | "Not authenticated", then "Title and author are required", then "cannot be empty", each writing nothing; then the service's create with the trimmed values, answered with the new book (next id, trimmed title and author, no reviews); the store stays consistent |
| BookResolvers.CreatedValueIsTrimmed | backend/src/modules/book/book.resolvers.ts:62-65 | a value stored by `createBook` is non-empty and trimmed |
| BookResolvers.BookUpdateDataForwarded | backend/src/modules/book/book.resolvers.ts:89-97 | the service receives exactly the non-blank arguments, trimmed, and never an empty string |
| BookResolvers.ResolverUpdateKeepsConsistent | backend/src/modules/book/book.resolvers.ts:89-103 | an update assembled by the resolver keeps the store consistent whenever the service accepts it |
| BookResolvers.UpdateBookMutation | backend/src/modules/book/book.resolvers.ts:68-104 | checks in order: authentication, id parse, "At least one field", "cannot be empty" when every truthy argument is blank; then exactly the service's update; the store stays consistent |
| BookResolvers.DeleteBookMutation | backend/src/modules/book/book.resolvers.ts:106-117 | "Not authenticated", then "Invalid book ID", then the service's delete with its cascade |
| BookResolvers.BookAverageRating | backend/src/modules/book/book.resolvers.ts:126-136 | the field's own formula equals the shared tenths average, 0 without reviews |
| BookResolvers.BookReviewCount | backend/src/modules/book/book.resolvers.ts:138-140 | the number of included reviews, 0 without any |
| BookResolvers.FieldsAgreeWithRatedListing | backend/src/modules/book/book.resolvers.ts:126-140 | on a book, the field resolvers give the same count and average as the listing with ratings |
| ReviewResolvers.RecordOf | backend/src/resolvers.ts:22-28 | a review with the rows of its user and its book |
| ReviewResolvers.AllReviews | backend/src/resolvers.ts:12-19 | every review once, in id order, with its user and book |
| ReviewResolvers.ReviewQuery | backend/src/resolvers.ts:21-29 | the store refuses an id that parses to `NaN`; otherwise the review, or null |
| ReviewResolvers.CreateReviewKeepsConsistent | backend/src/resolvers.ts:50-61 | a review by an existing user of an existing book keeps the invariant, takes a fresh id and changes no other row |
| ReviewResolvers.CreatedReviewIsFound | backend/src/resolvers.ts:50-61 | `review` then finds the new review under its id |
| ReviewResolvers.CreateReview | backend/src/resolvers.ts:37-62 | "Not authenticated" first; the store refuses an unparsable book id and a missing book or user; for an existing book and caller, exactly one new review under the next id, returned with its user and book, the rating as given (no range check) and a missing text stored as ""; every error leaves the store untouched |
| ReviewResolvers.OwnedReview | backend/src/resolvers.ts:73-79 | succeeds exactly for a review the caller wrote; a missing review and another user's review give the same message |
| ReviewResolvers.MissingAndForeignAlike | backend/src/resolvers.ts:77-79 | a missing id and another user's review are indistinguishable to the caller |
| ReviewResolvers.RevisedChangesOnlySupplied | backend/src/resolvers.ts:81-86 | only the supplied rating and text change; owner and book never change; with neither supplied the row stays the same |
| ReviewResolvers.UpdateReviewKeepsConsistent | backend/src/resolvers.ts:81-91 | rewriting a review's rating or text keeps the invariant and leaves the other reviews alone |
| ReviewResolvers.UpdateReview | backend/src/resolvers.ts:64-92 | "Not authenticated" before any lookup, then the owner guard, each writing nothing; then only that review changes |
| ReviewResolvers.DeleteReviewRemovesOne | backend/src/resolvers.ts:107-109 | deleting removes exactly that review, keeps the invariant, and `review` then finds nothing under the id |
| ReviewResolvers.DeleteReview | backend/src/resolvers.ts:94-112 | "Not authenticated" before any lookup, then the owner guard, each writing nothing; then exactly the caller's review is deleted and the answer is true |

## Left out

- bcrypt and jsonwebtoken internals are not modelled. Hashing is an ideal hash: a password verifies exactly against its own hash. Token verification is a parameter of `RequestContext.ContextUser`. The seven-day expiry, the clock and the secret (`JWT_SECRET` or "devsecret") are not modelled.
- Data-store query semantics are replaced by maps:
  - an unordered `findMany` lists rows in ascending id order;
  - `contains` is case-sensitive substring search, with no collation;
  - the `select`/`include` shapes become the view datatypes;
  - the 32-bit range of ids is not modelled: an out-of-range id is treated like any other missing id.
- AuthService.Register: which row `findFirst` returns when the e-mail and the name match two different users is not determined. `RegisterOutcome` allows either message in that case.
- Check-then-insert races against the database's unique constraints are not modelled: each operation runs alone.
- Floating point is not modelled. Averages are exact integer tenths. Rounding follows `Math.round` (half up). This differs from "half away from zero" only for negative ratings, which nothing forbids.
- JavaScript `Object.keys` lists integer-like keys first, in numeric order. `Favorites.CountAuthors` keeps first-appearance order for every author, so for authors named like integers the tie-break may differ.
- Favorites.CountAuthors: counts into a map with no inherited entries, whereas `authorCounts` is a plain `{}` object. An author named `__proto__` never becomes a key there (the assignment is ignored), and an author named after another `Object.prototype` member (`constructor`, `toString`, `valueOf`, ...) starts from the inherited function, so its count becomes a string that compares as NaN. The model counts such authors like any other; modelling JavaScript's property lookup and mixed comparisons would be needed to follow the source.
- Favorites.FavoriteAuthor: for the same reason, on authors named `__proto__` or after an `Object.prototype` member the source's `favoriteGenre` can differ: a user whose only reviewed author is `__proto__` gets none, although the model promises one whenever there are reviews; and with authors `constructor`, `constructor`, `X` the source picks `X` where the model picks `constructor`.
- UserService.GetUserStats, UserResolvers.UserStatsQuery, UserResolvers.MyStats: inherit the difference above for `favoriteGenre`.
- String lengths count characters, not UTF-16 code units, and there is no Unicode normalisation.
- Arguments are passed as `Option` (absent or present). An explicit GraphQL `null` is treated as absent, except in `updateReview`, where the model does not cover a `null` rating or text.
- The pass-through resolvers are not modelled separately:
  - `users`, `books`, `booksWithRating`: these are `GetAllUsers`, `GetAllBooks` and `GetBooksWithAverageRating`;
  - `User.reviews` and `Book.reviews`: these return the included list.
- The `Review.user` and `Review.book` field resolvers are not modelled: `ReviewRecord` already carries both rows.
- Logging (`console.warn`) is not modelled.
- Out of scope: the compiled output under `backend/dist/`, the frontend, the seeding script, the schema type definitions and the `index.ts` re-exports.
- Store failures such as `NaN` ids and foreign-key violations are modelled only by kind (`Errors.StoreFailure`), not by their message text.
- BookService.UpdateBook: promises only `Database.Linked`, not full consistency, when a field is the empty string, because the service as written then breaks title/author uniqueness (see above).
