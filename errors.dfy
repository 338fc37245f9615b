/** The errors the backend raises. Application code throws `new Error(message)`,
    so an application error is identified by its message alone: two paths that
    throw the same literal are indistinguishable to the caller. Failures raised
    by the data store itself (a malformed argument, a violated foreign key) are
    kept apart, because their wording belongs to the data store. */
module Errors {

  datatype StoreFailure = InvalidArgument | ForeignKeyViolation

  datatype Error = Thrown(message: string) | Store(failure: StoreFailure)

  // Guards shared by several operations
  const NotAuthenticated := "Not authenticated"
  const UserNotFound := "User not found"
  const SearchQueryRequired := "Search query is required"
  const InvalidEmail := "Please provide a valid email address"

  // auth.resolvers / auth.service
  const RegisterFieldsRequired := "Email, name, and password are required"
  const PasswordTooShort := "Password must be at least 6 characters long"
  const LoginFieldsRequired := "Email and password are required"
  const EmailExists := "User with this email already exists"
  const NameExists := "User with this name already exists"
  const InvalidCredentials := "Invalid email or password"

  // user.resolvers / user.service
  const InvalidUserId := "Invalid user ID"
  const EmailRequired := "Email is required"
  const NoProfileField := "At least one field must be provided for update"
  const EmailEmpty := "Email cannot be empty"
  const NameEmpty := "Name cannot be empty"
  const NewPasswordTooShort := "New password must be at least 6 characters long"
  const DeletePasswordRequired := "Password is required to delete account"
  const InvalidPassword := "Invalid password"
  const EmailTaken := "Email is already taken"
  const NameTaken := "Name is already taken"
  const CurrentPasswordRequired := "Current password is required to set a new password"
  const CurrentPasswordIncorrect := "Current password is incorrect"

  // book.resolvers / book.service
  const InvalidBookId := "Invalid book ID"
  const BookNotFound := "Book not found"
  const TitleAuthorRequired := "Title and author are required"
  const TitleAuthorEmpty := "Title and author cannot be empty"
  const NoBookField := "At least one field (title or author) must be provided"
  const DuplicateBook := "A book with this title and author already exists"

  // resolvers.ts (reviews)
  const ReviewNotFoundOrNotAuthorized := "Review not found or not authorized"
}
