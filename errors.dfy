/** The error values of the system (lib/utils/error-handling.ts) and the outcome of a call that
    may throw. */
module Errors {
  import opened Wrappers

  /** An error object returned by the hosted Postgres store: its SQLSTATE or PostgREST code and
      its message. */
  datatype PgError = PgError(code: string, message: string)

  const UniqueViolation: string := "23505"
  const ForeignKeyViolation: string := "23503"
  const InsufficientPrivilege: string := "42501"
  /** PostgREST's code when `.single()` finds no row, or more than one. */
  const NoSingleRow: string := "PGRST116"

  /** `class AppError extends Error`: a message, an HTTP-like status (500 by default) and
      optionally the store's code. */
  datatype AppError = AppError(message: string, statusCode: int, code: Option<string>)

  /** A value thrown by an operation. */
  datatype Thrown =
    | Postgrest(err: PgError)        // the store's error object, rethrown as it is
    | Error(message: string)         // `new Error(message)` or another `Error` (storage, type errors)
    | App(app: AppError)             // an `AppError`
    | NonError                       // a thrown value that is not an `Error`

  /** The result of an async call: the value it resolved to, or what it threw. */
  datatype Outcome<T> = Returned(value: T) | Threw(thrown: Thrown)

  const DuplicateMessage: string := "Ez az adat már létezik"
  const MissingReferenceMessage: string := "Hivatkozott adat nem található"
  const NoPermissionMessage: string := "Nincs jogosultság a művelethez"
  const UnknownErrorMessage: string := "Ismeretlen hiba történt"

  /** `handleSupabaseError`: it never returns normally; the value here is the `AppError` it throws.
      Its argument is typed `PostgrestError | Error`, so a non-`Error` value is not accepted. */
  function HandleSupabaseError(e: Thrown): (thrown: Thrown)
    requires !e.NonError?
    ensures thrown.App?
    ensures thrown.app.statusCode in {409, 404, 403, 500}
    ensures e.Postgrest? ==> thrown.app.code == Some(e.err.code)
    ensures !e.Postgrest? ==> thrown.app.code == None && thrown.app.statusCode == 500
    ensures e.Postgrest? ==>
              (thrown.app.statusCode == 409 <==> e.err.code == UniqueViolation) &&
              (thrown.app.statusCode == 404 <==> e.err.code == ForeignKeyViolation) &&
              (thrown.app.statusCode == 403 <==> e.err.code == InsufficientPrivilege)
    ensures thrown.app.statusCode == 500 ==> thrown.app.message == MessageOf(e)
  {
    match e
    case Postgrest(err) =>
      if err.code == UniqueViolation then App(AppError(DuplicateMessage, 409, Some(err.code)))
      else if err.code == ForeignKeyViolation then App(AppError(MissingReferenceMessage, 404, Some(err.code)))
      else if err.code == InsufficientPrivilege then App(AppError(NoPermissionMessage, 403, Some(err.code)))
      else App(AppError(err.message, 500, Some(err.code)))
    case Error(message) => App(AppError(message, 500, None))
    case App(app) => App(AppError(app.message, 500, None))
  }

  /** The `message` property of an `Error` value. */
  function MessageOf(e: Thrown): string
    requires !e.NonError?
  {
    match e
    case Postgrest(err) => err.message
    case Error(message) => message
    case App(app) => app.message
  }

  /** `getErrorMessage`: the message of an `AppError` or other `Error`, else a fixed fallback. */
  function GetErrorMessage(e: Thrown): (m: string)
    ensures e.NonError? ==> m == UnknownErrorMessage
    ensures !e.NonError? ==> m == MessageOf(e)
  {
    if e.App? then e.app.message
    else if e.NonError? then UnknownErrorMessage
    else MessageOf(e)
  }

  /** A store error without a special code keeps its message through `handleSupabaseError` and
      `getErrorMessage`; the three special codes are replaced by their fixed texts. */
  lemma HandledMessage(e: Thrown)
    requires !e.NonError?
    ensures var m := GetErrorMessage(HandleSupabaseError(e));
      && (e.Postgrest? && e.err.code == UniqueViolation ==> m == DuplicateMessage)
      && (e.Postgrest? && e.err.code == ForeignKeyViolation ==> m == MissingReferenceMessage)
      && (e.Postgrest? && e.err.code == InsufficientPrivilege ==> m == NoPermissionMessage)
      && (!(e.Postgrest? && e.err.code in {UniqueViolation, ForeignKeyViolation, InsufficientPrivilege}) ==> m == MessageOf(e))
  {
  }
}
