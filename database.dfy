/**
 * The MySQL schema behind the REST controllers, as four in-memory tables keyed by the
 * primary key `id`, and the responses a controller sends back.
 */
module Database {
  import opened Records

  /** A controller's reply: the HTTP status it sets and the JSON body it sends. */
  datatype Response<T> =
    | Ok(status: int, body: T)
    | BadRequest(error: string)
    | Conflict(error: string)
    | NotFound(error: string)
    | Failure(error: string)
  {
    function Status(): int
    {
      match this
      case Ok(status, _) => status
      case BadRequest(_) => 400
      case Conflict(_) => 409
      case NotFound(_) => 404
      case Failure(_) => 500
    }
  }

  /** The body every `catch` block of the controllers sends with status 500. */
  const InternalError := "Internal server error"

  /** No two users share a username. */
  ghost predicate UniqueUsernames(users: map<string, User>)
  {
    forall a, b :: a in users && b in users && users[a].username == users[b].username ==> a == b
  }

  /** Some user other than `except` has this username (`SELECT id FROM users WHERE username = ? AND id != ?`). */
  predicate UsernameTakenBy(users: map<string, User>, username: string, except: string)
  {
    exists id | id in users :: id != except && users[id].username == username
  }

  /** Some user has this username (`SELECT id FROM users WHERE username = ?`). */
  predicate UsernameTaken(users: map<string, User>, username: string)
  {
    exists id | id in users :: users[id].username == username
  }

  class Database {
    var students: map<string, Student>
    var users: map<string, User>
    var courses: map<string, Course>
    var absences: map<string, Absence>

    /** Every row is stored under its own primary key. */
    ghost predicate Valid()
      reads this
    {
      && (forall id :: id in students ==> students[id].id == id)
      && (forall id :: id in users ==> users[id].id == id)
      && (forall id :: id in courses ==> courses[id].id == id)
      && (forall id :: id in absences ==> absences[id].id == id)
    }

    constructor ()
      ensures Valid()
      ensures students == map[] && users == map[] && courses == map[] && absences == map[]
    {
      students, users, courses, absences := map[], map[], map[], map[];
    }
  }
}
