/**
 * The `/api/users` handlers. Two keys are kept unique: `id` (the table's key) and
 * `username` (checked by the handlers before every write that sets it).
 */
module UserController {
  import opened Records
  import opened Database

  /** `SELECT * FROM users WHERE username = ?`, first row or 404. */
  method GetUserByUsername(db: Database, username: string) returns (r: Response<User>)
    requires db.Valid()
    ensures r.Ok? <==> UsernameTaken(db.users, username)
    ensures r.Ok? ==> r.status == 200 && r.body in db.users.Values && r.body.username == username
    ensures UniqueUsernames(db.users) && r.Ok? ==> r.body == db.users[r.body.id]
    ensures !r.Ok? ==> r == NotFound("User not found")
  {
    if !UsernameTaken(db.users, username) {
      return NotFound("User not found");
    }
    var id :| id in db.users && db.users[id].username == username;
    r := Ok(200, db.users[id]);
  }

  method CreateUser(db: Database, body: User, storageFails: bool) returns (r: Response<User>)
    requires db.Valid()
    modifies db
    ensures db.Valid()
    ensures db.students == old(db.students) && db.courses == old(db.courses) && db.absences == old(db.absences)
    ensures (body.id == "" || body.username == "" || body.role == "") ==> r == BadRequest("Missing required fields")
    ensures body.id != "" && body.username != "" && body.role != "" && body.id in old(db.users) ==>
              r == Conflict("User with this ID already exists")
    ensures body.id != "" && body.username != "" && body.role != "" && body.id !in old(db.users) &&
            UsernameTaken(old(db.users), body.username) ==>
              r == Conflict("User with this username already exists")
    ensures body.id != "" && body.username != "" && body.role != "" && body.id !in old(db.users) &&
            !UsernameTaken(old(db.users), body.username) && storageFails ==>
              r == Failure(InternalError)
    ensures r.Ok? <==>
              body.id != "" && body.username != "" && body.role != "" && body.id !in old(db.users) &&
              !UsernameTaken(old(db.users), body.username) && !storageFails
    ensures r.Failure? ==> r.error == InternalError
    ensures r.Ok? ==> r == Ok(201, body) && db.users == old(db.users)[body.id := body]
    ensures !r.Ok? ==> db.users == old(db.users)
    ensures UniqueUsernames(old(db.users)) ==> UniqueUsernames(db.users)
  {
    if body.id == "" || body.username == "" || body.role == "" {
      return BadRequest("Missing required fields");
    }
    if body.id in db.users {
      return Conflict("User with this ID already exists");
    }
    if UsernameTaken(db.users, body.username) {
      return Conflict("User with this username already exists");
    }
    if storageFails {
      return Failure(InternalError);
    }
    db.users := db.users[body.id := body];
    r := Ok(201, body);
  }

  /**
   * Overwrites username and role, keeping the id. A username held by another user is refused;
   * keeping one's own is allowed.
   */
  method UpdateUser(db: Database, id: string, username: string, role: string, storageFails: bool)
    returns (r: Response<User>)
    requires db.Valid()
    modifies db
    ensures db.Valid()
    ensures db.students == old(db.students) && db.courses == old(db.courses) && db.absences == old(db.absences)
    ensures id !in old(db.users) ==> r == NotFound("User not found")
    ensures id in old(db.users) && UsernameTakenBy(old(db.users), username, id) ==>
              r == Conflict("User with this username already exists")
    ensures id in old(db.users) && !UsernameTakenBy(old(db.users), username, id) && storageFails ==>
              r == Failure(InternalError)
    ensures r.Ok? <==> id in old(db.users) && !UsernameTakenBy(old(db.users), username, id) && !storageFails
    ensures r.Failure? ==> r.error == InternalError
    ensures r.Ok? ==> r == Ok(200, User(id, username, role)) && db.users == old(db.users)[id := User(id, username, role)]
    ensures !r.Ok? ==> db.users == old(db.users)
    ensures UniqueUsernames(old(db.users)) ==> UniqueUsernames(db.users)
  {
    if id !in db.users {
      return NotFound("User not found");
    }
    if UsernameTakenBy(db.users, username, id) {
      return Conflict("User with this username already exists");
    }
    if storageFails {
      return Failure(InternalError);
    }
    db.users := db.users[id := User(id, username, role)];
    r := Ok(200, User(id, username, role));
  }

  method DeleteUser(db: Database, id: string, storageFails: bool) returns (r: Response<string>)
    requires db.Valid()
    modifies db
    ensures db.Valid()
    ensures db.students == old(db.students) && db.courses == old(db.courses) && db.absences == old(db.absences)
    ensures id !in old(db.users) ==> r == NotFound("User not found")
    ensures id in old(db.users) && storageFails ==> r == Failure(InternalError)
    ensures r.Ok? <==> id in old(db.users) && !storageFails
    ensures r.Ok? ==> r == Ok(200, "User deleted successfully") && db.users == old(db.users) - {id}
    ensures !r.Ok? ==> db.users == old(db.users)
    ensures UniqueUsernames(old(db.users)) ==> UniqueUsernames(db.users)
  {
    if id !in db.users {
      return NotFound("User not found");
    }
    if storageFails {
      return Failure(InternalError);
    }
    db.users := db.users - {id};
    r := Ok(200, "User deleted successfully");
  }
}
