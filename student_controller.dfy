/**
 * The `/api/students` handlers. Creating a student also creates its login account: a user
 * row with the same id, the email as username and role `student`, both inside one
 * transaction.
 */
module StudentController {
  import opened Records
  import opened Database

  /** Which statement of the enrollment transaction the storage rejects, if any. */
  datatype EnrollFault = NoFault | StudentInsertFails | UserInsertFails

  /** The presence check `!id || !name || !email || !course_id || !enrollment_date`. */
  predicate HasRequiredFields(body: Student)
  {
    body.id != "" && body.name != "" && body.email != "" && body.course_id != "" && body.enrollment_date != ""
  }

  /** The account created together with a student. */
  function AccountFor(body: Student): User
  {
    User(body.id, body.email, "student")
  }

  method GetStudentById(db: Database, id: string) returns (r: Response<Student>)
    requires db.Valid()
    ensures id in db.students <==> r.Ok?
    ensures r.Ok? ==> r.status == 200 && r.body == db.students[id] && r.body.id == id
    ensures !r.Ok? ==> r == NotFound("Student not found")
  {
    if id !in db.students {
      return NotFound("Student not found");
    }
    r := Ok(200, db.students[id]);
  }

  /**
   * Enrollment: both rows or neither. The checks run before any write and stop at the first
   * failure; once the transaction has started, a rejected insert rolls back whatever the
   * transaction wrote.
   */
  method CreateStudent(db: Database, body: Student, fault: EnrollFault) returns (r: Response<Student>)
    requires db.Valid()
    modifies db
    ensures db.Valid()
    ensures db.courses == old(db.courses) && db.absences == old(db.absences)
    ensures !HasRequiredFields(body) ==> r == BadRequest("Missing required fields")
    ensures HasRequiredFields(body) && body.id in old(db.students) ==>
              r == Conflict("Student with this ID already exists")
    ensures HasRequiredFields(body) && body.id !in old(db.students) && body.id in old(db.users) ==>
              r == Conflict("User with this ID already exists")
    ensures r.Failure? <==>
              HasRequiredFields(body) && body.id !in old(db.students) && body.id !in old(db.users) && fault != NoFault
    ensures r.Failure? ==> r.error == InternalError
    ensures r.Ok? <==>
              HasRequiredFields(body) && body.id !in old(db.students) && body.id !in old(db.users) && fault == NoFault
    ensures r.Ok? ==> r == Ok(201, body)
    ensures r.Ok? ==> db.students == old(db.students)[body.id := body]
    ensures r.Ok? ==> db.users == old(db.users)[body.id := AccountFor(body)]
    ensures !r.Ok? ==> db.students == old(db.students) && db.users == old(db.users)
    ensures UniqueUsernames(old(db.users)) && !UsernameTaken(old(db.users), body.email) ==> UniqueUsernames(db.users)
    ensures r.Ok? && UsernameTaken(old(db.users), body.email) ==> !UniqueUsernames(db.users)
  {
    if !HasRequiredFields(body) {
      return BadRequest("Missing required fields");
    }
    if body.id in db.students {
      return Conflict("Student with this ID already exists");
    }
    if body.id in db.users {
      return Conflict("User with this ID already exists");
    }
    // START TRANSACTION: the state a ROLLBACK returns to.
    var savedStudents, savedUsers := db.students, db.users;
    if fault == StudentInsertFails {
      db.students, db.users := savedStudents, savedUsers;
      return Failure(InternalError);
    }
    db.students := db.students[body.id := body];
    if fault == UserInsertFails {
      db.students, db.users := savedStudents, savedUsers;
      return Failure(InternalError);
    }
    db.users := db.users[body.id := AccountFor(body)];
    // COMMIT
    r := Ok(201, body);
    if UsernameTaken(savedUsers, body.email) {
      ghost var other :| other in savedUsers && savedUsers[other].username == body.email;
      assert other != body.id && db.users[other].username == db.users[body.id].username;
    }
  }

  /**
   * Enrollment with the username check `createUser` makes: an email that is already some
   * user's username is refused with 409 before the transaction, so usernames stay unique.
   */
  method CreateStudentCorrected(db: Database, body: Student, fault: EnrollFault) returns (r: Response<Student>)
    requires db.Valid()
    modifies db
    ensures db.Valid()
    ensures db.courses == old(db.courses) && db.absences == old(db.absences)
    ensures !HasRequiredFields(body) ==> r == BadRequest("Missing required fields")
    ensures HasRequiredFields(body) && body.id in old(db.students) ==>
              r == Conflict("Student with this ID already exists")
    ensures HasRequiredFields(body) && body.id !in old(db.students) && body.id in old(db.users) ==>
              r == Conflict("User with this ID already exists")
    ensures HasRequiredFields(body) && body.id !in old(db.students) && body.id !in old(db.users) &&
            UsernameTaken(old(db.users), body.email) ==>
              r == Conflict("User with this username already exists") &&
              db.students == old(db.students) && db.users == old(db.users)
    ensures r.Ok? <==>
              HasRequiredFields(body) && body.id !in old(db.students) && body.id !in old(db.users) &&
              !UsernameTaken(old(db.users), body.email) && fault == NoFault
    ensures r.Failure? ==> r.error == InternalError
    ensures r.Ok? ==> r == Ok(201, body)
    ensures r.Ok? ==> db.users == old(db.users)[body.id := AccountFor(body)] && db.students == old(db.students)[body.id := body]
    ensures !r.Ok? ==> db.students == old(db.students) && db.users == old(db.users)
    ensures UniqueUsernames(old(db.users)) ==> UniqueUsernames(db.users)
  {
    if HasRequiredFields(body) && body.id !in db.students && body.id !in db.users && UsernameTaken(db.users, body.email) {
      return Conflict("User with this username already exists");
    }
    r := CreateStudent(db, body, fault);
  }

  /**
   * Full replacement of the four non-key columns. The paired user row is not touched, so its
   * username keeps the old email.
   */
  method UpdateStudent(db: Database, id: string, name: string, email: string, course_id: string,
                       enrollment_date: string, storageFails: bool) returns (r: Response<Student>)
    requires db.Valid()
    modifies db
    ensures db.Valid()
    ensures db.users == old(db.users) && db.courses == old(db.courses) && db.absences == old(db.absences)
    ensures id !in old(db.students) ==> r == NotFound("Student not found")
    ensures id in old(db.students) && storageFails ==> r == Failure(InternalError)
    ensures r.Ok? <==> id in old(db.students) && !storageFails
    ensures r.Ok? ==> r == Ok(200, Student(id, name, email, course_id, enrollment_date))
    ensures r.Ok? ==> db.students == old(db.students)[id := Student(id, name, email, course_id, enrollment_date)]
    ensures !r.Ok? ==> db.students == old(db.students)
  {
    if id !in db.students {
      return NotFound("Student not found");
    }
    if storageFails {
      return Failure(InternalError);
    }
    var row := Student(id, name, email, course_id, enrollment_date);
    db.students := db.students[id := row];
    r := Ok(200, row);
  }

  /** Removes the student row only: its user row and its absences stay. */
  method DeleteStudent(db: Database, id: string, storageFails: bool) returns (r: Response<string>)
    requires db.Valid()
    modifies db
    ensures db.Valid()
    ensures db.users == old(db.users) && db.courses == old(db.courses) && db.absences == old(db.absences)
    ensures id !in old(db.students) ==> r == NotFound("Student not found")
    ensures id in old(db.students) && storageFails ==> r == Failure(InternalError)
    ensures r.Ok? <==> id in old(db.students) && !storageFails
    ensures r.Ok? ==> r == Ok(200, "Student deleted successfully")
    ensures r.Ok? ==> db.students == old(db.students) - {id}
    ensures !r.Ok? ==> db.students == old(db.students)
  {
    if id !in db.students {
      return NotFound("Student not found");
    }
    if storageFails {
      return Failure(InternalError);
    }
    db.students := db.students - {id};
    r := Ok(200, "Student deleted successfully");
  }
}
