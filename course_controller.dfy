/** The `/api/courses` handlers. Deleting a course leaves students and absences that name it. */
module CourseController {
  import opened Records
  import opened Database

  predicate HasRequiredFields(body: Course)
  {
    body.id != "" && body.name != "" && body.teacher != "" && body.schedule != ""
  }

  method GetCourseById(db: Database, id: string) returns (r: Response<Course>)
    requires db.Valid()
    ensures id in db.courses <==> r.Ok?
    ensures r.Ok? ==> r.status == 200 && r.body == db.courses[id] && r.body.id == id
    ensures !r.Ok? ==> r == NotFound("Course not found")
  {
    if id !in db.courses {
      return NotFound("Course not found");
    }
    r := Ok(200, db.courses[id]);
  }

  method CreateCourse(db: Database, body: Course, storageFails: bool) returns (r: Response<Course>)
    requires db.Valid()
    modifies db
    ensures db.Valid()
    ensures db.students == old(db.students) && db.users == old(db.users) && db.absences == old(db.absences)
    ensures !HasRequiredFields(body) ==> r == BadRequest("Missing required fields")
    ensures HasRequiredFields(body) && body.id in old(db.courses) ==> r == Conflict("Course with this ID already exists")
    ensures HasRequiredFields(body) && body.id !in old(db.courses) && storageFails ==> r == Failure(InternalError)
    ensures r.Ok? <==> HasRequiredFields(body) && body.id !in old(db.courses) && !storageFails
    ensures r.Ok? ==> r == Ok(201, body) && db.courses == old(db.courses)[body.id := body]
    ensures !r.Ok? ==> db.courses == old(db.courses)
  {
    if !HasRequiredFields(body) {
      return BadRequest("Missing required fields");
    }
    if body.id in db.courses {
      return Conflict("Course with this ID already exists");
    }
    if storageFails {
      return Failure(InternalError);
    }
    db.courses := db.courses[body.id := body];
    r := Ok(201, body);
  }

  method UpdateCourse(db: Database, id: string, name: string, teacher: string, schedule: string, storageFails: bool)
    returns (r: Response<Course>)
    requires db.Valid()
    modifies db
    ensures db.Valid()
    ensures db.students == old(db.students) && db.users == old(db.users) && db.absences == old(db.absences)
    ensures id !in old(db.courses) ==> r == NotFound("Course not found")
    ensures id in old(db.courses) && storageFails ==> r == Failure(InternalError)
    ensures r.Ok? <==> id in old(db.courses) && !storageFails
    ensures r.Ok? ==> r == Ok(200, Course(id, name, teacher, schedule))
    ensures r.Ok? ==> db.courses == old(db.courses)[id := Course(id, name, teacher, schedule)]
    ensures !r.Ok? ==> db.courses == old(db.courses)
  {
    if id !in db.courses {
      return NotFound("Course not found");
    }
    if storageFails {
      return Failure(InternalError);
    }
    db.courses := db.courses[id := Course(id, name, teacher, schedule)];
    r := Ok(200, Course(id, name, teacher, schedule));
  }

  method DeleteCourse(db: Database, id: string, storageFails: bool) returns (r: Response<string>)
    requires db.Valid()
    modifies db
    ensures db.Valid()
    ensures db.students == old(db.students) && db.users == old(db.users) && db.absences == old(db.absences)
    ensures id !in old(db.courses) ==> r == NotFound("Course not found")
    ensures id in old(db.courses) && storageFails ==> r == Failure(InternalError)
    ensures r.Ok? <==> id in old(db.courses) && !storageFails
    ensures r.Ok? ==> r == Ok(200, "Course deleted successfully") && db.courses == old(db.courses) - {id}
    ensures !r.Ok? ==> db.courses == old(db.courses)
  {
    if id !in db.courses {
      return NotFound("Course not found");
    }
    if storageFails {
      return Failure(InternalError);
    }
    db.courses := db.courses - {id};
    r := Ok(200, "Course deleted successfully");
  }

  /** What a successful POST stored is what a GET of the same id returns, field for field. */
  method CreateThenGetCourse(db: Database, body: Course) returns (created: Response<Course>, fetched: Response<Course>)
    requires db.Valid()
    modifies db
    ensures created.Ok? ==> fetched == Ok(200, body)
    ensures HasRequiredFields(body) && body.id in old(db.courses) ==> fetched == Ok(200, old(db.courses)[body.id])
  {
    created := CreateCourse(db, body, false);
    fetched := GetCourseById(db, body.id);
  }
}
