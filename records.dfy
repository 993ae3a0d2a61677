/**
 * The four entities of the absence register, as rows of the backend tables and as the
 * JSON objects the dashboards receive. Every identifier is supplied by the caller.
 */
module Records {
  import opened Wrappers

  datatype Student = Student(id: string, name: string, email: string, course_id: string, enrollment_date: string)

  datatype User = User(id: string, username: string, role: string)

  datatype Course = Course(id: string, name: string, teacher: string, schedule: string)

  /**
   * An absence. `kind` is the `type` column (`type` is a Dafny keyword): 1 (tardiness),
   * 2 (justified absence) or 3 (unjustified absence), though nothing stops other numbers
   * from being stored. `comments` is `None` for SQL NULL.
   */
  datatype Absence = Absence(
    id: string, student_id: string, course_id: string, kind: int,
    category: string, situation: string, sanction: string, date: string,
    comments: Option<string>)
}
