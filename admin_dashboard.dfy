/**
 * The administrator dashboard: the student and course forms, which either create a record
 * with a fresh id or update the one being edited, the e-mail check and the rule that decides
 * which table rows a search leaves visible.
 */
module AdminDashboard {
  import opened Wrappers
  import opened Strings
  import opened Seqs
  import opened ClientStore
  import opened Feedback

  /** No character of `t` is white space (`\s`) or `@`. */
  predicate NoSpaceOrAt(t: string)
  {
    forall k :: 0 <= k < |t| ==> !IsSpace(t[k]) && t[k] != '@'
  }

  /**
   * The language of `/^[^\s@]+@[^\s@]+\.[^\s@]+$/`: three non-empty runs free of white space
   * and `@`, the first two separated by `@` (at `i`) and the last two by `.` (at `j`).
   */
  ghost predicate MatchesEmailPattern(s: string)
  {
    exists i, j :: 0 < i && i + 1 < j && j + 1 < |s| && s[i] == '@' && s[j] == '.' &&
                   NoSpaceOrAt(s[..i]) && NoSpaceOrAt(s[i + 1..j]) && NoSpaceOrAt(s[j + 1..])
  }

  /**
   * The e-mail test of `saveStudent`, decided directly: no white space, exactly one `@` with
   * text before it, and a `.` after it that has text on both sides.
   */
  predicate IsValidEmail(s: string)
  {
    var at := IndexOfChar(s, '@');
    0 < at && at + 3 <= |s| &&
    (forall k :: 0 <= k < |s| ==> !IsSpace(s[k])) &&
    '@' !in s[at + 1..] &&
    '.' in s[at + 2..|s| - 1]
  }

  /** The direct test accepts exactly the strings the regular expression matches. */
  lemma IsValidEmailMatchesPattern(s: string)
    ensures IsValidEmail(s) <==> MatchesEmailPattern(s)
  {
    if IsValidEmail(s) {
      ValidEmailMatches(s);
    }
    if MatchesEmailPattern(s) {
      var i, j :| 0 < i && i + 1 < j && j + 1 < |s| && s[i] == '@' && s[j] == '.' &&
                  NoSpaceOrAt(s[..i]) && NoSpaceOrAt(s[i + 1..j]) && NoSpaceOrAt(s[j + 1..]);
      PatternIsValidEmail(s, i, j);
    }
  }

  lemma ValidEmailMatches(s: string)
    requires IsValidEmail(s)
    ensures MatchesEmailPattern(s)
  {
    var at := IndexOfChar(s, '@');
    var domain := s[at + 2..|s| - 1];
    var d := IndexOfChar(domain, '.');
    var j := at + 2 + d;
    assert s[j] == '.';
    assert NoSpaceOrAt(s[..at]) by {
      forall k | 0 <= k < at ensures s[k] != '@' {
        assert s[..at][k] == s[k];
      }
    }
    assert NoSpaceOrAt(s[at + 1..j]) by {
      forall k | at + 1 <= k < j ensures s[k] != '@' {
        assert s[at + 1..][k - at - 1] == s[k];
      }
    }
    assert NoSpaceOrAt(s[j + 1..]) by {
      forall k | j + 1 <= k < |s| ensures s[k] != '@' {
        assert s[at + 1..][k - at - 1] == s[k];
      }
    }
  }

  lemma PatternIsValidEmail(s: string, i: nat, j: nat)
    requires 0 < i && i + 1 < j && j + 1 < |s| && s[i] == '@' && s[j] == '.'
    requires NoSpaceOrAt(s[..i]) && NoSpaceOrAt(s[i + 1..j]) && NoSpaceOrAt(s[j + 1..])
    ensures IsValidEmail(s)
  {
    assert '@' !in s[..i];
    IndexOfCharIs(s, '@', i);
    forall k | 0 <= k < |s| ensures !IsSpace(s[k]) {
      if k < i {
        assert s[k] == s[..i][k];
      } else if i < k < j {
        assert s[k] == s[i + 1..j][k - i - 1];
      } else if j < k {
        assert s[k] == s[j + 1..][k - j - 1];
      }
    }
    assert '@' !in s[i + 1..] by {
      forall k | i + 1 <= k < |s| ensures s[k] != '@' {
        if k < j {
          assert s[k] == s[i + 1..j][k - i - 1];
        } else if j < k {
          assert s[k] == s[j + 1..][k - j - 1];
        }
      }
    }
    assert s[i + 2..|s| - 1][j - i - 2] == '.';
  }

  /** The values of the student modal as read: the hidden id, then the four visible fields. */
  datatype StudentForm = StudentForm(id: string, name: string, email: string, course: string, enrollmentDate: string)

  datatype CourseForm = CourseForm(id: string, name: string, teacher: string, schedule: string)

  function FillAllFields(): string { "Por favor completa todos los campos" }
  function InvalidEmail(): string { "Por favor ingresa un email válido" }
  function StudentSaveFailed(): string { "Error al guardar el estudiante" }
  function CourseSaveFailed(): string { "Error al guardar el curso" }

  /** The name and e-mail are trimmed; the course select and the date input are taken as they are. */
  predicate StudentFormComplete(f: StudentForm)
  {
    Trim(f.name) != [] && Trim(f.email) != [] && f.course != [] && f.enrollmentDate != []
  }

  predicate CourseFormComplete(f: CourseForm)
  {
    Trim(f.name) != [] && Trim(f.teacher) != [] && Trim(f.schedule) != []
  }

  /** The student object `saveStudent` builds from the trimmed name and e-mail, under the id it is saved with. */
  function StudentRecord(id: string, name: string, email: string, course: string, enrollmentDate: string): (d: Doc)
    ensures d.id == id
    ensures Field(d, "name") == Some(name) && Field(d, "email") == Some(email)
    ensures Field(d, "course_id") == Some(course) && Field(d, "enrollment_date") == Some(enrollmentDate)
  {
    Doc(id, map["name" := name, "email" := email, "course_id" := course, "enrollment_date" := enrollmentDate])
  }

  /** The course object `saveCourse` builds from the three trimmed texts. */
  function CourseRecord(id: string, name: string, teacher: string, schedule: string): (d: Doc)
    ensures d.id == id
    ensures Field(d, "name") == Some(name) && Field(d, "teacher") == Some(teacher)
    ensures Field(d, "schedule") == Some(schedule)
  {
    Doc(id, map["name" := name, "teacher" := teacher, "schedule" := schedule])
  }

  /** The record a complete student form is saved as. */
  function StudentOf(id: string, f: StudentForm): Doc
  {
    StudentRecord(id, Trim(f.name), Trim(f.email), f.course, f.enrollmentDate)
  }

  function CourseOf(id: string, f: CourseForm): Doc
  {
    CourseRecord(id, Trim(f.name), Trim(f.teacher), Trim(f.schedule))
  }

  /**
   * `saveStudent`. `stamp` stands for `Date.now()`. A complete form with a valid e-mail is
   * written (an update of the edited id, or a creation under `student-` and the stamp), and
   * then reported as failed, because the store's write gives back `undefined`.
   */
  method SaveStudent(dm: DataManager, f: StudentForm, stamp: string) returns (outcome: Outcome)
    modifies dm
    ensures !StudentFormComplete(f) ==> outcome == Failure(FillAllFields()) && dm.students == old(dm.students)
    ensures StudentFormComplete(f) && !IsValidEmail(Trim(f.email)) ==>
              outcome == Failure(InvalidEmail()) && dm.students == old(dm.students)
    ensures StudentFormComplete(f) && IsValidEmail(Trim(f.email)) ==>
              outcome == Failure(StudentSaveFailed()) &&
              dm.students == (if f.id != [] then Replaced(old(dm.students), f.id, StudentOf(f.id, f))
                              else old(dm.students) + [StudentOf("student-" + stamp, f)])
    ensures dm.courses == old(dm.courses) && dm.absences == old(dm.absences) && dm.users == old(dm.users)
  {
    var name := Trim(f.name);
    var email := Trim(f.email);
    if name == [] || email == [] || f.course == [] || f.enrollmentDate == [] {
      return Failure(FillAllFields());
    }
    if !IsValidEmail(email) {
      return Failure(InvalidEmail());
    }
    if f.id != [] {
      dm.UpdateStudent(f.id, StudentRecord(f.id, name, email, f.course, f.enrollmentDate));
    } else {
      dm.CreateStudent(StudentRecord("student-" + stamp, name, email, f.course, f.enrollmentDate));
    }
    var result := StoreWriteResult;
    outcome := CheckWriteResult(result, StudentSaveFailed(), "");
  }

  /** `saveCourse`: the same branching, with `course-` ids and no e-mail check. */
  method SaveCourse(dm: DataManager, f: CourseForm, stamp: string) returns (outcome: Outcome)
    modifies dm
    ensures !CourseFormComplete(f) ==> outcome == Failure(FillAllFields()) && dm.courses == old(dm.courses)
    ensures CourseFormComplete(f) ==>
              outcome == Failure(CourseSaveFailed()) &&
              dm.courses == (if f.id != [] then Replaced(old(dm.courses), f.id, CourseOf(f.id, f))
                             else old(dm.courses) + [CourseOf("course-" + stamp, f)])
    ensures dm.students == old(dm.students) && dm.absences == old(dm.absences) && dm.users == old(dm.users)
  {
    var name := Trim(f.name);
    var teacher := Trim(f.teacher);
    var schedule := Trim(f.schedule);
    if name == [] || teacher == [] || schedule == [] {
      return Failure(FillAllFields());
    }
    if f.id != [] {
      dm.UpdateCourse(f.id, CourseRecord(f.id, name, teacher, schedule));
    } else {
      dm.CreateCourse(CourseRecord("course-" + stamp, name, teacher, schedule));
    }
    var result := StoreWriteResult;
    outcome := CheckWriteResult(result, CourseSaveFailed(), "");
  }

  /** A saved student is what a later lookup of its id returns, when no earlier entry shares the id. */
  lemma SavedStudentFound(students: seq<Doc>, f: StudentForm, stamp: string)
    requires f.id != [] ==> ById(students, f.id).Some?
    requires f.id == [] ==> ById(students, "student-" + stamp).None?
    ensures var id := if f.id != [] then f.id else "student-" + stamp;
            var saved := if f.id != [] then Replaced(students, f.id, StudentOf(f.id, f))
                         else students + [StudentOf(id, f)];
            ById(saved, id) == Some(StudentOf(id, f))
  {
    if f.id != [] {
      ReplacedThenById(students, f.id, StudentOf(f.id, f));
    } else {
      AppendThenById(students, StudentOf("student-" + stamp, f));
    }
  }

  /**
   * A student saved here stores its course under `course_id`, so the store's
   * `getStudentsByCourseId`, which compares `course`, never lists it.
   */
  lemma SavedStudentNotListedByCourse(id: string, name: string, email: string, course: string, date: string,
                                      courseId: string)
    ensures !FieldIs("course", courseId)(StudentRecord(id, name, email, course, date))
  {
  }

  /** The by-course query reading the field the administrator's form writes, `course_id`. */
  function StudentsOfCourse(students: seq<Doc>, courseId: string): (r: seq<Doc>)
    ensures IsSubsequence(r, students)
    ensures forall j :: 0 <= j < |r| ==> Field(r[j], "course_id") == Some(courseId)
    ensures forall j :: 0 <= j < |students| && Field(students[j], "course_id") == Some(courseId) ==> students[j] in r
  {
    Filter(students, FieldIs("course_id", courseId))
  }

  /** With that query, a student the form appends is listed under the course it was saved with. */
  lemma SavedStudentListedByCourse(students: seq<Doc>, f: StudentForm, stamp: string)
    ensures StudentOf("student-" + stamp, f) in StudentsOfCourse(students + [StudentOf("student-" + stamp, f)], f.course)
  {
    var d := StudentOf("student-" + stamp, f);
    assert (students + [d])[|students|] == d;
  }

  /**
   * `filterStudentsTable` and `filterCoursesTable`: a row stays visible when the lowercased
   * term occurs in one of its three lowercased cells.
   */
  predicate RowVisible(cells: seq<string>, searchTerm: string)
    requires |cells| == 3
  {
    var term := ToLower(searchTerm);
    Contains(ToLower(cells[0]), term) || Contains(ToLower(cells[1]), term) || Contains(ToLower(cells[2]), term)
  }

  /** A row one of whose cells holds the term, ignoring letter case, stays visible. */
  lemma CellMatchShowsRow(cells: seq<string>, searchTerm: string, c: nat, k: nat)
    requires |cells| == 3 && c < 3
    requires OccursAt(ToLower(cells[c]), ToLower(searchTerm), k)
    ensures RowVisible(cells, searchTerm)
  {
    ContainsAt(ToLower(cells[c]), ToLower(searchTerm), k);
  }

  /** A hidden row holds the term, ignoring letter case, in none of its cells. */
  lemma HiddenRowHasNoMatch(cells: seq<string>, searchTerm: string)
    requires |cells| == 3 && !RowVisible(cells, searchTerm)
    ensures forall c, k :: 0 <= c < 3 ==> !OccursAt(ToLower(cells[c]), ToLower(searchTerm), k)
  {
    var term := ToLower(searchTerm);
    forall c, k | 0 <= c < 3 ensures !OccursAt(ToLower(cells[c]), term, k) {
      var cell := ToLower(cells[c]);
      assert !Contains(cell, term) by {
        if c == 0 { } else if c == 1 { } else { }
      }
      ContainsIffOccurs(cell, term);
    }
  }

  /** An empty search shows every row. */
  lemma EmptySearchShowsAll(cells: seq<string>)
    requires |cells| == 3
    ensures RowVisible(cells, [])
  {
    ContainsEmpty(ToLower(cells[0]));
  }

  /** The search ignores the letter case of the term. */
  lemma SearchIgnoresCase(cells: seq<string>, searchTerm: string)
    requires |cells| == 3
    ensures RowVisible(cells, ToLower(searchTerm)) == RowVisible(cells, searchTerm)
  {
    ToLowerIdempotent(searchTerm);
  }
}
