/**
 * The browser-side store: four growable arrays of plain objects. It checks nothing; `create*`
 * appends, `update*` overwrites the first element with the id, `delete*` keeps the others.
 */
module ClientStore {
  import opened Wrappers
  import opened Seqs

  /** A stored object: its `id` and its other properties, each rendered as text. */
  datatype Doc = Doc(id: string, fields: map<string, string>)

  /** `doc[key]`, `None` standing for `undefined`. */
  function Field(d: Doc, key: string): Option<string>
  {
    if key in d.fields then Some(d.fields[key]) else None
  }

  function HasId(id: string): Doc -> bool
  {
    (d: Doc) => d.id == id
  }

  function LacksId(id: string): Doc -> bool
  {
    (d: Doc) => d.id != id
  }

  /** `doc[key] === value`; an undefined property never equals a string. */
  function FieldIs(key: string, value: string): Doc -> bool
  {
    (d: Doc) => key in d.fields && d.fields[key] == value
  }

  function HasUsername(username: string): Doc -> bool
  {
    FieldIs("username", username)
  }

  /** `find(x => x.id === id) || null`. */
  function ById(s: seq<Doc>, id: string): (r: Option<Doc>)
    ensures r.None? <==> forall j :: 0 <= j < |s| ==> s[j].id != id
    ensures r.Some? ==> r.value.id == id && r.value in s
    ensures forall j :: 0 <= j < |s| && s[j].id == id && (forall k :: 0 <= k < j ==> s[k].id != id) ==> r == Some(s[j])
  {
    var i := FindIndex(s, HasId(id));
    if i == -1 then None else Some(s[i])
  }

  /** `findIndex` then, when found, assignment at that index; an absent id changes nothing. */
  function Replaced(s: seq<Doc>, id: string, d: Doc): (r: seq<Doc>)
    ensures |r| == |s|
    ensures (forall j :: 0 <= j < |s| ==> s[j].id != id) ==> r == s
    ensures forall j :: 0 <= j < |s| && s[j].id == id && (forall k :: 0 <= k < j ==> s[k].id != id) ==> r == s[j := d]
  {
    ReplaceFirstWhere(s, HasId(id), d)
  }

  /** `filter(x => x.id !== id)`. */
  function Without(s: seq<Doc>, id: string): (r: seq<Doc>)
    ensures IsSubsequence(r, s)
    ensures forall j :: 0 <= j < |r| ==> r[j].id != id
    ensures forall j :: 0 <= j < |s| && s[j].id != id ==> s[j] in r
  {
    Filter(s, LacksId(id))
  }

  /** Appending a record whose id was absent makes it the one a lookup by that id finds. */
  lemma {:induction false} AppendThenById(s: seq<Doc>, d: Doc)
    requires ById(s, d.id).None?
    ensures ById(s + [d], d.id) == Some(d)
  {
    var t := s + [d];
    forall k | 0 <= k < |s| ensures t[k].id != d.id {
      assert t[k] == s[k];
    }
    assert t[|s|] == d;
  }

  /** Appending never changes what a lookup of an id already present finds. */
  lemma {:induction false} AppendKeepsById(s: seq<Doc>, d: Doc, id: string)
    requires ById(s, id).Some?
    ensures ById(s + [d], id) == ById(s, id)
  {
    var i := FindIndex(s, HasId(id));
    var t := s + [d];
    forall k | 0 <= k <= i ensures t[k] == s[k] { }
  }

  /** After an update with a record carrying the same id, a lookup by that id finds the new record. */
  lemma {:induction false} ReplacedThenById(s: seq<Doc>, id: string, d: Doc)
    requires ById(s, id).Some? && d.id == id
    ensures ById(Replaced(s, id, d), id) == Some(d)
  {
    var i := FindIndex(s, HasId(id));
    var t := Replaced(s, id, d);
    assert t == s[i := d];
    forall k | 0 <= k < i ensures t[k].id != id {
      assert t[k] == s[k];
    }
    assert t[i] == d;
  }

  /** After a delete, a lookup by that id finds nothing. */
  lemma WithoutThenById(s: seq<Doc>, id: string)
    ensures ById(Without(s, id), id).None?
  {
  }

  /**
   * An absence written with `student_id` and no `studentId` property, as the teacher
   * dashboard writes them, leaves the store's by-student query unchanged: it is never listed.
   */
  lemma StudentIdDocNotListed(absences: seq<Doc>, d: Doc, studentId: string)
    requires "studentId" !in d.fields
    ensures Filter(absences + [d], FieldIs("studentId", studentId)) == Filter(absences, FieldIs("studentId", studentId))
  {
    FilterSnoc(absences, d, FieldIs("studentId", studentId));
  }

  /** The by-student query reading the property the absences carry, `student_id`, keeping order. */
  function AbsencesOfStudent(absences: seq<Doc>, studentId: string): (r: seq<Doc>)
    ensures IsSubsequence(r, absences)
    ensures forall j :: 0 <= j < |r| ==> Field(r[j], "student_id") == Some(studentId)
    ensures forall j :: 0 <= j < |absences| && Field(absences[j], "student_id") == Some(studentId) ==> absences[j] in r
  {
    Filter(absences, FieldIs("student_id", studentId))
  }

  /** With that query, an absence appended for the student is listed last among theirs. */
  lemma StudentIdDocListed(absences: seq<Doc>, d: Doc, studentId: string)
    requires Field(d, "student_id") == Some(studentId)
    ensures AbsencesOfStudent(absences + [d], studentId) == AbsencesOfStudent(absences, studentId) + [d]
  {
    FilterSnoc(absences, d, FieldIs("student_id", studentId));
  }

  class DataManager {
    var students: seq<Doc>
    var courses: seq<Doc>
    var absences: seq<Doc>
    var users: seq<Doc>

    constructor ()
      ensures students == [] && courses == [] && absences == [] && users == []
    {
      students := [];
      courses := [];
      absences := [];
      users := [];
    }

    function GetStudentById(id: string): (r: Option<Doc>)
      reads this
      ensures r.None? <==> forall j :: 0 <= j < |students| ==> students[j].id != id
      ensures r.Some? ==> r.value.id == id && r.value == students[FindIndex(students, HasId(id))]
    {
      ById(students, id)
    }

    function GetCourseById(id: string): (r: Option<Doc>)
      reads this
      ensures r.None? <==> forall j :: 0 <= j < |courses| ==> courses[j].id != id
      ensures r.Some? ==> r.value.id == id && r.value == courses[FindIndex(courses, HasId(id))]
    {
      ById(courses, id)
    }

    function GetAbsenceById(id: string): (r: Option<Doc>)
      reads this
      ensures r.None? <==> forall j :: 0 <= j < |absences| ==> absences[j].id != id
      ensures r.Some? ==> r.value.id == id && r.value == absences[FindIndex(absences, HasId(id))]
    {
      ById(absences, id)
    }

    /** Matches on `username`, the first such user. */
    function GetUserByUsername(username: string): (r: Option<Doc>)
      reads this
      ensures r.None? <==> forall j :: 0 <= j < |users| ==> Field(users[j], "username") != Some(username)
      ensures r.Some? ==> r.value in users && Field(r.value, "username") == Some(username)
      ensures forall j ::
                0 <= j < |users| && Field(users[j], "username") == Some(username) &&
                (forall k :: 0 <= k < j ==> Field(users[k], "username") != Some(username))
                ==> r == Some(users[j])
    {
      Find(users, HasUsername(username))
    }

    /** Filters on the property `course` (not `course_id`), keeping order. */
    function GetStudentsByCourseId(courseId: string): (r: seq<Doc>)
      reads this
      ensures IsSubsequence(r, students)
      ensures forall j :: 0 <= j < |r| ==> Field(r[j], "course") == Some(courseId)
      ensures forall j :: 0 <= j < |students| && Field(students[j], "course") == Some(courseId) ==> students[j] in r
    {
      Filter(students, FieldIs("course", courseId))
    }

    /** Filters on the property `studentId` (not `student_id`), keeping order. */
    function GetAbsencesByStudentId(studentId: string): (r: seq<Doc>)
      reads this
      ensures IsSubsequence(r, absences)
      ensures forall j :: 0 <= j < |r| ==> Field(r[j], "studentId") == Some(studentId)
      ensures forall j :: 0 <= j < |absences| && Field(absences[j], "studentId") == Some(studentId) ==> absences[j] in r
    {
      Filter(absences, FieldIs("studentId", studentId))
    }

    method CreateStudent(d: Doc)
      modifies this
      ensures students == old(students) + [d]
      ensures courses == old(courses) && absences == old(absences) && users == old(users)
    {
      students := students + [d];
    }

    method UpdateStudent(id: string, d: Doc)
      modifies this
      ensures students == Replaced(old(students), id, d)
      ensures courses == old(courses) && absences == old(absences) && users == old(users)
    {
      var i := FindIndex(students, HasId(id));
      if i != -1 {
        students := students[i := d];
      }
    }

    method DeleteStudent(id: string)
      modifies this
      ensures students == Without(old(students), id)
      ensures courses == old(courses) && absences == old(absences) && users == old(users)
    {
      students := Filter(students, LacksId(id));
    }

    method CreateCourse(d: Doc)
      modifies this
      ensures courses == old(courses) + [d]
      ensures students == old(students) && absences == old(absences) && users == old(users)
    {
      courses := courses + [d];
    }

    method UpdateCourse(id: string, d: Doc)
      modifies this
      ensures courses == Replaced(old(courses), id, d)
      ensures students == old(students) && absences == old(absences) && users == old(users)
    {
      var i := FindIndex(courses, HasId(id));
      if i != -1 {
        courses := courses[i := d];
      }
    }

    method DeleteCourse(id: string)
      modifies this
      ensures courses == Without(old(courses), id)
      ensures students == old(students) && absences == old(absences) && users == old(users)
    {
      courses := Filter(courses, LacksId(id));
    }

    method CreateAbsence(d: Doc)
      modifies this
      ensures absences == old(absences) + [d]
      ensures students == old(students) && courses == old(courses) && users == old(users)
    {
      absences := absences + [d];
    }

    method UpdateAbsence(id: string, d: Doc)
      modifies this
      ensures absences == Replaced(old(absences), id, d)
      ensures students == old(students) && courses == old(courses) && users == old(users)
    {
      var i := FindIndex(absences, HasId(id));
      if i != -1 {
        absences := absences[i := d];
      }
    }

    method DeleteAbsence(id: string)
      modifies this
      ensures absences == Without(old(absences), id)
      ensures students == old(students) && courses == old(courses) && users == old(users)
    {
      absences := Filter(absences, LacksId(id));
    }

    method CreateUser(d: Doc)
      modifies this
      ensures users == old(users) + [d]
      ensures students == old(students) && courses == old(courses) && absences == old(absences)
    {
      users := users + [d];
    }

    method UpdateUser(id: string, d: Doc)
      modifies this
      ensures users == Replaced(old(users), id, d)
      ensures students == old(students) && courses == old(courses) && absences == old(absences)
    {
      var i := FindIndex(users, HasId(id));
      if i != -1 {
        users := users[i := d];
      }
    }

    method DeleteUser(id: string)
      modifies this
      ensures users == Without(old(users), id)
      ensures students == old(students) && courses == old(courses) && absences == old(absences)
    {
      users := Filter(users, LacksId(id));
    }
  }
}
