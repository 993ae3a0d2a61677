/**
 * The pure parts of the teacher dashboard: the two form validators, the records built from the
 * forms, the table filter, and the rows of the CSV export.
 */
module TeacherForms {
  import opened Wrappers
  import opened Strings
  import opened Seqs
  import opened Records
  import opened AbsenceTypes
  import opened Csv
  import AbsenceController

  /** The raw values of the registration form. */
  datatype AbsenceForm = AbsenceForm(
    student: string, course: string, kind: string, date: string,
    category: string, situation: string, sanction: string, comments: string)

  /** The raw values of the edit dialog; `id` is its hidden field. */
  datatype EditForm = EditForm(
    id: string, kind: string, category: string, situation: string, sanction: string, comments: string)

  /**
   * `validateAbsenceForm`. `dateIsFuture` is the outcome of comparing the chosen date with
   * today's, which needs the clock.
   */
  predicate ValidateAbsenceForm(f: AbsenceForm, dateIsFuture: bool)
  {
    f.student != "" && f.course != "" && f.kind != "" && f.date != "" && !dateIsFuture &&
    |Trim(f.category)| >= 2 && |Trim(f.situation)| >= 5 && |Trim(f.sanction)| >= 3
  }

  /** `validateEditAbsenceForm`: the type and the three text rules, nothing else. */
  predicate ValidateEditAbsenceForm(e: EditForm)
  {
    e.kind != "" && |Trim(e.category)| >= 2 && |Trim(e.situation)| >= 5 && |Trim(e.sanction)| >= 3
  }

  /** The part of the registration form the edit dialog also shows. */
  function EditPart(f: AbsenceForm, id: string): EditForm
  {
    EditForm(id, f.kind, f.category, f.situation, f.sanction, f.comments)
  }

  /** The two validators apply the same rules to the fields they share. */
  lemma ValidatorsAgree(f: AbsenceForm, dateIsFuture: bool, id: string)
    ensures ValidateAbsenceForm(f, dateIsFuture) <==>
              f.student != "" && f.course != "" && f.date != "" && !dateIsFuture &&
              ValidateEditAbsenceForm(EditPart(f, id))
  {
  }

  /** `parseInt` of a select value; 0 stands for `NaN` (both are falsy and match no type). */
  function KindOf(text: string): (kind: int)
    ensures kind >= 0
    ensures AllDigits(text) && text != [] ==> kind == DecimalValue(text)
  {
    match ParseInt(text)
    case None => 0
    case Some(n) => n
  }

  /** The option values of the type selects. */
  predicate IsTypeOption(text: string)
  {
    text == "1" || text == "2" || text == "3"
  }

  lemma KindOfOption(text: string)
    requires IsTypeOption(text)
    ensures KindOf(text) == text[0] as int - '0' as int && IsKnownType(KindOf(text))
  {
    assert AllDigits(text) && text[..|text| - 1] == [];
    assert DecimalValue(text) == text[0] as int - '0' as int;
  }

  /** The record `handleAbsenceSubmit` stores; `stamp` stands for `Date.now()`. */
  function NewAbsence(f: AbsenceForm, stamp: string): (a: Absence)
    ensures a.student_id == f.student && a.course_id == f.course && a.date == f.date
  {
    Absence("absence-" + stamp, f.student, f.course, KindOf(f.kind), Trim(f.category),
            Trim(f.situation), Trim(f.sanction), f.date, Some(Trim(f.comments)))
  }

  /** The record `saveEditAbsence` writes: the stored student, course and date, the rest from the dialog. */
  function EditedAbsence(stored: Absence, e: EditForm): (a: Absence)
    ensures a.id == e.id
  {
    Absence(e.id, stored.student_id, stored.course_id, KindOf(e.kind), Trim(e.category),
            Trim(e.situation), Trim(e.sanction), stored.date, Some(Trim(e.comments)))
  }

  function Payload(a: Absence): AbsenceController.AbsencePayload
  {
    AbsenceController.AbsencePayload(a.student_id, a.course_id, a.kind, a.category, a.situation,
                                     a.sanction, a.date, a.comments)
  }

  /** What the registration form lets through also passes the backend's presence check. */
  lemma NewAbsenceMeetsBackend(f: AbsenceForm, dateIsFuture: bool, stamp: string)
    requires ValidateAbsenceForm(f, dateIsFuture) && IsTypeOption(f.kind)
    ensures AbsenceController.HasRequiredFields(NewAbsence(f, stamp).id, Payload(NewAbsence(f, stamp)))
  {
    KindOfOption(f.kind);
  }

  /** An edit changes only type, texts and comments: the stored student, course and date survive. */
  lemma EditKeepsIdentity(stored: Absence, e: EditForm)
    ensures var a := EditedAbsence(stored, e);
            a.student_id == stored.student_id && a.course_id == stored.course_id && a.date == stored.date
  {
  }

  /** A second edit overrides the first entirely: the result depends only on the last dialog. */
  lemma EditTwice(stored: Absence, e1: EditForm, e2: EditForm)
    ensures EditedAbsence(EditedAbsence(stored, e1), e2) == EditedAbsence(stored, e2)
  {
  }

  /** An edit of a record the backend accepts, through a valid dialog, is again one it accepts. */
  lemma EditMeetsBackend(stored: Absence, e: EditForm)
    requires AbsenceController.HasRequiredFields(stored.id, Payload(stored))
    requires e.id != "" && ValidateEditAbsenceForm(e) && IsTypeOption(e.kind)
    ensures AbsenceController.HasRequiredFields(e.id, Payload(EditedAbsence(stored, e)))
  {
    KindOfOption(e.kind);
  }

  function StudentHasId(id: string): Student -> bool
  {
    (s: Student) => s.id == id
  }

  function CourseHasId(id: string): Course -> bool
  {
    (c: Course) => c.id == id
  }

  /** The lower-cased name of the absence's student, or `''` when the student is unknown. */
  function StudentNameLower(students: seq<Student>, id: string): string
  {
    match Find(students, StudentHasId(id))
    case None => ""
    case Some(s) => ToLower(s.name)
  }

  function CourseNameLower(courses: seq<Course>, id: string): string
  {
    match Find(courses, CourseHasId(id))
    case None => ""
    case Some(c) => ToLower(c.name)
  }

  /** The search rule: the term occurs in the student name, course name, type label or situation. */
  predicate MatchesSearch(a: Absence, students: seq<Student>, courses: seq<Course>, term: string)
  {
    Contains(StudentNameLower(students, a.student_id), term) ||
    Contains(CourseNameLower(courses, a.course_id), term) ||
    Contains(ToLower(TypeLabel(a.kind)), term) ||
    Contains(ToLower(a.situation), term)
  }

  /** The test applied to each absence; an empty select or search skips its condition. */
  predicate Shown(a: Absence, students: seq<Student>, courses: seq<Course>, term: string, filterType: string)
  {
    (filterType == "" || LooseEquals(a.kind, filterType)) &&
    (term == "" || MatchesSearch(a, students, courses, term))
  }

  function ShownBy(students: seq<Student>, courses: seq<Course>, term: string, filterType: string): Absence -> bool
  {
    (a: Absence) => Shown(a, students, courses, term, filterType)
  }

  /** `filterAbsences`: the search text is lower-cased (not trimmed). */
  function FilterAbsences(all: seq<Absence>, students: seq<Student>, courses: seq<Course>, search: string, filterType: string)
    : (r: seq<Absence>)
    ensures IsSubsequence(r, all)
    ensures forall i :: 0 <= i < |r| ==> Shown(r[i], students, courses, ToLower(search), filterType)
    ensures forall i :: 0 <= i < |all| && Shown(all[i], students, courses, ToLower(search), filterType) ==> all[i] in r
  {
    Filter(all, ShownBy(students, courses, ToLower(search), filterType))
  }

  /** With an empty search and no type chosen, every absence is listed. */
  lemma FilterAbsencesNoCriteria(all: seq<Absence>, students: seq<Student>, courses: seq<Course>)
    ensures FilterAbsences(all, students, courses, "", "") == all
  {
    FilterAll(all, ShownBy(students, courses, ToLower(""), ""));
  }

  /** Choosing a type option with an empty search lists exactly the absences of that type, in order. */
  lemma FilterAbsencesByType(all: seq<Absence>, students: seq<Student>, courses: seq<Course>, option: string)
    requires IsTypeOption(option)
    ensures FilterAbsences(all, students, courses, "", option) == Filter(all, (a: Absence) => a.kind == KindOf(option))
  {
    KindOfOption(option);
    forall a: Absence ensures ShownBy(students, courses, ToLower(""), option)(a) == (a.kind == KindOf(option)) {
      LooseEqualsDigit(a.kind, option[0]);
    }
    FilterExt(all, ShownBy(students, courses, ToLower(""), option), (a: Absence) => a.kind == KindOf(option));
  }

  /** A value without quotes escapes to itself in quotes. */
  lemma {:induction false} DoubleQuotesNone(s: string)
    requires '"' !in s
    ensures DoubleQuotes(s) == s
    decreases |s|
  {
    if s != [] {
      assert s[0] != '"';
      DoubleQuotesNone(s[1..]);
    }
  }

  /** The texts written when the absence's student or course is unknown. */
  function StudentNotFound(): string
  {
    "Estudiante no encontrado"
  }

  function CourseNotFound(): string
  {
    "Curso no encontrado"
  }

  /** A text without quotes is escaped by quoting it. */
  lemma EscapeQuoteFree(s: string)
    requires '"' !in s
    ensures EscapeCsv(Some(s)) == "\"" + s + "\""
  {
    DoubleQuotesNone(s);
  }

  /** The student column's text: the name, or the not-found text. */
  function StudentText(students: seq<Student>, id: string): string
  {
    match Find(students, StudentHasId(id))
    case None => StudentNotFound()
    case Some(s) => s.name
  }

  function CourseText(courses: seq<Course>, id: string): string
  {
    match Find(courses, CourseHasId(id))
    case None => CourseNotFound()
    case Some(c) => c.name
  }

  /** The student cell as the export writes it: the not-found text is written already quoted. */
  function StudentCell(students: seq<Student>, id: string): (cell: string)
    ensures cell == EscapeCsv(Some(StudentText(students, id)))
  {
    match Find(students, StudentHasId(id))
    case None =>
      EscapeQuoteFree(StudentNotFound());
      "\"" + StudentNotFound() + "\""
    case Some(s) => EscapeCsv(Some(s.name))
  }

  function CourseCell(courses: seq<Course>, id: string): (cell: string)
    ensures cell == EscapeCsv(Some(CourseText(courses, id)))
  {
    match Find(courses, CourseHasId(id))
    case None =>
      EscapeQuoteFree(CourseNotFound());
      "\"" + CourseNotFound() + "\""
    case Some(c) => EscapeCsv(Some(c.name))
  }

  /** The eight values one export row holds, before escaping, given the two looked-up names. */
  function Values(studentText: string, courseText: string, typeLabel: string, a: Absence): seq<string>
  {
    [ studentText, courseText, typeLabel, a.date, a.category, a.situation, a.sanction,
      CommentText(a.comments) ]
  }

  function ExportValues(a: Absence, students: seq<Student>, courses: seq<Course>): seq<string>
  {
    Values(StudentText(students, a.student_id), CourseText(courses, a.course_id), TypeLabel(a.kind), a)
  }

  /** `rowData` of the export loop, given the two looked-up cells: the other six escaped. */
  function Cells(studentCell: string, courseCell: string, typeLabel: string, a: Absence): seq<string>
  {
    [ studentCell, courseCell,
      EscapeCsv(Some(typeLabel)), EscapeCsv(Some(a.date)), EscapeCsv(Some(a.category)),
      EscapeCsv(Some(a.situation)), EscapeCsv(Some(a.sanction)), EscapeCsv(a.comments) ]
  }

  function RowData(a: Absence, students: seq<Student>, courses: seq<Course>): seq<string>
  {
    Cells(StudentCell(students, a.student_id), CourseCell(courses, a.course_id), TypeLabel(a.kind), a)
  }

  /** A missing comment is exported like an empty one. */
  function CommentText(c: Option<string>): (t: string)
    ensures EscapeCsv(c) == EscapeCsv(Some(t))
  {
    match c
    case None => ""
    case Some(t) => t
  }

  lemma CellsRoundTrip(cells: seq<string>, v: seq<string>)
    requires |v| >= 1 && |cells| == |v|
    requires forall i :: 0 <= i < |v| ==> cells[i] == EscapeCsv(Some(v[i]))
    ensures ParseRow(Join(cells, ",")) == Some(v)
  {
    assert cells == EscapeAll(v);
    CsvLineRoundTrip(v);
  }

  /** When the two looked-up cells are the names escaped, cell `i` is value `i` escaped. */
  lemma CellEscapesValue(studentText: string, courseText: string, typeLabel: string, a: Absence, i: nat)
    requires i < 8
    ensures |Cells(EscapeCsv(Some(studentText)), EscapeCsv(Some(courseText)), typeLabel, a)| == 8
    ensures |Values(studentText, courseText, typeLabel, a)| == 8
    ensures Cells(EscapeCsv(Some(studentText)), EscapeCsv(Some(courseText)), typeLabel, a)[i] ==
              EscapeCsv(Some(Values(studentText, courseText, typeLabel, a)[i]))
  {
    var v := Values(studentText, courseText, typeLabel, a);
    if i == 7 {
      assert v[7] == CommentText(a.comments);
    } else if i < 2 {
    } else if i < 5 {
    } else {
    }
  }

  /** Reading an exported row gives back its eight values, whatever quotes or commas they contain. */
  lemma ExportRowRoundTrip(a: Absence, students: seq<Student>, courses: seq<Course>)
    ensures ParseRow(Join(RowData(a, students, courses), ",")) == Some(ExportValues(a, students, courses))
  {
    var st, ct := StudentText(students, a.student_id), CourseText(courses, a.course_id);
    var tl := TypeLabel(a.kind);
    var cells, v := Cells(EscapeCsv(Some(st)), EscapeCsv(Some(ct)), tl, a), Values(st, ct, tl, a);
    assert RowData(a, students, courses) == cells;
    forall i | 0 <= i < 8
      ensures cells[i] == EscapeCsv(Some(v[i]))
    {
      CellEscapesValue(st, ct, tl, a, i);
    }
    CellEscapesValue(st, ct, tl, a, 0);
    CellsRoundTrip(cells, v);
  }

  const CsvHeader := "Estudiante,Curso,Tipo,Fecha,Categoría,Situación,Sanción,Comentarios\n"

  function ExportRows(all: seq<Absence>, students: seq<Student>, courses: seq<Course>): string
  {
    if all == [] then "" else Join(RowData(all[0], students, courses), ",") + "\n" + ExportRows(all[1..], students, courses)
  }

  /** `exportAbsencesToCSV`'s text after the data-URI prefix; nothing is exported without absences. */
  function ExportCsv(all: seq<Absence>, students: seq<Student>, courses: seq<Course>): (r: Option<string>)
    ensures r.None? <==> all == []
    ensures r.Some? ==> CsvHeader <= r.value
  {
    if all == [] then None else Some(CsvHeader + ExportRows(all, students, courses))
  }
}
