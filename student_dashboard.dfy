/**
 * The student dashboard: which student record a signed-in user is, how a student comment is
 * appended to an absence's `comments` text and how that text is split back into the
 * student's comment and the others.
 */
module StudentDashboard {
  import opened Wrappers
  import opened Seqs
  import opened Strings
  import opened ClientStore
  import opened Feedback

  function UserStudentPrefix(): string { "user-student-" }
  function UserPrefix(): string { "user-" }
  function StudentPrefix(): string { "student-" }

  /** `currentUser.id.replace('user-student-', 'student-').replace('user-', 'student-')`. */
  function StudentIdOf(userId: string): string
  {
    ReplaceFirst(ReplaceFirst(userId, UserStudentPrefix(), StudentPrefix()), UserPrefix(), StudentPrefix())
  }

  /** A user id `user-student-X` maps to `student-X` when X holds no further `user-`. */
  lemma StudentIdOfStudentUser(x: string)
    requires !Contains(x, UserPrefix())
    ensures StudentIdOf(UserStudentPrefix() + x) == StudentPrefix() + x
  {
    ReplaceFirstAtStart(UserStudentPrefix(), x, StudentPrefix());
    var s := StudentPrefix() + x;
    forall j ensures !OccursAt(s, UserPrefix(), j) {
      if j >= 8 && j + 5 <= |s| {
        assert s[j..j + 5] == x[j - 8..j - 3];
        assert !OccursAt(x, UserPrefix(), j - 8);
      } else if 0 <= j < 8 && j + 5 <= |s| {
        assert s[j] == StudentPrefix()[j];
        if j == 2 {
          assert s[j + 1] == 'd';
        }
      }
    }
    ReplaceFirstAbsent(s, UserPrefix(), StudentPrefix());
  }

  /** A user id `user-X` maps to `student-X` when it holds no `user-student-`. */
  lemma StudentIdOfUser(x: string)
    requires !Contains(UserPrefix() + x, UserStudentPrefix())
    ensures StudentIdOf(UserPrefix() + x) == StudentPrefix() + x
  {
    ReplaceFirstAbsent(UserPrefix() + x, UserStudentPrefix(), StudentPrefix());
    ReplaceFirstAtStart(UserPrefix(), x, StudentPrefix());
  }

  /** An id holding no `user-` is used as it is. */
  lemma StudentIdUnchanged(id: string)
    requires !Contains(id, UserPrefix())
    ensures StudentIdOf(id) == id
  {
    forall j ensures !OccursAt(id, UserStudentPrefix(), j) {
      if OccursAt(id, UserStudentPrefix(), j) {
        assert id[j..j + 5] == id[j..j + 13][..5];
        assert OccursAt(id, UserPrefix(), j);
        assert false;
      }
    }
    ReplaceFirstAbsent(id, UserStudentPrefix(), StudentPrefix());
    ReplaceFirstAbsent(id, UserPrefix(), StudentPrefix());
  }

  /** The text searched for when parsing, and the label written when appending. */
  function StudentMarker(): string { "Comentario del alumno:" }
  function StudentLabel(): string { StudentMarker() + " " }

  lemma LabelHasNoNewline(t: string)
    requires '\n' !in t
    ensures '\n' !in StudentLabel() + t
  {
    assert '\n' !in StudentLabel();
  }

  /**
   * The `updatedComments` of `handleCommentSubmit`: the labelled comment alone when there are
   * no comments yet (null or empty), otherwise after the old comments and a blank line.
   */
  function AppendStudentComment(comments: Option<string>, text: string): (r: string)
    ensures comments.Some? ==> comments.value <= r
    ensures |StudentLabel() + text| <= |r| && r[|r| - |StudentLabel() + text|..] == StudentLabel() + text
    ensures comments.None? || comments.value == [] ==> r == StudentLabel() + text
    ensures comments.Some? && comments.value != [] ==>
              |r| == |comments.value| + 2 + |StudentLabel() + text| && r[|comments.value|..|comments.value| + 2] == "\n\n"
  {
    if comments.Some? && comments.value != [] then comments.value + "\n\n" + StudentLabel() + text
    else StudentLabel() + text
  }

  /** What the history table shows in its comments cell. */
  datatype ParsedComments = ParsedComments(student: string, others: string)

  function HasMarker(): string -> bool
  {
    (line: string) => Contains(line, StudentMarker())
  }

  function NonBlank(): string -> bool
  {
    (line: string) => Trim(line) != []
  }

  /**
   * The comment parsing of `loadAbsencesHistory`: the first line carrying the label gives the
   * student's comment; the other non-blank lines, joined by newlines, are the others.
   */
  function ParseComments(comments: Option<string>): (parsed: ParsedComments)
    ensures comments.None? || comments.value == [] ==> parsed == ParsedComments([], [])
    ensures comments.Some? && (forall k :: 0 <= k < |Split(comments.value, '\n')| ==> !HasMarker()(Split(comments.value, '\n')[k])) ==>
              parsed == ParsedComments([], comments.value)
  {
    if comments.None? || comments.value == [] then ParsedComments([], [])
    else
      var lines := Split(comments.value, '\n');
      var i := FindIndex(lines, HasMarker());
      if i == -1 then ParsedComments([], comments.value)
      else
        var rest := lines[..i] + lines[i + 1..];
        ParsedComments(Trim(ReplaceFirst(lines[i], StudentMarker(), "")), Join(Filter(rest, NonBlank()), "\n"))
  }

  /**
   * Round trip: a trimmed one-line comment appended to an absence without comments is read back
   * as the student's comment, with no other comments.
   */
  lemma ParseFreshComment(t: string)
    requires IsTrimmed(t) && '\n' !in t
    ensures ParseComments(Some(AppendStudentComment(None, t))) == ParsedComments(t, [])
  {
    var s := StudentLabel() + t;
    LabelHasNoNewline(t);
    SplitNoSeparator(s, '\n');
    LabelledLineFound(t);
    assert FindIndex([s], HasMarker()) == 0;
    ParseAt(s, [s], 0);
    LabelledLineText(t);
    assert [s][..0] + [s][1..] == [];
  }

  /** A blank line then `line`. */
  lemma SplitBlankThenLine(line: string)
    requires '\n' !in line
    ensures Split(['\n'] + line, '\n') == ["", line]
  {
    assert ['\n'] + line == [] + ['\n'] + line;
    SplitConcat([], line, '\n');
    SplitNoSeparator([], '\n');
    SplitNoSeparator(line, '\n');
  }

  /** The line after the teacher's text and the blank separator line. */
  lemma SplitAfterTeacher(c: string, line: string)
    requires '\n' !in line
    ensures Split(c + "\n\n" + line, '\n') == Split(c, '\n') + ["", line]
  {
    var rest := ['\n'] + line;
    assert c + "\n\n" + line == c + ['\n'] + rest;
    SplitConcat(c, rest, '\n');
    SplitBlankThenLine(line);
  }

  /** Parsing a text whose lines are known and whose first labelled line is `i`. */
  lemma ParseAt(text: string, lines: seq<string>, i: nat)
    requires text != [] && Split(text, '\n') == lines
    requires i < |lines| && FindIndex(lines, HasMarker()) == i
    ensures ParseComments(Some(text)) ==
              ParsedComments(Trim(ReplaceFirst(lines[i], StudentMarker(), "")),
                             Join(Filter(lines[..i] + lines[i + 1..], NonBlank()), "\n"))
  {
  }

  lemma BlankLacksMarker()
    ensures !Contains("", StudentMarker())
  {
    assert IndexOf("", StudentMarker()).None?;
  }

  /** The label is found on the line after the teacher's lines and the blank one. */
  lemma LabelAfterTeacher(parts: seq<string>, line: string)
    requires forall k :: 0 <= k < |parts| ==> !Contains(parts[k], StudentMarker())
    requires Contains(line, StudentMarker())
    ensures FindIndex(parts + ["", line], HasMarker()) == |parts| + 1
  {
    BlankLacksMarker();
    FindIndexSecondAfter(parts, "", line, HasMarker());
  }

  /** Removing the element at index `|parts| + 1` from `parts + [x, y]`. */
  lemma SpliceLast<T>(parts: seq<T>, x: T, y: T)
    ensures var lines := parts + [x, y];
            lines[..|parts| + 1] + lines[|parts| + 2..] == parts + [x]
  {
  }

  lemma DropTrailingBlank(parts: seq<string>)
    requires forall k :: 0 <= k < |parts| ==> Trim(parts[k]) != []
    ensures Filter(parts + [""], NonBlank()) == parts
  {
    FilterSnoc(parts, "", NonBlank());
    assert Trim("") == [];
    FilterAll(parts, NonBlank());
  }

  /** Without the labelled line, the non-blank lines are the teacher's. */
  lemma OthersAfterTeacher(parts: seq<string>, line: string)
    requires forall k :: 0 <= k < |parts| ==> Trim(parts[k]) != []
    ensures var lines := parts + ["", line];
            Filter(lines[..|parts| + 1] + lines[|parts| + 2..], NonBlank()) == parts
  {
    SpliceLast(parts, "", line);
    DropTrailingBlank(parts);
  }

  /** The labelled line reads back as the trimmed comment. */
  lemma LabelledLineText(t: string)
    requires IsTrimmed(t)
    ensures Trim(ReplaceFirst(StudentLabel() + t, StudentMarker(), "")) == t
  {
    assert StudentLabel() + t == StudentMarker() + (" " + t);
    ReplaceFirstAtStart(StudentMarker(), " " + t, "");
    assert [] + (" " + t) == [' '] + t;
    TrimLeadingSpace([' '], t);
  }

  lemma LabelledLineFound(t: string)
    ensures Contains(StudentLabel() + t, StudentMarker())
  {
    var line := StudentLabel() + t;
    assert line == StudentMarker() + (" " + t);
    assert OccursAt(line, StudentMarker(), 0);
    ContainsAt(line, StudentMarker(), 0);
  }

  /**
   * Round trip after a teacher's comment: when no line of the teacher's text is blank or
   * carries the label, appending a trimmed one-line comment and parsing gives both back.
   */
  lemma ParseAfterTeacherComment(c: string, t: string)
    requires c != []
    requires forall k :: 0 <= k < |Split(c, '\n')| ==> Trim(Split(c, '\n')[k]) != [] && !Contains(Split(c, '\n')[k], StudentMarker())
    requires IsTrimmed(t) && '\n' !in t
    ensures ParseComments(Some(AppendStudentComment(Some(c), t))) == ParsedComments(t, c)
  {
    var line := StudentLabel() + t;
    var text := AppendStudentComment(Some(c), t);
    assert text == c + "\n\n" + line;
    LabelHasNoNewline(t);
    SplitAfterTeacher(c, line);
    var parts := Split(c, '\n');
    var lines := parts + ["", line];
    LabelledLineFound(t);
    LabelAfterTeacher(parts, line);
    ParseAt(text, lines, |parts| + 1);
    LabelledLineText(t);
    OthersAfterTeacher(parts, line);
  }

  /** The absence with the student's comment appended; every other field is kept. */
  function Commented(absence: Doc, text: string): (r: Doc)
    ensures r.id == absence.id
    ensures forall key :: key != "comments" ==> Field(r, key) == Field(absence, key)
    ensures Field(r, "comments") == Some(AppendStudentComment(Field(absence, "comments"), text))
  {
    Doc(absence.id, absence.fields["comments" := AppendStudentComment(Field(absence, "comments"), text)])
  }

  function SelectAndWrite(): string { "Por favor selecciona una falta y escribe un comentario" }
  function AbsenceNotFound(): string { "Falta no encontrada" }
  function UpdateFailed(): string { "Error al actualizar la falta" }
  function CommentAdded(): string { "Comentario agregado correctamente" }

  /**
   * The checks and the write of `handleCommentSubmit`; `None` when the comment was written,
   * otherwise the message shown instead.
   */
  method AppendComment(dm: DataManager, absenceId: string, rawText: string) returns (rejection: Option<string>)
    modifies dm
    ensures absenceId == [] || Trim(rawText) == [] ==>
              rejection == Some(SelectAndWrite()) && dm.absences == old(dm.absences)
    ensures absenceId != [] && Trim(rawText) != [] && ById(old(dm.absences), absenceId).None? ==>
              rejection == Some(AbsenceNotFound()) && dm.absences == old(dm.absences)
    ensures absenceId != [] && Trim(rawText) != [] && ById(old(dm.absences), absenceId).Some? ==>
              rejection.None? &&
              dm.absences == Replaced(old(dm.absences), absenceId,
                                      Commented(ById(old(dm.absences), absenceId).value, Trim(rawText)))
    ensures dm.students == old(dm.students) && dm.courses == old(dm.courses) && dm.users == old(dm.users)
  {
    var commentText := Trim(rawText);
    if absenceId == [] || commentText == [] {
      return Some(SelectAndWrite());
    }
    var absence := dm.GetAbsenceById(absenceId);
    if absence.None? {
      return Some(AbsenceNotFound());
    }
    dm.UpdateAbsence(absenceId, Commented(absence.value, commentText));
    rejection := None;
  }

  /** `handleCommentSubmit` as written: a comment that was stored is reported as a failed update. */
  method HandleCommentSubmit(dm: DataManager, absenceId: string, rawText: string) returns (outcome: Outcome)
    modifies dm
    ensures outcome.Failure?
    ensures absenceId == [] || Trim(rawText) == [] ==>
              outcome == Failure(SelectAndWrite()) && dm.absences == old(dm.absences)
    ensures absenceId != [] && Trim(rawText) != [] && ById(old(dm.absences), absenceId).None? ==>
              outcome == Failure(AbsenceNotFound()) && dm.absences == old(dm.absences)
    ensures absenceId != [] && Trim(rawText) != [] && ById(old(dm.absences), absenceId).Some? ==>
              outcome == Failure(UpdateFailed()) &&
              dm.absences == Replaced(old(dm.absences), absenceId,
                                      Commented(ById(old(dm.absences), absenceId).value, Trim(rawText)))
    ensures dm.students == old(dm.students) && dm.courses == old(dm.courses) && dm.users == old(dm.users)
  {
    var rejection := AppendComment(dm, absenceId, rawText);
    if rejection.Some? {
      return Failure(rejection.value);
    }
    var result := StoreWriteResult;
    outcome := CheckWriteResult(result, UpdateFailed(), CommentAdded());
  }

  /** `handleCommentSubmit` with the write taken as done: success exactly when the comment was stored. */
  method HandleCommentSubmitCorrected(dm: DataManager, absenceId: string, rawText: string) returns (outcome: Outcome)
    modifies dm
    ensures absenceId == [] || Trim(rawText) == [] ==>
              outcome == Failure(SelectAndWrite()) && dm.absences == old(dm.absences)
    ensures absenceId != [] && Trim(rawText) != [] && ById(old(dm.absences), absenceId).None? ==>
              outcome == Failure(AbsenceNotFound()) && dm.absences == old(dm.absences)
    ensures absenceId != [] && Trim(rawText) != [] && ById(old(dm.absences), absenceId).Some? ==>
              outcome == Success(CommentAdded()) &&
              dm.absences == Replaced(old(dm.absences), absenceId,
                                      Commented(ById(old(dm.absences), absenceId).value, Trim(rawText)))
    ensures dm.students == old(dm.students) && dm.courses == old(dm.courses) && dm.users == old(dm.users)
  {
    var rejection := AppendComment(dm, absenceId, rawText);
    if rejection.Some? {
      return Failure(rejection.value);
    }
    outcome := Success(CommentAdded());
  }
}
