/**
 * The `/api/absences` handlers: presence check, existence check, one write. Dates arriving
 * as RFC 3339 date-times are cut down to their full-date part before they are stored.
 */
module AbsenceController {
  import opened Wrappers
  import opened Strings
  import opened Records
  import opened Database

  /** The JSON body of a POST or PUT, every column but the key. */
  datatype AbsencePayload = AbsencePayload(
    student_id: string, course_id: string, kind: int, category: string,
    situation: string, sanction: string, date: string, comments: Option<string>)

  /**
   * The date normalisation: a value containing `T` becomes the text before its first `T`
   * (the full-date of an RFC 3339 date-time, section 5.6); any other value is kept.
   */
  function NormalizeDate(date: string): (r: string)
    ensures |r| <= |date| && r == date[..|r|]
    ensures 'T' !in r
    ensures 'T' in date ==> date[|r|] == 'T'
    ensures 'T' !in date ==> r == date
  {
    if 'T' in date then
      SplitHead(date, 'T');
      Split(date, 'T')[0]
    else date
  }

  lemma NormalizeDateIdempotent(date: string)
    ensures NormalizeDate(NormalizeDate(date)) == NormalizeDate(date)
  {
  }

  /** The value kept is the text before the first `T`. */
  lemma NormalizeDateAt(date: string, i: nat)
    requires i < |date| && date[i] == 'T' && 'T' !in date[..i]
    ensures NormalizeDate(date) == date[..i]
  {
    assert date[i] in date;
  }

  lemma NormalizeDateExample()
    ensures NormalizeDate("2025-08-15T10:30:00Z") == "2025-08-15"
    ensures NormalizeDate("2025-08-15") == "2025-08-15"
  {
    var d := "2025-08-15T10:30:00Z";
    assert d[..10] == "2025-08-15";
    NormalizeDateAt(d, 10);
  }

  /** `comments || null`: an absent or empty comment is stored as NULL. */
  function StoredComments(comments: Option<string>): (r: Option<string>)
    ensures r.None? <==> comments.None? || comments.value == ""
    ensures r.Some? ==> r == comments
  {
    match comments
    case Some(c) => if c == "" then None else comments
    case None => None
  }

  /** The presence check of `createAbsence`: eight required values; a type of 0 counts as missing. */
  predicate HasRequiredFields(id: string, p: AbsencePayload)
  {
    id != "" && p.student_id != "" && p.course_id != "" && p.kind != 0 &&
    p.category != "" && p.situation != "" && p.sanction != "" && p.date != ""
  }

  /** The row that an INSERT or UPDATE writes. */
  function StoredRow(id: string, p: AbsencePayload): Absence
  {
    Absence(id, p.student_id, p.course_id, p.kind, p.category, p.situation, p.sanction,
            NormalizeDate(p.date), StoredComments(p.comments))
  }

  /** The JSON the handler sends back: the normalised date, but the comments as they came. */
  function Echo(id: string, p: AbsencePayload): Absence
  {
    Absence(id, p.student_id, p.course_id, p.kind, p.category, p.situation, p.sanction,
            NormalizeDate(p.date), p.comments)
  }

  method GetAbsenceById(db: Database, id: string) returns (r: Response<Absence>)
    requires db.Valid()
    ensures id in db.absences <==> r.Ok?
    ensures r.Ok? ==> r.status == 200 && r.body == db.absences[id] && r.body.id == id
    ensures !r.Ok? ==> r == NotFound("Absence not found")
  {
    if id !in db.absences {
      return NotFound("Absence not found");
    }
    r := Ok(200, db.absences[id]);
  }

  /**
   * `SELECT * FROM absences WHERE student_id = ?`: always 200, possibly with no rows, and
   * each matching row exactly once (no two rows share an id).
   */
  method GetAbsencesByStudentId(db: Database, studentId: string) returns (r: Response<seq<Absence>>)
    requires db.Valid()
    ensures r.Ok? && r.status == 200
    ensures forall a :: a in r.body <==> a in db.absences.Values && a.student_id == studentId
    ensures forall i, j :: 0 <= i < j < |r.body| ==> r.body[i].id != r.body[j].id
  {
    var rows: seq<Absence> := [];
    var pending := db.absences.Keys;
    while pending != {}
      invariant pending <= db.absences.Keys
      invariant forall a :: a in rows ==> a in db.absences.Values && a.student_id == studentId
      invariant forall k :: k in db.absences && k !in pending && db.absences[k].student_id == studentId ==>
                  db.absences[k] in rows
      invariant forall i :: 0 <= i < |rows| ==> rows[i].id !in pending
      invariant forall i, j :: 0 <= i < j < |rows| ==> rows[i].id != rows[j].id
      decreases pending
    {
      var k :| k in pending;
      if db.absences[k].student_id == studentId {
        rows := rows + [db.absences[k]];
      }
      pending := pending - {k};
    }
    r := Ok(200, rows);
  }

  method CreateAbsence(db: Database, id: string, p: AbsencePayload, storageFails: bool) returns (r: Response<Absence>)
    requires db.Valid()
    modifies db
    ensures db.Valid()
    ensures db.students == old(db.students) && db.users == old(db.users) && db.courses == old(db.courses)
    ensures !HasRequiredFields(id, p) ==> r == BadRequest("Missing required fields")
    ensures HasRequiredFields(id, p) && id in old(db.absences) ==> r == Conflict("Absence with this ID already exists")
    ensures HasRequiredFields(id, p) && id !in old(db.absences) && storageFails ==> r == Failure(InternalError)
    ensures r.Ok? <==> HasRequiredFields(id, p) && id !in old(db.absences) && !storageFails
    ensures r.Ok? ==> r == Ok(201, Echo(id, p)) && db.absences == old(db.absences)[id := StoredRow(id, p)]
    ensures !r.Ok? ==> db.absences == old(db.absences)
  {
    if !HasRequiredFields(id, p) {
      return BadRequest("Missing required fields");
    }
    if id in db.absences {
      return Conflict("Absence with this ID already exists");
    }
    if storageFails {
      return Failure(InternalError);
    }
    db.absences := db.absences[id := StoredRow(id, p)];
    r := Ok(201, Echo(id, p));
  }

  /** Full replacement of the eight non-key columns, with no check on their values. */
  method UpdateAbsence(db: Database, id: string, p: AbsencePayload, storageFails: bool) returns (r: Response<Absence>)
    requires db.Valid()
    modifies db
    ensures db.Valid()
    ensures db.students == old(db.students) && db.users == old(db.users) && db.courses == old(db.courses)
    ensures id !in old(db.absences) ==> r == NotFound("Absence not found")
    ensures id in old(db.absences) && storageFails ==> r == Failure(InternalError)
    ensures r.Ok? <==> id in old(db.absences) && !storageFails
    ensures r.Ok? ==> r == Ok(200, Echo(id, p)) && db.absences == old(db.absences)[id := StoredRow(id, p)]
    ensures !r.Ok? ==> db.absences == old(db.absences)
  {
    if id !in db.absences {
      return NotFound("Absence not found");
    }
    if storageFails {
      return Failure(InternalError);
    }
    db.absences := db.absences[id := StoredRow(id, p)];
    r := Ok(200, Echo(id, p));
  }

  method DeleteAbsence(db: Database, id: string, storageFails: bool) returns (r: Response<string>)
    requires db.Valid()
    modifies db
    ensures db.Valid()
    ensures db.students == old(db.students) && db.users == old(db.users) && db.courses == old(db.courses)
    ensures id !in old(db.absences) ==> r == NotFound("Absence not found")
    ensures id in old(db.absences) && storageFails ==> r == Failure(InternalError)
    ensures r.Ok? <==> id in old(db.absences) && !storageFails
    ensures r.Ok? ==> r == Ok(200, "Absence deleted successfully") && db.absences == old(db.absences) - {id}
    ensures !r.Ok? ==> db.absences == old(db.absences)
  {
    if id !in db.absences {
      return NotFound("Absence not found");
    }
    if storageFails {
      return Failure(InternalError);
    }
    db.absences := db.absences - {id};
    r := Ok(200, "Absence deleted successfully");
  }

  /** A deleted absence is gone: reading it back answers 404. */
  method DeleteThenGetAbsence(db: Database, id: string) returns (deleted: Response<string>, fetched: Response<Absence>)
    requires db.Valid()
    modifies db
    ensures deleted.Ok? <==> id in old(db.absences)
    ensures fetched == NotFound("Absence not found")
  {
    deleted := DeleteAbsence(db, id, false);
    fetched := GetAbsenceById(db, id);
  }
}
