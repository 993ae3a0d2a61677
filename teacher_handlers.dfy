/**
 * The three teacher-dashboard handlers that write to the client store and then bring the
 * dashboard's own absence list up to date: registration, the edit dialog and deletion.
 * Each first checks what the store write gave back; the store's writes give back nothing,
 * so each handler is modelled as written and, beside it, with the write taken as done.
 *
 * The dashboard's `allAbsences` is, after a load, the very array the store keeps (the store
 * hands out its own list rather than a copy). The store pushes into that array and assigns
 * into it in place, so those two writes reach the dashboard's list before the handler looks
 * at their result; a store deletion builds a new array and ends the sharing. `shared` says
 * whether the two arrays are still one.
 */
module TeacherHandlers {
  import opened Wrappers
  import opened Seqs
  import opened Records
  import opened Metrics
  import opened TeacherDashboard
  import opened TeacherForms
  import opened Feedback

  function SaveAbsenceFailed(): string
  {
    "Error al guardar la falta en la base de datos"
  }

  function AbsenceRegistered(): string
  {
    "Falta registrada correctamente"
  }

  function EditTargetMissing(): string
  {
    "No se pudo encontrar la falta a actualizar"
  }

  function UpdateAbsenceFailed(): string
  {
    "Error al actualizar la falta en la base de datos"
  }

  function AbsenceUpdated(): string
  {
    "Falta actualizada correctamente"
  }

  function DeleteAbsenceFailed(): string
  {
    "Error al eliminar la falta"
  }

  /**
   * `handleAbsenceSubmit` as written. A form the validator rejects shows its field errors
   * (`None`: no message); otherwise the store saves the record, its falsy result throws and
   * the failure message is shown. The handler's own push is never reached, so the list holds
   * the new record only when it is the store's array.
   */
  method HandleAbsenceSubmit(d: Dashboard, f: AbsenceForm, dateIsFuture: bool, stamp: string, shared: bool)
    returns (shown: Option<Outcome>)
    modifies d
    ensures !ValidateAbsenceForm(f, dateIsFuture) ==> shown == None
    ensures ValidateAbsenceForm(f, dateIsFuture) ==> shown == Some(Failure(SaveAbsenceFailed()))
    ensures ValidateAbsenceForm(f, dateIsFuture) && shared ==>
              d.allAbsences == old(d.allAbsences) + [NewAbsence(f, stamp)] &&
              CountsOf(d.allAbsences) == Bump(CountsOf(old(d.allAbsences)), KindOf(f.kind))
    ensures !ValidateAbsenceForm(f, dateIsFuture) || !shared ==> d.allAbsences == old(d.allAbsences)
    ensures d.allStudents == old(d.allStudents) && d.allCourses == old(d.allCourses)
  {
    if !ValidateAbsenceForm(f, dateIsFuture) {
      return None;
    }
    if shared {
      // the store's push lands in the array the dashboard holds
      var a := NewAbsence(f, stamp);
      AddAbsenceStats(d.allAbsences, a);
      d.AddAbsence(a);
    }
    var result := StoreWriteResult;
    shown := Some(CheckWriteResult(result, SaveAbsenceFailed(), AbsenceRegistered()));
  }

  /**
   * `handleAbsenceSubmit` as intended: the new record joins the list once and exactly the
   * bucket of its type grows by one. (Dropping only the result check would, on a shared
   * list, add the record twice: once by the store and once by the handler's push.)
   */
  method HandleAbsenceSubmitCorrected(d: Dashboard, f: AbsenceForm, dateIsFuture: bool, stamp: string)
    returns (shown: Option<Outcome>)
    modifies d
    ensures !ValidateAbsenceForm(f, dateIsFuture) ==> shown == None && d.allAbsences == old(d.allAbsences)
    ensures ValidateAbsenceForm(f, dateIsFuture) ==>
              shown == Some(Success(AbsenceRegistered())) &&
              d.allAbsences == old(d.allAbsences) + [NewAbsence(f, stamp)] &&
              CountsOf(d.allAbsences) == Bump(CountsOf(old(d.allAbsences)), KindOf(f.kind))
    ensures d.allStudents == old(d.allStudents) && d.allCourses == old(d.allCourses)
  {
    if !ValidateAbsenceForm(f, dateIsFuture) {
      return None;
    }
    var a := NewAbsence(f, stamp);
    AddAbsenceStats(d.allAbsences, a);
    d.AddAbsence(a);
    shown := Some(Success(AbsenceRegistered()));
  }

  /**
   * `saveEditAbsence` as written. `stored` is what the store's `getAbsenceById` gave for the
   * dialog's id. A missing record and the falsy write result both end in a failure message.
   * The handler's own replacement is never reached, so the list holds the edited record only
   * when it is the store's array, which the store updates in place.
   */
  method SaveEditAbsence(d: Dashboard, e: EditForm, stored: Option<Absence>, shared: bool)
    returns (shown: Option<Outcome>)
    modifies d
    ensures !ValidateEditAbsenceForm(e) ==> shown == None
    ensures ValidateEditAbsenceForm(e) && stored.None? ==> shown == Some(Failure(EditTargetMissing()))
    ensures ValidateEditAbsenceForm(e) && stored.Some? ==> shown == Some(Failure(UpdateAbsenceFailed()))
    ensures ValidateEditAbsenceForm(e) && stored.Some? && shared ==>
              d.allAbsences == ReplaceFirstWhere(old(d.allAbsences), AbsenceHasId(e.id), EditedAbsence(stored.value, e))
    ensures !ValidateEditAbsenceForm(e) || stored.None? || !shared ==> d.allAbsences == old(d.allAbsences)
    ensures d.allStudents == old(d.allStudents) && d.allCourses == old(d.allCourses)
  {
    if !ValidateEditAbsenceForm(e) {
      return None;
    }
    if stored.None? {
      return Some(Failure(EditTargetMissing()));
    }
    if shared {
      // the store's in-place assignment lands in the array the dashboard holds
      d.ApplyEdit(e.id, EditedAbsence(stored.value, e));
    }
    var result := StoreWriteResult;
    shown := Some(CheckWriteResult(result, UpdateAbsenceFailed(), AbsenceUpdated()));
  }

  /**
   * `saveEditAbsence` with the write taken as done: the first entry with the id becomes the
   * edited record, whose student, course and date are the stored ones. On a shared list the
   * store and the handler both replace that entry, and the second replacement changes nothing.
   */
  method SaveEditAbsenceCorrected(d: Dashboard, e: EditForm, stored: Option<Absence>, shared: bool)
    returns (shown: Option<Outcome>)
    modifies d
    ensures !ValidateEditAbsenceForm(e) || stored.None? ==> d.allAbsences == old(d.allAbsences)
    ensures !ValidateEditAbsenceForm(e) ==> shown == None
    ensures ValidateEditAbsenceForm(e) && stored.None? ==> shown == Some(Failure(EditTargetMissing()))
    ensures ValidateEditAbsenceForm(e) && stored.Some? ==>
              shown == Some(Success(AbsenceUpdated())) &&
              d.allAbsences == ReplaceFirstWhere(old(d.allAbsences), AbsenceHasId(e.id), EditedAbsence(stored.value, e)) &&
              |d.allAbsences| == |old(d.allAbsences)|
    ensures d.allStudents == old(d.allStudents) && d.allCourses == old(d.allCourses)
  {
    if !ValidateEditAbsenceForm(e) {
      return None;
    }
    if stored.None? {
      return Some(Failure(EditTargetMissing()));
    }
    var edited := EditedAbsence(stored.value, e);
    if shared {
      ReplaceFirstWhereTwice(d.allAbsences, AbsenceHasId(e.id), edited);
      d.ApplyEdit(e.id, edited);
    }
    d.ApplyEdit(e.id, edited);
    shown := Some(Success(AbsenceUpdated()));
  }

  /**
   * `deleteAbsenceConfirm` as written; `confirmed` is the answer to the confirmation dialog.
   * A confirmed deletion reports a failure and leaves the list as it was: the store filters
   * into a new array of its own, so even a shared list is not touched.
   */
  method DeleteAbsenceConfirm(d: Dashboard, id: string, confirmed: bool) returns (shown: Option<Outcome>)
    modifies d
    ensures !confirmed ==> shown == None
    ensures confirmed ==> shown == Some(Failure(DeleteAbsenceFailed()))
    ensures d.allAbsences == old(d.allAbsences)
    ensures d.allStudents == old(d.allStudents) && d.allCourses == old(d.allCourses)
  {
    if !confirmed {
      return None;
    }
    var result := StoreWriteResult;
    shown := Some(CheckWriteResult(result, DeleteAbsenceFailed(), ""));
  }

  /**
   * `deleteAbsenceConfirm` with the write taken as done: no absence with the id is left, the
   * others keep their order, and no message is shown.
   */
  method DeleteAbsenceConfirmCorrected(d: Dashboard, id: string, confirmed: bool) returns (shown: Option<Outcome>)
    modifies d
    ensures shown == None
    ensures !confirmed ==> d.allAbsences == old(d.allAbsences)
    ensures confirmed ==>
              d.allAbsences == Filter(old(d.allAbsences), AbsenceLacksId(id)) &&
              (forall j :: 0 <= j < |d.allAbsences| ==> d.allAbsences[j].id != id) &&
              IsSubsequence(d.allAbsences, old(d.allAbsences))
    ensures d.allStudents == old(d.allStudents) && d.allCourses == old(d.allCourses)
  {
    if !confirmed {
      return None;
    }
    RemoveAbsenceEffect(d.allAbsences, id);
    d.RemoveAbsence(id);
    shown := None;
  }
}
