/**
 * The teacher dashboard's state (the students, courses and absences it loaded) and the
 * statistics it computes from it with counting loops.
 */
module TeacherDashboard {
  import opened Wrappers
  import opened Seqs
  import opened Records
  import opened AbsenceTypes
  import opened Metrics

  function OfStudent(id: string): Absence -> bool
  {
    (a: Absence) => a.student_id == id
  }

  function OfStudentWithType(id: string, t: int): Absence -> bool
  {
    (a: Absence) => a.student_id == id && a.kind == t
  }

  function InCourse(id: string): Absence -> bool
  {
    (a: Absence) => a.course_id == id
  }

  function InCourseWithType(id: string, t: int): Absence -> bool
  {
    (a: Absence) => a.course_id == id && a.kind == t
  }

  /** A course's three buckets, counted directly on the whole list. */
  function CourseCounts(s: seq<Absence>, id: string): TypeCounts
  {
    TypeCounts(Count(s, InCourseWithType(id, Tardiness)), Count(s, InCourseWithType(id, Justified)),
               Count(s, InCourseWithType(id, Unjustified)))
  }

  function AbsenceHasId(id: string): Absence -> bool
  {
    (a: Absence) => a.id == id
  }

  function AbsenceLacksId(id: string): Absence -> bool
  {
    (a: Absence) => a.id != id
  }

  /** `countStudentAbsences`: how many absences name the student. */
  function StudentAbsenceCount(all: seq<Absence>, id: string): (n: nat)
    ensures n == |Filter(all, OfStudent(id))|
  {
    CountIsFilterLength(all, OfStudent(id));
    Count(all, OfStudent(id))
  }

  /** The per-student summary: its total, its three buckets and their percentages of the total. */
  datatype StudentSummary = StudentSummary(
    total: nat, counts: TypeCounts,
    tardinessPercentage: nat, justifiedPercentage: nat, unjustifiedPercentage: nat)

  /** A course's row of the per-course table. */
  datatype CourseSummary = CourseSummary(name: string, total: nat, counts: TypeCounts)

  datatype GeneralStats = GeneralStats(
    totalAbsences: nat, totalStudents: nat, studentWithMostAbsences: Option<Student>, maxAbsences: nat)

  /** The ids of the known courses. */
  function CourseIds(cs: seq<Course>): set<string>
  {
    set j | 0 <= j < |cs| :: cs[j].id
  }

  /** The name the per-course table shows: that of the last course listed with the id. */
  function LastCourseName(cs: seq<Course>, id: string): string
    decreases |cs|
  {
    if cs == [] then ""
    else if cs[|cs| - 1].id == id then cs[|cs| - 1].name
    else LastCourseName(cs[..|cs| - 1], id)
  }

  /** The name shown for a known course is that of its last listing; later entries have other ids. */
  lemma {:induction false} LastCourseNameIsLast(cs: seq<Course>, id: string)
    requires id in CourseIds(cs)
    ensures exists j :: 0 <= j < |cs| && cs[j].id == id && cs[j].name == LastCourseName(cs, id) &&
                        forall k :: j < k < |cs| ==> cs[k].id != id
    decreases |cs|
  {
    var n := |cs| - 1;
    if cs[n].id != id {
      var prefix := cs[..n];
      var j :| 0 <= j < |cs| && cs[j].id == id;
      assert j < n && prefix[j].id == id;
      LastCourseNameIsLast(prefix, id);
      var i :| 0 <= i < n && prefix[i].id == id && prefix[i].name == LastCourseName(prefix, id) &&
               forall k :: i < k < n ==> prefix[k].id != id;
      assert cs[i] == prefix[i];
    }
  }

  /** The counts of one course, one absence at a time. */
  lemma CourseTallySnoc(s: seq<Absence>, a: Absence, id: string)
    ensures Count(s + [a], InCourse(id)) == Count(s, InCourse(id)) + (if a.course_id == id then 1 else 0)
    ensures CourseCounts(s + [a], id) ==
              if a.course_id == id then Bump(CourseCounts(s, id), a.kind) else CourseCounts(s, id)
  {
    CountSnoc(s, a, InCourse(id));
    CountSnoc(s, a, InCourseWithType(id, Tardiness));
    CountSnoc(s, a, InCourseWithType(id, Justified));
    CountSnoc(s, a, InCourseWithType(id, Unjustified));
  }

  /** The buckets of a course are those of its absences filtered out of the whole list. */
  lemma CourseCountsFiltered(all: seq<Absence>, id: string)
    ensures CourseCounts(all, id) == CountsOf(Filter(all, InCourse(id)))
  {
    CountFiltered(all, InCourse(id), HasType(Tardiness), InCourseWithType(id, Tardiness));
    CountFiltered(all, InCourse(id), HasType(Justified), InCourseWithType(id, Justified));
    CountFiltered(all, InCourse(id), HasType(Unjustified), InCourseWithType(id, Unjustified));
  }

  /** A course's buckets cover at most its total; the other types are counted in the total only. */
  lemma CourseSummaryBound(all: seq<Absence>, id: string)
    ensures var c := CourseCounts(all, id);
            c.tardiness + c.justified + c.unjustified <= Count(all, InCourse(id))
  {
    CourseCountsFiltered(all, id);
    CountsBound(Filter(all, InCourse(id)));
    CountIsFilterLength(all, InCourse(id));
  }

  /** The student's buckets are the counts of that student's absences of each type. */
  lemma StudentCounts(all: seq<Absence>, id: string)
    ensures CountsOf(Filter(all, OfStudent(id))) ==
              TypeCounts(Count(all, OfStudentWithType(id, Tardiness)), Count(all, OfStudentWithType(id, Justified)),
                         Count(all, OfStudentWithType(id, Unjustified)))
  {
    CountFiltered(all, OfStudent(id), HasType(Tardiness), OfStudentWithType(id, Tardiness));
    CountFiltered(all, OfStudent(id), HasType(Justified), OfStudentWithType(id, Justified));
    CountFiltered(all, OfStudent(id), HasType(Unjustified), OfStudentWithType(id, Unjustified));
  }

  /** The per-course table after its first loop: every known course, named, with nothing counted. */
  ghost predicate EmptySummary(summary: map<string, CourseSummary>, cs: seq<Course>)
  {
    summary.Keys == CourseIds(cs) &&
    forall id :: id in summary ==> summary[id] == CourseSummary(LastCourseName(cs, id), 0, TypeCounts(0, 0, 0))
  }

  /** The per-course table once the absences of `s` have been counted. */
  ghost predicate Tallied(summary: map<string, CourseSummary>, cs: seq<Course>, s: seq<Absence>)
  {
    forall id :: id in summary ==>
      summary[id].name == LastCourseName(cs, id) &&
      summary[id].total == Count(s, InCourse(id)) &&
      summary[id].counts == CourseCounts(s, id)
  }

  lemma EmptySummaryStep(summary: map<string, CourseSummary>, cs: seq<Course>, c: Course)
    requires EmptySummary(summary, cs)
    ensures EmptySummary(summary[c.id := CourseSummary(c.name, 0, TypeCounts(0, 0, 0))], cs + [c])
  {
    var t := cs + [c];
    assert t[..|cs|] == cs;
    assert CourseIds(t) == CourseIds(cs) + {c.id} by {
      assert t[|cs|] == c;
      forall id | id in CourseIds(cs) ensures id in CourseIds(t) {
        var j :| 0 <= j < |cs| && cs[j].id == id;
        assert t[j].id == id;
      }
    }
  }

  lemma EmptyIsTallied(summary: map<string, CourseSummary>, cs: seq<Course>)
    requires EmptySummary(summary, cs)
    ensures Tallied(summary, cs, [])
  {
  }

  /** Counting one more absence `a` (so `t` is `s + [a]`) of a known course, whose row is `entry`. */
  lemma TalliedHit(summary: map<string, CourseSummary>, cs: seq<Course>, s: seq<Absence>, a: Absence, t: seq<Absence>,
                   entry: CourseSummary)
    requires Tallied(summary, cs, s) && t == s + [a]
    requires a.course_id in summary && entry == summary[a.course_id]
    ensures Tallied(summary[a.course_id := CourseSummary(entry.name, entry.total + 1, Bump(entry.counts, a.kind))], cs, t)
    ensures summary[a.course_id := CourseSummary(entry.name, entry.total + 1, Bump(entry.counts, a.kind))].Keys == summary.Keys
  {
    forall id | id in summary
      ensures Count(t, InCourse(id)) == Count(s, InCourse(id)) + (if a.course_id == id then 1 else 0)
      ensures CourseCounts(t, id) ==
                if a.course_id == id then Bump(CourseCounts(s, id), a.kind) else CourseCounts(s, id)
    {
      CourseTallySnoc(s, a, id);
    }
  }

  /** An absence of an unknown course (so `t` is `s + [a]`) changes no row. */
  lemma TalliedMiss(summary: map<string, CourseSummary>, cs: seq<Course>, s: seq<Absence>, a: Absence, t: seq<Absence>)
    requires Tallied(summary, cs, s) && t == s + [a]
    requires a.course_id !in summary
    ensures Tallied(summary, cs, t)
  {
    forall id | id in summary
      ensures Count(t, InCourse(id)) == Count(s, InCourse(id))
      ensures CourseCounts(t, id) == CourseCounts(s, id)
    {
      CourseTallySnoc(s, a, id);
    }
  }

  /** One pass of the second loop: the absence's course, when known, counts it once more. */
  function Record(summary: map<string, CourseSummary>, a: Absence): map<string, CourseSummary>
  {
    if a.course_id in summary then
      var entry := summary[a.course_id];
      summary[a.course_id := CourseSummary(entry.name, entry.total + 1, Bump(entry.counts, a.kind))]
    else summary
  }

  lemma TalliedRecord(summary: map<string, CourseSummary>, cs: seq<Course>, s: seq<Absence>, a: Absence, t: seq<Absence>)
    requires Tallied(summary, cs, s) && t == s + [a]
    ensures Record(summary, a).Keys == summary.Keys
    ensures Tallied(Record(summary, a), cs, t)
  {
    if a.course_id in summary {
      TalliedHit(summary, cs, s, a, t, summary[a.course_id]);
    } else {
      TalliedMiss(summary, cs, s, a, t);
    }
  }

  /** The table after the second loop has recorded every absence of `s`, in order. */
  function TallyAll(summary: map<string, CourseSummary>, s: seq<Absence>): map<string, CourseSummary>
    decreases |s|
  {
    if s == [] then summary else Record(TallyAll(summary, s[..|s| - 1]), s[|s| - 1])
  }

  lemma {:induction false} TallyAllTallied(empty: map<string, CourseSummary>, cs: seq<Course>, s: seq<Absence>)
    requires Tallied(empty, cs, [])
    ensures TallyAll(empty, s).Keys == empty.Keys
    ensures Tallied(TallyAll(empty, s), cs, s)
    decreases |s|
  {
    if s != [] {
      var prefix := s[..|s| - 1];
      var a := s[|s| - 1];
      assert s == prefix + [a];
      TallyAllTallied(empty, cs, prefix);
      TalliedRecord(TallyAll(empty, prefix), cs, prefix, a, s);
    }
  }

  class Dashboard {
    var allStudents: seq<Student>
    var allCourses: seq<Course>
    var allAbsences: seq<Absence>

    /** The state after a load: whatever the three requests returned (a failed one gives an empty list). */
    constructor (students: seq<Student>, courses: seq<Course>, absences: seq<Absence>)
      ensures allStudents == students && allCourses == courses && allAbsences == absences
    {
      allStudents := students;
      allCourses := courses;
      allAbsences := absences;
    }

    /** The counting loop shared by `calculateAbsenceStats` and `getStudentAbsenceSummary`. */
    static method TallyTypes(s: seq<Absence>) returns (stats: TypeCounts)
      ensures stats == CountsOf(s)
    {
      stats := TypeCounts(0, 0, 0);
      var i := 0;
      while i < |s|
        invariant 0 <= i <= |s|
        invariant stats == CountsOf(s[..i])
      {
        assert s[..i + 1] == s[..i] + [s[i]];
        CountsOfSnoc(s[..i], s[i]);
        stats := Bump(stats, s[i].kind);
        i := i + 1;
      }
      assert s[..i] == s;
    }

    /** `calculateAbsenceStats`: how many loaded absences have type 1, 2 and 3. */
    method CalculateAbsenceStats() returns (stats: TypeCounts)
      ensures stats.tardiness == Count(allAbsences, HasType(Tardiness))
      ensures stats.justified == Count(allAbsences, HasType(Justified))
      ensures stats.unjustified == Count(allAbsences, HasType(Unjustified))
      ensures stats.tardiness + stats.justified + stats.unjustified <= |allAbsences|
    {
      stats := TallyTypes(allAbsences);
      CountsBound(allAbsences);
    }

    /** `getStudentAbsenceSummary`. */
    method GetStudentAbsenceSummary(studentId: string) returns (summary: StudentSummary)
      ensures summary.total == Count(allAbsences, OfStudent(studentId))
      ensures summary.counts.tardiness == Count(allAbsences, OfStudentWithType(studentId, Tardiness))
      ensures summary.counts.justified == Count(allAbsences, OfStudentWithType(studentId, Justified))
      ensures summary.counts.unjustified == Count(allAbsences, OfStudentWithType(studentId, Unjustified))
      ensures summary.tardinessPercentage == CalculatePercentage(summary.counts.tardiness, summary.total)
      ensures summary.justifiedPercentage == CalculatePercentage(summary.counts.justified, summary.total)
      ensures summary.unjustifiedPercentage == CalculatePercentage(summary.counts.unjustified, summary.total)
      ensures summary.tardinessPercentage <= 100 && summary.justifiedPercentage <= 100
      ensures summary.unjustifiedPercentage <= 100
    {
      var studentAbsences := Filter(allAbsences, OfStudent(studentId));
      var total := |studentAbsences|;
      CountIsFilterLength(allAbsences, OfStudent(studentId));
      var counts := TallyTypes(studentAbsences);
      StudentCounts(allAbsences, studentId);
      CountsBound(studentAbsences);
      PercentageRange(counts.tardiness, total);
      PercentageRange(counts.justified, total);
      PercentageRange(counts.unjustified, total);
      summary := StudentSummary(total, counts,
        CalculatePercentage(counts.tardiness, total),
        CalculatePercentage(counts.justified, total),
        CalculatePercentage(counts.unjustified, total));
    }

    /** The first loop of `getAbsenceSummaryByCourse`: an empty row per course, the last name listed winning. */
    static method EmptyCourseSummaries(courses: seq<Course>) returns (summary: map<string, CourseSummary>)
      ensures EmptySummary(summary, courses)
    {
      summary := map[];
      var i := 0;
      while i < |courses|
        invariant 0 <= i <= |courses|
        invariant EmptySummary(summary, courses[..i])
      {
        var course := courses[i];
        assert courses[..i + 1] == courses[..i] + [course];
        EmptySummaryStep(summary, courses[..i], course);
        summary := summary[course.id := CourseSummary(course.name, 0, TypeCounts(0, 0, 0))];
        i := i + 1;
      }
      assert courses[..i] == courses;
    }

    /** The second loop of `getAbsenceSummaryByCourse`: each absence of a known course is counted in its row. */
    static method TallyCourseAbsences(empty: map<string, CourseSummary>, absences: seq<Absence>)
      returns (summary: map<string, CourseSummary>)
      ensures summary == TallyAll(empty, absences)
    {
      summary := empty;
      var n := 0;
      while n < |absences|
        invariant 0 <= n <= |absences|
        invariant summary == TallyAll(empty, absences[..n])
      {
        var absence := absences[n];
        assert absences[..n + 1][..n] == absences[..n];
        if absence.course_id in summary {
          var entry := summary[absence.course_id];
          summary := summary[absence.course_id := CourseSummary(entry.name, entry.total + 1, Bump(entry.counts, absence.kind))];
        }
        n := n + 1;
      }
      assert absences[..n] == absences;
    }

    /**
     * `getAbsenceSummaryByCourse`: one entry per known course id; absences naming an unknown
     * course are dropped.
     */
    method GetAbsenceSummaryByCourse() returns (summary: map<string, CourseSummary>)
      ensures summary.Keys == CourseIds(allCourses)
      ensures forall id :: id in summary ==>
                summary[id].name == LastCourseName(allCourses, id) &&
                summary[id].total == Count(allAbsences, InCourse(id)) &&
                summary[id].counts == CourseCounts(allAbsences, id)
    {
      var empty := EmptyCourseSummaries(allCourses);
      EmptyIsTallied(empty, allCourses);
      summary := TallyCourseAbsences(empty, allAbsences);
      TallyAllTallied(empty, allCourses, allAbsences);
    }

    /**
     * The student part of `calculateGeneralAbsenceStats`: the first student in list order with
     * the largest number of absences, or none when nobody has one.
     */
    method CalculateGeneralAbsenceStats() returns (stats: GeneralStats)
      ensures stats.totalAbsences == |allAbsences| && stats.totalStudents == |allStudents|
      ensures forall j :: 0 <= j < |allStudents| ==> StudentAbsenceCount(allAbsences, allStudents[j].id) <= stats.maxAbsences
      ensures stats.studentWithMostAbsences.None? <==> stats.maxAbsences == 0
      ensures stats.studentWithMostAbsences.Some? ==>
                exists j :: 0 <= j < |allStudents| && allStudents[j] == stats.studentWithMostAbsences.value &&
                            StudentAbsenceCount(allAbsences, allStudents[j].id) == stats.maxAbsences &&
                            forall k :: 0 <= k < j ==> StudentAbsenceCount(allAbsences, allStudents[k].id) < stats.maxAbsences
    {
      var students, absences := allStudents, allAbsences;
      var maxAbsences := 0;
      var most: Option<Student> := None;
      var best := 0;
      var i := 0;
      while i < |students|
        invariant 0 <= i <= |students|
        invariant forall j :: 0 <= j < i ==> StudentAbsenceCount(absences, students[j].id) <= maxAbsences
        invariant most.None? <==> maxAbsences == 0
        invariant most.Some? ==>
                    0 <= best < i && students[best] == most.value &&
                    StudentAbsenceCount(absences, students[best].id) == maxAbsences &&
                    forall k :: 0 <= k < best ==> StudentAbsenceCount(absences, students[k].id) < maxAbsences
      {
        var student := students[i];
        var studentAbsences := Filter(absences, OfStudent(student.id));
        assert |studentAbsences| == StudentAbsenceCount(absences, students[i].id);
        if |studentAbsences| > maxAbsences {
          maxAbsences := |studentAbsences|;
          most := Some(student);
          best := i;
        }
        i := i + 1;
      }
      stats := GeneralStats(|allAbsences|, |allStudents|, most, maxAbsences);
    }

    /** Line 499 of the registration handler: the new absence joins the list at the end. */
    method AddAbsence(a: Absence)
      modifies this
      ensures allAbsences == old(allAbsences) + [a]
      ensures allStudents == old(allStudents) && allCourses == old(allCourses)
    {
      allAbsences := allAbsences + [a];
    }

    /** The end of `saveEditAbsence`: the first absence with the id is replaced, when there is one. */
    method ApplyEdit(id: string, updated: Absence)
      modifies this
      ensures allAbsences == ReplaceFirstWhere(old(allAbsences), AbsenceHasId(id), updated)
      ensures allStudents == old(allStudents) && allCourses == old(allCourses)
    {
      var index := FindIndex(allAbsences, AbsenceHasId(id));
      if index != -1 {
        allAbsences := allAbsences[index := updated];
      }
    }

    /** The end of `deleteAbsenceConfirm`: every absence with the id leaves the list. */
    method RemoveAbsence(id: string)
      modifies this
      ensures allAbsences == Filter(old(allAbsences), AbsenceLacksId(id))
      ensures allStudents == old(allStudents) && allCourses == old(allCourses)
    {
      allAbsences := Filter(allAbsences, AbsenceLacksId(id));
    }
  }

  /** Registering an absence moves exactly one bucket by one, or none for an unknown type. */
  lemma AddAbsenceStats(s: seq<Absence>, a: Absence)
    ensures CountsOf(s + [a]) == Bump(CountsOf(s), a.kind)
    ensures IsKnownType(a.kind) ==> CountsOf(s + [a]) != CountsOf(s)
  {
    CountsOfSnoc(s, a);
  }

  /** An edit leaves the list's length and every other entry as they were. */
  lemma EditTouchesOneEntry(s: seq<Absence>, id: string, updated: Absence, j: nat)
    requires j < |s| && (s[j].id != id || exists k :: 0 <= k < j && s[k].id == id)
    ensures |ReplaceFirstWhere(s, AbsenceHasId(id), updated)| == |s|
    ensures ReplaceFirstWhere(s, AbsenceHasId(id), updated)[j] == s[j]
  {
    var i := FindIndex(s, AbsenceHasId(id));
    if i != -1 {
      assert ReplaceFirstWhere(s, AbsenceHasId(id), updated) == s[i := updated];
    }
  }

  /** After a removal no absence with that id is left and the others keep their order. */
  lemma RemoveAbsenceEffect(s: seq<Absence>, id: string)
    ensures forall j :: 0 <= j < |Filter(s, AbsenceLacksId(id))| ==> Filter(s, AbsenceLacksId(id))[j].id != id
    ensures IsSubsequence(Filter(s, AbsenceLacksId(id)), s)
    ensures Count(s, AbsenceLacksId(id)) == |Filter(s, AbsenceLacksId(id))|
  {
    CountIsFilterLength(s, AbsenceLacksId(id));
  }
}
