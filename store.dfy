/** The entities the attainment engine reads, and the queries it issues against them.
    Each query is the order-preserving selection a `filter(...)` or `get(...)` over one
    table yields; the tables are held in row order. */
module Store {
  import opened Common

  type Id = string

  /** One entry of an assessment's `questions` JSON list: `{q, maxMarks, coIds}`. */
  datatype Question = Question(q: string, maxMarks: int, coIds: seq<Id>)

  /** One entry of a mark's `scores` JSON list: `{q, marks}`. */
  datatype Score = Score(q: string, marks: int)

  datatype Assessment = Assessment(id: Id, section: Id, questions: seq<Question>)

  /** The marks one student obtained in one assessment. */
  datatype Mark = Mark(student: Id, assessment: Id, scores: seq<Score>)

  datatype Course = Course(id: Id, program: Id)

  /** A student's enrollment in a course; the section is nullable. */
  datatype Enrollment = Enrollment(course: Id, student: Id, section: Option<Id>)

  /** A CO-PO mapping row: `co` of `course` contributes to `po` at `level`. */
  datatype CoPoMapping = CoPoMapping(course: Id, co: Id, po: Id, level: int)

  /** The tables. `sectionCourse` is the relation from a section to the course it
      teaches, which the assessment queries traverse as `section__course`. */
  datatype Store = Store(
    programs: set<Id>,
    courses: seq<Course>,
    students: set<Id>,
    sectionCourse: map<Id, Id>,
    enrollments: seq<Enrollment>,
    assessments: seq<Assessment>,
    marks: seq<Mark>,
    mappings: seq<CoPoMapping>)

  /** The outcome of a `get(...)` over a table: no row, exactly one row, or several. */
  datatype Lookup<T> = Missing | Unique(row: T) | Multiple

  /** `Course.objects.get(id=courseId)`, as an optional row. */
  function FindCourse(store: Store, courseId: Id): (r: Option<Course>)
    ensures r.None? <==> forall c :: c in store.courses ==> c.id != courseId
    ensures r.Some? ==> r.value in store.courses && r.value.id == courseId
  {
    var hits := Filter(store.courses, (c: Course) => c.id == courseId);
    if |hits| == 0 then None
    else
      assert hits[0] in hits;
      Some(hits[0])
  }

  /** The primary key of the course table. */
  predicate CourseIdsUnique(store: Store)
  {
    forall i, j :: 0 <= i < j < |store.courses| ==> store.courses[i].id != store.courses[j].id
  }

  /** With unique course ids, the course found is the one course carrying the id. */
  lemma FindCourseUnique(store: Store, courseId: Id, c: Course)
    requires CourseIdsUnique(store)
    requires c in store.courses && c.id == courseId
    ensures FindCourse(store, courseId) == Some(c)
  {
    var p := (x: Course) => x.id == courseId;
    FilterAtMostOne(store.courses, p);
    var hits := Filter(store.courses, p);
    assert c in hits;
    assert hits[0] in hits;
  }

  /** `Course.objects.filter(program=program)`. */
  function CoursesOf(store: Store, programId: Id): (r: seq<Course>)
    ensures forall c :: c in r <==> c in store.courses && c.program == programId
  {
    Filter(store.courses, (c: Course) => c.program == programId)
  }

  /** True when the assessment belongs to a section of `courseId`. */
  predicate InCourse(store: Store, a: Assessment, courseId: Id)
  {
    a.section in store.sectionCourse && store.sectionCourse[a.section] == courseId
  }

  /** `Assessment.objects.filter(section__course=course)`. */
  function CourseAssessments(store: Store, courseId: Id): (r: seq<Assessment>)
    ensures forall a :: a in r <==> a in store.assessments && InCourse(store, a, courseId)
  {
    Filter(store.assessments, (a: Assessment) => InCourse(store, a, courseId))
  }

  /** The names a query may traverse from a section: its own fields and the reverse
      relations other tables declare onto it (students, enrollments, assessments). */
  const SectionLookups: set<string> := {"id", "name", "program", "batch", "students", "enrollment", "assessments"}

  /** `Assessment.objects.filter(section__course=course)` as written: the query is refused
      with a field error (`None`) unless `course` is something a section can traverse. */
  function CourseAssessmentsAsWritten(store: Store, courseId: Id): Option<seq<Assessment>>
  {
    if "course" in SectionLookups then Some(CourseAssessments(store, courseId)) else None
  }

  /** A section has no `course` to traverse, so the query as written fails for every course
      of every store. */
  lemma SectionCourseLookupFails(store: Store, courseId: Id)
    ensures CourseAssessmentsAsWritten(store, courseId) == None
  {
    assert "course" !in SectionLookups by {
      assert |"course"| == 6;
      assert "course"[0] == 'c';
    }
  }

  /** `Assessment.objects.filter(section__course=course, section=section)`; a null
      section matches no assessment, whose section is never null. */
  function SectionAssessments(store: Store, courseId: Id, section: Option<Id>): (r: seq<Assessment>)
    ensures forall a :: a in r <==> a in store.assessments && InCourse(store, a, courseId) && section == Some(a.section)
  {
    Filter(store.assessments, (a: Assessment) => InCourse(store, a, courseId) && section == Some(a.section))
  }

  /** `Mark.objects.filter(assessment=assessment)`. */
  function MarksOf(store: Store, assessmentId: Id): (r: seq<Mark>)
    ensures forall m :: m in r <==> m in store.marks && m.assessment == assessmentId
  {
    Filter(store.marks, (m: Mark) => m.assessment == assessmentId)
  }

  predicate IsMarkOf(m: Mark, assessmentId: Id, studentId: Id)
  {
    m.assessment == assessmentId && m.student == studentId
  }

  /** `Mark.objects.get(assessment=assessment, student=student)`. */
  function GetMark(store: Store, assessmentId: Id, studentId: Id): (r: Lookup<Mark>)
    ensures r.Missing? <==> forall m :: m in store.marks ==> !IsMarkOf(m, assessmentId, studentId)
    ensures r.Unique? ==> r.row in store.marks && IsMarkOf(r.row, assessmentId, studentId)
    ensures r.Unique? ==> forall m :: m in store.marks && IsMarkOf(m, assessmentId, studentId) ==> m == r.row
    ensures r.Multiple? <==> exists i, j :: 0 <= i < j < |store.marks| &&
                                IsMarkOf(store.marks[i], assessmentId, studentId) && IsMarkOf(store.marks[j], assessmentId, studentId)
  {
    var hits := Filter(store.marks, (m: Mark) => IsMarkOf(m, assessmentId, studentId));
    FilterAtLeastTwo(store.marks, (m: Mark) => IsMarkOf(m, assessmentId, studentId));
    if |hits| == 0 then Missing
    else if |hits| == 1 then
      assert hits[0] in hits;
      Unique(hits[0])
    else
      assert hits[0] in hits;
      Multiple
  }

  /** `student.enrollment_set.all()`. */
  function EnrollmentsOf(store: Store, studentId: Id): (r: seq<Enrollment>)
    ensures forall e :: e in r <==> e in store.enrollments && e.student == studentId
  {
    Filter(store.enrollments, (e: Enrollment) => e.student == studentId)
  }

  /** `CoPoMapping.objects.filter(course=course)`. */
  function MappingsOf(store: Store, courseId: Id): (r: seq<CoPoMapping>)
    ensures forall m :: m in r <==> m in store.mappings && m.course == courseId
  {
    Filter(store.mappings, (m: CoPoMapping) => m.course == courseId)
  }

  /** The `unique_together = ('student', 'assessment')` constraint on marks. */
  predicate MarksUnique(store: Store)
  {
    forall i, j :: 0 <= i < j < |store.marks| ==>
      store.marks[i].student != store.marks[j].student || store.marks[i].assessment != store.marks[j].assessment
  }

  /** Under the database's uniqueness constraint the single-mark `get` never finds two rows. */
  lemma UniqueMarksGetMark(store: Store, assessmentId: Id, studentId: Id)
    requires MarksUnique(store)
    ensures !GetMark(store, assessmentId, studentId).Multiple?
  {
    FilterAtMostOne(store.marks, (m: Mark) => IsMarkOf(m, assessmentId, studentId));
  }
}
