/** The three attainment views. Each looks up its top-level entity (answering "not
    found" when it is absent), then runs the accumulation loops over the entities in
    scope, and each loop is proved to compute the specification in `Scoping` and
    `RollUp`. */
module AttainmentViews {
  import opened Common
  import opened Store
  import opened CoAggregation
  import opened Scoping
  import opened RollUp

  /** A view's answer: the report, the 404 body `{"error": ...}`, or a request that fails
      with an exception the view does not catch. */
  datatype Response<T> = Ok(body: T) | NotFound(error: string) | Fault

  datatype ProgramReport = ProgramReport(program: Id, poAttainment: map<Id, Bucket>)

  datatype CourseReport = CourseReport(course: Course, coAttainment: map<Id, real>)

  datatype StudentReport = StudentReport(student: Id, coAttainment: map<Id, real>)

  // ---------------------------------------------------------------------------
  // One loop iteration, stated over the specification functions

  lemma MarksPairsStep(before: seq<Entry>, questions: seq<Question>, marks: seq<Mark>, j: nat)
    requires j < |marks|
    ensures before + FanOut(MarksPairs(questions, marks[..j + 1])) ==
            before + FanOut(MarksPairs(questions, marks[..j])) + FanOut(MatchedPairs(questions, marks[j].scores))
  {
    MarksPairsSnoc(questions, marks, j);
    FanOutAppend(MarksPairs(questions, marks[..j]), MatchedPairs(questions, marks[j].scores));
  }

  lemma AssessmentsPairsStep(store: Store, assessments: seq<Assessment>, i: nat)
    requires i < |assessments|
    ensures FanOut(AssessmentsPairs(store, assessments[..i + 1])) ==
            FanOut(AssessmentsPairs(store, assessments[..i])) +
            FanOut(MarksPairs(assessments[i].questions, MarksOf(store, assessments[i].id)))
  {
    AssessmentsPairsSnoc(store, assessments, i);
    FanOutAppend(AssessmentsPairs(store, assessments[..i]),
                 MarksPairs(assessments[i].questions, MarksOf(store, assessments[i].id)));
  }

  lemma MappingRowsStep(before: seq<Row>, mappings: seq<CoPoMapping>, att: map<Id, real>, j: nat)
    requires j < |mappings|
    ensures before + MappingRows(mappings[..j + 1], att) ==
            (before + MappingRows(mappings[..j], att)) + [MappingRow(mappings[j], att)]
  {
    MappingRowsSnoc(mappings, att, j);
  }

  lemma StudentAssessmentsStep(before: seq<Entry>, store: Store, studentId: Id, assessments: seq<Assessment>, j: nat)
    requires j < |assessments|
    requires StudentAssessmentsPairs(store, studentId, assessments[..j]).Some?
    requires StudentMarkPairs(store, studentId, assessments[j]).Some?
    ensures StudentAssessmentsPairs(store, studentId, assessments[..j + 1]).Some?
    ensures before + FanOut(StudentAssessmentsPairs(store, studentId, assessments[..j + 1]).value) ==
            before + FanOut(StudentAssessmentsPairs(store, studentId, assessments[..j]).value) +
            FanOut(StudentMarkPairs(store, studentId, assessments[j]).value)
  {
    var x := StudentAssessmentsPairs(store, studentId, assessments[..j]).value;
    var y := StudentMarkPairs(store, studentId, assessments[j]).value;
    StudentAssessmentsPairsSnoc(store, studentId, assessments, j);
    assert StudentAssessmentsPairs(store, studentId, assessments[..j + 1]) == Some(x + y);
    FanOutAppend(x, y);
    assert before + (FanOut(x) + FanOut(y)) == before + FanOut(x) + FanOut(y);
  }

  lemma StudentEnrollmentsStep(store: Store, studentId: Id, enrollments: seq<Enrollment>, i: nat)
    requires i < |enrollments|
    requires StudentEnrollmentsPairs(store, studentId, enrollments[..i]).Some?
    requires StudentAssessmentsPairs(store, studentId, EnrollmentAssessments(store, enrollments[i])).Some?
    ensures StudentEnrollmentsPairs(store, studentId, enrollments[..i + 1]).Some?
    ensures FanOut(StudentEnrollmentsPairs(store, studentId, enrollments[..i + 1]).value) ==
            FanOut(StudentEnrollmentsPairs(store, studentId, enrollments[..i]).value) +
            FanOut(StudentAssessmentsPairs(store, studentId, EnrollmentAssessments(store, enrollments[i])).value)
  {
    StudentEnrollmentsPairsSnoc(store, studentId, enrollments, i);
    FanOutAppend(StudentEnrollmentsPairs(store, studentId, enrollments[..i]).value,
                 StudentAssessmentsPairs(store, studentId, EnrollmentAssessments(store, enrollments[i])).value);
  }

  /** One more row, as the view performs it: its PO's bucket, or a fresh empty one, gains the entry. */
  lemma GroupAppend(rows: seq<Row>, x: Row)
    ensures var g := Group(rows);
            var bucket := if x.po in g then g[x.po] else Bucket(x.po, []);
            Group(rows + [x]) == g[x.po := bucket.(coAttainments := bucket.coAttainments + [x.entry])]
  {
    GroupSnoc(rows, x);
  }

  /** What `Finalize` builds from the accumulator of `entries` is their attainment map. */
  lemma FinalizedAttainment(entries: seq<Entry>, r: map<Id, real>)
    requires r.Keys == AccOf(entries).Keys
    requires forall co :: co in AccOf(entries) ==> r[co] == Percentage(AccOf(entries)[co])
    ensures r == Attainment(entries)
  {
  }

  // ---------------------------------------------------------------------------
  // The views

  /** The inner loop of `calculate_co_attainment`: every mark of one assessment adds its scores. */
  method AddMarks(acc: map<Id, Acc>, questions: seq<Question>, marks: seq<Mark>, ghost before: seq<Entry>)
    returns (r: map<Id, Acc>)
    requires acc == AccOf(before)
    ensures r == AccOf(before + FanOut(MarksPairs(questions, marks)))
  {
    r := acc;
    assert marks[..0] == [];
    assert before + FanOut([]) == before;
    var j := 0;
    while j < |marks|
      invariant 0 <= j <= |marks|
      invariant r == AccOf(before + FanOut(MarksPairs(questions, marks[..j])))
    {
      MarksPairsStep(before, questions, marks, j);
      r := AddScores(r, questions, marks[j].scores, before + FanOut(MarksPairs(questions, marks[..j])));
      j := j + 1;
    }
    assert marks[..|marks|] == marks;
  }

  /** `calculate_co_attainment`: the CO attainment map of one course, over every mark of
      every assessment of the course's sections. */
  method CalculateCoAttainment(store: Store, courseId: Id) returns (r: map<Id, real>)
    ensures r == CourseCoAttainment(store, courseId)
  {
    var acc: map<Id, Acc> := map[];
    var assessments := CourseAssessments(store, courseId);
    assert assessments[..0] == [];
    var i := 0;
    while i < |assessments|
      invariant 0 <= i <= |assessments|
      invariant acc == AccOf(FanOut(AssessmentsPairs(store, assessments[..i])))
    {
      var assessment := assessments[i];
      AssessmentsPairsStep(store, assessments, i);
      acc := AddMarks(acc, assessment.questions, MarksOf(store, assessment.id),
                      FanOut(AssessmentsPairs(store, assessments[..i])));
      i := i + 1;
    }
    assert assessments[..|assessments|] == assessments;
    r := Finalize(acc);
    FinalizedAttainment(FanOut(CoursePairs(store, courseId)), r);
  }

  /** The inner loop of `ProgramAttainmentView.get`: each mapping row of one course appends
      its CO's attainment and level to the bucket of its PO, creating the bucket first when
      the PO has none. */
  method AddMappings(poAttainment: map<Id, Bucket>, mappings: seq<CoPoMapping>, coAttainment: map<Id, real>,
                     ghost before: seq<Row>)
    returns (r: map<Id, Bucket>)
    requires poAttainment == Group(before)
    ensures r == Group(before + MappingRows(mappings, coAttainment))
  {
    r := poAttainment;
    assert before + MappingRows(mappings[..0], coAttainment) == before;
    var j := 0;
    while j < |mappings|
      invariant 0 <= j <= |mappings|
      invariant r == Group(before + MappingRows(mappings[..j], coAttainment))
    {
      var mapping := mappings[j];
      MappingRowsStep(before, mappings, coAttainment, j);
      GroupAppend(before + MappingRows(mappings[..j], coAttainment), MappingRow(mapping, coAttainment));
      // the bucket is created empty on the PO's first encounter, then the entry is appended
      var bucket := if mapping.po in r then r[mapping.po] else Bucket(mapping.po, []);
      var entry := CoEntry(mapping.co, AttainmentOrZero(coAttainment, mapping.co), mapping.level);
      r := r[mapping.po := bucket.(coAttainments := bucket.coAttainments + [entry])];
      j := j + 1;
    }
    assert mappings[..|mappings|] == mappings;
  }

  /** `ProgramAttainmentView.get`: "not found" for an unknown program; otherwise, course by
      course, every CO-PO mapping row of the course appends its CO's attainment and level
      to the bucket of its PO. */
  method GetProgramAttainment(store: Store, programId: Id) returns (r: Response<ProgramReport>)
    ensures programId !in store.programs ==> r == NotFound("Program not found")
    ensures programId in store.programs ==>
      r == Ok(ProgramReport(programId, Group(ProgramRows(store, CoursesOf(store, programId)))))
  {
    if programId !in store.programs {
      return NotFound("Program not found");
    }
    var courses := CoursesOf(store, programId);
    var poAttainment: map<Id, Bucket> := map[];
    assert courses[..0] == [];
    var i := 0;
    while i < |courses|
      invariant 0 <= i <= |courses|
      invariant poAttainment == Group(ProgramRows(store, courses[..i]))
    {
      var course := courses[i];
      var coAttainment := CalculateCoAttainment(store, course.id);
      ProgramRowsSnoc(store, courses, i);
      poAttainment := AddMappings(poAttainment, MappingsOf(store, course.id), coAttainment,
                                 ProgramRows(store, courses[..i]));
      i := i + 1;
    }
    assert courses[..|courses|] == courses;
    r := Ok(ProgramReport(programId, poAttainment));
  }

  /** `CourseAttainmentView.get`: "not found" for an unknown course, else its CO attainment. */
  method GetCourseAttainment(store: Store, courseId: Id) returns (r: Response<CourseReport>)
    ensures FindCourse(store, courseId).None? ==> r == NotFound("Course not found")
    ensures FindCourse(store, courseId).Some? ==>
      r == Ok(CourseReport(FindCourse(store, courseId).value, CourseCoAttainment(store, courseId)))
  {
    var found := FindCourse(store, courseId);
    if found.None? {
      return NotFound("Course not found");
    }
    var course := found.value;
    var coAttainment := CalculateCoAttainment(store, course.id);
    r := Ok(CourseReport(course, coAttainment));
  }

  /** The inner loop of `StudentAttainmentView.get` for one enrollment: the student's own
      mark on each assessment adds its scores; no mark skips the assessment; `None` stands
      for the failure two marks cause. */
  method AddStudentAssessments(acc: map<Id, Acc>, store: Store, studentId: Id, assessments: seq<Assessment>,
                               ghost before: seq<Entry>)
    returns (r: Option<map<Id, Acc>>)
    requires acc == AccOf(before)
    ensures StudentAssessmentsPairs(store, studentId, assessments).None? ==> r.None?
    ensures StudentAssessmentsPairs(store, studentId, assessments).Some? ==>
      r == Some(AccOf(before + FanOut(StudentAssessmentsPairs(store, studentId, assessments).value)))
  {
    var cur := acc;
    assert assessments[..0] == [];
    assert before + FanOut([]) == before;
    var j := 0;
    while j < |assessments|
      invariant 0 <= j <= |assessments|
      invariant StudentAssessmentsPairs(store, studentId, assessments[..j]).Some?
      invariant cur == AccOf(before + FanOut(StudentAssessmentsPairs(store, studentId, assessments[..j]).value))
    {
      var assessment := assessments[j];
      var lookup := GetMark(store, assessment.id, studentId);
      match lookup {
        case Missing =>
          StudentAssessmentsStep(before, store, studentId, assessments, j);
          ghost var done := before + FanOut(StudentAssessmentsPairs(store, studentId, assessments[..j]).value);
          assert done + FanOut([]) == done;
        case Unique(mark) =>
          StudentAssessmentsStep(before, store, studentId, assessments, j);
          cur := AddScores(cur, assessment.questions, mark.scores,
                           before + FanOut(StudentAssessmentsPairs(store, studentId, assessments[..j]).value));
        case Multiple =>
          StudentAssessmentsPairsSnoc(store, studentId, assessments, j);
          StudentAssessmentsFailureFinal(store, studentId, assessments, j + 1);
          return None;
      }
      j := j + 1;
    }
    assert assessments[..|assessments|] == assessments;
    r := Some(cur);
  }

  /** `StudentAttainmentView.get`: "not found" for an unknown student; otherwise, per
      enrollment, the student's own mark on each assessment of the enrolled section is
      accumulated, an assessment without such a mark is skipped, and two marks for one
      assessment make the request fail. */
  method GetStudentAttainment(store: Store, studentId: Id) returns (r: Response<StudentReport>)
    ensures studentId !in store.students ==> r == NotFound("Student not found")
    ensures studentId in store.students && StudentPairs(store, studentId).None? ==> r == Fault
    ensures studentId in store.students && StudentPairs(store, studentId).Some? ==>
      r == Ok(StudentReport(studentId, Attainment(FanOut(StudentPairs(store, studentId).value))))
  {
    if studentId !in store.students {
      return NotFound("Student not found");
    }
    var enrollments := EnrollmentsOf(store, studentId);
    var acc: map<Id, Acc> := map[];
    assert enrollments[..0] == [];
    var i := 0;
    while i < |enrollments|
      invariant 0 <= i <= |enrollments|
      invariant StudentEnrollmentsPairs(store, studentId, enrollments[..i]).Some?
      invariant acc == AccOf(FanOut(StudentEnrollmentsPairs(store, studentId, enrollments[..i]).value))
    {
      var enrollment := enrollments[i];
      var assessments := EnrollmentAssessments(store, enrollment);
      var added := AddStudentAssessments(acc, store, studentId, assessments,
                                         FanOut(StudentEnrollmentsPairs(store, studentId, enrollments[..i]).value));
      if added.None? {
        StudentEnrollmentsPairsSnoc(store, studentId, enrollments, i);
        StudentEnrollmentsFailureFinal(store, studentId, enrollments, i + 1);
        return Fault;
      }
      StudentEnrollmentsStep(store, studentId, enrollments, i);
      acc := added.value;
      i := i + 1;
    }
    assert enrollments[..|enrollments|] == enrollments;
    var coAttainment := Finalize(acc);
    FinalizedAttainment(FanOut(StudentPairs(store, studentId).value), coAttainment);
    r := Ok(StudentReport(studentId, coAttainment));
  }
}
