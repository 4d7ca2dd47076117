/** Which (question, score) pairs feed an aggregation. A course uses every mark of every
    assessment held in one of its sections; a student uses, per enrollment, only the
    assessments of the enrolled section and only the student's own mark on each. */
module Scoping {
  import opened Common
  import opened Store
  import opened CoAggregation

  /** The mark `m` holds the score of `p`, and `p.question` is the question that score finds. */
  predicate FromMark(p: Pair, questions: seq<Question>, m: Mark)
  {
    p.score in m.scores && FindQuestion(questions, p.score.q) == Some(p.question)
  }

  // ---------------------------------------------------------------------------
  // Course scope (lines 42-53)

  /** The matched pairs of all `marks` of one assessment, mark by mark. */
  function MarksPairs(questions: seq<Question>, marks: seq<Mark>): seq<Pair>
    decreases |marks|
  {
    if marks == [] then []
    else MarksPairs(questions, marks[..|marks| - 1]) + MatchedPairs(questions, marks[|marks| - 1].scores)
  }

  /** The matched pairs of all marks of each of `assessments`, assessment by assessment. */
  function AssessmentsPairs(store: Store, assessments: seq<Assessment>): seq<Pair>
    decreases |assessments|
  {
    if assessments == [] then []
    else
      var last := assessments[|assessments| - 1];
      AssessmentsPairs(store, assessments[..|assessments| - 1]) + MarksPairs(last.questions, MarksOf(store, last.id))
  }

  function CoursePairs(store: Store, courseId: Id): seq<Pair>
  {
    AssessmentsPairs(store, CourseAssessments(store, courseId))
  }

  /** The CO attainment map of one course. */
  function CourseCoAttainment(store: Store, courseId: Id): map<Id, real>
  {
    Attainment(FanOut(CoursePairs(store, courseId)))
  }

  lemma MarksPairsSnoc(questions: seq<Question>, marks: seq<Mark>, j: nat)
    requires j < |marks|
    ensures MarksPairs(questions, marks[..j + 1]) == MarksPairs(questions, marks[..j]) + MatchedPairs(questions, marks[j].scores)
  {
    assert marks[..j + 1][..j] == marks[..j];
  }

  lemma AssessmentsPairsSnoc(store: Store, assessments: seq<Assessment>, i: nat)
    requires i < |assessments|
    ensures AssessmentsPairs(store, assessments[..i + 1]) ==
            AssessmentsPairs(store, assessments[..i]) + MarksPairs(assessments[i].questions, MarksOf(store, assessments[i].id))
  {
    assert assessments[..i + 1][..i] == assessments[..i];
  }

  lemma {:induction false} MarksPairsOrigin(questions: seq<Question>, marks: seq<Mark>)
    ensures forall p :: p in MarksPairs(questions, marks) ==> exists m :: m in marks && FromMark(p, questions, m)
    decreases |marks|
  {
    if marks != [] {
      var init, last := marks[..|marks| - 1], marks[|marks| - 1];
      MarksPairsOrigin(questions, init);
      forall p | p in MarksPairs(questions, marks)
        ensures exists m :: m in marks && FromMark(p, questions, m)
      {
        if p in MarksPairs(questions, init) {
          var m :| m in init && FromMark(p, questions, m);
          assert m in marks;
        } else {
          assert FromMark(p, questions, last);
        }
      }
    }
  }

  lemma {:induction false} AssessmentsPairsOrigin(store: Store, assessments: seq<Assessment>)
    ensures forall p :: p in AssessmentsPairs(store, assessments) ==>
      exists a, m :: a in assessments && m in store.marks && m.assessment == a.id && FromMark(p, a.questions, m)
    decreases |assessments|
  {
    if assessments != [] {
      var init, last := assessments[..|assessments| - 1], assessments[|assessments| - 1];
      AssessmentsPairsOrigin(store, init);
      MarksPairsOrigin(last.questions, MarksOf(store, last.id));
      forall p | p in AssessmentsPairs(store, assessments)
        ensures exists a, m :: a in assessments && m in store.marks && m.assessment == a.id && FromMark(p, a.questions, m)
      {
        if p in AssessmentsPairs(store, init) {
          var a, m :| a in init && m in store.marks && m.assessment == a.id && FromMark(p, a.questions, m);
          assert a in assessments;
        } else {
          var m :| m in MarksOf(store, last.id) && FromMark(p, last.questions, m);
          assert last in assessments;
        }
      }
    }
  }

  /** Every pair a course aggregates is a score of a mark recorded against an assessment of
      one of the course's sections, paired with the first question that score's key finds. */
  lemma CoursePairsOrigin(store: Store, courseId: Id)
    ensures forall p :: p in CoursePairs(store, courseId) ==>
      exists a, m :: a in store.assessments && InCourse(store, a, courseId) &&
                     m in store.marks && m.assessment == a.id && FromMark(p, a.questions, m)
  {
    AssessmentsPairsOrigin(store, CourseAssessments(store, courseId));
  }

  /** The pair the matched score `m.scores[k]` yields: the first question its key finds. */
  function ScorePair(questions: seq<Question>, m: Mark, k: nat): Pair
    requires k < |m.scores| && FindQuestion(questions, m.scores[k].q).Some?
  {
    Pair(FindQuestion(questions, m.scores[k].q).value, m.scores[k])
  }

  /** Every matched score of every one of `marks` reaches the aggregation. */
  lemma {:induction false} MarksPairsComplete(questions: seq<Question>, marks: seq<Mark>, m: Mark, k: nat)
    requires m in marks && k < |m.scores| && FindQuestion(questions, m.scores[k].q).Some?
    ensures ScorePair(questions, m, k) in MarksPairs(questions, marks)
    decreases |marks|
  {
    var init, last := marks[..|marks| - 1], marks[|marks| - 1];
    assert marks == init + [last];
    MarksPairsSnoc(questions, marks, |marks| - 1);
    assert marks[..|marks|] == marks;
    if m == last {
      MatchedScoreKept(questions, m.scores, k);
    } else {
      MarksPairsComplete(questions, init, m, k);
    }
  }

  /** Every matched score of every mark recorded against one of `assessments` reaches the aggregation. */
  lemma {:induction false} AssessmentsPairsComplete(store: Store, assessments: seq<Assessment>, a: Assessment, m: Mark, k: nat)
    requires a in assessments && m in store.marks && m.assessment == a.id
    requires k < |m.scores| && FindQuestion(a.questions, m.scores[k].q).Some?
    ensures ScorePair(a.questions, m, k) in AssessmentsPairs(store, assessments)
    decreases |assessments|
  {
    var init, last := assessments[..|assessments| - 1], assessments[|assessments| - 1];
    assert assessments == init + [last];
    AssessmentsPairsSnoc(store, assessments, |assessments| - 1);
    assert assessments[..|assessments|] == assessments;
    if a == last {
      assert m in MarksOf(store, a.id);
      MarksPairsComplete(a.questions, MarksOf(store, a.id), m, k);
    } else {
      AssessmentsPairsComplete(store, init, a, m, k);
    }
  }

  /** The converse of `CoursePairsOrigin`: every matched score of every mark on an assessment
      held in a section of the course is aggregated for the course. */
  lemma CoursePairsComplete(store: Store, courseId: Id, a: Assessment, m: Mark, k: nat)
    requires a in store.assessments && InCourse(store, a, courseId)
    requires m in store.marks && m.assessment == a.id
    requires k < |m.scores| && FindQuestion(a.questions, m.scores[k].q).Some?
    ensures ScorePair(a.questions, m, k) in CoursePairs(store, courseId)
  {
    AssessmentsPairsComplete(store, CourseAssessments(store, courseId), a, m, k);
  }

  // ---------------------------------------------------------------------------
  // Student scope (lines 107-125)

  /** Concatenation of two partial results; a failure on either side is a failure. */
  function Join(x: Option<seq<Pair>>, y: Option<seq<Pair>>): Option<seq<Pair>>
  {
    if x.Some? && y.Some? then Some(x.value + y.value) else None
  }

  /** The pairs of one student over `assessments`. An assessment with no mark of the student
      is skipped; one with several marks (the uncaught `MultipleObjectsReturned`) fails. */
  function StudentAssessmentsPairs(store: Store, studentId: Id, assessments: seq<Assessment>): Option<seq<Pair>>
    decreases |assessments|
  {
    if assessments == [] then Some([])
    else
      var last := assessments[|assessments| - 1];
      Join(StudentAssessmentsPairs(store, studentId, assessments[..|assessments| - 1]),
           StudentMarkPairs(store, studentId, last))
  }

  /** The pairs of the student's single mark on one assessment. */
  function StudentMarkPairs(store: Store, studentId: Id, a: Assessment): (r: Option<seq<Pair>>)
    ensures r.None? <==> exists i, j :: 0 <= i < j < |store.marks| &&
                           IsMarkOf(store.marks[i], a.id, studentId) && IsMarkOf(store.marks[j], a.id, studentId)
    ensures (forall m :: m in store.marks ==> !IsMarkOf(m, a.id, studentId)) ==> r == Some([])
    ensures r.Some? ==> forall p :: p in r.value ==>
              exists m :: m in store.marks && IsMarkOf(m, a.id, studentId) && FromMark(p, a.questions, m)
    ensures r.Some? ==> forall m :: m in store.marks && IsMarkOf(m, a.id, studentId) ==>
              r.value == MatchedPairs(a.questions, m.scores)
  {
    match GetMark(store, a.id, studentId)
    case Missing => Some([])
    case Unique(m) => Some(MatchedPairs(a.questions, m.scores))
    case Multiple => None
  }

  /** The assessments one enrollment reaches: those of the enrolled course held in the enrolled section. */
  function EnrollmentAssessments(store: Store, e: Enrollment): seq<Assessment>
  {
    SectionAssessments(store, e.course, e.section)
  }

  /** The pairs of one student over `enrollments`, enrollment by enrollment. */
  function StudentEnrollmentsPairs(store: Store, studentId: Id, enrollments: seq<Enrollment>): Option<seq<Pair>>
    decreases |enrollments|
  {
    if enrollments == [] then Some([])
    else
      var last := enrollments[|enrollments| - 1];
      Join(StudentEnrollmentsPairs(store, studentId, enrollments[..|enrollments| - 1]),
           StudentAssessmentsPairs(store, studentId, EnrollmentAssessments(store, last)))
  }

  function StudentPairs(store: Store, studentId: Id): Option<seq<Pair>>
  {
    StudentEnrollmentsPairs(store, studentId, EnrollmentsOf(store, studentId))
  }

  lemma StudentAssessmentsPairsSnoc(store: Store, studentId: Id, assessments: seq<Assessment>, j: nat)
    requires j < |assessments|
    ensures StudentAssessmentsPairs(store, studentId, assessments[..j + 1]) ==
            Join(StudentAssessmentsPairs(store, studentId, assessments[..j]), StudentMarkPairs(store, studentId, assessments[j]))
  {
    assert assessments[..j + 1][..j] == assessments[..j];
  }

  lemma StudentEnrollmentsPairsSnoc(store: Store, studentId: Id, enrollments: seq<Enrollment>, i: nat)
    requires i < |enrollments|
    ensures StudentEnrollmentsPairs(store, studentId, enrollments[..i + 1]) ==
            Join(StudentEnrollmentsPairs(store, studentId, enrollments[..i]),
                 StudentAssessmentsPairs(store, studentId, EnrollmentAssessments(store, enrollments[i])))
  {
    assert enrollments[..i + 1][..i] == enrollments[..i];
  }

  lemma JoinAssociative(x: Option<seq<Pair>>, y: Option<seq<Pair>>, z: Option<seq<Pair>>)
    ensures Join(Join(x, y), z) == Join(x, Join(y, z))
  {
    if x.Some? && y.Some? && z.Some? {
      assert x.value + y.value + z.value == x.value + (y.value + z.value);
    }
  }

  lemma {:induction false} StudentAssessmentsPairsAppend(store: Store, studentId: Id, a: seq<Assessment>, b: seq<Assessment>)
    ensures StudentAssessmentsPairs(store, studentId, a + b) ==
            Join(StudentAssessmentsPairs(store, studentId, a), StudentAssessmentsPairs(store, studentId, b))
    decreases |b|
  {
    var x := StudentAssessmentsPairs(store, studentId, a);
    if b == [] {
      assert a + b == a;
      if x.Some? {
        assert x.value + [] == x.value;
      }
    } else {
      var init, last := b[..|b| - 1], b[|b| - 1];
      var y, z := StudentAssessmentsPairs(store, studentId, init), StudentMarkPairs(store, studentId, last);
      assert (a + b)[..|a + b| - 1] == a + init;
      assert (a + b)[|a + b| - 1] == last;
      calc {
        StudentAssessmentsPairs(store, studentId, a + b);
        Join(StudentAssessmentsPairs(store, studentId, a + init), z);
        { StudentAssessmentsPairsAppend(store, studentId, a, init); }
        Join(Join(x, y), z);
        { JoinAssociative(x, y, z); }
        Join(x, Join(y, z));
      }
    }
  }

  /** Once a prefix of the assessments fails, the whole sequence fails. */
  lemma {:induction false} StudentAssessmentsFailureFinal(store: Store, studentId: Id, assessments: seq<Assessment>, k: nat)
    requires k <= |assessments| && StudentAssessmentsPairs(store, studentId, assessments[..k]).None?
    ensures StudentAssessmentsPairs(store, studentId, assessments).None?
    decreases |assessments|
  {
    if k < |assessments| {
      var init := assessments[..|assessments| - 1];
      assert init[..k] == assessments[..k];
      StudentAssessmentsFailureFinal(store, studentId, init, k);
    } else {
      assert assessments[..k] == assessments;
    }
  }

  /** Once a prefix of the enrollments fails, the whole sequence fails. */
  lemma {:induction false} StudentEnrollmentsFailureFinal(store: Store, studentId: Id, enrollments: seq<Enrollment>, k: nat)
    requires k <= |enrollments| && StudentEnrollmentsPairs(store, studentId, enrollments[..k]).None?
    ensures StudentEnrollmentsPairs(store, studentId, enrollments).None?
    decreases |enrollments|
  {
    if k < |enrollments| {
      var init := enrollments[..|enrollments| - 1];
      assert init[..k] == enrollments[..k];
      StudentEnrollmentsFailureFinal(store, studentId, init, k);
    } else {
      assert enrollments[..k] == enrollments;
    }
  }

  /** An assessment the student has no mark for is skipped without effect: removing it,
      wherever it stands, leaves the student's pairs unchanged. */
  lemma MissingMarkSkipped(store: Store, studentId: Id, assessments: seq<Assessment>, k: nat)
    requires k < |assessments| && GetMark(store, assessments[k].id, studentId).Missing?
    ensures StudentAssessmentsPairs(store, studentId, assessments[..k] + assessments[k + 1..]) ==
            StudentAssessmentsPairs(store, studentId, assessments)
  {
    var front, a, back := assessments[..k], assessments[k], assessments[k + 1..];
    assert assessments == front + ([a] + back);
    assert StudentAssessmentsPairs(store, studentId, [a]) == Some([]) by {
      assert [a][..0] == [];
      assert StudentMarkPairs(store, studentId, a) == Some([]);
      var empty: seq<Pair> := [];
      assert empty + empty == empty;
    }
    StudentAssessmentsPairsAppend(store, studentId, front, [a] + back);
    StudentAssessmentsPairsAppend(store, studentId, [a], back);
    StudentAssessmentsPairsAppend(store, studentId, front, back);
    var rest := StudentAssessmentsPairs(store, studentId, back);
    if rest.Some? {
      assert [] + rest.value == rest.value;
    }
  }

  lemma {:induction false} UniqueMarksAssessments(store: Store, studentId: Id, assessments: seq<Assessment>)
    requires MarksUnique(store)
    ensures StudentAssessmentsPairs(store, studentId, assessments).Some?
    decreases |assessments|
  {
    if assessments != [] {
      UniqueMarksAssessments(store, studentId, assessments[..|assessments| - 1]);
      UniqueMarksGetMark(store, assessments[|assessments| - 1].id, studentId);
    }
  }

  lemma {:induction false} UniqueMarksEnrollments(store: Store, studentId: Id, enrollments: seq<Enrollment>)
    requires MarksUnique(store)
    ensures StudentEnrollmentsPairs(store, studentId, enrollments).Some?
    decreases |enrollments|
  {
    if enrollments != [] {
      UniqueMarksEnrollments(store, studentId, enrollments[..|enrollments| - 1]);
      UniqueMarksAssessments(store, studentId, EnrollmentAssessments(store, enrollments[|enrollments| - 1]));
    }
  }

  /** Under the `unique_together = ('student', 'assessment')` constraint the student
      aggregation never meets two marks for one assessment, so it always succeeds. */
  lemma UniqueMarksNoFault(store: Store, studentId: Id)
    requires MarksUnique(store)
    ensures StudentPairs(store, studentId).Some?
  {
    UniqueMarksEnrollments(store, studentId, EnrollmentsOf(store, studentId));
  }

  lemma {:induction false} StudentAssessmentsOrigin(store: Store, studentId: Id, assessments: seq<Assessment>)
    ensures StudentAssessmentsPairs(store, studentId, assessments).Some? ==>
      forall p :: p in StudentAssessmentsPairs(store, studentId, assessments).value ==>
        exists a, m :: a in assessments && m in store.marks && IsMarkOf(m, a.id, studentId) && FromMark(p, a.questions, m)
    decreases |assessments|
  {
    if assessments != [] && StudentAssessmentsPairs(store, studentId, assessments).Some? {
      var init, last := assessments[..|assessments| - 1], assessments[|assessments| - 1];
      StudentAssessmentsOrigin(store, studentId, init);
      var here := StudentMarkPairs(store, studentId, last);
      forall p | p in StudentAssessmentsPairs(store, studentId, assessments).value
        ensures exists a, m :: a in assessments && m in store.marks && IsMarkOf(m, a.id, studentId) && FromMark(p, a.questions, m)
      {
        if p in StudentAssessmentsPairs(store, studentId, init).value {
          var a, m :| a in init && m in store.marks && IsMarkOf(m, a.id, studentId) && FromMark(p, a.questions, m);
          assert a in assessments;
        } else {
          assert p in here.value;
          var m := GetMark(store, last.id, studentId).row;
          assert FromMark(p, last.questions, m);
          assert last in assessments;
        }
      }
    }
  }

  lemma {:induction false} StudentEnrollmentsOrigin(store: Store, studentId: Id, enrollments: seq<Enrollment>)
    ensures StudentEnrollmentsPairs(store, studentId, enrollments).Some? ==>
      forall p :: p in StudentEnrollmentsPairs(store, studentId, enrollments).value ==>
        exists e, a, m :: e in enrollments && a in EnrollmentAssessments(store, e) &&
                          m in store.marks && IsMarkOf(m, a.id, studentId) && FromMark(p, a.questions, m)
    decreases |enrollments|
  {
    if enrollments != [] && StudentEnrollmentsPairs(store, studentId, enrollments).Some? {
      var init, last := enrollments[..|enrollments| - 1], enrollments[|enrollments| - 1];
      StudentEnrollmentsOrigin(store, studentId, init);
      StudentAssessmentsOrigin(store, studentId, EnrollmentAssessments(store, last));
      forall p | p in StudentEnrollmentsPairs(store, studentId, enrollments).value
        ensures exists e, a, m :: e in enrollments && a in EnrollmentAssessments(store, e) &&
                                  m in store.marks && IsMarkOf(m, a.id, studentId) && FromMark(p, a.questions, m)
      {
        if p in StudentEnrollmentsPairs(store, studentId, init).value {
          var e, a, m :| e in init && a in EnrollmentAssessments(store, e) &&
                         m in store.marks && IsMarkOf(m, a.id, studentId) && FromMark(p, a.questions, m);
          assert e in enrollments;
        } else {
          var a, m :| a in EnrollmentAssessments(store, last) &&
                      m in store.marks && IsMarkOf(m, a.id, studentId) && FromMark(p, a.questions, m);
          assert last in enrollments;
        }
      }
    }
  }

  /** Every pair a student aggregates is a score of that student's own mark on an assessment
      held in the very section of one of the student's enrollments, for the enrolled course. */
  lemma StudentPairsOrigin(store: Store, studentId: Id)
    ensures StudentPairs(store, studentId).Some? ==>
      forall p :: p in StudentPairs(store, studentId).value ==>
        exists e, a, m :: e in store.enrollments && e.student == studentId &&
                          a in store.assessments && InCourse(store, a, e.course) && e.section == Some(a.section) &&
                          m in store.marks && IsMarkOf(m, a.id, studentId) && FromMark(p, a.questions, m)
  {
    StudentEnrollmentsOrigin(store, studentId, EnrollmentsOf(store, studentId));
  }

  /** A successful aggregation over `assessments` succeeded on each of them and holds
      everything each of them yielded. */
  lemma {:induction false} StudentAssessmentsComplete(store: Store, studentId: Id, assessments: seq<Assessment>, a: Assessment)
    requires StudentAssessmentsPairs(store, studentId, assessments).Some? && a in assessments
    ensures StudentMarkPairs(store, studentId, a).Some? &&
            forall p :: p in StudentMarkPairs(store, studentId, a).value ==>
              p in StudentAssessmentsPairs(store, studentId, assessments).value
    decreases |assessments|
  {
    var init, last := assessments[..|assessments| - 1], assessments[|assessments| - 1];
    assert assessments == init + [last];
    if a != last {
      StudentAssessmentsComplete(store, studentId, init, a);
    }
  }

  /** A successful aggregation over `enrollments` succeeded on each of them and holds
      everything each of them yielded. */
  lemma {:induction false} StudentEnrollmentsComplete(store: Store, studentId: Id, enrollments: seq<Enrollment>, e: Enrollment)
    requires StudentEnrollmentsPairs(store, studentId, enrollments).Some? && e in enrollments
    ensures StudentAssessmentsPairs(store, studentId, EnrollmentAssessments(store, e)).Some? &&
            forall p :: p in StudentAssessmentsPairs(store, studentId, EnrollmentAssessments(store, e)).value ==>
              p in StudentEnrollmentsPairs(store, studentId, enrollments).value
    decreases |enrollments|
  {
    var init, last := enrollments[..|enrollments| - 1], enrollments[|enrollments| - 1];
    assert enrollments == init + [last];
    if e != last {
      StudentEnrollmentsComplete(store, studentId, init, e);
    }
  }

  /** The converse of `StudentPairsOrigin`: when the student's aggregation succeeds, every
      matched score of the student's own mark on an assessment of an enrolled course, held in
      the enrolled section, is aggregated. */
  lemma StudentPairsComplete(store: Store, studentId: Id, e: Enrollment, a: Assessment, m: Mark, k: nat)
    requires StudentPairs(store, studentId).Some?
    requires e in store.enrollments && e.student == studentId
    requires a in store.assessments && InCourse(store, a, e.course) && e.section == Some(a.section)
    requires m in store.marks && IsMarkOf(m, a.id, studentId)
    requires k < |m.scores| && FindQuestion(a.questions, m.scores[k].q).Some?
    ensures ScorePair(a.questions, m, k) in StudentPairs(store, studentId).value
  {
    StudentEnrollmentsComplete(store, studentId, EnrollmentsOf(store, studentId), e);
    var assessments := EnrollmentAssessments(store, e);
    assert a in assessments;
    StudentAssessmentsComplete(store, studentId, assessments, a);
    assert StudentMarkPairs(store, studentId, a).value == MatchedPairs(a.questions, m.scores);
    MatchedScoreKept(a.questions, m.scores, k);
  }
}
