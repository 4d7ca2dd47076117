/** A worked course, stated for any two distinct CO ids `co1`, `co2` and question keys
    `q1`, `q2`: one assessment whose first question (10 marks) covers `co1` and whose
    second (5 marks) covers both COs, marked for two students as 8 + 5 and 6 + 3. */
module Scenario {
  import opened Common
  import opened Store
  import opened CoAggregation
  import opened Scoping
  import opened RollUp

  function ScenarioQuestions(q1: string, q2: string, co1: Id, co2: Id): seq<Question>
  {
    [Question(q1, 10, [co1]), Question(q2, 5, [co1, co2])]
  }

  function ScenarioMarks(q1: string, q2: string): seq<Mark>
  {
    [Mark("A", "T1", [Score(q1, 8), Score(q2, 5)]),
     Mark("B", "T1", [Score(q1, 6), Score(q2, 3)])]
  }

  function ScenarioPairs(q1: string, q2: string, co1: Id, co2: Id): seq<Pair>
  {
    var qs := ScenarioQuestions(q1, q2, co1, co2);
    [Pair(qs[0], Score(q1, 8)), Pair(qs[1], Score(q2, 5)), Pair(qs[0], Score(q1, 6)), Pair(qs[1], Score(q2, 3))]
  }

  function ScenarioEntries(co1: Id, co2: Id): seq<Entry>
  {
    [Entry(co1, 10, 8), Entry(co1, 5, 5), Entry(co2, 5, 5),
     Entry(co1, 10, 6), Entry(co1, 5, 3), Entry(co2, 5, 3)]
  }

  /** Every score finds its question. */
  lemma ScenarioMatches(q1: string, q2: string, co1: Id, co2: Id)
    requires q1 != q2
    ensures MarksPairs(ScenarioQuestions(q1, q2, co1, co2), ScenarioMarks(q1, q2)) == ScenarioPairs(q1, q2, co1, co2)
  {
    var qs, ms, pairs := ScenarioQuestions(q1, q2, co1, co2), ScenarioMarks(q1, q2), ScenarioPairs(q1, q2, co1, co2);
    assert FindQuestion(qs, q1) == Some(qs[0]);
    assert FindQuestion(qs, q2) == Some(qs[1]);
    assert ms[..1][..0] == [];
    assert MarksPairs(qs, ms[..1]) == MatchedPairs(qs, ms[0].scores);
    MatchedPairsAppend(qs, [ms[0].scores[0]], [ms[0].scores[1]]);
    MatchedPairsAppend(qs, [ms[1].scores[0]], [ms[1].scores[1]]);
    assert ms[0].scores == [ms[0].scores[0]] + [ms[0].scores[1]];
    assert ms[1].scores == [ms[1].scores[0]] + [ms[1].scores[1]];
    assert MatchedPairs(qs, ms[0].scores) == pairs[..2];
    assert MatchedPairs(qs, ms[1].scores) == pairs[2..];
  }

  /** The second question fans out to both of its COs. */
  lemma ScenarioFanOut(q1: string, q2: string, co1: Id, co2: Id)
    ensures FanOut(ScenarioPairs(q1, q2, co1, co2)) == ScenarioEntries(co1, co2)
  {
    var pairs := ScenarioPairs(q1, q2, co1, co2);
    assert pairs[..1] == pairs[..0] + [pairs[0]];
    assert pairs[..2] == pairs[..1] + [pairs[1]];
    assert pairs[..3] == pairs[..2] + [pairs[2]];
    assert pairs == pairs[..3] + [pairs[3]];
    FanOutSnoc(pairs[..0], pairs[0]);
    FanOutSnoc(pairs[..1], pairs[1]);
    FanOutSnoc(pairs[..2], pairs[2]);
    FanOutSnoc(pairs[..3], pairs[3]);
  }

  /** The first student's first question: `co1` reaches 8 of 10. */
  lemma ScenarioFirstScore(co1: Id)
    ensures AccOf([Entry(co1, 10, 8)]) == map[co1 := Acc(10, 8)]
  {
    var empty: seq<Entry> := [];
    assert CoIdsOf(empty) == {};
    AccOfSnoc(empty, Entry(co1, 10, 8));
    assert empty + [Entry(co1, 10, 8)] == [Entry(co1, 10, 8)];
  }

  /** The first student's second question, first CO: `co1` reaches 13 of 15. */
  lemma ScenarioSecondScore(co1: Id)
    ensures AccOf([Entry(co1, 10, 8), Entry(co1, 5, 5)]) == map[co1 := Acc(15, 13)]
  {
    ScenarioFirstScore(co1);
    AccOfSnoc([Entry(co1, 10, 8)], Entry(co1, 5, 5));
    assert [Entry(co1, 10, 8)] + [Entry(co1, 5, 5)] == [Entry(co1, 10, 8), Entry(co1, 5, 5)];
  }

  /** The accumulators after the first student's three contributions: 13 of 15 and 5 of 5. */
  lemma ScenarioFirstMark(co1: Id, co2: Id)
    requires co1 != co2
    ensures AccOf([Entry(co1, 10, 8), Entry(co1, 5, 5), Entry(co2, 5, 5)]) ==
            map[co1 := Acc(15, 13), co2 := Acc(5, 5)]
  {
    ScenarioSecondScore(co1);
    AccOfSnoc([Entry(co1, 10, 8), Entry(co1, 5, 5)], Entry(co2, 5, 5));
    assert [Entry(co1, 10, 8), Entry(co1, 5, 5)] + [Entry(co2, 5, 5)] ==
           [Entry(co1, 10, 8), Entry(co1, 5, 5), Entry(co2, 5, 5)];
  }

  /** The second student's first contribution: `co1` reaches 19 of 25. */
  lemma ScenarioFourth(co1: Id, co2: Id)
    requires co1 != co2
    ensures AccOf([Entry(co1, 10, 8), Entry(co1, 5, 5), Entry(co2, 5, 5)] + [Entry(co1, 10, 6)]) ==
            map[co1 := Acc(25, 19), co2 := Acc(5, 5)]
  {
    ScenarioFirstMark(co1, co2);
    AccOfSnoc([Entry(co1, 10, 8), Entry(co1, 5, 5), Entry(co2, 5, 5)], Entry(co1, 10, 6));
  }

  /** The second student's second question: `co1` reaches 22 of 30. */
  lemma ScenarioFifth(co1: Id, co2: Id)
    requires co1 != co2
    ensures AccOf([Entry(co1, 10, 8), Entry(co1, 5, 5), Entry(co2, 5, 5)] + [Entry(co1, 10, 6)] + [Entry(co1, 5, 3)]) ==
            map[co1 := Acc(30, 22), co2 := Acc(5, 5)]
  {
    ScenarioFourth(co1, co2);
    AccOfSnoc([Entry(co1, 10, 8), Entry(co1, 5, 5), Entry(co2, 5, 5)] + [Entry(co1, 10, 6)], Entry(co1, 5, 3));
  }

  /** The accumulators after all six contributions: `co1` holds 22 of 30, `co2` 8 of 10. */
  lemma ScenarioAccumulators(co1: Id, co2: Id)
    requires co1 != co2
    ensures AccOf(ScenarioEntries(co1, co2)) == map[co1 := Acc(30, 22), co2 := Acc(10, 8)]
  {
    var e5 := [Entry(co1, 10, 8), Entry(co1, 5, 5), Entry(co2, 5, 5)] + [Entry(co1, 10, 6)] + [Entry(co1, 5, 3)];
    ScenarioFifth(co1, co2);
    AccOfSnoc(e5, Entry(co2, 5, 3));
    assert e5 + [Entry(co2, 5, 3)] == ScenarioEntries(co1, co2);
  }

  /** 22 of 30 is 73.33... percent and 8 of 10 is 80 percent. */
  lemma ScenarioPercentages(co1: Id, co2: Id)
    requires co1 != co2
    ensures Attainment(ScenarioEntries(co1, co2)) == map[co1 := 220.0 / 3.0, co2 := 80.0]
  {
    ScenarioAccumulators(co1, co2);
    var e := ScenarioEntries(co1, co2);
    var att := Attainment(e);
    assert CoIdsOf(e) == AccOf(e).Keys == {co1, co2};
    assert Percentage(Acc(30, 22)) == 220.0 / 3.0;
    assert Percentage(Acc(10, 8)) == 80.0;
    assert att[co1] == Percentage(AccOf(e)[co1]);
    assert att[co2] == Percentage(AccOf(e)[co2]);
  }

  /** The course's CO attainment: `co1` at 73.33... percent and `co2` at 80 percent. */
  lemma ScenarioCoAttainment(q1: string, q2: string, co1: Id, co2: Id)
    requires q1 != q2 && co1 != co2
    ensures Attainment(FanOut(MarksPairs(ScenarioQuestions(q1, q2, co1, co2), ScenarioMarks(q1, q2)))) ==
            map[co1 := 220.0 / 3.0, co2 := 80.0]
  {
    ScenarioMatches(q1, q2, co1, co2);
    ScenarioFanOut(q1, q2, co1, co2);
    ScenarioPercentages(co1, co2);
  }

  /** A single row makes one bucket holding its entry. */
  lemma ScenarioGroupOne(r: Row)
    ensures Group([r]) == map[r.po := Bucket(r.po, [r.entry])]
  {
    var empty: seq<Row> := [];
    assert PoIds(empty) == {};
    assert Group(empty) == map[];
    GroupSnoc(empty, r);
    assert empty + [r] == [r];
    var none: seq<CoEntry> := [];
    assert none + [r.entry] == [r.entry];
  }

  /** Mapping `co1` to `po` at level 3 and `co2` to `po` at level 2 gives one bucket for
      `po` holding both entries in mapping order. */
  lemma ScenarioRollUp(course: Id, co1: Id, co2: Id, po: Id)
    requires co1 != co2
    ensures Group(MappingRows([CoPoMapping(course, co1, po, 3), CoPoMapping(course, co2, po, 2)],
                              map[co1 := 220.0 / 3.0, co2 := 80.0])) ==
            map[po := Bucket(po, [CoEntry(co1, 220.0 / 3.0, 3), CoEntry(co2, 80.0, 2)])]
  {
    var att := map[co1 := 220.0 / 3.0, co2 := 80.0];
    var mappings := [CoPoMapping(course, co1, po, 3), CoPoMapping(course, co2, po, 2)];
    var r1, r2 := Row(po, CoEntry(co1, 220.0 / 3.0, 3)), Row(po, CoEntry(co2, 80.0, 2));
    assert MappingRows(mappings, att) == [r1, r2];
    ScenarioGroupOne(r1);
    GroupSnoc([r1], r2);
    assert [r1] + [r2] == [r1, r2];
    assert [r1.entry] + [r2.entry] == [r1.entry, r2.entry];
  }

  /** The worked course as a store: one course taught in one section, the assessment of
      that section, and the two students' marks on it. */
  function ScenarioStore(q1: string, q2: string, co1: Id, co2: Id, course: Id, section: Id): Store
  {
    Store({"P"}, [Course(course, "P")], {"A", "B"}, map[section := course], [],
          [Assessment("T1", section, ScenarioQuestions(q1, q2, co1, co2))], ScenarioMarks(q1, q2), [])
  }

  /** Through the course's own scoping: the course reaches its one assessment and both marks. */
  lemma ScenarioCoursePairs(q1: string, q2: string, co1: Id, co2: Id, course: Id, section: Id)
    ensures CoursePairs(ScenarioStore(q1, q2, co1, co2, course, section), course) ==
            MarksPairs(ScenarioQuestions(q1, q2, co1, co2), ScenarioMarks(q1, q2))
  {
    var store := ScenarioStore(q1, q2, co1, co2, course, section);
    var a := store.assessments[0];
    var ms := store.marks;
    var empty: seq<Assessment> := [];
    FilterSnoc(empty, a, (x: Assessment) => InCourse(store, x, course));
    assert empty + [a] == store.assessments;
    assert CourseAssessments(store, course) == [a];
    var none: seq<Mark> := [];
    FilterSnoc(none, ms[0], (m: Mark) => m.assessment == a.id);
    assert none + [ms[0]] == [ms[0]];
    FilterSnoc([ms[0]], ms[1], (m: Mark) => m.assessment == a.id);
    assert [ms[0]] + [ms[1]] == ms;
    assert MarksOf(store, a.id) == ms;
    assert [a][..0] == [];
    var pairs := MarksPairs(a.questions, ms);
    assert AssessmentsPairs(store, [a]) == AssessmentsPairs(store, []) + pairs;
    assert AssessmentsPairs(store, []) + pairs == pairs;
  }

  /** `calculate_co_attainment` on the worked course: 73.33... and 80 percent. */
  lemma ScenarioCourseAttainment(q1: string, q2: string, co1: Id, co2: Id, course: Id, section: Id)
    requires q1 != q2 && co1 != co2
    ensures CourseCoAttainment(ScenarioStore(q1, q2, co1, co2, course, section), course) ==
            map[co1 := 220.0 / 3.0, co2 := 80.0]
  {
    ScenarioCoursePairs(q1, q2, co1, co2, course, section);
    ScenarioCoAttainment(q1, q2, co1, co2);
  }
}
