# Outcome-attainment engine of the OBE portal, in Dafny

This project models the attainment computation of the OBE (outcome-based education)
portal backend, and proves properties of that model:

- **CO aggregation** (`calculate_co_attainment`). Every score of every mark of every
  assessment of a course is matched to the first question with the same key. The
  question's `maxMarks` and the score's `marks` are then added, in full, to the
  running totals of every course outcome (CO) the question lists. Each CO's totals
  finally become `scored / total * 100`, or 0 when the total is not positive.
- **PO roll-up** (`ProgramAttainmentView.get`). For every course of a program, every
  CO-PO mapping row appends `{co, attainment, mapping_level}` to the bucket of its
  program outcome (PO).
- **Student attainment** (`StudentAttainmentView.get`). The same accumulation, over the
  student's enrollments. It uses only the assessments of the enrolled section, and
  only the student's own mark on each.
- **Request permissions** (`permissions.py`). Four role and method checks.

The model is layered.

- `Store` holds the tables and the queries the views issue. Each query is an
  order-preserving filter.
- `CoAggregation` and `Scoping` are pure specifications. `MatchedPairs` gives the
  (question, score) pairs that count. `FanOut` gives one contribution per listed CO.
  `Total` and `Scored` give the per-CO sums. `Attainment` gives the percentages.
  `CoursePairs` and `StudentPairs` choose which marks feed a course or a student.
- `RollUp` specifies the PO buckets. `ProgramRows` lists the appended entries in
  iteration order, and `Group` is the bucket map they build.
- `AttainmentViews` holds the views as imperative methods. Their loops update maps
  step by step, as the Python does, and each method is proved equal to the
  specification.
- `Permissions` holds the four checks as functions.
- `Scenario` works through one course by hand.

Modelling choices:

- Percentages are exact `real`s.
- Marks and `maxMarks` are unbounded integers.
- A "not found" answer is the `NotFound` variant of `Response`.
- The one uncaught exception the model keeps is `MultipleObjectsReturned` from the student
  view's single-mark lookup (attainment.py:115). It is the `Fault` variant.
- The assessment queries filter on `section__course`, but `Section` has no `course`
  field (obe-portal-backend/api/models.py:131-135). As written, every such query is
  refused with a field error (see "## Findings"). The model follows the evident intent:
  the store carries the relation explicitly, as `sectionCourse`, a map from section to
  course, and the queries filter on it.
- `Mark.objects.get` can meet several rows. The database forbids this through
  `unique_together` (models.py:228), so `MarksUnique` states the constraint and
  `UniqueMarksNoFault` shows the failure cannot happen under it. The views still
  model the failure, since the code does not rule it out.

## Model

| member | source | states |
|---|---|---|
| Store.FindCourse | obe-portal-backend/api/views/attainment.py:65-68 | no course is found exactly when no course has the id; a found course is in the table and has that id |
| Store.GetMark | obe-portal-backend/api/views/attainment.py:114-115 | the lookup is `Missing` exactly when the student has no mark for the assessment, and `Multiple` exactly when two rows are that student's marks for it; a unique hit is a mark of that student for that assessment, and the only one |
| Store.FindCourseUnique | obe-portal-backend/api/views/attainment.py:65-66 | with course ids unique, as the primary key makes them (models.py:100), the lookup finds the one course carrying the id |
| Store.CoursesOf | obe-portal-backend/api/views/attainment.py:17 | a course is listed exactly when it is in the table and belongs to the program |
| Store.CourseAssessments | obe-portal-backend/api/views/attainment.py:42 | an assessment is listed exactly when it is in the table and held in a section of the course |
| Store.SectionCourseLookupFails | obe-portal-backend/api/views/attainment.py:42 | as written, the `section__course` query is refused for every course, since a section has no `course` to traverse |
| Store.SectionAssessments | obe-portal-backend/api/views/attainment.py:112 | an assessment is listed exactly when it is in the table, held in a section of the course, and held in the enrollment's section |
| Store.MarksOf | obe-portal-backend/api/views/attainment.py:44 | a mark is listed exactly when it is in the table and recorded against the assessment |
| Store.EnrollmentsOf | obe-portal-backend/api/views/attainment.py:107 | an enrollment is listed exactly when it is in the table and belongs to the student |
| Store.MappingsOf | obe-portal-backend/api/views/attainment.py:22 | a mapping row is listed exactly when it is in the table and belongs to the course |
| Store.UniqueMarksGetMark | obe-portal-backend/api/models.py:228 | under the (student, assessment) uniqueness constraint the single-mark lookup never finds several rows |
| CoAggregation.FindQuestion | obe-portal-backend/api/views/attainment.py:47 | no question is found exactly when no question has the score's key; otherwise the result is the first question with that key |
| CoAggregation.MatchedPairs | obe-portal-backend/api/views/attainment.py:46-48 | soundness and a bound: every aggregated pair holds a score of the mark and the question that score's key finds first, and there are no more pairs than scores |
| CoAggregation.MatchedScoreKept | obe-portal-backend/api/views/attainment.py:46-48 | a score whose key finds a question is kept exactly once, at its own position, paired with the first question carrying that key |
| CoAggregation.Percentage | obe-portal-backend/api/views/attainment.py:55-56 | a non-positive total gives 0; otherwise the value times the total is 100 times the scored sum; scored within [0, total] gives a value within [0, 100] |
| CoAggregation.MatchedPairsAppend | obe-portal-backend/api/views/attainment.py:46-48 | matching is score by score: the pairs of a concatenation are the concatenated pairs |
| CoAggregation.UnmatchedScoreSkipped | obe-portal-backend/api/views/attainment.py:47-48 | removing a score whose key matches no question, wherever it sits, leaves the matched pairs unchanged |
| CoAggregation.CoEntriesCounted | obe-portal-backend/api/views/attainment.py:49-53 | a question listing a CO n times adds n times its `maxMarks` and n times the score's `marks` to that CO, repeats included |
| CoAggregation.TotalAppend | obe-portal-backend/api/views/attainment.py:52-53 | a CO's sums over two runs of contributions add up |
| CoAggregation.CoEntriesTotal | obe-portal-backend/api/views/attainment.py:49-53 | a question listing each CO once adds its full `maxMarks` and the full `marks` to each listed CO, and nothing to any other |
| CoAggregation.FanOutNotDivided | obe-portal-backend/api/views/attainment.py:49-53 | one more matched pair raises each listed CO's sums by the whole `maxMarks` and `marks`, not by a share |
| CoAggregation.TotalsArePairSums | obe-portal-backend/api/views/attainment.py:43-53 | a CO's `total_marks` is the sum of `maxMarks`, and its `scored_marks` the sum of `marks`, over the matched pairs whose question lists the CO |
| CoAggregation.FanOutOrigin | obe-portal-backend/api/views/attainment.py:49-53 | every contribution comes from a matched pair whose question lists its CO, and every CO listed by a matched pair's question receives a contribution |
| CoAggregation.AttainmentKeys | obe-portal-backend/api/views/attainment.py:49-51 | the result has exactly one key per CO listed by the question of some matched pair, so a question with no COs adds no key |
| CoAggregation.AttainmentIsRatioOfPairSums | obe-portal-backend/api/views/attainment.py:55-56 | each CO's value is the percentage of its pair sums of `marks` over `maxMarks` |
| CoAggregation.ScoredWithinTotal | obe-portal-backend/api/views/attainment.py:52-53 | when every contribution has 0 <= marks <= maxMarks, every CO's scored sum lies between 0 and its total |
| CoAggregation.AttainmentBounded | obe-portal-backend/api/views/attainment.py:55-56 | when every matched score lies between 0 and its question's `maxMarks`, every CO's value lies in [0, 100] |
| CoAggregation.AddPair | obe-portal-backend/api/views/attainment.py:49-53 | the CO loop leaves the accumulator map of the earlier contributions plus this score's contributions, creating a CO's entry at zero on first encounter |
| CoAggregation.AddScores | obe-portal-backend/api/views/attainment.py:46-53 | the score loop of one mark leaves the accumulator map of the earlier contributions plus those of the mark's matched scores |
| CoAggregation.Finalize | obe-portal-backend/api/views/attainment.py:55-56 | the rewrite keeps the key set and replaces each CO's accumulator by its percentage |
| Scoping.MarksPairsOrigin | obe-portal-backend/api/views/attainment.py:45-48 | every pair of an assessment's marks comes from one of those marks' scores and the question it matches |
| Scoping.AssessmentsPairsOrigin | obe-portal-backend/api/views/attainment.py:43-48 | every pair of a run of assessments comes from a mark recorded against one of them |
| Scoping.CoursePairsOrigin | obe-portal-backend/api/views/attainment.py:42-48 | every pair a course aggregates comes from a mark on an assessment held in a section of that course |
| Scoping.CoursePairsComplete | obe-portal-backend/api/views/attainment.py:42-53 | every matched score of every mark on an assessment held in a section of the course is aggregated for the course |
| Scoping.StudentMarkPairs | obe-portal-backend/api/views/attainment.py:114-125 | one assessment fails exactly when two marks of the student exist for it, gives nothing when the student has no mark, and otherwise yields exactly the matched pairs of the student's one mark |
| Scoping.StudentPairsComplete | obe-portal-backend/api/views/attainment.py:107-123 | when the student's aggregation succeeds, every matched score of the student's own mark on an assessment of an enrolled course, held in the enrolled section, is aggregated |
| Scoping.StudentAssessmentsPairsAppend | obe-portal-backend/api/views/attainment.py:113-125 | the student's assessments are aggregated one at a time: the result over a concatenation joins the results over the parts |
| Scoping.StudentAssessmentsFailureFinal | obe-portal-backend/api/views/attainment.py:114-115 | once an assessment with several marks of the student is met, the whole enrollment's aggregation fails |
| Scoping.StudentEnrollmentsFailureFinal | obe-portal-backend/api/views/attainment.py:110-115 | once one enrollment fails, the student's whole aggregation fails |
| Scoping.MissingMarkSkipped | obe-portal-backend/api/views/attainment.py:124-125 | an assessment without a mark of the student can be removed, wherever it sits, without changing the result |
| Scoping.UniqueMarksNoFault | obe-portal-backend/api/models.py:228 | under the (student, assessment) uniqueness constraint the student's aggregation never fails |
| Scoping.StudentPairsOrigin | obe-portal-backend/api/views/attainment.py:107-123 | every pair a student aggregates is a score of that student's own mark, on an assessment of the enrolled course held in the enrolled section |
| RollUp.GroupSnoc | obe-portal-backend/api/views/attainment.py:26-33 | one more row creates its PO's bucket empty when absent and appends its entry, leaving other buckets alone |
| RollUp.GroupCountsEveryRow | obe-portal-backend/api/views/attainment.py:24-33 | the buckets hold as many entries as there are rows: nothing is dropped or duplicated |
| RollUp.GroupPlacement | obe-portal-backend/api/views/attainment.py:26-33 | each row's entry sits in its PO's bucket, right after the entries of the earlier rows of that PO |
| RollUp.GroupKeepsOrder | obe-portal-backend/api/views/attainment.py:29-33 | two rows of one PO keep their relative order inside its bucket |
| RollUp.RowsFollowMappings | obe-portal-backend/api/views/attainment.py:20-33 | the program's rows correspond one to one, in course-then-mapping order, to its courses' mapping rows |
| RollUp.ProgramRollUp | obe-portal-backend/api/views/attainment.py:17-33 | every mapping row of every course of the program yields exactly one entry, in its PO's bucket and in iteration order, with the CO's attainment or 0 and the level unchanged; the entry count equals the mapping count |
| RollUp.UnscoredCoRollsUpAsZero | obe-portal-backend/api/views/attainment.py:31 | a CO no matched score reaches, or one whose accumulated `total_marks` (repeats included) is not positive, rolls up with attainment 0 |
| RollUp.NoMarksAvailableRollsUpAsZero | obe-portal-backend/api/views/attainment.py:31 | when each question lists each CO once, a CO whose `maxMarks` sum over its matched pairs is not positive rolls up with attainment 0 |
| AttainmentViews.GroupAppend | obe-portal-backend/api/views/attainment.py:26-33 | the bucket update as the view performs it yields the bucket map of the rows plus the new row |
| AttainmentViews.FinalizedAttainment | obe-portal-backend/api/views/attainment.py:55-58 | the map the rewrite builds from a list's accumulators is that list's attainment map |
| AttainmentViews.AddMarks | obe-portal-backend/api/views/attainment.py:44-53 | the mark loop of one assessment adds the contributions of all its marks' matched scores to the accumulator |
| AttainmentViews.CalculateCoAttainment | obe-portal-backend/api/views/attainment.py:40-58 | the aggregator returns the attainment map of every matched score of every mark of every assessment of the course |
| AttainmentViews.AddMappings | obe-portal-backend/api/views/attainment.py:22-33 | the mapping loop of one course leaves the bucket map of the earlier rows plus this course's mapping rows |
| AttainmentViews.GetProgramAttainment | obe-portal-backend/api/views/attainment.py:10-38 | an unknown program answers "Program not found"; otherwise the answer holds the bucket map of the program's rows |
| AttainmentViews.GetCourseAttainment | obe-portal-backend/api/views/attainment.py:63-75 | an unknown course answers "Course not found"; otherwise the answer holds the course and its CO attainment |
| AttainmentViews.AddStudentAssessments | obe-portal-backend/api/views/attainment.py:112-125 | the assessment loop of one enrollment adds the student's matched scores, skips an assessment without a mark, and fails when an assessment has several marks |
| AttainmentViews.GetStudentAttainment | obe-portal-backend/api/views/attainment.py:100-133 | an unknown student answers "Student not found"; several marks on one assessment fail the request; otherwise the answer holds the attainment of the student's own scores |
| Permissions.HasRole | obe-portal-backend/api/permissions.py:17 | grants exactly a user account with the role; reading the role of the anonymous user raises |
| Permissions.IsAdminOrReadOnly | obe-portal-backend/api/permissions.py:7-10 | a safe method is always granted; otherwise only an admin account is granted, and the anonymous user raises |
| Permissions.IsAdminUser | obe-portal-backend/api/permissions.py:16-17 | grants exactly an admin account, whatever the method |
| Permissions.IsProgramCoordinator | obe-portal-backend/api/permissions.py:20-21 | grants exactly a program co-ordinator account, whatever the method |
| Permissions.IsDepartmentHead | obe-portal-backend/api/permissions.py:24-25 | grants exactly a department account, whatever the method |
| Permissions.AdminOnlyWithinAdminOrReadOnly | obe-portal-backend/api/permissions.py:10-17 | whatever `IsAdminUser` grants, `IsAdminOrReadOnly` grants too |
| Permissions.RoleChecksExclusive | obe-portal-backend/api/permissions.py:17-25 | no request passes two of the three role checks |
| Permissions.RoleChecksIgnoreMethod | obe-portal-backend/api/permissions.py:16-25 | changing the HTTP method does not change any role check's verdict |
| Permissions.ReadOnlyRoles | obe-portal-backend/api/models.py:55-61 | a teacher or university account passes no role check and may only use safe methods |
| Scenario.ScenarioMatches | obe-portal-backend/api/views/attainment.py:46-48 | in the worked course every score finds its question |
| Scenario.ScenarioFanOut | obe-portal-backend/api/views/attainment.py:49-53 | in the worked course the two-CO question contributes to both COs |
| Scenario.ScenarioAccumulators | obe-portal-backend/api/views/attainment.py:49-53 | the worked course accumulates 22 of 30 marks for the first CO and 8 of 10 for the second |
| Scenario.ScenarioCoAttainment | obe-portal-backend/api/views/attainment.py:40-58 | the worked course's CO attainment is 220/3 (73.33...) and 80 percent |
| Scenario.ScenarioCoursePairs | obe-portal-backend/api/views/attainment.py:42-48 | in a store holding the worked course, its one assessment and two marks, the course's scoping reaches exactly those marks' matched scores |
| Scenario.ScenarioCourseAttainment | obe-portal-backend/api/views/attainment.py:40-58 | the aggregator run on that store gives 220/3 (73.33...) and 80 percent |
| Scenario.ScenarioRollUp | obe-portal-backend/api/views/attainment.py:24-33 | mapping both COs to one PO gives one bucket holding both entries, in mapping order, with their levels |

## Left out

- Floating point: percentages are exact reals. Python's float division and its rounding are not modelled.
- Dictionary key order: maps are unordered. The insertion order of keys in `po_attainment` and `co_attainment` is not modelled. The order of entries inside a bucket is modelled.
- The final rewrite of `co_attainment` (attainment.py:55-56) updates the dictionary in place while iterating over it. `CoAggregation.Finalize` builds a new map with the same keys and values instead.
- Response bodies hold identifiers rather than serialized objects. `ProgramSerializer`, `CourseSerializer` and `StudentSerializer`, the `po` object in a bucket and the `co` object in an entry are represented by their ids.
- HTTP framing: the status code 404 and the `Response` wrapper become the `NotFound` variant. The `IsAuthenticated` guard on the three views, and the way the URL supplies the id, are outside the model.
- JSON values: question keys are strings, marks and `maxMarks` are integers, and the `questions` and `scores` lists are well-formed. Malformed JSON (a missing key, a non-numeric mark) raises in Python and is not modelled.
- Query order: each database query is an order-preserving filter over a table held in row order. The database's actual row order is not modelled.
- The CO-PO mapping level range 1-3 (models.py:194) and the (co, po) uniqueness (models.py:202) are not needed by any property and are not imposed.
- Duplicate CO ids in one question's `coIds` are counted once per occurrence, as the loop does; `CoAggregation.CoEntriesCounted` and `RollUp.UnscoredCoRollsUpAsZero` cover repeats. The members below state their sums for the case without repeats.
- CoAggregation.TotalsArePairSums: assumes each question lists each CO once, because with repeats a CO's total is a weighted rather than a plain sum over the pairs.
- CoAggregation.AttainmentIsRatioOfPairSums: assumes each question lists each CO once, for the same reason.
- CoAggregation.CoEntriesTotal: assumes the question lists each CO once; `CoAggregation.CoEntriesCounted` gives the general count.
- CoAggregation.FanOutNotDivided: assumes the question lists each CO once; `CoAggregation.CoEntriesCounted` gives the general count.
- RollUp.NoMarksAvailableRollsUpAsZero: assumes each question lists each CO once; `RollUp.UnscoredCoRollsUpAsZero` states the general case.
- The `section__course` field error: the model runs the intended query, not the failing one. `Store.SectionCourseLookupFails` records the query as written (see "## Findings").
- `sectionCourse` maps each section to one course. If a section teaches several courses, as the enrollment table (course and section together) suggests, that is not captured; nothing in the schema records which course a section's assessment belongs to.
- Permissions: a request with no user at all is denied, and the framework's anonymous user, which has no `role`, makes the check raise. Authentication itself is outside the model.
- Everything outside the attainment views and the permission checks is not part of this model: the CRUD views, the reporting views that re-invoke these views, serializers, URL routing, token issuance and data seeding.

## Findings

| source | as written | input that shows it | evidently intended | confidence | as-written member | corrected member |
|---|---|---|---|---|---|---|
| obe-portal-backend/api/views/attainment.py:42 | the assessments of a course are filtered on `section__course`, but a section has no `course` field (models.py:131-135), so the query raises a field error; the same filter sits at lines 79 and 112 | any course id that exists, in any store | the assessments held in the sections that teach the course | not executed | Store.SectionCourseLookupFails | Store.CourseAssessments |
