/** The PO roll-up: every CO-PO mapping row of every course of a program appends one
    `{co, attainment, mapping_level}` entry to the bucket of its PO.

    `ProgramRows` lists the appended entries in iteration order (course, then mapping),
    each with its PO; `Group` is the bucket map those rows build. */
module RollUp {
  import opened Common
  import opened Store
  import opened CoAggregation
  import opened Scoping

  /** `{'co': co, 'attainment': ..., 'mapping_level': level}`. */
  datatype CoEntry = CoEntry(co: Id, attainment: real, mappingLevel: int)

  /** `{'po': po, 'co_attainments': [...]}`. */
  datatype Bucket = Bucket(po: Id, coAttainments: seq<CoEntry>)

  /** One appended entry together with the PO whose bucket receives it. */
  datatype Row = Row(po: Id, entry: CoEntry)

  /** `co_attainment.get(co, 0)`. */
  function AttainmentOrZero(att: map<Id, real>, co: Id): real
  {
    if co in att then att[co] else 0.0
  }

  /** The entry one mapping row appends, given its course's CO attainment map. */
  function MappingRow(m: CoPoMapping, att: map<Id, real>): Row
  {
    Row(m.po, CoEntry(m.co, AttainmentOrZero(att, m.co), m.level))
  }

  function MappingRows(mappings: seq<CoPoMapping>, att: map<Id, real>): seq<Row>
  {
    seq(|mappings|, i requires 0 <= i < |mappings| => MappingRow(mappings[i], att))
  }

  /** The rows of a program's courses, course by course, each course's mappings in order. */
  function ProgramRows(store: Store, courses: seq<Course>): seq<Row>
    decreases |courses|
  {
    if courses == [] then []
    else
      var c := courses[|courses| - 1];
      ProgramRows(store, courses[..|courses| - 1]) + MappingRows(MappingsOf(store, c.id), CourseCoAttainment(store, c.id))
  }

  /** The mapping rows of the courses, course by course. */
  function ProgramMappings(store: Store, courses: seq<Course>): seq<CoPoMapping>
    decreases |courses|
  {
    if courses == [] then []
    else ProgramMappings(store, courses[..|courses| - 1]) + MappingsOf(store, courses[|courses| - 1].id)
  }

  /** The entries destined for `po`, in row order. */
  function Project(rows: seq<Row>, po: Id): seq<CoEntry>
    decreases |rows|
  {
    if rows == [] then []
    else
      var last := rows[|rows| - 1];
      Project(rows[..|rows| - 1], po) + (if last.po == po then [last.entry] else [])
  }

  function PoIds(rows: seq<Row>): set<Id>
  {
    set r | r in rows :: r.po
  }

  /** The bucket map: one bucket per PO some row names, holding that PO's entries in row order. */
  function Group(rows: seq<Row>): map<Id, Bucket>
  {
    map po | po in PoIds(rows) :: Bucket(po, Project(rows, po))
  }

  /** The number of entries over all buckets. */
  ghost function EntryCount(buckets: map<Id, Bucket>): nat
    decreases |buckets|
  {
    if buckets == map[] then 0
    else
      var po := Pick(buckets);
      assert (buckets - {po}).Keys == buckets.Keys - {po};
      |buckets[po].coAttainments| + EntryCount(buckets - {po})
  }

  ghost function Pick(buckets: map<Id, Bucket>): (po: Id)
    requires buckets != map[]
    ensures po in buckets
  {
    var po :| po in buckets; po
  }

  // ---------------------------------------------------------------------------
  // Lemmas

  lemma ProgramRowsSnoc(store: Store, courses: seq<Course>, i: nat)
    requires i < |courses|
    ensures ProgramRows(store, courses[..i + 1]) ==
            ProgramRows(store, courses[..i]) + MappingRows(MappingsOf(store, courses[i].id), CourseCoAttainment(store, courses[i].id))
  {
    assert courses[..i + 1][..i] == courses[..i];
  }

  lemma MappingRowsSnoc(mappings: seq<CoPoMapping>, att: map<Id, real>, j: nat)
    requires j < |mappings|
    ensures MappingRows(mappings[..j + 1], att) == MappingRows(mappings[..j], att) + [MappingRow(mappings[j], att)]
  {
  }

  lemma {:induction false} ProjectAbsent(rows: seq<Row>, po: Id)
    requires po !in PoIds(rows)
    ensures Project(rows, po) == []
    decreases |rows|
  {
    if rows != [] {
      var init := rows[..|rows| - 1];
      assert PoIds(init) <= PoIds(rows);
      ProjectAbsent(init, po);
    }
  }

  lemma {:induction false} ProjectAppend(a: seq<Row>, b: seq<Row>, po: Id)
    ensures Project(a + b, po) == Project(a, po) + Project(b, po)
    decreases |b|
  {
    if b == [] {
      assert a + b == a;
    } else {
      var init := b[..|b| - 1];
      assert (a + b)[..|a + b| - 1] == a + init;
      ProjectAppend(a, init, po);
    }
  }

  /** One more row: its PO's bucket is created empty on first encounter, then the entry is appended. */
  lemma GroupSnoc(rows: seq<Row>, x: Row)
    ensures var g := Group(rows);
            var current := if x.po in g then g[x.po].coAttainments else [];
            Group(rows + [x]) == g[x.po := Bucket(x.po, current + [x.entry])]
  {
    var grown := rows + [x];
    assert grown[..|grown| - 1] == rows;
    assert PoIds(grown) == PoIds(rows) + {x.po} by {
      assert x in grown;
      forall r | r in rows ensures r in grown { }
      forall r | r in grown ensures r in rows || r == x { }
    }
    if x.po !in PoIds(rows) {
      ProjectAbsent(rows, x.po);
    }
    assert Project(grown, x.po) == Project(rows, x.po) + [x.entry];
    forall po | po != x.po
      ensures Project(grown, po) == Project(rows, po)
    {
      assert Project(grown, po) == Project(rows, po) + [];
    }
  }

  lemma {:induction false} EntryCountRemove(buckets: map<Id, Bucket>, po: Id)
    requires po in buckets
    ensures EntryCount(buckets) == |buckets[po].coAttainments| + EntryCount(buckets - {po})
    decreases |buckets|
  {
    var picked := Pick(buckets);
    if picked != po {
      var without := buckets - {picked};
      assert without.Keys == buckets.Keys - {picked};
      assert (buckets - {po}).Keys == buckets.Keys - {po};
      EntryCountRemove(without, po);
      EntryCountRemove(buckets - {po}, picked);
      assert without - {po} == (buckets - {po}) - {picked};
    }
  }

  lemma EntryCountUpdate(buckets: map<Id, Bucket>, po: Id, b: Bucket)
    ensures EntryCount(buckets[po := b]) ==
            EntryCount(buckets) - (if po in buckets then |buckets[po].coAttainments| else 0) + |b.coAttainments|
  {
    EntryCountRemove(buckets[po := b], po);
    assert buckets[po := b] - {po} == buckets - {po};
    if po in buckets {
      EntryCountRemove(buckets, po);
    } else {
      assert buckets - {po} == buckets;
    }
  }

  /** The buckets hold one entry per row: nothing is dropped or duplicated. */
  lemma {:induction false} GroupCountsEveryRow(rows: seq<Row>)
    ensures EntryCount(Group(rows)) == |rows|
    decreases |rows|
  {
    if rows == [] {
      assert Group(rows) == map[];
    } else {
      var init, x := rows[..|rows| - 1], rows[|rows| - 1];
      assert rows == init + [x];
      GroupCountsEveryRow(init);
      GroupSnoc(init, x);
      var g := Group(init);
      var current := if x.po in g then g[x.po].coAttainments else [];
      EntryCountUpdate(g, x.po, Bucket(x.po, current + [x.entry]));
    }
  }

  /** Row `i` lands in the bucket of its PO, after exactly the earlier rows of that PO. */
  lemma GroupPlacement(rows: seq<Row>, i: nat)
    requires i < |rows|
    ensures rows[i].po in Group(rows)
    ensures var rank := |Project(rows[..i], rows[i].po)|;
            rank < |Group(rows)[rows[i].po].coAttainments| &&
            Group(rows)[rows[i].po].coAttainments[rank] == rows[i].entry
  {
    var po := rows[i].po;
    assert rows[i] in rows;
    assert rows == rows[..i] + ([rows[i]] + rows[i + 1..]);
    ProjectAppend(rows[..i], [rows[i]] + rows[i + 1..], po);
    ProjectAppend([rows[i]], rows[i + 1..], po);
    assert Project([rows[i]], po) == [rows[i].entry] by {
      assert [rows[i]][..0] == [];
    }
  }

  /** Two rows of the same PO keep their relative order inside the bucket. */
  lemma GroupKeepsOrder(rows: seq<Row>, i: nat, j: nat)
    requires i < j < |rows| && rows[i].po == rows[j].po
    ensures |Project(rows[..i], rows[i].po)| < |Project(rows[..j], rows[j].po)|
  {
    var po := rows[i].po;
    assert rows[..j] == rows[..i] + ([rows[i]] + rows[i + 1..j]);
    ProjectAppend(rows[..i], [rows[i]] + rows[i + 1..j], po);
    ProjectAppend([rows[i]], rows[i + 1..j], po);
    assert Project([rows[i]], po) == [rows[i].entry] by {
      assert [rows[i]][..0] == [];
    }
  }

  /** Row `i` of a program is the entry of mapping row `i`, with the attainment computed for
      that mapping's own course, or 0 when the CO is absent from it. */
  lemma {:induction false} RowsFollowMappings(store: Store, courses: seq<Course>)
    ensures |ProgramRows(store, courses)| == |ProgramMappings(store, courses)|
    ensures forall i :: 0 <= i < |ProgramRows(store, courses)| ==>
      var m := ProgramMappings(store, courses)[i];
      ProgramRows(store, courses)[i] == MappingRow(m, CourseCoAttainment(store, m.course))
    decreases |courses|
  {
    if courses != [] {
      var init, c := courses[..|courses| - 1], courses[|courses| - 1];
      RowsFollowMappings(store, init);
      var ms := MappingsOf(store, c.id);
      var rows, maps := ProgramRows(store, courses), ProgramMappings(store, courses);
      assert rows == ProgramRows(store, init) + MappingRows(ms, CourseCoAttainment(store, c.id));
      assert maps == ProgramMappings(store, init) + ms;
      forall i | 0 <= i < |rows|
        ensures rows[i] == MappingRow(maps[i], CourseCoAttainment(store, maps[i].course))
      {
        var n := |ProgramRows(store, init)|;
        if i >= n {
          assert ms[i - n] in ms;
        }
      }
    }
  }

  /** The roll-up of a program, stated over its mapping rows: the buckets hold exactly one
      entry per mapping row of the program's courses, each in the bucket of its PO and
      after the earlier rows of that PO, carrying the CO, the CO's attainment in its course
      (0 when absent) and the mapping level unchanged. */
  lemma ProgramRollUp(store: Store, programId: Id)
    ensures var courses := CoursesOf(store, programId);
            var buckets := Group(ProgramRows(store, courses));
            var maps := ProgramMappings(store, courses);
            && |ProgramRows(store, courses)| == |maps|
            && EntryCount(buckets) == |maps|
            && forall i :: 0 <= i < |maps| ==>
                 var rank := |Project(ProgramRows(store, courses)[..i], maps[i].po)|;
                 && maps[i].po in buckets
                 && rank < |buckets[maps[i].po].coAttainments|
                 && buckets[maps[i].po].coAttainments[rank] ==
                      CoEntry(maps[i].co, AttainmentOrZero(CourseCoAttainment(store, maps[i].course), maps[i].co), maps[i].level)
  {
    var courses := CoursesOf(store, programId);
    var rows := ProgramRows(store, courses);
    RowsFollowMappings(store, courses);
    GroupCountsEveryRow(rows);
    forall i | 0 <= i < |rows|
      ensures var rank := |Project(rows[..i], rows[i].po)|;
              && rows[i].po in Group(rows)
              && rank < |Group(rows)[rows[i].po].coAttainments|
              && Group(rows)[rows[i].po].coAttainments[rank] == rows[i].entry
    {
      GroupPlacement(rows, i);
    }
  }

  /** A CO that no matched score of its course reaches, or whose `maxMarks` sum is not
      positive, rolls up with attainment 0 rather than failing. */
  lemma UnscoredCoRollsUpAsZero(store: Store, courseId: Id, co: Id)
    requires co !in ListedCoIds(CoursePairs(store, courseId)) || Total(FanOut(CoursePairs(store, courseId)), co) <= 0
    ensures AttainmentOrZero(CourseCoAttainment(store, courseId), co) == 0.0
  {
    AttainmentKeys(CoursePairs(store, courseId));
  }

  /** When every question lists each CO once, the `maxMarks` sum over the matched pairs
      listing the CO is its total; a non-positive one rolls up as 0. */
  lemma NoMarksAvailableRollsUpAsZero(store: Store, courseId: Id, co: Id)
    requires DistinctCoIds(CoursePairs(store, courseId))
    requires PairTotal(CoursePairs(store, courseId), co) <= 0
    ensures AttainmentOrZero(CourseCoAttainment(store, courseId), co) == 0.0
  {
    TotalsArePairSums(CoursePairs(store, courseId), co);
  }

}
