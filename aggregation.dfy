/** The CO aggregator: scores are matched to questions, every matched score
    contributes its question's `maxMarks` and its own `marks` to every CO the question
    lists, and each CO's sums are reduced to a percentage.

    The specification is layered. `MatchedPairs` says which (question, score) pairs
    count; `FanOut` turns each pair into one `Entry` per listed CO; `Total` and
    `Scored` sum the entries of one CO; `AccOf` and `Attainment` are the maps those sums
    give. The loops in `AddScores` and `Finalize` are proved against them. */
module CoAggregation {
  import opened Common
  import opened Store

  /** A score together with the question it was matched to. */
  datatype Pair = Pair(question: Question, score: Score)

  /** One contribution to one CO: the question's `maxMarks` and the score's `marks`. */
  datatype Entry = Entry(co: Id, maxMarks: int, marks: int)

  /** A CO's running sums, `{'total_marks', 'scored_marks'}`. */
  datatype Acc = Acc(total: int, scored: int)

  // ---------------------------------------------------------------------------
  // Matching scores to questions

  /** Index of the first question whose key is `q`, or `|questions|` when there is none. */
  function QuestionIndex(questions: seq<Question>, q: string): (r: nat)
    ensures r <= |questions|
    ensures forall j :: 0 <= j < r ==> questions[j].q != q
    ensures r < |questions| ==> questions[r].q == q
  {
    if questions == [] then 0
    else if questions[0].q == q then 0
    else 1 + QuestionIndex(questions[1..], q)
  }

  /** The first question whose key is `q`, or None when no question has that key. */
  function FindQuestion(questions: seq<Question>, q: string): (r: Option<Question>)
    ensures r.None? <==> forall j :: 0 <= j < |questions| ==> questions[j].q != q
    ensures r.Some? ==> exists i :: 0 <= i < |questions| && questions[i] == r.value && r.value.q == q &&
                                    forall j :: 0 <= j < i ==> questions[j].q != q
  {
    var i := QuestionIndex(questions, q);
    if i < |questions| then Some(questions[i]) else None
  }

  /** The scores of one mark that found a question, each paired with that question, in score order. */
  function MatchedPairs(questions: seq<Question>, scores: seq<Score>): (r: seq<Pair>)
    ensures |r| <= |scores|
    ensures forall p :: p in r ==> p.score in scores && FindQuestion(questions, p.score.q) == Some(p.question)
    decreases |scores|
  {
    if scores == [] then []
    else
      var last := scores[|scores| - 1];
      MatchedPairs(questions, scores[..|scores| - 1]) +
        match FindQuestion(questions, last.q)
        case Some(question) => [Pair(question, last)]
        case None => []
  }

  // ---------------------------------------------------------------------------
  // Fan-out to COs and the per-CO sums

  /** The contributions of a question listing `coIds`, scored `marks` out of `maxMarks`. */
  function CoEntries(coIds: seq<Id>, maxMarks: int, marks: int): seq<Entry>
  {
    seq(|coIds|, i requires 0 <= i < |coIds| => Entry(coIds[i], maxMarks, marks))
  }

  function PairEntries(p: Pair): seq<Entry>
  {
    CoEntries(p.question.coIds, p.question.maxMarks, p.score.marks)
  }

  /** All contributions of a sequence of matched pairs, in order. */
  function FanOut(pairs: seq<Pair>): seq<Entry>
    decreases |pairs|
  {
    if pairs == [] then [] else FanOut(pairs[..|pairs| - 1]) + PairEntries(pairs[|pairs| - 1])
  }

  /** The sum of `maxMarks` over the contributions to `co`. */
  function Total(entries: seq<Entry>, co: Id): int
    decreases |entries|
  {
    if entries == [] then 0
    else
      var last := entries[|entries| - 1];
      Total(entries[..|entries| - 1], co) + (if last.co == co then last.maxMarks else 0)
  }

  /** The sum of `marks` over the contributions to `co`. */
  function Scored(entries: seq<Entry>, co: Id): int
    decreases |entries|
  {
    if entries == [] then 0
    else
      var last := entries[|entries| - 1];
      Scored(entries[..|entries| - 1], co) + (if last.co == co then last.marks else 0)
  }

  /** The COs that received at least one contribution. */
  function CoIdsOf(entries: seq<Entry>): set<Id>
  {
    set e | e in entries :: e.co
  }

  /** The accumulator map after all of `entries`: one key per CO that received a contribution. */
  function AccOf(entries: seq<Entry>): map<Id, Acc>
  {
    map co | co in CoIdsOf(entries) :: Acc(Total(entries, co), Scored(entries, co))
  }

  /** `scored / total * 100`, or 0 when the total is not positive. Real arithmetic is exact. */
  function Percentage(acc: Acc): (r: real)
    ensures acc.total <= 0 ==> r == 0.0
    ensures acc.total > 0 ==> r * (acc.total as real) == 100.0 * (acc.scored as real)
    ensures 0 <= acc.scored <= acc.total ==> 0.0 <= r <= 100.0
  {
    if acc.total > 0 then (acc.scored as real) / (acc.total as real) * 100.0 else 0.0
  }

  /** The CO attainment map the contributions give. */
  function Attainment(entries: seq<Entry>): map<Id, real>
  {
    map co | co in CoIdsOf(entries) :: Percentage(Acc(Total(entries, co), Scored(entries, co)))
  }

  // ---------------------------------------------------------------------------
  // Lemmas the loops use

  lemma {:induction false} NotListedIsZero(entries: seq<Entry>, co: Id)
    requires co !in CoIdsOf(entries)
    ensures Total(entries, co) == 0 && Scored(entries, co) == 0
    decreases |entries|
  {
    if entries != [] {
      var init := entries[..|entries| - 1];
      assert CoIdsOf(init) <= CoIdsOf(entries);
      NotListedIsZero(init, co);
    }
  }

  lemma SumsSnoc(entries: seq<Entry>, x: Entry, co: Id)
    ensures Total(entries + [x], co) == Total(entries, co) + (if x.co == co then x.maxMarks else 0)
    ensures Scored(entries + [x], co) == Scored(entries, co) + (if x.co == co then x.marks else 0)
  {
    assert (entries + [x])[..|entries|] == entries;
  }

  lemma CoIdsSnoc(entries: seq<Entry>, x: Entry)
    ensures CoIdsOf(entries + [x]) == CoIdsOf(entries) + {x.co}
  {
    var grown := entries + [x];
    assert x in grown;
    forall e | e in entries ensures e in grown { }
    forall e | e in grown ensures e in entries || e == x { }
  }

  /** One more contribution: the CO's accumulator is created at zero if absent, then bumped. */
  lemma AccOfSnoc(entries: seq<Entry>, x: Entry)
    ensures var acc := AccOf(entries);
            var cur := if x.co in acc then acc[x.co] else Acc(0, 0);
            AccOf(entries + [x]) == acc[x.co := Acc(cur.total + x.maxMarks, cur.scored + x.marks)]
  {
    var acc := AccOf(entries);
    var cur := if x.co in acc then acc[x.co] else Acc(0, 0);
    var expected := acc[x.co := Acc(cur.total + x.maxMarks, cur.scored + x.marks)];
    var grown := AccOf(entries + [x]);
    CoIdsSnoc(entries, x);
    assert grown.Keys == expected.Keys;
    if x.co !in CoIdsOf(entries) {
      NotListedIsZero(entries, x.co);
    }
    forall co | co in expected
      ensures grown[co] == expected[co]
    {
      SumsSnoc(entries, x, co);
    }
  }

  /** The inner loop's step: the accumulator after one more CO of the same question. */
  lemma AddEntryStep(before: seq<Entry>, coIds: seq<Id>, l: nat, maxMarks: int, marks: int)
    requires l < |coIds|
    ensures var acc := AccOf(before + CoEntries(coIds[..l], maxMarks, marks));
            var cur := if coIds[l] in acc then acc[coIds[l]] else Acc(0, 0);
            AccOf(before + CoEntries(coIds[..l + 1], maxMarks, marks)) == acc[coIds[l] := Acc(cur.total + maxMarks, cur.scored + marks)]
  {
    AfterEntriesSnoc(before, coIds, l, maxMarks, marks);
    AccOfSnoc(before + CoEntries(coIds[..l], maxMarks, marks), Entry(coIds[l], maxMarks, marks));
  }

  lemma AfterEntriesSnoc(before: seq<Entry>, coIds: seq<Id>, l: nat, maxMarks: int, marks: int)
    requires l < |coIds|
    ensures before + CoEntries(coIds[..l + 1], maxMarks, marks) ==
            (before + CoEntries(coIds[..l], maxMarks, marks)) + [Entry(coIds[l], maxMarks, marks)]
  {
    CoEntriesSnoc(coIds, l, maxMarks, marks);
  }

  lemma CoEntriesSnoc(coIds: seq<Id>, l: nat, maxMarks: int, marks: int)
    requires l < |coIds|
    ensures CoEntries(coIds[..l + 1], maxMarks, marks) == CoEntries(coIds[..l], maxMarks, marks) + [Entry(coIds[l], maxMarks, marks)]
  {
  }

  lemma MatchedPairsSnoc(questions: seq<Question>, scores: seq<Score>, k: nat)
    requires k < |scores|
    ensures MatchedPairs(questions, scores[..k + 1]) ==
            MatchedPairs(questions, scores[..k]) +
              match FindQuestion(questions, scores[k].q)
              case Some(question) => [Pair(question, scores[k])]
              case None => []
  {
    assert scores[..k + 1][..k] == scores[..k];
  }

  lemma FanOutSnoc(pairs: seq<Pair>, p: Pair)
    ensures FanOut(pairs + [p]) == FanOut(pairs) + PairEntries(p)
  {
    assert (pairs + [p])[..|pairs|] == pairs;
  }

  lemma {:induction false} FanOutAppend(a: seq<Pair>, b: seq<Pair>)
    ensures FanOut(a + b) == FanOut(a) + FanOut(b)
    decreases |b|
  {
    if b == [] {
      assert a + b == a;
    } else {
      var init, x := b[..|b| - 1], b[|b| - 1];
      assert a + b == (a + init) + [x];
      assert b == init + [x];
      calc {
        FanOut(a + b);
        { FanOutSnoc(a + init, x); }
        FanOut(a + init) + PairEntries(x);
        { FanOutAppend(a, init); }
        FanOut(a) + FanOut(init) + PairEntries(x);
        { FanOutSnoc(init, x); }
        FanOut(a) + FanOut(b);
      }
    }
  }

  // ---------------------------------------------------------------------------
  // Properties of the specification

  /** No CO id is listed twice by one question. */
  predicate Distinct(coIds: seq<Id>)
  {
    forall i, j :: 0 <= i < j < |coIds| ==> coIds[i] != coIds[j]
  }

  /** Every question in `pairs` lists each of its COs once. */
  predicate DistinctCoIds(pairs: seq<Pair>)
  {
    forall p :: p in pairs ==> Distinct(p.question.coIds)
  }

  /** The sum of `maxMarks` over the matched pairs whose question lists `co`. */
  function PairTotal(pairs: seq<Pair>, co: Id): int
    decreases |pairs|
  {
    if pairs == [] then 0
    else
      var last := pairs[|pairs| - 1];
      PairTotal(pairs[..|pairs| - 1], co) + (if co in last.question.coIds then last.question.maxMarks else 0)
  }

  /** The sum of `marks` over the matched pairs whose question lists `co`. */
  function PairScored(pairs: seq<Pair>, co: Id): int
    decreases |pairs|
  {
    if pairs == [] then 0
    else
      var last := pairs[|pairs| - 1];
      PairScored(pairs[..|pairs| - 1], co) + (if co in last.question.coIds then last.score.marks else 0)
  }

  /** The COs listed by the question of some matched pair. */
  function ListedCoIds(pairs: seq<Pair>): set<Id>
  {
    set p, c | p in pairs && c in p.question.coIds :: c
  }

  /** Entry `e` is one of the contributions pair `p` makes. */
  predicate Contributes(p: Pair, e: Entry)
  {
    e.co in p.question.coIds && e.maxMarks == p.question.maxMarks && e.marks == p.score.marks
  }

  lemma {:induction false} MatchedPairsAppend(questions: seq<Question>, a: seq<Score>, b: seq<Score>)
    ensures MatchedPairs(questions, a + b) == MatchedPairs(questions, a) + MatchedPairs(questions, b)
    decreases |b|
  {
    if b == [] {
      assert a + b == a;
    } else {
      var init := b[..|b| - 1];
      assert (a + b)[..|a + b| - 1] == a + init;
      MatchedPairsAppend(questions, a, init);
    }
  }

  /** A score whose key matches no question contributes nothing: removing it, wherever it
      stands, leaves the matched pairs, and so every CO's sums, unchanged. */
  lemma UnmatchedScoreSkipped(questions: seq<Question>, scores: seq<Score>, k: nat)
    requires k < |scores| && FindQuestion(questions, scores[k].q).None?
    ensures MatchedPairs(questions, scores[..k] + scores[k + 1..]) == MatchedPairs(questions, scores)
  {
    var front, s, back := scores[..k], scores[k], scores[k + 1..];
    assert scores == front + ([s] + back);
    assert MatchedPairs(questions, [s]) == [] by {
      assert [s][..0] == [];
    }
    calc {
      MatchedPairs(questions, scores);
      { MatchedPairsAppend(questions, front, [s] + back); }
      MatchedPairs(questions, front) + MatchedPairs(questions, [s] + back);
      { MatchedPairsAppend(questions, [s], back); }
      MatchedPairs(questions, front) + MatchedPairs(questions, back);
      { MatchedPairsAppend(questions, front, back); }
      MatchedPairs(questions, front + back);
    }
  }

  /** A score whose key matches a question is kept, once, at its own position: it yields
      the pair of that first question and itself, between the pairs of the scores before
      it and those of the scores after it. */
  lemma MatchedScoreKept(questions: seq<Question>, scores: seq<Score>, k: nat)
    requires k < |scores| && FindQuestion(questions, scores[k].q).Some?
    ensures MatchedPairs(questions, scores) ==
            MatchedPairs(questions, scores[..k]) + [Pair(FindQuestion(questions, scores[k].q).value, scores[k])] +
            MatchedPairs(questions, scores[k + 1..])
  {
    var front, s, back := scores[..k], scores[k], scores[k + 1..];
    var pair := Pair(FindQuestion(questions, s.q).value, s);
    assert scores == front + ([s] + back);
    assert MatchedPairs(questions, [s]) == [pair] by {
      assert [s][..0] == [];
    }
    calc {
      MatchedPairs(questions, scores);
      { MatchedPairsAppend(questions, front, [s] + back); }
      MatchedPairs(questions, front) + MatchedPairs(questions, [s] + back);
      { MatchedPairsAppend(questions, [s], back); }
      MatchedPairs(questions, front) + ([pair] + MatchedPairs(questions, back));
      MatchedPairs(questions, front) + [pair] + MatchedPairs(questions, back);
    }
  }

  lemma {:induction false} TotalAppend(a: seq<Entry>, b: seq<Entry>, co: Id)
    ensures Total(a + b, co) == Total(a, co) + Total(b, co)
    ensures Scored(a + b, co) == Scored(a, co) + Scored(b, co)
    decreases |b|
  {
    if b == [] {
      assert a + b == a;
    } else {
      var init := b[..|b| - 1];
      assert (a + b)[..|a + b| - 1] == a + init;
      TotalAppend(a, init, co);
    }
  }

  /** A question listing each CO once gives each listed CO its full `maxMarks` and `marks`,
      and every other CO nothing. */
  lemma {:induction false} CoEntriesTotal(coIds: seq<Id>, maxMarks: int, marks: int, co: Id)
    requires Distinct(coIds)
    ensures Total(CoEntries(coIds, maxMarks, marks), co) == if co in coIds then maxMarks else 0
    ensures Scored(CoEntries(coIds, maxMarks, marks), co) == if co in coIds then marks else 0
    decreases |coIds|
  {
    if coIds != [] {
      var n := |coIds| - 1;
      var init := coIds[..n];
      CoEntriesSnoc(coIds, n, maxMarks, marks);
      assert coIds[..n + 1] == coIds;
      var es := CoEntries(coIds, maxMarks, marks);
      assert es[..|es| - 1] == CoEntries(init, maxMarks, marks);
      assert Distinct(init);
      CoEntriesTotal(init, maxMarks, marks, co);
      assert co in coIds <==> co in init || co == coIds[n];
      assert coIds[n] == co ==> co !in init;
    }
  }

  /** For any `coIds`, repeats included: each CO receives the full `maxMarks` and `marks`
      once per occurrence in the list. */
  lemma {:induction false} CoEntriesCounted(coIds: seq<Id>, maxMarks: int, marks: int, co: Id)
    ensures Total(CoEntries(coIds, maxMarks, marks), co) == multiset(coIds)[co] * maxMarks
    ensures Scored(CoEntries(coIds, maxMarks, marks), co) == multiset(coIds)[co] * marks
    decreases |coIds|
  {
    if coIds == [] {
      assert CoEntries(coIds, maxMarks, marks) == [];
    } else {
      var init, last := coIds[..|coIds| - 1], coIds[|coIds| - 1];
      var prev, x := CoEntries(init, maxMarks, marks), Entry(last, maxMarks, marks);
      assert coIds == init + [last];
      assert CoEntries(coIds, maxMarks, marks) == prev + [x];
      SumsSnoc(prev, x, co);
      CoEntriesCounted(init, maxMarks, marks, co);
      var n := multiset(init)[co];
      if last == co {
        assert multiset(coIds)[co] == n + 1;
        MultiplyStep(n, maxMarks);
        MultiplyStep(n, marks);
      } else {
        assert multiset(coIds)[co] == n;
      }
    }
  }

  lemma MultiplyStep(n: int, m: int)
    ensures (n + 1) * m == n * m + m
  {
  }


  /** Fan-out, not dilution: one more matched pair adds its question's full `maxMarks` and its
      score's full `marks` to every CO the question lists, and nothing to any other CO. */
  lemma FanOutNotDivided(pairs: seq<Pair>, p: Pair, co: Id)
    requires Distinct(p.question.coIds)
    ensures Total(FanOut(pairs + [p]), co) == Total(FanOut(pairs), co) + if co in p.question.coIds then p.question.maxMarks else 0
    ensures Scored(FanOut(pairs + [p]), co) == Scored(FanOut(pairs), co) + if co in p.question.coIds then p.score.marks else 0
  {
    FanOutSnoc(pairs, p);
    TotalAppend(FanOut(pairs), PairEntries(p), co);
    CoEntriesTotal(p.question.coIds, p.question.maxMarks, p.score.marks, co);
  }

  /** A CO's accumulated sums are the sums over the matched pairs whose question lists it. */
  lemma {:induction false} TotalsArePairSums(pairs: seq<Pair>, co: Id)
    requires DistinctCoIds(pairs)
    ensures Total(FanOut(pairs), co) == PairTotal(pairs, co)
    ensures Scored(FanOut(pairs), co) == PairScored(pairs, co)
    decreases |pairs|
  {
    if pairs != [] {
      var init, last := pairs[..|pairs| - 1], pairs[|pairs| - 1];
      assert pairs == init + [last];
      TotalsArePairSums(init, co);
      FanOutNotDivided(init, last, co);
    }
  }

  /** Every contribution comes from a matched pair, and every CO listed by a matched pair's
      question receives a contribution. */
  lemma {:induction false} FanOutOrigin(pairs: seq<Pair>)
    ensures forall e :: e in FanOut(pairs) ==> exists p :: p in pairs && Contributes(p, e)
    ensures forall p, c :: p in pairs && c in p.question.coIds ==> c in CoIdsOf(FanOut(pairs))
    decreases |pairs|
  {
    if pairs != [] {
      var init, last := pairs[..|pairs| - 1], pairs[|pairs| - 1];
      FanOutOrigin(init);
      var out := FanOut(pairs);
      assert out == FanOut(init) + PairEntries(last);
      forall e | e in out
        ensures exists p :: p in pairs && Contributes(p, e)
      {
        if e in FanOut(init) {
          var p :| p in init && Contributes(p, e);
          assert p in pairs;
        } else {
          var i :| 0 <= i < |PairEntries(last)| && PairEntries(last)[i] == e;
          assert Contributes(last, e);
        }
      }
      forall p, c | p in pairs && c in p.question.coIds
        ensures c in CoIdsOf(out)
      {
        if p in init {
          assert c in CoIdsOf(FanOut(init));
          var e :| e in FanOut(init) && e.co == c;
          assert e in out;
        } else {
          var i :| 0 <= i < |p.question.coIds| && p.question.coIds[i] == c;
          assert PairEntries(last)[i] in out;
        }
      }
    }
  }

  /** The attainment map has exactly one key per CO listed by the question of some matched
      pair: a question with no COs adds no key, and an unmatched score adds none. */
  lemma AttainmentKeys(pairs: seq<Pair>)
    ensures Attainment(FanOut(pairs)).Keys == ListedCoIds(pairs)
  {
    FanOutOrigin(pairs);
    forall c | c in CoIdsOf(FanOut(pairs))
      ensures c in ListedCoIds(pairs)
    {
      var e :| e in FanOut(pairs) && e.co == c;
      var p :| p in pairs && Contributes(p, e);
    }
  }

  /** The attainment of each CO is `100 * sum(marks) / sum(maxMarks)` over the matched pairs
      whose question lists it, or 0 when that sum of `maxMarks` is not positive. */
  lemma AttainmentIsRatioOfPairSums(pairs: seq<Pair>, co: Id)
    requires DistinctCoIds(pairs)
    requires co in ListedCoIds(pairs)
    ensures co in Attainment(FanOut(pairs))
    ensures Attainment(FanOut(pairs))[co] == Percentage(Acc(PairTotal(pairs, co), PairScored(pairs, co)))
  {
    AttainmentKeys(pairs);
    TotalsArePairSums(pairs, co);
  }

  lemma {:induction false} ScoredWithinTotal(entries: seq<Entry>, co: Id)
    requires forall e :: e in entries ==> 0 <= e.marks <= e.maxMarks
    ensures 0 <= Scored(entries, co) <= Total(entries, co)
    decreases |entries|
  {
    if entries != [] {
      var init := entries[..|entries| - 1];
      assert forall e :: e in init ==> e in entries;
      ScoredWithinTotal(init, co);
    }
  }

  /** When every matched score lies between 0 and its question's `maxMarks`, every CO's
      attainment lies between 0 and 100. */
  lemma AttainmentBounded(pairs: seq<Pair>)
    requires forall p :: p in pairs ==> 0 <= p.score.marks <= p.question.maxMarks
    ensures forall co :: co in Attainment(FanOut(pairs)) ==> 0.0 <= Attainment(FanOut(pairs))[co] <= 100.0
  {
    FanOutOrigin(pairs);
    forall co | co in Attainment(FanOut(pairs))
      ensures 0.0 <= Attainment(FanOut(pairs))[co] <= 100.0
    {
      forall e | e in FanOut(pairs)
        ensures 0 <= e.marks <= e.maxMarks
      {
        var p :| p in pairs && Contributes(p, e);
      }
      ScoredWithinTotal(FanOut(pairs), co);
    }
  }

  // ---------------------------------------------------------------------------
  // The loops

  /** Lines 49-53: a matched score adds the question's `maxMarks` and its own `marks` to
      every CO the question lists, creating a CO's accumulator at zero on first sight.
      Started from the accumulator of the contributions `before`, it ends with that of
      `before` followed by the pair's contributions. */
  method AddPair(acc: map<Id, Acc>, question: Question, score: Score, ghost before: seq<Entry>)
    returns (r: map<Id, Acc>)
    requires acc == AccOf(before)
    ensures r == AccOf(before + PairEntries(Pair(question, score)))
  {
    r := acc;
    assert before + CoEntries(question.coIds[..0], question.maxMarks, score.marks) == before;
    var l := 0;
    while l < |question.coIds|
      invariant 0 <= l <= |question.coIds|
      invariant r == AccOf(before + CoEntries(question.coIds[..l], question.maxMarks, score.marks))
    {
      var coId := question.coIds[l];
      var cur := if coId in r then r[coId] else Acc(0, 0);
      AddEntryStep(before, question.coIds, l, question.maxMarks, score.marks);
      r := r[coId := Acc(cur.total + question.maxMarks, cur.scored + score.marks)];
      l := l + 1;
    }
    assert question.coIds[..|question.coIds|] == question.coIds;
  }

  /** The score loop's step: a matched score appends its pair's contributions; an
      unmatched one leaves the matched pairs as they were. */
  lemma AddScoreStep(before: seq<Entry>, questions: seq<Question>, scores: seq<Score>, k: nat)
    requires k < |scores|
    ensures FindQuestion(questions, scores[k].q).None? ==>
              MatchedPairs(questions, scores[..k + 1]) == MatchedPairs(questions, scores[..k])
    ensures FindQuestion(questions, scores[k].q).Some? ==>
              before + FanOut(MatchedPairs(questions, scores[..k + 1])) ==
              before + FanOut(MatchedPairs(questions, scores[..k])) +
                PairEntries(Pair(FindQuestion(questions, scores[k].q).value, scores[k]))
  {
    MatchedPairsSnoc(questions, scores, k);
    var found := FindQuestion(questions, scores[k].q);
    if found.Some? {
      FanOutSnoc(MatchedPairs(questions, scores[..k]), Pair(found.value, scores[k]));
    } else {
      assert MatchedPairs(questions, scores[..k]) + [] == MatchedPairs(questions, scores[..k]);
    }
  }

  /** Lines 46-53: every score of one mark is matched to the first question with its key;
      a score with no such question is skipped. Started from the accumulator of the
      contributions `before`, it ends with that of `before` followed by this mark's
      contributions. */
  method AddScores(acc: map<Id, Acc>, questions: seq<Question>, scores: seq<Score>, ghost before: seq<Entry>)
    returns (r: map<Id, Acc>)
    requires acc == AccOf(before)
    ensures r == AccOf(before + FanOut(MatchedPairs(questions, scores)))
  {
    r := acc;
    assert scores[..0] == [];
    assert before + FanOut([]) == before;
    var k := 0;
    while k < |scores|
      invariant 0 <= k <= |scores|
      invariant r == AccOf(before + FanOut(MatchedPairs(questions, scores[..k])))
    {
      var score := scores[k];
      AddScoreStep(before, questions, scores, k);
      var found := FindQuestion(questions, score.q);
      if found.Some? {
        r := AddPair(r, found.value, score, before + FanOut(MatchedPairs(questions, scores[..k])));
      }
      k := k + 1;
    }
    assert scores[..|scores|] == scores;
  }

  /** Lines 55-56: every accumulator is replaced by its percentage; the key set is unchanged. */
  method Finalize(acc: map<Id, Acc>) returns (r: map<Id, real>)
    ensures r.Keys == acc.Keys
    ensures forall co :: co in acc ==> r[co] == Percentage(acc[co])
  {
    r := map[];
    var pending := acc.Keys;
    while pending != {}
      invariant pending <= acc.Keys
      invariant r.Keys == acc.Keys - pending
      invariant forall co :: co in r ==> r[co] == Percentage(acc[co])
      decreases pending
    {
      var coId :| coId in pending;
      r := r[coId := Percentage(acc[coId])];
      pending := pending - {coId};
    }
  }
}
