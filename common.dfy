/** Small shared vocabulary: an optional value and order-preserving selection from a sequence. */
module Common {

  datatype Option<+T> = None | Some(value: T)

  /** The elements of `s` that satisfy `p`, in their original order. This is what a
      database query with a `filter(...)` clause yields over a table held in row order. */
  function Filter<T(!new)>(s: seq<T>, p: T -> bool): (r: seq<T>)
    ensures |r| <= |s|
    ensures forall x :: x in r <==> x in s && p(x)
    decreases |s|
  {
    if s == [] then []
    else Filter(s[..|s| - 1], p) + (if p(s[|s| - 1]) then [s[|s| - 1]] else [])
  }

  /** Appending one row to the table appends it to the selection exactly when it qualifies. */
  lemma FilterSnoc<T(!new)>(s: seq<T>, x: T, p: T -> bool)
    ensures Filter(s + [x], p) == Filter(s, p) + (if p(x) then [x] else [])
  {
    assert (s + [x])[..|s + [x]| - 1] == s;
  }

  /** A selection from rows none of which qualifies is empty. */
  lemma {:induction false} FilterNone<T(!new)>(s: seq<T>, p: T -> bool)
    requires forall i :: 0 <= i < |s| ==> !p(s[i])
    ensures Filter(s, p) == []
    decreases |s|
  {
    if s != [] {
      FilterNone(s[..|s| - 1], p);
    }
  }

  /** When no two rows of `s` both satisfy `p`, the selection holds at most one row. */
  lemma {:induction false} FilterAtMostOne<T(!new)>(s: seq<T>, p: T -> bool)
    requires forall i, j :: 0 <= i < j < |s| && p(s[i]) ==> !p(s[j])
    ensures |Filter(s, p)| <= 1
    decreases |s|
  {
    if s != [] {
      var init := s[..|s| - 1];
      FilterAtMostOne(init, p);
      if p(s[|s| - 1]) {
        FilterNone(init, p);
      }
    }
  }

  /** The selection holds at least two rows exactly when two distinct rows qualify. */
  lemma {:induction false} FilterAtLeastTwo<T(!new)>(s: seq<T>, p: T -> bool)
    ensures |Filter(s, p)| >= 2 <==> exists i, j :: 0 <= i < j < |s| && p(s[i]) && p(s[j])
    decreases |s|
  {
    if s != [] {
      var init, last := s[..|s| - 1], s[|s| - 1];
      var before := Filter(init, p);
      FilterAtLeastTwo(init, p);
      if p(last) {
        if |before| >= 1 {
          assert before[0] in before;
          var i :| 0 <= i < |init| && init[i] == before[0];
          assert p(s[i]) && p(s[|s| - 1]);
        } else {
          forall i, j | 0 <= i < j < |s|
            ensures !(p(s[i]) && p(s[j]))
          {
            assert s[i] == init[i] && init[i] in init;
          }
        }
      } else {
        forall i, j | 0 <= i < j < |s| && p(s[i]) && p(s[j])
          ensures 0 <= i < j < |init| && p(init[i]) && p(init[j])
        {
        }
      }
    }
  }
}
