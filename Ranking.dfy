/** The risk-factor tables: one (label, importance) entry per feature, sorted by
    importance from the largest down (`sort_values('Importância', ascending=False)`). */
module Ranking {

  /** One entry of a risk-factor table. */
  datatype Importance = Importance(factor: string, weight: real)

  /** Importances never increase from one entry to the next. */
  predicate SortedDesc(s: seq<Importance>)
  {
    forall i, j :: 0 <= i < j < |s| ==> s[i].weight >= s[j].weight
  }

  /** Inserts `x` into the descending list `s` after every entry at least as heavy. */
  function Insert(x: Importance, s: seq<Importance>): (r: seq<Importance>)
    requires SortedDesc(s)
    ensures SortedDesc(r)
    ensures forall e :: e in r ==> e == x || e in s
    ensures multiset(r) == multiset(s) + multiset{x}
  {
    if |s| == 0 then [x]
    else if x.weight > s[0].weight then [x] + s
    else
      var rest := Insert(x, s[1..]);
      var r := [s[0]] + rest;
      assert SortedDesc(r) by {
        forall i, j | 0 <= i < j < |r|
          ensures r[i].weight >= r[j].weight
        {
          if i == 0 {
            assert r[j] in rest;
          } else {
            assert r[i] == rest[i - 1] && r[j] == rest[j - 1];
          }
        }
      }
      assert s == [s[0]] + s[1..];
      r
  }

  /** Sorts entries by descending importance. The contract does not specify the order
      of entries of equal importance. */
  function SortDesc(s: seq<Importance>): (r: seq<Importance>)
    ensures SortedDesc(r)
    ensures multiset(r) == multiset(s)
  {
    if |s| == 0 then []
    else
      assert s == s[..|s| - 1] + [s[|s| - 1]];
      Insert(s[|s| - 1], SortDesc(s[..|s| - 1]))
  }

  /** Sorting keeps the entries (as a permutation), so it keeps their number and
      their labels. */
  lemma SortDescEntries(s: seq<Importance>)
    ensures |SortDesc(s)| == |s|
    ensures forall e :: e in SortDesc(s) <==> e in s
  {
    var r := SortDesc(s);
    assert |multiset(r)| == |multiset(s)|;
    forall e
      ensures e in r <==> e in s
    {
      assert e in r <==> e in multiset(r);
      assert e in s <==> e in multiset(s);
    }
  }
}
