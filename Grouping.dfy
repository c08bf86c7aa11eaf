/** The table operations the forecasting engine relies on: the distinct values of a
    column in order of first appearance, the rows of one disease, and the last row of
    every clinic with the clinics in ascending name order. */
module Grouping {
  import opened Records

  /** No value occurs twice. */
  predicate NoDuplicates<T(==)>(s: seq<T>)
  {
    forall i, j :: 0 <= i < j < |s| ==> s[i] != s[j]
  }

  /** `unique()`: the distinct values of `xs`, in order of first appearance. */
  function Unique(xs: seq<Disease>): seq<Disease>
  {
    if |xs| == 0 then []
    else
      var u := Unique(xs[..|xs| - 1]);
      if xs[|xs| - 1] in u then u else u + [xs[|xs| - 1]]
  }

  /** Index of the first occurrence of `x` in `xs`. */
  function FirstIndex(xs: seq<Disease>, x: Disease): (i: nat)
    requires x in xs
    ensures i < |xs| && xs[i] == x && x !in xs[..i]
  {
    var n := |xs| - 1;
    if x in xs[..n] then
      var i := FirstIndex(xs[..n], x);
      assert xs[..n][..i] == xs[..i];
      i
    else n
  }

  /** An occurrence with no earlier occurrence is the first one. */
  lemma FirstIndexAt(xs: seq<Disease>, x: Disease, i: nat)
    requires i < |xs| && xs[i] == x && x !in xs[..i]
    ensures FirstIndex(xs, x) == i
  {
  }

  /** The distinct values are exactly the values of `xs`, each once, and they come out
      in the order of their first occurrences. */
  lemma {:induction false} UniqueSpec(xs: seq<Disease>)
    ensures forall x :: x in Unique(xs) <==> x in xs
    ensures NoDuplicates(Unique(xs))
    ensures forall i, j :: 0 <= i < j < |Unique(xs)| ==> FirstIndex(xs, Unique(xs)[i]) < FirstIndex(xs, Unique(xs)[j])
  {
    if |xs| > 0 {
      var n := |xs| - 1;
      var front := xs[..n];
      UniqueSpec(front);
      assert xs == front + [xs[n]];
      forall x | x in Unique(front)
        ensures FirstIndex(xs, x) == FirstIndex(front, x) < n
      {
      }
    }
  }

  /** The disease column of a table. */
  function DiseaseColumn(rows: seq<Row>): seq<Disease>
  {
    seq(|rows|, i requires 0 <= i < |rows| => rows[i].disease)
  }

  /** The rows of disease `d`, in table order (`df[df['doenca'] == d]`). */
  function OfDisease(rows: seq<Row>, d: Disease): seq<Row>
  {
    if |rows| == 0 then []
    else
      var front := OfDisease(rows[..|rows| - 1], d);
      if rows[|rows| - 1].disease == d then front + [rows[|rows| - 1]] else front
  }

  /** The rows of disease `d` are exactly the table's rows of that disease. */
  lemma {:induction false} OfDiseaseSpec(rows: seq<Row>, d: Disease)
    ensures |OfDisease(rows, d)| <= |rows|
    ensures forall x :: x in OfDisease(rows, d) <==> x in rows && x.disease == d
  {
    if |rows| > 0 {
      var front := rows[..|rows| - 1];
      OfDiseaseSpec(front, d);
      assert rows == front + [rows[|rows| - 1]];
    }
  }

  /** Filtering works block by block: the rows of `d` in `a + b` are those of `a`
      followed by those of `b`. With OfDiseaseOne this pins the filter down to keeping
      every row of `d`, each once, in table order. */
  lemma {:induction false} OfDiseaseConcat(a: seq<Row>, b: seq<Row>, d: Disease)
    ensures OfDisease(a + b, d) == OfDisease(a, d) + OfDisease(b, d)
  {
    if |b| == 0 {
      assert a + b == a;
    } else {
      var n := |b| - 1;
      OfDiseaseConcat(a, b[..n], d);
      assert (a + b)[..|a + b| - 1] == a + b[..n];
    }
  }

  /** A single row is kept exactly when it is of disease `d`. */
  lemma OfDiseaseOne(x: Row, d: Disease)
    ensures OfDisease([x], d) == if x.disease == d then [x] else []
  {
    assert [x][..0] == [];
  }

  /** Python's string order: code point by code point, a proper prefix first. */
  predicate LexLess(a: string, b: string)
  {
    if |a| == 0 then |b| > 0
    else if |b| == 0 then false
    else if a[0] == b[0] then LexLess(a[1..], b[1..])
    else a[0] < b[0]
  }

  lemma {:induction false} LexIrreflexive(a: string)
    ensures !LexLess(a, a)
  {
    if |a| > 0 {
      LexIrreflexive(a[1..]);
    }
  }

  lemma {:induction false} LexTransitive(a: string, b: string, c: string)
    requires LexLess(a, b) && LexLess(b, c)
    ensures LexLess(a, c)
  {
    if |a| > 0 && |b| > 0 && |c| > 0 && a[0] == b[0] == c[0] {
      LexTransitive(a[1..], b[1..], c[1..]);
    }
  }

  lemma {:induction false} LexTotal(a: string, b: string)
    ensures a == b || LexLess(a, b) || LexLess(b, a)
  {
    if |a| > 0 && |b| > 0 && a[0] == b[0] {
      LexTotal(a[1..], b[1..]);
      if a[1..] == b[1..] {
        assert a == [a[0]] + a[1..] && b == [b[0]] + b[1..];
      }
    }
  }

  /** The clinic names of a table. */
  function Names(rows: seq<Row>): set<string>
  {
    set r | r in rows :: r.clinic
  }

  /** Rows in strictly ascending order of clinic name: so no clinic twice. */
  predicate StrictlySorted(g: seq<Row>)
  {
    forall i, j :: 0 <= i < j < |g| ==> LexLess(g[i].clinic, g[j].clinic)
  }

  /** The last row of clinic `name` in `rows`. */
  function LastWith(rows: seq<Row>, name: string): (r: Row)
    requires name in Names(rows)
    ensures r in rows && r.clinic == name
  {
    var n := |rows| - 1;
    if rows[n].clinic == name then rows[n]
    else
      assert name in Names(rows[..n]) by {
        var x :| x in rows && x.clinic == name;
        var i :| 0 <= i < |rows| && rows[i] == x;
        assert rows[..n][i] == x;
      }
      LastWith(rows[..n], name)
  }

  /** Puts `r` into the list `g`: in place of the first row with the same clinic if
      there is one, otherwise before the first row whose name sorts after its own. */
  function InsertOrReplace(g: seq<Row>, r: Row): seq<Row>
  {
    if |g| == 0 then [r]
    else if g[0].clinic == r.clinic then [r] + g[1..]
    else if LexLess(r.clinic, g[0].clinic) then [r] + g
    else [g[0]] + InsertOrReplace(g[1..], r)
  }

  /** InsertOrReplace puts `r` in, drops the first row with the same clinic if there
      is one, and keeps every row of another clinic. */
  lemma {:induction false} InsertOrReplaceMembers(g: seq<Row>, r: Row)
    ensures r in InsertOrReplace(g, r)
    ensures forall x :: x in InsertOrReplace(g, r) ==> x == r || x in g
    ensures forall x :: x in g && x.clinic != r.clinic ==> x in InsertOrReplace(g, r)
  {
    if |g| > 0 && g[0].clinic != r.clinic && !LexLess(r.clinic, g[0].clinic) {
      InsertOrReplaceMembers(g[1..], r);
      assert g == [g[0]] + g[1..];
    }
  }

  /** In a list sorted strictly by name, the row InsertOrReplace drops is the only one
      with `r`'s clinic, and the order stays strict. */
  lemma {:induction false} InsertOrReplaceSpec(g: seq<Row>, r: Row)
    requires StrictlySorted(g)
    ensures StrictlySorted(InsertOrReplace(g, r))
    ensures r in InsertOrReplace(g, r)
    ensures forall x :: x in InsertOrReplace(g, r) ==> x == r || (x in g && x.clinic != r.clinic)
    ensures forall x :: x in g && x.clinic != r.clinic ==> x in InsertOrReplace(g, r)
    decreases |g|, 1
  {
    InsertOrReplaceMembers(g, r);
    if |g| == 0 {
    } else if g[0].clinic == r.clinic {
      forall i | 1 <= i < |g|
        ensures g[i].clinic != r.clinic
      {
        LexIrreflexive(r.clinic);
      }
    } else if LexLess(r.clinic, g[0].clinic) {
      LexIrreflexive(r.clinic);
      forall i | 0 < i < |g|
        ensures LexLess(r.clinic, g[i].clinic)
      {
        LexTransitive(r.clinic, g[0].clinic, g[i].clinic);
      }
    } else {
      InsertOrReplaceSorted(g, r);
    }
  }

  /** The recursive case of InsertOrReplaceSpec: `r` sorts after the head. */
  lemma {:induction false} InsertOrReplaceSorted(g: seq<Row>, r: Row)
    requires StrictlySorted(g)
    requires |g| > 0 && g[0].clinic != r.clinic && !LexLess(r.clinic, g[0].clinic)
    ensures StrictlySorted(InsertOrReplace(g, r))
    ensures forall x :: x in InsertOrReplace(g, r) ==> x == r || (x in g && x.clinic != r.clinic)
    decreases |g|, 0
  {
    LexTotal(r.clinic, g[0].clinic);
    InsertOrReplaceSpec(g[1..], r);
    var rest := InsertOrReplace(g[1..], r);
    assert forall x :: x in g[1..] ==> LexLess(g[0].clinic, x.clinic);
    assert g == [g[0]] + g[1..];
    forall i, j | 0 <= i < j < |[g[0]] + rest|
      ensures LexLess(([g[0]] + rest)[i].clinic, ([g[0]] + rest)[j].clinic)
    {
      if i == 0 {
        assert rest[j - 1] in rest;
      }
    }
  }

  /** `groupby('clinica_da_familia').last().reset_index()` on a table with no missing
      values: one row per clinic, its last one, sorted by clinic name. */
  function GroupLast(rows: seq<Row>): seq<Row>
  {
    if |rows| == 0 then []
    else InsertOrReplace(GroupLast(rows[..|rows| - 1]), rows[|rows| - 1])
  }

  /** The group-by result is sorted strictly by clinic name; with it, every step of
      GroupLast meets InsertOrReplaceSpec. */
  lemma {:induction false} GroupLastSorted(rows: seq<Row>)
    ensures StrictlySorted(GroupLast(rows))
  {
    if |rows| > 0 {
      GroupLastSorted(rows[..|rows| - 1]);
      InsertOrReplaceSpec(GroupLast(rows[..|rows| - 1]), rows[|rows| - 1]);
    }
  }

  /** Sorted strictly by name, so no clinic occurs twice. */
  lemma SortedDistinct(g: seq<Row>)
    requires StrictlySorted(g)
    ensures forall i, j :: 0 <= i < j < |g| ==> g[i].clinic != g[j].clinic
  {
    forall i, j | 0 <= i < j < |g|
      ensures g[i].clinic != g[j].clinic
    {
      LexIrreflexive(g[i].clinic);
    }
  }

  /** The group-by keeps exactly the clinics of the table. */
  lemma {:induction false} GroupLastNames(rows: seq<Row>)
    ensures Names(GroupLast(rows)) == Names(rows)
  {
    if |rows| > 0 {
      var n := |rows| - 1;
      var front := rows[..n];
      var last := rows[n];
      GroupLastNames(front);
      GroupLastSorted(front);
      InsertOrReplaceSpec(GroupLast(front), last);
      assert rows == front + [last];
      assert Names(rows) == Names(front) + {last.clinic};
      var g := GroupLast(rows);
      forall name | name in Names(rows)
        ensures name in Names(g)
      {
        if name != last.clinic {
          var y :| y in GroupLast(front) && y.clinic == name;
          assert y in g;
        }
      }
    }
  }

  /** Every row the group-by keeps is the last row of its clinic. */
  lemma {:induction false} GroupLastLast(rows: seq<Row>)
    ensures forall x :: x in GroupLast(rows) ==> x.clinic in Names(rows) && x == LastWith(rows, x.clinic)
  {
    if |rows| > 0 {
      var n := |rows| - 1;
      var front := rows[..n];
      var last := rows[n];
      GroupLastLast(front);
      GroupLastSorted(front);
      InsertOrReplaceSpec(GroupLast(front), last);
      assert rows == front + [last];
      forall x | x in GroupLast(rows)
        ensures x.clinic in Names(rows) && x == LastWith(rows, x.clinic)
      {
        if x != last {
          assert x in GroupLast(front);
          assert x.clinic in Names(front) && x.clinic != last.clinic;
        }
      }
    }
  }

  /** What the group-by produces: rows sorted by clinic name with no clinic twice,
      exactly the clinics of the table, and for each clinic its last row. */
  lemma GroupLastSpec(rows: seq<Row>)
    ensures StrictlySorted(GroupLast(rows))
    ensures forall i, j :: 0 <= i < j < |GroupLast(rows)| ==> GroupLast(rows)[i].clinic != GroupLast(rows)[j].clinic
    ensures Names(GroupLast(rows)) == Names(rows)
    ensures forall x :: x in GroupLast(rows) ==> x.clinic in Names(rows) && x == LastWith(rows, x.clinic)
  {
    GroupLastSorted(rows);
    SortedDistinct(GroupLast(rows));
    GroupLastNames(rows);
    GroupLastLast(rows);
  }

  /** The last row of clinic `name` among the rows of disease `d`. */
  function LastOf(rows: seq<Row>, name: string, d: Disease): (r: Row)
    requires name in Names(OfDisease(rows, d))
    ensures r in rows && r.clinic == name && r.disease == d
  {
    OfDiseaseSpec(rows, d);
    LastWith(OfDisease(rows, d), name)
  }

  /** LastOf is the latest row of the table with that clinic and disease: no later row
      has both. */
  lemma {:induction false} LastOfIndex(rows: seq<Row>, name: string, d: Disease)
    requires name in Names(OfDisease(rows, d))
    ensures exists i :: 0 <= i < |rows| && rows[i] == LastOf(rows, name, d) &&
              forall j :: i < j < |rows| ==> !(rows[j].clinic == name && rows[j].disease == d)
  {
    var n := |rows| - 1;
    var front := rows[..n];
    var f := OfDisease(front, d);
    OfDiseaseSpec(rows, d);
    OfDiseaseSpec(front, d);
    if rows[n].clinic == name && rows[n].disease == d {
      assert rows[n] == LastOf(rows, name, d);
    } else {
      if rows[n].disease == d {
        assert OfDisease(rows, d) == f + [rows[n]];
        assert (f + [rows[n]])[..|f|] == f;
      }
      assert name in Names(f) by {
        var x :| x in OfDisease(rows, d) && x.clinic == name;
        assert x in f;
      }
      assert LastOf(rows, name, d) == LastOf(front, name, d);
      LastOfIndex(front, name, d);
      var i :| 0 <= i < |front| && front[i] == LastOf(front, name, d) &&
               forall j :: i < j < |front| ==> !(front[j].clinic == name && front[j].disease == d);
      assert rows[i] == front[i];
      forall j | i < j < |rows|
        ensures !(rows[j].clinic == name && rows[j].disease == d)
      {
        if j < n {
          assert rows[j] == front[j];
        }
      }
    }
  }
}
