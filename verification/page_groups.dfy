/**
 * When the pages of separate queries make up the table. The server may return tied rows in another
 * order for every query, so a group of tied rows must not reach over the end of a page.
 */
module PageGroups {
  import opened DataPaging
  import opened Division
  import opened Sets

  /** The page size of both export loops. */
  const PAGE_SIZE := 500

  function Earlier(sorts: seq<Sort>, rows: set<Row>, r: Row): set<Row> { set x | x in rows && Before(sorts, x, r) }

  ghost function Group(sorts: seq<Sort>, rows: set<Row>, r: Row): set<Row> { set x | x in rows && Ties(sorts, x, r) }

  ghost predicate EachOnce(rows: set<Row>, out: seq<Row>) {
    && (forall r :: r in out <==> r in rows)
    && (forall i, j | 0 <= i < j < |out| :: out[i] != out[j])
  }

  /** The places that the rows tied with `r` take in any order lie on one page. */
  ghost predicate OnOnePage(sorts: seq<Sort>, rows: set<Row>, r: Row, size: nat)
    requires size >= 1
  {
    var before, group := |Earlier(sorts, rows, r)|, |Group(sorts, rows, r)|;
    before / size == (before + group - 1) / size
  }

  // ---- Places ----

  lemma {:induction false} DistinctSize(p: seq<Row>)
    requires forall i, j | 0 <= i < j < |p| :: p[i] != p[j]
    ensures |set x | x in p| == |p|
  {
    if p != [] {
      var n := |p| - 1;
      DistinctSize(p[..n]);
      assert (set x | x in p) == (set x | x in p[..n]) + {p[n]};
    }
  }

  lemma EarlierAndGroup(sorts: seq<Sort>, rows: set<Row>, r: Row)
    ensures |Earlier(sorts, rows, r) + Group(sorts, rows, r)| == |Earlier(sorts, rows, r)| + |Group(sorts, rows, r)|
  {
    hide Before, Ties;
    forall x | x in Earlier(sorts, rows, r)
      ensures x !in Group(sorts, rows, r)
    {
      Trichotomy(sorts, x, r);
    }
    assert Earlier(sorts, rows, r) !! Group(sorts, rows, r);
  }

  /** Whatever order the server chooses, a row stands among its group behind all earlier rows. */
  lemma PlaceBounds(sorts: seq<Sort>, rows: set<Row>, p: seq<Row>, i: nat)
    requires IsOrdering(sorts, rows, p) && i < |p|
    ensures var before, group := |Earlier(sorts, rows, p[i])|, |Group(sorts, rows, p[i])|;
      before <= i < before + group
  {
    hide Before, Ties;
    var earlier, group := Earlier(sorts, rows, p[i]), Group(sorts, rows, p[i]);
    var front := set x | x in p[..i];
    DistinctSize(p[..i]);
    DistinctSize(p[..i + 1]);
    forall x | x in earlier
      ensures x in front
    {
      Trichotomy(sorts, x, x);
      var j :| 0 <= j < |p| && p[j] == x;
      assert j < i;
      assert x == p[..i][j];
    }
    SubsetSize(earlier, front);
    var head := p[..i + 1];
    var upTo := set x | x in head;
    forall x | x in upTo
      ensures x in earlier + group
    {
      var j :| 0 <= j < i + 1 && head[j] == x;
      Trichotomy(sorts, x, p[i]);
      assert x == p[j] && p[j] in rows;
    }
    SubsetSize(upTo, earlier + group);
    EarlierAndGroup(sorts, rows, p[i]);
  }

  /** The places of a group hold its rows, in any order. */
  lemma GroupPlaces(sorts: seq<Sort>, rows: set<Row>, p: seq<Row>, r: Row, i: nat)
    requires IsOrdering(sorts, rows, p) && r in rows && i < |p|
    requires |Earlier(sorts, rows, r)| <= i < |Earlier(sorts, rows, r)| + |Group(sorts, rows, r)|
    ensures Ties(sorts, p[i], r)
  {
    hide Before, Ties;
    PlaceBounds(sorts, rows, p, i);
    var s := p[i];
    Trichotomy(sorts, s, r);
    var mine, other := Earlier(sorts, rows, s), Earlier(sorts, rows, r);
    if Before(sorts, s, r) {
      forall x | x in mine + Group(sorts, rows, s)
        ensures x in other
      {
        NotAfter(sorts, x, s, r);
      }
      EarlierAndGroup(sorts, rows, s);
      SubsetSize(mine + Group(sorts, rows, s), other);
    } else if Before(sorts, r, s) {
      forall x | x in other + Group(sorts, rows, r)
        ensures x in mine
      {
        NotAfter(sorts, x, r, s);
      }
      EarlierAndGroup(sorts, rows, r);
      SubsetSize(other + Group(sorts, rows, r), mine);
    }
  }

  /** Not after a row that comes before another means before that one. */
  lemma NotAfter(sorts: seq<Sort>, x: Row, s: Row, r: Row)
    requires (Before(sorts, x, s) || Ties(sorts, x, s)) && Before(sorts, s, r)
    ensures Before(sorts, x, r)
  {
    hide Before, Ties;
    Trichotomy(sorts, x, s);
    if !Before(sorts, x, r) {
      BeforeTransitive(sorts, r, x, s) by {
        assert !Before(sorts, x, r) && !Before(sorts, s, x);
      }
      assert false;
    }
  }

  // ---- Pages ----

  lemma {:induction false} PagesSize(answers: Answers, k: nat, offset: nat, size: nat, total: nat)
    requires size >= 1 && offset <= total && forall j :: |answers(j)| == total
    ensures |Pages(answers, k, offset, size, total)| == total - offset
    decreases total - offset
  {
    assert |answers(k)| == total;
    if offset + size < total {
      PagesSize(answers, k + 1, offset + size, size, total);
    }
  }

  lemma SliceAt(p: seq<Row>, offset: nat, count: nat, i: nat)
    requires i < count && offset + i < |p|
    ensures i < |Slice(p, offset, count)| && Slice(p, offset, count)[i] == p[offset + i]
    ensures offset + count <= |p| ==> |Slice(p, offset, count)| == count
  {}

  /** The `i`-th row of an export is the `i`-th row of the answer for its page. */
  lemma {:induction false} PagesAt(answers: Answers, k: nat, offset: nat, size: nat, total: nat, i: nat)
    requires size >= 1 && offset + i < total && forall j :: |answers(j)| == total
    ensures |Pages(answers, k, offset, size, total)| == total - offset
    ensures |answers(k + i / size)| == total && Pages(answers, k, offset, size, total)[i] == answers(k + i / size)[offset + i]
    decreases total - offset
  {
    hide Pages, Slice;
    PagesSize(answers, k, offset, size, total);
    PagesUnfold(answers, k, offset, size, total);
    assert |answers(k)| == total;
    SliceAt(answers(k), offset, size, 0);
    if i < size {
      DivIs(i, size, 0);
      SliceAt(answers(k), offset, size, i);
    } else {
      PagesAt(answers, k + 1, offset + size, size, total, i - size);
      DivNext(i - size, size);
      assert k + 1 + (i - size) / size == k + i / size;
    }
  }

  lemma AnswersSized(sorts: seq<Sort>, rows: set<Row>, answers: Answers)
    requires AllOrderings(sorts, rows, answers)
    ensures forall j :: |answers(j)| == |rows|
  {
    hide IsOrdering;
    forall j
      ensures |answers(j)| == |rows|
    {
      OrderingSize(sorts, rows, answers(j));
    }
  }

  lemma ExportAt(sorts: seq<Sort>, rows: set<Row>, answers: Answers, size: nat, i: nat)
    requires size >= 1 && AllOrderings(sorts, rows, answers) && i < |rows|
    ensures |Pages(answers, 0, 0, size, |rows|)| == |rows| == |answers(i / size)|
    ensures Pages(answers, 0, 0, size, |rows|)[i] == answers(i / size)[i]
  {
    hide Pages, IsOrdering;
    AnswersSized(sorts, rows, answers);
    PagesAt(answers, 0, 0, size, |rows|, i);
    assert 0 + i / size == i / size;
  }

  /** On one page per group, the place of a row in the export determines the page by the row alone. */
  lemma PageByRow(sorts: seq<Sort>, rows: set<Row>, answers: Answers, size: nat, i: nat)
    requires size >= 1 && AllOrderings(sorts, rows, answers) && i < |rows|
    requires forall r | r in rows :: OnOnePage(sorts, rows, r, size)
    ensures i < |Pages(answers, 0, 0, size, |rows|)|
    ensures var r := Pages(answers, 0, 0, size, |rows|)[i];
      r in rows && |Earlier(sorts, rows, r)| / size == i / size
  {
    hide Pages, Earlier, Group;
    ExportAt(sorts, rows, answers, size, i);
    var p := answers(i / size);
    assert IsOrdering(sorts, rows, p) && p[i] in rows;
    PlaceBounds(sorts, rows, p, i);
    var before, group := |Earlier(sorts, rows, p[i])|, |Group(sorts, rows, p[i])|;
    DivOrder(before, i, size);
    DivOrder(i, before + group - 1, size);
    assert OnOnePage(sorts, rows, p[i], size);
  }

  lemma GroupsOnPagesSuffice(sorts: seq<Sort>, rows: set<Row>, answers: Answers, size: nat)
    requires size >= 1 && AllOrderings(sorts, rows, answers)
    requires forall r | r in rows :: OnOnePage(sorts, rows, r, size)
    ensures EachOnce(rows, Pages(answers, 0, 0, size, |rows|))
  {
    hide Pages, Earlier, Group, OnOnePage;
    var out := Pages(answers, 0, 0, size, |rows|);
    AnswersSized(sorts, rows, answers);
    PagesSize(answers, 0, 0, size, |rows|);
    forall i, j | 0 <= i < j < |out|
      ensures out[i] != out[j]
    {
      PageByRow(sorts, rows, answers, size, i);
      PageByRow(sorts, rows, answers, size, j);
      ExportAt(sorts, rows, answers, size, i);
      ExportAt(sorts, rows, answers, size, j);
      if i / size == j / size {
        assert IsOrdering(sorts, rows, answers(i / size));
      }
    }
    var members := set r | r in out;
    forall r | r in members
      ensures r in rows
    {
      var i :| 0 <= i < |out| && out[i] == r;
      PageByRow(sorts, rows, answers, size, i);
    }
    DistinctSize(out);
    SubsetSize(members, rows);
    assert forall r :: r in out <==> r in members;
  }

  /** A group over the end of a page: two of its rows change places between the queries. */
  lemma GroupOverPagesRepeats(sorts: seq<Sort>, rows: set<Row>, r: Row, size: nat) returns (answers: Answers)
    requires size >= 1 && r in rows && !OnOnePage(sorts, rows, r, size)
    ensures AllOrderings(sorts, rows, answers) && !EachOnce(rows, Pages(answers, 0, 0, size, |rows|))
  {
    hide Pages, Before, Ties;
    var before, group := |Earlier(sorts, rows, r)|, |Group(sorts, rows, r)|;
    var p := OrderingExists(sorts, rows);
    OrderingSize(sorts, rows, p);
    GroupHasRow(sorts, rows, r);
    EarlierAndGroup(sorts, rows, r);
    SubsetSize(Earlier(sorts, rows, r) + Group(sorts, rows, r), rows);
    var b := NextPage(before, before + group - 1, size);
    GroupPlaces(sorts, rows, p, r, b - 1);
    GroupPlaces(sorts, rows, p, r, b);
    TiesJoin(sorts, p[b - 1], p[b], r);
    var q := p[b - 1 := p[b]][b := p[b - 1]];
    Swapped(sorts, rows, p, b - 1, b, q);
    answers := k => if k < b / size then p else q;
    assert AllOrderings(sorts, rows, answers) by { hide IsOrdering; }
    hide IsOrdering;
    ExportAt(sorts, rows, answers, size, b - 1);
    ExportAt(sorts, rows, answers, size, b);
    var out := Pages(answers, 0, 0, size, |rows|);
    assert out[b - 1] == p[b - 1] == q[b] == out[b];
  }

  lemma TiesJoin(sorts: seq<Sort>, s: Row, t: Row, r: Row)
    requires Ties(sorts, s, r) && Ties(sorts, t, r)
    ensures Ties(sorts, s, t)
  {}

  /** The first place of the page after that of `m`. */
  lemma NextPage(m: nat, n: int, size: nat) returns (b: nat)
    requires size >= 1 && m / size != n / size && n >= m
    ensures m < b <= n && (b - 1) / size < b / size
  {
    var q := m / size;
    assert q * size <= m < (q + 1) * size;
    b := (q + 1) * size;
    assert (q + 2) * size == b + size;
    DivIs(b, size, q + 1);
    assert (q + 1) * size == q * size + size;
    DivIs(b - 1, size, q);
    if n < b {
      DivIs(n, size, q);
    }
  }

  lemma GroupHasRow(sorts: seq<Sort>, rows: set<Row>, r: Row)
    requires r in rows
    ensures |Group(sorts, rows, r)| >= 1
  {
    assert r in Group(sorts, rows, r);
  }

  /**
   * For every page size: whatever order the server chooses for each query, the export has every row
   * exactly once, if and only if no group of tied rows reaches over the end of a page.
   */
  lemma PagesExactlyOnce(sorts: seq<Sort>, rows: set<Row>, size: nat)
    requires size >= 1
    ensures (forall answers: Answers | AllOrderings(sorts, rows, answers) :: EachOnce(rows, Pages(answers, 0, 0, size, |rows|)))
            <==> forall r | r in rows :: OnOnePage(sorts, rows, r, size)
  {
    hide Pages, EachOnce, OnOnePage, AllOrderings;
    if forall r | r in rows :: OnOnePage(sorts, rows, r, size) {
      forall answers: Answers | AllOrderings(sorts, rows, answers)
        ensures EachOnce(rows, Pages(answers, 0, 0, size, |rows|))
      {
        GroupsOnPagesSuffice(sorts, rows, answers, size);
      }
    } else {
      var r :| r in rows && !OnOnePage(sorts, rows, r, size);
      var answers := GroupOverPagesRepeats(sorts, rows, r, size);
    }
  }

  lemma UnsortedOnOnePage(rows: set<Row>, r: Row, size: nat)
    requires size >= 1 && r in rows
    ensures OnOnePage([], rows, r, size) <==> |rows| <= size
  {
    assert Earlier([], rows, r) == {} && Group([], rows, r) == rows;
    assert rows != {} && |rows| >= 1;
    DivIs(0, size, 0);
    if |rows| <= size {
      DivIs(|rows| - 1, size, 0);
    } else {
      DivIs(size, size, 1);
      DivOrder(size, |rows| - 1, size);
    }
  }

  /** Without any sort the export is exact if and only if the table fits on one page. */
  lemma UnsortedPagesExactlyOnce(rows: set<Row>, size: nat)
    requires size >= 1
    ensures (forall answers: Answers | AllOrderings([], rows, answers) :: EachOnce(rows, Pages(answers, 0, 0, size, |rows|)))
            <==> |rows| <= size
  {
    PagesExactlyOnce([], rows, size);
    hide Pages, EachOnce, AllOrderings, OnOnePage;
    forall r | r in rows
      ensures OnOnePage([], rows, r, size) <==> |rows| <= size
    {
      UnsortedOnOnePage(rows, r, size);
    }
    if r :| r in rows {
      assert OnOnePage([], rows, r, size) <==> |rows| <= size;
    } else {
      assert rows == {};
    }
  }

  /** The last row of the first page comes again on the next, and another row is missing. */
  ghost predicate RepeatsAtPageEnd(rows: set<Row>, answers: Answers, r: Row, s: Row) {
    var out := Pages(answers, 0, 0, PAGE_SIZE, |rows|);
    r in rows && s in rows && |out| == PAGE_SIZE + 1 && out[PAGE_SIZE - 1] == r == out[PAGE_SIZE] && s !in out
  }

  /** What can happen to 501 rows without a sort or key. */
  lemma UnsortedTableCanRepeat(rows: set<Row>)
    requires |rows| == PAGE_SIZE + 1
    ensures exists answers: Answers, r, s :: AllOrderings([], rows, answers) && RepeatsAtPageEnd(rows, answers, r, s)
  {
    hide Pages;
    var p := OrderingExists([], rows);
    OrderingSize([], rows, p);
    var r, s := p[PAGE_SIZE - 1], p[PAGE_SIZE];
    var q := p[PAGE_SIZE - 1 := s][PAGE_SIZE := r];
    var answers: Answers := k => if k == 0 then p else q;
    Swapped([], rows, p, PAGE_SIZE - 1, PAGE_SIZE, q);
    assert AllOrderings([], rows, answers) by { hide IsOrdering; }
    var out := Pages(answers, 0, 0, PAGE_SIZE, |rows|);
    forall i | 0 <= i < |rows|
      ensures |out| == |rows| && out[i] == if i < PAGE_SIZE then p[i] else q[i]
    {
      ExportAt([], rows, answers, PAGE_SIZE, i);
    }
    assert r in rows && s in rows;
    assert forall i | 0 <= i < |out| :: out[i] != s;
    assert RepeatsAtPageEnd(rows, answers, r, s);
  }
}
