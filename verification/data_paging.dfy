/**
 * The ORDER BY of data pages and the paging loops of exports. A row carries, for each column, its
 * rank in the database's own ordering of that column, so ties are the values the database ties.
 */
module DataPaging {
  import opened Text

  datatype Sort = Sort(column: string, descending: bool)

  datatype Row = Row(id: nat, rank: map<string, int>)

  // ---- Building the sort list ----

  predicate HasColumn(sorts: seq<Sort>, column: string) { exists s | s in sorts :: s.column == column }

  /** Keeps the first sort of each column. */
  function AddSorts(sorts: seq<Sort>, requested: seq<Sort>): seq<Sort>
    decreases |requested|
  {
    if requested == [] then sorts
    else AddSorts(if HasColumn(sorts, requested[0].column) then sorts else sorts + [requested[0]], requested[1..])
  }

  function Ascending(columns: seq<string>): seq<Sort> {
    seq(|columns|, i requires 0 <= i < |columns| => Sort(columns[i], false))
  }

  /** The requested sorts, completed by the primary key. */
  function CompleteSorts(requested: seq<Sort>, primary: seq<string>): seq<Sort> {
    AddSorts(AddSorts([], requested), Ascending(primary))
  }

  method BuildSorts(requested: seq<Sort>, primary: seq<string>, columns: set<string>) returns (result: Option<seq<Sort>>)
    ensures result == if forall s | s in requested :: s.column in columns then Some(CompleteSorts(requested, primary)) else None
  {
    var sorts: seq<Sort> := [];
    assert requested[0..] == requested;
    for i := 0 to |requested|
      invariant forall s | s in requested[..i] :: s.column in columns
      invariant AddSorts(sorts, requested[i..]) == AddSorts([], requested)
    {
      assert requested[i..][1..] == requested[i + 1..];
      var sort := requested[i];
      if sort.column !in columns {
        assert requested[i] in requested;
        return None;
      }
      if !HasColumn(sorts, sort.column) {
        sorts := sorts + [sort];
      }
    }
    assert requested[..|requested|] == requested;
    ghost var all := Ascending(primary);
    assert all[0..] == all;
    for i := 0 to |primary|
      invariant AddSorts(sorts, all[i..]) == CompleteSorts(requested, primary)
    {
      assert all[i..][1..] == all[i + 1..] && all[i] == Sort(primary[i], false);
      if !HasColumn(sorts, primary[i]) {
        sorts := sorts + [Sort(primary[i], false)];
      }
    }
    return Some(sorts);
  }

  lemma {:induction false} AddSortsCovers(sorts: seq<Sort>, requested: seq<Sort>)
    ensures var all := AddSorts(sorts, requested);
      && sorts <= all
      && (forall s | s in requested :: HasColumn(all, s.column))
      && (forall s | s in all :: s in sorts || s in requested)
    decreases |requested|
  {
    if requested != [] {
      var next := if HasColumn(sorts, requested[0].column) then sorts else sorts + [requested[0]];
      AddSortsCovers(next, requested[1..]);
      var all := AddSorts(sorts, requested);
      forall s | s in requested
        ensures HasColumn(all, s.column)
      {
        if s == requested[0] {
          var t :| t in next && t.column == s.column;
          assert t in all;
        } else {
          assert s in requested[1..];
        }
      }
    }
  }

  // ---- What a sort list means ----

  function Rank(r: Row, column: string): int { if column in r.rank then r.rank[column] else 0 }

  /** `r` comes strictly before `s`. */
  predicate Before(sorts: seq<Sort>, r: Row, s: Row) {
    sorts != [] && (
      var a, b := Rank(r, sorts[0].column), Rank(s, sorts[0].column);
      if a != b then (if sorts[0].descending then a > b else a < b) else Before(sorts[1..], r, s))
  }

  /** No sort tells the two rows apart. */
  ghost predicate Ties(sorts: seq<Sort>, r: Row, s: Row) {
    forall x | x in sorts :: Rank(r, x.column) == Rank(s, x.column)
  }

  lemma {:induction false} Trichotomy(sorts: seq<Sort>, r: Row, s: Row)
    ensures !(Before(sorts, r, s) && Before(sorts, s, r))
    ensures Ties(sorts, r, s) <==> !Before(sorts, r, s) && !Before(sorts, s, r)
  {
    if sorts != [] {
      Trichotomy(sorts[1..], r, s);
      assert forall x | x in sorts :: x == sorts[0] || x in sorts[1..];
    }
  }

  lemma {:induction false} BeforeTransitive(sorts: seq<Sort>, r: Row, s: Row, t: Row)
    requires !Before(sorts, s, r) && !Before(sorts, t, s)
    ensures !Before(sorts, t, r)
  {
    if sorts != [] {
      if Rank(r, sorts[0].column) == Rank(s, sorts[0].column) == Rank(t, sorts[0].column) {
        BeforeTransitive(sorts[1..], r, s, t);
      }
    }
  }

  lemma {:induction false} TiedAlike(sorts: seq<Sort>, r: Row, s: Row, x: Row)
    requires Ties(sorts, r, s)
    ensures Before(sorts, r, x) <==> Before(sorts, s, x)
    ensures Before(sorts, x, r) <==> Before(sorts, x, s)
  {
    if sorts != [] {
      assert sorts[0] in sorts;
      TiedAlike(sorts[1..], r, s, x);
    }
  }

  /** An order in which the database may return `rows`. */
  ghost predicate IsOrdering(sorts: seq<Sort>, rows: set<Row>, p: seq<Row>) {
    && (forall r :: r in p <==> r in rows)
    && (forall i, j | 0 <= i < j < |p| :: p[i] != p[j] && !Before(sorts, p[j], p[i]))
  }

  /** The sorts tell any two rows apart. */
  ghost predicate Separates(sorts: seq<Sort>, rows: set<Row>) {
    forall r, s | r in rows && s in rows && r != s :: !Ties(sorts, r, s)
  }

  /** The primary key tells any two rows apart. */
  ghost predicate KeyedBy(primary: seq<string>, rows: set<Row>) {
    forall r, s | r in rows && s in rows && r != s :: exists c :: c in primary && Rank(r, c) != Rank(s, c)
  }

  /** Completed by a primary key, every sort list is a total order on the rows. */
  lemma CompletedSortsSeparate(requested: seq<Sort>, primary: seq<string>, rows: set<Row>)
    requires KeyedBy(primary, rows)
    ensures Separates(CompleteSorts(requested, primary), rows)
  {
    var sorts := CompleteSorts(requested, primary);
    AddSortsCovers(AddSorts([], requested), Ascending(primary));
    forall r, s | r in rows && s in rows && r != s
      ensures !Ties(sorts, r, s)
    {
      var c :| c in primary && Rank(r, c) != Rank(s, c);
      var i :| 0 <= i < |primary| && primary[i] == c;
      assert Ascending(primary)[i] in Ascending(primary);
      var x :| x in sorts && x.column == c;
    }
  }

  lemma {:induction false} OrderingUnique(sorts: seq<Sort>, rows: set<Row>, p: seq<Row>, q: seq<Row>)
    requires Separates(sorts, rows) && IsOrdering(sorts, rows, p) && IsOrdering(sorts, rows, q)
    ensures p == q
    decreases |p|
  {
    OrderingSize(sorts, rows, p);
    OrderingSize(sorts, rows, q);
    if rows != {} {
      FirstIsLeast(sorts, rows, p, q[0]);
      FirstIsLeast(sorts, rows, q, p[0]);
      Trichotomy(sorts, p[0], q[0]);
      assert p[0] in rows && q[0] in rows && p[0] == q[0];
      var rest := rows - {p[0]};
      OrderingRest(sorts, rows, p);
      OrderingRest(sorts, rows, q);
      OrderingUnique(sorts, rest, p[1..], q[1..]);
      assert p == [p[0]] + p[1..] && q == [q[0]] + q[1..];
    }
  }

  lemma {:induction false} OrderingSize(sorts: seq<Sort>, rows: set<Row>, p: seq<Row>)
    requires IsOrdering(sorts, rows, p)
    ensures |p| == |rows|
    decreases |p|
  {
    if p == [] {
      assert rows == {} by {
        assert forall r :: r in p <==> r in rows;
      }
    } else {
      assert p[0] in rows;
      OrderingRest(sorts, rows, p);
      OrderingSize(sorts, rows - {p[0]}, p[1..]);
    }
  }

  lemma FirstIsLeast(sorts: seq<Sort>, rows: set<Row>, p: seq<Row>, r: Row)
    requires IsOrdering(sorts, rows, p) && r in rows
    ensures p != [] && !Before(sorts, r, p[0])
  {
    var i :| 0 <= i < |p| && p[i] == r;
    if i == 0 {
      Trichotomy(sorts, r, r);
    }
  }

  lemma OrderingRest(sorts: seq<Sort>, rows: set<Row>, p: seq<Row>)
    requires IsOrdering(sorts, rows, p) && p != []
    ensures IsOrdering(sorts, rows - {p[0]}, p[1..])
  {
    var q := p[1..];
    assert forall i | 0 <= i < |q| :: q[i] == p[i + 1];
    forall r
      ensures r in q <==> r in rows - {p[0]}
    {
      if r in rows - {p[0]} {
        var i :| 0 <= i < |p| && p[i] == r;
        assert q[i - 1] == r;
      }
    }
  }

  /** Some row comes before no other. */
  lemma {:induction false} LeastRow(sorts: seq<Sort>, rows: set<Row>) returns (least: Row)
    requires rows != {}
    ensures least in rows && forall r | r in rows :: !Before(sorts, r, least)
    decreases |rows|
  {
    var x :| x in rows;
    var rest := rows - {x};
    if rest == {} {
      least := x;
      Trichotomy(sorts, x, x);
      assert rows == {x};
    } else {
      var y := LeastRow(sorts, rest);
      Trichotomy(sorts, x, y);
      Trichotomy(sorts, x, x);
      least := if Before(sorts, x, y) then x else y;
      forall r | r in rows
        ensures !Before(sorts, r, least)
      {
        if r != x && least == x {
          BeforeTransitive(sorts, x, y, r);
        }
      }
    }
  }

  lemma {:induction false} OrderingExists(sorts: seq<Sort>, rows: set<Row>) returns (p: seq<Row>)
    ensures IsOrdering(sorts, rows, p)
    decreases |rows|
  {
    if rows == {} {
      p := [];
    } else {
      var least := LeastRow(sorts, rows);
      var rest := OrderingExists(sorts, rows - {least});
      p := [least] + rest;
      assert forall i | 1 <= i < |p| :: p[i] == rest[i - 1] && p[i] in rest;
    }
  }

  /** Two tied rows can be returned either way round. */
  lemma TieSwaps(sorts: seq<Sort>, rows: set<Row>, r: Row, s: Row) returns (p: seq<Row>, q: seq<Row>)
    requires r in rows && s in rows && r != s && Ties(sorts, r, s)
    ensures IsOrdering(sorts, rows, p) && IsOrdering(sorts, rows, q) && p != q
  {
    p := OrderingExists(sorts, rows);
    var i :| 0 <= i < |p| && p[i] == r;
    var j :| 0 <= j < |p| && p[j] == s;
    q := p[i := s][j := r];
    assert p[i] != q[i];
    Swapped(sorts, rows, p, i, j, q);
  }

  lemma Swapped(sorts: seq<Sort>, rows: set<Row>, p: seq<Row>, i: nat, j: nat, q: seq<Row>)
    requires IsOrdering(sorts, rows, p) && i < |p| && j < |p| && i != j
    requires Ties(sorts, p[i], p[j]) && q == p[i := p[j]][j := p[i]]
    ensures IsOrdering(sorts, rows, q)
  {
    forall x
      ensures x in q <==> x in rows
    {
      if x in p {
        var k :| 0 <= k < |p| && p[k] == x;
        assert q[if k == i then j else if k == j then i else k] == x;
      }
    }
    forall a, b | 0 <= a < b < |q|
      ensures q[a] != q[b] && !Before(sorts, q[b], q[a])
    {
      var r, s := p[i], p[j];
      TiedAlike(sorts, r, s, p[a]);
      TiedAlike(sorts, r, s, p[b]);
      TiedAlike(sorts, r, s, r);
      TiedAlike(sorts, r, s, s);
      Trichotomy(sorts, r, r);
    }
  }

  /** The database has no choice of order exactly when the sorts tell any two rows apart. */
  lemma OneOrderingIffSeparated(sorts: seq<Sort>, rows: set<Row>)
    ensures (forall p, q | IsOrdering(sorts, rows, p) && IsOrdering(sorts, rows, q) :: p == q) <==> Separates(sorts, rows)
  {
    hide IsOrdering;
    if Separates(sorts, rows) {
      forall p, q | IsOrdering(sorts, rows, p) && IsOrdering(sorts, rows, q)
        ensures p == q
      {
        OrderingUnique(sorts, rows, p, q);
      }
    } else {
      var r, s :| r in rows && s in rows && r != s && Ties(sorts, r, s);
      var p, q := TieSwaps(sorts, rows, r, s);
    }
  }

  // ---- Pages ----

  /** The order the database chose for the `k`-th query. */
  type Answers = nat -> seq<Row>

  /** `LIMIT count OFFSET offset`. */
  function Slice(p: seq<Row>, offset: nat, count: nat): seq<Row> {
    if offset >= |p| then [] else if offset + count >= |p| then p[offset..] else p[offset..offset + count]
  }

  /** One page: one row more than the limit is fetched, to know whether there are more. */
  method Page(p: seq<Row>, limit: nat, offset: nat) returns (rows: seq<Row>, hasMore: bool)
    ensures rows == Slice(p, offset, limit)
    ensures hasMore <==> offset + limit < |p|
  {
    var fetched := Slice(p, offset, limit + 1);
    rows := if |fetched| > limit then fetched[..limit] else fetched;
    hasMore := |fetched| > limit;
  }

  /** The pages from the `k`-th on, each of its own query. */
  function Pages(answers: Answers, k: nat, offset: nat, size: nat, total: nat): seq<Row>
    requires size >= 1
    decreases total - offset
  {
    Slice(answers(k), offset, size) + if offset + size < total then Pages(answers, k + 1, offset + size, size, total) else []
  }

  lemma PagesUnfold(answers: Answers, k: nat, offset: nat, size: nat, total: nat)
    requires size >= 1
    ensures Pages(answers, k, offset, size, total)
         == Slice(answers(k), offset, size)
            + if offset + size < total then Pages(answers, k + 1, offset + size, size, total) else []
  {
    hide Slice;
  }

  ghost predicate AllOrderings(sorts: seq<Sort>, rows: set<Row>, answers: Answers) {
    forall k :: IsOrdering(sorts, rows, answers(k))
  }

  /** The export of a table: page after page while there are more. */
  method StreamTable(answers: Answers, pageSize: nat, ghost sorts: seq<Sort>, ghost rows: set<Row>) returns (out: seq<Row>)
    requires pageSize >= 1 && AllOrderings(sorts, rows, answers)
    ensures out == Pages(answers, 0, 0, pageSize, |rows|)
  {
    hide Pages, Slice, IsOrdering;
    out := [];
    var query, offset := 0, 0;
    OrderingSize(sorts, rows, answers(0));
    var page, hasMore := Page(answers(0), pageSize, 0);
    ghost var goal := Pages(answers, 0, 0, pageSize, |rows|);
    assert [] + goal == goal;
    while true
      invariant page == Slice(answers(query), offset, pageSize)
      invariant hasMore <==> offset + pageSize < |rows|
      invariant out + Pages(answers, query, offset, pageSize, |rows|) == goal
      decreases |rows| - offset
    {
      ghost var later := if hasMore then Pages(answers, query + 1, offset + pageSize, pageSize, |rows|) else [];
      PagesUnfold(answers, query, offset, pageSize, |rows|);
      Assoc(out, page, later);
      out := out + page;
      if !hasMore {
        assert out + [] == out;
        return;
      }
      offset := offset + pageSize;
      query := query + 1;
      OrderingSize(sorts, rows, answers(query));
      page, hasMore := Page(answers(query), pageSize, offset);
    }
  }

  /**
   * The export of a query, which has no order of its own: each page is a query again, until a page is
   * short. When the last page is full, one more query finds nothing.
   */
  method StreamQuery(answers: Answers, pageSize: nat, ghost rows: set<Row>) returns (out: seq<Row>)
    requires pageSize >= 1 && AllOrderings([], rows, answers)
    ensures out == Pages(answers, 0, 0, pageSize, |rows|)
  {
    hide Pages, IsOrdering;
    out := [];
    var query, offset := 0, 0;
    var current := Slice(answers(0), 0, pageSize);
    ghost var goal := Pages(answers, 0, 0, pageSize, |rows|);
    ghost var rest := goal;
    while true
      invariant current == Slice(answers(query), offset, pageSize) && offset <= |rows|
      invariant rest == if offset == |rows| && offset > 0 then [] else Pages(answers, query, offset, pageSize, |rows|)
      invariant out + rest == goal
      decreases |rows| - offset
    {
      OrderingSize([], rows, answers(query));
      PagesUnfold(answers, query, offset, pageSize, |rows|);
      rest := if offset + pageSize < |rows| then Pages(answers, query + 1, offset + pageSize, pageSize, |rows|) else [];
      Assoc(out, current, rest);
      out := out + current;
      if |current| < pageSize {
        return;
      }
      offset := offset + pageSize;
      query := query + 1;
      current := Slice(answers(query), offset, pageSize);
    }
  }

  lemma {:induction false} SameAnswerPages(answers: Answers, p: seq<Row>, k: nat, offset: nat, size: nat)
    requires size >= 1 && offset <= |p| && forall i :: answers(i) == p
    ensures Pages(answers, k, offset, size, |p|) == p[offset..]
    decreases |p| - offset
  {
    if offset + size < |p| {
      SameAnswerPages(answers, p, k + 1, offset + size, size);
      assert p[offset..] == p[offset..offset + size] + p[offset + size..];
    } else {
      assert Slice(p, offset, size) == p[offset..];
      assert p[offset..] + [] == p[offset..];
    }
  }

  /**
   * Over a fixed table whose rows the sorts tell apart, in particular one with a primary key, the
   * pages are the one sorted order cut up: every row exactly once, whatever each query answered.
   */
  lemma PagesAreTheTable(requested: seq<Sort>, primary: seq<string>, rows: set<Row>, answers: Answers, size: nat)
    requires size >= 1 && KeyedBy(primary, rows)
    requires AllOrderings(CompleteSorts(requested, primary), rows, answers)
    ensures var out := Pages(answers, 0, 0, size, |rows|);
      && IsOrdering(CompleteSorts(requested, primary), rows, out)
      && |out| == |rows| && forall k :: answers(k) == out
  {
    hide IsOrdering;
    var sorts := CompleteSorts(requested, primary);
    CompletedSortsSeparate(requested, primary, rows);
    var p := answers(0);
    forall k
      ensures answers(k) == p
    {
      OrderingUnique(sorts, rows, answers(k), p);
    }
    OrderingSize(sorts, rows, p);
    SameAnswerPages(answers, p, 0, 0, size);
    assert p[0..] == p;
  }
}
