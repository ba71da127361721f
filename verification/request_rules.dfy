/** Which requests for a page of data are accepted, and how the accepted ones are ordered. */
module RequestRules {
  import opened Text
  import opened CountQuery
  import opened DataPaging
  import opened DataQuery
  import SqlLexer

  // ---- Acceptance ----

  /** A filter makes sense for a column of this kind. */
  predicate SensibleFilter(f: Filter, kind: Kind) {
    || f.operator == IsNull || f.operator == IsNotNull
    || (f.operator == In && f.values != [])
    || (f.value.Some? && (f.operator == Eq || f.operator == Neq))
    || (f.value.Some? && kind == TextKind && f.operator in {Contains, StartsWith, EndsWith})
    || (f.value.Some? && kind in {NumberKind, DateKind} && f.operator in {Gt, Gte, Lt, Lte})
  }

  lemma {:induction false} FilterAccepted(f: Filter, kind: Kind)
    ensures FilterClause(f, kind).Some? <==> SensibleFilter(f, kind)
  {}

  lemma {:induction false} FiltersAccepted(filters: seq<Filter>, kinds: map<string, Kind>)
    ensures FilterClauses(filters, kinds).Some?
            <==> forall f | f in filters :: f.column in kinds && SensibleFilter(f, kinds[f.column])
  {
    hide FilterClause, SensibleFilter;
    if filters != [] {
      FiltersAccepted(filters[1..], kinds);
      assert forall f :: f in filters <==> f == filters[0] || f in filters[1..];
      if filters[0].column in kinds {
        FilterAccepted(filters[0], kinds[filters[0].column]);
      }
    }
  }

  /**
   * A request is accepted if and only if it asks for between one and 500 rows of known, distinct columns,
   * each filter names a known column and makes sense for its kind, and each sort names a known column.
   */
  lemma {:induction false} RequestAccepted(e: SqlLexer.Engine, source: Source, request: Request, primary: seq<string>)
    ensures DataQueryOf(e, source, request, primary).Some? <==>
      var selected := if request.columns == [] then source.columns else request.columns;
      && 1 <= request.limit <= 500
      && (forall i, j | 0 <= i < j < |selected| :: selected[i] != selected[j])
      && (forall name | name in selected :: name in source.kinds)
      && (forall f | f in request.filters :: f.column in source.kinds && SensibleFilter(f, source.kinds[f.column]))
      && (forall s | s in request.sort :: s.column in source.kinds)
  {
    FiltersAccepted(request.filters, source.kinds);
    hide FilterClauses, SensibleFilter, QueryParts, CompleteSorts, SearchClauses, SearchParams;
  }

  // ---- Order ----

  /** The sorts without those of a column that came before. */
  function Firsts(sorts: seq<Sort>): seq<Sort> {
    if sorts == [] then []
    else
      var front, last := sorts[..|sorts| - 1], sorts[|sorts| - 1];
      Firsts(front) + if exists s | s in front :: s.column == last.column then [] else [last]
  }

  lemma {:induction false} FirstsCover(sorts: seq<Sort>, column: string)
    ensures HasColumn(Firsts(sorts), column) <==> HasColumn(sorts, column)
  {
    if sorts != [] {
      var front, last := sorts[..|sorts| - 1], sorts[|sorts| - 1];
      FirstsCover(front, column);
      FirstsCover(front, last.column);
      assert forall s :: s in sorts <==> s in front || s == last;
    }
  }

  lemma {:induction false} AddedFirsts(sorts: seq<Sort>, more: seq<Sort>)
    ensures AddSorts(Firsts(sorts), more) == Firsts(sorts + more)
    decreases |more|
  {
    if more == [] {
      assert sorts + more == sorts;
    } else {
      var next := sorts + [more[0]];
      FirstsCover(sorts, more[0].column);
      assert next[..|sorts|] == sorts && Firsts(sorts) + [] == Firsts(sorts);
      AddedFirsts(next, more[1..]);
      assert next + more[1..] == sorts + more;
    }
  }

  /**
   * A page is ordered by the requested sorts in their order, each as requested, then by the key columns
   * upwards, and only the first sort of a column counts.
   */
  lemma {:induction false} OrderedAsRequested(requested: seq<Sort>, primary: seq<string>, keys: seq<Sort>)
    requires |keys| == |primary| && forall i | 0 <= i < |keys| :: keys[i] == Sort(primary[i], false)
    ensures CompleteSorts(requested, primary) == Firsts(requested + keys)
  {
    assert keys == Ascending(primary);
    AddedFirsts([], requested);
    assert Firsts([]) == [] && [] + requested == requested;
    AddedFirsts(requested, keys);
  }

  /** The count of a page is not ordered by PostgreSQL, and by MySQL as the key columns are. */
  lemma {:induction false} CountOrdered(e: SqlLexer.Engine, primary: seq<string>, keys: seq<Sort>)
    requires |keys| == |primary| && forall i | 0 <= i < |keys| :: keys[i] == Sort(primary[i], false)
    ensures CompleteSorts([], CountPrimary(e, primary)) == if e == SqlLexer.Mysql then Firsts(keys) else []
  {
    if e == SqlLexer.Mysql {
      OrderedAsRequested([], primary, keys);
      assert [] + keys == keys;
    } else {
      OrderedAsRequested([], [], []);
    }
  }
}
