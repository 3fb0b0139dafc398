/**
 Equality filters over records, the pages they select, and when filtering stored records
 selects the same as filtering evolved ones.
 */
module Filters {
  import opened Wrappers
  import opened Ordering
  import opened Evolution
  import opened RowStore

  datatype Constraint = Constraint(kind: string, values: seq<Value>)

  datatype Filter = Filter(field: string, constraints: seq<Constraint>)

  predicate Allows(show: Show, c: Constraint, v: Value) {
    c.kind == "equals" ==> exists i :: 0 <= i < |c.values| && show(v) == show(c.values[i])
  }

  predicate Passes(show: Show, f: Filter, rec: Fields) {
    f.field in rec && forall i :: 0 <= i < |f.constraints| ==> Allows(show, f.constraints[i], rec[f.field])
  }

  predicate Matches(show: Show, filters: seq<Filter>, rec: Fields) {
    forall i :: 0 <= i < |filters| ==> Passes(show, filters[i], rec)
  }

  ghost function Matching(show: Show, filters: seq<Filter>, rows: Rows): set<string> {
    set k | k in rows && Matches(show, filters, rows[k].fields)
  }

  /** What a listing returns, in key order. */
  ghost function ListedKeys(show: Show, filters: seq<Filter>, rows: Rows,
                            offset: Option<nat>, limit: Option<nat>): seq<string> {
    Window(SortKeys(Matching(show, filters, rows)), offset, limit)
  }

  function Window<T>(xs: seq<T>, offset: Option<nat>, limit: Option<nat>): seq<T> {
    Page(xs, if offset.Some? then offset.value else 0, if limit.Some? then limit.value else |xs|)
  }

  /** A listing request. */
  datatype Query = Query(show: Show, filters: seq<Filter>, offset: Option<nat>, limit: Option<nat>)

  ghost function QueryMatches(q: Query, rows: Rows): set<string> {
    Matching(q.show, q.filters, rows)
  }

  ghost function QueryKeys(q: Query, rows: Rows): seq<string> {
    ListedKeys(q.show, q.filters, rows, q.offset, q.limit)
  }

  // ----- Filtering before or after evolving -----

  ghost function Touched(actions: seq<Action>): set<string> {
    set i, f | 0 <= i < |actions| && f in Removes(actions[i]) + Introduces(actions[i]) :: f
  }

  ghost function UpgradeAll(order: seq<Version>, rows: Rows): Rows {
    map k | k in rows :: Upgrade(order, rows[k])
  }

  /** The filters mention no field that a pending action of any row touches. */
  ghost predicate FiltersUntouched(order: seq<Version>, filters: seq<Filter>, rows: Rows) {
    forall k, i :: k in rows && 0 <= i < |filters| ==>
      filters[i].field !in Touched(Flatten(Missing(order, rows[k].stamp)))
  }

  lemma UntouchedPasses(order: seq<Version>, show: Show, f: Filter, row: Row)
    requires f.field !in Touched(Flatten(Missing(order, row.stamp)))
    ensures Passes(show, f, row.fields) <==> Passes(show, f, Upgrade(order, row).fields)
  {
    UntouchedField(Flatten(Missing(order, row.stamp)), row.fields, f.field);
  }

  /**
   The store filters stored data, readers expect evolved data: the two agree, page by
   page and in total, for filters on fields that no pending action touches.
   */
  lemma FilterPushdown(order: seq<Version>, show: Show, filters: seq<Filter>, rows: Rows,
                       offset: Option<nat>, limit: Option<nat>)
    requires FiltersUntouched(order, filters, rows)
    ensures ListedKeys(show, filters, rows, offset, limit)
            == ListedKeys(show, filters, UpgradeAll(order, rows), offset, limit)
    ensures |Matching(show, filters, rows)| == |Matching(show, filters, UpgradeAll(order, rows))|
  {
    forall k | k in rows
      ensures Matches(show, filters, rows[k].fields) <==> Matches(show, filters, UpgradeAll(order, rows)[k].fields)
    {
      forall i | 0 <= i < |filters|
        ensures Passes(show, filters[i], rows[k].fields) <==> Passes(show, filters[i], Upgrade(order, rows[k]).fields)
      {
        UntouchedPasses(order, show, filters[i], rows[k]);
      }
    }
    assert Matching(show, filters, rows) == Matching(show, filters, UpgradeAll(order, rows));
  }
}
