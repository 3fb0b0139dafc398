/** Which records a listing holds, in terms of matching, ranks and the page asked for. */
module Listings {
  import opened Wrappers
  import opened Ordering
  import opened Evolution
  import opened RowStore
  import opened Filters

  ghost function MatchingBelow(show: Show, filters: seq<Filter>, rows: Rows, k: string): set<string> {
    set x | x in rows && Matches(show, filters, rows[x].fields) && Less(x, k)
  }

  /** Position `i` is at least the offset and, only if there is a limit, short of it. */
  predicate InPage(offset: Option<nat>, limit: Option<nat>, i: nat) {
    var from := if offset.Some? then offset.value else 0;
    from <= i && (limit.Some? ==> i < from + limit.value)
  }

  /** The record matches, and the number of smaller matching keys lies in the page. */
  ghost predicate Selects(show: Show, filters: seq<Filter>, rows: Rows, offset: Option<nat>, limit: Option<nat>,
                          k: string) {
    && k in rows && Matches(show, filters, rows[k].fields)
    && InPage(offset, limit, |MatchingBelow(show, filters, rows, k)|)
  }

  /**
   A listing holds exactly the selected keys, in increasing order: those whose rank among the
   matching keys is at least the offset and, only if there is a limit, short of it.
   */
  lemma ListingSelects(show: Show, filters: seq<Filter>, rows: Rows, offset: Option<nat>, limit: Option<nat>)
    ensures
      var keys := ListedKeys(show, filters, rows, offset, limit);
      Increasing(keys) && forall k :: k in keys <==> Selects(show, filters, rows, offset, limit, k)
  {
    WindowIncreasing(Matching(show, filters, rows), offset, limit);
    forall k ensures k in ListedKeys(show, filters, rows, offset, limit)
                     <==> Selects(show, filters, rows, offset, limit, k) {
      ListedIff(show, filters, rows, offset, limit, k);
    }
  }

  lemma ListedIff(show: Show, filters: seq<Filter>, rows: Rows, offset: Option<nat>, limit: Option<nat>, k: string)
    ensures k in ListedKeys(show, filters, rows, offset, limit)
            <==> Selects(show, filters, rows, offset, limit, k)
  {
    RankAmongMatching(show, filters, rows, k);
    InWindow(Matching(show, filters, rows), offset, limit, k);
  }

  lemma WindowIncreasing(s: set<string>, offset: Option<nat>, limit: Option<nat>)
    ensures Increasing(Window(SortKeys(s), offset, limit))
  {
    SortKeysIncreasing(s);
  }

  lemma WindowAt<T>(xs: seq<T>, offset: Option<nat>, limit: Option<nat>, i: nat)
    ensures
      var from, page := if offset.Some? then offset.value else 0, Window(xs, offset, limit);
      && (i < |page| ==> from + i < |xs| && page[i] == xs[from + i] && InPage(offset, limit, from + i))
      && (i < |xs| && InPage(offset, limit, i) ==> i - from < |page| && page[i - from] == xs[i])
  {
  }

  lemma InWindow(s: set<string>, offset: Option<nat>, limit: Option<nat>, k: string)
    ensures k in Window(SortKeys(s), offset, limit) <==> k in s && InPage(offset, limit, |Below(s, k)|)
  {
    var page := Window(SortKeys(s), offset, limit);
    if k in page {
      var i :| 0 <= i < |page| && page[i] == k;
      InWindowOnly(s, offset, limit, i);
    }
    if k in s {
      PositionOf(s, k);
      WindowAt(SortKeys(s), offset, limit, |Below(s, k)|);
    }
  }

  lemma InWindowOnly(s: set<string>, offset: Option<nat>, limit: Option<nat>, i: nat)
    requires i < |Window(SortKeys(s), offset, limit)|
    ensures
      var k := Window(SortKeys(s), offset, limit)[i];
      k in s && InPage(offset, limit, |Below(s, k)|)
  {
    var at := (if offset.Some? then offset.value else 0) + i;
    WindowAt(SortKeys(s), offset, limit, i);
    assert at < |SortKeys(s)| && Window(SortKeys(s), offset, limit)[i] == SortKeys(s)[at] && InPage(offset, limit, at);
    ListedAtRank(s, at);
  }

  lemma ListedAtRank(s: set<string>, i: nat)
    requires i < |SortKeys(s)|
    ensures SortKeys(s)[i] in s && |Below(s, SortKeys(s)[i])| == i
  {
    RankIsPosition(s, i);
    assert SortKeys(s)[i] in SortKeys(s);
  }

  lemma RankAmongMatching(show: Show, filters: seq<Filter>, rows: Rows, k: string)
    ensures Below(Matching(show, filters, rows), k) == MatchingBelow(show, filters, rows, k)
  {
  }

  /** Without offset and limit every matching key is listed. */
  lemma UnpagedListing(show: Show, filters: seq<Filter>, rows: Rows, k: string)
    ensures k in ListedKeys(show, filters, rows, None, None)
            <==> k in rows && Matches(show, filters, rows[k].fields)
  {
    ListingSelects(show, filters, rows, None, None);
  }

  /**
   A record passes if it has every filtered field, with a value whose text is among the texts
   listed by each "equals" constraint, whatever kind of value it is; other constraints are ignored.
   */
  lemma MatchesIff(show: Show, filters: seq<Filter>, rec: Fields)
    ensures
      Matches(show, filters, rec) <==>
      forall i :: 0 <= i < |filters| ==>
        && filters[i].field in rec
        && forall j :: 0 <= j < |filters[i].constraints| && filters[i].constraints[j].kind == "equals" ==>
             show(rec[filters[i].field]) in TextsOf(show, filters[i].constraints[j].values)
  {
    forall i | 0 <= i < |filters|
      ensures Passes(show, filters[i], rec) <==>
              && filters[i].field in rec
              && forall j :: 0 <= j < |filters[i].constraints| && filters[i].constraints[j].kind == "equals" ==>
                   show(rec[filters[i].field]) in TextsOf(show, filters[i].constraints[j].values)
    {
      if filters[i].field in rec {
        forall j | 0 <= j < |filters[i].constraints|
          ensures Allows(show, filters[i].constraints[j], rec[filters[i].field]) <==>
                  filters[i].constraints[j].kind == "equals" ==>
                    show(rec[filters[i].field]) in TextsOf(show, filters[i].constraints[j].values)
        {
          var values := filters[i].constraints[j].values;
          assert forall l :: 0 <= l < |values| ==> TextsOf(show, values)[l] == show(values[l]);
        }
      }
    }
  }

  function TextsOf(show: Show, values: seq<Value>): (texts: seq<string>)
    ensures |texts| == |values| && forall i :: 0 <= i < |texts| ==> texts[i] == show(values[i])
  {
    seq(|values|, i requires 0 <= i < |values| => show(values[i]))
  }
}
