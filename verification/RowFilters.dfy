/** Row filters: which records a user may see, from the links the user is granted. */
module RowFilters {
  import opened Wrappers
  import opened Evolution
  import opened Filters
  import opened Permissions

  /** An attribute of the filtered entity; `options` names the entity a lookup points to. */
  datatype Link = Link(field: string, isLookup: bool, options: string)

  function AllowOf(show: Show, doc: Fields): string {
    show(Lookup(doc, "allow"))
  }

  function ForValueOf(show: Show, doc: Fields): string {
    show(Lookup(doc, "for_value"))
  }

  /** The values granted for one entity, in the order of the user's grants. */
  function GrantedFor(show: Show, docs: seq<Fields>, target: string): seq<string> {
    if docs == [] then []
    else
      var n := |docs| - 1;
      GrantedFor(show, docs[..n], target)
      + if AllowOf(show, docs[n]) == target then [ForValueOf(show, docs[n])] else []
  }

  function Texts(values: seq<string>): (texts: seq<Value>)
    ensures |texts| == |values| && forall i :: 0 <= i < |texts| ==> texts[i] == Text(values[i])
  {
    seq(|values|, i requires 0 <= i < |values| => Text(values[i]))
  }

  /** One filter per lookup to an entity for which the user is granted something. */
  function FiltersFor(show: Show, docs: seq<Fields>, links: seq<Link>): seq<Filter> {
    if links == [] then []
    else
      var n := |links| - 1;
      var granted := GrantedFor(show, docs, links[n].options);
      FiltersFor(show, docs, links[..n])
      + if links[n].isLookup && granted != []
        then [Filter(links[n].field, [Constraint("equals", Texts(granted))])] else []
  }

  /** `userPerms` holds the granted values of every entity that has some. */
  ghost predicate Collects(show: Show, docs: seq<Fields>, userPerms: map<string, seq<string>>) {
    && (userPerms == map[] <==> docs == [])
    && (forall t :: GrantedFor(show, docs, t) == if t in userPerms then userPerms[t] else [])
    && (forall t :: t in userPerms ==> userPerms[t] != [])
  }

  lemma CollectOne(show: Show, docs: seq<Fields>, n: nat, userPerms: map<string, seq<string>>)
    requires n < |docs| && Collects(show, docs[..n], userPerms)
    ensures
      var allow := AllowOf(show, docs[n]);
      var granted := (if allow in userPerms then userPerms[allow] else []) + [ForValueOf(show, docs[n])];
      Collects(show, docs[..n + 1], userPerms[allow := granted])
  {
    var allow := AllowOf(show, docs[n]);
    var granted := (if allow in userPerms then userPerms[allow] else []) + [ForValueOf(show, docs[n])];
    var after := userPerms[allow := granted];
    assert allow in after && after != map[];
    forall t ensures GrantedFor(show, docs[..n + 1], t) == if t in after then after[t] else [] {
      GrantedOneMore(show, docs, n, t);
    }
  }

  lemma GrantedOneMore(show: Show, docs: seq<Fields>, n: nat, target: string)
    requires n < |docs|
    ensures AllowOf(show, docs[n]) == target ==>
              GrantedFor(show, docs[..n + 1], target)
              == GrantedFor(show, docs[..n], target) + [ForValueOf(show, docs[n])]
    ensures AllowOf(show, docs[n]) != target ==>
              GrantedFor(show, docs[..n + 1], target) == GrantedFor(show, docs[..n], target)
  {
    var more := docs[..n + 1];
    assert more[..|more| - 1] == docs[..n] && more[|more| - 1] == docs[n];
  }

  /** Collects the granted values per entity. */
  method CollectGrants(show: Show, docs: seq<Fields>) returns (userPerms: map<string, seq<string>>)
    ensures Collects(show, docs, userPerms)
  {
    userPerms := map[];
    var n := 0;
    while n < |docs|
      invariant n <= |docs| && Collects(show, docs[..n], userPerms)
    {
      CollectOne(show, docs, n, userPerms);
      var allow, forValue := AllowOf(show, docs[n]), ForValueOf(show, docs[n]);
      userPerms := userPerms[allow := (if allow in userPerms then userPerms[allow] else []) + [forValue]];
      n := n + 1;
    }
    assert docs[..n] == docs;
  }

  /**
   `docs` are the grants of the user, `entity` is what loading the filtered entity gives.
   Without grants the entity is not even loaded.
   */
  method GetRowFilters(show: Show, docs: seq<Fields>, entity: Option<seq<Link>>) returns (r: Result<seq<Filter>>)
    ensures docs == [] ==> r == Ok([])
    ensures docs != [] && entity.None? ==> r.Err?
    ensures docs != [] && entity.Some? ==> r == Ok(FiltersFor(show, docs, entity.value))
  {
    var userPerms := CollectGrants(show, docs);
    if userPerms == map[] {
      return Ok([]);
    }
    if entity.None? {
      return Err("entity not found");
    }
    var links := entity.value;
    var rowFilters: seq<Filter> := [];
    var n := 0;
    while n < |links|
      invariant n <= |links| && rowFilters == FiltersFor(show, docs, links[..n])
    {
      assert links[..n + 1][..n] == links[..n];
      if links[n].isLookup && links[n].options in userPerms {
        rowFilters := rowFilters + [Filter(links[n].field, [Constraint("equals", Texts(userPerms[links[n].options]))])];
      }
      n := n + 1;
    }
    assert links[..n] == links;
    return Ok(rowFilters);
  }

  // ----- Which records the filters admit -----

  predicate Mentions(show: Show, docs: seq<Fields>, target: string) {
    exists i :: 0 <= i < |docs| && AllowOf(show, docs[i]) == target
  }

  predicate Allowed(show: Show, docs: seq<Fields>, target: string, v: Value) {
    exists i :: 0 <= i < |docs| && AllowOf(show, docs[i]) == target && ForValueOf(show, docs[i]) == show(v)
  }

  predicate AdmitsLink(show: Show, docs: seq<Fields>, link: Link, rec: Fields) {
    link.isLookup && Mentions(show, docs, link.options) ==>
      link.field in rec && Allowed(show, docs, link.options, rec[link.field])
  }

  /** Every lookup the user has grants for holds one of the granted values. */
  predicate Admits(show: Show, docs: seq<Fields>, links: seq<Link>, rec: Fields) {
    forall i :: 0 <= i < |links| ==> AdmitsLink(show, docs, links[i], rec)
  }

  /**
   In terms of the stored grants: of every lookup to an entity that some grant allows, the
   record must hold a value whose text is the one of some such grant.
   */
  lemma AdmitsIff(show: Show, docs: seq<Fields>, links: seq<Link>, rec: Fields)
    ensures
      Admits(show, docs, links, rec) <==>
      forall i, j :: 0 <= i < |links| && links[i].isLookup && 0 <= j < |docs|
                     && TextAt(show, docs[j], "allow") == links[i].options ==>
                       && links[i].field in rec
                       && exists d :: && 0 <= d < |docs| && TextAt(show, docs[d], "allow") == links[i].options
                                      && TextAt(show, docs[d], "for_value") == show(rec[links[i].field])
  {
    forall d | 0 <= d < |docs|
      ensures TextAt(show, docs[d], "allow") == AllowOf(show, docs[d])
      ensures TextAt(show, docs[d], "for_value") == ForValueOf(show, docs[d])
    {
    }
    forall i | 0 <= i < |links|
      ensures AdmitsLink(show, docs, links[i], rec) <==>
              forall j :: links[i].isLookup && 0 <= j < |docs| && TextAt(show, docs[j], "allow") == links[i].options ==>
                && links[i].field in rec
                && exists d :: && 0 <= d < |docs| && TextAt(show, docs[d], "allow") == links[i].options
                               && TextAt(show, docs[d], "for_value") == show(rec[links[i].field])
    {
    }
  }

  /** The text of a field of a stored grant; a missing field is shown as nil. */
  function TextAt(show: Show, doc: Fields, name: string): string {
    if name in doc then show(doc[name]) else show(Null)
  }

  lemma {:induction false} GrantedMembers(show: Show, docs: seq<Fields>, target: string, value: string)
    ensures value in GrantedFor(show, docs, target)
            <==> exists i :: 0 <= i < |docs| && AllowOf(show, docs[i]) == target && ForValueOf(show, docs[i]) == value
  {
    if docs != [] {
      var n := |docs| - 1;
      var front := docs[..n];
      GrantedMembers(show, front, target, value);
      if i :| 0 <= i < |front| && AllowOf(show, front[i]) == target && ForValueOf(show, front[i]) == value {
        assert AllowOf(show, docs[i]) == target && ForValueOf(show, docs[i]) == value;
      }
      if i :| 0 <= i < n && AllowOf(show, docs[i]) == target && ForValueOf(show, docs[i]) == value {
        assert AllowOf(show, front[i]) == target && ForValueOf(show, front[i]) == value;
      }
    }
  }

  lemma GrantsNonEmpty(show: Show, docs: seq<Fields>, target: string)
    ensures GrantedFor(show, docs, target) != [] <==> Mentions(show, docs, target)
  {
    var granted := GrantedFor(show, docs, target);
    if granted != [] { GrantedMembers(show, docs, target, granted[0]); }
    if i :| 0 <= i < |docs| && AllowOf(show, docs[i]) == target {
      GrantedMembers(show, docs, target, ForValueOf(show, docs[i]));
    }
  }

  lemma LinkFilter(show: Show, docs: seq<Fields>, link: Link, rec: Fields)
    requires ShowsText(show) && link.isLookup && Mentions(show, docs, link.options)
    ensures
      var granted := GrantedFor(show, docs, link.options);
      Passes(show, Filter(link.field, [Constraint("equals", Texts(granted))]), rec)
      <==> AdmitsLink(show, docs, link, rec)
  {
    if link.field in rec {
      var granted := GrantedFor(show, docs, link.options);
      var v := rec[link.field];
      GrantedMembers(show, docs, link.options, show(v));
      var c := Constraint("equals", Texts(granted));
      assert Allows(show, c, v) <==> show(v) in granted by {
        forall i | 0 <= i < |granted| ensures show(c.values[i]) == granted[i] {
          assert c.values[i] == Text(granted[i]);
        }
        if i :| 0 <= i < |granted| && granted[i] == show(v) { assert show(v) == show(c.values[i]); }
      }
      var f := Filter(link.field, [c]);
      assert f.constraints[0] == c;
    }
  }

  lemma MatchesSnoc(show: Show, filters: seq<Filter>, f: Filter, rec: Fields)
    ensures Matches(show, filters + [f], rec) <==> Matches(show, filters, rec) && Passes(show, f, rec)
  {
    var all := filters + [f];
    if Matches(show, all, rec) {
      assert Passes(show, all[|filters|], rec);
      forall i | 0 <= i < |filters| ensures Passes(show, filters[i], rec) { assert Passes(show, all[i], rec); }
    }
  }

  /** A record passes the row filters exactly when it is admitted. */
  lemma {:induction false} FiltersAdmit(show: Show, docs: seq<Fields>, links: seq<Link>, rec: Fields)
    requires ShowsText(show)
    ensures Matches(show, FiltersFor(show, docs, links), rec) <==> Admits(show, docs, links, rec)
    decreases |links|
  {
    if links != [] {
      var n := |links| - 1;
      var front, last := links[..n], links[n];
      FiltersAdmit(show, docs, front, rec);
      GrantsNonEmpty(show, docs, last.options);
      assert Admits(show, docs, links, rec)
             <==> Admits(show, docs, front, rec) && AdmitsLink(show, docs, last, rec) by {
        assert forall i :: 0 <= i < n ==> front[i] == links[i];
      }
      assert FiltersFor(show, docs, front) + [] == FiltersFor(show, docs, front);
      if last.isLookup && Mentions(show, docs, last.options) {
        LinkFilter(show, docs, last, rec);
        MatchesSnoc(show, FiltersFor(show, docs, front),
                    Filter(last.field, [Constraint("equals", Texts(GrantedFor(show, docs, last.options)))]), rec);
      }
    }
  }

  lemma MoreGrants(show: Show, docs: seq<Fields>, doc: Fields, target: string, v: Value)
    ensures Mentions(show, docs + [doc], target) <==> Mentions(show, docs, target) || AllowOf(show, doc) == target
    ensures Allowed(show, docs + [doc], target, v)
            <==> Allowed(show, docs, target, v) || (AllowOf(show, doc) == target && ForValueOf(show, doc) == show(v))
  {
    var more := docs + [doc];
    assert more[|docs|] == doc && forall i :: 0 <= i < |docs| ==> more[i] == docs[i];
    if i :| 0 <= i < |docs| && AllowOf(show, docs[i]) == target { assert AllowOf(show, more[i]) == target; }
    if Allowed(show, docs, target, v) {
      var i :| 0 <= i < |docs| && AllowOf(show, docs[i]) == target && ForValueOf(show, docs[i]) == show(v);
      assert AllowOf(show, more[i]) == target && ForValueOf(show, more[i]) == show(v);
    }
  }

  /**
   One more grant: for an entity that already has grants it admits more records, for any
   other entity it admits fewer.
   */
  lemma OneMoreGrant(show: Show, docs: seq<Fields>, doc: Fields, links: seq<Link>, rec: Fields)
    ensures Mentions(show, docs, AllowOf(show, doc)) && Admits(show, docs, links, rec)
            ==> Admits(show, docs + [doc], links, rec)
    ensures !Mentions(show, docs, AllowOf(show, doc)) && Admits(show, docs + [doc], links, rec)
            ==> Admits(show, docs, links, rec)
  {
    forall i | 0 <= i < |links|
      ensures Mentions(show, docs, AllowOf(show, doc)) && AdmitsLink(show, docs, links[i], rec)
              ==> AdmitsLink(show, docs + [doc], links[i], rec)
      ensures !Mentions(show, docs, AllowOf(show, doc)) && AdmitsLink(show, docs + [doc], links[i], rec)
              ==> AdmitsLink(show, docs, links[i], rec)
    {
      MoreGrants(show, docs, doc, links[i].options, if links[i].field in rec then rec[links[i].field] else Null);
    }
  }
}
