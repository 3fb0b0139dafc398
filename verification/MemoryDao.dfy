/**
 The in-memory record store. `Get` and `List` copy the record struct but share its inner
 map, so the just-in-time evolution of a reader changes the stored data while the stored
 metadata stays as it was.
 */
module MemoryDao {
  import opened Wrappers
  import opened Ordering
  import opened Evolution
  import opened RowStore
  import opened Filters
  import opened Listings
  import opened EvolutionService

  /** The stored struct: metadata by value, data by reference. */
  datatype RecJson = RecJson(rec: RecordMap, stamp: Stamp, revision: int)

  class MemoryDao {
    const show: Show
    var data: map<string, RecJson>

    constructor (show: Show)
      ensures Valid() && StoredRows() == map[]
    {
      this.show := show;
      data := map[];
    }

    ghost function Maps(): set<RecordMap>
      reads this
    {
      set k | k in data :: data[k].rec
    }

    /** Different keys never share a map. */
    ghost predicate Valid()
      reads this
    {
      forall j, k :: j in data && k in data && j != k ==> data[j].rec != data[k].rec
    }

    ghost function StoredRows(): Rows
      reads this, Maps()
    {
      map k | k in data :: Row(data[k].rec.fields, data[k].stamp, data[k].revision)
    }

    /** Rewriting one shared map in place changes one row's data. */
    twostate lemma RewrittenAt(key: string)
      requires old(Valid()) && unchanged(this) && key in data
      requires forall k :: k in data && k != key ==> data[k].rec.fields == old(data[k].rec.fields)
      ensures Valid() && key in old(StoredRows())
      ensures StoredRows() == old(StoredRows())[key := old(StoredRows())[key].(fields := data[key].rec.fields)]
    {
    }

    /** Stores a decoded copy: the caller's map is not shared. */
    method Put(key: string, fields: Fields, stamp: Stamp, revision: int)
      requires Valid()
      modifies this
      ensures Valid() && fresh(Maps() - old(Maps()))
      ensures StoredRows() == old(StoredRows())[key := Row(fields, stamp, revision)]
    {
      var decoded := new RecordMap(fields);
      data := data[key := RecJson(decoded, stamp, revision)];
    }

    method Save(key: string, rec: RecordMap, stamp: Stamp, revision: int)
      requires Valid()
      modifies this
      ensures Valid() && fresh(Maps() - old(Maps()))
      ensures StoredRows() == Saved(old(StoredRows()), key, Row(rec.fields, stamp, revision))
      ensures StoredRows() == old(StoredRows())[key := Row(rec.fields, stamp, revision + 1)]
    {
      Put(key, rec.fields, stamp, revision + 1);
    }

    method SaveConditional(key: string, rec: RecordMap, stamp: Stamp, expectedRevision: int) returns (ok: bool)
      requires Valid()
      modifies this
      ensures Valid() && fresh(Maps() - old(Maps()))
      ensures ok <==> RevisionIs(old(StoredRows()), key, expectedRevision)
      ensures StoredRows()
              == SavedIf(old(StoredRows()), key, Row(rec.fields, stamp, expectedRevision), expectedRevision)
      ensures ok <==> key in old(data) && old(data)[key].revision == expectedRevision
      ensures ok ==> StoredRows() == old(StoredRows())[key := Row(rec.fields, stamp, expectedRevision + 1)]
      ensures !ok ==> data == old(data)
    {
      if key !in data || data[key].revision != expectedRevision {
        return false;
      }
      Put(key, rec.fields, stamp, expectedRevision + 1);
      return true;
    }

    /** The struct is copied; its map is the stored one. */
    method Get(key: string) returns (rec: Option<RecJson>)
      ensures rec == if key in data then Some(data[key]) else None
    {
      rec := if key in data then Some(data[key]) else None;
    }

    method Delete(key: string)
      requires Valid()
      modifies this
      ensures Valid() && Maps() <= old(Maps())
      ensures StoredRows() == old(StoredRows()) - {key}
    {
      data := data - {key};
    }

    /** Does the constraint loop of one filter accept the value? */
    method Satisfies(constraints: seq<Constraint>, val: Value) returns (accepted: bool)
      ensures accepted <==> forall i :: 0 <= i < |constraints| ==> Allows(show, constraints[i], val)
    {
      var i := 0;
      while i < |constraints|
        invariant i <= |constraints|
        invariant forall j :: 0 <= j < i ==> Allows(show, constraints[j], val)
      {
        if constraints[i].kind == "equals" {
          var found := false;
          var j := 0;
          while j < |constraints[i].values| && !found
            invariant j <= |constraints[i].values|
            invariant found <==> exists l :: 0 <= l < j && show(val) == show(constraints[i].values[l])
          {
            found := show(val) == show(constraints[i].values[j]);
            j := j + 1;
          }
          if !found {
            assert !Allows(show, constraints[i], val);
            return false;
          }
        }
        i := i + 1;
      }
      return true;
    }

    method Accepts(filters: seq<Filter>, rec: RecordMap) returns (accepted: bool)
      ensures accepted <==> Matches(show, filters, rec.fields)
    {
      var i := 0;
      while i < |filters|
        invariant i <= |filters|
        invariant forall j :: 0 <= j < i ==> Passes(show, filters[j], rec.fields)
      {
        if filters[i].field !in rec.fields {
          return false;
        }
        var ok := Satisfies(filters[i].constraints, rec.fields[filters[i].field]);
        if !ok {
          assert !Passes(show, filters[i], rec.fields);
          return false;
        }
        i := i + 1;
      }
      return true;
    }

    /** The records that pass all filters, met in map order. */
    method Select(filters: seq<Filter>, ghost rows: Rows) returns (matching: set<string>)
      requires rows == StoredRows()
      ensures matching == Matching(show, filters, rows)
    {
      matching := {};
      var rest := data.Keys;
      while rest != {}
        invariant rest <= data.Keys
        invariant matching == set k | k in data && k !in rest && Matches(show, filters, data[k].rec.fields)
        decreases rest
      {
        var k :| k in rest;
        var ok := Accepts(filters, data[k].rec);
        if ok {
          matching := matching + {k};
        }
        rest := rest - {k};
      }
    }

    /** Filters, sorts by key, then cuts out the page. */
    method List(filters: seq<Filter>, offset: Option<nat>, limit: Option<nat>)
      returns (keys: seq<string>, recs: seq<RecJson>, total: nat)
      ensures keys == ListedKeys(show, filters, StoredRows(), offset, limit)
      ensures Increasing(keys) && forall k :: k in keys <==> Selects(show, filters, StoredRows(), offset, limit, k)
      ensures |recs| == |keys| && forall i :: 0 <= i < |keys| ==> keys[i] in data && recs[i] == data[keys[i]]
      ensures total == |Matching(show, filters, StoredRows())|
    {
      ghost var rows := StoredRows();
      var matching := Select(filters, rows);
      total := |matching|;
      keys, recs := Fetch(matching, offset, limit);
      ListingSelects(show, filters, rows, offset, limit);
      assert StoredRows() == rows;
    }

    method Fetch(selected: set<string>, offset: Option<nat>, limit: Option<nat>)
      returns (keys: seq<string>, recs: seq<RecJson>)
      requires selected <= data.Keys
      ensures keys == Window(SortKeys(selected), offset, limit)
      ensures |recs| == |keys| && forall i :: 0 <= i < |keys| ==> keys[i] in data && recs[i] == data[keys[i]]
    {
      var sorted := SortedKeys(selected);
      keys := Window(sorted, offset, limit);
      forall i | 0 <= i < |keys| ensures keys[i] in data {
        assert keys[i] in sorted;
        assert keys[i] in selected;
      }
      recs := RecordsAt(data, keys);
    }
  }

  function RecordsAt(data: map<string, RecJson>, keys: seq<string>): (recs: seq<RecJson>)
    requires forall i :: 0 <= i < |keys| ==> keys[i] in data
    ensures |recs| == |keys| && forall i :: 0 <= i < |keys| ==> recs[i] == data[keys[i]]
  {
    seq(|keys|, i requires 0 <= i < |keys| => data[keys[i]])
  }

  // ----- Readers of the shared map -----

  /** The stored data after a number of just-in-time reads under stamp `stamp`. */
  function AfterReads(order: seq<Version>, rec: Fields, stamp: Stamp, times: nat): Fields {
    if times == 0 then rec else Evolve(order, AfterReads(order, rec, stamp, times - 1), stamp)
  }

  /**
   The evolution step of `Single`: the stored map is rewritten in place, the stored
   metadata is not, since the reader evolved a copy of it.
   */
  method ReadInPlace(dao: MemoryDao, evolution: EvolutionService, entity: string, key: string)
    returns (result: Result<Fields>, ghost order: seq<Version>)
    requires dao.Valid()
    modifies dao.Maps()
    ensures dao.Valid()
    ensures key !in dao.data ==> result.Err? && dao.StoredRows() == old(dao.StoredRows())
    ensures key in dao.data ==>
              var row := old(dao.StoredRows())[key];
              var evolved := Evolve(order, row.fields, row.stamp);
              && TimelineFor(evolution.manifests, entity, order)
              && result == Ok(evolved)
              && dao.StoredRows() == old(dao.StoredRows())[key := row.(fields := evolved)]
  {
    var rec := dao.Get(key);
    if rec.None? {
      result := Err("record not found");
      order := [];
      return;
    }
    var recData := rec.value.rec;
    var meta := new MetaData(rec.value.stamp, rec.value.revision);
    var modified, used := evolution.EvolveRecord(entity, recData, meta);
    order := used;
    result := Ok(recData.fields);
    dao.RewrittenAt(key);
  }

  /**
   When the pending actions are settled, every read of the same record returns the same
   data, however often the shared map has been rewritten by earlier reads.
   */
  lemma {:induction false} StaleReadsAgree(order: seq<Version>, rec: Fields, stamp: Stamp, times: nat)
    requires Settled(Flatten(Missing(order, stamp)))
    ensures AfterReads(order, rec, stamp, times + 1) == Evolve(order, rec, stamp)
  {
    if times == 0 {
      assert AfterReads(order, rec, stamp, 0) == rec;
    } else {
      StaleReadsAgree(order, rec, stamp, times - 1);
      SettledIdempotent(Flatten(Missing(order, stamp)), rec);
    }
  }

  /** What a number of reads in a row return: with settled actions the same each time. */
  ghost function ReadViews(order: seq<Version>, row: Row, times: nat): (views: seq<Fields>)
    ensures |views| == times
    ensures forall i :: 0 <= i < times ==> views[i] == AfterReads(order, row.fields, row.stamp, i + 1)
    ensures Settled(Flatten(Missing(order, row.stamp))) ==>
              forall i :: 0 <= i < times ==> views[i] == Evolve(order, row.fields, row.stamp)
  {
    if times == 0 then []
    else
      var last := AfterReads(order, row.fields, row.stamp, times);
      assert Settled(Flatten(Missing(order, row.stamp))) ==> last == Evolve(order, row.fields, row.stamp) by {
        if Settled(Flatten(Missing(order, row.stamp))) { StaleReadsAgree(order, row.fields, row.stamp, times - 1); }
      }
      ReadViews(order, row, times - 1) + [last]
  }

  /** A number of reads in a row: each returns what the shared map has become. */
  method ReadRepeatedly(dao: MemoryDao, evolution: EvolutionService, entity: string, key: string, times: nat,
                        ghost order: seq<Version>)
    returns (results: seq<Fields>)
    requires dao.Valid() && key in dao.data
    requires Unambiguous(evolution.manifests, entity) && TimelineFor(evolution.manifests, entity, order)
    modifies dao.Maps()
    ensures dao.Valid()
    ensures
      var row := old(dao.StoredRows())[key];
      && dao.StoredRows() == old(dao.StoredRows())[key := ReadRow(order, row, times)]
      && results == ReadViews(order, row, times)
  {
    ghost var rows := dao.StoredRows();
    ghost var row := rows[key];
    results := [];
    var i := 0;
    assert rows[key := ReadRow(order, row, 0)] == rows;
    while i < times
      invariant i <= times && dao.Valid() && results == ReadViews(order, row, i)
      invariant dao.StoredRows() == rows[key := ReadRow(order, row, i)]
    {
      var result, used := ReadInPlace(dao, evolution, entity, key);
      TimelineForUnique(evolution.manifests, entity, order, used);
      OneMoreRead(order, rows, key, row, i);
      results := results + [result.value];
      i := i + 1;
    }
  }

  lemma OneMoreRead(order: seq<Version>, rows: Rows, key: string, row: Row, i: nat)
    ensures
      var now := ReadRow(order, row, i);
      var evolved := Evolve(order, now.fields, now.stamp);
      && evolved == AfterReads(order, row.fields, row.stamp, i + 1)
      && rows[key := now][key := now.(fields := evolved)] == rows[key := ReadRow(order, row, i + 1)]
  {
  }

  // ----- What is persisted after such reads -----

  /** A stored row after a number of just-in-time reads. */
  function ReadRow(order: seq<Version>, row: Row, times: nat): Row {
    row.(fields := AfterReads(order, row.fields, row.stamp, times))
  }

  /**
   One record of a scrub over this store. The map is rewritten before the compare-and-set,
   whether or not it is still the stored one; the stored rows change as if it were a copy.
   */
  method ScrubInPlace(dao: MemoryDao, evolution: EvolutionService, entity: string, key: string, r: RecJson,
                      ghost order: seq<Version>)
    returns (outcome: Outcome)
    requires dao.Valid()
    requires forall k :: k in dao.data && dao.data[k].rec == r.rec ==> k == key && dao.data[k] == r
    requires Unambiguous(evolution.manifests, entity) && TimelineFor(evolution.manifests, entity, order)
    modifies dao, r.rec
    ensures dao.Valid()
    ensures
      var rows, seen := old(dao.StoredRows()), Entry(key, Row(old(r.rec.fields), r.stamp, r.revision));
      outcome == OutcomeOf(order, rows, seen) && dao.StoredRows() == AfterRecord(order, rows, seen)
  {
    ghost var rows := dao.StoredRows();
    ghost var shared := key in dao.data && dao.data[key].rec == r.rec;
    var meta, modified := EvolveListed(dao, evolution, entity, key, r, order);
    outcome := Unchanged;
    if modified {
      var upgraded := r.rec;
      SaveAfterRewrite(rows, key, Row(upgraded.fields, meta.stamp, meta.revision));
      var ok := dao.SaveConditional(key, upgraded, meta.stamp, meta.revision);
      outcome := if ok then Upgraded else Failed;
    }
  }

  /** Rewriting the data first does not change what a conditional save does. */
  lemma SaveAfterRewrite(rows: Rows, key: string, row: Row)
    ensures key in rows ==> SavedIf(rows[key := rows[key].(fields := row.fields)], key, row, row.revision) ==
                            if RevisionIs(rows, key, row.revision) then SavedIf(rows, key, row, row.revision)
                            else rows[key := rows[key].(fields := row.fields)]
  {
  }

  /** The evolution of a listed record: in the shared map, if that is still the stored one. */
  method EvolveListed(dao: MemoryDao, evolution: EvolutionService, entity: string, key: string, r: RecJson,
                      ghost order: seq<Version>)
    returns (meta: MetaData, modified: bool)
    requires dao.Valid()
    requires forall k :: k in dao.data && dao.data[k].rec == r.rec ==> k == key && dao.data[k] == r
    requires Unambiguous(evolution.manifests, entity) && TimelineFor(evolution.manifests, entity, order)
    modifies r.rec
    ensures fresh(meta) && meta.stamp == EvolveStamp(order, r.stamp) && meta.revision == r.revision
    ensures dao.Valid() && r.rec.fields == Evolve(order, old(r.rec.fields), r.stamp)
    ensures modified <==> !Current(order, r.stamp)
    ensures
      var rows := old(dao.StoredRows());
      dao.StoredRows() == if key in dao.data && dao.data[key].rec == r.rec
                          then rows[key := rows[key].(fields := r.rec.fields)] else rows
  {
    meta := new MetaData(r.stamp, r.revision);
    ghost var used;
    modified, used := evolution.EvolveRecord(entity, r.rec, meta);
    TimelineForUnique(evolution.manifests, entity, order, used);
    if key in dao.data && dao.data[key].rec == r.rec {
      dao.RewrittenAt(key);
    } else {
      assert dao.StoredRows() == old(dao.StoredRows());
    }
  }

  /**
   When the pending actions are settled, reads in between make no difference to what a later
   scrub persists, nor to what a later update starts from.
   */
  lemma SettledReadsHarmless(order: seq<Version>, row: Row, times: nat)
    requires Settled(Flatten(Missing(order, row.stamp)))
    ensures Upgrade(order, ReadRow(order, row, times)) == Upgrade(order, row)
    ensures Stale(order, row) ==> ScrubRow(order, ReadRow(order, row, times)) == ScrubRow(order, row)
  {
    StaleReadsAgree(order, row.fields, row.stamp, times);
  }

  /** Otherwise a single read before the scrub can make it persist a default in place of the value. */
  lemma ReadThenScrubLosesData(stamp: Stamp, v: Value, revision: int)
    requires Since(stamp) < SECOND && v != Num(0)
    ensures
      var order := [Version("v2", SECOND, [Add("a", Num(0)), Rename("a", "b")])];
      var row := Row(map["a" := v], stamp, revision);
      && ScrubRow(order, row).fields == map["b" := v]
      && ScrubRow(order, ReadRow(order, row, 1)).fields == map["b" := Num(0)]
  {
    var order := [Version("v2", SECOND, [Add("a", Num(0)), Rename("a", "b")])];
    var row := Row(map["a" := v], stamp, revision);
    SecondReadLosesData(stamp, v);
    PendingAll(order, Since(stamp));
    assert AfterReads(order, row.fields, stamp, 0) == row.fields;
    assert AfterReads(order, row.fields, stamp, 2) == Evolve(order, AfterReads(order, row.fields, stamp, 1), stamp);
  }

  /** Unsettled actions lose data on the second read: the renamed value is overwritten. */
  lemma SecondReadLosesData(stamp: Stamp, v: Value)
    requires Since(stamp) < SECOND && v != Num(0)
    ensures
      var order := [Version("v2", SECOND, [Add("a", Num(0)), Rename("a", "b")])];
      && AfterReads(order, map["a" := v], stamp, 1) == map["b" := v]
      && AfterReads(order, map["a" := v], stamp, 2) == map["b" := Num(0)]
  {
    var acts := [Add("a", Num(0)), Rename("a", "b")];
    var order := [Version("v2", SECOND, acts)];
    PendingAll(order, Since(stamp));
    assert order[1..] == [];
    assert Flatten(order) == acts + [] == acts;
    var rec: Fields := map["a" := v];
    ApplyTwo(acts[0], acts[1], rec);
    assert AfterReads(order, rec, stamp, 0) == rec;
    var once := AfterReads(order, rec, stamp, 1);
    assert once == ApplyAll(acts, rec) == map["b" := v];
    ApplyTwo(acts[0], acts[1], once);
    assert AfterReads(order, rec, stamp, 2) == ApplyAll(acts, once) == map["b" := Num(0)];
  }
}
