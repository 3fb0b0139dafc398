/**
 Reading and updating records of an entity other than "User": just-in-time evolution in
 front of every read and patch, and field permissions on the way out and in.
 */
module EntityService {
  import opened Wrappers
  import opened Ordering
  import opened Evolution
  import opened FieldHistory
  import opened RowStore
  import opened Filters
  import opened EvolutionService
  import opened MemoryDao
  import opened Permissions
  import opened RowFilters

  type Perms = map<string, Perm>

  predicate Readable(perms: Perms, f: string) {
    f in perms ==> perms[f].read
  }

  predicate Writable(perms: Perms, f: string) {
    f in perms ==> perms[f].write
  }

  function ReadableView(perms: Perms, rec: Fields): Fields {
    map f | f in rec && Readable(perms, f) :: rec[f]
  }

  function WritableView(perms: Perms, data: Fields): Fields {
    map f | f in data && Writable(perms, f) :: data[f]
  }

  /** The view holds the fields without an entry and those whose entry allows reading, as they are. */
  ghost predicate ShowsReadable(perms: Perms, rec: Fields, view: Fields) {
    forall f :: && (f in view <==> f in rec && (f !in perms || perms[f].read))
                && (f in view ==> view[f] == rec[f])
  }

  // ----- What the operations do to the rows -----

  ghost function SingleOf(order: seq<Version>, rows: Rows, key: string, perms: Perms): Result<Fields> {
    if key in rows then Ok(ReadableView(perms, Upgrade(order, rows[key]).fields)) else Err("record not found")
  }

  /** The evolved record overwritten by the writable input fields, and stamped with the time. */
  function Patched(perms: Perms, existing: Fields, data: Fields, now: Value): Fields {
    (existing + WritableView(perms, data))["updated_at" := now]
  }

  function UpdatedRow(order: seq<Version>, row: Row, perms: Perms, data: Fields, now: Value): Row {
    var evolved := Upgrade(order, row);
    evolved.(fields := Patched(perms, evolved.fields, data, now))
  }

  function UpdatedRows(order: seq<Version>, rows: Rows, key: string, perms: Perms, data: Fields, now: Value): Rows {
    if key in rows then Saved(rows, key, UpdatedRow(order, rows[key], perms, data, now)) else rows
  }

  /** A new row: the writable input fields and two times, with blank metadata. */
  function InsertedRow(perms: Perms, data: Fields, now: Value, later: Value): Row {
    Row(WritableView(perms, data)["created_at" := now]["updated_at" := later], NO_STAMP, 0)
  }

  /** The identifier given by the caller, or the generated one when it is missing or empty. */
  function InsertId(data: Fields, primaryKey: string, generated: string): Value {
    var id := Lookup(data, primaryKey);
    if id == Null || id == Text("") then Text(generated) else id
  }

  class EntityService {
    const dao: SqliteDao
    const evolution: EvolutionService
    const show: Show

    constructor (dao: SqliteDao, evolution: EvolutionService, show: Show)
      ensures this.dao == dao && this.evolution == evolution && this.show == show
    {
      this.dao := dao;
      this.evolution := evolution;
      this.show := show;
    }

    /** Copies the fields the caller may read, in map order. */
    method CopyReadable(perms: Perms, rec: Fields) returns (filtered: Fields)
      ensures filtered == ReadableView(perms, rec)
    {
      filtered := map[];
      var rest := rec.Keys;
      while rest != {}
        invariant rest <= rec.Keys
        invariant filtered == map f | f in rec && f !in rest && Readable(perms, f) :: rec[f]
        decreases rest
      {
        var f :| f in rest;
        if !(f in perms && !perms[f].read) {
          filtered := filtered[f := rec[f]];
        }
        rest := rest - {f};
      }
    }

    /** Overwrites the record with the input fields the caller may write, in map order. */
    method Patch(perms: Perms, existing: RecordMap, data: Fields)
      modifies existing
      ensures existing.fields == old(existing.fields) + WritableView(perms, data)
    {
      var rest := data.Keys;
      while rest != {}
        invariant rest <= data.Keys
        invariant existing.fields
                  == old(existing.fields) + map f | f in data && f !in rest && Writable(perms, f) :: data[f]
        decreases rest
      {
        var f :| f in rest;
        if !(f in perms && !perms[f].write) {
          existing.fields := existing.fields[f := data[f]];
        }
        rest := rest - {f};
      }
    }

    method Single(entity: string, key: string, perms: Perms, ghost order: seq<Version>) returns (result: Result<Fields>)
      requires Unambiguous(evolution.manifests, entity) && TimelineFor(evolution.manifests, entity, order)
      ensures result == SingleOf(order, dao.rows, key, perms)
      ensures key !in dao.rows ==> result == Err("record not found")
      ensures
        key in dao.rows ==>
          && result.Ok?
          && ShowsReadable(perms, Evolve(order, dao.rows[key].fields, dao.rows[key].stamp), result.value)
    {
      var row := dao.Get(key);
      if row.None? {
        return Err("record not found");
      }
      var recData := new RecordMap(row.value.fields);
      var meta := new MetaData(row.value.stamp, row.value.revision);
      var modified, used := evolution.EvolveRecord(entity, recData, meta);
      TimelineForUnique(evolution.manifests, entity, order, used);
      var filtered := CopyReadable(perms, recData.fields);
      return Ok(filtered);
    }

    method Update(entity: string, primaryKey: string, data: Fields, perms: Perms, now: Value, ghost order: seq<Version>)
      returns (result: Result<Fields>)
      requires entity != "User"
      requires Unambiguous(evolution.manifests, entity) && TimelineFor(evolution.manifests, entity, order)
      modifies dao
      ensures
        var key := show(Lookup(data, primaryKey));
        && dao.rows == UpdatedRows(order, old(dao.rows), key, perms, data, now)
        && result == SingleOf(order, dao.rows, key, perms)
    {
      var key := show(Lookup(data, primaryKey));
      var row := dao.Get(key);
      if row.None? {
        return Err("record not found");
      }
      var updated := PatchEvolved(entity, row.value, data, perms, now, order);
      dao.Save(key, updated);
      result := Single(entity, key, perms, order);
    }

    /** The row as read, evolved and then overwritten. */
    method PatchEvolved(entity: string, row: Row, data: Fields, perms: Perms, now: Value, ghost order: seq<Version>)
      returns (updated: Row)
      requires Unambiguous(evolution.manifests, entity) && TimelineFor(evolution.manifests, entity, order)
      ensures updated == UpdatedRow(order, row, perms, data, now)
    {
      var existing := new RecordMap(row.fields);
      var meta := new MetaData(row.stamp, row.revision);
      var modified, used := evolution.EvolveRecord(entity, existing, meta);
      TimelineForUnique(evolution.manifests, entity, order, used);
      Patch(perms, existing, data);
      existing.fields := existing.fields["updated_at" := now];
      updated := Row(existing.fields, meta.stamp, meta.revision);
    }

    method Insert(entity: string, primaryKey: string, data: Fields, perms: Perms, generated: string,
                  now: Value, later: Value, ghost order: seq<Version>)
      returns (result: Result<Fields>)
      requires entity != "User"
      requires Unambiguous(evolution.manifests, entity) && TimelineFor(evolution.manifests, entity, order)
      modifies dao
      ensures
        var id := InsertId(data, primaryKey, generated);
        && dao.rows == Saved(old(dao.rows), show(id), InsertedRow(perms, data[primaryKey := id], now, later))
        && result == SingleOf(order, dao.rows, show(id), perms)
    {
      var id := InsertId(data, primaryKey, generated);
      var cleanData := new RecordMap(map[]);
      Patch(perms, cleanData, data[primaryKey := id]);
      assert cleanData.fields == WritableView(perms, data[primaryKey := id]);
      cleanData.fields := cleanData.fields["created_at" := now];
      cleanData.fields := cleanData.fields["updated_at" := later];
      dao.Save(show(id), Row(cleanData.fields, NO_STAMP, 0));
      result := Single(entity, show(id), perms, order);
    }
  }

  // ----- Field permissions separate readers and writers -----

  /** A reader learns nothing about unreadable fields beyond which fields there are. */
  lemma SingleHidesUnreadable(order: seq<Version>, rows: Rows, key: string, a: Row, b: Row, perms: Perms)
    requires
      var x, y := Upgrade(order, a).fields, Upgrade(order, b).fields;
      x.Keys == y.Keys && forall f :: f in x && Readable(perms, f) ==> x[f] == y[f]
    ensures SingleOf(order, rows[key := a], key, perms) == SingleOf(order, rows[key := b], key, perms)
  {
    var x, y := Upgrade(order, a).fields, Upgrade(order, b).fields;
    assert ReadableView(perms, x) == ReadableView(perms, y);
  }

  /** Unwritable input fields do not influence what an update stores. */
  lemma UpdateIgnoresUnwritable(order: seq<Version>, show: Show, rows: Rows, primaryKey: string, perms: Perms,
                                a: Fields, b: Fields, now: Value)
    requires Lookup(a, primaryKey) == Lookup(b, primaryKey)
    requires forall f :: Writable(perms, f) ==> (f in a <==> f in b) && (f in a && f in b ==> a[f] == b[f])
    ensures UpdatedRows(order, rows, show(Lookup(a, primaryKey)), perms, a, now)
            == UpdatedRows(order, rows, show(Lookup(b, primaryKey)), perms, b, now)
  {
    assert WritableView(perms, a) == WritableView(perms, b);
  }

  /**
   An update stores an up-to-date row whose unwritable fields are those of the evolved
   record, and a later read returns every field that was written and may be read.
   */
  lemma UpdateThenSingle(order: seq<Version>, rows: Rows, key: string, perms: Perms, data: Fields, now: Value,
                         f: string)
    requires GoodTimeline(order) && key in rows && f != "updated_at"
    ensures
      var after := UpdatedRows(order, rows, key, perms, data, now);
      var before := Upgrade(order, rows[key]).fields;
      && !Stale(order, after[key]) && after[key].revision == rows[key].revision + 1
      && (!Writable(perms, f) || f !in data ==>
            (f in after[key].fields <==> f in before) && (f in before ==> after[key].fields[f] == before[f]))
      && (Writable(perms, f) && Readable(perms, f) && f in data ==>
            SingleOf(order, after, key, perms).Ok? && f in SingleOf(order, after, key, perms).value
            && SingleOf(order, after, key, perms).value[f] == data[f])
  {
    UpgradeSettles(order, rows[key]);
    var after := UpdatedRows(order, rows, key, perms, data, now);
    UpgradeSettles(order, after[key]);
  }

  /**
   What an update stores under the key: evolved data, in which exactly the input fields without
   an entry or with one that allows writing are replaced, and the time of the update.
   */
  lemma UpdateStores(order: seq<Version>, rows: Rows, key: string, perms: Perms, data: Fields, now: Value)
    requires key in rows
    ensures
      var after, before := UpdatedRows(order, rows, key, perms, data, now), rows[key];
      var evolved := Evolve(order, before.fields, before.stamp);
      && key in after && after == rows[key := after[key]]
      && after[key].stamp == EvolveStamp(order, before.stamp) && after[key].revision == before.revision + 1
      && "updated_at" in after[key].fields && after[key].fields["updated_at"] == now
      && forall f :: f != "updated_at" ==>
           if f in data && (f !in perms || perms[f].write)
           then f in after[key].fields && after[key].fields[f] == data[f]
           else (f in after[key].fields <==> f in evolved) && (f in evolved ==> after[key].fields[f] == evolved[f])
  {
  }

  /**
   What an insert stores: under the given key, or the generated one if that is missing, null or
   empty, exactly the input fields that may be written and the two times, without a stamp, as
   revision one.
   */
  lemma InsertStores(rows: Rows, show: Show, primaryKey: string, data: Fields, perms: Perms, generated: string,
                     now: Value, later: Value)
    ensures
      var id := InsertId(data, primaryKey, generated);
      var after := Saved(rows, show(id), InsertedRow(perms, data[primaryKey := id], now, later));
      && id == (if primaryKey !in data || data[primaryKey] in {Null, Text("")} then Text(generated)
                else data[primaryKey])
      && show(id) in after && after == rows[show(id) := after[show(id)]]
      && after[show(id)].stamp == Stamp("", Blank) && after[show(id)].revision == 1
      && StoresInserted(perms, data[primaryKey := id], now, later, after[show(id)].fields)
  {
  }

  ghost predicate StoresInserted(perms: Perms, data: Fields, now: Value, later: Value, stored: Fields) {
    && "created_at" in stored && stored["created_at"] == now
    && "updated_at" in stored && stored["updated_at"] == later
    && forall f :: f != "created_at" && f != "updated_at" ==>
         && (f in stored <==> f in data && (f !in perms || perms[f].write))
         && (f in stored ==> stored[f] == data[f])
  }

  /**
   From the stored doc-perms to the answer: a field of the evolved record is returned if and
   only if no attribute has it, or a role of the caller may read at its last attribute's level.
   */
  lemma SingleReturnsGranted(order: seq<Version>, rows: Rows, key: string, show: Show, attributes: seq<Attribute>,
                             docs: seq<Fields>, roles: seq<string>, perms: Perms, f: string)
    requires ArePermissions(show, attributes, docs, roles, perms)
    requires key in rows && f in Evolve(order, rows[key].fields, rows[key].stamp)
    ensures (forall i :: 0 <= i < |attributes| ==> attributes[i].field != f) ==>
              f in SingleOf(order, rows, key, perms).value
    ensures
      forall i :: 0 <= i < |attributes| && attributes[i].field == f && IsLastBelow(attributes, i, |attributes|) ==>
        (f in SingleOf(order, rows, key, perms).value
         <==> HasRight(show, docs, roles, attributes[i].permLevel, "read"))
  {
    forall i | 0 <= i < |attributes| && attributes[i].field == f && IsLastBelow(attributes, i, |attributes|)
      ensures f in SingleOf(order, rows, key, perms).value
              <==> HasRight(show, docs, roles, attributes[i].permLevel, "read")
    {
      FieldRights(show, attributes, docs, roles, perms, i);
    }
  }

  /** And an update takes over an input field if and only if a role may write at that level. */
  lemma UpdateTakesGranted(order: seq<Version>, rows: Rows, key: string, show: Show, attributes: seq<Attribute>,
                           docs: seq<Fields>, roles: seq<string>, perms: Perms, data: Fields, now: Value, f: string,
                           i: nat)
    requires ArePermissions(show, attributes, docs, roles, perms)
    requires key in rows && f in data && f != "updated_at"
    requires i < |attributes| && attributes[i].field == f && IsLastBelow(attributes, i, |attributes|)
    ensures
      var stored, evolved := UpdatedRows(order, rows, key, perms, data, now)[key].fields,
                             Evolve(order, rows[key].fields, rows[key].stamp);
      Holds(stored, f,
            if HasRight(show, docs, roles, attributes[i].permLevel, "write") then Some(data[f])
            else if f in evolved then Some(evolved[f]) else None)
  {
    FieldRights(show, attributes, docs, roles, perms, i);
    UpdateStores(order, rows, key, perms, data, now);
  }

  // ----- Filtering before or after evolving -----

  /** After a full scrub every filter may be pushed down. */
  lemma ScrubbedPushdown(order: seq<Version>, show: Show, filters: seq<Filter>, rows: Rows,
                         offset: Option<nat>, limit: Option<nat>)
    requires GoodTimeline(order)
    ensures
      var scrubbed := AllScrubbed(order, rows);
      ListedKeys(show, filters, scrubbed, offset, limit)
      == ListedKeys(show, filters, UpgradeAll(order, scrubbed), offset, limit)
  {
    var scrubbed := AllScrubbed(order, rows);
    SecondScrubIdle(order, rows);
    forall k | k in scrubbed ensures Missing(order, scrubbed[k].stamp) == [] {
      assert k !in StaleKeys(order, scrubbed);
    }
    FilterPushdown(order, show, filters, scrubbed, offset, limit);
  }

  /** A filter on a field that a pending rename introduces misses the record. */
  lemma PushdownMissesRenamed(show: Show, v: Value)
    ensures
      var order := [Version("v2", SECOND, [Rename("a", "b")])];
      var rows: Rows := map["k" := Row(map["a" := v], NO_STAMP, 1)];
      var filters := [Filter("b", [])];
      Matching(show, filters, rows) == {} && Matching(show, filters, UpgradeAll(order, rows)) == {"k"}
  {
    var acts := [Rename("a", "b")];
    var order := [Version("v2", SECOND, acts)];
    var row := Row(map["a" := v], NO_STAMP, 1);
    var rows: Rows := map["k" := row];
    var filters := [Filter("b", [])];
    PendingAll(order, Since(NO_STAMP));
    assert order[1..] == [] && acts[1..] == [];
    assert Flatten(order) == acts + [] == acts;
    assert ApplyAll(acts, row.fields) == Apply(acts[0], row.fields) == map["b" := v];
    assert !Passes(show, filters[0], row.fields);
    assert "k" in Matching(show, filters, UpgradeAll(order, rows));
  }

  // ----- Listing from the shared maps -----

  /** One listed record: evolved in place, then copied without unreadable fields. */
  ghost function ListedView(order: seq<Version>, perms: Perms, row: Row): Fields {
    ReadableView(perms, Evolve(order, row.fields, row.stamp))
  }

  /** So a listed record shows exactly what may be read of its evolved data. */
  lemma ListedShows(order: seq<Version>, perms: Perms, row: Row)
    ensures ShowsReadable(perms, Evolve(order, row.fields, row.stamp), ListedView(order, perms, row))
  {
  }

  /** Listing rewrites the data of the listed rows but none of their metadata. */
  ghost function EvolvedData(order: seq<Version>, rows: Rows, keys: seq<string>): Rows {
    map k | k in rows ::
      if k in keys then rows[k].(fields := Evolve(order, rows[k].fields, rows[k].stamp)) else rows[k]
  }

  /**
   A listing whose filters include the row filters of a user returns only records that the
   user's grants admit, judged by their stored data, and of those all that pass the others.
   */
  lemma ListedAreAdmitted(show: Show, filters: seq<Filter>, docs: seq<Fields>, links: seq<Link>, rows: Rows, k: string)
    requires ShowsText(show)
    ensures k in Matching(show, filters + FiltersFor(show, docs, links), rows)
            <==> k in Matching(show, filters, rows) && Admits(show, docs, links, rows[k].fields)
  {
    if k in rows {
      MatchesConcat(show, filters, FiltersFor(show, docs, links), rows[k].fields);
      FiltersAdmit(show, docs, links, rows[k].fields);
    }
  }

  lemma MatchesConcat(show: Show, a: seq<Filter>, b: seq<Filter>, rec: Fields)
    ensures Matches(show, a + b, rec) <==> Matches(show, a, rec) && Matches(show, b, rec)
  {
    if Matches(show, a + b, rec) {
      forall i | 0 <= i < |a| ensures Passes(show, a[i], rec) { assert Passes(show, (a + b)[i], rec); }
      forall i | 0 <= i < |b| ensures Passes(show, b[i], rec) { assert Passes(show, (a + b)[|a| + i], rec); }
    }
  }

  lemma WindowDistinct<T(!new)>(xs: seq<T>, offset: Option<nat>, limit: Option<nat>)
    requires Distinct(xs)
    ensures Distinct(Window(xs, offset, limit))
  {
  }

  method List(service: EntityService, dao: MemoryDao, entity: string, filters: seq<Filter>,
              offset: Option<nat>, limit: Option<nat>, perms: Perms, ghost order: seq<Version>)
    returns (results: seq<Fields>, total: nat)
    requires dao.Valid()
    requires Unambiguous(service.evolution.manifests, entity) && TimelineFor(service.evolution.manifests, entity, order)
    modifies dao.Maps()
    ensures dao.Valid()
    ensures
      var rows := old(dao.StoredRows());
      var keys := ListedKeys(dao.show, filters, rows, offset, limit);
      && dao.StoredRows() == EvolvedData(order, rows, keys)
      && total == |Matching(dao.show, filters, rows)|
      && |results| == |keys|
      && (forall i :: 0 <= i < |keys| ==> keys[i] in rows && results[i] == ListedView(order, perms, rows[keys[i]]))
      && (forall i :: 0 <= i < |keys| ==>
            ShowsReadable(perms, Evolve(order, rows[keys[i]].fields, rows[keys[i]].stamp), results[i]))
  {
    ghost var rows := dao.StoredRows();
    var keys, recs, count := dao.List(filters, offset, limit);
    total := count;
    SortedDistinct(Matching(dao.show, filters, rows));
    WindowDistinct(SortKeys(Matching(dao.show, filters, rows)), offset, limit);
    assert dao.StoredRows() == rows;
    results := ListAll(service, dao, entity, keys, recs, perms, order);
    forall i | 0 <= i < |keys|
      ensures ShowsReadable(perms, Evolve(order, rows[keys[i]].fields, rows[keys[i]].stamp), results[i])
    {
      ListedShows(order, perms, rows[keys[i]]);
    }
  }

  /** Listing one record: its stored data is evolved, and the readable part returned. */
  ghost predicate ListsOne(order: seq<Version>, perms: Perms, before: Rows, key: string, after: Rows, view: Fields) {
    && key in before
    && after == before[key := before[key].(fields := Evolve(order, before[key].fields, before[key].stamp))]
    && view == ListedView(order, perms, before[key])
  }

  /** The stored rows after each record of a listing, and the views returned. */
  lemma ListPlan(order: seq<Version>, perms: Perms, rows: Rows, keys: seq<string>)
    returns (plan: seq<Rows>, views: seq<Fields>)
    requires Distinct(keys) && forall i :: 0 <= i < |keys| ==> keys[i] in rows
    ensures |views| == |keys| && |plan| == |keys| + 1
    ensures plan[0] == rows && plan[|keys|] == EvolvedData(order, rows, keys)
    ensures forall i :: 0 <= i < |keys| ==> ListsOne(order, perms, plan[i], keys[i], plan[i + 1], views[i])
    ensures forall i :: 0 <= i < |keys| ==> views[i] == ListedView(order, perms, rows[keys[i]])
  {
    plan := seq(|keys| + 1, i requires 0 <= i <= |keys| => EvolvedData(order, rows, keys[..i]));
    views := seq(|keys|, i requires 0 <= i < |keys| && keys[i] in rows => ListedView(order, perms, rows[keys[i]]));
    forall i | 0 <= i < |keys| ensures ListsOne(order, perms, plan[i], keys[i], plan[i + 1], views[i]) {
      EvolveOneMore(order, rows, keys, i);
    }
    assert EvolvedData(order, rows, keys[..0]) == rows;
    assert keys[..|keys|] == keys;
  }

  /** The loop over the listed records. */
  method ListAll(service: EntityService, dao: MemoryDao, entity: string, keys: seq<string>, recs: seq<RecJson>,
                 perms: Perms, ghost order: seq<Version>)
    returns (results: seq<Fields>)
    requires dao.Valid()
    requires |recs| == |keys| && forall i :: 0 <= i < |keys| ==> keys[i] in dao.data && recs[i] == dao.data[keys[i]]
    requires Distinct(keys)
    requires Unambiguous(service.evolution.manifests, entity) && TimelineFor(service.evolution.manifests, entity, order)
    modifies dao.Maps()
    ensures dao.Valid() && dao.StoredRows() == EvolvedData(order, old(dao.StoredRows()), keys)
    ensures |results| == |keys|
    ensures forall i :: 0 <= i < |keys| ==> results[i] == ListedView(order, perms, old(dao.StoredRows())[keys[i]])
  {
    ghost var plan, views := ListPlan(order, perms, dao.StoredRows(), keys);
    results := [];
    var i := 0;
    while i < |recs|
      invariant i <= |recs| && results == views[..i]
      invariant dao.Valid() && dao.StoredRows() == plan[i]
    {
      assert ListsOne(order, perms, plan[i], keys[i], plan[i + 1], views[i]);
      var view := ListOne(service, dao, entity, keys[i], recs[i], perms, order);
      OneMore(views, i);
      results := results + [view];
      i := i + 1;
    }
  }

  lemma OneMore<T>(xs: seq<T>, i: nat)
    requires i < |xs|
    ensures xs[..i] + [xs[i]] == xs[..i + 1]
  {
  }

  lemma EvolveOneMore(order: seq<Version>, rows: Rows, keys: seq<string>, i: nat)
    requires i < |keys| && keys[i] in rows && Distinct(keys)
    ensures
      var k := keys[i];
      var before := EvolvedData(order, rows, keys[..i]);
      && before[k] == rows[k]
      && EvolvedData(order, rows, keys[..i + 1])
         == before[k := rows[k].(fields := Evolve(order, rows[k].fields, rows[k].stamp))]
  {
    assert keys[..i + 1] == keys[..i] + [keys[i]];
  }

  method ListOne(service: EntityService, dao: MemoryDao, entity: string, key: string, r: RecJson, perms: Perms,
                 ghost order: seq<Version>)
    returns (view: Fields)
    requires dao.Valid() && key in dao.data && r == dao.data[key]
    requires Unambiguous(service.evolution.manifests, entity) && TimelineFor(service.evolution.manifests, entity, order)
    modifies r.rec
    ensures dao.Valid()
    ensures ListsOne(order, perms, old(dao.StoredRows()), key, dao.StoredRows(), view)
  {
    var meta := new MetaData(r.stamp, r.revision);
    var modified, used := service.evolution.EvolveRecord(entity, r.rec, meta);
    TimelineForUnique(service.evolution.manifests, entity, order, used);
    view := service.CopyReadable(perms, r.rec.fields);
    dao.RewrittenAt(key);
  }
}
