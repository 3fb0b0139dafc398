/**
 Keeping the two user stores in step: entity records of "User", keyed by id, and core
 users, keyed by email.
 */
module UserSync {
  import opened Wrappers
  import opened Ordering
  import opened Evolution
  import opened FieldHistory
  import opened RowStore
  import opened ChunkNames

  /** `roles` is `NoRoles` for a nil list, which is not the same as an empty one. */
  datatype Roles = NoRoles | Listed(names: seq<string>)

  datatype CoreUser = CoreUser(
    id: int, email: string, phone: string, avatar: string, passwordHash: string, roles: Roles)

  datatype Stores = Stores(entities: Rows, cores: map<string, CoreUser>)

  /** The text of a value under `%v`, and the number that stands for a non-numeric id. */
  datatype Codec = Codec(show: Show, idOf: string -> int)

  function TextOf(v: Value): string {
    if v.Text? then v.s else ""
  }

  function NonEmptyTexts(items: seq<Value>): (names: seq<string>)
    ensures forall i :: 0 <= i < |names| ==> names[i] != ""
  {
    if items == [] then []
    else
      (if items[0].Text? && items[0].s != "" then [items[0].s] else []) + NonEmptyTexts(items[1..])
  }

  /** The role list that a single role stands for. */
  function RolesFor(role: string): (names: seq<string>)
    ensures names != [] && names[0] != ""
  {
    if role == "sa" || role == "superadmin" then ["sa", "admin", "user"]
    else if role == "admin" then ["admin", "user"]
    else if role == "user" then ["user"]
    else if role == "guest" then ["guest"]
    else if role == "" then ["admin", "user"]
    else [role, "user"]
  }

  function RolesOf(rec: Fields): (names: seq<string>)
    ensures names != [] && names[0] != ""
  {
    var listed := if Lookup(rec, "roles").List? then NonEmptyTexts(Lookup(rec, "roles").items) else [];
    if listed == [] then RolesFor(TextOf(Lookup(rec, "role"))) else listed
  }

  /** `convertEntityMapToUser`: the id falls back to the record key. */
  function ToUser(c: Codec, rec: Fields, key: string): CoreUser {
    var rawId := if Lookup(rec, "id") == Null || Lookup(rec, "id") == Text("") then Text(key) else Lookup(rec, "id");
    CoreUser(
      if rawId.Num? then rawId.n else c.idOf(c.show(rawId)),
      TextOf(Lookup(rec, "email")), TextOf(Lookup(rec, "phone")), TextOf(Lookup(rec, "avatar_path")),
      TextOf(Lookup(rec, "password_hash")), Listed(RolesOf(rec)))
  }

  function EmailOf(rec: Fields): string {
    TextOf(Lookup(rec, "email"))
  }

  predicate LacksRole(c: Codec, rec: Fields) {
    Lookup(rec, "role") == Null || c.show(Lookup(rec, "role")) == ""
  }

  predicate LacksRoles(rec: Fields) {
    Lookup(rec, "roles") == Null
  }

  function TextList(names: seq<string>): Value {
    List(seq(|names|, i requires 0 <= i < |names| => Text(names[i])))
  }

  /** The record with its role and role list filled in where they are missing. */
  function Repaired(c: Codec, rec: Fields): Fields {
    var withRole := if LacksRole(c, rec) then rec["role" := Text("admin")] else rec;
    if LacksRoles(rec) then withRole["roles" := TextList(RolesOf(rec))] else withRole
  }

  /** Every save of a sync passes no metadata: the stamp is blank and the revision starts again. */
  function Unstamped(rec: Fields): Row {
    Row(rec, NO_STAMP, 0)
  }

  predicate NeedsRepair(c: Codec, rec: Fields) {
    EmailOf(rec) != "" && (LacksRole(c, rec) || LacksRoles(rec))
  }

  /** One entity record: repair it, and create its core user if there is none. */
  function ForwardStep(c: Codec, st: Stores, key: string): Stores {
    if key !in st.entities || EmailOf(st.entities[key].fields) == "" then st
    else
      var rec := st.entities[key].fields;
      var user := ToUser(c, rec, key);
      Stores(if NeedsRepair(c, rec) then Saved(st.entities, key, Unstamped(Repaired(c, rec))) else st.entities,
             if user.email in st.cores then st.cores else st.cores[user.email := user])
  }

  function RecordOf(user: CoreUser): Fields {
    map["id" := Text(Itoa(user.id)), "email" := Text(user.email), "phone" := Text(user.phone),
        "avatar_path" := Text(user.avatar), "password_hash" := Text(user.passwordHash),
        "role" := Text(if user.roles.Listed? && user.roles.names != [] then user.roles.names[0] else "user"),
        "roles" := if user.roles.Listed? then TextList(user.roles.names) else Null]
  }

  /** Some entity record passes the filter "email equals". */
  predicate HasEmail(c: Codec, entities: Rows, email: string) {
    exists k :: k in entities && EmailIs(c, entities[k].fields, email)
  }

  predicate EmailIs(c: Codec, rec: Fields, email: string) {
    "email" in rec && c.show(rec["email"]) == email
  }

  predicate HasEntity(c: Codec, entities: Rows, user: CoreUser) {
    Itoa(user.id) in entities || HasEmail(c, entities, user.email)
  }

  /** A core user for whom an entity record has to be created. */
  predicate Unlinked(c: Codec, st: Stores, key: string) {
    key in st.cores && st.cores[key].email != "" && !HasEntity(c, st.entities, st.cores[key])
  }

  /** One core user: create its entity record if it has none under its id or email. */
  function BackwardStep(c: Codec, st: Stores, key: string): Stores {
    if Unlinked(c, st, key) then
      st.(entities := Saved(st.entities, Itoa(st.cores[key].id), Unstamped(RecordOf(st.cores[key]))))
    else st
  }

  function Forward(c: Codec, st: Stores, keys: seq<string>): Stores
    decreases |keys|
  {
    if keys == [] then st else Forward(c, ForwardStep(c, st, keys[0]), keys[1..])
  }

  function Backward(c: Codec, st: Stores, keys: seq<string>): Stores
    decreases |keys|
  {
    if keys == [] then st else Backward(c, BackwardStep(c, st, keys[0]), keys[1..])
  }

  /** Both passes, each over the records listed when it starts. */
  ghost function Sync(c: Codec, st: Stores): Stores {
    var mid := Forward(c, st, SortKeys(st.entities.Keys));
    Backward(c, mid, SortKeys(mid.cores.Keys))
  }

  class AuthService {
    const codec: Codec
    var entities: Rows
    var cores: map<string, CoreUser>

    constructor (codec: Codec, entities: Rows, cores: map<string, CoreUser>)
      ensures this.codec == codec && Contents() == Stores(entities, cores)
    {
      this.codec := codec;
      this.entities := entities;
      this.cores := cores;
    }

    ghost function Contents(): Stores
      reads this
    {
      Stores(entities, cores)
    }

    method SyncUserStores()
      modifies this
      ensures Contents() == Sync(codec, old(Contents()))
    {
      var entityKeys := SortedKeys(entities.Keys);
      SyncForward(entityKeys);
      var coreKeys := SortedKeys(cores.Keys);
      SyncBackward(coreKeys);
    }

    method SyncForward(keys: seq<string>)
      modifies this
      ensures Contents() == Forward(codec, old(Contents()), keys)
    {
      var i := 0;
      while i < |keys|
        invariant i <= |keys| && Forward(codec, Contents(), keys[i..]) == Forward(codec, old(Contents()), keys)
      {
        assert keys[i..][1..] == keys[i + 1..];
        ghost var before := Contents();
        if keys[i] in entities {
          var entityMap := entities[keys[i]].fields;
          var user := ToUser(codec, entityMap, keys[i]);
          if user.email != "" {
            var updatedEntity := false;
            if LacksRole(codec, entityMap) {
              entityMap := entityMap["role" := Text("admin")];
              updatedEntity := true;
            }
            if LacksRoles(entityMap) {
              entityMap := entityMap["roles" := TextList(user.roles.names)];
              updatedEntity := true;
            }
            if updatedEntity {
              entities := Saved(entities, keys[i], Unstamped(entityMap));
            }
            if user.email !in cores {
              cores := cores[user.email := user];
            }
          }
        }
        assert Contents() == ForwardStep(codec, before, keys[i]);
        i := i + 1;
      }
    }

    method SyncBackward(keys: seq<string>)
      modifies this`entities
      ensures Contents() == Backward(codec, old(Contents()), keys)
    {
      var i := 0;
      while i < |keys|
        invariant i <= |keys| && Backward(codec, Contents(), keys[i..]) == Backward(codec, old(Contents()), keys)
      {
        assert keys[i..][1..] == keys[i + 1..];
        if keys[i] in cores && cores[keys[i]].email != "" {
          var u := cores[keys[i]];
          if Itoa(u.id) !in entities && !HasEmail(codec, entities, u.email) {
            entities := Saved(entities, Itoa(u.id), Unstamped(RecordOf(u)));
          }
        }
        i := i + 1;
      }
    }
  }

  // ----- What a sync keeps -----

  /** Core users are stored under their email. */
  ghost predicate KeyedByEmail(st: Stores) {
    forall k :: k in st.cores ==> st.cores[k].email == k
  }

  function RepairedRow(c: Codec, row: Row): Row {
    Row(Repaired(c, row.fields), NO_STAMP, 1)
  }

  /** Nothing is deleted, no core user is overwritten, and only records in need of it are repaired. */
  ghost predicate Preserves(c: Codec, st: Stores, t: Stores) {
    && (forall k :: k in st.cores ==> k in t.cores && t.cores[k] == st.cores[k])
    && (forall k {:trigger k in st.entities} ::
          k in st.entities ==> k in t.entities && RowKept(c, st.entities[k], t.entities[k]))
  }

  ghost predicate RowKept(c: Codec, row: Row, after: Row) {
    after == row || (NeedsRepair(c, row.fields) && after == RepairedRow(c, row))
  }

  lemma RepairWorks(c: Codec, rec: Fields)
    requires ShowsText(c.show)
    ensures !LacksRole(c, Repaired(c, rec)) && !LacksRoles(Repaired(c, rec))
    ensures EmailOf(Repaired(c, rec)) == EmailOf(rec)
    ensures forall email :: EmailIs(c, Repaired(c, rec), email) <==> EmailIs(c, rec, email)
  {
    assert c.show(Text("admin")) == "admin";
  }

  lemma PreservesTransitive(c: Codec, s: Stores, t: Stores, u: Stores)
    requires ShowsText(c.show) && Preserves(c, s, t) && Preserves(c, t, u)
    ensures Preserves(c, s, u)
  {
    forall k | k in s.entities ensures k in u.entities && RowKept(c, s.entities[k], u.entities[k]) {
      assert k in t.entities;
      RepairWorks(c, s.entities[k].fields);
    }
  }

  lemma {:induction false} ForwardPreserves(c: Codec, st: Stores, keys: seq<string>)
    requires ShowsText(c.show)
    ensures Preserves(c, st, Forward(c, st, keys)) && Forward(c, st, keys).entities.Keys == st.entities.Keys
    decreases |keys|
  {
    if keys != [] {
      var mid := ForwardStep(c, st, keys[0]);
      assert Preserves(c, st, mid);
      ForwardPreserves(c, mid, keys[1..]);
      PreservesTransitive(c, st, mid, Forward(c, st, keys));
    }
  }

  /** The second pass leaves all core users and all records it finds as they are. */
  lemma {:induction false} BackwardKeeps(c: Codec, st: Stores, keys: seq<string>)
    ensures
      var t := Backward(c, st, keys);
      t.cores == st.cores && forall k :: k in st.entities ==> k in t.entities && t.entities[k] == st.entities[k]
    decreases |keys|
  {
    if keys != [] { BackwardKeeps(c, BackwardStep(c, st, keys[0]), keys[1..]); }
  }

  /** Every listed record is repaired by the first pass. */
  lemma {:induction false} ForwardRepairs(c: Codec, st: Stores, keys: seq<string>, k: string)
    requires ShowsText(c.show) && k in st.entities && (k in keys || !NeedsRepair(c, st.entities[k].fields))
    ensures k in Forward(c, st, keys).entities && !NeedsRepair(c, Forward(c, st, keys).entities[k].fields)
    decreases |keys|
  {
    if keys != [] {
      var mid := ForwardStep(c, st, keys[0]);
      RepairWorks(c, st.entities[k].fields);
      if keys[0] in st.entities { RepairWorks(c, st.entities[keys[0]].fields); }
      ForwardRepairs(c, mid, keys[1..], k);
    }
  }

  /**
   A sync deletes nothing, overwrites no core user, and rewrites exactly the records in need
   of repair: their role fields are filled in, and their metadata is reset.
   */
  lemma SyncPreserves(c: Codec, st: Stores)
    requires ShowsText(c.show)
    ensures
      var t := Sync(c, st);
      && (forall k :: k in st.cores ==> k in t.cores && t.cores[k] == st.cores[k])
      && (forall k :: k in st.entities ==>
            k in t.entities
            && t.entities[k]
               == if NeedsRepair(c, st.entities[k].fields) then RepairedRow(c, st.entities[k]) else st.entities[k])
  {
    var ks := SortKeys(st.entities.Keys);
    var mid := Forward(c, st, ks);
    ForwardPreserves(c, st, ks);
    BackwardKeeps(c, mid, SortKeys(mid.cores.Keys));
    forall k | k in st.entities
      ensures mid.entities[k]
              == if NeedsRepair(c, st.entities[k].fields) then RepairedRow(c, st.entities[k]) else st.entities[k]
    {
      assert k in ks && RowKept(c, st.entities[k], mid.entities[k]);
      ForwardRepairs(c, st, ks, k);
    }
  }

  /** A repair keeps all fields but the two for roles, and forgets how far the record had evolved. */
  lemma RepairResets(c: Codec, row: Row, order: seq<Version>)
    requires Sorted(order)
    ensures RepairedRow(c, row).fields - {"role", "roles"} == row.fields - {"role", "roles"}
    ensures Stale(order, RepairedRow(c, row)) <==> order != [] && order[|order| - 1].date > ZERO_TIME
  {
    CurrentIff(order, Since(NO_STAMP));
  }

  // ----- What a sync establishes -----

  ghost predicate EntityLinked(st: Stores, k: string) {
    k in st.entities && EmailOf(st.entities[k].fields) != "" ==> EmailOf(st.entities[k].fields) in st.cores
  }

  /** Existing links survive anything that preserves the stores. */
  lemma LinksSurvive(c: Codec, s: Stores, t: Stores, k: string)
    requires ShowsText(c.show) && Preserves(c, s, t)
    ensures k in s.entities && EntityLinked(s, k) ==> EntityLinked(t, k)
    ensures HasEmail(c, s.entities, k) ==> HasEmail(c, t.entities, k)
  {
    if k in s.entities { RepairWorks(c, s.entities[k].fields); }
    if e :| e in s.entities && EmailIs(c, s.entities[e].fields, k) {
      RepairWorks(c, s.entities[e].fields);
      assert RowKept(c, s.entities[e], t.entities[e]);
      assert e in t.entities && EmailIs(c, t.entities[e].fields, k);
    }
  }

  /** The first pass neither creates nor breaks a link from a core user. */
  lemma ForwardKeepsUnlinked(c: Codec, st: Stores, keys: seq<string>, k: string)
    requires ShowsText(c.show) && k in st.cores
    ensures Unlinked(c, Forward(c, st, keys), k) <==> Unlinked(c, st, k)
  {
    var t := Forward(c, st, keys);
    ForwardPreserves(c, st, keys);
    LinksSurvive(c, st, t, st.cores[k].email);
    if e :| e in t.entities && EmailIs(c, t.entities[e].fields, st.cores[k].email) {
      RepairWorks(c, st.entities[e].fields);
      assert RowKept(c, st.entities[e], t.entities[e]);
      assert e in st.entities && EmailIs(c, st.entities[e].fields, st.cores[k].email);
    }
  }

  lemma ForwardStepLinks(c: Codec, st: Stores, key: string)
    requires ShowsText(c.show) && KeyedByEmail(st)
    ensures
      var t := ForwardStep(c, st, key);
      && Preserves(c, st, t) && KeyedByEmail(t) && EntityLinked(t, key)
      && forall k :: k in t.cores && k !in st.cores ==> HasEmail(c, t.entities, k)
  {
    var t := ForwardStep(c, st, key);
    if key in st.entities {
      var rec := st.entities[key].fields;
      RepairWorks(c, rec);
      assert ToUser(c, rec, key).email == EmailOf(rec);
      if EmailOf(rec) != "" {
        assert EmailIs(c, rec, EmailOf(rec));
        assert key in t.entities && EmailIs(c, t.entities[key].fields, EmailOf(rec));
      }
    }
  }

  /** The first pass: every listed record is linked, and every new core user has a record. */
  lemma {:induction false} ForwardLinks(c: Codec, st: Stores, keys: seq<string>, k: string)
    requires ShowsText(c.show) && KeyedByEmail(st)
    ensures
      var t := Forward(c, st, keys);
      && KeyedByEmail(t)
      && (k in st.entities && (k in keys || EntityLinked(st, k)) ==> EntityLinked(t, k))
      && (k in t.cores && k !in st.cores ==> HasEmail(c, t.entities, k))
    decreases |keys|
  {
    if keys != [] {
      var mid, t := ForwardStep(c, st, keys[0]), Forward(c, st, keys);
      ForwardStepLinks(c, st, keys[0]);
      LinksSurvive(c, st, mid, k);
      ForwardLinks(c, mid, keys[1..], k);
      ForwardPreserves(c, mid, keys[1..]);
      LinksSurvive(c, mid, t, k);
    }
  }

  // ----- Which records the second pass creates -----

  /** A record made from a core user has that user's email, and no other. */
  lemma RecordLinks(c: Codec, u: CoreUser)
    requires ShowsText(c.show)
    ensures EmailOf(RecordOf(u)) == u.email && forall email :: EmailIs(c, RecordOf(u), email) <==> email == u.email
  {
    assert c.show(Text(u.email)) == u.email;
  }

  /** Creating a record links, besides its own user, exactly the users with the same id. */
  lemma BackwardStepLinks(c: Codec, st: Stores, key: string, k: string)
    requires ShowsText(c.show) && KeyedByEmail(st) && k in st.cores
    ensures
      var t := BackwardStep(c, st, key);
      Unlinked(c, t, k)
      <==> Unlinked(c, st, k) && !(Unlinked(c, st, key) && (k == key || st.cores[k].id == st.cores[key].id))
  {
    var t := BackwardStep(c, st, key);
    if Unlinked(c, st, key) {
      var u := st.cores[key];
      RecordLinks(c, u);
      ItoaInjective(u.id, st.cores[k].id);
      if e :| e in st.entities && EmailIs(c, st.entities[e].fields, st.cores[k].email) {
        assert e in t.entities && t.entities[e] == st.entities[e];
      }
      if e :| e in t.entities && EmailIs(c, t.entities[e].fields, st.cores[k].email) {
        assert e == Itoa(u.id) || (e in st.entities && t.entities[e] == st.entities[e]);
      }
    }
  }

  /** The `i`-th listed core user is unlinked, and no earlier one with the same id is. */
  ghost predicate CreatedAt(c: Codec, st: Stores, keys: seq<string>, i: nat) {
    && i < |keys| && Unlinked(c, st, keys[i])
    && forall j :: 0 <= j < i && Unlinked(c, st, keys[j]) ==> st.cores[keys[j]].id != st.cores[keys[i]].id
  }

  lemma CreatedLater(c: Codec, st: Stores, keys: seq<string>, i: nat)
    requires ShowsText(c.show) && KeyedByEmail(st) && Distinct(keys) && 0 < i < |keys|
    requires forall k :: k in keys ==> k in st.cores
    ensures CreatedAt(c, st, keys, i) <==> CreatedAt(c, BackwardStep(c, st, keys[0]), keys[1..], i - 1)
  {
    var mid, rest := BackwardStep(c, st, keys[0]), keys[1..];
    forall j | 0 < j <= i
      ensures rest[j - 1] == keys[j] && keys[j] in st.cores
      ensures Unlinked(c, mid, keys[j])
              <==> Unlinked(c, st, keys[j])
                   && !(Unlinked(c, st, keys[0]) && st.cores[keys[j]].id == st.cores[keys[0]].id)
    {
      assert keys[j] in keys && keys[0] != keys[j];
      BackwardStepLinks(c, st, keys[0], keys[j]);
    }
    assert rest[i - 1] == keys[i];
    if CreatedAt(c, st, keys, i) {
      forall j | 0 <= j < i - 1 && Unlinked(c, mid, rest[j])
        ensures mid.cores[rest[j]].id != mid.cores[rest[i - 1]].id
      {
        assert rest[j] == keys[j + 1];
      }
    }
    if CreatedAt(c, mid, rest, i - 1) {
      forall j | 0 <= j < i && Unlinked(c, st, keys[j]) ensures st.cores[keys[j]].id != st.cores[keys[i]].id {
        if j > 0 { assert rest[j - 1] == keys[j]; }
      }
    }
  }

  /** The second pass creates a record for each of these users. */
  lemma {:induction false} BackwardCreates(c: Codec, st: Stores, keys: seq<string>, i: nat)
    requires ShowsText(c.show) && KeyedByEmail(st) && Distinct(keys) && CreatedAt(c, st, keys, i)
    requires forall key :: key in keys ==> key in st.cores
    ensures
      var t, u := Backward(c, st, keys), st.cores[keys[i]];
      && Itoa(u.id) !in st.entities && Itoa(u.id) in t.entities
      && t.entities[Itoa(u.id)] == Row(RecordOf(u), NO_STAMP, 1)
    decreases |keys|
  {
    var mid, rest := BackwardStep(c, st, keys[0]), keys[1..];
    if i == 0 {
      BackwardKeeps(c, mid, rest);
      assert Itoa(st.cores[keys[0]].id) in mid.entities;
    } else {
      CreatedLater(c, st, keys, i);
      BackwardCreates(c, mid, rest, i - 1);
    }
  }

  /** It creates no other record. */
  lemma {:induction false} BackwardCreatesOnly(c: Codec, st: Stores, keys: seq<string>, k: string) returns (i: nat)
    requires ShowsText(c.show) && KeyedByEmail(st) && Distinct(keys)
    requires forall key :: key in keys ==> key in st.cores
    requires k in Backward(c, st, keys).entities && k !in st.entities
    ensures CreatedAt(c, st, keys, i) && Itoa(st.cores[keys[i]].id) == k
    decreases |keys|
  {
    var mid, rest := BackwardStep(c, st, keys[0]), keys[1..];
    if k in mid.entities {
      i := 0;
    } else {
      var j := BackwardCreatesOnly(c, mid, rest, k);
      i := j + 1;
      CreatedLater(c, st, keys, i);
    }
  }

  lemma {:induction false} BackwardLinks(c: Codec, st: Stores, keys: seq<string>, k: string)
    requires ShowsText(c.show) && KeyedByEmail(st) && k in st.cores && (k in keys || !Unlinked(c, st, k))
    ensures !Unlinked(c, Backward(c, st, keys), k)
    decreases |keys|
  {
    if keys != [] {
      BackwardStepLinks(c, st, keys[0], k);
      BackwardLinks(c, BackwardStep(c, st, keys[0]), keys[1..], k);
    }
  }

  /**
   After a sync every entity user with an email has a core user under that email, and
   every core user with an email has an entity record under its id or email.
   */
  lemma SyncLinks(c: Codec, st: Stores)
    requires ShowsText(c.show) && KeyedByEmail(st)
    ensures
      var t := Sync(c, st);
      KeyedByEmail(t) && (forall k :: k in t.entities ==> EntityLinked(t, k)) && (forall k :: !Unlinked(c, t, k))
    ensures
      var t := Sync(c, st);
      && (forall k :: k in t.entities && TextIn(t.entities[k].fields, "email") != "" ==>
            TextIn(t.entities[k].fields, "email") in t.cores)
      && (forall k :: k in t.cores && t.cores[k].email != "" ==>
            || Itoa(t.cores[k].id) in t.entities
            || exists e :: e in t.entities && "email" in t.entities[e].fields
                           && c.show(t.entities[e].fields["email"]) == t.cores[k].email)
  {
    var ks := SortKeys(st.entities.Keys);
    var mid, t := Forward(c, st, ks), Sync(c, st);
    var cs := SortKeys(mid.cores.Keys);
    ForwardPreserves(c, st, ks);
    ForwardLinks(c, st, ks, "");
    SortedDistinct(mid.cores.Keys);
    BackwardKeeps(c, mid, cs);
    forall k | k in t.entities ensures EntityLinked(t, k) {
      if k in st.entities {
        assert k in ks;
        ForwardLinks(c, st, ks, k);
      } else {
        var i := BackwardCreatesOnly(c, mid, cs, k);
        BackwardCreates(c, mid, cs, i);
        RecordLinks(c, mid.cores[cs[i]]);
      }
    }
    forall k ensures !Unlinked(c, t, k) {
      if k in mid.cores { BackwardLinks(c, mid, cs, k); }
    }
    LinksInTexts(c, t);
  }

  lemma LinksInTexts(c: Codec, t: Stores)
    requires (forall k :: k in t.entities ==> EntityLinked(t, k)) && (forall k :: !Unlinked(c, t, k))
    ensures forall k :: k in t.entities && TextIn(t.entities[k].fields, "email") != "" ==>
              TextIn(t.entities[k].fields, "email") in t.cores
    ensures forall k :: k in t.cores && t.cores[k].email != "" ==>
              || Itoa(t.cores[k].id) in t.entities
              || exists e :: e in t.entities && "email" in t.entities[e].fields
                             && c.show(t.entities[e].fields["email"]) == t.cores[k].email
  {
    forall k | k in t.cores && t.cores[k].email != "" && Itoa(t.cores[k].id) !in t.entities
      ensures exists e :: e in t.entities && "email" in t.entities[e].fields
                          && c.show(t.entities[e].fields["email"]) == t.cores[k].email
    {
      assert !Unlinked(c, t, k);
      var e :| e in t.entities && EmailIs(c, t.entities[e].fields, t.cores[k].email);
      assert "email" in t.entities[e].fields;
    }
  }

  // ----- When a sync has nothing to do -----

  lemma {:induction false} ForwardIdle(c: Codec, st: Stores, keys: seq<string>)
    requires forall k :: k in st.entities ==> EntityLinked(st, k) && !NeedsRepair(c, st.entities[k].fields)
    ensures Forward(c, st, keys) == st
    decreases |keys|
  {
    if keys != [] {
      if keys[0] in st.entities { assert EntityLinked(st, keys[0]); }
      assert ForwardStep(c, st, keys[0]) == st;
      ForwardIdle(c, st, keys[1..]);
    }
  }

  lemma {:induction false} BackwardIdle(c: Codec, st: Stores, keys: seq<string>)
    requires forall k :: !Unlinked(c, st, k)
    ensures Backward(c, st, keys) == st
    decreases |keys|
  {
    if keys != [] { BackwardIdle(c, st, keys[1..]); }
  }

  /** A role list from which a record in no need of repair can be made. */
  predicate GoodRoles(roles: Roles) {
    roles.Listed? && (roles.names == [] || roles.names[0] != "")
  }

  lemma RecordNeedsRepair(c: Codec, u: CoreUser)
    requires ShowsText(c.show)
    ensures NeedsRepair(c, RecordOf(u)) <==> u.email != "" && !GoodRoles(u.roles)
  {
    var role := if u.roles.Listed? && u.roles.names != [] then u.roles.names[0] else "user";
    assert RecordOf(u)["role"] == Text(role) && c.show(Text(role)) == role;
  }

  /**
   The core users from which a sync makes records: those with an email but no entity under
   their id or email, and of several such users with one id the first in key order.
   */
  ghost predicate Creates(c: Codec, st: Stores, key: string) {
    && Unlinked(c, st, key)
    && forall other :: Unlinked(c, st, other) && Less(other, key) ==> st.cores[other].id != st.cores[key].id
  }

  lemma MidUnlinked(c: Codec, st: Stores, key: string)
    requires ShowsText(c.show) && KeyedByEmail(st)
    ensures
      var mid := Forward(c, st, SortKeys(st.entities.Keys));
      && KeyedByEmail(mid) && (Unlinked(c, mid, key) <==> Unlinked(c, st, key))
      && (key in st.cores ==> key in mid.cores && mid.cores[key] == st.cores[key])
  {
    var ks := SortKeys(st.entities.Keys);
    ForwardPreserves(c, st, ks);
    ForwardLinks(c, st, ks, key);
    if key in st.cores { ForwardKeepsUnlinked(c, st, ks, key); }
  }

  lemma CreatesAt(c: Codec, st: Stores, i: nat)
    requires ShowsText(c.show) && KeyedByEmail(st)
    requires i < |SortKeys(Forward(c, st, SortKeys(st.entities.Keys)).cores.Keys)|
    ensures
      var mid := Forward(c, st, SortKeys(st.entities.Keys));
      var cs := SortKeys(mid.cores.Keys);
      CreatedAt(c, mid, cs, i) <==> Creates(c, st, cs[i])
  {
    var mid := Forward(c, st, SortKeys(st.entities.Keys));
    var cs := SortKeys(mid.cores.Keys);
    forall key ensures Unlinked(c, mid, key) <==> Unlinked(c, st, key)
               ensures key in st.cores ==> key in mid.cores && mid.cores[key] == st.cores[key]
    {
      MidUnlinked(c, st, key);
    }
    SortKeysIncreasing(mid.cores.Keys);
    if CreatedAt(c, mid, cs, i) {
      forall other | Unlinked(c, st, other) && Less(other, cs[i]) ensures st.cores[other].id != st.cores[cs[i]].id {
        assert other in cs;
        var j :| 0 <= j < |cs| && cs[j] == other;
        if j == i { LessIrreflexive(other); }
        if i < j { LessAsymmetric(cs[i], cs[j]); }
        assert Unlinked(c, mid, cs[j]);
      }
    }
    if Creates(c, st, cs[i]) {
      forall j | 0 <= j < i && Unlinked(c, mid, cs[j]) ensures mid.cores[cs[j]].id != mid.cores[cs[i]].id {
        assert Less(cs[j], cs[i]) && Unlinked(c, st, cs[j]);
      }
    }
  }

  /** A record in need of repair is written by the next sync. */
  lemma SyncRepairs(c: Codec, st: Stores, k: string)
    requires ShowsText(c.show) && k in st.entities && NeedsRepair(c, st.entities[k].fields)
    ensures Sync(c, st) != st
  {
    SyncPreserves(c, st);
    RepairWorks(c, st.entities[k].fields);
  }

  /** What a record was created from, if the sync created it. */
  lemma CreatedFrom(c: Codec, st: Stores, k: string) returns (key: string)
    requires ShowsText(c.show) && KeyedByEmail(st) && k in Sync(c, st).entities && k !in st.entities
    ensures Creates(c, st, key) && k == Itoa(st.cores[key].id)
    ensures Sync(c, st).entities[k] == Row(RecordOf(st.cores[key]), NO_STAMP, 1)
  {
    var mid := Forward(c, st, SortKeys(st.entities.Keys));
    var cs := SortKeys(mid.cores.Keys);
    ForwardPreserves(c, st, SortKeys(st.entities.Keys));
    MidUnlinked(c, st, "");
    SortedDistinct(mid.cores.Keys);
    var i := BackwardCreatesOnly(c, mid, cs, k);
    BackwardCreates(c, mid, cs, i);
    CreatesAt(c, st, i);
    key := cs[i];
    MidUnlinked(c, st, key);
  }

  lemma CreatedFor(c: Codec, st: Stores, key: string) returns (k: string)
    requires ShowsText(c.show) && KeyedByEmail(st) && Creates(c, st, key)
    ensures k in Sync(c, st).entities && k !in st.entities && k == Itoa(st.cores[key].id)
    ensures Sync(c, st).entities[k] == Row(RecordOf(st.cores[key]), NO_STAMP, 1)
  {
    var mid := Forward(c, st, SortKeys(st.entities.Keys));
    var cs := SortKeys(mid.cores.Keys);
    ForwardPreserves(c, st, SortKeys(st.entities.Keys));
    MidUnlinked(c, st, key);
    SortedDistinct(mid.cores.Keys);
    assert key in cs;
    var i :| 0 <= i < |cs| && cs[i] == key;
    CreatesAt(c, st, i);
    BackwardCreates(c, mid, cs, i);
    k := Itoa(st.cores[key].id);
  }

  lemma IdleIfGood(c: Codec, st: Stores)
    requires ShowsText(c.show) && KeyedByEmail(st)
    requires forall key :: Creates(c, st, key) ==> GoodRoles(st.cores[key].roles)
    ensures Sync(c, Sync(c, st)) == Sync(c, st)
  {
    var t := Sync(c, st);
    SyncLinks(c, st);
    SyncPreserves(c, st);
    forall k | k in t.entities ensures !NeedsRepair(c, t.entities[k].fields) {
      if k in st.entities {
        RepairWorks(c, st.entities[k].fields);
      } else {
        var key := CreatedFrom(c, st, k);
        RecordNeedsRepair(c, st.cores[key]);
      }
    }
    ForwardIdle(c, t, SortKeys(t.entities.Keys));
    BackwardIdle(c, t, SortKeys(t.cores.Keys));
  }

  /**
   A second sync writes nothing exactly when every core user from which the first one makes
   a record has a role list, and no empty first role in it.
   */
  lemma SecondSyncIdleIff(c: Codec, st: Stores)
    requires ShowsText(c.show) && KeyedByEmail(st)
    ensures
      Sync(c, Sync(c, st)) == Sync(c, st) <==> forall key :: Creates(c, st, key) ==> GoodRoles(st.cores[key].roles)
  {
    var t := Sync(c, st);
    if key :| Creates(c, st, key) && !GoodRoles(st.cores[key].roles) {
      var k := CreatedFor(c, st, key);
      RecordNeedsRepair(c, st.cores[key]);
      SyncRepairs(c, t, k);
    } else {
      IdleIfGood(c, st);
    }
  }

  /** In particular when all core users have such role lists. */
  lemma SecondSyncIdle(c: Codec, st: Stores)
    requires ShowsText(c.show) && KeyedByEmail(st) && forall k :: k in st.cores ==> GoodRoles(st.cores[k].roles)
    ensures Sync(c, Sync(c, st)) == Sync(c, st)
  {
    SecondSyncIdleIff(c, st);
  }

  /** A lone core user without a usable role list gets a record that the next sync writes again. */
  lemma NilRolesSyncTwice(c: Codec, u: CoreUser)
    requires ShowsText(c.show) && u.email != "" && !GoodRoles(u.roles)
    ensures
      var st := Stores(map[], map[u.email := u]);
      Sync(c, Sync(c, st)) != Sync(c, st)
  {
    var st := Stores(map[], map[u.email := u]);
    LessIrreflexive(u.email);
    assert Creates(c, st, u.email);
    SecondSyncIdleIff(c, st);
  }

  // ----- What created users and records hold -----

  predicate UsableRole(v: Value) {
    v.Text? && v.s != ""
  }

  /** `names` are the usable roles among `items`, in order; `at` says where they stand. */
  ghost predicate KeepsUsable(items: seq<Value>, names: seq<string>, at: seq<nat>) {
    && |at| == |names|
    && (forall j :: 0 <= j < |at| ==> at[j] < |items| && UsableRole(items[at[j]]) && items[at[j]] == Text(names[j]))
    && (forall j, k :: 0 <= j < k < |at| ==> at[j] < at[k])
    && (forall i {:trigger StandsAt(at, i)} :: 0 <= i < |items| && UsableRole(items[i]) ==> StandsAt(at, i))
  }

  ghost predicate StandsAt(at: seq<nat>, i: nat) {
    i in at
  }

  lemma {:induction false} UsableRoles(items: seq<Value>) returns (at: seq<nat>)
    ensures KeepsUsable(items, NonEmptyTexts(items), at)
  {
    if items == [] {
      at := [];
    } else {
      var later := UsableRoles(items[1..]);
      UsableLater(items, NonEmptyTexts(items[1..]), later);
      at := OneFurther(later);
      if UsableRole(items[0]) {
        UsableFirst(items, NonEmptyTexts(items[1..]), at);
        assert NonEmptyTexts(items) == [items[0].s] + NonEmptyTexts(items[1..]);
        at := [0] + at;
      } else {
        UnusableFirst(items, NonEmptyTexts(items[1..]), at);
        assert NonEmptyTexts(items) == [] + NonEmptyTexts(items[1..]) == NonEmptyTexts(items[1..]);
      }
    }
  }

  lemma UnusableFirst(items: seq<Value>, names: seq<string>, at: seq<nat>)
    requires items != [] && !UsableRole(items[0]) && KeepsLater(items, names, at)
    ensures KeepsUsable(items, names, at)
  {
    forall i | 0 <= i < |items| && UsableRole(items[i]) ensures StandsAt(at, i) {
      assert i > 0;
    }
  }

  function OneFurther(at: seq<nat>): (moved: seq<nat>)
    ensures |moved| == |at| && forall j :: 0 <= j < |at| ==> moved[j] == at[j] + 1
  {
    seq(|at|, j requires 0 <= j < |at| => at[j] + 1)
  }

  /** `KeepsUsable`, but for the first item. */
  ghost predicate KeepsLater(items: seq<Value>, names: seq<string>, at: seq<nat>) {
    && |at| == |names|
    && (forall j :: 0 <= j < |at| ==> 0 < at[j] < |items| && UsableRole(items[at[j]]) && items[at[j]] == Text(names[j]))
    && (forall j, k :: 0 <= j < k < |at| ==> at[j] < at[k])
    && (forall i {:trigger StandsAt(at, i)} :: 0 < i < |items| && UsableRole(items[i]) ==> StandsAt(at, i))
  }

  lemma UsableLater(items: seq<Value>, names: seq<string>, later: seq<nat>)
    requires items != [] && KeepsUsable(items[1..], names, later)
    ensures KeepsLater(items, names, OneFurther(later))
  {
    var at := OneFurther(later);
    forall i | 0 < i < |items| && UsableRole(items[i]) ensures StandsAt(at, i) {
      assert items[1..][i - 1] == items[i] && StandsAt(later, i - 1);
      var j :| 0 <= j < |later| && later[j] == i - 1;
      assert at[j] == i;
    }
  }

  lemma UsableFirst(items: seq<Value>, names: seq<string>, at: seq<nat>)
    requires items != [] && UsableRole(items[0]) && KeepsLater(items, names, at)
    ensures KeepsUsable(items, [items[0].s] + names, [0] + at)
  {
    forall i | 0 <= i < |items| && UsableRole(items[i]) ensures StandsAt([0] + at, i) {
      if i > 0 { assert StandsAt(at, i); }
    }
  }

  /** What a single role stands for. */
  ghost predicate StandsFor(role: string, names: seq<string>) {
    && (role in {"sa", "superadmin"} ==> names == ["sa", "admin", "user"])
    && (role in {"admin", ""} ==> names == ["admin", "user"])
    && (role == "user" ==> names == ["user"])
    && (role == "guest" ==> names == ["guest"])
    && (role !in {"sa", "superadmin", "admin", "", "user", "guest"} ==> names == [role, "user"])
  }

  /** The text of a field; a missing field and one that is no text count as empty. */
  function TextIn(rec: Fields, name: string): string {
    if name in rec && rec[name].Text? then rec[name].s else ""
  }

  ghost predicate ListsUsable(rec: Fields) {
    "roles" in rec && rec["roles"].List? && HasUsable(rec["roles"].items)
  }

  ghost predicate HasUsable(items: seq<Value>) {
    exists i :: 0 <= i < |items| && UsableRole(items[i])
  }

  ghost predicate TakesUsable(items: seq<Value>, names: seq<string>) {
    exists at :: KeepsUsable(items, names, at)
  }

  /** The usable roles a record lists, if there are any, and else what its single role stands for. */
  ghost predicate RolesFrom(rec: Fields, names: seq<string>) {
    if ListsUsable(rec) then TakesUsable(rec["roles"].items, names) else StandsFor(TextIn(rec, "role"), names)
  }

  lemma UsableTaken(items: seq<Value>)
    ensures TakesUsable(items, NonEmptyTexts(items)) && (HasUsable(items) <==> NonEmptyTexts(items) != [])
  {
    var at := UsableRoles(items);
    if NonEmptyTexts(items) != [] { assert UsableRole(items[at[0]]); }
    if i :| 0 <= i < |items| && UsableRole(items[i]) { assert StandsAt(at, i); }
  }

  lemma RolesAreFrom(rec: Fields)
    ensures RolesFrom(rec, RolesOf(rec))
  {
    if "roles" in rec && rec["roles"].List? { UsableTaken(rec["roles"].items); }
    RoleStandsFor(TextIn(rec, "role"));
  }

  lemma RoleStandsFor(role: string)
    ensures StandsFor(role, RolesFor(role))
  {
  }

  lemma TakenIsListed(items: seq<Value>, names: seq<string>, role: string)
    requires TakesUsable(items, names) && role in names
    ensures Text(role) in items
  {
    var at :| KeepsUsable(items, names, at);
    var j :| 0 <= j < |names| && names[j] == role;
    assert items[at[j]] == Text(role);
  }

  /** Everything a core user takes over from a record stored under `key`. */
  ghost predicate IsUserOf(c: Codec, rec: Fields, key: string, u: CoreUser) {
    && u.email == TextIn(rec, "email") && u.phone == TextIn(rec, "phone")
    && u.avatar == TextIn(rec, "avatar_path") && u.passwordHash == TextIn(rec, "password_hash")
    && u.roles.Listed? && RolesFrom(rec, u.roles.names)
    && u.id == if "id" !in rec || rec["id"] in {Null, Text("")} then c.idOf(key)
               else if rec["id"].Num? then rec["id"].n
               else c.idOf(c.show(rec["id"]))
  }

  lemma ToUserHolds(c: Codec, rec: Fields, key: string)
    requires ShowsText(c.show)
    ensures IsUserOf(c, rec, key, ToUser(c, rec, key))
  {
    RolesAreFrom(rec);
    assert c.show(Text(key)) == key;
  }

  /** The first listed record with the email gives the new core user. */
  lemma {:induction false} ForwardCreates(c: Codec, st: Stores, keys: seq<string>, email: string) returns (i: nat)
    requires ShowsText(c.show) && Distinct(keys)
    requires email in Forward(c, st, keys).cores && email !in st.cores
    ensures i < |keys| && keys[i] in st.entities && email != ""
    ensures Forward(c, st, keys).cores[email] == ToUser(c, st.entities[keys[i]].fields, keys[i])
    ensures EmailOf(st.entities[keys[i]].fields) == email
    ensures forall j :: 0 <= j < i && keys[j] in st.entities ==> EmailOf(st.entities[keys[j]].fields) != email
    decreases |keys|
  {
    var mid, rest := ForwardStep(c, st, keys[0]), keys[1..];
    ForwardPreserves(c, mid, rest);
    if email in mid.cores {
      i := 0;
    } else {
      var n := ForwardCreates(c, mid, rest, email);
      i := n + 1;
      forall j | 0 < j < |keys| ensures rest[j - 1] == keys[j] && keys[j] != keys[0] {
      }
      forall j | 0 <= j < i && keys[j] in st.entities ensures EmailOf(st.entities[keys[j]].fields) != email {
        if j > 0 { assert rest[j - 1] == keys[j]; }
      }
    }
  }

  /**
   A core user that a sync creates is the user of the first record, in key order, with its
   email: id, phone, avatar, password hash and roles are those of that record.
   */
  lemma CreatedUser(c: Codec, st: Stores, email: string) returns (key: string)
    requires ShowsText(c.show) && email in Sync(c, st).cores && email !in st.cores
    ensures key in st.entities && TextIn(st.entities[key].fields, "email") == email != ""
    ensures IsUserOf(c, st.entities[key].fields, key, Sync(c, st).cores[email])
    ensures forall other :: other in st.entities && TextIn(st.entities[other].fields, "email") == email ==>
              !Less(other, key)
  {
    var ks := SortKeys(st.entities.Keys);
    var mid := Forward(c, st, ks);
    BackwardKeeps(c, mid, SortKeys(mid.cores.Keys));
    SortedDistinct(st.entities.Keys);
    SortKeysIncreasing(st.entities.Keys);
    var i := ForwardCreates(c, st, ks, email);
    key := ks[i];
    ToUserHolds(c, st.entities[key].fields, key);
    forall other | other in st.entities && TextIn(st.entities[other].fields, "email") == email
      ensures !Less(other, key)
    {
      assert other in ks;
      var j :| 0 <= j < |ks| && ks[j] == other;
      if j == i { LessIrreflexive(key); }
      if i < j { LessAsymmetric(key, other); }
    }
  }

  /** A sync makes nobody a super user whose record does not say so. */
  lemma SuperUsersSaySo(c: Codec, st: Stores, email: string) returns (key: string)
    requires ShowsText(c.show) && email in Sync(c, st).cores && email !in st.cores
    requires Sync(c, st).cores[email].roles.Listed? && "sa" in Sync(c, st).cores[email].roles.names
    ensures key in st.entities && TextIn(st.entities[key].fields, "email") == email
    ensures
      var rec := st.entities[key].fields;
      || ("roles" in rec && rec["roles"].List? && Text("sa") in rec["roles"].items)
      || TextIn(rec, "role") in {"sa", "superadmin"}
  {
    key := CreatedUser(c, st, email);
    SuperSaysSo(st.entities[key].fields, Sync(c, st).cores[email].roles.names);
  }

  lemma SuperSaysSo(rec: Fields, names: seq<string>)
    requires RolesFrom(rec, names) && "sa" in names
    ensures
      || ("roles" in rec && rec["roles"].List? && Text("sa") in rec["roles"].items)
      || TextIn(rec, "role") in {"sa", "superadmin"}
  {
    if ListsUsable(rec) { TakenIsListed(rec["roles"].items, names, "sa"); }
  }

  /** Everything a record takes over from a core user; times are not part of the model. */
  ghost predicate IsRecordOf(u: CoreUser, rec: Fields) {
    && rec.Keys == {"id", "email", "phone", "avatar_path", "password_hash", "role", "roles"}
    && rec["id"] == Text(Itoa(u.id)) && rec["email"] == Text(u.email) && rec["phone"] == Text(u.phone)
    && rec["avatar_path"] == Text(u.avatar) && rec["password_hash"] == Text(u.passwordHash)
    && match u.roles
       case NoRoles => rec["role"] == Text("user") && rec["roles"] == Null
       case Listed(names) =>
         && rec["role"] == Text(if names == [] then "user" else names[0])
         && rec["roles"].List? && ListsTexts(rec["roles"].items, names)
  }

  ghost predicate ListsTexts(items: seq<Value>, names: seq<string>) {
    |items| == |names| && forall i :: 0 <= i < |names| ==> items[i] == Text(names[i])
  }

  /** A record that a sync creates is that of a core user, under its id, as a first revision without a stamp. */
  lemma CreatedRecord(c: Codec, st: Stores, k: string) returns (key: string)
    requires ShowsText(c.show) && KeyedByEmail(st) && k in Sync(c, st).entities && k !in st.entities
    ensures IsOrphan(c, st, key) && k == Itoa(st.cores[key].id)
    ensures forall other :: IsOrphan(c, st, other) && st.cores[other].id == st.cores[key].id ==> !Less(other, key)
    ensures IsRecordOf(st.cores[key], Sync(c, st).entities[k].fields)
    ensures Sync(c, st).entities[k].stamp == Stamp("", Blank) && Sync(c, st).entities[k].revision == 1
  {
    key := CreatedFrom(c, st, k);
    RecordHolds(st.cores[key]);
    UnlinkedIsOrphan(c, st, key);
    forall other | IsOrphan(c, st, other) && st.cores[other].id == st.cores[key].id ensures !Less(other, key) {
      UnlinkedIsOrphan(c, st, other);
    }
  }

  /** A core user with an email but without a record under its id or with its email. */
  ghost predicate IsOrphan(c: Codec, st: Stores, key: string) {
    && key in st.cores && st.cores[key].email != "" && Itoa(st.cores[key].id) !in st.entities
    && forall e :: e in st.entities && "email" in st.entities[e].fields ==>
         c.show(st.entities[e].fields["email"]) != st.cores[key].email
  }

  lemma UnlinkedIsOrphan(c: Codec, st: Stores, key: string)
    ensures Unlinked(c, st, key) <==> IsOrphan(c, st, key)
  {
    if key in st.cores {
      if e :| e in st.entities && EmailIs(c, st.entities[e].fields, st.cores[key].email) {
        assert "email" in st.entities[e].fields;
      }
      if e :| e in st.entities && "email" in st.entities[e].fields
              && c.show(st.entities[e].fields["email"]) == st.cores[key].email {
        assert EmailIs(c, st.entities[e].fields, st.cores[key].email);
      }
    }
  }

  /** Every such user gets its record; of several with one id the first does. */
  lemma OrphansGetRecords(c: Codec, st: Stores, key: string)
    requires ShowsText(c.show) && KeyedByEmail(st) && IsOrphan(c, st, key)
    requires forall other :: IsOrphan(c, st, other) && st.cores[other].id == st.cores[key].id ==> !Less(other, key)
    ensures Itoa(st.cores[key].id) in Sync(c, st).entities
    ensures IsRecordOf(st.cores[key], Sync(c, st).entities[Itoa(st.cores[key].id)].fields)
  {
    UnlinkedIsOrphan(c, st, key);
    forall other | Unlinked(c, st, other) && Less(other, key) ensures st.cores[other].id != st.cores[key].id {
      UnlinkedIsOrphan(c, st, other);
    }
    var k := CreatedFor(c, st, key);
    RecordHolds(st.cores[key]);
  }

  lemma RecordHolds(u: CoreUser)
    ensures IsRecordOf(u, RecordOf(u))
  {
    if u.roles.Listed? { assert ListsTexts(TextList(u.roles.names).items, u.roles.names); }
  }

  /**
   A repair fills in "admin" for a missing role, and for a missing list the roles that a core
   user of the record gets; it is due if the record has an email and lacks one of the two.
   */
  lemma RepairFills(c: Codec, rec: Fields)
    ensures
      var after := Repaired(c, rec);
      var noRole := "role" !in rec || rec["role"] == Null || c.show(rec["role"]) == "";
      var noRoles := "roles" !in rec || rec["roles"] == Null;
      && (NeedsRepair(c, rec) <==> TextIn(rec, "email") != "" && (noRole || noRoles))
      && Holds(after, "role", if noRole then Some(Text("admin")) else Some(rec["role"]))
      && "roles" in after
      && (if noRoles then after["roles"].List? && FillsIn(rec, after["roles"].items)
          else after["roles"] == rec["roles"])
  {
    RolesAreFrom(rec);
    if LacksRoles(rec) { assert ListsTexts(Repaired(c, rec)["roles"].items, RolesOf(rec)); }
  }

  /** The items are the texts of the role list that the record stands for. */
  ghost predicate FillsIn(rec: Fields, items: seq<Value>) {
    exists names :: RolesFrom(rec, names) && ListsTexts(items, names)
  }
}
