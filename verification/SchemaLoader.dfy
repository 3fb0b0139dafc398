/**
 Loading an entity with everything it refers to. Lookups, junctions and collections may
 form cycles: every entity is remembered by name before its attributes are followed, so
 each name is loaded once and all links to it share one object.
 */
module SchemaLoader {
  import opened Wrappers
  import opened Splitting

  /** `Scalar` stands for every data type without links. */
  datatype DataType = Scalar | LookupType | JunctionType | CollectionType

  datatype Attribute = Attribute(field: string, dataType: DataType, options: string)

  datatype Entity = Entity(tableName: string, primaryKey: string, labelAttribute: string, attributes: seq<Attribute>)

  /** What the schema store answers per entity name; a missing name is an error. */
  type Schemas = map<string, Entity>

  function Parts(a: Attribute): seq<string> {
    Split(a.options, '|')
  }

  predicate Malformed(a: Attribute) {
    (a.dataType.JunctionType? && |Parts(a)| != 4) || (a.dataType.CollectionType? && |Parts(a)| != 2)
  }

  /** The entity a well-formed attribute links to. */
  function TargetOf(a: Attribute): Option<string> {
    if Malformed(a) then None
    else
      match a.dataType
      case Scalar => None
      case LookupType => Some(a.options)
      case JunctionType => Some(Parts(a)[1])
      case CollectionType => Some(Parts(a)[0])
  }

  // ----- Reachability -----

  ghost predicate Links(schemas: Schemas, a: string, b: string) {
    a in schemas && exists i :: 0 <= i < |schemas[a].attributes| && TargetOf(schemas[a].attributes[i]) == Some(b)
  }

  ghost predicate IsPath(schemas: Schemas, p: seq<string>) {
    p != [] && forall i :: 0 <= i < |p| - 1 ==> Links(schemas, p[i], p[i + 1])
  }

  ghost predicate Reaches(schemas: Schemas, a: string, b: string) {
    exists p :: IsPath(schemas, p) && p[0] == a && p[|p| - 1] == b
  }

  /** An unknown entity, or one with an option string that does not split as required. */
  ghost predicate Faulty(schemas: Schemas, n: string) {
    n in schemas ==> exists i :: 0 <= i < |schemas[n].attributes| && Malformed(schemas[n].attributes[i])
  }

  lemma ReachesSelf(schemas: Schemas, a: string)
    ensures Reaches(schemas, a, a)
  {
    assert IsPath(schemas, [a]);
  }

  lemma ReachesFurther(schemas: Schemas, a: string, b: string, c: string)
    requires Links(schemas, a, b) && Reaches(schemas, b, c)
    ensures Reaches(schemas, a, c)
  {
    var p :| IsPath(schemas, p) && p[0] == b && p[|p| - 1] == c;
    var q := [a] + p;
    forall i | 0 <= i < |q| - 1 ensures Links(schemas, q[i], q[i + 1]) {
      if i > 0 { assert Links(schemas, p[i - 1], p[i]); }
    }
    assert IsPath(schemas, q);
  }

  /** A set of names closed under links holds everything its members reach. */
  lemma {:induction false} ClosedUnderPaths(schemas: Schemas, s: set<string>, p: seq<string>)
    requires forall a, b :: a in s && Links(schemas, a, b) ==> b in s
    requires IsPath(schemas, p) && p[0] in s
    ensures p[|p| - 1] in s
    decreases |p|
  {
    if |p| > 1 {
      assert Links(schemas, p[0], p[1]);
      forall i | 0 <= i < |p[1..]| - 1 ensures Links(schemas, p[1..][i], p[1..][i + 1]) {
        assert Links(schemas, p[i + 1], p[i + 2]);
      }
      ClosedUnderPaths(schemas, s, p[1..]);
    }
  }

  // ----- Loaded entities -----

  datatype Junction = Junction(
    source: LoadedEntity, target: LoadedEntity, table: string, sourceField: string, targetField: string)

  datatype Collection = Collection(source: LoadedEntity, target: LoadedEntity, link: LoadedAttribute?)

  /** A slot of an entity's attribute array: others point at it, so it has an identity. */
  class LoadedAttribute {
    ghost const owner: string
    ghost const index: nat
    const attribute: Attribute
    const tableName: string
    var lookup: LoadedEntity?
    var junction: Option<Junction>
    var collection: Option<Collection>

    constructor (ghost owner: string, ghost index: nat, attribute: Attribute, tableName: string)
      ensures this.owner == owner && this.index == index
      ensures this.attribute == attribute && this.tableName == tableName && Unlinked()
    {
      this.owner := owner;
      this.index := index;
      this.attribute := attribute;
      this.tableName := tableName;
      lookup := null;
      junction := None;
      collection := None;
    }

    ghost predicate Unlinked()
      reads this
    {
      lookup == null && junction == None && collection == None
    }

    function Copy(): AttributeCopy
      reads this
    {
      AttributeCopy(attribute, tableName, lookup, junction, collection)
    }
  }

  /** An attribute struct copied by value, with its link pointers. */
  datatype AttributeCopy = AttributeCopy(
    attribute: Attribute, tableName: string,
    lookup: LoadedEntity?, junction: Option<Junction>, collection: Option<Collection>)

  /** The attributes an entity also holds directly, as copies. */
  datatype Specials = Specials(
    primaryKey: Option<AttributeCopy>, labelled: Option<AttributeCopy>,
    publicationStatus: Option<AttributeCopy>, updatedAt: Option<AttributeCopy>)

  const NO_SPECIALS := Specials(None, None, None, None)
  const PUBLICATION_STATUS := "publicationStatus"
  const UPDATED_AT := "updatedAt"

  class LoadedEntity {
    ghost const name: string
    const entity: Entity
    const attributes: seq<LoadedAttribute>
    const deletedAttribute: AttributeCopy
    var specials: Specials

    constructor (ghost name: string, entity: Entity, attributes: seq<LoadedAttribute>, specials: Specials)
      ensures this.name == name && this.entity == entity && this.attributes == attributes
      ensures this.specials == specials
      ensures deletedAttribute == AttributeCopy(Attribute("deleted", Scalar, ""), entity.tableName, null, None, None)
    {
      this.name := name;
      this.entity := entity;
      this.attributes := attributes;
      this.deletedAttribute := AttributeCopy(Attribute("deleted", Scalar, ""), entity.tableName, null, None, None);
      this.specials := specials;
    }

    /** One slot of its own per attribute of the entity, in order. */
    ghost predicate Shaped() {
      && |attributes| == |entity.attributes|
      && forall i :: 0 <= i < |attributes| ==>
           && attributes[i].attribute == entity.attributes[i]
           && attributes[i].owner == name && attributes[i].index == i
    }

    ghost function Slots(): set<LoadedAttribute> {
      set i | 0 <= i < |attributes| :: attributes[i]
    }

    /** The attribute array by value. */
    ghost function Copies(): (copies: seq<AttributeCopy>)
      reads Slots()
      ensures |copies| == |attributes|
      ensures forall i :: 0 <= i < |copies| ==> attributes[i] in Slots() && copies[i] == attributes[i].Copy()
    {
      assert forall i :: 0 <= i < |attributes| ==> attributes[i] in Slots();
      seq(|attributes|, i requires 0 <= i < |attributes| && attributes[i] in Slots() reads Slots() =>
        attributes[i].Copy())
    }
  }

  /** The last of the first `n` copies with the field, or else what was there before. */
  function Pick(copies: seq<AttributeCopy>, field: string, n: nat, before: Option<AttributeCopy>): Option<AttributeCopy>
    requires n <= |copies|
  {
    if n == 0 then before
    else if copies[n - 1].attribute.field == field then Some(copies[n - 1])
    else Pick(copies, field, n - 1, before)
  }

  function PickAll(copies: seq<AttributeCopy>, e: Entity, n: nat, before: Specials): Specials
    requires n <= |copies|
  {
    Specials(Pick(copies, e.primaryKey, n, before.primaryKey), Pick(copies, e.labelAttribute, n, before.labelled),
             Pick(copies, PUBLICATION_STATUS, n, before.publicationStatus),
             Pick(copies, UPDATED_AT, n, before.updatedAt))
  }

  lemma PickAllNext(copies: seq<AttributeCopy>, e: Entity, n: nat, before: Specials)
    requires n < |copies|
    ensures
      var picked, next, copy := PickAll(copies, e, n, before), PickAll(copies, e, n + 1, before), Some(copies[n]);
      var field := copies[n].attribute.field;
      && next.primaryKey == (if field == e.primaryKey then copy else picked.primaryKey)
      && next.labelled == (if field == e.labelAttribute then copy else picked.labelled)
      && next.publicationStatus == (if field == PUBLICATION_STATUS then copy else picked.publicationStatus)
      && next.updatedAt == (if field == UPDATED_AT then copy else picked.updatedAt)
  {
  }

  /** `special` is the last copy with the field, and absent if there is none. */
  ghost predicate IsSpecial(copies: seq<AttributeCopy>, field: string, special: Option<AttributeCopy>) {
    match special
    case None => forall j :: 0 <= j < |copies| ==> copies[j].attribute.field != field
    case Some(copy) =>
      exists i :: 0 <= i < |copies| && copies[i] == copy && copy.attribute.field == field
                  && forall j :: i < j < |copies| ==> copies[j].attribute.field != field
  }

  ghost predicate AreSpecial(copies: seq<AttributeCopy>, e: Entity, specials: Specials) {
    && IsSpecial(copies, e.primaryKey, specials.primaryKey) && IsSpecial(copies, e.labelAttribute, specials.labelled)
    && IsSpecial(copies, PUBLICATION_STATUS, specials.publicationStatus)
    && IsSpecial(copies, UPDATED_AT, specials.updatedAt)
  }

  /** What a pick means: it is `before` exactly if no copy has the field. */
  lemma {:induction false} PickMeans(copies: seq<AttributeCopy>, field: string, n: nat, before: Option<AttributeCopy>)
    requires n <= |copies|
    ensures
      var picked := Pick(copies, field, n, before);
      if forall j :: 0 <= j < n ==> copies[j].attribute.field != field then picked == before
      else picked.Some? && IsSpecial(copies[..n], field, picked)
  {
    if n > 0 {
      PickMeans(copies, field, n - 1, before);
      var head, all := copies[..n - 1], copies[..n];
      assert all == head + [copies[n - 1]];
      if copies[n - 1].attribute.field == field {
        assert all[n - 1] == copies[n - 1];
      } else if j :| 0 <= j < n && copies[j].attribute.field == field {
        var picked := Pick(copies, field, n, before);
        var i :| 0 <= i < |head| && head[i] == picked.value && picked.value.attribute.field == field
                 && forall k :: i < k < |head| ==> head[k].attribute.field != field;
        assert all[i] == picked.value && forall k :: i < k < |all| ==> all[k].attribute.field != field;
      }
    }
  }

  /** Picking from the bare slots first and from the linked ones later leaves nothing stale. */
  lemma PickTwice(bare: seq<AttributeCopy>, copies: seq<AttributeCopy>, field: string)
    requires |bare| == |copies| && forall j :: 0 <= j < |copies| ==> copies[j].attribute == bare[j].attribute
    ensures IsSpecial(copies, field, Pick(copies, field, |copies|, Pick(bare, field, |bare|, None)))
  {
    PickMeans(bare, field, |bare|, None);
    PickMeans(copies, field, |copies|, Pick(bare, field, |bare|, None));
    assert copies[..|copies|] == copies;
    if forall j :: 0 <= j < |copies| ==> copies[j].attribute.field != field {
      assert forall j :: 0 <= j < |bare| ==> bare[j].attribute.field != field;
    }
  }

  lemma PickAllTwice(bare: seq<AttributeCopy>, copies: seq<AttributeCopy>, e: Entity)
    requires |bare| == |copies| && forall j :: 0 <= j < |copies| ==> copies[j].attribute == bare[j].attribute
    ensures AreSpecial(copies, e, PickAll(copies, e, |copies|, PickAll(bare, e, |bare|, NO_SPECIALS)))
  {
    PickTwice(bare, copies, e.primaryKey);
    PickTwice(bare, copies, e.labelAttribute);
    PickTwice(bare, copies, PUBLICATION_STATUS);
    PickTwice(bare, copies, UPDATED_AT);
  }

  /** The attribute array before any link is set. */
  ghost function Bare(e: Entity): (copies: seq<AttributeCopy>)
    ensures |copies| == |e.attributes|
    ensures forall i :: 0 <= i < |copies| ==> copies[i] == AttributeCopy(e.attributes[i], e.tableName, null, None, None)
  {
    seq(|e.attributes|, i requires 0 <= i < |e.attributes| =>
      AttributeCopy(e.attributes[i], e.tableName, null, None, None))
  }

  method ToLoadedEntity(ghost name: string, e: Entity) returns (le: LoadedEntity)
    ensures fresh(le) && fresh(le.Slots()) && le.name == name && le.entity == e && le.Shaped()
    ensures le.deletedAttribute == AttributeCopy(Attribute("deleted", Scalar, ""), e.tableName, null, None, None)
    ensures le.Copies() == Bare(e)
    ensures le.specials == PickAll(Bare(e), e, |e.attributes|, NO_SPECIALS)
  {
    var loaded: seq<LoadedAttribute> := [];
    var specials := NO_SPECIALS;
    ghost var bare := Bare(e);
    var i := 0;
    while i < |e.attributes|
      invariant i <= |e.attributes| && |loaded| == i
      invariant forall j :: 0 <= j < i ==>
                  fresh(loaded[j]) && loaded[j].Copy() == bare[j] && loaded[j].owner == name && loaded[j].index == j
      invariant specials == PickAll(bare, e, i, NO_SPECIALS)
    {
      var slot := new LoadedAttribute(name, i, e.attributes[i], e.tableName);
      loaded := loaded + [slot];
      var field := slot.attribute.field;
      if field == e.primaryKey {
        specials := specials.(primaryKey := Some(slot.Copy()));
      }
      if field == e.labelAttribute {
        specials := specials.(labelled := Some(slot.Copy()));
      }
      if field == PUBLICATION_STATUS {
        specials := specials.(publicationStatus := Some(slot.Copy()));
      }
      if field == UPDATED_AT {
        specials := specials.(updatedAt := Some(slot.Copy()));
      }
      i := i + 1;
    }
    le := new LoadedEntity(name, e, loaded, specials);
  }

  /** The first slot with the field, as a linear search finds it. */
  ghost predicate IsLinkSlot(target: LoadedEntity, field: string, link: LoadedAttribute?) {
    if link == null then
      forall i :: 0 <= i < |target.attributes| ==> target.attributes[i].attribute.field != field
    else
      exists i :: 0 <= i < |target.attributes| && target.attributes[i] == link && link.attribute.field == field
                  && forall j :: 0 <= j < i ==> target.attributes[j].attribute.field != field
  }

  method FindSlot(target: LoadedEntity, field: string) returns (link: LoadedAttribute?)
    ensures IsLinkSlot(target, field, link)
  {
    var i := 0;
    while i < |target.attributes|
      invariant i <= |target.attributes|
      invariant forall j :: 0 <= j < i ==> target.attributes[j].attribute.field != field
    {
      if target.attributes[i].attribute.field == field {
        return target.attributes[i];
      }
      i := i + 1;
    }
    return null;
  }

  /** The link of a slot of `source` points at the one object of its target. */
  ghost predicate Linked(processed: map<string, LoadedEntity>, source: LoadedEntity, a: AttributeCopy) {
    !Malformed(a.attribute) &&
    match a.attribute.dataType
    case Scalar => a.lookup == null && a.junction == None && a.collection == None
    case LookupType =>
      && a.attribute.options in processed && a.lookup == processed[a.attribute.options]
      && a.junction == None && a.collection == None
    case JunctionType =>
      && Parts(a.attribute)[1] in processed && a.lookup == null && a.collection == None
      && a.junction == Some(Junction(source, processed[Parts(a.attribute)[1]], Parts(a.attribute)[0],
                                     Parts(a.attribute)[2], Parts(a.attribute)[3]))
    case CollectionType =>
      && Parts(a.attribute)[0] in processed && a.lookup == null && a.junction == None
      && a.collection.Some? && a.collection.value.source == source
      && a.collection.value.target == processed[Parts(a.attribute)[0]]
      && IsLinkSlot(a.collection.value.target, Parts(a.attribute)[1], a.collection.value.link)
  }

  ghost predicate LinkedBelow(processed: map<string, LoadedEntity>, source: LoadedEntity,
                              copies: seq<AttributeCopy>, n: nat)
    requires n <= |copies|
  {
    forall i :: 0 <= i < n ==> Linked(processed, source, copies[i])
  }

  /** One more slot is linked, the others are as before, and the memo may have grown. */
  lemma LinkedNext(small: map<string, LoadedEntity>, large: map<string, LoadedEntity>, source: LoadedEntity,
                   before: seq<AttributeCopy>, after: seq<AttributeCopy>, n: nat)
    requires n < |before| == |after| && LinkedBelow(small, source, before, n)
    requires forall i :: 0 <= i < n ==> after[i] == before[i]
    requires Linked(large, source, after[n])
    requires forall m :: m in small ==> m in large && large[m] == small[m]
    ensures LinkedBelow(large, source, after, n + 1)
  {
    forall i | 0 <= i < n + 1 ensures Linked(large, source, after[i]) {
      if i < n { LinkedInLarger(small, large, source, before[i]); }
    }
  }

  /** A link stays right while the memo grows. */
  lemma LinkedInLarger(small: map<string, LoadedEntity>, large: map<string, LoadedEntity>, source: LoadedEntity,
                       a: AttributeCopy)
    requires Linked(small, source, a)
    requires forall n :: n in small ==> n in large && large[n] == small[n]
    ensures Linked(large, source, a)
  {
  }

  class Loader {
    const schemas: Schemas
    var processed: map<string, LoadedEntity>

    constructor (schemas: Schemas)
      ensures this.schemas == schemas && processed == map[] && Valid()
    {
      this.schemas := schemas;
      processed := map[];
    }

    /** Every memoized object stands for its own name, with the slots of its schema entity. */
    ghost predicate Valid()
      reads this
    {
      forall n :: n in processed ==>
        n in schemas && processed[n].name == n && processed[n].entity == schemas[n] && processed[n].Shaped()
    }

    ghost predicate Complete(le: LoadedEntity)
      reads this, le, le.Slots()
    {
      && LinkedBelow(processed, le, le.Copies(), |le.attributes|)
      && AreSpecial(le.Copies(), le.entity, le.specials)
    }

    /** `processed` only grew, by new objects with new slots for names that `from` reaches. */
    twostate predicate Grew(from: string)
      reads this
    {
      && (forall n :: n in old(processed) ==> n in processed && processed[n] == old(processed[n]))
      && (forall n :: n in processed && n !in old(processed) ==>
            fresh(processed[n]) && fresh(processed[n].Slots()) && Reaches(schemas, from, n))
    }

    /** A finished entity stays finished while the memo grows and nobody touches it. */
    twostate lemma StillComplete(le: LoadedEntity)
      requires old(Complete(le)) && unchanged(le) && unchanged(le.Slots())
      requires forall n :: n in old(processed) ==> n in processed && processed[n] == old(processed[n])
      ensures Complete(le)
    {
      assert le.Copies() == old(le.Copies());
      forall i | 0 <= i < |le.attributes| ensures Linked(processed, le, le.Copies()[i]) {
        LinkedInLarger(old(processed), processed, le, old(le.Copies())[i]);
      }
    }

    /** Everything memoized is finished, except the entities in `open`, whose loading is under way. */
    ghost predicate CompleteBeyond(open: set<string>)
      reads *
    {
      forall n :: n in processed && n !in open ==> Complete(processed[n])
    }

    method Load(name: string, ghost open: set<string>) returns (r: Result<LoadedEntity>)
      requires Valid() && CompleteBeyond(open)
      modifies this
      ensures Valid() && Grew(name)
      ensures r.Ok? ==> name in processed && r.value == processed[name] && CompleteBeyond(open)
      ensures r.Err? ==> exists m :: Reaches(schemas, name, m) && Faulty(schemas, m)
      decreases schemas.Keys - processed.Keys, 0
    {
      if name in processed {
        return Ok(processed[name]);
      }
      ReachesSelf(schemas, name);
      if name !in schemas {
        assert Faulty(schemas, name);
        return Err("entity not found");
      }
      var le := Enter(name, open);
      label entered:
      var error := LoadAttributes(name, le, open);
      forall n | n in processed && n !in old(processed)
        ensures fresh(processed[n]) && fresh(processed[n].Slots()) && Reaches(schemas, name, n)
      {
        assert n == name || n !in old@entered(processed);
      }
      r := if error.Some? then Err(error.value) else Ok(le);
    }

    /** Creates an entity without links and remembers it before its attributes are followed. */
    method Enter(name: string, ghost open: set<string>) returns (le: LoadedEntity)
      requires Valid() && CompleteBeyond(open) && name in schemas && name !in processed
      modifies this
      ensures fresh(le) && fresh(le.Slots()) && processed == old(processed)[name := le]
      ensures Valid() && CompleteBeyond(open + {name})
      ensures forall i :: 0 <= i < |le.attributes| ==> le.attributes[i].Unlinked()
      ensures le.specials == PickAll(Bare(le.entity), le.entity, |le.entity.attributes|, NO_SPECIALS)
      ensures schemas.Keys - processed.Keys < old(schemas.Keys - processed.Keys)
    {
      le := ToLoadedEntity(name, schemas[name]);
      label created:
      processed := processed[name := le];
      assert name in old(schemas.Keys - processed.Keys) && name !in schemas.Keys - processed.Keys;
      forall n | n in processed && n !in open + {name} ensures Complete(processed[n]) {
        StillComplete@created(processed[n]);
      }
      forall i | 0 <= i < |le.attributes| ensures le.attributes[i].Unlinked() {
        assert le.Copies()[i] == le.attributes[i].Copy();
      }
    }

    method LoadAttributes(name: string, le: LoadedEntity, ghost open: set<string>) returns (error: Option<string>)
      requires Valid() && name in processed && processed[name] == le && CompleteBeyond(open + {name})
      requires le.specials == PickAll(Bare(le.entity), le.entity, |le.entity.attributes|, NO_SPECIALS)
      requires forall i :: 0 <= i < |le.attributes| ==> le.attributes[i].Unlinked()
      modifies this, le, le.Slots()
      ensures Valid() && Grew(name)
      ensures error.None? ==> CompleteBeyond(open)
      ensures error.Some? ==> exists m :: Reaches(schemas, name, m) && Faulty(schemas, m)
      decreases schemas.Keys - processed.Keys, 4
    {
      error := LinkAll(name, le, open + {name});
      if error.None? {
        label linked:
        AssignSpecials(le);
        forall n | n in processed && n !in open ensures Complete(processed[n]) {
          if n != name { StillComplete@linked(processed[n]); }
        }
      }
    }

    method LinkAll(name: string, le: LoadedEntity, ghost open: set<string>) returns (error: Option<string>)
      requires Valid() && name in processed && processed[name] == le && name in open && CompleteBeyond(open)
      requires forall i :: 0 <= i < |le.attributes| ==> le.attributes[i].Unlinked()
      modifies this, le.Slots()
      ensures Valid() && Grew(name)
      ensures error.None? ==> LinkedBelow(processed, le, le.Copies(), |le.attributes|) && CompleteBeyond(open)
      ensures error.Some? ==> exists m :: Reaches(schemas, name, m) && Faulty(schemas, m)
      decreases schemas.Keys - processed.Keys, 3
    {
      error := None;
      var i := 0;
      while i < |le.attributes|
        invariant i <= |le.attributes| && error.None?
        invariant Valid() && Grew(name) && CompleteBeyond(open)
        invariant LinkedBelow(processed, le, le.Copies(), i)
        invariant forall j :: i <= j < |le.attributes| ==> le.attributes[j].Unlinked()
      {
        label before:
        ghost var copies := le.Copies();
        error := LoadLink(name, le, i, open);
        forall n | n in processed && n !in old(processed)
          ensures fresh(processed[n]) && fresh(processed[n].Slots()) && Reaches(schemas, name, n)
        {
          assert n in old@before(processed) ==> processed[n] == old@before(processed[n]);
        }
        if error.Some? {
          return;
        }
        LinkedNext(old@before(processed), processed, le, copies, le.Copies(), i);
        i := i + 1;
      }
    }

    method LoadLink(name: string, le: LoadedEntity, i: nat, ghost open: set<string>) returns (error: Option<string>)
      requires Valid() && name in processed && processed[name] == le && name in open && CompleteBeyond(open)
      requires i < |le.attributes| && le.attributes[i].Unlinked()
      modifies this, le.attributes[i]
      ensures Valid() && Grew(name)
      ensures error.None? ==> Linked(processed, le, le.attributes[i].Copy()) && CompleteBeyond(open)
      ensures error.Some? ==> exists m :: Reaches(schemas, name, m) && Faulty(schemas, m)
      decreases schemas.Keys - processed.Keys, 2
    {
      var attr := le.attributes[i];
      if attr.attribute.dataType.Scalar? {
        return None;
      }
      if Malformed(attr.attribute) {
        ReachesSelf(schemas, name);
        assert Malformed(schemas[name].attributes[i]);
        assert Faulty(schemas, name);
        return Some("invalid options");
      }
      assert TargetOf(schemas[name].attributes[i]) == TargetOf(attr.attribute);
      var target := LoadTarget(name, TargetOf(attr.attribute).value, open);
      if target.Err? {
        return Some(target.message);
      }
      label loaded:
      SetLink(le, attr, target.value);
      forall n | n in processed && n !in open ensures Complete(processed[n]) {
        StillComplete@loaded(processed[n]);
      }
      return None;
    }

    /** Follows one link of `name`. */
    method LoadTarget(name: string, targetName: string, ghost open: set<string>) returns (target: Result<LoadedEntity>)
      requires Valid() && Links(schemas, name, targetName) && CompleteBeyond(open)
      modifies this
      ensures Valid() && Grew(name)
      ensures target.Ok? ==> targetName in processed && target.value == processed[targetName] && CompleteBeyond(open)
      ensures target.Err? ==> exists m :: Reaches(schemas, name, m) && Faulty(schemas, m)
      decreases schemas.Keys - processed.Keys, 1
    {
      target := Load(targetName, open);
      forall m | Reaches(schemas, targetName, m) ensures Reaches(schemas, name, m) {
        ReachesFurther(schemas, name, targetName, m);
      }
    }

    method SetLink(le: LoadedEntity, attr: LoadedAttribute, target: LoadedEntity)
      requires attr.Unlinked() && !Malformed(attr.attribute) && !attr.attribute.dataType.Scalar?
      requires TargetOf(attr.attribute).value in processed && target == processed[TargetOf(attr.attribute).value]
      modifies attr
      ensures Linked(processed, le, attr.Copy())
    {
      var parts := Parts(attr.attribute);
      if attr.attribute.dataType.LookupType? {
        attr.lookup := target;
      } else if attr.attribute.dataType.JunctionType? {
        attr.junction := Some(Junction(le, target, parts[0], parts[2], parts[3]));
      } else {
        var link := FindSlot(target, parts[1]);
        attr.collection := Some(Collection(le, target, link));
      }
    }

    method AssignSpecial(le: LoadedEntity, attr: AttributeCopy)
      modifies le`specials
      ensures
        var before, field := old(le.specials), attr.attribute.field;
        le.specials == Specials(if field == le.entity.primaryKey then Some(attr) else before.primaryKey,
                                if field == le.entity.labelAttribute then Some(attr) else before.labelled,
                                if field == PUBLICATION_STATUS then Some(attr) else before.publicationStatus,
                                if field == UPDATED_AT then Some(attr) else before.updatedAt)
    {
      if attr.attribute.field == le.entity.primaryKey {
        le.specials := le.specials.(primaryKey := Some(attr));
      }
      if attr.attribute.field == le.entity.labelAttribute {
        le.specials := le.specials.(labelled := Some(attr));
      }
      if attr.attribute.field == PUBLICATION_STATUS {
        le.specials := le.specials.(publicationStatus := Some(attr));
      }
      if attr.attribute.field == UPDATED_AT {
        le.specials := le.specials.(updatedAt := Some(attr));
      }
    }

    /** Copies the linked slots into the special attributes again; later slots win. */
    method AssignSpecials(le: LoadedEntity)
      requires le.Shaped()
      requires le.specials == PickAll(Bare(le.entity), le.entity, |le.entity.attributes|, NO_SPECIALS)
      modifies le`specials
      ensures AreSpecial(le.Copies(), le.entity, le.specials)
    {
      ghost var copies := le.Copies();
      var i := 0;
      while i < |le.attributes|
        invariant i <= |le.attributes| && le.Copies() == copies
        invariant le.specials == PickAll(copies, le.entity, i, old(le.specials))
      {
        var attr := le.attributes[i].Copy();
        assert attr == copies[i];
        PickAllNext(copies, le.entity, i, old(le.specials));
        AssignSpecial(le, attr);
        i := i + 1;
      }
      assert forall j :: 0 <= j < |copies| ==> copies[j] == le.attributes[j].Copy();
      PickAllTwice(Bare(le.entity), copies, le.entity);
    }
  }

  /**
   Loads `name` with a fresh memo. It succeeds exactly when nothing faulty is reachable;
   then there is exactly one object per reachable name, and every link of every one of
   them points at the object of its target.
   */
  method LoadLoadedEntity(schemas: Schemas, name: string) returns (r: Result<LoadedEntity>, loader: Loader)
    ensures fresh(loader) && loader.schemas == schemas && loader.Valid()
    ensures r.Ok? <==> forall m :: Reaches(schemas, name, m) ==> !Faulty(schemas, m)
    ensures r.Ok? ==> name in loader.processed && r.value == loader.processed[name]
    ensures r.Ok? ==> forall m :: m in loader.processed <==> Reaches(schemas, name, m)
    ensures r.Ok? ==> forall m :: m in loader.processed ==> loader.Complete(loader.processed[m])
  {
    loader := new Loader(schemas);
    r := loader.Load(name, {});
    if r.Ok? {
      AllLoaded(loader, name);
    }
  }

  /** A complete memo is closed under links, so it holds all that is reachable. */
  lemma AllLoaded(loader: Loader, name: string)
    requires loader.Valid() && name in loader.processed
    requires forall m :: m in loader.processed ==> loader.Complete(loader.processed[m])
    ensures forall m :: Reaches(loader.schemas, name, m) ==> m in loader.processed && !Faulty(loader.schemas, m)
  {
    var schemas := loader.schemas;
    forall a, b | a in loader.processed && Links(schemas, a, b) ensures b in loader.processed {
      LinkLoaded(loader, a, b);
    }
    forall m | Reaches(schemas, name, m) ensures m in loader.processed && !Faulty(schemas, m) {
      var p :| IsPath(schemas, p) && p[0] == name && p[|p| - 1] == m;
      ClosedUnderPaths(schemas, loader.processed.Keys, p);
      var le := loader.processed[m];
      forall i | 0 <= i < |schemas[m].attributes| ensures !Malformed(schemas[m].attributes[i]) {
        assert Linked(loader.processed, le, le.Copies()[i]);
      }
    }
  }

  lemma LinkLoaded(loader: Loader, a: string, b: string)
    requires loader.Valid() && a in loader.processed && loader.Complete(loader.processed[a])
    requires Links(loader.schemas, a, b)
    ensures b in loader.processed
  {
    var le := loader.processed[a];
    var i :| 0 <= i < |loader.schemas[a].attributes| && TargetOf(loader.schemas[a].attributes[i]) == Some(b);
    assert Linked(loader.processed, le, le.Copies()[i]);
  }

  // ----- What a loaded entity holds, in terms of the schema texts -----

  /** `m` is loaded, and `i` is one of its attributes. */
  ghost predicate IsLoaded(loader: Loader, m: string, i: nat)
    reads *
  {
    && loader.Valid() && m in loader.processed && loader.Complete(loader.processed[m])
    && i < |loader.schemas[m].attributes|
  }

  /** An entity is faulty if it is unknown or an option text has the wrong number of bars. */
  lemma FaultyIff(schemas: Schemas, n: string)
    ensures
      Faulty(schemas, n) <==>
      n in schemas ==> exists i :: 0 <= i < |schemas[n].attributes| && MiscountsBars(schemas[n].attributes[i])
  {
    if n in schemas {
      forall i | 0 <= i < |schemas[n].attributes|
        ensures Malformed(schemas[n].attributes[i]) <==> MiscountsBars(schemas[n].attributes[i])
      {
        SplitCount(schemas[n].attributes[i].options, '|');
      }
    }
  }

  predicate MiscountsBars(a: Attribute) {
    match a.dataType
    case JunctionType => multiset(a.options)['|'] != 3
    case CollectionType => multiset(a.options)['|'] != 1
    case _ => false
  }

  lemma LoadedScalar(loader: Loader, m: string, i: nat)
    requires IsLoaded(loader, m, i) && loader.schemas[m].attributes[i].dataType == Scalar
    ensures loader.processed[m].attributes[i].Unlinked()
  {
    var le := loader.processed[m];
    assert Linked(loader.processed, le, le.Copies()[i]);
  }

  /** A lookup points at the object of the entity that its options name. */
  lemma LoadedLookup(loader: Loader, m: string, i: nat)
    requires IsLoaded(loader, m, i) && loader.schemas[m].attributes[i].dataType == LookupType
    ensures
      var slot, target := loader.processed[m].attributes[i], loader.schemas[m].attributes[i].options;
      && Links(loader.schemas, m, target) && target in loader.processed && slot.lookup == loader.processed[target]
      && slot.junction == None && slot.collection == None
  {
    var le := loader.processed[m];
    assert Linked(loader.processed, le, le.Copies()[i]);
    assert TargetOf(loader.schemas[m].attributes[i]) == Some(loader.schemas[m].attributes[i].options);
  }

  /** A junction with options "table|target|source field|target field". */
  lemma LoadedJunction(loader: Loader, m: string, i: nat, table: string, target: string, from: string, to: string)
    requires IsLoaded(loader, m, i) && loader.schemas[m].attributes[i].dataType == JunctionType
    requires '|' !in table && '|' !in target && '|' !in from && '|' !in to
    requires loader.schemas[m].attributes[i].options == table + "|" + target + "|" + from + "|" + to
    ensures Links(loader.schemas, m, target) && target in loader.processed
    ensures
      var slot, le := loader.processed[m].attributes[i], loader.processed[m];
      && slot.junction == Some(Junction(le, loader.processed[target], table, from, to))
      && slot.lookup == null && slot.collection == None
  {
    var le, a := loader.processed[m], loader.schemas[m].attributes[i];
    assert a.options == table + ['|'] + (target + ['|'] + (from + ['|'] + to));
    SplitFour(table, target, from, to, '|');
    assert Linked(loader.processed, le, le.Copies()[i]);
    assert TargetOf(a) == Some(target);
  }

  /** A collection with options "target|link field" is linked by the first slot with that field. */
  lemma LoadedCollection(loader: Loader, m: string, i: nat, target: string, field: string)
    requires IsLoaded(loader, m, i) && loader.schemas[m].attributes[i].dataType == CollectionType
    requires '|' !in target && '|' !in field && loader.schemas[m].attributes[i].options == target + "|" + field
    ensures Links(loader.schemas, m, target) && target in loader.processed
    ensures
      var slot, le, other := loader.processed[m].attributes[i], loader.processed[m], loader.processed[target];
      && slot.lookup == null && slot.junction == None && slot.collection.Some?
      && slot.collection.value.source == le && slot.collection.value.target == other
      && FirstWith(loader.schemas[target].attributes, field, slot.collection.value.link, other)
  {
    var le, a := loader.processed[m], loader.schemas[m].attributes[i];
    SplitTwo(target, field, '|');
    assert Linked(loader.processed, le, le.Copies()[i]);
    assert TargetOf(a) == Some(target);
    var link, other := le.Copies()[i].collection.value.link, loader.processed[target];
    if link != null {
      var k :| 0 <= k < |other.attributes| && other.attributes[k] == link && link.attribute.field == field
               && forall j :: 0 <= j < k ==> other.attributes[j].attribute.field != field;
      assert loader.schemas[target].attributes[k].field == field;
      assert forall j :: 0 <= j < k ==> loader.schemas[target].attributes[j].field != field;
    }
  }

  /** The slot of the first attribute with the field, or none if no attribute has it. */
  ghost predicate FirstWith(attributes: seq<Attribute>, field: string, link: LoadedAttribute?, other: LoadedEntity) {
    if exists k :: 0 <= k < |attributes| && attributes[k].field == field then
      exists k :: 0 <= k < |attributes| && attributes[k].field == field
                  && (forall j :: 0 <= j < k ==> attributes[j].field != field)
                  && k < |other.attributes| && link == other.attributes[k]
    else link == null
  }

  /** The special attributes are copies of the last slots with the named fields. */
  lemma LoadedSpecials(loader: Loader, m: string, i: nat)
    requires IsLoaded(loader, m, i)
    requires
      var own := loader.schemas[m].attributes;
      forall j :: i < j < |own| ==> own[j].field != own[i].field
    ensures
      var le, own := loader.processed[m], loader.schemas[m];
      var copy, field := Some(le.attributes[i].Copy()), own.attributes[i].field;
      && (field == own.primaryKey ==> le.specials.primaryKey == copy)
      && (field == own.labelAttribute ==> le.specials.labelled == copy)
      && (field == "publicationStatus" ==> le.specials.publicationStatus == copy)
      && (field == "updatedAt" ==> le.specials.updatedAt == copy)
  {
    var le, own := loader.processed[m], loader.schemas[m];
    var field := own.attributes[i].field;
    var copies := le.Copies();
    forall j | i < j < |copies| ensures copies[j].attribute.field != field {
      assert copies[j].attribute == own.attributes[j];
    }
    if field == own.primaryKey { SpecialIsLast(copies, field, le.specials.primaryKey, i); }
    if field == own.labelAttribute { SpecialIsLast(copies, field, le.specials.labelled, i); }
    if field == "publicationStatus" { SpecialIsLast(copies, field, le.specials.publicationStatus, i); }
    if field == "updatedAt" { SpecialIsLast(copies, field, le.specials.updatedAt, i); }
  }

  lemma SpecialIsLast(copies: seq<AttributeCopy>, field: string, special: Option<AttributeCopy>, i: nat)
    requires IsSpecial(copies, field, special) && i < |copies| && copies[i].attribute.field == field
    requires forall j :: i < j < |copies| ==> copies[j].attribute.field != field
    ensures special == Some(copies[i])
  {
  }

  /** Without an attribute of that name a special attribute is absent. */
  lemma LoadedWithout(loader: Loader, m: string, field: string)
    requires loader.Valid() && m in loader.processed && loader.Complete(loader.processed[m])
    requires forall j :: 0 <= j < |loader.schemas[m].attributes| ==> loader.schemas[m].attributes[j].field != field
    ensures
      var le, own := loader.processed[m], loader.schemas[m];
      && (field == own.primaryKey ==> le.specials.primaryKey == None)
      && (field == own.labelAttribute ==> le.specials.labelled == None)
      && (field == "publicationStatus" ==> le.specials.publicationStatus == None)
      && (field == "updatedAt" ==> le.specials.updatedAt == None)
  {
    var le := loader.processed[m];
    forall j | 0 <= j < |le.Copies()| ensures le.Copies()[j].attribute.field != field {
      assert le.Copies()[j].attribute == loader.schemas[m].attributes[j];
    }
  }
}
