/** Field permissions: the union of what the caller's roles are granted, level by level. */
module Permissions {
  import opened Evolution

  datatype Perm = Perm(read: bool, write: bool)

  datatype Attribute = Attribute(field: string, permLevel: int)

  /** The role that bypasses all field permissions. */
  const SUPER := "sa"

  function LevelOf(doc: Fields): int {
    match Lookup(doc, "permlevel")
    case Num(n) => n
    case _ => 0
  }

  /** A boolean, or a number that counts as true when it is 1. */
  predicate Flag(doc: Fields, name: string) {
    match Lookup(doc, name)
    case Bool(b) => b
    case Num(n) => n == 1
    case _ => false
  }

  predicate Held(show: Show, roles: seq<string>, doc: Fields) {
    show(Lookup(doc, "role")) in roles
  }

  /** Some doc-perm of a held role grants `right` at `level`. */
  ghost predicate Grants(show: Show, docs: seq<Fields>, roles: seq<string>, level: int, right: string) {
    exists i :: 0 <= i < |docs| && Held(show, roles, docs[i]) && LevelOf(docs[i]) == level && Flag(docs[i], right)
  }

  ghost function Granted(show: Show, docs: seq<Fields>, roles: seq<string>, level: int): Perm {
    Perm(Grants(show, docs, roles, level, "read"), Grants(show, docs, roles, level, "write"))
  }

  /** No attribute between `i` and `n` has the same field. */
  ghost predicate IsLastBelow(attributes: seq<Attribute>, i: nat, n: nat)
    requires i < |attributes| && n <= |attributes|
  {
    forall j :: i < j < n ==> attributes[j].field != attributes[i].field
  }

  ghost function PermOf(show: Show, docs: seq<Fields>, roles: seq<string>, a: Attribute): Perm {
    if SUPER in roles then Perm(true, true) else Granted(show, docs, roles, a.permLevel)
  }

  /** Of the first `n` attributes, the last one of each field decides that field's entry. */
  ghost predicate DecidedBy(attributes: seq<Attribute>, own: seq<Perm>, n: nat, perms: map<string, Perm>)
    requires n <= |attributes| == |own|
  {
    && (forall f :: f in perms ==> exists i :: 0 <= i < n && attributes[i].field == f)
    && (forall i :: 0 <= i < n ==> attributes[i].field in perms)
    && (forall i {:trigger IsLastBelow(attributes, i, n)} ::
          0 <= i < n && IsLastBelow(attributes, i, n) ==> perms[attributes[i].field] == own[i])
  }

  ghost function PermsOf(show: Show, docs: seq<Fields>, roles: seq<string>, attributes: seq<Attribute>)
    : (own: seq<Perm>)
    ensures |own| == |attributes|
    ensures forall i :: 0 <= i < |own| ==> own[i] == PermOf(show, docs, roles, attributes[i])
  {
    seq(|attributes|, i requires 0 <= i < |attributes| => PermOf(show, docs, roles, attributes[i]))
  }

  /** One entry per attribute field, decided by the last attribute with that field. */
  ghost predicate ArePermissions(show: Show, attributes: seq<Attribute>, docs: seq<Fields>,
                                 roles: seq<string>, perms: map<string, Perm>) {
    DecidedBy(attributes, PermsOf(show, docs, roles, attributes), |attributes|, perms)
  }

  /** Fills one entry per level that a held role mentions. */
  method PermLevels(show: Show, docs: seq<Fields>, roles: seq<string>) returns (levels: map<int, Perm>)
    ensures forall l :: Granted(show, docs, roles, l) == if l in levels then levels[l] else Perm(false, false)
  {
    levels := map[];
    var n := 0;
    while n < |docs|
      invariant n <= |docs|
      invariant forall l :: Granted(show, docs[..n], roles, l) == if l in levels then levels[l] else Perm(false, false)
    {
      var doc := docs[n];
      if Held(show, roles, doc) {
        var lvl := LevelOf(doc);
        if lvl !in levels {
          levels := levels[lvl := Perm(false, false)];
        }
        if Flag(doc, "read") {
          levels := levels[lvl := levels[lvl].(read := true)];
        }
        if Flag(doc, "write") {
          levels := levels[lvl := levels[lvl].(write := true)];
        }
      }
      forall l, right ensures
        Grants(show, docs[..n + 1], roles, l, right)
        <==> Grants(show, docs[..n], roles, l, right)
             || (Held(show, roles, doc) && LevelOf(doc) == l && Flag(doc, right))
      {
        GrantsOneMore(show, docs, roles, l, right, n);
      }
      n := n + 1;
    }
    assert docs[..n] == docs;
  }

  lemma GrantsOneMore(show: Show, docs: seq<Fields>, roles: seq<string>, level: int, right: string, n: nat)
    requires n < |docs|
    ensures Grants(show, docs[..n + 1], roles, level, right)
            <==> Grants(show, docs[..n], roles, level, right)
                 || (Held(show, roles, docs[n]) && LevelOf(docs[n]) == level && Flag(docs[n], right))
  {
    var more, less := docs[..n + 1], docs[..n];
    if i :| 0 <= i < |more| && Held(show, roles, more[i]) && LevelOf(more[i]) == level && Flag(more[i], right) {
      if i < n { assert less[i] == more[i]; }
    }
    if i :| 0 <= i < |less| && Held(show, roles, less[i]) && LevelOf(less[i]) == level && Flag(less[i], right) {
      assert more[i] == less[i];
    }
    assert more[n] == docs[n];
  }

  /** `docs` are the doc-perms whose parent is the entity. */
  method GetFieldPermissions(show: Show, attributes: seq<Attribute>, docs: seq<Fields>, roles: seq<string>)
    returns (perms: map<string, Perm>)
    ensures ArePermissions(show, attributes, docs, roles, perms)
  {
    perms := map[];
    var super := SUPER in roles;
    var levels := PermLevels(show, docs, roles);
    ghost var own := PermsOf(show, docs, roles, attributes);
    var n := 0;
    while n < |attributes|
      invariant n <= |attributes| && DecidedBy(attributes, own, n, perms)
    {
      var lvl := attributes[n].permLevel;
      var perm := if super then Perm(true, true) else if lvl in levels then levels[lvl] else Perm(false, false);
      assert perm == own[n];
      DecideNext(attributes, own, n, perms);
      perms := perms[attributes[n].field := perm];
      n := n + 1;
    }
  }

  lemma DecideNext(attributes: seq<Attribute>, own: seq<Perm>, n: nat, perms: map<string, Perm>)
    requires n < |attributes| == |own| && DecidedBy(attributes, own, n, perms)
    ensures DecidedBy(attributes, own, n + 1, perms[attributes[n].field := own[n]])
  {
    var next := perms[attributes[n].field := own[n]];
    forall i | 0 <= i < n + 1 && IsLastBelow(attributes, i, n + 1)
      ensures next[attributes[i].field] == own[i]
    {
      if i < n {
        assert attributes[n].field != attributes[i].field;
        assert IsLastBelow(attributes, i, n);
      }
    }
  }

  /** A stored doc-perm of one of the roles, at the level, whose right is true or the number one. */
  ghost predicate DocGrants(show: Show, doc: Fields, roles: seq<string>, level: int, right: string) {
    && show(if "role" in doc then doc["role"] else Null) in roles
    && level == (if "permlevel" in doc && doc["permlevel"].Num? then doc["permlevel"].n else 0)
    && right in doc && doc[right] in {Bool(true), Num(1)}
  }

  /** The super role, or some stored doc-perm. */
  ghost predicate HasRight(show: Show, docs: seq<Fields>, roles: seq<string>, level: int, right: string) {
    "sa" in roles || exists i :: 0 <= i < |docs| && DocGrants(show, docs[i], roles, level, right)
  }

  /**
   In terms of the stored documents: the last attribute of a field decides, by its level, and
   gives exactly the rights that some stored doc-perm grants at that level.
   */
  lemma FieldRights(show: Show, attributes: seq<Attribute>, docs: seq<Fields>, roles: seq<string>,
                    perms: map<string, Perm>, i: nat)
    requires ArePermissions(show, attributes, docs, roles, perms)
    requires i < |attributes| && forall j :: i < j < |attributes| ==> attributes[j].field != attributes[i].field
    ensures
      var f, level := attributes[i].field, attributes[i].permLevel;
      && f in perms
      && (perms[f].read <==> HasRight(show, docs, roles, level, "read"))
      && (perms[f].write <==> HasRight(show, docs, roles, level, "write"))
  {
    assert IsLastBelow(attributes, i, |attributes|);
    GrantsIff(show, docs, roles, attributes[i].permLevel, "read");
    GrantsIff(show, docs, roles, attributes[i].permLevel, "write");
  }

  lemma GrantsIff(show: Show, docs: seq<Fields>, roles: seq<string>, level: int, right: string)
    ensures Grants(show, docs, roles, level, right)
            <==> exists i :: 0 <= i < |docs| && DocGrants(show, docs[i], roles, level, right)
  {
    forall i | 0 <= i < |docs|
      ensures Held(show, roles, docs[i]) && LevelOf(docs[i]) == level && Flag(docs[i], right)
              <==> DocGrants(show, docs[i], roles, level, right)
    {
    }
  }

  /** Holding more roles never takes a permission away. */
  lemma RolesMonotone(show: Show, attributes: seq<Attribute>, docs: seq<Fields>,
                      roles: seq<string>, more: seq<string>,
                      perms: map<string, Perm>, perms': map<string, Perm>, f: string)
    requires forall r :: r in roles ==> r in more
    requires ArePermissions(show, attributes, docs, roles, perms)
    requires ArePermissions(show, attributes, docs, more, perms')
    ensures f in perms <==> f in perms'
    ensures f in perms && f in perms' ==>
              (perms[f].read ==> perms'[f].read) && (perms[f].write ==> perms'[f].write)
  {
    if f in perms {
      var i :| 0 <= i < |attributes| && attributes[i].field == f;
      var last := LastOf(attributes, i);
      var level := attributes[last].permLevel;
      GrantsMonotone(show, docs, roles, more, level, "read");
      GrantsMonotone(show, docs, roles, more, level, "write");
    }
  }

  lemma GrantsMonotone(show: Show, docs: seq<Fields>, roles: seq<string>, more: seq<string>, level: int, right: string)
    requires forall r :: r in roles ==> r in more
    ensures Grants(show, docs, roles, level, right) ==> Grants(show, docs, more, level, right)
  {
  }

  lemma {:induction false} LastOf(attributes: seq<Attribute>, i: nat) returns (last: nat)
    requires i < |attributes|
    ensures i <= last < |attributes| && attributes[last].field == attributes[i].field
    ensures IsLastBelow(attributes, last, |attributes|)
    decreases |attributes| - i
  {
    if j :| i < j < |attributes| && attributes[j].field == attributes[i].field {
      last := LastOf(attributes, j);
    } else {
      last := i;
    }
  }
}
