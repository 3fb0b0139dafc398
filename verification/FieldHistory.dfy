/** What becomes of a single field in an upgrade. */
module FieldHistory {
  import opened Wrappers
  import opened Evolution

  /** What a field holds after `actions`, found by going back through them. */
  function ValueAfter(actions: seq<Action>, rec: Fields, f: string): Option<Value> {
    if actions == [] then
      if f in rec then Some(rec[f]) else None
    else
      var before, last := actions[..|actions| - 1], actions[|actions| - 1];
      var kept := ValueAfter(before, rec, f);
      match last
      case Rename(from, to) =>
        var moved := ValueAfter(before, rec, from);
        if f == from then None else if f == to && moved.Some? then moved else kept
      case Add(field, default) => if f == field && kept.None? then Some(default) else kept
      case Drop(field) => if f == field then None else kept
      case Other(_) => kept
  }

  ghost predicate Holds(rec: Fields, f: string, value: Option<Value>) {
    if value.Some? then f in rec && rec[f] == value.value else f !in rec
  }

  /** Applying the actions one after the other gives every field the value so found. */
  lemma {:induction false} FieldsFollowBack(actions: seq<Action>, rec: Fields, f: string)
    ensures Holds(ApplyAll(actions, rec), f, ValueAfter(actions, rec, f))
    decreases |actions|
  {
    if actions != [] {
      var n := |actions| - 1;
      SplitAt(actions, rec, n);
      assert actions[..n + 1] == actions;
      FieldsFollowBack(actions[..n], rec, f);
      if actions[n].Rename? { FieldsFollowBack(actions[..n], rec, actions[n].from); }
    }
  }

  /** No action from `i` on mentions the field. */
  ghost predicate UnmentionedFrom(actions: seq<Action>, i: nat, f: string) {
    forall j :: i <= j < |actions| ==> !ActsOn(actions[j], f)
  }

  lemma KeptToTheEnd(actions: seq<Action>, rec: Fields, i: nat, f: string)
    requires i < |actions| && UnmentionedFrom(actions, i + 1, f)
    ensures
      var next, end := Apply(actions[i], ApplyAll(actions[..i], rec)), ApplyAll(actions, rec);
      (f in end <==> f in next) && (f in end ==> end[f] == next[f])
  {
    SplitAt(actions, rec, i);
    var rest := actions[i + 1..];
    forall j | 0 <= j < |rest| ensures f !in Removes(rest[j]) + Introduces(rest[j]) {
      assert !ActsOn(actions[i + 1 + j], f);
    }
    UntouchedField(rest, ApplyAll(actions[..i + 1], rec), f);
  }

  /** The data in the middle of an upgrade, before the `i`-th pending action. */
  function Midway(order: seq<Version>, rec: Fields, stamp: Stamp, i: nat): Fields
    requires i <= |Flatten(Missing(order, stamp))|
  {
    ApplyAll(Flatten(Missing(order, stamp))[..i], rec)
  }

  /**
   An upgrade gives an added field its default, whatever that is, if the field was absent, and
   keeps its value if it was present; as long as no later action mentions it.
   */
  lemma AddedField(order: seq<Version>, rec: Fields, stamp: Stamp, i: nat, f: string, default: Value)
    requires
      var actions := Flatten(Missing(order, stamp));
      i < |actions| && actions[i] == Add(f, default) && UnmentionedFrom(actions, i + 1, f)
    ensures
      var before := Midway(order, rec, stamp, i);
      Holds(Evolve(order, rec, stamp), f, Some(if f in before then before[f] else default))
  {
    KeptToTheEnd(Flatten(Missing(order, stamp)), rec, i, f);
  }

  /** A renamed field's value ends up under the new name, even if that was in use, and only there. */
  lemma RenamedField(order: seq<Version>, rec: Fields, stamp: Stamp, i: nat, from: string, to: string)
    requires from != to && i < |Flatten(Missing(order, stamp))|
    requires
      var actions := Flatten(Missing(order, stamp));
      actions[i] == Rename(from, to) && from in Midway(order, rec, stamp, i)
    ensures
      var actions, before := Flatten(Missing(order, stamp)), Midway(order, rec, stamp, i);
      && (UnmentionedFrom(actions, i + 1, to) ==> Holds(Evolve(order, rec, stamp), to, Some(before[from])))
      && (UnmentionedFrom(actions, i + 1, from) ==> from !in Evolve(order, rec, stamp))
  {
    var actions := Flatten(Missing(order, stamp));
    if UnmentionedFrom(actions, i + 1, to) { KeptToTheEnd(actions, rec, i, to); }
    if UnmentionedFrom(actions, i + 1, from) { KeptToTheEnd(actions, rec, i, from); }
  }

  /** Renaming a field that is not there changes nothing. */
  lemma RenamedNothing(order: seq<Version>, rec: Fields, stamp: Stamp, i: nat, from: string, to: string, f: string)
    requires i < |Flatten(Missing(order, stamp))|
    requires
      var actions := Flatten(Missing(order, stamp));
      && actions[i] == Rename(from, to) && from !in Midway(order, rec, stamp, i)
      && UnmentionedFrom(actions, i + 1, f)
    ensures
      var before := Midway(order, rec, stamp, i);
      Holds(Evolve(order, rec, stamp), f, if f in before then Some(before[f]) else None)
  {
    KeptToTheEnd(Flatten(Missing(order, stamp)), rec, i, f);
  }

  lemma DroppedField(order: seq<Version>, rec: Fields, stamp: Stamp, i: nat, f: string)
    requires
      var actions := Flatten(Missing(order, stamp));
      i < |actions| && actions[i] == Drop(f) && UnmentionedFrom(actions, i + 1, f)
    ensures f !in Evolve(order, rec, stamp)
  {
    KeptToTheEnd(Flatten(Missing(order, stamp)), rec, i, f);
  }
}
