/**
 * The JSON patch algebra of edge-util: `Merge` applies a patch to a baseline,
 * `Diff` computes the patch between two documents.
 *
 * An object is a map from names to values: equality of two objects does not
 * look at the order of their properties, and neither do the loops below, which
 * take the properties of an object in any order.
 */
module JsonEx {
  import opened Wrappers

  datatype Json =
    | Null
    | Bool(b: bool)
    | Int(n: int)
    | Float(r: real)
    | Str(s: string)
    | Date(ticks: int)
    | Arr(items: seq<Json>)
    | Obj(props: map<string, Json>)
    | Other(kind: string)  // a token kind that neither Merge nor Diff accepts

  datatype Error = UnsupportedType

  predicate IsValidToken(token: Json) {
    !token.Other?
  }

  /** The value of property `k`, if `j` is an object that has it. */
  function At(j: Json, k: string): Option<Json> {
    if j.Obj? && k in j.props then Some(j.props[k]) else None
  }

  lemma SameProperties(a: Json, b: Json)
    requires a.Obj? && b.Obj?
    ensures a == b <==> forall k :: At(a, k) == At(b, k)
  {
    if forall k :: At(a, k) == At(b, k) {
      forall k
        ensures k in a.props <==> k in b.props
        ensures k in a.props && k in b.props ==> a.props[k] == b.props[k]
      {
        assert At(a, k) == At(b, k);
      }
      assert a.props == b.props;
    }
  }

  // ---------------------------------------------------------------- paths

  /** The value at the end of a path of object keys. */
  function Follow(j: Json, path: seq<string>): Option<Json>
    decreases |path|
  {
    if path == [] then Some(j)
    else
      match At(j, path[0])
      case None => None
      case Some(x) => Follow(x, path[1..])
  }

  /** The path is in both documents and ends in objects. */
  ghost predicate Shared(a: Json, b: Json, path: seq<string>) {
    && Follow(a, path).Some? && Follow(a, path).value.Obj?
    && Follow(b, path).Some? && Follow(b, path).value.Obj?
  }

  /** The object at the end of the path has a property of an unsupported type. */
  ghost predicate Unsupported(j: Json, path: seq<string>, k: string) {
    Follow(j, path).Some? && At(Follow(j, path).value, k).Some? && At(Follow(j, path).value, k).value.Other?
  }

  // ---------------------------------------------------------------- Merge

  /** No property that a merge of `p` into `b` visits has an unsupported type. */
  predicate Mergeable(b: Json, p: Json)
    decreases p, 1
  {
    b.Obj? && p.Obj? ==> forall k <- p.props :: MergeableAt(b, p, k)
  }

  predicate MergeableAt(b: Json, p: Json, k: string)
    requires b.Obj? && p.Obj? && k in p.props
    decreases p, 0
  {
    IsValidToken(p.props[k]) && (k in b.props ==> Mergeable(b.props[k], p.props[k]))
  }

  /** Some path that both have leads to a property of the patch that is of an unsupported type. */
  ghost predicate MergeMeetsOther(b: Json, p: Json) {
    exists path, k :: Shared(b, p, path) && Unsupported(p, path, k)
  }

  lemma {:induction false} MergeableHasNoOther(b: Json, p: Json, path: seq<string>, k: string)
    requires Mergeable(b, p) && Shared(b, p, path)
    ensures !Unsupported(p, path, k)
    decreases |path|
  {
    if path == [] {
      assert k in p.props ==> MergeableAt(b, p, k);
    } else {
      assert MergeableAt(b, p, path[0]);
      MergeableHasNoOther(b.props[path[0]], p.props[path[0]], path[1..], k);
    }
  }

  lemma {:induction false} UnmergeableMeetsOther(b: Json, p: Json)
    requires !Mergeable(b, p)
    ensures MergeMeetsOther(b, p)
    decreases p
  {
    var k :| k in p.props && !MergeableAt(b, p, k);
    if p.props[k].Other? {
      assert Shared(b, p, []) && Unsupported(p, [], k);
    } else {
      UnmergeableMeetsOther(b.props[k], p.props[k]);
      var path, l :| Shared(b.props[k], p.props[k], path) && Unsupported(p.props[k], path, l);
      assert ([k] + path)[1..] == path;
      assert Shared(b, p, [k] + path) && Unsupported(p, [k] + path, l);
    }
  }

  lemma MergeableIff(b: Json, p: Json)
    ensures Mergeable(b, p) <==> !MergeMeetsOther(b, p)
  {
    if !Mergeable(b, p) {
      UnmergeableMeetsOther(b, p);
    } else if path, k :| Shared(b, p, path) && Unsupported(p, path, k) {
      MergeableHasNoOther(b, p, path, k);
    }
  }

  /** The document a merge produces when it meets no unsupported type. */
  function Merged(b: Json, p: Json, nullDeletes: bool): (r: Json)
    ensures p.Obj? ==> r.Obj?
    decreases p
  {
    if !p.Obj? || !b.Obj? then p else
    Obj(map k <- b.props.Keys + p.props.Keys
          | !(nullDeletes && k in p.props && p.props[k].Null?) ::
          if k !in p.props then b.props[k]
          else if k in b.props then Merged(b.props[k], p.props[k], nullDeletes)
          else p.props[k])
  }

  lemma MergedProperty(b: Json, p: Json, nullDeletes: bool, k: string)
    requires b.Obj? && p.Obj?
    ensures At(Merged(b, p, nullDeletes), k) ==
            if k !in p.props then At(b, k)
            else if nullDeletes && p.props[k].Null? then None
            else if k in b.props then Some(Merged(b.props[k], p.props[k], nullDeletes))
            else Some(p.props[k])
  {
  }

  method Merge(baseline: Json, patch: Json, nullDeletes: bool) returns (r: Result<Json, Error>)
    ensures r == if Mergeable(baseline, patch)
                 then Success(Merged(baseline, patch, nullDeletes))
                 else Failure(UnsupportedType)
    ensures r.Failure? <==> MergeMeetsOther(baseline, patch)
    decreases patch, 1
  {
    MergeableIff(baseline, patch);
    if !patch.Obj? || !baseline.Obj? {
      return Success(patch);
    }
    var result := baseline.props;
    var todo := patch.props.Keys;
    ghost var target := Merged(baseline, patch, nullDeletes);
    while todo != {}
      invariant todo <= patch.props.Keys
      invariant forall k <- patch.props :: k !in todo ==> MergeableAt(baseline, patch, k)
      invariant forall k :: At(Obj(result), k) ==
                            At(if k in patch.props && k !in todo then target else baseline, k)
    {
      var name :| name in todo;
      ghost var before := result;
      var value := MergeProperty(baseline, patch, name, nullDeletes);
      if value.Failure? {
        return Failure(UnsupportedType);
      }
      result := if value.value.Some? then result[name := value.value.value] else result - {name};
      todo := todo - {name};
      assert forall k :: k != name ==> At(Obj(result), k) == At(Obj(before), k);
    }
    SameProperties(Obj(result), target);
    return Success(Obj(result));
  }

  /** What becomes of one property that the patch names: its new value, or its removal. */
  method MergeProperty(baseline: Json, patch: Json, name: string, nullDeletes: bool)
    returns (r: Result<Option<Json>, Error>)
    requires baseline.Obj? && patch.Obj? && name in patch.props
    ensures r == if MergeableAt(baseline, patch, name)
                 then Success(At(Merged(baseline, patch, nullDeletes), name))
                 else Failure(UnsupportedType)
    decreases patch, 0
  {
    var value := patch.props[name];
    MergedProperty(baseline, patch, nullDeletes, name);
    if !IsValidToken(value) {
      return Failure(UnsupportedType);
    }
    if name in baseline.props && !value.Null? {
      var nested := Merge(baseline.props[name], value, nullDeletes);
      return if nested.Success? then Success(Some(nested.value)) else Failure(UnsupportedType);
    }
    return Success(if nullDeletes && value.Null? then None else Some(value));
  }

  /** The empty patch changes nothing, whichever way nulls are read. */
  lemma MergeOfEmptyPatch(b: Json, nullDeletes: bool)
    requires b.Obj?
    ensures Merged(b, Obj(map[]), nullDeletes) == b
  {
    SameProperties(Merged(b, Obj(map[]), nullDeletes), b);
  }

  // ----------------------------------------------------------------- Diff

  /** No property that a diff of `from` and `to` visits has an unsupported type. */
  predicate Diffable(from: Json, to: Json)
    decreases from, 1
  {
    from.Obj? && to.Obj? ==>
      && (forall k <- from.props :: DiffableAt(from, to, k))
      && (forall k <- to.props :: IsValidToken(to.props[k]))
  }

  predicate DiffableAt(from: Json, to: Json, k: string)
    requires from.Obj? && to.Obj? && k in from.props
    decreases from, 0
  {
    IsValidToken(from.props[k]) && (k in to.props ==> Diffable(from.props[k], to.props[k]))
  }

  /** Some path that both have leads to a property, of the one or the other, of an unsupported type. */
  ghost predicate DiffMeetsOther(from: Json, to: Json) {
    exists path, k :: Shared(from, to, path) && (Unsupported(from, path, k) || Unsupported(to, path, k))
  }

  lemma {:induction false} DiffableHasNoOther(from: Json, to: Json, path: seq<string>, k: string)
    requires Diffable(from, to) && Shared(from, to, path)
    ensures !Unsupported(from, path, k) && !Unsupported(to, path, k)
    decreases |path|
  {
    if path == [] {
      assert k in from.props ==> DiffableAt(from, to, k);
    } else {
      assert DiffableAt(from, to, path[0]);
      DiffableHasNoOther(from.props[path[0]], to.props[path[0]], path[1..], k);
    }
  }

  lemma {:induction false} UndiffableMeetsOther(from: Json, to: Json)
    requires !Diffable(from, to)
    ensures DiffMeetsOther(from, to)
    decreases from
  {
    if k :| k in to.props && to.props[k].Other? {
      assert Shared(from, to, []) && Unsupported(to, [], k);
    } else {
      var k :| k in from.props && !DiffableAt(from, to, k);
      if from.props[k].Other? {
        assert Shared(from, to, []) && Unsupported(from, [], k);
      } else {
        UndiffableMeetsOther(from.props[k], to.props[k]);
        var f, t := from.props[k], to.props[k];
        var path, l :| Shared(f, t, path) && (Unsupported(f, path, l) || Unsupported(t, path, l));
        assert ([k] + path)[1..] == path;
        assert Shared(from, to, [k] + path);
        assert Unsupported(from, [k] + path, l) || Unsupported(to, [k] + path, l);
      }
    }
  }

  lemma DiffableIff(from: Json, to: Json)
    ensures Diffable(from, to) <==> !DiffMeetsOther(from, to)
  {
    if !Diffable(from, to) {
      UndiffableMeetsOther(from, to);
    } else if path, k :| Shared(from, to, path) && (Unsupported(from, path, k) || Unsupported(to, path, k)) {
      DiffableHasNoOther(from, to, path, k);
    }
  }

  /** The entry that the patch holds for property `k`, if any. */
  function Change(from: Json, to: Json, k: string): Option<Json>
    requires from.Obj? && to.Obj?
    decreases from, 0
  {
    if k in from.props then
      if k in to.props then
        if from.props[k].Obj? && to.props[k].Obj? then
          var nested := Diffed(from.props[k], to.props[k]);
          if nested == Obj(map[]) then None else Some(nested)
        else if from.props[k] == to.props[k] then None
        else Some(to.props[k])
      else Some(Null)
    else At(to, k)
  }

  /** The patch a diff produces when it meets no unsupported type. */
  function Diffed(from: Json, to: Json): (patch: Json)
    ensures patch.Obj?
    decreases from, 1
  {
    if !from.Obj? || !to.Obj? then Obj(map[]) else
    Obj(map k <- from.props.Keys + to.props.Keys | Change(from, to, k).Some? ::
          Change(from, to, k).value)
  }

  method Diff(from: Json, to: Json) returns (r: Result<Json, Error>)
    ensures r == if Diffable(from, to) then Success(Diffed(from, to)) else Failure(UnsupportedType)
    ensures r.Failure? <==> DiffMeetsOther(from, to)
    decreases from, 1
  {
    DiffableIff(from, to);
    if !from.Obj? || !to.Obj? {
      return Success(Obj(map[]));
    }
    var patch: map<string, Json> := map[];
    var todo := from.props.Keys;
    while todo != {}
      invariant todo <= from.props.Keys
      invariant forall k <- from.props :: k !in todo ==> DiffableAt(from, to, k)
      invariant forall k :: At(Obj(patch), k) ==
                            if k in from.props && k !in todo then Change(from, to, k) else None
    {
      var name :| name in todo;
      ghost var before := patch;
      var change := DiffProperty(from, to, name);
      if change.Failure? {
        return Failure(UnsupportedType);
      }
      if change.value.Some? {
        patch := patch[name := change.value.value];
      }
      todo := todo - {name};
      assert forall k :: k != name ==> At(Obj(patch), k) == At(Obj(before), k);
    }
    r := DiffAdditions(from, to, patch);
  }

  /** The patch entry for one property of `from`, if there is one. */
  method DiffProperty(from: Json, to: Json, name: string) returns (r: Result<Option<Json>, Error>)
    requires from.Obj? && to.Obj? && name in from.props
    ensures r == if DiffableAt(from, to, name) then Success(Change(from, to, name)) else Failure(UnsupportedType)
    decreases from, 0
  {
    var value := from.props[name];
    if !IsValidToken(value) {
      return Failure(UnsupportedType);
    }
    if name !in to.props {
      return Success(Some(Null));
    }
    if value.Obj? && to.props[name].Obj? {
      var nested := Diff(value, to.props[name]);
      if nested.Failure? {
        return Failure(UnsupportedType);
      }
      return Success(if nested.value == Obj(map[]) then None else Some(nested.value));
    }
    return Success(if value == to.props[name] then None else Some(to.props[name]));
  }

  /** The second pass: the properties that only `to` has. */
  method DiffAdditions(from: Json, to: Json, changes: map<string, Json>) returns (r: Result<Json, Error>)
    requires from.Obj? && to.Obj?
    requires forall k <- from.props :: DiffableAt(from, to, k)
    requires forall k :: At(Obj(changes), k) == if k in from.props then Change(from, to, k) else None
    ensures r == if Diffable(from, to) then Success(Diffed(from, to)) else Failure(UnsupportedType)
  {
    var patch := changes;
    var todo := to.props.Keys;
    while todo != {}
      invariant todo <= to.props.Keys
      invariant forall k <- to.props :: k !in todo ==> IsValidToken(to.props[k])
      invariant forall k :: At(Obj(patch), k) ==
                            if k in from.props || (k in to.props && k !in todo)
                            then Change(from, to, k) else None
    {
      var name :| name in todo;
      ghost var before := patch;
      if !IsValidToken(to.props[name]) {
        return Failure(UnsupportedType);
      }
      if name !in from.props {
        patch := patch[name := to.props[name]];
      }
      todo := todo - {name};
      assert forall k :: k != name ==> At(Obj(patch), k) == At(Obj(before), k);
    }
    SameProperties(Obj(patch), Diffed(from, to));
    return Success(Obj(patch));
  }

  /**
   * The diff of two objects names exactly the properties on which they differ,
   * so it is empty exactly when the objects are deep-equal.
   */
  lemma {:induction false} DiffIsEmptyIffEqual(from: Json, to: Json)
    requires from.Obj? && to.Obj?
    ensures forall k :: At(Diffed(from, to), k) == None <==> At(from, k) == At(to, k)
    ensures Diffed(from, to) == Obj(map[]) <==> from == to
    decreases from
  {
    forall k
      ensures Change(from, to, k) == None <==> At(from, k) == At(to, k)
    {
      if k in from.props && k in to.props && from.props[k].Obj? && to.props[k].Obj? {
        DiffIsEmptyIffEqual(from.props[k], to.props[k]);
      }
    }
    forall k
      ensures At(Diffed(from, to), k) == Change(from, to, k)
    {
    }
    SameProperties(from, to);
    SameProperties(Diffed(from, to), Obj(map[]));
  }

  /** Whenever a diff succeeds, merging its patch back meets no unsupported type. */
  lemma {:induction false} DiffYieldsMergeablePatch(from: Json, to: Json)
    requires Diffable(from, to)
    ensures Mergeable(from, Diffed(from, to))
    decreases from
  {
    if from.Obj? && to.Obj? {
      var patch := Diffed(from, to);
      forall k <- patch.props
        ensures MergeableAt(from, patch, k)
      {
        assert Change(from, to, k) == Some(patch.props[k]);
        if k in from.props && k in to.props {
          DiffYieldsMergeablePatch(from.props[k], to.props[k]);
        }
      }
    }
  }

  // ------------------------------------------------- Merge inverts Diff

  /**
   * Every null in `to` that is reached through keys where both sides are
   * objects is null in `from` as well.
   */
  predicate NullsKept(from: Json, to: Json)
    decreases to
  {
    from.Obj? && to.Obj? ==>
      forall k <- to.props ::
        && (to.props[k].Null? ==> At(from, k) == Some(Null))
        && (k in from.props ==> NullsKept(from.props[k], to.props[k]))
  }

  /**
   * Patching `from` with the diff gives `to` exactly when no null of `to` would
   * have to be introduced: a null in a patch deletes, it cannot set. Between
   * tokens that are not both objects the diff is the empty object, which gives
   * `to` back only when it replaces a non-object by the empty object.
   */
  lemma {:induction false} MergeInvertsDiff(from: Json, to: Json)
    ensures Merged(from, Diffed(from, to), true) == to <==>
            if from.Obj? && to.Obj? then NullsKept(from, to)
            else !from.Obj? && to == Obj(map[])
    decreases from
  {
    if !from.Obj? || !to.Obj? {
      if from.Obj? {
        MergeOfEmptyPatch(from, true);
      }
      return;
    }
    var patch := Diffed(from, to);
    var result := Merged(from, patch, true);
    forall k
      ensures At(result, k) == At(to, k) <==>
              (k in to.props ==>
                 && (to.props[k].Null? ==> At(from, k) == Some(Null))
                 && (k in from.props ==> NullsKept(from.props[k], to.props[k])))
    {
      assert At(patch, k) == Change(from, to, k);
      MergedProperty(from, patch, true, k);
      if k in from.props && k in to.props && from.props[k].Obj? && to.props[k].Obj? {
        MergeInvertsDiff(from.props[k], to.props[k]);
        DiffIsEmptyIffEqual(from.props[k], to.props[k]);
        MergeOfEmptyPatch(from.props[k], true);
      }
    }
    SameProperties(result, to);
  }

  /** No property at any object depth is of an unsupported type. */
  predicate Supported(j: Json) {
    j.Obj? ==> forall k <- j.props :: !j.props[k].Other? && Supported(j.props[k])
  }

  lemma {:induction false} SupportedAlong(j: Json, path: seq<string>, k: string)
    requires Supported(j)
    ensures !Unsupported(j, path, k)
    decreases |path|
  {
    if path != [] && At(j, path[0]).Some? {
      SupportedAlong(j.props[path[0]], path[1..], k);
    }
  }

  /**
   * Patching `from` with the diff to `to`: it fails exactly when the diff meets
   * an unsupported type, so never between documents without one, and else it
   * gives `to` exactly when no null would have to be introduced.
   */
  method DiffThenMerge(from: Json, to: Json) returns (r: Result<Json, Error>)
    requires from.Obj? && to.Obj?
    ensures r.Failure? <==> DiffMeetsOther(from, to)
    ensures Supported(from) && Supported(to) ==> r.Success?
    ensures r.Success? ==> (r.value == to <==> NullsKept(from, to))
  {
    forall path, k
      ensures Supported(from) ==> !Unsupported(from, path, k)
      ensures Supported(to) ==> !Unsupported(to, path, k)
    {
      if Supported(from) {
        SupportedAlong(from, path, k);
      }
      if Supported(to) {
        SupportedAlong(to, path, k);
      }
    }
    r := Diff(from, to);
    if r.Success? {
      DiffableIff(from, to);
      DiffYieldsMergeablePatch(from, to);
      MergeInvertsDiff(from, to);
      MergeableIff(from, r.value);
      r := Merge(from, r.value, true);
    }
  }

  // ------------------------------------- Merge against RFC 7396, section 2

  /** The MergePatch algorithm of section 2 of RFC 7396; an absent target is Null. */
  function MergePatch(target: Json, patch: Json): Json
    decreases patch
  {
    if !patch.Obj? then patch else
    var t := if target.Obj? then target.props else map[];
    Obj(map k <- t.Keys + patch.props.Keys
          | !(k in patch.props && patch.props[k].Null?) ::
          if k !in patch.props then t[k]
          else MergePatch(if k in t then t[k] else Null, patch.props[k]))
  }

  /** No null at any object depth of `p`. */
  predicate NullFree(p: Json) {
    p.Obj? ==> forall k <- p.props :: !p.props[k].Null? && NullFree(p.props[k])
  }

  /** Every patch sub-object that holds a null lands on a baseline object. */
  predicate NullsLand(b: Json, p: Json)
    decreases p
  {
    p.Obj? ==>
      if b.Obj? then
        forall k <- p.props :: NullsLand(if k in b.props then b.props[k] else Null, p.props[k])
      else NullFree(p)
  }

  lemma {:induction false} MergePatchOntoNonObject(t: Json, p: Json)
    requires !t.Obj?
    ensures MergePatch(t, p) == p <==> NullFree(p)
    decreases p
  {
    if p.Obj? {
      forall k
        ensures At(MergePatch(t, p), k) == At(p, k) <==>
                (k in p.props ==> !p.props[k].Null? && NullFree(p.props[k]))
      {
        if k in p.props {
          MergePatchOntoNonObject(Null, p.props[k]);
        }
      }
      SameProperties(MergePatch(t, p), p);
    }
  }

  lemma {:induction false} MergeOntoItself(p: Json)
    ensures Merged(p, p, true) == p <==> NullFree(p)
  {
    if p.Obj? {
      forall k
        ensures At(Merged(p, p, true), k) == At(p, k) <==>
                (k in p.props ==> !p.props[k].Null? && NullFree(p.props[k]))
      {
        if k in p.props {
          MergeOntoItself(p.props[k]);
        }
      }
      SameProperties(Merged(p, p, true), p);
    }
  }

  /**
   * With null read as delete, Merge is the standard MergePatch exactly when
   * every patch sub-object that holds a null lands on a baseline object.
   * Elsewhere Merge copies the sub-object with its nulls, the standard strips them.
   */
  lemma {:induction false} MergeIsMergePatchIffNullsLand(b: Json, p: Json)
    ensures Merged(b, p, true) == MergePatch(b, p) <==> NullsLand(b, p)
    decreases p
  {
    if p.Obj? && b.Obj? {
      forall k
        ensures At(Merged(b, p, true), k) == At(MergePatch(b, p), k) <==>
                (k in p.props ==> NullsLand(if k in b.props then b.props[k] else Null, p.props[k]))
      {
        if k in p.props {
          MergeIsMergePatchIffNullsLand(if k in b.props then b.props[k] else Null, p.props[k]);
        }
      }
      SameProperties(Merged(b, p, true), MergePatch(b, p));
    } else if p.Obj? {
      MergePatchOntoNonObject(b, p);
    }
  }

  /** The same condition decides whether applying a patch twice is applying it once. */
  lemma {:induction false} MergeIsIdempotentIffNullsLand(b: Json, p: Json)
    ensures var once := Merged(b, p, true);
            Merged(once, p, true) == once <==> NullsLand(b, p)
    decreases p
  {
    var once := Merged(b, p, true);
    if p.Obj? && b.Obj? {
      forall k
        ensures At(Merged(once, p, true), k) == At(once, k) <==>
                (k in p.props ==> NullsLand(if k in b.props then b.props[k] else Null, p.props[k]))
      {
        if k in p.props {
          MergeIsIdempotentIffNullsLand(if k in b.props then b.props[k] else Null, p.props[k]);
        }
      }
      SameProperties(Merged(once, p, true), once);
    } else if p.Obj? {
      MergeOntoItself(p);
    }
  }

  /** With null kept as a value, applying a patch twice is always applying it once. */
  lemma {:induction false} MergeKeepingNullsIsIdempotent(b: Json, p: Json)
    ensures var once := Merged(b, p, false);
            Merged(once, p, false) == once
    decreases p
  {
    var once := Merged(b, p, false);
    if p.Obj? {
      forall k
        ensures At(Merged(once, p, false), k) == At(once, k)
      {
        if k in p.props {
          MergeKeepingNullsIsIdempotent(if b.Obj? && k in b.props then b.props[k] else Null, p.props[k]);
        }
      }
      SameProperties(Merged(once, p, false), once);
    }
  }

  /** Every null at an object depth of `j` replaced by `x`. */
  function Filled(j: Json, x: Json): Json {
    match j
    case Null => x
    case Obj(props) => Obj(map k <- props :: Filled(props[k], x))
    case _ => j
  }

  lemma {:induction false} NullFreeLands(b: Json, p: Json)
    requires NullFree(p)
    ensures NullsLand(b, p)
    decreases p
  {
    if p.Obj? && b.Obj? {
      forall k <- p.props
        ensures NullsLand(if k in b.props then b.props[k] else Null, p.props[k])
      {
        NullFreeLands(if k in b.props then b.props[k] else Null, p.props[k]);
      }
    }
  }

  lemma {:induction false} FilledIsNullFree(j: Json, x: Json)
    requires !x.Null? && !x.Obj?
    ensures NullFree(Filled(j, x)) && !Filled(j, x).Null?
    decreases j
  {
    if j.Obj? {
      forall k <- j.props
        ensures NullFree(Filled(j.props[k], x)) && !Filled(j.props[k], x).Null?
      {
        FilledIsNullFree(j.props[k], x);
      }
    }
  }

  lemma {:induction false} FillingCommutes(b: Json, p: Json, x: Json)
    requires !x.Null? && !x.Obj?
    ensures Filled(Merged(b, p, false), x) == Merged(Filled(b, x), Filled(p, x), true)
    decreases p
  {
    if b.Obj? && p.Obj? {
      var filled, merged := Filled(Merged(b, p, false), x), Merged(Filled(b, x), Filled(p, x), true);
      forall k
        ensures At(filled, k) == At(merged, k)
      {
        if k in p.props {
          FilledIsNullFree(p.props[k], x);
          if k in b.props {
            FillingCommutes(b.props[k], p.props[k], x);
          }
        }
      }
      SameProperties(filled, merged);
    }
  }

  /**
   * With null kept as a value, Merge is the standard MergePatch on documents in
   * which something else stands for null, whatever that is.
   */
  lemma MergeKeepingNullsIsMergePatch(b: Json, p: Json, x: Json)
    requires !x.Null? && !x.Obj?
    ensures Filled(Merged(b, p, false), x) == MergePatch(Filled(b, x), Filled(p, x))
  {
    FillingCommutes(b, p, x);
    FilledIsNullFree(p, x);
    NullFreeLands(Filled(b, x), Filled(p, x));
    MergeIsMergePatchIffNullsLand(Filled(b, x), Filled(p, x));
  }

  // ------------------------------------------------------------- inputs that fail

  /**
   * Into an empty document, the patch that deletes a property of a missing
   * object is copied as it stands. The standard leaves the object empty, and so
   * does applying the patch once more.
   */
  lemma DeletionInMissingObjectIsCopied(outer: string, inner: string)
    ensures var empty, p := Obj(map[]), Obj(map[outer := Obj(map[inner := Null])]);
            && Merged(empty, p, true) == p
            && MergePatch(empty, p) == Merged(p, p, true) == Obj(map[outer := empty]) != p
  {
    var empty, inside := Obj(map[]), Obj(map[inner := Null]);
    var p := Obj(map[outer := inside]);
    SameProperties(Merged(empty, p, true), p);
    SameProperties(Merged(inside, inside, true), empty);
    SameProperties(Merged(p, p, true), Obj(map[outer := empty]));
    SameProperties(MergePatch(Null, inside), empty);
    SameProperties(MergePatch(empty, p), Obj(map[outer := empty]));
    assert At(inside, inner) != At(empty, inner);
    assert At(p, outer) != At(Obj(map[outer := empty]), outer);
  }

  /** The patch from an empty document to one with a null property deletes that property. */
  lemma NullPropertyIsNotDiffed(name: string)
    ensures var from, to := Obj(map[]), Obj(map[name := Null]);
            Diffed(from, to) == to && Merged(from, to, true) == from != to
  {
    var from, to := Obj(map[]), Obj(map[name := Null]);
    SameProperties(Diffed(from, to), to);
    SameProperties(Merged(from, to, true), from);
    assert At(to, name) != At(from, name);
  }
}
