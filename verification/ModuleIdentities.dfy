/** Sets of modules, and the difference between two of them. */
module ModuleSets {

  datatype Status = Unknown | Backoff | Running | Unhealthy | Stopped | Failed

  const UNKNOWN := "Unknown"

  /**
   * `settings` stands for everything else that equality compares (version, type,
   * config, policies, environment); `info` is left out of the comparison. All
   * unknown modules look alike, and are told apart by their reference only.
   */
  datatype Module =
    | Module(name: string, status: Status, settings: string, info: string)
    | UnknownModule(reference: nat)
  {
    function Name(): string {
      if Module? then name else UNKNOWN
    }
  }

  predicate SameModule(a: Module, b: Module) {
    if a.UnknownModule? then a == b
    else b.Module? && a.name == b.name && a.status == b.status && a.settings == b.settings
  }

  /** An unknown module counts as changed in its status beside every unknown module, itself included. */
  predicate IsOnlyModuleStatusChanged(a: Module, b: Module) {
    if a.UnknownModule? then b.UnknownModule?
    else b.Module? && a.name == b.name && a.status != b.status && a.settings == b.settings
  }

  /**
   * Known modules are the same when they differ in their info at most, and only
   * the status has changed when they differ in it and would else be the same.
   * Unknown modules are the same when they are one.
   */
  lemma ModulesCompare(a: Module, b: Module)
    ensures a.Module? && b.Module? ==>
              && (SameModule(a, b) <==> a.(info := b.info) == b)
              && (IsOnlyModuleStatusChanged(a, b) <==>
                  a.status != b.status && a.(status := b.status, info := b.info) == b)
    ensures !(a.Module? && b.Module?) ==>
              && (SameModule(a, b) <==> a == b)
              && (IsOnlyModuleStatusChanged(a, b) <==> a.UnknownModule? && b.UnknownModule?)
  {
  }

  type ModuleSet = map<string, Module>

  datatype Diff = Diff(added: set<Module>, updated: set<Module>, statusUpdated: set<Module>, removed: set<string>)

  function StatusChangedKeys(desired: ModuleSet, current: ModuleSet): set<string> {
    set k <- desired.Keys * current.Keys | IsOnlyModuleStatusChanged(desired[k], current[k])
  }

  function StatusChangedNames(desired: ModuleSet, current: ModuleSet): set<string> {
    set k <- StatusChangedKeys(desired, current) :: desired[k].Name()
  }

  /** The names, not the keys, of the status changes are what the update list leaves out. */
  function UpdatedKeys(desired: ModuleSet, current: ModuleSet): set<string> {
    set k <- desired.Keys * current.Keys - StatusChangedNames(desired, current) | !SameModule(desired[k], current[k])
  }

  function DiffOf(desired: ModuleSet, current: ModuleSet): Diff {
    Diff(
      set k <- desired.Keys - current.Keys :: desired[k],
      set k <- UpdatedKeys(desired, current) :: desired[k],
      set k <- StatusChangedKeys(desired, current) :: desired[k],
      current.Keys - desired.Keys)
  }

  predicate IsEmpty(d: Diff) {
    d.added == {} && d.updated == {} && d.statusUpdated == {} && d.removed == {}
  }

  /** Equal sizes, and every entry of the one found in the other. */
  predicate SameModuleSet(x: ModuleSet, y: ModuleSet) {
    |x.Keys| == |y.Keys| && forall k <- x :: k in y && SameModule(x[k], y[k])
  }

  lemma SubsetOfSameSize(a: set<string>, b: set<string>)
    requires a <= b && |a| == |b|
    ensures a == b
  {
    assert b == a + (b - a);
    assert |b - a| == 0;
  }

  /** Every module of the set is known. */
  predicate AllKnown(s: ModuleSet) {
    forall k <- s :: s[k].Module?
  }

  /** The difference is empty exactly when the two sets compare equal and have no unknown module. */
  lemma DiffIsEmptyIffEqual(desired: ModuleSet, current: ModuleSet)
    ensures IsEmpty(DiffOf(desired, current)) <==> SameModuleSet(desired, current) && AllKnown(desired)
  {
    var d := DiffOf(desired, current);
    if SameModuleSet(desired, current) {
      SubsetOfSameSize(desired.Keys, current.Keys);
      if k :| k in desired && desired[k].UnknownModule? {
        assert k in StatusChangedKeys(desired, current);
        assert desired[k] in d.statusUpdated;
      }
    } else if k :| k in desired && k !in current {
      assert desired[k] in d.added;
    } else if k :| k in current && k !in desired {
      assert k in d.removed;
    } else {
      assert desired.Keys == current.Keys;
      if k :| k in StatusChangedKeys(desired, current) {
        assert desired[k] in d.statusUpdated;
      } else {
        var k :| k in desired && !SameModule(desired[k], current[k]);
        assert k in UpdatedKeys(desired, current);
        assert desired[k] in d.updated;
      }
    }
  }

  ghost predicate WellNamed(s: ModuleSet) {
    forall k <- s :: s[k].Name() == k
  }

  /** What happens to a key of the desired set. */
  datatype Change = Addition | StatusOnly | Other | NoChange

  function ChangeOf(desired: ModuleSet, current: ModuleSet, k: string): Change
    requires k in desired
  {
    if k !in current then Addition
    else if IsOnlyModuleStatusChanged(desired[k], current[k]) then StatusOnly
    else if SameModule(desired[k], current[k]) then NoChange
    else Other
  }

  /** The module of key `k` is in the list that its change calls for, and in no other. */
  ghost predicate ListedRight(desired: ModuleSet, current: ModuleSet, k: string)
    requires k in desired
  {
    var d, change := DiffOf(desired, current), ChangeOf(desired, current, k);
    && (desired[k] in d.added <==> change.Addition?)
    && (desired[k] in d.statusUpdated <==> change.StatusOnly?)
    && (desired[k] in d.updated <==> change.Other?)
  }

  /** The lists tell for each key what happens to its module. */
  ghost predicate DiffIsRight(desired: ModuleSet, current: ModuleSet) {
    forall k <- desired :: ListedRight(desired, current, k)
  }

  /** Equal modules under several keys change alike. */
  ghost predicate EqualsChangeAlike(desired: ModuleSet, current: ModuleSet) {
    forall k, l :: k in desired && l in desired && desired[k] == desired[l] ==>
      ChangeOf(desired, current, k) == ChangeOf(desired, current, l)
  }

  /** Each key with a change of status alone is the name of a module with one, or holds the same unknown module. */
  ghost predicate StatusChangesAreNamed(desired: ModuleSet, current: ModuleSet) {
    forall k <- StatusChangedKeys(desired, current) ::
      k in StatusChangedNames(desired, current) || SameModule(desired[k], current[k])
  }

  /** Each module with other changes has a key that is not the name of a module with a change of status alone. */
  ghost predicate OtherChangesAreNot(desired: ModuleSet, current: ModuleSet) {
    forall k <- desired :: ChangeOf(desired, current, k).Other? ==>
      exists l :: l in desired && desired[l] == desired[k] && l !in StatusChangedNames(desired, current)
  }

  /**
   * The lists tell for each key what happens to its module exactly when equal
   * modules change alike, each change of status alone goes by its own name or is
   * none, and no other change goes only by the name of such a one.
   */
  lemma DiffIsRightIff(desired: ModuleSet, current: ModuleSet)
    ensures DiffIsRight(desired, current) <==>
            && EqualsChangeAlike(desired, current)
            && StatusChangesAreNamed(desired, current)
            && OtherChangesAreNot(desired, current)
  {
  }

  ghost function Names(modules: set<Module>): set<string> {
    set m <- modules :: m.Name()
  }

  ghost function UnchangedKeys(desired: ModuleSet, current: ModuleSet): set<string> {
    set k <- desired.Keys * current.Keys | ChangeOf(desired, current, k).NoChange?
  }

  lemma ListedNames(desired: ModuleSet, current: ModuleSet)
    requires WellNamed(desired)
    ensures var d := DiffOf(desired, current);
            && Names(d.added) == desired.Keys - current.Keys
            && Names(d.statusUpdated) == StatusChangedKeys(desired, current)
            && Names(d.updated) == UpdatedKeys(desired, current)
            && StatusChangedNames(desired, current) == StatusChangedKeys(desired, current)
  {
    NamesOfListed(desired, desired.Keys - current.Keys);
    NamesOfListed(desired, StatusChangedKeys(desired, current));
    NamesOfListed(desired, UpdatedKeys(desired, current));
    assert forall k <- StatusChangedKeys(desired, current) :: desired[k].Name() == k;
  }

  lemma NamesOfListed(desired: ModuleSet, keys: set<string>)
    requires WellNamed(desired) && keys <= desired.Keys
    ensures Names(set k <- keys :: desired[k]) == keys
  {
    var listed := set k <- keys :: desired[k];
    forall k <- keys
      ensures k in Names(listed)
    {
      assert desired[k] in listed && desired[k].Name() == k;
    }
  }

  /**
   * For sets keyed by module name, the lists are right, and the names in the
   * four lists and the unchanged keys partition the keys of both sets.
   */
  lemma DiffPartitions(desired: ModuleSet, current: ModuleSet)
    requires WellNamed(desired)
    ensures DiffIsRight(desired, current)
    ensures var d := DiffOf(desired, current);
            var added, updated, status := Names(d.added), Names(d.updated), Names(d.statusUpdated);
            var same := UnchangedKeys(desired, current);
            && added + updated + status + d.removed + same == desired.Keys + current.Keys
            && added !! updated !! status !! d.removed !! same
  {
    ListedNames(desired, current);
    forall k <- desired | ChangeOf(desired, current, k).Other?
      ensures exists l :: l in desired && desired[l] == desired[k] && l !in StatusChangedNames(desired, current)
    {
      assert k !in StatusChangedKeys(desired, current);
    }
    DiffIsRightIff(desired, current);
  }

  /** Under a key that is not its name, a module whose status alone changed is listed as updated as well. */
  lemma MisnamedStatusChangeIsListedTwice(m: Module)
    requires m.Module? && m.name != "a" && m.status == Running
    ensures var desired, current := map["a" := m], map["a" := m.(status := Stopped)];
            && !DiffIsRight(desired, current)
            && m in DiffOf(desired, current).statusUpdated && m in DiffOf(desired, current).updated
  {
    var desired, current := map["a" := m], map["a" := m.(status := Stopped)];
    assert StatusChangedKeys(desired, current) == {"a"};
    assert "a" in UpdatedKeys(desired, current);
    assert desired["a"] in DiffOf(desired, current).updated;
    assert !ListedRight(desired, current, "a");
  }

  /** An unknown module is listed as changed in its status even where a set is compared with itself. */
  lemma UnknownModuleIsAlwaysListed(s: ModuleSet, k: string)
    requires k in s && s[k].UnknownModule?
    ensures SameModuleSet(s, s) && s[k] in DiffOf(s, s).statusUpdated && DiffOf(s, s).updated == {}
  {
    assert k in StatusChangedKeys(s, s);
    assert UpdatedKeys(s, s) == {};
  }
}

/** Module names and the names of their identities. */
module ModuleIdentityNames {

  const EDGE_HUB := "edgeHub"
  const EDGE_AGENT := "edgeAgent"
  const EDGE_HUB_IDENTITY := "$edgeHub"
  const EDGE_AGENT_IDENTITY := "$edgeAgent"

  function IdentityName(moduleName: string): string {
    if moduleName == EDGE_HUB then EDGE_HUB_IDENTITY
    else if moduleName == EDGE_AGENT then EDGE_AGENT_IDENTITY
    else moduleName
  }

  function ModuleName(identityName: string): string {
    if identityName == EDGE_HUB_IDENTITY then EDGE_HUB
    else if identityName == EDGE_AGENT_IDENTITY then EDGE_AGENT
    else identityName
  }

  predicate IsSystemIdentity(name: string) {
    name == EDGE_HUB_IDENTITY || name == EDGE_AGENT_IDENTITY
  }

  lemma NamesDiffer()
    ensures EDGE_HUB != EDGE_AGENT && EDGE_HUB_IDENTITY != EDGE_AGENT_IDENTITY
    ensures EDGE_HUB[0] == 'e' && EDGE_AGENT[0] == 'e' && EDGE_HUB_IDENTITY[0] == '$' && EDGE_AGENT_IDENTITY[0] == '$'
  {
    assert |EDGE_HUB| == 7 && |EDGE_AGENT| == 9 && |EDGE_HUB_IDENTITY| == 8 && |EDGE_AGENT_IDENTITY| == 10;
  }

  /** A module name comes back from its identity name exactly when it is no system identity's name. */
  lemma ModuleNameInvertsIdentityName(name: string)
    ensures ModuleName(IdentityName(name)) == name <==> !IsSystemIdentity(name)
    ensures IdentityName(ModuleName(name)) == name <==> name != EDGE_HUB && name != EDGE_AGENT
  {
    NamesDiffer();
  }

  /** The name and the identity of one system module. */
  predicate SystemPair(a: string, b: string) {
    (a == EDGE_HUB && b == EDGE_HUB_IDENTITY) || (a == EDGE_AGENT && b == EDGE_AGENT_IDENTITY)
  }

  /** Two identities go under one module name exactly when they are a system module's name and identity. */
  lemma ModuleNameClashes(a: string, b: string)
    requires a != b
    ensures ModuleName(a) == ModuleName(b) <==> SystemPair(a, b) || SystemPair(b, a)
  {
    NamesDiffer();
  }
}

/** Bringing the identities in the daemon in line with a difference of module sets. */
module ModuleIdentities {
  import opened Wrappers
  import opened PartitionNames
  import opened ModuleSets
  import opened ModuleIdentityNames

  const EDGE_MANAGED := "IotEdge"

  datatype Identity = Identity(moduleId: string, generationId: string, managedBy: string)

  type Identities = map<string, Identity>

  predicate IsEdgeManaged(i: Identity) {
    EqualsIgnoreCase(EDGE_MANAGED, i.managedBy)
  }

  /** The identity service of the daemon; it chooses the generation of what it creates. */
  class IdentityManager {
    const generation: string -> string
    var identities: Identities

    constructor (generation: string -> string, identities: Identities)
      ensures this.generation == generation && this.identities == identities
    {
      this.generation, this.identities := generation, identities;
    }

    method Delete(name: string)
      modifies this
      ensures identities == old(identities) - {name}
    {
      identities := identities - {name};
    }

    method Create(name: string, managedBy: string) returns (i: Identity)
      modifies this
      ensures i == Identity(name, generation(name), managedBy)
      ensures identities == old(identities)[name := i]
    {
      i := Identity(name, generation(name), managedBy);
      identities := identities[name := i];
    }

    /** An identity that is not there cannot be updated. */
    method Update(name: string, generationId: string, managedBy: string) returns (r: Option<Identity>)
      modifies this
      ensures r == if name in old(identities) then Some(Identity(name, generationId, managedBy)) else None
      ensures identities == if r.Some? then old(identities)[name := r.value] else old(identities)
    {
      if name !in identities {
        return None;
      }
      r := Some(Identity(name, generationId, managedBy));
      identities := identities[name := r.value];
    }
  }

  function IdentityNames(names: set<string>): set<string> {
    set n <- names :: IdentityName(n)
  }

  /** The removed modules' identities that Edge itself created. */
  function Owned(identities: Identities, removed: set<string>): set<string> {
    set i <- IdentityNames(removed) | i in identities && IsEdgeManaged(identities[i])
  }

  /** A new identity for each of `ids` that was not there at the start. */
  function Created(generation: string -> string, identities: Identities, ids: set<string>): Identities {
    map i <- ids - identities.Keys :: Identity(i, generation(i), EDGE_MANAGED)
  }

  /** What the daemon holds afterwards. */
  function Reconciled(generation: string -> string, identities: Identities,
                      changed: set<string>, removed: set<string>): Identities
  {
    identities - Owned(identities, removed) + Created(generation, identities, IdentityNames(changed))
  }

  /** Some identity is deleted for one module and then updated for another. */
  predicate UpdatesDeleted(identities: Identities, changed: set<string>, removed: set<string>) {
    exists i <- IdentityNames(changed) :: i in Owned(identities, removed) && i != EDGE_AGENT_IDENTITY
  }

  /** The identities that are created or updated: not the agent's own, if it is there. */
  function Upserted(identities: Identities, changedIds: set<string>): set<string> {
    set i <- changedIds | i !in identities || i != EDGE_AGENT_IDENTITY
  }

  /** The identities that are handed back: the created and updated ones, and all others but the removed ones. */
  function Returned(identities: Identities, changed: set<string>, removed: set<string>): set<string> {
    Upserted(identities, IdentityNames(changed)) + (identities.Keys - IdentityNames(removed))
  }

  ghost predicate KeyedById(identities: Identities) {
    forall i <- identities :: identities[i].moduleId == i
  }

  /** No module name stands for a system module under its name and under that of its identity. */
  ghost predicate NoSystemPair(names: set<string>) {
    forall a, b :: a in names && b in names ==> !SystemPair(a, b)
  }

  /** No two of these identities belong under one module name. */
  ghost predicate NoClash(ids: set<string>) {
    forall a, b :: a in ids && b in ids ==> !SystemPair(a, b)
  }

  lemma IdentityNamesAreDisjointIff(changed: set<string>, removed: set<string>)
    requires changed !! removed
    ensures IdentityNames(changed) !! IdentityNames(removed) <==>
            forall c, r :: c in changed && r in removed ==> !SystemPair(c, r) && !SystemPair(r, c)
  {
    if c, r :| c in changed && r in removed && (SystemPair(c, r) || SystemPair(r, c)) {
      assert IdentityName(c) == IdentityName(r);
      assert IdentityName(c) in IdentityNames(changed) && IdentityName(c) in IdentityNames(removed);
    } else if i :| i in IdentityNames(changed) && i in IdentityNames(removed) {
      var c :| c in changed && IdentityName(c) == i;
      var r :| r in removed && IdentityName(r) == i;
      SameIdentityName(c, r);
    }
  }

  lemma SameIdentityName(a: string, b: string)
    requires a != b
    ensures IdentityName(a) == IdentityName(b) <==> SystemPair(a, b) || SystemPair(b, a)
  {
    NamesDiffer();
  }

  /**
   * Unless a module is removed and another changed that go by one identity, no
   * update fails, and handed back are the initial identities minus the removed
   * ones plus the changed ones.
   */
  lemma ReturnedWithoutConflict(identities: Identities, changed: set<string>, removed: set<string>)
    requires IdentityNames(changed) !! IdentityNames(removed)
    ensures !UpdatesDeleted(identities, changed, removed)
    ensures Returned(identities, changed, removed) ==
            (identities.Keys - IdentityNames(removed)) + IdentityNames(changed)
  {
  }

  /**
   * Removes, creates and updates identities, and returns those that stay, by
   * module name; None stands for the exception when an identity is updated that
   * was just deleted, or when two go under one name.
   */
  method GetModuleIdentities(manager: IdentityManager, changed: set<string>, removed: set<string>)
    returns (r: Option<Identities>)
    requires KeyedById(manager.identities) && NoSystemPair(changed)
    modifies manager
    ensures manager.identities ==
            Reconciled(manager.generation, old(manager.identities), changed, removed)
    ensures forall i <- old(manager.identities) ::
              !IsEdgeManaged(old(manager.identities)[i]) || i !in IdentityNames(removed) ==>
                IdentityAt(manager.identities, i) == Some(old(manager.identities)[i])
    ensures forall i <- IdentityNames(removed) ::
              i in old(manager.identities) && IsEdgeManaged(old(manager.identities)[i]) ==> i !in manager.identities
    ensures forall i <- IdentityNames(changed) ::
              i !in old(manager.identities) ==>
                IdentityAt(manager.identities, i) == Some(Identity(i, manager.generation(i), "IotEdge"))
    ensures var ids := Returned(old(manager.identities), changed, removed);
            && (r.Some? <==> !UpdatesDeleted(old(manager.identities), changed, removed) && NoClash(ids))
            && (r.Some? ==> && r.value.Keys == (set i <- ids :: ModuleName(i))
                            && forall i <- ids :: IdentityAt(manager.identities, i) == Some(r.value[ModuleName(i)]))
  {
    ghost var before := manager.identities;
    var all := UpdateDaemon(manager, changed, removed);
    forall i <- before | !IsEdgeManaged(before[i]) || i !in IdentityNames(removed)
      ensures IdentityAt(manager.identities, i) == Some(before[i])
    {
      UnmanagedIdentitySurvives(manager.generation, before, changed, removed, i);
    }
    if all.None? {
      return None;
    }
    r := ByModuleName(all.value);
  }

  lemma UnmanagedIdentitySurvives(generation: string -> string, identities: Identities,
                                  changed: set<string>, removed: set<string>, i: string)
    requires i in identities && (!IsEdgeManaged(identities[i]) || i !in IdentityNames(removed))
    ensures IdentityAt(Reconciled(generation, identities, changed, removed), i) == Some(identities[i])
  {
  }

  /** The calls to the daemon, and the list of identities that comes out of them unless a call fails. */
  method UpdateDaemon(manager: IdentityManager, changed: set<string>, removed: set<string>)
    returns (all: Option<Identities>)
    requires KeyedById(manager.identities) && NoSystemPair(changed)
    modifies manager
    ensures manager.identities ==
            Reconciled(manager.generation, old(manager.identities), changed, removed)
    ensures all.None? <==> UpdatesDeleted(old(manager.identities), changed, removed)
    ensures all.Some? ==> && all.value.Keys == Returned(old(manager.identities), changed, removed)
                          && forall i <- all.value :: IdentityAt(manager.identities, i) == Some(all.value[i])
  {
    var identities := manager.identities;
    var changedIds, removedIds := IdentityNames(changed), IdentityNames(removed);
    RemoveOwned(manager, identities, removedIds);
    ghost var owned := Owned(identities, removed);
    assert manager.identities == identities - owned;
    var upserted := Upsert(manager, identities, changedIds, owned);
    if upserted.None? {
      return None;
    }
    var kept := map i <- identities.Keys - removedIds - upserted.value.Keys :: identities[i];
    all := Some(upserted.value + kept);
  }

  method RemoveOwned(manager: IdentityManager, identities: Identities, removedIds: set<string>)
    requires manager.identities == identities
    modifies manager
    ensures manager.identities == identities - (set i <- removedIds | i in identities && IsEdgeManaged(identities[i]))
  {
    var todo := removedIds;
    while todo != {}
      invariant todo <= removedIds
      invariant manager.identities == identities -
                (set i <- removedIds - todo | i in identities && IsEdgeManaged(identities[i]))
      decreases todo
    {
      var i :| i in todo;
      if i in identities && IsEdgeManaged(identities[i]) {
        manager.Delete(i);
      }
      todo := todo - {i};
    }
  }

  /** Creates what was missing and updates what was there, except the agent's own identity; all calls are made. */
  method Upsert(manager: IdentityManager, identities: Identities, changedIds: set<string>, ghost deleted: set<string>)
    returns (r: Option<Identities>)
    requires KeyedById(identities) && deleted <= identities.Keys && manager.identities == identities - deleted
    modifies manager
    ensures manager.identities == identities - deleted + Created(manager.generation, identities, changedIds)
    ensures r.None? <==> exists i <- changedIds :: i in deleted && i != EDGE_AGENT_IDENTITY
    ensures r.Some? ==> && r.value.Keys == Upserted(identities, changedIds)
                        && forall i <- r.value :: IdentityAt(manager.identities, i) == Some(r.value[i])
  {
    var upserted: Identities := map[];
    var failed := false;
    var todo := changedIds;
    ghost var done: set<string> := {};
    while todo != {}
      invariant todo !! done && todo + done == changedIds
      invariant manager.identities == identities - deleted + Created(manager.generation, identities, done)
      invariant failed <==> exists i <- done :: i in deleted && i != EDGE_AGENT_IDENTITY
      invariant upserted.Keys == Upserted(identities, done) - deleted
      invariant forall i <- upserted :: IdentityAt(manager.identities, i) == Some(upserted[i])
      decreases todo
    {
      var i :| i in todo;
      var identity := UpsertOne(manager, identities, i, deleted, done);
      match identity {
        case Skipped =>
        case Refused =>
          failed := true;
        case Stored(value) =>
          upserted := upserted[i := value];
      }
      todo, done := todo - {i}, done + {i};
    }
    assert done == changedIds;
    if failed {
      return None;
    }
    assert Upserted(identities, done) !! deleted;
    return Some(upserted);
  }

  datatype Upsertion = Skipped | Refused | Stored(identity: Identity)

  method UpsertOne(manager: IdentityManager, identities: Identities, i: string, ghost deleted: set<string>,
                   ghost done: set<string>)
    returns (r: Upsertion)
    requires KeyedById(identities) && deleted <= identities.Keys && i !in done
    requires manager.identities == identities - deleted + Created(manager.generation, identities, done)
    modifies manager
    ensures manager.identities == identities - deleted + Created(manager.generation, identities, done + {i})
    ensures forall k :: k in old(manager.identities) ==>
              IdentityAt(manager.identities, k) == IdentityAt(old(manager.identities), k)
    ensures r.Skipped? <==> i in identities && i == EDGE_AGENT_IDENTITY
    ensures r.Refused? <==> i in deleted && i != EDGE_AGENT_IDENTITY
    ensures r.Stored? ==> IdentityAt(manager.identities, i) == Some(r.identity)
  {
    ghost var before := manager.identities;
    if i !in identities {
      var created := manager.Create(i, EDGE_MANAGED);
      assert Created(manager.generation, identities, done + {i}) ==
             Created(manager.generation, identities, done)[i := created];
      return Stored(created);
    }
    assert Created(manager.generation, identities, done + {i}) == Created(manager.generation, identities, done);
    if i == EDGE_AGENT_IDENTITY {
      return Skipped;
    }
    var known := identities[i];
    var updated := manager.Update(known.moduleId, known.generationId, known.managedBy);
    assert manager.identities == before;
    return if updated.Some? then Stored(updated.value) else Refused;
  }

  function IdentityAt(identities: Identities, i: string): Option<Identity> {
    if i in identities then Some(identities[i]) else None
  }

  method ByModuleName(all: Identities) returns (r: Option<Identities>)
    ensures r.Some? <==> NoClash(all.Keys)
    ensures r.Some? ==> && r.value.Keys == (set i <- all.Keys :: ModuleName(i))
                        && forall i <- all :: r.value[ModuleName(i)] == all[i]
  {
    var byName: Identities := map[];
    var todo := all.Keys;
    while todo != {}
      invariant todo <= all.Keys
      invariant byName.Keys == set i <- all.Keys - todo :: ModuleName(i)
      invariant forall i <- all.Keys - todo :: byName[ModuleName(i)] == all[i]
      invariant NoClash(all.Keys - todo)
      decreases todo
    {
      var i :| i in todo;
      if ModuleName(i) in byName {
        var j :| j in all.Keys - todo && ModuleName(j) == ModuleName(i);
        ModuleNameClashes(i, j);
        return None;
      }
      forall j <- all.Keys - todo
        ensures !SystemPair(i, j) && !SystemPair(j, i)
      {
        ModuleNameClashes(i, j);
      }
      byName := byName[ModuleName(i) := all[i]];
      todo := todo - {i};
    }
    return Some(byName);
  }

  function ChangedNames(d: Diff): set<string> {
    set m <- d.added + d.updated :: m.Name()
  }

  /** For sets keyed by module name, these are the keys that are new or changed beyond the status. */
  lemma ChangedNamesAreKeys(desired: ModuleSet, current: ModuleSet)
    requires WellNamed(desired)
    ensures ChangedNames(DiffOf(desired, current)) == desired.Keys - current.Keys + UpdatedKeys(desired, current)
    ensures ChangedNames(DiffOf(desired, current)) !! current.Keys - desired.Keys
  {
    var d := DiffOf(desired, current);
    forall k <- desired.Keys - current.Keys + UpdatedKeys(desired, current)
      ensures k in ChangedNames(d)
    {
      assert desired[k] in d.added + d.updated && desired[k].Name() == k;
    }
  }

  /** No two added or updated modules go by one identity. */
  ghost predicate DistinctIdentities(d: Diff) {
    var changed := d.added + d.updated;
    forall m, n :: m in changed && n in changed && IdentityName(m.Name()) == IdentityName(n.Name()) ==> m == n
  }

  lemma DistinctMeansNoPair(d: Diff)
    requires DistinctIdentities(d)
    ensures NoSystemPair(ChangedNames(d))
  {
    forall a, b | a in ChangedNames(d) && b in ChangedNames(d)
      ensures !SystemPair(a, b)
    {
      var m :| m in d.added + d.updated && m.Name() == a;
      var n :| n in d.added + d.updated && n.Name() == b;
      NamesDiffer();
      assert SystemPair(a, b) ==> IdentityName(a) == IdentityName(b) && a != b;
    }
  }

  /**
   * From two module sets: nothing happens, and nothing is returned, when they
   * compare equal and have no unknown module. An exception is swallowed and
   * returns nothing.
   */
  method Reconcile(manager: IdentityManager, desired: ModuleSet, current: ModuleSet) returns (r: Identities)
    requires KeyedById(manager.identities) && DistinctIdentities(DiffOf(desired, current))
    modifies manager
    ensures SameModuleSet(desired, current) && AllKnown(desired) ==>
              r == map[] && manager.identities == old(manager.identities)
    ensures !(SameModuleSet(desired, current) && AllKnown(desired)) ==>
              var changed, removed := ChangedNames(DiffOf(desired, current)), current.Keys - desired.Keys;
              var ids := Returned(old(manager.identities), changed, removed);
              && manager.identities == Reconciled(manager.generation, old(manager.identities), changed, removed)
              && if UpdatesDeleted(old(manager.identities), changed, removed) || !NoClash(ids) then r == map[]
                 else && r.Keys == (set i <- ids :: ModuleName(i))
                      && forall i <- ids :: IdentityAt(manager.identities, i) == Some(r[ModuleName(i)])
  {
    var diff := DiffOf(desired, current);
    DiffIsEmptyIffEqual(desired, current);
    if IsEmpty(diff) {
      return map[];
    }
    DistinctMeansNoPair(diff);
    var found := GetModuleIdentities(manager, ChangedNames(diff), diff.removed);
    return if found.Some? then found.value else map[];
  }

  /**
   * A module called `$edgeHub` that replaces `edgeHub` takes over the identity
   * that is deleted for the other: the update fails and nothing is returned.
   */
  lemma ReplacingASystemModuleFails(hub: Identity)
    requires IsEdgeManaged(hub)
    ensures var identities := map[EDGE_HUB_IDENTITY := hub];
            UpdatesDeleted(identities, {EDGE_HUB_IDENTITY}, {EDGE_HUB})
  {
    NamesDiffer();
    var identities := map[EDGE_HUB_IDENTITY := hub];
    assert IdentityName(EDGE_HUB) == IdentityName(EDGE_HUB_IDENTITY) == EDGE_HUB_IDENTITY;
    assert EDGE_HUB_IDENTITY in IdentityNames({EDGE_HUB}) && EDGE_HUB_IDENTITY in IdentityNames({EDGE_HUB_IDENTITY});
    assert EDGE_HUB_IDENTITY in Owned(identities, {EDGE_HUB});
  }
}
