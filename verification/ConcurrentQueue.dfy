/**
 * Concurrent use of the queue. Any number of `Append` and `RemoveFirst` calls
 * are in progress at once; a step takes one of them from one await (or one
 * access to a shared field) to the next. `Append` runs under the tail lock,
 * `RemoveFirst` under the head lock, and `RemoveFirst` reads the tail offset
 * without holding the tail lock.
 */
module ConcurrentQueue {
  import opened Wrappers
  import opened OrderedEntries
  import StoreUtils
  import SequentialQueue

  datatype Phase<T> =
    | AppendWaiting(item: T)
    | AppendPutting(item: T, offset: int)          // the Put is in flight
    | AppendStored(item: T, offset: int)           // the Put took effect, the tail offset did not move yet
    | AppendMoved(item: T, offset: int)
    | AppendDone(item: T, offset: int)             // the call returns the offset
    | RemoveWaiting
    | RemoveChecking
    | RemoveGetting(offset: int)                   // the Get is in flight
    | RemoveJudging(offset: int, found: Option<T>) // the caller's predicate is running
    | RemoveDeleting(offset: int, item: T)         // the Remove is in flight
    | RemoveDeleted(offset: int)                   // the Remove took effect, the head offset did not move yet
    | RemoveReleasing(taken: Option<int>)
    | RemoveDone(taken: Option<int>)               // the call returns whether it took an entry

  /** An entry and the call that put it in or took it out; entries found at the start have none. */
  datatype Logged<T> = Logged(caller: Option<nat>, entry: Entry<int, T>)

  datatype State<T> = State(
    head: int,
    tail: int,
    items: seq<Entry<int, T>>,
    headLock: Option<nat>,
    tailLock: Option<nat>,
    calls: map<nat, Phase<T>>,
    appended: seq<Logged<T>>,  // every Put that took effect, in that order
    removed: seq<Logged<T>>)   // every Remove that took effect, in that order

  datatype Event<T> =
    | CallAppend(id: nat, item: T)
    | CallRemoveFirst(id: nat)
    | Advance(id: nat, verdict: bool)  // the verdict matters only while the predicate runs

  /** An event that is not possible in `s` leaves it unchanged. */
  function Step<T>(s: State<T>, e: Event<T>): State<T> {
    match e
    case CallAppend(id, item) => if id in s.calls then s else s.(calls := s.calls[id := AppendWaiting(item)])
    case CallRemoveFirst(id) => if id in s.calls then s else s.(calls := s.calls[id := RemoveWaiting])
    case Advance(id, verdict) =>
      if id !in s.calls then s
      else if AtTail(s.calls[id]) then AdvanceAppend(s, id)
      else AdvanceRemove(s, id, verdict)
  }

  predicate AtTail<T>(p: Phase<T>) {
    p.AppendWaiting? || p.AppendPutting? || p.AppendStored? || p.AppendMoved? || p.AppendDone?
  }

  function AdvanceAppend<T>(s: State<T>, id: nat): State<T>
    requires id in s.calls
  {
    match s.calls[id]
    case AppendWaiting(item) =>
      if s.tailLock.Some? then s
      else s.(tailLock := Some(id), calls := s.calls[id := AppendPutting(item, s.tail + 1)])
    case AppendPutting(item, o) =>
      s.(items := Put(s.items, o, item),
         appended := s.appended + [Logged(Some(id), Entry(o, item))],
         calls := s.calls[id := AppendStored(item, o)])
    case AppendStored(item, o) => s.(tail := o, calls := s.calls[id := AppendMoved(item, o)])
    case AppendMoved(item, o) => s.(tailLock := None, calls := s.calls[id := AppendDone(item, o)])
    case _ => s
  }

  function AdvanceRemove<T>(s: State<T>, id: nat, verdict: bool): State<T>
    requires id in s.calls
  {
    match s.calls[id]
    case RemoveWaiting =>
      if s.headLock.Some? then s
      else s.(headLock := Some(id), calls := s.calls[id := RemoveChecking])
    case RemoveChecking =>
      s.(calls := s.calls[id := if s.head > s.tail then RemoveReleasing(None) else RemoveGetting(s.head)])
    case RemoveGetting(o) => s.(calls := s.calls[id := RemoveJudging(o, Lookup(s.items, o))])
    case RemoveJudging(o, found) =>
      s.(calls := s.calls[id := if found.Some? && verdict then RemoveDeleting(o, found.value)
                                else RemoveReleasing(None)])
    case RemoveDeleting(o, item) =>
      s.(items := Remove(s.items, o),
         removed := s.removed + [Logged(Some(id), Entry(o, item))],
         calls := s.calls[id := RemoveDeleted(o)])
    case RemoveDeleted(o) => s.(head := s.head + 1, calls := s.calls[id := RemoveReleasing(Some(o))])
    case RemoveReleasing(taken) => s.(headLock := None, calls := s.calls[id := RemoveDone(taken)])
    case _ => s
  }

  ghost function Run<T>(s: State<T>, events: seq<Event<T>>): State<T>
    decreases |events|
  {
    if events == [] then s else Run(Step(s, events[0]), events[1..])
  }

  /** A queue without holes from offset `base` on, and nobody at work. */
  ghost predicate Initial<T>(s: State<T>, base: int) {
    && s.head == base && s.tail == base + |s.items| - 1
    && (forall i :: 0 <= i < |s.items| ==> s.items[i].key == base + i)
    && s.headLock == None && s.tailLock == None && s.calls == map[]
    && s.removed == []
    && |s.appended| == |s.items|
    && (forall i :: 0 <= i < |s.items| ==> s.appended[i] == Logged(None, s.items[i]))
  }

  // ---------------------------------------------------------------- invariant

  predicate HoldsTail<T>(p: Phase<T>) {
    p.AppendPutting? || p.AppendStored? || p.AppendMoved?
  }

  predicate HoldsHead<T>(p: Phase<T>) {
    p.RemoveChecking? || p.RemoveGetting? || p.RemoveJudging? || p.RemoveDeleting? || p.RemoveDeleted?
    || p.RemoveReleasing?
  }

  /** A lock is held by exactly the call that is between taking and releasing it. */
  ghost predicate LocksExclude<T>(s: State<T>) {
    && (s.tailLock.Some? ==> s.tailLock.value in s.calls)
    && (s.headLock.Some? ==> s.headLock.value in s.calls)
    && (forall id <- s.calls ::
          && (HoldsTail(s.calls[id]) <==> s.tailLock == Some(id))
          && (HoldsHead(s.calls[id]) <==> s.headLock == Some(id)))
  }

  /** One Put has taken effect that the tail offset does not show yet. */
  predicate PutInFlight<T>(s: State<T>) {
    s.tailLock.Some? && s.tailLock.value in s.calls && s.calls[s.tailLock.value].AppendStored?
  }

  /** One Remove has taken effect that the head offset does not show yet. */
  predicate RemoveInFlight<T>(s: State<T>) {
    s.headLock.Some? && s.headLock.value in s.calls && s.calls[s.headLock.value].RemoveDeleted?
  }

  /** Offsets are handed out one after the other; removals are the appends in the same order. */
  ghost predicate LogsAgree<T>(s: State<T>, base: int) {
    && |s.removed| <= |s.appended|
    && (forall i :: 0 <= i < |s.appended| ==> s.appended[i].entry.key == base + i)
    && (forall i :: 0 <= i < |s.removed| ==> s.removed[i].entry == s.appended[i].entry)
  }

  /** The entries are those appended and not removed, in order. */
  ghost predicate Holds<T>(items: seq<Entry<int, T>>, appended: seq<Logged<T>>, removed: seq<Logged<T>>) {
    && |items| == |appended| - |removed|
    && (forall i :: 0 <= i < |items| ==> items[i] == appended[|removed| + i].entry)
  }

  /** The store holds what was appended and not removed, and the offsets frame it up to one step each. */
  ghost predicate StoreAgrees<T>(s: State<T>, base: int) {
    && Holds(s.items, s.appended, s.removed)
    && s.tail == base + |s.appended| - 1 - (if PutInFlight(s) then 1 else 0)
    && s.head == base + |s.removed| - (if RemoveInFlight(s) then 1 else 0)
  }

  /** The entry that was stored under offset `o` is the item `v`. */
  ghost predicate WasAppended<T>(s: State<T>, base: int, o: int, v: T) {
    base <= o < base + |s.appended| && s.appended[o - base].entry == Entry(o, v)
  }

  /** Call `id` stored `item` under offset `o`. */
  ghost predicate OwnsOffset<T>(s: State<T>, base: int, id: nat, item: T, o: int) {
    base <= o < base + |s.appended| && s.appended[o - base] == Logged(Some(id), Entry(o, item))
  }

  ghost predicate OwnsRemoval<T>(s: State<T>, base: int, id: nat, o: int) {
    base <= o < base + |s.removed| && s.removed[o - base].caller == Some(id)
  }

  /** What call `id` knows in its phase. */
  ghost predicate CallAgrees<T>(s: State<T>, base: int, id: nat, p: Phase<T>) {
    match p
    case AppendPutting(_, o) => o == s.tail + 1
    case AppendStored(item, o) => o == s.tail + 1 && OwnsOffset(s, base, id, item, o)
    case AppendMoved(item, o) => o == s.tail && OwnsOffset(s, base, id, item, o)
    case AppendDone(item, o) => OwnsOffset(s, base, id, item, o)
    case RemoveGetting(o) => o == s.head <= s.tail
    case RemoveJudging(o, found) => o == s.head <= s.tail && found.Some? && WasAppended(s, base, o, found.value)
    case RemoveDeleting(o, item) => o == s.head <= s.tail && WasAppended(s, base, o, item)
    case RemoveDeleted(o) => o == s.head && OwnsRemoval(s, base, id, o)
    case RemoveReleasing(Some(o)) => OwnsRemoval(s, base, id, o)
    case RemoveDone(Some(o)) => OwnsRemoval(s, base, id, o)
    case _ => true
  }

  predicate HasStored<T>(p: Phase<T>, o: int) {
    (p.AppendStored? || p.AppendMoved? || p.AppendDone?) && p.offset == o
  }

  predicate HasRemoved<T>(p: Phase<T>, o: int) {
    (p.RemoveDeleted? && p.offset == o) || ((p.RemoveReleasing? || p.RemoveDone?) && p.taken == Some(o))
  }

  /** Each Put that took effect belongs to the one call that reports its offset. */
  ghost predicate PutsAreOwned<T>(s: State<T>, base: int) {
    forall i :: 0 <= i < |s.appended| && s.appended[i].caller.Some? ==>
      s.appended[i].caller.value in s.calls && HasStored(s.calls[s.appended[i].caller.value], base + i)
  }

  /** Each Remove that took effect belongs to the one call that reports it. */
  ghost predicate RemovesAreOwned<T>(s: State<T>, base: int) {
    forall i :: 0 <= i < |s.removed| ==>
      && s.removed[i].caller.Some?
      && s.removed[i].caller.value in s.calls && HasRemoved(s.calls[s.removed[i].caller.value], base + i)
  }

  ghost predicate CallsAgree<T>(s: State<T>, base: int) {
    forall id <- s.calls :: CallAgrees(s, base, id, s.calls[id])
  }

  ghost predicate Inv<T>(s: State<T>, base: int) {
    && LocksExclude(s)
    && LogsAgree(s, base)
    && StoreAgrees(s, base)
    && CallsAgree(s, base)
    && PutsAreOwned(s, base)
    && RemovesAreOwned(s, base)
  }

  // ------------------------------------------------------------- preservation

  lemma StoreLookup<T>(s: State<T>, base: int, o: int)
    requires LogsAgree(s, base) && StoreAgrees(s, base)
    ensures IndexOf(s.items, o) ==
            if base + |s.removed| <= o < base + |s.appended| then o - base - |s.removed| else |s.items|
  {
    IndexOfIsUnique(s.items, o,
                    if base + |s.removed| <= o < base + |s.appended| then o - base - |s.removed| else |s.items|);
  }

  lemma AppendKeepsLocks<T>(s: State<T>, id: nat)
    requires LocksExclude(s) && id in s.calls && AtTail(s.calls[id])
    ensures LocksExclude(AdvanceAppend(s, id))
  {
  }

  lemma RemoveKeepsLocks<T>(s: State<T>, id: nat, verdict: bool)
    requires LocksExclude(s) && id in s.calls && !AtTail(s.calls[id])
    ensures LocksExclude(AdvanceRemove(s, id, verdict))
  {
  }

  lemma AppendKeepsStore<T>(s: State<T>, base: int, id: nat)
    requires LocksExclude(s) && LogsAgree(s, base) && StoreAgrees(s, base)
    requires id in s.calls && AtTail(s.calls[id]) && CallAgrees(s, base, id, s.calls[id])
    ensures LogsAgree(AdvanceAppend(s, id), base) && StoreAgrees(AdvanceAppend(s, id), base)
  {
    if s.calls[id].AppendPutting? {
      StoreLookup(s, base, s.calls[id].offset);
    }
  }

  lemma HoldsRest<T>(items: seq<Entry<int, T>>, appended: seq<Logged<T>>, removed: seq<Logged<T>>, taken: Logged<T>)
    requires Holds(items, appended, removed) && items != []
    ensures Holds(items[1..], appended, removed + [taken])
  {
  }

  /** The entry that is being removed is the next one in the log of removals. */
  lemma DeletesNext<T>(s: State<T>, base: int, id: nat)
    requires StoreAgrees(s, base) && LocksExclude(s)
    requires id in s.calls && s.calls[id].RemoveDeleting? && CallAgrees(s, base, id, s.calls[id])
    ensures s.calls[id].offset == base + |s.removed| == s.head
  {
    assert s.headLock == Some(id);
  }

  lemma DeleteKeepsStore<T>(s: State<T>, base: int, id: nat)
    requires LocksExclude(s) && LogsAgree(s, base) && StoreAgrees(s, base)
    requires id in s.calls && s.calls[id].RemoveDeleting? && CallAgrees(s, base, id, s.calls[id])
    ensures LogsAgree(AdvanceRemove(s, id, true), base) && StoreAgrees(AdvanceRemove(s, id, true), base)
  {
    var o := s.calls[id].offset;
    DeletesNext(s, base, id);
    StoreLookup(s, base, o);
    HoldsRest(s.items, s.appended, s.removed, Logged(Some(id), Entry(o, s.calls[id].item)));
    assert Remove(s.items, o) == s.items[1..];
  }

  lemma RemoveKeepsStore<T>(s: State<T>, base: int, id: nat, verdict: bool)
    requires LocksExclude(s) && LogsAgree(s, base) && StoreAgrees(s, base)
    requires id in s.calls && !AtTail(s.calls[id]) && CallAgrees(s, base, id, s.calls[id])
    ensures LogsAgree(AdvanceRemove(s, id, verdict), base) && StoreAgrees(AdvanceRemove(s, id, verdict), base)
  {
    if s.calls[id].RemoveDeleting? {
      DeleteKeepsStore(s, base, id);
    }
  }

  lemma AppendKeepsCalls<T>(s: State<T>, base: int, id: nat)
    requires LocksExclude(s) && LogsAgree(s, base) && StoreAgrees(s, base) && CallsAgree(s, base)
    requires id in s.calls && AtTail(s.calls[id])
    ensures CallsAgree(AdvanceAppend(s, id), base)
  {
    var s' := AdvanceAppend(s, id);
    forall other <- s'.calls
      ensures CallAgrees(s', base, other, s'.calls[other])
    {
      assert CallAgrees(s, base, other, s.calls[other]);
      assert CallAgrees(s, base, id, s.calls[id]);
    }
  }

  lemma RemoveKeepsOwnCall<T>(s: State<T>, base: int, id: nat, verdict: bool)
    requires LocksExclude(s) && LogsAgree(s, base) && StoreAgrees(s, base)
    requires id in s.calls && !AtTail(s.calls[id]) && CallAgrees(s, base, id, s.calls[id])
    ensures var s' := AdvanceRemove(s, id, verdict); CallAgrees(s', base, id, s'.calls[id])
  {
    if s.calls[id].RemoveGetting? {
      StoreLookup(s, base, s.calls[id].offset);
    }
  }

  lemma RemoveKeepsOtherCall<T>(s: State<T>, base: int, id: nat, verdict: bool, other: nat)
    requires LocksExclude(s)
    requires id in s.calls && !AtTail(s.calls[id])
    requires other in s.calls && other != id && CallAgrees(s, base, other, s.calls[other])
    ensures CallAgrees(AdvanceRemove(s, id, verdict), base, other, s.calls[other])
  {
  }

  lemma RemoveKeepsCalls<T>(s: State<T>, base: int, id: nat, verdict: bool)
    requires LocksExclude(s) && LogsAgree(s, base) && StoreAgrees(s, base) && CallsAgree(s, base)
    requires id in s.calls && !AtTail(s.calls[id])
    ensures CallsAgree(AdvanceRemove(s, id, verdict), base)
  {
    var s' := AdvanceRemove(s, id, verdict);
    forall other <- s'.calls
      ensures CallAgrees(s', base, other, s'.calls[other])
    {
      if other == id {
        RemoveKeepsOwnCall(s, base, id, verdict);
      } else {
        RemoveKeepsOtherCall(s, base, id, verdict, other);
      }
    }
  }

  lemma AppendKeepsOwners<T>(s: State<T>, base: int, id: nat)
    requires LogsAgree(s, base) && StoreAgrees(s, base) && LocksExclude(s)
    requires PutsAreOwned(s, base) && RemovesAreOwned(s, base)
    requires id in s.calls && AtTail(s.calls[id]) && CallAgrees(s, base, id, s.calls[id])
    ensures PutsAreOwned(AdvanceAppend(s, id), base) && RemovesAreOwned(AdvanceAppend(s, id), base)
  {
  }

  lemma RemoveKeepsPutOwners<T>(s: State<T>, base: int, id: nat, verdict: bool)
    requires PutsAreOwned(s, base)
    requires id in s.calls && !AtTail(s.calls[id])
    ensures PutsAreOwned(AdvanceRemove(s, id, verdict), base)
  {
  }

  lemma RemoveKeepsOwners<T>(s: State<T>, base: int, id: nat, verdict: bool)
    requires RemovesAreOwned(s, base)
    requires id in s.calls && !AtTail(s.calls[id])
    requires s.calls[id].RemoveDeleting? ==> s.calls[id].offset == base + |s.removed|
    ensures RemovesAreOwned(AdvanceRemove(s, id, verdict), base)
  {
  }

  lemma StepKeepsInv<T>(s: State<T>, base: int, e: Event<T>)
    requires Inv(s, base)
    ensures Inv(Step(s, e), base)
  {
    match e
    case Advance(id, verdict) =>
      if id in s.calls {
        assert CallAgrees(s, base, id, s.calls[id]);
        if AtTail(s.calls[id]) {
          AppendKeepsLocks(s, id);
          AppendKeepsStore(s, base, id);
          AppendKeepsCalls(s, base, id);
          AppendKeepsOwners(s, base, id);
        } else {
          RemoveKeepsLocks(s, id, verdict);
          RemoveKeepsStore(s, base, id, verdict);
          RemoveKeepsCalls(s, base, id, verdict);
          RemoveKeepsPutOwners(s, base, id, verdict);
          if s.calls[id].RemoveDeleting? {
            DeletesNext(s, base, id);
          }
          RemoveKeepsOwners(s, base, id, verdict);
        }
      }
    case CallAppend(id, item) =>
      NewCallKeepsInv(s, base, id, AppendWaiting(item));
    case CallRemoveFirst(id) =>
      NewCallKeepsInv(s, base, id, RemoveWaiting);
  }

  lemma NewCallKeepsCalls<T>(s: State<T>, base: int, id: nat, p: Phase<T>)
    requires CallsAgree(s, base) && id !in s.calls && (p.AppendWaiting? || p.RemoveWaiting?)
    ensures CallsAgree(s.(calls := s.calls[id := p]), base)
  {
    var s' := s.(calls := s.calls[id := p]);
    forall other <- s'.calls
      ensures CallAgrees(s', base, other, s'.calls[other])
    {
      assert other != id ==> CallAgrees(s, base, other, s.calls[other]);
    }
  }

  lemma NewCallKeepsInv<T>(s: State<T>, base: int, id: nat, p: Phase<T>)
    requires Inv(s, base) && (p.AppendWaiting? || p.RemoveWaiting?)
    ensures id !in s.calls ==> Inv(s.(calls := s.calls[id := p]), base)
  {
    if id !in s.calls {
      NewCallKeepsCalls(s, base, id, p);
    }
  }

  lemma {:induction false} RunKeepsInv<T>(s: State<T>, base: int, events: seq<Event<T>>)
    requires Inv(s, base)
    ensures Inv(Run(s, events), base)
    decreases |events|
  {
    if events != [] {
      StepKeepsInv(s, base, events[0]);
      RunKeepsInv(Step(s, events[0]), base, events[1..]);
    }
  }

  // ---------------------------------------------- what every interleaving keeps

  lemma InitialStore<T>(s: State<T>, base: int)
    requires Initial(s, base)
    ensures LogsAgree(s, base) && StoreAgrees(s, base)
  {
    assert forall i :: 0 <= i < |s.appended| ==> s.appended[i].entry == s.items[i];
  }

  lemma InitialInv<T>(s: State<T>, base: int)
    requires Initial(s, base)
    ensures Inv(s, base)
  {
    InitialStore(s, base);
  }

  lemma {:induction false} LogsOnlyGrow<T>(s: State<T>, events: seq<Event<T>>)
    ensures s.appended <= Run(s, events).appended && s.removed <= Run(s, events).removed
    decreases |events|
  {
    if events != [] {
      LogsOnlyGrow(Step(s, events[0]), events[1..]);
    }
  }

  function Entries<T>(log: seq<Logged<T>>): (r: seq<Entry<int, T>>)
    ensures |r| == |log| && forall i :: 0 <= i < |log| ==> r[i] == log[i].entry
  {
    seq(|log|, i requires 0 <= i < |log| => log[i].entry)
  }

  /** The stored offsets are exactly head..tail, up to the one Put and the one Remove in flight. */
  ghost predicate StoredOffsetsAreFramed<T>(s: State<T>) {
    var first := s.head + (if RemoveInFlight(s) then 1 else 0);
    var last := s.tail + (if PutInFlight(s) then 1 else 0);
    && |s.items| == last - first + 1
    && forall i :: 0 <= i < |s.items| ==> s.items[i].key == first + i
  }

  /**
   * Over every interleaving: what is removed, followed by what is stored, is
   * what was stored at the start followed by what was appended, in the order of
   * the offsets handed out. So items leave once and in the order they came, and
   * none is lost.
   */
  lemma EveryInterleavingIsFifo<T>(s: State<T>, base: int, events: seq<Event<T>>)
    requires Initial(s, base)
    ensures var r := Run(s, events);
            && StoredOffsetsAreFramed(r)
            && Entries(r.removed) + r.items == Entries(r.appended)
            && s.items <= Entries(r.appended)
            && forall i :: 0 <= i < |r.appended| ==> r.appended[i].entry.key == base + i
  {
    InitialInv(s, base);
    RunKeepsInv(s, base, events);
    LogsOnlyGrow(s, events);
    var r := Run(s, events);
    assert Entries(r.removed) + r.items == Entries(r.appended);
    assert s.items == Entries(s.appended);
  }

  /** What a call reports when it returns: an offset that is its own, or the one entry it took. */
  lemma EveryCallReportsItsEffect<T>(s: State<T>, base: int, events: seq<Event<T>>, id: nat)
    requires Initial(s, base) && id in Run(s, events).calls
    ensures var r := Run(s, events);
            match r.calls[id]
            case AppendDone(item, o) =>
              && OwnsOffset(r, base, id, item, o)
              && (forall i :: 0 <= i < |r.appended| && r.appended[i].caller == Some(id) ==> i == o - base)
            case RemoveDone(Some(o)) =>
              && OwnsRemoval(r, base, id, o)
              && (forall i :: 0 <= i < |r.removed| && r.removed[i].caller == Some(id) ==> i == o - base)
            case RemoveDone(None) => forall i :: 0 <= i < |r.removed| ==> r.removed[i].caller != Some(id)
            case RemoveJudging(_, found) => found.Some?  // the entry at the head is always there
            case _ => true
  {
    InitialInv(s, base);
    RunKeepsInv(s, base, events);
    var r := Run(s, events);
    assert CallAgrees(r, base, id, r.calls[id]);
  }

  // -------------------------------------------------- a call that runs undisturbed

  ghost predicate InRange<T>(items: seq<Entry<int, T>>) {
    forall i :: 0 <= i < |items| ==> StoreUtils.LONG_MIN <= items[i].key <= StoreUtils.LONG_MAX
  }

  ghost function AsLong<T>(items: seq<Entry<int, T>>): (r: seq<Entry<StoreUtils.long, T>>)
    requires InRange(items)
    ensures |r| == |items|
    ensures forall i :: 0 <= i < |items| ==> r[i].key == items[i].key && r[i].value == items[i].value
  {
    seq(|items|, i requires 0 <= i < |items| => Entry(items[i].key as StoreUtils.long, items[i].value))
  }

  ghost predicate HasView<T>(s: State<T>) {
    && StoreUtils.LONG_MIN <= s.head <= StoreUtils.LONG_MAX
    && StoreUtils.LONG_MIN <= s.tail <= StoreUtils.LONG_MAX
    && InRange(s.items)
  }

  /** The queue that a state shows to the next sequential call. */
  ghost function View<T>(s: State<T>): SequentialQueue.Queue<T>
    requires HasView(s)
  {
    SequentialQueue.Queue(s.head, s.tail, AsLong(s.items))
  }

  lemma AsLongIndex<T>(items: seq<Entry<int, T>>, o: StoreUtils.long)
    requires InRange(items)
    ensures IndexOf(AsLong(items), o) == IndexOf(items, o)
  {
    IndexOfIsUnique(AsLong(items), o, IndexOf(items, o));
  }

  lemma AsLongPut<T>(items: seq<Entry<int, T>>, o: StoreUtils.long, v: T)
    requires InRange(items)
    ensures InRange(Put(items, o, v)) && AsLong(Put(items, o, v)) == Put(AsLong(items), o, v)
  {
    AsLongIndex(items, o);
  }

  lemma AsLongRemove<T>(items: seq<Entry<int, T>>, o: StoreUtils.long)
    requires InRange(items)
    ensures InRange(Remove(items, o)) && AsLong(Remove(items, o)) == Remove(AsLong(items), o)
  {
    AsLongIndex(items, o);
    var i := IndexOf(items, o);
    if i < |items| {
      AsLongWithout(items, i);
    }
  }

  lemma AsLongWithout<T>(items: seq<Entry<int, T>>, i: nat)
    requires InRange(items) && i < |items|
    ensures InRange(items[..i] + items[i + 1..])
    ensures AsLong(items[..i] + items[i + 1..]) == AsLong(items)[..i] + AsLong(items)[i + 1..]
  {
  }

  lemma AppendSteps<T>(s: State<T>, id: nat, item: T)
    requires id !in s.calls && s.tailLock == None
    ensures var go := Advance(id, true);
            Step(Step(Step(Step(Step(s, CallAppend(id, item)), go), go), go), go) ==
            s.(tail := s.tail + 1, items := Put(s.items, s.tail + 1, item),
               appended := s.appended + [Logged(Some(id), Entry(s.tail + 1, item))],
               calls := s.calls[id := AppendDone(item, s.tail + 1)])
  {
    var go := Advance(id, true);
    var s1 := Step(Step(s, CallAppend(id, item)), go);
    assert s1 == s.(tailLock := Some(id), calls := s.calls[id := AppendPutting(item, s.tail + 1)]);
  }

  /** An append that nobody interleaves with does what the sequential append does. */
  lemma AppendAlone<T>(s: State<T>, id: nat, item: T)
    requires id !in s.calls && s.tailLock == None
    requires HasView(s) && 0 <= s.tail + 1 <= StoreUtils.LONG_MAX
    ensures var go := Advance(id, true);
            var r := Step(Step(Step(Step(Step(s, CallAppend(id, item)), go), go), go), go);
            && HasView(r) && id in r.calls && r.calls[id] == AppendDone(item, s.tail + 1)
            && (View(r), Success(s.tail + 1)) == SequentialQueue.Appended(View(s), item)
  {
    AppendSteps(s, id, item);
    AsLongPut(s.items, s.tail + 1, item);
  }

  lemma RemoveFirstFinds<T>(s: State<T>, id: nat, verdict: bool)
    requires id !in s.calls && s.headLock == None
    ensures var go := Advance(id, verdict);
            Step(Step(Step(Step(s, CallRemoveFirst(id)), go), go), go) ==
            if s.head > s.tail then s.(calls := s.calls[id := RemoveDone(None)])
            else s.(headLock := Some(id), calls := s.calls[id := RemoveJudging(s.head, Lookup(s.items, s.head))])
  {
    var go := Advance(id, verdict);
    var locked := Step(Step(s, CallRemoveFirst(id)), go);
    assert locked == s.(headLock := Some(id), calls := s.calls[id := RemoveChecking]);
  }

  lemma RemoveFirstTakes<T>(s: State<T>, id: nat, found: Option<T>, verdict: bool)
    requires id !in s.calls && s.headLock == None
    ensures var s' := s.(headLock := Some(id), calls := s.calls[id := RemoveJudging(s.head, found)]);
            var go := Advance(id, verdict);
            Step(Step(Step(Step(s', go), go), go), go) ==
            if found.None? || !verdict then s.(calls := s.calls[id := RemoveDone(None)])
            else s.(head := s.head + 1, items := Remove(s.items, s.head),
                    removed := s.removed + [Logged(Some(id), Entry(s.head, found.value))],
                    calls := s.calls[id := RemoveDone(Some(s.head))])
  {
    var s' := s.(headLock := Some(id), calls := s.calls[id := RemoveJudging(s.head, found)]);
    var go := Advance(id, verdict);
    if found.Some? && verdict {
      assert Step(Step(s', go), go) ==
             s.(headLock := Some(id), items := Remove(s.items, s.head),
                removed := s.removed + [Logged(Some(id), Entry(s.head, found.value))],
                calls := s.calls[id := RemoveDeleted(s.head)]);
    } else {
      assert Step(Step(s', go), go) == s.(calls := s.calls[id := RemoveDone(None)]);
    }
  }

  /** Seven steps take a removal to its end; a call that has ended stays where it is. */
  function RemovedAlone<T>(s: State<T>, id: nat, verdict: bool): State<T> {
    var go := Advance(id, verdict);
    var judging := Step(Step(Step(Step(s, CallRemoveFirst(id)), go), go), go);
    Step(Step(Step(Step(judging, go), go), go), go)
  }

  lemma RemoveFirstSteps<T>(s: State<T>, id: nat, verdict: bool)
    requires id !in s.calls && s.headLock == None
    ensures var found := Lookup(s.items, s.head);
            RemovedAlone(s, id, verdict) ==
            if s.head > s.tail || found.None? || !verdict then s.(calls := s.calls[id := RemoveDone(None)])
            else s.(head := s.head + 1, items := Remove(s.items, s.head),
                    removed := s.removed + [Logged(Some(id), Entry(s.head, found.value))],
                    calls := s.calls[id := RemoveDone(Some(s.head))])
  {
    RemoveFirstFinds(s, id, verdict);
    if s.head > s.tail {
      var done := s.(calls := s.calls[id := RemoveDone(None)]);
      assert Step(done, Advance(id, verdict)) == done;
    } else {
      RemoveFirstTakes(s, id, Lookup(s.items, s.head), verdict);
    }
  }

  /** A removal that nobody interleaves with does what the sequential removal does, holes included. */
  lemma RemoveFirstAlone<T>(s: State<T>, id: nat, pred: SequentialQueue.Predicate<T>, verdict: bool)
    requires id !in s.calls && s.headLock == None
    requires HasView(s) && (s.head <= s.tail ==> 0 <= s.head < StoreUtils.LONG_MAX)
    requires Lookup(s.items, s.head).Some? ==> verdict == pred(s.head, Lookup(s.items, s.head).value)
    ensures var r := RemovedAlone(s, id, verdict);
            && HasView(r) && id in r.calls && r.calls[id].RemoveDone?
            && (View(r), Success(r.calls[id].taken.Some?)) == SequentialQueue.FirstRemoved(View(s), pred)
  {
    RemoveFirstSteps(s, id, verdict);
    ViewWithoutHead(s, pred, verdict, RemovedAlone(s, id, verdict));
  }

  lemma ViewWithoutHead<T>(s: State<T>, pred: SequentialQueue.Predicate<T>, verdict: bool, r: State<T>)
    requires HasView(s) && (s.head <= s.tail ==> 0 <= s.head < StoreUtils.LONG_MAX)
    requires Lookup(s.items, s.head).Some? ==> verdict == pred(s.head, Lookup(s.items, s.head).value)
    requires var takes := s.head <= s.tail && Lookup(s.items, s.head).Some? && verdict;
             && r.tail == s.tail && r.head == (if takes then s.head + 1 else s.head)
             && r.items == if takes then Remove(s.items, s.head) else s.items
    ensures HasView(r) && View(r) == SequentialQueue.FirstRemoved(View(s), pred).0
    ensures SequentialQueue.FirstRemoved(View(s), pred).1 ==
            Success(s.head <= s.tail && Lookup(s.items, s.head).Some? && verdict)
  {
    AsLongIndex(s.items, s.head);
    AsLongRemove(s.items, s.head);
  }

  // --------------------------------------------------------- crash and reopen

  lemma OpenedOverConsecutive<T>(items: seq<Entry<int, T>>, first: nat, defaultHead: StoreUtils.long)
    requires first + |items| - 1 <= StoreUtils.LONG_MAX && defaultHead != StoreUtils.LONG_MIN
    requires forall i :: 0 <= i < |items| ==> items[i].key == first + i
    ensures var q := SequentialQueue.Opened(AsLong(items), defaultHead);
            && SequentialQueue.HoleFree(q)
            && (items != [] ==> q.head == first && q.tail == first + |items| - 1)
  {
  }

  lemma StoreReopens<T>(r: State<T>, base: nat, defaultHead: StoreUtils.long)
    requires LogsAgree(r, base) && StoreAgrees(r, base) && base + |r.appended| - 1 <= StoreUtils.LONG_MAX
    requires defaultHead != StoreUtils.LONG_MIN
    ensures InRange(r.items)
    ensures var q := SequentialQueue.Opened(AsLong(r.items), defaultHead);
            && SequentialQueue.HoleFree(q)
            && q.items == AsLong(r.items)
            && Entries(r.removed) + r.items == Entries(r.appended)
            && (r.items != [] ==> q.head == base + |r.removed| && q.tail == base + |r.appended| - 1)
            && (r.items == [] ==> q.head == defaultHead)
  {
    assert Entries(r.removed) + r.items == Entries(r.appended);
    OpenedOverConsecutive(r.items, base + |r.removed|, defaultHead);
  }

  /**
   * Stopping at any point of any interleaving loses the offsets, the locks and
   * the calls, but not the store. Opening the store again gives a queue without
   * holes that holds the appended and not yet removed items, in order and under
   * their old offsets: a Put that took effect counts as appended, a Remove that
   * took effect as removed.
   */
  lemma CrashAndReopen<T>(s: State<T>, base: int, events: seq<Event<T>>, defaultHead: StoreUtils.long)
    requires Initial(s, base) && 0 <= base
    requires base + |Run(s, events).appended| - 1 <= StoreUtils.LONG_MAX
    requires defaultHead != StoreUtils.LONG_MIN
    ensures var r := Run(s, events);
            && InRange(r.items)
            && var q := SequentialQueue.Opened(AsLong(r.items), defaultHead);
            && SequentialQueue.HoleFree(q)
            && q.items == AsLong(r.items)
            && Entries(r.removed) + r.items == Entries(r.appended)
            && (r.items != [] ==> q.head == base + |r.removed| && q.tail == base + |r.appended| - 1)
            && (r.items == [] ==> q.head == defaultHead)
  {
    InitialInv(s, base);
    RunKeepsInv(s, base, events);
    StoreReopens(Run(s, events), base, defaultHead);
  }
}

/**
 * Removal from the middle of the queue takes no lock. It runs beside the calls
 * of the concurrent queue, so that two calls can find one entry, and both report
 * that they took it.
 */
module ConcurrentRemovals {
  import opened Wrappers
  import opened OrderedEntries
  import StoreUtils
  import SequentialQueue
  import Q = ConcurrentQueue

  /** A call of `RemoveOffset` in its last branch. */
  datatype Middle<T> =
    | Getting(offset: int)
    | Judging(offset: int, found: Option<T>)  // the caller's predicate is running
    | Deleting(offset: int)                   // the Remove is in flight
    | Finished(offset: int, taken: bool)

  datatype State<T> = State(
    queue: Q.State<T>,
    middles: map<nat, Middle<T>>,
    taken: seq<int>)  // the offsets that removals from the middle have taken

  datatype Event<T> =
    | Queue(event: Q.Event<T>)
    | CallRemoveOffset(id: nat, offset: int)  // neither the head nor the tail when the branch is chosen
    | Advance(id: nat, verdict: bool)

  /** An event that is not possible in `s` leaves it unchanged. */
  function Step<T>(s: State<T>, e: Event<T>): State<T> {
    match e
    case Queue(event) => s.(queue := Q.Step(s.queue, event))
    case CallRemoveOffset(id, offset) =>
      var q := s.queue;
      if id in s.middles || q.head > q.tail || offset < 0 || offset == q.head || offset == q.tail then s
      else s.(middles := s.middles[id := Getting(offset)])
    case Advance(id, verdict) => if id in s.middles then Advanced(s, id, verdict) else s
  }

  function Advanced<T>(s: State<T>, id: nat, verdict: bool): State<T>
    requires id in s.middles
  {
    match s.middles[id]
    case Getting(o) => s.(middles := s.middles[id := Judging(o, Lookup(s.queue.items, o))])
    case Judging(o, found) =>
      s.(middles := s.middles[id := if found.Some? && verdict then Deleting(o) else Finished(o, false)])
    case Deleting(o) =>
      State(s.queue.(items := Remove(s.queue.items, o)), s.middles[id := Finished(o, true)], s.taken + [o])
    case Finished(_, _) => s
  }

  ghost function Run<T>(s: State<T>, events: seq<Event<T>>): State<T>
    decreases |events|
  {
    if events == [] then s else Run(Step(s, events[0]), events[1..])
  }

  // -------------------------------------------------------------- what is reported

  function Offsets<T>(log: seq<Q.Logged<T>>): seq<int> {
    if log == [] then [] else Offsets(log[..|log| - 1]) + [log[|log| - 1].entry.key]
  }

  /** How often the calls report to have taken the entry under each offset. */
  function Reports<T>(s: State<T>): multiset<int> {
    multiset(Offsets(s.queue.removed)) + multiset(s.taken)
  }

  ghost predicate ReportedOnce<T>(s: State<T>) {
    forall o :: Reports(s)[o] <= 1
  }

  /** A removal from the front or from the middle. */
  datatype Caller = Front(id: nat) | Inner(id: nat)

  /** The caller has found the entry under `o`, and has neither taken nor refused it yet. */
  ghost predicate HasFound<T>(s: State<T>, c: Caller, o: int) {
    match c
    case Front(id) =>
      id in s.queue.calls &&
        var p := s.queue.calls[id];
        (p.RemoveJudging? && p.found.Some? && p.offset == o) || (p.RemoveDeleting? && p.offset == o)
    case Inner(id) =>
      id in s.middles &&
        var p := s.middles[id];
        (p.Judging? && p.found.Some? && p.offset == o) || (p.Deleting? && p.offset == o)
  }

  /** Event `e` takes the entry under `o` for caller `c`. */
  ghost predicate Takes<T>(s: State<T>, e: Event<T>, c: Caller, o: int) {
    match e
    case Queue(event) =>
      event.Advance? && c == Front(event.id) && event.id in s.queue.calls &&
        s.queue.calls[event.id].RemoveDeleting? && s.queue.calls[event.id].offset == o
    case Advance(id, _) => c == Inner(id) && id in s.middles && s.middles[id] == Deleting(o)
    case _ => false
  }

  /** The event takes an entry that another caller has found as well. */
  ghost predicate Clashes<T>(s: State<T>, e: Event<T>) {
    exists c, other, o :: Takes(s, e, c, o) && other != c && HasFound(s, other, o)
  }

  // ------------------------------------------------------------------- invariant

  /** No entry has been stored under an offset beyond this one. */
  function Last<T>(q: Q.State<T>): int {
    q.tail + if Q.PutInFlight(q) then 1 else 0
  }

  ghost predicate UpTo<T>(items: seq<Entry<int, T>>, last: int) {
    Distinct(items) && forall i :: 0 <= i < |items| ==> items[i].key <= last
  }

  /** Appends use fresh offsets. */
  ghost predicate AppendsAreFresh<T>(q: Q.State<T>) {
    forall id <- q.calls ::
      (q.calls[id].AppendPutting? || q.calls[id].AppendStored?) ==> q.calls[id].offset == q.tail + 1
  }

  ghost predicate TailIsFresh<T>(q: Q.State<T>) {
    Q.LocksExclude(q) && UpTo(q.items, Last(q)) && AppendsAreFresh(q)
  }

  /** What is reported is gone, and nobody has found it still. */
  ghost predicate GoneFor<T>(s: State<T>, o: int) {
    o <= Last(s.queue) && Lookup(s.queue.items, o) == None && forall c :: !HasFound(s, c, o)
  }

  ghost predicate Inv<T>(s: State<T>) {
    && TailIsFresh(s.queue)
    && ReportedOnce(s)
    && (forall o :: o in Reports(s) ==> GoneFor(s, o))
    && (forall c, o :: HasFound(s, c, o) ==> o <= Last(s.queue))
  }

  // ---------------------------------------------------------------- preservation

  lemma OffsetsOfMore<T>(log: seq<Q.Logged<T>>, l: Q.Logged<T>)
    ensures Offsets(log + [l]) == Offsets(log) + [l.entry.key]
  {
    assert (log + [l])[..|log|] == log;
  }

  lemma QueueStepKeepsTail<T>(q: Q.State<T>, q': Q.State<T>, event: Q.Event<T>)
    requires TailIsFresh(q) && q' == Q.Step(q, event)
    ensures TailIsFresh(q') && Last(q) <= Last(q')
  {
    if q' != q && event.Advance? {
      if Q.AtTail(q.calls[event.id]) {
        AppendKeepsTail(q, q', event.id);
      } else {
        RemoveKeepsTail(q, q', event.id, event.verdict);
      }
    }
  }

  lemma UpToWithPut<T>(items: seq<Entry<int, T>>, last: int, item: T)
    requires UpTo(items, last)
    ensures UpTo(Put(items, last + 1, item), last + 1)
  {
    PutActsOnOneKey(items, last + 1, item, 0);
  }

  lemma UpToWithRemove<T>(items: seq<Entry<int, T>>, last: int, o: int)
    requires UpTo(items, last)
    ensures UpTo(Remove(items, o), last)
  {
    RemoveActsOnOneKey(items, o, 0);
  }

  lemma AppendKeepsTail<T>(q: Q.State<T>, q': Q.State<T>, id: nat)
    requires TailIsFresh(q) && id in q.calls && Q.AtTail(q.calls[id]) && q' == Q.AdvanceAppend(q, id)
    ensures TailIsFresh(q') && Last(q) <= Last(q')
  {
    Q.AppendKeepsLocks(q, id);
    if q.calls[id].AppendPutting? {
      assert q.tailLock == Some(id);
      UpToWithPut(q.items, q.tail, q.calls[id].item);
    }
  }

  lemma RemoveKeepsLast<T>(q: Q.State<T>, q': Q.State<T>, id: nat, verdict: bool)
    requires Q.LocksExclude(q) && AppendsAreFresh(q)
    requires id in q.calls && !Q.AtTail(q.calls[id]) && q' == Q.AdvanceRemove(q, id, verdict)
    ensures Last(q') == Last(q) && AppendsAreFresh(q')
  {
    assert q'.tail == q.tail && q'.tailLock == q.tailLock;
    assert id in q'.calls && !Q.AtTail(q'.calls[id]) && q'.calls == q.calls[id := q'.calls[id]];
  }

  lemma RemoveKeepsTail<T>(q: Q.State<T>, q': Q.State<T>, id: nat, verdict: bool)
    requires TailIsFresh(q) && id in q.calls && !Q.AtTail(q.calls[id]) && q' == Q.AdvanceRemove(q, id, verdict)
    ensures TailIsFresh(q') && Last(q') == Last(q)
  {
    Q.RemoveKeepsLocks(q, id, verdict);
    RemoveKeepsLast(q, q', id, verdict);
    if q.calls[id].RemoveDeleting? {
      UpToWithRemove(q.items, Last(q), q.calls[id].offset);
    }
  }

  /** What is reported is in none of these entries. */
  ghost predicate AllGone<T>(s: State<T>, items: seq<Entry<int, T>>) {
    forall o :: o in Reports(s) ==> Lookup(items, o) == None
  }

  /** A step that reports nothing; who finds an entry finds one that is there. */
  lemma SilentStepKeepsInv<T>(s: State<T>, s': State<T>)
    requires Inv(s) && TailIsFresh(s'.queue) && Last(s.queue) <= Last(s'.queue) && Reports(s') == Reports(s)
    requires forall c, o :: HasFound(s', c, o) ==> HasFound(s, c, o) || Lookup(s.queue.items, o).Some?
    requires AllGone(s, s'.queue.items)
    ensures Inv(s')
  {
    forall c, o | HasFound(s', c, o)
      ensures o <= Last(s'.queue) && o !in Reports(s')
    {
      assert o in Reports(s) ==> GoneFor(s, o);
    }
  }

  /** Caller `c` takes the entry under `o`, which nobody else has found. */
  lemma ReportKeepsInv<T>(s: State<T>, s': State<T>, c: Caller, o: int)
    requires Inv(s) && TailIsFresh(s'.queue) && Last(s'.queue) == Last(s.queue)
    requires HasFound(s, c, o) && (forall other :: HasFound(s, other, o) ==> other == c)
    requires Reports(s') == Reports(s) + multiset{o}
    requires forall other, p :: HasFound(s', other, p) ==> HasFound(s, other, p) && !(other == c && p == o)
    requires Lookup(s'.queue.items, o) == None
    requires AllGone(s, s'.queue.items)
    ensures Inv(s')
  {
    assert o in Reports(s) ==> GoneFor(s, o);
    forall p | p in Reports(s')
      ensures GoneFor(s', p)
    {
      if p != o {
        assert GoneFor(s, p);
      }
    }
  }

  lemma ReportedAreGone<T>(s: State<T>)
    requires Inv(s)
    ensures AllGone(s, s.queue.items)
  {
    forall o | o in Reports(s)
      ensures Lookup(s.queue.items, o) == None
    {
      assert GoneFor(s, o);
    }
  }

  /** Storing under a fresh offset leaves what is gone gone. */
  lemma GoneAfterPut<T>(s: State<T>, next: int, item: T)
    requires Inv(s) && next > Last(s.queue)
    ensures AllGone(s, Put(s.queue.items, next, item))
  {
    forall o | o in Reports(s)
      ensures Lookup(Put(s.queue.items, next, item), o) == None
    {
      assert GoneFor(s, o);
      PutActsOnOneKey(s.queue.items, next, item, o);
    }
  }

  lemma GoneAfterRemove<T>(s: State<T>, gone: int)
    requires Inv(s)
    ensures AllGone(s, Remove(s.queue.items, gone)) && Lookup(Remove(s.queue.items, gone), gone) == None
  {
    RemoveActsOnOneKey(s.queue.items, gone, gone);
    forall o | o in Reports(s)
      ensures Lookup(Remove(s.queue.items, gone), o) == None
    {
      assert GoneFor(s, o);
      RemoveActsOnOneKey(s.queue.items, gone, o);
    }
  }

  /** Only call `id` of the queue moves on: what the others have found stays the same. */
  lemma OnlyFrontMoves<T>(s: State<T>, s': State<T>, id: nat)
    requires s'.middles == s.middles && id in s'.queue.calls
    requires s'.queue.calls == s.queue.calls[id := s'.queue.calls[id]]
    ensures forall c, o :: c != Front(id) ==> (HasFound(s', c, o) <==> HasFound(s, c, o))
  {
  }

  lemma OnlyInnerMoves<T>(s: State<T>, s': State<T>, id: nat)
    requires s'.queue.calls == s.queue.calls && id in s'.middles
    requires s'.middles == s.middles[id := s'.middles[id]]
    ensures forall c, o :: c != Inner(id) ==> (HasFound(s', c, o) <==> HasFound(s, c, o))
  {
  }

  lemma AppendKeepsInv<T>(s: State<T>, s': State<T>, id: nat)
    requires Inv(s) && id in s.queue.calls && Q.AtTail(s.queue.calls[id])
    requires s' == s.(queue := Q.AdvanceAppend(s.queue, id))
    ensures Inv(s')
  {
    AppendKeepsTail(s.queue, s'.queue, id);
    AppendFindsNothing(s, s', id);
    AppendKeepsGone(s, s', id);
    SilentStepKeepsInv(s, s');
  }

  lemma AppendKeepsGone<T>(s: State<T>, s': State<T>, id: nat)
    requires Inv(s) && id in s.queue.calls && Q.AtTail(s.queue.calls[id])
    requires s' == s.(queue := Q.AdvanceAppend(s.queue, id))
    ensures AllGone(s, s'.queue.items)
  {
    var q := s.queue;
    if q.calls[id].AppendPutting? {
      assert q.tailLock == Some(id);
      GoneAfterPut(s, q.tail + 1, q.calls[id].item);
    } else {
      ReportedAreGone(s);
    }
  }

  lemma AppendFindsNothing<T>(s: State<T>, s': State<T>, id: nat)
    requires id in s.queue.calls && Q.AtTail(s.queue.calls[id])
    requires s' == s.(queue := Q.AdvanceAppend(s.queue, id))
    ensures s'.queue.removed == s.queue.removed
    ensures forall c, o :: HasFound(s', c, o) ==> HasFound(s, c, o)
  {
    OnlyFrontMoves(s, s', id);
    assert Q.AtTail(s'.queue.calls[id]);
  }

  lemma FrontKeepsInv<T>(s: State<T>, s': State<T>, id: nat, verdict: bool)
    requires Inv(s) && id in s.queue.calls && !Q.AtTail(s.queue.calls[id]) && !s.queue.calls[id].RemoveDeleting?
    requires s' == s.(queue := Q.AdvanceRemove(s.queue, id, verdict))
    ensures Inv(s')
  {
    RemoveKeepsTail(s.queue, s'.queue, id, verdict);
    OnlyFrontMoves(s, s', id);
    FrontFinds(s, s', id, verdict);
    ReportedAreGone(s);
    assert s'.queue.items == s.queue.items && s'.queue.removed == s.queue.removed;
    SilentStepKeepsInv(s, s');
  }

  lemma FrontFinds<T>(s: State<T>, s': State<T>, id: nat, verdict: bool)
    requires id in s.queue.calls && !s.queue.calls[id].RemoveDeleting?
    requires s' == s.(queue := Q.AdvanceRemove(s.queue, id, verdict))
    ensures forall o :: HasFound(s', Front(id), o) ==> HasFound(s, Front(id), o) || Lookup(s.queue.items, o).Some?
  {
  }

  lemma FrontTakes<T>(s: State<T>, s': State<T>, id: nat, verdict: bool)
    requires Inv(s) && id in s.queue.calls && s.queue.calls[id].RemoveDeleting?
    requires forall other :: HasFound(s, other, s.queue.calls[id].offset) ==> other == Front(id)
    requires s' == s.(queue := Q.AdvanceRemove(s.queue, id, verdict))
    ensures Inv(s')
  {
    var q, o := s.queue, s.queue.calls[id].offset;
    RemoveKeepsTail(q, s'.queue, id, verdict);
    OnlyFrontMoves(s, s', id);
    OffsetsOfMore(q.removed, Q.Logged(Some(id), Entry(o, q.calls[id].item)));
    GoneAfterRemove(s, o);
    assert HasFound(s, Front(id), o);
    ReportKeepsInv(s, s', Front(id), o);
  }

  lemma InnerTakes<T>(s: State<T>, s': State<T>, id: nat, verdict: bool)
    requires Inv(s) && id in s.middles && s.middles[id].Deleting? && s' == Advanced(s, id, verdict)
    requires forall other :: HasFound(s, other, s.middles[id].offset) ==> other == Inner(id)
    ensures Inv(s')
  {
    var o := s.middles[id].offset;
    UpToWithRemove(s.queue.items, Last(s.queue), o);
    OnlyInnerMoves(s, s', id);
    GoneAfterRemove(s, o);
    assert HasFound(s, Inner(id), o);
    ReportKeepsInv(s, s', Inner(id), o);
  }

  lemma InnerKeepsInv<T>(s: State<T>, s': State<T>, id: nat, verdict: bool)
    requires Inv(s) && id in s.middles && !s.middles[id].Deleting? && s' == Advanced(s, id, verdict)
    ensures Inv(s')
  {
    OnlyInnerMoves(s, s', id);
    InnerFinds(s, s', id, verdict);
    ReportedAreGone(s);
    assert s'.queue == s.queue && s'.taken == s.taken;
    SilentStepKeepsInv(s, s');
  }

  lemma InnerFinds<T>(s: State<T>, s': State<T>, id: nat, verdict: bool)
    requires id in s.middles && !s.middles[id].Deleting? && s' == Advanced(s, id, verdict)
    ensures forall o :: HasFound(s', Inner(id), o) ==> HasFound(s, Inner(id), o) || Lookup(s.queue.items, o).Some?
  {
  }

  /** A call of the queue begins. */
  lemma QueueCallKeepsInv<T>(s: State<T>, s': State<T>, event: Q.Event<T>)
    requires Inv(s) && !event.Advance? && event.id !in s.queue.calls && s' == Step(s, Queue(event))
    ensures Inv(s')
  {
    QueueStepKeepsTail(s.queue, s'.queue, event);
    OnlyFrontMoves(s, s', event.id);
    ReportedAreGone(s);
    SilentStepKeepsInv(s, s');
  }

  /** A removal from the middle begins. */
  lemma CallKeepsInv<T>(s: State<T>, s': State<T>, id: nat, offset: int)
    requires Inv(s) && s' == s.(middles := s.middles[id := Getting(offset)])
    ensures Inv(s')
  {
    OnlyInnerMoves(s, s', id);
    ReportedAreGone(s);
    SilentStepKeepsInv(s, s');
  }

  lemma StepKeepsInv<T>(s: State<T>, e: Event<T>)
    requires Inv(s) && !Clashes(s, e)
    ensures Inv(Step(s, e))
  {
    var s' := Step(s, e);
    if s' != s {
      match e
      case CallRemoveOffset(id, offset) =>
        CallKeepsInv(s, s', id, offset);
      case Advance(id, verdict) =>
        if s.middles[id].Deleting? {
          assert Takes(s, e, Inner(id), s.middles[id].offset);
          InnerTakes(s, s', id, verdict);
        } else {
          InnerKeepsInv(s, s', id, verdict);
        }
      case Queue(event) =>
        if event.Advance? {
          QueueAdvanceKeepsInv(s, event.id, event.verdict);
        } else {
          QueueCallKeepsInv(s, s', event);
        }
    }
  }

  lemma QueueAdvanceKeepsInv<T>(s: State<T>, id: nat, verdict: bool)
    requires Inv(s) && id in s.queue.calls && !Clashes(s, Queue(Q.Advance(id, verdict)))
    ensures Inv(Step(s, Queue(Q.Advance(id, verdict))))
  {
    if Q.AtTail(s.queue.calls[id]) {
      AppendKeepsInv(s, Step(s, Queue(Q.Advance(id, verdict))), id);
    } else if s.queue.calls[id].RemoveDeleting? {
      assert Takes(s, Queue(Q.Advance(id, verdict)), Front(id), s.queue.calls[id].offset);
      FrontTakes(s, Step(s, Queue(Q.Advance(id, verdict))), id, verdict);
    } else {
      FrontKeepsInv(s, Step(s, Queue(Q.Advance(id, verdict))), id, verdict);
    }
  }

  // ------------------------------------------------ exactly when reported once

  /** One caller goes on for two steps, and its predicate accepts. */
  function GoesOn<T>(s: State<T>, c: Caller): State<T> {
    match c
    case Front(id) => Step(Step(s, Queue(Q.Advance(id, true))), Queue(Q.Advance(id, true)))
    case Inner(id) => Step(Step(s, Advance(id, true)), Advance(id, true))
  }

  /** Going on, a caller takes the entry that it has found, and no other. */
  lemma GoesOnTakes<T>(s: State<T>, c: Caller)
    ensures forall o :: HasFound(s, c, o) ==> Reports(GoesOn(s, c)) == Reports(s) + multiset{o}
    ensures (forall o :: !HasFound(s, c, o)) ==> Reports(GoesOn(s, c)) == Reports(s)
  {
    match c
    case Front(id) =>
      FrontGoesOn(s, id);
    case Inner(id) =>
      InnerGoesOn(s, id);
  }

  lemma InnerGoesOn<T>(s: State<T>, id: nat)
    ensures forall o :: HasFound(s, Inner(id), o) ==> Reports(GoesOn(s, Inner(id))) == Reports(s) + multiset{o}
    ensures (forall o :: !HasFound(s, Inner(id), o)) ==> Reports(GoesOn(s, Inner(id))) == Reports(s)
  {
    if id in s.middles {
      var s1 := Step(s, Advance(id, true));
      OneInnerStep(s, s1, id);
      OneInnerStep(s1, GoesOn(s, Inner(id)), id);
      InnerReports(s, GoesOn(s, Inner(id)), id);
    }
  }

  predicate FoundInside<T>(p: Middle<T>) {
    p.Deleting? || (p.Judging? && p.found.Some?)
  }

  lemma OneInnerStep<T>(s: State<T>, s1: State<T>, id: nat)
    requires id in s.middles && s1 == Step(s, Advance(id, true))
    ensures id in s1.middles && s1.middles[id].offset == s.middles[id].offset
    ensures s1.taken == s.taken + (if s.middles[id].Deleting? then [s.middles[id].offset] else [])
    ensures s1.queue.removed == s.queue.removed
    ensures s1.middles[id].Deleting? <==> s.middles[id].Judging? && s.middles[id].found.Some?
  {
  }

  lemma InnerReports<T>(s: State<T>, r: State<T>, id: nat)
    requires id in s.middles && r.queue.removed == s.queue.removed
    requires r.taken == s.taken + if FoundInside(s.middles[id]) then [s.middles[id].offset] else []
    ensures forall o :: HasFound(s, Inner(id), o) ==> Reports(r) == Reports(s) + multiset{o}
    ensures (forall o :: !HasFound(s, Inner(id), o)) ==> Reports(r) == Reports(s)
  {
    if FoundInside(s.middles[id]) {
      assert HasFound(s, Inner(id), s.middles[id].offset);
    } else {
      assert r.taken == s.taken;
    }
  }

  lemma FrontGoesOn<T>(s: State<T>, id: nat)
    ensures forall o :: HasFound(s, Front(id), o) ==> Reports(GoesOn(s, Front(id))) == Reports(s) + multiset{o}
    ensures (forall o :: !HasFound(s, Front(id), o)) ==> Reports(GoesOn(s, Front(id))) == Reports(s)
  {
    if id in s.queue.calls {
      TwoFrontSteps(s.queue, id);
      FrontReports(s, GoesOn(s, Front(id)), id);
    }
  }

  lemma FrontReports<T>(s: State<T>, r: State<T>, id: nat)
    requires id in s.queue.calls && r.taken == s.taken
    requires r.queue.removed ==
             s.queue.removed + if Found(s.queue.calls[id]) then [Taking(id, s.queue.calls[id])] else []
    ensures forall o :: HasFound(s, Front(id), o) ==> Reports(r) == Reports(s) + multiset{o}
    ensures (forall o :: !HasFound(s, Front(id), o)) ==> Reports(r) == Reports(s)
  {
    var p := s.queue.calls[id];
    if Found(p) {
      assert HasFound(s, Front(id), p.offset);
      OffsetsOfMore(s.queue.removed, Taking(id, p));
    } else {
      assert r.queue.removed == s.queue.removed;
    }
  }

  /** A removal from the front that has found an entry, and not decided about it yet. */
  predicate Found<T>(p: Q.Phase<T>) {
    p.RemoveDeleting? || (p.RemoveJudging? && p.found.Some?)
  }

  function Taking<T>(id: nat, p: Q.Phase<T>): Q.Logged<T>
    requires Found(p)
  {
    Q.Logged(Some(id), Entry(p.offset, if p.RemoveDeleting? then p.item else p.found.value))
  }

  lemma TwoFrontSteps<T>(q: Q.State<T>, id: nat)
    requires id in q.calls
    ensures Q.Step(Q.Step(q, Q.Advance(id, true)), Q.Advance(id, true)).removed ==
            q.removed + if Found(q.calls[id]) then [Taking(id, q.calls[id])] else []
  {
    var q1 := Q.Step(q, Q.Advance(id, true));
    OneFrontStep(q, id);
    OneFrontStep(q1, id);
  }

  lemma OneFrontStep<T>(q: Q.State<T>, id: nat)
    requires id in q.calls
    ensures var q1 := Q.Step(q, Q.Advance(id, true));
            && id in q1.calls
            && q1.removed == q.removed + (if q.calls[id].RemoveDeleting? then [Taking(id, q.calls[id])] else [])
            && (q.calls[id].RemoveJudging? && q.calls[id].found.Some? ==>
                  q1.calls[id] == Q.RemoveDeleting(q.calls[id].offset, q.calls[id].found.value))
            && (q1.calls[id].RemoveDeleting? ==> q.calls[id].RemoveJudging? && q.calls[id].found.Some?)
  {
  }

  /** No event of the run takes an entry that another caller has found as well. */
  ghost predicate NeverClashes<T>(s: State<T>, events: seq<Event<T>>)
    decreases |events|
  {
    events == [] || (!Clashes(s, events[0]) && NeverClashes(Step(s, events[0]), events[1..]))
  }

  /** At every point of the run, and whichever caller goes on from there, each entry is reported once at most. */
  ghost predicate StaysOnce<T>(s: State<T>, events: seq<Event<T>>)
    decreases |events|
  {
    && (forall c :: ReportedOnce(GoesOn(s, c)))
    && (events != [] ==> StaysOnce(Step(s, events[0]), events[1..]))
  }

  lemma InvReportsOnce<T>(s: State<T>, c: Caller)
    requires Inv(s)
    ensures ReportedOnce(GoesOn(s, c))
  {
    GoesOnTakes(s, c);
    if o :| HasFound(s, c, o) {
      assert o in Reports(s) ==> GoneFor(s, o);
    }
  }

  lemma ClashIsReportedTwice<T>(s: State<T>, e: Event<T>)
    requires Clashes(s, e)
    ensures exists c :: !ReportedOnce(GoesOn(Step(s, e), c))
  {
    var c, other, o :| Takes(s, e, c, o) && other != c && HasFound(s, other, o);
    var s' := Step(s, e);
    TakingReports(s, e, c, o);
    assert HasFound(s', other, o);
    GoesOnTakes(s', other);
    assert Reports(GoesOn(s', other))[o] >= 2;
  }

  lemma TakingReports<T>(s: State<T>, e: Event<T>, c: Caller, o: int)
    requires Takes(s, e, c, o)
    ensures Reports(Step(s, e)) == Reports(s) + multiset{o}
    ensures forall other, p :: other != c && HasFound(s, other, p) ==> HasFound(Step(s, e), other, p)
  {
    if e.Queue? {
      FrontTaking(s, e.event.id, e.event.verdict);
      OnlyFrontMoves(s, Step(s, e), e.event.id);
    } else {
      OnlyInnerMoves(s, Step(s, e), e.id);
    }
  }

  lemma FrontTaking<T>(s: State<T>, id: nat, verdict: bool)
    requires id in s.queue.calls && s.queue.calls[id].RemoveDeleting?
    ensures var q, q' := s.queue, Q.Step(s.queue, Q.Advance(id, verdict));
            && q'.calls == q.calls[id := Q.RemoveDeleted(q.calls[id].offset)]
            && Offsets(q'.removed) == Offsets(q.removed) + [q.calls[id].offset]
  {
    OffsetsOfMore(s.queue.removed, Taking(id, s.queue.calls[id]));
  }

  lemma {:induction false} StaysOnceIff<T>(s: State<T>, events: seq<Event<T>>)
    requires Inv(s)
    ensures StaysOnce(s, events) <==> NeverClashes(s, events)
    decreases |events|
  {
    forall c
      ensures ReportedOnce(GoesOn(s, c))
    {
      InvReportsOnce(s, c);
    }
    if events != [] {
      if Clashes(s, events[0]) {
        ClashIsReportedTwice(s, events[0]);
      } else {
        StepKeepsInv(s, events[0]);
        StaysOnceIff(Step(s, events[0]), events[1..]);
      }
    }
  }

  /** A queue without holes, and nobody at work. */
  ghost predicate Initial<T>(s: State<T>, base: int) {
    Q.Initial(s.queue, base) && s.middles == map[] && s.taken == []
  }

  /**
   * From the start, with any number of appends and of removals from the front
   * and the middle: each entry is reported once at most, at every point and
   * whichever call goes on from there, exactly when no entry is ever taken that
   * another call has found and not decided about.
   */
  lemma EntryIsReportedOnceIff<T>(s: State<T>, base: int, events: seq<Event<T>>)
    requires Initial(s, base)
    ensures StaysOnce(s, events) <==> NeverClashes(s, events)
  {
    Q.InitialInv(s.queue, base);
    assert Reports(s) == multiset{};
    StaysOnceIff(s, events);
  }

  /** Two removals from the front never clash: one of the two calls is a removal from the middle. */
  lemma FrontsDoNotClash<T>(s: State<T>, e: Event<T>, a: nat, b: nat, o: int)
    requires Q.LocksExclude(s.queue) && Takes(s, e, Front(a), o) && HasFound(s, Front(b), o)
    ensures a == b
  {
    assert Q.HoldsHead(s.queue.calls[a]) && Q.HoldsHead(s.queue.calls[b]);
  }

  // ------------------------------------------------------------------ a call alone

  /** Four steps take a removal from the middle to its end; a call that has ended stays where it is. */
  function InnerAlone<T>(s: State<T>, id: nat, offset: int, verdict: bool): State<T> {
    var go := Advance(id, verdict);
    Step(Step(Step(Step(s, CallRemoveOffset(id, offset)), go), go), go)
  }

  lemma InnerSteps<T>(s: State<T>, id: nat, offset: int, verdict: bool)
    requires id !in s.middles && s.queue.head <= s.queue.tail
    requires 0 <= offset && offset != s.queue.head && offset != s.queue.tail
    ensures InnerAlone(s, id, offset, verdict) ==
            if Lookup(s.queue.items, offset).Some? && verdict
            then State(s.queue.(items := Remove(s.queue.items, offset)),
                       s.middles[id := Finished(offset, true)], s.taken + [offset])
            else s.(middles := s.middles[id := Finished(offset, false)])
  {
    var found := Lookup(s.queue.items, offset);
    var s1 := s.(middles := s.middles[id := Getting(offset)]);
    var s2 := s.(middles := s.middles[id := Judging(offset, found)]);
    var go: Event<T> := Advance(id, verdict);
    assert Step(s1, go) == s2;
    if found.Some? && verdict {
      var s3 := s.(middles := s.middles[id := Deleting(offset)]);
      assert Step(s2, go) == s3;
      assert s3.middles[id := Finished(offset, true)] == s.middles[id := Finished(offset, true)];
    } else {
      var s3 := s.(middles := s.middles[id := Finished(offset, false)]);
      assert Step(s2, go) == s3 == Step(s3, go);
    }
  }

  /** A removal from the middle that nobody interleaves with does what the sequential removal does. */
  lemma RemoveOffsetAlone<T>(s: State<T>, id: nat, offset: StoreUtils.long, pred: SequentialQueue.Predicate<T>,
                             verdict: bool)
    requires id !in s.middles && s.queue.head <= s.queue.tail && Q.HasView(s.queue)
    requires 0 <= offset && offset != s.queue.head && offset != s.queue.tail
    requires Lookup(s.queue.items, offset).Some? ==> verdict == pred(offset, Lookup(s.queue.items, offset).value)
    ensures var r := InnerAlone(s, id, offset, verdict);
            && Q.HasView(r.queue) && id in r.middles && r.middles[id].Finished?
            && (Q.View(r.queue), Success(r.middles[id].taken)) ==
               SequentialQueue.OffsetRemoved(Q.View(s.queue), pred, offset)
  {
    InnerSteps(s, id, offset, verdict);
    Q.AsLongIndex(s.queue.items, offset);
    Q.AsLongRemove(s.queue.items, offset);
  }

  // ------------------------------------------------------------ reported twice

  lemma {:induction false} RunSplits<T>(s: State<T>, a: seq<Event<T>>, b: seq<Event<T>>)
    ensures Run(s, a + b) == Run(Run(s, a), b)
    decreases |a|
  {
    if a == [] {
      assert a + b == b;
    } else {
      assert (a + b)[1..] == a[1..] + b;
      RunSplits(Step(s, a[0]), a[1..], b);
    }
  }

  lemma RunOfTwo<T>(s: State<T>, a: Event<T>, b: Event<T>)
    ensures Run(s, [a, b]) == Step(Step(s, a), b)
  {
    assert [a, b][1..] == [b] && [b][1..] == [];
    assert Run(Step(s, a), [b]) == Run(Step(Step(s, a), b), []);
  }

  ghost predicate RunsTo<T>(s: State<T>, events: seq<Event<T>>, s': State<T>) {
    Run(s, events) == s'
  }

  /** A removal from the front that runs undisturbed and takes what it finds. */
  function TakeFirst<T>(id: nat): seq<Event<T>> {
    var go := Queue(Q.Advance(id, true));
    [Queue(Q.CallRemoveFirst(id)), go] + ([go, go] + ([go, go] + [go, go]))
  }

  lemma TakeFirstIsAlone<T>(s: State<T>, id: nat)
    ensures Run(s, TakeFirst(id)) == s.(queue := Q.RemovedAlone(s.queue, id, true))
  {
    var call: Event<T> := Queue(Q.CallRemoveFirst(id));
    var go: Event<T> := Queue(Q.Advance(id, true));
    RunSplits(s, [call, go], [go, go] + ([go, go] + [go, go]));
    RunOfTwo(s, call, go);
    var s1 := Step(Step(s, call), go);
    RunSplits(s1, [go, go], [go, go] + [go, go]);
    RunOfTwo(s1, go, go);
    var s2 := Step(Step(s1, go), go);
    RunSplits(s2, [go, go], [go, go]);
    RunOfTwo(s2, go, go);
    RunOfTwo(Step(Step(s2, go), go), go, go);
  }

  function ThreeEntries<T>(a: T, b: T, c: T): State<T> {
    var items := [Entry(0, a), Entry(1, b), Entry(2, c)];
    var appended := [Q.Logged(None, items[0]), Q.Logged(None, items[1]), Q.Logged(None, items[2])];
    State(Q.State(0, 2, items, None, None, map[], appended, []), map[], [])
  }

  lemma ThreeEntriesAreInitial<T>(a: T, b: T, c: T)
    ensures Initial(ThreeEntries(a, b, c), 0)
  {
  }

  /** The second of three entries is found by a removal from the middle, and then taken from the front. */
  function Overtaking<T>(): seq<Event<T>> {
    [CallRemoveOffset(7, 1), Advance(7, true)] + (TakeFirst(1) + (TakeFirst(2) + [Advance(7, true), Advance(7, true)]))
  }

  lemma InnerFindsSecond<T>(a: T, b: T, c: T)
    ensures var s := ThreeEntries(a, b, c);
            Run(s, [CallRemoveOffset(7, 1), Advance(7, true)]) == s.(middles := map[7 := Judging(1, Some(b))])
  {
    var s := ThreeEntries(a, b, c);
    RunOfTwo(s, CallRemoveOffset(7, 1), Advance(7, true));
    IndexOfIsUnique(s.queue.items, 1, 1);
  }

  lemma InnerTakesAnyway<T>(s: State<T>, r: State<T>, b: T)
    requires s.middles == map[7 := Judging(1, Some(b))] && s.taken == []
    requires RunsTo(s, [Advance(7, true), Advance(7, true)], r)
    ensures r.middles == map[7 := Finished(1, true)] && r.taken == [1]
    ensures r.queue.calls == s.queue.calls && r.queue.removed == s.queue.removed
  {
    RunOfTwo(s, Advance(7, true), Advance(7, true));
  }

  /** The entry `v` at the front is taken, and reported by removal `id`. */
  predicate HeadGoes<T(==)>(s: State<T>, s': State<T>, id: nat, v: T) {
    var q, q' := s.queue, s'.queue;
    && s'.middles == s.middles && s'.taken == s.taken
    && q.items != [] && q'.items == q.items[1..] && q'.headLock == None
    && q'.head == q.head + 1 && q'.tail == q.tail
    && q'.calls == q.calls[id := Q.RemoveDone(Some(q.head))]
    && q'.removed == q.removed + [Q.Logged(Some(id), Entry(q.head, v))]
  }

  lemma TakeFirstTakesHead<T>(s: State<T>, s': State<T>, id: nat, v: T)
    requires id !in s.queue.calls && s.queue.headLock == None && s.queue.head <= s.queue.tail
    requires s.queue.items != [] && s.queue.items[0] == Entry(s.queue.head, v)
    requires RunsTo(s, TakeFirst(id), s')
    ensures HeadGoes(s, s', id, v)
  {
    var q := s.queue;
    TakeFirstIsAlone(s, id);
    Q.RemoveFirstSteps(q, id, true);
    IndexOfIsUnique(q.items, q.head, 0);
    assert q.items[..0] + q.items[1..] == q.items[1..];
  }

  lemma SecondIsInFront<T>(s: State<T>, s': State<T>, a: T, b: T, c: T)
    requires s.queue == ThreeEntries(a, b, c).queue && HeadGoes(s, s', 1, a)
    ensures s'.queue.items == [Entry(1, b), Entry(2, c)] && s'.queue.head == 1 && s'.queue.tail == 2
    ensures s'.queue.headLock == None && s'.queue.calls == map[1 := Q.RemoveDone(Some(0))]
  {
  }

  lemma FrontTakesTwo<T>(s: State<T>, s': State<T>, s'': State<T>, a: T, b: T, c: T)
    requires s.queue == ThreeEntries(a, b, c).queue && HeadGoes(s, s', 1, a) && HeadGoes(s', s'', 2, b)
    ensures s''.middles == s.middles && s''.taken == s.taken
    ensures s''.queue.calls == map[1 := Q.RemoveDone(Some(0)), 2 := Q.RemoveDone(Some(1))]
    ensures Offsets(s''.queue.removed) == [0, 1]
  {
    var l, m := Q.Logged(Some(1), Entry(0, a)), Q.Logged(Some(2), Entry(1, b));
    OffsetsOfMore([], l);
    OffsetsOfMore([l], m);
    assert s'.queue.removed == [] + [l] && s''.queue.removed == [l] + [m];
  }

  lemma OvertakingInFourParts<T>(a: T, b: T, c: T)
    returns (s1: State<T>, s2: State<T>, s3: State<T>, r: State<T>)
    ensures s1 == ThreeEntries(a, b, c).(middles := map[7 := Judging(1, Some(b))])
    ensures RunsTo(s1, TakeFirst(1), s2) && RunsTo(s2, TakeFirst(2), s3)
    ensures RunsTo(s3, [Advance(7, true), Advance(7, true)], r)
    ensures r == Run(ThreeEntries(a, b, c), Overtaking())
  {
    var e: seq<Event<T>> := [CallRemoveOffset(7, 1), Advance(7, true)];
    var f: seq<Event<T>> := [Advance(7, true), Advance(7, true)];
    InnerFindsSecond(a, b, c);
    var s := ThreeEntries(a, b, c);
    s1 := s.(middles := map[7 := Judging(1, Some(b))]);
    s2 := Run(s1, TakeFirst(1));
    s3 := Run(s2, TakeFirst(2));
    r := Run(s3, f);
    RunSplits(s, e, TakeFirst(1) + (TakeFirst(2) + f));
    RunSplits(s1, TakeFirst(1), TakeFirst(2) + f);
    RunSplits(s2, TakeFirst(2), f);
  }

  /**
   * A run from the start in which two calls report that they took one entry: the
   * removal from the middle has found it when the front reaches it.
   */
  lemma EntryCanBeReportedTwice<T>(a: T, b: T, c: T)
    ensures Initial(ThreeEntries(a, b, c), 0)
    ensures var r := Run(ThreeEntries(a, b, c), Overtaking());
            && r.queue.calls == map[1 := Q.RemoveDone(Some(0)), 2 := Q.RemoveDone(Some(1))]
            && r.middles == map[7 := Finished(1, true)]
            && Reports(r) == multiset{0, 1, 1}
  {
    ThreeEntriesAreInitial(a, b, c);
    var s1, s2, s3, r := OvertakingInFourParts(a, b, c);
    TakeFirstTakesHead(s1, s2, 1, a);
    SecondIsInFront(s1, s2, a, b, c);
    TakeFirstTakesHead(s2, s3, 2, b);
    FrontTakesTwo(s1, s2, s3, a, b, c);
    InnerTakesAnyway(s3, r, b);
  }
}
