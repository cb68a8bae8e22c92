/** Locks for keys: keys are divided into shards, with one lock per shard. */
module AsyncLockProvider {
  import opened InMemoryDbStore

  /** Remainder that takes the sign of the dividend. */
  function TruncatedRemainder(a: int, n: int): int
    requires n > 0
  {
    if a >= 0 then a % n else -((-a) % n)
  }

  /** Every hash code, negative ones included, falls on a shard that exists. */
  function Shard(hash: int32, keyShardCount: nat): (i: nat)
    requires keyShardCount > 0
    ensures i < keyShardCount
  {
    var r := TruncatedRemainder(hash, keyShardCount);
    if r < 0 then -r else r
  }

  /** Hash codes take the shards in turn, and the sign makes no difference. */
  lemma ShardsTakeTurns(hash: int32, keyShardCount: nat)
    requires keyShardCount > 0
    ensures 0 <= hash ==> hash == (hash / keyShardCount) * keyShardCount + Shard(hash, keyShardCount)
    ensures INT_MIN < hash ==> Shard(-hash, keyShardCount) == Shard(hash, keyShardCount)
  {
  }

  class AsyncLock {
    constructor () {
    }
  }

  class AsyncLockProvider {
    const locks: array<AsyncLock?>

    ghost predicate Valid()
      reads locks
    {
      && locks.Length > 0
      && (forall i :: 0 <= i < locks.Length ==> locks[i] != null)
      && (forall i, j :: 0 <= i < j < locks.Length ==> locks[i] != locks[j])
    }

    /** One lock per shard, all different. */
    constructor (keyShardCount: nat)
      requires keyShardCount > 0
      ensures Valid() && fresh(locks) && locks.Length == keyShardCount
    {
      locks := new AsyncLock?[keyShardCount](_ => null);
      new;
      for i := 0 to keyShardCount
        invariant forall j :: 0 <= j < i ==> locks[j] != null && fresh(locks[j])
        invariant forall j, k :: 0 <= j < k < i ==> locks[j] != locks[k]
      {
        locks[i] := new AsyncLock();
      }
    }

    /** Two keys share a lock exactly when their hash codes fall on the same shard. */
    method GetLock(hash: int32) returns (lock: AsyncLock)
      requires Valid()
      ensures lock == locks[Shard(hash, locks.Length)]
      ensures forall h: int32 :: locks[Shard(h, locks.Length)] == lock <==>
                                 Shard(h, locks.Length) == Shard(hash, locks.Length)
    {
      var r := TruncatedRemainder(hash, locks.Length);
      lock := locks[if r < 0 then -r else r];
    }
  }
}

/** Read-modify-write on a key/value store, one call at a time. */
module EntityStore {
  import opened Wrappers

  datatype Call<!K, !V> =
    | Put(key: K, value: V)
    | Update(key: K, updator: V -> V)
    | PutOrUpdate(key: K, value: V, updator: V -> V)
    | FindOrPut(key: K, value: V)
    | RemoveIf(key: K, pred: V -> bool)
    | Remove(key: K)

  datatype Outcome<V> = Stored | Value(value: V) | Removed(done: bool) | NotFound

  function At<K, V>(m: map<K, V>, k: K): Option<V> {
    if k in m then Some(m[k]) else None
  }

  function With<K, V>(m: map<K, V>, k: K, v: Option<V>): map<K, V> {
    match v case Some(x) => m[k := x] case None => m - {k}
  }

  /** What a call makes of the value it finds under its key, and what it returns. */
  function Effect<K, V>(call: Call<K, V>, found: Option<V>): (Option<V>, Outcome<V>) {
    match call
    case Put(_, v) => (Some(v), Stored)
    case Update(_, f) =>
      if found.Some? then (Some(f(found.value)), Value(f(found.value))) else (None, NotFound)
    case PutOrUpdate(_, v, f) =>
      var updated := if found.Some? then f(found.value) else v;
      (Some(updated), Value(updated))
    case FindOrPut(_, v) =>
      var kept := if found.Some? then found.value else v;
      (Some(kept), Value(kept))
    case RemoveIf(_, p) =>
      if found.Some? && p(found.value) then (None, Removed(true)) else (found, Removed(false))
    case Remove(_) => (None, Stored)
  }

  function Exec<K, V>(call: Call<K, V>, m: map<K, V>): map<K, V> {
    With(m, call.key, Effect(call, At(m, call.key)).0)
  }

  class EntityStore<K(==), V> {
    var dbStore: map<K, V>

    constructor ()
      ensures dbStore == map[]
    {
      dbStore := map[];
    }

    method Get(key: K) returns (r: Option<V>)
      ensures r == At(dbStore, key)
    {
      r := if key in dbStore then Some(dbStore[key]) else None;
    }

    method Put(key: K, value: V)
      modifies this
      ensures dbStore == old(dbStore)[key := value]
      ensures dbStore == Exec(Call.Put(key, value), old(dbStore))
    {
      dbStore := dbStore[key := value];
    }

    method Remove(key: K)
      modifies this
      ensures dbStore == old(dbStore) - {key}
      ensures dbStore == Exec(Call.Remove(key), old(dbStore))
    {
      dbStore := dbStore - {key};
    }

    method RemoveIf(key: K, pred: V -> bool) returns (r: bool)
      modifies this
      ensures r <==> key in old(dbStore) && pred(old(dbStore)[key])
      ensures dbStore == if r then old(dbStore) - {key} else old(dbStore)
      ensures var call := Call.RemoveIf(key, pred);
              && dbStore == Exec(call, old(dbStore))
              && Removed(r) == Effect(call, At(old(dbStore), key)).1
    {
      var value := Get(key);
      if value.Some? && pred(value.value) {
        Remove(key);
        return true;
      }
      return false;
    }

    /** Fails, and changes nothing, when the key is not there. */
    method Update(key: K, updator: V -> V) returns (r: Outcome<V>)
      modifies this
      ensures if key in old(dbStore)
              then var v := updator(old(dbStore)[key]); r == Value(v) && dbStore == old(dbStore)[key := v]
              else r == NotFound && dbStore == old(dbStore)
      ensures var call := Call.Update(key, updator);
              dbStore == Exec(call, old(dbStore)) && r == Effect(call, At(old(dbStore), key)).1
    {
      var existing := Get(key);
      if existing.None? {
        return NotFound;
      }
      var updated := updator(existing.value);
      dbStore := dbStore[key := updated];
      return Value(updated);
    }

    method PutOrUpdate(key: K, value: V, updator: V -> V) returns (r: V)
      modifies this
      ensures r == if key in old(dbStore) then updator(old(dbStore)[key]) else value
      ensures dbStore == old(dbStore)[key := r]
      ensures var call := Call.PutOrUpdate(key, value, updator);
              dbStore == Exec(call, old(dbStore)) && Value(r) == Effect(call, At(old(dbStore), key)).1
    {
      var existing := Get(key);
      if existing.Some? {
        r := updator(existing.value);
      } else {
        r := value;
      }
      dbStore := dbStore[key := r];
    }

    method FindOrPut(key: K, value: V) returns (r: V)
      modifies this
      ensures r == if key in old(dbStore) then old(dbStore)[key] else value
      ensures dbStore == if key in old(dbStore) then old(dbStore) else old(dbStore)[key := value]
      ensures var call := Call.FindOrPut(key, value);
              dbStore == Exec(call, old(dbStore)) && Value(r) == Effect(call, At(old(dbStore), key)).1
    {
      var existing := Get(key);
      if existing.None? {
        dbStore := dbStore[key := value];
        return value;
      }
      return existing.value;
    }
  }
}

/**
 * Concurrent use of the entity store. Each call but the plain Remove takes the
 * lock of its key's shard, reads, writes and releases, with an await between any
 * two of these. The plain Remove takes no lock: it is one step.
 */
module ConcurrentEntityStore {
  import opened Wrappers
  import opened EntityStore
  import AsyncLockProvider
  import InMemoryDbStore

  datatype Phase<V> =
    | Waiting
    | Locked
    | Got(found: Option<V>)                           // has read, and is going to store a value
    | Settled(found: Option<V>, effect: nat)          // has read, and is not going to store a value
    | Written(outcome: Outcome<V>, effect: nat)
    | Done(outcome: Outcome<V>, effect: nat, release: Option<nat>)

  datatype Job<!K, !V> = Job(call: Call<K, V>, phase: Phase<V>)

  datatype Logged<!K, !V> = Logged(id: nat, call: Call<K, V>, outcome: Outcome<V>)

  /**
   * A call takes effect when it stores its value, or when it reads if it is not
   * going to store one. The places of a call in the two logs are in its phase.
   */
  datatype State<!K, !V> = State(
    db: map<K, V>,
    locks: map<nat, nat>,          // held shard -> call that holds it
    jobs: map<nat, Job<K, V>>,
    effects: seq<Logged<K, V>>,    // calls in the order in which they took effect
    releases: seq<Logged<K, V>>)   // locked calls in the order in which they released their lock

  datatype Event<!K, !V> =
    | Start(id: nat, call: Call<K, V>)
    | Advance(id: nat)
    | PlainRemove(id: nat, key: K)

  /** The shard whose lock a call takes; it may look at the call as well as at the key. */
  type Sharding<!K> = (nat, K) -> nat

  function Step<K, V>(shard: Sharding<K>, s: State<K, V>, e: Event<K, V>): State<K, V> {
    match e
    case Start(id, call) =>
      if id in s.jobs || call.Remove? then s else s.(jobs := s.jobs[id := Job(call, Waiting)])
    case PlainRemove(id, key) => if id in s.jobs then s else WithRemoved(s, id, key)
    case Advance(id) => if id in s.jobs then Advanced(shard, s, id) else s
  }

  function WithRemoved<K, V>(s: State<K, V>, id: nat, key: K): State<K, V> {
    var call := Call.Remove(key);
    s.(db := s.db - {key},
       jobs := s.jobs[id := Job(call, Done(Stored, |s.effects|, None))],
       effects := s.effects + [Logged(id, call, Stored)])
  }

  /** Whether the call, having found this, is going to store a value. */
  predicate Stores<K, V>(call: Call<K, V>, found: Option<V>) {
    || call.Put? || call.PutOrUpdate?
    || (call.Update? && found.Some?)
    || (call.FindOrPut? && found.None?)
  }

  function Advanced<K, V>(shard: Sharding<K>, s: State<K, V>, id: nat): State<K, V>
    requires id in s.jobs
  {
    var call := s.jobs[id].call;
    var lock := shard(id, call.key);
    match s.jobs[id].phase
    case Waiting =>
      if lock in s.locks then s
      else s.(locks := s.locks[lock := id], jobs := s.jobs[id := Job(call, Locked)])
    case Locked =>
      var found := At(s.db, call.key);
      if call.Put? then Wrote(s, id, None)
      else if Stores(call, found) then s.(jobs := s.jobs[id := Job(call, Got(found))])
      else s.(jobs := s.jobs[id := Job(call, Settled(found, |s.effects|))],
              effects := s.effects + [Logged(id, call, WriteBack(call, found, s.db).1)])
    case Got(found) => Wrote(s, id, found)
    case Settled(found, effect) =>
      var (db, outcome) := WriteBack(call, found, s.db);
      s.(db := db, jobs := s.jobs[id := Job(call, Written(outcome, effect))])
    case Written(outcome, effect) =>
      s.(locks := s.locks - {lock},
         jobs := s.jobs[id := Job(call, Done(outcome, effect, Some(|s.releases|)))],
         releases := s.releases + [Logged(id, call, outcome)])
    case Done(_, _, _) => s
  }

  /** The call stores its value. */
  function Wrote<K, V>(s: State<K, V>, id: nat, found: Option<V>): State<K, V>
    requires id in s.jobs
  {
    var call := s.jobs[id].call;
    var (db, outcome) := WriteBack(call, found, s.db);
    s.(db := db,
       jobs := s.jobs[id := Job(call, Written(outcome, |s.effects|))],
       effects := s.effects + [Logged(id, call, outcome)])
  }

  /** The write that follows the read, if there is one. */
  function WriteBack<K, V>(call: Call<K, V>, found: Option<V>, db: map<K, V>): (map<K, V>, Outcome<V>) {
    match call
    case Put(k, v) => (db[k := v], Stored)
    case Update(k, f) =>
      if found.None? then (db, NotFound) else (db[k := f(found.value)], Value(f(found.value)))
    case PutOrUpdate(k, v, f) =>
      if found.Some? then (db[k := f(found.value)], Value(f(found.value))) else (db[k := v], Value(v))
    case FindOrPut(k, v) =>
      if found.Some? then (db, Value(found.value)) else (db[k := v], Value(v))
    case RemoveIf(k, p) =>
      if found.Some? && p(found.value) then (db - {k}, Removed(true)) else (db, Removed(false))
    case Remove(k) => (db - {k}, Stored)
  }

  /** What the write will leave under the key of the call, and what the call will return. */
  function Pending<K, V>(call: Call<K, V>, found: Option<V>, db: map<K, V>): (Option<V>, Outcome<V>) {
    var (after, outcome) := WriteBack(call, found, db);
    (At(after, call.key), outcome)
  }

  ghost function Run<K, V>(shard: Sharding<K>, s: State<K, V>, events: seq<Event<K, V>>): State<K, V>
    decreases |events|
  {
    if events == [] then s else Run(shard, Step(shard, s, events[0]), events[1..])
  }

  // ------------------------------------------------------- the serial reference

  /** The map that the calls leave when they run one at a time in this order. */
  ghost function Serial<K, V>(m: map<K, V>, log: seq<Logged<K, V>>): map<K, V> {
    if log == [] then m else Exec(log[|log| - 1].call, Serial(m, log[..|log| - 1]))
  }

  /** Every call returned what it returns when the calls run one at a time in this order. */
  ghost predicate OutcomesAreSerial<K, V>(m: map<K, V>, log: seq<Logged<K, V>>) {
    log == [] ||
      var before, last := log[..|log| - 1], log[|log| - 1];
      && OutcomesAreSerial(m, before)
      && last.outcome == Effect(last.call, At(Serial(m, before), last.call.key)).1
  }

  lemma SerialOfMore<K, V>(m: map<K, V>, log: seq<Logged<K, V>>, e: Logged<K, V>)
    ensures Serial(m, log + [e]) == Exec(e.call, Serial(m, log))
    ensures OutcomesAreSerial(m, log + [e]) <==>
            && OutcomesAreSerial(m, log)
            && e.outcome == Effect(e.call, At(Serial(m, log), e.call.key)).1
  {
    assert (log + [e])[..|log|] == log;
  }

  /** The call at `i` is the last one of the log on `k`. */
  ghost predicate IsLastOn<K, V>(log: seq<Logged<K, V>>, i: nat, k: K) {
    i < |log| && log[i].call.key == k && forall j :: i < j < |log| ==> log[j].call.key != k
  }

  /** What is under a key, and what a call returns, given what the calls before it left there. */
  ghost predicate LeavesAndReturns<K, V>(
    call: Call<K, V>, before: Option<V>, after: Option<V>, outcome: Outcome<V>) {
    match call
    case Put(_, v) => after == Some(v) && outcome == Stored
    case Remove(_) => after == None && outcome == Stored
    case Update(_, f) =>
      if before.None? then after == None && outcome == NotFound
      else after == Some(f(before.value)) && outcome == Value(f(before.value))
    case PutOrUpdate(_, v, f) =>
      var stored := if before.None? then v else f(before.value);
      after == Some(stored) && outcome == Value(stored)
    case FindOrPut(_, v) =>
      if before.None? then after == Some(v) && outcome == Value(v)
      else after == before && outcome == Value(before.value)
    case RemoveIf(_, p) =>
      var done := before.Some? && p(before.value);
      after == (if done then None else before) && outcome == Removed(done)
  }

  lemma ExecActsOnOneKey<K(!new), V>(call: Call<K, V>, m: map<K, V>, k: K)
    ensures At(Exec(call, m), k) == if k == call.key then Effect(call, At(m, k)).0 else At(m, k)
  {
  }

  /** A key without a call keeps its value. */
  lemma {:induction false} KeyWithoutCall<K(!new), V>(m: map<K, V>, log: seq<Logged<K, V>>, k: K)
    requires forall i :: 0 <= i < |log| ==> log[i].call.key != k
    ensures At(Serial(m, log), k) == At(m, k)
    decreases |log|
  {
    if log != [] {
      KeyWithoutCall(m, log[..|log| - 1], k);
      ExecActsOnOneKey(log[|log| - 1].call, Serial(m, log[..|log| - 1]), k);
    }
  }

  /** A key has what the last call on it leaves there, and that call returned what it should. */
  lemma {:induction false} LastCallDecides<K(!new), V>(m: map<K, V>, log: seq<Logged<K, V>>, i: nat, k: K)
    requires OutcomesAreSerial(m, log) && IsLastOn(log, i, k)
    ensures LeavesAndReturns(log[i].call, At(Serial(m, log[..i]), k), At(Serial(m, log), k), log[i].outcome)
    decreases |log|
  {
    var before, last := log[..|log| - 1], log[|log| - 1];
    ExecActsOnOneKey(last.call, Serial(m, before), k);
    if i < |log| - 1 {
      LastCallDecides(m, before, i, k);
      assert before[..i] == log[..i];
    }
  }

  // -------------------------------------------- invariant for the order of effects

  /** Equal keys go to equal shards. */
  ghost predicate ByKey<K(!new)>(shard: Sharding<K>) {
    forall i, j, k :: shard(i, k) == shard(j, k)
  }

  predicate Holds<V>(p: Phase<V>) {
    p.Locked? || p.Got? || p.Settled? || p.Written?
  }

  ghost predicate LocksExclude<K, V>(shard: Sharding<K>, s: State<K, V>) {
    && (forall l <- s.locks :: s.locks[l] in s.jobs && shard(s.locks[l], s.jobs[s.locks[l]].call.key) == l)
    && (forall id <- s.jobs ::
          var l := shard(id, s.jobs[id].call.key);
          Holds(s.jobs[id].phase) <==> l in s.locks && s.locks[l] == id)
  }

  /** The call has decided to remove what it found, and has not done so yet. */
  predicate Removes<K, V>(job: Job<K, V>) {
    job.phase.Settled? && job.call.RemoveIf? && job.phase.found.Some? && job.call.pred(job.phase.found.value)
  }

  ghost predicate Lags<K, V>(s: State<K, V>, k: K, id: nat) {
    id in s.jobs && s.jobs[id].call.key == k && Removes(s.jobs[id])
  }

  /** The database is the serial map, except under keys whose removal is decided. */
  ghost predicate DbAgrees<K(!new), V>(s: State<K, V>, serial: map<K, V>) {
    forall k :: (forall id :: !Lags(s, k, id)) ==> At(s.db, k) == At(serial, k)
  }

  ghost predicate IsAt<K, V>(log: seq<Logged<K, V>>, i: nat, e: Logged<K, V>) {
    i < |log| && log[i] == e
  }

  ghost predicate JobAgrees<K, V>(s: State<K, V>, serial: map<K, V>, id: nat, job: Job<K, V>) {
    match job.phase
    case Got(found) =>
      Stores(job.call, found) && Pending(job.call, found, s.db) == Effect(job.call, At(serial, job.call.key))
    case Settled(found, effect) =>
      && !Stores(job.call, found) && !job.call.Remove?
      && IsAt(s.effects, effect, Logged(id, job.call, WriteBack(job.call, found, s.db).1))
      && (Removes(job) ==> At(serial, job.call.key) == None)
    case Written(outcome, effect) => IsAt(s.effects, effect, Logged(id, job.call, outcome))
    case Done(outcome, effect, _) => IsAt(s.effects, effect, Logged(id, job.call, outcome))
    case _ => !job.call.Remove?
  }

  ghost predicate JobsAgree<K, V>(s: State<K, V>, serial: map<K, V>) {
    forall id <- s.jobs :: JobAgrees(s, serial, id, s.jobs[id])
  }

  ghost predicate Inv<K(!new), V>(shard: Sharding<K>, m: map<K, V>, s: State<K, V>) {
    && LocksExclude(shard, s)
    && DbAgrees(s, Serial(m, s.effects))
    && JobsAgree(s, Serial(m, s.effects))
    && OutcomesAreSerial(m, s.effects)
  }

  /** At most one call works on a key at a time. */
  lemma KeyHasOneHolder<K(!new), V>(shard: Sharding<K>, s: State<K, V>, a: nat, b: nat)
    requires ByKey(shard) && LocksExclude(shard, s)
    requires a in s.jobs && b in s.jobs && s.jobs[a].call.key == s.jobs[b].call.key
    requires Holds(s.jobs[a].phase) && Holds(s.jobs[b].phase)
    ensures a == b
  {
    assert shard(a, s.jobs[a].call.key) == shard(b, s.jobs[a].call.key);
  }

  lemma AdvanceKeepsLocks<K(!new), V>(shard: Sharding<K>, s: State<K, V>, id: nat)
    requires LocksExclude(shard, s) && id in s.jobs
    ensures LocksExclude(shard, Advanced(shard, s, id))
  {
  }

  /** The write of a read-modify-write is the effect of the call on what was read, under its key only. */
  lemma WriteBackIsEffect<K(!new), V>(call: Call<K, V>, db: map<K, V>)
    ensures var (after, outcome) := WriteBack(call, At(db, call.key), db);
            && outcome == Effect(call, At(db, call.key)).1
            && forall k :: At(after, k) == if k == call.key then Effect(call, At(db, call.key)).0 else At(db, k)
  {
  }

  /** A write touches its key only, and its outcome does not depend on the database. */
  lemma WriteIsLocal<K(!new), V>(call: Call<K, V>, found: Option<V>, db: map<K, V>, db': map<K, V>)
    ensures forall k :: k != call.key ==> At(WriteBack(call, found, db).0, k) == At(db, k)
    ensures WriteBack(call, found, db).1 == WriteBack(call, found, db').1
    ensures At(db, call.key) == At(db', call.key) ==> Pending(call, found, db) == Pending(call, found, db')
  {
  }

  lemma HolderSeesSerialValue<K(!new), V>(shard: Sharding<K>, s: State<K, V>, serial: map<K, V>, id: nat)
    requires ByKey(shard) && LocksExclude(shard, s) && DbAgrees(s, serial)
    requires id in s.jobs && Holds(s.jobs[id].phase) && !Removes(s.jobs[id])
    ensures At(s.db, s.jobs[id].call.key) == At(serial, s.jobs[id].call.key)
  {
    var k := s.jobs[id].call.key;
    forall other
      ensures !Lags(s, k, other)
    {
      if Lags(s, k, other) {
        KeyHasOneHolder(shard, s, id, other);
      }
    }
  }

  /** What another call knows stays true when the database and the serial map change elsewhere. */
  lemma OtherJobAgrees<K(!new), V>(
    s: State<K, V>, s': State<K, V>, serial: map<K, V>, serial': map<K, V>, other: nat, job: Job<K, V>)
    requires JobAgrees(s, serial, other, job) && s.effects <= s'.effects
    requires Holds(job.phase) ==> At(s'.db, job.call.key) == At(s.db, job.call.key)
    requires Holds(job.phase) ==> At(serial', job.call.key) == At(serial, job.call.key)
    ensures JobAgrees(s', serial', other, job)
  {
    if job.phase.Got? || job.phase.Settled? {
      WriteIsLocal(job.call, job.phase.found, s.db, s'.db);
    }
  }

  /**
   * Call `id` moves on. The database and the serial map change under its key at
   * most, and agree there afterwards unless its removal is decided.
   */
  lemma MoveKeepsInv<K(!new), V>(shard: Sharding<K>, m: map<K, V>, s: State<K, V>, s': State<K, V>, id: nat)
    requires ByKey(shard) && Inv(shard, m, s) && LocksExclude(shard, s') && OutcomesAreSerial(m, s'.effects)
    requires id in s.jobs && Holds(s.jobs[id].phase) && id in s'.jobs
    requires s'.jobs == s.jobs[id := Job(s.jobs[id].call, s'.jobs[id].phase)] && s.effects <= s'.effects
    requires JobAgrees(s', Serial(m, s'.effects), id, s'.jobs[id])
    requires forall k :: k != s.jobs[id].call.key ==> At(s'.db, k) == At(s.db, k)
    requires forall k :: k != s.jobs[id].call.key ==> At(Serial(m, s'.effects), k) == At(Serial(m, s.effects), k)
    requires Removes(s'.jobs[id]) || At(s'.db, s.jobs[id].call.key) == At(Serial(m, s'.effects), s.jobs[id].call.key)
    ensures Inv(shard, m, s')
  {
    var key, serial, serial' := s.jobs[id].call.key, Serial(m, s.effects), Serial(m, s'.effects);
    forall k | forall other :: !Lags(s', k, other)
      ensures At(s'.db, k) == At(serial', k)
    {
      assert !Lags(s', k, id);
      if k != key {
        forall other
          ensures !Lags(s, k, other)
        {
          assert !Lags(s', k, other);
        }
      }
    }
    forall other <- s'.jobs | other != id
      ensures JobAgrees(s', serial', other, s'.jobs[other])
    {
      if Holds(s.jobs[other].phase) && s.jobs[other].call.key == key {
        KeyHasOneHolder(shard, s, id, other);
      }
      OtherJobAgrees(s, s', serial, serial', other, s.jobs[other]);
    }
  }

  /** Call `id` takes effect: it is logged with what it returns on the serial map. */
  lemma EffectIsLogged<K(!new), V>(m: map<K, V>, effects: seq<Logged<K, V>>, e: Logged<K, V>)
    requires OutcomesAreSerial(m, effects)
    requires e.outcome == Effect(e.call, At(Serial(m, effects), e.call.key)).1
    ensures OutcomesAreSerial(m, effects + [e])
    ensures At(Serial(m, effects + [e]), e.call.key) == Effect(e.call, At(Serial(m, effects), e.call.key)).0
    ensures forall k :: k != e.call.key ==> At(Serial(m, effects + [e]), k) == At(Serial(m, effects), k)
  {
    SerialOfMore(m, effects, e);
    forall k
      ensures At(Exec(e.call, Serial(m, effects)), k) ==
              if k == e.call.key then Effect(e.call, At(Serial(m, effects), k)).0 else At(Serial(m, effects), k)
    {
      ExecActsOnOneKey(e.call, Serial(m, effects), k);
    }
  }

  lemma WriteKeepsInv<K(!new), V>(shard: Sharding<K>, m: map<K, V>, s: State<K, V>, id: nat, found: Option<V>)
    requires ByKey(shard) && Inv(shard, m, s) && id in s.jobs && (s.jobs[id].phase.Locked? || s.jobs[id].phase.Got?)
    requires LocksExclude(shard, Wrote(s, id, found))
    requires Pending(s.jobs[id].call, found, s.db) ==
             Effect(s.jobs[id].call, At(Serial(m, s.effects), s.jobs[id].call.key))
    ensures Inv(shard, m, Wrote(s, id, found))
  {
    var call := s.jobs[id].call;
    WriteIsLocal(call, found, s.db, s.db);
    EffectIsLogged(m, s.effects, Logged(id, call, WriteBack(call, found, s.db).1));
    MoveKeepsInv(shard, m, s, Wrote(s, id, found), id);
  }

  lemma ReadKeepsInv<K(!new), V>(shard: Sharding<K>, m: map<K, V>, s: State<K, V>, id: nat)
    requires ByKey(shard) && Inv(shard, m, s) && id in s.jobs && s.jobs[id].phase.Locked? && !s.jobs[id].call.Put?
    ensures Inv(shard, m, Advanced(shard, s, id))
  {
    var call := s.jobs[id].call;
    var found := At(s.db, call.key);
    assert JobAgrees(s, Serial(m, s.effects), id, s.jobs[id]);
    AdvanceKeepsLocks(shard, s, id);
    HolderSeesSerialValue(shard, s, Serial(m, s.effects), id);
    WriteBackIsEffect(call, s.db);
    if !Stores(call, found) {
      EffectIsLogged(m, s.effects, Logged(id, call, WriteBack(call, found, s.db).1));
    }
    MoveKeepsInv(shard, m, s, Advanced(shard, s, id), id);
  }

  lemma SettledWriteKeepsInv<K(!new), V>(shard: Sharding<K>, m: map<K, V>, s: State<K, V>, id: nat)
    requires ByKey(shard) && Inv(shard, m, s) && id in s.jobs && s.jobs[id].phase.Settled?
    ensures Inv(shard, m, Advanced(shard, s, id))
  {
    var job := s.jobs[id];
    assert JobAgrees(s, Serial(m, s.effects), id, job);
    AdvanceKeepsLocks(shard, s, id);
    WriteIsLocal(job.call, job.phase.found, s.db, s.db);
    if !Removes(job) {
      HolderSeesSerialValue(shard, s, Serial(m, s.effects), id);
    }
    MoveKeepsInv(shard, m, s, Advanced(shard, s, id), id);
  }

  lemma ReleaseKeepsInv<K(!new), V>(shard: Sharding<K>, m: map<K, V>, s: State<K, V>, id: nat)
    requires ByKey(shard) && Inv(shard, m, s) && id in s.jobs && s.jobs[id].phase.Written?
    ensures Inv(shard, m, Advanced(shard, s, id))
  {
    assert JobAgrees(s, Serial(m, s.effects), id, s.jobs[id]);
    AdvanceKeepsLocks(shard, s, id);
    HolderSeesSerialValue(shard, s, Serial(m, s.effects), id);
    MoveKeepsInv(shard, m, s, Advanced(shard, s, id), id);
  }

  /** A call begins, or takes its lock. */
  lemma IdleKeepsInv<K(!new), V>(
    shard: Sharding<K>, m: map<K, V>, s: State<K, V>, s': State<K, V>, id: nat, call: Call<K, V>)
    requires Inv(shard, m, s) && LocksExclude(shard, s') && !call.Remove?
    requires id in s.jobs ==> s.jobs[id].phase.Waiting?
    requires s'.jobs == s.jobs[id := Job(call, Waiting)] || s'.jobs == s.jobs[id := Job(call, Locked)]
    requires s'.db == s.db && s'.effects == s.effects
    ensures Inv(shard, m, s')
  {
    var serial := Serial(m, s.effects);
    forall k | forall other :: !Lags(s', k, other)
      ensures At(s'.db, k) == At(serial, k)
    {
      forall other
        ensures !Lags(s, k, other)
      {
        assert !Lags(s', k, other);
      }
    }
    forall other <- s'.jobs | other != id
      ensures JobAgrees(s', serial, other, s'.jobs[other])
    {
      OtherJobAgrees(s, s', serial, serial, other, s.jobs[other]);
    }
  }

  // ---------------------------------------------------------------- plain Removes

  /**
   * A plain Remove of the key hurts a call that has found a value and is going
   * to store another one made from it: an update, or an update-or-put that does
   * not store its default value anyway.
   */
  predicate Hurt<K, V(==)>(job: Job<K, V>) {
    && job.phase.Got? && job.phase.found.Some?
    && (job.call.Update? || (job.call.PutOrUpdate? && job.call.updator(job.phase.found.value) != job.call.value))
  }

  /** No call that a plain Remove of `key` would hurt is between its read and its write. */
  ghost predicate Harmless<K, V>(s: State<K, V>, key: K) {
    forall id <- s.jobs :: s.jobs[id].call.key == key ==> !Hurt(s.jobs[id])
  }

  ghost predicate Allowed<K, V>(s: State<K, V>, e: Event<K, V>) {
    e.PlainRemove? && e.id !in s.jobs ==> Harmless(s, e.key)
  }

  /** A call that is going to store is hurt exactly when it acts otherwise on a missing key. */
  lemma HurtIff<K, V>(job: Job<K, V>)
    requires job.phase.Got? && Stores(job.call, job.phase.found)
    ensures Hurt(job) <==> Pending(job.call, job.phase.found, map[]) != Effect(job.call, None)
  {
  }

  lemma RemoveKeepsJob<K(!new), V>(s: State<K, V>, s': State<K, V>, serial: map<K, V>, key: K, other: nat)
    requires other in s.jobs && JobAgrees(s, serial, other, s.jobs[other])
    requires s'.db == s.db - {key} && s.effects <= s'.effects
    requires s.jobs[other].call.key == key ==> !Hurt(s.jobs[other])
    ensures JobAgrees(s', serial - {key}, other, s.jobs[other])
  {
    var job := s.jobs[other];
    if job.phase.Got? || job.phase.Settled? {
      WriteIsLocal(job.call, job.phase.found, s.db, s'.db);
      if job.call.key == key {
        WriteIsLocal(job.call, job.phase.found, map[], s'.db);
        if job.phase.Got? {
          HurtIff(job);
        }
      } else {
        assert At(serial - {key}, job.call.key) == At(serial, job.call.key);
      }
    }
  }

  lemma RemoveKeepsInv<K(!new), V>(shard: Sharding<K>, m: map<K, V>, s: State<K, V>, id: nat, key: K)
    requires Inv(shard, m, s) && id !in s.jobs && Harmless(s, key)
    ensures Inv(shard, m, WithRemoved(s, id, key))
  {
    var s' := WithRemoved(s, id, key);
    var serial := Serial(m, s.effects);
    SerialOfMore(m, s.effects, Logged(id, Call.Remove(key), Stored));
    assert Serial(m, s'.effects) == serial - {key};
    forall k | forall other :: !Lags(s', k, other)
      ensures At(s'.db, k) == At(serial - {key}, k)
    {
      forall other
        ensures !Lags(s, k, other)
      {
        if Lags(s, k, other) {
          assert Lags(s', k, other);
        }
      }
      assert At(s.db, k) == At(serial, k);
    }
    forall other <- s'.jobs | other != id
      ensures JobAgrees(s', serial - {key}, other, s'.jobs[other])
    {
      RemoveKeepsJob(s, s', serial, key, other);
    }
  }

  lemma StepKeepsInv<K(!new), V>(shard: Sharding<K>, m: map<K, V>, s: State<K, V>, e: Event<K, V>)
    requires ByKey(shard) && Inv(shard, m, s) && Allowed(s, e)
    ensures Inv(shard, m, Step(shard, s, e))
  {
    match e
    case Start(id, call) =>
      if id !in s.jobs && !call.Remove? {
        IdleKeepsInv(shard, m, s, Step(shard, s, e), id, call);
      }
    case PlainRemove(id, key) =>
      if id !in s.jobs {
        RemoveKeepsInv(shard, m, s, id, key);
      }
    case Advance(id) =>
      if id in s.jobs {
        AdvanceKeepsInv(shard, m, s, id);
      }
  }

  lemma AdvanceKeepsInv<K(!new), V>(shard: Sharding<K>, m: map<K, V>, s: State<K, V>, id: nat)
    requires ByKey(shard) && Inv(shard, m, s) && id in s.jobs
    ensures Inv(shard, m, Advanced(shard, s, id))
  {
    var job := s.jobs[id];
    assert JobAgrees(s, Serial(m, s.effects), id, job);
    match job.phase
    case Waiting =>
      AdvanceKeepsLocks(shard, s, id);
      if Advanced(shard, s, id) != s {
        IdleKeepsInv(shard, m, s, Advanced(shard, s, id), id, job.call);
      }
    case Locked =>
      if job.call.Put? {
        AdvanceKeepsLocks(shard, s, id);
        WriteKeepsInv(shard, m, s, id, None);
      } else {
        ReadKeepsInv(shard, m, s, id);
      }
    case Got(found) =>
      AdvanceKeepsLocks(shard, s, id);
      WriteKeepsInv(shard, m, s, id, found);
    case Settled(_, _) =>
      SettledWriteKeepsInv(shard, m, s, id);
    case Written(_, _) =>
      ReleaseKeepsInv(shard, m, s, id);
    case Done(_, _, _) =>
  }

  // ------------------------------------------- serialisable in the order of effects

  ghost predicate Initial<K, V>(s: State<K, V>) {
    s.locks == map[] && s.jobs == map[] && s.effects == [] && s.releases == []
  }

  /** No call is between taking and releasing a lock. */
  ghost predicate Quiet<K, V>(s: State<K, V>) {
    forall id <- s.jobs :: !Holds(s.jobs[id].phase)
  }

  /** No call on this key is between taking and releasing its lock. */
  ghost predicate QuietAt<K, V>(s: State<K, V>, k: K) {
    forall id <- s.jobs :: s.jobs[id].call.key == k ==> !Holds(s.jobs[id].phase)
  }

  /**
   * Each logged call returned what it returns when the logged calls run one at a
   * time in the order of the log, and each key that no lock holder is working on
   * has the value that they leave.
   */
  ghost predicate Explains<K(!new), V>(m: map<K, V>, s: State<K, V>, log: seq<Logged<K, V>>) {
    && OutcomesAreSerial(m, log)
    && (forall k :: QuietAt(s, k) ==> At(s.db, k) == At(Serial(m, log), k))
  }

  /** The log of effects explains the state, and every finished call is in it. */
  ghost predicate SerialByEffect<K(!new), V>(m: map<K, V>, s: State<K, V>) {
    && Explains(m, s, s.effects)
    && (forall id <- s.jobs :: s.jobs[id].phase.Done? ==>
          IsAt(s.effects, s.jobs[id].phase.effect, Logged(id, s.jobs[id].call, s.jobs[id].phase.outcome)))
  }

  lemma InvIsSerial<K(!new), V>(shard: Sharding<K>, m: map<K, V>, s: State<K, V>)
    requires Inv(shard, m, s)
    ensures SerialByEffect(m, s)
  {
    var serial := Serial(m, s.effects);
    forall id <- s.jobs
      ensures JobAgrees(s, serial, id, s.jobs[id])
    {
    }
    forall k | QuietAt(s, k)
      ensures At(s.db, k) == At(serial, k)
    {
      assert forall id :: !Lags(s, k, id);
    }
  }

  lemma QuietIsSerialMap<K(!new), V>(m: map<K, V>, s: State<K, V>, log: seq<Logged<K, V>>)
    requires Explains(m, s, log) && Quiet(s)
    ensures s.db == Serial(m, log)
  {
    var serial := Serial(m, log);
    forall k
      ensures k in s.db <==> k in serial
      ensures k in s.db && k in serial ==> s.db[k] == serial[k]
    {
      assert QuietAt(s, k);
    }
  }

  /** Every plain Remove of the run is harmless when it happens. */
  ghost predicate HarmlessRun<K, V>(shard: Sharding<K>, s: State<K, V>, events: seq<Event<K, V>>)
    decreases |events|
  {
    events == [] || (Allowed(s, events[0]) && HarmlessRun(shard, Step(shard, s, events[0]), events[1..]))
  }

  lemma {:induction false} RunKeepsInv<K(!new), V>(
    shard: Sharding<K>, m: map<K, V>, s: State<K, V>, events: seq<Event<K, V>>)
    requires ByKey(shard) && Inv(shard, m, s) && HarmlessRun(shard, s, events)
    ensures Inv(shard, m, Run(shard, s, events))
    decreases |events|
  {
    if events != [] {
      StepKeepsInv(shard, m, s, events[0]);
      RunKeepsInv(shard, m, Step(shard, s, events[0]), events[1..]);
    }
  }

  ghost predicate NoPlainRemove<K, V>(events: seq<Event<K, V>>) {
    forall i :: 0 <= i < |events| ==> !events[i].PlainRemove?
  }

  lemma {:induction false} NoPlainRemoveIsHarmless<K(!new), V>(
    shard: Sharding<K>, s: State<K, V>, events: seq<Event<K, V>>)
    requires NoPlainRemove(events)
    ensures HarmlessRun(shard, s, events)
    decreases |events|
  {
    if events != [] {
      NoPlainRemoveIsHarmless(shard, Step(shard, s, events[0]), events[1..]);
    }
  }

  function Increment<K>(k: K): Call<K, int> {
    Update(k, v => v + 1)
  }

  function Fresh<K>(k: K): State<K, int> {
    State(map[k := 0], map[], map[], [], [])
  }

  lemma {:induction false} RunSplits<K, V>(shard: Sharding<K>, s: State<K, V>, a: seq<Event<K, V>>, b: seq<Event<K, V>>)
    ensures Run(shard, s, a + b) == Run(shard, Run(shard, s, a), b)
    decreases |a|
  {
    if a == [] {
      assert a + b == b;
    } else {
      assert (a + b)[1..] == a[1..] + b;
      RunSplits(shard, Step(shard, s, a[0]), a[1..], b);
    }
  }

  lemma RunOfOne<K, V>(shard: Sharding<K>, s: State<K, V>, e: Event<K, V>)
    ensures Run(shard, s, [e]) == Step(shard, s, e)
  {
    assert [e][1..] == [];
  }

  lemma RunOfTwo<K, V>(shard: Sharding<K>, s: State<K, V>, a: Event<K, V>, b: Event<K, V>)
    ensures Run(shard, s, [a, b]) == Step(shard, Step(shard, s, a), b)
  {
    assert [a, b][1..] == [b];
    RunOfOne(shard, Step(shard, s, a), b);
  }

  /** A plain Remove that hurts a call breaks the order of effects as soon as that call stores. */
  lemma HarmfulRemoveBreaks<K(!new), V>(
    shard: Sharding<K>, m: map<K, V>, s: State<K, V>, id: nat, key: K, hurt: nat)
    requires Inv(shard, m, s) && id !in s.jobs
    requires hurt in s.jobs && s.jobs[hurt].call.key == key && Hurt(s.jobs[hurt])
    ensures !OutcomesAreSerial(m, Step(shard, WithRemoved(s, id, key), Advance(hurt)).effects)
  {
    var s1, job := WithRemoved(s, id, key), s.jobs[hurt];
    SerialOfMore(m, s.effects, Logged(id, Call.Remove(key), Stored));
    assert At(Serial(m, s1.effects), key) == None;
    SerialOfMore(m, s1.effects, Logged(hurt, job.call, WriteBack(job.call, job.phase.found, s1.db).1));
  }

  /** At every point of the run, and however the calls under way go on from there, the effects are serial. */
  ghost predicate StaysSerial<K(!new), V(!new)>(
    shard: Sharding<K>, m: map<K, V>, s: State<K, V>, events: seq<Event<K, V>>)
    decreases |events|
  {
    && (forall more: seq<Event<K, V>> :: NoPlainRemove(more) ==> SerialByEffect(m, Run(shard, s, more)))
    && (events != [] ==> StaysSerial(shard, m, Step(shard, s, events[0]), events[1..]))
  }

  lemma HarmfulRemoveDoesNotStay<K(!new), V(!new)>(
    shard: Sharding<K>, m: map<K, V>, s: State<K, V>, id: nat, key: K)
    requires Inv(shard, m, s) && id !in s.jobs && !Harmless(s, key)
    ensures !StaysSerial(shard, m, WithRemoved(s, id, key), [])
  {
    var hurt :| hurt in s.jobs && s.jobs[hurt].call.key == key && Hurt(s.jobs[hurt]);
    HarmfulRemoveBreaks(shard, m, s, id, key, hurt);
    var s1 := WithRemoved(s, id, key);
    RunOfOne(shard, s1, Advance(hurt));
    var more: seq<Event<K, V>> := [Advance(hurt)];
    assert NoPlainRemove(more) && !SerialByEffect(m, Run(shard, s1, more));
  }

  lemma {:induction false} StaysSerialIffHarmless<K(!new), V(!new)>(
    shard: Sharding<K>, m: map<K, V>, s: State<K, V>, events: seq<Event<K, V>>)
    requires ByKey(shard) && Inv(shard, m, s)
    ensures StaysSerial(shard, m, s, events) <==> HarmlessRun(shard, s, events)
    decreases |events|
  {
    forall more: seq<Event<K, V>> | NoPlainRemove(more)
      ensures SerialByEffect(m, Run(shard, s, more))
    {
      NoPlainRemoveIsHarmless(shard, s, more);
      RunKeepsInv(shard, m, s, more);
      InvIsSerial(shard, m, Run(shard, s, more));
    }
    if events != [] {
      var s' := Step(shard, s, events[0]);
      if Allowed(s, events[0]) {
        StepKeepsInv(shard, m, s, events[0]);
        StaysSerialIffHarmless(shard, m, s', events[1..]);
      } else {
        HarmfulRemoveDoesNotStay(shard, m, s, events[0].id, events[0].key);
        assert !StaysSerial(shard, m, s', []);
      }
    }
  }

  /**
   * From the start, with locks by key: the calls are serial in the order in which
   * they take effect, at every point and however the calls under way go on,
   * exactly when no plain Remove falls between the read and the write of a call
   * that it hurts. Once no lock is held the database is what the calls leave.
   */
  lemma PlainRemoveIsSerialIff<K(!new), V(!new)>(shard: Sharding<K>, s: State<K, V>, events: seq<Event<K, V>>)
    requires ByKey(shard) && Initial(s)
    ensures StaysSerial(shard, s.db, s, events) <==> HarmlessRun(shard, s, events)
    ensures var r := Run(shard, s, events);
            HarmlessRun(shard, s, events) ==>
              SerialByEffect(s.db, r) && (Quiet(r) ==> r.db == Serial(s.db, r.effects))
  {
    StaysSerialIffHarmless(shard, s.db, s, events);
    if HarmlessRun(shard, s, events) {
      var r := Run(shard, s, events);
      RunKeepsInv(shard, s.db, s, events);
      InvIsSerial(shard, s.db, r);
      if Quiet(r) {
        QuietIsSerialMap(s.db, r, r.effects);
      }
    }
  }

  /**
   * An increment that a plain Remove overtakes between its read and its write:
   * it returns its value and brings the key back. Neither order of the two calls
   * explains that.
   */
  lemma PlainRemoveBreaksAnIncrement<K(!new)>(shard: Sharding<K>, k: K)
    ensures var events := [Start(0, Increment(k)), Advance(0), Advance(0), PlainRemove(1, k), Advance(0), Advance(0)];
            var r := Run(shard, Fresh(k), events);
            var increment, remove := Logged(0, Increment(k), Value(1)), Logged(1, Call.Remove(k), Stored);
            && Quiet(r) && r.jobs.Keys == {0, 1}
            && r.jobs[0].phase.Done? && r.jobs[0].phase.outcome == increment.outcome
            && r.jobs[1].phase.Done? && r.jobs[1].phase.outcome == remove.outcome
            && !Explains(map[k := 0], r, [increment, remove]) && !Explains(map[k := 0], r, [remove, increment])
  {
    var e1: seq<Event<K, int>> := [Start(0, Increment(k)), Advance(0)];
    var e2: seq<Event<K, int>> := [Advance(0), PlainRemove(1, k)];
    var e3: seq<Event<K, int>> := [Advance(0), Advance(0)];
    var events := [Start(0, Increment(k)), Advance(0), Advance(0), PlainRemove(1, k), Advance(0), Advance(0)];
    assert events == e1 + (e2 + e3);
    RunSplits(shard, Fresh(k), e1, e2 + e3);
    OvertakenReads(shard, k);
    RunSplits(shard, Run(shard, Fresh(k), e1), e2, e3);
    OvertakenWrites(shard, k);
    NeitherOrderExplains(k, Run(shard, Fresh(k), events));
  }

  lemma NeitherOrderExplains<K(!new)>(k: K, r: State<K, int>)
    requires r.db == map[k := 1] && QuietAt(r, k)
    ensures var increment, remove := Logged(0, Increment(k), Value(1)), Logged(1, Call.Remove(k), Stored);
            !Explains(map[k := 0], r, [increment, remove]) && !Explains(map[k := 0], r, [remove, increment])
  {
    SerialOfOvertaken(k);
  }

  lemma OvertakenReads<K(!new)>(shard: Sharding<K>, k: K)
    ensures var s1 := Run(shard, Fresh(k), [Start(0, Increment(k)), Advance(0)]);
            && s1 == State(map[k := 0], map[shard(0, k) := 0], map[0 := Job(Increment(k), Locked)], [], [])
            && Run(shard, s1, [Advance(0), PlainRemove(1, k)]) == Overtaken(shard, k)
  {
    RunOfTwo(shard, Fresh(k), Start(0, Increment(k)), Advance(0));
    var s1 := Run(shard, Fresh(k), [Start(0, Increment(k)), Advance(0)]);
    assert s1 == State(map[k := 0], map[shard(0, k) := 0], map[0 := Job(Increment(k), Locked)], [], []);
    RunOfTwo(shard, s1, Advance(0), PlainRemove(1, k));
    assert map[k := 0] - {k} == map[];
  }

  /** The increment has read, and the key is gone. */
  function Overtaken<K>(shard: Sharding<K>, k: K): State<K, int> {
    State(map[], map[shard(0, k) := 0],
          map[0 := Job(Increment(k), Got(Some(0))), 1 := Job(Call.Remove(k), Done(Stored, 0, None))],
          [Logged(1, Call.Remove(k), Stored)], [])
  }

  lemma OvertakenWrites<K(!new)>(shard: Sharding<K>, k: K)
    ensures var increment, remove := Logged(0, Increment(k), Value(1)), Logged(1, Call.Remove(k), Stored);
            Run(shard, Overtaken(shard, k), [Advance(0), Advance(0)]) ==
            State(map[k := 1], map[],
                  map[0 := Job(Increment(k), Done(Value(1), 1, Some(0))),
                      1 := Job(Call.Remove(k), Done(Stored, 0, None))],
                  [remove, increment], [increment])
  {
    RunOfTwo(shard, Overtaken(shard, k), Advance(0), Advance(0));
    assert map[shard(0, k) := 0] - {shard(0, k)} == map[];
  }

  lemma SerialOfOvertaken<K(!new)>(k: K)
    ensures var increment, remove := Logged(0, Increment(k), Value(1)), Logged(1, Call.Remove(k), Stored);
            && At(Serial(map[k := 0], [increment, remove]), k) == None
            && !OutcomesAreSerial(map[k := 0], [remove, increment])
  {
    var increment, remove := Logged(0, Increment(k), Value(1)), Logged(1, Call.Remove(k), Stored);
    SerialOfMore(map[k := 0], [increment], remove);
    SerialOfMore(map[k := 0], [remove], increment);
    SerialOfMore(map[k := 0], [], remove);
    assert [increment] + [remove] == [increment, remove] && [remove] + [increment] == [remove, increment];
    assert [] + [remove] == [remove];
  }

  // ------------------------------------------- serialisable in the order of releases

  /** The calls on one key, in order. */
  ghost function OnKey<K, V>(log: seq<Logged<K, V>>, k: K): seq<Logged<K, V>> {
    if log == [] then []
    else OnKey(log[..|log| - 1], k) + if log[|log| - 1].call.key == k then [log[|log| - 1]] else []
  }

  /** The value that the calls on one key leave. */
  ghost function Folded<K, V>(v: Option<V>, log: seq<Logged<K, V>>): Option<V> {
    if log == [] then v else Effect(log[|log| - 1].call, Folded(v, log[..|log| - 1])).0
  }

  ghost predicate OutcomesFold<K, V>(v: Option<V>, log: seq<Logged<K, V>>) {
    log == [] ||
      var before, last := log[..|log| - 1], log[|log| - 1];
      OutcomesFold(v, before) && last.outcome == Effect(last.call, Folded(v, before)).1
  }

  lemma OnKeyOfMore<K(!new), V>(log: seq<Logged<K, V>>, e: Logged<K, V>)
    ensures forall k :: OnKey(log + [e], k) == OnKey(log, k) + if e.call.key == k then [e] else []
  {
    assert (log + [e])[..|log|] == log;
  }

  lemma FoldOfMore<K, V>(v: Option<V>, log: seq<Logged<K, V>>, e: Logged<K, V>)
    ensures Folded(v, log + [e]) == Effect(e.call, Folded(v, log)).0
    ensures OutcomesFold(v, log + [e]) <==> OutcomesFold(v, log) && e.outcome == Effect(e.call, Folded(v, log)).1
  {
    assert (log + [e])[..|log|] == log;
  }

  /** Running the calls one at a time acts on each key as running those on that key. */
  lemma {:induction false} SerialAtKey<K(!new), V>(m: map<K, V>, log: seq<Logged<K, V>>, k: K)
    ensures At(Serial(m, log), k) == Folded(At(m, k), OnKey(log, k))
    decreases |log|
  {
    if log != [] {
      var before, last := log[..|log| - 1], log[|log| - 1];
      assert log == before + [last];
      SerialAtKey(m, before, k);
      SerialOfMore(m, before, last);
      ExecActsOnOneKey(last.call, Serial(m, before), k);
      OnKeyOfMore(before, last);
      FoldOfMore(At(m, k), OnKey(before, k), last);
      assert OnKey(before, k) + [] == OnKey(before, k);
    }
  }

  lemma {:induction false} OutcomesByKey<K(!new), V>(m: map<K, V>, log: seq<Logged<K, V>>)
    ensures OutcomesAreSerial(m, log) <==> forall k :: OutcomesFold(At(m, k), OnKey(log, k))
    decreases |log|
  {
    if log != [] {
      var before, last := log[..|log| - 1], log[|log| - 1];
      var key := last.call.key;
      assert log == before + [last];
      OutcomesByKey(m, before);
      SerialOfMore(m, before, last);
      SerialAtKey(m, before, key);
      OnKeyOfMore(before, last);
      FoldOfMore(At(m, key), OnKey(before, key), last);
      forall k | k != key
        ensures OnKey(log, k) == OnKey(before, k)
      {
        assert OnKey(before, k) + [] == OnKey(before, k);
      }
      if forall k :: OutcomesFold(At(m, k), OnKey(log, k)) {
        forall k
          ensures OutcomesFold(At(m, k), OnKey(before, k))
        {
          assert OutcomesFold(At(m, k), OnKey(log, k));
        }
      }
    } else {
      assert forall k :: OnKey(log, k) == [];
    }
  }

  /** What call `id` logs, once it has taken effect. */
  ghost function EntryOf<K, V>(id: nat, job: Job<K, V>): Logged<K, V>
    requires job.phase.Settled? || job.phase.Written?
  {
    Logged(id, job.call,
           if job.phase.Written? then job.phase.outcome else WriteBack(job.call, job.phase.found, map[]).1)
  }

  /** Call `id` on key `k` has taken effect and not released its lock. */
  ghost predicate Ahead<K, V>(s: State<K, V>, k: K, id: nat) {
    id in s.jobs && s.jobs[id].call.key == k && (s.jobs[id].phase.Settled? || s.jobs[id].phase.Written?)
  }

  /** On each key the releases are the effects, up to the one call that has not released its lock. */
  ghost predicate FollowsAt<K, V>(s: State<K, V>, k: K) {
    && (forall id :: Ahead(s, k, id) ==> OnKey(s.effects, k) == OnKey(s.releases, k) + [EntryOf(id, s.jobs[id])])
    && ((forall id :: !Ahead(s, k, id)) ==> OnKey(s.effects, k) == OnKey(s.releases, k))
  }

  /** Every finished call is in the log of releases. */
  ghost predicate ReleasedAreLogged<K, V>(s: State<K, V>) {
    forall id <- s.jobs :: s.jobs[id].phase.Done? ==>
      && s.jobs[id].phase.release.Some?
      && IsAt(s.releases, s.jobs[id].phase.release.value, Logged(id, s.jobs[id].call, s.jobs[id].phase.outcome))
  }

  ghost predicate Follows<K(!new), V>(s: State<K, V>) {
    (forall k :: FollowsAt(s, k)) && ReleasedAreLogged(s)
  }

  /** Calls on other keys do not see that call `id` moves on. */
  lemma OtherKeyFollows<K(!new), V>(s: State<K, V>, s': State<K, V>, id: nat, k: K)
    requires FollowsAt(s, k) && id in s'.jobs && s'.jobs[id].call.key != k
    requires id in s.jobs ==> s.jobs[id].call.key != k
    requires s'.jobs == s.jobs[id := s'.jobs[id]]
    requires OnKey(s'.effects, k) == OnKey(s.effects, k) && OnKey(s'.releases, k) == OnKey(s.releases, k)
    ensures FollowsAt(s', k)
  {
    assert forall other :: Ahead(s', k, other) <==> Ahead(s, k, other);
  }

  /** A call that holds the lock of its key is the only one that can be ahead on it. */
  lemma OnlyHolderIsAhead<K(!new), V>(shard: Sharding<K>, s: State<K, V>, id: nat)
    requires ByKey(shard) && LocksExclude(shard, s) && id in s.jobs && Holds(s.jobs[id].phase)
    ensures forall other :: Ahead(s, s.jobs[id].call.key, other) ==> other == id
  {
    forall other | Ahead(s, s.jobs[id].call.key, other)
      ensures other == id
    {
      KeyHasOneHolder(shard, s, id, other);
    }
  }

  /** Nobody was ahead on the key, and call `id` takes effect. */
  lemma EffectFollows<K(!new), V>(s: State<K, V>, s': State<K, V>, id: nat, k: K)
    requires FollowsAt(s, k) && (forall other :: !Ahead(s, k, other))
    requires Ahead(s', k, id) && (forall other :: Ahead(s', k, other) ==> other == id)
    requires s'.effects == s.effects + [EntryOf(id, s'.jobs[id])] && s'.releases == s.releases
    ensures FollowsAt(s', k)
  {
    OnKeyOfMore(s.effects, EntryOf(id, s'.jobs[id]));
  }

  /** Call `id` was ahead on the key, and releases its lock. */
  lemma ReleaseFollows<K(!new), V>(s: State<K, V>, s': State<K, V>, id: nat, k: K)
    requires FollowsAt(s, k) && Ahead(s, k, id) && (forall other :: !Ahead(s', k, other))
    requires s'.effects == s.effects && s'.releases == s.releases + [EntryOf(id, s.jobs[id])]
    ensures FollowsAt(s', k)
  {
    OnKeyOfMore(s.releases, EntryOf(id, s.jobs[id]));
  }

  /** Nothing is logged, and who is ahead on the key with what stays the same. */
  lemma UnloggedFollows<K(!new), V>(s: State<K, V>, s': State<K, V>, k: K)
    requires FollowsAt(s, k) && s'.effects == s.effects && s'.releases == s.releases
    requires forall other :: Ahead(s', k, other) <==> Ahead(s, k, other)
    requires forall other :: Ahead(s, k, other) && Ahead(s', k, other) ==>
               EntryOf(other, s'.jobs[other]) == EntryOf(other, s.jobs[other])
    ensures FollowsAt(s', k)
  {
  }

  lemma OwnKeyFollows<K(!new), V>(shard: Sharding<K>, s: State<K, V>, s': State<K, V>, id: nat)
    requires ByKey(shard) && LocksExclude(shard, s) && id in s.jobs && Holds(s.jobs[id].phase)
    requires FollowsAt(s, s.jobs[id].call.key) && s' == Advanced(shard, s, id)
    ensures FollowsAt(s', s.jobs[id].call.key)
  {
    var job := s.jobs[id];
    var k := job.call.key;
    OnlyHolderIsAhead(shard, s, id);
    assert forall other :: other != id ==> !Ahead(s', k, other);
    match job.phase
    case Locked =>
      if s'.effects != s.effects {
        WriteIsLocal(job.call, At(s.db, k), s.db, map[]);
        EffectFollows(s, s', id, k);
      } else {
        UnloggedFollows(s, s', k);
      }
    case Got(found) =>
      EffectFollows(s, s', id, k);
    case Settled(found, _) =>
      assert Ahead(s, k, id);
      WriteIsLocal(job.call, found, s.db, map[]);
      UnloggedFollows(s, s', k);
    case Written(_, _) =>
      assert Ahead(s, k, id);
      ReleaseFollows(s, s', id, k);
  }

  /** What `log'` adds to `log` concerns the key `key` only. */
  ghost predicate AddsOnly<K, V>(log: seq<Logged<K, V>>, log': seq<Logged<K, V>>, key: K) {
    log' == log || (|log'| == |log| + 1 && log'[..|log|] == log && log'[|log|].call.key == key)
  }

  lemma OtherKeyUntouched<K(!new), V>(log: seq<Logged<K, V>>, log': seq<Logged<K, V>>, key: K, k: K)
    requires AddsOnly(log, log', key) && k != key
    ensures OnKey(log', k) == OnKey(log, k)
  {
    if log' != log {
      assert log' == log + [log'[|log|]];
      OnKeyOfMore(log, log'[|log|]);
    }
  }

  lemma AdvanceLogs<K(!new), V>(shard: Sharding<K>, s: State<K, V>, s': State<K, V>, id: nat)
    requires id in s.jobs && s' == Advanced(shard, s, id)
    ensures AddsOnly(s.effects, s'.effects, s.jobs[id].call.key)
    ensures AddsOnly(s.releases, s'.releases, s.jobs[id].call.key)
    ensures id in s'.jobs && s'.jobs[id].call == s.jobs[id].call && s'.jobs == s.jobs[id := s'.jobs[id]]
  {
  }

  lemma AdvanceKeepsReleased<K(!new), V>(shard: Sharding<K>, s: State<K, V>, s': State<K, V>, id: nat)
    requires ReleasedAreLogged(s) && id in s.jobs && s' == Advanced(shard, s, id)
    ensures ReleasedAreLogged(s')
  {
  }

  lemma AdvanceKeepsFollows<K(!new), V>(shard: Sharding<K>, s: State<K, V>, s': State<K, V>, id: nat)
    requires ByKey(shard) && LocksExclude(shard, s) && Follows(s) && id in s.jobs && Holds(s.jobs[id].phase)
    requires s' == Advanced(shard, s, id)
    ensures Follows(s')
  {
    var key := s.jobs[id].call.key;
    AdvanceLogs(shard, s, s', id);
    AdvanceKeepsReleased(shard, s, s', id);
    forall k
      ensures FollowsAt(s', k)
    {
      assert FollowsAt(s, k);
      if k == key {
        OwnKeyFollows(shard, s, s', id);
      } else {
        OtherKeyUntouched(s.effects, s'.effects, key, k);
        OtherKeyUntouched(s.releases, s'.releases, key, k);
        OtherKeyFollows(s, s', id, k);
      }
    }
  }

  /** A call begins, or takes its lock. */
  lemma IdleKeepsFollows<K(!new), V>(s: State<K, V>, s': State<K, V>, id: nat, job: Job<K, V>)
    requires Follows(s) && (job.phase.Waiting? || job.phase.Locked?)
    requires id in s.jobs ==> s.jobs[id].phase.Waiting?
    requires s'.jobs == s.jobs[id := job] && s'.effects == s.effects && s'.releases == s.releases
    ensures Follows(s')
  {
    forall k
      ensures FollowsAt(s', k)
    {
      assert FollowsAt(s, k);
      UnloggedFollows(s, s', k);
    }
  }

  lemma StepKeepsFollows<K(!new), V>(shard: Sharding<K>, s: State<K, V>, e: Event<K, V>)
    requires ByKey(shard) && LocksExclude(shard, s) && Follows(s) && !e.PlainRemove?
    ensures Follows(Step(shard, s, e))
  {
    var s' := Step(shard, s, e);
    if s' != s {
      match e
      case Start(id, call) =>
        IdleKeepsFollows(s, s', id, Job(call, Waiting));
      case Advance(id) =>
        if s.jobs[id].phase.Waiting? {
          IdleKeepsFollows(s, s', id, Job(s.jobs[id].call, Locked));
        } else {
          AdvanceKeepsFollows(shard, s, s', id);
        }
    }
  }

  lemma {:induction false} RunKeepsFollows<K(!new), V>(
    shard: Sharding<K>, m: map<K, V>, s: State<K, V>, events: seq<Event<K, V>>)
    requires ByKey(shard) && Inv(shard, m, s) && Follows(s) && NoPlainRemove(events)
    ensures Follows(Run(shard, s, events))
    decreases |events|
  {
    if events != [] {
      StepKeepsInv(shard, m, s, events[0]);
      StepKeepsFollows(shard, s, events[0]);
      RunKeepsFollows(shard, m, Step(shard, s, events[0]), events[1..]);
    }
  }

  /** The log of releases explains the state, and every finished call is in it. */
  ghost predicate SerialByRelease<K(!new), V>(m: map<K, V>, s: State<K, V>) {
    Explains(m, s, s.releases) && ReleasedAreLogged(s)
  }

  lemma FollowsIsSerial<K(!new), V>(shard: Sharding<K>, m: map<K, V>, s: State<K, V>)
    requires Inv(shard, m, s) && Follows(s)
    ensures SerialByRelease(m, s)
  {
    InvIsSerial(shard, m, s);
    OutcomesByKey(m, s.effects);
    forall k
      ensures OutcomesFold(At(m, k), OnKey(s.releases, k))
    {
      assert FollowsAt(s, k) && OutcomesFold(At(m, k), OnKey(s.effects, k));
      if id :| Ahead(s, k, id) {
        FoldOfMore(At(m, k), OnKey(s.releases, k), EntryOf(id, s.jobs[id]));
      }
    }
    OutcomesByKey(m, s.releases);
    forall k | QuietAt(s, k)
      ensures At(s.db, k) == At(Serial(m, s.releases), k)
    {
      assert FollowsAt(s, k) && forall id :: !Ahead(s, k, id);
      SerialAtKey(m, s.effects, k);
      SerialAtKey(m, s.releases, k);
    }
  }

  /**
   * Every interleaving of locked calls is serialisable in lock-release order:
   * each finished call returned what it returns when the calls run one at a time
   * in that order, and once no lock is held the database is what they leave.
   */
  lemma EveryInterleavingIsSerialisable<K(!new), V>(
    shard: Sharding<K>, s: State<K, V>, events: seq<Event<K, V>>)
    requires ByKey(shard) && Initial(s) && NoPlainRemove(events)
    ensures var r := Run(shard, s, events);
            SerialByRelease(s.db, r) && (Quiet(r) ==> r.db == Serial(s.db, r.releases))
  {
    var r := Run(shard, s, events);
    NoPlainRemoveIsHarmless(shard, s, events);
    RunKeepsInv(shard, s.db, s, events);
    assert Follows(s);
    RunKeepsFollows(shard, s.db, s, events);
    FollowsIsSerial(shard, s.db, r);
    if Quiet(r) {
      QuietIsSerialMap(s.db, r, r.releases);
    }
  }

  // ------------------------------------------------------------------- a call alone

  /** A call that has read, and is going to write what `found` makes of it. */
  ghost predicate HasRead<K, V>(job: Job<K, V>, call: Call<K, V>, found: Option<V>) {
    job.call == call && (job.phase.Got? || job.phase.Settled?) && job.phase.found == found
  }

  ghost predicate HasWritten<K, V>(s: State<K, V>, id: nat, call: Call<K, V>, w: (map<K, V>, Outcome<V>)) {
    && id in s.jobs && s.jobs[id].call == call
    && s.jobs[id].phase.Written? && s.jobs[id].phase.outcome == w.1 && s.db == w.0
  }

  lemma LockedSteps<K(!new), V>(shard: Sharding<K>, s: State<K, V>, s': State<K, V>, id: nat, call: Call<K, V>)
    requires id in s.jobs && s.jobs[id] == Job(call, Locked) && s' == Step(shard, s, Advance(id))
    ensures id in s'.jobs && s'.locks == s.locks
    ensures var found := At(s.db, call.key);
            if call.Put? then HasWritten(s', id, call, WriteBack(call, found, s.db))
            else HasRead(s'.jobs[id], call, found) && s'.db == s.db
  {
  }

  ghost predicate HasEnded<K, V>(s: State<K, V>, id: nat, w: (map<K, V>, Outcome<V>)) {
    id in s.jobs && s.jobs[id].phase.Done? && s.jobs[id].phase.outcome == w.1 && s.db == w.0
  }

  lemma ReadSteps<K(!new), V>(
    shard: Sharding<K>, s: State<K, V>, s': State<K, V>, id: nat, call: Call<K, V>, found: Option<V>)
    requires id in s.jobs && HasRead(s.jobs[id], call, found) && s' == Step(shard, s, Advance(id))
    ensures HasWritten(s', id, call, WriteBack(call, found, s.db)) && s'.locks == s.locks
  {
  }

  lemma WrittenSteps<K(!new), V>(
    shard: Sharding<K>, s: State<K, V>, s': State<K, V>, id: nat, call: Call<K, V>, w: (map<K, V>, Outcome<V>))
    requires HasWritten(s, id, call, w) && s' == Step(shard, s, Advance(id))
    ensures HasEnded(s', id, w) && s'.locks == s.locks - {shard(id, call.key)} && Step(shard, s', Advance(id)) == s'
  {
  }

  lemma StartedLocks<K(!new), V>(
    shard: Sharding<K>, s: State<K, V>, s0: State<K, V>, s1: State<K, V>, id: nat, call: Call<K, V>)
    requires id !in s.jobs && !call.Remove? && shard(id, call.key) !in s.locks
    requires s0 == Step(shard, s, Start(id, call)) && s1 == Step(shard, s0, Advance(id))
    ensures id in s1.jobs && s1.jobs[id] == Job(call, Locked) && s1.db == s.db
    ensures s1.locks == s.locks[shard(id, call.key) := id]
  {
  }

  lemma LockedCallEnds<K(!new), V>(
    shard: Sharding<K>, s1: State<K, V>, s2: State<K, V>, s3: State<K, V>, s4: State<K, V>, id: nat, call: Call<K, V>)
    requires id in s1.jobs && s1.jobs[id] == Job(call, Locked) && s2 == Step(shard, s1, Advance(id))
    requires s3 == Step(shard, s2, Advance(id)) && s4 == Step(shard, s3, Advance(id))
    ensures HasEnded(s4, id, WriteBack(call, At(s1.db, call.key), s1.db))
    ensures s4.locks == s1.locks - {shard(id, call.key)}
  {
    var found := At(s1.db, call.key);
    var w := WriteBack(call, found, s1.db);
    LockedSteps(shard, s1, s2, id, call);
    if call.Put? {
      WrittenSteps(shard, s2, s3, id, call, w);
    } else {
      ReadSteps(shard, s2, s3, id, call, found);
      WrittenSteps(shard, s3, s4, id, call, w);
    }
  }

  /** Four steps take a started call to its end; a call that has ended stays where it is. */
  function RunAlone<K, V>(shard: Sharding<K>, s: State<K, V>, id: nat, call: Call<K, V>): State<K, V> {
    var go := Advance(id);
    Step(shard, Step(shard, Step(shard, Step(shard, Step(shard, s, Start(id, call)), go), go), go), go)
  }

  /**
   * A call that nobody interleaves with runs to its end whenever its lock is
   * free. It leaves under its key, and returns, what it should; other keys and
   * the locks stay as they were.
   */
  lemma CallAlone<K(!new), V>(shard: Sharding<K>, s: State<K, V>, id: nat, call: Call<K, V>)
    requires id !in s.jobs && !call.Remove? && shard(id, call.key) !in s.locks
    ensures var r := RunAlone(shard, s, id, call);
            && id in r.jobs && r.jobs[id].phase.Done? && r.locks == s.locks
            && LeavesAndReturns(call, At(s.db, call.key), At(r.db, call.key), r.jobs[id].phase.outcome)
            && forall k :: k != call.key ==> At(r.db, k) == At(s.db, k)
  {
    var lock := shard(id, call.key);
    var s0 := Step(shard, s, Start(id, call));
    var s1 := Step(shard, s0, Advance(id));
    var s2 := Step(shard, s1, Advance(id));
    var s3 := Step(shard, s2, Advance(id));
    StartedLocks(shard, s, s0, s1, id, call);
    LockedCallEnds(shard, s1, s2, s3, RunAlone(shard, s, id, call), id, call);
    WriteBackIsEffect(call, s.db);
    assert s1.locks - {lock} == s.locks;
  }

  // ------------------------------------------------- exactly when: shards by key

  ghost predicate EveryRunIsSerialisable<K(!new), V(!new)>(shard: Sharding<K>) {
    forall s: State<K, V>, events: seq<Event<K, V>> :: Initial(s) && NoPlainRemove(events) ==>
      SerialByRelease(s.db, Run(shard, s, events))
  }

  /** Two increments that take different locks: both read, both write, both release. */
  function Race<K>(k: K, i: nat, j: nat): seq<Event<K, int>> {
    [Start(i, Increment(k)), Start(j, Increment(k)), Advance(i), Advance(j), Advance(i), Advance(j),
     Advance(i), Advance(j), Advance(i), Advance(j)]
  }

  function Both<K>(k: K, i: nat, j: nat, p: Phase<int>, q: Phase<int>): map<nat, Job<K, int>> {
    map[i := Job(Increment(k), p), j := Job(Increment(k), q)]
  }

  function BothLogged<K>(k: K, i: nat, j: nat): seq<Logged<K, int>> {
    [Logged(i, Increment(k), Value(1)), Logged(j, Increment(k), Value(1))]
  }

  /** Where the race stands after every second event. */
  lemma RaceTakesLocks<K>(shard: Sharding<K>, k: K, i: nat, j: nat)
    requires i != j && shard(i, k) != shard(j, k)
    ensures var locks := map[shard(i, k) := i, shard(j, k) := j];
            var s1 := State(map[k := 0], map[], Both(k, i, j, Waiting, Waiting), [], []);
            && Run(shard, Fresh(k), [Start(i, Increment(k)), Start(j, Increment(k))]) == s1
            && Run(shard, s1, [Advance(i), Advance(j)]) ==
               State(map[k := 0], locks, Both(k, i, j, Locked, Locked), [], [])
  {
    var s1 := State(map[k := 0], map[], Both(k, i, j, Waiting, Waiting), [], []);
    RunOfTwo(shard, Fresh(k), Start(i, Increment(k)), Start(j, Increment(k)));
    RunOfTwo(shard, s1, Advance(i), Advance(j));
  }

  lemma RaceReads<K>(shard: Sharding<K>, k: K, i: nat, j: nat, locks: map<nat, nat>)
    requires i != j
    ensures Run(shard, State(map[k := 0], locks, Both(k, i, j, Locked, Locked), [], []), [Advance(i), Advance(j)]) ==
            State(map[k := 0], locks, Both(k, i, j, Got(Some(0)), Got(Some(0))), [], [])
  {
    RunOfTwo(shard, State(map[k := 0], locks, Both(k, i, j, Locked, Locked), [], []), Advance(i), Advance(j));
  }

  lemma RaceWrites<K>(shard: Sharding<K>, k: K, i: nat, j: nat, locks: map<nat, nat>)
    requires i != j
    ensures var s := State(map[k := 0], locks, Both(k, i, j, Got(Some(0)), Got(Some(0))), [], []);
            Run(shard, s, [Advance(i), Advance(j)]) ==
            State(map[k := 1], locks, Both(k, i, j, Written(Value(1), 0), Written(Value(1), 1)),
                  BothLogged(k, i, j), [])
  {
    var s := State(map[k := 0], locks, Both(k, i, j, Got(Some(0)), Got(Some(0))), [], []);
    RunOfTwo(shard, s, Advance(i), Advance(j));
    assert map[k := 0][k := 1] == map[k := 1];
  }

  lemma RaceReleases<K>(shard: Sharding<K>, k: K, i: nat, j: nat)
    requires i != j && shard(i, k) != shard(j, k)
    ensures var locks := map[shard(i, k) := i, shard(j, k) := j];
            var jobs := Both(k, i, j, Written(Value(1), 0), Written(Value(1), 1));
            Run(shard, State(map[k := 1], locks, jobs, BothLogged(k, i, j), []), [Advance(i), Advance(j)]) ==
            State(map[k := 1], map[], Both(k, i, j, Done(Value(1), 0, Some(0)), Done(Value(1), 1, Some(1))),
                  BothLogged(k, i, j), BothLogged(k, i, j))
  {
    var locks := map[shard(i, k) := i, shard(j, k) := j];
    var jobs := Both(k, i, j, Written(Value(1), 0), Written(Value(1), 1));
    RunOfTwo(shard, State(map[k := 1], locks, jobs, BothLogged(k, i, j), []), Advance(i), Advance(j));
    assert locks - {shard(i, k)} - {shard(j, k)} == map[];
  }

  lemma RaceEnds<K>(shard: Sharding<K>, k: K, i: nat, j: nat)
    requires i != j && shard(i, k) != shard(j, k)
    ensures Run(shard, Fresh(k), Race(k, i, j)) ==
            State(map[k := 1], map[], Both(k, i, j, Done(Value(1), 0, Some(0)), Done(Value(1), 1, Some(1))),
                  BothLogged(k, i, j), BothLogged(k, i, j))
  {
    var e: seq<Event<K, int>> := [Advance(i), Advance(j)];
    var start := [Start(i, Increment(k)), Start(j, Increment(k))];
    assert Race(k, i, j) == start + (e + (e + (e + e)));
    RunSplits(shard, Fresh(k), start, e + (e + (e + e)));
    RaceTakesLocks(shard, k, i, j);
    var s1 := Run(shard, Fresh(k), start);
    RunSplits(shard, s1, e, e + (e + e));
    var s2 := Run(shard, s1, e);
    var locks := map[shard(i, k) := i, shard(j, k) := j];
    RaceReads(shard, k, i, j, locks);
    RaceWrites(shard, k, i, j, locks);
    RunSplits(shard, s2, e, e + e);
    RunSplits(shard, Run(shard, s2, e), e, e);
    RaceReleases(shard, k, i, j);
  }

  /** Whenever one key can go to two shards, two increments of it can both succeed and leave the effect of one. */
  lemma UnequalShardsLoseAnUpdate<K(!new)>(shard: Sharding<K>, k: K, i: nat, j: nat)
    requires shard(i, k) != shard(j, k)
    ensures var r := Run(shard, Fresh(k), Race(k, i, j));
            && Quiet(r) && r.db == map[k := 1] && |r.releases| == 2
            && r.releases[0].outcome == r.releases[1].outcome == Value(1)
            && Serial(map[k := 0], r.releases) == map[k := 2]
            && !SerialByRelease(map[k := 0], r)
  {
    RaceEnds(shard, k, i, j);
    SerialOfTwo(k, i, j);
    var r := Run(shard, Fresh(k), Race(k, i, j));
    assert QuietAt(r, k);
    assert At(r.db, k) == Some(1) && At(Serial(map[k := 0], r.releases), k) == Some(2);
  }

  lemma SerialOfTwo<K>(k: K, i: nat, j: nat)
    ensures Serial(map[k := 0], BothLogged(k, i, j)) == map[k := 2]
  {
    var a, b := Logged(i, Increment(k), Value(1)), Logged(j, Increment(k), Value(1));
    assert [a, b][..1] == [a] && [a][..0] == [];
    assert Serial(map[k := 0], []) == map[k := 0];
    assert Exec(a.call, map[k := 0]) == map[k := 1];
    assert Serial(map[k := 0], [a]) == map[k := 1];
    assert Exec(b.call, map[k := 1]) == map[k := 2];
  }

  /** Every run of locked calls is serialisable in lock-release order exactly when equal keys go to equal shards. */
  lemma SerialisableIffShardedByKey<K(!new)>(shard: Sharding<K>)
    ensures EveryRunIsSerialisable<K, int>(shard) <==> ByKey(shard)
  {
    if ByKey(shard) {
      forall s: State<K, int>, events: seq<Event<K, int>> | Initial(s) && NoPlainRemove(events)
        ensures SerialByRelease(s.db, Run(shard, s, events))
      {
        EveryInterleavingIsSerialisable(shard, s, events);
      }
    } else {
      var i, j, k :| shard(i, k) != shard(j, k);
      UnequalShardsLoseAnUpdate(shard, k, i, j);
      assert Initial(Fresh(k)) && NoPlainRemove(Race(k, i, j));
      assert !SerialByRelease(Fresh(k).db, Run(shard, Fresh(k), Race(k, i, j)));
    }
  }

  /**
   * The lock that GetLock gives to the key object of call `id`. A hash code may
   * depend on the object as well as on the key it stands for.
   */
  function LockOf<K>(hash: (nat, K) -> InMemoryDbStore.int32, keyShardCount: nat): Sharding<K>
    requires keyShardCount > 0
  {
    (id, k) => AsyncLockProvider.Shard(hash(id, k), keyShardCount)
  }

  /**
   * With the locks of the lock provider, every run of locked calls is serialisable
   * in lock-release order exactly when the hash codes of equal keys fall on the
   * same shard; so always when equal keys have equal hash codes, and whatever the
   * hash codes when there is one shard.
   */
  lemma SerialisableWithLockProvider<K(!new)>(hash: (nat, K) -> InMemoryDbStore.int32, keyShardCount: nat)
    requires keyShardCount > 0
    ensures EveryRunIsSerialisable<K, int>(LockOf(hash, keyShardCount)) <==>
            forall i, j, k :: AsyncLockProvider.Shard(hash(i, k), keyShardCount) ==
                              AsyncLockProvider.Shard(hash(j, k), keyShardCount)
    ensures (forall i, j, k :: hash(i, k) == hash(j, k)) || keyShardCount == 1 ==>
              EveryRunIsSerialisable<K, int>(LockOf(hash, keyShardCount))
  {
    var shard := LockOf(hash, keyShardCount);
    SerialisableIffShardedByKey(shard);
    assert forall i, k :: shard(i, k) == AsyncLockProvider.Shard(hash(i, k), keyShardCount);
  }
}
