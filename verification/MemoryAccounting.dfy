/** Sums over the values of a finite map. */
module MapSums {

  ghost function Sum<K(!new)>(m: map<K, int>): int
    decreases |m|
  {
    if m == map[] then 0
    else
      var k :| k in m;
      m[k] + Sum(m - {k})
  }

  lemma {:induction false} SumTakes<K(!new)>(m: map<K, int>, k: K)
    requires k in m
    ensures Sum(m) == m[k] + Sum(m - {k})
    decreases |m|
  {
    var first :| first in m && Sum(m) == m[first] + Sum(m - {first});
    if first != k {
      SumTakes(m - {first}, k);
      SumTakes(m - {k}, first);
      assert m - {first} - {k} == m - {k} - {first};
    }
  }

  lemma SumOfUpdate<K(!new)>(m: map<K, int>, k: K, v: int)
    ensures Sum(m[k := v]) == Sum(m) - (if k in m then m[k] else 0) + v
  {
    SumTakes(m[k := v], k);
    if k in m {
      SumTakes(m, k);
      assert m[k := v] - {k} == m - {k};
    } else {
      assert m[k := v] - {k} == m;
    }
  }

  lemma {:induction false} SumOfNaturals<K(!new)>(m: map<K, int>)
    requires forall k <- m :: 0 <= m[k]
    ensures 0 <= Sum(m)
    decreases |m|
  {
    if m != map[] {
      var k :| k in m;
      SumTakes(m, k);
      SumOfNaturals(m - {k});
    }
  }
}

/** The memory limit: how full the store is, and whether that is too full. */
module MemorySpaceChecker {
  import opened Wrappers
  import opened StoreUtils

  datatype MemoryUsageStatus = Unknown | Available | Critical | Full

  function UsagePercentage(usage: int, maxSize: long): real {
    if maxSize <= 1 then 100.0 else (usage as real) * 100.0 / (maxSize as real)
  }

  function StatusAt(percentage: real): MemoryUsageStatus {
    if percentage < 90.0 then Available
    else if percentage < 100.0 then Critical
    else Full
  }

  /** The status in terms of bytes: full from the limit on, critical from nine tenths of it. */
  lemma StatusInBytes(usage: int, maxSize: long)
    ensures StatusAt(UsagePercentage(usage, maxSize)) ==
            if maxSize <= 1 || usage >= maxSize then MemoryUsageStatus.Full
            else if 10 * usage >= 9 * maxSize then Critical
            else Available
  {
    if maxSize > 1 {
      var u, m := usage as real, maxSize as real;
      QuotientBelow(u * 100.0, m, 90.0);
      QuotientBelow(u * 100.0, m, 100.0);
    }
  }

  lemma QuotientBelow(x: real, m: real, bound: real)
    requires m > 0.0
    ensures x / m < bound <==> x < bound * m
  {
    var q := x / m;
    assert q * m == x;
    if q < bound {
      assert (bound - q) * m > 0.0;
    } else {
      assert (q - bound) * m >= 0.0;
    }
  }

  class MemorySpaceChecker {
    var maxSize: long
    var isEnabled: bool
    var memoryUsageStatus: MemoryUsageStatus

    constructor ()
      ensures maxSize == LONG_MAX && !isEnabled && memoryUsageStatus == Unknown
    {
      maxSize, isEnabled, memoryUsageStatus := LONG_MAX, false, Unknown;
    }

    method SetMaxSizeBytes(maxSizeBytes: Option<long>)
      modifies this
      ensures isEnabled == maxSizeBytes.Some?
      ensures maxSize == if maxSizeBytes.Some? then maxSizeBytes.value else LONG_MAX
      ensures memoryUsageStatus == if maxSizeBytes.Some? then old(memoryUsageStatus) else Unknown
    {
      match maxSizeBytes
      case Some(size) =>
        isEnabled := true;
        maxSize := size;
      case None =>
        isEnabled := false;
        memoryUsageStatus := Unknown;
        maxSize := LONG_MAX;
    }

    /** The limit is set and reached; a limit of at most one byte always is. */
    predicate Full(usage: int)
      reads this`isEnabled, this`maxSize
    {
      isEnabled && (maxSize <= 1 || usage >= maxSize)
    }

    /** `usage` is what the usage computer returns; the status is refreshed only while enabled. */
    method IsFull(usage: int) returns (full: bool)
      modifies this`memoryUsageStatus
      ensures full <==> Full(usage)
      ensures memoryUsageStatus ==
              if isEnabled then StatusAt(UsagePercentage(usage, maxSize)) else old(memoryUsageStatus)
    {
      if !isEnabled {
        return false;
      }
      StatusInBytes(usage, maxSize);
      memoryUsageStatus := StatusAt(UsagePercentage(usage, maxSize));
      return memoryUsageStatus == MemoryUsageStatus.Full;
    }
  }
}

/** Stores that count their bytes, and the partitions that share one limit. */
module MemoryAccounting {
  import opened Wrappers
  import opened StoreUtils
  import opened OrderedEntries
  import Memory = InMemoryDbStore
  import opened MapSums
  import opened MemorySpaceChecker
  import opened PartitionNames

  type Value = Memory.Value
  type Items = seq<Entry<Key, Value>>

  function Size(items: Items): nat {
    if items == [] then 0
    else |items[0].key| + |items[0].value| + Size(items[1..])
  }

  /** The number of bytes that a put would add. */
  function Growth(items: Items, key: Key, value: Value): int {
    match Lookup(items, key)
    case Some(existing) => |value| - |existing|
    case None => |key| + |value|
  }

  /** The size counts the bytes of the keys and of the values: those of one entry, and then sums. */
  lemma {:induction false} SizeIsBytes(items: Items, e: Entry<Key, Value>)
    ensures Size([]) == 0 && Size(items + [e]) == Size(items) + |e.key| + |e.value|
  {
    SizeOfConcat(items, [e]);
  }

  lemma {:induction false} SizeOfConcat(a: Items, b: Items)
    ensures Size(a + b) == Size(a) + Size(b)
  {
    if a == [] {
      assert a + b == b;
    } else {
      SizeOfConcat(a[1..], b);
      assert (a + b)[1..] == a[1..] + b;
    }
  }

  lemma SizeAt(items: Items, i: nat)
    requires i < |items|
    ensures Size(items) == Size(items[..i]) + |items[i].key| + |items[i].value| + Size(items[i + 1..])
  {
    SizeOfConcat(items[..i], items[i..]);
    assert items == items[..i] + items[i..];
    assert items[i..][1..] == items[i + 1..];
  }

  lemma SizeOfPut(items: Items, key: Key, value: Value)
    ensures Size(Put(items, key, value)) == Size(items) + Growth(items, key, value)
  {
    var i := IndexOf(items, key);
    var put := Put(items, key, value);
    if i < |items| {
      SizeAt(items, i);
      SizeAt(put, i);
      assert put[..i] == items[..i] && put[i + 1..] == items[i + 1..];
    } else {
      SizeOfConcat(items, [Entry(key, value)]);
    }
  }

  lemma SizeOfRemove(items: Items, key: Key)
    ensures Size(Remove(items, key)) ==
            Size(items) - match Lookup(items, key) { case Some(v) => |key| + |v| case None => 0 }
  {
    var i := IndexOf(items, key);
    if i < |items| {
      SizeAt(items, i);
      SizeOfConcat(items[..i], items[i + 1..]);
    }
  }

  class StorageSpaceAwareDbStore {
    const dbStore: Memory.InMemoryDbStore
    var dbSize: int

    /** The size kept step by step is the size of what is stored. */
    ghost predicate Valid()
      reads this, dbStore
    {
      dbSize == Size(dbStore.items)
    }

    constructor ()
      ensures Valid() && fresh(dbStore) && dbStore.items == []
    {
      dbStore := new Memory.InMemoryDbStore();
      dbSize := 0;
    }

    /** A put that adds bytes is refused when the checker finds the store full at `usage`. */
    method Put(key: Key, value: Value, checker: MemorySpaceChecker, usage: int) returns (stored: bool)
      requires Valid()
      modifies this, dbStore, checker`memoryUsageStatus
      ensures Valid()
      ensures stored <==> !(checker.Full(usage) && Growth(old(dbStore.items), key, value) > 0)
      ensures dbStore.items == if stored then OrderedEntries.Put(old(dbStore.items), key, value)
                               else old(dbStore.items)
    {
      SizeOfPut(dbStore.items, key, value);
      var existing := dbStore.Get(key);
      var sizeIncrease := match existing
        case Some(e) => |value| - |e|
        case None => |key| + |value|;
      if sizeIncrease > 0 {
        var full := checker.IsFull(usage);
        if full {
          return false;
        }
      }
      dbSize := dbSize + sizeIncrease;
      dbStore.Put(key, value);
      return true;
    }

    method Remove(key: Key)
      requires Valid()
      modifies this, dbStore
      ensures Valid()
      ensures dbStore.items == OrderedEntries.Remove(old(dbStore.items), key)
    {
      SizeOfRemove(dbStore.items, key);
      var value := dbStore.Get(key);
      if value.Some? {
        dbSize := dbSize - (|key| + |value.value|);
        dbStore.Remove(key);
      }
    }
  }

  // ------------------------------------------------------- several partitions

  type Partitions = map<string, Items>

  ghost function Sizes(p: Partitions): map<string, int> {
    map name <- p :: Size(p[name])
  }

  ghost function Total(p: Partitions): int {
    Sum(Sizes(p))
  }

  class InMemoryDbStoreProvider {
    var partitions: map<string, StorageSpaceAwareDbStore>
    ghost var Owner: map<object, string>  // the partition that each object of a store belongs to

    ghost predicate Owns(name: string, o: object)
      reads this
    {
      o in Owner && Owner[o] == name
    }

    ghost predicate Valid()
      reads this, Owner.Keys
    {
      && this !in Owner
      && (forall name <- partitions :: Owns(name, partitions[name]) && Owns(name, partitions[name].dbStore))
      && (forall name <- partitions :: partitions[name].Valid())
    }

    ghost function View(): Partitions
      requires Valid()
      reads this, Owner.Keys
    {
      map name <- partitions :: partitions[name].dbStore.items
    }

    constructor ()
      ensures Valid() && Owner == map[] && View() == map[]
    {
      partitions, Owner := map[], map[];
    }

    /** The partition of that name, which is created empty when it does not exist; a blank name is refused. */
    method GetDbStore(name: string) returns (r: Option<StorageSpaceAwareDbStore>)
      requires Valid()
      modifies this
      ensures Valid() && fresh(Owner.Keys - old(Owner.Keys))
      ensures r.None? <==> IsBlank(name)
      ensures partitions == if r.Some? then old(partitions)[name := r.value] else old(partitions)
      ensures r.Some? && name in old(partitions) ==> r.value == old(partitions)[name]
      ensures r.Some? && name !in old(partitions) ==>
                fresh(r.value) && fresh(r.value.dbStore) && r.value.dbStore.items == []
      ensures View() == if r.Some? then Applied(None, old(View()), OpenStore(name)) else old(View())
    {
      if IsBlank(name) {
        return None;
      }
      if name in partitions {
        return Some(partitions[name]);
      }
      var store := CreateStore(name);
      return Some(store);
    }

    method CreateStore(name: string) returns (store: StorageSpaceAwareDbStore)
      requires Valid() && name !in partitions
      modifies this
      ensures Valid() && fresh(Owner.Keys - old(Owner.Keys))
      ensures partitions == old(partitions)[name := store]
      ensures fresh(store) && fresh(store.dbStore) && store.dbStore.items == []
      ensures forall n <- old(partitions) :: partitions[n].dbStore.items == old(partitions[n].dbStore.items)
    {
      store := new StorageSpaceAwareDbStore();
      partitions := partitions[name := store];
      Owner := Owner[store := name][store.dbStore := name];
    }

    /** A blank name is refused. */
    method RemoveDbStore(name: string) returns (ok: bool)
      requires Valid()
      modifies this
      ensures Valid() && Owner == old(Owner) && (ok <==> !IsBlank(name))
      ensures partitions == if ok then old(partitions) - {name} else old(partitions)
      ensures View() == if ok then Applied(None, old(View()), DropStore(name)) else old(View())
    {
      ok := !IsBlank(name);
      if ok {
        partitions := partitions - {name};
      }
    }

    /** The sum of the counted sizes is the number of bytes stored in all partitions. */
    method GetTotalMemoryUsage() returns (total: int)
      requires Valid()
      ensures total == Total(View())
    {
      total := 0;
      var todo := partitions.Keys;
      ghost var sizes := Sizes(View());
      ghost var rest := sizes;
      while todo != {}
        invariant todo <= partitions.Keys && rest.Keys == todo
        invariant forall name <- todo :: rest[name] == sizes[name]
        invariant total + Sum(rest) == Sum(sizes)
        decreases todo
      {
        var name :| name in todo;
        SumTakes(rest, name);
        total := total + partitions[name].dbSize;
        todo, rest := todo - {name}, rest - {name};
      }
    }

    /** A put into an open partition: measure, check, store. */
    method Put(name: string, key: Key, value: Value, checker: MemorySpaceChecker) returns (stored: bool)
      requires Valid() && checker !in Owner && name in partitions
      modifies Owner.Keys, checker`memoryUsageStatus
      ensures Valid()
      ensures stored <==> !(checker.Full(Total(old(View()))) && Growth(old(View())[name], key, value) > 0)
      ensures View() == Applied(if checker.isEnabled then Some(checker.maxSize) else None,
                                old(View()), PutEntry(name, key, value))
    {
      var usage := GetTotalMemoryUsage();
      stored := PutUnless(name, key, value, checker, usage);
    }

    /** A removal from an open partition. */
    method Remove(name: string, key: Key)
      requires Valid() && name in partitions
      modifies Owner.Keys
      ensures Valid() && View() == Applied(None, old(View()), RemoveEntry(name, key))
    {
      partitions[name].Remove(key);
      assert forall n <- partitions :: n != name ==>
               partitions[n] != partitions[name] && partitions[n].dbStore != partitions[name].dbStore;
    }

    method PutUnless(name: string, key: Key, value: Value, checker: MemorySpaceChecker, usage: int)
      returns (stored: bool)
      requires Valid() && checker !in Owner && name in partitions
      modifies Owner.Keys, checker`memoryUsageStatus
      ensures Valid()
      ensures stored <==> !(checker.Full(usage) && Growth(old(View())[name], key, value) > 0)
      ensures var before := old(View());
              View() == if checker.Full(usage) && Growth(before[name], key, value) > 0 then before
                        else before[name := OrderedEntries.Put(before[name], key, value)]
    {
      stored := partitions[name].Put(key, value, checker, usage);
      assert forall n <- partitions :: n != name ==>
               partitions[n] != partitions[name] && partitions[n].dbStore != partitions[name].dbStore;
    }
  }

  // --------------------------------------------------------- runs under a limit

  datatype Op =
    | PutEntry(name: string, key: Key, value: Value)
    | RemoveEntry(name: string, key: Key)
    | OpenStore(name: string)
    | DropStore(name: string)

  function ItemsOf(p: Partitions, name: string): Items {
    if name in p then p[name] else []
  }

  ghost predicate LimitReached(limit: Option<long>, p: Partitions) {
    limit.Some? && (limit.value <= 1 || Total(p) >= limit.value)
  }

  /** An entry operation needs the partition to be open. */
  ghost function Applied(limit: Option<long>, p: Partitions, op: Op): Partitions {
    match op
    case PutEntry(name, key, value) =>
      if name !in p || (LimitReached(limit, p) && Growth(p[name], key, value) > 0) then p
      else p[name := Put(p[name], key, value)]
    case RemoveEntry(name, key) => if name in p then p[name := Remove(p[name], key)] else p
    case OpenStore(name) => if name in p then p else p[name := []]
    case DropStore(name) => p - {name}
  }

  ghost function Run(limit: Option<long>, p: Partitions, ops: seq<Op>): Partitions
    decreases |ops|
  {
    if ops == [] then p else Run(limit, Applied(limit, p, ops[0]), ops[1..])
  }

  lemma TotalOfUpdate(p: Partitions, name: string, items: Items)
    ensures Total(p[name := items]) == Total(p) - Size(ItemsOf(p, name)) + Size(items)
  {
    assert Sizes(p[name := items]) == Sizes(p)[name := Size(items)];
    SumOfUpdate(Sizes(p), name, Size(items));
  }

  lemma TotalOfDrop(p: Partitions, name: string)
    ensures Total(p - {name}) == Total(p) - Size(ItemsOf(p, name))
  {
    assert Sizes(p - {name}) == Sizes(p) - {name};
    if name in p {
      SumTakes(Sizes(p), name);
    } else {
      assert p - {name} == p;
    }
  }

  /** One operation: only a put adds bytes, at most those of its entry, and only below the limit. */
  lemma StepTotal(limit: Option<long>, p: Partitions, op: Op)
    ensures Total(Applied(limit, p, op)) <=
            if op.PutEntry? && !LimitReached(limit, p) then Total(p) + |op.key| + |op.value| else Total(p)
  {
    match op
    case PutEntry(name, key, value) =>
      if name in p {
        SizeOfPut(p[name], key, value);
        TotalOfUpdate(p, name, Put(p[name], key, value));
      }
    case RemoveEntry(name, key) =>
      if name in p {
        SizeOfRemove(p[name], key);
        TotalOfUpdate(p, name, Remove(p[name], key));
      }
    case OpenStore(name) =>
      TotalOfUpdate(p, name, []);
    case DropStore(name) =>
      TotalOfDrop(p, name);
  }

  /**
   * Under a fixed limit M > 1 the total over all partitions, starting below M,
   * never exceeds M - 1 plus the largest entry put, over every run.
   */
  lemma {:induction false} LimitIsOvershotByOneEntry(limit: long, p: Partitions, ops: seq<Op>, largest: nat)
    requires limit > 1 && Total(p) <= limit - 1 + largest
    requires forall i :: 0 <= i < |ops| && ops[i].PutEntry? ==> |ops[i].key| + |ops[i].value| <= largest
    ensures Total(Run(Some(limit), p, ops)) <= limit - 1 + largest
    decreases |ops|
  {
    if ops != [] {
      StepTotal(Some(limit), p, ops[0]);
      LimitIsOvershotByOneEntry(limit, Applied(Some(limit), p, ops[0]), ops[1..], largest);
    }
  }

  /** Under a limit of at most one byte the total never grows. */
  lemma {:induction false} TinyLimitStopsGrowth(limit: long, p: Partitions, ops: seq<Op>)
    requires limit <= 1
    ensures Total(Run(Some(limit), p, ops)) <= Total(p)
    decreases |ops|
  {
    if ops != [] {
      StepTotal(Some(limit), p, ops[0]);
      TinyLimitStopsGrowth(limit, Applied(Some(limit), p, ops[0]), ops[1..]);
    }
  }
}

/**
 * Puts into different partitions run at once: each store has a lock of its own.
 * A put that grows its partition adds up the counters of all partitions, one
 * after the other and in any order, while other partitions change theirs. It is
 * refused when the sum reaches the limit, and counts its bytes some time later.
 */
module ConcurrentLimit {
  import opened MapSums

  datatype Put =
    | Summing(growth: int, seen: map<string, int>)  // the counters read so far
    | Counting(growth: int)                         // passed the check, not counted yet

  /**
   * The counter of each partition, and the put in progress in it, if any. A
   * partition that is not open counts as one with nothing in it.
   */
  datatype State = State(sizes: map<string, int>, puts: map<string, Put>)

  datatype Event =
    | Begin(name: string, growth: int)
    | Read(name: string, other: string)
    | Decide(name: string)
    | Count(name: string)
    | Shrink(name: string, bytes: nat)
    | Drop(name: string)  // the partition is removed; it may be opened again

  /** Whether the checker finds this usage to be full. */
  predicate Full(limit: int, usage: int) {
    limit <= 1 || usage >= limit
  }

  /** An event that is not possible in `s` leaves it unchanged. */
  ghost function Step(limit: int, s: State, e: Event): State {
    match e
    case Begin(name, growth) =>
      if name !in s.sizes || name in s.puts || s.sizes[name] + growth < 0 then s
      else s.(puts := s.puts[name := if growth > 0 then Summing(growth, map[]) else Counting(growth)])
    case Read(name, other) =>
      if !IsSumming(s, name) || other !in s.sizes || other in s.puts[name].seen then s
      else s.(puts := s.puts[name := Summing(s.puts[name].growth, s.puts[name].seen[other := s.sizes[other]])])
    case Decide(name) =>
      if !IsSumming(s, name) || s.puts[name].seen.Keys != s.sizes.Keys then s
      else if Full(limit, Sum(s.puts[name].seen)) then s.(puts := s.puts - {name})
      else s.(puts := s.puts[name := Counting(s.puts[name].growth)])
    case Count(name) =>
      if name !in s.puts || s.puts[name].Summing? || name !in s.sizes then s
      else State(s.sizes[name := s.sizes[name] + s.puts[name].growth], s.puts - {name})
    case Shrink(name, bytes) =>
      if name !in s.sizes || name in s.puts || s.sizes[name] < bytes then s
      else s.(sizes := s.sizes[name := s.sizes[name] - bytes])
    case Drop(name) =>
      if name !in s.sizes then s else State(s.sizes[name := 0], s.puts - {name})
  }

  predicate IsSumming(s: State, name: string) {
    name in s.puts && s.puts[name].Summing?
  }

  ghost function Run(limit: int, s: State, events: seq<Event>): State
    decreases |events|
  {
    if events == [] then s else Run(limit, Step(limit, s, events[0]), events[1..])
  }

  // ---------------------------------------------------------------- multiples

  function Multiple(n: nat, x: nat): nat {
    if n == 0 then 0 else Multiple(n - 1, x) + x
  }

  lemma {:induction false} MultipleGrows(a: nat, b: nat, x: nat)
    requires a <= b
    ensures Multiple(a, x) <= Multiple(b, x)
  {
    if a < b {
      MultipleGrows(a, b - 1, x);
    }
  }

  lemma {:induction false} MultipleIsProduct(n: nat, x: nat)
    ensures Multiple(n, x) == n * x
  {
    if n > 0 {
      MultipleIsProduct(n - 1, x);
      assert n * x == (n - 1) * x + x;
    }
  }

  lemma SubsetIsSmaller(a: set<string>, b: set<string>)
    requires a <= b
    ensures |a| <= |b|
  {
    assert b == a + (b - a);
  }

  // ------------------------------------------------------ the limit as an account

  /** The bytes counted or granted, and the sum that each put in progress is heading for. */
  datatype Account = Account(partitions: nat, taken: int, outlooks: map<string, int>)

  /** The puts that are heading for a sum of at most `y`. */
  function Hopeful(a: Account, y: int): set<string> {
    set name <- a.outlooks | a.outlooks[name] <= y
  }

  /** The bytes taken exceed y by at most one largest entry for each of `others` partitions. */
  predicate Within(taken: int, y: int, others: int, largest: nat) {
    0 <= others && taken <= y + Multiple(others, largest)
  }

  lemma WithinMore(taken: int, y: int, others: int, taken': int, y': int, others': int, largest: nat)
    requires Within(taken, y, others, largest) && others <= others' && taken' - taken <= y' - y
    ensures Within(taken', y', others', largest)
  {
    MultipleGrows(others, others', largest);
  }

  /** When some put could still end with a sum of at most y, the partitions without such a put bound the excess. */
  predicate RoomFor(largest: nat, a: Account, y: int) {
    Hopeful(a, y) != {} ==> Within(a.taken, y, a.partitions - |Hopeful(a, y)|, largest)
  }

  ghost predicate Sound(limit: int, largest: nat, a: Account) {
    && Within(a.taken, limit - 1, a.partitions, largest)
    && forall y :: y >= limit - 1 ==> RoomFor(largest, a, y)
  }

  lemma FewerHopeful(largest: nat, a: Account, a': Account, y: int, z: int)
    requires a'.partitions == a.partitions && RoomFor(largest, a, z) && a'.taken <= a.taken - (z - y)
    requires Hopeful(a', y) <= Hopeful(a, z)
    ensures RoomFor(largest, a', y)
  {
    var now, before := Hopeful(a', y), Hopeful(a, z);
    if now != {} {
      SubsetIsSmaller(now, before);
      WithinMore(a.taken, z, a.partitions - |before|, a'.taken, y, a.partitions - |now|, largest);
    }
  }

  /** Fewer bytes are taken, and no put improves its outlook by more than that. */
  lemma LossIsSound(limit: int, largest: nat, a: Account, a': Account, bytes: nat)
    requires Sound(limit, largest, a)
    requires a'.partitions == a.partitions && a'.taken <= a.taken - bytes
    requires forall name <- a'.outlooks :: name in a.outlooks && a.outlooks[name] <= a'.outlooks[name] + bytes
    ensures Sound(limit, largest, a')
  {
    forall y | y >= limit - 1
      ensures RoomFor(largest, a', y)
    {
      assert RoomFor(largest, a, y + bytes);
      FewerHopeful(largest, a, a', y, y + bytes);
    }
  }

  /** What is taken beyond `total` was granted to partitions that are not adding up. */
  predicate HoldsGrants(largest: nat, a: Account, total: int) {
    Within(a.taken, total, a.partitions - |a.outlooks.Keys|, largest)
  }

  lemma GrantsFit(largest: nat, a: Account, total: int, granted: int, others: int)
    requires Within(granted, 0, others, largest) && others == a.partitions - |a.outlooks.Keys|
    requires a.taken == total + granted
    ensures HoldsGrants(largest, a, total)
  {
  }

  /** A put begins, heading for the total; only partitions that are not adding up hold grants. */
  lemma BeginIsSound(limit: int, largest: nat, a: Account, a': Account, name: string, total: int)
    requires Sound(limit, largest, a) && a' == a.(outlooks := a.outlooks[name := total]) && name !in a.outlooks
    requires HoldsGrants(largest, a', total)
    ensures Sound(limit, largest, a')
  {
    forall y | y >= limit - 1
      ensures RoomFor(largest, a', y)
    {
      if y < total {
        assert RoomFor(largest, a, y);
        FewerHopeful(largest, a, a', y, y);
      } else {
        SubsetIsSmaller(Hopeful(a', y), a'.outlooks.Keys);
        WithinMore(a.taken, total, a.partitions - |a'.outlooks.Keys|,
                   a.taken, y, a.partitions - |Hopeful(a', y)|, largest);
      }
    }
  }

  lemma GrantLeavesRoom(largest: nat, a: Account, a': Account, name: string, y: int)
    requires RoomFor(largest, a, y) && name in a.outlooks && a.outlooks[name] <= y
    requires a'.outlooks == a.outlooks - {name} && a'.partitions == a.partitions && a'.taken <= a.taken + largest
    ensures Within(a'.taken, y, a.partitions, largest) && RoomFor(largest, a', y)
  {
    assert name in Hopeful(a, y);
    assert Hopeful(a', y) == Hopeful(a, y) - {name};
    var others := a.partitions - |Hopeful(a, y)|;
    assert Within(a'.taken, y, others + 1, largest);
    WithinMore(a'.taken, y, others + 1, a'.taken, y, a.partitions, largest);
  }

  /** A put that ends below the limit is granted its bytes, and is no longer among the hopeful ones. */
  lemma GrantIsSound(limit: int, largest: nat, a: Account, a': Account, name: string)
    requires Sound(limit, largest, a) && name in a.outlooks && a.outlooks[name] <= limit - 1
    requires a'.outlooks == a.outlooks - {name} && a'.partitions == a.partitions && a'.taken <= a.taken + largest
    ensures Sound(limit, largest, a')
  {
    forall y | y >= limit - 1
      ensures Within(a'.taken, y, a.partitions, largest) && RoomFor(largest, a', y)
    {
      assert RoomFor(largest, a, y);
      GrantLeavesRoom(largest, a, a', name, y);
    }
    assert Within(a'.taken, limit - 1, a.partitions, largest);
  }

  // ---------------------------------------------------------------- invariant

  /** The bytes that a put has been granted and not counted yet. */
  function Granted(p: Put): nat {
    if p.Counting? && p.growth > 0 then p.growth else 0
  }

  ghost function Growths(s: State): map<string, int> {
    map name <- s.puts :: Granted(s.puts[name])
  }

  ghost function Taken(s: State): int {
    Sum(s.sizes) + Sum(Growths(s))
  }

  /** The sums that the puts would end with if they read their remaining counters now. */
  ghost function Outlooks(s: State): map<string, int> {
    map name | name in s.puts && s.puts[name].Summing? :: Sum(s.sizes + s.puts[name].seen)
  }

  ghost function AccountOf(s: State): Account {
    Account(|s.sizes.Keys|, Taken(s), Outlooks(s))
  }

  ghost predicate Shaped(largest: nat, s: State) {
    && (forall name <- s.sizes :: 0 <= s.sizes[name])
    && s.puts.Keys <= s.sizes.Keys
    && (forall name <- s.puts :: s.puts[name].growth <= largest && 0 <= s.sizes[name] + s.puts[name].growth)
    && (forall name <- s.puts :: s.puts[name].Summing? ==>
          s.puts[name].seen.Keys <= s.sizes.Keys && s.puts[name].growth >= 0)
  }

  ghost predicate Inv(limit: int, largest: nat, s: State) {
    Shaped(largest, s) && Sound(limit, largest, AccountOf(s))
  }

  lemma {:induction false} SumOfBounded(m: map<string, int>, bound: nat)
    requires forall k <- m :: m[k] <= bound
    ensures Sum(m) <= Multiple(|m.Keys|, bound)
    decreases |m|
  {
    if m != map[] {
      var k :| k in m;
      SumTakes(m, k);
      assert (m - {k}).Keys == m.Keys - {k};
      SumOfBounded(m - {k}, bound);
    }
  }

  lemma {:induction false} SumWithoutZeros(m: map<string, int>, zeros: set<string>)
    requires forall k <- m :: k in zeros ==> m[k] == 0
    ensures Sum(m) == Sum(m - zeros)
    decreases |m|
  {
    if k :| k in m && k in zeros {
      SumTakes(m, k);
      SumWithoutZeros(m - {k}, zeros);
      assert m - {k} - zeros == m - zeros;
    } else {
      assert m - zeros == m;
    }
  }

  lemma SumOutside(m: map<string, int>, keys: set<string>, zeros: set<string>, bound: nat, others: int)
    requires m.Keys <= keys && zeros <= keys && others == |keys| - |zeros|
    requires forall k <- m :: m[k] <= bound && (k in zeros ==> m[k] == 0)
    ensures Within(Sum(m), 0, others, bound)
  {
    SumWithoutZeros(m, zeros);
    var rest := m - zeros;
    SumOfBounded(rest, bound);
    SubsetIsSmaller(rest.Keys, keys - zeros);
    assert keys == zeros + (keys - zeros);
    MultipleGrows(|rest.Keys|, |keys - zeros|, bound);
  }

  /** What is granted comes from partitions that are not adding up. */
  lemma GrantedElsewhere(largest: nat, s: State, a: Account, total: int)
    requires Shaped(largest, s) && a == AccountOf(s) && total == Sum(s.sizes)
    ensures HoldsGrants(largest, a, total)
  {
    var summing := a.outlooks.Keys;
    assert summing <= s.sizes.Keys;
    assert forall name <- Growths(s) :: name in summing ==> Growths(s)[name] == 0;
    var granted, others := Sum(Growths(s)), a.partitions - |summing|;
    SumOutside(Growths(s), s.sizes.Keys, summing, largest, others);
    GrantsFit(largest, a, total, granted, others);
  }

  // ------------------------------------------------------------- preservation

  lemma TakenWithPut(s: State, name: string, p: Put)
    ensures var s' := s.(puts := s.puts[name := p]);
            Taken(s') == Taken(s) - (if name in s.puts then Granted(s.puts[name]) else 0) + Granted(p)
  {
    var s' := s.(puts := s.puts[name := p]);
    assert Growths(s') == Growths(s)[name := Granted(p)];
    SumOfUpdate(Growths(s), name, Granted(p));
  }

  lemma TakenWithoutPut(s: State, name: string)
    requires name in s.puts
    ensures Sum(Growths(s.(puts := s.puts - {name}))) == Sum(Growths(s)) - Granted(s.puts[name])
  {
    assert Growths(s.(puts := s.puts - {name})) == Growths(s) - {name};
    SumTakes(Growths(s), name);
  }

  lemma StepKeepsShape(limit: int, largest: nat, s: State, e: Event)
    requires Shaped(largest, s) && (e.Begin? ==> e.growth <= largest)
    ensures Shaped(largest, Step(limit, s, e)) && Step(limit, s, e).sizes.Keys == s.sizes.Keys
  {
  }

  /** Replacing or removing one put leaves the outlooks of the others. */
  lemma OutlooksWithPut(s: State, name: string, p: Put)
    ensures var s' := s.(puts := s.puts[name := p]);
            Outlooks(s') == if p.Summing? then Outlooks(s)[name := Sum(s.sizes + p.seen)] else Outlooks(s) - {name}
  {
  }

  lemma AccountOfBegin(s: State, name: string, p: Put)
    requires name !in s.puts && (p.Summing? ==> p.seen == map[]) && (p.Counting? ==> p.growth <= 0)
    ensures AccountOf(s.(puts := s.puts[name := p])) ==
            if p.Summing? then AccountOf(s).(outlooks := Outlooks(s)[name := Sum(s.sizes)]) else AccountOf(s)
  {
    TakenWithPut(s, name, p);
    OutlooksWithPut(s, name, p);
    if p.Summing? {
      assert s.sizes + p.seen == s.sizes;
    } else {
      assert Outlooks(s) - {name} == Outlooks(s);
    }
  }

  lemma BeginKeepsInv(limit: int, largest: nat, s: State, name: string, growth: int)
    requires Inv(limit, largest, s) && growth <= largest
    requires name in s.sizes && name !in s.puts && 0 <= s.sizes[name] + growth
    ensures Inv(limit, largest, Step(limit, s, Begin(name, growth)))
  {
    var s' := Step(limit, s, Begin(name, growth));
    StepKeepsShape(limit, largest, s, Begin(name, growth));
    AccountOfBegin(s, name, s'.puts[name]);
    if growth > 0 {
      var a := AccountOf(s');
      GrantedElsewhere(largest, s', a, Sum(s.sizes));
      BeginIsSound(limit, largest, AccountOf(s), a, name, Sum(s.sizes));
    }
  }

  lemma AccountOfRead(limit: int, s: State, name: string, other: string)
    requires IsSumming(s, name) && other in s.sizes && other !in s.puts[name].seen
    ensures AccountOf(Step(limit, s, Read(name, other))) == AccountOf(s)
  {
    var p := Summing(s.puts[name].growth, s.puts[name].seen[other := s.sizes[other]]);
    TakenWithPut(s, name, p);
    OutlooksWithPut(s, name, p);
    assert s.sizes + p.seen == s.sizes + s.puts[name].seen;
    assert Outlooks(s)[name := Outlooks(s)[name]] == Outlooks(s);
  }

  lemma RefusalKeepsInv(limit: int, largest: nat, s: State, name: string)
    requires Inv(limit, largest, s) && IsSumming(s, name)
    ensures Inv(limit, largest, s.(puts := s.puts - {name}))
  {
    var s' := s.(puts := s.puts - {name});
    TakenWithoutPut(s, name);
    assert Outlooks(s') == Outlooks(s) - {name};
    LossIsSound(limit, largest, AccountOf(s), AccountOf(s'), 0);
  }

  lemma AccountOfGrant(s: State, name: string)
    requires IsSumming(s, name) && s.puts[name].growth >= 0
    ensures AccountOf(s.(puts := s.puts[name := Counting(s.puts[name].growth)])) ==
            Account(|s.sizes.Keys|, Taken(s) + s.puts[name].growth, Outlooks(s) - {name})
  {
    var p := Counting(s.puts[name].growth);
    TakenWithPut(s, name, p);
    OutlooksWithPut(s, name, p);
  }

  lemma GrantKeepsInv(limit: int, largest: nat, s: State, name: string)
    requires Inv(limit, largest, s) && IsSumming(s, name) && Outlooks(s)[name] <= limit - 1
    ensures Inv(limit, largest, s.(puts := s.puts[name := Counting(s.puts[name].growth)]))
  {
    var s' := s.(puts := s.puts[name := Counting(s.puts[name].growth)]);
    assert Shaped(largest, s');
    AccountOfGrant(s, name);
    GrantIsSound(limit, largest, AccountOf(s), AccountOf(s'), name);
  }

  /** When one counter moves, so do the outlooks of the puts that have not read it yet. */
  lemma OutlookMoves(s: State, s': State, name: string, growth: int, other: string)
    requires name in s.sizes && s'.sizes == s.sizes[name := s.sizes[name] + growth]
    requires IsSumming(s, other) && IsSumming(s', other) && s'.puts[other] == s.puts[other]
    ensures Outlooks(s')[other] == Outlooks(s)[other] + if name in s.puts[other].seen then 0 else growth
  {
    var seen := s.puts[other].seen;
    if name in seen {
      assert s'.sizes + seen == s.sizes + seen;
    } else {
      assert s'.sizes + seen == (s.sizes + seen)[name := s.sizes[name] + growth];
      SumOfUpdate(s.sizes + seen, name, s.sizes[name] + growth);
    }
  }

  lemma OutlooksMove(s: State, s': State, a: Account, a': Account, name: string, growth: int, bytes: nat)
    requires a == AccountOf(s) && a' == AccountOf(s')
    requires name in s.sizes && s'.sizes == s.sizes[name := s.sizes[name] + growth] && 0 <= growth + bytes
    requires forall other :: IsSumming(s', other) ==> IsSumming(s, other) && s'.puts[other] == s.puts[other]
    ensures forall other <- a'.outlooks :: other in a.outlooks && a.outlooks[other] <= a'.outlooks[other] + bytes
  {
    forall other <- a'.outlooks
      ensures other in a.outlooks && a.outlooks[other] <= a'.outlooks[other] + bytes
    {
      OutlookMoves(s, s', name, growth, other);
    }
  }

  lemma TakenMoves(s: State, s': State, a: Account, a': Account, name: string, growth: int, granted: nat)
    requires a == AccountOf(s) && a' == AccountOf(s')
    requires name in s.sizes && s'.sizes == s.sizes[name := s.sizes[name] + growth]
    requires Sum(Growths(s')) <= Sum(Growths(s)) - granted
    ensures a'.partitions == a.partitions && a'.taken <= a.taken + growth - granted
  {
    SumOfUpdate(s.sizes, name, s.sizes[name] + growth);
    assert s'.sizes.Keys == s.sizes.Keys;
  }

  /** The counter of one partition moves by `growth`, of which `granted` was granted before. */
  lemma MoveKeepsInv(limit: int, largest: nat, s: State, s': State, name: string, growth: int, granted: nat)
    requires Inv(limit, largest, s) && Shaped(largest, s') && name in s.sizes
    requires s'.sizes == s.sizes[name := s.sizes[name] + growth] && granted == if growth > 0 then growth else 0
    requires Sum(Growths(s')) <= Sum(Growths(s)) - granted
    requires forall other :: IsSumming(s', other) ==> IsSumming(s, other) && s'.puts[other] == s.puts[other]
    ensures Inv(limit, largest, s')
  {
    var a, a' := AccountOf(s), AccountOf(s');
    var bytes := granted - growth;
    TakenMoves(s, s', a, a', name, growth, granted);
    OutlooksMove(s, s', a, a', name, growth, bytes);
    LossIsSound(limit, largest, a, a', bytes);
  }

  lemma StepKeepsInv(limit: int, largest: nat, s: State, e: Event)
    requires Inv(limit, largest, s) && (e.Begin? ==> e.growth <= largest)
    ensures Inv(limit, largest, Step(limit, s, e)) && Step(limit, s, e).sizes.Keys == s.sizes.Keys
  {
    StepKeepsShape(limit, largest, s, e);
    var s' := Step(limit, s, e);
    if s' != s {
      match e
      case Begin(name, growth) =>
        BeginKeepsInv(limit, largest, s, name, growth);
      case Read(name, other) =>
        AccountOfRead(limit, s, name, other);
      case Decide(name) =>
        DecideKeepsInv(limit, largest, s, name);
      case Count(name) =>
        TakenWithoutPut(s, name);
        MoveKeepsInv(limit, largest, s, s', name, s.puts[name].growth, Granted(s.puts[name]));
      case Shrink(name, bytes) =>
        MoveKeepsInv(limit, largest, s, s', name, 0 - bytes as int, 0);
      case Drop(name) =>
        DropKeepsInv(limit, largest, s, name);
    }
  }

  lemma DropKeepsInv(limit: int, largest: nat, s: State, name: string)
    requires Inv(limit, largest, s) && name in s.sizes
    ensures Inv(limit, largest, Step(limit, s, Drop(name)))
  {
    var s' := Step(limit, s, Drop(name));
    StepKeepsShape(limit, largest, s, Drop(name));
    if name in s.puts {
      TakenWithoutPut(s, name);
    } else {
      assert s'.puts == s.puts;
    }
    MoveKeepsInv(limit, largest, s, s', name, 0 - s.sizes[name], 0);
  }

  lemma DecideKeepsInv(limit: int, largest: nat, s: State, name: string)
    requires Inv(limit, largest, s) && IsSumming(s, name) && s.puts[name].seen.Keys == s.sizes.Keys
    ensures Inv(limit, largest, Step(limit, s, Decide(name)))
  {
    var seen := s.puts[name].seen;
    if Full(limit, Sum(seen)) {
      RefusalKeepsInv(limit, largest, s, name);
    } else {
      assert s.sizes + seen == seen;
      GrantKeepsInv(limit, largest, s, name);
    }
  }

  ghost predicate Bounded(events: seq<Event>, largest: nat) {
    forall i :: 0 <= i < |events| && events[i].Begin? ==> events[i].growth <= largest
  }

  lemma {:induction false} RunKeepsInv(limit: int, largest: nat, s: State, events: seq<Event>)
    requires Inv(limit, largest, s) && Bounded(events, largest)
    ensures Inv(limit, largest, Run(limit, s, events))
    ensures Run(limit, s, events).sizes.Keys == s.sizes.Keys
    decreases |events|
  {
    if events != [] {
      StepKeepsInv(limit, largest, s, events[0]);
      RunKeepsInv(limit, largest, Step(limit, s, events[0]), events[1..]);
    }
  }

  /** Nobody at work, and below the limit. */
  ghost predicate Initial(limit: int, names: set<string>, s: State) {
    && s.puts == map[] && s.sizes.Keys == names && Sum(s.sizes) < limit
    && forall name <- s.sizes :: 0 <= s.sizes[name]
  }

  /**
   * Over every interleaving, with the counters read one by one in any order, the
   * limit is overshot by at most one entry per partition.
   */
  lemma LimitIsOvershotByOneEntryPerPartition(
    limit: int, names: set<string>, largest: nat, s: State, events: seq<Event>)
    requires Initial(limit, names, s) && Bounded(events, largest)
    ensures Sum(Run(limit, s, events).sizes) <= limit - 1 + |names| * largest
  {
    assert Growths(s) == map[];
    MultipleIsProduct(|names|, largest);
    assert Outlooks(s) == map[];
    assert Sound(limit, largest, AccountOf(s));
    RunKeepsInv(limit, largest, s, events);
    SumOfNaturals(Growths(Run(limit, s, events)));
  }

  // ------------------------------------------------------- the bound is attained

  lemma {:induction false} RunSplits(limit: int, s: State, a: seq<Event>, b: seq<Event>)
    ensures Run(limit, s, a + b) == Run(limit, Run(limit, s, a), b)
    decreases |a|
  {
    if a == [] {
      assert a + b == b;
    } else {
      assert (a + b)[1..] == a[1..] + b;
      RunSplits(limit, Step(limit, s, a[0]), a[1..], b);
    }
  }

  lemma RunSnoc(limit: int, s: State, a: seq<Event>, e: Event)
    ensures Run(limit, s, a + [e]) == Step(limit, Run(limit, s, a), e)
  {
    RunSplits(limit, s, a, [e]);
    assert Run(limit, Step(limit, Run(limit, s, a), e), [e][1..]) == Step(limit, Run(limit, s, a), e);
  }

  /** One partition holds what is just below the limit, the others nothing. */
  ghost function AlmostFull(limit: int, names: set<string>, first: string): State {
    State(map name <- names :: if name == first then limit - 1 else 0, map[])
  }

  lemma {:induction false} SumOfZeros(m: map<string, int>)
    requires forall k <- m :: m[k] == 0
    ensures Sum(m) == 0
    decreases |m|
  {
    if m != map[] {
      var k :| k in m;
      SumTakes(m, k);
      SumOfZeros(m - {k});
    }
  }

  lemma AlmostFullIsInitial(limit: int, names: set<string>, first: string)
    requires first in names && limit >= 1
    ensures Sum(AlmostFull(limit, names, first).sizes) == limit - 1
    ensures Initial(limit, names, AlmostFull(limit, names, first))
  {
    var sizes := AlmostFull(limit, names, first).sizes;
    SumTakes(sizes, first);
    SumOfZeros(sizes - {first});
  }

  function Reads(name: string, others: seq<string>): seq<Event> {
    if others == [] then [] else Reads(name, others[..|others| - 1]) + [Read(name, others[|others| - 1])]
  }

  ghost predicate Listing(list: seq<string>, names: set<string>) {
    && (forall k :: k in list <==> k in names)
    && (forall i, j :: 0 <= i < j < |list| ==> list[i] != list[j])
  }

  /** The counters of the listed partitions. */
  ghost function Counters(sizes: map<string, int>, list: seq<string>): map<string, int>
    requires forall k :: k in list ==> k in sizes
  {
    map k | k in list :: sizes[k]
  }

  lemma CountersOfMore(sizes: map<string, int>, list: seq<string>, init: seq<string>, last: string)
    requires list == init + [last] && forall k :: k in list ==> k in sizes
    ensures Counters(sizes, list) == Counters(sizes, init)[last := sizes[last]]
  {
  }

  lemma ReadsOneMore(limit: int, s: State, name: string, seen: map<string, int>, last: string)
    requires IsSumming(s, name) && last in s.sizes && last !in seen
    ensures var growth := s.puts[name].growth;
            Step(limit, s.(puts := s.puts[name := Summing(growth, seen)]), Read(name, last)) ==
            s.(puts := s.puts[name := Summing(growth, seen[last := s.sizes[last]])])
  {
  }

  /** A put reads the listed counters while nothing else happens. */
  lemma {:induction false} ReadsAll(limit: int, s: State, name: string, others: seq<string>)
    requires IsSumming(s, name) && s.puts[name].seen == map[]
    requires forall k :: k in others ==> k in s.sizes
    requires forall i, j :: 0 <= i < j < |others| ==> others[i] != others[j]
    ensures Run(limit, s, Reads(name, others)) ==
            s.(puts := s.puts[name := Summing(s.puts[name].growth, Counters(s.sizes, others))])
    decreases |others|
  {
    if others == [] {
      assert Counters(s.sizes, others) == map[];
      assert s.puts[name := s.puts[name]] == s.puts;
    } else {
      var init, last := others[..|others| - 1], others[|others| - 1];
      assert others == init + [last] && last !in init;
      ReadsAll(limit, s, name, init);
      RunSnoc(limit, s, Reads(name, init), Read(name, last));
      ReadsOneMore(limit, s, name, Counters(s.sizes, init), last);
      CountersOfMore(s.sizes, others, init, last);
    }
  }

  function Pass(name: string, growth: int, list: seq<string>): seq<Event> {
    [Begin(name, growth)] + Reads(name, list) + [Decide(name)]
  }

  /** A put that grows its partition passes the check exactly when it finds the total below the limit. */
  lemma PassesCheck(limit: int, s: State, name: string, growth: int, list: seq<string>)
    requires name in s.sizes && name !in s.puts && growth > 0 && 0 <= s.sizes[name]
    requires Listing(list, s.sizes.Keys)
    ensures Run(limit, s, Pass(name, growth, list)) ==
            if limit <= 1 || Sum(s.sizes) >= limit then s else s.(puts := s.puts[name := Counting(growth)])
  {
    var s1 := Step(limit, s, Begin(name, growth));
    RunSplits(limit, s, [Begin(name, growth)], Reads(name, list));
    assert Run(limit, s, [Begin(name, growth)]) == Run(limit, s1, [Begin(name, growth)][1..]) == s1;
    ReadsAll(limit, s1, name, list);
    RunSnoc(limit, s, [Begin(name, growth)] + Reads(name, list), Decide(name));
    assert Counters(s.sizes, list) == s.sizes;
    assert s1.puts[name := Counting(growth)] == s.puts[name := Counting(growth)];
    assert s1.puts - {name} == s.puts;
  }

  /** A put from its beginning to its end. */
  function WholePut(name: string, growth: int, list: seq<string>): seq<Event> {
    (if growth > 0 then Pass(name, growth, list) else [Begin(name, growth)]) + [Count(name)]
  }

  lemma Counts(limit: int, s: State, name: string, growth: int)
    requires name in s.sizes && name !in s.puts
    ensures Step(limit, s.(puts := s.puts[name := Counting(growth)]), Count(name)) ==
            s.(sizes := s.sizes[name := s.sizes[name] + growth])
  {
    assert s.puts[name := Counting(growth)] - {name} == s.puts;
  }

  lemma BeginsCounting(limit: int, s: State, name: string, growth: int)
    requires name in s.sizes && name !in s.puts && growth <= 0 <= s.sizes[name] + growth
    ensures Run(limit, s, [Begin(name, growth)]) == s.(puts := s.puts[name := Counting(growth)])
  {
    RunSnoc(limit, s, [], Begin(name, growth));
    assert [] + [Begin(name, growth)] == [Begin(name, growth)];
  }

  lemma PutSteps(limit: int, s: State, name: string, growth: int, list: seq<string>)
    requires name in s.sizes && name !in s.puts && 0 <= s.sizes[name] && 0 <= s.sizes[name] + growth
    requires Listing(list, s.sizes.Keys)
    ensures Run(limit, s, WholePut(name, growth, list)) ==
            if growth > 0 && (limit <= 1 || Sum(s.sizes) >= limit) then s
            else s.(sizes := s.sizes[name := s.sizes[name] + growth])
  {
    Counts(limit, s, name, growth);
    if growth > 0 {
      PassesCheck(limit, s, name, growth, list);
      RunSnoc(limit, s, Pass(name, growth, list), Count(name));
    } else {
      BeginsCounting(limit, s, name, growth);
      RunSnoc(limit, s, [Begin(name, growth)], Count(name));
    }
  }

  function PassAll(todo: seq<string>, growth: int, list: seq<string>): seq<Event> {
    if todo == [] then []
    else PassAll(todo[..|todo| - 1], growth, list) + Pass(todo[|todo| - 1], growth, list)
  }

  lemma {:induction false} AllPassCheck(limit: int, s: State, todo: seq<string>, growth: int, list: seq<string>)
    requires s.puts == map[] && growth > 0 && limit > 1 && forall k <- s.sizes :: 0 <= s.sizes[k]
    requires Listing(list, s.sizes.Keys) && Sum(s.sizes) < limit
    requires forall k :: k in todo ==> k in s.sizes
    requires forall i, j :: 0 <= i < j < |todo| ==> todo[i] != todo[j]
    ensures Run(limit, s, PassAll(todo, growth, list)) == s.(puts := map k | k in todo :: Counting(growth))
    decreases |todo|
  {
    if todo == [] {
      assert (map k | k in todo :: Counting(growth)) == map[];
    } else {
      var init, last := todo[..|todo| - 1], todo[|todo| - 1];
      assert todo == init + [last] && last !in init;
      AllPassCheck(limit, s, init, growth, list);
      RunSplits(limit, s, PassAll(init, growth, list), Pass(last, growth, list));
      var s1 := Run(limit, s, PassAll(init, growth, list));
      PassesCheck(limit, s1, last, growth, list);
      assert s1.puts[last := Counting(growth)] == map k | k in todo :: Counting(growth);
    }
  }

  function CountAll(todo: seq<string>): seq<Event> {
    if todo == [] then [] else [Count(todo[0])] + CountAll(todo[1..])
  }

  lemma {:induction false} AllAreCounted(limit: int, s: State, todo: seq<string>, growth: nat)
    requires forall k :: k in todo ==> k in s.sizes && k in s.puts && s.puts[k] == Counting(growth)
    requires forall i, j :: 0 <= i < j < |todo| ==> todo[i] != todo[j]
    ensures Sum(Run(limit, s, CountAll(todo)).sizes) == Sum(s.sizes) + Multiple(|todo|, growth)
    decreases |todo|
  {
    if todo != [] {
      var s' := Step(limit, s, Count(todo[0]));
      SumOfUpdate(s.sizes, todo[0], s.sizes[todo[0]] + growth);
      assert CountAll(todo)[1..] == CountAll(todo[1..]);
      assert todo[0] !in todo[1..];
      AllAreCounted(limit, s', todo[1..], growth);
    }
  }

  lemma {:induction false} ListNames(names: set<string>) returns (list: seq<string>)
    ensures Listing(list, names) && |list| == |names|
    decreases |names|
  {
    if names == {} {
      list := [];
    } else {
      var k :| k in names;
      var rest := ListNames(names - {k});
      list := rest + [k];
    }
  }

  lemma {:induction false} PassAllIsBounded(todo: seq<string>, growth: int, list: seq<string>, largest: nat)
    requires growth <= largest
    ensures Bounded(PassAll(todo, growth, list), largest)
    decreases |todo|
  {
    if todo != [] {
      PassAllIsBounded(todo[..|todo| - 1], growth, list, largest);
      ReadsAreReads(todo[|todo| - 1], list);
    }
  }

  lemma {:induction false} ReadsAreReads(name: string, others: seq<string>)
    ensures forall i :: 0 <= i < |Reads(name, others)| ==> Reads(name, others)[i].Read?
    decreases |others|
  {
    if others != [] {
      ReadsAreReads(name, others[..|others| - 1]);
    }
  }

  lemma {:induction false} CountsAreCounts(todo: seq<string>)
    ensures forall i :: 0 <= i < |CountAll(todo)| ==> CountAll(todo)[i].Count?
    decreases |todo|
  {
    if todo != [] {
      CountsAreCounts(todo[1..]);
    }
  }

  /** Every limit, every largest entry and every set of partitions has a run that attains the bound. */
  lemma OvershootIsAttained(limit: int, names: set<string>, largest: nat) returns (s: State, events: seq<Event>)
    requires limit > 1 && names != {} && largest > 0
    ensures Initial(limit, names, s) && Bounded(events, largest)
    ensures Sum(Run(limit, s, events).sizes) == limit - 1 + |names| * largest
  {
    var first :| first in names;
    s := AlmostFull(limit, names, first);
    AlmostFullIsInitial(limit, names, first);
    var list := ListNames(names);
    events := PassAll(list, largest, list) + CountAll(list);
    PassAllIsBounded(list, largest, list, largest);
    CountsAreCounts(list);
    AllPassCheck(limit, s, list, largest, list);
    RunSplits(limit, s, PassAll(list, largest, list), CountAll(list));
    AllAreCounted(limit, Run(limit, s, PassAll(list, largest, list)), list, largest);
    MultipleIsProduct(|names|, largest);
  }

  /** In every interleaving the limit is overshot by one entry at most. */
  ghost predicate OneEntryBound(limit: int, names: set<string>, largest: nat) {
    forall s, events :: Initial(limit, names, s) && Bounded(events, largest) ==>
      Sum(Run(limit, s, events).sizes) <= limit - 1 + largest
  }

  /** The bound that holds for one put at a time holds in every interleaving exactly for at most one partition. */
  lemma OneEntryBoundIff(limit: int, names: set<string>, largest: nat)
    requires limit > 1
    ensures OneEntryBound(limit, names, largest) <==> |names| <= 1 || largest == 0
  {
    if |names| <= 1 || largest == 0 {
      assert |names| * largest <= largest;
      forall s, events | Initial(limit, names, s) && Bounded(events, largest)
        ensures Sum(Run(limit, s, events).sizes) <= limit - 1 + largest
      {
        LimitIsOvershotByOneEntryPerPartition(limit, names, largest, s, events);
      }
    } else {
      assert names != {};
      var s, events := OvershootIsAttained(limit, names, largest);
      assert |names| * largest >= 2 * largest > largest;
      assert Sum(Run(limit, s, events).sizes) > limit - 1 + largest;
    }
  }
}

/** The step machine of the limit, beside the partitions it counts. */
module ConcurrentAccounting {
  import opened Wrappers
  import opened StoreUtils
  import opened OrderedEntries
  import opened MapSums
  import opened MemoryAccounting
  import L = ConcurrentLimit

  /** A put that nobody interleaves with leaves the counters that the sequential put does. */
  lemma PutAlone(limit: long, p: Partitions, name: string, key: Key, value: Value, list: seq<string>)
    requires name in p && L.Listing(list, p.Keys)
    ensures var growth := Growth(p[name], key, value);
            var s := L.State(Sizes(p), map[]);
            L.Run(limit, s, L.WholePut(name, growth, list)) ==
            L.State(Sizes(Applied(Some(limit), p, PutEntry(name, key, value))), map[])
  {
    var growth := Growth(p[name], key, value);
    var put := Put(p[name], key, value);
    SizeOfPut(p[name], key, value);
    L.PutSteps(limit, L.State(Sizes(p), map[]), name, growth, list);
    assert Sizes(p[name := put]) == Sizes(p)[name := Size(put)];
  }

  lemma DropAlone(p: Partitions, name: string)
    requires name in p
    ensures Sum(Sizes(p)[name := 0]) == Total(p - {name})
  {
    TotalOfDrop(p, name);
    SumOfUpdate(Sizes(p), name, 0);
  }

  /** Removals and drops leave the total that the sequential ones do. */
  lemma LossesAlone(limit: int, p: Partitions, name: string, key: Key)
    requires name in p
    ensures var s := L.State(Sizes(p), map[]);
            var bytes := Size(p[name]) - Size(Remove(p[name], key));
            && 0 <= bytes
            && L.Step(limit, s, L.Shrink(name, bytes)).sizes == Sizes(Applied(None, p, RemoveEntry(name, key)))
            && Sum(L.Step(limit, s, L.Drop(name)).sizes) == Total(Applied(None, p, DropStore(name)))
  {
    var sizes, removed := Sizes(p), Remove(p[name], key);
    SizeOfRemove(p[name], key);
    assert Sizes(p[name := removed]) == sizes[name := Size(removed)];
    DropAlone(p, name);
  }
}
