/**
 * The persistent queue, as operations on values: a head and a tail offset over
 * entries kept in insertion order.
 */
module SequentialQueue {
  import opened Wrappers
  import opened StoreUtils
  import opened OrderedEntries
  import opened InMemoryDbStore

  datatype Queue<T> = Queue(head: long, tail: long, items: seq<Entry<long, T>>)

  type Predicate<!T> = (long, T) -> bool

  predicate IsEmpty<T>(q: Queue<T>) {
    q.head > q.tail
  }

  /** The entry at `offset` exists and the caller's predicate accepts it. */
  predicate Takes<T>(q: Queue<T>, pred: Predicate<T>, offset: long) {
    var v := Lookup(q.items, offset);
    v.Some? && pred(offset, v.value)
  }

  /** The queue that is built over whatever entries a store holds. */
  function Opened<T>(items: seq<Entry<long, T>>, defaultHead: long): Queue<T> {
    if items == [] then Queue(defaultHead, WrapLong(defaultHead - 1), items)
    else Queue(items[0].key, items[|items| - 1].key, items)
  }

  function Appended<T>(q: Queue<T>, v: T): (Queue<T>, Result<long, KeyError>) {
    var offset := WrapLong(q.tail + 1);
    if offset < 0 then (q, Failure(OffsetOutOfRange))
    else (Queue(q.head, offset, Put(q.items, offset, v)), Success(offset))
  }

  /** Removal at one end: the head offset moves up, the tail offset moves down. */
  function EndRemoved<T>(q: Queue<T>, pred: Predicate<T>, head: bool): (Queue<T>, Result<bool, KeyError>) {
    var offset := if head then q.head else q.tail;
    if offset < 0 then (q, Failure(OffsetOutOfRange))
    else if !Takes(q, pred, offset) then (q, Success(false))
    else if head then (Queue(WrapLong(q.head + 1), q.tail, Remove(q.items, offset)), Success(true))
    else (Queue(q.head, WrapLong(q.tail - 1), Remove(q.items, offset)), Success(true))
  }

  function FirstRemoved<T>(q: Queue<T>, pred: Predicate<T>): (Queue<T>, Result<bool, KeyError>) {
    if IsEmpty(q) then (q, Success(false)) else EndRemoved(q, pred, true)
  }

  function OffsetRemoved<T>(q: Queue<T>, pred: Predicate<T>, offset: long): (Queue<T>, Result<bool, KeyError>) {
    if offset == q.head then FirstRemoved(q, pred)
    else if IsEmpty(q) then (q, Success(false))
    else if offset == q.tail then EndRemoved(q, pred, false)
    else if offset < 0 then (q, Failure(OffsetOutOfRange))
    else if !Takes(q, pred, offset) then (q, Success(false))
    else (q.(items := Remove(q.items, offset)), Success(true))
  }

  datatype BatchError = BadBatchSize | BadOffset

  function GetBatch<T>(q: Queue<T>, start: long, batchSize: int32): Result<seq<Entry<long, T>>, BatchError> {
    var from := if start < q.head then q.head else start;
    if batchSize < 1 then Failure(BadBatchSize)
    else if IsEmpty(q) || q.tail < from then Success([])
    else if from < 0 then Failure(BadOffset)
    else Success(Batch(q.items, IndexOf(q.items, from), batchSize))
  }

  // ------------------------------------------------- invariants of every run

  ghost predicate Increasing<T>(items: seq<Entry<long, T>>) {
    forall i, j :: 0 <= i < j < |items| ==> items[i].key < items[j].key
  }

  ghost predicate Within<T>(items: seq<Entry<long, T>>, lo: int, hi: int) {
    forall i :: 0 <= i < |items| ==> lo <= items[i].key <= hi
  }

  /** Every stored offset lies in head..tail, and insertion order is offset order. */
  ghost predicate WellFormed<T>(q: Queue<T>) {
    && q.head <= q.tail + 1
    && (q.head <= q.tail ==> 0 <= q.head)
    && Within(q.items, q.head, q.tail)
    && Increasing(q.items)
  }

  ghost predicate Consecutive<T>(items: seq<Entry<long, T>>, first: int) {
    forall i :: 0 <= i < |items| ==> items[i].key == first + i
  }

  /** The stored offsets are exactly head..tail. */
  ghost predicate HoleFree<T>(q: Queue<T>) {
    && (q.head <= q.tail ==> 0 <= q.head)
    && |q.items| == q.tail - q.head + 1
    && Consecutive(q.items, q.head)
  }

  datatype Op<!T> =
    | Append(value: T)
    | RemoveFirst(pred: Predicate<T>)
    | RemoveOffset(pred: Predicate<T>, offset: long)

  function Apply<T>(q: Queue<T>, op: Op<T>): Queue<T> {
    match op
    case Append(v) => Appended(q, v).0
    case RemoveFirst(pred) => FirstRemoved(q, pred).0
    case RemoveOffset(pred, offset) => OffsetRemoved(q, pred, offset).0
  }

  ghost function Run<T>(q: Queue<T>, ops: seq<Op<T>>): Queue<T>
    decreases |ops|
  {
    if ops == [] then q else Run(Apply(q, ops[0]), ops[1..])
  }

  /** The operation asks for the entry at the head, and gets it. */
  predicate TakesHead<T>(q: Queue<T>, op: Op<T>) {
    && (op.RemoveFirst? || (op.RemoveOffset? && op.offset == q.head))
    && !IsEmpty(q) && Takes(q, op.pred, q.head)
  }

  /** Taking the entry at the largest offset wraps the head offset round. */
  predicate Wraps<T>(q: Queue<T>, op: Op<T>) {
    q.head == LONG_MAX && TakesHead(q, op)
  }

  /** The operation takes an entry that is neither first nor last. */
  predicate Punches<T>(q: Queue<T>, op: Op<T>) {
    op.RemoveOffset? && q.head < op.offset < q.tail && Takes(q, op.pred, op.offset)
  }

  lemma RemoveShrinks<T>(items: seq<Entry<long, T>>, offset: long, lo: int, hi: int)
    requires Increasing(items) && Within(items, lo, hi) && Lookup(items, offset).Some?
    ensures lo <= offset <= hi
    ensures Increasing(Remove(items, offset))
    ensures Within(Remove(items, offset), if offset == lo then lo + 1 else lo, if offset == hi then hi - 1 else hi)
  {
    var i := IndexOf(items, offset);
    assert forall j :: 0 <= j < |items| && j != i ==> items[j].key != items[i].key;
  }

  lemma AppendKeepsWellFormed<T>(q: Queue<T>, v: T)
    requires WellFormed(q)
    ensures WellFormed(Appended(q, v).0)
  {
    if q.tail < LONG_MAX {
      IndexOfIsUnique(q.items, (q.tail + 1) as long, |q.items|);
    }
  }

  /** One operation keeps the queue well-formed exactly when it does not wrap the head offset. */
  lemma StepKeepsWellFormedIffNoWrap<T>(q: Queue<T>, op: Op<T>)
    requires WellFormed(q)
    ensures WellFormed(Apply(q, op)) <==> !Wraps(q, op)
    ensures Apply(q, op).tail <= q.tail + 1
  {
    match op
    case Append(v) =>
      AppendKeepsWellFormed(q, v);
    case RemoveFirst(pred) =>
      if TakesHead(q, op) {
        RemoveShrinks(q.items, q.head, q.head, q.tail);
      }
    case RemoveOffset(pred, offset) =>
      if Takes(q, pred, offset) {
        RemoveShrinks(q.items, offset, q.head, q.tail);
      }
  }

  /** No operation of the run wraps the head offset round. */
  ghost predicate NeverWraps<T>(q: Queue<T>, ops: seq<Op<T>>)
    decreases |ops|
  {
    ops == [] || (!Wraps(q, ops[0]) && NeverWraps(Apply(q, ops[0]), ops[1..]))
  }

  /** Well-formed at the start and after each operation of the run. */
  ghost predicate StaysWellFormed<T>(q: Queue<T>, ops: seq<Op<T>>) {
    forall n :: 0 <= n <= |ops| ==> WellFormed(Run(q, ops[..n]))
  }

  lemma RunOfPrefix<T>(q: Queue<T>, ops: seq<Op<T>>, n: nat)
    requires 1 <= n <= |ops|
    ensures Run(q, ops[..n]) == Run(Apply(q, ops[0]), ops[1..][..n - 1])
  {
    assert ops[..n][1..] == ops[1..][..n - 1];
  }

  lemma StaysWellFormedUnfolds<T>(q: Queue<T>, ops: seq<Op<T>>)
    requires WellFormed(q) && ops != []
    ensures StaysWellFormed(q, ops) <==> StaysWellFormed(Apply(q, ops[0]), ops[1..])
  {
    var q', rest := Apply(q, ops[0]), ops[1..];
    forall n | 1 <= n <= |ops|
      ensures Run(q, ops[..n]) == Run(q', rest[..n - 1])
    {
      RunOfPrefix(q, ops, n);
    }
    if StaysWellFormed(q, ops) {
      forall n | 0 <= n <= |rest|
        ensures WellFormed(Run(q', rest[..n]))
      {
        assert WellFormed(Run(q, ops[..n + 1]));
      }
    }
  }

  /** A run stays well-formed exactly when it never wraps; one too short to reach the largest offset never does. */
  lemma {:induction false} RunStaysWellFormedIffNeverWraps<T>(q: Queue<T>, ops: seq<Op<T>>)
    requires WellFormed(q)
    ensures StaysWellFormed(q, ops) <==> NeverWraps(q, ops)
    ensures q.tail + |ops| < LONG_MAX ==> NeverWraps(q, ops)
    decreases |ops|
  {
    if ops != [] {
      var q', rest := Apply(q, ops[0]), ops[1..];
      StepKeepsWellFormedIffNoWrap(q, ops[0]);
      StaysWellFormedUnfolds(q, ops);
      if Wraps(q, ops[0]) {
        assert Run(q', rest[..0]) == q';
      } else {
        RunStaysWellFormedIffNeverWraps(q', rest);
      }
    }
  }

  /** After any such run the first and last entries carry the least and the greatest offset. */
  lemma RunKeepsWellFormed<T>(q: Queue<T>, ops: seq<Op<T>>)
    requires WellFormed(q) && NeverWraps(q, ops)
    ensures WellFormed(Run(q, ops))
    ensures var items := Run(q, ops).items;
            forall i :: 0 <= i < |items| ==> items[0].key <= items[i].key <= items[|items| - 1].key
  {
    RunStaysWellFormedIffNeverWraps(q, ops);
    assert ops[..|ops|] == ops;
  }

  lemma HoleFreeIndex<T>(q: Queue<T>, offset: long)
    requires HoleFree(q)
    ensures IndexOf(q.items, offset) ==
            if q.head <= offset <= q.tail then offset - q.head else |q.items|
  {
    IndexOfIsUnique(q.items, offset,
                    if q.head <= offset <= q.tail then offset - q.head else |q.items|);
  }

  lemma HoleFreeRemove<T>(q: Queue<T>, offset: long)
    requires HoleFree(q) && q.head <= offset <= q.tail
    ensures |Remove(q.items, offset)| == |q.items| - 1
    ensures offset == q.head ==> Remove(q.items, offset) == q.items[1..]
    ensures offset == q.tail ==> Remove(q.items, offset) == q.items[..|q.items| - 1]
  {
    HoleFreeIndex(q, offset);
  }

  /**
   * On a queue without holes the operations are those of a FIFO: append adds at
   * the back under the next offset, and an accepted removal takes the front.
   */
  lemma HoleFreeQueueIsFifo<T>(q: Queue<T>, v: T, pred: Predicate<T>)
    requires HoleFree(q)
    ensures q.tail < LONG_MAX && -1 <= q.tail ==>
              Appended(q, v) == (Queue(q.head, q.tail + 1, q.items + [Entry(q.tail + 1, v)]), Success(q.tail + 1))
    ensures q.items == [] ==> FirstRemoved(q, pred) == (q, Success(false))
    ensures q.items != [] && !pred(q.head, q.items[0].value) ==> FirstRemoved(q, pred) == (q, Success(false))
    ensures q.items != [] && pred(q.head, q.items[0].value) && q.head < LONG_MAX ==>
              FirstRemoved(q, pred) == (Queue(q.head + 1, q.tail, q.items[1..]), Success(true))
  {
    if q.tail < LONG_MAX {
      HoleFreeIndex(q, q.tail + 1);
    }
    HoleFreeIndex(q, q.head);
    if q.items != [] {
      HoleFreeRemove(q, q.head);
    }
  }

  lemma AppendKeepsHoleFree<T>(q: Queue<T>, v: T)
    requires HoleFree(q)
    ensures HoleFree(Appended(q, v).0)
  {
    if q.tail < LONG_MAX {
      HoleFreeIndex(q, q.tail + 1);
    }
  }

  lemma EndRemovedKeepsHoleFree<T>(q: Queue<T>, pred: Predicate<T>, head: bool)
    requires HoleFree(q) && !IsEmpty(q)
    requires head || q.head < q.tail
    ensures HoleFree(EndRemoved(q, pred, head).0) <==>
            !(head && q.head == LONG_MAX && Takes(q, pred, q.head))
  {
    HoleFreeRemove(q, if head then q.head else q.tail);
    assert Consecutive(q.items[1..], q.head + 1);
  }

  /** An operation on a queue without holes leaves one exactly when it takes a middle entry (or wraps). */
  lemma StepKeepsHoleFreeIff<T>(q: Queue<T>, op: Op<T>)
    requires HoleFree(q)
    ensures HoleFree(Apply(q, op)) <==> !Punches(q, op) && !Wraps(q, op)
  {
    match op
    case Append(v) =>
      AppendKeepsHoleFree(q, v);
    case RemoveFirst(pred) =>
      if !IsEmpty(q) {
        EndRemovedKeepsHoleFree(q, pred, true);
      }
    case RemoveOffset(pred, offset) =>
      if !IsEmpty(q) && (offset == q.head || offset == q.tail) {
        EndRemovedKeepsHoleFree(q, pred, offset == q.head);
      } else if Takes(q, pred, offset) {
        HoleFreeIndex(q, offset);
        HoleFreeRemove(q, offset);
      }
  }

  /** No operation of the run takes a middle entry, or wraps the head offset round. */
  ghost predicate NeverPunches<T>(q: Queue<T>, ops: seq<Op<T>>)
    decreases |ops|
  {
    ops == [] || (!Punches(q, ops[0]) && !Wraps(q, ops[0]) && NeverPunches(Apply(q, ops[0]), ops[1..]))
  }

  /** Without holes at the start and after each operation of the run. */
  ghost predicate StaysHoleFree<T>(q: Queue<T>, ops: seq<Op<T>>) {
    forall n :: 0 <= n <= |ops| ==> HoleFree(Run(q, ops[..n]))
  }

  lemma StaysHoleFreeUnfolds<T>(q: Queue<T>, ops: seq<Op<T>>)
    requires HoleFree(q) && ops != []
    ensures StaysHoleFree(q, ops) <==> StaysHoleFree(Apply(q, ops[0]), ops[1..])
  {
    var q', rest := Apply(q, ops[0]), ops[1..];
    forall n | 1 <= n <= |ops|
      ensures Run(q, ops[..n]) == Run(q', rest[..n - 1])
    {
      RunOfPrefix(q, ops, n);
    }
    if StaysHoleFree(q, ops) {
      forall n | 0 <= n <= |rest|
        ensures HoleFree(Run(q', rest[..n]))
      {
        assert HoleFree(Run(q, ops[..n + 1]));
      }
    }
  }

  /** A run never leaves a hole exactly when it takes no middle entry: then it is a FIFO all along. */
  lemma {:induction false} RunStaysHoleFreeIffNeverPunches<T>(q: Queue<T>, ops: seq<Op<T>>)
    requires HoleFree(q)
    ensures StaysHoleFree(q, ops) <==> NeverPunches(q, ops)
    decreases |ops|
  {
    if ops != [] {
      var q', rest := Apply(q, ops[0]), ops[1..];
      StepKeepsHoleFreeIff(q, ops[0]);
      StaysHoleFreeUnfolds(q, ops);
      if HoleFree(q') {
        RunStaysHoleFreeIffNeverPunches(q', rest);
      } else {
        assert Run(q', rest[..0]) == q';
      }
    }
  }

  /**
   * For any offset: removal returns true exactly when the entry is there and
   * accepted, and takes only it. An offset that moves is the one of that end. A
   * negative offset is refused, unless the queue is empty.
   */
  lemma RemoveOffsetTakesExactlyThatEntry<T>(q: Queue<T>, pred: Predicate<T>, offset: long)
    requires WellFormed(q)
    ensures var (after, r) := OffsetRemoved(q, pred, offset);
            var v := Lookup(q.items, offset);
            var taken := v.Some? && pred(offset, v.value);
            && r == (if offset < 0 && q.head <= q.tail then Failure(OffsetOutOfRange) else Success(taken))
            && after.items == (if taken then Remove(q.items, offset) else q.items)
            && after.head == (if taken && offset == q.head then WrapLong(q.head + 1) else q.head)
            && after.tail == (if taken && offset == q.tail && q.head < q.tail then q.tail - 1 else q.tail)
  {
    assert Takes(q, pred, offset) ==> q.head <= offset <= q.tail by {
      var i := IndexOf(q.items, offset);
      assert i < |q.items| ==> q.items[i].key == offset;
    }
  }

  // ------------------------------------------------------- holes at the head

  /** The head offset points at an entry that is gone although the queue is not empty. */
  predicate HeadLost<T>(q: Queue<T>) {
    !IsEmpty(q) && Lookup(q.items, q.head) == None
  }

  /** The operation takes the head although the entry behind it is gone. */
  predicate LosesHead<T>(q: Queue<T>, op: Op<T>) {
    TakesHead(q, op) && q.head < q.tail && Lookup(q.items, q.head + 1) == None
  }

  /** One operation loses the head exactly when it takes it and the next offset is a hole. */
  lemma HeadIsLostIff<T>(q: Queue<T>, op: Op<T>)
    requires WellFormed(q) && !HeadLost(q) && !Wraps(q, op)
    ensures HeadLost(Apply(q, op)) <==> LosesHead(q, op)
  {
    assert Distinct(q.items);
    match op
    case Append(v) =>
      HeadKeptByAppend(q, v);
    case RemoveFirst(pred) =>
      FirstLosesHeadIff(q, pred);
    case RemoveOffset(pred, offset) =>
      if offset == q.head {
        FirstLosesHeadIff(q, pred);
      } else {
        RemoveActsOnOneKey(q.items, offset, q.head);
      }
  }

  lemma FirstLosesHeadIff<T>(q: Queue<T>, pred: Predicate<T>)
    requires WellFormed(q) && Distinct(q.items) && !HeadLost(q) && !Wraps(q, RemoveFirst(pred))
    ensures HeadLost(FirstRemoved(q, pred).0) <==> LosesHead(q, RemoveFirst(pred))
  {
    if TakesHead(q, RemoveFirst(pred)) {
      RemoveActsOnOneKey(q.items, q.head, q.head + 1);
    }
  }

  lemma HeadKeptByAppend<T>(q: Queue<T>, v: T)
    requires WellFormed(q) && Distinct(q.items) && !HeadLost(q)
    ensures !HeadLost(Appended(q, v).0)
  {
    if q.tail < LONG_MAX {
      PutActsOnOneKey(q.items, q.tail + 1, v, q.head);
    }
  }

  /** Some operation of the run loses the head. */
  ghost predicate SomeLosesHead<T>(q: Queue<T>, ops: seq<Op<T>>)
    decreases |ops|
  {
    ops != [] && (LosesHead(q, ops[0]) || SomeLosesHead(Apply(q, ops[0]), ops[1..]))
  }

  /** After a run the head is lost exactly when some operation of it lost the head. */
  lemma {:induction false} RunLosesHeadIff<T>(q: Queue<T>, ops: seq<Op<T>>)
    requires WellFormed(q) && !HeadLost(q) && NeverWraps(q, ops)
    ensures HeadLost(Run(q, ops)) <==> SomeLosesHead(q, ops)
    decreases |ops|
  {
    if ops != [] {
      var q' := Apply(q, ops[0]);
      HeadIsLostIff(q, ops[0]);
      StepKeepsWellFormedIffNoWrap(q, ops[0]);
      if HeadLost(q') {
        LostHeadIsNeverRecovered(q', ops[1..], (o, v) => true);
      } else {
        RunLosesHeadIff(q', ops[1..]);
      }
    }
  }

  /** Taking a second entry and then the first loses the head. */
  lemma MiddleThenFirstLosesHead<T>(a: T, b: T, c: T)
    ensures var q := Queue(0, 2, [Entry(0, a), Entry(1, b), Entry(2, c)]);
            && HoleFree(q)
            && HeadLost(Run(q, [RemoveOffset((o, v) => true, 1), RemoveFirst((o, v) => true)]))
  {
    var q: Queue<T> := Queue(0, 2, [Entry(0, a), Entry(1, b), Entry(2, c)]);
    var any: Predicate<T> := (o, v) => true;
    HoleFreeIndex(q, 1);
    var q1 := Apply(q, RemoveOffset(any, 1));
    assert q1 == Queue(0, 2, [Entry(0, a), Entry(2, c)]);
    IndexOfIsUnique(q1.items, 0, 0);
    var q2 := Apply(q1, RemoveFirst(any));
    assert q2 == Queue(1, 2, [Entry(2, c)]);
    IndexOfIsUnique(q2.items, 1, 1);
    var ops := [RemoveOffset(any, 1), RemoveFirst(any)];
    assert ops[1..] == [RemoveFirst(any)] && ops[1..][1..] == [];
    assert Run(q, ops) == Run(q1, ops[1..]) == Run(q2, []);
  }

  /**
   * Once the head is lost it stays lost: over every later run the head offset
   * does not move, and no removal from the front ever succeeds again.
   */
  lemma {:induction false} LostHeadIsNeverRecovered<T>(q: Queue<T>, ops: seq<Op<T>>, pred: Predicate<T>)
    requires WellFormed(q) && HeadLost(q)
    ensures var r := Run(q, ops);
            && WellFormed(r) && HeadLost(r) && r.head == q.head
            && FirstRemoved(r, pred) == (r, Success(false))
    decreases |ops|
  {
    if ops != [] {
      LostHeadStep(q, ops[0]);
      LostHeadIsNeverRecovered(Apply(q, ops[0]), ops[1..], pred);
    }
  }

  lemma LostHeadStep<T>(q: Queue<T>, op: Op<T>)
    requires WellFormed(q) && HeadLost(q)
    ensures WellFormed(Apply(q, op)) && HeadLost(Apply(q, op)) && Apply(q, op).head == q.head
  {
    StepKeepsWellFormedIffNoWrap(q, op);
    match op
    case Append(v) =>
      LostHeadAppend(q, v);
    case RemoveFirst(pred) =>
    case RemoveOffset(pred, offset) =>
      LostHeadRemove(q, pred, offset);
  }

  lemma LostHeadAppend<T>(q: Queue<T>, v: T)
    requires WellFormed(q) && HeadLost(q)
    ensures HeadLost(Appended(q, v).0) && Appended(q, v).0.head == q.head
  {
    var q' := Appended(q, v).0;
    assert forall i :: 0 <= i < |q.items| ==> q.items[i].key != q.head;
    IndexOfIsUnique(q'.items, q'.head, |q'.items|);
  }

  lemma LostHeadRemove<T>(q: Queue<T>, pred: Predicate<T>, offset: long)
    requires WellFormed(q) && HeadLost(q)
    ensures HeadLost(OffsetRemoved(q, pred, offset).0) && OffsetRemoved(q, pred, offset).0.head == q.head
  {
    assert Distinct(q.items);
    RemoveActsOnOneKey(q.items, offset, q.head);
  }

  /** Reopening a well-formed queue keeps its entries and never starts with a lost head. */
  lemma ReopenRecoversHead<T>(q: Queue<T>, defaultHead: long)
    requires WellFormed(q) && defaultHead != LONG_MIN
    ensures var r := Opened(q.items, defaultHead);
            && WellFormed(r) && !HeadLost(r) && r.items == q.items
            && (HoleFree(q) ==> HoleFree(r))
            && (HoleFree(q) && q.items != [] ==> r == q)
  {
    if q.items != [] {
      IndexOfIsUnique(q.items, q.items[0].key, 0);
    }
  }

  // ----------------------------------------------------------------- batches

  function Min(a: int, b: int): int {
    if a < b then a else b
  }

  /**
   * On a queue without holes a batch is the slice of at most `n` consecutive
   * entries from max(start, head), and empty past the tail, as long as the end
   * of the batch can be computed in 32 bits; otherwise it is empty.
   */
  lemma BatchOfHoleFreeQueue<T>(q: Queue<T>, start: long, n: int32)
    requires HoleFree(q) && 1 <= n && |q.items| <= INT_MAX
    ensures var i := if start < q.head then 0 else start - q.head;
            GetBatch(q, start, n) ==
              Success(if i >= |q.items| || i + n > INT_MAX then []
                      else q.items[i..Min(i + n, |q.items|)])
  {
    var from := if start < q.head then q.head else start;
    HoleFreeIndex(q, from);
    if from <= q.tail {
      BatchIsSliceUnlessOverflow(q.items, from - q.head, n);
    }
  }

  /** A batch is refused exactly when less than one entry is asked for. */
  lemma BatchIsRefusedIff<T>(q: Queue<T>, start: long, n: int32)
    requires WellFormed(q)
    ensures GetBatch(q, start, n) == Failure(BadBatchSize) <==> n < 1
    ensures GetBatch(q, start, n).Failure? ==> n < 1
  {
  }

  /** A batch as large as can be asked for, from the second entry on, comes back empty. */
  lemma LargestBatchIsEmpty<T>(a: T, b: T)
    ensures var q := Queue(0, 1, [Entry(0, a), Entry(1, b)]);
            && HoleFree(q)
            && GetBatch(q, 1, INT_MAX) == Success([]) && GetBatch(q, 1, INT_MAX - 1) == Success([Entry(1, b)])
  {
    var q := Queue(0, 1, [Entry(0, a), Entry(1, b)]);
    BatchOfHoleFreeQueue(q, 1, INT_MAX);
    BatchOfHoleFreeQueue(q, 1, INT_MAX - 1);
    assert q.items[1..2] == [Entry(1, b)];
  }

  /** The position of the first entry at or after `offset`. */
  function FirstAtOrAfter<T>(items: seq<Entry<long, T>>, offset: long): (i: nat)
    ensures i <= |items|
    ensures i < |items| ==> items[i].key >= offset
    ensures forall j :: 0 <= j < i ==> items[j].key < offset
  {
    if items == [] || items[0].key >= offset then 0 else 1 + FirstAtOrAfter(items[1..], offset)
  }

  lemma BatchAtEntry<T>(q: Queue<T>, start: long, n: int32)
    requires WellFormed(q) && 1 <= n
    ensures var from := if start < q.head then q.head else start;
            var k := IndexOf(q.items, from);
            GetBatch(q, start, n) == Success(if k < |q.items| then Batch(q.items, k, n) else [])
  {
    var from := if start < q.head then q.head else start;
    var k := IndexOf(q.items, from);
    if k < |q.items| {
      assert q.items[k].key == from && q.head <= from <= q.tail && 0 <= from;
    } else {
      assert Batch(q.items, k, n) == [];
      assert !IsEmpty(q) ==> 0 <= from;
    }
  }

  lemma BatchAtFirst<T>(q: Queue<T>, start: long, n: int32, from: long, i: nat)
    requires WellFormed(q) && 1 <= n && |q.items| <= INT_MAX
    requires from == (if start < q.head then q.head else start) && i == FirstAtOrAfter(q.items, from)
    ensures GetBatch(q, start, n) ==
            Success(if i == |q.items| || q.items[i].key != from || i + n > INT_MAX then []
                    else q.items[i..Min(i + n, |q.items|)])
  {
    BatchAtEntry(q, start, n);
    if i < |q.items| && q.items[i].key == from {
      IndexOfIsUnique(q.items, from, i);
      BatchIsSliceUnlessOverflow(q.items, i, n);
    } else {
      IndexOfIsUnique(q.items, from, |q.items|);
    }
  }

  lemma EmptyOrSlice<T>(batch: Result<seq<T>, BatchError>, slice: seq<T>, empty: bool)
    requires batch == Success(if empty then [] else slice)
    ensures batch == Success(slice) <==> !empty || slice == []
    ensures batch == Success(slice) || batch == Success([])
  {
  }

  /**
   * With holes, a batch from `from` on holds the first `n` entries at or after it,
   * the `i`-th and those behind it, exactly when there are none, or `from` itself
   * is stored and the end of the batch can be computed in 32 bits. Otherwise it
   * is empty.
   */
  lemma BatchWithHoles<T>(q: Queue<T>, start: long, n: int32, from: long, i: nat,
                          batch: Result<seq<Entry<long, T>>, BatchError>)
    requires WellFormed(q) && 1 <= n && |q.items| <= INT_MAX
    requires from == (if start < q.head then q.head else start) && i == FirstAtOrAfter(q.items, from)
    requires batch == GetBatch(q, start, n)
    ensures var slice := q.items[i..Min(i + n, |q.items|)];
            && (batch == Success(slice) <==> i == |q.items| || (q.items[i].key == from && i + n <= INT_MAX))
            && (batch == Success(slice) || batch == Success([]))
  {
    BatchAtFirst(q, start, n, from, i);
    EmptyOrSlice(batch, q.items[i..Min(i + n, |q.items|)],
                 i == |q.items| || q.items[i].key != from || i + n > INT_MAX);
  }
}

/** The queue object: it keeps the queue above under byte keys in a mapped store. */
module SequentialStore {
  import opened Wrappers
  import opened StoreUtils
  import opened OrderedEntries
  import opened InMemoryDbStore
  import opened SequentialQueue

  /** The conversions between offsets and keys of one host. */
  datatype Codec = Codec(keyOf: long -> Result<Key, KeyError>, offsetOf: Key -> Result<long, KeyError>)

  function HostCodec(littleEndian: bool): Codec {
    Codec(o => GetKeyFromOffset(o, littleEndian), k => GetOffsetFromKey(k, littleEndian))
  }

  /** Negative offsets are refused; decoding inverts encoding on all others. */
  ghost predicate Lawful(c: Codec) {
    forall o: long ::
      if o < 0 then c.keyOf(o) == Failure(OffsetOutOfRange)
      else c.keyOf(o).Success? && c.offsetOf(c.keyOf(o).value) == Success(o)
  }

  lemma HostCodecIsLawful(littleEndian: bool)
    ensures Lawful(HostCodec(littleEndian))
  {
    forall o: long | 0 <= o
      ensures GetOffsetFromKey(GetKeyFromOffset(o, littleEndian).value, littleEndian) == Success(o)
    {
      OffsetOfKey(o, littleEndian, littleEndian);
    }
  }

  /** Every key is the key of a non-negative offset. */
  ghost predicate KeysAreOffsets<V>(es: seq<Entry<Key, V>>, c: Codec) {
    forall i :: 0 <= i < |es| ==> IsOffsetKey(es[i].key, c)
  }

  predicate IsOffsetKey(key: Key, c: Codec) {
    var o := c.offsetOf(key);
    o.Success? && 0 <= o.value && c.keyOf(o.value) == Success(key)
  }

  /** The same entries under their offsets. */
  function Decoded<V>(es: seq<Entry<Key, V>>, c: Codec): (r: seq<Entry<long, V>>)
    requires KeysAreOffsets(es, c)
    ensures |r| == |es|
    ensures forall i :: 0 <= i < |es| ==>
              r[i] == Entry(c.offsetOf(es[i].key).value, es[i].value)
  {
    seq(|es|, i requires 0 <= i < |es| => Entry(c.offsetOf(es[i].key).value, es[i].value))
  }

  lemma DecodedIndex<V>(es: seq<Entry<Key, V>>, c: Codec, offset: long, key: Key)
    requires KeysAreOffsets(es, c)
    requires Lawful(c) && c.keyOf(offset) == Success(key)
    ensures IndexOf(Decoded(es, c), offset) == IndexOf(es, key)
    ensures IsOffsetKey(key, c) && c.offsetOf(key) == Success(offset)
  {
    forall i | 0 <= i < |es|
      ensures es[i].key == key <==> Decoded(es, c)[i].key == offset
    {
      assert IsOffsetKey(es[i].key, c);
    }
    IndexOfIsUnique(Decoded(es, c), offset, IndexOf(es, key));
  }

  lemma DecodedPut<V>(es: seq<Entry<Key, V>>, c: Codec, offset: long, key: Key, v: V)
    requires KeysAreOffsets(es, c)
    requires Lawful(c) && c.keyOf(offset) == Success(key)
    ensures KeysAreOffsets(Put(es, key, v), c)
    ensures Decoded(Put(es, key, v), c) == Put(Decoded(es, c), offset, v)
  {
    DecodedIndex(es, c, offset, key);
  }

  lemma DecodedRemove<V>(es: seq<Entry<Key, V>>, c: Codec, offset: long, key: Key)
    requires KeysAreOffsets(es, c)
    requires Lawful(c) && c.keyOf(offset) == Success(key)
    ensures KeysAreOffsets(Remove(es, key), c)
    ensures Decoded(Remove(es, key), c) == Remove(Decoded(es, c), offset)
  {
    DecodedIndex(es, c, offset, key);
    var i := IndexOf(es, key);
    if i < |es| {
      DecodedWithout(es, c, i);
    }
  }

  lemma DecodedWithout<V>(es: seq<Entry<Key, V>>, c: Codec, i: nat)
    requires KeysAreOffsets(es, c) && i < |es|
    ensures KeysAreOffsets(es[..i] + es[i + 1..], c)
    ensures Decoded(es[..i] + es[i + 1..], c) == Decoded(es, c)[..i] + Decoded(es, c)[i + 1..]
  {
  }

  lemma DecodedBatch<V>(es: seq<Entry<Key, V>>, c: Codec, index: nat, batchSize: int32)
    requires KeysAreOffsets(es, c) && index <= |es|
    ensures KeysAreOffsets(Batch(es, index, batchSize), c)
    ensures Decoded(Batch(es, index, batchSize), c) == Batch(Decoded(es, c), index, batchSize)
  {
  }

  class SequentialStore<T(!new)> {
    const store: KeyValueStoreMapper<T>
    const codec: Codec
    var headOffset: long
    var tailOffset: long

    ghost predicate Valid()
      reads store.db
    {
      Lawful(codec) && store.Faithful() && KeysAreOffsets(store.Entries(), codec)
    }

    ghost function View(): Queue<T>
      requires Valid()
      reads this, store.db
    {
      Queue(headOffset, tailOffset, Decoded(store.Entries(), codec))
    }

    /** Opens the queue on a store that holds nothing but the entries of a queue. */
    constructor Create(store: KeyValueStoreMapper<T>, littleEndian: bool, defaultHeadOffset: long)
      requires store.Faithful() && KeysAreOffsets(store.Entries(), HostCodec(littleEndian))
      ensures this.store == store && codec == HostCodec(littleEndian)
      ensures Valid() && View() == Opened(Decoded(store.Entries(), codec), defaultHeadOffset)
    {
      this.store := store;
      var codec := HostCodec(littleEndian);
      this.codec := codec;
      HostCodecIsLawful(littleEndian);
      var first := store.GetFirstEntry();
      var last := store.GetLastEntry();
      if first.Some? && last.Some? {
        assert IsOffsetKey(first.value.key, codec) && IsOffsetKey(last.value.key, codec);
        headOffset := codec.offsetOf(first.value.key).value;
        tailOffset := codec.offsetOf(last.value.key).value;
      } else {
        headOffset := defaultHeadOffset;
        tailOffset := WrapLong(defaultHeadOffset - 1);
      }
    }

    method Append(item: T) returns (r: Result<long, KeyError>)
      requires Valid()
      modifies this, store.db
      ensures Valid() && (View(), r) == Appended(old(View()), item)
    {
      var currentOffset := WrapLong(tailOffset + 1);
      var key := codec.keyOf(currentOffset);
      if key.Failure? {
        return Failure(key.error);
      }
      DecodedPut(store.Entries(), codec, currentOffset, key.value, item);
      store.Put(key.value, item);
      tailOffset := currentOffset;
      return Success(currentOffset);
    }

    method RemoveOffset(pred: Predicate<T>, offset: long) returns (r: Result<bool, KeyError>)
      requires Valid()
      modifies this, store.db
      ensures Valid() && (View(), r) == OffsetRemoved(old(View()), pred, offset)
    {
      if offset == headOffset {
        r := RemoveFirst(pred);
        return;
      }
      if headOffset > tailOffset {
        return Success(false);
      }
      if offset == tailOffset {
        r := RemoveEnd(pred, false);
        return;
      }
      r := Take(pred, offset);
    }

    method RemoveFirst(pred: Predicate<T>) returns (r: Result<bool, KeyError>)
      requires Valid()
      modifies this, store.db
      ensures Valid() && (View(), r) == FirstRemoved(old(View()), pred)
    {
      if headOffset > tailOffset {
        return Success(false);
      }
      r := RemoveEnd(pred, true);
    }

    method RemoveEnd(pred: Predicate<T>, head: bool) returns (r: Result<bool, KeyError>)
      requires Valid()
      modifies this, store.db
      ensures Valid() && (View(), r) == EndRemoved(old(View()), pred, head)
    {
      ghost var before := View();
      r := Take(pred, if head then headOffset else tailOffset);
      ghost var taken := View();
      assert taken.head == before.head && taken.tail == before.tail;
      if r == Success(true) {
        if head {
          headOffset := WrapLong(headOffset + 1);
        } else {
          tailOffset := WrapLong(tailOffset - 1);
        }
        assert View().items == taken.items;
      }
    }

    /** Gets the entry under an offset and removes it when the predicate accepts it. */
    method Take(pred: Predicate<T>, offset: long) returns (r: Result<bool, KeyError>)
      requires Valid()
      modifies store.db
      ensures Valid()
      ensures r == if offset < 0 then Failure(OffsetOutOfRange) else Success(Takes(old(View()), pred, offset))
      ensures View().items == if r == Success(true) then Remove(old(View()).items, offset) else old(View()).items
    {
      var key := codec.keyOf(offset);
      if key.Failure? {
        return Failure(key.error);
      }
      DecodedIndex(store.Entries(), codec, offset, key.value);
      var value := store.Get(key.value);
      if value.Some? && pred(offset, value.value) {
        DecodedRemove(store.Entries(), codec, offset, key.value);
        store.Remove(key.value);
        return Success(true);
      }
      return Success(false);
    }

    method GetBatch(startingOffset: long, batchSize: int32)
      returns (r: Result<seq<Entry<long, T>>, BatchError>)
      requires Valid()
      ensures r == SequentialQueue.GetBatch(View(), startingOffset, batchSize)
    {
      if batchSize < 1 {
        return Failure(BadBatchSize);
      }
      var start := if startingOffset < headOffset then headOffset else startingOffset;
      if headOffset > tailOffset || tailOffset < start {
        return Success([]);
      }
      var key := codec.keyOf(start);
      if key.Failure? {
        return Failure(BadOffset);
      }
      DecodedIndex(store.Entries(), codec, start, key.value);
      var entries := store.IterateBatchFrom(key.value, batchSize);
      DecodedBatch(store.Entries(), codec, IndexOf(store.Entries(), key.value), batchSize);
      var batch := CollectBatch(entries.value);
      return Success(batch);
    }

    /** The callback: it adds each entry it is given, under its offset. */
    method CollectBatch(entries: seq<Entry<Key, T>>) returns (batch: seq<Entry<long, T>>)
      requires KeysAreOffsets(entries, codec)
      ensures batch == Decoded(entries, codec)
    {
      batch := [];
      for i := 0 to |entries|
        invariant batch == Decoded(entries, codec)[..i]
      {
        assert IsOffsetKey(entries[i].key, codec);
        batch := batch + [Entry(codec.offsetOf(entries[i].key).value, entries[i].value)];
      }
    }
  }
}
