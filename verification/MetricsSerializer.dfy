/**
 * The byte format for metrics: metrics are grouped by a hash of their name and
 * tags, and each group is written as name, tags, count and raw values.
 */
module MetricsSerializer {
  import opened Wrappers
  import opened Bytes
  import opened StoreUtils
  import Memory = InMemoryDbStore

  const INT_SIZE: nat := 4
  const ENCODED_SIZE: nat := 16  // time and value of one raw value
  const MAX_TICKS: long := 3155378975999999999

  /** The value is the 64-bit pattern of a double. */
  datatype RawValue = RawValue(ticks: long, value: long)

  datatype Metric<G> = Metric(raw: RawValue, name: string, tags: G)

  type int32 = Memory.int32

  /** The conversions between integers and bytes of one host. */
  datatype Host = Host(
    intBytes: int32 -> seq<byte>,
    readInt: seq<byte> -> int32,
    longBytes: long -> seq<byte>,
    readLong: seq<byte> -> long)

  /** Reading gives back what was written, in four and in eight bytes. */
  ghost predicate Lawful(h: Host) {
    && (forall n: int32 :: |h.intBytes(n)| == INT_SIZE && h.readInt(h.intBytes(n)) == n)
    && (forall n: long :: |h.longBytes(n)| == LONG_SIZE && h.readLong(h.longBytes(n)) == n)
  }

  function IntBytes(n: int32, littleEndian: bool): (s: seq<byte>)
    ensures |s| == INT_SIZE
  {
    IntSize();
    HostBytes(n, INT_SIZE, littleEndian)
  }

  function LongBytes(n: long, littleEndian: bool): (s: seq<byte>)
    ensures |s| == LONG_SIZE
  {
    LongSize();
    HostBytes(n, LONG_SIZE, littleEndian)
  }

  function ReadInt32(s: seq<byte>, littleEndian: bool): int32 {
    IntSize();
    if |s| == INT_SIZE then FromHostIsSigned(s, littleEndian); FromHostBytes(s, littleEndian) else 0
  }

  function ReadInt64(s: seq<byte>, littleEndian: bool): long {
    LongSize();
    if |s| == LONG_SIZE then FromHostIsSigned(s, littleEndian); FromHostBytes(s, littleEndian) else 0
  }

  function HostOf(littleEndian: bool): Host {
    Host(n => IntBytes(n, littleEndian), s => ReadInt32(s, littleEndian),
         n => LongBytes(n, littleEndian), s => ReadInt64(s, littleEndian))
  }

  lemma IntSize()
    ensures Pow256(INT_SIZE) == Memory.INT_MAX - Memory.INT_MIN + 1
  {
    assert Pow256(2) == 0x1_0000;
  }

  lemma FromHostIsSigned(s: seq<byte>, littleEndian: bool)
    ensures 0 <= 2 * FromHostBytes(s, littleEndian) + Pow256(|s|) < 2 * Pow256(|s|)
  {
    BigEndianOfFromBigEndian(s);
    BigEndianOfFromBigEndian(Reverse(s));
    ReverseTwice(s);
    BigEndianValueReversesLittle(Reverse(s));
  }

  lemma HostOfIsLawful(littleEndian: bool)
    ensures Lawful(HostOf(littleEndian))
  {
    forall n: int32
      ensures ReadInt32(IntBytes(n, littleEndian), littleEndian) == n
    {
      IntSize();
      HostRoundTrip(n, INT_SIZE, littleEndian);
    }
    forall n: long
      ensures ReadInt64(LongBytes(n, littleEndian), littleEndian) == n
    {
      LongSize();
      HostRoundTrip(n, LONG_SIZE, littleEndian);
    }
  }

  /** Everything the format leaves to the platform: byte order, text encoding, tag text and group hash. */
  datatype Format<!G> = Format(
    host: Host,
    encode: string -> seq<byte>,
    decode: seq<byte> -> string,
    writeTags: G -> string,
    readTags: string -> TagsReading<G>,
    hash: (string, G) -> int)

  /** A tags text can be no tags at all, well-formed but no tags, or malformed. */
  datatype TagsReading<G> = Tags(tags: G) | Null | WrongShape | Malformed {
    predicate Accepted() {
      Tags? || Null?
    }
  }

  /** The reader's own error, and the exceptions that pass through it. */
  datatype Error = InvalidData | BadTicks | BadJson | NullTags

  // -------------------------------------------------------------------- write

  /** A count as four bytes; counts that do not fit do not occur. */
  function CountBytes<G>(f: Format<G>, n: nat): seq<byte> {
    f.host.intBytes(if n <= Memory.INT_MAX then n else 0)
  }

  function RawBytes<G>(f: Format<G>, v: RawValue): seq<byte> {
    f.host.longBytes(v.ticks) + f.host.longBytes(v.value)
  }

  function RawValuesToBytes<G>(f: Format<G>, group: seq<Metric<G>>): seq<byte>
    decreases |group|
  {
    if group == [] then [] else RawBytes(f, group[0].raw) + RawValuesToBytes(f, group[1..])
  }

  /** A text with its length; the length counts characters, although the text is written in bytes. */
  function TextBytes<G>(f: Format<G>, s: string): seq<byte> {
    CountBytes(f, |s|) + f.encode(s)
  }

  function ValuesBytes<G>(f: Format<G>, group: seq<Metric<G>>): seq<byte> {
    CountBytes(f, |group|) + RawValuesToBytes(f, group)
  }

  function GroupToBytes<G>(f: Format<G>, name: string, tags: string, group: seq<Metric<G>>): seq<byte> {
    TextBytes(f, name) + (TextBytes(f, tags) + ValuesBytes(f, group))
  }

  function Key<G>(f: Format<G>, m: Metric<G>): int {
    f.hash(m.name, m.tags)
  }

  function WithKey<G>(f: Format<G>, ms: seq<Metric<G>>, k: int): (r: seq<Metric<G>>)
    ensures |r| <= |ms|
    decreases |ms|
  {
    if ms == [] then []
    else if Key(f, ms[0]) == k then [ms[0]] + WithKey(f, ms[1..], k)
    else WithKey(f, ms[1..], k)
  }

  function WithoutKey<G>(f: Format<G>, ms: seq<Metric<G>>, k: int): (r: seq<Metric<G>>)
    ensures |r| <= |ms|
    decreases |ms|
  {
    if ms == [] then []
    else if Key(f, ms[0]) == k then WithoutKey(f, ms[1..], k)
    else [ms[0]] + WithoutKey(f, ms[1..], k)
  }

  /** Groups come in the order of their first metric, and carry its name and tags. */
  function MetricsToBytes<G>(f: Format<G>, ms: seq<Metric<G>>): seq<byte>
    decreases |ms|
  {
    if ms == [] then []
    else
      var k := Key(f, ms[0]);
      GroupToBytes(f, ms[0].name, f.writeTags(ms[0].tags), WithKey(f, ms, k))
        + MetricsToBytes(f, WithoutKey(f, ms[1..], k))
  }

  // --------------------------------------------------------------------- read

  function ReadInt<G>(f: Format<G>, bytes: seq<byte>, index: int): Option<int> {
    if index < 0 || index + INT_SIZE > |bytes| then None
    else Some(f.host.readInt(bytes[index..index + INT_SIZE]))
  }

  function ReadText<G>(f: Format<G>, bytes: seq<byte>, index: int, length: int): Option<string> {
    if index < 0 || length < 0 || index + length > |bytes| then None
    else Some(f.decode(bytes[index..index + length]))
  }

  /** A text behind its length, and the index behind it. */
  function ReadSized<G>(f: Format<G>, bytes: seq<byte>, index: int): Option<(string, int)> {
    var length := ReadInt(f, bytes, index);
    if length.None? then None else
    var text := ReadText(f, bytes, index + INT_SIZE, length.value);
    if text.None? then None else Some((text.value, index + INT_SIZE + length.value))
  }

  /** What precedes the raw values of a group, where they start, and where the next group starts. */
  datatype Header<G> = Header(name: string, tags: Option<G>, count: int, start: int, next: int)

  /** A malformed tags text is reported before the count is read, and not as invalid data. */
  function ReadHeader<G>(f: Format<G>, bytes: seq<byte>, index: int): Result<Header<G>, Error> {
    var name := ReadSized(f, bytes, index);
    if name.None? then Failure(InvalidData) else
    var rawTags := ReadSized(f, bytes, name.value.1);
    if rawTags.None? then Failure(InvalidData) else
    var tags := f.readTags(rawTags.value.0);
    if tags.Malformed? then Failure(BadJson) else
    var count := ReadInt(f, bytes, rawTags.value.1);
    if tags.WrongShape? || count.None? then Failure(InvalidData) else
    var start := rawTags.value.1 + INT_SIZE;
    var size := count.value * ENCODED_SIZE;
    if !IsInt(start) || !IsInt(size) || !IsInt(start + size) then Failure(InvalidData) else
    Success(Header(name.value.0, if tags.Tags? then Some(tags.tags) else None, count.value, start, start + size))
  }

  predicate IsInt(x: int) {
    Memory.INT_MIN <= x <= Memory.INT_MAX
  }

  function ReadLong<G>(f: Format<G>, bytes: seq<byte>, index: int): Option<long> {
    if index < 0 || index + LONG_SIZE > |bytes| then None
    else Some(f.host.readLong(bytes[index..index + LONG_SIZE]))
  }

  datatype RawReading = RawReading(values: seq<RawValue>, error: Option<Error>)

  /** The raw values that can be read up to `stop`, and the error that ended the reading early, if any. */
  function RawValuesAt<G>(f: Format<G>, bytes: seq<byte>, start: int, stop: int): RawReading
    decreases stop - start
  {
    if start >= stop then RawReading([], None)
    else
      var ticks, value := ReadLong(f, bytes, start), ReadLong(f, bytes, start + LONG_SIZE);
      if ticks.None? || value.None? then RawReading([], Some(InvalidData))
      else if !(0 <= ticks.value <= MAX_TICKS) then RawReading([], Some(BadTicks))
      else
        RawPrefixed([RawValue(ticks.value, value.value)], RawValuesAt(f, bytes, start + ENCODED_SIZE, stop))
  }

  function Labelled<G>(name: string, tags: G, raws: seq<RawValue>): (r: seq<Metric<G>>)
    ensures |r| == |raws| && forall i :: 0 <= i < |raws| ==> r[i] == Metric(raws[i], name, tags)
  {
    seq(|raws|, i requires 0 <= i < |raws| => Metric(raws[i], name, tags))
  }

  /** The metrics read before the end or the first error, and how far the reader got. */
  datatype Reading<G> = Reading(metrics: seq<Metric<G>>, error: Option<Error>, index: int)

  /** One round of the reader: it ends the reading, or yields metrics and goes on at an index, maybe an earlier one. */
  datatype Round<G> = Ends(reading: Reading<G>) | GoesOn(metrics: seq<Metric<G>>, next: int)

  /** What the reader does at each index of its bytes. */
  datatype Reader<!G> = Reader(size: nat, header: int -> Result<Header<G>, Error>, raws: (int, int) -> RawReading)

  function ReaderOf<G>(f: Format<G>, bytes: seq<byte>): Reader<G> {
    Reader(|bytes|, i => ReadHeader(f, bytes, i), (start, stop) => RawValuesAt(f, bytes, start, stop))
  }

  ghost predicate Reads<G>(reader: Reader<G>, f: Format<G>, bytes: seq<byte>) {
    && reader.size == |bytes|
    && (forall i {:trigger ReadHeader(f, bytes, i)} :: reader.header(i) == ReadHeader(f, bytes, i))
    && (forall start, stop {:trigger RawValuesAt(f, bytes, start, stop)} ::
          reader.raws(start, stop) == RawValuesAt(f, bytes, start, stop))
  }

  /** Without tags there is no metric to make from the first raw value. */
  function RoundOf<G>(h: Header<G>, raws: RawReading): Round<G> {
    if h.tags.None? && raws.values != [] then Ends(Reading([], Some(NullTags), h.next)) else
    var metrics := if h.tags.None? then [] else Labelled(h.name, h.tags.value, raws.values);
    if raws.error.Some? then Ends(Reading(metrics, raws.error, h.next)) else GoesOn(metrics, h.next)
  }

  function RoundAt<G>(reader: Reader<G>, index: int): Round<G> {
    if index >= reader.size then Ends(Reading([], None, index)) else
    var h := reader.header(index);
    if h.Failure? then Ends(Reading([], Some(h.error), index))
    else RoundOf(h.value, reader.raws(h.value.start, h.value.next))
  }

  /** The reader, started at `index`, is still running after `n` rounds. */
  predicate RunsFor<G>(reader: Reader<G>, index: int, n: nat)
    decreases n
  {
    n == 0 ||
      match RoundAt(reader, index)
      case Ends(_) => false
      case GoesOn(_, next) => RunsFor(reader, next, n - 1)
  }

  /** What a reader yields that stops within `n` rounds. */
  function ReadFrom<G>(reader: Reader<G>, index: int, n: nat): Reading<G>
    requires !RunsFor(reader, index, n)
    decreases n
  {
    match RoundAt(reader, index)
    case Ends(reading) => reading
    case GoesOn(metrics, next) => Prefixed(metrics, ReadFrom(reader, next, n - 1))
  }

  function Prefixed<G>(before: seq<Metric<G>>, r: Reading<G>): Reading<G> {
    r.(metrics := before + r.metrics)
  }

  /** What is read from `index` on, after one more round. */
  lemma ReadOneMore<G>(reader: Reader<G>, index: int, n: nat, metrics: seq<Metric<G>>, next: int)
    requires n > 0 && RoundAt(reader, index) == GoesOn(metrics, next)
    ensures RunsFor(reader, index, n) <==> RunsFor(reader, next, n - 1)
    ensures !RunsFor(reader, index, n) ==>
              ReadFrom(reader, index, n) == Prefixed(metrics, ReadFrom(reader, next, n - 1))
  {
  }

  lemma PrefixedTwice<G>(a: seq<Metric<G>>, b: seq<Metric<G>>, r: Reading<G>)
    ensures Prefixed(a, Prefixed(b, r)) == Prefixed(a + b, r)
    ensures Prefixed([], r) == r
  {
    assert a + (b + r.metrics) == a + b + r.metrics;
    assert [] + r.metrics == r.metrics;
  }

  lemma ReadsOn<G>(
    reader: Reader<G>, index: int, n: nat, metrics: seq<Metric<G>>, yielded: seq<Metric<G>>, next: int)
    requires !RunsFor(reader, index, n) && RoundAt(reader, index) == GoesOn(yielded, next)
    ensures n > 0 && !RunsFor(reader, next, n - 1)
    ensures Prefixed(metrics, ReadFrom(reader, index, n)) ==
            Prefixed(metrics + yielded, ReadFrom(reader, next, n - 1))
  {
    ReadOneMore(reader, index, n, yielded, next);
    PrefixedTwice(metrics, yielded, ReadFrom(reader, next, n - 1));
  }

  function RawPrefixed(before: seq<RawValue>, r: RawReading): RawReading {
    r.(values := before + r.values)
  }

  lemma RawPrefixedTwice(a: seq<RawValue>, b: seq<RawValue>, r: RawReading)
    ensures RawPrefixed(a, RawPrefixed(b, r)) == RawPrefixed(a + b, r)
    ensures RawPrefixed([], r) == r
  {
    assert a + (b + r.values) == a + b + r.values;
    assert [] + r.values == r.values;
  }

  /** The stop index is computed in 32 bits. */
  method BytesToRawValues<G>(f: Format<G>, bytes: seq<byte>, startIndex: int32, length: int32)
    returns (raws: seq<RawValue>, error: Option<Error>)
    ensures var stop := Memory.WrapInt(startIndex + length * ENCODED_SIZE);
            RawReading(raws, error) == RawValuesAt(f, bytes, startIndex, stop)
  {
    raws := [];
    var index, stop := startIndex as int, Memory.WrapInt(startIndex + length * ENCODED_SIZE);
    RawPrefixedTwice([], [], RawValuesAt(f, bytes, index, stop));
    while index < stop
      invariant RawValuesAt(f, bytes, startIndex, stop) == RawPrefixed(raws, RawValuesAt(f, bytes, index, stop))
    {
      var ticks := ReadLong(f, bytes, index);
      index := index + LONG_SIZE;
      var value := ReadLong(f, bytes, index);
      index := index + LONG_SIZE;
      if ticks.None? || value.None? {
        return raws, Some(InvalidData);
      }
      if !(0 <= ticks.value <= MAX_TICKS) {
        return raws, Some(BadTicks);
      }
      RawPrefixedTwice(raws, [RawValue(ticks.value, value.value)], RawValuesAt(f, bytes, index, stop));
      raws := raws + [RawValue(ticks.value, value.value)];
    }
    error := None;
  }

  /** The reader stops on these bytes: see `RunsForeverIff`. */
  predicate Stops<G>(f: Format<G>, bytes: seq<byte>) {
    !RunsFor(ReaderOf(f, bytes), 0, |bytes| + 1)
  }

  /** What the reader yields on these bytes. */
  function ReadAll<G>(f: Format<G>, bytes: seq<byte>): Reading<G>
    requires Stops(f, bytes)
  {
    ReadFrom(ReaderOf(f, bytes), 0, |bytes| + 1)
  }

  method BytesToMetrics<G>(f: Format<G>, bytes: seq<byte>) returns (r: Reading<G>)
    requires Stops(f, bytes)
    ensures r == ReadAll(f, bytes)
  {
    r := ReadGroups(f, bytes, ReaderOf(f, bytes));
  }

  method ReadGroups<G>(f: Format<G>, bytes: seq<byte>, ghost reader: Reader<G>) returns (r: Reading<G>)
    requires Reads(reader, f, bytes) && !RunsFor(reader, 0, |bytes| + 1)
    ensures r == ReadFrom(reader, 0, |bytes| + 1)
  {
    var metrics: seq<Metric<G>> := [];
    var index := 0;
    ghost var rounds := |bytes| + 1;
    PrefixedTwice([], [], ReadFrom(reader, 0, rounds));
    while index < |bytes|
      invariant 0 <= rounds && !RunsFor(reader, index, rounds)
      invariant ReadFrom(reader, 0, |bytes| + 1) == Prefixed(metrics, ReadFrom(reader, index, rounds))
      decreases rounds
    {
      var read := ReadRound(f, bytes, index, reader);
      match read
      case Ends(reading) =>
        return Prefixed(metrics, reading);
      case GoesOn(yielded, next) =>
        ReadsOn(reader, index, rounds, metrics, yielded, next);
        metrics := metrics + yielded;
        index := next;
        rounds := rounds - 1;
    }
    r := Reading(metrics, None, index);
  }

  /** The body of the reader's loop: one header, then its raw values. */
  method ReadRound<G>(f: Format<G>, bytes: seq<byte>, index: int, ghost reader: Reader<G>) returns (r: Round<G>)
    requires Reads(reader, f, bytes) && index < |bytes|
    ensures r == RoundAt(reader, index)
  {
    var h := ReadHeader(f, bytes, index);
    if h.Failure? {
      return Ends(Reading([], Some(h.error), index));
    }
    HeaderFits(f, bytes, index);
    var raws, error := BytesToRawValues(f, bytes, h.value.start, h.value.count);
    var yielded: seq<Metric<G>> := [];
    if h.value.tags.Some? {
      yielded := Labelled(h.value.name, h.value.tags.value, raws);
    } else if raws != [] {
      return Ends(Reading([], Some(NullTags), h.value.next));
    }
    if error.Some? {
      return Ends(Reading(yielded, error, h.value.next));
    }
    return GoesOn(yielded, h.value.next);
  }

  /** The indices and the count of a header are 32-bit integers, and the index after the values is not wrapped. */
  lemma HeaderFits<G>(f: Format<G>, bytes: seq<byte>, index: int)
    ensures var h := ReadHeader(f, bytes, index);
            h.Success? ==> && IsInt(h.value.start) && IsInt(h.value.count)
                           && h.value.next == Memory.WrapInt(h.value.start + h.value.count * ENCODED_SIZE)
                           && 0 <= index < |bytes|
  {
  }

  // ------------------------------------------------- exactly when the reader stops

  ghost predicate RunsForever<G>(reader: Reader<G>) {
    forall n :: RunsFor(reader, 0, n)
  }

  /** Where the reader is after `n` rounds. */
  function IndexAfter<G>(reader: Reader<G>, index: int, n: nat): int
    requires RunsFor(reader, index, n)
    decreases n
  {
    if n == 0 then index else IndexAfter(reader, RoundAt(reader, index).next, n - 1)
  }

  lemma {:induction false} RunsForSum<G>(reader: Reader<G>, index: int, a: nat, b: nat)
    requires RunsFor(reader, index, a)
    ensures RunsFor(reader, index, a + b) <==> RunsFor(reader, IndexAfter(reader, index, a), b)
    ensures RunsFor(reader, index, a + b) ==>
              IndexAfter(reader, index, a + b) == IndexAfter(reader, IndexAfter(reader, index, a), b)
    decreases a
  {
    if a > 0 {
      RunsForSum(reader, RoundAt(reader, index).next, a - 1, b);
    }
  }

  lemma {:induction false} RunsForFewer<G>(reader: Reader<G>, index: int, a: nat, b: nat)
    requires a <= b && RunsFor(reader, index, b)
    ensures RunsFor(reader, index, a)
    decreases a
  {
    if a > 0 {
      RunsForFewer(reader, RoundAt(reader, index).next, a - 1, b - 1);
    }
  }

  /** The reader goes on only from an index below `size`. */
  ghost predicate StaysBelow<G>(reader: Reader<G>, size: nat) {
    forall i :: RoundAt(reader, i).GoesOn? ==> 0 <= i < size
  }

  lemma StandsOnByte<G>(reader: Reader<G>, size: nat, n: nat)
    requires StaysBelow(reader, size) && RunsFor(reader, 0, n + 1)
    ensures RunsFor(reader, 0, n) && 0 <= IndexAfter(reader, 0, n) < size
  {
    RunsForFewer(reader, 0, n, n + 1);
    RunsForSum(reader, 0, n, 1);
  }

  /** A reader that comes back to an index never stops. */
  lemma {:induction false} ReturnsForever<G>(reader: Reader<G>, a: nat, b: nat, n: nat)
    requires a < b && RunsFor(reader, 0, a) && RunsFor(reader, 0, b)
    requires IndexAfter(reader, 0, a) == IndexAfter(reader, 0, b)
    ensures RunsFor(reader, 0, n)
    decreases n
  {
    if n <= b {
      RunsForFewer(reader, 0, n, b);
    } else {
      ReturnsForever(reader, a, b, n - (b - a));
      RunsForSum(reader, 0, a, n - b);
      RunsForSum(reader, 0, b, n - b);
    }
  }

  lemma {:induction false} DistinctFit(numbers: seq<int>, values: nat)
    requires forall k :: 0 <= k < |numbers| ==> 0 <= numbers[k] < values
    requires forall k, l :: 0 <= k < l < |numbers| ==> numbers[k] != numbers[l]
    ensures |numbers| <= values
    decreases values
  {
    if numbers != [] {
      assert 0 <= numbers[0] < values;
      var rest := Without(numbers, values - 1);
      DistinctFit(rest, values - 1);
    }
  }

  /** Among more numbers than values, two are equal. */
  lemma Pigeonhole(numbers: seq<int>, values: nat)
    requires |numbers| > values && forall k :: 0 <= k < |numbers| ==> 0 <= numbers[k] < values
    ensures exists i, j :: 0 <= i < j < |numbers| && numbers[i] == numbers[j]
  {
    if forall k, l :: 0 <= k < l < |numbers| ==> numbers[k] != numbers[l] {
      DistinctFit(numbers, values);
    }
  }

  /** The numbers but one that equals `value`, if there is one; all others are different from it. */
  lemma Without(numbers: seq<int>, value: int) returns (rest: seq<int>)
    requires forall k, l :: 0 <= k < l < |numbers| ==> numbers[k] != numbers[l]
    ensures |rest| >= |numbers| - 1 && (forall k :: 0 <= k < |rest| ==> rest[k] in numbers && rest[k] != value)
    ensures forall k, l :: 0 <= k < l < |rest| ==> rest[k] != rest[l]
  {
    if k :| 0 <= k < |numbers| && numbers[k] == value {
      rest := numbers[..k] + numbers[k + 1..];
    } else {
      rest := numbers;
    }
  }

  lemma RepeatsForever<G>(reader: Reader<G>, size: nat)
    requires StaysBelow(reader, size) && RunsFor(reader, 0, size + 1)
    ensures RunsForever(reader)
  {
    var count := size + 1;
    forall n | 0 <= n < count
      ensures RunsFor(reader, 0, n) && 0 <= IndexAfter(reader, 0, n) < size
    {
      RunsForFewer(reader, 0, n + 1, count);
      StandsOnByte(reader, size, n);
    }
    var indices := seq(count, n requires 0 <= n < count => IndexAfter(reader, 0, n));
    Pigeonhole(indices, size);
    var a, b :| 0 <= a < b < count && indices[a] == indices[b];
    forall n: nat
      ensures RunsFor(reader, 0, n)
    {
      ReturnsForever(reader, a, b, n);
    }
  }

  /**
   * The reader runs for ever exactly when it is still running after one round
   * more than there are bytes: then it has come back to a byte.
   */
  lemma RunsForeverIff<G>(f: Format<G>, bytes: seq<byte>)
    ensures RunsForever(ReaderOf(f, bytes)) <==> !Stops(f, bytes)
  {
    var reader := ReaderOf(f, bytes);
    forall i | RoundAt(reader, i).GoesOn?
      ensures 0 <= i < |bytes|
    {
      HeaderFits(f, bytes, i);
    }
    if RunsFor(reader, 0, |bytes| + 1) {
      RepeatsForever(reader, |bytes|);
    }
  }

  // --------------------------------------------------------------- round trip

  ghost predicate At(bytes: seq<byte>, i: int, s: seq<byte>) {
    0 <= i && i + |s| <= |bytes| && bytes[i..i + |s|] == s
  }

  lemma AtSplit(bytes: seq<byte>, i: int, a: seq<byte>, b: seq<byte>)
    requires At(bytes, i, a + b)
    ensures At(bytes, i, a) && At(bytes, i + |a|, b)
  {
    assert bytes[i..i + |a|] == (a + b)[..|a|] == a;
    assert bytes[i + |a|..i + |a| + |b|] == (a + b)[|a|..] == b;
  }

  lemma ThreeParts(bytes: seq<byte>, i: int, j: int, k: int, a: seq<byte>, b: seq<byte>, c: seq<byte>)
    requires At(bytes, i, a + (b + c)) && j == i + |a| && k == j + |b|
    ensures At(bytes, i, a) && At(bytes, j, b) && At(bytes, k, c)
  {
    AtSplit(bytes, i, a, b + c);
    AtSplit(bytes, j, b, c);
  }

  /** The text takes one byte per character and is read back unchanged, as ASCII text is. */
  ghost predicate Plain<G>(f: Format<G>, s: string) {
    |f.encode(s)| == |s| && f.decode(f.encode(s)) == s
  }

  ghost predicate Writable<G>(f: Format<G>, m: Metric<G>) {
    && Plain(f, m.name) && Plain(f, f.writeTags(m.tags))
    && f.readTags(f.writeTags(m.tags)) == Tags(m.tags)
    && 0 <= m.raw.ticks <= MAX_TICKS
  }

  function Raws<G>(group: seq<Metric<G>>): (r: seq<RawValue>)
    ensures |r| == |group| && forall i :: 0 <= i < |group| ==> r[i] == group[i].raw
  {
    seq(|group|, i requires 0 <= i < |group| => group[i].raw)
  }

  /** What reading back gives: group after group, each under the name and tags of its first metric. */
  function Regrouped<G>(f: Format<G>, ms: seq<Metric<G>>): seq<Metric<G>>
    decreases |ms|
  {
    if ms == [] then []
    else
      var k := Key(f, ms[0]);
      Labelled(ms[0].name, ms[0].tags, Raws(WithKey(f, ms, k))) + Regrouped(f, WithoutKey(f, ms[1..], k))
  }

  lemma {:induction false} RawBytesLength<G>(f: Format<G>, group: seq<Metric<G>>)
    requires Lawful(f.host)
    ensures |RawValuesToBytes(f, group)| == |group| * ENCODED_SIZE
    decreases |group|
  {
    if group != [] {
      RawBytesLength(f, group[1..]);
    }
  }

  lemma ReadRawValue<G>(f: Format<G>, bytes: seq<byte>, i: nat, v: RawValue)
    requires Lawful(f.host) && At(bytes, i, RawBytes(f, v))
    ensures ReadLong(f, bytes, i) == Some(v.ticks) && ReadLong(f, bytes, i + LONG_SIZE) == Some(v.value)
    ensures |RawBytes(f, v)| == ENCODED_SIZE
  {
    AtSplit(bytes, i, f.host.longBytes(v.ticks), f.host.longBytes(v.value));
  }

  lemma {:induction false} ReadRawValues<G>(f: Format<G>, bytes: seq<byte>, i: nat, stop: nat, group: seq<Metric<G>>)
    requires stop == i + |group| * ENCODED_SIZE
    requires Lawful(f.host) && At(bytes, i, RawValuesToBytes(f, group))
    requires forall m :: m in group ==> 0 <= m.raw.ticks <= MAX_TICKS
    ensures RawValuesAt(f, bytes, i, stop) == RawReading(Raws(group), None)
    decreases |group|
  {
    if group != [] {
      AtSplit(bytes, i, RawBytes(f, group[0].raw), RawValuesToBytes(f, group[1..]));
      ReadRawValue(f, bytes, i, group[0].raw);
      ReadRawValues(f, bytes, i + ENCODED_SIZE, stop, group[1..]);
      assert Raws(group) == [group[0].raw] + Raws(group[1..]);
    }
  }

  lemma CountLength<G>(f: Format<G>, n: nat)
    requires Lawful(f.host)
    ensures |CountBytes(f, n)| == INT_SIZE
  {
  }

  /** A plain text, and its length, are read back. */
  lemma ReadTextBytes<G>(f: Format<G>, bytes: seq<byte>, i: int, s: string)
    requires Lawful(f.host) && Plain(f, s) && |s| <= Memory.INT_MAX && At(bytes, i, TextBytes(f, s))
    ensures ReadSized(f, bytes, i) == Some((s, i + INT_SIZE + |s|))
  {
    CountLength(f, |s|);
    AtSplit(bytes, i, CountBytes(f, |s|), f.encode(s));
  }

  lemma ReadValuesBytes<G>(f: Format<G>, bytes: seq<byte>, i: int, group: seq<Metric<G>>)
    requires Lawful(f.host) && |group| <= Memory.INT_MAX && At(bytes, i, ValuesBytes(f, group))
    ensures ReadInt(f, bytes, i) == Some(|group|) && At(bytes, i + INT_SIZE, RawValuesToBytes(f, group))
  {
    CountLength(f, |group|);
    AtSplit(bytes, i, CountBytes(f, |group|), RawValuesToBytes(f, group));
  }

  lemma PartLengths<G>(f: Format<G>, name: string, group: seq<Metric<G>>)
    requires Lawful(f.host) && Plain(f, name)
    ensures |TextBytes(f, name)| == INT_SIZE + |name|
    ensures |ValuesBytes(f, group)| == INT_SIZE + |group| * ENCODED_SIZE
  {
    CountLength(f, |name|);
    CountLength(f, |group|);
    RawBytesLength(f, group);
  }

  /** The header of a group that was written at `i` with plain texts. */
  function GroupHeader<G>(f: Format<G>, i: int, name: string, tags: G, group: seq<Metric<G>>): Header<G> {
    var start := i + 3 * INT_SIZE + |name| + |f.writeTags(tags)|;
    Header(name, Some(tags), |group|, start, start + |group| * ENCODED_SIZE)
  }

  lemma ReadGroupHeader<G>(f: Format<G>, bytes: seq<byte>, i: nat, name: string, tags: G, group: seq<Metric<G>>)
    requires Lawful(f.host) && |bytes| <= Memory.INT_MAX
    requires Plain(f, name) && Plain(f, f.writeTags(tags)) && f.readTags(f.writeTags(tags)) == Tags(tags)
    requires At(bytes, i, GroupToBytes(f, name, f.writeTags(tags), group))
    ensures var start := i + 3 * INT_SIZE + |name| + |f.writeTags(tags)|;
            var end := start + |group| * ENCODED_SIZE;
            && end == i + |GroupToBytes(f, name, f.writeTags(tags), group)| <= |bytes|
            && ReadHeader(f, bytes, i) == Success(GroupHeader(f, i, name, tags, group))
            && At(bytes, start, RawValuesToBytes(f, group))
  {
    var text := f.writeTags(tags);
    PartLengths(f, name, group);
    PartLengths(f, text, group);
    var i1 := i + INT_SIZE + |name|;
    var i2 := i1 + INT_SIZE + |text|;
    ThreeParts(bytes, i, i1, i2, TextBytes(f, name), TextBytes(f, text), ValuesBytes(f, group));
    ReadTextBytes(f, bytes, i, name);
    ReadTextBytes(f, bytes, i1, text);
    ReadValuesBytes(f, bytes, i2, group);
  }

  lemma {:induction false} SplitKeepsMetric<G>(f: Format<G>, ms: seq<Metric<G>>, k: int, m: Metric<G>)
    ensures m in WithKey(f, ms, k) <==> m in ms && Key(f, m) == k
    ensures m in WithoutKey(f, ms, k) <==> m in ms && Key(f, m) != k
    decreases |ms|
  {
    if ms != [] {
      SplitKeepsMetric(f, ms[1..], k, m);
      assert m in ms <==> m == ms[0] || m in ms[1..];
    }
  }

  /** The first group lies at `i`, and the others follow it at `next`. */
  lemma FirstGroup<G>(f: Format<G>, bytes: seq<byte>, i: nat, ms: seq<Metric<G>>) returns (next: nat)
    requires ms != [] && i <= |bytes| && bytes[i..] == MetricsToBytes(f, ms)
    requires forall m :: m in ms ==> Writable(f, m)
    ensures var first, k := ms[0], Key(f, ms[0]);
            var group, others := WithKey(f, ms, k), WithoutKey(f, ms[1..], k);
            && At(bytes, i, GroupToBytes(f, first.name, f.writeTags(first.tags), group))
            && next == i + |GroupToBytes(f, first.name, f.writeTags(first.tags), group)|
            && next <= |bytes| && bytes[next..] == MetricsToBytes(f, others)
            && (forall m :: m in group ==> Writable(f, m))
            && (forall m :: m in others ==> Writable(f, m))
  {
    var first, k := ms[0], Key(f, ms[0]);
    var group, others := WithKey(f, ms, k), WithoutKey(f, ms[1..], k);
    var written := GroupToBytes(f, first.name, f.writeTags(first.tags), group);
    forall m | m in group || m in others
      ensures Writable(f, m)
    {
      SplitKeepsMetric(f, ms, k, m);
      SplitKeepsMetric(f, ms[1..], k, m);
    }
    FollowedBy(bytes, i, written, MetricsToBytes(f, others));
    next := i + |written|;
  }

  lemma FollowedBy(bytes: seq<byte>, i: nat, a: seq<byte>, b: seq<byte>)
    requires i <= |bytes| && bytes[i..] == a + b
    ensures At(bytes, i, a) && i + |a| <= |bytes| && bytes[i + |a|..] == b
  {
    assert bytes[i..i + |a|] == (a + b)[..|a|];
    assert bytes[i + |a|..] == (a + b)[|a|..];
  }

  // ------------------------------------------------------------ bytes that are cut short

  function MetricsOf<G>(r: Round<G>): seq<Metric<G>> {
    match r
    case Ends(reading) => reading.metrics
    case GoesOn(metrics, _) => metrics
  }

  lemma CutReads<G>(f: Format<G>, bytes: seq<byte>, n: nat, i: int, length: int)
    requires n <= |bytes|
    ensures ReadInt(f, bytes[..n], i) == if i + INT_SIZE <= n then ReadInt(f, bytes, i) else None
    ensures ReadLong(f, bytes[..n], i) == if i + LONG_SIZE <= n then ReadLong(f, bytes, i) else None
    ensures ReadText(f, bytes[..n], i, length) == if i + length <= n then ReadText(f, bytes, i, length) else None
  {
    assert 0 <= i && i + INT_SIZE <= n ==> bytes[..n][i..i + INT_SIZE] == bytes[i..i + INT_SIZE];
    assert 0 <= i && i + LONG_SIZE <= n ==> bytes[..n][i..i + LONG_SIZE] == bytes[i..i + LONG_SIZE];
    assert 0 <= i && 0 <= length && i + length <= n ==> bytes[..n][i..i + length] == bytes[i..i + length];
  }

  lemma CutSized<G>(f: Format<G>, bytes: seq<byte>, n: nat, i: int)
    requires n <= |bytes| && ReadSized(f, bytes, i).Some?
    ensures var r := ReadSized(f, bytes, i);
            ReadSized(f, bytes[..n], i) == if r.value.1 <= n then r else None
  {
    CutReads(f, bytes, n, i, 0);
    CutReads(f, bytes, n, i + INT_SIZE, ReadInt(f, bytes, i).value);
  }

  /** The header is read as before when the cut is behind it, and is invalid otherwise. */
  lemma CutHeader<G>(f: Format<G>, bytes: seq<byte>, n: nat, i: int)
    requires n <= |bytes| && ReadHeader(f, bytes, i).Success?
    ensures var h := ReadHeader(f, bytes, i).value;
            ReadHeader(f, bytes[..n], i) == if h.start <= n then Success(h) else Failure(InvalidData)
  {
    var i1 := ReadSized(f, bytes, i).value.1;
    CutSized(f, bytes, n, i);
    CutSized(f, bytes, n, i1);
    CutReads(f, bytes, n, ReadSized(f, bytes, i1).value.1, 0);
  }

  /** The values before the cut are read, and the next one is invalid. */
  lemma {:induction false} CutValues<G>(f: Format<G>, bytes: seq<byte>, n: nat, start: int, stop: int, count: nat)
    requires n <= |bytes| && stop == start + count * ENCODED_SIZE && RawValuesAt(f, bytes, start, stop).error == None
    ensures var r, cut := RawValuesAt(f, bytes, start, stop), RawValuesAt(f, bytes[..n], start, stop);
            if stop <= n || count == 0 then cut == r
            else cut.error == Some(InvalidData) && cut.values <= r.values
    decreases count
  {
    if count > 0 {
      CutReads(f, bytes, n, start, 0);
      CutReads(f, bytes, n, start + LONG_SIZE, 0);
      CutValues(f, bytes, n, start + ENCODED_SIZE, stop, count - 1);
    }
  }

  lemma LabelledPrefix<G>(name: string, tags: G, a: seq<RawValue>, b: seq<RawValue>)
    requires a <= b
    ensures Labelled(name, tags, a) <= Labelled(name, tags, b)
  {
  }

  /** A round behind which the bytes are cut goes as before; one that the cut falls into ends as invalid. */
  lemma CutRound<G>(
    f: Format<G>, bytes: seq<byte>, n: nat, reader: Reader<G>, i: nat, h: Header<G>, tags: G, raws: seq<RawValue>)
    requires i < n <= |bytes| && Reads(reader, f, bytes[..n])
    requires ReadHeader(f, bytes, i) == Success(h) && h.tags == Some(tags) && h.count > 0
    requires h.next == h.start + h.count * ENCODED_SIZE
    requires RawValuesAt(f, bytes, h.start, h.next) == RawReading(raws, None)
    ensures var r := RoundAt(reader, i);
            if h.next <= n then r == GoesOn(Labelled(h.name, tags, raws), h.next)
            else && r.Ends? && r.reading.error == Some(InvalidData)
                 && r.reading.metrics <= Labelled(h.name, tags, raws)
  {
    CutHeader(f, bytes, n, i);
    CutValues(f, bytes, n, h.start, h.next, h.count);
    var cut := RawValuesAt(f, bytes[..n], h.start, h.next);
    if h.start <= n < h.next {
      LabelledPrefix(h.name, tags, cut.values, raws);
    }
  }

  /** One group of the encoding: its length in bytes, and the metrics that it is read as. */
  datatype Group<G> = Group(size: nat, metrics: seq<Metric<G>>)

  function FirstOf<G>(f: Format<G>, ms: seq<Metric<G>>): Group<G>
    requires ms != []
  {
    var first, group := ms[0], WithKey(f, ms, Key(f, ms[0]));
    Group(|GroupToBytes(f, first.name, f.writeTags(first.tags), group)|, Labelled(first.name, first.tags, Raws(group)))
  }

  function GroupsOf<G>(f: Format<G>, ms: seq<Metric<G>>): seq<Group<G>>
    decreases |ms|
  {
    if ms == [] then [] else [FirstOf(f, ms)] + GroupsOf(f, WithoutKey(f, ms[1..], Key(f, ms[0])))
  }

  function AllOf<G>(groups: seq<Group<G>>): seq<Metric<G>> {
    if groups == [] then [] else groups[0].metrics + AllOf(groups[1..])
  }

  lemma {:induction false} AllOfGroups<G>(f: Format<G>, ms: seq<Metric<G>>)
    ensures AllOf(GroupsOf(f, ms)) == Regrouped(f, ms)
    decreases |ms|
  {
    if ms != [] {
      AllOfGroups(f, WithoutKey(f, ms[1..], Key(f, ms[0])));
      assert GroupsOf(f, ms)[1..] == GroupsOf(f, WithoutKey(f, ms[1..], Key(f, ms[0])));
    }
  }

  /** The first `n` bytes are whole groups. */
  ghost predicate IsBoundary<G>(groups: seq<Group<G>>, n: int) {
    n == 0 || (groups != [] && groups[0].size <= n && IsBoundary(groups[1..], n - groups[0].size))
  }

  lemma GroupIsThere<G>(f: Format<G>, bytes: seq<byte>, i: nat, first: Metric<G>, group: seq<Metric<G>>)
    requires Lawful(f.host) && |bytes| <= Memory.INT_MAX && Writable(f, first)
    requires forall m :: m in group ==> 0 <= m.raw.ticks <= MAX_TICKS
    requires At(bytes, i, GroupToBytes(f, first.name, f.writeTags(first.tags), group))
    ensures var h := GroupHeader(f, i, first.name, first.tags, group);
            && ReadHeader(f, bytes, i) == Success(h)
            && h.next == i + |GroupToBytes(f, first.name, f.writeTags(first.tags), group)|
            && RawValuesAt(f, bytes, h.start, h.next) == RawReading(Raws(group), None)
  {
    var h := GroupHeader(f, i, first.name, first.tags, group);
    ReadGroupHeader(f, bytes, i, first.name, first.tags, group);
    ReadRawValues(f, bytes, h.start, h.next, group);
  }

  /** The reader ends within the group: it yields some of its metrics, and the data are invalid. */
  ghost predicate EndsWithin<G>(r: Round<G>, group: Group<G>) {
    r.Ends? && r.reading.error == Some(InvalidData) && r.reading.metrics <= group.metrics
  }

  /** The round at `i` of the cut bytes, when the first group lies there in the whole ones. */
  lemma CutGroup<G>(f: Format<G>, bytes: seq<byte>, n: nat, reader: Reader<G>, i: nat, ms: seq<Metric<G>>)
    returns (group: Group<G>)
    requires Lawful(f.host) && |bytes| <= Memory.INT_MAX && (forall m :: m in ms ==> Writable(f, m)) && ms != []
    requires i < n <= |bytes| && Reads(reader, f, bytes[..n]) && bytes[i..] == MetricsToBytes(f, ms)
    ensures group == FirstOf(f, ms)
    ensures var next, others := i + group.size, WithoutKey(f, ms[1..], Key(f, ms[0]));
            && i < next <= |bytes| && bytes[next..] == MetricsToBytes(f, others)
            && (forall m :: m in others ==> Writable(f, m))
            && if next <= n then RoundAt(reader, i) == GoesOn(group.metrics, next)
               else EndsWithin(RoundAt(reader, i), group)
  {
    var first, own := ms[0], WithKey(f, ms, Key(f, ms[0]));
    var next := FirstGroup(f, bytes, i, ms);
    GroupIsThere(f, bytes, i, first, own);
    CutRound(f, bytes, n, reader, i, GroupHeader(f, i, first.name, first.tags, own), first.tags, Raws(own));
    group := FirstOf(f, ms);
  }

  /** The rounds from `i` on yield the groups before the cut at `n`, and end at it or in the group it falls into. */
  ghost predicate YieldsCut<G>(reader: Reader<G>, i: int, groups: seq<Group<G>>, n: int)
    decreases |groups|
  {
    if i == n || groups == [] then i == n && RoundAt(reader, i) == Ends(Reading([], None, i))
    else
      var next := i + groups[0].size;
      && i < next
      && if next <= n
         then RoundAt(reader, i) == GoesOn(groups[0].metrics, next) && YieldsCut(reader, next, groups[1..], n)
         else EndsWithin(RoundAt(reader, i), groups[0])
  }

  function TotalSize<G>(groups: seq<Group<G>>): nat {
    if groups == [] then 0 else groups[0].size + TotalSize(groups[1..])
  }

  ghost predicate NoneIsEmpty<G>(groups: seq<Group<G>>) {
    forall i :: 0 <= i < |groups| ==> 0 < groups[i].size
  }

  lemma {:induction false} GroupsFillBytes<G>(f: Format<G>, ms: seq<Metric<G>>)
    requires Lawful(f.host)
    ensures TotalSize(GroupsOf(f, ms)) == |MetricsToBytes(f, ms)| && NoneIsEmpty(GroupsOf(f, ms))
    decreases |ms|
  {
    if ms != [] {
      CountLength(f, |ms[0].name|);
      GroupsFillBytes(f, WithoutKey(f, ms[1..], Key(f, ms[0])));
      assert GroupsOf(f, ms)[1..] == GroupsOf(f, WithoutKey(f, ms[1..], Key(f, ms[0])));
    }
  }

  lemma YieldsCutEnd<G>(reader: Reader<G>, n: int, groups: seq<Group<G>>)
    requires n == reader.size
    ensures YieldsCut(reader, n, groups, n)
  {
  }

  lemma YieldsCutGroup<G>(reader: Reader<G>, i: int, group: Group<G>, rest: seq<Group<G>>, n: int)
    requires i < n && 0 < group.size
    requires if i + group.size <= n
             then && RoundAt(reader, i) == GoesOn(group.metrics, i + group.size)
                  && YieldsCut(reader, i + group.size, rest, n)
             else EndsWithin(RoundAt(reader, i), group)
    ensures YieldsCut(reader, i, [group] + rest, n)
  {
    assert ([group] + rest)[1..] == rest;
  }

  lemma {:induction false} ReadCut<G>(
    f: Format<G>, bytes: seq<byte>, n: nat, reader: Reader<G>, i: nat, ms: seq<Metric<G>>)
    requires Lawful(f.host) && |bytes| <= Memory.INT_MAX && forall m :: m in ms ==> Writable(f, m)
    requires i <= n <= |bytes| && Reads(reader, f, bytes[..n]) && bytes[i..] == MetricsToBytes(f, ms)
    ensures YieldsCut(reader, i, GroupsOf(f, ms), n)
    decreases |ms|
  {
    if i == n {
      YieldsCutEnd(reader, n, GroupsOf(f, ms));
    } else {
      var others := WithoutKey(f, ms[1..], Key(f, ms[0]));
      var group := CutGroup(f, bytes, n, reader, i, ms);
      if i + group.size <= n {
        ReadCut(f, bytes, n, reader, i + group.size, others);
      }
      YieldsCutGroup(reader, i, group, GroupsOf(f, others), n);
    }
  }

  lemma {:induction false} YieldsCutIsRead<G>(reader: Reader<G>, i: int, groups: seq<Group<G>>, n: int, rounds: nat)
    requires YieldsCut(reader, i, groups, n) && i <= n && rounds > n - i
    ensures !RunsFor(reader, i, rounds)
    ensures ReadFrom(reader, i, rounds).metrics <= AllOf(groups)
    ensures ReadFrom(reader, i, rounds).error == if IsBoundary(groups, n - i) then None else Some(InvalidData)
    ensures n - i == TotalSize(groups) && NoneIsEmpty(groups) ==>
              ReadFrom(reader, i, rounds) == Reading(AllOf(groups), None, n)
    decreases |groups|
  {
    if i < n {
      var next := i + groups[0].size;
      if next <= n {
        YieldsCutIsRead(reader, next, groups[1..], n, rounds - 1);
        ReadOneMore(reader, i, rounds, groups[0].metrics, next);
      }
    }
  }

  lemma TruncatedWith<G>(
    f: Format<G>, ms: seq<Metric<G>>, bytes: seq<byte>, n: nat, reader: Reader<G>, groups: seq<Group<G>>)
    requires Lawful(f.host) && (forall m :: m in ms ==> Writable(f, m)) && bytes == MetricsToBytes(f, ms)
    requires n <= |bytes| <= Memory.INT_MAX && Reads(reader, f, bytes[..n]) && groups == GroupsOf(f, ms)
    ensures !RunsFor(reader, 0, n + 1)
    ensures var r := ReadFrom(reader, 0, n + 1);
            && r.metrics <= AllOf(groups)
            && r.error == (if IsBoundary(groups, n) then None else Some(InvalidData))
            && (n == |bytes| ==> r == Reading(AllOf(groups), None, n))
  {
    assert bytes[0..] == bytes;
    ReadCut(f, bytes, n, reader, 0, ms);
    GroupsFillBytes(f, ms);
    YieldsCutIsRead(reader, 0, groups, n, n + 1);
  }

  /**
   * Bytes that are cut short anywhere give the first of the metrics, and the
   * error of invalid data exactly when they are not whole groups.
   */
  lemma TruncationIsNoticed<G>(f: Format<G>, ms: seq<Metric<G>>, n: nat)
    requires Lawful(f.host) && (forall m :: m in ms ==> Writable(f, m))
    requires n <= |MetricsToBytes(f, ms)| <= Memory.INT_MAX
    ensures var bytes := MetricsToBytes(f, ms)[..n];
            && Stops(f, bytes)
            && ReadAll(f, bytes).metrics <= Regrouped(f, ms)
            && ReadAll(f, bytes).error == if IsBoundary(GroupsOf(f, ms), n) then None else Some(InvalidData)
  {
    var bytes := MetricsToBytes(f, ms);
    TruncatedWith(f, ms, bytes, n, ReaderOf(f, bytes[..n]), GroupsOf(f, ms));
    AllOfGroups(f, ms);
  }

  /** Decoding the encoding gives the metrics regrouped, and consumes every byte. */
  lemma RoundTrip<G>(f: Format<G>, ms: seq<Metric<G>>)
    requires Lawful(f.host) && (forall m :: m in ms ==> Writable(f, m))
    requires |MetricsToBytes(f, ms)| <= Memory.INT_MAX
    ensures var bytes := MetricsToBytes(f, ms);
            Stops(f, bytes) && ReadAll(f, bytes) == Reading(Regrouped(f, ms), None, |bytes|)
  {
    var bytes := MetricsToBytes(f, ms);
    assert bytes[..|bytes|] == bytes;
    TruncatedWith(f, ms, bytes, |bytes|, ReaderOf(f, bytes), GroupsOf(f, ms));
    AllOfGroups(f, ms);
  }

  // ---------------------------------------------- what regrouping does to a list

  predicate SameLabel<G(==)>(a: Metric<G>, b: Metric<G>) {
    a.name == b.name && a.tags == b.tags
  }

  /** No two metrics with different names or tags share a hash. */
  ghost predicate CollisionFree<G>(f: Format<G>, ms: seq<Metric<G>>) {
    forall a, b :: a in ms && b in ms && Key(f, a) == Key(f, b) ==> SameLabel(a, b)
  }

  lemma {:induction false} WithKeyConcat<G>(f: Format<G>, a: seq<Metric<G>>, b: seq<Metric<G>>, k: int)
    ensures WithKey(f, a + b, k) == WithKey(f, a, k) + WithKey(f, b, k)
    decreases |a|
  {
    if a == [] {
      assert a + b == b;
    } else {
      WithKeyConcat(f, a[1..], b, k);
      assert (a + b)[1..] == a[1..] + b;
      assert [a[0]] + (WithKey(f, a[1..], k) + WithKey(f, b, k)) == [a[0]] + WithKey(f, a[1..], k) + WithKey(f, b, k);
    }
  }

  lemma {:induction false} WithKeyOfUniform<G>(f: Format<G>, a: seq<Metric<G>>, k: int, j: int)
    requires forall m :: m in a ==> Key(f, m) == k
    ensures WithKey(f, a, j) == if j == k then a else []
    decreases |a|
  {
    if a != [] {
      WithKeyOfUniform(f, a[1..], k, j);
    }
  }

  lemma {:induction false} WithKeyOfWithoutKey<G>(f: Format<G>, ms: seq<Metric<G>>, k: int, j: int)
    ensures WithKey(f, WithoutKey(f, ms, k), j) == if j == k then [] else WithKey(f, ms, j)
    decreases |ms|
  {
    if ms != [] {
      WithKeyOfWithoutKey(f, ms[1..], k, j);
    }
  }

  lemma LabelledRaws<G>(first: Metric<G>, group: seq<Metric<G>>)
    requires forall m :: m in group ==> SameLabel(m, first)
    ensures Labelled(first.name, first.tags, Raws(group)) == group
  {
    forall i | 0 <= i < |group|
      ensures Labelled(first.name, first.tags, Raws(group))[i] == group[i]
    {
      assert group[i] in group;
    }
  }

  /** The first group is uniform, and what is left is collision-free again. */
  lemma CollisionFreeSplit<G>(f: Format<G>, ms: seq<Metric<G>>)
    requires CollisionFree(f, ms) && ms != []
    ensures forall m :: m in WithKey(f, ms, Key(f, ms[0])) ==> SameLabel(m, ms[0]) && Key(f, m) == Key(f, ms[0])
    ensures CollisionFree(f, WithoutKey(f, ms[1..], Key(f, ms[0])))
  {
    var k := Key(f, ms[0]);
    var others := WithoutKey(f, ms[1..], k);
    forall m | m in WithKey(f, ms, k)
      ensures SameLabel(m, ms[0]) && Key(f, m) == k
    {
      SplitKeepsMetric(f, ms, k, m);
    }
    forall m, n | m in others && n in others && Key(f, m) == Key(f, n)
      ensures SameLabel(m, n)
    {
      SplitKeepsMetric(f, ms[1..], k, m);
      SplitKeepsMetric(f, ms[1..], k, n);
      assert m in ms && n in ms;
    }
  }

  lemma {:induction false} RegroupedKeepsGroups<G>(f: Format<G>, ms: seq<Metric<G>>, j: int)
    requires CollisionFree(f, ms)
    ensures WithKey(f, Regrouped(f, ms), j) == WithKey(f, ms, j)
    decreases |ms|
  {
    if ms != [] {
      var k := Key(f, ms[0]);
      var group, others := WithKey(f, ms, k), WithoutKey(f, ms[1..], k);
      CollisionFreeSplit(f, ms);
      RegroupedKeepsGroups(f, others, j);
      LabelledRaws(ms[0], group);
      WithKeyConcat(f, group, Regrouped(f, others), j);
      WithKeyOfUniform(f, group, k, j);
      WithKeyOfWithoutKey(f, ms[1..], k, j);
    }
  }

  lemma {:induction false} CountWithinKey<G>(f: Format<G>, a: seq<Metric<G>>, m: Metric<G>)
    ensures multiset(a)[m] == multiset(WithKey(f, a, Key(f, m)))[m]
    decreases |a|
  {
    if a != [] {
      CountWithinKey(f, a[1..], m);
      assert a == [a[0]] + a[1..];
    }
  }

  /** Everything regrouping yields carries the label of the first metric with its hash. */
  lemma {:induction false} RegroupedLabels<G>(f: Format<G>, ms: seq<Metric<G>>, r: Metric<G>)
    requires r in Regrouped(f, ms)
    ensures var group := WithKey(f, ms, Key(f, r)); group != [] && SameLabel(r, group[0])
    decreases |ms|
  {
    var k := Key(f, ms[0]);
    var others := WithoutKey(f, ms[1..], k);
    var own := Labelled(ms[0].name, ms[0].tags, Raws(WithKey(f, ms, k)));
    if r !in own {
      RegroupedLabels(f, others, r);
      WithKeyOfWithoutKey(f, ms[1..], k, Key(f, r));
    }
  }

  lemma CollisionLosesAMetric<G>(f: Format<G>, ms: seq<Metric<G>>, a: Metric<G>, b: Metric<G>)
    requires a in ms && b in ms && Key(f, a) == Key(f, b) && !SameLabel(a, b)
    ensures a !in Regrouped(f, ms) || b !in Regrouped(f, ms)
  {
    if a in Regrouped(f, ms) && b in Regrouped(f, ms) {
      RegroupedLabels(f, ms, a);
      RegroupedLabels(f, ms, b);
    }
  }

  /**
   * The metrics read back are a permutation of those written exactly when no two
   * metrics with different names or tags share a hash. Then every group comes
   * back in its old order.
   */
  lemma RegroupedIsPermutationIff<G>(f: Format<G>, ms: seq<Metric<G>>)
    ensures multiset(Regrouped(f, ms)) == multiset(ms) <==> CollisionFree(f, ms)
    ensures CollisionFree(f, ms) ==> forall k :: WithKey(f, Regrouped(f, ms), k) == WithKey(f, ms, k)
  {
    if CollisionFree(f, ms) {
      forall k
        ensures WithKey(f, Regrouped(f, ms), k) == WithKey(f, ms, k)
      {
        RegroupedKeepsGroups(f, ms, k);
      }
      SameGroupsSameMetrics(f, Regrouped(f, ms), ms);
    } else {
      var a, b :| a in ms && b in ms && Key(f, a) == Key(f, b) && !SameLabel(a, b);
      CollisionLosesAMetric(f, ms, a, b);
      var lost := if a in Regrouped(f, ms) then b else a;
      assert lost in multiset(ms) && lost !in multiset(Regrouped(f, ms));
    }
  }

  lemma SameGroupsSameMetrics<G>(f: Format<G>, a: seq<Metric<G>>, b: seq<Metric<G>>)
    requires forall k :: WithKey(f, a, k) == WithKey(f, b, k)
    ensures multiset(a) == multiset(b)
  {
    forall m
      ensures multiset(a)[m] == multiset(b)[m]
    {
      CountWithinKey(f, a, m);
      CountWithinKey(f, b, m);
      assert WithKey(f, a, Key(f, m)) == WithKey(f, b, Key(f, m));
    }
  }

  // ------------------------------------------------------------ values that are wrong

  /** A time that is out of range ends the reading behind the values before it, and not as invalid data. */
  lemma {:induction false} BadTicksEndReading<G>(
    f: Format<G>, bytes: seq<byte>, i: nat, stop: int, group: seq<Metric<G>>, bad: nat)
    requires Lawful(f.host) && At(bytes, i, RawValuesToBytes(f, group)) && stop == i + |group| * ENCODED_SIZE
    requires bad < |group| && !(0 <= group[bad].raw.ticks <= MAX_TICKS)
    requires forall j :: 0 <= j < bad ==> 0 <= group[j].raw.ticks <= MAX_TICKS
    ensures RawValuesAt(f, bytes, i, stop) == RawReading(Raws(group[..bad]), Some(BadTicks))
    decreases |group|
  {
    AtSplit(bytes, i, RawBytes(f, group[0].raw), RawValuesToBytes(f, group[1..]));
    ReadRawValue(f, bytes, i, group[0].raw);
    if bad > 0 {
      BadTicksEndReading(f, bytes, i + ENCODED_SIZE, stop, group[1..], bad - 1);
      assert group[1..][..bad - 1] == group[..bad][1..];
      assert Raws(group[..bad]) == [group[0].raw] + Raws(group[..bad][1..]);
    }
  }

  lemma TagsDecideHeader<G>(f: Format<G>, bytes: seq<byte>, i: nat, name: string, text: string, rest: seq<byte>)
    requires Lawful(f.host) && |bytes| <= Memory.INT_MAX
    requires Plain(f, name) && Plain(f, text) && At(bytes, i, TextBytes(f, name) + (TextBytes(f, text) + rest))
    ensures var h := ReadHeader(f, bytes, i);
            match f.readTags(text)
            case Malformed => h == Failure(BadJson)
            case WrongShape => h == Failure(InvalidData)
            case Null => h.Success? ==> h.value.tags == None
            case Tags(tags) => h.Success? ==> h.value.tags == Some(tags)
    ensures i < |bytes|
  {
    CountLength(f, |name|);
    CountLength(f, |text|);
    var i1 := i + INT_SIZE + |name|;
    ThreeParts(bytes, i, i1, i1 + INT_SIZE + |text|, TextBytes(f, name), TextBytes(f, text), rest);
    ReadTextBytes(f, bytes, i, name);
    ReadTextBytes(f, bytes, i1, text);
  }

  /** What the tags text of a group means for the round that reads it, whatever follows. */
  lemma TagsDecideRound<G>(
    f: Format<G>, bytes: seq<byte>, reader: Reader<G>, i: nat, name: string, text: string, rest: seq<byte>)
    requires Lawful(f.host) && Reads(reader, f, bytes) && |bytes| <= Memory.INT_MAX
    requires Plain(f, name) && Plain(f, text) && At(bytes, i, TextBytes(f, name) + (TextBytes(f, text) + rest))
    ensures match f.readTags(text)
            case Malformed => RoundAt(reader, i) == Ends(Reading([], Some(BadJson), i))
            case WrongShape => RoundAt(reader, i) == Ends(Reading([], Some(InvalidData), i))
            case Null => MetricsOf(RoundAt(reader, i)) == []
            case Tags(tags) => forall m :: m in MetricsOf(RoundAt(reader, i)) ==> m.tags == tags
  {
    TagsDecideHeader(f, bytes, i, name, text, rest);
    assert reader.header(i) == ReadHeader(f, bytes, i);
  }

  // ------------------------------------------------------------- inputs that fail

  /** A group of one four-letter name, no tags and a count of minus one. */
  function Trap(name: seq<byte>): seq<byte> {
    [4, 0, 0, 0] + name + [0, 0, 0, 0] + [255, 255, 255, 255]
  }

  /** A negative count sends the reader back: on these sixteen bytes it starts over for ever. */
  lemma ReaderCanLoopForever<G>(f: Format<G>, name: seq<byte>)
    requires f.host == HostOf(true) && |name| == 4 && f.readTags(f.decode([])).Accepted()
    ensures RunsForever(ReaderOf(f, Trap(name)))
  {
    var reader := ReaderOf(f, Trap(name));
    TrapRound(f, name);
    LoopsAt(reader);
  }

  lemma LoopsAt<G>(reader: Reader<G>)
    requires RoundAt(reader, 0) == GoesOn([], 0)
    ensures RunsForever(reader)
  {
    assert RunsFor(reader, 0, 0) && RunsFor(reader, 0, 1) && IndexAfter(reader, 0, 1) == 0;
    forall n: nat
      ensures RunsFor(reader, 0, n)
    {
      ReturnsForever(reader, 0, 1, n);
    }
  }

  lemma TrapRound<G>(f: Format<G>, name: seq<byte>)
    requires f.host == HostOf(true) && |name| == 4 && f.readTags(f.decode([])).Accepted()
    ensures RoundAt(ReaderOf(f, Trap(name)), 0) == GoesOn([], 0)
  {
    TrapHeader(f, name);
  }

  lemma TrapHeader<G>(f: Format<G>, name: seq<byte>)
    requires f.host == HostOf(true) && |name| == 4 && f.readTags(f.decode([])).Accepted()
    ensures var h := ReadHeader(f, Trap(name), 0);
            h.Success? && h.value.count == -1 && h.value.start == |Trap(name)| == 16 && h.value.next == 0
  {
    var bytes := Trap(name);
    assert bytes[0..4] == [4, 0, 0, 0] && bytes[8..12] == [0, 0, 0, 0] && bytes[12..16] == [255, 255, 255, 255];
    assert bytes[12..12] == [];
    LittleEndianValues();
  }

  /** The name as it is read: its length in characters, taken in bytes. */
  function CutName<G>(f: Format<G>, name: string): string
    requires |name| <= |f.encode(name)|
  {
    f.decode(f.encode(name)[..|name|])
  }

  lemma NameIsCut<G>(f: Format<G>, bytes: seq<byte>, i: int, name: string, rest: seq<byte>)
    requires Lawful(f.host) && |name| <= |f.encode(name)| && |name| <= Memory.INT_MAX
    requires At(bytes, i, TextBytes(f, name) + rest)
    ensures var h := ReadHeader(f, bytes, i); h.Success? ==> h.value.name == CutName(f, name)
  {
    CountLength(f, |name|);
    AtSplit(bytes, i, TextBytes(f, name), rest);
    AtSplit(bytes, i, CountBytes(f, |name|), f.encode(name));
    var j := i + INT_SIZE;
    assert bytes[j..j + |f.encode(name)|][..|name|] == bytes[j..j + |name|];
  }

  /**
   * The name of a group is read from its first bytes, one for each character.
   * When that text is not the name, every metric of the round that reads the
   * group carries another name. This is so for each group in any bytes.
   */
  lemma GroupIsReadUnderCutName<G>(f: Format<G>, bytes: seq<byte>, reader: Reader<G>, i: int, name: string,
                                   tags: string, group: seq<Metric<G>>)
    requires Lawful(f.host) && Reads(reader, f, bytes)
    requires |name| <= |f.encode(name)| && |name| <= Memory.INT_MAX
    requires At(bytes, i, GroupToBytes(f, name, tags, group))
    ensures forall m :: m in MetricsOf(RoundAt(reader, i)) ==> m.name == CutName(f, name)
  {
    NameIsCut(f, bytes, i, name, TextBytes(f, tags) + ValuesBytes(f, group));
    assert reader.header(i) == ReadHeader(f, bytes, i);
  }

  lemma FirstRoundIsPrefix<G>(reader: Reader<G>, n: nat)
    requires !RunsFor(reader, 0, n)
    ensures MetricsOf(RoundAt(reader, 0)) <= ReadFrom(reader, 0, n).metrics
  {
  }

  /**
   * Metrics whose first name is cut when it is read are not read back: either
   * the first group yields nothing, or the first metric read has another name.
   */
  lemma CutNameIsNotReadBack<G>(f: Format<G>, ms: seq<Metric<G>>)
    requires Lawful(f.host) && ms != [] && Stops(f, MetricsToBytes(f, ms))
    requires var name := ms[0].name; |name| <= |f.encode(name)| && |name| <= Memory.INT_MAX && CutName(f, name) != name
    ensures var r := ReadAll(f, MetricsToBytes(f, ms)).metrics;
            MetricsOf(RoundAt(ReaderOf(f, MetricsToBytes(f, ms)), 0)) != [] ==>
              r != [] && r[0].name == CutName(f, ms[0].name) && r != Regrouped(f, ms)
  {
    var bytes, k := MetricsToBytes(f, ms), Key(f, ms[0]);
    var reader := ReaderOf(f, bytes);
    assert bytes[0..] == bytes;
    FollowedBy(bytes, 0, GroupToBytes(f, ms[0].name, f.writeTags(ms[0].tags), WithKey(f, ms, k)),
               MetricsToBytes(f, WithoutKey(f, ms[1..], k)));
    GroupIsReadUnderCutName(f, bytes, reader, 0, ms[0].name, f.writeTags(ms[0].tags), WithKey(f, ms, k));
    FirstRoundIsPrefix(reader, |bytes| + 1);
    assert Regrouped(f, ms)[0].name == ms[0].name;
  }

  /** A name whose one character takes two bytes is written with a length of one, and is not read back. */
  lemma AccentedNameIsNotReadBack<G>(f: Format<G>, m: Metric<G>)
    requires f.host == HostOf(true) && |m.name| == 1 && f.encode(m.name) == [195, 169]
    requires f.writeTags(m.tags) == "{}" && f.encode("{}") == [123, 125]
    ensures var bytes := MetricsToBytes(f, [m]);
            Stops(f, bytes) && ReadAll(f, bytes) == Reading([], Some(InvalidData), 0)
  {
    var bytes := MetricsToBytes(f, [m]);
    AccentedBytes(f, m);
    AccentedRound(f, bytes);
  }

  lemma AccentedRound<G>(f: Format<G>, bytes: seq<byte>)
    requires f.host == HostOf(true)
    requires |bytes| == 32 && bytes[..12] == [1, 0, 0, 0, 195, 169, 2, 0, 0, 0, 123, 125]
    ensures RoundAt(ReaderOf(f, bytes), 0) == Ends(Reading([], Some(InvalidData), 0))
  {
    LittleEndianValues();
    assert bytes[0..4] == bytes[..12][0..4] == [1, 0, 0, 0];
    assert bytes[5..9] == bytes[..12][5..9] == [169, 2, 0, 0];
  }

  /** The bytes of one metric, without tags, on a host with the least significant byte first. */
  lemma OneMetricInBytes<G>(f: Format<G>, m: Metric<G>)
    requires f.host == HostOf(true) && |m.name| == 1 && f.writeTags(m.tags) == "{}" && f.encode("{}") == [123, 125]
    ensures MetricsToBytes(f, [m]) ==
            ([1, 0, 0, 0] + f.encode(m.name)) + ([2, 0, 0, 0, 123, 125]
              + ([1, 0, 0, 0] + (LongBytes(m.raw.ticks, true) + LongBytes(m.raw.value, true))))
  {
    LittleEndianBytes();
    var k := Key(f, m);
    assert [m][1..] == [] && WithKey(f, [m], k) == [m] && WithoutKey(f, [], k) == [];
    assert RawValuesToBytes(f, []) == [] && RawValuesToBytes(f, [m]) == RawBytes(f, m.raw);
    assert TextBytes(f, "{}") == [2, 0, 0, 0, 123, 125];
    assert MetricsToBytes(f, []) == [];
  }

  lemma AccentedBytes<G>(f: Format<G>, m: Metric<G>)
    requires f.host == HostOf(true) && |m.name| == 1 && f.encode(m.name) == [195, 169]
    requires f.writeTags(m.tags) == "{}" && f.encode("{}") == [123, 125]
    ensures var bytes := MetricsToBytes(f, [m]);
            |bytes| == 32 && bytes[..12] == [1, 0, 0, 0, 195, 169, 2, 0, 0, 0, 123, 125]
  {
    HostOfIsLawful(true);
    OneMetricInBytes(f, m);
  }

  lemma LittleEndianValues()
    ensures ReadInt32([4, 0, 0, 0], true) == 4
    ensures ReadInt32([0, 0, 0, 0], true) == 0
    ensures ReadInt32([255, 255, 255, 255], true) == -1
    ensures ReadInt32([1, 0, 0, 0], true) == 1
    ensures ReadInt32([169, 2, 0, 0], true) == 681
  {
    IntSize();
    FourDigits(4, 0, 0, 0);
    FourDigits(0, 0, 0, 0);
    FourDigits(255, 255, 255, 255);
    FourDigits(1, 0, 0, 0);
    FourDigits(169, 2, 0, 0);
  }

  lemma LittleEndianBytes()
    ensures IntBytes(1, true) == [1, 0, 0, 0]
    ensures IntBytes(2, true) == [2, 0, 0, 0]
  {
    IntSize();
  }

  lemma FourDigits(a: byte, b: byte, c: byte, d: byte)
    ensures FromLittleEndian([a, b, c, d]) == a + 256 * (b + 256 * (c + 256 * d))
  {
    assert [a, b, c, d][1..] == [b, c, d] && [b, c, d][1..] == [c, d] && [c, d][1..] == [d] && [d][1..] == [];
    assert FromLittleEndian([d]) == d;
    assert FromLittleEndian([c, d]) == c + 256 * d;
    assert FromLittleEndian([b, c, d]) == b + 256 * (c + 256 * d);
  }
}
