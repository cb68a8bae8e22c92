/** The byte keys under which a sequential store keeps its offsets. */
module StoreUtils {
  import opened Wrappers
  import opened Bytes

  type Key = seq<byte>

  const LONG_MAX: int := 0x7FFF_FFFF_FFFF_FFFF
  const LONG_MIN: int := -0x8000_0000_0000_0000
  const LONG_SIZE: nat := 8

  type long = x: int | LONG_MIN <= x <= LONG_MAX

  /** The 64-bit value that one step past either end wraps round to. */
  function WrapLong(x: int): long
    requires LONG_MIN - 1 <= x <= LONG_MAX + 1
  {
    if x > LONG_MAX then LONG_MIN else if x < LONG_MIN then LONG_MAX else x
  }

  datatype KeyError = OffsetOutOfRange | KeyTooShort

  function GetOffsetFromKey(key: Key, littleEndian: bool): Result<long, KeyError> {
    var k := if littleEndian then Reverse(key) else key;
    if |k| < LONG_SIZE then Failure(KeyTooShort)
    else
      LongSize();
      BigEndianOfFromBigEndian(k[..LONG_SIZE]);
      BigEndianOfFromBigEndian(Reverse(k[..LONG_SIZE]));
      ReverseTwice(k[..LONG_SIZE]);
      BigEndianValueReversesLittle(Reverse(k[..LONG_SIZE]));
      Success(FromHostBytes(k[..LONG_SIZE], littleEndian))
  }

  function GetKeyFromOffset(offset: long, littleEndian: bool): Result<Key, KeyError> {
    if offset < 0 then Failure(OffsetOutOfRange)
    else
      var bytes := HostBytes(offset, LONG_SIZE, littleEndian);
      Success(if littleEndian then Reverse(bytes) else bytes)
  }

  lemma LongSize()
    ensures Pow256(LONG_SIZE) == LONG_MAX - LONG_MIN + 1
  {
    assert Pow256(2) == 0x1_0000;
    assert Pow256(4) == 0x1_0000_0000;
    assert Pow256(6) == 0x1_0000_0000_0000;
  }

  /** On either kind of host the key of an offset is its eight bytes, most significant first. */
  lemma KeyIsBigEndian(offset: long, littleEndian: bool)
    requires 0 <= offset
    ensures GetKeyFromOffset(offset, littleEndian) == Success(BigEndian(offset, LONG_SIZE))
  {
    BigEndianReversesLittle(offset, LONG_SIZE);
  }

  /** Decoding inverts encoding, even when the two happen on hosts of different byte order. */
  lemma OffsetOfKey(offset: long, encoder: bool, decoder: bool)
    requires 0 <= offset
    ensures GetOffsetFromKey(GetKeyFromOffset(offset, encoder).value, decoder) == Success(offset)
  {
    var key := BigEndian(offset, LONG_SIZE);
    KeyIsBigEndian(offset, encoder);
    LongSize();
    BigEndianReversesLittle(offset, LONG_SIZE);
    BigEndianValueReversesLittle(key);
    FromBigEndianOfBigEndian(offset, LONG_SIZE);
    assert key[..LONG_SIZE] == key && Reverse(key)[..LONG_SIZE] == Reverse(key);
  }

  /** Every eight-byte key whose top bit is clear is the key of exactly the offset it decodes to. */
  lemma KeyOfOffset(key: Key, littleEndian: bool)
    requires |key| == LONG_SIZE && key[0] < 128
    ensures var offset := GetOffsetFromKey(key, littleEndian);
            && offset.Success? && 0 <= offset.value
            && GetKeyFromOffset(offset.value, littleEndian) == Success(key)
  {
    LongSize();
    BigEndianOfFromBigEndian(key);
    BigEndianValueReversesLittle(key);
    TopBitClear(key);
    assert key[..LONG_SIZE] == key && Reverse(key)[..LONG_SIZE] == Reverse(key);
    KeyIsBigEndian(FromBigEndian(key), littleEndian);
  }

  lemma {:induction false} TopBitClear(s: seq<byte>)
    requires s != []
    ensures s[0] < 128 <==> 2 * FromBigEndian(s) < Pow256(|s|)
  {
    var init := s[..|s| - 1];
    if init == [] {
      assert FromBigEndian(init) == 0;
    } else {
      TopBitClear(init);
      HalvesCompare(FromBigEndian(init), 128 * Pow256(|init| - 1), s[|s| - 1]);
    }
  }

  lemma HalvesCompare(a: nat, half: nat, digit: byte)
    ensures 2 * (256 * a + digit) < 256 * (2 * half) <==> 2 * a < 2 * half
  {
  }

  /** The byte order of two keys is the numeric order of their offsets. */
  lemma KeyOrder(a: long, b: long, littleEndian: bool)
    requires 0 <= a && 0 <= b
    ensures var ka, kb := GetKeyFromOffset(a, littleEndian).value, GetKeyFromOffset(b, littleEndian).value;
            && (LexLess(ka, kb) <==> a < b)
            && (ka == kb <==> a == b)
  {
    KeyIsBigEndian(a, littleEndian);
    KeyIsBigEndian(b, littleEndian);
    LongSize();
    BigEndianOrder(a, b, LONG_SIZE);
  }
}
