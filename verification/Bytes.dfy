/** Integers as byte sequences, in the byte order of the host. */
module Bytes {

  type byte = x: int | 0 <= x < 256

  function Reverse(s: seq<byte>): (r: seq<byte>)
    ensures |r| == |s|
  {
    if s == [] then [] else Reverse(s[1..]) + [s[0]]
  }

  /** The `width` low digits of `n` in base 256, least significant first. */
  function LittleEndian(n: nat, width: nat): (s: seq<byte>)
    ensures |s| == width
  {
    if width == 0 then [] else [n % 256] + LittleEndian(n / 256, width - 1)
  }

  /** The `width` low digits of `n` in base 256, most significant first. */
  function BigEndian(n: nat, width: nat): (s: seq<byte>)
    ensures |s| == width
  {
    if width == 0 then [] else BigEndian(n / 256, width - 1) + [n % 256]
  }

  function FromLittleEndian(s: seq<byte>): nat {
    if s == [] then 0 else s[0] + 256 * FromLittleEndian(s[1..])
  }

  function FromBigEndian(s: seq<byte>): nat {
    if s == [] then 0 else 256 * FromBigEndian(s[..|s| - 1]) + s[|s| - 1]
  }

  function Pow256(k: nat): nat {
    if k == 0 then 1 else 256 * Pow256(k - 1)
  }

  /** The two's complement bytes of `n` as the host stores them. */
  function HostBytes(n: int, width: nat, littleEndian: bool): (s: seq<byte>)
    requires 0 <= n + Pow256(width)
    ensures |s| == width
  {
    var unsigned := if n < 0 then n + Pow256(width) else n;
    if littleEndian then LittleEndian(unsigned, width) else BigEndian(unsigned, width)
  }

  /** The signed integer whose host bytes are `s`. */
  function FromHostBytes(s: seq<byte>, littleEndian: bool): int {
    var unsigned := if littleEndian then FromLittleEndian(s) else FromBigEndian(s);
    if 2 * unsigned < Pow256(|s|) then unsigned else unsigned - Pow256(|s|)
  }

  lemma {:induction false} ReverseSnoc(s: seq<byte>, x: byte)
    ensures Reverse(s + [x]) == [x] + Reverse(s)
  {
    if s != [] {
      ReverseSnoc(s[1..], x);
      assert (s + [x])[1..] == s[1..] + [x];
    }
  }

  lemma {:induction false} ReverseTwice(s: seq<byte>)
    ensures Reverse(Reverse(s)) == s
  {
    if s != [] {
      ReverseTwice(s[1..]);
      ReverseSnoc(Reverse(s[1..]), s[0]);
    }
  }

  lemma {:induction false} BigEndianReversesLittle(n: nat, width: nat)
    ensures Reverse(LittleEndian(n, width)) == BigEndian(n, width)
    ensures Reverse(BigEndian(n, width)) == LittleEndian(n, width)
  {
    if width > 0 {
      BigEndianReversesLittle(n / 256, width - 1);
    }
    ReverseTwice(LittleEndian(n, width));
  }

  lemma {:induction false} BigEndianValueReversesLittle(s: seq<byte>)
    ensures FromLittleEndian(Reverse(s)) == FromBigEndian(s)
  {
    if s != [] {
      var init := s[..|s| - 1];
      BigEndianValueReversesLittle(init);
      ReverseSnoc(init, s[|s| - 1]);
      assert s == init + [s[|s| - 1]];
      assert ([s[|s| - 1]] + Reverse(init))[1..] == Reverse(init);
    }
  }

  lemma {:induction false} FromBigEndianOfBigEndian(n: nat, width: nat)
    requires n < Pow256(width)
    ensures FromBigEndian(BigEndian(n, width)) == n
  {
    if width > 0 {
      FromBigEndianOfBigEndian(n / 256, width - 1);
      assert BigEndian(n, width)[..width - 1] == BigEndian(n / 256, width - 1);
    }
  }

  lemma {:induction false} BigEndianOfFromBigEndian(s: seq<byte>)
    ensures FromBigEndian(s) < Pow256(|s|)
    ensures BigEndian(FromBigEndian(s), |s|) == s
  {
    if s != [] {
      var init := s[..|s| - 1];
      BigEndianOfFromBigEndian(init);
      var n := FromBigEndian(s);
      assert n / 256 == FromBigEndian(init) && n % 256 == s[|s| - 1];
      assert s == init + [s[|s| - 1]];
    }
  }

  /** Reading back the host bytes of a signed integer of that width gives it back. */
  lemma HostRoundTrip(n: int, width: nat, littleEndian: bool)
    requires width > 0 && 0 <= n + Pow256(width) / 2 < Pow256(width)
    ensures FromHostBytes(HostBytes(n, width, littleEndian), littleEndian) == n
  {
    var unsigned := if n < 0 then n + Pow256(width) else n;
    FromBigEndianOfBigEndian(unsigned, width);
    BigEndianReversesLittle(unsigned, width);
    BigEndianValueReversesLittle(BigEndian(unsigned, width));
  }

  /** The order in which a byte-ordered store keeps its keys. */
  predicate LexLess(a: seq<byte>, b: seq<byte>) {
    b != [] && (a == [] || a[0] < b[0] || (a[0] == b[0] && LexLess(a[1..], b[1..])))
  }

  lemma {:induction false} LexLessSnoc(a: seq<byte>, b: seq<byte>, x: byte, y: byte)
    requires |a| == |b|
    ensures LexLess(a + [x], b + [y]) <==> LexLess(a, b) || (a == b && x < y)
  {
    if a != [] {
      LexLessSnoc(a[1..], b[1..], x, y);
      assert (a + [x])[1..] == a[1..] + [x];
      assert (b + [y])[1..] == b[1..] + [y];
      assert a == b <==> a[0] == b[0] && a[1..] == b[1..] by {
        assert a == [a[0]] + a[1..] && b == [b[0]] + b[1..];
      }
    } else {
      assert (a + [x])[1..] == [] && (b + [y])[1..] == [];
    }
  }

  lemma {:induction false} BigEndianOrder(m: nat, n: nat, width: nat)
    requires m < Pow256(width) && n < Pow256(width)
    ensures LexLess(BigEndian(m, width), BigEndian(n, width)) <==> m < n
    ensures BigEndian(m, width) == BigEndian(n, width) ==> m == n
  {
    FromBigEndianOfBigEndian(m, width);
    FromBigEndianOfBigEndian(n, width);
    if width > 0 {
      BigEndianOrder(m / 256, n / 256, width - 1);
      LexLessSnoc(BigEndian(m / 256, width - 1), BigEndian(n / 256, width - 1), m % 256, n % 256);
    }
  }
}
