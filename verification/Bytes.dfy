/** Bytes, fixed-width unsigned integers and their big-endian encodings. */
module Bytes {
  type byte = x: int | 0 <= x < 0x100
  type uint16 = x: int | 0 <= x < 0x1_0000
  type uint32 = x: int | 0 <= x < 0x1_0000_0000
  type uint64 = x: int | 0 <= x < 0x1_0000_0000_0000_0000
  type int64 = x: int | -0x8000_0000_0000_0000 <= x < 0x8000_0000_0000_0000

  function PutUint16(n: uint16): seq<byte> {
    [n / 0x100, n % 0x100]
  }

  function Uint16(b: seq<byte>): uint16
    requires |b| == 2
  {
    var high: int, low: int := b[0], b[1];
    high * 0x100 + low
  }

  function PutUint32(n: uint32): seq<byte> {
    PutUint16(n / 0x1_0000) + PutUint16(n % 0x1_0000)
  }

  function Uint32(b: seq<byte>): uint32
    requires |b| == 4
  {
    var high: int, low: int := Uint16(b[..2]), Uint16(b[2..]);
    high * 0x1_0000 + low
  }

  function Zeros(n: nat): seq<byte> {
    seq(n, _ => 0)
  }

  function Min(a: int, b: int): int {
    if a < b then a else b
  }

  // The byte that is either a command (bit 7 set) or a sequence number (clear).

  predicate HasHighBit(b: byte) {
    b >= 0x80
  }

  function WithHighBit(b: byte): byte {
    if HasHighBit(b) then b else b + 0x80
  }

  function ClearHighBit(b: byte): byte {
    if HasHighBit(b) then b - 0x80 else b
  }

  /** The three arithmetic helpers are the masks 0x80 (and, or, and-not) of the bytes they name. */
  lemma HighBitIsBitSeven(b: bv8)
    ensures HasHighBit(b as int) <==> b & 0x80 != 0
    ensures WithHighBit(b as int) == (b | 0x80) as int
    ensures ClearHighBit(b as int) == (b & 0x7F) as int
  {
    if b & 0x80 != 0 {
      assert b >= 0x80;
      assert b | 0x80 == b;
      assert (b & 0x7F) == b - 0x80;
    } else {
      assert b < 0x80;
      assert b | 0x80 == b + 0x80;
      assert b & 0x7F == b;
    }
  }

  lemma Uint16Inverse(n: uint16)
    ensures Uint16(PutUint16(n)) == n
  {
  }

  lemma PutUint16Inverse(b: seq<byte>)
    requires |b| == 2
    ensures PutUint16(Uint16(b)) == b
  {
  }

  lemma Uint32Inverse(n: uint32)
    ensures Uint32(PutUint32(n)) == n
  {
    var b := PutUint32(n);
    assert b[..2] == PutUint16(n / 0x1_0000) && b[2..] == PutUint16(n % 0x1_0000);
  }

  lemma TwoHalves(high: uint16, low: uint16)
    ensures var n: int := high; n * 0x1_0000 + low < 0x1_0000_0000
    ensures var n: int := high; PutUint32(n * 0x1_0000 + low) == PutUint16(high) + PutUint16(low)
  {
  }

  lemma PutUint32Inverse(b: seq<byte>)
    requires |b| == 4
    ensures PutUint32(Uint32(b)) == b
  {
    PutUint16Inverse(b[..2]);
    PutUint16Inverse(b[2..]);
    TwoHalves(Uint16(b[..2]), Uint16(b[2..]));
    assert b == b[..2] + b[2..];
  }

  // What bytes weigh in a number whose most significant byte comes first.

  function Weigh2(a: int, b: int): int {
    0x100 * a + b
  }

  function Weigh4(a: int, b: int, c: int, d: int): int {
    0x100_0000 * a + 0x1_0000 * b + 0x100 * c + d
  }

  lemma Uint16Weighs(b: seq<byte>)
    requires |b| == 2
    ensures Uint16(b) == Weigh2(b[0], b[1])
  {
  }

  lemma Uint32Weighs(b: seq<byte>)
    requires |b| == 4
    ensures Uint32(b) == Weigh4(b[0], b[1], b[2], b[3])
  {
  }

  // ---------------------------------------- big-endian numbers of any width

  function FromBytes(b: seq<byte>): nat {
    if b == [] then 0
    else
      var low: int := b[|b| - 1];
      FromBytes(b[..|b| - 1]) * 0x100 + low
  }

  /** Fills a buffer of the given width with a number, most significant byte first. */
  function ToBytes(n: nat, width: nat): (b: seq<byte>)
    ensures |b| == width
  {
    if width == 0 then [] else ToBytes(n / 0x100, width - 1) + [n % 0x100]
  }

  /** Filling a fixed width with the number read from that many bytes restores the bytes, leading
      zeros included. */
  lemma {:induction false} ToBytesInverse(b: seq<byte>)
    ensures ToBytes(FromBytes(b), |b|) == b
  {
    if b != [] {
      var init := b[..|b| - 1];
      ToBytesInverse(init);
      assert FromBytes(b) / 0x100 == FromBytes(init);
      assert b == init + [b[|b| - 1]];
    }
  }

  lemma FromTwoParts(a: seq<byte>, last: byte)
    ensures FromBytes(a + [last]) == 0x100 * FromBytes(a) + last
  {
    assert (a + [last])[..|a|] == a;
  }

  /** In the widths that have a name, the byte order is that of the fixed-width numbers. */
  lemma FromBytesWeighs(b: seq<byte>)
    ensures |b| == 1 ==> FromBytes(b) == b[0]
    ensures |b| == 2 ==> FromBytes(b) == Weigh2(b[0], b[1])
    ensures |b| == 4 ==> FromBytes(b) == Weigh4(b[0], b[1], b[2], b[3])
  {
    if |b| > 0 {
      var one := b[..1];
      assert one == [] + [b[0]];
      FromTwoParts([], b[0]);
      if |b| == 1 {
        assert b == one;
      } else {
        assert b[..2] == one + [b[1]];
        FromTwoParts(one, b[1]);
        if |b| == 2 {
          assert b == b[..2];
        } else if |b| == 4 {
          assert b[..3] == b[..2] + [b[2]] && b == b[..3] + [b[3]];
          FromTwoParts(b[..2], b[2]);
          FromTwoParts(b[..3], b[3]);
        }
      }
    }
  }

  lemma FromEightBytesWeighs(b: seq<byte>)
    requires |b| == 8
    ensures FromBytes(b) == 0x1_0000_0000 * FromBytes(b[..4]) + FromBytes(b[4..])
  {
    var high, low := b[..4], b[4..];
    assert b[..5] == high + [b[4]] && b[..6] == b[..5] + [b[5]] && b[..7] == b[..6] + [b[6]] && b == b[..7] + [b[7]];
    FromTwoParts(high, b[4]);
    FromTwoParts(b[..5], b[5]);
    FromTwoParts(b[..6], b[6]);
    FromTwoParts(b[..7], b[7]);
    FromBytesWeighs(low);
  }
}
