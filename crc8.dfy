/**
 * The heartbeat checksum (ESP32-Firmware/src/Heartbeat.cpp, `Heartbeat::crc8`):
 * bit-at-a-time CRC-8 with polynomial 0x07, initial value 0, most significant bit
 * first, no reflection and no final XOR -- the parameter set catalogued as CRC-8/SMBUS.
 */
module Crc {

  const POLY: bv8 := 0x07

  /** One inner-loop round: shift left, folding the polynomial in when the top bit falls out. */
  function Shift(crc: bv8): bv8 {
    if crc & 0x80 != 0 then (crc << 1) ^ POLY else crc << 1
  }

  /** `n` inner-loop rounds applied to `crc`; a zero register stays zero. */
  function Rounds(crc: bv8, n: nat): (r: bv8)
    ensures crc == 0 ==> r == 0
  {
    if n == 0 then crc else Shift(Rounds(crc, n - 1))
  }

  /**
   * The register after absorbing one input byte: XOR it in, then eight rounds.
   * Absorbing the register's own value clears it.
   */
  function Absorb(crc: bv8, b: bv8): (r: bv8)
    ensures b == crc ==> r == 0
  {
    Rounds(crc ^ b, 8)
  }

  /** The checksum of `data`: the register after absorbing every byte, starting from 0. */
  function Crc8(data: seq<bv8>): (crc: bv8)
    ensures data == [] ==> crc == 0
  {
    if data == [] then 0 else Absorb(Crc8(data[..|data| - 1]), data[|data| - 1])
  }

  /** The nested loop of `Heartbeat::crc8`, computing the checksum in place in a local register. */
  method ComputeCrc8(data: seq<bv8>) returns (crc: bv8)
    ensures crc == Crc8(data)
  {
    crc := 0;
    var i := 0;
    while i < |data|
      invariant 0 <= i <= |data|
      invariant crc == Crc8(data[..i])
    {
      crc := crc ^ data[i];
      ghost var start := crc;
      var b := 0;
      while b < 8
        invariant 0 <= b <= 8
        invariant crc == Rounds(start, b)
      {
        crc := if crc & 0x80 != 0 then (crc << 1) ^ POLY else crc << 1;
        b := b + 1;
      }
      assert data[..i + 1][..i] == data[..i];
      i := i + 1;
    }
    assert data[..i] == data;
  }

  /** Appending a byte absorbs it into the checksum of what came before. */
  lemma Crc8Append(data: seq<bv8>, b: bv8)
    ensures Crc8(data + [b]) == Absorb(Crc8(data), b)
  {
    assert (data + [b])[..|data|] == data;
  }

  /** The checksum of the two-byte heartbeat payload. */
  lemma Crc8Pair(id: bv8, counter: bv8)
    ensures Crc8([id, counter]) == Absorb(Absorb(0, id), counter)
  {
    assert [id, counter][..1] == [id];
    assert [id][..0] == [];
  }

  /** One round is linear over XOR (GF(2)). */
  lemma ShiftLinear(x: bv8, y: bv8)
    ensures Shift(x ^ y) == Shift(x) ^ Shift(y)
  {
    assert (x ^ y) << 1 == (x << 1) ^ (y << 1);
    var topX, topY := x & 0x80 != 0, y & 0x80 != 0;
    assert ((x ^ y) & 0x80 != 0) == (topX != topY);
    if topX && topY {
      assert Shift(x) ^ Shift(y) == (x << 1) ^ (y << 1);
    } else if topX {
      assert Shift(x) ^ Shift(y) == ((x << 1) ^ (y << 1)) ^ POLY;
    } else if topY {
      assert Shift(x) ^ Shift(y) == ((x << 1) ^ (y << 1)) ^ POLY;
    }
  }

  /** The low bit after a round is the top bit that fell out, because the polynomial's constant term is 1. */
  lemma ShiftLowBit(crc: bv8)
    ensures Shift(crc) & 1 == crc >> 7
  {
    if crc & 0x80 != 0 {
      assert crc >> 7 == 1;
    } else {
      assert crc >> 7 == 0;
    }
  }

  /** One round is one-to-one, because the polynomial's constant term is 1. */
  lemma ShiftInjective(x: bv8, y: bv8)
    requires Shift(x) == Shift(y)
    ensures x == y
  {
  }

  /** Any number of rounds is linear over XOR. */
  lemma {:induction false} RoundsLinear(x: bv8, y: bv8, n: nat)
    ensures Rounds(x ^ y, n) == Rounds(x, n) ^ Rounds(y, n)
  {
    if n > 0 {
      RoundsLinear(x, y, n - 1);
      ShiftLinear(Rounds(x, n - 1), Rounds(y, n - 1));
    }
  }

  /** Any number of rounds is one-to-one. */
  lemma {:induction false} RoundsInjective(x: bv8, y: bv8, n: nat)
    requires Rounds(x, n) == Rounds(y, n)
    ensures x == y
  {
    if n > 0 {
      ShiftInjective(Rounds(x, n - 1), Rounds(y, n - 1));
      RoundsInjective(x, y, n - 1);
    }
  }

  /** Absorbing a byte is one-to-one in the register and in the byte. */
  lemma AbsorbInjective(c: bv8, b: bv8, c': bv8, b': bv8)
    requires Absorb(c, b) == Absorb(c', b')
    requires c == c' || b == b'
    ensures c == c' && b == b'
  {
    var x, y := c ^ b, c' ^ b';
    assert Rounds(x, 8) == Rounds(y, 8);
    RoundsInjective(x, y, 8);
    XorCancel(c, b, c', b');
  }

  /** XOR by a common value cancels. */
  lemma XorCancel(c: bv8, b: bv8, c': bv8, b': bv8)
    requires c ^ b == c' ^ b'
    requires c == c' || b == b'
    ensures c == c' && b == b'
  {
  }

  /**
   * The residue property of a CRC without final XOR: a message followed by its own
   * checksum has checksum 0, and no other trailing byte gives 0.
   */
  lemma Crc8Residue(data: seq<bv8>, x: bv8)
    ensures Crc8(data + [x]) == 0 <==> x == Crc8(data)
  {
    Crc8Append(data, x);
    var c := Crc8(data);
    if Crc8(data + [x]) == 0 {
      AbsorbInjective(c, x, c, c);
    }
  }

  /** Two payloads that differ in exactly one byte never share a checksum. */
  lemma Crc8DetectsPayloadByte(id: bv8, counter: bv8, id': bv8, counter': bv8)
    requires (id == id') != (counter == counter')
    ensures Crc8([id', counter']) != Crc8([id, counter])
  {
    Crc8Pair(id, counter);
    Crc8Pair(id', counter');
    if Crc8([id', counter']) == Crc8([id, counter]) {
      AbsorbInjective(Absorb(0, id), counter, Absorb(0, id'), counter');
      AbsorbInjective(0, id, 0, id');
    }
  }

  /** The register values while absorbing the ASCII digits "123" one by one. */
  lemma CheckValueSteps1()
    ensures Absorb(0x00, 0x31) == 0x97 && Absorb(0x97, 0x32) == 0x72 && Absorb(0x72, 0x33) == 0xC0
  {
  }

  /** The register values while absorbing the ASCII digits "456" one by one. */
  lemma CheckValueSteps2()
    ensures Absorb(0xC0, 0x34) == 0xC2 && Absorb(0xC2, 0x35) == 0xCB && Absorb(0xCB, 0x36) == 0xFD
  {
  }

  /** The register values while absorbing the ASCII digits "789" one by one. */
  lemma CheckValueSteps3()
    ensures Absorb(0xFD, 0x37) == 0x78 && Absorb(0x78, 0x38) == 0xC7 && Absorb(0xC7, 0x39) == 0xF4
  {
  }

  /** The checksum of the ASCII digits "123". */
  lemma CheckValuePrefix3()
    ensures Crc8([0x31, 0x32, 0x33]) == 0xC0
  {
    CheckValueSteps1();
    Crc8Append([], 0x31);
    Crc8Append([0x31], 0x32);
    Crc8Append([0x31, 0x32], 0x33);
    assert [] + [0x31] == [0x31] && [0x31] + [0x32] == [0x31, 0x32] && [0x31, 0x32] + [0x33] == [0x31, 0x32, 0x33];
  }

  /** The checksum of the ASCII digits "123456". */
  lemma CheckValuePrefix6()
    ensures Crc8([0x31, 0x32, 0x33, 0x34, 0x35, 0x36]) == 0xFD
  {
    var p3: seq<bv8> := [0x31, 0x32, 0x33];
    CheckValuePrefix3();
    CheckValueSteps2();
    Crc8Append(p3, 0x34);
    Crc8Append(p3 + [0x34], 0x35);
    Crc8Append(p3 + [0x34, 0x35], 0x36);
    assert (p3 + [0x34]) + [0x35] == p3 + [0x34, 0x35];
    assert (p3 + [0x34, 0x35]) + [0x36] == [0x31, 0x32, 0x33, 0x34, 0x35, 0x36];
  }

  /** The catalogue check value of CRC-8/SMBUS: the ASCII digits "123456789" give 0xF4. */
  lemma Crc8CheckValue()
    ensures Crc8([0x31, 0x32, 0x33, 0x34, 0x35, 0x36, 0x37, 0x38, 0x39]) == 0xF4
  {
    var p6: seq<bv8> := [0x31, 0x32, 0x33, 0x34, 0x35, 0x36];
    CheckValuePrefix6();
    CheckValueSteps3();
    Crc8Append(p6, 0x37);
    Crc8Append(p6 + [0x37], 0x38);
    Crc8Append(p6 + [0x37, 0x38], 0x39);
    assert (p6 + [0x37]) + [0x38] == p6 + [0x37, 0x38];
    assert (p6 + [0x37, 0x38]) + [0x39] == [0x31, 0x32, 0x33, 0x34, 0x35, 0x36, 0x37, 0x38, 0x39];
  }
}
