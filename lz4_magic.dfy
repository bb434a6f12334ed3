// The LZ4 matcher the program registers with its file-type detector
// (main.go, `lz4Func` in `init`). An LZ4 frame starts with the 32-bit magic
// number 0x184D2204 stored little-endian ("Magic Number" field of the LZ4
// Frame Format Description); the matcher tests the four bytes one by one.
module Lz4Magic {

  type Byte = x: int | 0 <= x < 0x100

  /** The LZ4 frame magic number. */
  const MagicNumber: int := 0x184D2204

  /** `lz4Func`: more than three bytes, and bytes 3, 2, 1, 0 are 0x18, 0x4D,
      0x22, 0x04 (tested in that order by the source). */
  function IsLz4(buf: seq<Byte>): (accepted: bool)
    ensures accepted <==> |buf| >= 4 && buf[..4] == [0x04, 0x22, 0x4D, 0x18]
  {
    |buf| > 3 && buf[3] == 0x18 && buf[2] == 0x4D && buf[1] == 0x22 && buf[0] == 0x04
  }

  /** The four bytes of a 32-bit number, least significant first. */
  function LittleEndian32(n: int): (b: seq<Byte>)
    requires 0 <= n < 0x1_0000_0000
    ensures |b| == 4
  {
    [n % 0x100, (n / 0x100) % 0x100, (n / 0x1_0000) % 0x100, n / 0x100_0000]
  }

  /** The 32-bit number four bytes encode, least significant first. */
  function FromLittleEndian32(b: seq<Byte>): (n: int)
    requires |b| == 4
    ensures 0 <= n < 0x1_0000_0000
  {
    b[0] as int + 0x100 * (b[1] as int) + 0x1_0000 * (b[2] as int) + 0x100_0000 * (b[3] as int)
  }

  /** Decoding the encoding of a 32-bit number gives the number back. */
  lemma DecodeEncode(n: int)
    requires 0 <= n < 0x1_0000_0000
    ensures FromLittleEndian32(LittleEndian32(n)) == n
  {
    var b := LittleEndian32(n);
    var n1 := n / 0x100;
    var n2 := n1 / 0x100;
    assert n == n1 * 0x100 + n % 0x100;
    assert n1 == n2 * 0x100 + n1 % 0x100;
    assert n2 == n / 0x1_0000;
    assert n2 == (n2 / 0x100) * 0x100 + n2 % 0x100;
    assert n2 / 0x100 == n / 0x100_0000;
  }

  /** Encoding the number four bytes decode to gives the bytes back, so no two
      four-byte prefixes decode to the same number. */
  lemma EncodeDecode(b: seq<Byte>)
    requires |b| == 4
    ensures LittleEndian32(FromLittleEndian32(b)) == b
  {
    var n := FromLittleEndian32(b);
    var r := LittleEndian32(n);
    assert n == b[0] as int + 0x100 * (b[1] as int + 0x100 * (b[2] as int + 0x100 * (b[3] as int)));
    assert r[0] == b[0] && n / 0x100 == b[1] as int + 0x100 * (b[2] as int + 0x100 * (b[3] as int));
    assert r[1] == b[1] && n / 0x1_0000 == b[2] as int + 0x100 * (b[3] as int);
    assert r[2] == b[2] && r[3] == b[3];
  }

  /** The matcher accepts exactly the buffers whose first four bytes are the
      little-endian encoding of the LZ4 magic number. */
  lemma MatcherIsMagicPrefix(buf: seq<Byte>)
    ensures IsLz4(buf) <==> |buf| >= 4 && buf[..4] == LittleEndian32(MagicNumber)
  {
    var magic := LittleEndian32(MagicNumber);
    assert magic == [0x04, 0x22, 0x4D, 0x18];
    if |buf| >= 4 && buf[..4] == magic {
      assert buf[0] == buf[..4][0] && buf[1] == buf[..4][1];
      assert buf[2] == buf[..4][2] && buf[3] == buf[..4][3];
    }
  }

  /** Equivalently, the matcher accepts exactly the buffers whose first four
      bytes read, little-endian, as the magic number. */
  lemma MatcherReadsMagicNumber(buf: seq<Byte>)
    ensures IsLz4(buf) <==> |buf| >= 4 && FromLittleEndian32(buf[..4]) == MagicNumber
  {
    MatcherIsMagicPrefix(buf);
    if |buf| >= 4 {
      var prefix := buf[..4];
      if FromLittleEndian32(prefix) == MagicNumber {
        EncodeDecode(prefix);
      } else {
        DecodeEncode(MagicNumber);
      }
    }
  }

  /** Buffers of three bytes or fewer are always rejected, and what follows the
      first four bytes never changes the verdict. */
  lemma MatcherLooksAtFourBytes(buf: seq<Byte>, rest: seq<Byte>)
    ensures |buf| <= 3 ==> !IsLz4(buf)
    ensures |buf| >= 4 ==> (IsLz4(buf + rest) <==> IsLz4(buf[..4]))
  {
    if |buf| >= 4 {
      assert (buf + rest)[..4] == buf[..4];
      MatcherIsMagicPrefix(buf + rest);
      MatcherIsMagicPrefix(buf[..4]);
      assert buf[..4][..4] == buf[..4];
    }
  }
}
