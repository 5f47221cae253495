/**
 The 16-byte binary record the sensor device yields and its decoding into a
 measurement (time stamp, type number, reading), as `Reader._run` does it.
 Layout, least significant byte first:
   bytes 0..7   unsigned time stamp
   bytes 8..11  unsigned type number
   bytes 12..15 the reading, a single-precision float kept here as its raw bytes
 */
module Record {
  import opened Bytes

  const RecordSize: nat := 16

  /** A decoded record. The reading stays the four bytes the float is made of. */
  datatype Measurement = Measurement(time: nat, typeNum: nat, reading: seq<byte>)

  /** What a decoded record can hold: a 64-bit time stamp, a 32-bit type number, four reading bytes. */
  predicate WellFormed(m: Measurement)
  {
    m.time < Pow2(64) && m.typeNum < Pow2(32) && |m.reading| == 4
  }

  /** The reader's decoding: the time stamp and the type number are assembled
      by or-ing shifted bytes, the last four bytes are the reading. */
  function Decode(buf: seq<byte>): (m: Measurement)
    requires |buf| == RecordSize
    ensures m.time == LeValue(buf[..8]) && m.time < Pow2(64)
    ensures m.typeNum == LeValue(buf[8..12]) && m.typeNum < Pow2(32)
    ensures m.reading == buf[12..]
    ensures WellFormed(m)
  {
    OrFoldIsLeValue(buf, 0, 8);
    OrFoldIsLeValue(buf, 8, 4);
    assert buf[0..8] == buf[..8];
    Measurement(OrFold(buf, 0, 8), OrFold(buf, 8, 4), buf[|buf| - 4..])
  }

  /** The record a device would emit for `m`: the inverse of `Decode`. */
  function Encode(m: Measurement): (buf: seq<byte>)
    requires WellFormed(m)
    ensures |buf| == RecordSize
  {
    LeEncode(m.time, 8) + LeEncode(m.typeNum, 4) + m.reading
  }

  lemma DecodeEncode(m: Measurement)
    requires WellFormed(m)
    ensures Decode(Encode(m)) == m
  {
    var buf := Encode(m);
    assert buf[..8] == LeEncode(m.time, 8);
    assert buf[8..12] == LeEncode(m.typeNum, 4);
    assert buf[12..] == m.reading;
    LeValueOfEncode(m.time, 8);
    LeValueOfEncode(m.typeNum, 4);
  }

  lemma EncodeDecode(buf: seq<byte>)
    requires |buf| == RecordSize
    ensures Encode(Decode(buf)) == buf
  {
    LeEncodeOfValue(buf[..8]);
    LeEncodeOfValue(buf[8..12]);
    assert buf == buf[..8] + buf[8..12] + buf[12..];
  }

  /** Each field depends on its own bytes only. */
  lemma FieldsIndependent(a: seq<byte>, b: seq<byte>)
    requires |a| == RecordSize && |b| == RecordSize
    ensures a[..8] == b[..8] ==> Decode(a).time == Decode(b).time
    ensures a[8..12] == b[8..12] ==> Decode(a).typeNum == Decode(b).typeNum
    ensures a[12..] == b[12..] ==> Decode(a).reading == Decode(b).reading
  {
  }

  /** Time stamp 1, type number 5, and the reading bytes carried through. */
  lemma DecodeExample(reading: seq<byte>)
    requires |reading| == 4
    ensures Decode([1, 0, 0, 0, 0, 0, 0, 0, 5, 0, 0, 0] + reading) == Measurement(1, 5, reading)
  {
    var buf: seq<byte> := [1, 0, 0, 0, 0, 0, 0, 0, 5, 0, 0, 0] + reading;
    assert buf[..8] == LeEncode(1, 8);
    assert buf[8..12] == LeEncode(5, 4);
    Pow2Byte(3);
    Pow2Byte(7);
    LeValueOfEncode(1, 8);
    LeValueOfEncode(5, 4);
  }
}
