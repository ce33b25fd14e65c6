/** The host's motor parameter record (scripts/squid/motor.py): four
    unsigned 32-bit fields packed little-endian, `struct.pack("<IIII", ...)`. */
module HostMotor {
  import opened Wire

  /** `MotorParams`; the fields are Python integers. */
  datatype MotorParams = MotorParams(number: int, acceleration: int, maxSpeed: int, steps: int)

  /** `struct.error`: a field outside 0..0xFFFFFFFF cannot be packed, and
      fewer than 16 bytes cannot be unpacked. */
  datatype StructError = FieldOutOfRange | NotEnoughBytes

  const RECORD_SIZE: nat := 16

  predicate IsU32(x: int)
  {
    0 <= x < 0x1_0000_0000
  }

  /** Every field fits an unsigned 32-bit word. */
  predicate Packable(p: MotorParams)
  {
    IsU32(p.number) && IsU32(p.acceleration) && IsU32(p.maxSpeed) && IsU32(p.steps)
  }

  /** `struct.pack("<I", x)` for x in range. */
  function PackU32(x: int): seq<bv8>
    requires IsU32(x)
  {
    LeBytes(x)
  }

  /** `MotorParams.to_bytes`. */
  function ToBytes(p: MotorParams): (r: Result<seq<bv8>, StructError>)
    ensures r.Ok? <==> Packable(p)
    ensures r.Ok? ==> |r.value| == RECORD_SIZE
  {
    if !Packable(p) then Err(FieldOutOfRange)
    else Ok(PackU32(p.number) + PackU32(p.acceleration) + PackU32(p.maxSpeed) + PackU32(p.steps))
  }

  /** `MotorParams.from_bytes`: only the first 16 bytes are read. */
  function FromBytes(data: seq<bv8>): (r: Result<MotorParams, StructError>)
    ensures r.Err? <==> |data| < RECORD_SIZE
    ensures r.Ok? ==> Packable(r.value)
  {
    if |data| < RECORD_SIZE then Err(NotEnoughBytes)
    else Ok(MotorParams(LeWordAt(data, 0) as int, LeWordAt(data, 4) as int,
                        LeWordAt(data, 8) as int, LeWordAt(data, 12) as int))
  }

  /** Reading back a packed field gives the field. */
  lemma UnpackPacked(data: seq<bv8>, off: nat, x: int)
    requires IsU32(x) && off + 4 <= |data| && data[off..off + 4] == PackU32(x)
    ensures LeWordAt(data, off) as int == x
  {
    LeWordOfBytes(x, data, off);
  }

  /** Round trip: every record whose fields fit 32 bits comes back from its
      encoding unchanged. */
  lemma FromBytesOfToBytes(p: MotorParams)
    requires Packable(p)
    ensures FromBytes(ToBytes(p).value) == Ok(p)
  {
    var r := ToBytes(p).value;
    assert r[0..4] == PackU32(p.number);
    assert r[4..8] == PackU32(p.acceleration);
    assert r[8..12] == PackU32(p.maxSpeed);
    assert r[12..16] == PackU32(p.steps);
    UnpackPacked(r, 0, p.number);
    UnpackPacked(r, 4, p.acceleration);
    UnpackPacked(r, 8, p.maxSpeed);
    UnpackPacked(r, 12, p.steps);
  }

  /** The fields decoded from a record are the words of its four 4-byte
      slices. */
  lemma DecodedFields(data: seq<bv8>, p: MotorParams)
    requires |data| >= RECORD_SIZE && FromBytes(data) == Ok(p)
    ensures PackU32(p.number) == data[0..4] && PackU32(p.acceleration) == data[4..8]
    ensures PackU32(p.maxSpeed) == data[8..12] && PackU32(p.steps) == data[12..16]
  {
    LeBytesOfWord(data, 0);
    LeBytesOfWord(data, 4);
    LeBytesOfWord(data, 8);
    LeBytesOfWord(data, 12);
  }

  /** Only the first 16 bytes are read. */
  lemma FromBytesReadsHead(data: seq<bv8>, head: seq<bv8>)
    requires |data| >= RECORD_SIZE && head == data[..RECORD_SIZE]
    ensures FromBytes(data) == FromBytes(head)
  {
    assert data[0] == head[0] && data[1] == head[1] && data[2] == head[2] && data[3] == head[3];
    assert data[4] == head[4] && data[5] == head[5] && data[6] == head[6] && data[7] == head[7];
    assert data[8] == head[8] && data[9] == head[9] && data[10] == head[10] && data[11] == head[11];
    assert data[12] == head[12] && data[13] == head[13] && data[14] == head[14] && data[15] == head[15];
  }

  /** A 16-byte string is the concatenation of its four 4-byte slices. */
  lemma FourSlices(r: seq<bv8>)
    requires |r| == RECORD_SIZE
    ensures r == r[0..4] + r[4..8] + r[8..12] + r[12..16]
  {
  }

  /** Decoding ignores everything after the first 16 bytes, and encoding the
      result gives those 16 bytes back. */
  lemma ToBytesOfFromBytes(data: seq<bv8>)
    requires |data| >= RECORD_SIZE
    ensures FromBytes(data) == FromBytes(data[..RECORD_SIZE])
    ensures ToBytes(FromBytes(data).value) == Ok(data[..RECORD_SIZE])
  {
    var head := data[..RECORD_SIZE];
    FromBytesReadsHead(data, head);
    DecodedFields(head, FromBytes(head).value);
    FourSlices(head);
  }

  /** The example of tests/test_motor.py: the bytes 01000000 f4010000
      e8030000 88130000 unpack to (1, 500, 1000, 5000), so by
      ToBytesOfFromBytes that record packs to exactly those bytes. */
  lemma BasicParamsDecodeExample()
    ensures FromBytes([0x01, 0x00, 0x00, 0x00, 0xf4, 0x01, 0x00, 0x00,
                       0xe8, 0x03, 0x00, 0x00, 0x88, 0x13, 0x00, 0x00]) == Ok(MotorParams(1, 500, 1000, 5000))
  {
  }
}
