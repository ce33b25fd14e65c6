/** The host side of the packet protocol (scripts/squid/packet.py): a frame
    is STX, a big-endian 16-bit total length, the command byte, the data
    and the XOR of everything between STX and the checksum byte. */
module HostPacket {
  import opened Wire

  /** A decoded packet. The command is a byte: `bytes([..., command])`
      refuses anything larger. */
  datatype Packet = Packet(command: bv8, data: seq<bv8>)

  /** The reasons `Packet.from_bytes` raises `ValueError`, in the order it
      checks them. */
  datatype FrameError = TooShort | InvalidStx | LengthMismatch | TooLong | XorMismatch

  /** `(total >> 8) & 0xFF` and `total & 0xFF`. */
  function LengthHigh(total: nat): bv8
  {
    ((total / 256) % 256) as bv8
  }

  function LengthLow(total: nat): bv8
  {
    (total % 256) as bv8
  }

  /** `(h << 8) | l` */
  function BigEndian16(h: bv8, l: bv8): nat
  {
    h as nat * 256 + l as nat
  }

  /** Splitting a length below 2^16 into its two bytes and joining them
      again gives the length back. */
  lemma BigEndianSplit(n: nat)
    requires n < 0x1_0000
    ensures BigEndian16(LengthHigh(n), LengthLow(n)) == n
  {
    var q, r := n / 256, n % 256;
    DivMod256(n, q, r);
    ByteOfSmall(q);
    ByteOfSmall(r);
  }

  /** Joining two bytes and splitting the result gives the bytes back. */
  lemma BigEndianJoin(h: bv8, l: bv8)
    ensures LengthHigh(BigEndian16(h, l)) == h && LengthLow(BigEndian16(h, l)) == l
  {
    DivMod256(BigEndian16(h, l), h as nat, l as nat);
    assert (h as nat) % 256 == h as nat;
  }

  /** `Packet.to_bytes`. The length bytes wrap modulo 2^16 when the data is
      longer than 65530 bytes, exactly as the masks in the source do. */
  function ToBytes(p: Packet): (r: seq<bv8>)
    ensures |r| == 5 + |p.data|
    ensures r[0] == STX && r[3] == p.command && r[4..|r| - 1] == p.data
    ensures |p.data| <= 65530 ==> BigEndian16(r[1], r[2]) == |r|
    ensures r[|r| - 1] == XorFold(r[1..|r| - 1])
  {
    var total := MIN_PACKET_SIZE + |p.data|;
    var payload := [LengthHigh(total), LengthLow(total), p.command] + p.data;
    assert total < 0x1_0000 ==> BigEndian16(payload[0], payload[1]) == total by {
      if total < 0x1_0000 { BigEndianSplit(total); }
    }
    assert ([STX] + payload + [XorFold(payload)])[1..|payload| + 1] == payload;
    [STX] + payload + [XorFold(payload)]
  }

  /** The frames the protocol accepts, stated independently of the order of
      the checks: 5 to 256 bytes, STX first, a length field equal to the
      frame's length, and the XOR of all bytes after STX (the checksum byte
      included) equal to zero. */
  predicate WellFormed(f: seq<bv8>)
  {
    MIN_PACKET_SIZE <= |f| <= MAX_PACKET_SIZE && f[0] == STX &&
    BigEndian16(f[1], f[2]) == |f| && XorFold(f[1..]) == 0
  }

  /** `Packet.from_bytes`: the checks in the order the source makes them. */
  function FromBytes(data: seq<bv8>): (r: Result<Packet, FrameError>)
    ensures |data| < MIN_PACKET_SIZE ==> r == Err(TooShort)
    ensures |data| >= MIN_PACKET_SIZE && data[0] != STX ==> r == Err(InvalidStx)
    ensures (|data| >= MIN_PACKET_SIZE && data[0] == STX &&
             BigEndian16(data[1], data[2]) != |data|) ==> r == Err(LengthMismatch)
    ensures r.Ok? ==> r.value.command == data[3] && |r.value.data| == |data| - MIN_PACKET_SIZE
  {
    if |data| < MIN_PACKET_SIZE then Err(TooShort)
    else if data[0] != STX then Err(InvalidStx)
    else
      var length := BigEndian16(data[1], data[2]);
      if length != |data| then Err(LengthMismatch)
      else if length > MAX_PACKET_SIZE then Err(TooLong)
      else
        var command := data[3];
        var payload := if length > MIN_PACKET_SIZE then data[4..|data| - 1] else [];
        var received := data[|data| - 1];
        if XorFold(data[1..|data| - 1]) != received then Err(XorMismatch)
        else Ok(Packet(command, payload))
  }

  /** `from_bytes` accepts exactly the well-formed frames. */
  lemma FromBytesAcceptsWellFormed(f: seq<bv8>)
    ensures FromBytes(f).Ok? <==> WellFormed(f)
  {
    if |f| >= MIN_PACKET_SIZE {
      assert f[1..] == f[1..|f| - 1] + [f[|f| - 1]];
      XorFoldAppend(f[1..|f| - 1], [f[|f| - 1]]);
      assert XorFold([f[|f| - 1]]) == f[|f| - 1] by {
        assert [f[|f| - 1]][..0] == [];
      }
    }
  }

  /** A frame made of STX, the header and data of p, and their checksum is
      the encoding of p. */
  lemma ToBytesOfParts(p: Packet, mid: seq<bv8>, f: seq<bv8>)
    requires mid == [LengthHigh(MIN_PACKET_SIZE + |p.data|), LengthLow(MIN_PACKET_SIZE + |p.data|), p.command] + p.data
    requires f == [STX] + mid + [XorFold(mid)]
    ensures ToBytes(p) == f
  {
  }

  /** What an accepted frame is made of. */
  lemma FromBytesParts(f: seq<bv8>, p: Packet, mid: seq<bv8>)
    requires FromBytes(f) == Ok(p) && |f| >= 2 && mid == f[1..|f| - 1]
    ensures BigEndian16(f[1], f[2]) == |f| == MIN_PACKET_SIZE + |p.data|
    ensures mid == [f[1], f[2], p.command] + p.data
    ensures f == [STX] + mid + [XorFold(mid)]
  {
    assert f == [f[0]] + mid + [f[|f| - 1]];
  }

  /** Every frame `from_bytes` accepts is the encoding of the packet it
      returns: the decoder loses nothing. */
  lemma ToBytesOfFromBytes(f: seq<bv8>)
    requires FromBytes(f).Ok?
    ensures ToBytes(FromBytes(f).value) == f
  {
    var p := FromBytes(f).value;
    FromBytesParts(f, p, f[1..|f| - 1]);
    BigEndianJoin(f[1], f[2]);
    ToBytesOfParts(p, f[1..|f| - 1], f);
  }

  /** Round trip: decoding an encoded packet gives it back, for every
      command and every data of at most 251 bytes. */
  lemma FromBytesOfToBytes(p: Packet)
    requires |p.data| <= MAX_PACKET_SIZE - MIN_PACKET_SIZE
    ensures FromBytes(ToBytes(p)) == Ok(p)
  {
    var f := ToBytes(p);
    assert f[1..] == f[1..|f| - 1] + [XorFold(f[1..|f| - 1])];
    XorFoldWithChecksum(f[1..|f| - 1]);
    FromBytesAcceptsWellFormed(f);
    assert p.data == [] ==> f[4..|f| - 1] == [];
  }

  /** A frame assembled from STX, a header for data of at most 251 bytes,
      the data and its checksum is well formed and decodes to that packet. */
  lemma FrameOfParts(f: seq<bv8>, mid: seq<bv8>, command: bv8, data: seq<bv8>)
    requires |data| <= MAX_PACKET_SIZE - MIN_PACKET_SIZE
    requires mid == [LengthHigh(MIN_PACKET_SIZE + |data|), LengthLow(MIN_PACKET_SIZE + |data|), command] + data
    requires f == [STX] + mid + [XorFold(mid)]
    ensures WellFormed(f) && FromBytes(f) == Ok(Packet(command, data))
  {
    ToBytesOfParts(Packet(command, data), mid, f);
    FromBytesOfToBytes(Packet(command, data));
    FromBytesAcceptsWellFormed(f);
  }

  /** In a well-formed frame the last byte is the checksum of the bytes
      between STX and it. */
  lemma LastByteIsChecksum(f: seq<bv8>, mid: seq<bv8>)
    requires WellFormed(f) && mid == f[1..|f| - 1]
    ensures XorFold(mid) == f[|f| - 1]
  {
    assert f[1..] == mid + [f[|f| - 1]];
    XorFoldSnoc(mid, f[|f| - 1]);
  }

  /** Longer data cannot travel in one frame: its encoding is refused. */
  lemma ToBytesTooLongRefused(p: Packet)
    requires |p.data| > MAX_PACKET_SIZE - MIN_PACKET_SIZE
    ensures FromBytes(ToBytes(p)).Err?
  {
    FromBytesAcceptsWellFormed(ToBytes(p));
  }

  /** Corrupting byte i >= 1 of a frame g into f flips the same bits of
      the fold of everything after STX. */
  lemma XorFoldFlipTail(f: seq<bv8>, g: seq<bv8>, tail: seq<bv8>, gtail: seq<bv8>, i: nat, m: bv8)
    requires 1 <= i < |f| && g == f[i := f[i] ^ m] && tail == f[1..] && gtail == g[1..]
    ensures XorFold(gtail) == XorFold(tail) ^ m
  {
    assert gtail == tail[i - 1 := tail[i - 1] ^ m];
    XorFoldFlip(tail, gtail, i - 1, m);
  }

  /** Any corruption of one byte after STX of an accepted frame (a non-zero
      XOR mask m applied to byte i) makes the frame rejected. */
  lemma SingleByteCorruptionDetected(f: seq<bv8>, i: nat, m: bv8)
    requires WellFormed(f) && 1 <= i < |f| && m != 0
    ensures FromBytes(f[i := f[i] ^ m]).Err?
  {
    XorFoldFlipTail(f, f[i := f[i] ^ m], f[1..], f[i := f[i] ^ m][1..], i, m);
    FromBytesAcceptsWellFormed(f[i := f[i] ^ m]);
  }

  /** The examples of tests/test_packet.py: the VERSION command (0x01) with
      no data encodes to 02 00 05 01 04, and a frame whose checksum byte is
      wrong is refused. */
  lemma VersionFrameExample()
    ensures ToBytes(Packet(0x01, [])) == [0x02, 0x00, 0x05, 0x01, 0x04]
    ensures FromBytes([0x02, 0x00, 0x05, 0x01, 0xFF]) == Err(XorMismatch)
  {
    var p: seq<bv8> := [0x00, 0x05, 0x01];
    var p2: seq<bv8> := [0x00, 0x05];
    var p1: seq<bv8> := [0x00];
    var p0: seq<bv8> := [];
    assert p[..2] == p2 && p2[..1] == p1 && p1[..0] == p0;
    assert XorFold(p1) == 0x00;
    assert XorFold(p2) == 0x05;
    assert LengthHigh(5) == 0x00 && LengthLow(5) == 0x05;
    assert [LengthHigh(5), LengthLow(5), 0x01] + [] == p;
    var f: seq<bv8> := [0x02, 0x00, 0x05, 0x01, 0x04];
    assert ToBytes(Packet(0x01, [])) == f;
    var q: seq<bv8> := [0x02, 0x00, 0x05, 0x01, 0xFF];
    assert q[1..|q| - 1] == p;
  }
}
