/** The firmware's byte-at-a-time packet parser (src/protocol.cpp). The
    parser is specified by a step function on a value `ParserState`; the
    class `PacketParser` keeps the same fields, its data bytes in a
    256-byte array, and each of its methods is proved to move the state as
    the step function does. */
module Protocol {
  import opened Wire
  import opened HostPacket

  datatype Phase = WaitStx | WaitLengthH | WaitLengthL | WaitCmd | WaitData | WaitXor | PacketReady

  /** The fields of `PacketParser`; `buffer` holds the 256 bytes of the
      data array. The 16-bit counters never exceed 256 (see `Inv`), so
      they are kept as `nat`. */
  datatype ParserState = ParserState(
    phase: Phase,
    expectedLength: nat,
    receivedBytes: nat,
    dataIndex: nat,
    command: bv8,
    calculatedXor: bv8,
    buffer: seq<bv8>)

  /** The state `reset()` leaves: waiting for STX, every counter and every
      buffer byte zero. */
  function Cleared(): (p: ParserState)
    ensures |p.buffer| == MAX_PACKET_SIZE && p.phase == WaitStx
  {
    ParserState(WaitStx, 0, 0, 0, 0, 0, seq(MAX_PACKET_SIZE, _ => 0))
  }

  /** The bytes the parser has taken to the frame between its field values:
      the length bytes and the command are the high and low bytes of
      `expectedLength` and `command`. */
  function Header(p: ParserState): seq<bv8>
  {
    [LengthHigh(p.expectedLength), LengthLow(p.expectedLength), p.command]
  }

  /** After the high length byte: `expectedLength` is that byte shifted
      left by 8 and the running XOR is that byte. */
  ghost predicate LengthLInv(p: ParserState)
  {
    p.expectedLength % 256 == 0 && p.expectedLength < 0x1_0000 &&
    p.calculatedXor == LengthHigh(p.expectedLength)
  }

  /** After both length bytes: the length lies in 5..256 and the running
      XOR is that of the two length bytes. */
  ghost predicate CmdInv(p: ParserState)
  {
    MIN_PACKET_SIZE <= p.expectedLength <= MAX_PACKET_SIZE &&
    p.calculatedXor == LengthHigh(p.expectedLength) ^ LengthLow(p.expectedLength)
  }

  /** Once the command has arrived: the running XOR covers the header and
      the data stored so far. */
  ghost predicate BodyInv(p: ParserState)
  {
    |p.buffer| == MAX_PACKET_SIZE &&
    MIN_PACKET_SIZE <= p.expectedLength <= MAX_PACKET_SIZE &&
    p.dataIndex <= p.expectedLength - MIN_PACKET_SIZE &&
    p.calculatedXor == XorFold(Header(p) + p.buffer[..p.dataIndex])
  }

  /** What holds of the parser's fields in every phase it can reach. */
  ghost predicate Inv(p: ParserState)
  {
    |p.buffer| == MAX_PACKET_SIZE &&
    match p.phase
    case WaitStx => true
    case WaitLengthH => true
    case WaitLengthL => LengthLInv(p)
    case WaitCmd => CmdInv(p)
    case WaitData =>
      BodyInv(p) && p.receivedBytes == 4 + p.dataIndex < p.expectedLength - 1
    case WaitXor =>
      BodyInv(p) && p.dataIndex == p.expectedLength - MIN_PACKET_SIZE &&
      p.receivedBytes == p.expectedLength - 1
    case PacketReady =>
      BodyInv(p) && p.dataIndex == p.expectedLength - MIN_PACKET_SIZE &&
      p.receivedBytes == p.expectedLength
  }

  /** Adding a byte b to a 16-bit value n whose low byte is zero gives a
      value m whose low byte is b and whose high byte is that of n. */
  lemma SetLowByte(n: nat, b: bv8, m: nat)
    requires n % 256 == 0 && n < 0x1_0000 && m == n + b as nat
    ensures LengthHigh(m) == LengthHigh(n) && LengthLow(m) == b
    ensures BigEndian16(LengthHigh(n), b) == m
  {
    BigEndianSplit(n);
    assert LengthLow(n) == 0;
    BigEndianJoin(LengthHigh(n), b);
  }

  /** `processByte` in WAIT_LENGTH_H: the byte is the high byte of the
      length and starts the running XOR. */
  function TakeLengthHigh(p: ParserState, b: bv8): ParserState
  {
    p.(expectedLength := b as nat * 256, calculatedXor := b,
       phase := WaitLengthL, receivedBytes := 2)
  }

  /** `processByte` in WAIT_LENGTH_L once the length is known to lie in
      5..256: `expectedLength |= byte`, where the low byte is still zero
      (`LengthLInv`), so the OR adds the byte. */
  function TakeLengthLow(p: ParserState, b: bv8): ParserState
  {
    p.(expectedLength := p.expectedLength + b as nat, calculatedXor := p.calculatedXor ^ b,
       receivedBytes := 3, phase := WaitCmd)
  }

  /** `processByte` in WAIT_CMD: the command byte; a 5-byte frame has no
      data and goes straight to the checksum. */
  function TakeCommand(p: ParserState, b: bv8): ParserState
  {
    p.(command := b, calculatedXor := p.calculatedXor ^ b,
       receivedBytes := 4, dataIndex := 0,
       phase := if p.expectedLength == MIN_PACKET_SIZE then WaitXor else WaitData)
  }

  /** `processByte` in WAIT_DATA: the byte is stored at `dataIndex`; after
      the last data byte the checksum is awaited. */
  function TakeData(p: ParserState, b: bv8): ParserState
    requires p.dataIndex < |p.buffer|
  {
    p.(buffer := p.buffer[p.dataIndex := b], dataIndex := p.dataIndex + 1,
       calculatedXor := p.calculatedXor ^ b, receivedBytes := p.receivedBytes + 1,
       phase := if p.receivedBytes + 1 == p.expectedLength - 1 then WaitXor else WaitData)
  }

  /** `processByte`: the next state and whether a complete packet with a
      matching checksum has just been received. A ready parser ignores
      every byte until it is reset. */
  function Step(p: ParserState, b: bv8): (r: (ParserState, bool))
    requires Inv(p)
    ensures r.1 <==> p.phase == WaitXor && b == p.calculatedXor
    ensures r.1 ==> r.0.phase == PacketReady
    ensures p.phase == PacketReady ==> r == (p, false)
  {
    match p.phase
    case WaitStx =>
      if b == STX then (p.(phase := WaitLengthH, receivedBytes := 1), false)
      else (p, false)
    case WaitLengthH => (TakeLengthHigh(p, b), false)
    case WaitLengthL =>
      // a length outside 5..256 resets the parser
      var length := p.expectedLength + b as nat;
      if length < MIN_PACKET_SIZE || length > MAX_PACKET_SIZE then (Cleared(), false)
      else (TakeLengthLow(p, b), false)
    case WaitCmd => (TakeCommand(p, b), false)
    case WaitData => (TakeData(p, b), false)
    case WaitXor =>
      if p.calculatedXor == b then (p.(receivedBytes := p.receivedBytes + 1, phase := PacketReady), true)
      else (Cleared(), false)
    case PacketReady =>
      (p, false)
  }

  lemma TakeLengthHighInv(p: ParserState, b: bv8)
    requires Inv(p) && p.phase == WaitLengthH
    ensures Inv(TakeLengthHigh(p, b)) && LengthHigh(TakeLengthHigh(p, b).expectedLength) == b
  {
    BigEndianJoin(b, 0);
  }

  lemma TakeLengthLowInv(p: ParserState, b: bv8)
    requires Inv(p) && p.phase == WaitLengthL
    requires MIN_PACKET_SIZE <= p.expectedLength + b as nat <= MAX_PACKET_SIZE
    ensures Inv(TakeLengthLow(p, b))
    ensures Header(TakeLengthLow(p, b))[..2] == [LengthHigh(p.expectedLength), b]
  {
    LowByteArrives(p, TakeLengthLow(p, b), b);
  }

  lemma LowByteArrives(p: ParserState, q: ParserState, b: bv8)
    requires LengthLInv(p) && q == TakeLengthLow(p, b)
    requires MIN_PACKET_SIZE <= q.expectedLength <= MAX_PACKET_SIZE
    ensures CmdInv(q) && Header(q)[..2] == [LengthHigh(p.expectedLength), b]
  {
    SetLowByte(p.expectedLength, b, q.expectedLength);
  }

  lemma TakeCommandInv(p: ParserState, b: bv8)
    requires Inv(p) && p.phase == WaitCmd
    ensures Inv(TakeCommand(p, b))
  {
    var q := TakeCommand(p, b);
    assert Header(q) + q.buffer[..0] == [LengthHigh(p.expectedLength), LengthLow(p.expectedLength), b];
    XorFoldThree(LengthHigh(p.expectedLength), LengthLow(p.expectedLength), b);
  }

  /** Storing a byte at the data index extends the stored data, and the
      running XOR, by that byte. */
  lemma StoreByte(header: seq<bv8>, buf: seq<bv8>, i: nat, b: bv8)
    requires i < |buf|
    ensures buf[i := b][..i + 1] == buf[..i] + [b]
    ensures XorFold(header + buf[i := b][..i + 1]) == XorFold(header + buf[..i]) ^ b
  {
    assert header + buf[i := b][..i + 1] == (header + buf[..i]) + [b];
  }

  lemma TakeDataInv(p: ParserState, b: bv8)
    requires Inv(p) && p.phase == WaitData
    ensures Inv(TakeData(p, b))
  {
    TakeDataBody(p, b);
  }

  lemma TakeDataBody(p: ParserState, b: bv8)
    requires BodyInv(p) && p.phase == WaitData
    requires p.receivedBytes == 4 + p.dataIndex < p.expectedLength - 1
    ensures BodyInv(TakeData(p, b))
  {
    StoreByte(Header(p), p.buffer, p.dataIndex, b);
  }

  /** Every step keeps the parser's invariant; in particular the data
      index never leaves the 256-byte buffer. */
  lemma StepPreservesInv(p: ParserState, b: bv8)
    requires Inv(p)
    ensures Inv(Step(p, b).0)
  {
    match p.phase
    case WaitStx =>
    case WaitLengthH => TakeLengthHighInv(p, b);
    case WaitLengthL =>
      if MIN_PACKET_SIZE <= p.expectedLength + b as nat <= MAX_PACKET_SIZE {
        TakeLengthLowInv(p, b);
      }
    case WaitCmd => TakeCommandInv(p, b);
    case WaitData => TakeDataInv(p, b);
    case WaitXor =>
    case PacketReady =>
  }

  /** The state after feeding the bytes one by one, the last byte last. */
  function Run(p: ParserState, bs: seq<bv8>): (r: ParserState)
    requires Inv(p)
    ensures Inv(r)
    decreases |bs|
  {
    if bs == [] then p
    else
      var q := Run(p, bs[..|bs| - 1]);
      StepPreservesInv(q, bs[|bs| - 1]);
      Step(q, bs[|bs| - 1]).0
  }

  /** The bytes of the frame the parser is in the middle of: nothing while
      it waits for STX, and up to the whole frame once it is ready (the
      checksum byte is the running XOR it matched). */
  function Consumed(p: ParserState): (c: seq<bv8>)
    requires Inv(p)
    ensures |c| <= MAX_PACKET_SIZE
  {
    match p.phase
    case WaitStx => []
    case WaitLengthH => [STX]
    case WaitLengthL => [STX, LengthHigh(p.expectedLength)]
    case WaitCmd => [STX] + Header(p)[..2]
    case WaitData => [STX] + Header(p) + p.buffer[..p.dataIndex]
    case WaitXor => [STX] + Header(p) + p.buffer[..p.dataIndex]
    case PacketReady => [STX] + Header(p) + p.buffer[..p.dataIndex] + [p.calculatedXor]
  }

  lemma ConsumedAfterLengthLow(p: ParserState, b: bv8)
    requires Inv(p) && p.phase == WaitLengthL
    requires MIN_PACKET_SIZE <= p.expectedLength + b as nat <= MAX_PACKET_SIZE
    ensures Inv(TakeLengthLow(p, b)) && Consumed(TakeLengthLow(p, b)) == Consumed(p) + [b]
  {
    TakeLengthLowInv(p, b);
    var q := TakeLengthLow(p, b);
    assert Consumed(q) == [STX] + Header(q)[..2];
  }

  lemma ConsumedAfterCommand(p: ParserState, b: bv8)
    requires Inv(p) && p.phase == WaitCmd
    ensures Inv(TakeCommand(p, b)) && Consumed(TakeCommand(p, b)) == Consumed(p) + [b]
  {
    TakeCommandInv(p, b);
    var q := TakeCommand(p, b);
    assert Header(q)[..2] == Header(p)[..2];
    assert q.buffer[..0] == [];
    assert Consumed(q) == [STX] + Header(q) + q.buffer[..0];
  }

  lemma ConsumedAfterData(p: ParserState, b: bv8)
    requires Inv(p) && p.phase == WaitData
    ensures Inv(TakeData(p, b)) && Consumed(TakeData(p, b)) == Consumed(p) + [b]
  {
    TakeDataInv(p, b);
    var q := TakeData(p, b);
    StoreByte(Header(p), p.buffer, p.dataIndex, b);
    assert Header(q) == Header(p);
    assert Consumed(q) == [STX] + Header(q) + q.buffer[..q.dataIndex];
  }

  lemma ConsumedAfterChecksum(p: ParserState, q: ParserState)
    requires Inv(p) && p.phase == WaitXor
    requires q == p.(receivedBytes := p.receivedBytes + 1, phase := PacketReady)
    ensures Inv(q) && Consumed(q) == Consumed(p) + [p.calculatedXor]
  {
    assert Header(q) == Header(p);
  }

  /** Each byte either restarts the frame, is ignored by a ready parser, or
      is appended to the frame in progress. */
  lemma StepConsumed(p: ParserState, b: bv8)
    requires Inv(p)
    ensures Inv(Step(p, b).0)
    ensures var q := Step(p, b).0;
      q.phase == WaitStx || (p.phase == PacketReady && q == p) ||
      (p.phase != PacketReady && Consumed(q) == Consumed(p) + [b])
  {
    StepPreservesInv(p, b);
    match p.phase
    case WaitStx =>
    case WaitLengthH =>
    case WaitLengthL =>
      if MIN_PACKET_SIZE <= p.expectedLength + b as nat <= MAX_PACKET_SIZE {
        ConsumedAfterLengthLow(p, b);
      }
    case WaitCmd =>
      ConsumedAfterCommand(p, b);
    case WaitData =>
      ConsumedAfterData(p, b);
    case WaitXor =>
    case PacketReady =>
  }

  /** A ready parser holds a well-formed frame, and its command and data
      are those the host decoder reads from that frame. */
  lemma ReadyHoldsFrame(p: ParserState)
    requires Inv(p) && p.phase == PacketReady
    ensures WellFormed(Consumed(p))
    ensures FromBytes(Consumed(p)) == Ok(Packet(p.command, p.buffer[..p.dataIndex]))
  {
    FrameOfParts(Consumed(p), Header(p) + p.buffer[..p.dataIndex], p.command, p.buffer[..p.dataIndex]);
  }

  /** c is the end of bs. */
  predicate SuffixOf(c: seq<bv8>, bs: seq<bv8>)
  {
    |c| <= |bs| && bs[|bs| - |c|..] == c
  }

  function SliceAt(bs: seq<bv8>, i: int, n: nat): seq<bv8>
    requires 0 <= i <= |bs| - n
  {
    bs[i..i + n]
  }

  /** c is a run of consecutive elements of bs. */
  predicate SegmentOf(c: seq<bv8>, bs: seq<bv8>)
  {
    exists i :: 0 <= i <= |bs| - |c| && SliceAt(bs, i, |c|) == c
  }

  lemma SegmentGrows(c: seq<bv8>, init: seq<bv8>, bs: seq<bv8>, b: bv8)
    requires SegmentOf(c, init) && bs == init + [b]
    ensures SegmentOf(c, bs)
  {
    var i :| 0 <= i <= |init| - |c| && SliceAt(init, i, |c|) == c;
    assert SliceAt(bs, i, |c|) == SliceAt(init, i, |c|);
  }

  lemma SuffixGrows(c: seq<bv8>, init: seq<bv8>, bs: seq<bv8>, b: bv8)
    requires SuffixOf(c, init) && bs == init + [b]
    ensures SuffixOf(c + [b], bs)
  {
    assert bs[|bs| - |c + [b]|..] == init[|init| - |c|..] + [b];
  }

  lemma SuffixIsSegment(c: seq<bv8>, bs: seq<bv8>)
    requires SuffixOf(c, bs)
    ensures SegmentOf(c, bs)
  {
    assert SliceAt(bs, |bs| - |c|, |c|) == c;
  }

  /** The frame in progress is made of the most recent input bytes; once
      the parser is ready, it is a run of consecutive input bytes. */
  ghost predicate FromInput(q: ParserState, bs: seq<bv8>)
    requires Inv(q)
  {
    if q.phase == PacketReady then SegmentOf(Consumed(q), bs) else SuffixOf(Consumed(q), bs)
  }

  lemma FromInputStep(q: ParserState, q': ParserState, b: bv8, init: seq<bv8>, bs: seq<bv8>)
    requires Inv(q) && Inv(q') && FromInput(q, init) && bs == init + [b]
    requires q'.phase == WaitStx || (q.phase == PacketReady && q' == q) ||
      (q.phase != PacketReady && Consumed(q') == Consumed(q) + [b])
    ensures FromInput(q', bs)
  {
    if q'.phase == WaitStx {
    } else if q.phase == PacketReady {
      SegmentGrows(Consumed(q), init, bs, b);
    } else {
      SuffixGrows(Consumed(q), init, bs, b);
      if q'.phase == PacketReady {
        SuffixIsSegment(Consumed(q'), bs);
      }
    }
  }

  lemma {:induction false} ConsumedFromInput(p: ParserState, bs: seq<bv8>)
    requires Inv(p) && p.phase == WaitStx
    ensures FromInput(Run(p, bs), bs)
    decreases |bs|
  {
    if bs != [] {
      var init := bs[..|bs| - 1];
      ConsumedFromInput(p, init);
      assert bs == init + [bs[|bs| - 1]];
      StepConsumed(Run(p, init), bs[|bs| - 1]);
      FromInputStep(Run(p, init), Run(p, bs), bs[|bs| - 1], init, bs);
    }
  }

  /** Soundness of the parser: whenever it is ready, some consecutive input
      bytes form a well-formed frame that the host decoder reads as the
      parser's command and data. */
  lemma ParserReadsOnlyFrames(bs: seq<bv8>)
    ensures var q := Run(Cleared(), bs);
      q.phase == PacketReady ==>
        SegmentOf(Consumed(q), bs) && WellFormed(Consumed(q)) &&
        FromBytes(Consumed(q)) == Ok(Packet(q.command, q.buffer[..q.dataIndex]))
  {
    ConsumedFromInput(Cleared(), bs);
    var q := Run(Cleared(), bs);
    if q.phase == PacketReady {
      ReadyHoldsFrame(q);
    }
  }

  /** The phase the parser is in after the first k bytes of an n-byte frame. */
  function PhaseAfter(k: nat, n: nat): Phase
  {
    if k == 0 then WaitStx
    else if k == 1 then WaitLengthH
    else if k == 2 then WaitLengthL
    else if k == 3 then WaitCmd
    else if k < n - 1 then WaitData
    else if k == n - 1 then WaitXor
    else PacketReady
  }

  /** q has taken the first k bytes of frame f, and nothing else. */
  ghost predicate HoldsPrefix(q: ParserState, f: seq<bv8>, k: nat)
    requires k <= |f|
  {
    Inv(q) && q.phase == PhaseAfter(k, |f|) && Consumed(q) == f[..k] &&
    (3 <= k ==> q.expectedLength == |f|)
  }

  lemma RunPrefixStep(p: ParserState, f: seq<bv8>, k: nat)
    requires Inv(p) && 1 <= k <= |f|
    ensures Run(p, f[..k]) == Step(Run(p, f[..k - 1]), f[k - 1]).0
  {
    assert f[..k][..k - 1] == f[..k - 1];
  }

  lemma PrefixExtends(f: seq<bv8>, k: nat, c: seq<bv8>)
    requires k < |f| && c == f[..k]
    ensures c + [f[k]] == f[..k + 1]
  {
  }

  lemma PrefixTail(f: seq<bv8>, mid: seq<bv8>, x: bv8)
    requires 1 <= |f| && [x] + mid == f[..|f| - 1]
    ensures mid == f[1..|f| - 1]
  {
    assert mid == ([x] + mid)[1..];
  }

  /** After all of a well-formed frame but its last byte, the running XOR is
      that last byte. */
  lemma ChecksumMatches(q: ParserState, f: seq<bv8>)
    requires WellFormed(f) && HoldsPrefix(q, f, |f| - 1)
    ensures q.phase == WaitXor && q.calculatedXor == f[|f| - 1]
  {
    var mid := Header(q) + q.buffer[..q.dataIndex];
    PrefixTail(f, mid, STX);
    LastByteIsChecksum(f, mid);
  }

  lemma PrefixStepStx(q: ParserState, f: seq<bv8>)
    requires WellFormed(f) && HoldsPrefix(q, f, 0)
    ensures HoldsPrefix(Step(q, f[0]).0, f, 1)
  {
    assert f[..1] == [STX];
  }

  lemma PrefixStepLengthHigh(q: ParserState, f: seq<bv8>)
    requires WellFormed(f) && HoldsPrefix(q, f, 1)
    ensures HoldsPrefix(Step(q, f[1]).0, f, 2)
  {
    TakeLengthHighInv(q, f[1]);
    assert f[..2] == [STX, f[1]];
  }

  /** After the first two bytes of a frame, adding the third gives the
      frame's length. */
  lemma LengthOfPrefix(q: ParserState, f: seq<bv8>)
    requires WellFormed(f) && HoldsPrefix(q, f, 2)
    ensures q.expectedLength + f[2] as nat == |f|
  {
    assert f[..2] == [STX, f[1]];
    SetLowByte(q.expectedLength, f[2], q.expectedLength + f[2] as nat);
  }

  lemma PrefixStepLengthLow(q: ParserState, f: seq<bv8>)
    requires WellFormed(f) && HoldsPrefix(q, f, 2)
    requires q.expectedLength + f[2] as nat == |f|
    ensures HoldsPrefix(TakeLengthLow(q, f[2]), f, 3)
  {
    ConsumedAfterLengthLow(q, f[2]);
    PrefixExtends(f, 2, Consumed(q));
  }

  lemma PrefixStepCommand(q: ParserState, f: seq<bv8>)
    requires WellFormed(f) && HoldsPrefix(q, f, 3)
    ensures HoldsPrefix(Step(q, f[3]).0, f, 4)
  {
    ConsumedAfterCommand(q, f[3]);
    PrefixExtends(f, 3, Consumed(q));
  }

  lemma PrefixStepData(q: ParserState, f: seq<bv8>, k: nat)
    requires WellFormed(f) && 4 <= k < |f| - 1 && HoldsPrefix(q, f, k)
    ensures HoldsPrefix(Step(q, f[k]).0, f, k + 1)
  {
    ConsumedAfterData(q, f[k]);
    PrefixExtends(f, k, Consumed(q));
  }

  lemma PrefixStepChecksum(q: ParserState, f: seq<bv8>)
    requires WellFormed(f) && HoldsPrefix(q, f, |f| - 1)
    ensures HoldsPrefix(Step(q, f[|f| - 1]).0, f, |f|)
  {
    ChecksumMatches(q, f);
    ConsumedAfterChecksum(q, Step(q, f[|f| - 1]).0);
    PrefixExtends(f, |f| - 1, Consumed(q));
  }

  lemma PrefixStep(q: ParserState, f: seq<bv8>, k: nat)
    requires WellFormed(f) && k < |f| && HoldsPrefix(q, f, k)
    ensures HoldsPrefix(Step(q, f[k]).0, f, k + 1)
  {
    if k == 0 {
      PrefixStepStx(q, f);
    } else if k == 1 {
      PrefixStepLengthHigh(q, f);
    } else if k == 2 {
      LengthOfPrefix(q, f);
      PrefixStepLengthLow(q, f);
    } else if k == 3 {
      PrefixStepCommand(q, f);
    } else if k < |f| - 1 {
      PrefixStepData(q, f, k);
    } else {
      PrefixStepChecksum(q, f);
    }
  }

  /** Feeding a prefix of a well-formed frame to a parser waiting for STX
      leaves it in the phase that prefix calls for, holding that prefix. */
  lemma {:induction false} RunFramePrefix(p: ParserState, f: seq<bv8>, k: nat)
    requires Inv(p) && p.phase == WaitStx && WellFormed(f) && k <= |f|
    ensures HoldsPrefix(Run(p, f[..k]), f, k)
  {
    if k == 0 {
      assert f[..0] == [];
    } else {
      RunFramePrefix(p, f, k - 1);
      RunPrefixStep(p, f, k);
      PrefixStep(Run(p, f[..k - 1]), f, k - 1);
    }
  }

  /** Completeness of the parser: a well-formed frame fed to a parser
      waiting for STX is accepted on its last byte, and the parser then
      holds what the host decoder reads from the frame. */
  lemma ParserAcceptsEveryFrame(p: ParserState, f: seq<bv8>)
    requires Inv(p) && p.phase == WaitStx && WellFormed(f)
    ensures Step(Run(p, f[..|f| - 1]), f[|f| - 1]).1
    ensures var q := Run(p, f);
      q.phase == PacketReady &&
      FromBytes(f) == Ok(Packet(q.command, q.buffer[..q.dataIndex]))
  {
    RunFramePrefix(p, f, |f| - 1);
    ChecksumMatches(Run(p, f[..|f| - 1]), f);
    RunFramePrefix(p, f, |f|);
    assert f[..|f|] == f;
    ReadyHoldsFrame(Run(p, f));
  }

  /** What the host sends is what the firmware receives: the encoding of
      any packet with at most 251 data bytes, fed to a freshly reset
      parser, leaves it ready with that command and that data. */
  lemma HostToFirmwareRoundTrip(pkt: Packet)
    requires |pkt.data| <= MAX_PACKET_SIZE - MIN_PACKET_SIZE
    ensures var q := Run(Cleared(), ToBytes(pkt));
      q.phase == PacketReady && q.command == pkt.command && q.buffer[..q.dataIndex] == pkt.data
  {
    FromBytesOfToBytes(pkt);
    FromBytesAcceptsWellFormed(ToBytes(pkt));
    ParserAcceptsEveryFrame(Cleared(), ToBytes(pkt));
  }

  /** `calculateXor`: the XOR of the first `length` bytes of `data`. */
  method CalculateXor(data: array<bv8>, length: nat) returns (x: bv8)
    requires length <= data.Length
    ensures x == XorFold(data[..length])
  {
    x := 0;
    var i := 0;
    while i < length
      invariant i <= length
      invariant x == XorFold(data[..i])
    {
      assert data[..i + 1][..i] == data[..i];
      x := x ^ data[i];
      i := i + 1;
    }
  }

  /** The parser object: the fields of `ParserState`, with the data bytes
      in an array updated in place. */
  class PacketParser {
    var phase: Phase
    var expectedLength: nat
    var receivedBytes: nat
    var dataIndex: nat
    var command: bv8
    var calculatedXor: bv8
    const buffer: array<bv8>

    function View(): ParserState
      reads this, buffer
    {
      ParserState(phase, expectedLength, receivedBytes, dataIndex, command, calculatedXor, buffer[..])
    }

    ghost predicate Valid()
      reads this, buffer
    {
      Inv(View())
    }

    constructor()
      ensures Valid() && View() == Cleared() && fresh(buffer)
    {
      buffer := new bv8[MAX_PACKET_SIZE];
      new;
      Reset();
    }

    /** `reset()`: back to waiting for STX with every field and every data
        byte cleared. */
    method Reset()
      requires buffer.Length == MAX_PACKET_SIZE
      modifies this, buffer
      ensures Valid() && View() == Cleared()
    {
      phase := WaitStx;
      expectedLength := 0;
      receivedBytes := 0;
      dataIndex := 0;
      command := 0;
      calculatedXor := 0;
      var i := 0;
      while i < MAX_PACKET_SIZE
        invariant i <= MAX_PACKET_SIZE
        invariant forall j :: 0 <= j < i ==> buffer[j] == 0
        modifies buffer
      {
        buffer[i] := 0;
        i := i + 1;
      }
      assert buffer[..] == Cleared().buffer;
    }

    /** `processByte()`. */
    method ProcessByte(b: bv8) returns (complete: bool)
      requires Valid()
      modifies this, buffer
      ensures (View(), complete) == Step(old(View()), b)
      ensures Valid()
    {
      complete := false;
      match phase {
        case WaitStx => ReadStx(b);
        case WaitLengthH => ReadLengthHigh(b);
        case WaitLengthL => ReadLengthLow(b);
        case WaitCmd => ReadCommand(b);
        case WaitData => ReadData(b);
        case WaitXor => complete := ReadChecksum(b);
        case PacketReady =>
      }
      StepPreservesInv(old(View()), b);
    }

    /** The WAIT_STX case of `processByte()`. */
    method ReadStx(b: bv8)
      requires Valid() && phase == WaitStx
      modifies this
      ensures View() == Step(old(View()), b).0
    {
      ghost var p := View();
      if b == STX {
        phase := WaitLengthH;
        receivedBytes := 1;
      }
      assert View() == Step(p, b).0;
    }

    /** The WAIT_LENGTH_H case of `processByte()`. */
    method ReadLengthHigh(b: bv8)
      requires phase == WaitLengthH
      modifies this
      ensures View() == TakeLengthHigh(old(View()), b)
    {
      expectedLength := b as nat * 256;
      calculatedXor := b;
      phase := WaitLengthL;
      receivedBytes := 2;
    }

    /** The WAIT_LENGTH_L case of `processByte()`. */
    method ReadLengthLow(b: bv8)
      requires Valid() && phase == WaitLengthL
      modifies this, buffer
      ensures View() == Step(old(View()), b).0
    {
      ghost var p := View();
      expectedLength := expectedLength + b as nat;
      calculatedXor := calculatedXor ^ b;
      receivedBytes := 3;
      if expectedLength < MIN_PACKET_SIZE || expectedLength > MAX_PACKET_SIZE {
        Reset();
      } else {
        phase := WaitCmd;
        assert View() == TakeLengthLow(p, b);
      }
    }

    /** The WAIT_CMD case of `processByte()`. */
    method ReadCommand(b: bv8)
      requires phase == WaitCmd
      modifies this
      ensures View() == TakeCommand(old(View()), b)
    {
      if expectedLength == MIN_PACKET_SIZE {
        phase := WaitXor;
      } else {
        phase := WaitData;
      }
      command := b;
      calculatedXor := calculatedXor ^ b;
      receivedBytes := 4;
      dataIndex := 0;
    }

    /** The WAIT_DATA case of `processByte()`: the byte is stored in place. */
    method ReadData(b: bv8)
      requires phase == WaitData && dataIndex < buffer.Length
      modifies this, buffer
      ensures View() == TakeData(old(View()), b)
    {
      buffer[dataIndex] := b;
      dataIndex := dataIndex + 1;
      calculatedXor := calculatedXor ^ b;
      receivedBytes := receivedBytes + 1;
      if receivedBytes == expectedLength - 1 {
        phase := WaitXor;
      }
    }

    /** The WAIT_XOR case of `processByte()`. */
    method ReadChecksum(b: bv8) returns (complete: bool)
      requires Valid() && phase == WaitXor
      modifies this, buffer
      ensures (View(), complete) == Step(old(View()), b)
    {
      ghost var p := View();
      receivedBytes := receivedBytes + 1;
      if calculatedXor == b {
        phase := PacketReady;
        complete := true;
      } else {
        Reset();
        complete := false;
      }
    }

    /** `isComplete()` */
    function IsComplete(): (ready: bool)
      reads this
    {
      phase == PacketReady
    }

    /** `getDataLength()`: in a ready parser, the number of data bytes it
        has stored. */
    function GetDataLength(): (n: nat)
      reads this, buffer
      ensures Valid() && IsComplete() ==> n == dataIndex && n <= MAX_PACKET_SIZE - MIN_PACKET_SIZE
    {
      if expectedLength <= MIN_PACKET_SIZE then 0 else expectedLength - MIN_PACKET_SIZE
    }
  }
}
