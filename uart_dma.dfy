/** The host link's receive ring and transmit buffer (src/uart_dma.cpp).
    A DMA channel writes received bytes round a 64-byte ring; the main loop
    drains the bytes between its read cursor and the DMA write position
    into the packet parser. The DMA transfer counter NDTR, which counts
    down from 64, is a parameter of the operations that read it. */
module UartDma {
  import opened Wire
  import Protocol

  const RX_BUFFER_SIZE: nat := 64
  const TX_BUFFER_SIZE: nat := 64

  /** The values NDTR takes while the circular receive transfer runs. */
  predicate IsNdtr(ndtr: int)
  {
    1 <= ndtr <= RX_BUFFER_SIZE
  }

  /** The DMA write position `UART_DMA_RX_BUFFER_SIZE - NDTR`. */
  function WritePos(ndtr: int): (pos: nat)
    requires IsNdtr(ndtr)
    ensures pos < RX_BUFFER_SIZE
  {
    RX_BUFFER_SIZE - ndtr
  }

  /** `getRxDataLength()` on the write position and the read cursor: the
      number of unread bytes, which is the distance round the ring and is
      never 64. */
  function RxDataLength(currentPos: nat, tail: nat): (n: nat)
    requires currentPos < RX_BUFFER_SIZE && tail < RX_BUFFER_SIZE
    ensures n == (currentPos - tail) % RX_BUFFER_SIZE && n < RX_BUFFER_SIZE
    ensures n == 0 <==> currentPos == tail
  {
    if currentPos >= tail then currentPos - tail else RX_BUFFER_SIZE - tail + currentPos
  }

  /** The n bytes of the ring starting at position `start`, wrapping past
      the end: the first n bytes of the ring turned to begin at `start`. */
  function Ring(buf: seq<bv8>, start: nat, n: nat): (r: seq<bv8>)
    requires |buf| == RX_BUFFER_SIZE && start < RX_BUFFER_SIZE && n <= RX_BUFFER_SIZE
    ensures |r| == n
  {
    (buf[start..] + buf[..start])[..n]
  }

  /** The k-th byte of the ring from `start` is at position (start + k) mod 64. */
  lemma RingAt(buf: seq<bv8>, start: nat, n: nat, k: nat)
    requires |buf| == RX_BUFFER_SIZE && start < RX_BUFFER_SIZE && n <= RX_BUFFER_SIZE && k < n
    ensures Ring(buf, start, n)[k] == buf[(start + k) % RX_BUFFER_SIZE]
  {
    if start + k >= RX_BUFFER_SIZE {
      assert (start + k) % RX_BUFFER_SIZE == start + k - RX_BUFFER_SIZE;
    }
  }

  /** The unread bytes, the oldest first. */
  function Unread(buf: seq<bv8>, tail: nat, currentPos: nat): seq<bv8>
    requires |buf| == RX_BUFFER_SIZE && tail < RX_BUFFER_SIZE && currentPos < RX_BUFFER_SIZE
  {
    Ring(buf, tail, RxDataLength(currentPos, tail))
  }

  /** The unread bytes as slices of the buffer: the bytes from the cursor
      to the write position, or to the end of the buffer and then from its
      start when the write position has wrapped. */
  lemma UnreadSlices(buf: seq<bv8>, tail: nat, currentPos: nat)
    requires |buf| == RX_BUFFER_SIZE && tail < RX_BUFFER_SIZE && currentPos < RX_BUFFER_SIZE
    ensures Unread(buf, tail, currentPos) ==
            if tail <= currentPos then buf[tail..currentPos] else buf[tail..] + buf[..currentPos]
  {
    var rot := buf[tail..] + buf[..tail];
    if tail <= currentPos {
      assert rot[..currentPos - tail] == buf[tail..currentPos];
    } else {
      assert rot[..RX_BUFFER_SIZE - tail + currentPos] == buf[tail..] + buf[..tail][..currentPos];
    }
  }

  /** One more byte of the ring. */
  lemma RingGrows(buf: seq<bv8>, start: nat, n: nat)
    requires |buf| == RX_BUFFER_SIZE && start < RX_BUFFER_SIZE && n < RX_BUFFER_SIZE
    ensures Ring(buf, start, n + 1) == Ring(buf, start, n) + [buf[(start + n) % RX_BUFFER_SIZE]]
  {
    RingAt(buf, start, n + 1, n);
    assert Ring(buf, start, n + 1)[..n] == Ring(buf, start, n);
  }

  /** Walking from `start`, the position after n steps equals `end` for
      the first time after exactly `RxDataLength(end, start)` steps. */
  lemma ReachesEnd(start: nat, end: nat, n: nat)
    requires start < RX_BUFFER_SIZE && end < RX_BUFFER_SIZE && n <= RxDataLength(end, start)
    ensures (start + n) % RX_BUFFER_SIZE == end <==> n == RxDataLength(end, start)
  {
  }

  /** The position one step further round the ring. */
  lemma NextPos(start: nat, n: nat, pos: nat)
    requires pos == (start + n) % RX_BUFFER_SIZE
    ensures (pos + 1) % RX_BUFFER_SIZE == (start + n + 1) % RX_BUFFER_SIZE
  {
    var q := (start + n) / RX_BUFFER_SIZE;
    assert start + n == q * RX_BUFFER_SIZE + pos;
    assert start + n + 1 == q * RX_BUFFER_SIZE + (pos + 1);
  }

  // ---------------------------------------------------------------------
  // Feeding the parser

  /** The parser after being fed `bs` one byte at a time, and whether any
      of those bytes made `processByte` return true. */
  function Feed(p: Protocol.ParserState, bs: seq<bv8>): (r: (Protocol.ParserState, bool))
    requires Protocol.Inv(p)
    ensures Protocol.Inv(r.0)
    decreases |bs|
  {
    if bs == [] then (p, false)
    else
      var q := Feed(p, bs[..|bs| - 1]);
      Protocol.StepPreservesInv(q.0, bs[|bs| - 1]);
      var s := Protocol.Step(q.0, bs[|bs| - 1]);
      (s.0, q.1 || s.1)
  }

  /** The parser `Feed` leaves is the one the parser's own run reaches. */
  lemma {:induction false} FeedRuns(p: Protocol.ParserState, bs: seq<bv8>)
    requires Protocol.Inv(p)
    ensures Feed(p, bs).0 == Protocol.Run(p, bs)
    decreases |bs|
  {
    if bs != [] {
      FeedRuns(p, bs[..|bs| - 1]);
    }
  }

  /** Feeding one more byte: one more step of the parser. */
  lemma FeedSnoc(p: Protocol.ParserState, init: seq<bv8>, b: bv8, bs: seq<bv8>)
    requires Protocol.Inv(p) && bs == init + [b]
    ensures Protocol.Inv(Feed(p, init).0)
    ensures Feed(p, bs) == (Protocol.Step(Feed(p, init).0, b).0,
                            Feed(p, init).1 || Protocol.Step(Feed(p, init).0, b).1)
  {
    assert bs[..|bs| - 1] == init;
  }

  /** `processByte` leaves the parser ready only by returning true, or by
      being handed a parser that was ready already. */
  lemma ReadyOnlyByCompleting(q: Protocol.ParserState, b: bv8)
    requires Protocol.Inv(q)
    ensures Protocol.Step(q, b).0.phase == Protocol.PacketReady <==>
            q.phase == Protocol.PacketReady || Protocol.Step(q, b).1
  {
  }

  /** The flag of `Feed` is set exactly when the bytes took a parser that
      was not ready to a ready one: a byte completed a packet, and every
      byte after it was ignored. A parser that was ready already ignores
      every byte. */
  lemma {:induction false} FeedReady(p: Protocol.ParserState, bs: seq<bv8>)
    requires Protocol.Inv(p)
    ensures Feed(p, bs).1 <==>
            p.phase != Protocol.PacketReady && Feed(p, bs).0.phase == Protocol.PacketReady
    ensures p.phase == Protocol.PacketReady ==> Feed(p, bs).0 == p
    decreases |bs|
  {
    if bs != [] {
      var init := bs[..|bs| - 1];
      FeedReady(p, init);
      FeedSnoc(p, init, bs[|bs| - 1], bs);
      ReadyOnlyByCompleting(Feed(p, init).0, bs[|bs| - 1]);
    }
  }

  /** One pass of the drain loop: the walk has not yet reached `end`,
      and the byte at `pos` is the next byte of the ring. */
  lemma DrainStep(buf: seq<bv8>, start: nat, end: nat, n: nat, pos: nat, fed: seq<bv8>)
    requires |buf| == RX_BUFFER_SIZE && start < RX_BUFFER_SIZE && end < RX_BUFFER_SIZE
    requires n <= RxDataLength(end, start) && pos == (start + n) % RX_BUFFER_SIZE && pos != end
    requires fed == Ring(buf, start, n)
    ensures n + 1 <= RxDataLength(end, start)
    ensures (pos + 1) % RX_BUFFER_SIZE == (start + n + 1) % RX_BUFFER_SIZE
    ensures fed + [buf[pos]] == Ring(buf, start, n + 1)
  {
    ReachesEnd(start, end, n);
    RingGrows(buf, start, n);
    NextPos(start, n, pos);
  }

  // ---------------------------------------------------------------------
  // The link object

  class UartLink {
    /** The receive ring written by the DMA channel. */
    const rxBuffer: array<bv8>
    /** The transmit buffer read by the DMA channel. */
    const txBuffer: array<bv8>
    var rxHead: nat
    var rxTail: nat
    var rxPending: bool
    var txBusy: bool
    /** The global `g_packetReady`. */
    var packetReady: bool
    /** The global `g_packetParser`. */
    const parser: Protocol.PacketParser

    predicate Sized()
      reads this
    {
      rxBuffer.Length == RX_BUFFER_SIZE && txBuffer.Length == TX_BUFFER_SIZE &&
      rxBuffer != parser.buffer && txBuffer != parser.buffer
    }

    ghost predicate Valid()
      reads this, parser, parser.buffer
    {
      Sized() && rxTail < RX_BUFFER_SIZE && parser.Valid()
    }

    /** `UartDma()` with its default member values, sharing `parser`. */
    constructor (parser: Protocol.PacketParser)
      requires parser.Valid()
      ensures Valid() && this.parser == parser && fresh(rxBuffer) && fresh(txBuffer)
      ensures rxHead == 0 && rxTail == 0 && !rxPending && !txBusy && !packetReady
    {
      rxBuffer := new bv8[RX_BUFFER_SIZE];
      txBuffer := new bv8[TX_BUFFER_SIZE];
      this.parser := parser;
      rxHead, rxTail, rxPending, txBusy, packetReady := 0, 0, false, false, false;
    }

    /** `startRx()`: both cursors back to the start of the ring, nothing
        pending. */
    method StartRx()
      modifies this
      ensures rxHead == 0 && rxTail == 0 && !rxPending
      ensures txBusy == old(txBusy) && packetReady == old(packetReady)
    {
      rxHead := 0;
      rxTail := 0;
      rxPending := false;
    }

    /** `getRxDataLength()` with the current NDTR. */
    function GetRxDataLength(ndtr: int): (n: nat)
      requires IsNdtr(ndtr) && rxTail < RX_BUFFER_SIZE
      reads this
      ensures n == (WritePos(ndtr) - rxTail) % RX_BUFFER_SIZE && n < RX_BUFFER_SIZE
      ensures n == 0 <==> WritePos(ndtr) == rxTail
    {
      RxDataLength(WritePos(ndtr), rxTail)
    }

    /** `processRxBuffer(startPos, endPos)`: feed the ring bytes from
        `startPos` up to `endPos` to the parser, in order, and move the
        read cursor to `endPos`. */
    method ProcessRxBuffer(startPos: nat, endPos: nat)
      requires Valid() && startPos < RX_BUFFER_SIZE && endPos < RX_BUFFER_SIZE
      modifies this, parser, parser.buffer
      ensures Valid() && rxTail == endPos
      ensures var fed := Feed(old(parser.View()), Ring(rxBuffer[..], startPos, RxDataLength(endPos, startPos)));
              parser.View() == fed.0 && packetReady == (old(packetReady) || fed.1)
      ensures rxHead == old(rxHead) && rxPending == old(rxPending) && txBusy == old(txBusy)
    {
      FeedRing(startPos, endPos);
      rxTail := endPos;
    }

    /** The loop of `processRxBuffer`: walk from `startPos` round the ring
        to `endPos`, feeding each byte to the parser. */
    method FeedRing(startPos: nat, endPos: nat)
      requires Valid() && startPos < RX_BUFFER_SIZE && endPos < RX_BUFFER_SIZE
      modifies this`packetReady, parser, parser.buffer
      ensures parser.Valid()
      ensures var fed := Feed(old(parser.View()), Ring(rxBuffer[..], startPos, RxDataLength(endPos, startPos)));
              parser.View() == fed.0 && packetReady == (old(packetReady) || fed.1)
    {
      ghost var p := parser.View();
      ghost var buf := rxBuffer[..];
      ghost var total := RxDataLength(endPos, startPos);
      ghost var n: nat := 0;
      ghost var fed: seq<bv8> := [];
      var pos := startPos;
      while pos != endPos
        invariant rxBuffer[..] == buf
        invariant n <= total && pos == (startPos + n) % RX_BUFFER_SIZE && fed == Ring(buf, startPos, n)
        invariant parser.View() == Feed(p, fed).0
        invariant packetReady == (old(packetReady) || Feed(p, fed).1)
        decreases total - n
      {
        DrainStep(buf, startPos, endPos, n, pos, fed);
        var b := rxBuffer[pos];
        FeedByte(b, p, fed, old(packetReady));
        pos := (pos + 1) % RX_BUFFER_SIZE;
        n := n + 1;
        fed := fed + [b];
      }
      ReachesEnd(startPos, endPos, n);
    }

    /** One pass of the loop of `processRxBuffer`: the byte goes to the
        parser, and a completed packet sets `g_packetReady`. In terms of
        the bytes `fed` so far: the parser and the flag move on from
        feeding `fed` to feeding `fed + [b]`. */
    method FeedByte(b: bv8, ghost p: Protocol.ParserState, ghost fed: seq<bv8>, ghost wasReady: bool)
      requires Protocol.Inv(p) && parser.View() == Feed(p, fed).0
      requires packetReady == (wasReady || Feed(p, fed).1)
      modifies this`packetReady, parser, parser.buffer
      ensures parser.View() == Feed(p, fed + [b]).0
      ensures packetReady == (wasReady || Feed(p, fed + [b]).1)
    {
      FeedSnoc(p, fed, b, fed + [b]);
      var complete := parser.ProcessByte(b);
      if complete {
        packetReady := true;
      }
    }

    /** `processRxData()` with the current NDTR: feed every unread byte to
        the parser and clear the pending flag. */
    method ProcessRxData(ndtr: int)
      requires Valid() && IsNdtr(ndtr)
      modifies this, parser, parser.buffer
      ensures Valid() && rxTail == WritePos(ndtr) && !rxPending
      ensures var fed := Feed(old(parser.View()), Unread(rxBuffer[..], old(rxTail), WritePos(ndtr)));
              parser.View() == fed.0 && packetReady == (old(packetReady) || fed.1)
      ensures rxHead == old(rxHead) && txBusy == old(txBusy)
    {
      var currentPos := RX_BUFFER_SIZE - ndtr;
      if currentPos != rxTail {
        ProcessRxBuffer(rxTail, currentPos);
      }
      rxPending := false;
    }

    /** The flag effect of `handleDmaRxIrq()`: a half-transfer or
        transfer-complete event marks received data pending. */
    method HandleDmaRxIrq(halfTransfer: bool, transferComplete: bool)
      modifies this`rxPending
      ensures rxPending == (old(rxPending) || halfTransfer || transferComplete)
    {
      if halfTransfer {
        rxPending := true;
      }
      if transferComplete {
        rxPending := true;
      }
    }

    /** The flag effect of `handleUartIdleIrq()`: an idle line marks
        received data pending. */
    method HandleUartIdleIrq(idle: bool)
      modifies this`rxPending
      ensures rxPending == (old(rxPending) || idle)
    {
      if idle {
        rxPending := true;
      }
    }

    /** `clearRxPending()`: the main loop acknowledges the pending data. */
    method ClearRxPending()
      modifies this`rxPending
      ensures !rxPending
    {
      rxPending := false;
    }

    /** The flag effect of `handleDmaTxIrq()`: a finished transmission
        frees the transmit buffer. */
    method HandleDmaTxIrq(transferComplete: bool)
      modifies this`txBusy
      ensures txBusy == (old(txBusy) && !transferComplete)
    {
      if transferComplete {
        txBusy := false;
      }
    }

    /** `sendPacket(data, length)`: a length of 0 or above 64 is ignored;
        otherwise the bytes are copied to the transmit buffer and the
        transmitter marked busy. */
    method SendPacket(data: seq<bv8>, length: nat)
      requires Sized() && length < 0x1_0000 && length <= |data|
      modifies this`txBusy, txBuffer
      ensures length == 0 || length > TX_BUFFER_SIZE ==>
              txBuffer[..] == old(txBuffer[..]) && txBusy == old(txBusy)
      ensures 0 < length <= TX_BUFFER_SIZE ==>
              txBuffer[..length] == data[..length] && txBuffer[length..] == old(txBuffer[length..]) && txBusy
    {
      if length > TX_BUFFER_SIZE || length == 0 {
        return;
      }
      var i := 0;
      while i < length
        invariant i <= length
        invariant txBuffer[..i] == data[..i]
        invariant txBuffer[length..] == old(txBuffer[length..])
      {
        txBuffer[i] := data[i];
        i := i + 1;
      }
      txBusy := true;
    }
  }
}
