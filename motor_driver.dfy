/** The motor sequencing engine (src/motor_driver.cpp): a tick-driven state
    machine that sends each addressed motor its parameters over the driver
    bus, then waits for every motor's status line to settle low, with a
    per-motor debounce, a safety timeout and an emergency stop. */
module Driver {
  import opened Wire
  import opened Masks
  import opened Settings
  import Keys
  import Usart2

  type Positive = n: nat | n > 0 witness 1
  type PositiveWord = n: nat | 0 < n < 0x1_0000_0000 witness 1

  /** Consecutive low status samples after which a motor counts as done.
      Its value is not given by the source files of this model. */
  const DEBOUNCE_MS: Positive
  /** Ticks in WAITING_STATUS after which every motor is forced complete.
      Its value is not given by the source files of this model. */
  const SAFETY_TIMEOUT_MS: PositiveWord
  /** First byte of a driver frame. Its value is not given by the source
      files of this model. */
  const DRIVER_CMD: bv8

  /** Length of a driver frame. */
  const TX_BUFFER_SIZE: nat := 14
  /** Bytes drained from the driver bus per CHECKING_RX tick, at most. */
  const MAX_READS: nat := 32

  const ZERO_COUNTERS: seq<nat> := [0, 0, 0, 0, 0, 0, 0, 0, 0, 0]

  /** The states of the engine (`DriverState`). The header names the
      waiting state WAITING_TIMEOUT; the implementation's WAITING_STATUS is
      used here. */
  datatype DriverState = Idle | CheckingRx | Sending | WaitingStatus | Complete

  /** The fields of a `MotorDriver`: the state, the three motor masks, the
      counters, the running flag, the debounce counters and the records. */
  datatype Engine = Engine(
    state: DriverState,
    active: Mask,
    completed: Mask,
    pending: Mask,
    motorCount: nat,
    sendIndex: nat,
    timeoutCounter: nat,
    running: bool,
    debounce: seq<nat>,
    settings: seq<MotorSettings>)

  /** The array sizes, and a send index within the records. */
  predicate Shaped(e: Engine)
  {
    |e.debounce| == MAX_MOTORS && |e.settings| == MAX_MOTORS &&
    e.sendIndex <= e.motorCount <= MAX_MOTORS
  }

  // ---------------------------------------------------------------------
  // Motor numbers and slots

  /** `static_cast<uint8_t>(settings.getNumber())`. */
  function MotorNum(s: MotorSettings): U8
  {
    s.number % 256
  }

  /** The mask bit a record addresses: bit n-1 when its 8-bit motor number n
      is 1..10, none otherwise. */
  function SlotOf(s: MotorSettings): (r: Mask)
    ensures r <= MOTOR_SLOTS
    ensures r != {} <==> Keys.IsMotorNumber(MotorNum(s))
    ensures forall k: nat :: k in r <==> k + 1 == MotorNum(s) && k < MAX_MOTORS
  {
    if 1 <= MotorNum(s) <= MAX_MOTORS then {MotorNum(s) - 1} else {}
  }

  /** The bits addressed by the first k records. */
  function SlotsOf(settings: seq<MotorSettings>, k: nat): (r: Mask)
    requires k <= |settings|
    ensures r <= MOTOR_SLOTS
  {
    if k == 0 then {} else SlotsOf(settings, k - 1) + SlotOf(settings[k - 1])
  }

  /** A bit is addressed by the first k records exactly when one of them
      carries the motor number of that bit. */
  lemma {:induction false} SlotsOfMembers(settings: seq<MotorSettings>, k: nat, slot: nat)
    requires k <= |settings|
    ensures slot in SlotsOf(settings, k) <==>
            slot < MAX_MOTORS && exists i :: 0 <= i < k && MotorNum(settings[i]) == slot + 1
  {
    if k > 0 {
      SlotsOfMembers(settings, k - 1, slot);
      if slot in SlotOf(settings[k - 1]) {
        assert MotorNum(settings[k - 1]) == slot + 1;
      }
    }
  }

  /** More records address at least the same bits. */
  lemma {:induction false} SlotsOfGrow(settings: seq<MotorSettings>, j: nat, k: nat)
    requires j <= k <= |settings|
    ensures SlotsOf(settings, j) <= SlotsOf(settings, k)
  {
    if j < k {
      SlotsOfGrow(settings, j, k - 1);
    }
  }

  // ---------------------------------------------------------------------
  // The operations, as functions of the engine state

  /** `reset()`: IDLE, not running, every mask and counter zero. The
      records are left as they are. */
  function ResetState(e: Engine): (r: Engine)
    ensures !r.running && r.state == Idle && r.settings == e.settings
    ensures r.active == r.completed == r.pending == {} && !AllMotorsComplete(r.active, r.completed)
    ensures |e.settings| == MAX_MOTORS ==> Shaped(r)
  {
    Engine(Idle, {}, {}, {}, 0, 0, 0, false, ZERO_COUNTERS, e.settings)
  }

  /** The records after the decoding loop of `startMotors` has run over the
      first `loaded` records: record i comes from bytes 16i..16i+15. */
  function LoadSettings(prev: seq<MotorSettings>, motorData: seq<bv8>, loaded: nat): (r: seq<MotorSettings>)
    requires |prev| == MAX_MOTORS && loaded <= MAX_MOTORS && RECORD_SIZE * loaded <= |motorData|
    ensures |r| == MAX_MOTORS
  {
    seq(MAX_MOTORS, i requires 0 <= i < MAX_MOTORS =>
      if i < loaded then Decode(i, motorData) else prev[i])
  }

  /** `startMotors(motorData, motorCount)`: reset, decode the records, mark
      the bit of every record whose 8-bit motor number is 1..10 active, and
      start running in CHECKING_RX. The record array has room for
      MAX_MOTORS records and the data must hold them. */
  function StartState(e: Engine, motorData: seq<bv8>, motorCount: nat): (r: Engine)
    requires |e.settings| == MAX_MOTORS && motorCount <= MAX_MOTORS && RECORD_SIZE * motorCount <= |motorData|
    ensures Shaped(r) && r.running && r.state == CheckingRx && r.motorCount == motorCount
    ensures r.completed == r.pending == {} && r.active <= MOTOR_SLOTS
    ensures r.settings == LoadSettings(e.settings, motorData, motorCount)
  {
    var s := LoadSettings(e.settings, motorData, motorCount);
    Engine(CheckingRx, SlotsOf(s, motorCount), {}, {}, motorCount, 0, 0, true, ZERO_COUNTERS, s)
  }

  /** `processNextMotor()`: send to the record at the send index (when one
      is left) and advance; once every record is done, wait for status. */
  function NextMotorState(e: Engine): (r: Engine)
    requires Shaped(e)
    ensures Shaped(r)
    ensures r.sendIndex == Min(e.sendIndex + 1, e.motorCount)
    ensures r.state == WaitingStatus <==> r.sendIndex == e.motorCount
    ensures e.sendIndex < e.motorCount ==> r.pending == e.pending + SlotOf(e.settings[e.sendIndex])
    ensures e.sendIndex == e.motorCount ==> r.pending == e.pending
    ensures r.active == e.active && r.completed == e.completed && r.settings == e.settings
  {
    var sends := e.sendIndex < e.motorCount;
    var index := if sends then e.sendIndex + 1 else e.sendIndex;
    var done := index >= e.motorCount;
    e.(pending := if sends then e.pending + SlotOf(e.settings[e.sendIndex]) else e.pending,
       sendIndex := index,
       state := if done then WaitingStatus else Sending,
       timeoutCounter := if done then 0 else e.timeoutCounter)
  }

  /** Debounce counter i after one status sample: a pending motor whose
      status bit is low counts up, one whose bit is high starts again from
      zero, any other motor's counter is untouched. */
  function CounterAfter(e: Engine, status: Mask, i: nat): nat
    requires |e.debounce| == MAX_MOTORS && i < MAX_MOTORS
  {
    if i in e.pending then (if i in status then 0 else e.debounce[i] + 1) else e.debounce[i]
  }

  /** Whether motor slot i settles on this sample: pending, status low, and
      its counter reaching DEBOUNCE_MS. */
  predicate Settles(e: Engine, status: Mask, i: nat)
    requires |e.debounce| == MAX_MOTORS
  {
    i < MAX_MOTORS && i in e.pending && i !in status && e.debounce[i] + 1 >= DEBOUNCE_MS
  }

  /** The motors below slot n that settle on this sample. */
  function SettledBelow(e: Engine, status: Mask, n: nat): Mask
    requires |e.debounce| == MAX_MOTORS
  {
    set i: nat | i < n && Settles(e, status, i)
  }

  /** The motors that settle on this sample. */
  function Settled(e: Engine, status: Mask): Mask
    requires |e.debounce| == MAX_MOTORS
  {
    SettledBelow(e, status, MAX_MOTORS)
  }

  /** The debounce loop of WAITING_STATUS: every counter updated, and the
      settled motors moved from pending to completed. */
  function DebounceState(e: Engine, status: Mask): Engine
    requires |e.debounce| == MAX_MOTORS
  {
    var settled := Settled(e, status);
    e.(debounce := seq(MAX_MOTORS, i requires 0 <= i < MAX_MOTORS => CounterAfter(e, status, i)),
       pending := e.pending - settled,
       completed := e.completed + settled)
  }

  /** One WAITING_STATUS tick with the status bits `status`: count the tick,
      debounce, then finish when nothing is pending, or force every active
      motor complete once the counter reaches SAFETY_TIMEOUT_MS. */
  function StatusState(e: Engine, status: Mask): (r: Engine)
    requires |e.debounce| == MAX_MOTORS
    ensures r.state == Complete || r.state == WaitingStatus
    ensures r.state == Complete <==> r.pending == {}
    ensures r.pending <= e.pending && r.active == e.active
    ensures r.timeoutCounter == e.timeoutCounter + 1
    ensures r.timeoutCounter >= SAFETY_TIMEOUT_MS ==> r.state == Complete
  {
    var d := DebounceState(e, status);
    var allDone := d.pending == {};
    var timedOut := !allDone && e.timeoutCounter + 1 >= SAFETY_TIMEOUT_MS;
    d.(timeoutCounter := e.timeoutCounter + 1,
       pending := if timedOut then {} else d.pending,
       completed := if timedOut then e.active else d.completed,
       state := if allDone || timedOut then Complete else WaitingStatus)
  }

  /** `tick()`, with `idr` the bits read from the status port. */
  function TickState(e: Engine, idr: Mask): (r: Engine)
    requires Shaped(e)
    ensures Shaped(r)
  {
    if !e.running then e
    else match e.state
      case Idle => e
      case CheckingRx => e.(sendIndex := 0, state := Sending)
      case Sending => NextMotorState(e)
      case WaitingStatus => StatusState(e, idr * MOTOR_SLOTS)
      case Complete => e.(running := false)
  }

  /** `stopAll()`: abort, counting every active motor as complete. */
  function StopState(e: Engine): (r: Engine)
    ensures !r.running && r.state == Idle && r.pending == {}
    ensures r.completed == r.active == e.active && r.settings == e.settings
  {
    e.(running := false, completed := e.active, pending := {}, state := Idle)
  }

  // ---------------------------------------------------------------------
  // What a tick does outside the engine

  /** Whether this tick sends a driver frame: a SENDING tick on a record
      whose motor number is valid. */
  predicate SendsFrame(e: Engine)
    requires Shaped(e)
  {
    e.running && e.state == Sending && e.sendIndex < e.motorCount &&
    SlotOf(e.settings[e.sendIndex]) != {}
  }

  /** The 14-byte frame for one motor: DRIVER_CMD, acceleration, maximum
      speed and steps as little-endian words, then the XOR of the 13 bytes
      before it. The steps are reinterpreted as `int32_t`, which leaves
      their bytes as they are. */
  function DriverFrame(s: MotorSettings): (r: seq<bv8>)
    ensures |r| == TX_BUFFER_SIZE
  {
    var body := [DRIVER_CMD] + LeBytes(s.acceleration) + LeBytes(s.maxSpeed) + LeBytes(s.steps);
    body + [XorFold(body)]
  }

  /** The frames a tick sends on the driver bus. */
  function FramesSent(e: Engine): (r: seq<seq<bv8>>)
    requires Shaped(e)
    ensures |r| <= 1
  {
    if SendsFrame(e) then [DriverFrame(e.settings[e.sendIndex])] else []
  }

  /** The key lines raised while each frame of `FramesSent(e)` goes out:
      the addressed motor's key is raised on top of the lines `odr`. */
  function KeysDuringSend(e: Engine, odr: Mask): (r: seq<Mask>)
    requires Shaped(e)
    ensures |r| == |FramesSent(e)|
  {
    if SendsFrame(e) then [odr + SlotOf(e.settings[e.sendIndex])] else []
  }

  /** The key lines after a tick: a frame is sent with the motor's key
      raised, and the key is lowered again afterwards. */
  function KeysAfterTick(e: Engine, odr: Mask): Mask
    requires Shaped(e)
  {
    if SendsFrame(e) then odr - SlotOf(e.settings[e.sendIndex]) else odr
  }

  /** The received driver-bus bytes after a tick: a CHECKING_RX tick drains
      up to MAX_READS of them. */
  function RxAfterTick(e: Engine, rx: seq<bv8>): seq<bv8>
  {
    if e.running && e.state == CheckingRx then rx[Min(|rx|, MAX_READS)..] else rx
  }

  function Min(a: nat, b: nat): nat
  {
    if a < b then a else b
  }

  /** With no key line raised before a tick, a frame the tick sends goes
      to the addressed motor's driver alone, and no key line is left raised
      after it. */
  lemma FrameGoesToItsMotor(e: Engine, odr: Mask)
    requires Shaped(e) && odr * MOTOR_SLOTS == {}
    ensures KeysAfterTick(e, odr) * MOTOR_SLOTS == {}
    ensures SendsFrame(e) ==>
      FramesSent(e) == [DriverFrame(e.settings[e.sendIndex])] &&
      KeysDuringSend(e, odr)[0] * MOTOR_SLOTS == {MotorNum(e.settings[e.sendIndex]) - 1}
  {
  }

  // ---------------------------------------------------------------------
  // The driver frame

  /** A driver frame carries the command, the three words at offsets 1, 5
      and 9 and a checksum byte that makes the XOR of the whole frame zero. */
  lemma DriverFrameFields(s: MotorSettings, r: seq<bv8>)
    requires r == DriverFrame(s)
    ensures r[0] == DRIVER_CMD
    ensures LeWordAt(r, 1) == s.acceleration && LeWordAt(r, 5) == s.maxSpeed && LeWordAt(r, 9) == s.steps
    ensures r[13] == XorFold(r[..13]) && XorFold(r) == 0
  {
    var body := r[..13];
    assert r == body + [XorFold(body)];
    assert body[1..5] == LeBytes(s.acceleration);
    assert body[5..9] == LeBytes(s.maxSpeed);
    assert body[9..13] == LeBytes(s.steps);
    LeWordOfBytes(s.acceleration, r, 1);
    LeWordOfBytes(s.maxSpeed, r, 5);
    LeWordOfBytes(s.steps, r, 9);
    XorFoldWithChecksum(body);
  }

  // ---------------------------------------------------------------------
  // The invariant

  /** What holds of the engine between calls: the active mask is the set of
      bits the records address; pending and completed are disjoint parts of
      it; while sending, the pending bits are those of the records sent so
      far; while waiting, every active motor is pending or completed and
      the timeout has not expired; on completion, every active motor is
      completed. */
  ghost predicate Inv(e: Engine)
  {
    Shaped(e) &&
    e.active == SlotsOf(e.settings, e.motorCount) &&
    e.pending <= e.active && e.completed <= e.active && e.pending * e.completed == {} &&
    match e.state
    case Idle => !e.running && e.pending == {}
    case CheckingRx => e.running && e.sendIndex == 0 && e.pending == {} && e.completed == {}
    case Sending => e.running && e.pending == SlotsOf(e.settings, e.sendIndex) && e.completed == {}
    case WaitingStatus =>
      e.running && e.sendIndex == e.motorCount && e.pending + e.completed == e.active &&
      e.timeoutCounter < SAFETY_TIMEOUT_MS
    case Complete => e.pending == {} && e.completed == e.active
  }

  /** After `reset` the invariant holds and the engine is stopped. */
  lemma ResetEstablishesInv(e: Engine, r: Engine)
    requires |e.settings| == MAX_MOTORS && r == ResetState(e)
    ensures Inv(r) && !r.running && Rank(r) == 0
  {
  }

  /** The records decoded by `startMotors` are the records of the data:
      record i encodes back to bytes 16i..16i+15. */
  lemma LoadedRecords(prev: seq<MotorSettings>, motorData: seq<bv8>, motorCount: nat, i: nat)
    requires |prev| == MAX_MOTORS && motorCount <= MAX_MOTORS && RECORD_SIZE * motorCount <= |motorData|
    requires i < motorCount
    ensures Encode(LoadSettings(prev, motorData, motorCount)[i]) ==
            motorData[RECORD_SIZE * i..RECORD_SIZE * i + RECORD_SIZE]
  {
    EncodeOfDecode(i, motorData);
  }

  /** `startMotors` leaves the invariant holding, with the engine running in
      CHECKING_RX, nothing pending or completed, and the active mask holding
      exactly the bits of the valid motor numbers among the records. */
  lemma StartEstablishesInv(e: Engine, motorData: seq<bv8>, motorCount: nat, r: Engine)
    requires |e.settings| == MAX_MOTORS && motorCount <= MAX_MOTORS && RECORD_SIZE * motorCount <= |motorData|
    requires r == StartState(e, motorData, motorCount)
    ensures Inv(r) && r.running && r.state == CheckingRx
    ensures forall slot: nat :: slot in r.active <==>
      (slot < MAX_MOTORS && exists i :: 0 <= i < motorCount && MotorNum(r.settings[i]) == slot + 1)
  {
    forall slot: nat
      ensures slot in r.active <==>
        (slot < MAX_MOTORS && exists i :: 0 <= i < motorCount && MotorNum(r.settings[i]) == slot + 1)
    {
      SlotsOfMembers(r.settings, motorCount, slot);
    }
  }

  /** A SENDING tick keeps the invariant. */
  lemma NextMotorKeepsInv(e: Engine, r: Engine)
    requires Inv(e) && e.state == Sending && r == NextMotorState(e)
    ensures Inv(r)
    ensures e.sendIndex < e.motorCount ==> r.sendIndex == e.sendIndex + 1
    ensures r.state == WaitingStatus <==> r.sendIndex == r.motorCount
  {
    if e.sendIndex < e.motorCount {
      SlotsOfGrow(e.settings, e.sendIndex + 1, e.motorCount);
      assert r.pending == SlotsOf(e.settings, e.sendIndex + 1);
    } else {
      assert r.pending == e.pending && r.sendIndex == e.sendIndex;
    }
  }

  /** The debounce loop moves motors from pending to completed only, and
      only those whose status is low. */
  lemma DebounceMoves(e: Engine, status: Mask, d: Engine)
    requires Inv(e) && e.state == WaitingStatus && d == DebounceState(e, status)
    ensures d.pending <= e.pending && e.completed <= d.completed
    ensures d.pending + d.completed == e.pending + e.completed
    ensures d.pending * d.completed == {}
    ensures forall k :: k in d.completed - e.completed ==> k in e.pending && k !in status
  {
  }

  /** A WAITING_STATUS tick keeps the invariant; when it ends the wait, every
      active motor is completed. */
  lemma StatusKeepsInv(e: Engine, status: Mask, r: Engine)
    requires Inv(e) && e.state == WaitingStatus && r == StatusState(e, status)
    ensures Inv(r)
    ensures r.state == Complete ==> r.completed == e.active && r.pending == {}
  {
    DebounceMoves(e, status, DebounceState(e, status));
  }

  /** Every tick keeps the invariant, keeps the active mask, never loses a
      completed motor, and never returns to IDLE. */
  lemma TickKeepsInv(e: Engine, idr: Mask)
    requires Inv(e)
    ensures Inv(TickState(e, idr))
    ensures TickState(e, idr).active == e.active
    ensures e.completed <= TickState(e, idr).completed
    ensures e.state != Idle ==> TickState(e, idr).state != Idle
  {
    if e.running {
      match e.state
      case Idle =>
      case CheckingRx =>
      case Sending => NextMotorKeepsInv(e, NextMotorState(e));
      case WaitingStatus =>
        DebounceMoves(e, idr * MOTOR_SLOTS, DebounceState(e, idr * MOTOR_SLOTS));
        StatusKeepsInv(e, idr * MOTOR_SLOTS, StatusState(e, idr * MOTOR_SLOTS));
      case Complete =>
    }
  }

  /** `stopAll` from any state: stopped in IDLE with every active motor
      completed; `allComplete` then holds exactly when some motor was
      active. */
  lemma StopEstablishesInv(e: Engine)
    requires Inv(e)
    ensures Inv(StopState(e)) && !StopState(e).running
    ensures AllMotorsComplete(StopState(e).active, StopState(e).completed) <==> e.active != {}
  {
  }

  // ---------------------------------------------------------------------
  // Termination of a run

  function Max1(n: nat): nat
  {
    if n == 0 then 1 else n
  }

  /** The number of ticks after which the engine stops at the latest. */
  function Rank(e: Engine): nat
  {
    if !e.running then 0
    else match e.state
      case Idle => 0
      case Complete => 1
      case WaitingStatus =>
        if e.timeoutCounter < SAFETY_TIMEOUT_MS then 1 + SAFETY_TIMEOUT_MS - e.timeoutCounter else 1
      case Sending =>
        if e.sendIndex <= e.motorCount then 1 + SAFETY_TIMEOUT_MS + Max1(e.motorCount - e.sendIndex) else 1
      case CheckingRx => 2 + SAFETY_TIMEOUT_MS + Max1(e.motorCount)
  }

  /** Every tick of a running engine brings it closer to stopping, whatever
      the status lines say. */
  lemma TickDecreasesRank(e: Engine, idr: Mask)
    requires Inv(e) && e.running
    ensures Rank(TickState(e, idr)) < Rank(e)
  {
  }

  /** The engine after a sequence of ticks, one status sample per tick. */
  function RunTicks(e: Engine, inputs: seq<Mask>): (r: Engine)
    requires Shaped(e)
    ensures Shaped(r)
    decreases |inputs|
  {
    if inputs == [] then e else RunTicks(TickState(e, inputs[0]), inputs[1..])
  }

  /** Whatever the status lines say, an engine that satisfies the invariant
      is stopped after Rank(e) ticks, still satisfying it, never back in
      IDLE if it was not there. */
  lemma {:induction false} StopsWithinRank(e: Engine, inputs: seq<Mask>)
    requires Inv(e) && |inputs| >= Rank(e)
    ensures Inv(RunTicks(e, inputs)) && !RunTicks(e, inputs).running
    ensures e.state != Idle ==> RunTicks(e, inputs).state != Idle
    decreases |inputs|
  {
    if inputs != [] {
      TickKeepsInv(e, inputs[0]);
      if e.running {
        TickDecreasesRank(e, inputs[0]);
      }
      StopsWithinRank(TickState(e, inputs[0]), inputs[1..]);
    }
  }

  /** Liveness of a command: after `startMotors` with n records, at most
      1 + max(n, 1) + SAFETY_TIMEOUT_MS + 1 ticks bring the engine to a stop
      in COMPLETE with every active motor completed, whatever the status
      lines do. */
  lemma CommandCompletes(e: Engine, motorData: seq<bv8>, motorCount: nat, inputs: seq<Mask>)
    requires |e.settings| == MAX_MOTORS && motorCount <= MAX_MOTORS && RECORD_SIZE * motorCount <= |motorData|
    requires |inputs| >= 2 + Max1(motorCount) + SAFETY_TIMEOUT_MS
    ensures !RunTicks(StartState(e, motorData, motorCount), inputs).running
    ensures RunTicks(StartState(e, motorData, motorCount), inputs).state == Complete
    ensures RunTicks(StartState(e, motorData, motorCount), inputs).completed ==
            StartState(e, motorData, motorCount).active
    ensures RunTicks(StartState(e, motorData, motorCount), inputs).pending == {}
  {
    var s := StartState(e, motorData, motorCount);
    StartEstablishesInv(e, motorData, motorCount, s);
    StopsWithinRank(s, inputs);
    ActiveKept(s, inputs);
  }

  /** A run of ticks never changes the active mask. */
  lemma {:induction false} ActiveKept(e: Engine, inputs: seq<Mask>)
    requires Inv(e)
    ensures RunTicks(e, inputs).active == e.active
    decreases |inputs|
  {
    if inputs != [] {
      TickKeepsInv(e, inputs[0]);
      ActiveKept(TickState(e, inputs[0]), inputs[1..]);
    }
  }

  // ---------------------------------------------------------------------
  // The engine object

  class MotorDriver {
    var state: DriverState
    var activeMotors: Mask
    var completedMotors: Mask
    var pendingMotors: Mask
    var motorCount: nat
    var currentSendIndex: nat
    var timeoutCounter: nat
    var running: bool
    const debounceCounters: array<nat>
    const settings: array<MotorSettings>
    const txBuffer: array<bv8>
    /** The key lines (`KeyController`) and the driver bus (`Usart2Driver`)
        the engine drives. */
    const keys: Keys.KeyLines
    const port: Usart2.Usart2Port

    function View(): Engine
      reads this, debounceCounters, settings
    {
      Engine(state, activeMotors, completedMotors, pendingMotors, motorCount,
             currentSendIndex, timeoutCounter, running, debounceCounters[..], settings[..])
    }

    predicate Sized()
      reads this
    {
      debounceCounters.Length == MAX_MOTORS && settings.Length == MAX_MOTORS &&
      txBuffer.Length == TX_BUFFER_SIZE && port.keys == keys
    }

    ghost predicate Valid()
      reads this, debounceCounters, settings
    {
      Sized() && Inv(View())
    }

    /** `MotorDriver()`: default records, then `reset()`. */
    constructor (keys: Keys.KeyLines, port: Usart2.Usart2Port)
      requires port.keys == keys
      modifies keys
      ensures Valid() && View() == ResetState(View())
      ensures this.keys == keys && this.port == port
      ensures keys.odr == Keys.ClearAllBits(old(keys.odr))
      ensures fresh(debounceCounters) && fresh(settings) && fresh(txBuffer)
    {
      debounceCounters := new nat[MAX_MOTORS];
      settings := new MotorSettings[MAX_MOTORS](_ => DEFAULT);
      txBuffer := new bv8[TX_BUFFER_SIZE];
      this.keys := keys;
      this.port := port;
      new;
      Reset();
    }

    /** `reset()`. */
    method Reset()
      requires Sized()
      modifies this, debounceCounters, keys
      ensures View() == ResetState(old(View())) && Valid()
      ensures keys.odr == Keys.ClearAllBits(old(keys.odr))
    {
      state := Idle;
      activeMotors, completedMotors, pendingMotors := {}, {}, {};
      motorCount, currentSendIndex, timeoutCounter := 0, 0, 0;
      running := false;
      ClearCounters();
      keys.ClearAll();
      assert View() == ResetState(old(View()));
      ResetEstablishesInv(old(View()), View());
    }

    /** The loop of `reset()` zeroing every debounce counter. */
    method ClearCounters()
      requires Sized()
      modifies debounceCounters
      ensures debounceCounters[..] == ZERO_COUNTERS
    {
      var i := 0;
      while i < MAX_MOTORS
        invariant i <= MAX_MOTORS
        invariant forall j :: 0 <= j < i ==> debounceCounters[j] == 0
      {
        debounceCounters[i] := 0;
        i := i + 1;
      }
      assert debounceCounters[..] == ZERO_COUNTERS;
    }

    /** `startMotors(motorData, motorCount)`. */
    method StartMotors(motorData: seq<bv8>, count: U8)
      requires Sized() && count <= MAX_MOTORS && RECORD_SIZE * count <= |motorData|
      modifies this, debounceCounters, settings, keys
      ensures View() == StartState(old(View()), motorData, count) && Valid()
      ensures keys.odr == Keys.ClearAllBits(old(keys.odr))
    {
      Reset();
      motorCount := count;
      LoadRecords(motorData, count);
      running := true;
      state := CheckingRx;
      StartEstablishesInv(old(View()), motorData, count, View());
    }

    /** The loop of `startMotors`: decode each record and mark its motor's
        bit active when its 8-bit motor number is 1..10. */
    method LoadRecords(motorData: seq<bv8>, count: U8)
      requires Sized() && count <= MAX_MOTORS && RECORD_SIZE * count <= |motorData|
      requires activeMotors == {}
      modifies this`activeMotors, settings
      ensures settings[..] == LoadSettings(old(settings[..]), motorData, count)
      ensures activeMotors == SlotsOf(settings[..], count)
    {
      ghost var loaded := LoadSettings(settings[..], motorData, count);
      var i := 0;
      while i < count
        invariant i <= count
        invariant forall j :: 0 <= j < i ==> settings[j] == loaded[j]
        invariant forall j :: i <= j < MAX_MOTORS ==> settings[j] == old(settings[j])
        invariant activeMotors == SlotsOf(loaded, i)
      {
        LoadRecord(motorData, i);
        assert SlotsOf(loaded, i + 1) == SlotsOf(loaded, i) + SlotOf(loaded[i]);
        i := i + 1;
      }
      assert settings[..] == loaded;
    }

    /** One pass of the `startMotors` loop: decode record i and mark its
        motor's bit active when its 8-bit motor number is 1..10. */
    method LoadRecord(motorData: seq<bv8>, i: nat)
      requires Sized() && i < MAX_MOTORS && RECORD_SIZE * (i + 1) <= |motorData|
      modifies this`activeMotors, settings
      ensures settings[i] == Decode(i, motorData)
      ensures forall j :: 0 <= j < MAX_MOTORS && j != i ==> settings[j] == old(settings[j])
      ensures activeMotors == old(activeMotors) + SlotOf(settings[i])
    {
      settings[i] := Decode(i, motorData);
      var motorNum := MotorNum(settings[i]);
      if motorNum >= 1 && motorNum <= MAX_MOTORS {
        activeMotors := activeMotors + {motorNum - 1};
      }
    }

    /** `buildDriverPacket(settings)`: the frame for one motor in the
        transmit buffer; returns its length. */
    method BuildDriverPacket(s: MotorSettings) returns (len: nat)
      requires Sized()
      modifies txBuffer
      ensures len == TX_BUFFER_SIZE && txBuffer[..] == DriverFrame(s)
    {
      txBuffer[0] := DRIVER_CMD;
      CopyWord(1, s.acceleration);
      CopyWord(5, s.maxSpeed);
      CopyWord(9, s.steps);
      assert txBuffer[..13] == [DRIVER_CMD] + LeBytes(s.acceleration) + LeBytes(s.maxSpeed) + LeBytes(s.steps);
      var xorVal := ChecksumOf(13);
      ghost var body := txBuffer[..13];
      txBuffer[13] := xorVal;
      assert txBuffer[..] == body + [xorVal];
      len := TX_BUFFER_SIZE;
    }

    /** The checksum loop of `buildDriverPacket`: the XOR of the first n
        bytes of the transmit buffer. */
    method ChecksumOf(n: nat) returns (xorVal: bv8)
      requires Sized() && n <= TX_BUFFER_SIZE
      ensures xorVal == XorFold(txBuffer[..n])
    {
      xorVal := 0;
      var i := 0;
      while i < n
        invariant i <= n
        invariant xorVal == XorFold(txBuffer[..i])
      {
        assert txBuffer[..i + 1][..i] == txBuffer[..i];
        xorVal := xorVal ^ txBuffer[i];
        i := i + 1;
      }
    }

    /** `std::memcpy(&_txBuffer[off], &word, 4)` on a little-endian core. */
    method CopyWord(off: nat, w: Word)
      requires Sized() && off + 4 <= TX_BUFFER_SIZE
      modifies txBuffer
      ensures txBuffer[off..off + 4] == LeBytes(w)
      ensures forall j :: 0 <= j < TX_BUFFER_SIZE && !(off <= j < off + 4) ==> txBuffer[j] == old(txBuffer[j])
    {
      var bytes := LeBytes(w);
      txBuffer[off] := bytes[0];
      txBuffer[off + 1] := bytes[1];
      txBuffer[off + 2] := bytes[2];
      txBuffer[off + 3] := bytes[3];
    }

    /** `sendCommandToDriver(motorNum)`: raise the motor's key, send it the
        frame of the record at the send index, lower the key and mark the
        motor pending. */
    method SendCommandToDriver(motorNum: U8)
      requires Sized() && Keys.IsMotorNumber(motorNum) && currentSendIndex < MAX_MOTORS
      modifies this`pendingMotors, txBuffer, keys, port
      ensures pendingMotors == old(pendingMotors) + {motorNum - 1}
      ensures port.sent == old(port.sent) + [DriverFrame(settings[currentSendIndex])] && port.rx == old(port.rx)
      ensures port.selected == old(port.selected) + [old(keys.odr) + {motorNum - 1}]
      ensures keys.odr == old(keys.odr) - {motorNum - 1}
    {
      keys.SetKey(motorNum, true);
      assert keys.odr == old(keys.odr) + {motorNum - 1};
      var len := BuildDriverPacket(settings[currentSendIndex]);
      assert txBuffer[..len] == txBuffer[..];
      port.Send(txBuffer[..len]);
      keys.SetKey(motorNum, false);
      Keys.PulseClearsKey(old(keys.odr), motorNum);
      pendingMotors := pendingMotors + {motorNum - 1};
    }

    /** `processNextMotor()`. */
    method ProcessNextMotor()
      requires Sized() && Shaped(View()) && state == Sending && running
      modifies this, txBuffer, keys, port
      ensures View() == NextMotorState(old(View()))
      ensures port.sent == old(port.sent) + FramesSent(old(View())) && port.rx == old(port.rx)
      ensures port.selected == old(port.selected) + KeysDuringSend(old(View()), old(keys.odr))
      ensures keys.odr == KeysAfterTick(old(View()), old(keys.odr))
    {
      if currentSendIndex < motorCount {
        SendNext();
      }
      if currentSendIndex >= motorCount {
        state := WaitingStatus;
        timeoutCounter := 0;
      }
    }

    /** The first branch of `processNextMotor()`: send to the record at the
        send index when its motor number is valid, and advance the index. */
    method SendNext()
      requires Sized() && currentSendIndex < motorCount <= MAX_MOTORS
      modifies this`pendingMotors, this`currentSendIndex, txBuffer, keys, port
      ensures currentSendIndex == old(currentSendIndex) + 1
      ensures pendingMotors == old(pendingMotors) + SlotOf(settings[old(currentSendIndex)])
      ensures port.sent == old(port.sent) +
        (if SlotOf(settings[old(currentSendIndex)]) != {} then [DriverFrame(settings[old(currentSendIndex)])] else [])
      ensures port.selected == old(port.selected) +
        (if SlotOf(settings[old(currentSendIndex)]) != {} then [old(keys.odr) + SlotOf(settings[old(currentSendIndex)])] else [])
      ensures port.rx == old(port.rx)
      ensures keys.odr == old(keys.odr) - SlotOf(settings[old(currentSendIndex)])
    {
      var motorNum := MotorNum(settings[currentSendIndex]);
      if motorNum >= 1 && motorNum <= MAX_MOTORS {
        assert SlotOf(settings[currentSendIndex]) == {motorNum - 1};
        SendCommandToDriver(motorNum);
      } else {
        assert SlotOf(settings[currentSendIndex]) == {};
      }
      currentSendIndex := currentSendIndex + 1;
    }

    /** `startSending()`. */
    method StartSending()
      modifies this
      ensures View() == old(View()).(sendIndex := 0, state := Sending)
    {
      currentSendIndex := 0;
      state := Sending;
    }

    /** The CHECKING_RX drain: read and drop at most MAX_READS waiting bytes. */
    method DrainRx()
      modifies port
      ensures port.rx == old(port.rx)[Min(|old(port.rx)|, MAX_READS)..]
      ensures port.sent == old(port.sent) && port.selected == old(port.selected)
    {
      var maxReads: nat := MAX_READS;
      while port.HasData() && maxReads > 0
        invariant maxReads <= MAX_READS && MAX_READS - maxReads <= |old(port.rx)|
        invariant port.rx == old(port.rx)[MAX_READS - maxReads..]
        invariant port.sent == old(port.sent) && port.selected == old(port.selected)
        invariant |port.rx| == |old(port.rx)| - (MAX_READS - maxReads)
        decreases maxReads
      {
        var dropped := port.ReadByte();
        maxReads := maxReads - 1;
      }
      assert !port.HasData() || maxReads == 0;
      assert port.HasData() <==> port.rx != [];
      assert MAX_READS - maxReads == Min(|old(port.rx)|, MAX_READS);
    }

    /** The WAITING_STATUS case of `tick()`, with `idr` the status port. */
    method PollStatus(idr: Mask)
      requires Sized() && state == WaitingStatus
      modifies this, debounceCounters
      ensures View() == StatusState(old(View()), idr * MOTOR_SLOTS)
    {
      ghost var e := View();
      timeoutCounter := timeoutCounter + 1;
      var statusBits := idr * MOTOR_SLOTS;
      var i := 0;
      while i < MAX_MOTORS
        invariant i <= MAX_MOTORS
        invariant forall j :: 0 <= j < i ==> debounceCounters[j] == CounterAfter(e, statusBits, j)
        invariant forall j :: i <= j < MAX_MOTORS ==> debounceCounters[j] == e.debounce[j]
        invariant pendingMotors == e.pending - SettledBelow(e, statusBits, i)
        invariant completedMotors == e.completed + SettledBelow(e, statusBits, i)
        invariant state == e.state && timeoutCounter == e.timeoutCounter + 1
        invariant activeMotors == e.active && motorCount == e.motorCount
        invariant currentSendIndex == e.sendIndex && running == e.running
      {
        DebounceSlot(i, statusBits, e);
        assert SettledBelow(e, statusBits, i + 1) ==
               SettledBelow(e, statusBits, i) + (if Settles(e, statusBits, i) then {i} else {});
        i := i + 1;
      }
      ghost var deb := DebounceState(e, statusBits);
      assert debounceCounters[..] == deb.debounce;
      assert pendingMotors == deb.pending && completedMotors == deb.completed;
      if pendingMotors == {} {
        state := Complete;
      } else if timeoutCounter >= SAFETY_TIMEOUT_MS {
        completedMotors := activeMotors;
        pendingMotors := {};
        state := Complete;
      }
      assert state == StatusState(e, statusBits).state;
      assert pendingMotors == StatusState(e, statusBits).pending;
      assert completedMotors == StatusState(e, statusBits).completed;
      assert timeoutCounter == StatusState(e, statusBits).timeoutCounter;
      assert debounceCounters[..] == StatusState(e, statusBits).debounce;
      assert settings[..] == e.settings;
    }

    /** One pass of the debounce loop: slot i's counter is updated, and the
        slot moves from pending to completed when it settles. */
    method DebounceSlot(i: nat, statusBits: Mask, ghost e: Engine)
      requires Sized() && i < MAX_MOTORS && |e.debounce| == MAX_MOTORS
      requires debounceCounters[i] == e.debounce[i] && (i in pendingMotors <==> i in e.pending)
      modifies this`pendingMotors, this`completedMotors, debounceCounters
      ensures debounceCounters[i] == CounterAfter(e, statusBits, i)
      ensures forall j :: 0 <= j < MAX_MOTORS && j != i ==> debounceCounters[j] == old(debounceCounters[j])
      ensures pendingMotors == old(pendingMotors) - (if Settles(e, statusBits, i) then {i} else {})
      ensures completedMotors == old(completedMotors) + (if Settles(e, statusBits, i) then {i} else {})
    {
      if i in pendingMotors {
        if i !in statusBits {
          debounceCounters[i] := debounceCounters[i] + 1;
          if debounceCounters[i] >= DEBOUNCE_MS {
            completedMotors := completedMotors + {i};
            pendingMotors := pendingMotors - {i};
          }
        } else {
          debounceCounters[i] := 0;
        }
      }
    }

    /** `tick()`, with `idr` the bits read from the status port. */
    method Tick(idr: Mask)
      requires Valid()
      modifies this, debounceCounters, txBuffer, keys, port
      ensures View() == TickState(old(View()), idr) && Valid()
      ensures port.sent == old(port.sent) + FramesSent(old(View()))
      ensures port.selected == old(port.selected) + KeysDuringSend(old(View()), old(keys.odr))
      ensures port.rx == RxAfterTick(old(View()), old(port.rx))
      ensures keys.odr == KeysAfterTick(old(View()), old(keys.odr))
    {
      if !running {
        return;
      }
      match state {
        case Idle =>
        case CheckingRx =>
          DrainRx();
          StartSending();
        case Sending =>
          ProcessNextMotor();
        case WaitingStatus =>
          PollStatus(idr);
        case Complete =>
          running := false;
      }
      TickKeepsInv(old(View()), idr);
    }

    /** `stopAll()`. */
    method StopAll()
      requires Valid()
      modifies this, keys
      ensures View() == StopState(old(View())) && Valid()
      ensures keys.odr == Keys.ClearAllBits(old(keys.odr))
    {
      running := false;
      completedMotors := activeMotors;
      pendingMotors := {};
      state := Idle;
      keys.ClearAll();
      StopEstablishesInv(old(View()));
    }

    /** `allComplete()`. */
    function AllComplete(): bool
      reads this
    {
      AllMotorsComplete(activeMotors, completedMotors)
    }

    /** `isRunning()`. */
    function IsRunning(): bool
      reads this
    {
      running
    }
  }
}
