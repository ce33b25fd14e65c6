/** The simulated motor engine (src/motor_simulator.cpp): instead of talking
    to drivers it gives every started motor a budget of ticks and counts it
    down, marking the motor complete when the budget is used up. */
module Simulator {
  import opened Wire
  import opened Masks

  /** Steps a simulated motor covers per tick. */
  const STEPS_PER_TICK: nat := 1

  const ZERO_TICKS: seq<nat> := [0, 0, 0, 0, 0, 0, 0, 0, 0, 0]

  /** The fields of a `MotorSimulator`: the remaining ticks of every motor
      slot, the active and completed masks and the running flag. */
  datatype Sim = Sim(ticks: seq<nat>, active: Mask, completed: Mask, running: bool)

  /** The ticks array has one counter per motor slot. */
  predicate Shaped(e: Sim)
  {
    |e.ticks| == MAX_MOTORS
  }

  /** Completed motors are active motors, and every active motor has a slot. */
  predicate Inv(e: Sim)
  {
    Shaped(e) && e.completed <= e.active <= MOTOR_SLOTS
  }

  /** The tick budget of `startMotor`: `(steps + STEPS_PER_TICK - 1) /
      STEPS_PER_TICK` in 32-bit arithmetic, raised to 1 when it is 0. */
  function Budget(steps: Word): (r: nat)
    ensures r >= 1
    ensures steps > 0 ==> (r - 1) * STEPS_PER_TICK < steps <= r * STEPS_PER_TICK
    ensures steps == 0 ==> r == 1
  {
    var t := ((steps + STEPS_PER_TICK - 1) % 0x1_0000_0000) / STEPS_PER_TICK;
    if t == 0 then 1 else t
  }

  // ---------------------------------------------------------------------
  // The operations, as functions of the simulator state

  /** `reset()`: every counter zero, no motor active or completed, stopped. */
  function ResetSim(e: Sim): (r: Sim)
    ensures Inv(r) && !r.running && r.active == {} && r.completed == {}
  {
    Sim(ZERO_TICKS, {}, {}, false)
  }

  /** `startMotor(motorNum, steps)`. */
  function StartMotorSim(e: Sim, motorNum: U8, steps: Word): (r: Sim)
    requires Shaped(e)
    ensures Shaped(r)
    ensures !(1 <= motorNum <= MAX_MOTORS) ==> r == e
    ensures 1 <= motorNum <= MAX_MOTORS ==>
      r.ticks[motorNum - 1] == Budget(steps) && r.active == e.active + {motorNum - 1} &&
      r.running && r.completed == e.completed
    ensures forall j :: 0 <= j < MAX_MOTORS && j + 1 != motorNum ==> r.ticks[j] == e.ticks[j]
  {
    var valid := 1 <= motorNum <= MAX_MOTORS;
    e.(ticks := if valid then e.ticks[motorNum - 1 := Budget(steps)] else e.ticks,
       active := if valid then e.active + {motorNum - 1} else e.active,
       running := valid || e.running)
  }

  /** The motor number of record i: the 32-bit word at byte 16i, cut to 8 bits. */
  function RecordNumber(motorData: seq<bv8>, i: nat): U8
    requires 16 * i + 16 <= |motorData|
  {
    LeWordAt(motorData, 16 * i) % 256
  }

  /** The step count of record i: the 32-bit word at byte 16i + 12. */
  function RecordSteps(motorData: seq<bv8>, i: nat): Word
    requires 16 * i + 16 <= |motorData|
  {
    LeWordAt(motorData, 16 * i + 12)
  }

  /** The state after `startMotors` has reset and started the first k records. */
  function StartMotorsSim(e: Sim, motorData: seq<bv8>, k: nat): (r: Sim)
    requires 16 * k <= |motorData|
    ensures Shaped(r) && r.completed == {}
    ensures r.running <==> r.active != {}
  {
    if k == 0 then ResetSim(e)
    else StartMotorSim(StartMotorsSim(e, motorData, k - 1),
                       RecordNumber(motorData, k - 1), RecordSteps(motorData, k - 1))
  }

  /** Whether record i addresses motor slot `slot`. */
  predicate Addresses(motorData: seq<bv8>, i: nat, slot: nat)
    requires 16 * i + 16 <= |motorData|
  {
    slot < MAX_MOTORS && RecordNumber(motorData, i) == slot + 1
  }

  /** What the records started so far have made of the simulator: nothing
      completed, running exactly when some motor is active, and a budget of
      at least one tick for slot `slot` when it is active. */
  predicate Started(r: Sim, slot: nat, bound: nat)
  {
    Inv(r) && r.completed == {} && (r.running <==> r.active != {}) &&
    (slot in r.active ==> slot < |r.ticks| && 1 <= r.ticks[slot] <= bound)
  }

  /** The largest tick budget among the first k records. */
  function MaxBudget(motorData: seq<bv8>, k: nat): (r: nat)
    requires 16 * k <= |motorData|
    ensures forall i :: 0 <= i < k ==> Budget(RecordSteps(motorData, i)) <= r
  {
    if k == 0 then 0
    else
      var b := Budget(RecordSteps(motorData, k - 1));
      var m := MaxBudget(motorData, k - 1);
      if b < m then m else b
  }

  /** One `startMotor` call keeps `Started` and adds the record's slot. */
  lemma StartMotorStep(prev: Sim, motorNum: U8, steps: Word, r: Sim, slot: nat, before: nat, bound: nat)
    requires Started(prev, slot, before) && before <= bound && Budget(steps) <= bound
    requires r == StartMotorSim(prev, motorNum, steps)
    ensures Started(r, slot, bound)
    ensures slot in r.active <==> slot in prev.active || (slot < MAX_MOTORS && motorNum == slot + 1)
  {
    if 1 <= motorNum <= MAX_MOTORS {
      MotorSlotsExactly(motorNum - 1);
    }
  }

  /** After `startMotors` over k records nothing is completed, every
      active slot has between one tick and the largest record budget left,
      and the simulator runs exactly when some motor is active. */
  lemma {:induction false} StartMotorsFacts(e: Sim, motorData: seq<bv8>, k: nat, slot: nat)
    requires 16 * k <= |motorData|
    ensures Started(StartMotorsSim(e, motorData, k), slot, MaxBudget(motorData, k))
  {
    if k > 0 {
      StartMotorsFacts(e, motorData, k - 1, slot);
      StartMotorStep(StartMotorsSim(e, motorData, k - 1), RecordNumber(motorData, k - 1),
                     RecordSteps(motorData, k - 1), StartMotorsSim(e, motorData, k), slot,
                     MaxBudget(motorData, k - 1), MaxBudget(motorData, k));
    }
  }

  /** Starting a motor adds exactly its slot to the active set. */
  lemma StartMotorAdds(prev: Sim, motorNum: U8, steps: Word, slot: nat)
    requires Shaped(prev)
    ensures slot in StartMotorSim(prev, motorNum, steps).active <==>
            slot in prev.active || (slot < MAX_MOTORS && motorNum == slot + 1)
  {
  }

  /** After `startMotors` over k records the active slots are exactly those
      some record addresses. */
  lemma {:induction false} StartMotorsActive(e: Sim, motorData: seq<bv8>, k: nat, slot: nat)
    requires 16 * k <= |motorData|
    ensures slot in StartMotorsSim(e, motorData, k).active <==>
            exists i :: 0 <= i < k && Addresses(motorData, i, slot)
  {
    if k > 0 {
      StartMotorsActive(e, motorData, k - 1, slot);
      var r := StartMotorsSim(e, motorData, k);
      StartMotorAdds(StartMotorsSim(e, motorData, k - 1), RecordNumber(motorData, k - 1),
                     RecordSteps(motorData, k - 1), slot);
      if slot in r.active {
        if Addresses(motorData, k - 1, slot) {
          assert exists i :: 0 <= i < k && Addresses(motorData, i, slot);
        } else {
          var i :| 0 <= i < k - 1 && Addresses(motorData, i, slot);
          assert 0 <= i < k;
        }
      } else {
        forall i | 0 <= i < k
          ensures !Addresses(motorData, i, slot)
        {
        }
      }
    }
  }

  /** The counter of slot i after one tick: an active, uncompleted motor
      counts down and stops at zero; any other counter is untouched. */
  function CountDown(e: Sim, i: nat): nat
    requires Shaped(e) && i < MAX_MOTORS
  {
    if i in e.active && i !in e.completed && e.ticks[i] > 0 then e.ticks[i] - 1 else e.ticks[i]
  }

  /** Whether slot i completes on this tick: active, not yet completed,
      and its counter reaches zero. */
  predicate Finishes(e: Sim, i: nat)
    requires Shaped(e)
  {
    i < MAX_MOTORS && i in e.active && i !in e.completed && e.ticks[i] <= 1
  }

  /** The slots below n that complete on this tick. */
  function FinishedBelow(e: Sim, n: nat): Mask
    requires Shaped(e)
  {
    set i: nat | i < n && Finishes(e, i)
  }

  /** The loop of `tick()` over the ten slots. */
  function CountDownAll(e: Sim): (r: Sim)
    requires Shaped(e)
    ensures Shaped(r)
  {
    e.(ticks := seq(MAX_MOTORS, i requires 0 <= i < MAX_MOTORS => CountDown(e, i)),
       completed := e.completed + FinishedBelow(e, MAX_MOTORS))
  }

  /** `tick()`: nothing when stopped; otherwise count down, and stop once
      every active motor is complete. */
  function TickSim(e: Sim): (r: Sim)
    requires Shaped(e)
    ensures Shaped(r)
    ensures !e.running ==> r == e
    ensures r.active == e.active && e.completed <= r.completed
    ensures e.running ==> (r.running <==> !AllMotorsComplete(r.active, r.completed))
  {
    var d := CountDownAll(e);
    e.(ticks := if e.running then d.ticks else e.ticks,
       completed := if e.running then d.completed else e.completed,
       running := e.running && !AllMotorsComplete(d.active, d.completed))
  }

  /** `stopAll()`. */
  function StopSim(e: Sim): (r: Sim)
    ensures !r.running && r.completed == r.active == e.active && r.ticks == e.ticks
    ensures r.active != {} ==> AllMotorsComplete(r.active, r.completed)
  {
    e.(running := false, completed := e.active)
  }

  /** The state after n ticks. */
  function RunTicks(e: Sim, n: nat): (r: Sim)
    requires Shaped(e)
    ensures Shaped(r)
    decreases n
  {
    if n == 0 then e else RunTicks(TickSim(e), n - 1)
  }

  // ---------------------------------------------------------------------
  // Properties

  /** Every operation keeps completed motors among the active ones, and
      only `reset` ever clears a completed bit. */
  lemma OperationsKeepInv(e: Sim, motorNum: U8, steps: Word)
    requires Inv(e)
    ensures Inv(StartMotorSim(e, motorNum, steps))
    ensures Inv(TickSim(e)) && Inv(StopSim(e)) && Inv(ResetSim(e))
    ensures e.completed <= StartMotorSim(e, motorNum, steps).completed
    ensures e.completed <= TickSim(e).completed && e.completed <= StopSim(e).completed
  {
    if 1 <= motorNum <= MAX_MOTORS {
      MotorSlotsExactly(motorNum - 1);
    }
    var d := CountDownAll(e);
    assert FinishedBelow(e, MAX_MOTORS) <= e.active;
  }

  /** One tick of a running simulator on an active, uncompleted motor
      whose counter is c >= 1: the counter drops to c - 1, and the motor
      completes exactly when that is zero. The simulator keeps running while
      the motor is uncompleted. */
  lemma TickOne(e: Sim, i: nat)
    requires Shaped(e) && e.running && i < MAX_MOTORS && i in e.active && i !in e.completed
    requires e.ticks[i] >= 1
    ensures TickSim(e).ticks[i] == e.ticks[i] - 1
    ensures i in TickSim(e).completed <==> e.ticks[i] == 1
    ensures i !in TickSim(e).completed ==> TickSim(e).running
  {
    var r := TickSim(e);
    if i in r.completed {
      assert i in FinishedBelow(e, MAX_MOTORS);
    }
    if e.ticks[i] == 1 {
      assert Finishes(e, i);
    }
  }

  /** A running simulator with an active, uncompleted motor whose counter
      is b >= 1 counts it down by one per tick: after k <= b ticks its
      counter is b - k, it is completed exactly when k == b, and the
      simulator is still running before that. */
  lemma {:induction false} CountsDown(e: Sim, i: nat, k: nat)
    requires Shaped(e) && e.running && i < MAX_MOTORS && i in e.active && i !in e.completed
    requires 1 <= e.ticks[i] && k <= e.ticks[i]
    ensures RunTicks(e, k).ticks[i] == e.ticks[i] - k
    ensures i in RunTicks(e, k).completed <==> k == e.ticks[i]
    ensures k < e.ticks[i] ==> RunTicks(e, k).running
    decreases k
  {
    if k > 0 {
      TickOne(e, i);
      var t := TickSim(e);
      if e.ticks[i] == 1 {
        assert k == 1;
      } else {
        CountsDown(t, i, k - 1);
      }
    }
  }

  /** A motor started with `steps` by `startMotor` on a freshly reset
      simulator completes after exactly `Budget(steps)` ticks — `steps`
      ticks, or one when `steps` is zero — and not before. */
  lemma StartedMotorCompletes(e: Sim, motorNum: U8, steps: Word, k: nat)
    requires 1 <= motorNum <= MAX_MOTORS && k <= Budget(steps)
    ensures var s := StartMotorSim(ResetSim(e), motorNum, steps);
            (motorNum - 1 in RunTicks(s, k).completed <==> k == Budget(steps))
  {
    var s := StartMotorSim(ResetSim(e), motorNum, steps);
    CountsDown(s, motorNum - 1, k);
  }

  /** Ticks on a stopped simulator change nothing. */
  lemma {:induction false} StoppedStays(e: Sim, n: nat)
    requires Shaped(e) && !e.running
    ensures RunTicks(e, n) == e
    decreases n
  {
    if n > 0 {
      StoppedStays(TickSim(e), n - 1);
    }
  }

  /** A simulator with some motor active whose uncompleted motors all have
      between 1 and `bound` ticks left has stopped after `bound` ticks. */
  lemma {:induction false} Stops(e: Sim, bound: nat)
    requires Shaped(e) && e.active != {} && bound >= 1
    requires forall i :: i in e.active && i !in e.completed ==> i < MAX_MOTORS && 1 <= e.ticks[i] <= bound
    ensures !RunTicks(e, bound).running
    decreases bound
  {
    if !e.running {
      StoppedStays(e, bound);
    } else {
      var t := TickSim(e);
      if !t.running {
        StoppedStays(t, bound - 1);
      } else {
        forall i | i in t.active && i !in t.completed
          ensures i < MAX_MOTORS && 1 <= t.ticks[i] <= bound - 1
        {
          assert !Finishes(e, i);
        }
        var i :| i in t.active && i !in t.completed;
        Stops(t, bound - 1);
      }
    }
  }

  /** A running simulator that ticks to a stop stops with every active
      motor complete. */
  lemma {:induction false} StopsComplete(e: Sim, n: nat)
    requires Shaped(e) && e.running && !RunTicks(e, n).running
    ensures AllMotorsComplete(RunTicks(e, n).active, RunTicks(e, n).completed)
    decreases n
  {
    var t := TickSim(e);
    if t.running {
      StopsComplete(t, n - 1);
    } else {
      StoppedStays(t, n - 1);
    }
  }

  /** `startMotors` followed by ticks: once some record names a valid
      motor, the simulator has stopped, every active motor completed,
      within the largest tick budget among the records. */
  lemma StartedSimulatorStops(e: Sim, motorData: seq<bv8>, k: nat)
    requires 16 * k <= |motorData|
    requires StartMotorsSim(e, motorData, k).active != {}
    ensures !RunTicks(StartMotorsSim(e, motorData, k), MaxBudget(motorData, k)).running
    ensures var r := RunTicks(StartMotorsSim(e, motorData, k), MaxBudget(motorData, k));
            AllMotorsComplete(r.active, r.completed)
  {
    var s := StartMotorsSim(e, motorData, k);
    var bound := MaxBudget(motorData, k);
    forall i | i in s.active && i !in s.completed
      ensures i < MAX_MOTORS && 1 <= s.ticks[i] <= bound
    {
      StartMotorsFacts(e, motorData, k, i);
    }
    var i :| i in s.active;
    StartMotorsFacts(e, motorData, k, i);
    Stops(s, bound);
    StopsComplete(s, bound);
  }

  // ---------------------------------------------------------------------
  // The simulator object

  class MotorSimulator {
    const simulationTicks: array<nat>
    var activeMotors: Mask
    var completedMotors: Mask
    var running: bool

    function View(): Sim
      reads this, simulationTicks
    {
      Sim(simulationTicks[..], activeMotors, completedMotors, running)
    }

    predicate Sized()
      reads this
    {
      simulationTicks.Length == MAX_MOTORS
    }

    /** `MotorSimulator()`: `reset()`. */
    constructor ()
      ensures Sized() && View() == ResetSim(View()) && fresh(simulationTicks)
    {
      simulationTicks := new nat[MAX_MOTORS];
      new;
      Reset();
    }

    /** `reset()`. */
    method Reset()
      requires Sized()
      modifies this, simulationTicks
      ensures View() == ResetSim(old(View()))
    {
      var i := 0;
      while i < MAX_MOTORS
        invariant i <= MAX_MOTORS
        invariant forall j :: 0 <= j < i ==> simulationTicks[j] == 0
      {
        simulationTicks[i] := 0;
        i := i + 1;
      }
      assert simulationTicks[..] == ZERO_TICKS;
      activeMotors, completedMotors := {}, {};
      running := false;
    }

    /** `startMotor(motorNum, steps)`. */
    method StartMotor(motorNum: U8, steps: Word)
      requires Sized()
      modifies this, simulationTicks
      ensures View() == StartMotorSim(old(View()), motorNum, steps)
    {
      if motorNum < 1 || motorNum > MAX_MOTORS {
        return;
      }
      var idx := motorNum - 1;
      var t := ((steps + STEPS_PER_TICK - 1) % 0x1_0000_0000) / STEPS_PER_TICK;
      simulationTicks[idx] := t;
      if simulationTicks[idx] == 0 {
        simulationTicks[idx] := 1;
      }
      activeMotors := activeMotors + {idx};
      running := true;
    }

    /** `startMotors(motorData, motorCount)`: reset, then start the motor of
        every record with its step count. */
    method StartMotors(motorData: seq<bv8>, count: U8)
      requires Sized() && 16 * count <= |motorData|
      modifies this, simulationTicks
      ensures View() == StartMotorsSim(old(View()), motorData, count)
    {
      ghost var e := View();
      Reset();
      var i: nat := 0;
      while i < count
        invariant i <= count
        invariant View() == StartMotorsSim(e, motorData, i)
      {
        var motorNum := LeWordAt(motorData, 16 * i);
        var steps := LeWordAt(motorData, 16 * i + 12);
        ghost var before := View();
        StartMotor(motorNum % 256, steps);
        assert View() == StartMotorSim(before, RecordNumber(motorData, i), RecordSteps(motorData, i));
        i := i + 1;
      }
    }

    /** `tick()`. */
    method Tick()
      requires Sized()
      modifies this, simulationTicks
      ensures View() == TickSim(old(View()))
    {
      if !running {
        return;
      }
      ghost var e := View();
      var i: nat := 0;
      while i < MAX_MOTORS
        invariant i <= MAX_MOTORS
        invariant forall j :: 0 <= j < i ==> simulationTicks[j] == CountDown(e, j)
        invariant forall j :: i <= j < MAX_MOTORS ==> simulationTicks[j] == e.ticks[j]
        invariant completedMotors == e.completed + FinishedBelow(e, i)
        invariant activeMotors == e.active && running == e.running
      {
        TickSlot(i, e);
        assert FinishedBelow(e, i + 1) == FinishedBelow(e, i) + (if Finishes(e, i) then {i} else {});
        i := i + 1;
      }
      assert simulationTicks[..] == CountDownAll(e).ticks;
      if AllComplete() {
        running := false;
      }
    }

    /** One pass of the loop of `tick()`: an active, uncompleted motor
        counts down, and completes when its counter reaches zero. */
    method TickSlot(i: nat, ghost e: Sim)
      requires Sized() && Shaped(e) && i < MAX_MOTORS
      requires simulationTicks[i] == e.ticks[i] && activeMotors == e.active
      requires i in completedMotors <==> i in e.completed
      modifies this`completedMotors, simulationTicks
      ensures simulationTicks[i] == CountDown(e, i)
      ensures forall j :: 0 <= j < MAX_MOTORS && j != i ==> simulationTicks[j] == old(simulationTicks[j])
      ensures completedMotors == old(completedMotors) + (if Finishes(e, i) then {i} else {})
    {
      if i in activeMotors && i !in completedMotors {
        if simulationTicks[i] > 0 {
          simulationTicks[i] := simulationTicks[i] - 1;
        }
        if simulationTicks[i] == 0 {
          completedMotors := completedMotors + {i};
        }
      }
    }

    /** `stopAll()`. */
    method StopAll()
      modifies this
      ensures View() == StopSim(old(View()))
    {
      running := false;
      completedMotors := activeMotors;
    }

    /** `allComplete()`. */
    function AllComplete(): bool
      reads this
    {
      AllMotorsComplete(activeMotors, completedMotors)
    }

    /** `isRunning()`. */
    function IsRunning(): bool
      reads this
    {
      running
    }
  }
}
