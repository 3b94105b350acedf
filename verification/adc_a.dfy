/**
  The `adc_A` node firmware: a 100000-sample buffer, an early "prepare" pulse
  on the sender pin at sample 99000, a stall on a `lock` flag that a
  falling edge on the receiver pin clears, a bulk 16-bit SPI transfer of the
  whole buffer, and a reset that clears the buffer, re-locks the node and
  advances the debug counter `machine_state` by the chain length (2).

  Timestamps are recorded only in builds with RECORD_TIME; the model takes
  that build switch as a parameter. `machine_state` and `lock` start at the
  values the user edits per node (0/false for the head, 1/true otherwise).
 */
module AdcA {
  import opened Wire
  import opened Sampler
  import opened Cycle

  const SAMPLE_BUFFER_SIZE: nat := 100000
  const BUFFER_THRESHOLD: nat := 99000
  const MACHINES_EMPLOYED: nat := 2

  /** The globals of the firmware, plus where `main` is and which pin
      interrupts are enabled. */
  datatype State = State(
    buf: Buffer,
    lock: bool,
    machineState: nat,
    phase: Phase,
    unlockArmed: bool,   // receiver-pin interrupt enabled (falling edge)
    adcArmed: bool)      // ADC-trigger-pin interrupt enabled (rising edge)

  /** What every reachable state satisfies. */
  predicate Inv(s: State) {
    && WellFormed(s.buf) && |s.buf.samples| == SAMPLE_BUFFER_SIZE
    && DoneExactly(s.buf)
    && s.machineState < UINT_RANGE
    && (s.phase.Stalled? || s.phase.Sampling? || s.phase.Transferring?)
    && s.unlockArmed == s.phase.Stalled?
    && s.adcArmed == s.phase.Sampling?
    && (s.phase.Transferring? ==> s.buf.done)
  }

  /** The stall test at the top of the loop: `machine_state >= 1`. */
  predicate MustStall(machineState: nat) {
    machineState >= 1
  }

  /** Top of the `while(true)` body: either enable the receiver interrupt and
      spin on `lock`, or enable the ADC interrupt and spin on `sampling_done`. */
  function BeginCycle(s: State): State {
    if MustStall(s.machineState) then s.(phase := Stalled, unlockArmed := true)
    else s.(phase := Sampling, adcArmed := true)
  }

  function Init(recordTime: bool, machineState: u32, lock: bool): State {
    BeginCycle(State(Empty(SAMPLE_BUFFER_SIZE, recordTime), lock, machineState, Stalled, false, false))
  }

  /** `ADC_trigger_callback`. */
  function AdcTrigger(s: State, r: Reading): (State, seq<Output>)
    requires WellFormed(s.buf)
  {
    if s.buf.index < SAMPLE_BUFFER_SIZE then
      var b := Commit(s.buf, r);
      (s.(buf := b), if b.index == BUFFER_THRESHOLD then [Prepare] else [])
    else
      (s, [])
  }

  /** The reset at the end of the loop body. `clear_buffer` always returns 0,
      so its error branch is never taken. */
  function Reset(s: State): State
    requires WellFormed(s.buf)
  {
    s.(buf := Rewound(Cleared(s.buf), true),
       lock := true,
       machineState := Advance(s.machineState, MACHINES_EMPLOYED, UINT_RANGE))
  }

  /** One atomic step of the node. */
  function Step(s: State, e: Event): (r: (State, seq<Output>))
    requires WellFormed(s.buf)
    ensures WellFormed(r.0.buf) && |r.0.buf.samples| == |s.buf.samples|
  {
    match e
    case Release =>
      (if s.unlockArmed then s.(lock := false) else s, [])
    case Edge(rd) =>
      if s.adcArmed then AdcTrigger(s, rd) else (s, [])
    case Poll =>
      if s.phase.Stalled? && !s.lock then
        (s.(phase := Sampling, unlockArmed := false, adcArmed := true), [])
      else if s.phase.Sampling? && s.buf.done then
        (s.(phase := Transferring, adcArmed := false), [TransferSignal, Transmit(s.buf.samples)])
      else
        (s, [])
    case TransferDone(n) =>
      if s.phase.Transferring? then
        (BeginCycle(Reset(s)), if n != SAMPLE_BUFFER_SIZE then [Incomplete] else [])
      else
        (s, [])
    case ClearDone(_) =>
      (s, [])
  }

  /** A finite prefix of the node's life: the final state and all outputs. */
  function Run(s: State, es: seq<Event>): (r: (State, seq<Output>))
    requires WellFormed(s.buf)
    ensures WellFormed(r.0.buf) && |r.0.buf.samples| == |s.buf.samples|
  {
    if es == [] then (s, [])
    else
      var p := Run(s, es[..|es| - 1]);
      var q := Step(p.0, es[|es| - 1]);
      (q.0, p.1 + q.1)
  }

  /** How many resets a run performs. */
  function Resets(s: State, es: seq<Event>): nat
    requires WellFormed(s.buf)
  {
    if es == [] then 0
    else
      var n := |es| - 1;
      Resets(s, es[..n]) + (if Run(s, es[..n]).0.phase.Transferring? && es[n].TransferDone? then 1 else 0)
  }

  /** The reads of the trigger edges the node acts on in a run, oldest first:
      those that arrive while the ADC interrupt is enabled. */
  function Accepted(s: State, es: seq<Event>): (rs: seq<Reading>)
    requires WellFormed(s.buf)
    ensures |rs| <= |es|
  {
    if es == [] then []
    else
      var n := |es| - 1;
      Accepted(s, es[..n]) + (if es[n].Edge? && Run(s, es[..n]).0.adcArmed then [es[n].reading] else [])
  }

  predicate NoTransferDone(es: seq<Event>) {
    forall i :: 0 <= i < |es| ==> !es[i].TransferDone?
  }

  predicate NoRelease(es: seq<Event>) {
    forall i :: 0 <= i < |es| ==> !es[i].Release?
  }

  // ---------------------------------------------------------------------
  // Properties
  // ---------------------------------------------------------------------

  /** The node starts in a reachable state: the head (counter 0) goes straight
      to sampling, every other node stalls first. */
  lemma InitInv(recordTime: bool, machineState: u32, lock: bool)
    ensures Inv(Init(recordTime, machineState, lock))
    ensures Init(recordTime, machineState, lock).phase == (if machineState == 0 then Sampling else Stalled)
    ensures Init(recordTime, machineState, lock).lock == lock
  {
  }

  lemma StepInv(s: State, e: Event)
    requires Inv(s)
    ensures Inv(Step(s, e).0)
  {
    match e
    case Edge(rd) =>
      if s.adcArmed && s.buf.index < SAMPLE_BUFFER_SIZE {
        CommitKeepsDoneExactly(s.buf, rd);
      }
    case _ =>
  }

  /** Every state a run reaches satisfies the invariant: in particular
      `0 <= sample_index <= SAMPLE_BUFFER_SIZE` and `sampling_done` holds
      exactly when the buffer is full. */
  lemma {:induction false} RunInv(s: State, es: seq<Event>)
    requires Inv(s)
    ensures Inv(Run(s, es).0)
  {
    if es != [] {
      RunInv(s, es[..|es| - 1]);
      StepInv(Run(s, es[..|es| - 1]).0, es[|es| - 1]);
    }
  }

  /** An edge while sampling with room left stores the read at the cursor and
      advances it by one; no other slot and no other global changes. */
  lemma EdgeStores(s: State, rd: Reading)
    requires Inv(s) && s.phase.Sampling? && s.buf.index < SAMPLE_BUFFER_SIZE
    ensures var s' := Step(s, Edge(rd)).0;
      && s'.buf.index == s.buf.index + 1
      && s'.buf.samples == s.buf.samples[s.buf.index := rd.value]
      && (s.buf.recordTime ==> s'.buf.stamps == s.buf.stamps[s.buf.index := rd.time])
      && s'.(buf := s.buf) == s
  {
  }

  /** An edge on a full buffer, or while the ADC interrupt is disabled,
      changes nothing and emits nothing. */
  lemma EdgeIgnored(s: State, rd: Reading)
    requires Inv(s) && (s.buf.index == SAMPLE_BUFFER_SIZE || !s.phase.Sampling?)
    ensures Step(s, Edge(rd)) == (s, [])
  {
  }

  /** One step that does not end the cycle changes the buffer only by
      committing the read of an accepted edge. */
  lemma StepBuffer(s: State, e: Event)
    requires Inv(s) && !e.TransferDone?
    ensures Step(s, e).0.buf == if e.Edge? && s.adcArmed then Commit(s.buf, e.reading) else s.buf
  {
    if e.Edge? && s.adcArmed && s.buf.index == SAMPLE_BUFFER_SIZE {
      CommitAtCapacity(s.buf, e.reading);
    }
  }

  /** Within a cycle only the accepted trigger edges touch the buffer: receiver
      edges, steps of `main` and ignored edges leave it as it was, so the
      buffer is the one the accepted reads commit, in order. */
  lemma {:induction false} CycleIsFill(s: State, es: seq<Event>)
    requires Inv(s) && NoTransferDone(es)
    ensures Run(s, es).0.buf == CommitAll(s.buf, Accepted(s, es))
  {
    if es != [] {
      var n := |es| - 1;
      CycleIsFill(s, es[..n]);
      RunInv(s, es[..n]);
      var p := Run(s, es[..n]).0;
      var rs := Accepted(s, es);
      assert !es[n].TransferDone?;
      StepBuffer(p, es[n]);
      assert Run(s, es).0 == Step(p, es[n]).0;
      if es[n].Edge? && p.adcArmed {
        assert rs[..|rs| - 1] == Accepted(s, es[..n]);
      } else {
        assert rs == Accepted(s, es[..n]);
      }
    }
  }

  /** From the start of a cycle (cursor 0, as after power-on or a reset), k
      accepted edges with k <= 100000 leave the cursor at k, the k reads (and
      times) in edge order in the first k slots, every later slot as the cycle
      found it, and `sampling_done` up exactly when k is 100000. */
  lemma CycleCaptures(s: State, es: seq<Event>)
    requires Inv(s) && s.buf.index == 0 && NoTransferDone(es)
    requires |Accepted(s, es)| <= SAMPLE_BUFFER_SIZE
    ensures var b := Run(s, es).0.buf;
      var rs := Accepted(s, es);
      && b.index == |rs|
      && b.samples[..|rs|] == Values(rs)
      && b.samples[|rs|..] == s.buf.samples[|rs|..]
      && (b.recordTime ==> b.stamps[..|rs|] == Times(rs))
      && (b.done <==> |rs| == SAMPLE_BUFFER_SIZE)
  {
    CycleIsFill(s, es);
    CommitAllFills(s.buf, Accepted(s, es));
    FillFromStart(s.buf, Accepted(s, es));
  }

  /** The prepare pulse is emitted by a step exactly when that step is an
      accepted edge moving the cursor from 98999 to 99000. */
  lemma PrepareExactlyAtThreshold(s: State, e: Event)
    requires Inv(s)
    ensures var o := Step(s, e).1;
      && (Prepare in o <==> e.Edge? && s.phase.Sampling? && s.buf.index == BUFFER_THRESHOLD - 1)
      && PrepareCount(o) == (if Prepare in o then 1 else 0)
  {
    var o := Step(s, e).1;
    PrepareCountAbsent(o);
    if Prepare in o {
      assert o == [Prepare];
    }
  }

  /** Within a cycle (no reset in between) the cursor never goes back, the
      done flag never drops, and the prepare pulse fires once if the cursor
      crossed the threshold and not at all otherwise: at most once per cycle. */
  lemma {:induction false} PrepareOncePerCycle(s: State, es: seq<Event>)
    requires Inv(s) && NoTransferDone(es)
    ensures var r := Run(s, es);
      && s.buf.index <= r.0.buf.index
      && (s.buf.done ==> r.0.buf.done)
      && PrepareCount(r.1) == (if s.buf.index < BUFFER_THRESHOLD <= r.0.buf.index then 1 else 0)
  {
    if es != [] {
      var n := |es| - 1;
      PrepareOncePerCycle(s, es[..n]);
      var p := Run(s, es[..n]);
      RunInv(s, es[..n]);
      PrepareExactlyAtThreshold(p.0, es[n]);
      PrepareCountAppend(p.1, Step(p.0, es[n]).1);
    }
  }

  /** What reaches the SPI peripheral is the complete, full buffer. */
  lemma TransmitIsFullBuffer(s: State, e: Event, ws: seq<u16>)
    requires Inv(s) && Transmit(ws) in Step(s, e).1
    ensures s.buf.index == SAMPLE_BUFFER_SIZE && ws == s.buf.samples[..s.buf.index]
  {
  }

  /** The end of a cycle: whatever the transfer reported, the buffer is all
      zeros, the cursor is 0, the flag is down, the node is locked, the counter
      has advanced by MACHINES_EMPLOYED modulo 2^32, and the next cycle stalls
      exactly when the new counter is nonzero. A short transfer is only
      reported on the console. */
  lemma ResetStartsNextCycle(s: State, n: int)
    requires Inv(s) && s.phase.Transferring?
    ensures var r := Step(s, TransferDone(n));
      && r.0.buf.samples == Zeros(SAMPLE_BUFFER_SIZE, 0)
      && r.0.buf.stamps == Zeros(|s.buf.stamps|, 0)
      && r.0.buf.index == 0 && !r.0.buf.done
      && r.0.lock
      && r.0.machineState == (s.machineState + MACHINES_EMPLOYED) % UINT_RANGE
      && r.0.phase == (if r.0.machineState >= 1 then Stalled else Sampling)
      && r.1 == (if n != SAMPLE_BUFFER_SIZE then [Incomplete] else [])
  {
  }

  /** The cycle after a reset: its k <= 100000 accepted edges leave exactly
      the k reads in edge order in the first k slots and zeros after them. */
  lemma NextCycleCaptures(s: State, n: int, es: seq<Event>)
    requires Inv(s) && s.phase.Transferring? && NoTransferDone(es)
    requires |Accepted(Step(s, TransferDone(n)).0, es)| <= SAMPLE_BUFFER_SIZE
    ensures var s1 := Step(s, TransferDone(n)).0;
      var b := Run(s1, es).0.buf;
      var rs := Accepted(s1, es);
      && b.index == |rs|
      && b.samples[..|rs|] == Values(rs)
      && (forall i :: |rs| <= i < SAMPLE_BUFFER_SIZE ==> b.samples[i] == 0)
      && (b.done <==> |rs| == SAMPLE_BUFFER_SIZE)
  {
    var s1 := Step(s, TransferDone(n)).0;
    ResetStartsNextCycle(s, n);
    StepInv(s, TransferDone(n));
    CycleCaptures(s1, es);
    var b := Run(s1, es).0.buf;
    var k := |Accepted(s1, es)|;
    forall i | k <= i < SAMPLE_BUFFER_SIZE
      ensures b.samples[i] == 0
    {
      assert b.samples[i] == b.samples[k..][i - k] == s1.buf.samples[k..][i - k];
    }
  }

  /** A stalled, locked node stays exactly as it is, and emits nothing, until
      an edge arrives on the receiver pin, however many other events happen. */
  lemma {:induction false} StallHoldsUntilRelease(s: State, es: seq<Event>)
    requires Inv(s) && s.phase.Stalled? && s.lock && NoRelease(es)
    ensures Run(s, es) == (s, [])
  {
    if es != [] {
      var n := |es| - 1;
      StallHoldsUntilRelease(s, es[..n]);
      assert !es[n].Release?;
      assert Step(s, es[n]) == (s, []);
      assert |Run(s, es).1| == 0;
    }
  }

  /** The receiver edge unlocks a stalled node and the next step of `main`
      starts sampling. */
  lemma ReleaseStartsSampling(s: State)
    requires Inv(s) && s.phase.Stalled?
    ensures var s' := Step(Step(s, Release).0, Poll).0;
      s'.phase.Sampling? && !s'.lock && s'.buf == s.buf
  {
  }

  /** One step advances the counter exactly when it completes a cycle. */
  lemma StepCounter(s: State, e: Event)
    requires WellFormed(s.buf)
    ensures Step(s, e).0.machineState
      == if s.phase.Transferring? && e.TransferDone? then Advance(s.machineState, MACHINES_EMPLOYED, UINT_RANGE) else s.machineState
  {
  }

  /** The counter a run ends with is the start value advanced once per reset. */
  lemma {:induction false} RunCounter(s: State, es: seq<Event>)
    requires WellFormed(s.buf)
    ensures Run(s, es).0.machineState == CounterAfter(s.machineState, MACHINES_EMPLOYED, UINT_RANGE, Resets(s, es))
  {
    if es != [] {
      var n := |es| - 1;
      RunCounter(s, es[..n]);
      StepCounter(Run(s, es[..n]).0, es[n]);
    }
  }

  /** The head node (counter 0, unlocked) skips the stall on its first cycle
      and, whatever the transfer returned, stalls on every later one (for
      the first 2^31 - 1 cycles, after which the 32-bit counter returns to 0). */
  lemma HeadStallsAfterFirstCycle(recordTime: bool, es: seq<Event>, n: int)
    requires Resets(Init(recordTime, 0, false), es) + 1 < UINT_RANGE / 2
    ensures Init(recordTime, 0, false).phase.Sampling?
    ensures var s0 := Init(recordTime, 0, false);
      var s := Run(s0, es).0;
      s.phase.Transferring? ==>
        var s' := Step(s, TransferDone(n)).0;
        s'.phase.Stalled? && s'.lock
  {
    var s0 := Init(recordTime, 0, false);
    InitInv(recordTime, 0, false);
    var s := Run(s0, es).0;
    if s.phase.Transferring? {
      RunInv(s0, es);
      RunCounter(s0, es);
      CountByTwoFromZero(Resets(s0, es) + 1);
      ResetStartsNextCycle(s, n);
    }
  }

  /** A non-head node (counter 1, locked) stalls before its first cycle and,
      its counter staying odd, before every later one, whether the transfer
      before it was complete or short. */
  lemma FollowerAlwaysStalls(recordTime: bool, es: seq<Event>, n: int)
    ensures Init(recordTime, 1, true).phase.Stalled? && Init(recordTime, 1, true).lock
    ensures var s0 := Init(recordTime, 1, true);
      var s := Run(s0, es).0;
      s.phase.Transferring? ==>
        var s' := Step(s, TransferDone(n)).0;
        s'.phase.Stalled? && s'.lock
  {
    var s0 := Init(recordTime, 1, true);
    InitInv(recordTime, 1, true);
    var s := Run(s0, es).0;
    if s.phase.Transferring? {
      RunInv(s0, es);
      RunCounter(s0, es);
      CountByTwoFromOneStaysOdd(Resets(s0, es) + 1);
      ResetStartsNextCycle(s, n);
    }
  }

  // ---------------------------------------------------------------------
  // The firmware's globals, updated in place
  // ---------------------------------------------------------------------

  class Node {
    const buf: SampleBuffer
    var lock: bool
    var machineState: nat
    var phase: Phase
    var unlockArmed: bool
    var adcArmed: bool
    var outputs: seq<Output>

    ghost predicate Valid()
      reads this, buf
    {
      buf.Valid() && buf.samples.Length == SAMPLE_BUFFER_SIZE
    }

    ghost function Abs(): State
      reads this, buf, buf.samples, buf.stamps
      requires Valid()
    {
      State(buf.Abs(), lock, machineState, phase, unlockArmed, adcArmed)
    }

    constructor (recordTime: bool, machineState: u32, lock: bool)
      ensures Valid() && fresh(buf) && fresh(buf.samples) && fresh(buf.stamps)
      ensures Abs() == Init(recordTime, machineState, lock) && outputs == []
    {
      buf := new SampleBuffer(SAMPLE_BUFFER_SIZE, recordTime);
      this.lock := lock;
      this.machineState := machineState;
      phase := Stalled;
      unlockArmed := false;
      adcArmed := false;
      outputs := [];
      new;
      EnterLoopBody();
    }

    /** Top of the loop body: pick the stall or go straight to sampling. */
    method EnterLoopBody()
      requires Valid()
      modifies this`phase, this`unlockArmed, this`adcArmed
      ensures Valid() && Abs() == BeginCycle(old(Abs()))
    {
      if machineState >= 1 {
        unlockArmed := true;
        phase := Stalled;
      } else {
        adcArmed := true;
        phase := Sampling;
      }
    }

    /** `unlock_trigger_callback`. */
    method UnlockTriggerCallback()
      requires Valid()
      modifies this`lock
      ensures Valid() && Abs() == old(Abs()).(lock := false)
    {
      lock := false;
    }

    /** `ADC_trigger_callback`. */
    method AdcTriggerCallback(rd: Reading)
      requires Valid()
      modifies buf, buf.samples, buf.stamps, this`outputs
      ensures Valid()
      ensures Abs() == AdcTrigger(old(Abs()), rd).0
      ensures outputs == old(outputs) + AdcTrigger(old(Abs()), rd).1
    {
      if buf.index < SAMPLE_BUFFER_SIZE {
        var _ := buf.Record(rd);
        if buf.index == BUFFER_THRESHOLD {
          outputs := outputs + [Prepare];
        }
      }
    }

    /** `clear_buffer`. */
    method ClearBuffer() returns (result: int)
      requires Valid()
      modifies buf.samples, buf.stamps
      ensures Valid() && result == 0
      ensures buf.Abs() == Cleared(old(buf.Abs()))
    {
      buf.Clear();
      result := 0;
    }

    /** One atomic step: a callback, or the main loop moving on. */
    method Handle(e: Event)
      requires Valid()
      modifies this, buf, buf.samples, buf.stamps
      ensures Valid()
      ensures Abs() == Step(old(Abs()), e).0
      ensures outputs == old(outputs) + Step(old(Abs()), e).1
    {
      match e
      case Release =>
        if unlockArmed {
          UnlockTriggerCallback();
        }
      case Edge(rd) =>
        if adcArmed {
          AdcTriggerCallback(rd);
        }
      case Poll =>
        if phase.Stalled? && !lock {
          unlockArmed := false;
          adcArmed := true;
          phase := Sampling;
        } else if phase.Sampling? && buf.done {
          adcArmed := false;
          outputs := outputs + [TransferSignal, Transmit(buf.samples[..])];
          phase := Transferring;
        }
      case TransferDone(n) =>
        if phase.Transferring? {
          if n != SAMPLE_BUFFER_SIZE {
            outputs := outputs + [Incomplete];
          }
          var _ := ClearBuffer();
          buf.Rewind(true);
          lock := true;
          machineState := (machineState + MACHINES_EMPLOYED) % UINT_RANGE;
          EnterLoopBody();
        }
      case ClearDone(_) =>
    }

    /** Feed a finite prefix of the node's life through it. */
    method Replay(es: seq<Event>)
      requires Valid()
      modifies this, buf, buf.samples, buf.stamps
      ensures Valid()
      ensures Abs() == Run(old(Abs()), es).0
      ensures outputs == old(outputs) + Run(old(Abs()), es).1
    {
      ghost var s0 := Abs();
      ghost var o0 := outputs;
      for i := 0 to |es|
        invariant Valid()
        invariant Abs() == Run(s0, es[..i]).0
        invariant outputs == o0 + Run(s0, es[..i]).1
      {
        assert es[..i + 1][..i] == es[..i];
        ghost var r := Run(s0, es[..i]);
        Handle(es[i]);
        assert Run(s0, es[..i + 1]) == (Step(r.0, es[i]).0, r.1 + Step(r.0, es[i]).1);
      }
      assert es[..|es|] == es;
    }
  }
}
