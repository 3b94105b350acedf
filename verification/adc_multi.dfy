/**
  The `adc_multi` node firmware: a 32768-sample buffer with timestamps, a
  sender pin merely reconfigured (no pulse) at sample 22222, a stall taken
  while the 16-bit `machine_state` is at most 1, and a `goto`-based cycle
  whose transfer and clear routines are stubs.

  The stubs have no body, so what they return is not fixed by the code: the
  model takes each result as an event parameter, and a nonzero result ends
  `main` with return code 1. Neither pin interrupt is ever disabled once
  enabled. The reset neither clears the buffer nor lowers `sampling_done`.
 */
module AdcMulti {
  import opened Wire
  import opened Sampler
  import opened Cycle

  const SAMPLE_BUFFER_SIZE: nat := 32768
  const BUFFER_THRESHOLD: nat := 22222
  const MACHINES_EMPLOYED: nat := 3
  /** `machine_state` is an `unsigned short`: it wraps at 2^16. */
  const USHORT_RANGE: nat := 0x1_0000

  datatype State = State(
    buf: Buffer,
    lock: bool,
    machineState: nat,
    phase: Phase,
    unlockArmed: bool,   // receiver-pin interrupt enabled (rising edge)
    adcArmed: bool)      // ADC-trigger-pin interrupt enabled (rising edge)

  /** What every reachable state satisfies. Note that `sampling_done` is only
      implied by a full buffer, not equivalent to it. */
  predicate Inv(s: State) {
    && WellFormed(s.buf) && |s.buf.samples| == SAMPLE_BUFFER_SIZE && s.buf.recordTime
    && (s.buf.index == SAMPLE_BUFFER_SIZE ==> s.buf.done)
    && s.machineState < USHORT_RANGE
    && !s.phase.Finished?
    && (s.phase.Halted? ==> s.phase.code == 1)
    && (s.phase.Stalled? ==> s.unlockArmed)
    && (!s.phase.Stalled? ==> s.adcArmed)
    && (s.phase.Transferring? || s.phase.Clearing? ==> s.buf.done)
  }

  /** `labelStall`: stall while `machine_state <= 1`, then sample. */
  function BeginCycle(s: State): State {
    if s.machineState <= 1 then s.(phase := Stalled, unlockArmed := true)
    else s.(phase := Sampling, adcArmed := true)
  }

  /** Power-on: as shipped, `machine_state` is 1 and `lock` is false. */
  function Init(machineState: nat, lock: bool): State
    requires machineState < USHORT_RANGE
  {
    BeginCycle(State(Empty(SAMPLE_BUFFER_SIZE, true), lock, machineState, Stalled, false, false))
  }

  /** `ADC_trigger_callback`: the common fill rule; at the threshold the
      sender pin is only turned into a pulled-up output. */
  function AdcTrigger(s: State, r: Reading): (State, seq<Output>)
    requires WellFormed(s.buf)
  {
    if s.buf.index < SAMPLE_BUFFER_SIZE then
      var b := Commit(s.buf, r);
      (s.(buf := b), if b.index == BUFFER_THRESHOLD then [Reconfigure] else [])
    else
      (s, [])
  }

  /** The end of the loop body: counter, lock and cursor only. */
  function Reset(s: State): State
    requires WellFormed(s.buf)
  {
    s.(machineState := Advance(s.machineState, MACHINES_EMPLOYED, USHORT_RANGE),
       lock := true,
       buf := Rewound(s.buf, false))
  }

  function Step(s: State, e: Event): (r: (State, seq<Output>))
    requires WellFormed(s.buf)
    ensures WellFormed(r.0.buf) && |r.0.buf.samples| == |s.buf.samples|
    ensures r.0.buf.recordTime == s.buf.recordTime
  {
    match e
    case Release =>
      (if s.unlockArmed then s.(lock := false) else s, [])
    case Edge(rd) =>
      if s.adcArmed then AdcTrigger(s, rd) else (s, [])
    case Poll =>
      if s.phase.Stalled? && !s.lock then
        (s.(phase := Sampling, adcArmed := true), [])
      else if s.phase.Sampling? && s.buf.done then
        (s.(phase := Transferring), [])
      else
        (s, [])
    case TransferDone(n) =>
      if s.phase.Transferring? then
        (s.(phase := if n != 0 then Halted(1) else Clearing), [])
      else
        (s, [])
    case ClearDone(n) =>
      if s.phase.Clearing? then
        (if n != 0 then s.(phase := Halted(1)) else BeginCycle(Reset(s)), [])
      else
        (s, [])
  }

  /** A finite prefix of the node's life, defined as `AdcA.Run` is but over
      this variant's states and steps. */
  function Run(s: State, es: seq<Event>): (r: (State, seq<Output>))
    requires WellFormed(s.buf)
    ensures WellFormed(r.0.buf) && |r.0.buf.samples| == |s.buf.samples|
  {
    if es == [] then (s, [])
    else
      var p := Run(s, es[..|es| - 1]);
      var q := Step(p.0, es[|es| - 1]);
      (q.0, p.1 + q.1)
  }

  /** The reads of the trigger edges the node acts on in a run, oldest first:
      those that arrive while the trigger interrupt is enabled. */
  function Accepted(s: State, es: seq<Event>): (rs: seq<Reading>)
    requires WellFormed(s.buf)
    ensures |rs| <= |es|
  {
    if es == [] then []
    else
      var n := |es| - 1;
      Accepted(s, es[..n]) + (if es[n].Edge? && Run(s, es[..n]).0.adcArmed then [es[n].reading] else [])
  }

  /** No return of the clear routine: the trace stays within one cycle. */
  predicate NoClearDone(es: seq<Event>) {
    forall i :: 0 <= i < |es| ==> !es[i].ClearDone?
  }

  /** The number of completed cycles (resets) in a run. */
  function Resets(s: State, es: seq<Event>): nat
    requires WellFormed(s.buf)
  {
    if es == [] then 0
    else
      var n := |es| - 1;
      Resets(s, es[..n]) + (if Run(s, es[..n]).0.phase.Clearing? && es[n] == ClearDone(0) then 1 else 0)
  }

  // ---------------------------------------------------------------------
  // Properties
  // ---------------------------------------------------------------------

  /** As shipped, the node enters the stall with `lock` already false, so
      the first step of `main` moves on to sampling. */
  lemma InitInv(machineState: nat, lock: bool)
    requires machineState < USHORT_RANGE
    ensures Inv(Init(machineState, lock))
    ensures Init(machineState, lock).phase == (if machineState <= 1 then Stalled else Sampling)
    ensures Step(Init(1, false), Poll).0.phase.Sampling?
  {
  }

  lemma StepInv(s: State, e: Event)
    requires Inv(s)
    ensures Inv(Step(s, e).0)
  {
  }

  lemma {:induction false} RunInv(s: State, es: seq<Event>)
    requires Inv(s)
    ensures Inv(Run(s, es).0)
  {
    if es != [] {
      RunInv(s, es[..|es| - 1]);
      StepInv(Run(s, es[..|es| - 1]).0, es[|es| - 1]);
    }
  }

  /** An accepted edge stores the read and its time at the cursor and
      advances it by one; nothing else changes. */
  lemma EdgeStores(s: State, rd: Reading)
    requires Inv(s) && s.adcArmed && s.buf.index < SAMPLE_BUFFER_SIZE
    ensures var s' := Step(s, Edge(rd)).0;
      && s'.buf.index == s.buf.index + 1
      && s'.buf.samples == s.buf.samples[s.buf.index := rd.value]
      && s'.buf.stamps == s.buf.stamps[s.buf.index := rd.time]
      && (s'.buf.done <==> s.buf.done || s'.buf.index == SAMPLE_BUFFER_SIZE)
      && s'.(buf := s.buf) == s
  {
  }

  /** Edges on a full buffer, or before the ADC interrupt is enabled, are no-ops. */
  lemma EdgeIgnored(s: State, rd: Reading)
    requires Inv(s) && (s.buf.index == SAMPLE_BUFFER_SIZE || !s.adcArmed)
    ensures Step(s, Edge(rd)) == (s, [])
  {
  }

  /** No prepare pulse is ever sent; the sender pin is reconfigured exactly on
      the edge that moves the cursor to 22222. */
  lemma ReconfigureExactlyAtThreshold(s: State, e: Event)
    requires Inv(s)
    ensures var o := Step(s, e).1;
      && Prepare !in o
      && (Reconfigure in o <==> e.Edge? && s.adcArmed && s.buf.index == BUFFER_THRESHOLD - 1)
  {
  }

  /** `sampling_done` is never lowered: once raised it stays for good. */
  lemma {:induction false} DoneNeverLowered(s: State, es: seq<Event>)
    requires Inv(s) && s.buf.done
    ensures Run(s, es).0.buf.done
  {
    if es != [] {
      var n := |es| - 1;
      DoneNeverLowered(s, es[..n]);
      StepKeepsDone(Run(s, es[..n]).0, es[n]);
    }
  }

  /** No single step lowers `sampling_done`. */
  lemma StepKeepsDone(s: State, e: Event)
    requires WellFormed(s.buf) && s.buf.done
    ensures Step(s, e).0.buf.done
  {
  }

  /** Hence, after the first cycle, every sampling wait ends at the first
      step of `main`, whatever the cursor: the transfer starts on a buffer
      that may hold no new samples at all. */
  lemma LaterSamplingEndsAtOnce(s: State)
    requires Inv(s) && s.phase.Clearing?
    ensures var r := Step(s, ClearDone(0)).0;
      && r.buf.done && r.buf.index == 0
      && (r.phase.Sampling? ==> Step(r, Poll).0.phase.Transferring?)
  {
  }

  /** One step that does not end the cycle changes the buffer only by
      committing the read of an accepted edge. */
  lemma StepBuffer(s: State, e: Event)
    requires Inv(s) && !e.ClearDone?
    ensures Step(s, e).0.buf == if e.Edge? && s.adcArmed then Commit(s.buf, e.reading) else s.buf
  {
    if e.Edge? && s.adcArmed && s.buf.index == SAMPLE_BUFFER_SIZE {
      CommitAtCapacity(s.buf, e.reading);
    }
  }

  /** Within a cycle only the accepted trigger edges touch the buffer: the
      receiver edge, steps of `main`, the transfer stub's return and ignored
      edges leave it as it was. */
  lemma {:induction false} CycleIsFill(s: State, es: seq<Event>)
    requires Inv(s) && NoClearDone(es)
    ensures Run(s, es).0.buf == CommitAll(s.buf, Accepted(s, es))
  {
    if es != [] {
      var n := |es| - 1;
      CycleIsFill(s, es[..n]);
      RunInv(s, es[..n]);
      var p := Run(s, es[..n]).0;
      var rs := Accepted(s, es);
      assert !es[n].ClearDone?;
      StepBuffer(p, es[n]);
      assert Run(s, es).0 == Step(p, es[n]).0;
      if es[n].Edge? && p.adcArmed {
        assert rs[..|rs| - 1] == Accepted(s, es[..n]);
      } else {
        assert rs == Accepted(s, es[..n]);
      }
    }
  }

  /** From a rewound cursor, k <= 32768 accepted edges leave the cursor at k
      and the k reads and times in edge order in the first k slots, every
      later slot as the cycle found it; since the reset does not lower
      `sampling_done`, the flag is up if it was already, or if the k-th edge
      filled the buffer. */
  lemma CycleCaptures(s: State, es: seq<Event>)
    requires Inv(s) && s.buf.index == 0 && NoClearDone(es)
    requires |Accepted(s, es)| <= SAMPLE_BUFFER_SIZE
    ensures var b := Run(s, es).0.buf;
      var rs := Accepted(s, es);
      && b.recordTime
      && b.index == |rs|
      && b.samples[..|rs|] == Values(rs)
      && b.samples[|rs|..] == s.buf.samples[|rs|..]
      && b.stamps[..|rs|] == Times(rs)
      && b.stamps[|rs|..] == s.buf.stamps[|rs|..]
      && (b.done <==> s.buf.done || (rs != [] && |rs| == SAMPLE_BUFFER_SIZE))
  {
    CycleIsFill(s, es);
    CommitAllFills(s.buf, Accepted(s, es));
    assert s.buf.samples[..0] == [] && s.buf.stamps[..0] == [];
  }

  /** A successful reset: cursor 0, `lock` true, the counter advanced by 3
      modulo 2^16; the samples, the timestamps and the flag are untouched. */
  lemma ResetEffect(s: State)
    requires Inv(s) && s.phase.Clearing?
    ensures var r := Step(s, ClearDone(0)).0;
      && r.buf == s.buf.(index := 0)
      && r.lock
      && r.machineState == (s.machineState + MACHINES_EMPLOYED) % USHORT_RANGE
      && r.phase == (if r.machineState <= 1 then Stalled else Sampling)
  {
  }

  /** A nonzero result from either stub ends `main` with return code 1. */
  lemma FailureHalts(s: State, n: int)
    requires Inv(s) && n != 0
    ensures s.phase.Transferring? ==> Step(s, TransferDone(n)).0 == s.(phase := Halted(1))
    ensures s.phase.Clearing? ==> Step(s, ClearDone(n)).0 == s.(phase := Halted(1))
  {
  }

  /** Once `main` has returned it stays returned. */
  lemma {:induction false} HaltedStays(s: State, es: seq<Event>)
    requires Inv(s) && s.phase.Halted?
    ensures Run(s, es).0.phase == s.phase
  {
    if es != [] {
      HaltedStays(s, es[..|es| - 1]);
    }
  }

  /** One step advances the counter exactly when it completes a cycle. */
  lemma StepCounter(s: State, e: Event)
    requires WellFormed(s.buf)
    ensures Step(s, e).0.machineState
      == if s.phase.Clearing? && e == ClearDone(0) then Advance(s.machineState, MACHINES_EMPLOYED, USHORT_RANGE) else s.machineState
  {
  }

  lemma {:induction false} RunCounter(s: State, es: seq<Event>)
    requires WellFormed(s.buf)
    ensures Run(s, es).0.machineState == CounterAfter(s.machineState, MACHINES_EMPLOYED, USHORT_RANGE, Resets(s, es))
  {
    if es != [] {
      var n := |es| - 1;
      RunCounter(s, es[..n]);
      StepCounter(Run(s, es[..n]).0, es[n]);
    }
  }

  /** From 1, the counter reads 1 + 3k for k < 21845 cycles. */
  lemma {:induction false} CountByThree(k: nat)
    requires k < 21845
    ensures CounterAfter(1, MACHINES_EMPLOYED, USHORT_RANGE, k) == 1 + 3 * k
  {
    if k > 0 {
      CountByThree(k - 1);
    }
  }

  /** After cycle 21845 the 16-bit counter wraps to exactly 0. */
  lemma CounterWrapsToZero()
    ensures CounterAfter(1, MACHINES_EMPLOYED, USHORT_RANGE, 21845) == 0
  {
    CountByThree(21844);
    var c := CounterAfter(1, MACHINES_EMPLOYED, USHORT_RANGE, 21844);
    assert c == 65533;
    assert CounterAfter(1, MACHINES_EMPLOYED, USHORT_RANGE, 21845) == Advance(c, MACHINES_EMPLOYED, USHORT_RANGE);
  }

  /** As shipped, every reset before the 21845th is followed by sampling
      with no stall, and the 21845th is followed by a stall again, because
      the counter has wrapped to 0. */
  lemma StallSkippedUntilWrap(es: seq<Event>)
    ensures var s0 := Init(1, false);
      var s := Run(s0, es).0;
      var k := Resets(s0, es) + 1;
      s.phase.Clearing? && k <= 21845 ==>
        var s' := Step(s, ClearDone(0)).0;
        (s'.phase.Stalled? <==> k == 21845)
  {
    var s0 := Init(1, false);
    InitInv(1, false);
    RunInv(s0, es);
    RunCounter(s0, es);
    var k := Resets(s0, es) + 1;
    if k < 21845 {
      CountByThree(k);
    } else if k == 21845 {
      CounterWrapsToZero();
    }
  }

  // ---------------------------------------------------------------------
  // The firmware's globals, updated in place
  // ---------------------------------------------------------------------

  class Node {
    const buf: SampleBuffer
    var lock: bool
    var machineState: nat
    var phase: Phase
    var unlockArmed: bool
    var adcArmed: bool
    var outputs: seq<Output>

    ghost predicate Valid()
      reads this, buf
    {
      buf.Valid() && buf.samples.Length == SAMPLE_BUFFER_SIZE && buf.recordTime
    }

    ghost function Abs(): State
      reads this, buf, buf.samples, buf.stamps
      requires Valid()
    {
      State(buf.Abs(), lock, machineState, phase, unlockArmed, adcArmed)
    }

    constructor (machineState: nat, lock: bool)
      requires machineState < USHORT_RANGE
      ensures Valid() && fresh(buf) && fresh(buf.samples) && fresh(buf.stamps)
      ensures Abs() == Init(machineState, lock) && outputs == []
    {
      buf := new SampleBuffer(SAMPLE_BUFFER_SIZE, true);
      this.lock := lock;
      this.machineState := machineState;
      phase := Stalled;
      unlockArmed := false;
      adcArmed := false;
      outputs := [];
      new;
      EnterStall();
    }

    /** `labelStall`. */
    method EnterStall()
      requires Valid()
      modifies this`phase, this`unlockArmed, this`adcArmed
      ensures Valid() && Abs() == BeginCycle(old(Abs()))
    {
      if machineState <= 1 {
        unlockArmed := true;
        phase := Stalled;
      } else {
        adcArmed := true;
        phase := Sampling;
      }
    }

    /** `ADC_trigger_callback`. */
    method AdcTriggerCallback(rd: Reading)
      requires Valid()
      modifies buf, buf.samples, buf.stamps, this`outputs
      ensures Valid()
      ensures Abs() == AdcTrigger(old(Abs()), rd).0
      ensures outputs == old(outputs) + AdcTrigger(old(Abs()), rd).1
    {
      if buf.index < SAMPLE_BUFFER_SIZE {
        var _ := buf.Record(rd);
        if buf.index == BUFFER_THRESHOLD {
          outputs := outputs + [Reconfigure];
        }
      }
    }

    method Handle(e: Event)
      requires Valid()
      modifies this, buf, buf.samples, buf.stamps
      ensures Valid()
      ensures Abs() == Step(old(Abs()), e).0
      ensures outputs == old(outputs) + Step(old(Abs()), e).1
    {
      match e
      case Release =>
        if unlockArmed {
          lock := false;
        }
      case Edge(rd) =>
        if adcArmed {
          AdcTriggerCallback(rd);
        }
      case Poll =>
        if phase.Stalled? && !lock {
          adcArmed := true;
          phase := Sampling;
        } else if phase.Sampling? && buf.done {
          phase := Transferring;
        }
      case TransferDone(n) =>
        if phase.Transferring? {
          phase := if n != 0 then Halted(1) else Clearing;
        }
      case ClearDone(n) =>
        if phase.Clearing? {
          if n != 0 {
            phase := Halted(1);
          } else {
            machineState := (machineState + MACHINES_EMPLOYED) % USHORT_RANGE;
            lock := true;
            buf.Rewind(false);
            EnterStall();
          }
        }
    }

    /** Feed a finite prefix of the node's life through it, as
        `AdcA.Node.Replay` does. */
    method Replay(es: seq<Event>)
      requires Valid()
      modifies this, buf, buf.samples, buf.stamps
      ensures Valid()
      ensures Abs() == Run(old(Abs()), es).0
      ensures outputs == old(outputs) + Run(old(Abs()), es).1
    {
      ghost var s0 := Abs();
      ghost var o0 := outputs;
      for i := 0 to |es|
        invariant Valid()
        invariant Abs() == Run(s0, es[..i]).0
        invariant outputs == o0 + Run(s0, es[..i]).1
      {
        assert es[..i + 1][..i] == es[..i];
        ghost var r := Run(s0, es[..i]);
        Handle(es[i]);
        assert Run(s0, es[..i + 1]) == (Step(r.0, es[i]).0, r.1 + Step(r.0, es[i]).1);
      }
      assert es[..|es|] == es;
    }
  }
}
