/**
  The `adc_B` node firmware: a 12000-sample buffer with a 16-bit cursor, a
  prepare pulse on the sender pin at sample 11900, a stall released by a
  rising edge on the receiver pin whose callback disables its own interrupt,
  the transfer handed to `send_data_via_spi`, and the same reset as `adc_A`.

  The transfer routine is one abstract step: the node hands it the buffer
  and the model lets it return with any result, which this variant ignores.
  Timestamps exist only in builds with RECORD_TIME, a parameter here.
 */
module AdcB {
  import opened Wire
  import opened Sampler
  import opened Cycle

  const SAMPLE_BUFFER_SIZE: nat := 12000
  const BUFFER_THRESHOLD: nat := 11900
  const MACHINES_EMPLOYED: nat := 2
  /** `sample_index` is a `uint16_t`. */
  const INDEX_RANGE: nat := 0x1_0000

  datatype State = State(
    buf: Buffer,
    lock: bool,
    machineState: nat,
    phase: Phase,
    unlockArmed: bool,   // receiver-pin interrupt enabled (rising edge)
    adcArmed: bool)      // ADC-trigger-pin interrupt enabled (rising edge)

  /** What every reachable state satisfies. */
  predicate Inv(s: State) {
    && WellFormed(s.buf) && |s.buf.samples| == SAMPLE_BUFFER_SIZE
    && DoneExactly(s.buf)
    && s.buf.index < INDEX_RANGE
    && s.machineState < UINT_RANGE
    && (s.phase.Stalled? || s.phase.Sampling? || s.phase.Transferring?)
    && (s.unlockArmed ==> s.phase.Stalled?)
    && (s.phase.Stalled? && s.lock ==> s.unlockArmed)
    && s.adcArmed == s.phase.Sampling?
    && (s.phase.Transferring? ==> s.buf.done)
  }

  /** Top of the `while(true)` body: stall when `machine_state >= 1`. */
  function BeginCycle(s: State): State {
    if s.machineState >= 1 then s.(phase := Stalled, unlockArmed := true)
    else s.(phase := Sampling, adcArmed := true)
  }

  /** Power-on: as shipped, `machine_state` is 1 and `lock` is true. */
  function Init(recordTime: bool, machineState: u32, lock: bool): State {
    BeginCycle(State(Empty(SAMPLE_BUFFER_SIZE, recordTime), lock, machineState, Stalled, false, false))
  }

  /** `ADC_trigger_callback`. */
  function AdcTrigger(s: State, r: Reading): (State, seq<Output>)
    requires WellFormed(s.buf)
  {
    if s.buf.index < SAMPLE_BUFFER_SIZE then
      var b := Commit(s.buf, r);
      (s.(buf := b), if b.index == BUFFER_THRESHOLD then [Prepare] else [])
    else
      (s, [])
  }

  /** `unlock_trigger_callback`: disable the receiver interrupt, then unlock. */
  function Unlock(s: State): State {
    s.(unlockArmed := false, lock := false)
  }

  /** The reset after the transfer; `clear_buffer` always returns 0. */
  function Reset(s: State): State
    requires WellFormed(s.buf)
  {
    s.(buf := Rewound(Cleared(s.buf), true),
       machineState := Advance(s.machineState, MACHINES_EMPLOYED, UINT_RANGE),
       lock := true)
  }

  /** One atomic step of the node. */
  function Step(s: State, e: Event): (r: (State, seq<Output>))
    requires WellFormed(s.buf)
    ensures WellFormed(r.0.buf) && |r.0.buf.samples| == |s.buf.samples|
  {
    match e
    case Release =>
      (if s.unlockArmed then Unlock(s) else s, [])
    case Edge(rd) =>
      if s.adcArmed then AdcTrigger(s, rd) else (s, [])
    case Poll =>
      if s.phase.Stalled? && !s.lock then
        (s.(phase := Sampling, unlockArmed := false, adcArmed := true), [])
      else if s.phase.Sampling? && s.buf.done then
        (s.(phase := Transferring, adcArmed := false), [Transmit(s.buf.samples)])
      else
        (s, [])
    case TransferDone(_) =>
      (if s.phase.Transferring? then BeginCycle(Reset(s)) else s, [])
    case ClearDone(_) =>
      (s, [])
  }

  /** A finite prefix of the node's life, defined as `AdcA.Run` is but over
      this variant's states and steps. */
  function Run(s: State, es: seq<Event>): (r: (State, seq<Output>))
    requires WellFormed(s.buf)
    ensures WellFormed(r.0.buf) && |r.0.buf.samples| == |s.buf.samples|
  {
    if es == [] then (s, [])
    else
      var p := Run(s, es[..|es| - 1]);
      var q := Step(p.0, es[|es| - 1]);
      (q.0, p.1 + q.1)
  }

  function Resets(s: State, es: seq<Event>): nat
    requires WellFormed(s.buf)
  {
    if es == [] then 0
    else
      var n := |es| - 1;
      Resets(s, es[..n]) + (if Run(s, es[..n]).0.phase.Transferring? && es[n].TransferDone? then 1 else 0)
  }

  /** The reads of the trigger edges the node acts on in a run, oldest first:
      those that arrive while the ADC interrupt is enabled. */
  function Accepted(s: State, es: seq<Event>): (rs: seq<Reading>)
    requires WellFormed(s.buf)
    ensures |rs| <= |es|
  {
    if es == [] then []
    else
      var n := |es| - 1;
      Accepted(s, es[..n]) + (if es[n].Edge? && Run(s, es[..n]).0.adcArmed then [es[n].reading] else [])
  }

  predicate NoTransferDone(es: seq<Event>) {
    forall i :: 0 <= i < |es| ==> !es[i].TransferDone?
  }

  predicate NoRelease(es: seq<Event>) {
    forall i :: 0 <= i < |es| ==> !es[i].Release?
  }

  // ---------------------------------------------------------------------
  // Properties
  // ---------------------------------------------------------------------

  lemma InitInv(recordTime: bool, machineState: u32, lock: bool)
    ensures Inv(Init(recordTime, machineState, lock))
    ensures Init(recordTime, machineState, lock).phase == (if machineState == 0 then Sampling else Stalled)
  {
  }

  /** As shipped (counter 1, locked) the node stalls before its first
      sampling phase. */
  lemma StartsStalled(recordTime: bool)
    ensures var s := Init(recordTime, 1, true);
      Inv(s) && s.phase.Stalled? && s.lock && s.unlockArmed && !s.adcArmed
  {
  }

  lemma StepInv(s: State, e: Event)
    requires Inv(s)
    ensures Inv(Step(s, e).0)
  {
    match e
    case Edge(rd) =>
      if s.adcArmed && s.buf.index < SAMPLE_BUFFER_SIZE {
        CommitKeepsDoneExactly(s.buf, rd);
      }
    case _ =>
  }

  /** Every reachable state keeps `sample_index` within capacity, which fits
      its 16-bit type, and `sampling_done` exactly at capacity. */
  lemma {:induction false} RunInv(s: State, es: seq<Event>)
    requires Inv(s)
    ensures Inv(Run(s, es).0)
  {
    if es != [] {
      RunInv(s, es[..|es| - 1]);
      StepInv(Run(s, es[..|es| - 1]).0, es[|es| - 1]);
    }
  }

  /** An accepted edge stores the read at the cursor and advances it by one;
      nothing else changes. */
  lemma EdgeStores(s: State, rd: Reading)
    requires Inv(s) && s.phase.Sampling? && s.buf.index < SAMPLE_BUFFER_SIZE
    ensures var s' := Step(s, Edge(rd)).0;
      && s'.buf.index == s.buf.index + 1 < INDEX_RANGE
      && s'.buf.samples == s.buf.samples[s.buf.index := rd.value]
      && (s.buf.recordTime ==> s'.buf.stamps == s.buf.stamps[s.buf.index := rd.time])
      && (s'.buf.done <==> s'.buf.index == SAMPLE_BUFFER_SIZE)
      && s'.(buf := s.buf) == s
  {
  }

  /** Edges on a full buffer, or while the ADC interrupt is off, are no-ops. */
  lemma EdgeIgnored(s: State, rd: Reading)
    requires Inv(s) && (s.buf.index == SAMPLE_BUFFER_SIZE || !s.phase.Sampling?)
    ensures Step(s, Edge(rd)) == (s, [])
  {
  }

  /** One step that does not end the cycle changes the buffer only by
      committing the read of an accepted edge. */
  lemma StepBuffer(s: State, e: Event)
    requires Inv(s) && !e.TransferDone?
    ensures Step(s, e).0.buf == if e.Edge? && s.adcArmed then Commit(s.buf, e.reading) else s.buf
  {
    if e.Edge? && s.adcArmed && s.buf.index == SAMPLE_BUFFER_SIZE {
      CommitAtCapacity(s.buf, e.reading);
    }
  }

  /** Within a cycle only the accepted trigger edges touch the buffer: receiver
      edges, steps of `main` and ignored edges leave it as it was, so the
      buffer is the one the accepted reads commit, in order. */
  lemma {:induction false} CycleIsFill(s: State, es: seq<Event>)
    requires Inv(s) && NoTransferDone(es)
    ensures Run(s, es).0.buf == CommitAll(s.buf, Accepted(s, es))
  {
    if es != [] {
      var n := |es| - 1;
      CycleIsFill(s, es[..n]);
      RunInv(s, es[..n]);
      var p := Run(s, es[..n]).0;
      var rs := Accepted(s, es);
      assert !es[n].TransferDone?;
      StepBuffer(p, es[n]);
      assert Run(s, es).0 == Step(p, es[n]).0;
      if es[n].Edge? && p.adcArmed {
        assert rs[..|rs| - 1] == Accepted(s, es[..n]);
      } else {
        assert rs == Accepted(s, es[..n]);
      }
    }
  }

  /** From the start of a cycle (cursor 0, as after power-on or a reset), k
      accepted edges with k <= 12000 leave the cursor at k, the k reads (and
      times) in edge order in the first k slots, every later slot as the cycle
      found it, and `sampling_done` up exactly when k is 12000. */
  lemma CycleCaptures(s: State, es: seq<Event>)
    requires Inv(s) && s.buf.index == 0 && NoTransferDone(es)
    requires |Accepted(s, es)| <= SAMPLE_BUFFER_SIZE
    ensures var b := Run(s, es).0.buf;
      var rs := Accepted(s, es);
      && b.index == |rs|
      && b.samples[..|rs|] == Values(rs)
      && b.samples[|rs|..] == s.buf.samples[|rs|..]
      && (b.recordTime ==> b.stamps[..|rs|] == Times(rs))
      && (b.done <==> |rs| == SAMPLE_BUFFER_SIZE)
  {
    CycleIsFill(s, es);
    CommitAllFills(s.buf, Accepted(s, es));
    FillFromStart(s.buf, Accepted(s, es));
  }

  /** The prepare pulse fires exactly on the edge that moves the cursor to 11900. */
  lemma PrepareExactlyAtThreshold(s: State, e: Event)
    requires Inv(s)
    ensures var o := Step(s, e).1;
      && (Prepare in o <==> e.Edge? && s.phase.Sampling? && s.buf.index == BUFFER_THRESHOLD - 1)
      && PrepareCount(o) == (if Prepare in o then 1 else 0)
  {
    var o := Step(s, e).1;
    PrepareCountAbsent(o);
    if Prepare in o {
      assert o == [Prepare];
    }
  }

  /** At most one prepare pulse per cycle: exactly one if the cursor crossed
      the threshold, none otherwise; the cursor and the flag never go back. */
  lemma {:induction false} PrepareOncePerCycle(s: State, es: seq<Event>)
    requires Inv(s) && NoTransferDone(es)
    ensures var r := Run(s, es);
      && s.buf.index <= r.0.buf.index
      && (s.buf.done ==> r.0.buf.done)
      && PrepareCount(r.1) == (if s.buf.index < BUFFER_THRESHOLD <= r.0.buf.index then 1 else 0)
  {
    if es != [] {
      var n := |es| - 1;
      PrepareOncePerCycle(s, es[..n]);
      var p := Run(s, es[..n]);
      RunInv(s, es[..n]);
      PrepareExactlyAtThreshold(p.0, es[n]);
      PrepareCountAppend(p.1, Step(p.0, es[n]).1);
    }
  }

  /** One release edge yields exactly one unlock: the callback turns its own
      interrupt off, so a second edge before the next stall does nothing. */
  lemma ReleaseIsOneShot(s: State)
    requires Inv(s) && s.phase.Stalled? && s.lock
    ensures var s' := Step(s, Release).0;
      && !s'.lock && !s'.unlockArmed && s'.phase.Stalled?
      && s'.(lock := true, unlockArmed := true) == s
      && Step(s', Release) == (s', [])
  {
  }

  /** The buffer handed to the transfer routine is the complete, full buffer. */
  lemma TransmitIsFullBuffer(s: State, e: Event, ws: seq<u16>)
    requires Inv(s) && Transmit(ws) in Step(s, e).1
    ensures s.buf.index == SAMPLE_BUFFER_SIZE && ws == s.buf.samples
  {
  }

  /** Reset: buffer zeroed, cursor 0, flag down, counter advanced by 2 modulo
      2^32, node locked, and the next stall decided by the new counter. */
  lemma ResetStartsNextCycle(s: State, n: int)
    requires Inv(s) && s.phase.Transferring?
    ensures var r := Step(s, TransferDone(n));
      && r.0.buf.samples == Zeros(SAMPLE_BUFFER_SIZE, 0)
      && r.0.buf.stamps == Zeros(|s.buf.stamps|, 0)
      && r.0.buf.index == 0 && !r.0.buf.done
      && r.0.lock
      && r.0.machineState == (s.machineState + MACHINES_EMPLOYED) % UINT_RANGE
      && r.0.phase == (if r.0.machineState >= 1 then Stalled else Sampling)
      && r.1 == []
  {
  }

  /** The cycle after a reset: its k <= 12000 accepted edges leave exactly
      the k reads in edge order in the first k slots and zeros after them. */
  lemma NextCycleCaptures(s: State, n: int, es: seq<Event>)
    requires Inv(s) && s.phase.Transferring? && NoTransferDone(es)
    requires |Accepted(Step(s, TransferDone(n)).0, es)| <= SAMPLE_BUFFER_SIZE
    ensures var s1 := Step(s, TransferDone(n)).0;
      var b := Run(s1, es).0.buf;
      var rs := Accepted(s1, es);
      && b.index == |rs|
      && b.samples[..|rs|] == Values(rs)
      && (forall i :: |rs| <= i < SAMPLE_BUFFER_SIZE ==> b.samples[i] == 0)
      && (b.done <==> |rs| == SAMPLE_BUFFER_SIZE)
  {
    var s1 := Step(s, TransferDone(n)).0;
    ResetStartsNextCycle(s, n);
    StepInv(s, TransferDone(n));
    CycleCaptures(s1, es);
    var b := Run(s1, es).0.buf;
    var k := |Accepted(s1, es)|;
    forall i | k <= i < SAMPLE_BUFFER_SIZE
      ensures b.samples[i] == 0
    {
      assert b.samples[i] == b.samples[k..][i - k] == s1.buf.samples[k..][i - k];
    }
  }

  /** A stalled, locked node does nothing until the receiver edge. */
  lemma {:induction false} StallHoldsUntilRelease(s: State, es: seq<Event>)
    requires Inv(s) && s.phase.Stalled? && s.lock && NoRelease(es)
    ensures Run(s, es) == (s, [])
  {
    if es != [] {
      var n := |es| - 1;
      StallHoldsUntilRelease(s, es[..n]);
      assert !es[n].Release?;
      assert Step(s, es[n]) == (s, []);
      assert |Run(s, es).1| == 0;
    }
  }

  /** One step advances the counter exactly when it completes a cycle. */
  lemma StepCounter(s: State, e: Event)
    requires WellFormed(s.buf)
    ensures Step(s, e).0.machineState
      == if s.phase.Transferring? && e.TransferDone? then Advance(s.machineState, MACHINES_EMPLOYED, UINT_RANGE) else s.machineState
  {
  }

  lemma {:induction false} RunCounter(s: State, es: seq<Event>)
    requires WellFormed(s.buf)
    ensures Run(s, es).0.machineState == CounterAfter(s.machineState, MACHINES_EMPLOYED, UINT_RANGE, Resets(s, es))
  {
    if es != [] {
      var n := |es| - 1;
      RunCounter(s, es[..n]);
      StepCounter(Run(s, es[..n]).0, es[n]);
    }
  }

  /** As shipped, the counter starts at 1 and stays odd, so the node stalls
      before every sampling phase, the first one included, whatever the
      ignored transfer result. */
  lemma AlwaysStalls(recordTime: bool, es: seq<Event>, n: int)
    ensures var s0 := Init(recordTime, 1, true);
      var s := Run(s0, es).0;
      s.phase.Transferring? ==>
        var s' := Step(s, TransferDone(n)).0;
        s'.phase.Stalled? && s'.lock && s'.unlockArmed
  {
    var s0 := Init(recordTime, 1, true);
    InitInv(recordTime, 1, true);
    var s := Run(s0, es).0;
    if s.phase.Transferring? {
      RunInv(s0, es);
      RunCounter(s0, es);
      CountByTwoFromOneStaysOdd(Resets(s0, es) + 1);
      ResetStartsNextCycle(s, n);
    }
  }

  // ---------------------------------------------------------------------
  // The firmware's globals, updated in place
  // ---------------------------------------------------------------------

  class Node {
    const buf: SampleBuffer
    var lock: bool
    var machineState: nat
    var phase: Phase
    var unlockArmed: bool
    var adcArmed: bool
    var outputs: seq<Output>

    ghost predicate Valid()
      reads this, buf
    {
      buf.Valid() && buf.samples.Length == SAMPLE_BUFFER_SIZE
    }

    ghost function Abs(): State
      reads this, buf, buf.samples, buf.stamps
      requires Valid()
    {
      State(buf.Abs(), lock, machineState, phase, unlockArmed, adcArmed)
    }

    constructor (recordTime: bool, machineState: u32, lock: bool)
      ensures Valid() && fresh(buf) && fresh(buf.samples) && fresh(buf.stamps)
      ensures Abs() == Init(recordTime, machineState, lock) && outputs == []
    {
      buf := new SampleBuffer(SAMPLE_BUFFER_SIZE, recordTime);
      this.lock := lock;
      this.machineState := machineState;
      phase := Stalled;
      unlockArmed := false;
      adcArmed := false;
      outputs := [];
      new;
      EnterLoopBody();
    }

    method EnterLoopBody()
      requires Valid()
      modifies this`phase, this`unlockArmed, this`adcArmed
      ensures Valid() && Abs() == BeginCycle(old(Abs()))
    {
      if machineState >= 1 {
        unlockArmed := true;
        phase := Stalled;
      } else {
        adcArmed := true;
        phase := Sampling;
      }
    }

    /** `unlock_trigger_callback`. */
    method UnlockTriggerCallback()
      requires Valid()
      modifies this`lock, this`unlockArmed
      ensures Valid() && Abs() == Unlock(old(Abs()))
    {
      unlockArmed := false;
      lock := false;
    }

    /** `ADC_trigger_callback`. */
    method AdcTriggerCallback(rd: Reading)
      requires Valid()
      modifies buf, buf.samples, buf.stamps, this`outputs
      ensures Valid()
      ensures Abs() == AdcTrigger(old(Abs()), rd).0
      ensures outputs == old(outputs) + AdcTrigger(old(Abs()), rd).1
    {
      if buf.index < SAMPLE_BUFFER_SIZE {
        var _ := buf.Record(rd);
        if buf.index == BUFFER_THRESHOLD {
          outputs := outputs + [Prepare];
        }
      }
    }

    /** `clear_buffer`. */
    method ClearBuffer() returns (result: int)
      requires Valid()
      modifies buf.samples, buf.stamps
      ensures Valid() && result == 0
      ensures buf.Abs() == Cleared(old(buf.Abs()))
    {
      buf.Clear();
      result := 0;
    }

    method Handle(e: Event)
      requires Valid()
      modifies this, buf, buf.samples, buf.stamps
      ensures Valid()
      ensures Abs() == Step(old(Abs()), e).0
      ensures outputs == old(outputs) + Step(old(Abs()), e).1
    {
      match e
      case Release =>
        if unlockArmed {
          UnlockTriggerCallback();
        }
      case Edge(rd) =>
        if adcArmed {
          AdcTriggerCallback(rd);
        }
      case Poll =>
        if phase.Stalled? && !lock {
          unlockArmed := false;
          adcArmed := true;
          phase := Sampling;
        } else if phase.Sampling? && buf.done {
          adcArmed := false;
          outputs := outputs + [Transmit(buf.samples[..])];
          phase := Transferring;
        }
      case TransferDone(_) =>
        if phase.Transferring? {
          var _ := ClearBuffer();
          buf.Rewind(true);
          machineState := (machineState + MACHINES_EMPLOYED) % UINT_RANGE;
          lock := true;
          EnterLoopBody();
        }
      case ClearDone(_) =>
    }

    /** Feed a finite prefix of the node's life through it, as
        `AdcA.Node.Replay` does. */
    method Replay(es: seq<Event>)
      requires Valid()
      modifies this, buf, buf.samples, buf.stamps
      ensures Valid()
      ensures Abs() == Run(old(Abs()), es).0
      ensures outputs == old(outputs) + Run(old(Abs()), es).1
    {
      ghost var s0 := Abs();
      ghost var o0 := outputs;
      for i := 0 to |es|
        invariant Valid()
        invariant Abs() == Run(s0, es[..i]).0
        invariant outputs == o0 + Run(s0, es[..i]).1
      {
        assert es[..i + 1][..i] == es[..i];
        ghost var r := Run(s0, es[..i]);
        Handle(es[i]);
        assert Run(s0, es[..i + 1]) == (Step(r.0, es[i]).0, r.1 + Step(r.0, es[i]).1);
      }
      assert es[..|es|] == es;
    }
  }
}
