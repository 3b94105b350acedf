/**
  The `skeleton` node firmware: the `adc_multi` buffer (32768 samples with
  timestamps, threshold 22222, stub transfer and clear routines) driven by a
  two-valued program status instead of a counter. A node that is SENDING
  samples straight away; one that is RECEIVING first stalls until a rising
  edge on the shared stall pin clears `lock`. Every completed cycle flips
  the status.

  As written the file does not compile: the callback compares a misspelt
  cursor name, and the loop's label and its `goto` are spelt differently.
  The model takes the evident reading: the threshold test is on the cursor,
  and the `goto` returns to the stall label.
 */
module Skeleton {
  import opened Wire
  import opened Sampler
  import opened Cycle

  const SAMPLE_BUFFER_SIZE: nat := 32768
  const BUFFER_THRESHOLD: nat := 22222

  /** `program_status`: SENDING (0) or RECEIVING (1). */
  datatype Status = Sending | Receiving

  datatype State = State(
    buf: Buffer,
    lock: bool,
    status: Status,
    phase: Phase,
    unlockArmed: bool,   // stall-pin interrupt enabled (rising edge)
    adcArmed: bool)      // trigger-pin interrupt enabled (rising edge)

  predicate Inv(s: State) {
    && WellFormed(s.buf) && |s.buf.samples| == SAMPLE_BUFFER_SIZE && s.buf.recordTime
    && (s.buf.index == SAMPLE_BUFFER_SIZE ==> s.buf.done)
    && !s.phase.Finished?
    && (s.phase.Halted? ==> s.phase.code == 1)
    && (s.phase.Stalled? ==> s.unlockArmed && s.status == Receiving)
    && (!s.phase.Stalled? ==> s.adcArmed)
    && (s.phase.Transferring? || s.phase.Clearing? ==> s.buf.done)
  }

  /** The stall label: stall only when RECEIVING, then sample. */
  function BeginCycle(s: State): State {
    if s.status == Receiving then s.(phase := Stalled, unlockArmed := true)
    else s.(phase := Sampling, adcArmed := true)
  }

  /** `main` sets `lock` false and the status SENDING before anything else. */
  function Init(): State {
    BeginCycle(State(Empty(SAMPLE_BUFFER_SIZE, true), false, Sending, Stalled, false, false))
  }

  /** `trigger_callback`. */
  function Trigger(s: State, r: Reading): (State, seq<Output>)
    requires WellFormed(s.buf)
  {
    if s.buf.index < SAMPLE_BUFFER_SIZE then
      var b := Commit(s.buf, r);
      (s.(buf := b), if b.index == BUFFER_THRESHOLD then [Reconfigure] else [])
    else
      (s, [])
  }

  /** Flip the status; a node that becomes RECEIVING locks itself, one that
      becomes SENDING unlocks itself. Then rewind the cursor only. */
  function Toggle(s: State): State
    requires WellFormed(s.buf)
  {
    var s' := if s.status == Receiving then s.(status := Sending, lock := false)
              else s.(status := Receiving, lock := true);
    s'.(buf := Rewound(s.buf, false))
  }

  function Step(s: State, e: Event): (r: (State, seq<Output>))
    requires WellFormed(s.buf)
    ensures WellFormed(r.0.buf) && |r.0.buf.samples| == |s.buf.samples|
    ensures r.0.buf.recordTime == s.buf.recordTime
  {
    match e
    case Release =>
      (if s.unlockArmed then s.(lock := false) else s, [])
    case Edge(rd) =>
      if s.adcArmed then Trigger(s, rd) else (s, [])
    case Poll =>
      if s.phase.Stalled? && !s.lock then
        (s.(phase := Sampling, adcArmed := true), [])
      else if s.phase.Sampling? && s.buf.done then
        (s.(phase := Transferring), [])
      else
        (s, [])
    case TransferDone(n) =>
      if s.phase.Transferring? then
        (s.(phase := if n != 0 then Halted(1) else Clearing), [])
      else
        (s, [])
    case ClearDone(n) =>
      if s.phase.Clearing? then
        (if n != 0 then s.(phase := Halted(1)) else BeginCycle(Toggle(s)), [])
      else
        (s, [])
  }

  /** A finite prefix of the node's life, defined as `AdcA.Run` is but over
      this variant's states and steps. */
  function Run(s: State, es: seq<Event>): (r: (State, seq<Output>))
    requires WellFormed(s.buf)
    ensures WellFormed(r.0.buf) && |r.0.buf.samples| == |s.buf.samples|
  {
    if es == [] then (s, [])
    else
      var p := Run(s, es[..|es| - 1]);
      var q := Step(p.0, es[|es| - 1]);
      (q.0, p.1 + q.1)
  }

  /** The reads of the trigger edges the node acts on in a run, oldest first:
      those that arrive while the trigger interrupt is enabled. */
  function Accepted(s: State, es: seq<Event>): (rs: seq<Reading>)
    requires WellFormed(s.buf)
    ensures |rs| <= |es|
  {
    if es == [] then []
    else
      var n := |es| - 1;
      Accepted(s, es[..n]) + (if es[n].Edge? && Run(s, es[..n]).0.adcArmed then [es[n].reading] else [])
  }

  /** No return of the clear routine: the trace stays within one cycle. */
  predicate NoClearDone(es: seq<Event>) {
    forall i :: 0 <= i < |es| ==> !es[i].ClearDone?
  }

  function Cycles(s: State, es: seq<Event>): nat
    requires WellFormed(s.buf)
  {
    if es == [] then 0
    else
      var n := |es| - 1;
      Cycles(s, es[..n]) + (if Run(s, es[..n]).0.phase.Clearing? && es[n] == ClearDone(0) then 1 else 0)
  }

  function Flip(st: Status): Status {
    if st == Sending then Receiving else Sending
  }

  // ---------------------------------------------------------------------
  // Properties
  // ---------------------------------------------------------------------

  /** The node starts SENDING and unlocked, so its first cycle does not stall. */
  lemma InitInv()
    ensures var s := Init();
      Inv(s) && s.status == Sending && !s.lock && s.phase.Sampling? && !s.unlockArmed
  {
  }

  /** The invariant includes: a node is stalled only when RECEIVING. */
  lemma StepInv(s: State, e: Event)
    requires Inv(s)
    ensures Inv(Step(s, e).0)
  {
  }

  lemma {:induction false} RunInv(s: State, es: seq<Event>)
    requires Inv(s)
    ensures Inv(Run(s, es).0)
  {
    if es != [] {
      RunInv(s, es[..|es| - 1]);
      StepInv(Run(s, es[..|es| - 1]).0, es[|es| - 1]);
    }
  }

  /** An accepted edge stores the read and its time at the same index and
      advances the cursor by one; nothing else changes. */
  lemma EdgeStores(s: State, rd: Reading)
    requires Inv(s) && s.adcArmed && s.buf.index < SAMPLE_BUFFER_SIZE
    ensures var s' := Step(s, Edge(rd)).0;
      && s'.buf.index == s.buf.index + 1
      && s'.buf.samples == s.buf.samples[s.buf.index := rd.value]
      && s'.buf.stamps == s.buf.stamps[s.buf.index := rd.time]
      && (s'.buf.done <==> s.buf.done || s'.buf.index == SAMPLE_BUFFER_SIZE)
      && s'.(buf := s.buf) == s
  {
  }

  lemma EdgeIgnored(s: State, rd: Reading)
    requires Inv(s) && (s.buf.index == SAMPLE_BUFFER_SIZE || !s.adcArmed)
    ensures Step(s, Edge(rd)) == (s, [])
  {
  }

  /** The end of a cycle flips the status, sets `lock` exactly when the new
      status is RECEIVING, stalls exactly then, and rewinds only the cursor:
      samples, timestamps and `sampling_done` are left as they were. */
  lemma CycleEndToggles(s: State)
    requires Inv(s) && s.phase.Clearing?
    ensures var r := Step(s, ClearDone(0)).0;
      && r.status == Flip(s.status)
      && (r.lock <==> r.status == Receiving)
      && (r.phase.Stalled? <==> r.status == Receiving)
      && r.buf == s.buf.(index := 0)
  {
  }

  /** One step that does not end the cycle changes the buffer only by
      committing the read of an accepted edge. */
  lemma StepBuffer(s: State, e: Event)
    requires Inv(s) && !e.ClearDone?
    ensures Step(s, e).0.buf == if e.Edge? && s.adcArmed then Commit(s.buf, e.reading) else s.buf
  {
    if e.Edge? && s.adcArmed && s.buf.index == SAMPLE_BUFFER_SIZE {
      CommitAtCapacity(s.buf, e.reading);
    }
  }

  /** Within a cycle only the accepted trigger edges touch the buffer: the
      receiver edge, steps of `main`, the transfer stub's return and ignored
      edges leave it as it was. */
  lemma {:induction false} CycleIsFill(s: State, es: seq<Event>)
    requires Inv(s) && NoClearDone(es)
    ensures Run(s, es).0.buf == CommitAll(s.buf, Accepted(s, es))
  {
    if es != [] {
      var n := |es| - 1;
      CycleIsFill(s, es[..n]);
      RunInv(s, es[..n]);
      var p := Run(s, es[..n]).0;
      var rs := Accepted(s, es);
      assert !es[n].ClearDone?;
      StepBuffer(p, es[n]);
      assert Run(s, es).0 == Step(p, es[n]).0;
      if es[n].Edge? && p.adcArmed {
        assert rs[..|rs| - 1] == Accepted(s, es[..n]);
      } else {
        assert rs == Accepted(s, es[..n]);
      }
    }
  }

  /** From a rewound cursor, k <= 32768 accepted edges leave the cursor at k
      and the k reads and times in edge order in the first k slots, every
      later slot as the cycle found it; since the reset does not lower
      `sampling_done`, the flag is up if it was already, or if the k-th edge
      filled the buffer. */
  lemma CycleCaptures(s: State, es: seq<Event>)
    requires Inv(s) && s.buf.index == 0 && NoClearDone(es)
    requires |Accepted(s, es)| <= SAMPLE_BUFFER_SIZE
    ensures var b := Run(s, es).0.buf;
      var rs := Accepted(s, es);
      && b.recordTime
      && b.index == |rs|
      && b.samples[..|rs|] == Values(rs)
      && b.samples[|rs|..] == s.buf.samples[|rs|..]
      && b.stamps[..|rs|] == Times(rs)
      && b.stamps[|rs|..] == s.buf.stamps[|rs|..]
      && (b.done <==> s.buf.done || (rs != [] && |rs| == SAMPLE_BUFFER_SIZE))
  {
    CycleIsFill(s, es);
    CommitAllFills(s.buf, Accepted(s, es));
    assert s.buf.samples[..0] == [] && s.buf.stamps[..0] == [];
  }

  /** A nonzero result from either stub ends `main` with return code 1. */
  lemma FailureHalts(s: State, n: int)
    requires Inv(s) && n != 0
    ensures s.phase.Transferring? ==> Step(s, TransferDone(n)).0 == s.(phase := Halted(1))
    ensures s.phase.Clearing? ==> Step(s, ClearDone(n)).0 == s.(phase := Halted(1))
  {
  }

  /** Only a completed cycle changes the status, and it flips it. */
  lemma StepStatus(s: State, e: Event)
    requires WellFormed(s.buf)
    ensures Step(s, e).0.status == if s.phase.Clearing? && e == ClearDone(0) then Flip(s.status) else s.status
  {
  }

  /** The status of a run is SENDING after an even number of completed
      cycles and RECEIVING after an odd number: the node alternates. */
  lemma {:induction false} StatusAlternates(es: seq<Event>)
    ensures Run(Init(), es).0.status == (if Cycles(Init(), es) % 2 == 0 then Sending else Receiving)
  {
    if es != [] {
      var n := |es| - 1;
      StatusAlternates(es[..n]);
      StepStatus(Run(Init(), es[..n]).0, es[n]);
    }
  }

  /** `sampling_done` is never lowered. */
  lemma {:induction false} DoneNeverLowered(s: State, es: seq<Event>)
    requires Inv(s) && s.buf.done
    ensures Run(s, es).0.buf.done
  {
    if es != [] {
      var n := |es| - 1;
      DoneNeverLowered(s, es[..n]);
      StepKeepsDone(Run(s, es[..n]).0, es[n]);
    }
  }

  /** No single step lowers `sampling_done`. */
  lemma StepKeepsDone(s: State, e: Event)
    requires WellFormed(s.buf) && s.buf.done
    ensures Step(s, e).0.buf.done
  {
  }

  // ---------------------------------------------------------------------
  // The firmware's globals, updated in place
  // ---------------------------------------------------------------------

  class Node {
    const buf: SampleBuffer
    var lock: bool
    var status: Status
    var phase: Phase
    var unlockArmed: bool
    var adcArmed: bool
    var outputs: seq<Output>

    ghost predicate Valid()
      reads this, buf
    {
      buf.Valid() && buf.samples.Length == SAMPLE_BUFFER_SIZE && buf.recordTime
    }

    ghost function Abs(): State
      reads this, buf, buf.samples, buf.stamps
      requires Valid()
    {
      State(buf.Abs(), lock, status, phase, unlockArmed, adcArmed)
    }

    constructor ()
      ensures Valid() && fresh(buf) && fresh(buf.samples) && fresh(buf.stamps)
      ensures Abs() == Init() && outputs == []
    {
      buf := new SampleBuffer(SAMPLE_BUFFER_SIZE, true);
      lock := false;
      status := Sending;
      phase := Stalled;
      unlockArmed := false;
      adcArmed := false;
      outputs := [];
      new;
      EnterStall();
    }

    method EnterStall()
      requires Valid()
      modifies this`phase, this`unlockArmed, this`adcArmed
      ensures Valid() && Abs() == BeginCycle(old(Abs()))
    {
      if status == Receiving {
        unlockArmed := true;
        phase := Stalled;
      } else {
        adcArmed := true;
        phase := Sampling;
      }
    }

    /** `trigger_callback`. */
    method TriggerCallback(rd: Reading)
      requires Valid()
      modifies buf, buf.samples, buf.stamps, this`outputs
      ensures Valid()
      ensures Abs() == Trigger(old(Abs()), rd).0
      ensures outputs == old(outputs) + Trigger(old(Abs()), rd).1
    {
      if buf.index < SAMPLE_BUFFER_SIZE {
        var _ := buf.Record(rd);
        if buf.index == BUFFER_THRESHOLD {
          outputs := outputs + [Reconfigure];
        }
      }
    }

    method Handle(e: Event)
      requires Valid()
      modifies this, buf, buf.samples, buf.stamps
      ensures Valid()
      ensures Abs() == Step(old(Abs()), e).0
      ensures outputs == old(outputs) + Step(old(Abs()), e).1
    {
      match e
      case Release =>
        if unlockArmed {
          lock := false;
        }
      case Edge(rd) =>
        if adcArmed {
          TriggerCallback(rd);
        }
      case Poll =>
        if phase.Stalled? && !lock {
          adcArmed := true;
          phase := Sampling;
        } else if phase.Sampling? && buf.done {
          phase := Transferring;
        }
      case TransferDone(n) =>
        if phase.Transferring? {
          phase := if n != 0 then Halted(1) else Clearing;
        }
      case ClearDone(n) =>
        if phase.Clearing? {
          if n != 0 {
            phase := Halted(1);
          } else {
            if status == Receiving {
              status := Sending;
              lock := false;
            } else {
              status := Receiving;
              lock := true;
            }
            buf.Rewind(false);
            EnterStall();
          }
        }
    }

    /** Feed a finite prefix of the node's life through it, as
        `AdcA.Node.Replay` does. */
    method Replay(es: seq<Event>)
      requires Valid()
      modifies this, buf, buf.samples, buf.stamps
      ensures Valid()
      ensures Abs() == Run(old(Abs()), es).0
      ensures outputs == old(outputs) + Run(old(Abs()), es).1
    {
      ghost var s0 := Abs();
      ghost var o0 := outputs;
      for i := 0 to |es|
        invariant Valid()
        invariant Abs() == Run(s0, es[..i]).0
        invariant outputs == o0 + Run(s0, es[..i]).1
      {
        assert es[..i + 1][..i] == es[..i];
        ghost var r := Run(s0, es[..i]);
        Handle(es[i]);
        assert Run(s0, es[..i + 1]) == (Step(r.0, es[i]).0, r.1 + Step(r.0, es[i]).1);
      }
      assert es[..|es|] == es;
    }
  }
}
