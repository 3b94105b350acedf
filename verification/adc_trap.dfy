/**
  The `adc_trap` firmware: a single-shot capture of 32768 samples with
  their microsecond timestamps. The trigger interrupt is enabled once at
  start-up; `main` waits once for `sampling_done`, prints the buffer and
  returns. Nothing is ever reset.
 */
module AdcTrap {
  import opened Wire
  import opened Sampler
  import opened Cycle

  const SAMPLE_BUFFER_SIZE: nat := 32768

  /** The buffer globals and whether `main` is still waiting. */
  datatype State = State(buf: Buffer, phase: Phase)

  predicate Inv(s: State) {
    && WellFormed(s.buf) && |s.buf.samples| == SAMPLE_BUFFER_SIZE && s.buf.recordTime
    && DoneExactly(s.buf)
    && (s.phase.Sampling? || s.phase.Finished?)
    && (s.phase.Finished? ==> s.buf.done)
  }

  function Init(): State {
    State(Empty(SAMPLE_BUFFER_SIZE, true), Sampling)
  }

  /** One atomic step: `gpio_callback` on a trigger edge, or `main` leaving
      its wait once the buffer is full. Receiver and transfer events do not
      exist for this firmware and change nothing. */
  function Step(s: State, e: Event): (s': State)
    requires WellFormed(s.buf)
    ensures WellFormed(s'.buf) && |s'.buf.samples| == |s.buf.samples|
    ensures s'.buf.recordTime == s.buf.recordTime
  {
    match e
    case Edge(rd) => s.(buf := Commit(s.buf, rd))
    case Poll => if s.phase.Sampling? && s.buf.done then s.(phase := Finished) else s
    case _ => s
  }

  function Run(s: State, es: seq<Event>): (s': State)
    requires WellFormed(s.buf)
    ensures WellFormed(s'.buf) && |s'.buf.samples| == |s.buf.samples|
    ensures s'.buf.recordTime == s.buf.recordTime
  {
    if es == [] then s else Step(Run(s, es[..|es| - 1]), es[|es| - 1])
  }

  /** The reads carried by the trigger edges of a trace, in order. */
  function Readings(es: seq<Event>): (rs: seq<Reading>)
    ensures |rs| <= |es|
  {
    if es == [] then []
    else
      var n := |es| - 1;
      Readings(es[..n]) + (if es[n].Edge? then [es[n].reading] else [])
  }

  // ---------------------------------------------------------------------
  // Properties
  // ---------------------------------------------------------------------

  lemma StepInv(s: State, e: Event)
    requires Inv(s)
    ensures Inv(Step(s, e))
  {
    if e.Edge? {
      CommitKeepsDoneExactly(s.buf, e.reading);
    }
  }

  /** The cursor never exceeds 32768 and `sampling_done` holds exactly when
      it equals 32768. */
  lemma {:induction false} RunInv(s: State, es: seq<Event>)
    requires Inv(s)
    ensures Inv(Run(s, es))
  {
    if es != [] {
      RunInv(s, es[..|es| - 1]);
      StepInv(Run(s, es[..|es| - 1]), es[|es| - 1]);
    }
  }

  /** The buffer after a run is the buffer after committing the trace's
      reads one by one: only trigger edges touch it. */
  lemma {:induction false} RunIsFill(s: State, es: seq<Event>)
    requires WellFormed(s.buf)
    ensures Run(s, es).buf == CommitAll(s.buf, Readings(es))
  {
    if es != [] {
      var n := |es| - 1;
      RunIsFill(s, es[..n]);
      if es[n].Edge? {
        assert Readings(es)[..|Readings(es)| - 1] == Readings(es[..n]);
      } else {
        assert Readings(es) == Readings(es[..n]);
      }
    }
  }

  /** After k <= 32768 trigger edges, the cursor is k and the first k slots
      of both buffers hold the k reads and times in edge order; the flag is
      up exactly when k is 32768. Beyond that the cursor stays at 32768. */
  lemma CaptureContents(es: seq<Event>)
    ensures var s := Run(Init(), es);
      var rs := Readings(es);
      && (|rs| <= SAMPLE_BUFFER_SIZE ==>
            && s.buf.index == |rs|
            && s.buf.samples[..|rs|] == Values(rs)
            && s.buf.stamps[..|rs|] == Times(rs)
            && (s.buf.done <==> |rs| == SAMPLE_BUFFER_SIZE))
      && (|rs| > SAMPLE_BUFFER_SIZE ==> s.buf.index == SAMPLE_BUFFER_SIZE && s.buf.done)
  {
    RunIsFill(Init(), es);
    var rs := Readings(es);
    if |rs| <= SAMPLE_BUFFER_SIZE {
      FillFromStart(Init().buf, rs);
    } else {
      CommitAllBounded(Init().buf, rs);
      RunInv(Init(), es);
    }
  }

  /** Single shot: the cursor never moves back, and once `main` has left its
      wait nothing changes any more. */
  lemma {:induction false} CursorMonotone(s: State, es: seq<Event>)
    requires Inv(s)
    ensures s.buf.index <= Run(s, es).buf.index
    ensures s.phase.Finished? ==> Run(s, es) == s
  {
    if es != [] {
      CursorMonotone(s, es[..|es| - 1]);
    }
  }

  // ---------------------------------------------------------------------
  // The firmware's globals, updated in place
  // ---------------------------------------------------------------------

  class Node {
    const buf: SampleBuffer
    var phase: Phase

    ghost predicate Valid()
      reads this, buf
    {
      buf.Valid() && buf.samples.Length == SAMPLE_BUFFER_SIZE && buf.recordTime
    }

    ghost function Abs(): State
      reads this, buf, buf.samples, buf.stamps
      requires Valid()
    {
      State(buf.Abs(), phase)
    }

    constructor ()
      ensures Valid() && fresh(buf) && fresh(buf.samples) && fresh(buf.stamps)
      ensures Abs() == Init()
    {
      buf := new SampleBuffer(SAMPLE_BUFFER_SIZE, true);
      phase := Sampling;
    }

    method Handle(e: Event)
      requires Valid()
      modifies this, buf, buf.samples, buf.stamps
      ensures Valid()
      ensures Abs() == Step(old(Abs()), e)
    {
      match e
      case Edge(rd) =>
        var _ := buf.Record(rd);
      case Poll =>
        if phase.Sampling? && buf.done {
          phase := Finished;
        }
      case _ =>
    }

    method Replay(es: seq<Event>)
      requires Valid()
      modifies this, buf, buf.samples, buf.stamps
      ensures Valid()
      ensures Abs() == Run(old(Abs()), es)
    {
      ghost var s0 := Abs();
      for i := 0 to |es|
        invariant Valid()
        invariant Abs() == Run(s0, es[..i])
      {
        assert es[..i + 1][..i] == es[..i];
        Handle(es[i]);
      }
      assert es[..|es|] == es;
    }
  }
}
