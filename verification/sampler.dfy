/**
  The sample producer common to every firmware variant: a fixed-capacity
  buffer of 16-bit ADC samples, an optional parallel buffer of 32-bit
  microsecond timestamps (present when the build records time), a write
  cursor and a `sampling_done` flag.

  Each recognised trigger edge runs the same rule in every variant: if the
  cursor is below capacity, store the ADC read (and the time) at the cursor,
  advance the cursor, and raise the done flag once the cursor reaches
  capacity; at capacity the edge does nothing. What a variant does when the
  cursor meets its threshold lives in that variant's module.
 */
module Sampler {
  import opened Wire

  /** One trigger edge's inputs: the ADC read and the microsecond clock. */
  datatype Reading = Reading(value: u16, time: u32)

  /** Value view of the buffer globals of a node. */
  datatype Buffer = Buffer(
    samples: seq<u16>,   // sample_buffer
    stamps: seq<u32>,    // timestamp, empty when time is not recorded
    recordTime: bool,    // whether the build records timestamps
    index: nat,          // sample_index
    done: bool)          // sampling_done

  predicate WellFormed(b: Buffer) {
    && b.index <= |b.samples|
    && |b.stamps| == (if b.recordTime then |b.samples| else 0)
  }

  /** The done flag is raised exactly when the cursor sits at capacity. */
  predicate DoneExactly(b: Buffer) {
    b.done <==> b.index == |b.samples|
  }

  function Zeros<T>(n: nat, zero: T): (z: seq<T>)
    ensures |z| == n && forall i :: 0 <= i < n ==> z[i] == zero
  {
    seq(n, _ => zero)
  }

  /** The buffer as it is at power-on: every slot zero, cursor 0, not done. */
  function Empty(capacity: nat, recordTime: bool): (b: Buffer)
    ensures WellFormed(b) && |b.samples| == capacity && b.index == 0 && !b.done
  {
    Buffer(Zeros(capacity, 0), Zeros(if recordTime then capacity else 0, 0), recordTime, 0, false)
  }

  /** One trigger edge: store, stamp and advance while below capacity. */
  function Commit(b: Buffer, r: Reading): (b': Buffer)
    requires WellFormed(b)
    ensures WellFormed(b') && |b'.samples| == |b.samples| && b'.recordTime == b.recordTime
  {
    if b.index < |b.samples| then
      var next := b.index + 1;
      Buffer(
        b.samples[b.index := r.value],
        if b.recordTime then b.stamps[b.index := r.time] else b.stamps,
        b.recordTime,
        next,
        if next >= |b.samples| then true else b.done)
    else
      b
  }

  /** `clear_buffer`: every sample slot (and every timestamp) set to zero;
      the cursor and the flag are left to the caller. */
  function Cleared(b: Buffer): (b': Buffer)
    requires WellFormed(b)
    ensures WellFormed(b')
  {
    b.(samples := Zeros(|b.samples|, 0), stamps := Zeros(|b.stamps|, 0))
  }

  /** The reset of the cursor done by every cycling variant; only some
      variants also lower the done flag. */
  function Rewound(b: Buffer, lowerDone: bool): (b': Buffer)
    requires WellFormed(b)
    ensures WellFormed(b')
  {
    b.(index := 0, done := if lowerDone then false else b.done)
  }

  /** The effect of a run of trigger edges, oldest first. */
  function CommitAll(b: Buffer, rs: seq<Reading>): (b': Buffer)
    requires WellFormed(b)
    ensures WellFormed(b') && |b'.samples| == |b.samples| && b'.recordTime == b.recordTime
  {
    if rs == [] then b else Commit(CommitAll(b, rs[..|rs| - 1]), rs[|rs| - 1])
  }

  function Values(rs: seq<Reading>): (vs: seq<u16>)
    ensures |vs| == |rs| && forall i :: 0 <= i < |rs| ==> vs[i] == rs[i].value
  {
    seq(|rs|, i requires 0 <= i < |rs| => rs[i].value)
  }

  function Times(rs: seq<Reading>): (ts: seq<u32>)
    ensures |ts| == |rs| && forall i :: 0 <= i < |rs| ==> ts[i] == rs[i].time
  {
    seq(|rs|, i requires 0 <= i < |rs| => rs[i].time)
  }

  /** An edge below capacity writes the read (and the time) at the cursor and
      advances the cursor by exactly one; no other slot changes. */
  lemma CommitStores(b: Buffer, r: Reading)
    requires WellFormed(b) && b.index < |b.samples|
    ensures var b' := Commit(b, r);
      && b'.index == b.index + 1
      && b'.samples[b.index] == r.value
      && (forall i :: 0 <= i < |b.samples| && i != b.index ==> b'.samples[i] == b.samples[i])
      && (b.recordTime ==> b'.stamps[b.index] == r.time)
      && (forall i :: 0 <= i < |b.stamps| && i != b.index ==> b'.stamps[i] == b.stamps[i])
      && (b'.done <==> b.done || b'.index == |b.samples|)
  {
  }

  /** An edge at capacity changes nothing. */
  lemma CommitAtCapacity(b: Buffer, r: Reading)
    requires WellFormed(b) && b.index == |b.samples|
    ensures Commit(b, r) == b
  {
  }

  /** The producer keeps the done-exactly-at-capacity rule. */
  lemma CommitKeepsDoneExactly(b: Buffer, r: Reading)
    requires WellFormed(b) && DoneExactly(b)
    ensures DoneExactly(Commit(b, r))
  {
  }

  /** After k edges with room for them, the cursor has moved by k and the k
      newly committed slots hold the k reads (and times) in edge order; the
      slots before the cursor are untouched and so are those past it, and a
      build without timestamps keeps its (empty) timestamp buffer as it was. */
  lemma {:induction false} CommitAllFills(b: Buffer, rs: seq<Reading>)
    requires WellFormed(b) && b.index + |rs| <= |b.samples|
    ensures var b' := CommitAll(b, rs);
      && b'.index == b.index + |rs|
      && b'.samples[..b'.index] == b.samples[..b.index] + Values(rs)
      && b'.samples[b'.index..] == b.samples[b'.index..]
      && (b.recordTime ==> b'.stamps[..b'.index] == b.stamps[..b.index] + Times(rs))
      && (b.recordTime ==> b'.stamps[b'.index..] == b.stamps[b'.index..])
      && (!b.recordTime ==> b'.stamps == b.stamps)
      && (b'.done <==> b.done || (rs != [] && b'.index == |b.samples|))
  {
    if rs != [] {
      var n := |rs| - 1;
      CommitAllFills(b, rs[..n]);
      var m := CommitAll(b, rs[..n]);
      var b' := Commit(m, rs[n]);
      assert b'.samples[..b'.index] == m.samples[..m.index] + [rs[n].value];
      assert Values(rs) == Values(rs[..n]) + [rs[n].value];
      assert b'.samples[b'.index..] == m.samples[b'.index..];
      if b.recordTime {
        assert b'.stamps[..b'.index] == m.stamps[..m.index] + [rs[n].time];
        assert Times(rs) == Times(rs[..n]) + [rs[n].time];
        assert b'.stamps[b'.index..] == m.stamps[b'.index..];
      }
    }
  }

  /** Edges never push the cursor past capacity: the cursor ends at the
      smaller of capacity and where it started plus the number of edges. */
  lemma {:induction false} CommitAllBounded(b: Buffer, rs: seq<Reading>)
    requires WellFormed(b)
    ensures var b' := CommitAll(b, rs);
      b'.index == if b.index + |rs| <= |b.samples| then b.index + |rs| else |b.samples|
  {
    if rs != [] {
      CommitAllBounded(b, rs[..|rs| - 1]);
    }
  }

  /** Starting from a rewound cycle (cursor 0, flag down), k <= capacity
      edges leave exactly the k reads, in order, in the committed part of the
      buffer, and the done flag is raised exactly when k is the capacity. */
  lemma FillFromStart(b: Buffer, rs: seq<Reading>)
    requires WellFormed(b) && b.index == 0 && !b.done
    requires 0 < |b.samples| && |rs| <= |b.samples|
    ensures var b' := CommitAll(b, rs);
      && b'.index == |rs|
      && b'.samples[..|rs|] == Values(rs)
      && (b.recordTime ==> b'.stamps[..|rs|] == Times(rs))
      && (b'.done <==> |rs| == |b.samples|)
  {
    CommitAllFills(b, rs);
    assert b.samples[..0] == [] && b.stamps[..0] == [];
  }

  /** The done flag, once raised, stays raised under further edges. */
  lemma {:induction false} CommitAllKeepsDone(b: Buffer, rs: seq<Reading>)
    requires WellFormed(b) && b.done
    ensures CommitAll(b, rs).done
  {
    if rs != [] {
      CommitAllKeepsDone(b, rs[..|rs| - 1]);
    }
  }

  /** A cleared buffer holds only zeros, and clearing keeps cursor and flag. */
  lemma ClearedIsZero(b: Buffer)
    requires WellFormed(b)
    ensures var b' := Cleared(b);
      && |b'.samples| == |b.samples| && |b'.stamps| == |b.stamps|
      && (forall i :: 0 <= i < |b'.samples| ==> b'.samples[i] == 0)
      && (forall i :: 0 <= i < |b'.stamps| ==> b'.stamps[i] == 0)
      && b'.index == b.index && b'.done == b.done
  {
  }

  /**
    The buffer globals as the firmware holds them: fixed arrays written in
    place by the edge callback, plus the cursor and the flag.
   */
  class SampleBuffer {
    const samples: array<u16>
    const stamps: array<u32>
    const recordTime: bool
    var index: nat
    var done: bool

    ghost predicate Valid()
      reads this
    {
      && index <= samples.Length
      && stamps.Length == (if recordTime then samples.Length else 0)
    }

    ghost function Abs(): (b: Buffer)
      reads this, samples, stamps
      requires Valid()
      ensures WellFormed(b)
    {
      Buffer(samples[..], stamps[..], recordTime, index, done)
    }

    /** Static zero-initialised storage for `capacity` samples. */
    constructor (capacity: nat, recordTime: bool)
      ensures Valid() && fresh(samples) && fresh(stamps)
      ensures Abs() == Empty(capacity, recordTime)
    {
      samples := new u16[capacity](_ => 0);
      stamps := new u32[if recordTime then capacity else 0](_ => 0);
      this.recordTime := recordTime;
      index := 0;
      done := false;
    }

    /** The body of the edge callback common to all variants; `stored` says
        whether the edge found room. */
    method Record(r: Reading) returns (stored: bool)
      requires Valid()
      modifies this, samples, stamps
      ensures Valid()
      ensures stored == (old(index) < samples.Length)
      ensures Abs() == Commit(old(Abs()), r)
    {
      stored := index < samples.Length;
      if stored {
        samples[index] := r.value;
        if recordTime {
          stamps[index] := r.time;
        }
        index := index + 1;
        if index >= samples.Length {
          done := true;
        }
      }
    }

    /** `clear_buffer`: zero every slot (and every timestamp) in one pass. */
    method Clear()
      requires Valid()
      modifies samples, stamps
      ensures Valid()
      ensures Abs() == Cleared(old(Abs()))
    {
      for i := 0 to samples.Length
        invariant forall j :: 0 <= j < i ==> samples[j] == 0
        invariant forall j :: i <= j < samples.Length ==> samples[j] == old(samples[j])
        invariant recordTime ==> forall j :: 0 <= j < i ==> stamps[j] == 0
        invariant stamps.Length == 0 || recordTime
      {
        samples[i] := 0;
        if recordTime {
          stamps[i] := 0;
        }
      }
      assert samples[..] == Zeros(samples.Length, 0);
      assert stamps[..] == Zeros(stamps.Length, 0);
    }

    /** The cursor reset of the main loop, with or without lowering the flag. */
    method Rewind(lowerDone: bool)
      requires Valid()
      modifies this
      ensures Valid()
      ensures Abs() == Rewound(old(Abs()), lowerDone)
    {
      index := 0;
      if lowerDone {
        done := false;
      }
    }
  }
}
