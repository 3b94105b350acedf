/**
  The vocabulary shared by the node state machines of all firmware variants.

  A node's `main` loop spins on flags that interrupt callbacks change. The
  model treats every callback as one atomic step and every advance of the
  main loop as another, so a run of the node is a finite sequence of events:
  an edge on the upstream handoff pin, a trigger edge on the ADC pin (with
  the read and the clock value the callback would obtain), one step of the
  main loop, or the return of the transfer or clear routine (with the value
  it returns). The main loop never ends; a finite trace is a prefix of it.
 */
module Cycle {
  import opened Wire
  import opened Sampler

  datatype Event =
    | Release                   // an edge on the upstream handoff (receiver) pin
    | Edge(reading: Reading)    // a rising edge on the ADC trigger pin
    | Poll                      // the main loop takes its next step
    | TransferDone(result: int) // the transfer routine returns `result`
    | ClearDone(result: int)    // the clear routine returns `result`

  /** What a node makes observable on its pins, its links and its console. */
  datatype Output =
    | Prepare                   // a high-then-low pulse on the sender pin
    | Reconfigure               // sender pin made a pulled-up output, no pulse
    | TransferSignal            // a high-then-low pulse on the transfer pin
    | Transmit(words: seq<u16>) // words handed to the SPI peripheral
    | Incomplete                // "Buffer transfer incomplete" on the console

  /** Where `main` is: spinning on `lock`, spinning on `sampling_done`,
      waiting for the transfer or the clear routine, returned with an exit
      code, or (single-shot variant) past its only wait. */
  datatype Phase = Stalled | Sampling | Transferring | Clearing | Halted(code: int) | Finished

  function PrepareCount(outs: seq<Output>): nat {
    if outs == [] then 0
    else PrepareCount(outs[..|outs| - 1]) + (if outs[|outs| - 1] == Prepare then 1 else 0)
  }

  lemma PrepareCountAppend(xs: seq<Output>, ys: seq<Output>)
    ensures PrepareCount(xs + ys) == PrepareCount(xs) + PrepareCount(ys)
  {
    if ys == [] {
      assert xs + ys == xs;
    } else {
      var n := |ys| - 1;
      assert (xs + ys)[..|xs + ys| - 1] == xs + ys[..n];
      assert (xs + ys)[|xs + ys| - 1] == ys[n];
      PrepareCountAppend(xs, ys[..n]);
    }
  }

  /** No prepare pulse in a sequence of outputs means a count of zero, and a
      single pulse on its own counts one. */
  lemma {:induction false} PrepareCountAbsent(outs: seq<Output>)
    ensures Prepare !in outs ==> PrepareCount(outs) == 0
    ensures PrepareCount([Prepare]) == 1
  {
    assert [Prepare][..0] == [];
    if outs != [] && Prepare !in outs {
      assert outs[|outs| - 1] in outs;
      assert Prepare !in outs[..|outs| - 1];
      PrepareCountAbsent(outs[..|outs| - 1]);
    }
  }

  /** One advance of an unsigned debug counter that holds `range` values: it wraps. */
  function Advance(counter: nat, step: nat, range: nat): nat
    requires range > 0
  {
    (counter + step) % range
  }

  /** The counter after `k` completed cycles. */
  function CounterAfter(start: nat, step: nat, range: nat, k: nat): nat
    requires range > 0
  {
    if k == 0 then start else Advance(CounterAfter(start, step, range, k - 1), step, range)
  }

  /** `unsigned int` on the RP2040 is 32 bits wide. */
  const UINT_RANGE: nat := 0x1_0000_0000

  /** A 32-bit counter advanced by 2 from 0 reads 2k after k < 2^31 cycles. */
  lemma {:induction false} CountByTwoFromZero(k: nat)
    requires k < UINT_RANGE / 2
    ensures CounterAfter(0, 2, UINT_RANGE, k) == 2 * k
  {
    if k > 0 {
      CountByTwoFromZero(k - 1);
    }
  }

  /** A 32-bit counter advanced by 2 from 1 is odd after any number of
      cycles, the wrap-around included. */
  lemma {:induction false} CountByTwoFromOneStaysOdd(k: nat)
    ensures CounterAfter(1, 2, UINT_RANGE, k) % 2 == 1
    ensures CounterAfter(1, 2, UINT_RANGE, k) < UINT_RANGE
  {
    if k > 0 {
      CountByTwoFromOneStaysOdd(k - 1);
      var c := CounterAfter(1, 2, UINT_RANGE, k - 1);
      if c + 2 < UINT_RANGE {
        assert Advance(c, 2, UINT_RANGE) == c + 2;
      } else {
        assert c == UINT_RANGE - 1;
        assert Advance(c, 2, UINT_RANGE) == 1;
      }
    }
  }
}
