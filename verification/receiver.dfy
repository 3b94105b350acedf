/**
  The host-side SPI reader: for each of BUFFER_SIZE values it raises its
  ready pin, reads one byte then another from the bus, lowers the pin, and
  appends `(upper << 8) | lower` to the cycle's buffer. The bus is the byte
  stream the host clocks in, consumed in order; the endless outer loop is
  modelled for a given number of cycles.
 */
module Receiver {
  import opened Wire

  /** Same buffer size as on the Pico. */
  const BUFFER_SIZE: nat := 32768

  /** What the reader does on its ready pin and its bus. */
  datatype HostEvent = Ready(high: bool) | ReadByte(b: byte)

  /** The reader's pin and bus activity for a stream of whole byte pairs. */
  function HostFrames(bs: seq<byte>): (es: seq<HostEvent>)
    requires |bs| % 2 == 0
    ensures |es| == 2 * |bs|
  {
    if bs == [] then []
    else
      var m := |bs| - 2;
      HostFrames(bs[..m]) + [Ready(true), ReadByte(bs[m]), ReadByte(bs[m + 1]), Ready(false)]
  }

  /** For value i the pin goes HIGH, the lower byte 2i is read, then the
      upper byte 2i+1, and the pin goes LOW. */
  lemma {:induction false} HostFramesAt(bs: seq<byte>, i: nat)
    requires |bs| % 2 == 0 && 2 * i + 1 < |bs|
    ensures var es := HostFrames(bs);
      && es[4 * i] == Ready(true)
      && es[4 * i + 1] == ReadByte(bs[2 * i])
      && es[4 * i + 2] == ReadByte(bs[2 * i + 1])
      && es[4 * i + 3] == Ready(false)
  {
    var m := |bs| - 2;
    if 2 * i + 1 < m {
      HostFramesAt(bs[..m], i);
      assert bs[..m][2 * i] == bs[2 * i] && bs[..m][2 * i + 1] == bs[2 * i + 1];
    }
  }

  /** One pass of `read_spi_buffer`'s outer loop. */
  method ReadSpiBuffer(bus: seq<byte>) returns (buffer: seq<u16>, trace: seq<HostEvent>)
    requires |bus| >= 2 * BUFFER_SIZE
    ensures |buffer| == BUFFER_SIZE
    ensures buffer == Deserialize(bus[..2 * BUFFER_SIZE])
    ensures trace == HostFrames(bus[..2 * BUFFER_SIZE])
  {
    buffer := [];
    trace := [];
    for i := 0 to BUFFER_SIZE
      invariant buffer == Deserialize(bus[..2 * i])
      invariant trace == HostFrames(bus[..2 * i])
    {
      trace := trace + [Ready(true)];
      var lower := bus[2 * i];
      var upper := bus[2 * i + 1];
      trace := trace + [ReadByte(lower), ReadByte(upper)];
      trace := trace + [Ready(false)];
      var value := Combine(lower, upper);
      buffer := buffer + [value];
      assert bus[..2 * (i + 1)][..2 * i] == bus[..2 * i];
    }
  }

  /** The first `cycles` passes of the endless loop: pass c rebuilds the
      values from bytes [2·BUFFER_SIZE·c, 2·BUFFER_SIZE·(c+1)) of the stream. */
  method ReadSpiCycles(bus: seq<byte>, cycles: nat) returns (buffers: seq<seq<u16>>)
    requires |bus| >= 2 * BUFFER_SIZE * cycles
    ensures |buffers| == cycles
    ensures forall c :: 0 <= c < cycles ==>
      buffers[c] == Deserialize(bus[2 * BUFFER_SIZE * c..2 * BUFFER_SIZE * (c + 1)])
  {
    buffers := [];
    var rest := bus;
    for c := 0 to cycles
      invariant |buffers| == c
      invariant rest == bus[2 * BUFFER_SIZE * c..]
      invariant forall d :: 0 <= d < c ==>
        buffers[d] == Deserialize(bus[2 * BUFFER_SIZE * d..2 * BUFFER_SIZE * (d + 1)])
    {
      var buffer, _ := ReadSpiBuffer(rest);
      assert rest[..2 * BUFFER_SIZE] == bus[2 * BUFFER_SIZE * c..2 * BUFFER_SIZE * (c + 1)];
      buffers := buffers + [buffer];
      rest := rest[2 * BUFFER_SIZE..];
    }
  }
}
