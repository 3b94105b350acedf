/**
  The bulk-SPI test firmware: the whole buffer of 5000 samples is packed,
  low byte then high byte, into a local byte array, which goes out in one
  write under a single chip-select assertion. The test program fills the
  buffer with the ramp 0, 1, ..., 4999 before sending it.
 */
module SpiTest {
  import opened Wire
  import opened Transport

  const SIZE: nat := 5000

  /** The ramp the test program writes: sample i is i. */
  function Ramp(n: nat): (ws: seq<u16>)
    requires n <= 0x1_0000
    ensures |ws| == n && forall i :: 0 <= i < n ==> ws[i] == i
  {
    seq(n, i requires 0 <= i < n => i)
  }

  /** `send_data_via_spi`: pack, then one bulk write framed by CS. */
  method SendDataViaSpi(buffer: array<u16>) returns (trace: seq<SpiEvent>)
    requires buffer.Length >= SIZE
    ensures trace == [CsHigh, CsLow, SpiWrite(Serialize(buffer[..SIZE])), CsHigh]
  {
    trace := [CsHigh];
    var spiBuffer := new byte[SIZE * 2];
    for i := 0 to SIZE
      invariant forall j :: 0 <= j < i ==>
        spiBuffer[2 * j] == LowByte(buffer[j]) && spiBuffer[2 * j + 1] == HighByte(buffer[j])
    {
      spiBuffer[2 * i] := LowByte(buffer[i]);
      spiBuffer[2 * i + 1] := HighByte(buffer[i]);
    }
    SerializeByLayout(buffer[..SIZE], spiBuffer[..]);
    trace := trace + [CsLow, SpiWrite(spiBuffer[..]), CsHigh];
  }

  /** The test program: fill the buffer with the ramp, then send it. */
  method RampTest() returns (trace: seq<SpiEvent>)
    ensures trace == [CsHigh, CsLow, SpiWrite(Serialize(Ramp(SIZE))), CsHigh]
  {
    var buffer := new u16[SIZE];
    for i := 0 to SIZE
      invariant forall j :: 0 <= j < i ==> buffer[j] == j
    {
      buffer[i] := i;
    }
    assert buffer[..SIZE] == Ramp(SIZE);
    trace := SendDataViaSpi(buffer);
  }

  /** The ramp goes out as i mod 256 followed by i div 256, and the two
      bytes rebuild i. */
  lemma RampBytes(i: nat)
    requires i < SIZE
    ensures Serialize(Ramp(SIZE))[2 * i] == i % 256
    ensures Serialize(Ramp(SIZE))[2 * i + 1] == i / 256
    ensures Combine(Serialize(Ramp(SIZE))[2 * i], Serialize(Ramp(SIZE))[2 * i + 1]) == i
  {
    SerializeAt(Ramp(SIZE), i);
  }
}
