/**
  The three byte-oriented senders of the multi-node firmware: UART, I2C and
  per-sample SPI. Each walks the first BUFFER_SIZE samples of the buffer in
  index order and puts out the low byte, then the high byte, of each; they
  differ only in the framing around those bytes. What a sender does on its
  pins and buses is returned as a trace.
 */
module Transport {
  import opened Wire

  const BUFFER_SIZE: nat := 32768
  /** The 7-bit address of the I2C receiver. */
  const I2C_ADDR: nat := 0x08

  /** `i2c_write_blocking(port, addr, src, len, nostop)`. */
  datatype I2cWrite = I2cWrite(addr: nat, bytes: seq<byte>, nostop: bool)

  /** The chip-select pin and `spi_write_blocking`. CS is active low. */
  datatype SpiEvent = CsHigh | CsLow | SpiWrite(bytes: seq<byte>)

  /** The I2C transactions for a run of samples: two one-byte writes each,
      the first keeping the bus (no stop), the second releasing it. */
  function I2cFrames(ws: seq<u16>): (ts: seq<I2cWrite>)
    ensures |ts| == 2 * |ws|
  {
    if ws == [] then []
    else
      var w := ws[|ws| - 1];
      I2cFrames(ws[..|ws| - 1]) + [I2cWrite(I2C_ADDR, [LowByte(w)], true), I2cWrite(I2C_ADDR, [HighByte(w)], false)]
  }

  /** The SPI events for a run of samples: each byte pair between an
      assertion and a deassertion of CS. */
  function SpiFrames(ws: seq<u16>): (es: seq<SpiEvent>)
    ensures |es| == 4 * |ws|
  {
    if ws == [] then []
    else
      var w := ws[|ws| - 1];
      SpiFrames(ws[..|ws| - 1]) + [CsLow, SpiWrite([LowByte(w)]), SpiWrite([HighByte(w)]), CsHigh]
  }

  /** The bytes that reach the I2C bus, in order. */
  function I2cPayload(ts: seq<I2cWrite>): seq<byte> {
    if ts == [] then [] else I2cPayload(ts[..|ts| - 1]) + ts[|ts| - 1].bytes
  }

  /** The bytes clocked out on MOSI, in order. */
  function SpiPayload(es: seq<SpiEvent>): seq<byte> {
    if es == [] then []
    else SpiPayload(es[..|es| - 1]) + (if es[|es| - 1].SpiWrite? then es[|es| - 1].bytes else [])
  }

  lemma {:induction false} I2cPayloadAppend(xs: seq<I2cWrite>, ys: seq<I2cWrite>)
    ensures I2cPayload(xs + ys) == I2cPayload(xs) + I2cPayload(ys)
  {
    if ys == [] {
      assert xs + ys == xs;
    } else {
      var n := |ys| - 1;
      I2cPayloadAppend(xs, ys[..n]);
      assert (xs + ys)[..|xs + ys| - 1] == xs + ys[..n];
    }
  }

  lemma {:induction false} SpiPayloadAppend(xs: seq<SpiEvent>, ys: seq<SpiEvent>)
    ensures SpiPayload(xs + ys) == SpiPayload(xs) + SpiPayload(ys)
  {
    if ys == [] {
      assert xs + ys == xs;
    } else {
      var n := |ys| - 1;
      SpiPayloadAppend(xs, ys[..n]);
      assert (xs + ys)[..|xs + ys| - 1] == xs + ys[..n];
    }
  }

  /** The I2C sender puts exactly the serialised samples on the bus. */
  lemma {:induction false} I2cCarriesSerialized(ws: seq<u16>)
    ensures I2cPayload(I2cFrames(ws)) == Serialize(ws)
  {
    if ws != [] {
      var n := |ws| - 1;
      var w := ws[n];
      I2cCarriesSerialized(ws[..n]);
      var tail := [I2cWrite(I2C_ADDR, [LowByte(w)], true), I2cWrite(I2C_ADDR, [HighByte(w)], false)];
      I2cPayloadAppend(I2cFrames(ws[..n]), tail);
      assert tail[..1][..0] == [];
      assert I2cPayload(tail[..1]) == [LowByte(w)];
      assert I2cPayload(tail) == I2cPayload(tail[..1]) + [HighByte(w)];
    }
  }

  /** The SPI sender clocks out exactly the serialised samples. */
  lemma {:induction false} SpiCarriesSerialized(ws: seq<u16>)
    ensures SpiPayload([CsHigh] + SpiFrames(ws)) == Serialize(ws)
  {
    if ws == [] {
      assert [CsHigh][..0] == [];
    } else {
      var n := |ws| - 1;
      var w := ws[n];
      SpiCarriesSerialized(ws[..n]);
      var tail := [CsLow, SpiWrite([LowByte(w)]), SpiWrite([HighByte(w)]), CsHigh];
      assert [CsHigh] + SpiFrames(ws) == ([CsHigh] + SpiFrames(ws[..n])) + tail;
      SpiPayloadAppend([CsHigh] + SpiFrames(ws[..n]), tail);
      var t3 := tail[..3];
      var t2 := t3[..2];
      var t1 := t2[..1];
      assert t1[..0] == [];
      assert SpiPayload(t1) == [];
      assert SpiPayload(t2) == [LowByte(w)];
      assert SpiPayload(t3) == [LowByte(w), HighByte(w)];
      assert SpiPayload(tail) == SpiPayload(t3);
    }
  }

  /** Transaction 2i writes the low byte of sample i to 0x08 keeping the bus,
      transaction 2i+1 writes its high byte and releases the bus. */
  lemma {:induction false} I2cFramesAt(ws: seq<u16>, i: nat)
    requires i < |ws|
    ensures I2cFrames(ws)[2 * i] == I2cWrite(I2C_ADDR, [LowByte(ws[i])], true)
    ensures I2cFrames(ws)[2 * i + 1] == I2cWrite(I2C_ADDR, [HighByte(ws[i])], false)
  {
    var n := |ws| - 1;
    if i < n {
      I2cFramesAt(ws[..n], i);
    }
  }

  /** CS is high before the first sample; for sample i it goes low, the low
      byte then the high byte go out, and it goes high again. */
  lemma {:induction false} SpiFramesAt(ws: seq<u16>, i: nat)
    requires i < |ws|
    ensures var es := [CsHigh] + SpiFrames(ws);
      && es[0] == CsHigh
      && es[4 * i + 1] == CsLow
      && es[4 * i + 2] == SpiWrite([LowByte(ws[i])])
      && es[4 * i + 3] == SpiWrite([HighByte(ws[i])])
      && es[4 * i + 4] == CsHigh
  {
    var n := |ws| - 1;
    if i < n {
      SpiFramesAt(ws[..n], i);
      assert ([CsHigh] + SpiFrames(ws))[..4 * n + 1] == [CsHigh] + SpiFrames(ws[..n]);
    }
  }

  /** The I2C and SPI senders put the same bytes on their links in the same
      order as the UART sender, whose byte stream is `Serialize` itself, and
      a receiver that rebuilds the samples from either gets them back. */
  lemma SameBytesOnEveryLink(ws: seq<u16>)
    ensures I2cPayload(I2cFrames(ws)) == SpiPayload([CsHigh] + SpiFrames(ws))
    ensures var bs := I2cPayload(I2cFrames(ws)); |bs| % 2 == 0 && Deserialize(bs) == ws
  {
    I2cCarriesSerialized(ws);
    SpiCarriesSerialized(ws);
    var bs := I2cPayload(I2cFrames(ws));
    assert bs == Serialize(ws);
    DeserializeSerialize(ws);
  }

  /** `send_data_uart`: the raw bytes written to the UART. The buffer is only
      read (the method modifies nothing). */
  method SendDataUart(data: array<u16>) returns (wire: seq<byte>)
    requires data.Length >= BUFFER_SIZE
    ensures wire == Serialize(data[..BUFFER_SIZE])
  {
    wire := [];
    for i := 0 to BUFFER_SIZE
      invariant wire == Serialize(data[..i])
    {
      wire := wire + [LowByte(data[i]), HighByte(data[i])];
      assert data[..i + 1] == data[..i] + [data[i]];
      SerializeSnoc(data[..i], data[i]);
    }
  }

  /** `send_data_via_i2c`. */
  method SendDataViaI2c(data: array<u16>) returns (writes: seq<I2cWrite>)
    requires data.Length >= BUFFER_SIZE
    ensures writes == I2cFrames(data[..BUFFER_SIZE])
  {
    writes := [];
    for i := 0 to BUFFER_SIZE
      invariant writes == I2cFrames(data[..i])
    {
      var lower := LowByte(data[i]);
      var upper := HighByte(data[i]);
      writes := writes + [I2cWrite(I2C_ADDR, [lower], true)];
      writes := writes + [I2cWrite(I2C_ADDR, [upper], false)];
      assert data[..i + 1][..i] == data[..i];
    }
  }

  /** `send_data_via_spi`: CS is deasserted once before the loop. */
  method SendDataViaSpi(data: array<u16>) returns (trace: seq<SpiEvent>)
    requires data.Length >= BUFFER_SIZE
    ensures trace == [CsHigh] + SpiFrames(data[..BUFFER_SIZE])
  {
    trace := [CsHigh];
    for i := 0 to BUFFER_SIZE
      invariant trace == [CsHigh] + SpiFrames(data[..i])
    {
      var lower := LowByte(data[i]);
      var upper := HighByte(data[i]);
      trace := trace + [CsLow];
      trace := trace + [SpiWrite([lower])];
      trace := trace + [SpiWrite([upper])];
      trace := trace + [CsHigh];
      assert data[..i + 1][..i] == data[..i];
    }
  }
}
