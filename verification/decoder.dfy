/**
  The host-side decoder of a captured binary file: it reads the file,
  unpacks it as consecutive 16-bit values in one of three views (unsigned,
  signed two's complement, or four lowercase hex digits), prints one
  `index: value` line per value, and turns the failure cases into an exit
  status.

  The file system is a map from names to contents. The unpacking uses the
  host's native byte order; the model fixes it to little-endian, the order
  of the hosts the receiver runs on and the order the senders put on the
  wire, so a file of received samples decodes with `Deserialize`.
 */
module Decoder {
  import opened Wire

  /** A decoded value: a number for the two numeric views, a string for hex. */
  datatype Value = Num(n: int) | Text(s: string)

  /** The exceptions the decoder can raise. */
  datatype PyError = ValueError(msg: string) | StructError | FileNotFound

  datatype Outcome<T> = Ok(value: T) | Raised(error: PyError)

  predicate Supported(fmt: string) {
    fmt == "uint16" || fmt == "int16" || fmt == "hex"
  }

  // ---------------------------------------------------------------------
  // Number views and their inverses
  // ---------------------------------------------------------------------

  /** The `h` view of a 16-bit value: two's complement. */
  function Signed(w: u16): (v: int)
    ensures -0x8000 <= v < 0x8000
    ensures (v + 0x1_0000) % 0x1_0000 == w
    ensures v == w <==> w < 0x8000
  {
    if w < 0x8000 then w else w - 0x1_0000
  }

  function HexDigit(d: nat): char
    requires d < 16
  {
    "0123456789abcdef"[d]
  }

  predicate IsHexDigit(c: char) {
    '0' <= c <= '9' || 'a' <= c <= 'f'
  }

  function HexDigitValue(c: char): (d: nat)
    requires IsHexDigit(c)
    ensures d < 16
  {
    if c <= '9' then c as int - '0' as int else c as int - 'a' as int + 10
  }

  lemma HexDigitRoundTrip(d: nat)
    requires d < 16
    ensures IsHexDigit(HexDigit(d)) && HexDigitValue(HexDigit(d)) == d
  {
  }

  /** Two hex digits for one byte, high nibble first. */
  function HexByte(b: byte): string {
    [HexDigit(b / 16), HexDigit(b % 16)]
  }

  /** `f'{val:04x}'`: four lowercase hex digits, zero-padded. */
  function Hex4(w: u16): string {
    HexByte(HighByte(w)) + HexByte(LowByte(w))
  }

  predicate IsHex4(s: string) {
    |s| == 4 && forall i :: 0 <= i < 4 ==> IsHexDigit(s[i])
  }

  /** Reading four hex digits back as a number. */
  function ParseHex4(s: string): (w: nat)
    requires IsHex4(s)
  {
    ((HexDigitValue(s[0]) * 16 + HexDigitValue(s[1])) * 16 + HexDigitValue(s[2])) * 16 + HexDigitValue(s[3])
  }

  /** The hex view is always four lowercase hex digits and it reads back
      as the value it was made from. */
  lemma Hex4RoundTrip(w: u16)
    ensures IsHex4(Hex4(w)) && ParseHex4(Hex4(w)) == w
  {
    var hi: nat, lo: nat := HighByte(w), LowByte(w);
    HexDigitRoundTrip(hi / 16);
    HexDigitRoundTrip(hi % 16);
    HexDigitRoundTrip(lo / 16);
    HexDigitRoundTrip(lo % 16);
    CombineSplit(w);
    assert (hi / 16 * 16 + hi % 16) == hi;
    assert (lo / 16 * 16 + lo % 16) == lo;
    assert ParseHex4(Hex4(w)) == (hi * 16 * 16) + lo;
  }

  // ---------------------------------------------------------------------
  // Decimal rendering for the printed lines
  // ---------------------------------------------------------------------

  predicate IsDecimalDigit(c: char) {
    '0' <= c <= '9'
  }

  predicate AllDigits(s: string) {
    forall i :: 0 <= i < |s| ==> IsDecimalDigit(s[i])
  }

  function DecimalDigitValue(c: char): (d: nat)
    requires IsDecimalDigit(c)
    ensures d < 10
  {
    c as int - '0' as int
  }

  /** The decimal digits of a natural number, most significant first, with
      no leading zero: only 0 itself starts with '0'. */
  function NatToString(n: nat): (s: string)
    ensures |s| >= 1 && AllDigits(s)
    ensures s[0] == '0' <==> n == 0
  {
    if n < 10 then ["0123456789"[n]]
    else NatToString(n / 10) + ["0123456789"[n % 10]]
  }

  function ParseNat(s: string): nat
    requires AllDigits(s)
  {
    if s == [] then 0
    else ParseNat(s[..|s| - 1]) * 10 + DecimalDigitValue(s[|s| - 1])
  }

  /** Decimal rendering is faithful: the digits read back as the number. */
  lemma {:induction false} NatToStringRoundTrip(n: nat)
    ensures ParseNat(NatToString(n)) == n
  {
    var s := NatToString(n);
    if n < 10 {
      assert s[..0] == [];
    } else {
      NatToStringRoundTrip(n / 10);
      assert s[..|s| - 1] == NatToString(n / 10);
    }
  }

  /** Python's `str` of an integer. */
  function IntToString(v: int): (s: string)
    ensures |s| >= 1
  {
    if v < 0 then "-" + NatToString(-v) else NatToString(v)
  }

  /** A rendered integer reads back: a leading minus marks exactly the
      negative values, and the digits after it are the magnitude. */
  lemma IntToStringRoundTrip(v: int)
    ensures var s := IntToString(v);
      && (s[0] == '-' <==> v < 0)
      && (v < 0 ==> AllDigits(s[1..]) && ParseNat(s[1..]) == -v)
      && (v >= 0 ==> AllDigits(s) && ParseNat(s) == v)
  {
    var s := IntToString(v);
    if v < 0 {
      var m := NatToString(-v);
      NatToStringRoundTrip(-v);
      assert s == "-" + m;
      assert s[0] == '-';
      assert s[1..] == m;
    } else {
      NatToStringRoundTrip(v);
      assert s == NatToString(v);
      assert IsDecimalDigit(s[0]);
    }
  }

  // ---------------------------------------------------------------------
  // read_binary_file, print_data, main
  // ---------------------------------------------------------------------

  /** `struct.unpack(f'{len(data)//2}H', data)`: the count asks for exactly
      2·(len//2) bytes, so a file of odd length raises `struct.error`. */
  function Unpack(data: seq<byte>): (r: Outcome<seq<u16>>)
    ensures r.Ok? <==> |data| % 2 == 0
    ensures r.Ok? ==> 2 * |r.value| == |data|
    ensures r.Raised? ==> r.error == StructError
  {
    if |data| % 2 != 0 then Raised(StructError) else Ok(Deserialize(data))
  }

  function Nums(ws: seq<u16>): (vs: seq<Value>)
    ensures |vs| == |ws| && forall i :: 0 <= i < |ws| ==> vs[i] == Num(ws[i])
  {
    seq(|ws|, i requires 0 <= i < |ws| => Num(ws[i]))
  }

  function SignedNums(ws: seq<u16>): (vs: seq<Value>)
    ensures |vs| == |ws| && forall i :: 0 <= i < |ws| ==> vs[i] == Num(Signed(ws[i]))
  {
    seq(|ws|, i requires 0 <= i < |ws| => Num(Signed(ws[i])))
  }

  function HexTexts(ws: seq<u16>): (vs: seq<Value>)
    ensures |vs| == |ws| && forall i :: 0 <= i < |ws| ==> vs[i] == Text(Hex4(ws[i]))
  {
    seq(|ws|, i requires 0 <= i < |ws| => Text(Hex4(ws[i])))
  }

  /** The three views of the unpacked words. */
  function View(ws: seq<u16>, fmt: string): (vs: seq<Value>)
    requires Supported(fmt)
    ensures |vs| == |ws|
  {
    if fmt == "uint16" then Nums(ws)
    else if fmt == "int16" then SignedNums(ws)
    else HexTexts(ws)
  }

  const UNSUPPORTED: string := "Unsupported format"

  /** `read_binary_file`: the file is opened before the format is looked at,
      so a missing file fails first whatever the format; the words are only
      unpacked for one of the three formats. */
  function ReadBinaryFile(files: map<string, seq<byte>>, filename: string, fmt: string): Outcome<seq<Value>> {
    if filename !in files then Raised(FileNotFound)
    else if !Supported(fmt) then Raised(ValueError(UNSUPPORTED))
    else
      match Unpack(files[filename])
      case Ok(ws) => Ok(View(ws, fmt))
      case Raised(e) => Raised(e)
  }

  function Render(v: Value): string {
    match v
    case Num(n) => IntToString(n)
    case Text(s) => s
  }

  /** One printed line: the index, a colon and a space, the prefix, the value. */
  function Line(i: nat, prefix: string, v: Value): string {
    NatToString(i) + ": " + prefix + Render(v)
  }

  /** `print_data`: one line per value in index order; hex values carry a
      `0x` prefix; any other format prints nothing. */
  function PrintData(data: seq<Value>, fmt: string): (lines: seq<string>)
    ensures |lines| == if Supported(fmt) then |data| else 0
  {
    if !Supported(fmt) then []
    else
      var prefix := if fmt == "hex" then "0x" else "";
      seq(|data|, i requires 0 <= i < |data| => Line(i, prefix, data[i]))
  }

  const USAGE: seq<string> := ["Usage: python decoder.py <filename> <format>", "Formats: uint16, int16, hex"]

  /** `main`: what it prints on standard output and its exit status. An
      exception other than ValueError is not caught: Python prints the
      traceback on standard error and exits with status 1. */
  function RunMain(argv: seq<string>, files: map<string, seq<byte>>): (r: (seq<string>, int))
  {
    if |argv| < 3 then (USAGE, 1)
    else
      match ReadBinaryFile(files, argv[1], argv[2])
      case Ok(vs) => (PrintData(vs, argv[2]), 0)
      case Raised(ValueError(msg)) => (["Error: " + msg], 1)
      case Raised(_) => ([], 1)
  }

  // ---------------------------------------------------------------------
  // Properties
  // ---------------------------------------------------------------------

  /** Reading a file back: when the file exists and the format is one of
      the three, the result is the chosen view of the unpacked words. */
  lemma ReadIsView(files: map<string, seq<byte>>, name: string, ws: seq<u16>, fmt: string)
    requires name in files && files[name] == Serialize(ws) && Supported(fmt)
    ensures ReadBinaryFile(files, name, fmt) == Ok(View(ws, fmt))
  {
    DeserializeSerialize(ws);
    assert Unpack(files[name]) == Ok(ws);
  }

  /** A file holding the serialised samples decodes, in each view, to
      exactly those samples: unsigned, two's complement, or hex digits that
      read back as the sample. */
  lemma DecodeSerialized(files: map<string, seq<byte>>, name: string, ws: seq<u16>, fmt: string)
    requires name in files && files[name] == Serialize(ws) && Supported(fmt)
    ensures var r := ReadBinaryFile(files, name, fmt);
      && r.Ok? && |r.value| == |ws|
      && (fmt == "uint16" ==> forall i :: 0 <= i < |ws| ==> r.value[i] == Num(ws[i]))
      && (fmt == "int16" ==> forall i :: 0 <= i < |ws| ==>
            r.value[i].Num? && (r.value[i].n + 0x1_0000) % 0x1_0000 == ws[i])
      && (fmt == "hex" ==> forall i :: 0 <= i < |ws| ==>
            r.value[i].Text? && IsHex4(r.value[i].s) && ParseHex4(r.value[i].s) == ws[i])
  {
    ReadIsView(files, name, ws, fmt);
    var vs := View(ws, fmt);
    if fmt == "uint16" {
      assert vs == Nums(ws);
    } else if fmt == "int16" {
      assert vs == SignedNums(ws);
    } else {
      assert vs == HexTexts(ws);
      forall i | 0 <= i < |ws|
        ensures vs[i].Text? && IsHex4(vs[i].s) && ParseHex4(vs[i].s) == ws[i]
      {
        Hex4RoundTrip(ws[i]);
      }
    }
  }

  /** Each supported view yields len(data)//2 values and fails only on an
      odd length; every unsigned value lies in [0, 65535] and every signed
      one in [-32768, 32767]. */
  lemma ReadShape(files: map<string, seq<byte>>, name: string, fmt: string)
    requires name in files && Supported(fmt)
    ensures var r := ReadBinaryFile(files, name, fmt);
      && (r.Ok? <==> |files[name]| % 2 == 0)
      && (r.Raised? ==> r.error == StructError)
      && (r.Ok? ==> |r.value| == |files[name]| / 2)
      && (r.Ok? && fmt == "uint16" ==> forall i :: 0 <= i < |r.value| ==> r.value[i].Num? && 0 <= r.value[i].n < 0x1_0000)
      && (r.Ok? && fmt == "int16" ==> forall i :: 0 <= i < |r.value| ==> r.value[i].Num? && -0x8000 <= r.value[i].n < 0x8000)
  {
  }

  /** Any format other than the three named raises ValueError, unless the
      file is missing, which is reported first. */
  lemma UnsupportedFormat(files: map<string, seq<byte>>, name: string, fmt: string)
    requires !Supported(fmt)
    ensures ReadBinaryFile(files, name, fmt) ==
      if name in files then Raised(ValueError(UNSUPPORTED)) else Raised(FileNotFound)
  {
  }

  /** Line i of the output begins with the decimal index i (which reads back
      as i) and a colon, then, for hex, `0x` and the four digits. */
  lemma PrintedLine(data: seq<Value>, fmt: string, i: nat)
    requires Supported(fmt) && i < |data|
    ensures var line := PrintData(data, fmt)[i];
      var idx := NatToString(i);
      && ParseNat(idx) == i
      && |line| == |idx| + 2 + (if fmt == "hex" then 2 else 0) + |Render(data[i])|
      && line[..|idx|] == idx && line[|idx|..|idx| + 2] == ": "
      && (fmt == "hex" ==> line[|idx| + 2..|idx| + 4] == "0x" && line[|idx| + 4..] == Render(data[i]))
      && (fmt != "hex" ==> line[|idx| + 2..] == Render(data[i]))
  {
    NatToStringRoundTrip(i);
    var prefix := if fmt == "hex" then "0x" else "";
    assert PrintData(data, fmt)[i] == Line(i, prefix, data[i]);
    Pieces(NatToString(i), ": ", prefix, Render(data[i]));
  }

  lemma Pieces(a: string, b: string, c: string, d: string)
    ensures var t := a + b + c + d;
      && |t| == |a| + |b| + |c| + |d|
      && t[..|a|] == a && t[|a|..|a| + |b|] == b
      && t[|a| + |b|..|a| + |b| + |c|] == c && t[|a| + |b| + |c|..] == d
  {
  }

  /** The exit status is 0 exactly when two arguments are given, the file
      exists, the format is one of the three and the file has even length;
      then one line per value is printed. Otherwise the status is 1, with the
      usage text for missing arguments and `Error: Unsupported format` for
      an unknown format on an existing file. */
  lemma MainOutcome(argv: seq<string>, files: map<string, seq<byte>>)
    ensures var (out, code) := RunMain(argv, files);
      && (code == 0 || code == 1)
      && (code == 0 <==>
            |argv| >= 3 && argv[1] in files && Supported(argv[2]) && |files[argv[1]]| % 2 == 0)
      && (code == 0 ==> |out| == |files[argv[1]]| / 2)
      && (|argv| < 3 ==> out == USAGE)
      && (|argv| >= 3 && argv[1] in files && !Supported(argv[2]) ==> out == ["Error: " + UNSUPPORTED])
  {
    if |argv| >= 3 && argv[1] in files {
      if Supported(argv[2]) {
        ReadShape(files, argv[1], argv[2]);
      } else {
        UnsupportedFormat(files, argv[1], argv[2]);
      }
    }
  }
}
