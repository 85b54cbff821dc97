/**
 * `format_hex_dump` (src/utils.py, copied in test_api.py): one text line
 * per 16-byte chunk, `OOOOOOOO  HH HH ... HH  |ascii|`, lines joined with
 * a newline and no trailing newline.
 */
module HexDump {
  import opened Strings
  import opened Numerals

  type byte = x: int | 0 <= x < 256

  /** The `length` parameter; every caller uses its default. */
  const Width: nat := 16

  /** Width of the padded hex field: `length * 3`. */
  const HexFieldWidth: nat := 48

  function Min(a: int, b: int): int { if a < b then a else b }

  /** `data[i:i + 16]`: Python's slice stops at the end of the data. */
  function Chunk(data: seq<byte>, k: nat): (c: seq<byte>)
    requires Width * k < |data|
    ensures 1 <= |c| <= Width
  {
    data[Width * k..Min(Width * k + Width, |data|)]
  }

  /** The number of chunks `range(0, len(data), 16)` visits. */
  function LineCount(n: nat): nat
  {
    (n + Width - 1) / Width
  }

  /** Chunk `k` exists exactly when it starts before the end of the data. */
  lemma LineCountBound(n: nat, k: nat)
    ensures k < LineCount(n) <==> Width * k < n
  {
  }

  /** A byte as `f'{b:02X}'`. */
  function HexByte(b: byte): string
  {
    Hex(b, 2)
  }

  /** `' '.join(f'{b:02X}' for b in chunk)` */
  function HexField(chunk: seq<byte>): string
  {
    Join(seq(|chunk|, i requires 0 <= i < |chunk| => HexByte(chunk[i])), " ")
  }

  /** `chr(b) if 32 <= b < 127 else '.'` */
  function AsciiChar(b: byte): char
  {
    if 32 <= b < 127 then b as char else '.'
  }

  function AsciiField(chunk: seq<byte>): string
  {
    seq(|chunk|, i requires 0 <= i < |chunk| => AsciiChar(chunk[i]))
  }

  /** `f'{s:<{w}}'`: left aligned, padded with spaces, never cut. */
  function PadRight(s: string, w: nat): string
  {
    if |s| >= w then s else s + seq(w - |s|, _ => ' ')
  }

  /** `f'{i:08X}  {hex_part:<48}  |{text_part}|'`, in three columns. */
  function FormatLine(offset: nat, chunk: seq<byte>): string
  {
    OffsetColumn(offset) + PadRight(HexField(chunk), HexFieldWidth) + AsciiColumn(chunk)
  }

  function OffsetColumn(offset: nat): string
  {
    Hex(offset, 8) + "  "
  }

  function AsciiColumn(chunk: seq<byte>): string
  {
    "  |" + AsciiField(chunk) + "|"
  }

  /** The lines `res` holds once the loop has run. */
  function Lines(data: seq<byte>): seq<string>
  {
    seq(LineCount(|data|), k requires 0 <= k < LineCount(|data|) => FormatLine(Width * k, Chunk(data, k)))
  }

  /** `format_hex_dump(data)` */
  method FormatHexDump(data: seq<byte>) returns (dump: string)
    ensures dump == Join(Lines(data), "\n")
    ensures dump == "" <==> |data| == 0
  {
    var res: seq<string> := [];
    var i := 0;
    while i < |data|
      invariant i == Width * |res|
      invariant |res| <= LineCount(|data|)
      invariant res == Lines(data)[..|res|]
    {
      var chunk := data[i..Min(i + Width, |data|)];
      LinesStep(data, |res|);
      res := res + [FormatLine(i, chunk)];
      i := i + Width;
    }
    LineCountBound(|data|, |res|);
    assert |res| == |Lines(data)|;
    assert Lines(data)[..|res|] == Lines(data);
    dump := Join(res, "\n");
    if |data| > 0 {
      assert |Lines(data)[0]| > 0;
      JoinNonEmpty(res);
    }
  }

  /** The line of chunk `k` follows the first `k` lines. */
  lemma LinesStep(data: seq<byte>, k: nat)
    requires Width * k < |data|
    ensures k < LineCount(|data|)
    ensures Lines(data)[..k + 1] == Lines(data)[..k] + [FormatLine(Width * k, data[Width * k..Min(Width * k + Width, |data|)])]
  {
    LineCountBound(|data|, k);
    assert Lines(data)[k] == FormatLine(Width * k, Chunk(data, k));
  }

  lemma JoinNonEmpty(lines: seq<string>)
    requires |lines| >= 1 && |lines[0]| > 0
    ensures Join(lines, "\n") != ""
  {
  }

  // ---------------------------------------------------------------------
  // Line count and chunking

  /** There are ceil(len(data) / 16) lines. */
  lemma LineCountIsCeiling(data: seq<byte>)
    ensures Width * |Lines(data)| >= |data|
    ensures |data| > 0 ==> Width * (|Lines(data)| - 1) < |data|
    ensures |data| == 0 <==> |Lines(data)| == 0
  {
  }

  /** Every chunk but the last holds 16 bytes; the last holds the rest (1 to 16 bytes). */
  lemma ChunkSizes(data: seq<byte>, k: nat)
    requires k < LineCount(|data|)
    ensures Width * k < |data|
    ensures k < LineCount(|data|) - 1 ==> |Chunk(data, k)| == Width
    ensures k == LineCount(|data|) - 1 ==> |Chunk(data, k)| == |data| - Width * k
  {
  }

  function Concat(chunks: seq<seq<byte>>): seq<byte>
  {
    if |chunks| == 0 then [] else chunks[0] + Concat(chunks[1..])
  }

  function ChunksFrom(data: seq<byte>, k: nat): seq<seq<byte>>
    requires Width * k <= |data| + Width - 1
    decreases |data| - Width * k
  {
    if Width * k >= |data| then [] else [Chunk(data, k)] + ChunksFrom(data, k + 1)
  }

  /** The chunks, in order, are the whole input: no byte is dropped or repeated. */
  lemma {:induction false} ChunksCoverData(data: seq<byte>, k: nat)
    requires Width * k <= |data|
    ensures Concat(ChunksFrom(data, k)) == data[Width * k..]
    decreases |data| - Width * k
  {
    if Width * k < |data| {
      if Width * (k + 1) <= |data| {
        ChunksCoverData(data, k + 1);
        assert data[Width * k..] == Chunk(data, k) + data[Width * (k + 1)..];
      } else {
        assert ChunksFrom(data, k + 1) == [];
      }
    }
  }

  // ---------------------------------------------------------------------
  // Layout of one line

  lemma HexByteLayout(b: byte)
    ensures HexByte(b) == [DigitChar(b / 16), DigitChar(b % 16)]
    ensures ReadHexByte(HexByte(b)) == b
  {
    if b < 16 {
      assert ToBase(b, 16) == [DigitChar(b)];
    } else {
      assert ToBase(b / 16, 16) == [DigitChar(b / 16)];
    }
    DigitRoundTrip(b / 16);
    DigitRoundTrip(b % 16);
  }

  lemma {:induction false} PairsLayout(pairs: seq<string>)
    requires |pairs| >= 1
    requires forall i :: 0 <= i < |pairs| ==> |pairs[i]| == 2
    ensures |Join(pairs, " ")| == 3 * |pairs| - 1
    ensures forall j :: 0 <= j < |pairs| ==> Join(pairs, " ")[3 * j..3 * j + 2] == pairs[j]
    ensures forall j :: 0 <= j < |pairs| - 1 ==> Join(pairs, " ")[3 * j + 2] == ' '
  {
    if |pairs| > 1 {
      var rest := Join(pairs[1..], " ");
      PairsLayout(pairs[1..]);
      var whole := Join(pairs, " ");
      assert whole == pairs[0] + " " + rest;
      forall j | 1 <= j < |pairs|
        ensures whole[3 * j..3 * j + 2] == pairs[j]
      {
        assert whole[3 * j..3 * j + 2] == rest[3 * (j - 1)..3 * (j - 1) + 2];
      }
      forall j | 1 <= j < |pairs| - 1
        ensures whole[3 * j + 2] == ' '
      {
        assert whole[3 * j + 2] == rest[3 * (j - 1) + 2];
      }
    }
  }

  lemma HexFieldLayout(chunk: seq<byte>)
    requires 1 <= |chunk|
    ensures |HexField(chunk)| == 3 * |chunk| - 1
    ensures forall j :: 0 <= j < |chunk| ==> HexField(chunk)[3 * j..3 * j + 2] == HexByte(chunk[j])
    ensures forall j :: 0 <= j < |chunk| - 1 ==> HexField(chunk)[3 * j + 2] == ' '
  {
    var pairs := seq(|chunk|, i requires 0 <= i < |chunk| => HexByte(chunk[i]));
    forall i | 0 <= i < |chunk| ensures |pairs[i]| == 2 {
      HexByteLayout(chunk[i]);
    }
    PairsLayout(pairs);
    var field := Join(pairs, " ");
    assert HexField(chunk) == field;
    forall j | 0 <= j < |chunk| ensures field[3 * j..3 * j + 2] == HexByte(chunk[j]) {
      assert pairs[j] == HexByte(chunk[j]);
    }
  }

  lemma PaddedHexField(chunk: seq<byte>)
    requires 1 <= |chunk| <= Width
    ensures |PadRight(HexField(chunk), HexFieldWidth)| == HexFieldWidth
    ensures forall j :: 0 <= j < |chunk| ==>
      PadRight(HexField(chunk), HexFieldWidth)[3 * j..3 * j + 2] == HexByte(chunk[j])
    ensures forall x :: 3 * |chunk| - 1 <= x < HexFieldWidth ==> PadRight(HexField(chunk), HexFieldWidth)[x] == ' '
  {
    HexFieldLayout(chunk);
    var field := HexField(chunk);
    var padded := PadRight(field, HexFieldWidth);
    assert padded == field + seq(HexFieldWidth - |field|, _ => ' ');
    forall j | 0 <= j < |chunk| ensures padded[3 * j..3 * j + 2] == HexByte(chunk[j]) {
      assert padded[3 * j..3 * j + 2] == field[3 * j..3 * j + 2];
    }
  }

  lemma ThreeColumns(head: string, padded: string, tail: string)
    requires |head| == 10 && |padded| == HexFieldWidth
    ensures (head + padded + tail)[..10] == head
    ensures (head + padded + tail)[10..58] == padded
    ensures (head + padded + tail)[58..] == tail
  {
  }

  lemma AsciiColumnLayout(chunk: seq<byte>)
    ensures |AsciiColumn(chunk)| == 4 + |chunk|
    ensures AsciiColumn(chunk)[..3] == "  |"
    ensures forall j :: 0 <= j < |chunk| ==> AsciiColumn(chunk)[3 + j] == AsciiChar(chunk[j])
    ensures AsciiColumn(chunk)[3 + |chunk|] == '|'
  {
  }

  /**
   * The layout of a line whose offset fits 32 bits, column by column
   * (this lemma and the two after it): eight offset digits and two spaces;
   * each byte's two digits three columns apart, then spaces up to column
   * 58; two spaces and '|', one character per byte, and '|'. In all 62
   * characters plus one per byte.
   */
  lemma LineOffsetColumn(offset: nat, chunk: seq<byte>)
    requires offset < 0x1_0000_0000
    requires 1 <= |chunk| <= Width
    ensures |FormatLine(offset, chunk)| == 62 + |chunk|
    ensures FormatLine(offset, chunk)[..8] == Hex(offset, 8)
    ensures FormatLine(offset, chunk)[8..10] == "  "
  {
    assert Power(16, 8) == 0x1_0000_0000;
    HexWidth(offset, 8);
    PaddedHexField(chunk);
    var head := OffsetColumn(offset);
    var line := FormatLine(offset, chunk);
    ThreeColumns(head, PadRight(HexField(chunk), HexFieldWidth), AsciiColumn(chunk));
    assert line[..8] == head[..8];
    assert line[8..10] == head[8..10];
  }

  lemma LineHexColumn(offset: nat, chunk: seq<byte>)
    requires offset < 0x1_0000_0000
    requires 1 <= |chunk| <= Width
    ensures |FormatLine(offset, chunk)| == 62 + |chunk|
    ensures forall j :: 0 <= j < |chunk| ==> FormatLine(offset, chunk)[10 + 3 * j..12 + 3 * j] == HexByte(chunk[j])
    ensures forall p :: 10 + 3 * |chunk| - 1 <= p < 58 ==> FormatLine(offset, chunk)[p] == ' '
  {
    LineOffsetColumn(offset, chunk);
    PaddedHexField(chunk);
    var padded := PadRight(HexField(chunk), HexFieldWidth);
    var line := FormatLine(offset, chunk);
    ThreeColumns(OffsetColumn(offset), padded, AsciiColumn(chunk));
    forall j | 0 <= j < |chunk|
      ensures line[10 + 3 * j..12 + 3 * j] == HexByte(chunk[j])
    {
      assert line[10 + 3 * j..12 + 3 * j] == padded[3 * j..3 * j + 2];
    }
    forall p | 10 + 3 * |chunk| - 1 <= p < 58 ensures line[p] == ' ' {
      assert line[p] == padded[p - 10];
    }
  }

  lemma LineAsciiColumn(offset: nat, chunk: seq<byte>)
    requires offset < 0x1_0000_0000
    requires 1 <= |chunk| <= Width
    ensures |FormatLine(offset, chunk)| == 62 + |chunk|
    ensures FormatLine(offset, chunk)[58..61] == "  |"
    ensures forall j :: 0 <= j < |chunk| ==> FormatLine(offset, chunk)[61 + j] == AsciiChar(chunk[j])
    ensures FormatLine(offset, chunk)[61 + |chunk|] == '|'
  {
    LineOffsetColumn(offset, chunk);
    PaddedHexField(chunk);
    AsciiColumnLayout(chunk);
    var tail := AsciiColumn(chunk);
    var line := FormatLine(offset, chunk);
    ThreeColumns(OffsetColumn(offset), PadRight(HexField(chunk), HexFieldWidth), tail);
    assert line[58..61] == tail[..3];
    forall j | 0 <= j < |chunk| ensures line[61 + j] == AsciiChar(chunk[j]) {
      assert line[61 + j] == tail[3 + j];
    }
    assert line[61 + |chunk|] == tail[3 + |chunk|];
  }

  /** A printable byte shows as itself, any other byte as '.'. */
  lemma AsciiFieldShowsPrintable(chunk: seq<byte>, j: nat)
    requires j < |chunk|
    ensures 32 <= chunk[j] < 127 ==> AsciiField(chunk)[j] as int == chunk[j]
    ensures !(32 <= chunk[j] < 127) ==> AsciiField(chunk)[j] == '.'
  {
  }

  // ---------------------------------------------------------------------
  // Reading a dump back

  function ReadHexByte(s: string): byte
    requires |s| == 2
  {
    DigitValue(s[0]) * 16 + DigitValue(s[1])
  }

  /** The offset and the bytes written in one line of 62 + n characters. */
  function DecodeLine(line: string): (nat, seq<byte>)
  {
    if |line| < 62 || |line| > 62 + Width then (0, [])
    else
      var n := |line| - 62;
      (FromBase(line[..8], 16),
       seq(n, j requires 0 <= j < n => ReadHexByte(line[10 + 3 * j..12 + 3 * j])))
  }

  /** Reading a line back gives its offset and its chunk. */
  lemma DecodeFormatLine(offset: nat, chunk: seq<byte>)
    requires offset < 0x1_0000_0000
    requires 1 <= |chunk| <= Width
    ensures DecodeLine(FormatLine(offset, chunk)) == (offset, chunk)
  {
    LineOffsetColumn(offset, chunk);
    LineHexColumn(offset, chunk);
    HexRoundTrip(offset, 8);
    var line := FormatLine(offset, chunk);
    var decoded := DecodeLine(line);
    assert decoded.0 == offset;
    var bytes := decoded.1;
    assert |bytes| == |chunk|;
    forall j | 0 <= j < |chunk| ensures bytes[j] == chunk[j] {
      HexByteLayout(chunk[j]);
      assert line[10 + 3 * j..12 + 3 * j] == HexByte(chunk[j]);
    }
    assert bytes == chunk;
  }

  function DecodeLines(lines: seq<string>): seq<byte>
  {
    if |lines| == 0 then [] else DecodeLine(lines[0]).1 + DecodeLines(lines[1..])
  }

  /** The bytes a dump shows, line after line. */
  function DecodeDump(dump: string): seq<byte>
  {
    if dump == "" then [] else DecodeLines(Split(dump, '\n'))
  }

  lemma LineHasNoNewline(offset: nat, chunk: seq<byte>)
    ensures '\n' !in FormatLine(offset, chunk)
  {
    HexFieldHasNoNewline(chunk);
    ToBaseDigits(offset, 16);
    var hex := HexField(chunk);
    assert '\n' !in PadRight(hex, HexFieldWidth);
    assert '\n' !in OffsetColumn(offset);
    assert '\n' !in AsciiColumn(chunk);
  }

  lemma HexFieldHasNoNewline(chunk: seq<byte>)
    ensures '\n' !in HexField(chunk)
  {
    var pairs := seq(|chunk|, i requires 0 <= i < |chunk| => HexByte(chunk[i]));
    forall i | 0 <= i < |chunk| ensures '\n' !in pairs[i] {
      HexByteLayout(chunk[i]);
    }
    JoinAvoids(pairs, " ", '\n');
  }

  lemma {:induction false} DecodeLinesOfLines(data: seq<byte>, k: nat)
    requires |data| <= 0x1_0000_0000
    requires k <= LineCount(|data|)
    ensures DecodeLines(Lines(data)[k..]) == Concat(ChunksFrom(data, k))
    decreases LineCount(|data|) - k
  {
    var lines := Lines(data);
    if k < LineCount(|data|) {
      DecodeFormatLine(Width * k, Chunk(data, k));
      assert lines[k..][1..] == lines[k + 1..];
      DecodeLinesOfLines(data, k + 1);
    } else {
      assert Width * k >= |data|;
    }
  }

  /** Reading back the dump of at most 2^32 bytes gives the bytes. */
  lemma DecodeDumpRoundTrip(data: seq<byte>)
    requires |data| <= 0x1_0000_0000
    ensures DecodeDump(Join(Lines(data), "\n")) == data
  {
    var lines := Lines(data);
    if |data| > 0 {
      forall k | 0 <= k < |lines| ensures '\n' !in lines[k] {
        LineHasNoNewline(Width * k, Chunk(data, k));
      }
      SplitJoin(lines, '\n');
      assert |lines[0]| > 0;
      DecodeLinesOfLines(data, 0);
      ChunksCoverData(data, 0);
      assert lines[0..] == lines;
    }
  }

  /** The dump has one line per chunk: splitting it on newlines gives the lines back. */
  lemma DumpSplitsIntoLines(data: seq<byte>)
    requires |data| > 0
    ensures Split(Join(Lines(data), "\n"), '\n') == Lines(data)
  {
    var lines := Lines(data);
    forall k | 0 <= k < |lines| ensures '\n' !in lines[k] {
      LineHasNoNewline(Width * k, Chunk(data, k));
    }
    SplitJoin(lines, '\n');
  }
}
