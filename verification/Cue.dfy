/** The index file of a container: a header, and the records in columns. */
module Cue {
  import opened Prelude
  import opened Wire
  import opened PackTable
  import opened PackIndex
  import opened PackWriter

  const HEADER_LEN: nat := 16

  /** A record as the file holds it: 64-bit numbers, and a type of 8 bits with a sign. */
  datatype Row = Row(hash: Hash, typ: int, codec: nat, offset: int, stored: int, raw: int, base: Hash)

  /** The hash widths of the two object formats. */
  predicate IsHashLen(n: nat) {
    n == 20 || n == 32
  }

  /** The record fits the file's fields. */
  predicate Fits(hashLen: nat, r: Row) {
    && r.hash < Pow256(hashLen) && r.base < Pow256(hashLen)
    && -128 <= r.typ < 128 && (r.codec == CODEC_RAW || r.codec == CODEC_ZSTD)
    && IsInt64(r.offset) && IsInt64(r.stored) && IsInt64(r.raw)
  }

  predicate AllFit(hashLen: nat, rows: seq<Row>) {
    forall i :: 0 <= i < |rows| ==> Fits(hashLen, rows[i])
  }

  function PutInt8(t: int): (b: byte)
    requires -128 <= t < 128
  {
    (if t >= 0 then t else t + 256) as byte
  }

  function GetInt8(b: byte): int {
    if b < 128 then b as int else b as int - 256
  }

  /** The cells of one record. */
  datatype Cells = Cells(hash: Bytes, typ: Bytes, codec: Bytes, offset: Bytes, stored: Bytes, raw: Bytes, base: Bytes)

  function CellsOf(hashLen: nat, r: Row): (c: Cells)
    requires Fits(hashLen, r)
    ensures |c.hash| == |c.base| == hashLen && |c.typ| == |c.codec| == 1 && |c.offset| == |c.stored| == |c.raw| == 8
  {
    Cells(PutNat(r.hash, hashLen), [PutInt8(r.typ)], [r.codec as byte], PutInt64(r.offset), PutInt64(r.stored), PutInt64(r.raw),
          PutNat(r.base, hashLen))
  }

  /** The record that cells spell, unless its payload codec is unknown. */
  function RowOf(c: Cells): Option<Row> {
    if |c.typ| != 1 || |c.codec| != 1 || !KnownCodec(c.codec[0]) then None
    else Some(Row(GetNat(c.hash), GetInt8(c.typ[0]), c.codec[0] as nat, Signed(GetNat(c.offset)), Signed(GetNat(c.stored)),
                  Signed(GetNat(c.raw)), GetNat(c.base)))
  }

  predicate KnownCodec(b: byte) {
    b as nat == CODEC_RAW || b as nat == CODEC_ZSTD
  }

  lemma RowOfCells(hashLen: nat, r: Row)
    requires Fits(hashLen, r)
    ensures RowOf(CellsOf(hashLen, r)) == Some(r)
    ensures RowOf(CellsOf(hashLen, r).(base := [])) == Some(r.(base := ZERO_HASH))
  {
    GetPutNat(r.hash, hashLen);
    GetPutNat(r.base, hashLen);
    GetPutInt64(r.offset);
    GetPutInt64(r.stored);
    GetPutInt64(r.raw);
  }

  datatype Field = HashF | TypF | CodecF | OffsetF | StoredF | RawF | BaseF

  function Pick(c: Cells, f: Field): Bytes {
    match f
    case HashF => c.hash
    case TypF => c.typ
    case CodecF => c.codec
    case OffsetF => c.offset
    case StoredF => c.stored
    case RawF => c.raw
    case BaseF => c.base
  }

  function Width(hashLen: nat, f: Field): nat {
    match f
    case HashF => hashLen
    case TypF => 1
    case CodecF => 1
    case OffsetF => 8
    case StoredF => 8
    case RawF => 8
    case BaseF => hashLen
  }

  /** How long a column of `n` records is. */
  function Size(hashLen: nat, n: nat, f: Field): nat {
    n * Width(hashLen, f)
  }

  function Column(hashLen: nat, rows: seq<Row>, f: Field): Bytes
    requires AllFit(hashLen, rows)
  {
    Flat(seq(|rows|, i requires 0 <= i < |rows| => Pick(CellsOf(hashLen, rows[i]), f)))
  }

  lemma ColumnLength(hashLen: nat, rows: seq<Row>, f: Field)
    requires AllFit(hashLen, rows)
    ensures |Column(hashLen, rows, f)| == |rows| * Width(hashLen, f)
  {
    FlatLength(seq(|rows|, i requires 0 <= i < |rows| => Pick(CellsOf(hashLen, rows[i]), f)), Width(hashLen, f));
  }

  lemma ColumnCell(hashLen: nat, rows: seq<Row>, f: Field, rest: Bytes, i: nat)
    requires AllFit(hashLen, rows) && i < |rows|
    ensures Cell(Column(hashLen, rows, f) + rest, Width(hashLen, f), i) == Pick(CellsOf(hashLen, rows[i]), f)
  {
    FlatCell(seq(|rows|, i requires 0 <= i < |rows| => Pick(CellsOf(hashLen, rows[i]), f)), rest, Width(hashLen, f), i);
  }

  function Rank(f: Field): nat {
    match f
    case HashF => 7
    case TypF => 6
    case CodecF => 5
    case OffsetF => 4
    case StoredF => 3
    case RawF => 2
    case BaseF => 1
  }

  /** The columns from field `f` on; the last one is the base, if the file has that column. */
  function From(hashLen: nat, rows: seq<Row>, f: Field, withBase: bool): Bytes
    requires AllFit(hashLen, rows)
    decreases Rank(f), 1
  {
    Column(hashLen, rows, f) + Behind(hashLen, rows, f, withBase)
  }

  /** The columns behind field `f`. */
  function Behind(hashLen: nat, rows: seq<Row>, f: Field, withBase: bool): Bytes
    requires AllFit(hashLen, rows)
    decreases Rank(f), 0
  {
    match f
    case HashF => From(hashLen, rows, TypF, withBase)
    case TypF => From(hashLen, rows, CodecF, withBase)
    case CodecF => From(hashLen, rows, OffsetF, withBase)
    case OffsetF => From(hashLen, rows, StoredF, withBase)
    case StoredF => From(hashLen, rows, RawF, withBase)
    case RawF => if withBase then From(hashLen, rows, BaseF, withBase) else []
    case BaseF => []
  }

  /** The record block: six columns or seven, one behind the other. */
  function Block(hashLen: nat, rows: seq<Row>, withBase: bool): Bytes
    requires AllFit(hashLen, rows)
  {
    From(hashLen, rows, HashF, withBase)
  }

  function Header(version: byte, hashLen: nat, codec: nat, count: nat): (h: Bytes)
    requires hashLen < 256 && codec < 256
    ensures |h| == HEADER_LEN
  {
    [79, 71, 67, version, hashLen as byte, codec as byte, 0, 0] + PutNat(count, 8)
  }

  /** The file of a list of records in columns: the current version, or the one before it, which has
      no base column. */
  function EncodedAs(c: Codec, hashLen: nat, rows: seq<Row>, withBase: bool): Bytes
    requires IsHashLen(hashLen) && AllFit(hashLen, rows)
  {
    var (body, compressed) := CompressBlock(c, Block(hashLen, rows, withBase));
    Header(if withBase then 3 else 2, hashLen, if compressed then CODEC_ZSTD else CODEC_RAW, |rows|) + body
  }

  /** The file of a list of records, as it is written now. */
  function Encoded(c: Codec, hashLen: nat, rows: seq<Row>): Bytes
    requires IsHashLen(hashLen) && AllFit(hashLen, rows)
  {
    EncodedAs(c, hashLen, rows, true)
  }

  /** A record of a file without a base column. */
  predicate NoBases(rows: seq<Row>) {
    forall i :: 0 <= i < |rows| ==> rows[i].base == ZERO_HASH
  }

  /** The file of a list of records in the second version. */
  function EncodedV2(c: Codec, hashLen: nat, rows: seq<Row>): Bytes
    requires IsHashLen(hashLen) && AllFit(hashLen, rows) && NoBases(rows)
  {
    EncodedAs(c, hashLen, rows, false)
  }

  /** What is left of `b` from place `k` on. */
  function Drop(b: Bytes, k: nat): Bytes {
    if k <= |b| then b[k..] else []
  }

  /** The record block from where each column starts. */
  datatype Starts = Starts(hashes: Bytes, types: Bytes, codecs: Bytes, offsets: Bytes, storeds: Bytes, raws: Bytes, bases: Bytes)

  function StartsOf(hashLen: nat, block: Bytes, count: nat): Starts {
    var types := Drop(block, count * hashLen);
    var codecs := Drop(types, count);
    var offsets := Drop(codecs, count);
    var storeds := Drop(offsets, count * 8);
    var raws := Drop(storeds, count * 8);
    Starts(block, types, codecs, offsets, storeds, raws, Drop(raws, count * 8))
  }

  /** The cells of record `i`. Before version 3 there is no base column. */
  function CellsAt(hashLen: nat, s: Starts, i: nat, withBase: bool): Cells {
    Cells(Cell(s.hashes, hashLen, i), Cell(s.types, 1, i), Cell(s.codecs, 1, i), Cell(s.offsets, 8, i), Cell(s.storeds, 8, i),
          Cell(s.raws, 8, i), if withBase then Cell(s.bases, hashLen, i) else [])
  }

  /** The first `n` records. */
  function Rows(hashLen: nat, s: Starts, n: nat, withBase: bool): Option<seq<Row>> {
    if n == 0 then Some([])
    else
      var rest, row := Rows(hashLen, s, n - 1, withBase), RowOf(CellsAt(hashLen, s, n - 1, withBase));
      if rest.None? || row.None? then None else Some(rest.value + [row.value])
  }

  /** The record block, decompressed when the header says that it is compressed. */
  function BlockOf(c: Codec, raw: Bytes): Option<Bytes>
    requires |raw| >= HEADER_LEN
  {
    if raw[5] as nat == CODEC_RAW then Some(raw[HEADER_LEN..])
    else if raw[5] as nat == CODEC_ZSTD then c.dec(raw[HEADER_LEN..])
    else None
  }

  function ParseColumnar(c: Codec, hashLen: nat, raw: Bytes, count: nat, withBase: bool): Option<seq<Row>>
    requires |raw| >= HEADER_LEN
  {
    var block := BlockOf(c, raw);
    var width := if withBase then hashLen * 2 + 26 else hashLen + 26;
    if block.None? || count * width != |block.value| then None
    else Rows(hashLen, StartsOf(hashLen, block.value, count), count, withBase)
  }

  /** Record `i` of the first version: record after record, and every payload raw. */
  function RowV1(hashLen: nat, body: Bytes, i: nat): Option<Row> {
    var rec := Cell(body, hashLen + 17, i);
    if rec == [] then None
    else
      var size := Signed(GetNat(rec[hashLen + 9..]));
      Some(Row(GetNat(rec[..hashLen]), GetInt8(rec[hashLen]), CODEC_RAW, Signed(GetNat(rec[hashLen + 1..hashLen + 9])), size, size, ZERO_HASH))
  }

  function RowsV1(hashLen: nat, body: Bytes, n: nat): Option<seq<Row>> {
    if n == 0 then Some([])
    else
      var rest, row := RowsV1(hashLen, body, n - 1), RowV1(hashLen, body, n - 1);
      if rest.None? || row.None? then None else Some(rest.value + [row.value])
  }

  /** The records of a file, or None when it is malformed. The record count is checked against the
      file's length before anything else is made of it. */
  function Parse(c: Codec, hashLen: nat, raw: Bytes): Option<seq<Row>> {
    if |raw| < HEADER_LEN || raw[..3] != [79, 71, 67] || raw[3] == 0 || raw[3] > 3 then None
    else if raw[4] as nat != hashLen || raw[6] != 0 || raw[7] != 0 then None
    else
      var count := GetNat(raw[8..HEADER_LEN]);
      if count > |raw| then None
      else if raw[3] == 1 then
        var body := raw[HEADER_LEN..];
        if raw[5] != 0 || count * (hashLen + 17) != |body| then None else RowsV1(hashLen, body, count)
      else ParseColumnar(c, hashLen, raw, count, raw[3] == 3)
  }

  function BlockWidth(hashLen: nat, withBase: bool): nat {
    if withBase then hashLen * 2 + 26 else hashLen + 26
  }

  /** A written block is cut at its columns. */
  lemma StartsOfBlock(hashLen: nat, rows: seq<Row>, withBase: bool)
    requires AllFit(hashLen, rows)
    ensures var s := StartsOf(hashLen, Block(hashLen, rows, withBase), |rows|);
            && s.hashes == From(hashLen, rows, HashF, withBase) && s.types == From(hashLen, rows, TypF, withBase)
            && s.codecs == From(hashLen, rows, CodecF, withBase) && s.offsets == From(hashLen, rows, OffsetF, withBase)
            && s.storeds == From(hashLen, rows, StoredF, withBase) && s.raws == From(hashLen, rows, RawF, withBase)
            && (withBase ==> s.bases == From(hashLen, rows, BaseF, withBase))
    ensures |Block(hashLen, rows, withBase)| == |rows| * BlockWidth(hashLen, withBase)
  {
    hide From, Drop;
    FromNext(hashLen, rows, HashF, withBase);
    FromNext(hashLen, rows, TypF, withBase);
    FromNext(hashLen, rows, CodecF, withBase);
    FromNext(hashLen, rows, OffsetF, withBase);
    FromNext(hashLen, rows, StoredF, withBase);
    FromNext(hashLen, rows, RawF, withBase);
    FromNext(hashLen, rows, BaseF, withBase);
  }

  lemma FromNext(hashLen: nat, rows: seq<Row>, f: Field, withBase: bool)
    requires AllFit(hashLen, rows)
    ensures Drop(From(hashLen, rows, f, withBase), Size(hashLen, |rows|, f)) == Behind(hashLen, rows, f, withBase)
    ensures |From(hashLen, rows, f, withBase)| == Size(hashLen, |rows|, f) + |Behind(hashLen, rows, f, withBase)|
  {
    hide Column, Behind;
    ColumnLength(hashLen, rows, f);
  }

  lemma CellsOfBlock(hashLen: nat, rows: seq<Row>, i: nat, withBase: bool)
    requires AllFit(hashLen, rows) && i < |rows|
    ensures CellsAt(hashLen, StartsOf(hashLen, Block(hashLen, rows, withBase), |rows|), i, withBase)
         == CellsOf(hashLen, rows[i]).(base := if withBase then CellsOf(hashLen, rows[i]).base else [])
  {
    hide StartsOf, Block, Column, Cell, CellsOf;
    StartsOfBlock(hashLen, rows, withBase);
    FromCell(hashLen, rows, HashF, i, withBase);
    FromCell(hashLen, rows, TypF, i, withBase);
    FromCell(hashLen, rows, CodecF, i, withBase);
    FromCell(hashLen, rows, OffsetF, i, withBase);
    FromCell(hashLen, rows, StoredF, i, withBase);
    FromCell(hashLen, rows, RawF, i, withBase);
    FromCell(hashLen, rows, BaseF, i, withBase);
  }

  lemma FromCell(hashLen: nat, rows: seq<Row>, f: Field, i: nat, withBase: bool)
    requires AllFit(hashLen, rows) && i < |rows|
    ensures Cell(From(hashLen, rows, f, withBase), Width(hashLen, f), i) == Pick(CellsOf(hashLen, rows[i]), f)
  {
    hide Column, Cell, CellsOf;
    ColumnCell(hashLen, rows, f, Behind(hashLen, rows, f, withBase), i);
  }

  lemma {:induction false} RowsOfBlock(hashLen: nat, rows: seq<Row>, n: nat, withBase: bool)
    requires AllFit(hashLen, rows) && (withBase || NoBases(rows)) && n <= |rows|
    ensures Rows(hashLen, StartsOf(hashLen, Block(hashLen, rows, withBase), |rows|), n, withBase) == Some(rows[..n])
  {
    hide StartsOf, Block, CellsAt, CellsOf, RowOf;
    if n > 0 {
      RowsOfBlock(hashLen, rows, n - 1, withBase);
      CellsOfBlock(hashLen, rows, n - 1, withBase);
      RowOfCells(hashLen, rows[n - 1]);
      assert rows[..n] == rows[..n - 1] + [rows[n - 1]];
    }
  }

  /** The file of any records reads back as those records, exactly when the file has at least as many
      bytes as records: a file that compression made shorter than that is refused. */
  lemma ParseEncoded(c: Codec, hashLen: nat, rows: seq<Row>)
    requires LawfulCodec(c) && IsHashLen(hashLen) && AllFit(hashLen, rows) && |rows| < TWO_64
    ensures Parse(c, hashLen, Encoded(c, hashLen, rows)) == Some(rows) <==> |rows| <= |Encoded(c, hashLen, rows)|
    ensures |rows| > |Encoded(c, hashLen, rows)| ==> Parse(c, hashLen, Encoded(c, hashLen, rows)) == None
  {
    hide EncodedAs, Parse;
    ParseEncodedAs(c, hashLen, rows, true);
  }

  /** So do the files of the second version, which hold no delta. */
  lemma ParseEncodedV2(c: Codec, hashLen: nat, rows: seq<Row>)
    requires LawfulCodec(c) && IsHashLen(hashLen) && AllFit(hashLen, rows) && NoBases(rows) && |rows| < TWO_64
    ensures Parse(c, hashLen, EncodedV2(c, hashLen, rows)) == Some(rows) <==> |rows| <= |EncodedV2(c, hashLen, rows)|
    ensures |rows| > |EncodedV2(c, hashLen, rows)| ==> Parse(c, hashLen, EncodedV2(c, hashLen, rows)) == None
  {
    hide EncodedAs, Parse;
    ParseEncodedAs(c, hashLen, rows, false);
  }

  lemma ParseEncodedAs(c: Codec, hashLen: nat, rows: seq<Row>, withBase: bool)
    requires LawfulCodec(c) && IsHashLen(hashLen) && AllFit(hashLen, rows) && (withBase || NoBases(rows)) && |rows| < TWO_64
    ensures var raw := EncodedAs(c, hashLen, rows, withBase);
            Parse(c, hashLen, raw) == if |rows| <= |raw| then Some(rows) else None
  {
    hide Block, EncodedAs, ParseColumnar;
    EncodedHeader(c, hashLen, rows, withBase);
    EncodedColumns(c, hashLen, rows, withBase);
  }

  lemma EncodedHeader(c: Codec, hashLen: nat, rows: seq<Row>, withBase: bool)
    requires IsHashLen(hashLen) && AllFit(hashLen, rows) && |rows| < TWO_64
    ensures var raw := EncodedAs(c, hashLen, rows, withBase);
            && |raw| >= HEADER_LEN && raw[..3] == [79, 71, 67] && raw[3] == (if withBase then 3 else 2)
            && raw[4] as nat == hashLen && raw[6] == raw[7] == 0 && GetNat(raw[8..HEADER_LEN]) == |rows|
            && var (body, compressed) := CompressBlock(c, Block(hashLen, rows, withBase));
               raw[5] as nat == (if compressed then CODEC_ZSTD else CODEC_RAW) && raw[HEADER_LEN..] == body
  {
    hide Block, CompressBlock;
    var raw := EncodedAs(c, hashLen, rows, withBase);
    assert raw[8..HEADER_LEN] == PutNat(|rows|, 8);
    Pow256Of8();
    GetPutNat(|rows|, 8);
  }

  lemma EncodedColumns(c: Codec, hashLen: nat, rows: seq<Row>, withBase: bool)
    requires LawfulCodec(c) && IsHashLen(hashLen) && AllFit(hashLen, rows) && (withBase || NoBases(rows)) && |rows| < TWO_64
    ensures var raw := EncodedAs(c, hashLen, rows, withBase);
            |raw| >= HEADER_LEN && ParseColumnar(c, hashLen, raw, |rows|, withBase) == Some(rows)
  {
    hide Block, EncodedAs, StartsOf, Rows;
    EncodedHeader(c, hashLen, rows, withBase);
    StartsOfBlock(hashLen, rows, withBase);
    RowsOfBlock(hashLen, rows, |rows|, withBase);
    assert rows[..|rows|] == rows;
  }

  /** How a file of one record lies in the bucket when it is stored as it is: the header, then hash,
      type, payload codec, offset, stored length, raw length, and base where there is one. */
  lemma OneRecordFile(c: Codec, hashLen: nat, r: Row, withBase: bool)
    requires IsHashLen(hashLen) && AllFit(hashLen, [r]) && Fits(hashLen, r) && !CompressBlock(c, Block(hashLen, [r], withBase)).1
    ensures EncodedAs(c, hashLen, [r], withBase)
         == [79, 71, 67, if withBase then 3 else 2, hashLen as byte, 0, 0, 0, 0, 0, 0, 0, 0, 0, 0, 1] + PutNat(r.hash, hashLen)
          + [PutInt8(r.typ), r.codec as byte] + PutInt64(r.offset) + PutInt64(r.stored) + PutInt64(r.raw)
          + if withBase then PutNat(r.base, hashLen) else []
  {
    hide Block, PutInt8, PutInt64;
    OneBlock(hashLen, r, withBase);
    OneCounted();
  }

  lemma OneBlock(hashLen: nat, r: Row, withBase: bool)
    requires AllFit(hashLen, [r]) && Fits(hashLen, r)
    ensures Block(hashLen, [r], withBase)
         == PutNat(r.hash, hashLen) + [PutInt8(r.typ), r.codec as byte] + PutInt64(r.offset) + PutInt64(r.stored) + PutInt64(r.raw)
          + if withBase then PutNat(r.base, hashLen) else []
  {
    hide Column, PutInt8, PutInt64, AllFit;
    OneCell(hashLen, r, HashF);
    OneCell(hashLen, r, TypF);
    OneCell(hashLen, r, CodecF);
    OneCell(hashLen, r, OffsetF);
    OneCell(hashLen, r, StoredF);
    OneCell(hashLen, r, RawF);
    OneCell(hashLen, r, BaseF);
    hide PutNat;
    var tail := if withBase then PutNat(r.base, hashLen) else [];
    assert Behind(hashLen, [r], RawF, withBase) == tail by {
      assert PutNat(r.base, hashLen) + [] == PutNat(r.base, hashLen);
    }
    assert From(hashLen, [r], OffsetF, withBase) == PutInt64(r.offset) + (PutInt64(r.stored) + (PutInt64(r.raw) + tail));
    InARow(PutNat(r.hash, hashLen), PutInt8(r.typ), r.codec as byte, PutInt64(r.offset), PutInt64(r.stored), PutInt64(r.raw), tail);
  }

  lemma InARow(h: Bytes, t: byte, k: byte, o: Bytes, s: Bytes, r: Bytes, tail: Bytes)
    ensures h + ([t] + ([k] + (o + (s + (r + tail))))) == h + [t, k] + o + s + r + tail
  {
    assert [t] + ([k] + (o + (s + (r + tail)))) == [t, k] + (o + (s + (r + tail)));
    assert s + (r + tail) == s + r + tail;
    assert o + (s + r + tail) == o + s + r + tail;
  }

  lemma OneCell(hashLen: nat, r: Row, f: Field)
    requires AllFit(hashLen, [r]) && Fits(hashLen, r)
    ensures Column(hashLen, [r], f) == Pick(CellsOf(hashLen, r), f)
  {
    hide CellsOf, Pick;
    var cell := Pick(CellsOf(hashLen, r), f);
    assert seq(1, i requires 0 <= i < 1 => Pick(CellsOf(hashLen, [r][i]), f)) == [cell];
    assert [cell][..0] == [] && Flat([]) == [] && [] + cell == cell;
  }

  lemma OneCounted()
    ensures PutNat(1, 8) == [0, 0, 0, 0, 0, 0, 0, 1]
  {
    assert PutNat(0, 4) == [0, 0, 0, 0] by { assert PutNat(0, 2) == [0, 0]; }
    assert PutNat(0, 7) == [0, 0, 0, 0, 0, 0, 0] by { assert PutNat(0, 6) == PutNat(0, 4) + [0] + [0]; }
  }

  /** A file whose record block is stored as it is always reads back. */
  lemma RawAlwaysParses(c: Codec, hashLen: nat, rows: seq<Row>)
    requires LawfulCodec(c) && IsHashLen(hashLen) && AllFit(hashLen, rows) && |rows| < TWO_64
    requires !CompressBlock(c, Block(hashLen, rows, true)).1
    ensures Parse(c, hashLen, Encoded(c, hashLen, rows)) == Some(rows)
  {
    hide Block, Parse, EncodedAs, StartsOf, IsHashLen, BlockWidth;
    StartsOfBlock(hashLen, rows, true);
    EncodedHeader(c, hashLen, rows, true);
    AtLeast(hashLen, |rows|);
    ParseEncoded(c, hashLen, rows);
  }

  lemma AtLeast(hashLen: nat, n: nat)
    requires IsHashLen(hashLen)
    ensures n * BlockWidth(hashLen, true) >= n
  {
  }

  // The writer and the reader, as loops over the buffer.

  method AppendColumn(block: Bytes, hashLen: nat, rows: seq<Row>, f: Field) returns (out: Bytes)
    requires AllFit(hashLen, rows)
    ensures out + Behind(hashLen, rows, f, true) == block + From(hashLen, rows, f, true)
  {
    hide CellsOf, Fits, Pick, Behind;
    ghost var cells := seq(|rows|, i requires 0 <= i < |rows| => Pick(CellsOf(hashLen, rows[i]), f));
    out := block;
    for i := 0 to |rows|
      invariant out == block + Flat(cells[..i])
    {
      assert cells[..i + 1][..i] == cells[..i];
      out := out + Pick(CellsOf(hashLen, rows[i]), f);
    }
    assert cells[..|rows|] == cells;
    Regroup(block, Column(hashLen, rows, f), Behind(hashLen, rows, f, true));
  }

  lemma Regroup(a: Bytes, b: Bytes, c: Bytes)
    ensures (a + b) + c == a + (b + c)
  {
  }

  method EncodeCue(c: Codec, hashLen: nat, rows: seq<Row>) returns (raw: Bytes)
    requires IsHashLen(hashLen) && AllFit(hashLen, rows)
    ensures raw == Encoded(c, hashLen, rows)
  {
    hide From, AllFit, CompressBlock;
    var block := AppendColumn([], hashLen, rows, HashF);
    block := AppendColumn(block, hashLen, rows, TypF);
    block := AppendColumn(block, hashLen, rows, CodecF);
    block := AppendColumn(block, hashLen, rows, OffsetF);
    block := AppendColumn(block, hashLen, rows, StoredF);
    block := AppendColumn(block, hashLen, rows, RawF);
    block := AppendColumn(block, hashLen, rows, BaseF);
    assert block + [] == block == Block(hashLen, rows, true);
    var (body, compressed) := CompressBlock(c, block);
    raw := Header(3, hashLen, if compressed then CODEC_ZSTD else CODEC_RAW, |rows|) + body;
  }

  lemma {:induction false} RowsStayBad(hashLen: nat, s: Starts, n: nat, m: nat, withBase: bool)
    requires n <= m && Rows(hashLen, s, n, withBase).None?
    ensures Rows(hashLen, s, m, withBase).None?
    decreases m
  {
    if n < m {
      RowsStayBad(hashLen, s, n, m - 1, withBase);
    }
  }

  method ParseRows(hashLen: nat, s: Starts, count: nat, withBase: bool) returns (r: Option<seq<Row>>)
    ensures r == Rows(hashLen, s, count, withBase)
  {
    hide RowOf, CellsAt;
    var rows: seq<Row> := [];
    for i := 0 to count
      invariant Rows(hashLen, s, i, withBase) == Some(rows)
    {
      var row := RowOf(CellsAt(hashLen, s, i, withBase));
      if row.None? {
        RowsStayBad(hashLen, s, i + 1, count, withBase);
        return None;
      }
      rows := rows + [row.value];
    }
    r := Some(rows);
  }

  lemma {:induction false} RowsV1StayBad(hashLen: nat, body: Bytes, n: nat, m: nat)
    requires n <= m && RowsV1(hashLen, body, n).None?
    ensures RowsV1(hashLen, body, m).None?
    decreases m
  {
    if n < m {
      RowsV1StayBad(hashLen, body, n, m - 1);
    }
  }

  method ParseRowsV1(hashLen: nat, body: Bytes, count: nat) returns (r: Option<seq<Row>>)
    ensures r == RowsV1(hashLen, body, count)
  {
    hide RowV1;
    var rows: seq<Row> := [];
    for i := 0 to count
      invariant RowsV1(hashLen, body, i) == Some(rows)
    {
      var row := RowV1(hashLen, body, i);
      if row.None? {
        RowsV1StayBad(hashLen, body, i + 1, count);
        return None;
      }
      rows := rows + [row.value];
    }
    r := Some(rows);
  }

  method ParseCue(c: Codec, hashLen: nat, raw: Bytes) returns (r: Option<seq<Row>>)
    ensures r == Parse(c, hashLen, raw)
  {
    hide Rows, RowsV1, StartsOf;
    if |raw| < HEADER_LEN || raw[..3] != [79, 71, 67] || raw[3] == 0 || raw[3] > 3 || raw[4] as nat != hashLen || raw[6] != 0 || raw[7] != 0 {
      return None;
    }
    var count := GetNat(raw[8..HEADER_LEN]);
    if count > |raw| {
      return None;
    }
    if raw[3] == 1 {
      var body := raw[HEADER_LEN..];
      if raw[5] != 0 || count * (hashLen + 17) != |body| {
        return None;
      }
      r := ParseRowsV1(hashLen, body, count);
      return;
    }
    var block := BlockOf(c, raw);
    var width := if raw[3] == 3 then hashLen * 2 + 26 else hashLen + 26;
    if block.None? || count * width != |block.value| {
      return None;
    }
    r := ParseRows(hashLen, StartsOf(hashLen, block.value, count), count, raw[3] == 3);
  }

  // The records of the index, written to a file and read from it.

  /** A record as the file holds it. */
  function RowFor(r: CueRecord): Row {
    Row(r.hash, r.span.typ, r.span.codec, r.span.offset, r.span.stored, r.span.raw, r.base)
  }

  function RowsFor(recs: seq<CueRecord>): (rows: seq<Row>)
    ensures |rows| == |recs| && forall i :: 0 <= i < |rows| ==> rows[i] == RowFor(recs[i])
  {
    seq(|recs|, i requires 0 <= i < |recs| => RowFor(recs[i]))
  }

  /** The record of a row; one with a negative place or length is no record of a container. */
  function RecordOf(row: Row): Option<CueRecord> {
    if row.offset < 0 || row.stored < 0 || row.raw < 0 then None
    else Some(CueRecord(row.hash, Span(row.typ, row.codec, row.offset, row.stored, row.raw), row.base))
  }

  function RecordsOf(rows: seq<Row>): Option<seq<CueRecord>> {
    if rows == [] then Some([])
    else
      var n := |rows| - 1;
      var low, r := RecordsOf(rows[..n]), RecordOf(rows[n]);
      if low.None? || r.None? then None else Some(low.value + [r.value])
  }

  lemma {:induction false} RecordsOfRows(recs: seq<CueRecord>)
    ensures RecordsOf(RowsFor(recs)) == Some(recs)
  {
    if recs != [] {
      var n := |recs| - 1;
      assert RowsFor(recs)[..n] == RowsFor(recs[..n]);
      RecordsOfRows(recs[..n]);
      assert recs == recs[..n] + [recs[n]];
    }
  }

  ghost predicate Recordable(hashLen: nat, recs: seq<CueRecord>) {
    IsHashLen(hashLen) && AllFit(hashLen, RowsFor(recs)) && |recs| < TWO_64
  }

  /** The index file of a container's records. */
  ghost function CueFile(c: Codec, hashLen: nat, recs: seq<CueRecord>): Bytes
    requires Recordable(hashLen, recs)
  {
    Encoded(c, hashLen, RowsFor(recs))
  }

  ghost function ReadCue(c: Codec, hashLen: nat, raw: Bytes): Option<seq<CueRecord>> {
    var rows := Parse(c, hashLen, raw);
    if rows.None? then None else RecordsOf(rows.value)
  }

  /** A container's records come back from their file, unless it is shorter than they are many. */
  lemma ReadCueFile(c: Codec, hashLen: nat, recs: seq<CueRecord>)
    requires LawfulCodec(c) && Recordable(hashLen, recs)
    ensures ReadCue(c, hashLen, CueFile(c, hashLen, recs)) == (if |recs| <= |CueFile(c, hashLen, recs)| then Some(recs) else None)
  {
    hide Parse, Encoded;
    ParseEncoded(c, hashLen, RowsFor(recs));
    RecordsOfRows(recs);
  }

  // A file that compression makes shorter than its record count.

  /** A codec that knows one block by heart. */
  function Tailored(block: Bytes): Codec {
    Codec((b: Bytes) => if b == block then [0] else [1] + b,
          (b: Bytes) => [1] + b,
          (b: Bytes) => if b == [] then None else if b[0] == 0 then Some(block) else Some(b[1..]))
  }

  lemma TailoredIsLawful(block: Bytes)
    ensures LawfulCodec(Tailored(block))
  {
    var c := Tailored(block);
    forall b: Bytes ensures c.dec(c.enc(b)) == Some(b) && |c.enc(b)| > 0 && c.dec(c.stream(b)) == Some(b) && |c.stream(b)| > 0 {
      assert ([1] + b)[1..] == b;
    }
  }

  /** With that codec any records take seventeen bytes, so more than seventeen are refused. */
  lemma ShortFileIsRefused(hashLen: nat, rows: seq<Row>)
    requires IsHashLen(hashLen) && AllFit(hashLen, rows) && 0 < |rows| < TWO_64
    ensures var c := Tailored(Block(hashLen, rows, true));
            && LawfulCodec(c) && |Encoded(c, hashLen, rows)| == 17
            && (Parse(c, hashLen, Encoded(c, hashLen, rows)) == None <==> |rows| > 17)
  {
    hide Block, Parse, AllFit, IsHashLen;
    var block := Block(hashLen, rows, true);
    TailoredIsLawful(block);
    StartsOfBlock(hashLen, rows, true);
    AtLeast66(hashLen, |rows|);
    ParseEncoded(Tailored(block), hashLen, rows);
  }

  lemma AtLeast66(hashLen: nat, n: nat)
    requires IsHashLen(hashLen) && n > 0
    ensures n * BlockWidth(hashLen, true) >= 66
  {
  }

  // What a file of the first version means: record after record, payloads raw.

  predicate IsV1(r: Row) {
    r.codec == CODEC_RAW && r.stored == r.raw && r.base == ZERO_HASH
  }

  function CellV1(hashLen: nat, r: Row): (b: Bytes)
    requires Fits(hashLen, r)
    ensures |b| == hashLen + 17
  {
    var c := CellsOf(hashLen, r);
    c.hash + c.typ + c.offset + c.stored
  }

  function EncodedV1(hashLen: nat, rows: seq<Row>): Bytes
    requires IsHashLen(hashLen) && AllFit(hashLen, rows)
  {
    Header(1, hashLen, 0, |rows|) + Flat(seq(|rows|, i requires 0 <= i < |rows| => CellV1(hashLen, rows[i])))
  }

  lemma RowOfCellV1(hashLen: nat, r: Row, body: Bytes, i: nat)
    requires Fits(hashLen, r) && IsV1(r) && Cell(body, hashLen + 17, i) == CellV1(hashLen, r)
    ensures RowV1(hashLen, body, i) == Some(r)
  {
    hide Cell;
    var c := CellsOf(hashLen, r);
    var rec := CellV1(hashLen, r);
    assert rec[..hashLen] == c.hash && rec[hashLen] == c.typ[0];
    assert rec[hashLen + 1..hashLen + 9] == c.offset && rec[hashLen + 9..] == c.stored;
    GetPutNat(r.hash, hashLen);
    GetPutInt64(r.offset);
    GetPutInt64(r.stored);
  }

  lemma {:induction false} RowsOfV1(hashLen: nat, rows: seq<Row>, n: nat)
    requires AllFit(hashLen, rows) && (forall i :: 0 <= i < |rows| ==> IsV1(rows[i])) && n <= |rows|
    ensures RowsV1(hashLen, Flat(seq(|rows|, i requires 0 <= i < |rows| => CellV1(hashLen, rows[i]))), n) == Some(rows[..n])
  {
    hide Flat, RowV1, CellV1, Fits;
    var cells := seq(|rows|, i requires 0 <= i < |rows| => CellV1(hashLen, rows[i]));
    if n > 0 {
      RowsOfV1(hashLen, rows, n - 1);
      FlatCell(cells, [], hashLen + 17, n - 1);
      assert Flat(cells) + [] == Flat(cells);
      RowOfCellV1(hashLen, rows[n - 1], Flat(cells), n - 1);
      assert rows[..n] == rows[..n - 1] + [rows[n - 1]];
    }
  }

  /** Every file of the first version reads back as the records it was written from. */
  lemma ParseEncodedV1(c: Codec, hashLen: nat, rows: seq<Row>)
    requires IsHashLen(hashLen) && AllFit(hashLen, rows) && |rows| < TWO_64 && forall i :: 0 <= i < |rows| ==> IsV1(rows[i])
    ensures Parse(c, hashLen, EncodedV1(hashLen, rows)) == Some(rows)
  {
    hide RowsV1, Flat, CellV1, Fits;
    var cells := seq(|rows|, i requires 0 <= i < |rows| => CellV1(hashLen, rows[i]));
    var raw := EncodedV1(hashLen, rows);
    assert raw[HEADER_LEN..] == Flat(cells);
    assert raw[8..HEADER_LEN] == PutNat(|rows|, 8);
    assert raw[..3] == [79, 71, 67];
    Pow256Of8();
    GetPutNat(|rows|, 8);
    FlatLength(cells, hashLen + 17);
    RowsOfV1(hashLen, rows, |rows|);
    assert rows[..|rows|] == rows;
    AtLeastV1(hashLen, |rows|);
  }

  lemma AtLeastV1(hashLen: nat, n: nat)
    requires IsHashLen(hashLen)
    ensures n * (hashLen + 17) >= n
  {
  }
}
