/** Which files the index file parser accepts: exactly those that hold some records, and it returns
    those records. */
module CueFiles {
  import opened Prelude
  import opened Wire
  import opened PackWriter
  import opened Cue

  // Numbers: what bytes spell is written as those bytes.

  lemma {:induction false} PutGetNat(b: Bytes)
    ensures PutNat(GetNat(b), |b|) == b && GetNat(b) < Pow256(|b|)
    decreases |b|
  {
    if b != [] {
      var n := |b| - 1;
      PutGetNat(b[..n]);
      LastDigit(GetNat(b[..n]), b[n] as nat, Pow256(n));
      assert b == b[..n] + [b[n]];
    }
  }

  lemma LastDigit(high: nat, low: nat, p: nat)
    requires low < 256 && high < p
    ensures (256 * high + low) / 256 == high && (256 * high + low) % 256 == low && 256 * high + low < 256 * p
  {
  }

  lemma PutGetInt64(b: Bytes)
    requires |b| == 8
    ensures IsInt64(Signed(GetNat(b))) && PutInt64(Signed(GetNat(b))) == b
  {
    hide PutNat, GetNat;
    PutGetNat(b);
    Pow256Of8();
  }

  lemma PutGetInt8(b: byte)
    ensures -128 <= GetInt8(b) < 128 && PutInt8(GetInt8(b)) == b
  {
  }

  // Records: the cells of an accepted record are those it is written as.

  ghost predicate Wide(hashLen: nat, c: Cells, withBase: bool) {
    && |c.hash| == hashLen && |c.typ| == |c.codec| == 1 && |c.offset| == |c.stored| == |c.raw| == 8
    && |c.base| == if withBase then hashLen else 0
  }

  lemma CellsOfRow(hashLen: nat, c: Cells, withBase: bool)
    requires Wide(hashLen, c, withBase) && RowOf(c).Some?
    ensures var r := RowOf(c).value;
            && Fits(hashLen, r) && (!withBase ==> r.base == ZERO_HASH)
            && CellsOf(hashLen, r).(base := c.base) == c && (withBase ==> CellsOf(hashLen, r).base == c.base)
  {
    hide PutInt64, PutInt8, GetInt8, Signed, IsInt64;
    PutGetNat(c.hash);
    PutGetNat(c.base);
    PutGetInt8(c.typ[0]);
    PutGetInt64(c.offset);
    PutGetInt64(c.stored);
    PutGetInt64(c.raw);
    BaseAtMost(hashLen, c.base);
    hide PutNat, GetNat;
    assert c.typ == [c.typ[0]] && c.codec == [c.codec[0]];
  }

  lemma BaseAtMost(hashLen: nat, b: Bytes)
    requires |b| == hashLen || b == []
    ensures GetNat(b) < Pow256(hashLen) && (b == [] ==> GetNat(b) == 0)
  {
    PutGetNat(b);
  }

  // Columns: the block is cut without a rest.

  /** `b` is what is left of `a` behind its first `k` bytes. */
  ghost predicate CutAt(a: Bytes, k: nat, b: Bytes) {
    k <= |a| && b == a[k..]
  }

  lemma CutsOf(hashLen: nat, block: Bytes, count: nat, withBase: bool)
    requires |block| == count * BlockWidth(hashLen, withBase)
    ensures var s := StartsOf(hashLen, block, count);
            && CutAt(block, Size(hashLen, count, HashF), s.types) && CutAt(s.types, Size(hashLen, count, TypF), s.codecs)
            && CutAt(s.codecs, Size(hashLen, count, CodecF), s.offsets) && CutAt(s.offsets, Size(hashLen, count, OffsetF), s.storeds)
            && CutAt(s.storeds, Size(hashLen, count, StoredF), s.raws)
            && if withBase then CutAt(s.raws, Size(hashLen, count, RawF), s.bases) && |s.bases| == Size(hashLen, count, BaseF)
               else |s.raws| == Size(hashLen, count, RawF)
  {
    hide Drop;
    Widths(hashLen, count);
    var s := StartsOf(hashLen, block, count);
    Dropped(block, count * hashLen);
    Dropped(s.types, count);
    Dropped(s.codecs, count);
    Dropped(s.offsets, count * 8);
    Dropped(s.storeds, count * 8);
    Dropped(s.raws, count * 8);
  }

  lemma Widths(hashLen: nat, count: nat)
    ensures count * (hashLen * 2 + 26) == count * hashLen + count * hashLen + count * 26
    ensures count * (hashLen + 26) == count * hashLen + count * 26
  {
  }

  lemma Dropped(a: Bytes, k: nat)
    ensures k <= |a| ==> CutAt(a, k, Drop(a, k)) && |Drop(a, k)| == |a| - k
  {
  }

  lemma CellIsWide(b: Bytes, w: nat, n: nat, i: nat)
    requires n * w <= |b| && i < n
    ensures |Cell(b, w, i)| == w
  {
    assert (i + 1) * w <= n * w;
    assert (i + 1) * w == i * w + w;
  }

  lemma CellsAreWide(hashLen: nat, block: Bytes, count: nat, i: nat, withBase: bool)
    requires |block| == count * BlockWidth(hashLen, withBase) && i < count
    ensures Wide(hashLen, CellsAt(hashLen, StartsOf(hashLen, block, count), i, withBase), withBase)
  {
    hide Cell, StartsOf, BlockWidth;
    CutsOf(hashLen, block, count, withBase);
    var s := StartsOf(hashLen, block, count);
    StartsAtBlock(hashLen, block, count);
    CellIsWide(s.hashes, hashLen, count, i);
    CellIsWide(s.types, 1, count, i);
    CellIsWide(s.codecs, 1, count, i);
    CellIsWide(s.offsets, 8, count, i);
    CellIsWide(s.storeds, 8, count, i);
    CellIsWide(s.raws, 8, count, i);
    if withBase {
      CellIsWide(s.bases, hashLen, count, i);
    }
  }

  lemma StartsAtBlock(hashLen: nat, block: Bytes, count: nat)
    ensures StartsOf(hashLen, block, count).hashes == block
  {
  }

  lemma {:induction false} RowsGive(hashLen: nat, s: Starts, n: nat, withBase: bool, i: nat)
    requires Rows(hashLen, s, n, withBase).Some? && i < n
    ensures |Rows(hashLen, s, n, withBase).value| == n
    ensures RowOf(CellsAt(hashLen, s, i, withBase)) == Some(Rows(hashLen, s, n, withBase).value[i])
  {
    hide CellsAt, RowOf;
    RowsCount(hashLen, s, n - 1, withBase);
    if i < n - 1 {
      RowsGive(hashLen, s, n - 1, withBase, i);
    }
  }

  lemma {:induction false} RowsCount(hashLen: nat, s: Starts, n: nat, withBase: bool)
    ensures Rows(hashLen, s, n, withBase).Some? ==> |Rows(hashLen, s, n, withBase).value| == n
  {
    hide CellsAt, RowOf;
    if n > 0 {
      RowsCount(hashLen, s, n - 1, withBase);
    }
  }

  lemma {:induction false} FlatOfCells(cells: seq<Bytes>, b: Bytes, w: nat)
    requires |cells| * w <= |b| && forall i :: 0 <= i < |cells| ==> cells[i] == Cell(b, w, i)
    ensures Flat(cells) == b[..|cells| * w]
    decreases |cells|
  {
    if cells != [] {
      var n := |cells| - 1;
      OneMore(n, w);
      FlatOfCells(cells[..n], b, w);
      Joined(b, n * w, w);
    }
  }

  lemma OneMore(n: nat, w: nat)
    ensures (n + 1) * w == n * w + w
  {
  }

  lemma Joined(b: Bytes, k: nat, w: nat)
    requires k + w <= |b|
    ensures b[..k + w] == b[..k] + b[k..k + w]
  {
  }

  /** A column of the records is what stands at its start. */
  lemma ColumnStands(hashLen: nat, rows: seq<Row>, f: Field, start: Bytes)
    requires AllFit(hashLen, rows) && Size(hashLen, |rows|, f) <= |start|
    requires forall i :: 0 <= i < |rows| ==> Pick(CellsOf(hashLen, rows[i]), f) == Cell(start, Width(hashLen, f), i)
    ensures Column(hashLen, rows, f) == start[..Size(hashLen, |rows|, f)]
  {
    hide CellsOf, Pick, Cell, Fits;
    FlatOfCells(seq(|rows|, i requires 0 <= i < |rows| => Pick(CellsOf(hashLen, rows[i]), f)), start, Width(hashLen, f));
  }

  /** Record `i` is written as the cells at its place. */
  ghost predicate Spells(hashLen: nat, s: Starts, i: nat, withBase: bool, r: Row) {
    && Fits(hashLen, r) && (!withBase ==> r.base == ZERO_HASH)
    && var c := CellsOf(hashLen, r);
       c.(base := if withBase then c.base else []) == CellsAt(hashLen, s, i, withBase)
  }

  lemma RowsSpell(hashLen: nat, block: Bytes, count: nat, withBase: bool, i: nat)
    requires |block| == count * BlockWidth(hashLen, withBase) && i < count
    requires Rows(hashLen, StartsOf(hashLen, block, count), count, withBase).Some?
    ensures |Rows(hashLen, StartsOf(hashLen, block, count), count, withBase).value| == count
    ensures Spells(hashLen, StartsOf(hashLen, block, count), i, withBase, Rows(hashLen, StartsOf(hashLen, block, count), count, withBase).value[i])
  {
    hide StartsOf, CellsAt, BlockWidth, RowOf, CellsOf, Fits, Rows;
    var s := StartsOf(hashLen, block, count);
    CellsAreWide(hashLen, block, count, i, withBase);
    RowsGive(hashLen, s, count, withBase, i);
    CellsOfRow(hashLen, CellsAt(hashLen, s, i, withBase), withBase);
  }

  /** The columns put together again are the block. */
  lemma BlockIsWritten(hashLen: nat, block: Bytes, rows: seq<Row>, withBase: bool)
    requires |block| == |rows| * BlockWidth(hashLen, withBase) && AllFit(hashLen, rows)
    requires forall i :: 0 <= i < |rows| ==> Spells(hashLen, StartsOf(hashLen, block, |rows|), i, withBase, rows[i])
    ensures Block(hashLen, rows, withBase) == block
  {
    hide StartsOf, Column, Cell, CellsOf, BlockWidth, AllFit;
    var s := StartsOf(hashLen, block, |rows|);
    CutsOf(hashLen, block, |rows|, withBase);
    StartsAtBlock(hashLen, block, |rows|);
    SpelledColumns(hashLen, s, rows, withBase);
    hide Size, StandsAt, CutAt, Spells, From;
    assert Behind(hashLen, rows, BaseF, withBase) == [];
    if withBase {
      LastColumn(hashLen, rows, BaseF, s.bases, withBase);
      ColumnBefore(hashLen, rows, RawF, s.raws, s.bases, withBase);
    } else {
      LastColumn(hashLen, rows, RawF, s.raws, withBase);
    }
    ColumnBefore(hashLen, rows, StoredF, s.storeds, s.raws, withBase);
    ColumnBefore(hashLen, rows, OffsetF, s.offsets, s.storeds, withBase);
    ColumnBefore(hashLen, rows, CodecF, s.codecs, s.offsets, withBase);
    ColumnBefore(hashLen, rows, TypF, s.types, s.codecs, withBase);
    ColumnBefore(hashLen, rows, HashF, s.hashes, s.types, withBase);
  }

  lemma ColumnBefore(hashLen: nat, rows: seq<Row>, f: Field, start: Bytes, next: Bytes, withBase: bool)
    requires AllFit(hashLen, rows) && StandsAt(hashLen, rows, f, start) && CutAt(start, Size(hashLen, |rows|, f), next)
    requires Behind(hashLen, rows, f, withBase) == next
    ensures From(hashLen, rows, f, withBase) == start
  {
    hide Column, CellsOf, Cell, Fits, Behind;
    ColumnStands(hashLen, rows, f, start);
  }

  lemma LastColumn(hashLen: nat, rows: seq<Row>, f: Field, start: Bytes, withBase: bool)
    requires AllFit(hashLen, rows) && StandsAt(hashLen, rows, f, start) && |start| == Size(hashLen, |rows|, f)
    requires Behind(hashLen, rows, f, withBase) == []
    ensures From(hashLen, rows, f, withBase) == start
  {
    hide Column, CellsOf, Cell, Fits, Behind;
    ColumnStands(hashLen, rows, f, start);
  }

  /** Field `f` of every record stands in its column. */
  ghost predicate StandsAt(hashLen: nat, rows: seq<Row>, f: Field, start: Bytes)
    requires AllFit(hashLen, rows)
  {
    forall i :: 0 <= i < |rows| ==> Pick(CellsOf(hashLen, rows[i]), f) == Cell(start, Width(hashLen, f), i)
  }

  lemma SpelledColumns(hashLen: nat, s: Starts, rows: seq<Row>, withBase: bool)
    requires AllFit(hashLen, rows) && forall i :: 0 <= i < |rows| ==> Spells(hashLen, s, i, withBase, rows[i])
    ensures StandsAt(hashLen, rows, HashF, s.hashes) && StandsAt(hashLen, rows, TypF, s.types) && StandsAt(hashLen, rows, CodecF, s.codecs)
    ensures StandsAt(hashLen, rows, OffsetF, s.offsets) && StandsAt(hashLen, rows, StoredF, s.storeds) && StandsAt(hashLen, rows, RawF, s.raws)
    ensures withBase ==> StandsAt(hashLen, rows, BaseF, s.bases)
  {
    hide Cell, CellsOf, Fits;
    forall i | 0 <= i < |rows|
      ensures var c := CellsOf(hashLen, rows[i]); c.(base := if withBase then c.base else []) == CellsAt(hashLen, s, i, withBase)
    {
      assert Spells(hashLen, s, i, withBase, rows[i]);
    }
  }

  // The first version: record after record.

  lemma RecordV1(hashLen: nat, body: Bytes, count: nat, i: nat)
    requires |body| == count * (hashLen + 17) && i < count
    ensures RowV1(hashLen, body, i).Some?
    ensures var r := RowV1(hashLen, body, i).value;
            Fits(hashLen, r) && IsV1(r) && CellV1(hashLen, r) == Cell(body, hashLen + 17, i)
  {
    hide Cell, PutInt64, PutInt8, GetInt8, Signed, IsInt64, PutNat, GetNat, Pow256;
    CellIsWide(body, hashLen + 17, count, i);
    var rec := Cell(body, hashLen + 17, i);
    PutGetNat(rec[..hashLen]);
    PutGetInt8(rec[hashLen]);
    PutGetInt64(rec[hashLen + 1..hashLen + 9]);
    PutGetInt64(rec[hashLen + 9..]);
    BaseAtMost(hashLen, []);
    assert rec == rec[..hashLen] + [rec[hashLen]] + rec[hashLen + 1..hashLen + 9] + rec[hashLen + 9..];
  }

  lemma {:induction false} RowsGiveV1(hashLen: nat, body: Bytes, n: nat)
    requires RowsV1(hashLen, body, n).Some?
    ensures var rows := RowsV1(hashLen, body, n).value;
            |rows| == n && forall i :: 0 <= i < n ==> RowV1(hashLen, body, i) == Some(rows[i])
  {
    hide RowV1;
    if n > 0 {
      RowsGiveV1(hashLen, body, n - 1);
    }
  }

  lemma BodyIsWrittenV1(hashLen: nat, body: Bytes, count: nat)
    requires |body| == count * (hashLen + 17) && RowsV1(hashLen, body, count).Some?
    ensures var rows := RowsV1(hashLen, body, count).value;
            && |rows| == count && AllFit(hashLen, rows) && AllV1(rows)
            && body == Flat(seq(|rows|, i requires 0 <= i < |rows| => CellV1(hashLen, rows[i])))
  {
    hide RowV1, CellV1, Cell, Fits, IsV1;
    RowsGiveV1(hashLen, body, count);
    var rows := RowsV1(hashLen, body, count).value;
    forall i | 0 <= i < count ensures Fits(hashLen, rows[i]) && IsV1(rows[i]) && CellV1(hashLen, rows[i]) == Cell(body, hashLen + 17, i) {
      RecordV1(hashLen, body, count, i);
    }
    FlatOfCells(seq(|rows|, i requires 0 <= i < |rows| => CellV1(hashLen, rows[i])), body, hashLen + 17);
  }

  predicate AllV1(rows: seq<Row>) {
    forall i :: 0 <= i < |rows| ==> IsV1(rows[i])
  }

  // Whole files.

  /** The header of a file of so many records: magic, version, hash width, codec of the record block,
      two zero bytes, and the count. */
  ghost predicate IsHeader(hashLen: nat, raw: Bytes, count: nat) {
    && |raw| >= 16 && raw[..3] == [79, 71, 67] && raw[4] as nat == hashLen && raw[6] == raw[7] == 0
    && raw[8..16] == PutNat(count, 8) && count < TWO_64
  }

  /** A file of the records, in one of the three versions. */
  ghost predicate IsFileOf(c: Codec, hashLen: nat, rows: seq<Row>, raw: Bytes) {
    && IsHeader(hashLen, raw, |rows|) && AllFit(hashLen, rows)
    && match raw[3] {
         case 1 =>
           && raw[5] == 0 && AllV1(rows)
           && raw[16..] == Flat(seq(|rows|, i requires 0 <= i < |rows| => CellV1(hashLen, rows[i])))
         case 2 => NoBases(rows) && BlockOf(c, raw) == Some(Block(hashLen, rows, false))
         case 3 => BlockOf(c, raw) == Some(Block(hashLen, rows, true))
         case _ => false
       }
  }

  /** A file is accepted, and these records are returned, if and only if it is a file of these records
      and no shorter in bytes than they are many. */
  lemma ParsesIff(c: Codec, hashLen: nat, rows: seq<Row>, raw: Bytes)
    ensures Parse(c, hashLen, raw) == Some(rows) <==> IsFileOf(c, hashLen, rows, raw) && |rows| <= |raw|
  {
    hide Parse, IsFileOf;
    if Parse(c, hashLen, raw) == Some(rows) {
      ParsedIsFile(c, hashLen, rows, raw);
    }
    if IsFileOf(c, hashLen, rows, raw) && |rows| <= |raw| {
      FileParses(c, hashLen, rows, raw);
    }
  }

  lemma ParsedIsFile(c: Codec, hashLen: nat, rows: seq<Row>, raw: Bytes)
    requires Parse(c, hashLen, raw) == Some(rows)
    ensures IsFileOf(c, hashLen, rows, raw) && |rows| <= |raw|
  {
    hide BlockOf, Rows, RowsV1, StartsOf, Block, CellV1, PutNat, GetNat, Fits, NoBases, AllV1;
    var count := GetNat(raw[8..16]);
    PutGetNat(raw[8..16]);
    Pow256Of8();
    if raw[3] == 1 {
      BodyIsWrittenV1(hashLen, raw[16..], count);
    } else {
      BlockParsed(c, hashLen, raw, count, raw[3] == 3);
    }
  }

  lemma BlockParsed(c: Codec, hashLen: nat, raw: Bytes, count: nat, withBase: bool)
    requires |raw| >= HEADER_LEN && ParseColumnar(c, hashLen, raw, count, withBase).Some?
    ensures var rows := ParseColumnar(c, hashLen, raw, count, withBase).value;
            && |rows| == count && AllFit(hashLen, rows) && (withBase || NoBases(rows))
            && BlockOf(c, raw) == Some(Block(hashLen, rows, withBase))
  {
    hide BlockOf, Rows, StartsOf, Block, Fits, CellsOf, CellsAt;
    var rows, block := ParseColumnar(c, hashLen, raw, count, withBase).value, BlockOf(c, raw).value;
    RowsCount(hashLen, StartsOf(hashLen, block, count), count, withBase);
    forall i | 0 <= i < count ensures Spells(hashLen, StartsOf(hashLen, block, count), i, withBase, rows[i]) {
      RowsSpell(hashLen, block, count, withBase, i);
    }
    forall i | 0 <= i < count ensures Fits(hashLen, rows[i]) && (!withBase ==> rows[i].base == ZERO_HASH) {
      assert Spells(hashLen, StartsOf(hashLen, block, count), i, withBase, rows[i]);
    }
    BlockIsWritten(hashLen, block, rows, withBase);
  }

  lemma FileParses(c: Codec, hashLen: nat, rows: seq<Row>, raw: Bytes)
    requires IsFileOf(c, hashLen, rows, raw) && |rows| <= |raw|
    ensures Parse(c, hashLen, raw) == Some(rows)
  {
    hide BlockOf, Rows, RowsV1, StartsOf, Block, CellV1, PutNat, GetNat, Fits, IsV1, Flat;
    Pow256Of8();
    GetPutNat(|rows|, 8);
    assert rows[..|rows|] == rows;
    if raw[3] == 1 {
      FlatLength(seq(|rows|, i requires 0 <= i < |rows| => CellV1(hashLen, rows[i])), hashLen + 17);
      RowsOfV1(hashLen, rows, |rows|);
    } else {
      var withBase := raw[3] == 3;
      StartsOfBlock(hashLen, rows, withBase);
      RowsOfBlock(hashLen, rows, |rows|, withBase);
    }
  }
}
