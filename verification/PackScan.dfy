/** The header of a pack entry, as gitformat-pack(5) gives it under "Size encoding" and "Deltified
    representation": a type and a size, then how a delta names its base. */
module PackScan {
  import opened Prelude
  import opened Delta
  import Search
  import Wire

  const OFS_DELTA: nat := 6
  const REF_DELTA: nat := 7
  const TWO_55: nat := 0x80_0000_0000_0000
  const TWO_60: nat := 0x1000_0000_0000_0000

  // Sizes.

  /** The rest of a size, of which `shift` bits were read before. A size that goes on past sixty bits
      is refused. */
  function ReadMore(d: Bytes, i: nat, shift: nat): Option<Read<nat>>
    decreases 64 - shift
  {
    if shift > 57 || i >= |d| then None
    else
      var part: nat := (d[i] as nat % 128) * Pow2(shift);
      if d[i] < 128 then Some(Read(part, i + 1)) else Added(part, ReadMore(d, i + 1, shift + 7))
  }

  /** The type and the size: four bits of the size are in the first byte. */
  function ReadTypeSize(d: Bytes, i: nat): Option<Read<(nat, nat)>> {
    if i >= |d| then None
    else
      var typ, low := d[i] as nat / 16 % 8, d[i] as nat % 16;
      if d[i] < 128 then Some(Read((typ, low), i + 1))
      else
        var more := ReadMore(d, i + 1, 4);
        if more.None? then None else Some(Read((typ, low + more.value.value), more.value.pos))
  }

  function WriteTypeSize(typ: nat, size: nat): Bytes
    requires typ < 8
  {
    if size < 16 then [(typ * 16 + size) as byte]
    else [(128 + typ * 16 + size % 16) as byte] + WriteSize(size / 16)
  }

  lemma {:induction false} ReadWrittenMore(d: Bytes, i: nat, n: nat, shift: nat)
    requires Has(d, i, WriteSize(n)) && n > 0 && 4 <= shift && shift % 7 == 4 && Scaled(n, shift) < TWO_60
    ensures ReadMore(d, i, shift) == Some(Read(Scaled(n, shift), i + |WriteSize(n)|))
    decreases n
  {
    hide Pow2, Has, Scaled;
    var w := WriteSize(n);
    HasHead(d, i, w);
    ShortShift(n, shift);
    assert d[i] as nat % 128 == n % 128;
    SizeDigits(n, shift);
    SmallPart(n, shift);
    if n >= 128 {
      assert w[1..] == WriteSize(n / 128);
      ReadWrittenMore(d, i + 1, n / 128, shift + 7);
    }
  }

  lemma SmallPart(n: nat, shift: nat)
    requires Scaled(n, shift) < TWO_60
    ensures (n % 128) * Pow2(shift) % Wire.TWO_64 == (n % 128) * Pow2(shift)
  {
    hide Pow2;
    var p := Pow2(shift);
    assert n == 128 * (n / 128) + n % 128;
    assert n * p == (128 * (n / 128)) * p + (n % 128) * p;
    assert (128 * (n / 128)) * p >= 0;
  }

  lemma ShortShift(n: nat, shift: nat)
    requires n > 0 && Scaled(n, shift) < TWO_60 && shift % 7 == 4
    ensures shift <= 57
  {
    hide Pow2;
    Pow2Of60();
    assert n * Pow2(shift) >= Pow2(shift);
    if shift >= 60 {
      Pow2Monotone(60, shift);
    }
  }

  lemma Pow2Of60()
    ensures Pow2(60) == TWO_60
  {
    Pow2Of64();
    assert Pow2(64) == 16 * Pow2(60);
  }

  /** A written type and size reads back, for every size below 2^60. */
  lemma ReadWrittenTypeSize(d: Bytes, i: nat, typ: nat, size: nat)
    requires typ < 8 && size < TWO_60 && Has(d, i, WriteTypeSize(typ, size))
    ensures ReadTypeSize(d, i) == Some(Read((typ, size), i + |WriteTypeSize(typ, size)|))
  {
    hide Has, ReadMore, Scaled, WriteSize, Pow2;
    var w := WriteTypeSize(typ, size);
    HasHead(d, i, w);
    FirstByte(typ, size % 16);
    if size >= 16 {
      assert w[1..] == WriteSize(size / 16);
      Scaled4(size / 16);
      ReadWrittenMore(d, i + 1, size / 16, 4);
    }
  }

  lemma FirstByte(typ: nat, low: nat)
    requires typ < 8 && low < 16
    ensures (typ * 16 + low) / 16 % 8 == (128 + typ * 16 + low) / 16 % 8 == typ
    ensures (typ * 16 + low) % 16 == (128 + typ * 16 + low) % 16 == low
  {
  }

  lemma Scaled4(n: nat)
    ensures Scaled(n, 4) == n * 16
  {
    assert Pow2(4) == 16;
  }

  // Distances.

  /** The rest of a distance whose leading digits make `acc`. One is added before each shift. */
  function ReadDistMore(d: Bytes, i: nat, acc: nat): Option<Read<nat>>
    decreases |d| - i
  {
    if acc > TWO_55 || i >= |d| then None
    else
      var acc' := (acc + 1) * 128 + d[i] as nat % 128;
      if d[i] < 128 then Some(Read(acc', i + 1)) else ReadDistMore(d, i + 1, acc')
  }

  function ReadDist(d: Bytes, i: nat): Option<Read<nat>> {
    if i >= |d| then None
    else if d[i] < 128 then Some(Read(d[i] as nat, i + 1))
    else ReadDistMore(d, i + 1, d[i] as nat % 128)
  }

  /** The digits of a distance but the last, each with the bit that says more follow. */
  function WriteDistHigh(n: nat): (b: Bytes)
    ensures |b| > 0
  {
    if n < 128 then [(128 + n) as byte] else WriteDistHigh(n / 128 - 1) + [(128 + n % 128) as byte]
  }

  function WriteDist(n: nat): Bytes {
    if n < 128 then [n as byte] else WriteDistHigh(n / 128 - 1) + [(n % 128) as byte]
  }

  /** The digits of `n` lead to what follows with `n` accumulated. */
  lemma {:induction false} ReadWrittenHigh(d: Bytes, i: nat, n: nat)
    requires Has(d, i, WriteDistHigh(n)) && n <= TWO_55
    ensures ReadDist(d, i) == ReadDistMore(d, i + |WriteDistHigh(n)|, n)
    decreases n
  {
    hide Has;
    if n < 128 {
      HasHead(d, i, WriteDistHigh(n));
    } else {
      var high, low := WriteDistHigh(n / 128 - 1), [(128 + n % 128) as byte];
      HasSplit(d, i, high, low);
      HasHead(d, i + |high|, low);
      ReadWrittenHigh(d, i, n / 128 - 1);
    }
  }

  lemma ReadWrittenDist(d: Bytes, i: nat, n: nat)
    requires Has(d, i, WriteDist(n)) && n < (TWO_55 + 2) * 128
    ensures ReadDist(d, i) == Some(Read(n, i + |WriteDist(n)|))
  {
    hide Has;
    if n < 128 {
      HasHead(d, i, WriteDist(n));
    } else {
      var high, low := WriteDistHigh(n / 128 - 1), [(n % 128) as byte];
      HasSplit(d, i, high, low);
      HasHead(d, i + |high|, low);
      ReadWrittenHigh(d, i, n / 128 - 1);
    }
  }

  /** Every distance has exactly one encoding: what was read is what would be written. */
  lemma {:induction false} DistIsUnique(d: Bytes, i: nat, k: nat, acc: nat)
    requires i < k <= |d| && d[i..k] == WriteDistHigh(acc) && ReadDistMore(d, k, acc).Some?
    ensures var r := ReadDistMore(d, k, acc).value;
            k < r.pos <= |d| && r.value < (TWO_55 + 2) * 128 && d[i..r.pos] == WriteDist(r.value)
    decreases |d| - k
  {
    var acc' := (acc + 1) * 128 + d[k] as nat % 128;
    assert d[i..k + 1] == d[i..k] + [d[k]];
    assert acc' / 128 - 1 == acc && acc' % 128 == d[k] as nat % 128;
    if d[k] >= 128 {
      assert d[i..k + 1] == WriteDistHigh(acc');
      DistIsUnique(d, i, k + 1, acc');
    }
  }

  lemma ReadDistIsWritten(d: Bytes, i: nat)
    requires ReadDist(d, i).Some?
    ensures var r := ReadDist(d, i).value;
            i < r.pos <= |d| && r.value < (TWO_55 + 2) * 128 && d[i..r.pos] == WriteDist(r.value)
  {
    assert d[i..i + 1] == [d[i]];
    if d[i] >= 128 {
      DistIsUnique(d, i, i + 1, d[i] as nat % 128);
    }
  }

  // The whole header.

  /** How an entry names its base: not at all, by an earlier entry, or by a hash. */
  datatype Base = NoBase | Earlier(index: nat) | ByHash(hash: Hash)

  datatype Head = Head(typ: nat, size: nat, base: Base, content: nat)

  /** Entries are found in the order of their offsets. */
  ghost predicate Rising(offsets: seq<nat>, end: nat) {
    && (forall i, j :: 0 <= i < j < |offsets| ==> offsets[i] < offsets[j])
    && (forall i :: 0 <= i < |offsets| ==> offsets[i] < end)
  }

  /** The entry that starts at `at`, by binary search. */
  function EntryAt(offsets: seq<nat>, at: nat): Option<nat> {
    var j := Search.LowerBound(offsets, at);
    if j == |offsets| || offsets[j] != at then None else Some(j)
  }

  lemma EntryAtIs(offsets: seq<nat>, at: nat, end: nat)
    requires Rising(offsets, end)
    ensures EntryAt(offsets, at).Some? <==> at in offsets
    ensures EntryAt(offsets, at).Some? ==> EntryAt(offsets, at).value < |offsets| && offsets[EntryAt(offsets, at).value] == at
  {
    Search.LowerBoundSplits(offsets, at);
  }

  /** The header at `i`, when the entries before it start at `offsets`. A delta's distance must lead
      to one of them. */
  function HeadAt(d: Bytes, i: nat, offsets: seq<nat>, hashLen: nat): Option<Head> {
    var ts := ReadTypeSize(d, i);
    if ts.None? then None
    else
      var (typ, size) := ts.value.value;
      var pos := ts.value.pos;
      if 1 <= typ <= 4 then Some(Head(typ, size, NoBase, pos))
      else if typ == OFS_DELTA then
        var dist := ReadDist(d, pos);
        if dist.None? || dist.value.value == 0 || dist.value.value > i then None
        else
          var j := EntryAt(offsets, i - dist.value.value);
          if j.None? then None else Some(Head(typ, size, Earlier(j.value), dist.value.pos))
      else if typ == REF_DELTA && pos + hashLen <= |d| then
        Some(Head(typ, size, ByHash(Wire.GetNat(d[pos..pos + hashLen])), pos + hashLen))
      else None
  }

  /** The header that a client writes for an entry that starts at `i`. */
  function WriteHead(h: Head, i: nat, offsets: seq<nat>, hashLen: nat): Bytes
    requires h.typ < 8 && (h.base.Earlier? ==> h.base.index < |offsets| && offsets[h.base.index] < i)
  {
    WriteTypeSize(h.typ, h.size)
    + match h.base
      case NoBase => []
      case Earlier(j) => WriteDist(i - offsets[j])
      case ByHash(hash) => Wire.PutNat(hash, hashLen)
  }

  /** The type says how the base is named. */
  predicate GoodHead(h: Head, offsets: seq<nat>, hashLen: nat) {
    && h.size < TWO_60
    && match h.base
       case NoBase => 1 <= h.typ <= 4
       case Earlier(j) => h.typ == 6 && j < |offsets|
       case ByHash(hash) => h.typ == 7 && hash < Wire.Pow256(hashLen)
  }

  /** Every header reads back: its type, its size, and the very entry it is built on. */
  lemma ReadWrittenHead(d: Bytes, i: nat, offsets: seq<nat>, hashLen: nat, h: Head)
    requires Rising(offsets, i) && GoodHead(h, offsets, hashLen) && i < (TWO_55 + 2) * 128
    requires Has(d, i, WriteHead(h, i, offsets, hashLen)) && h.content == i + |WriteHead(h, i, offsets, hashLen)|
    ensures HeadAt(d, i, offsets, hashLen) == Some(h)
  {
    hide Has, ReadTypeSize, WriteTypeSize, ReadDist, WriteDist, EntryAt;
    var first := WriteTypeSize(h.typ, h.size);
    match h.base
    case NoBase =>
      HasSplit(d, i, first, []);
      ReadWrittenTypeSize(d, i, h.typ, h.size);
    case Earlier(j) =>
      var rest := WriteDist(i - offsets[j]);
      HasSplit(d, i, first, rest);
      ReadWrittenTypeSize(d, i, h.typ, h.size);
      ReadWrittenDist(d, i + |first|, i - offsets[j]);
      EntryAtIs(offsets, offsets[j], i);
    case ByHash(hash) =>
      var rest := Wire.PutNat(hash, hashLen);
      HasSplit(d, i, first, rest);
      ReadWrittenTypeSize(d, i, h.typ, h.size);
      HasHere(d, i + |first|, rest);
      Wire.GetPutNat(hash, hashLen);
  }

  lemma HasHere(d: Bytes, i: nat, w: Bytes)
    requires Has(d, i, w)
    ensures i + |w| <= |d| && d[i..i + |w|] == w
  {
  }

  /** The three bits of the type decide how the base is named, and the types 0 and 5 are refused. */
  lemma TypeNamesBase(d: Bytes, i: nat, offsets: seq<nat>, hashLen: nat)
    requires i < |d| && HeadAt(d, i, offsets, hashLen).Some?
    ensures var h := HeadAt(d, i, offsets, hashLen).value;
            && h.typ == d[i] as nat / 16 % 8 && h.typ in {1, 2, 3, 4, 6, 7}
            && (h.base.NoBase? <==> h.typ < 5) && (h.base.Earlier? <==> h.typ == 6) && (h.base.ByHash? <==> h.typ == 7)
  {
    hide ReadMore, ReadDist, EntryAt;
  }

  /** A header that is accepted names, as its base, an entry that was scanned before it. */
  lemma BaseWasScanned(d: Bytes, i: nat, offsets: seq<nat>, hashLen: nat)
    requires Rising(offsets, i) && HeadAt(d, i, offsets, hashLen).Some? && HeadAt(d, i, offsets, hashLen).value.base.Earlier?
    ensures var h := HeadAt(d, i, offsets, hashLen).value;
            h.base.index < |offsets| && ReadTypeSize(d, i).Some?
            && ReadDist(d, ReadTypeSize(d, i).value.pos) == Some(Read(i - offsets[h.base.index], h.content))
  {
    hide ReadTypeSize, ReadDist, EntryAt;
    var dist := ReadDist(d, ReadTypeSize(d, i).value.pos).value.value;
    EntryAtIs(offsets, i - dist, i);
  }

  // The scanner, as loops over the pack's bytes.

  method ScanTypeSize(d: Bytes, i: nat) returns (r: Option<Read<(nat, nat)>>)
    ensures r == ReadTypeSize(d, i)
  {
    hide Pow2, ReadMore, Added;
    if i >= |d| {
      return None;
    }
    var c := d[i];
    var typ, low := c as nat / 16 % 8, c as nat % 16;
    if c < 128 {
      return Some(Read((typ, low), i + 1));
    }
    var size: nat, shift: nat, pos: nat := 0, 4, i + 1;
    AddedNothing(ReadMore(d, pos, shift));
    while true
      invariant ReadMore(d, i + 1, 4) == Added(size, ReadMore(d, pos, shift))
      decreases 64 - shift
    {
      MoreStep(d, pos, shift);
      AddedMissing(size);
      if shift > 57 || pos >= |d| {
        return None;
      }
      var part: nat := (d[pos] as nat % 128) * Pow2(shift);
      AddedMore(size, part, ReadMore(d, pos + 1, shift + 7));
      AddedLast(size, part, pos + 1);
      if d[pos] < 128 {
        return Some(Read((typ, low + (size + part)), pos + 1));
      }
      size, pos, shift := size + part, pos + 1, shift + 7;
    }
  }

  lemma MoreStep(d: Bytes, i: nat, shift: nat)
    ensures shift > 57 || i >= |d| ==> ReadMore(d, i, shift) == None
    ensures shift <= 57 && i < |d| ==>
              var part: nat := (d[i] as nat % 128) * Pow2(shift);
              ReadMore(d, i, shift) == if d[i] < 128 then Some(Read(part, i + 1)) else Added(part, ReadMore(d, i + 1, shift + 7))
  {
    hide Pow2;
  }

  method ScanDist(d: Bytes, i: nat) returns (r: Option<Read<nat>>)
    ensures r == ReadDist(d, i)
  {
    if i >= |d| {
      return None;
    }
    var dist: nat, pos: nat := d[i] as nat % 128, i + 1;
    while d[pos - 1] >= 128
      invariant i < pos <= |d|
      invariant ReadDist(d, i) == if d[pos - 1] >= 128 then ReadDistMore(d, pos, dist) else Some(Read(dist, pos))
      decreases |d| - pos
    {
      if dist > TWO_55 || pos >= |d| {
        return None;
      }
      dist := (dist + 1) * 128 + d[pos] as nat % 128;
      pos := pos + 1;
    }
    r := Some(Read(dist, pos));
  }

  method ScanEntryHeader(d: Bytes, i: nat, offsets: seq<nat>, hashLen: nat) returns (r: Option<Head>)
    ensures r == HeadAt(d, i, offsets, hashLen)
  {
    hide ReadTypeSize, ReadDist, EntryAt;
    var ts := ScanTypeSize(d, i);
    if ts.None? {
      return None;
    }
    var (typ, size) := ts.value.value;
    var pos := ts.value.pos;
    if 1 <= typ <= 4 {
      return Some(Head(typ, size, NoBase, pos));
    }
    if typ == OFS_DELTA {
      var dist := ScanDist(d, pos);
      if dist.None? || dist.value.value == 0 || dist.value.value > i {
        return None;
      }
      var j := EntryAt(offsets, i - dist.value.value);
      return if j.None? then None else Some(Head(typ, size, Earlier(j.value), dist.value.pos));
    }
    if typ == REF_DELTA && pos + hashLen <= |d| {
      return Some(Head(typ, size, ByHash(Wire.GetNat(d[pos..pos + hashLen])), pos + hashLen));
    }
    r := None;
  }
}
