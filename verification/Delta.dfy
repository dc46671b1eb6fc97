/** Git's delta format, as gitformat-pack(5) gives it under "Deltified representation": two sizes,
    then commands that copy a range of the base or insert literal bytes. */
module Delta {
  import opened Prelude
  import opened Wire

  const TWO_62: nat := 0x4000_0000_0000_0000

  function Pow2(k: nat): nat {
    if k == 0 then 1 else 2 * Pow2(k - 1)
  }

  /** A value read and the place after it. */
  datatype Read<+T> = Read(value: T, pos: nat)

  /** A little-endian base-128 size from place `i`, of which `shift` bits were read before. Bits past
      the sixty-fourth are lost, and a size that goes on past them is refused. */
  function ReadSize(d: Bytes, i: nat, shift: nat): Option<Read<nat>>
    decreases 64 - shift
  {
    if shift > 63 || i >= |d| then None
    else
      var part := (d[i] as nat % 128) * Pow2(shift) % TWO_64;
      if d[i] < 128 then Some(Read(part, i + 1))
      else
        var rest := ReadSize(d, i + 1, shift + 7);
        if rest.None? then None else Some(Read(part + rest.value.value, rest.value.pos))
  }

  /** Bit `k` of a command byte. */
  predicate Bit(c: byte, k: nat)
    requires k < 8
  {
    c as nat / Weight(k) % 2 == 1
  }

  function Weight(k: nat): nat
    requires k < 8
    ensures Weight(k) > 0
  {
    [1, 2, 4, 8, 16, 32, 64, 128][k]
  }

  /** The little-endian number whose bytes follow for the set bits `k`, `k + 1`, ... of the command. */
  function ReadField(d: Bytes, i: nat, c: byte, k: nat, n: nat, unit: nat): Option<Read<nat>>
    requires k + n <= 8
    decreases n
  {
    if n == 0 then Some(Read(0, i))
    else if !Bit(c, k) then ReadField(d, i, c, k + 1, n - 1, unit * 256)
    else if i >= |d| then None
    else
      var rest := ReadField(d, i + 1, c, k + 1, n - 1, unit * 256);
      if rest.None? then None else Some(Read(d[i] as nat * unit + rest.value.value, rest.value.pos))
  }

  datatype Cmd = Copy(off: nat, size: nat) | Insert(lit: Bytes)

  /** One command from place `i`. */
  function ReadCmd(d: Bytes, i: nat): Option<Read<Cmd>> {
    if i >= |d| then None
    else
      var c := d[i];
      if c >= 128 then
        var off := ReadField(d, i + 1, c, 0, 4, 1);
        if off.None? then None
        else
          var sz := ReadField(d, off.value.pos, c, 4, 3, 1);
          if sz.None? then None
          else Some(Read(Copy(off.value.value, if sz.value.value == 0 then 0x10000 else sz.value.value), sz.value.pos))
      else if c == 0 || i + 1 + c as nat > |d| then None
      else Some(Read(Insert(d[i + 1..i + 1 + c as nat]), i + 1 + c as nat))
  }

  /** The bytes a command adds. */
  function Chunk(base: Bytes, c: Cmd): Option<Bytes> {
    match c
    case Copy(off, size) => if off + size <= |base| then Some(base[off..off + size]) else None
    case Insert(lit) => Some(lit)
  }

  function ApplyFrom(base: Bytes, d: Bytes, i: nat, remaining: nat): (r: Option<Bytes>)
    ensures r.Some? ==> |r.value| == remaining
    decreases remaining
  {
    if remaining == 0 then (if i == |d| then Some([]) else None)
    else
      var c := ReadCmd(d, i);
      if c.None? then None
      else
        var chunk := Chunk(base, c.value.value);
        if chunk.None? || chunk.value == [] || |chunk.value| > remaining then None
        else
          var rest := ApplyFrom(base, d, c.value.pos, remaining - |chunk.value|);
          if rest.None? then None else Some(chunk.value + rest.value)
  }

  /** The object a delta rebuilds from its base, if it is a delta against a base of that size. */
  function Apply(base: Bytes, d: Bytes): Option<Bytes> {
    var src := ReadSize(d, 0, 0);
    if src.None? || src.value.value != |base| || src.value.value >= TWO_63 then None
    else
      var tgt := ReadSize(d, src.value.pos, 0);
      if tgt.None? || tgt.value.value > TWO_62 then None
      else ApplyFrom(base, d, tgt.value.pos, tgt.value.value)
  }

  // The format's own meaning: a list of commands, written down and carried out.

  /** A command as it is written. A copy gives any of the four bytes of the offset and of the three
      bytes of the size; a byte left out is zero. */
  datatype Written = CopyOf(off: seq<Option<byte>>, size: seq<Option<byte>>) | Literal(lit: Bytes)

  predicate Legal(w: Written) {
    match w
    case CopyOf(off, size) => |off| == 4 && |size| == 3
    case Literal(lit) => 0 < |lit| < 128
  }

  /** The little-endian number of these bytes. */
  function Number(ds: seq<Option<byte>>): nat {
    if ds == [] then 0 else Digit(ds[0]) + 256 * Number(ds[1..])
  }

  function Digit(d: Option<byte>): nat {
    if d.Some? then d.value as nat else 0
  }

  /** The command that is meant. A copy of no bytes stands for one of 64 KiB. */
  function Meant(w: Written): Cmd {
    match w
    case CopyOf(off, size) => Copy(Number(off), if Number(size) == 0 then 0x10000 else Number(size))
    case Literal(lit) => Insert(lit)
  }

  /** A command that can be written down and carried out on this base. */
  predicate Fits(base: Bytes, w: Written) {
    Legal(w) && Chunk(base, Meant(w)).Some?
  }

  predicate AllLegal(cmds: seq<Written>) {
    forall i :: 0 <= i < |cmds| ==> Legal(cmds[i])
  }

  predicate AllFit(base: Bytes, cmds: seq<Written>): (ok: bool)
    ensures ok ==> AllLegal(cmds)
  {
    forall i :: 0 <= i < |cmds| ==> Fits(base, cmds[i])
  }

  function Meaning(base: Bytes, cmds: seq<Written>): Bytes
    requires AllFit(base, cmds)
  {
    if cmds == [] then []
    else
      assert Fits(base, cmds[0]);
      Chunk(base, Meant(cmds[0])).value + Meaning(base, cmds[1..])
  }

  function WriteSize(n: nat): Bytes {
    if n < 128 then [n as byte] else [(n % 128 + 128) as byte] + WriteSize(n / 128)
  }

  /** The bytes that are given. */
  function WriteField(ds: seq<Option<byte>>): Bytes {
    if ds == [] then [] else (if ds[0].Some? then [ds[0].value] else []) + WriteField(ds[1..])
  }

  function Flag(d: Option<byte>): nat {
    if d.Some? then 1 else 0
  }

  /** The command byte of a copy: a bit for each byte that is given. */
  function CopyByte(off: seq<Option<byte>>, size: seq<Option<byte>>): (c: byte)
    requires |off| == 4 && |size| == 3
    ensures c >= 128
  {
    (128 + Flag(off[0]) + 2 * Flag(off[1]) + 4 * Flag(off[2]) + 8 * Flag(off[3])
     + 16 * Flag(size[0]) + 32 * Flag(size[1]) + 64 * Flag(size[2])) as byte
  }

  function WriteCmd(w: Written): Bytes
    requires Legal(w)
  {
    match w
    case CopyOf(off, size) => [CopyByte(off, size)] + WriteField(off) + WriteField(size)
    case Literal(lit) => [|lit| as byte] + lit
  }

  function WriteCmds(cmds: seq<Written>): Bytes
    requires AllLegal(cmds)
  {
    if cmds == [] then [] else WriteCmd(cmds[0]) + WriteCmds(cmds[1..])
  }

  /** `w` stands in `d` at place `i`. */
  ghost predicate Has(d: Bytes, i: nat, w: Bytes) {
    i + |w| <= |d| && d[i..i + |w|] == w
  }

  lemma HasSplit(d: Bytes, i: nat, a: Bytes, b: Bytes)
    requires Has(d, i, a + b)
    ensures Has(d, i, a) && Has(d, i + |a|, b)
  {
    var w := a + b;
    assert d[i..i + |a|] == d[i..i + |w|][..|a|] == a;
    assert d[i + |a|..i + |w|] == d[i..i + |w|][|a|..] == b;
  }

  lemma HasHead(d: Bytes, i: nat, w: Bytes)
    requires Has(d, i, w) && w != []
    ensures i < |d| && d[i] == w[0] && Has(d, i + 1, w[1..])
  {
    assert d[i] == d[i..i + |w|][0];
    assert d[i + 1..i + |w|] == d[i..i + |w|][1..];
  }

  function Scaled(n: nat, shift: nat): nat {
    n * Pow2(shift)
  }

  lemma {:induction false} ReadWrittenSize(d: Bytes, i: nat, n: nat, shift: nat)
    requires Has(d, i, WriteSize(n))
    requires Scaled(n, shift) < TWO_64 && (n > 0 || shift == 0)
    ensures ReadSize(d, i, shift) == Some(Read(Scaled(n, shift), i + |WriteSize(n)|))
    decreases n
  {
    hide Pow2, ReadSize, Has, Scaled;
    var w := WriteSize(n);
    HasHead(d, i, w);
    ShiftInRange(n, shift);
    SizeStep(d, i, shift);
    assert d[i] as nat % 128 == n % 128;
    SizeDigits(n, shift);
    if n >= 128 {
      assert w[1..] == WriteSize(n / 128);
      ReadWrittenSize(d, i + 1, n / 128, shift + 7);
    }
  }

  lemma SizeDigits(n: nat, shift: nat)
    requires Scaled(n, shift) < TWO_64
    ensures (n % 128) * Pow2(shift) % TWO_64 + Scaled(n / 128, shift + 7) == Scaled(n, shift)
    ensures n < 128 ==> Scaled(n / 128, shift + 7) == 0
  {
    hide Pow2;
    Pow2Add7(shift);
    Digits(n, Pow2(shift));
  }

  lemma Pow2Add7(k: nat)
    ensures Pow2(k + 7) == 128 * Pow2(k)
  {
    assert Pow2(k + 2) == 4 * Pow2(k);
    assert Pow2(k + 4) == 16 * Pow2(k);
    assert Pow2(k + 6) == 64 * Pow2(k);
  }

  lemma Digits(n: nat, p: nat)
    requires n * p < TWO_64
    ensures (n / 128) * (128 * p) + (n % 128) * p == n * p
    ensures (n / 128) * (128 * p) < TWO_64 && (n % 128) * p % TWO_64 == (n % 128) * p
    ensures n < 128 ==> (n % 128) * p == n * p
  {
    assert n == 128 * (n / 128) + n % 128;
    assert (128 * (n / 128) + n % 128) * p == (n / 128) * (128 * p) + (n % 128) * p;
    assert (n / 128) * (128 * p) >= 0 && (n % 128) * p >= 0;
  }

  lemma ShiftInRange(n: nat, shift: nat)
    requires Scaled(n, shift) < TWO_64 && (n > 0 || shift == 0)
    ensures shift <= 63
  {
    hide Pow2;
    if n > 0 {
      Pow2Of64();
      assert n * Pow2(shift) >= Pow2(shift);
      if shift >= 64 {
        Pow2Monotone(64, shift);
      }
    }
  }

  lemma {:induction false} Pow2Monotone(a: nat, b: nat)
    requires a <= b
    ensures Pow2(a) <= Pow2(b)
    decreases b
  {
    if a < b {
      Pow2Monotone(a, b - 1);
    }
  }

  lemma Pow2Of64()
    ensures Pow2(64) == TWO_64
  {
    assert Pow2(8) == 256;
    assert Pow2(16) == 0x10000;
    assert Pow2(24) == 0x1000000;
    assert Pow2(32) == 0x1_0000_0000;
    assert Pow2(40) == 0x100_0000_0000;
    assert Pow2(48) == 0x1_0000_0000_0000;
    assert Pow2(56) == 0x100_0000_0000_0000;
  }

  /** The bits from `k` on tell which of the bytes are given. */
  ghost predicate BitsMatch(c: byte, k: nat, ds: seq<Option<byte>>)
    requires k + |ds| <= 8
    decreases |ds|
  {
    ds == [] || ((Bit(c, k) <==> ds[0].Some?) && BitsMatch(c, k + 1, ds[1..]))
  }

  lemma FieldDigits(ds: seq<Option<byte>>, unit: nat)
    ensures ds == [] ==> Number(ds) * unit == 0
    ensures ds != [] ==> Number(ds) * unit == Digit(ds[0]) * unit + Number(ds[1..]) * (unit * 256)
  {
    hide Digit;
    if ds != [] {
      var low, high := Digit(ds[0]), Number(ds[1..]);
      assert Number(ds) == low + 256 * high;
      hide Number;
      Distributes(low, high, unit);
    }
  }

  lemma Distributes(a: nat, b: nat, unit: nat)
    ensures (a + 256 * b) * unit == a * unit + b * (unit * 256)
  {
  }

  lemma {:induction false} ReadWrittenField(d: Bytes, i: nat, c: byte, k: nat, unit: nat, ds: seq<Option<byte>>)
    requires k + |ds| <= 8 && BitsMatch(c, k, ds) && Has(d, i, WriteField(ds))
    ensures ReadField(d, i, c, k, |ds|, unit) == Some(Read(Number(ds) * unit, i + |WriteField(ds)|))
    decreases |ds|
  {
    hide Bit, Has, Number;
    FieldDigits(ds, unit);
    if ds != [] {
      var w, high := WriteField(ds), ds[1..];
      if ds[0].Some? {
        HasHead(d, i, w);
        assert w[1..] == WriteField(high);
        ReadWrittenField(d, i + 1, c, k + 1, unit * 256, high);
      } else {
        assert w == WriteField(high);
        ReadWrittenField(d, i, c, k + 1, unit * 256, high);
      }
    }
  }

  /** Whatever was read as a field is written there. */
  lemma {:induction false} FieldWasWritten(d: Bytes, i: nat, c: byte, k: nat, n: nat, unit: nat) returns (ds: seq<Option<byte>>)
    requires k + n <= 8 && i <= |d| && ReadField(d, i, c, k, n, unit).Some?
    ensures |ds| == n && BitsMatch(c, k, ds) && Has(d, i, WriteField(ds))
    decreases n
  {
    hide Bit;
    if n == 0 {
      ds := [];
    } else if Bit(c, k) {
      var high := FieldWasWritten(d, i + 1, c, k + 1, n - 1, unit * 256);
      ds := [Some(d[i])] + high;
      HasMore(d, i, WriteField(high));
    } else {
      var high := FieldWasWritten(d, i, c, k + 1, n - 1, unit * 256);
      ds := [None] + high;
      assert WriteField(ds) == WriteField(high);
    }
  }

  lemma HasMore(d: Bytes, i: nat, w: Bytes)
    requires i < |d| && Has(d, i + 1, w)
    ensures Has(d, i, [d[i]] + w)
  {
    assert d[i..i + 1 + |w|] == [d[i]] + d[i + 1..i + 1 + |w|];
  }

  lemma HasJoin(d: Bytes, i: nat, a: Bytes, b: Bytes)
    requires Has(d, i, a) && Has(d, i + |a|, b)
    ensures Has(d, i, a + b)
  {
    assert d[i..i + |a + b|] == d[i..i + |a|] + d[i + |a|..i + |a| + |b|];
  }

  /** The seven low bits of a number. */
  ghost predicate LowBits(c: nat, f0: nat, f1: nat, f2: nat, f3: nat, f4: nat, f5: nat, f6: nat) {
    c % 2 == f0 && c / 2 % 2 == f1 && c / 4 % 2 == f2 && c / 8 % 2 == f3 && c / 16 % 2 == f4 && c / 32 % 2 == f5 && c / 64 % 2 == f6
  }

  lemma BitsOfSum(f0: nat, f1: nat, f2: nat, f3: nat, f4: nat, f5: nat, f6: nat)
    requires f0 <= 1 && f1 <= 1 && f2 <= 1 && f3 <= 1 && f4 <= 1 && f5 <= 1 && f6 <= 1
    ensures LowBits(128 + f0 + 2 * f1 + 4 * f2 + 8 * f3 + 16 * f4 + 32 * f5 + 64 * f6, f0, f1, f2, f3, f4, f5, f6)
  {
    var c6 := 2 + f6;
    var c5 := 2 * c6 + f5;
    var c4 := 2 * c5 + f4;
    var c3 := 2 * c4 + f3;
    var c2 := 2 * c3 + f2;
    var c1 := 2 * c2 + f1;
    var c := 2 * c1 + f0;
    assert c / 2 == c1 && c / 4 == c2 && c / 8 == c3;
    assert c / 16 == c4 && c / 32 == c5 && c / 64 == c6;
  }

  lemma SumOfBits(c: nat, f0: nat, f1: nat, f2: nat, f3: nat, f4: nat, f5: nat, f6: nat)
    requires 128 <= c < 256 && LowBits(c, f0, f1, f2, f3, f4, f5, f6)
    ensures c == 128 + f0 + 2 * f1 + 4 * f2 + 8 * f3 + 16 * f4 + 32 * f5 + 64 * f6
  {
    Halves(c);
  }

  lemma Halves(c: nat)
    ensures c / 4 == c / 2 / 2 && c / 8 == c / 4 / 2 && c / 16 == c / 8 / 2 && c / 32 == c / 16 / 2 && c / 64 == c / 32 / 2
  {
  }

  /** The bits of a byte, spelled out. */
  ghost predicate AllBits(c: byte, off: seq<Option<byte>>, size: seq<Option<byte>>)
    requires |off| == 4 && |size| == 3
  {
    && (Bit(c, 0) <==> off[0].Some?) && (Bit(c, 1) <==> off[1].Some?) && (Bit(c, 2) <==> off[2].Some?) && (Bit(c, 3) <==> off[3].Some?)
    && (Bit(c, 4) <==> size[0].Some?) && (Bit(c, 5) <==> size[1].Some?) && (Bit(c, 6) <==> size[2].Some?)
  }

  lemma AllBitsMatch(c: byte, off: seq<Option<byte>>, size: seq<Option<byte>>)
    requires |off| == 4 && |size| == 3
    ensures BitsMatch(c, 0, off) && BitsMatch(c, 4, size) <==> AllBits(c, off, size)
  {
    hide Bit;
    assert BitsMatch(c, 1, off[1..]) <==> (Bit(c, 1) <==> off[1].Some?) && BitsMatch(c, 2, off[2..]) by {
      assert off[1..][1..] == off[2..];
    }
    assert BitsMatch(c, 2, off[2..]) <==> (Bit(c, 2) <==> off[2].Some?) && BitsMatch(c, 3, off[3..]) by {
      assert off[2..][1..] == off[3..];
    }
    assert BitsMatch(c, 3, off[3..]) <==> (Bit(c, 3) <==> off[3].Some?);
    assert BitsMatch(c, 5, size[1..]) <==> (Bit(c, 5) <==> size[1].Some?) && BitsMatch(c, 6, size[2..]) by {
      assert size[1..][1..] == size[2..];
    }
    assert BitsMatch(c, 6, size[2..]) <==> (Bit(c, 6) <==> size[2].Some?);
  }

  lemma BitsAre(c: byte, off: seq<Option<byte>>, size: seq<Option<byte>>)
    requires |off| == 4 && |size| == 3
    ensures AllBits(c, off, size)
       <==> LowBits(c as nat, Flag(off[0]), Flag(off[1]), Flag(off[2]), Flag(off[3]), Flag(size[0]), Flag(size[1]), Flag(size[2]))
  {
    var n := c as nat;
    assert Bit(c, 0) <==> n % 2 == 1;
    assert Bit(c, 1) <==> n / 2 % 2 == 1;
    assert Bit(c, 2) <==> n / 4 % 2 == 1;
    assert Bit(c, 3) <==> n / 8 % 2 == 1;
    assert Bit(c, 4) <==> n / 16 % 2 == 1;
    assert Bit(c, 5) <==> n / 32 % 2 == 1;
    assert Bit(c, 6) <==> n / 64 % 2 == 1;
  }

  /** A command byte carries exactly the bits of its operands. */
  lemma CopyBits(c: byte, off: seq<Option<byte>>, size: seq<Option<byte>>)
    requires |off| == 4 && |size| == 3
    ensures c == CopyByte(off, size) <==> c >= 128 && BitsMatch(c, 0, off) && BitsMatch(c, 4, size)
  {
    hide BitsMatch, AllBits, LowBits;
    AllBitsMatch(c, off, size);
    BitsAre(c, off, size);
    BitsOfSum(Flag(off[0]), Flag(off[1]), Flag(off[2]), Flag(off[3]), Flag(size[0]), Flag(size[1]), Flag(size[2]));
    if c >= 128 && AllBits(c, off, size) {
      SumOfBits(c as nat, Flag(off[0]), Flag(off[1]), Flag(off[2]), Flag(off[3]), Flag(size[0]), Flag(size[1]), Flag(size[2]));
    }
  }

  lemma ReadWrittenCopy(d: Bytes, i: nat, off: seq<Option<byte>>, size: seq<Option<byte>>)
    requires |off| == 4 && |size| == 3 && Has(d, i, WriteCmd(CopyOf(off, size)))
    ensures ReadCmd(d, i) == Some(Read(Meant(CopyOf(off, size)), i + |WriteCmd(CopyOf(off, size))|))
  {
    hide Has, BitsMatch, ReadField, CopyByte, WriteField, WriteCmd, Number;
    var w, a, b := WriteCmd(CopyOf(off, size)), WriteField(off), WriteField(size);
    WrittenCopy(off, size);
    HasHead(d, i, w);
    HasSplit(d, i + 1, a, b);
    ReadWrittenField(d, i + 1, w[0], 0, 1, off);
    ReadWrittenField(d, i + 1 + |a|, w[0], 4, 1, size);
  }

  lemma WrittenCopy(off: seq<Option<byte>>, size: seq<Option<byte>>)
    requires |off| == 4 && |size| == 3
    ensures var w := WriteCmd(CopyOf(off, size));
            && w != [] && w[0] >= 128 && BitsMatch(w[0], 0, off) && BitsMatch(w[0], 4, size)
            && w[1..] == WriteField(off) + WriteField(size)
  {
    hide BitsMatch, WriteField;
    CopyBits(WriteCmd(CopyOf(off, size))[0], off, size);
  }

  lemma ReadWrittenCmd(d: Bytes, i: nat, w: Written)
    requires Legal(w) && Has(d, i, WriteCmd(w))
    ensures ReadCmd(d, i) == Some(Read(Meant(w), i + |WriteCmd(w)|))
  {
    hide ReadCmd, WriteCmd, Has, Number;
    if w.CopyOf? {
      ReadWrittenCopy(d, i, w.off, w.size);
    } else {
      ReadWrittenLiteral(d, i, w.lit);
    }
  }

  lemma ReadWrittenLiteral(d: Bytes, i: nat, lit: Bytes)
    requires 0 < |lit| < 128 && Has(d, i, WriteCmd(Literal(lit)))
    ensures ReadCmd(d, i) == Some(Read(Insert(lit), i + |WriteCmd(Literal(lit))|))
  {
    hide ReadField;
    var w := WriteCmd(Literal(lit));
    HasHead(d, i, w);
    assert w[1..] == lit;
  }

  /** Whatever was read as a command is one that is written there. */
  lemma CmdWasWritten(d: Bytes, i: nat) returns (w: Written)
    requires ReadCmd(d, i).Some?
    ensures Legal(w) && Has(d, i, WriteCmd(w))
    ensures ReadCmd(d, i) == Some(Read(Meant(w), i + |WriteCmd(w)|))
  {
    if d[i] >= 128 {
      w := CopyWasWritten(d, i);
    } else {
      w := Literal(d[i + 1..i + 1 + d[i] as nat]);
      HasMore(d, i, w.lit);
    }
    ReadWrittenCmd(d, i, w);
  }

  lemma CopyWasWritten(d: Bytes, i: nat) returns (w: Written)
    requires ReadCmd(d, i).Some? && d[i] >= 128
    ensures Legal(w) && Has(d, i, WriteCmd(w))
  {
    hide ReadField, Has, BitsMatch, CopyByte, WriteField, Number;
    var off := FieldWasWritten(d, i + 1, d[i], 0, 4, 1);
    ReadWrittenField(d, i + 1, d[i], 0, 1, off);
    HasFits(d, i + 1, WriteField(off));
    var size := FieldWasWritten(d, i + 1 + |WriteField(off)|, d[i], 4, 3, 1);
    CopyBits(d[i], off, size);
    HasJoin(d, i + 1, WriteField(off), WriteField(size));
    HasMore(d, i, WriteField(off) + WriteField(size));
    w := CopyOf(off, size);
    assert WriteCmd(w) == [d[i]] + (WriteField(off) + WriteField(size));
  }

  lemma HasFits(d: Bytes, i: nat, w: Bytes)
    requires Has(d, i, w)
    ensures i + |w| <= |d|
  {
  }

  lemma {:induction false} ApplyWrittenCmds(base: Bytes, d: Bytes, i: nat, cmds: seq<Written>)
    requires AllFit(base, cmds)
    requires Has(d, i, WriteCmds(cmds)) && i + |WriteCmds(cmds)| == |d|
    ensures ApplyFrom(base, d, i, |Meaning(base, cmds)|) == Some(Meaning(base, cmds))
    decreases |cmds|
  {
    hide Has, ReadCmd, WriteCmd, Number;
    if cmds != [] {
      var w, rest := cmds[0], cmds[1..];
      assert Fits(base, w);
      HasSplit(d, i, WriteCmd(w), WriteCmds(rest));
      ReadWrittenCmd(d, i, w);
      ApplyWrittenCmds(base, d, i + |WriteCmd(w)|, rest);
      assert Meaning(base, cmds) == Chunk(base, Meant(w)).value + Meaning(base, rest);
    }
  }

  /** What can be applied was written by the format, and means what came of it. */
  lemma {:induction false} AppliedWasWritten(base: Bytes, d: Bytes, i: nat, remaining: nat) returns (cmds: seq<Written>)
    requires i <= |d| && ApplyFrom(base, d, i, remaining).Some?
    ensures AllFit(base, cmds)
    ensures d[i..] == WriteCmds(cmds) && ApplyFrom(base, d, i, remaining) == Some(Meaning(base, cmds))
    decreases remaining
  {
    hide Has, ReadCmd, WriteCmd, Number;
    if remaining == 0 {
      cmds := [];
    } else {
      var w := CmdWasWritten(d, i);
      var out := WriteCmd(w);
      HasPrefix(d, i, out);
      var rest := AppliedWasWritten(base, d, i + |out|, remaining - |Chunk(base, Meant(w)).value|);
      cmds := [w] + rest;
      assert cmds[1..] == rest;
      assert Meaning(base, cmds) == Chunk(base, Meant(w)).value + Meaning(base, rest);
    }
  }

  lemma HasPrefix(d: Bytes, i: nat, w: Bytes)
    requires Has(d, i, w)
    ensures i + |w| <= |d| && d[i..] == w + d[i + |w|..]
  {
  }

  /** The commands, behind the sizes of the base and of what they rebuild. */
  ghost predicate Spells(base: Bytes, cmds: seq<Written>, d: Bytes) {
    && AllFit(base, cmds)
    && |base| < TWO_63 && |Meaning(base, cmds)| <= TWO_62
    && exists p: nat, q: nat :: SizesAre(d, |base|, |Meaning(base, cmds)|, p, q) && d[q..] == WriteCmds(cmds)
  }

  /** The two sizes end at `p` and at `q`. */
  ghost predicate SizesAre(d: Bytes, src: nat, tgt: nat, p: nat, q: nat) {
    ReadSize(d, 0, 0) == Some(Read(src, p)) && ReadSize(d, p, 0) == Some(Read(tgt, q)) && q <= |d|
  }

  /** A delta rebuilds exactly what its commands mean, and only what is a list of commands that fit
      the base is a delta of it. */
  lemma AppliesIffSpelled(base: Bytes, d: Bytes, out: Bytes)
    ensures Apply(base, d) == Some(out) <==> exists cmds :: Spells(base, cmds, d) && Meaning(base, cmds) == out
  {
    if Apply(base, d) == Some(out) {
      var cmds := SpelledBy(base, d);
    }
    forall cmds | Spells(base, cmds, d) ensures Apply(base, d) == Some(Meaning(base, cmds)) {
      SpelledApplies(base, d, cmds);
    }
  }

  lemma SpelledApplies(base: Bytes, d: Bytes, cmds: seq<Written>)
    requires Spells(base, cmds, d)
    ensures Apply(base, d) == Some(Meaning(base, cmds))
  {
    hide Chunk, Meant, Meaning, ReadSize, ApplyFrom;
    var p: nat, q: nat :| SizesAre(d, |base|, |Meaning(base, cmds)|, p, q) && d[q..] == WriteCmds(cmds);
    ApplyWrittenCmds(base, d, q, cmds);
  }

  lemma SpelledBy(base: Bytes, d: Bytes) returns (cmds: seq<Written>)
    requires Apply(base, d).Some?
    ensures Spells(base, cmds, d) && Apply(base, d) == Some(Meaning(base, cmds))
  {
    hide Chunk, Meant, Meaning, ReadSize, ApplyFrom;
    var p := ReadSize(d, 0, 0).value.pos;
    var q := ReadSize(d, p, 0).value.pos;
    SizeEnds(d, p, 0);
    ApplyLength(base, d, q, ReadSize(d, p, 0).value.value);
    cmds := AppliedWasWritten(base, d, q, ReadSize(d, p, 0).value.value);
    assert SizesAre(d, |base|, |Meaning(base, cmds)|, p, q);
  }

  lemma ApplyLength(base: Bytes, d: Bytes, i: nat, remaining: nat)
    ensures ApplyFrom(base, d, i, remaining).Some? ==> |ApplyFrom(base, d, i, remaining).value| == remaining
  {
  }

  lemma {:induction false} SizeEnds(d: Bytes, i: nat, shift: nat)
    ensures ReadSize(d, i, shift).Some? ==> i < ReadSize(d, i, shift).value.pos <= |d|
    decreases 64 - shift
  {
    hide Pow2;
    if shift <= 63 && i < |d| && d[i] >= 128 {
      SizeEnds(d, i + 1, shift + 7);
    }
  }

  /** A delta written with the shortest sizes. */
  lemma ApplyWrittenDelta(base: Bytes, cmds: seq<Written>)
    requires AllFit(base, cmds)
    requires |base| < TWO_63 && |Meaning(base, cmds)| <= TWO_62
    ensures Apply(base, WriteSize(|base|) + WriteSize(|Meaning(base, cmds)|) + WriteCmds(cmds)) == Some(Meaning(base, cmds))
  {
    hide WriteSize, WriteCmds, Meaning, ReadSize, ApplyFrom, Has, Chunk, Meant;
    var m := Meaning(base, cmds);
    var a, b, c := WriteSize(|base|), WriteSize(|m|), WriteCmds(cmds);
    var d := a + b + c;
    assert Pow2(0) == 1;
    HasAll(d, a, b, c);
    ReadWrittenSize(d, 0, |base|, 0);
    ReadWrittenSize(d, |a|, |m|, 0);
    ApplyWrittenCmds(base, d, |a| + |b|, cmds);
  }

  lemma HasAll(d: Bytes, a: Bytes, b: Bytes, c: Bytes)
    requires d == a + b + c
    ensures Has(d, 0, a) && Has(d, |a|, b) && Has(d, |a| + |b|, c)
  {
  }

  /** The bytes of a number: in the shortest form the zeros are left out. */
  function Shortest(v: nat, n: nat): (ds: seq<Option<byte>>)
    ensures |ds| == n
  {
    if n == 0 then [] else [if v % 256 == 0 then None else Some((v % 256) as byte)] + Shortest(v / 256, n - 1)
  }

  lemma {:induction false} ShortestIsNumber(v: nat, n: nat)
    requires v < Pow256(n)
    ensures Number(Shortest(v, n)) == v
    decreases n
  {
    if n > 0 {
      ShortestIsNumber(v / 256, n - 1);
    }
  }

  /** Every range that begins below 4 GiB and is shorter than 16 MiB can be copied by one command. */
  lemma EveryRangeIsWritten(base: Bytes, off: nat, size: nat)
    requires off < 0x1_0000_0000 && 0 < size < 0x1000000 && off + size <= |base|
    ensures var w := CopyOf(Shortest(off, 4), Shortest(size, 3));
            Fits(base, w) && Meaning(base, [w]) == base[off..off + size]
  {
    hide Number, Shortest;
    assert Pow256(4) == 0x1_0000_0000 && Pow256(3) == 0x1000000;
    ShortestIsNumber(off, 4);
    ShortestIsNumber(size, 3);
    MeaningOfOne(base, CopyOf(Shortest(off, 4), Shortest(size, 3)));
  }

  lemma MeaningOfOne(base: Bytes, w: Written)
    requires Fits(base, w)
    ensures Meaning(base, [w]) == Chunk(base, Meant(w)).value
  {
    assert Chunk(base, Meant(w)).value + [] == Chunk(base, Meant(w)).value;
  }

  /** A copy with no byte of size takes 65536 bytes of the base, from any place below 4 GiB. */
  lemma NoSizeBytes(base: Bytes, off: nat)
    requires off < 0x1_0000_0000 && off + 65536 <= |base| < TWO_63
    ensures var w := CopyOf(Shortest(off, 4), [None, None, None]);
            Apply(base, WriteSize(|base|) + [128, 128, 4] + WriteCmd(w)) == Some(base[off..off + 65536])
  {
    hide Apply, Shortest, WriteCmd, WriteSize;
    var w := CopyOf(Shortest(off, 4), [None, None, None]);
    MeantByNoSize(off, Shortest(off, 4));
    MeaningOfOne(base, w);
    ApplyWrittenDelta(base, [w]);
    WriteOne(w);
    SizeOf64K();
  }

  lemma WriteOne(w: Written)
    requires Legal(w)
    ensures WriteCmds([w]) == WriteCmd(w)
  {
    assert WriteCmd(w) + [] == WriteCmd(w);
  }

  lemma MeantByNoSize(off: nat, ds: seq<Option<byte>>)
    requires off < 0x1_0000_0000 && ds == Shortest(off, 4)
    ensures Meant(CopyOf(ds, [None, None, None])) == Copy(off, 65536)
  {
    hide Shortest;
    assert Pow256(4) == 0x1_0000_0000;
    ShortestIsNumber(off, 4);
    var none: seq<Option<byte>> := [None, None, None];
    assert none[1..] == [None, None] && none[1..][1..] == [None];
    assert Number(none[1..][1..]) == 0 && Number(none[1..]) == 0;
  }

  lemma SizeOf64K()
    ensures WriteSize(65536) == [128, 128, 4]
  {
    assert WriteSize(4) == [4];
    assert WriteSize(512) == [128] + WriteSize(4);
    assert WriteSize(65536) == [128] + WriteSize(512);
  }

  /** The shortest delta that rebuilds a base of 64 KiB: two sizes, and the one byte of the copy. */
  lemma WholeBaseOf64K(base: Bytes)
    requires |base| == 65536
    ensures Apply(base, [128, 128, 4, 128, 128, 4, 128]) == Some(base)
  {
    hide Apply, WriteSize;
    var none: seq<Option<byte>> := [None, None, None, None];
    assert Shortest(0, 3) == [None, None, None] by { assert Shortest(0, 2) == [None, None]; }
    assert Shortest(0, 4) == none;
    assert WriteCmd(CopyOf(none, none[1..])) == [128] by {
      assert none[1..][1..] == [None, None] && WriteField([None]) == [];
      assert WriteField(none[1..][1..]) == [] && WriteField(none[1..]) == [] && WriteField(none) == [];
    }
    assert none[1..] == [None, None, None];
    NoSizeBytes(base, 0);
    SizeOf64K();
    assert [128, 128, 4] + [128, 128, 4] + [128] == [128, 128, 4, 128, 128, 4, 128];
    assert base[0..65536] == base;
  }

  // The streaming reader, as the resolver runs it.

  method ReadDeltaSize(d: Bytes, start: nat) returns (r: Option<Read<nat>>)
    ensures r == ReadSize(d, start, 0)
  {
    hide Pow2, ReadSize, Added;
    var n: nat, shift: nat, i: nat := 0, 0, start;
    AddedNothing(ReadSize(d, i, shift));
    while true
      invariant ReadSize(d, start, 0) == Added(n, ReadSize(d, i, shift))
      decreases 64 - shift
    {
      SizeStep(d, i, shift);
      AddedMissing(n);
      if shift > 63 || i >= |d| {
        return None;
      }
      var part: nat := (d[i] as nat % 128) * Pow2(shift) % TWO_64;
      AddedMore(n, part, ReadSize(d, i + 1, shift + 7));
      n := n + part;
      i := i + 1;
      if d[i - 1] < 128 {
        AddedLast(n - part, part, i);
        return Some(Read(n, i));
      }
      shift := shift + 7;
    }
  }

  function Added(n: nat, r: Option<Read<nat>>): Option<Read<nat>> {
    if r.None? then None else Some(Read(n + r.value.value, r.value.pos))
  }

  lemma AddedNothing(r: Option<Read<nat>>)
    ensures Added(0, r) == r
  {
  }

  lemma AddedMissing(n: nat)
    ensures Added(n, None) == None
  {
  }

  lemma AddedLast(n: nat, part: nat, pos: nat)
    ensures Added(n, Some(Read(part, pos))) == Some(Read(n + part, pos))
  {
  }

  lemma AddedMore(n: nat, part: nat, r: Option<Read<nat>>)
    ensures Added(n, Added(part, r)) == Added(n + part, r)
  {
  }

  /** One turn of the size loop. */
  lemma SizeStep(d: Bytes, i: nat, shift: nat)
    ensures shift > 63 || i >= |d| ==> ReadSize(d, i, shift) == None
    ensures shift <= 63 && i < |d| ==>
              var part: nat := (d[i] as nat % 128) * Pow2(shift) % TWO_64;
              ReadSize(d, i, shift) == if d[i] < 128 then Some(Read(part, i + 1)) else Added(part, ReadSize(d, i + 1, shift + 7))
  {
    hide Pow2;
  }

  /** One turn of the field loop. */
  lemma FieldStep(d: Bytes, i: nat, c: byte, k: nat, n: nat, unit: nat)
    requires 0 < n && k + n <= 8
    ensures ReadField(d, i, c, k, n, unit)
         == if !Bit(c, k) then ReadField(d, i, c, k + 1, n - 1, unit * 256)
            else if i >= |d| then None
            else Added(d[i] as nat * unit, ReadField(d, i + 1, c, k + 1, n - 1, unit * 256))
  {
    hide Bit;
  }

  method ReadFieldBytes(d: Bytes, start: nat, c: byte, k0: nat, count: nat) returns (r: Option<Read<nat>>)
    requires k0 + count <= 8
    ensures r == ReadField(d, start, c, k0, count, 1)
  {
    hide Bit, ReadField, Added;
    var v: nat, i: nat, unit: nat := 0, start, 1;
    AddedNothing(ReadField(d, i, c, k0, count, unit));
    for k := 0 to count
      invariant ReadField(d, start, c, k0, count, 1) == Added(v, ReadField(d, i, c, k0 + k, count - k, unit))
    {
      FieldStep(d, i, c, k0 + k, count - k, unit);
      if Bit(c, k0 + k) {
        AddedMissing(v);
        if i >= |d| {
          return None;
        }
        var part: nat := d[i] as nat * unit;
        AddedMore(v, part, ReadField(d, i + 1, c, k0 + k + 1, count - k - 1, unit * 256));
        v := v + part;
        i := i + 1;
      }
      unit := unit * 256;
    }
    FieldDone(d, i, c, k0 + count, unit);
    AddedLast(v, 0, i);
    r := Some(Read(v, i));
  }

  lemma FieldDone(d: Bytes, i: nat, c: byte, k: nat, unit: nat)
    requires k <= 8
    ensures ReadField(d, i, c, k, 0, unit) == Some(Read(0, i))
  {
  }

  method ReadCommand(d: Bytes, i: nat) returns (r: Option<Read<Cmd>>)
    ensures r == ReadCmd(d, i)
  {
    hide ReadField;
    if i >= |d| {
      return None;
    }
    var cmd := d[i];
    if cmd >= 128 {
      var off := ReadFieldBytes(d, i + 1, cmd, 0, 4);
      if off.None? {
        return None;
      }
      var sz := ReadFieldBytes(d, off.value.pos, cmd, 4, 3);
      if sz.None? {
        return None;
      }
      var size := if sz.value.value == 0 then 0x10000 else sz.value.value;
      return Some(Read(Copy(off.value.value, size), sz.value.pos));
    }
    if cmd == 0 || i + 1 + cmd as nat > |d| {
      return None;
    }
    r := Some(Read(Insert(d[i + 1..i + 1 + cmd as nat]), i + 1 + cmd as nat));
  }

  /** The delta applied command by command: a command is refused when it would write past the target
      size or read past the base, and every byte of the delta must be used. */
  method ApplyDelta(base: Bytes, d: Bytes) returns (r: Option<Bytes>)
    ensures r == Apply(base, d)
  {
    hide ReadSize, ReadCmd;
    var src := ReadDeltaSize(d, 0);
    if src.None? || src.value.value >= TWO_63 || src.value.value != |base| {
      return None;
    }
    var tgt := ReadDeltaSize(d, src.value.pos);
    if tgt.None? || tgt.value.value > TWO_62 {
      return None;
    }
    var out: Bytes := [];
    var i: nat, remaining: nat := tgt.value.pos, tgt.value.value;
    PrefixedNone(ApplyFrom(base, d, i, remaining));
    while remaining > 0
      invariant Apply(base, d) == Prefixed(out, ApplyFrom(base, d, i, remaining))
      decreases remaining
    {
      var cmd := ReadCommand(d, i);
      if cmd.None? {
        return None;
      }
      var chunk: Bytes := match cmd.value.value
        case Copy(off, size) => if size > remaining || off + size > |base| then [] else base[off..off + size]
        case Insert(lit) => if |lit| > remaining then [] else lit;
      if chunk == [] {
        return None;
      }
      i := cmd.value.pos;
      remaining := remaining - |chunk|;
      PrefixedTwice(out, chunk, ApplyFrom(base, d, i, remaining));
      out := out + chunk;
    }
    if i != |d| {
      return None;
    }
    assert out + [] == out;
    r := Some(out);
  }

  function Prefixed(out: Bytes, r: Option<Bytes>): Option<Bytes> {
    if r.None? then None else Some(out + r.value)
  }

  lemma PrefixedNone(r: Option<Bytes>)
    ensures Prefixed([], r) == r
  {
    if r.Some? {
      assert [] + r.value == r.value;
    }
  }

  lemma PrefixedTwice(a: Bytes, b: Bytes, r: Option<Bytes>)
    ensures Prefixed(a + b, r) == Prefixed(a, Prefixed(b, r))
  {
    if r.Some? {
      assert (a + b) + r.value == a + (b + r.value);
    }
  }
}
