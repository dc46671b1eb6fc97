/** Fixed-width big-endian numbers and columns of fixed-width cells, as the index files hold them. */
module Wire {
  import opened Prelude

  function Pow256(n: nat): (r: nat)
    ensures r > 0
  {
    if n == 0 then 1 else 256 * Pow256(n - 1)
  }

  /** `n` in `width` bytes, the most significant first; bits that do not fit are lost. */
  function PutNat(n: nat, width: nat): (b: Bytes)
    ensures |b| == width
  {
    if width == 0 then [] else PutNat(n / 256, width - 1) + [(n % 256) as byte]
  }

  function GetNat(b: Bytes): nat {
    if b == [] then 0 else 256 * GetNat(b[..|b| - 1]) + b[|b| - 1] as nat
  }

  lemma {:induction false} GetPutNat(n: nat, width: nat)
    requires n < Pow256(width)
    ensures GetNat(PutNat(n, width)) == n
  {
    hide GetNat;
    GetNothing();
    if width > 0 {
      Quotient(n, Pow256(width - 1));
      GetPutNat(n / 256, width - 1);
      GetLast(PutNat(n / 256, width - 1), (n % 256) as byte);
    }
  }

  lemma GetNothing()
    ensures GetNat([]) == 0
  {
  }

  lemma GetLast(b: Bytes, x: byte)
    ensures GetNat(b + [x]) == 256 * GetNat(b) + x as nat
  {
    assert (b + [x])[..|b|] == b;
  }

  lemma Quotient(n: nat, p: nat)
    requires n < 256 * p
    ensures n / 256 < p && 256 * (n / 256) + n % 256 == n
  {
  }

  /** A number in four bytes keeps its low 32 bits. */
  lemma GetPut32(n: nat)
    ensures GetNat(PutNat(n, 4)) == n % 0x1_0000_0000
  {
    hide GetNat;
    GetNothing();
    var a, b, c := n / 256, n / 256 / 256, n / 256 / 256 / 256;
    GetLast(PutNat(c / 256, 0), (c % 256) as byte);
    GetLast(PutNat(c, 1), (b % 256) as byte);
    GetLast(PutNat(b, 2), (a % 256) as byte);
    GetLast(PutNat(a, 3), (n % 256) as byte);
    FourDigits(n);
  }

  lemma FourDigits(n: nat)
    ensures 256 * (256 * (256 * (n / 256 / 256 / 256 % 256) + n / 256 / 256 % 256) + n / 256 % 256) + n % 256 == n % 0x1_0000_0000
  {
    var a := n / 256;
    var b := a / 256;
    var c := b / 256;
    var high, low := c / 256, 256 * (256 * (256 * (c % 256) + b % 256) + a % 256) + n % 256;
    assert n == 0x1_0000_0000 * high + low && low < 0x1_0000_0000;
  }

  const TWO_63: nat := 0x8000_0000_0000_0000
  const TWO_64: nat := 0x1_0000_0000_0000_0000

  predicate IsInt64(i: int) {
    0 <= i + TWO_63 < TWO_64
  }

  /** A 64-bit number as the two's complement that its bytes hold. */
  function Unsigned(i: int): (u: nat)
    requires IsInt64(i)
    ensures u < TWO_64
  {
    if i >= 0 then i else i + TWO_64
  }

  function Signed(u: nat): int {
    if u < TWO_63 then u else u - TWO_64
  }

  lemma Pow256Of8()
    ensures Pow256(8) == TWO_64 && Pow256(4) == 0x1_0000_0000
  {
    assert Pow256(4) == 0x1_0000_0000;
    assert Pow256(6) == 0x1_0000_0000_0000;
  }

  function PutInt64(i: int): (b: Bytes)
    requires IsInt64(i)
    ensures |b| == 8
  {
    PutNat(Unsigned(i), 8)
  }

  lemma GetPutInt64(i: int)
    requires IsInt64(i)
    ensures Signed(GetNat(PutInt64(i))) == i
  {
    Pow256Of8();
    GetPutNat(Unsigned(i), 8);
  }

  /** Cell `i` of a column of cells `w` wide. */
  function Cell(b: Bytes, w: nat, i: nat): Bytes {
    if i * w + w <= |b| then b[i * w..i * w + w] else []
  }

  function Flat(cells: seq<Bytes>): Bytes {
    if cells == [] then [] else Flat(cells[..|cells| - 1]) + cells[|cells| - 1]
  }

  ghost predicate AllWide(cells: seq<Bytes>, w: nat) {
    forall i :: 0 <= i < |cells| ==> |cells[i]| == w
  }

  lemma {:induction false} FlatLength(cells: seq<Bytes>, w: nat)
    requires AllWide(cells, w)
    ensures |Flat(cells)| == |cells| * w
  {
    if cells != [] {
      FlatLength(cells[..|cells| - 1], w);
      assert |cells| * w == (|cells| - 1) * w + w;
    }
  }

  /** A column gives each cell back, whatever follows it. */
  lemma {:induction false} FlatCell(cells: seq<Bytes>, rest: Bytes, w: nat, i: nat)
    requires AllWide(cells, w) && i < |cells|
    ensures Cell(Flat(cells) + rest, w, i) == cells[i]
    decreases |cells|
  {
    var n := |cells| - 1;
    var low := cells[..n];
    FlatLength(low, w);
    if i == n {
      CellAt(Flat(low), cells[n], rest, n * w, w);
      assert Flat(cells) + rest == Flat(low) + cells[n] + rest;
    } else {
      FlatCell(low, cells[n] + rest, w, i);
      assert Flat(cells) + rest == Flat(low) + (cells[n] + rest);
    }
  }

  lemma CellAt(a: Bytes, c: Bytes, rest: Bytes, k: nat, w: nat)
    requires |a| == k && |c| == w
    ensures (a + c + rest)[k..k + w] == c
  {
  }
}
