/** The packed-refs object: a header with the number of refs, and one line for each ref. */
module PackedRefs {
  import opened Prelude
  import opened Wire
  import opened PackWriter

  const HEADER_LEN: nat := 16
  const TAB: byte := 9
  const NEWLINE: byte := 10
  const SYM_PREFIX: Bytes := [114, 101, 102, 58, 32]

  /** A ref points to a hash of one of the two widths, or to another ref by name. */
  datatype Value = Direct(width: nat, hash: Hash) | Symbolic(target: Bytes)

  type RefMap = map<Bytes, Value>

  // Hash values in hex.

  function HexDigit(n: nat): byte
    requires n < 16
  {
    if n < 10 then (48 + n) as byte else (87 + n) as byte
  }

  function HexValue(b: byte): Option<nat> {
    if 48 <= b <= 57 then Some(b as nat - 48)
    else if 97 <= b <= 102 then Some(b as nat - 87)
    else if 65 <= b <= 70 then Some(b as nat - 55)
    else None
  }

  function Hex(b: Bytes): (s: Bytes)
    ensures |s| == 2 * |b|
    ensures forall i :: 0 <= i < |s| ==> HexValue(s[i]).Some?
  {
    if b == [] then [] else [HexDigit(b[0] as nat / 16), HexDigit(b[0] as nat % 16)] + Hex(b[1..])
  }

  function FromHex(s: Bytes): Option<Bytes> {
    if s == [] then Some([])
    else if |s| == 1 then None
    else
      var hi, lo, rest := HexValue(s[0]), HexValue(s[1]), FromHex(s[2..]);
      if hi.None? || lo.None? || rest.None? then None else Some([(hi.value * 16 + lo.value) as byte] + rest.value)
  }

  lemma {:induction false} FromHexOfHex(b: Bytes)
    ensures FromHex(Hex(b)) == Some(b)
  {
    if b != [] {
      assert Hex(b)[2..] == Hex(b[1..]);
      FromHexOfHex(b[1..]);
      assert b == [b[0]] + b[1..];
      assert b[0] as nat / 16 * 16 + b[0] as nat % 16 == b[0] as nat;
    }
  }

  // The value of a ref as text.

  predicate IsSpace(b: byte) {
    9 <= b <= 13 || b == 32
  }

  /** The space characters outside ASCII, in UTF-8: U+0085, U+00A0, U+1680, U+2000 to U+200A, U+2028,
      U+2029, U+202F, U+205F and U+3000. */
  predicate IsWideSpace(s: Bytes) {
    || (|s| == 2 && s[0] == 0xC2 && (s[1] == 0x85 || s[1] == 0xA0))
    || s == [0xE1, 0x9A, 0x80] || s == [0xE2, 0x81, 0x9F] || s == [0xE3, 0x80, 0x80]
    || (|s| == 3 && s[0] == 0xE2 && s[1] == 0x80 && (0x80 <= s[2] <= 0x8A || s[2] == 0xA8 || s[2] == 0xA9 || s[2] == 0xAF))
  }

  /** How many bytes of space the text starts with: one character's, or none. */
  function LeadSpace(s: Bytes): (n: nat)
    ensures n <= |s|
  {
    if s != [] && IsSpace(s[0]) then 1
    else if |s| >= 2 && IsWideSpace(s[..2]) then 2
    else if |s| >= 3 && IsWideSpace(s[..3]) then 3
    else 0
  }

  function TailSpace(s: Bytes): (n: nat)
    ensures n <= |s|
  {
    if s != [] && IsSpace(s[|s| - 1]) then 1
    else if |s| >= 2 && IsWideSpace(s[|s| - 2..]) then 2
    else if |s| >= 3 && IsWideSpace(s[|s| - 3..]) then 3
    else 0
  }

  function TrimLeft(s: Bytes): Bytes {
    if LeadSpace(s) > 0 then TrimLeft(s[LeadSpace(s)..]) else s
  }

  function TrimRight(s: Bytes): Bytes {
    if TailSpace(s) > 0 then TrimRight(s[..|s| - TailSpace(s)]) else s
  }

  function TrimSpace(s: Bytes): Bytes {
    TrimRight(TrimLeft(s))
  }

  predicate Trimmed(s: Bytes) {
    s != [] && LeadSpace(s) == 0 && TailSpace(s) == 0
  }

  function EncodeValue(v: Value): Bytes {
    match v
    case Symbolic(target) => SYM_PREFIX + target + [NEWLINE]
    case Direct(width, h) => Hex(PutNat(h, width)) + [NEWLINE]
  }

  function DecodeValue(text: Bytes): Option<Value> {
    var s := TrimSpace(text);
    if SYM_PREFIX <= s then Some(Symbolic(TrimSpace(s[|SYM_PREFIX|..])))
    else
      var b := FromHex(s);
      if b.None? || (|b.value| != 20 && |b.value| != 32) then None else Some(Direct(|b.value|, GetNat(b.value)))
  }

  /** A value that text can hold: a hash of its width, or a target on one line without surrounding space. */
  predicate Writable(v: Value) {
    match v
    case Symbolic(target) => Trimmed(target) && NEWLINE !in target
    case Direct(width, h) => (width == 20 || width == 32) && h < Pow256(width)
  }

  /** The value's text without its newline. */
  function Text(v: Value): Bytes {
    match v
    case Symbolic(target) => SYM_PREFIX + target
    case Direct(width, h) => Hex(PutNat(h, width))
  }

  lemma DecodeText(v: Value)
    requires Writable(v)
    ensures NEWLINE !in Text(v) && DecodeValue(Text(v)) == Some(v)
  {
    hide TrimSpace, Trimmed, Hex, FromHex;
    match v
    case Symbolic(target) =>
      var s := Text(v);
      assert s[|SYM_PREFIX|..] == target;
      PrefixedIsTrimmed(target);
      TrimmedStays(s);
      TrimmedStays(target);
    case Direct(width, h) =>
      var b := PutNat(h, width);
      var s := Hex(b);
      FromHexOfHex(b);
      GetPutNat(h, width);
      HexIsTrimmed(s);
      TrimmedStays(s);
      assert HexValue(s[0]).Some?;
      assert s[0] != SYM_PREFIX[0];
  }

  /** What a ref's value is written as reads back: the newline goes. */
  lemma DecodeEncodedValue(v: Value)
    requires Writable(v)
    ensures DecodeValue(EncodeValue(v)) == Some(v)
  {
    hide TrimSpace, Trimmed, Hex, FromHex, Writable;
    var s := Text(v);
    DecodeText(v);
    TextIsTrimmed(v);
    TrimmedStays(s);
    NewlineGoes(s);
    assert EncodeValue(v) == s + [NEWLINE];
  }

  lemma TextIsTrimmed(v: Value)
    requires Writable(v)
    ensures Trimmed(Text(v))
  {
    hide Trimmed, Hex;
    match v
    case Symbolic(target) => PrefixedIsTrimmed(target);
    case Direct(width, h) => HexIsTrimmed(Hex(PutNat(h, width)));
  }

  lemma NewlineGoes(s: Bytes)
    requires Trimmed(s)
    ensures TrimSpace(s + [NEWLINE]) == s
  {
    hide IsWideSpace;
    var line := s + [NEWLINE];
    if |s| == 1 {
      NarrowEnd(line[..2]);
    } else if |s| == 2 {
      NarrowEnd(line[..3]);
    }
    assert |s| >= 2 ==> line[..2] == s[..2];
    assert |s| >= 3 ==> line[..3] == s[..3];
    assert TrimLeft(line) == line;
    assert line[..|line| - 1] == s;
    assert TrimRight(line) == TrimRight(s) == s;
  }

  /** No wide space ends in a newline. */
  lemma NarrowEnd(s: Bytes)
    requires s != [] && s[|s| - 1] == NEWLINE
    ensures !IsWideSpace(s)
  {
  }

  lemma PrefixedIsTrimmed(target: Bytes)
    requires Trimmed(target)
    ensures Trimmed(SYM_PREFIX + target)
  {
    AsciiPrefix(SYM_PREFIX, target);
  }

  /** An ASCII text in front neither is trimmed nor makes the rest be. */
  lemma AsciiPrefix(p: Bytes, target: Bytes)
    requires Trimmed(target) && p != [] && !IsSpace(p[0]) && forall i :: 0 <= i < |p| ==> p[i] < 128
    ensures Trimmed(p + target)
  {
    hide IsWideSpace;
    var s := p + target;
    assert s[0] == p[0] && s[|s| - 1] == target[|target| - 1];
    if |s| >= 2 {
      NarrowStart(s[..2]);
      TailStays(p, target, 2);
    }
    if |s| >= 3 {
      NarrowStart(s[..3]);
      TailStays(p, target, 3);
    }
  }

  lemma TailStays(p: Bytes, target: Bytes, j: nat)
    requires 0 < j <= |p| + |target| && (forall i :: 0 <= i < |p| ==> p[i] < 128)
    requires |target| >= j ==> !IsWideSpace(target[|target| - j..])
    ensures !IsWideSpace((p + target)[|p| + |target| - j..])
  {
    hide IsWideSpace;
    var s := p + target;
    var tail := s[|s| - j..];
    if |target| >= j {
      assert tail == target[|target| - j..];
    } else {
      assert tail[0] == p[|s| - j];
      NarrowStart(tail);
    }
  }

  /** Only bytes outside ASCII start a wide space. */
  lemma NarrowStart(s: Bytes)
    requires s != [] && s[0] < 128
    ensures !IsWideSpace(s)
  {
  }

  /** Hex digits are ASCII and no space. */
  lemma HexIsTrimmed(s: Bytes)
    requires |s| >= 3 && forall i :: 0 <= i < |s| ==> HexValue(s[i]).Some?
    ensures Trimmed(s) && NEWLINE !in s
  {
    hide IsWideSpace;
    var n := |s|;
    assert HexValue(s[0]).Some? && HexValue(s[n - 1]).Some? && HexValue(s[n - 2]).Some? && HexValue(s[n - 3]).Some?;
    NarrowStart(s[..2]);
    NarrowStart(s[..3]);
    NarrowStart(s[n - 2..]);
    NarrowStart(s[n - 3..]);
  }

  lemma TrimmedStays(s: Bytes)
    requires Trimmed(s)
    ensures TrimSpace(s) == s
  {
  }

  // The lines of the body.

  function Line(name: Bytes, v: Value): Bytes {
    name + [TAB] + EncodeValue(v)
  }

  function Lines(names: seq<Bytes>, refs: RefMap): Bytes
    requires forall n <- names :: n in refs
  {
    if names == [] then [] else Line(names[0], refs[names[0]]) + Lines(names[1..], refs)
  }

  /** The place of the first `x`, or the length. */
  function IndexOf(s: Bytes, x: byte): (i: nat)
    ensures i <= |s| && x !in s[..i] && (i < |s| ==> s[i] == x)
  {
    if s == [] || s[0] == x then 0
    else
      assert forall k :: 0 <= k < 1 + IndexOf(s[1..], x) ==> s[k] == if k == 0 then s[0] else s[1..][k - 1];
      1 + IndexOf(s[1..], x)
  }

  lemma {:induction false} IndexOfIs(a: Bytes, x: byte, rest: Bytes)
    requires x !in a
    ensures IndexOf(a + [x] + rest, x) == |a|
  {
    var s := a + [x] + rest;
    if a != [] {
      assert s[0] == a[0];
      assert s[1..] == a[1..] + [x] + rest;
      IndexOfIs(a[1..], x, rest);
    }
  }

  /** One ref read off the front of the body, and what is left. */
  datatype Step = Step(name: Bytes, value: Value, rest: Bytes)

  function ReadLine(body: Bytes): (r: Option<Step>)
    ensures r.Some? ==> |r.value.rest| < |body|
  {
    var end := IndexOf(body, NEWLINE);
    if end == |body| then None
    else
      var line := body[..end];
      var tab := IndexOf(line, TAB);
      if tab == |line| then None
      else
        var v := DecodeValue(line[tab + 1..]);
        if v.None? then None else Some(Step(line[..tab], v.value, body[end + 1..]))
  }

  /** The refs of the body on top of those read before. */
  function ReadLines(body: Bytes, seen: RefMap): Option<RefMap>
    decreases |body|
  {
    if body == [] then Some(seen)
    else
      var s := ReadLine(body);
      if s.None? then None else ReadLines(s.value.rest, seen[s.value.name := s.value.value])
  }

  predicate GoodName(name: Bytes) {
    TAB !in name && NEWLINE !in name
  }

  predicate AllWritable(refs: RefMap) {
    forall n <- refs :: GoodName(n) && Writable(refs[n])
  }

  lemma ReadWrittenLine(name: Bytes, v: Value, rest: Bytes)
    requires GoodName(name) && Writable(v)
    ensures ReadLine(Line(name, v) + rest) == Some(Step(name, v, rest))
  {
    hide DecodeValue, Writable;
    DecodeText(v);
    var line := name + [TAB] + Text(v);
    var body := Line(name, v) + rest;
    assert EncodeValue(v) == Text(v) + [NEWLINE];
    assert body == line + [NEWLINE] + rest;
    IndexOfIs(line, NEWLINE, rest);
    IndexOfIs(name, TAB, Text(v));
    assert body[..|line|] == line && body[|line| + 1..] == rest;
    assert line[..|name|] == name && line[|name| + 1..] == Text(v);
  }

  function Only(refs: RefMap, names: seq<Bytes>): RefMap {
    map n | n in refs && n in names :: refs[n]
  }

  lemma {:induction false} ReadWrittenLines(names: seq<Bytes>, refs: RefMap, seen: RefMap)
    requires AllWritable(refs) && forall n <- names :: n in refs
    ensures ReadLines(Lines(names, refs), seen) == Some(seen + Only(refs, names))
    decreases |names|
  {
    hide ReadLine, Line, Writable;
    if names == [] {
      assert seen + Only(refs, names) == seen;
    } else {
      var n, rest := names[0], names[1..];
      ReadWrittenLine(n, refs[n], Lines(rest, refs));
      LineIsNotEmpty(n, refs[n]);
      ReadWrittenLines(rest, refs, seen[n := refs[n]]);
      assert seen + Only(refs, names) == seen[n := refs[n]] + Only(refs, rest);
    }
  }

  lemma LineIsNotEmpty(name: Bytes, v: Value)
    ensures Line(name, v) != []
  {
  }

  // Names in byte order, so that one set of refs has one encoding.

  predicate Less(a: Bytes, b: Bytes) {
    b != [] && (a == [] || a[0] < b[0] || (a[0] == b[0] && Less(a[1..], b[1..])))
  }

  lemma {:induction false} LessIsTotal(a: Bytes, b: Bytes)
    ensures a == b || Less(a, b) || Less(b, a)
    ensures !(Less(a, b) && Less(b, a)) && (Less(a, b) ==> a != b)
  {
    if a != [] && b != [] {
      LessIsTotal(a[1..], b[1..]);
      assert a == [a[0]] + a[1..] && b == [b[0]] + b[1..];
    }
  }

  lemma {:induction false} LessIsTransitive(a: Bytes, b: Bytes, c: Bytes)
    requires Less(a, b) && Less(b, c)
    ensures Less(a, c)
  {
    if a != [] && b[0] == c[0] && a[0] == b[0] {
      LessIsTransitive(a[1..], b[1..], c[1..]);
    }
  }

  ghost predicate Ordered(names: seq<Bytes>) {
    forall i, j :: 0 <= i < j < |names| ==> Less(names[i], names[j])
  }

  function Names(s: seq<Bytes>): set<Bytes> {
    set n | n in s
  }

  /** The order of a set of names is its own. */
  lemma {:induction false} OrderIsUnique(a: seq<Bytes>, b: seq<Bytes>)
    requires Ordered(a) && Ordered(b) && Names(a) == Names(b)
    ensures a == b
    decreases |a|
  {
    OrderedCount(a);
    OrderedCount(b);
    if a != [] {
      FirstIsLeast(a, b);
      FirstIsLeast(b, a);
      LessIsTotal(a[0], b[0]);
      RestNames(a);
      RestNames(b);
      OrderIsUnique(a[1..], b[1..]);
    }
  }

  lemma FirstIsLeast(a: seq<Bytes>, b: seq<Bytes>)
    requires Ordered(a) && a != [] && b != [] && Names(a) == Names(b)
    ensures a[0] == b[0] || Less(a[0], b[0])
  {
    assert b[0] in Names(b);
    var i :| 0 <= i < |a| && a[i] == b[0];
  }

  lemma RestNames(a: seq<Bytes>)
    requires Ordered(a) && a != []
    ensures Ordered(a[1..]) && Names(a[1..]) == Names(a) - {a[0]}
  {
    forall n <- a[1..] ensures n != a[0] {
      var i :| 0 <= i < |a[1..]| && a[1..][i] == n;
      LessIsTotal(a[0], a[i + 1]);
    }
    assert a == [a[0]] + a[1..];
  }

  // The whole object.

  function Header(codec: nat, count: nat): (h: Bytes)
    requires codec < 256
    ensures |h| == HEADER_LEN
  {
    [79, 71, 82, 1, codec as byte] + PutNat(count, 4) + [0, 0, 0, 0, 0, 0, 0]
  }

  /** The object for refs whose names are given in order. The count wraps at 32 bits. */
  function Encoded(c: Codec, names: seq<Bytes>, refs: RefMap): Bytes
    requires forall n <- names :: n in refs
  {
    var (body, compressed) := CompressBlock(c, Lines(names, refs));
    Header(if compressed then CODEC_ZSTD else CODEC_RAW, |names|) + body
  }

  function BodyOf(c: Codec, b: Bytes): Option<Bytes>
    requires |b| >= HEADER_LEN
  {
    if b[4] as nat == CODEC_RAW then Some(b[HEADER_LEN..])
    else if b[4] as nat == CODEC_ZSTD then c.dec(b[HEADER_LEN..])
    else None
  }

  const TWO_32: nat := 0x1_0000_0000

  /** The refs of an object, or None when it is malformed. */
  function Decoded(c: Codec, b: Bytes): Option<RefMap> {
    if |b| < HEADER_LEN || b[..3] != [79, 71, 82] || b[3] != 1 || BodyOf(c, b).None? then None
    else
      var refs := ReadLines(BodyOf(c, b).value, map[]);
      if refs.None? || |refs.value| % TWO_32 != GetNat(b[5..9]) then None else refs
  }

  lemma HeaderParts(codec: nat, count: nat, body: Bytes)
    requires codec < 256
    ensures var b := Header(codec, count) + body;
            b[..3] == [79, 71, 82] && b[3] == 1 && b[4] as nat == codec && GetNat(b[5..9]) == count % TWO_32 && b[HEADER_LEN..] == body
  {
    var b := Header(codec, count) + body;
    assert b[5..9] == PutNat(count, 4);
    GetPut32(count);
  }

  /** Reading back the lines of some names in order gives the refs of those names. */
  lemma ReadOrdered(names: seq<Bytes>, refs: RefMap)
    requires AllWritable(refs) && Ordered(names) && forall n <- names :: n in refs
    ensures ReadLines(Lines(names, refs), map[]) == Some(Only(refs, names)) && |Only(refs, names)| == |names|
  {
    hide Lines, ReadLines, AllWritable;
    ReadWrittenLines(names, refs, map[]);
    OrderedCount(names);
    var m := Only(refs, names);
    assert map[] + m == m;
    assert m.Keys == Names(names) && |m| == |m.Keys|;
  }

  lemma DecodedIs(c: Codec, codec: nat, count: nat, body: Bytes, plain: Bytes, refs: RefMap)
    requires (codec == CODEC_RAW && plain == body) || (codec == CODEC_ZSTD && c.dec(body) == Some(plain))
    requires ReadLines(plain, map[]) == Some(refs)
    ensures Decoded(c, Header(codec, count) + body) == if |refs| % TWO_32 == count % TWO_32 then Some(refs) else None
  {
    hide Header, ReadLines;
    HeaderParts(codec, count, body);
  }

  /** The refs of any map of writable refs come back. */
  lemma DecodeEncoded(c: Codec, names: seq<Bytes>, refs: RefMap)
    requires LawfulCodec(c) && AllWritable(refs) && Ordered(names) && Names(names) == refs.Keys
    ensures Decoded(c, Encoded(c, names, refs)) == Some(refs)
  {
    hide Header, Lines, ReadLines, Decoded, AllWritable, Ordered;
    assert forall n <- names :: n in Names(names);
    ReadOrdered(names, refs);
    assert Only(refs, names) == refs;
    var (body, compressed) := CompressBlock(c, Lines(names, refs));
    DecodedIs(c, if compressed then CODEC_ZSTD else CODEC_RAW, |names|, body, Lines(names, refs), refs);
  }

  lemma {:induction false} OrderedCount(names: seq<Bytes>)
    requires Ordered(names)
    ensures |Names(names)| == |names|
  {
    hide Ordered;
    if names != [] {
      RestNames(names);
      OrderedCount(names[1..]);
      assert names[0] in Names(names);
    }
  }

  /** A raw body cut after `k` of its lines is refused, exactly when the count tells: always, but for
      a cut by a multiple of 2^32 lines. */
  lemma CutBodyIsRefused(c: Codec, names: seq<Bytes>, refs: RefMap, k: nat)
    requires AllWritable(refs) && Ordered(names) && (forall n <- names :: n in refs) && k <= |names|
    ensures forall n <- names[..k] :: n in refs
    ensures Decoded(c, Header(CODEC_RAW, |names|) + Lines(names[..k], refs)) == None <==> (|names| - k) % TWO_32 != 0
  {
    hide Header, Lines, ReadLines, Decoded, AllWritable;
    var kept := names[..k];
    assert forall n <- kept :: n in names;
    ReadOrdered(kept, refs);
    DecodedIs(c, CODEC_RAW, |names|, Lines(kept, refs), Lines(kept, refs), Only(refs, kept));
    WrappedEqual(|names|, k);
  }

  lemma WrappedEqual(n: nat, k: nat)
    requires k <= n
    ensures n % TWO_32 == k % TWO_32 <==> (n - k) % TWO_32 == 0
  {
  }

  // The writer and the reader, as loops over the body.

  /** The names of a map in byte order, by insertion. */
  method SortNames(refs: RefMap) returns (names: seq<Bytes>)
    ensures Ordered(names) && Names(names) == refs.Keys
  {
    hide Ordered;
    names := [];
    OrderedEmpty();
    var left := refs.Keys;
    while left != {}
      invariant left <= refs.Keys && Ordered(names) && Names(names) == refs.Keys - left
      decreases left
    {
      var n :| n in left;
      left := left - {n};
      names := InsertName(names, n);
    }
  }

  lemma OrderedEmpty()
    ensures Ordered([])
  {
  }

  method InsertName(names: seq<Bytes>, n: Bytes) returns (out: seq<Bytes>)
    requires Ordered(names) && n !in Names(names)
    ensures Ordered(out) && Names(out) == Names(names) + {n}
  {
    hide Ordered, Less;
    var k := |names|;
    while k > 0 && Less(n, names[k - 1])
      invariant 0 <= k <= |names|
      invariant k < |names| ==> Less(n, names[k])
    {
      k := k - 1;
    }
    if k > 0 {
      assert names[k - 1] in Names(names);
      LessIsTotal(n, names[k - 1]);
    }
    Inserted(names, n, k);
    assert names == names[..k] + names[k..];
    out := names[..k] + [n] + names[k..];
  }

  lemma Inserted(names: seq<Bytes>, n: Bytes, k: nat)
    requires Ordered(names) && k <= |names| && (k < |names| ==> Less(n, names[k])) && (k > 0 ==> Less(names[k - 1], n))
    ensures Ordered(names[..k] + [n] + names[k..])
  {
    hide Less;
    var out := names[..k] + [n] + names[k..];
    forall i, j | 0 <= i < j < |out| ensures Less(out[i], out[j]) {
      if j == k && i < k - 1 {
        LessIsTransitive(names[i], names[k - 1], n);
      } else if i == k && j > k + 1 {
        LessIsTransitive(n, names[k], names[j - 1]);
      }
    }
  }

  ghost predicate IsEncoding(c: Codec, names: seq<Bytes>, refs: RefMap, b: Bytes) {
    (forall n <- names :: n in refs) && b == Encoded(c, names, refs)
  }

  /** Writes the object. The bytes depend on nothing but the refs, and decode to them. */
  method EncodePackedRefs(c: Codec, refs: RefMap) returns (b: Bytes)
    ensures forall names :: Ordered(names) && Names(names) == refs.Keys ==> IsEncoding(c, names, refs, b)
    ensures LawfulCodec(c) && AllWritable(refs) ==> Decoded(c, b) == Some(refs)
  {
    hide Ordered, Line, Header, CompressBlock, Decoded, AllWritable, LawfulCodec;
    var order := SortNames(refs);
    assert forall n <- order :: n in Names(order);
    var body: Bytes := [];
    for i := 0 to |order|
      invariant body + Lines(order[i..], refs) == Lines(order, refs)
    {
      assert order[i..][1..] == order[i + 1..] && order[i] in order;
      body := body + Line(order[i], refs[order[i]]);
    }
    assert body + [] == body;
    var (stored, compressed) := CompressBlock(c, body);
    b := Header(if compressed then CODEC_ZSTD else CODEC_RAW, |order|) + stored;
    forall names | Ordered(names) && Names(names) == refs.Keys ensures IsEncoding(c, names, refs, b) {
      OneEncoding(c, order, names, refs);
    }
    if LawfulCodec(c) && AllWritable(refs) {
      DecodeEncoded(c, order, refs);
    }
  }

  /** Two writers of the same refs write the same bytes. */
  lemma OneEncoding(c: Codec, a: seq<Bytes>, b: seq<Bytes>, refs: RefMap)
    requires Ordered(a) && Ordered(b) && Names(a) == Names(b) == refs.Keys
    ensures (forall n <- a :: n in refs) && (forall n <- b :: n in refs) && Encoded(c, a, refs) == Encoded(c, b, refs)
  {
    OrderIsUnique(a, b);
    assert forall n <- a :: n in Names(a);
  }

  method DecodePackedRefs(c: Codec, b: Bytes) returns (r: Option<RefMap>)
    ensures r == Decoded(c, b)
  {
    hide ReadLine;
    if |b| < HEADER_LEN || b[..3] != [79, 71, 82] || b[3] != 1 {
      return None;
    }
    var plain := BodyOf(c, b);
    if plain.None? {
      return None;
    }
    var body, refs := plain.value, map[];
    while body != []
      invariant ReadLines(plain.value, map[]) == ReadLines(body, refs)
      decreases |body|
    {
      var s := ReadLine(body);
      if s.None? {
        return None;
      }
      body, refs := s.value.rest, refs[s.value.name := s.value.value];
    }
    if |refs| % TWO_32 != GetNat(b[5..9]) {
      return None;
    }
    r := Some(refs);
  }
}
