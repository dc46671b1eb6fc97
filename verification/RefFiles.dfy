/** Which objects the packed-refs reader accepts: exactly those whose body is lines of a name, a tab
    and a value, as many different names as the header counts. */
module RefFiles {
  import opened Prelude
  import opened Wire
  import opened PackWriter
  import opened PackedRefs

  /** A line's name, and the text of its value. */
  datatype Fields = Fields(name: Bytes, text: Bytes)

  /** The name ends at the first tab, the line at the first newline, and the text is a value. */
  ghost predicate IsLine(f: Fields) {
    TAB !in f.name && NEWLINE !in f.name && NEWLINE !in f.text && DecodeValue(f.text).Some?
  }

  ghost predicate AreLines(fs: seq<Fields>) {
    forall i :: 0 <= i < |fs| ==> IsLine(fs[i])
  }

  ghost function LineOf(f: Fields): Bytes {
    f.name + [TAB] + f.text + [NEWLINE]
  }

  ghost function Joined(fs: seq<Fields>): Bytes {
    if fs == [] then [] else LineOf(fs[0]) + Joined(fs[1..])
  }

  /** A name that is repeated has its last value. */
  ghost function RefsOf(fs: seq<Fields>, seen: RefMap): RefMap
    requires AreLines(fs)
  {
    if fs == [] then seen
    else
      assert IsLine(fs[0]);
      RefsOf(fs[1..], seen[fs[0].name := DecodeValue(fs[0].text).value])
  }

  lemma LineReads(f: Fields, rest: Bytes)
    requires IsLine(f)
    ensures ReadLine(LineOf(f) + rest) == Some(Step(f.name, DecodeValue(f.text).value, rest))
  {
    hide DecodeValue;
    var line := f.name + [TAB] + f.text;
    var body := LineOf(f) + rest;
    assert body == line + [NEWLINE] + rest;
    IndexOfIs(line, NEWLINE, rest);
    IndexOfIs(f.name, TAB, f.text);
    assert body[..|line|] == line && body[|line| + 1..] == rest;
    assert line[..|f.name|] == f.name && line[|f.name| + 1..] == f.text;
  }

  lemma ReadWasLine(body: Bytes) returns (f: Fields)
    requires ReadLine(body).Some?
    ensures IsLine(f) && body == LineOf(f) + ReadLine(body).value.rest
  {
    hide DecodeValue;
    var end := IndexOf(body, NEWLINE);
    var line := body[..end];
    var tab := IndexOf(line, TAB);
    f := Fields(line[..tab], line[tab + 1..]);
    assert line == f.name + [TAB] + f.text;
    assert body == line + [NEWLINE] + body[end + 1..];
    assert forall x <- f.name :: x in line;
    assert forall x <- f.text :: x in line;
  }

  lemma {:induction false} LinesRead(fs: seq<Fields>, seen: RefMap)
    requires AreLines(fs)
    ensures ReadLines(Joined(fs), seen) == Some(RefsOf(fs, seen))
    decreases |fs|
  {
    hide ReadLine, DecodeValue, LineOf;
    if fs != [] {
      assert IsLine(fs[0]);
      LineReads(fs[0], Joined(fs[1..]));
      SomethingRead(LineOf(fs[0]) + Joined(fs[1..]));
      LinesRead(fs[1..], seen[fs[0].name := DecodeValue(fs[0].text).value]);
    }
  }

  lemma SomethingRead(body: Bytes)
    requires ReadLine(body).Some?
    ensures body != []
  {
  }

  lemma {:induction false} ReadWereLines(body: Bytes, seen: RefMap) returns (fs: seq<Fields>)
    requires ReadLines(body, seen).Some?
    ensures AreLines(fs) && body == Joined(fs) && ReadLines(body, seen) == Some(RefsOf(fs, seen))
    decreases |body|
  {
    hide ReadLine, DecodeValue, LineOf;
    if body == [] {
      fs := [];
    } else {
      var f := ReadWasLine(body);
      var s := ReadLine(body).value;
      LineReads(f, s.rest);
      var more := ReadWereLines(s.rest, seen[s.name := s.value]);
      fs := [f] + more;
      assert fs[1..] == more;
    }
  }

  /** The header: magic, version, codec of the body, the count of refs, and no more that is read. */
  ghost predicate IsHeader(b: Bytes, count: nat) {
    |b| >= 16 && b[..3] == [79, 71, 82] && b[3] == 1 && GetNat(b[5..9]) == count % 0x1_0000_0000
  }

  ghost predicate Holds(c: Codec, b: Bytes, refs: RefMap, fs: seq<Fields>) {
    && IsHeader(b, |refs|) && AreLines(fs)
    && BodyOf(c, b) == Some(Joined(fs)) && refs == RefsOf(fs, map[])
  }

  /** An object is accepted, and these refs are returned, if and only if its body is lines of these refs
      and its header counts them. */
  lemma DecodesIff(c: Codec, b: Bytes, refs: RefMap)
    ensures Decoded(c, b) == Some(refs) <==> exists fs :: Holds(c, b, refs, fs)
  {
    hide BodyOf, ReadLines, DecodeValue;
    if Decoded(c, b) == Some(refs) {
      var fs := ReadWereLines(BodyOf(c, b).value, map[]);
      assert Holds(c, b, refs, fs);
    }
    forall fs | Holds(c, b, refs, fs) ensures Decoded(c, b) == Some(refs) {
      LinesRead(fs, map[]);
    }
  }

  // A third field.

  lemma {:induction false} NoHex(s: Bytes, i: nat)
    requires i < |s| && HexValue(s[i]).None?
    ensures FromHex(s) == None
    decreases |s|
  {
    if |s| > 2 && i >= 2 {
      NoHex(s[2..], i - 2);
    }
  }

  /** The text of a value with another field behind it. */
  function Extended(v: Value, peeled: Bytes): Bytes {
    Text(v) + [TAB] + Hex(peeled)
  }

  /** A later version could add the hash of a tag's target as a third field. This one refuses such a
      line for a hash, and takes the field for a part of the target of a symbolic ref. */
  lemma ThirdField(v: Value, peeled: Bytes)
    requires Writable(v) && |peeled| >= 2
    ensures DecodeValue(Extended(v, peeled)) == if v.Direct? then None else Some(Symbolic(v.target + [TAB] + Hex(peeled)))
  {
    hide TrimSpace, Trimmed, Hex, FromHex, DecodeValue, Writable;
    match v
    case Direct(width, h) => HashExtended(v, peeled);
    case Symbolic(target) =>
      TrimmedTarget(target);
      TargetExtended(target, peeled);
  }

  lemma TrimmedTarget(target: Bytes)
    requires Writable(Symbolic(target))
    ensures Trimmed(target)
  {
  }

  lemma HashExtended(v: Value, peeled: Bytes)
    requires Writable(v) && v.Direct? && |peeled| >= 2
    ensures DecodeValue(Extended(v, peeled)) == None
  {
    hide TrimSpace, Trimmed, Hex, FromHex;
    var s, text := Extended(v, peeled), Hex(PutNat(v.hash, v.width));
    TextIsTrimmed(v);
    StaysTrimmed(text, peeled);
    TrimmedStays(s);
    NoHex(s, |text|);
    assert s[0] == text[0] && HexValue(text[0]).Some?;
    assert s[0] != SYM_PREFIX[0];
  }

  lemma TargetExtended(target: Bytes, peeled: Bytes)
    requires Trimmed(target) && |peeled| >= 2
    ensures DecodeValue(Extended(Symbolic(target), peeled)) == Some(Symbolic(target + [TAB] + Hex(peeled)))
  {
    hide Trimmed, Hex, DecodeValue;
    var whole := target + [TAB] + Hex(peeled);
    StaysTrimmed(target, peeled);
    DecodeTarget(whole);
    Regroup(SYM_PREFIX, target, [TAB], Hex(peeled));
  }

  lemma Regroup(a: Bytes, b: Bytes, c: Bytes, d: Bytes)
    ensures (a + b) + c + d == a + (b + c + d)
  {
  }

  lemma DecodeTarget(target: Bytes)
    requires Trimmed(target)
    ensures DecodeValue(SYM_PREFIX + target) == Some(Symbolic(target))
  {
    hide TrimSpace, Trimmed, FromHex;
    var s := SYM_PREFIX + target;
    PrefixedIsTrimmed(target);
    TrimmedStays(s);
    TrimmedStays(target);
    assert s[|SYM_PREFIX|..] == target;
  }

  lemma StaysTrimmed(text: Bytes, peeled: Bytes)
    requires Trimmed(text) && |peeled| >= 2
    ensures Trimmed(text + [TAB] + Hex(peeled))
  {
    hide Trimmed, Hex;
    FieldStaysTrimmed(text, Hex(peeled));
  }

  lemma FieldStaysTrimmed(text: Bytes, h: Bytes)
    requires Trimmed(text) && |h| >= 3 && forall i :: 0 <= i < |h| ==> HexValue(h[i]).Some?
    ensures Trimmed(text + [TAB] + h)
  {
    hide LeadSpace, TailSpace, HexValue;
    EndsInHex(text + [TAB], h);
    StartsLike(text, [TAB] + h);
    assert text + [TAB] + h == text + ([TAB] + h);
  }

  lemma EndsInHex(a: Bytes, tail: Bytes)
    requires |tail| >= 3 && forall i :: 0 <= i < |tail| ==> HexValue(tail[i]).Some?
    ensures TailSpace(a + tail) == 0
  {
    hide IsWideSpace;
    var s := a + tail;
    var n, m := |s|, |tail|;
    assert HexValue(tail[m - 1]).Some? && HexValue(tail[m - 2]).Some? && HexValue(tail[m - 3]).Some?;
    assert s[n - 1] == tail[m - 1] && s[n - 2] == tail[m - 2] && s[n - 3] == tail[m - 3];
    NarrowStart(s[n - 2..]);
    NarrowStart(s[n - 3..]);
  }

  /** What stands behind a trimmed text and starts with an ASCII byte does not make its front a space. */
  lemma StartsLike(s: Bytes, rest: Bytes)
    requires Trimmed(s) && rest != [] && rest[0] < 128
    ensures LeadSpace(s + rest) == 0
  {
    hide IsWideSpace;
    var t := s + rest;
    assert t[0] == s[0];
    if |s| == 1 {
      NotWide(t[..2], 1);
      if |t| >= 3 {
        NotWide(t[..3], 1);
      }
    } else {
      assert t[..2] == s[..2];
      if |s| == 2 {
        NotWide(t[..3], 2);
      } else {
        assert t[..3] == s[..3];
      }
    }
  }

  /** A wide space has no ASCII byte. */
  lemma NotWide(s: Bytes, i: nat)
    requires i < |s| && s[i] < 128
    ensures !IsWideSpace(s)
  {
  }

  // White space around a value.

  /** Tabs, line feeds, vertical tabs, form feeds, carriage returns and spaces. */
  ghost predicate Blank(s: Bytes) {
    forall i :: 0 <= i < |s| ==> 9 <= s[i] <= 13 || s[i] == 32
  }

  lemma {:induction false} BlankFront(p: Bytes, s: Bytes)
    requires Blank(p) && LeadSpace(s) == 0
    ensures TrimLeft(p + s) == s
    decreases |p|
  {
    if p == [] {
      assert p + s == s;
    } else {
      assert (p + s)[0] == p[0] && (p + s)[1..] == p[1..] + s;
      BlankFront(p[1..], s);
    }
  }

  lemma {:induction false} BlankBack(s: Bytes, q: Bytes)
    requires Blank(q) && TailSpace(s) == 0
    ensures TrimRight(s + q) == s
    decreases |q|
  {
    if q == [] {
      assert s + q == s;
    } else {
      var n := |q| - 1;
      assert (s + q)[|s| + n] == q[n] && (s + q)[..|s| + n] == s + q[..n];
      BlankBack(s, q[..n]);
    }
  }

  /** A value decodes with any ASCII white space around it, such as the line end of another system. */
  lemma BlankIsTrimmed(v: Value, p: Bytes, q: Bytes)
    requires Writable(v) && Blank(p) && Blank(q)
    ensures DecodeValue(p + Text(v) + q) == Some(v)
  {
    hide Blank, TrimLeft, TrimRight, LeadSpace, TailSpace, Hex, FromHex, Writable;
    var s := Text(v);
    DecodeText(v);
    TextIsTrimmed(v);
    if q != [] {
      BlankIsAscii(q);
      StartsLike(s, q);
    } else {
      assert s + q == s;
    }
    BlankFront(p, s + q);
    BlankBack(s, q);
    assert p + s + q == p + (s + q);
    TrimmedStays(s);
  }

  lemma BlankIsAscii(q: Bytes)
    requires Blank(q) && q != []
    ensures q[0] < 128
  {
  }
}
