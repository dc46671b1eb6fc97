/** A container under construction: payloads go in one after another, compressed when that pays,
    and every record's span decodes to the payload it was made from. */
module PackWriter {
  import opened Prelude
  import opened PackTable
  import opened PackIndex

  const CODEC_RAW: nat := 0
  const CODEC_ZSTD: nat := 1
  const COMPRESSION_FLOOR: nat := 2048
  const MIN_GAIN_BYTES: nat := 64
  const PROBE_MIN_GAIN_RATIO: nat := 32

  /** The compressor: its one-shot and its streaming form, and the decompressor of both. */
  datatype Codec = Codec(enc: Bytes -> Bytes, stream: Bytes -> Bytes, dec: Bytes -> Option<Bytes>)

  ghost predicate LawfulCodec(c: Codec) {
    && (forall b :: c.dec(c.enc(b)) == Some(b) && |c.enc(b)| > 0)
    && (forall b :: c.dec(c.stream(b)) == Some(b) && |c.stream(b)| > 0)
  }

  /** Whether payloads are compressed, up to which size the choice is made exactly, and how much of
      a larger payload is tried. */
  datatype Policy = Policy(codec: Codec, compression: bool, inMemoryCap: nat, probeWindow: nat)

  predicate WorthStoring(compressed: nat, raw: nat) {
    compressed + MIN_GAIN_BYTES <= raw
  }

  predicate ProbeWins(compressed: nat, head: nat) {
    head != 0 && compressed <= head - head / PROBE_MIN_GAIN_RATIO
  }

  /** The compressed form when it is worth storing, and whether it was chosen. */
  function CompressBlock(c: Codec, b: Bytes): (Bytes, bool) {
    if b == [] || !WorthStoring(|c.enc(b)|, |b|) then (b, false) else (c.enc(b), true)
  }

  /** What a payload's stored bytes say, read as the reader does: nothing stored is the empty payload. */
  function DecodePayload(c: Codec, codec: nat, stored: Bytes): Option<Bytes> {
    if stored == [] then Some([])
    else if codec == CODEC_RAW then Some(stored)
    else c.dec(stored)
  }

  /** `bytes`, marked with `codec`, can stand for `payload` in a container. */
  ghost predicate Encodes(c: Codec, codec: nat, bytes: Bytes, payload: Bytes) {
    && ((codec == CODEC_RAW && bytes == payload) || (codec == CODEC_ZSTD && WorthStoring(|bytes|, |payload|)))
    && DecodePayload(c, codec, bytes) == Some(payload)
  }

  /** The codec a payload is stored with: raw below 2048 bytes; up to the exact limit compressed when
      that saves at least 64 bytes; above it compressed when the head window shrinks by a 32nd and the
      whole saves at least 64 bytes too. */
  ghost predicate RightCodec(p: Policy, payload: Bytes, codec: nat) {
    var head := if p.probeWindow < |payload| then payload[..p.probeWindow] else payload;
    && (codec == CODEC_RAW || codec == CODEC_ZSTD)
    && (!p.compression || |payload| < 2048 ==> codec == CODEC_RAW)
    && (p.compression && 2048 <= |payload| <= p.inMemoryCap ==> (codec == CODEC_ZSTD <==> |p.codec.enc(payload)| + 64 <= |payload|))
    && (p.compression && 2048 <= |payload| && p.inMemoryCap < |payload| ==>
          (codec == CODEC_ZSTD <==> head != [] && |p.codec.enc(head)| <= |head| - |head| / 32 && |p.codec.stream(payload)| + 64 <= |payload|))
  }

  /** The bytes of a span. */
  function Cut(data: Bytes, span: Span): Option<Bytes> {
    if span.offset + span.stored <= |data| then Some(data[span.offset..span.offset + span.stored]) else None
  }

  /** Record `i` starts where the one before it ends. */
  function EndOf(recs: seq<CueRecord>): nat {
    if recs == [] then 0 else recs[|recs| - 1].span.offset + recs[|recs| - 1].span.stored
  }

  /** The records tile the data, and each span decodes to its payload and is no larger than it. */
  ghost predicate Holds(c: Codec, recs: seq<CueRecord>, payloads: seq<Bytes>, data: Bytes) {
    && |payloads| == |recs| && EndOf(recs) == |data|
    && (forall i :: 0 <= i < |recs| ==> recs[i].span.offset == EndOf(recs[..i]))
    && (forall i :: 0 <= i < |recs| ==> SpanHolds(c, recs[i].span, payloads[i], data))
  }

  ghost predicate SpanHolds(c: Codec, span: Span, payload: Bytes, data: Bytes) {
    var b := Cut(data, span);
    b.Some? && Encodes(c, span.codec, b.value, payload)
  }

  lemma HoldsNext(c: Codec, recs: seq<CueRecord>, payloads: seq<Bytes>, data: Bytes, r: CueRecord, payload: Bytes, bytes: Bytes)
    requires Holds(c, recs, payloads, data) && Encodes(c, r.span.codec, bytes, payload)
    requires r.span.offset == |data| && r.span.stored == |bytes|
    ensures Holds(c, recs + [r], payloads + [payload], data + bytes)
  {
    hide Encodes, SpanHolds;
    var recs', payloads', data' := recs + [r], payloads + [payload], data + bytes;
    LastSpanHolds(c, r.span, payload, data, bytes);
    forall i | 0 <= i < |recs'| ensures recs'[i].span.offset == EndOf(recs'[..i]) {
      assert recs'[..i] == if i < |recs| then recs[..i] else recs;
    }
    forall i | 0 <= i < |recs'| ensures SpanHolds(c, recs'[i].span, payloads'[i], data') {
      if i < |recs| {
        SpanStays(c, recs[i].span, payloads[i], data, bytes);
      }
    }
  }

  lemma SpanStays(c: Codec, s: Span, payload: Bytes, data: Bytes, bytes: Bytes)
    requires SpanHolds(c, s, payload, data)
    ensures SpanHolds(c, s, payload, data + bytes)
  {
    assert (data + bytes)[s.offset..s.offset + s.stored] == data[s.offset..s.offset + s.stored];
  }

  lemma LastSpanHolds(c: Codec, s: Span, payload: Bytes, data: Bytes, bytes: Bytes)
    requires Encodes(c, s.codec, bytes, payload) && s.offset == |data| && s.stored == |bytes|
    ensures SpanHolds(c, s, payload, data + bytes)
  {
    assert (data + bytes)[|data|..|data| + |bytes|] == bytes;
  }

  /** What a stored object is: the payload to write, and the identity it rebuilds. */
  datatype Stored = Stored(payload: Bytes, hash: Hash, typ: int, raw: nat, base: Hash)
  {
    /** Its record, but for where and how the payload is stored. */
    ghost function Record(): CueRecord {
      CueRecord(hash, Span(typ, CODEC_RAW, 0, 0, raw), base)
    }
  }

  /** The staging file of one container and the records of what is in it. `payloads` is what was
      given to Add. */
  class Segment {
    const policy: Policy
    const steady: bool
    var recs: seq<CueRecord>
    var data: Bytes
    var offset: nat
    var written: nat
    ghost var payloads: seq<Bytes>

    ghost predicate Valid()
      reads this
    {
      offset == written == |data| && Holds(policy.codec, recs, payloads, data)
    }

    constructor (policy: Policy, steady: bool)
      ensures this.policy == policy && this.steady == steady && Valid() && recs == [] && payloads == [] && offset == 0
    {
      this.policy, this.steady := policy, steady;
      recs, data, offset, written, payloads := [], [], 0, 0, [];
    }

    /** Appends bytes. A failed write may leave a part of them behind; on a steady disk none fails. */
    method Write(p: Bytes) returns (ok: bool)
      requires written == |data|
      modifies this`data, this`written
      ensures (ok ==> data == old(data) + p) && (steady ==> ok)
      ensures written == |data| && old(data) <= data
    {
      var lucky: bool := *;
      ok := lucky || steady;
      var n := |p|;
      if !ok {
        n :| 0 <= n <= |p|;
      }
      data := data + p[..n];
      written := written + n;
    }

    /** Discards what the current object wrote. */
    method Rewind() returns (ok: bool)
      requires offset <= |data|
      modifies this`data, this`written
      ensures (ok ==> data == old(data)[..offset] && written == offset) && (steady ==> ok)
      ensures !ok ==> data == old(data) && old(data) <= data
    {
      var lucky: bool := *;
      ok := lucky || steady;
      if ok {
        written := offset;
        data := data[..offset];
      }
    }

    /** Writes one payload in the form the policy picks by size: raw below the floor, the smaller form
        up to the exact limit, and by trying a head window above it. */
    method WritePayload(payload: Bytes) returns (ok: bool, codec: nat, storedN: nat)
      requires LawfulCodec(policy.codec) && offset == written == |data|
      modifies this`data, this`written
      ensures ok ==> written == |data| && Appended(policy.codec, old(data), data, codec, storedN, payload)
      ensures ok ==> RightCodec(policy, payload, codec)
      ensures steady ==> ok
    {
      if !policy.compression || |payload| < COMPRESSION_FLOOR {
        ok := Write(payload);
        RawAppended(policy.codec, old(data), payload);
        return ok, CODEC_RAW, |payload|;
      }
      if |payload| <= policy.inMemoryCap {
        var (body, compressed) := CompressBlock(policy.codec, payload);
        RawAppended(policy.codec, old(data), payload);
        EncAppended(policy.codec, old(data), policy.codec.enc(payload), payload);
        ok := Write(body);
        return ok, if compressed then CODEC_ZSTD else CODEC_RAW, |body|;
      }
      ok, codec, storedN := WriteProbed(payload);
    }

    /** Compresses a head window to decide, and then checks the decision against the whole payload:
        a compressed form that does not pay is discarded and the payload is stored raw. */
    method WriteProbed(payload: Bytes) returns (ok: bool, codec: nat, storedN: nat)
      requires LawfulCodec(policy.codec) && offset == written == |data|
      requires policy.compression && COMPRESSION_FLOOR <= |payload| && policy.inMemoryCap < |payload|
      modifies this`data, this`written
      ensures ok ==> written == |data| && Appended(policy.codec, old(data), data, codec, storedN, payload)
      ensures ok ==> RightCodec(policy, payload, codec)
      ensures steady ==> ok
    {
      RawAppended(policy.codec, old(data), payload);
      var head := if policy.probeWindow < |payload| then payload[..policy.probeWindow] else payload;
      if !ProbeWins(|policy.codec.enc(head)|, |head|) {
        ok := Write(payload);
        return ok, CODEC_RAW, |payload|;
      }
      var before := written;
      var out := policy.codec.stream(payload);
      EncAppended(policy.codec, old(data), out, payload);
      ok := Write(out);
      if !ok {
        return false, 0, 0;
      }
      storedN := written - before;
      if WorthStoring(storedN, |payload|) {
        return true, CODEC_ZSTD, storedN;
      }
      ok := Rewind();
      if !ok {
        return false, 0, 0;
      }
      ok := Write(payload);
      return ok, CODEC_RAW, |payload|;
    }

    /** Adds one object. The data grows by its stored form, which is never larger than its payload. */
    method Add(so: Stored) returns (ok: bool)
      requires LawfulCodec(policy.codec) && Valid()
      modifies this
      ensures ok ==> Valid() && |recs| == |old(recs)| + 1
      ensures ok ==> var r := recs[|old(recs)|];
                     && recs == old(recs) + [r] && payloads == old(payloads) + [so.payload]
                     && r.hash == so.hash && r.base == so.base && r.span.typ == so.typ && r.span.raw == so.raw
                     && offset == old(offset) + r.span.stored && r.span.stored <= |so.payload|
                     && RightCodec(policy, so.payload, r.span.codec)
      ensures (!ok ==> recs == old(recs) && payloads == old(payloads)) && (steady ==> ok)
    {
      hide LawfulCodec, Holds, Encodes, RightCodec;
      var codec, storedN;
      ok, codec, storedN := WritePayload(so.payload);
      if ok {
        var r := CueRecord(so.hash, Span(so.typ, codec, offset, storedN, so.raw), so.base);
        ghost var bytes := data[|old(data)|..];
        AppendedMeans(policy.codec, old(data), data, codec, storedN, so.payload);
        HoldsNext(policy.codec, recs, payloads, old(data), r, so.payload, bytes);
        recs := recs + [r];
        payloads := payloads + [so.payload];
        offset := offset + storedN;
      }
    }
  }

  /** The data grew by a stored form of `payload`. */
  ghost predicate Appended(c: Codec, data: Bytes, data': Bytes, codec: nat, n: nat, payload: Bytes) {
    data <= data' && |data'| == |data| + n && Encodes(c, codec, data'[|data|..], payload)
  }

  lemma AppendedMeans(c: Codec, data: Bytes, data': Bytes, codec: nat, n: nat, payload: Bytes)
    requires Appended(c, data, data', codec, n, payload)
    ensures |data| <= |data'|
    ensures var bytes := data'[|data|..];
            data' == data + bytes && |bytes| == n <= |payload| && Encodes(c, codec, bytes, payload)
  {
  }

  lemma RawAppended(c: Codec, data: Bytes, payload: Bytes)
    ensures Appended(c, data, data + payload, CODEC_RAW, |payload|, payload)
  {
    assert (data + payload)[|data|..] == payload;
  }

  lemma EncAppended(c: Codec, data: Bytes, out: Bytes, payload: Bytes)
    requires LawfulCodec(c) && (out == c.enc(payload) || out == c.stream(payload))
    ensures WorthStoring(|out|, |payload|) ==> Appended(c, data, data + out, CODEC_ZSTD, |out|, payload)
  {
    assert (data + out)[|data|..] == out;
  }
}
