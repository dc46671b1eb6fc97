/** Filling containers: each placed object goes to the open container, which is sealed first when
    the object would push it past the byte cap. */
module Containers {
  import opened Prelude
  import opened PackTable
  import opened PackIndex
  import opened PackWriter
  import opened Placement
  import Search

  /** A sealed container: its records by hash, and its data. */
  datatype Container = Container(recs: seq<CueRecord>, bin: Bytes)

  predicate Capped(byteLimit: nat, recs: seq<CueRecord>, size: nat) {
    recs != [] && (size <= byteLimit || |recs| == 1)
  }

  /** A sealed container holds exactly what was placed in it, and keeps to the cap. */
  ghost predicate Keeps(c: Codec, byteLimit: nat, b: Container, recs: seq<CueRecord>, payloads: seq<Bytes>) {
    && multiset(b.recs) == multiset(recs) && Search.SortedBy(b.recs, (r: CueRecord) => r.hash)
    && Holds(c, recs, payloads, b.bin) && Capped(byteLimit, recs, |b.bin|)
  }

  ghost predicate SealedKeep(c: Codec, byteLimit: nat, sealed: seq<Container>, log: seq<Placed>) {
    forall s :: 0 <= s < |sealed| ==> Keeps(c, byteLimit, sealed[s], RecsOf(log, s + 1), PayloadsOf(log, s + 1))
  }

  lemma SealedKeepNext(c: Codec, byteLimit: nat, sealed: seq<Container>, log: seq<Placed>, x: Placed)
    requires SealedKeep(c, byteLimit, sealed, log) && x.serial > |sealed|
    ensures SealedKeep(c, byteLimit, sealed, log + [x])
  {
    hide Keeps;
    forall s | 0 <= s < |sealed|
      ensures Keeps(c, byteLimit, sealed[s], RecsOf(log + [x], s + 1), PayloadsOf(log + [x], s + 1))
    {
      RecsNext(log, x, s + 1);
    }
  }

  ghost predicate SerialsTo(log: seq<Placed>, serial: nat) {
    forall k :: 0 <= k < |log| ==> 1 <= log[k].serial <= serial
  }

  lemma {:induction false} NoRecsAbove(log: seq<Placed>, serial: nat, s: nat)
    requires SerialsTo(log, serial) && s > serial
    ensures RecsOf(log, s) == [] && PayloadsOf(log, s) == []
  {
    if log != [] {
      NoRecsAbove(log[..|log| - 1], serial, s);
    }
  }

  /** The containers of one push. `log` is everything placed so far. */
  class Builder {
    const w: World
    const p: Pack
    const policy: Policy
    const byteLimit: nat
    const steady: bool
    var seg: Segment?
    var serial: nat
    var sealed: seq<Container>
    ghost var log: seq<Placed>

    constructor (w: World, p: Pack, policy: Policy, byteLimit: nat, steady: bool)
      ensures this.w == w && this.p == p && this.policy == policy && this.byteLimit == byteLimit && this.steady == steady
      ensures seg == null && serial == 0 && sealed == [] && log == [] && Ready()
    {
      this.w, this.p, this.policy, this.byteLimit, this.steady := w, p, policy, byteLimit, steady;
      seg, serial, sealed, log := null, 0, [], [];
    }

    /** What holds even after a failure. */
    ghost predicate Sound()
      reads this
    {
      && LogOk(w, p, log) && SerialsTo(log, serial) && |sealed| <= serial
      && SealedKeep(policy.codec, byteLimit, sealed, log)
    }

    /** The open container holds what was placed in it and not sealed yet. */
    ghost predicate SegmentOk()
      reads this, seg
    {
      if seg == null then |sealed| == serial
      else
        && |sealed| + 1 == serial && seg.policy == policy && seg.steady == steady && seg.Valid()
        && seg.recs == RecsOf(log, serial) && seg.payloads == PayloadsOf(log, serial)
        && Capped(byteLimit, seg.recs, seg.offset)
    }

    /** A container is open that an object of this size can go to. */
    ghost predicate Opened(raw: nat)
      reads this, seg
    {
      && seg != null && |sealed| + 1 == serial && seg.policy == policy && seg.steady == steady && seg.Valid()
      && seg.recs == RecsOf(log, serial) && seg.payloads == PayloadsOf(log, serial)
      && (seg.recs == [] || seg.offset + raw <= byteLimit)
    }

    ghost predicate Ready()
      reads this, seg
    {
      Sound() && SegmentOk()
    }

    /** Finishes the open container, or fails and drops it. */
    method Seal() returns (ok: bool)
      requires Ready() && seg != null
      modifies this`seg, this`sealed
      ensures Sound() && seg == null
      ensures ok ==> Ready() && |sealed| == |old(sealed)| + 1
      ensures steady ==> ok
      ensures !ok ==> sealed == old(sealed)
    {
      hide LogOk, SerialsTo, Holds, Search.SortedBy;
      var full := seg;
      seg := null;
      var lucky: bool := *;
      ok := lucky || steady;
      if ok {
        var recs := Search.SortBy(full.recs, (r: CueRecord) => r.hash);
        sealed := sealed + [Container(recs, full.data)];
      }
    }

    /** Seals the open container when the object might not fit, and makes sure that one is open. */
    method Open(raw: nat) returns (ok: bool)
      requires Ready()
      modifies this`seg, this`sealed, this`serial
      ensures Sound()
      ensures seg == null || seg == old(seg) || fresh(seg)
      ensures (ok ==> Opened(raw)) && (steady ==> ok)
      ensures ok ==> (serial == old(serial) <==> old(seg) != null && old(seg.offset) + raw <= byteLimit)
    {
      hide LogOk, Holds, SealedKeep;
      ok := true;
      if seg != null && |seg.recs| > 0 && seg.offset + raw > byteLimit {
        ok := Seal();
      }
      if ok && seg == null {
        NoRecsAbove(log, serial, serial + 1);
        var lucky: bool := *;
        ok := lucky || steady;
        if ok {
          seg := new Segment(policy, steady);
          serial := serial + 1;
        }
      }
    }

    /** Places one object: whole, or as the client's delta when its base went into the same container,
        the delta is the smaller, and the stored chain stays within what a read walks. */
    method Place(h: Hash, obj: Obj, delta: Option<Bytes>, baseHash: Hash, baseSerial: int, baseChain: nat,
                 ghost entry: nat, ghost from: From)
      returns (ok: bool, at: nat, chain: nat)
      requires Ready() && LawfulCodec(policy.codec) && Lawful(w)
      requires h == w.sha(obj) && Resolved(w, p, log, entry, obj, from) && entry !in Entries(log)
      requires delta.Some? && baseSerial > 0 ==> Names(p, log, entry, from, delta.value, baseHash, baseSerial, baseChain)
      requires from.OnPlaced? ==> delta.Some? && baseSerial > 0
      modifies this, seg
      ensures Sound() && (seg == null || seg == old(seg) || fresh(seg))
      ensures (!ok ==> log == old(log)) && (steady ==> ok)
      ensures ok ==> Ready() && |log| == |old(log)| + 1
      ensures ok ==> var x := log[|old(log)|];
                     && log == old(log) + [x] && x.entry == entry && x.obj == obj && x.from == from
                     && x.serial == serial == at > 0 && x.chain == chain && x.rec.hash == h
      ensures ok ==> (chain > 0 <==> delta.Some? && baseSerial == at && |delta.value| < |obj.bytes| && baseChain < MAX_DELTA_DEPTH)
    {
      hide LogOk, Holds, SealedKeep, SegmentOk, Resolved, Recorded, Lawful, LawfulCodec, Form, Names;
      ok := Open(|obj.bytes|);
      if !ok {
        return false, 0, 0;
      }
      at := serial;
      var form := Form(h, obj, delta, baseHash, baseSerial, baseChain, serial);
      var so := form.0;
      chain := form.1;
      FormIsRecorded(w, p, log, entry, obj, from, h, delta, baseHash, baseSerial, baseChain, serial);
      ok := Put(so, entry, obj, from, chain);
    }

    /** Adds one object to the open container. */
    method Put(so: Stored, ghost entry: nat, ghost obj: Obj, ghost from: From, ghost chain: nat) returns (ok: bool)
      requires Sound() && Opened(so.raw) && LawfulCodec(policy.codec)
      requires Resolved(w, p, log, entry, obj, from) && entry !in Entries(log) && |so.payload| <= so.raw
      requires Recorded(w, p, log, Placed(entry, obj, from, serial, so.Record(), so.payload, chain))
      modifies seg, this`log
      ensures Sound()
      ensures (!ok ==> log == old(log)) && (steady ==> ok)
      ensures ok ==> Ready() && |log| == |old(log)| + 1
      ensures ok ==> var x := log[|old(log)|];
                     && log == old(log) + [x] && x.entry == entry && x.obj == obj && x.from == from
                     && x.serial == serial && x.chain == chain && x.rec.hash == so.hash
    {
      hide LogOk, Holds, SealedKeep, Resolved, Recorded, LawfulCodec, RecsOf, PayloadsOf, Entries, SerialsTo;
      ok := seg.Add(so);
      if ok {
        ghost var x := Placed(entry, obj, from, serial, seg.recs[|seg.recs| - 1], so.payload, chain);
        PutKeeps(w, p, policy.codec, byteLimit, sealed, log, x, so);
        log := log + [x];
      }
    }
  }

  lemma PutKeeps(w: World, p: Pack, c: Codec, byteLimit: nat, sealed: seq<Container>, log: seq<Placed>, x: Placed, so: Stored)
    requires LogOk(w, p, log) && SerialsTo(log, x.serial) && |sealed| + 1 == x.serial && SealedKeep(c, byteLimit, sealed, log)
    requires ResolvedAs(w, p, log, x) && x.entry !in Entries(log) && Recorded(w, p, log, x.(rec := so.Record()))
    requires x.rec.hash == so.hash && x.rec.base == so.base && x.rec.span.typ == so.typ && x.rec.span.raw == so.raw
    ensures LogOk(w, p, log + [x]) && SerialsTo(log + [x], x.serial) && SealedKeep(c, byteLimit, sealed, log + [x])
    ensures RecsOf(log + [x], x.serial) == RecsOf(log, x.serial) + [x.rec]
    ensures PayloadsOf(log + [x], x.serial) == PayloadsOf(log, x.serial) + [x.payload]
  {
    hide LogOk, SealedKeep, Resolved, Recorded, RecsOf, PayloadsOf;
    RecordedAlike(w, p, log, x, so);
    LogGrows(w, p, log, x);
    SealedKeepNext(c, byteLimit, sealed, log, x);
    RecsNext(log, x, x.serial);
  }

  /** How an object is stored, and the stored delta links under it. */
  function Form(h: Hash, obj: Obj, delta: Option<Bytes>, baseHash: Hash, baseSerial: int, baseChain: nat, serial: nat): (Stored, nat) {
    var whole := Stored(obj.bytes, h, obj.kind, |obj.bytes|, ZERO_HASH);
    if delta.Some? && baseSerial == serial && |delta.value| < |obj.bytes| && baseChain < MAX_DELTA_DEPTH
    then (whole.(payload := delta.value, base := baseHash), baseChain + 1)
    else (whole, 0)
  }

  /** `delta` is the entry's own, on a placed base with that hash, container and chain. */
  ghost predicate Names(p: Pack, log: seq<Placed>, entry: nat, from: From, delta: Bytes, baseHash: Hash, baseSerial: int, baseChain: nat) {
    && entry < |p| && p[entry].IsDelta() && delta == p[entry].Payload()
    && from.OnPlaced? && from.at < |log|
    && log[from.at].serial == baseSerial && log[from.at].rec.hash == baseHash && log[from.at].chain == baseChain
  }

  /** The form an object is stored in records it truly. */
  lemma FormIsRecorded(w: World, p: Pack, log: seq<Placed>, entry: nat, obj: Obj, from: From, h: Hash, delta: Option<Bytes>,
                       baseHash: Hash, baseSerial: int, baseChain: nat, serial: nat)
    requires Lawful(w) && LogOk(w, p, log) && Resolved(w, p, log, entry, obj, from) && h == w.sha(obj) && serial > 0
    requires delta.Some? && baseSerial > 0 ==> Names(p, log, entry, from, delta.value, baseHash, baseSerial, baseChain)
    requires from.OnPlaced? ==> delta.Some? && baseSerial > 0
    ensures var (so, chain) := Form(h, obj, delta, baseHash, baseSerial, baseChain, serial);
            && Recorded(w, p, log, Placed(entry, obj, from, serial, so.Record(), so.payload, chain))
            && so.hash == h && so.raw == |obj.bytes| && |so.payload| <= so.raw
            && (chain > 0 <==> delta.Some? && baseSerial == serial && |delta.value| < |obj.bytes| && baseChain < MAX_DELTA_DEPTH)
  {
    if from.OnPlaced? && from.at < |log| {
      assert Recorded(w, p, log[..from.at], log[from.at]);
    }
  }

  lemma RecordedAlike(w: World, p: Pack, log: seq<Placed>, x: Placed, so: Stored)
    requires Recorded(w, p, log, x.(rec := so.Record()))
    requires x.rec.hash == so.hash && x.rec.base == so.base && x.rec.span.typ == so.typ && x.rec.span.raw == so.raw
    ensures Recorded(w, p, log, x)
  {
  }
}
