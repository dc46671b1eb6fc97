/** Store, then read: what a push placed is what a reader gets. */
module StoreRead {
  import opened Prelude
  import opened PackTable
  import opened PackIndex
  import opened PackWriter
  import opened Placement
  import opened Containers
  import opened ReadPath
  import Delta

  lemma {:induction false} MapOfIs(id: string, recs: seq<CueRecord>, h: Hash) returns (i: nat)
    requires h in MapOf(id, recs)
    ensures i < |recs| && recs[i].hash == h && MapOf(id, recs)[h] == PackEntry(id, recs[i].span, recs[i].base)
  {
    i := |recs| - 1;
    if recs[i].hash != h {
      i := MapOfIs(id, recs[..i], h);
    }
  }

  lemma {:induction false} MapOfHas(id: string, recs: seq<CueRecord>, i: nat)
    requires i < |recs|
    ensures recs[i].hash in MapOf(id, recs)
  {
    var n := |recs| - 1;
    if i < n {
      MapOfHas(id, recs[..n], i);
    }
  }

  /** The push resolved its entries to pairwise distinct hashes. */
  ghost predicate DistinctHashes(log: seq<Placed>) {
    forall j, k :: 0 <= j < k < |log| ==> log[j].rec.hash != log[k].rec.hash
  }

  /** A repository that lists the push's sealed containers, among any others, by the name of their
      data. `at[s]` is where container `s` is listed. */
  ghost predicate Published(r: Repo, cs: Packs, name: Bytes -> string, sealed: seq<Container>, at: seq<nat>) {
    && r.index == MapOfAll(cs) && |at| == |sealed|
    && (forall s :: 0 <= s < |at| ==> at[s] < |cs| && cs[at[s]] == (name(sealed[s].bin), sealed[s].recs))
    && (forall s :: 0 <= s < |at| ==> r.bins(name(sealed[s].bin)) == Some(sealed[s].bin))
  }

  /** No other container records a hash of the push. */
  ghost predicate NotShared(cs: Packs, log: seq<Placed>, at: seq<nat>) {
    forall i, k :: 0 <= i < |cs| && i !in at && 0 <= k < |log| ==> log[k].rec.hash !in MapOf(cs[i].0, cs[i].1)
  }

  /** A record in a sealed container is the one record of its placed entry. */
  lemma SealedRecord(c: Codec, byteLimit: nat, sealed: seq<Container>, log: seq<Placed>, s: nat, i: nat, k: nat)
    requires SealedKeep(c, byteLimit, sealed, log) && DistinctHashes(log) && s < |sealed| && i < |sealed[s].recs| && k < |log|
    requires sealed[s].recs[i].hash == log[k].rec.hash
    ensures log[k].serial == s + 1 && sealed[s].recs[i] == log[k].rec
  {
    var k' := SealedWasPlaced(c, byteLimit, sealed, log, s, i);
    assert k' == k;
  }

  /** A placed entry's record is in its container, and its span there decodes to its payload. */
  lemma PlacedIsSealed(c: Codec, byteLimit: nat, sealed: seq<Container>, log: seq<Placed>, k: nat, s: nat) returns (i: nat)
    requires SealedKeep(c, byteLimit, sealed, log) && k < |log| && s < |sealed| && log[k].serial == s + 1
    ensures && i < |sealed[s].recs| && sealed[s].recs[i] == log[k].rec
            && SpanHolds(c, log[k].rec.span, log[k].payload, sealed[s].bin)
  {
    hide SpanHolds;
    var placed := RecsOf(log, s + 1);
    assert Keeps(c, byteLimit, sealed[s], placed, PayloadsOf(log, s + 1));
    var j := RecIsThere(log, k);
    assert log[k].rec in multiset(placed);
    assert log[k].rec in sealed[s].recs;
    i :| 0 <= i < |sealed[s].recs| && sealed[s].recs[i] == log[k].rec;
  }

  /** The index finds a placed entry's own record. */
  lemma FoundAsPlaced(c: Codec, byteLimit: nat, sealed: seq<Container>, log: seq<Placed>, r: Repo, cs: Packs, name: Bytes -> string, at: seq<nat>, k: nat)
    requires SealedKeep(c, byteLimit, sealed, log) && SerialsTo(log, |sealed|) && DistinctHashes(log) && k < |log|
    requires Published(r, cs, name, sealed, at) && NotShared(cs, log, at)
    ensures var x := log[k];
            x.rec.hash in r.index && r.index[x.rec.hash] == PackEntry(name(sealed[x.serial - 1].bin), x.rec.span, x.rec.base)
  {
    hide SealedKeep, MapOf, MapOfAll, DistinctHashes;
    var h := log[k].rec.hash;
    var i := PlacedIsSealed(c, byteLimit, sealed, log, k, log[k].serial - 1);
    var own := at[log[k].serial - 1];
    MapOfHas(cs[own].0, cs[own].1, i);
    RecordedIsFound(cs, h, own);
    var n := Newest(cs, h);
    assert n in at;
    var s :| 0 <= s < |at| && at[s] == n;
    var j := MapOfIs(cs[n].0, cs[n].1, h);
    SealedRecord(c, byteLimit, sealed, log, s, j, k);
  }

  /** Its stored bytes decode to the payload it was given. */
  lemma PayloadReadsBack(c: Codec, byteLimit: nat, sealed: seq<Container>, log: seq<Placed>, r: Repo, cs: Packs, name: Bytes -> string, at: seq<nat>, k: nat)
    requires SealedKeep(c, byteLimit, sealed, log) && r.codec == c && k < |log| && 1 <= log[k].serial <= |sealed|
    requires Published(r, cs, name, sealed, at)
    ensures var x := log[k];
            PayloadOf(r, PackEntry(name(sealed[x.serial - 1].bin), x.rec.span, x.rec.base)) == Some(x.payload)
  {
    hide SealedKeep, MapOfAll;
    var _ := PlacedIsSealed(c, byteLimit, sealed, log, k, log[k].serial - 1);
  }

  /** Everything a reader needs to know of a push. */
  ghost predicate InRepository(w: World, p: Pack, byteLimit: nat, sealed: seq<Container>, log: seq<Placed>, r: Repo, cs: Packs, name: Bytes -> string, at: seq<nat>) {
    && LogOk(w, p, log) && SealedKeep(r.codec, byteLimit, sealed, log) && SerialsTo(log, |sealed|) && DistinctHashes(log)
    && Published(r, cs, name, sealed, at) && NotShared(cs, log, at)
  }

  /** A stored delta was applied to the object of its base record. */
  lemma BaseOfPlaced(w: World, p: Pack, log: seq<Placed>, k: nat)
    requires LogOk(w, p, log) && k < |log| && log[k].rec.base != ZERO_HASH
    ensures var x := log[k];
            && x.from.OnPlaced? && x.from.at < k
            && var b := log[x.from.at];
               && x.rec.base == b.rec.hash && x.chain == b.chain + 1 <= MAX_DELTA_DEPTH
               && Delta.Apply(b.obj.bytes, x.payload) == Some(x.obj.bytes)
  {
    hide Delta.Apply;
    assert ResolvedAs(w, p, log[..k], log[k]) && Recorded(w, p, log[..k], log[k]);
  }

  /** Followed from any depth that leaves room for its chain, a placed entry reads back. */
  lemma {:induction false} ChainReadsBack(w: World, p: Pack, byteLimit: nat, sealed: seq<Container>, log: seq<Placed>, r: Repo, cs: Packs,
                                          name: Bytes -> string, at: seq<nat>, k: nat, depth: nat)
    requires InRepository(w, p, byteLimit, sealed, log, r, cs, name, at) && k < |log| && depth + log[k].chain <= MAX_DELTA_DEPTH
    ensures DeltaBase(r, log[k].rec.hash, depth) == Ok(log[k].obj)
    decreases k
  {
    hide SealedKeep, Published, NotShared, PayloadOf, Delta.Apply, LogOk;
    var x := log[k];
    FoundAsPlaced(r.codec, byteLimit, sealed, log, r, cs, name, at, k);
    PayloadReadsBack(r.codec, byteLimit, sealed, log, r, cs, name, at, k);
    RecordOfPlaced(w, p, log, k);
    if x.rec.base != ZERO_HASH {
      BaseOfPlaced(w, p, log, k);
      ChainReadsBack(w, p, byteLimit, sealed, log, r, cs, name, at, x.from.at, depth + 1);
    }
  }

  lemma RecordOfPlaced(w: World, p: Pack, log: seq<Placed>, k: nat)
    requires LogOk(w, p, log) && k < |log|
    ensures var x := log[k];
            && x.rec.hash == w.sha(x.obj) && x.rec.span.typ == x.obj.kind && x.rec.span.raw == |x.obj.bytes| && x.chain <= MAX_DELTA_DEPTH
            && (x.rec.base == ZERO_HASH ==> x.payload == x.obj.bytes)
  {
    assert Recorded(w, p, log[..k], log[k]);
  }

  /** Store then read: every object of the push is returned with exactly its type and bytes, however
      deep the client's chain was and wherever containers were sealed. */
  lemma StoreThenRead(w: World, p: Pack, byteLimit: nat, sealed: seq<Container>, log: seq<Placed>, r: Repo, cs: Packs,
                      name: Bytes -> string, at: seq<nat>, k: nat)
    requires InRepository(w, p, byteLimit, sealed, log, r, cs, name, at) && k < |log|
    ensures ReadPacked(r, w.sha(log[k].obj)) == Ok(log[k].obj)
  {
    hide SealedKeep, Published, NotShared, PayloadOf, Delta.Apply, LogOk;
    RecordOfPlaced(w, p, log, k);
    FoundAsPlaced(r.codec, byteLimit, sealed, log, r, cs, name, at, k);
    PayloadReadsBack(r.codec, byteLimit, sealed, log, r, cs, name, at, k);
    ChainReadsBack(w, p, byteLimit, sealed, log, r, cs, name, at, k, 0);
  }

  /** So every entry of a pack that was indexed to the end reads back as the object it resolved to. */
  lemma EveryEntryReads(w: World, p: Pack, byteLimit: nat, sealed: seq<Container>, log: seq<Placed>, r: Repo, cs: Packs,
                        name: Bytes -> string, at: seq<nat>, c: nat) returns (k: nat)
    requires InRepository(w, p, byteLimit, sealed, log, r, cs, name, at) && Complete(p, log) && c < |p|
    ensures k < |log| && log[k].entry == c && ReadPacked(r, w.sha(log[k].obj)) == Ok(log[k].obj)
    ensures p[c].Whole? ==> log[k].obj == Obj(p[c].kind, p[c].body)
  {
    assert c in Entries(log);
    k :| 0 <= k < |log| && log[k].entry == c;
    StoreThenRead(w, p, byteLimit, sealed, log, r, cs, name, at, k);
    assert ResolvedAs(w, p, log[..k], log[k]);
  }

  /** The stored chain depth of each placed hash. */
  ghost function ChainsOf(log: seq<Placed>): (m: map<Hash, nat>)
    ensures forall k :: 0 <= k < |log| ==> log[k].rec.hash in m
    ensures DistinctHashes(log) ==> forall k :: 0 <= k < |log| ==> m[log[k].rec.hash] == log[k].chain
  {
    if log == [] then map[]
    else
      var n := |log| - 1;
      ChainsOf(log[..n])[log[n].rec.hash := log[n].chain]
  }

  /** Every container a push seals has its bases inside it, at smaller chain depths, so any list of
      such containers can be read without going round in circles. */
  lemma SealedIsLocal(w: World, p: Pack, c: Codec, byteLimit: nat, sealed: seq<Container>, log: seq<Placed>, s: nat, id: string)
    requires LogOk(w, p, log) && SealedKeep(c, byteLimit, sealed, log) && DistinctHashes(log) && s < |sealed|
    ensures Local(MapOf(id, sealed[s].recs), ChainsOf(log))
  {
    hide SealedKeep, LogOk, MapOf;
    var m := MapOf(id, sealed[s].recs);
    forall h <- m ensures LocalAt(m, ChainsOf(log), h) {
      var i := MapOfIs(id, sealed[s].recs, h);
      var k := SealedWasPlaced(c, byteLimit, sealed, log, s, i);
      if log[k].rec.base != ZERO_HASH {
        BaseOfPlaced(w, p, log, k);
        SameContainer(w, p, log, k);
        var j := PlacedIsSealed(c, byteLimit, sealed, log, log[k].from.at, s);
        MapOfHas(id, sealed[s].recs, j);
      }
    }
  }

  lemma SameContainer(w: World, p: Pack, log: seq<Placed>, k: nat)
    requires LogOk(w, p, log) && k < |log| && log[k].rec.base != ZERO_HASH
    ensures log[k].from.OnPlaced? && log[k].from.at < k && log[log[k].from.at].serial == log[k].serial
  {
    assert Recorded(w, p, log[..k], log[k]);
  }

  lemma SealedWasPlaced(c: Codec, byteLimit: nat, sealed: seq<Container>, log: seq<Placed>, s: nat, i: nat) returns (k: nat)
    requires SealedKeep(c, byteLimit, sealed, log) && s < |sealed| && i < |sealed[s].recs|
    ensures k < |log| && log[k].serial == s + 1 && log[k].rec == sealed[s].recs[i]
  {
    hide Holds;
    var placed := RecsOf(log, s + 1);
    assert Keeps(c, byteLimit, sealed[s], placed, PayloadsOf(log, s + 1));
    assert sealed[s].recs[i] in multiset(sealed[s].recs);
    assert sealed[s].recs[i] in placed;
    var j :| 0 <= j < |placed| && placed[j] == sealed[s].recs[i];
    k := RecIsPlaced(log, s + 1, j);
  }
}
