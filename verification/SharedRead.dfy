/** Reading from containers that share hashes, or repeat them: what any pushes stored is read back as
    long as the chain of records that the index gives is grounded within fifty links. */
module SharedRead {
  import opened Prelude
  import opened PackTable
  import opened PackIndex
  import opened PackWriter
  import opened Placement
  import opened Containers
  import opened ReadPath
  import opened StoreRead
  import Delta

  /** Where a container comes from: a sound push, and its place among what that push sealed. */
  datatype Origin = Origin(w: World, p: Pack, log: seq<Placed>, byteLimit: nat, sealed: seq<Container>, s: nat)

  ghost predicate FromPush(c: Codec, sha: Obj -> Hash, o: Origin, b: Container) {
    && o.w.sha == sha && Lawful(o.w) && LogOk(o.w, o.p, o.log)
    && SealedKeep(c, o.byteLimit, o.sealed, o.log) && o.s < |o.sealed| && o.sealed[o.s] == b
  }

  /** Each listed container was sealed by some sound push. Pushes may share hashes and repeat them. */
  ghost predicate AllFromPushes(r: Repo, sha: Obj -> Hash, cs: Packs, origins: seq<Origin>) {
    && r.index == MapOfAll(cs) && |origins| == |cs|
    && forall i :: 0 <= i < |cs| ==> IsFromPush(r, sha, cs[i], origins[i])
  }

  ghost predicate IsFromPush(r: Repo, sha: Obj -> Hash, pack: (string, seq<CueRecord>), o: Origin) {
    var bin := r.bins(pack.0);
    bin.Some? && FromPush(r.codec, sha, o, Container(pack.1, bin.value))
  }

  ghost predicate OneHash(sha: Obj -> Hash) {
    forall x, y :: sha(x) == sha(y) ==> x == y
  }

  /** Following the bases that the index gives from `h` ends at a whole record within `n` links. */
  predicate Grounded(index: EntryMap, h: Hash, n: nat)
    decreases n
  {
    h in index &&
    (index[h].base == ZERO_HASH || (n > 0 && index[h].base != h && Grounded(index, index[h].base, n - 1)))
  }

  /** The record that the index gives for a hash is that of a placed object with the hash. */
  lemma IndexedWasPlaced(r: Repo, sha: Obj -> Hash, cs: Packs, origins: seq<Origin>, h: Hash) returns (i: nat, k: nat)
    requires AllFromPushes(r, sha, cs, origins) && h in r.index
    ensures i < |cs| && k < |origins[i].log| && origins[i].log[k].serial == origins[i].s + 1
    ensures var x := origins[i].log[k];
            && x.rec.hash == h == sha(x.obj) && r.index[h] == PackEntry(cs[i].0, x.rec.span, x.rec.base)
            && PayloadOf(r, r.index[h]) == Some(x.payload)
  {
    hide MapOf, MapOfAll, LogOk, SealedKeep, Lawful;
    i := Newest(cs, h);
    var o := origins[i];
    assert IsFromPush(r, sha, cs[i], o);
    var m := MapOfIs(cs[i].0, cs[i].1, h);
    k := SealedWasPlaced(r.codec, o.byteLimit, o.sealed, o.log, o.s, m);
    RecordOfPlaced(o.w, o.p, o.log, k);
    var j := PlacedIsSealed(r.codec, o.byteLimit, o.sealed, o.log, k, o.s);
  }

  /** What was placed in a listed container is in the index, under some record. */
  lemma PlacedIsIndexed(r: Repo, sha: Obj -> Hash, cs: Packs, origins: seq<Origin>, i: nat, k: nat)
    requires AllFromPushes(r, sha, cs, origins) && i < |cs| && k < |origins[i].log| && origins[i].log[k].serial == origins[i].s + 1
    ensures origins[i].log[k].rec.hash in r.index
  {
    hide MapOf, MapOfAll, LogOk, SealedKeep, Lawful;
    var o := origins[i];
    assert IsFromPush(r, sha, cs[i], o);
    var j := PlacedIsSealed(r.codec, o.byteLimit, o.sealed, o.log, k, o.s);
    MapOfHas(cs[i].0, cs[i].1, j);
    RecordedIsFound(cs, o.log[k].rec.hash, i);
  }

  /** From any depth: the one object with the hash, exactly when its chain is grounded in what is left. */
  lemma {:induction false} ReadsAtDepth(r: Repo, sha: Obj -> Hash, cs: Packs, origins: seq<Origin>, h: Hash, depth: nat) returns (o: Obj)
    requires AllFromPushes(r, sha, cs, origins) && OneHash(sha) && h in r.index && depth <= MAX_DELTA_DEPTH
    ensures sha(o) == h
    ensures if Grounded(r.index, h, MAX_DELTA_DEPTH - depth) then DeltaBase(r, h, depth) == Ok(o) else DeltaBase(r, h, depth).Failed?
    decreases MAX_DELTA_DEPTH - depth
  {
    hide MapOf, MapOfAll, LogOk, SealedKeep, Lawful, PayloadOf, Delta.Apply, AllFromPushes;
    var i, k := IndexedWasPlaced(r, sha, cs, origins, h);
    SoundOrigin(r, sha, cs, origins, i);
    var push := origins[i];
    var x := push.log[k];
    RecordOfPlaced(push.w, push.p, push.log, k);
    o := x.obj;
    if x.rec.base != ZERO_HASH {
      BaseOfPlaced(push.w, push.p, push.log, k);
      SameContainer(push.w, push.p, push.log, k);
      PlacedIsIndexed(r, sha, cs, origins, i, x.from.at);
      RecordOfPlaced(push.w, push.p, push.log, x.from.at);
      if depth < MAX_DELTA_DEPTH {
        var b := ReadsAtDepth(r, sha, cs, origins, x.rec.base, depth + 1);
        assert b == push.log[x.from.at].obj;
      }
    }
  }

  lemma SoundOrigin(r: Repo, sha: Obj -> Hash, cs: Packs, origins: seq<Origin>, i: nat)
    requires AllFromPushes(r, sha, cs, origins) && i < |cs|
    ensures i < |origins| && LogOk(origins[i].w, origins[i].p, origins[i].log) && origins[i].w.sha == sha
  {
    assert IsFromPush(r, sha, cs[i], origins[i]);
  }

  /** For any listing of containers that sound pushes sealed, with any sharing and any repeats, every
      indexed hash has one object, and a read returns it if and only if the chain is grounded. */
  lemma ReadIffGrounded(r: Repo, sha: Obj -> Hash, cs: Packs, origins: seq<Origin>, h: Hash) returns (o: Obj)
    requires AllFromPushes(r, sha, cs, origins) && OneHash(sha) && h in r.index
    ensures sha(o) == h
    ensures if Grounded(r.index, h, MAX_DELTA_DEPTH) then ReadPacked(r, h) == Ok(o) else ReadPacked(r, h).Failed?
  {
    hide AllFromPushes, PayloadOf, FramePacked;
    o := ReadsAtDepth(r, sha, cs, origins, h, 0);
    var i, k := IndexedWasPlaced(r, sha, cs, origins, h);
  }

  /** Store, then read: an object that any of the pushes placed is returned with exactly its type and
      bytes if and only if the chain of its hash is grounded, and else the read fails. */
  lemma PlacedReadsIffGrounded(r: Repo, sha: Obj -> Hash, cs: Packs, origins: seq<Origin>, i: nat, k: nat)
    requires AllFromPushes(r, sha, cs, origins) && OneHash(sha)
    requires i < |cs| && k < |origins[i].log| && origins[i].log[k].serial == origins[i].s + 1
    ensures var obj := origins[i].log[k].obj;
            if Grounded(r.index, sha(obj), MAX_DELTA_DEPTH) then ReadPacked(r, sha(obj)) == Ok(obj) else ReadPacked(r, sha(obj)).Failed?
  {
    hide AllFromPushes, LogOk, ReadPacked, Grounded;
    PlacedIsIndexed(r, sha, cs, origins, i, k);
    SoundOrigin(r, sha, cs, origins, i);
    RecordOfPlaced(origins[i].w, origins[i].p, origins[i].log, k);
    var o := ReadIffGrounded(r, sha, cs, origins, origins[i].log[k].rec.hash);
  }

  /** A push whose hashes are distinct and in no other container is grounded, so it always reads back. */
  lemma {:induction false} UnsharedIsGrounded(w: World, p: Pack, byteLimit: nat, sealed: seq<Container>, log: seq<Placed>, r: Repo, cs: Packs,
                                              name: Bytes -> string, at: seq<nat>, k: nat, n: nat)
    requires InRepository(w, p, byteLimit, sealed, log, r, cs, name, at) && k < |log| && log[k].chain <= n
    ensures Grounded(r.index, log[k].rec.hash, n)
    decreases k
  {
    hide SealedKeep, Published, NotShared, LogOk, Delta.Apply;
    var x := log[k];
    FoundAsPlaced(r.codec, byteLimit, sealed, log, r, cs, name, at, k);
    if x.rec.base != ZERO_HASH {
      BaseOfPlaced(w, p, log, k);
      UnsharedIsGrounded(w, p, byteLimit, sealed, log, r, cs, name, at, x.from.at, n - 1);
    }
  }
}
