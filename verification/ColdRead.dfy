/** The whole way through the bucket: a push's containers are uploaded under the name of their data,
    their index files are listed and parsed, and the objects are read. */
module ColdRead {
  import opened Prelude
  import opened PackTable
  import opened PackIndex
  import opened PackWriter
  import opened Placement
  import opened Containers
  import opened ReadPath
  import opened StoreRead
  import opened Cue
  import opened Wire
  import DeepChains
  import opened SharedRead
  import Search

  /** The index files after containers were uploaded, in this order: a name holds one file. */
  ghost function FilesOf(c: Codec, hashLen: nat, name: Bytes -> string, uploads: seq<Container>): map<string, Bytes>
    requires AllRecordable(hashLen, uploads)
  {
    if uploads == [] then map[]
    else
      var n := |uploads| - 1;
      FilesOf(c, hashLen, name, uploads[..n])[name(uploads[n].bin) := CueFile(c, hashLen, uploads[n].recs)]
  }

  ghost predicate AllRecordable(hashLen: nat, uploads: seq<Container>) {
    forall j :: 0 <= j < |uploads| ==> Recordable(hashLen, uploads[j].recs)
  }

  ghost predicate OneName(name: Bytes -> string) {
    forall a, b :: name(a) == name(b) ==> a == b
  }

  /** The last container uploaded with this data. */
  ghost predicate IsLast(uploads: seq<Container>, j: nat) {
    j < |uploads| && forall k :: j < k < |uploads| ==> uploads[k].bin != uploads[j].bin
  }

  /** A name holds the file of the last container with that data. */
  lemma {:induction false} LastIsHeld(c: Codec, hashLen: nat, name: Bytes -> string, uploads: seq<Container>, j: nat)
    requires AllRecordable(hashLen, uploads) && OneName(name) && IsLast(uploads, j)
    ensures var files := FilesOf(c, hashLen, name, uploads);
            name(uploads[j].bin) in files && files[name(uploads[j].bin)] == CueFile(c, hashLen, uploads[j].recs)
  {
    hide CueFile, Recordable;
    var n := |uploads| - 1;
    if j < n {
      LastIsHeld(c, hashLen, name, uploads[..n], j);
    }
  }

  lemma {:induction false} HeldIsLast(c: Codec, hashLen: nat, name: Bytes -> string, uploads: seq<Container>, id: string) returns (j: nat)
    requires AllRecordable(hashLen, uploads) && OneName(name) && id in FilesOf(c, hashLen, name, uploads)
    ensures IsLast(uploads, j) && name(uploads[j].bin) == id
    ensures FilesOf(c, hashLen, name, uploads)[id] == CueFile(c, hashLen, uploads[j].recs)
  {
    hide CueFile, Recordable;
    var n := |uploads| - 1;
    var low := uploads[..n];
    if name(uploads[n].bin) == id {
      j := n;
    } else {
      j := HeldIsLast(c, hashLen, name, low, id);
      assert low[j] == uploads[j] && uploads[n].bin != uploads[j].bin;
    }
  }

  lemma {:induction false} LastExists(uploads: seq<Container>, bin: Bytes, n: nat) returns (j: nat)
    requires n <= |uploads| && (exists i :: 0 <= i < n && uploads[i].bin == bin) && forall i :: n <= i < |uploads| ==> uploads[i].bin != bin
    ensures IsLast(uploads, j) && uploads[j].bin == bin
  {
    if uploads[n - 1].bin == bin {
      j := n - 1;
    } else {
      j := LastExists(uploads, bin, n - 1);
    }
  }

  /** A cold listing: every file once, in any order, parsed. */
  ghost predicate ListsFiles(c: Codec, hashLen: nat, files: map<string, Bytes>, cs: Packs) {
    && (forall i :: 0 <= i < |cs| ==> cs[i].0 in files && ReadCue(c, hashLen, files[cs[i].0]) == Some(cs[i].1))
    && (forall i, j :: 0 <= i < j < |cs| ==> cs[i].0 != cs[j].0)
    && (forall id <- files :: exists i :: 0 <= i < |cs| && cs[i].0 == id)
  }

  /** What the bucket holds and a reader makes of it. */
  ghost predicate ColdRepo(r: Repo, hashLen: nat, name: Bytes -> string, uploads: seq<Container>, cs: Packs) {
    && LawfulCodec(r.codec) && OneName(name) && AllRecordable(hashLen, uploads)
    && (forall j :: 0 <= j < |uploads| ==> r.bins(name(uploads[j].bin)) == Some(uploads[j].bin))
    && ListsFiles(r.codec, hashLen, FilesOf(r.codec, hashLen, name, uploads), cs) && r.index == MapOfAll(cs)
  }

  /** A listed container is the last one uploaded with its data, with just its records. */
  lemma ListedIsLast(r: Repo, hashLen: nat, name: Bytes -> string, uploads: seq<Container>, cs: Packs, i: nat) returns (j: nat)
    requires ColdRepo(r, hashLen, name, uploads, cs) && i < |cs|
    ensures IsLast(uploads, j) && cs[i] == (name(uploads[j].bin), uploads[j].recs)
  {
    hide CueFile, ReadCue, FilesOf, Recordable;
    j := HeldIsLast(r.codec, hashLen, name, uploads, cs[i].0);
    ReadCueFile(r.codec, hashLen, uploads[j].recs);
  }

  lemma LastIsListed(r: Repo, hashLen: nat, name: Bytes -> string, uploads: seq<Container>, cs: Packs, j: nat) returns (i: nat)
    requires ColdRepo(r, hashLen, name, uploads, cs) && IsLast(uploads, j)
    ensures i < |cs| && cs[i] == (name(uploads[j].bin), uploads[j].recs)
  {
    hide CueFile, ReadCue, FilesOf, Recordable;
    LastIsHeld(r.codec, hashLen, name, uploads, j);
    i :| 0 <= i < |cs| && cs[i].0 == name(uploads[j].bin);
    ReadCueFile(r.codec, hashLen, uploads[j].recs);
  }

  /** A push whose containers were uploaded at places `at`, among others that share no hash with it. */
  ghost predicate Uploaded(w: World, p: Pack, c: Codec, byteLimit: nat, sealed: seq<Container>, log: seq<Placed>, uploads: seq<Container>, at: seq<nat>) {
    && LogOk(w, p, log) && SealedKeep(c, byteLimit, sealed, log) && SerialsTo(log, |sealed|) && DistinctHashes(log)
    && |at| == |sealed| && (forall s :: 0 <= s < |at| ==> at[s] < |uploads| && uploads[at[s]] == sealed[s])
    && (forall j, k, i :: 0 <= j < |uploads| && j !in at && 0 <= k < |log| && 0 <= i < |uploads[j].recs| ==> uploads[j].recs[i].hash != log[k].rec.hash)
  }

  /** No container uploaded later has the same data and other records. */
  ghost predicate Kept(uploads: seq<Container>, j: nat)
    requires j < |uploads|
  {
    forall k :: j < k < |uploads| && uploads[k].bin == uploads[j].bin ==> uploads[k].recs == uploads[j].recs
  }

  /** Which upload a hash of the push can come from. */
  lemma OnlyFromOwn(w: World, p: Pack, c: Codec, byteLimit: nat, sealed: seq<Container>, log: seq<Placed>, uploads: seq<Container>, at: seq<nat>,
                    j: nat, i: nat, k: nat)
    requires Uploaded(w, p, c, byteLimit, sealed, log, uploads, at) && j < |uploads| && i < |uploads[j].recs| && k < |log|
    requires uploads[j].recs[i].hash == log[k].rec.hash
    ensures j in at && uploads[j] == sealed[log[k].serial - 1]
  {
    hide LogOk, SealedKeep, DistinctHashes;
    var s :| 0 <= s < |at| && at[s] == j;
    SealedRecord(c, byteLimit, sealed, log, s, i, k);
  }

  /** Two places of one container of the push are the same place. */
  lemma OwnOnce(w: World, p: Pack, c: Codec, byteLimit: nat, sealed: seq<Container>, log: seq<Placed>, uploads: seq<Container>, at: seq<nat>, s: nat, j: nat)
    requires Uploaded(w, p, c, byteLimit, sealed, log, uploads, at) && s < |sealed| && j < |uploads| && uploads[j].recs == sealed[s].recs
    ensures j == at[s]
  {
    hide LogOk, SealedKeep, DistinctHashes;
    SealedNotEmpty(c, byteLimit, sealed, log, s);
    var k := SealedWasPlaced(c, byteLimit, sealed, log, s, 0);
    OnlyFromOwn(w, p, c, byteLimit, sealed, log, uploads, at, j, 0, k);
    var t :| 0 <= t < |at| && at[t] == j;
    SealedRecord(c, byteLimit, sealed, log, t, 0, k);
  }

  lemma SealedNotEmpty(c: Codec, byteLimit: nat, sealed: seq<Container>, log: seq<Placed>, s: nat)
    requires SealedKeep(c, byteLimit, sealed, log) && s < |sealed|
    ensures sealed[s].recs != []
  {
    hide Holds;
    var recs := RecsOf(log, s + 1);
    assert Keeps(c, byteLimit, sealed[s], recs, PayloadsOf(log, s + 1));
    assert |multiset(sealed[s].recs)| == |multiset(recs)|;
  }

  /** Everything known of a push that went through the bucket. */
  ghost predicate WentThrough(w: World, p: Pack, byteLimit: nat, sealed: seq<Container>, log: seq<Placed>, r: Repo, hashLen: nat,
                              name: Bytes -> string, uploads: seq<Container>, at: seq<nat>, cs: Packs) {
    Uploaded(w, p, r.codec, byteLimit, sealed, log, uploads, at) && ColdRepo(r, hashLen, name, uploads, cs)
  }

  /** The last upload with a container's data is the container itself, exactly when it was kept. */
  lemma KeptIsLast(w: World, p: Pack, c: Codec, byteLimit: nat, sealed: seq<Container>, log: seq<Placed>, uploads: seq<Container>, at: seq<nat>, s: nat)
    requires Uploaded(w, p, c, byteLimit, sealed, log, uploads, at) && s < |sealed|
    ensures at[s] < |uploads| && (Kept(uploads, at[s]) <==> IsLast(uploads, at[s]))
  {
    hide LogOk, SealedKeep, DistinctHashes;
    var j := at[s];
    if Kept(uploads, j) {
      forall k | j < k < |uploads| ensures uploads[k].bin != uploads[j].bin {
        if uploads[k].recs == sealed[s].recs {
          OwnOnce(w, p, c, byteLimit, sealed, log, uploads, at, s, k);
        }
      }
    }
  }

  /** When every container of the push was kept, the listing publishes them. */
  lemma KeptIsStored(w: World, p: Pack, byteLimit: nat, sealed: seq<Container>, log: seq<Placed>, r: Repo, hashLen: nat,
                     name: Bytes -> string, uploads: seq<Container>, at: seq<nat>, cs: Packs) returns (places: seq<nat>)
    requires WentThrough(w, p, byteLimit, sealed, log, r, hashLen, name, uploads, at, cs)
    requires forall s :: 0 <= s < |sealed| ==> IsLast(uploads, at[s])
    ensures InRepository(w, p, byteLimit, sealed, log, r, cs, name, places)
  {
    hide LogOk, SealedKeep, DistinctHashes, MapOf, MapOfAll, FilesOf, ReadCue, CueFile, Recordable;
    places := Places(w, p, byteLimit, sealed, log, r, hashLen, name, uploads, at, cs, |sealed|);
    forall i, k | 0 <= i < |cs| && i !in places && 0 <= k < |log| ensures log[k].rec.hash !in MapOf(cs[i].0, cs[i].1) {
      if log[k].rec.hash in MapOf(cs[i].0, cs[i].1) {
        OwnPlace(w, p, byteLimit, sealed, log, r, hashLen, name, uploads, at, cs, places, i, k);
      }
    }
  }

  lemma {:induction false} Places(w: World, p: Pack, byteLimit: nat, sealed: seq<Container>, log: seq<Placed>, r: Repo, hashLen: nat,
                                  name: Bytes -> string, uploads: seq<Container>, at: seq<nat>, cs: Packs, n: nat) returns (places: seq<nat>)
    requires WentThrough(w, p, byteLimit, sealed, log, r, hashLen, name, uploads, at, cs) && n <= |sealed|
    requires forall s :: 0 <= s < |sealed| ==> IsLast(uploads, at[s])
    ensures |places| == n && forall s :: 0 <= s < n ==> places[s] < |cs| && cs[places[s]] == (name(sealed[s].bin), sealed[s].recs)
  {
    hide LogOk, SealedKeep, DistinctHashes, FilesOf, ReadCue, CueFile, Recordable, ListsFiles;
    places := [];
    if n > 0 {
      var low := Places(w, p, byteLimit, sealed, log, r, hashLen, name, uploads, at, cs, n - 1);
      var i := LastIsListed(r, hashLen, name, uploads, cs, at[n - 1]);
      places := low + [i];
    }
  }

  /** A listed container that has a hash of the push is one of its own. */
  lemma OwnPlace(w: World, p: Pack, byteLimit: nat, sealed: seq<Container>, log: seq<Placed>, r: Repo, hashLen: nat,
                 name: Bytes -> string, uploads: seq<Container>, at: seq<nat>, cs: Packs, places: seq<nat>, i: nat, k: nat)
    requires WentThrough(w, p, byteLimit, sealed, log, r, hashLen, name, uploads, at, cs)
    requires |places| == |sealed| && forall s :: 0 <= s < |sealed| ==> places[s] < |cs| && cs[places[s]] == (name(sealed[s].bin), sealed[s].recs)
    requires i < |cs| && k < |log| && log[k].rec.hash in MapOf(cs[i].0, cs[i].1)
    ensures i in places
  {
    hide LogOk, SealedKeep, DistinctHashes, MapOf, ColdRepo, IsLast;
    var j := ListedIsLast(r, hashLen, name, uploads, cs, i);
    LastIsUploaded(uploads, j);
    var m := MapOfIs(cs[i].0, cs[i].1, log[k].rec.hash);
    OnlyFromOwn(w, p, r.codec, byteLimit, sealed, log, uploads, at, j, m, k);
    NamedOnce(r, hashLen, name, uploads, cs, i, places[log[k].serial - 1]);
  }

  lemma LastIsUploaded(uploads: seq<Container>, j: nat)
    requires IsLast(uploads, j)
    ensures j < |uploads|
  {
  }

  lemma NamedOnce(r: Repo, hashLen: nat, name: Bytes -> string, uploads: seq<Container>, cs: Packs, a: nat, b: nat)
    requires ColdRepo(r, hashLen, name, uploads, cs) && a < |cs| && b < |cs| && cs[a].0 == cs[b].0
    ensures a == b
  {
    hide FilesOf, ReadCue, CueFile, Recordable, MapOfAll;
  }

  /** The objects of a container whose file was written over are gone after a cold build. */
  lemma OverwrittenIsGone(w: World, p: Pack, byteLimit: nat, sealed: seq<Container>, log: seq<Placed>, r: Repo, hashLen: nat,
                          name: Bytes -> string, uploads: seq<Container>, at: seq<nat>, cs: Packs, k: nat)
    requires WentThrough(w, p, byteLimit, sealed, log, r, hashLen, name, uploads, at, cs) && k < |log|
    requires !IsLast(uploads, at[log[k].serial - 1])
    ensures ReadPacked(r, log[k].rec.hash) == Failed(NotFound)
  {
    hide LogOk, SealedKeep, DistinctHashes, MapOf, MapOfAll, FilesOf, ReadCue, CueFile, Recordable, ListsFiles;
    var h := log[k].rec.hash;
    if h in r.index {
      var i := Newest(cs, h);
      var j := ListedIsLast(r, hashLen, name, uploads, cs, i);
      var m := MapOfIs(cs[i].0, cs[i].1, h);
      OnlyFromOwn(w, p, r.codec, byteLimit, sealed, log, uploads, at, j, m, k);
      OwnOnce(w, p, r.codec, byteLimit, sealed, log, uploads, at, log[k].serial - 1, j);
    }
  }

  /** Store, upload, list, parse, read: every object of the push comes back with exactly its type and
      bytes, if and only if no container with the same data and other records was uploaded after one
      of its own. */
  lemma ReadsBackIffKept(w: World, p: Pack, byteLimit: nat, sealed: seq<Container>, log: seq<Placed>, r: Repo, hashLen: nat,
                         name: Bytes -> string, uploads: seq<Container>, at: seq<nat>, cs: Packs)
    requires WentThrough(w, p, byteLimit, sealed, log, r, hashLen, name, uploads, at, cs)
    ensures (forall k :: 0 <= k < |log| ==> ReadPacked(r, w.sha(log[k].obj)) == Ok(log[k].obj))
       <==> (forall s :: 0 <= s < |sealed| ==> at[s] < |uploads| && Kept(uploads, at[s]))
  {
    hide LogOk, SealedKeep, DistinctHashes, MapOf, MapOfAll, ColdRepo, ReadPacked, Kept, IsLast;
    forall s | 0 <= s < |sealed| ensures at[s] < |uploads| && (Kept(uploads, at[s]) <==> IsLast(uploads, at[s])) {
      KeptIsLast(w, p, r.codec, byteLimit, sealed, log, uploads, at, s);
    }
    if forall s :: 0 <= s < |sealed| ==> at[s] < |uploads| && Kept(uploads, at[s]) {
      var places := KeptIsStored(w, p, byteLimit, sealed, log, r, hashLen, name, uploads, at, cs);
      forall k | 0 <= k < |log| ensures ReadPacked(r, w.sha(log[k].obj)) == Ok(log[k].obj) {
        StoreThenRead(w, p, byteLimit, sealed, log, r, cs, name, places, k);
      }
    } else {
      var s :| 0 <= s < |sealed| && !Kept(uploads, at[s]);
      SealedNotEmpty(r.codec, byteLimit, sealed, log, s);
      var k := SealedWasPlaced(r.codec, byteLimit, sealed, log, s, 0);
      RecordOfPlaced(w, p, log, k);
      OverwrittenIsGone(w, p, byteLimit, sealed, log, r, hashLen, name, uploads, at, cs, k);
    }
  }

  // Any pushes, with any sharing and any repeats.

  /** Each uploaded container was sealed by some sound push. */
  ghost predicate UploadsFromPushes(c: Codec, sha: Obj -> Hash, uploads: seq<Container>, origins: seq<Origin>) {
    |origins| == |uploads| && forall j :: 0 <= j < |uploads| ==> FromPush(c, sha, origins[j], uploads[j])
  }

  /** A container that was not written over records the hash. */
  ghost predicate Survives(uploads: seq<Container>, h: Hash) {
    exists j: nat, i: nat :: HasRecord(uploads, j, i, h)
  }

  ghost predicate HasRecord(uploads: seq<Container>, j: nat, i: nat, h: Hash) {
    IsLast(uploads, j) && i < |uploads[j].recs| && uploads[j].recs[i].hash == h
  }

  /** A listing of the bucket is a listing of sound containers. */
  lemma {:induction false} ListedOrigins(r: Repo, hashLen: nat, name: Bytes -> string, uploads: seq<Container>, cs: Packs, sha: Obj -> Hash,
                                         origins: seq<Origin>, n: nat) returns (listed: seq<Origin>)
    requires ColdRepo(r, hashLen, name, uploads, cs) && UploadsFromPushes(r.codec, sha, uploads, origins) && n <= |cs|
    ensures |listed| == n && forall i :: 0 <= i < n ==> IsFromPush(r, sha, cs[i], listed[i])
  {
    hide ListsFiles, FilesOf, CueFile, LogOk, SealedKeep, Lawful, Recordable;
    listed := [];
    if n > 0 {
      var low := ListedOrigins(r, hashLen, name, uploads, cs, sha, origins, n - 1);
      var j := ListedIsLast(r, hashLen, name, uploads, cs, n - 1);
      assert FromPush(r.codec, sha, origins[j], uploads[j]);
      listed := low + [origins[j]];
    }
  }

  /** What the index of a cold build knows. */
  lemma IndexedIffSurvives(r: Repo, hashLen: nat, name: Bytes -> string, uploads: seq<Container>, cs: Packs, h: Hash)
    requires ColdRepo(r, hashLen, name, uploads, cs)
    ensures h in r.index <==> Survives(uploads, h)
  {
    hide MapOf, MapOfAll, ListsFiles, FilesOf, CueFile, Recordable;
    if h in r.index {
      var i := Newest(cs, h);
      var j := ListedIsLast(r, hashLen, name, uploads, cs, i);
      var m := MapOfIs(cs[i].0, cs[i].1, h);
      assert HasRecord(uploads, j, m, h);
    }
    if Survives(uploads, h) {
      var j: nat, m: nat :| HasRecord(uploads, j, m, h);
      var i := LastIsListed(r, hashLen, name, uploads, cs, j);
      MapOfHas(cs[i].0, cs[i].1, m);
      RecordedIsFound(cs, h, i);
    }
  }

  /** Store, upload, list, parse, read, for any pushes: an object that any of them placed comes back with
      exactly its type and bytes if and only if some container that was not written over records its
      hash and the chain of the hash is grounded. */
  lemma ColdReadIff(r: Repo, hashLen: nat, name: Bytes -> string, uploads: seq<Container>, cs: Packs, sha: Obj -> Hash, origins: seq<Origin>, j: nat, k: nat)
    requires ColdRepo(r, hashLen, name, uploads, cs) && UploadsFromPushes(r.codec, sha, uploads, origins) && OneHash(sha)
    requires j < |uploads| && k < |origins[j].log| && origins[j].log[k].serial == origins[j].s + 1
    ensures var obj := origins[j].log[k].obj;
            && (ReadPacked(r, sha(obj)) == Ok(obj) <==> Survives(uploads, sha(obj)) && Grounded(r.index, sha(obj), MAX_DELTA_DEPTH))
            && (ReadPacked(r, sha(obj)) == Ok(obj) || ReadPacked(r, sha(obj)).Failed?)
  {
    hide MapOfAll, ListsFiles, FilesOf, CueFile, Recordable, Survives, AllFromPushes, IsFromPush, FramePacked, Grounded;
    var h := sha(origins[j].log[k].obj);
    IndexedIffSurvives(r, hashLen, name, uploads, cs, h);
    if h in r.index {
      var listed := ListedOrigins(r, hashLen, name, uploads, cs, sha, origins, |cs|);
      AllListed(r, sha, cs, listed);
      var o := ReadIffGrounded(r, sha, cs, listed, h);
    }
  }

  lemma AllListed(r: Repo, sha: Obj -> Hash, cs: Packs, listed: seq<Origin>)
    requires r.index == MapOfAll(cs) && |listed| == |cs| && forall i :: 0 <= i < |cs| ==> IsFromPush(r, sha, cs[i], listed[i])
    ensures AllFromPushes(r, sha, cs, listed)
  {
  }

  // The cold build itself, which fails as a whole.

  /** Parses every listed file, and gives up at the first that is malformed. */
  ghost function ColdBuild(c: Codec, hashLen: nat, listing: seq<(string, Bytes)>): Option<Packs> {
    if listing == [] then Some([])
    else
      var n := |listing| - 1;
      var low := ColdBuild(c, hashLen, listing[..n]);
      var recs := ReadCue(c, hashLen, listing[n].1);
      if low.None? || recs.None? then None else Some(low.value + [(listing[n].0, recs.value)])
  }

  lemma {:induction false} ColdBuildIff(c: Codec, hashLen: nat, listing: seq<(string, Bytes)>)
    ensures ColdBuild(c, hashLen, listing).Some? <==> forall i :: 0 <= i < |listing| ==> ReadCue(c, hashLen, listing[i].1).Some?
    ensures ColdBuild(c, hashLen, listing).Some? ==>
              var cs := ColdBuild(c, hashLen, listing).value;
              |cs| == |listing| && forall i :: 0 <= i < |cs| ==> cs[i].0 == listing[i].0 && Some(cs[i].1) == ReadCue(c, hashLen, listing[i].1)
  {
    hide ReadCue;
    if listing != [] {
      ColdBuildIff(c, hashLen, listing[..|listing| - 1]);
    }
  }

  /** A listing of the bucket: every name once, in any order, with its file. */
  ghost predicate IsListing(files: map<string, Bytes>, listing: seq<(string, Bytes)>) {
    && (forall i :: 0 <= i < |listing| ==> listing[i].0 in files && files[listing[i].0] == listing[i].1)
    && (forall i, j :: 0 <= i < j < |listing| ==> listing[i].0 != listing[j].0)
    && (forall id <- files :: exists i :: 0 <= i < |listing| && listing[i].0 == id)
  }

  /** The container's index file has at least as many bytes as records. */
  ghost predicate LongEnough(c: Codec, hashLen: nat, uploads: seq<Container>, j: nat) {
    j < |uploads| && Recordable(hashLen, uploads[j].recs) && |uploads[j].recs| <= |CueFile(c, hashLen, uploads[j].recs)|
  }

  /** The cold build of a bucket succeeds if and only if every container that was not written over has
      an index file with at least as many bytes as records: one short file hides every object. */
  lemma ColdBuildSucceedsIff(c: Codec, hashLen: nat, name: Bytes -> string, uploads: seq<Container>, listing: seq<(string, Bytes)>)
    requires LawfulCodec(c) && OneName(name) && AllRecordable(hashLen, uploads) && IsListing(FilesOf(c, hashLen, name, uploads), listing)
    ensures ColdBuild(c, hashLen, listing).Some? <==> forall j: nat :: IsLast(uploads, j) ==> LongEnough(c, hashLen, uploads, j)
    ensures ColdBuild(c, hashLen, listing).Some? ==> ListsFiles(c, hashLen, FilesOf(c, hashLen, name, uploads), ColdBuild(c, hashLen, listing).value)
  {
    hide ReadCue, CueFile, FilesOf, Recordable, ColdBuild, IsLast, LawfulCodec, LongEnough, IsListing, ListsFiles;
    ColdBuildIff(c, hashLen, listing);
    if forall j: nat :: IsLast(uploads, j) ==> LongEnough(c, hashLen, uploads, j) {
      forall i | 0 <= i < |listing| ensures ReadCue(c, hashLen, listing[i].1).Some? {
        var j := ListedParses(c, hashLen, name, uploads, listing, i);
      }
    }
    if ColdBuild(c, hashLen, listing).Some? {
      forall j: nat | IsLast(uploads, j) ensures LongEnough(c, hashLen, uploads, j) {
        var i := LastParses(c, hashLen, name, uploads, listing, j);
      }
      BuiltLists(c, hashLen, FilesOf(c, hashLen, name, uploads), listing, ColdBuild(c, hashLen, listing).value);
    }
  }

  lemma BuiltLists(c: Codec, hashLen: nat, files: map<string, Bytes>, listing: seq<(string, Bytes)>, cs: Packs)
    requires IsListing(files, listing) && |cs| == |listing|
    requires forall i :: 0 <= i < |cs| ==> cs[i].0 == listing[i].0 && Some(cs[i].1) == ReadCue(c, hashLen, listing[i].1)
    ensures ListsFiles(c, hashLen, files, cs)
  {
    hide ReadCue;
    forall id <- files ensures exists i :: 0 <= i < |cs| && cs[i].0 == id {
      var i :| 0 <= i < |listing| && listing[i].0 == id;
      assert cs[i].0 == id;
    }
  }

  lemma ListedParses(c: Codec, hashLen: nat, name: Bytes -> string, uploads: seq<Container>, listing: seq<(string, Bytes)>, i: nat) returns (j: nat)
    requires LawfulCodec(c) && OneName(name) && AllRecordable(hashLen, uploads) && IsListing(FilesOf(c, hashLen, name, uploads), listing) && i < |listing|
    ensures IsLast(uploads, j) && (ReadCue(c, hashLen, listing[i].1).Some? <==> LongEnough(c, hashLen, uploads, j))
  {
    hide ReadCue, CueFile, FilesOf, Recordable;
    j := HeldIsLast(c, hashLen, name, uploads, listing[i].0);
    ReadCueFile(c, hashLen, uploads[j].recs);
  }

  lemma LastParses(c: Codec, hashLen: nat, name: Bytes -> string, uploads: seq<Container>, listing: seq<(string, Bytes)>, j: nat) returns (i: nat)
    requires LawfulCodec(c) && OneName(name) && AllRecordable(hashLen, uploads) && IsListing(FilesOf(c, hashLen, name, uploads), listing) && IsLast(uploads, j)
    ensures i < |listing| && (ReadCue(c, hashLen, listing[i].1).Some? <==> LongEnough(c, hashLen, uploads, j))
  {
    hide ReadCue, CueFile, FilesOf, Recordable;
    LastIsHeld(c, hashLen, name, uploads, j);
    i :| 0 <= i < |listing| && listing[i].0 == name(uploads[j].bin);
    ReadCueFile(c, hashLen, uploads[j].recs);
  }

  // Two pushes of the same bytes, as a blob and as a tag.

  function OneLog(w: World, kind: int, b: Bytes): seq<Placed> {
    [Placed(0, Obj(kind, b), Root, 1, CueRecord(w.sha(Obj(kind, b)), Span(kind, CODEC_RAW, 0, |b|, |b|), ZERO_HASH), b, 0)]
  }

  lemma OneIsSound(w: World, kind: int, b: Bytes)
    ensures LogOk(w, [Whole(kind, b)], OneLog(w, kind, b)) && DeepChains.InOneContainer(OneLog(w, kind, b))
    ensures DeepChains.DataOf(OneLog(w, kind, b)) == b && DistinctHashes(OneLog(w, kind, b)) && SerialsTo(OneLog(w, kind, b), 1)
  {
    var log := OneLog(w, kind, b);
    assert log[..0] == [] && [] + b == b;
    assert ResolvedAs(w, [Whole(kind, b)], log[..0], log[0]) && Recorded(w, [Whole(kind, b)], log[..0], log[0]);
    assert DeepChains.StoredRaw(log, 0);
  }

  /** A sealed push of one whole object, and nothing in its container but that. */
  ghost predicate PushedOne(w: World, c: Codec, byteLimit: nat, kind: int, b: Bytes, s: Container) {
    SealedKeep(c, byteLimit, [s], OneLog(w, kind, b)) && s.bin == b
  }

  lemma PushOneExists(w: World, c: Codec, kind: int, b: Bytes) returns (s: Container)
    ensures PushedOne(w, c, |b|, kind, b, s)
  {
    hide SealedKeep;
    OneIsSound(w, kind, b);
    s := DeepChains.SealExists(c, |b|, OneLog(w, kind, b));
  }

  lemma OneIsUploaded(w: World, c: Codec, byteLimit: nat, kind: int, b: Bytes, uploads: seq<Container>, at: nat, other: nat, kind': int)
    requires Injective(w) && kind != kind' && |uploads| == 2 && at < 2 && other == 1 - at
    requires PushedOne(w, c, byteLimit, kind, b, uploads[at]) && PushedOne(w, c, byteLimit, kind', b, uploads[other])
    ensures Uploaded(w, [Whole(kind, b)], c, byteLimit, [uploads[at]], OneLog(w, kind, b), uploads, [at])
  {
    hide SealedKeep, LogOk;
    OneIsSound(w, kind, b);
    forall i | 0 <= i < |uploads[other].recs| ensures uploads[other].recs[i].hash != w.sha(Obj(kind, b)) {
      var k := SealedWasPlaced(c, byteLimit, [uploads[other]], OneLog(w, kind', b), 0, i);
      assert Obj(kind, b) != Obj(kind', b);
    }
  }

  /** Equal data, different records, one name: after a cold build the tag is there and the blob, which
      was pushed before it, is not found. */
  lemma SameBytesOverwrite(w: World, byteLimit: nat, b: Bytes, blob: Container, tag: Container, r: Repo, hashLen: nat, name: Bytes -> string, cs: Packs)
    requires Injective(w) && PushedOne(w, r.codec, byteLimit, 3, b, blob) && PushedOne(w, r.codec, byteLimit, 4, b, tag)
    requires ColdRepo(r, hashLen, name, [blob, tag], cs)
    ensures ReadPacked(r, w.sha(Obj(3, b))) == Failed(NotFound) && ReadPacked(r, w.sha(Obj(4, b))) == Ok(Obj(4, b))
  {
    hide SealedKeep, LogOk, ColdRepo, ReadPacked, DistinctHashes;
    var uploads := [blob, tag];
    var first, second := OneLog(w, 3, b), OneLog(w, 4, b);
    OneIsUploaded(w, r.codec, byteLimit, 3, b, uploads, 0, 1, 4);
    OneIsUploaded(w, r.codec, byteLimit, 4, b, uploads, 1, 0, 3);
    assert uploads[1].bin == uploads[0].bin;
    OverwrittenIsGone(w, [Whole(3, b)], byteLimit, [blob], first, r, hashLen, name, uploads, [0], cs, 0);
    ReadsBackIffKept(w, [Whole(4, b)], byteLimit, [tag], second, r, hashLen, name, uploads, [1], cs);
    assert ReadPacked(r, w.sha(second[0].obj)) == Ok(second[0].obj);
  }

  /** It happens for every hash that fits the file, every codec and every naming. */
  lemma OverwriteHappens(w: World, c: Codec, b: Bytes, hashLen: nat, name: Bytes -> string) returns (blob: Container, tag: Container, r: Repo, cs: Packs)
    requires Injective(w) && LawfulCodec(c) && OneName(name) && IsHashLen(hashLen) && IsInt64(|b|)
    requires w.sha(Obj(3, b)) < Pow256(hashLen) && w.sha(Obj(4, b)) < Pow256(hashLen)
    ensures r.codec == c && PushedOne(w, c, |b|, 3, b, blob) && PushedOne(w, c, |b|, 4, b, tag) && ColdRepo(r, hashLen, name, [blob, tag], cs)
  {
    hide SealedKeep, MapOfAll, LawfulCodec, Recordable, FilesOf, ReadCue, CueFile, ListsFiles, LogOk;
    blob := PushOneExists(w, c, 3, b);
    tag := PushOneExists(w, c, 4, b);
    OneIsRecordable(w, c, 3, b, blob, hashLen);
    OneIsRecordable(w, c, 4, b, tag, hashLen);
    cs := [(name(b), tag.recs)];
    r := Repo(MapOfAll(cs), (id: string) => if id == name(b) then Some(b) else None, (h: Hash) => None, c);
    OneFile(c, hashLen, name, blob, tag);
    OneListed(c, hashLen, name(b), tag.recs);
  }

  lemma OneListed(c: Codec, hashLen: nat, id: string, recs: seq<CueRecord>)
    requires LawfulCodec(c) && Recordable(hashLen, recs) && |recs| <= |CueFile(c, hashLen, recs)|
    ensures ListsFiles(c, hashLen, map[id := CueFile(c, hashLen, recs)], [(id, recs)])
  {
    hide CueFile, ReadCue, Recordable, LawfulCodec;
    ReadCueFile(c, hashLen, recs);
    var cs := [(id, recs)];
    assert cs[0].0 == id;
  }

  /** Two containers with one name leave one file, that of the second. */
  lemma OneFile(c: Codec, hashLen: nat, name: Bytes -> string, a: Container, b: Container)
    requires a.bin == b.bin && Recordable(hashLen, a.recs) && Recordable(hashLen, b.recs)
    ensures AllRecordable(hashLen, [a, b]) && FilesOf(c, hashLen, name, [a, b]) == map[name(b.bin) := CueFile(c, hashLen, b.recs)]
  {
    hide Recordable, CueFile;
    assert [a, b][..1] == [a] && [a][..0] == [];
    assert FilesOf(c, hashLen, name, [a]) == map[name(a.bin) := CueFile(c, hashLen, a.recs)];
  }

  lemma OneIsRecordable(w: World, c: Codec, kind: int, b: Bytes, s: Container, hashLen: nat)
    requires PushedOne(w, c, |b|, kind, b, s) && -128 <= kind < 128 && IsHashLen(hashLen) && IsInt64(|b|) && w.sha(Obj(kind, b)) < Pow256(hashLen)
    ensures Recordable(hashLen, s.recs) && |s.recs| <= |CueFile(c, hashLen, s.recs)|
  {
    hide SealedKeep, Pow256;
    var log := OneLog(w, kind, b);
    forall i | 0 <= i < |s.recs| ensures Fits(hashLen, RowFor(s.recs[i])) {
      var k := SealedWasPlaced(c, |b|, [s], log, 0, i);
    }
    OneRecord(w, c, kind, b, s);
    EncodedHeader(c, hashLen, RowsFor(s.recs), true);
  }

  lemma OneRecord(w: World, c: Codec, kind: int, b: Bytes, s: Container)
    requires PushedOne(w, c, |b|, kind, b, s)
    ensures |s.recs| == 1
  {
    hide SealedKeep;
    var log := OneLog(w, kind, b);
    assert log[..0] == [];
    assert RecsOf(log, 1) == [log[0].rec];
    SealedRecords(c, |b|, s, log);
    SameCount(s.recs, RecsOf(log, 1));
  }

  // A push that repeats the empty blob, whose records compress below their number.

  function EmptyRecord(w: World): CueRecord {
    CueRecord(w.sha(Obj(3, [])), Span(3, CODEC_RAW, 0, 0, 0), ZERO_HASH)
  }

  function RepeatPack(n: nat): Pack {
    seq(n, k requires 0 <= k < n => Whole(3, []))
  }

  /** What a push of that pack places: nothing removes repeats. */
  function RepeatLog(w: World, n: nat): seq<Placed> {
    seq(n, k requires 0 <= k < n => Placed(k, Obj(3, []), Root, 1, EmptyRecord(w), [], 0))
  }

  lemma RepeatIsSound(w: World, n: nat)
    ensures LogOk(w, RepeatPack(n), RepeatLog(w, n)) && DeepChains.InOneContainer(RepeatLog(w, n)) && DeepChains.DataOf(RepeatLog(w, n)) == []
  {
    var p, log := RepeatPack(n), RepeatLog(w, n);
    forall k | 0 <= k < n ensures ResolvedAs(w, p, log[..k], log[k]) && Recorded(w, p, log[..k], log[k]) && DeepChains.StoredRaw(log, k) {
      assert log[k] == Placed(k, Obj(3, []), Root, 1, EmptyRecord(w), [], 0);
      assert log[..k] == RepeatLog(w, k);
      NoData(w, k);
    }
    NoData(w, n);
  }

  lemma {:induction false} NoData(w: World, n: nat)
    ensures DeepChains.DataOf(RepeatLog(w, n)) == []
  {
    if n > 0 {
      NoData(w, n - 1);
      assert RepeatLog(w, n)[..n - 1] == RepeatLog(w, n - 1);
    }
  }

  lemma SameCount(a: seq<CueRecord>, b: seq<CueRecord>)
    requires multiset(a) == multiset(b)
    ensures |a| == |b|
  {
    assert |multiset(a)| == |a| && |multiset(b)| == |b|;
  }

  /** However it is sealed, its container has the one record over and over. */
  lemma RepeatRecords(w: World, c: Codec, byteLimit: nat, n: nat, b: Container)
    requires SealedKeep(c, byteLimit, [b], RepeatLog(w, n))
    ensures b.recs == seq(n, k requires 0 <= k < n => EmptyRecord(w))
  {
    hide SealedKeep, LogOk, RecsOf, DeepChains.InOneContainer;
    var log := RepeatLog(w, n);
    RepeatIsSound(w, n);
    DeepChains.DataHolds(c, log);
    SealedRecords(c, byteLimit, b, log);
    SameCount(b.recs, RecsOf(log, 1));
    forall i | 0 <= i < |b.recs| ensures b.recs[i] == EmptyRecord(w) {
      var k := SealedWasPlaced(c, byteLimit, [b], log, 0, i);
    }
  }

  lemma SealedRecords(c: Codec, byteLimit: nat, b: Container, log: seq<Placed>)
    requires SealedKeep(c, byteLimit, [b], log)
    ensures multiset(b.recs) == multiset(RecsOf(log, 1))
  {
    hide Holds, RecsOf, PayloadsOf, Search.SortedBy, Capped;
    var sealed, zero := [b], 0;
    assert Keeps(c, byteLimit, sealed[zero], RecsOf(log, zero + 1), PayloadsOf(log, zero + 1));
  }

  /** For every hash there are a lawful codec and a sealed push of eighteen or more copies of the empty
      blob whose own index file is refused, and with it every cold build of a bucket that holds it. */
  lemma RepeatsBreakColdBuild(w: World, n: nat) returns (c: Codec, b: Container)
    requires 17 < n < TWO_64 && w.sha(Obj(3, [])) < Pow256(20)
    ensures LawfulCodec(c) && LogOk(w, RepeatPack(n), RepeatLog(w, n)) && SealedKeep(c, 0, [b], RepeatLog(w, n))
    ensures Recordable(20, b.recs) && |CueFile(c, 20, b.recs)| == 17 && ReadCue(c, 20, CueFile(c, 20, b.recs)) == None
    ensures forall name, uploads, listing, j |
              OneName(name) && AllRecordable(20, uploads) && IsListing(FilesOf(c, 20, name, uploads), listing) && IsLast(uploads, j) && uploads[j] == b ::
              ColdBuild(c, 20, listing) == None
  {
    hide SealedKeep, LogOk, Parse, Encoded, Block, LawfulCodec, FilesOf, ColdBuild, IsListing, ReadCue;
    var recs := seq(n, k requires 0 <= k < n => EmptyRecord(w));
    EmptyFits(w, recs);
    ShortFileIsRefused(20, RowsFor(recs));
    c := Tailored(Block(20, RowsFor(recs), true));
    RepeatIsSound(w, n);
    b := DeepChains.SealExists(c, 0, RepeatLog(w, n));
    RepeatRecords(w, c, 0, n, b);
    ReadCueFile(c, 20, recs);
    forall name, uploads, listing, j |
      OneName(name) && AllRecordable(20, uploads) && IsListing(FilesOf(c, 20, name, uploads), listing) && IsLast(uploads, j) && uploads[j] == b
      ensures ColdBuild(c, 20, listing) == None
    {
      ColdBuildSucceedsIff(c, 20, name, uploads, listing);
    }
  }

  lemma EmptyFits(w: World, recs: seq<CueRecord>)
    requires w.sha(Obj(3, [])) < Pow256(20) && |recs| < TWO_64 && forall i :: 0 <= i < |recs| ==> recs[i] == EmptyRecord(w)
    ensures Recordable(20, recs)
  {
    hide Pow256;
    assert Pow256(20) > 0;
  }
}
