/** Reading an object back: its record is looked up newest-wins across all containers, and a delta
    is applied to its base, which is looked up the same way. */
module ReadPath {
  import opened Prelude
  import opened PackTable
  import opened PackIndex
  import opened PackWriter
  import opened Placement
  import Delta

  /** What a reader sees: the index, the containers' data by name, and the objects stored loose. */
  datatype Repo = Repo(index: EntryMap, bins: string -> Option<Bytes>, loose: Hash -> Option<Obj>, codec: Codec)

  datatype Fault = NotFound | BadIndex | BadData | TooManyLinks

  datatype Result = Ok(obj: Obj) | Failed(why: Fault)

  /** A record's decoded payload. Nothing is fetched for an empty one. */
  function PayloadOf(r: Repo, e: PackEntry): Option<Bytes> {
    if e.span.stored == 0 then Some([])
    else
      var bin := r.bins(e.id);
      if bin.None? then None
      else
        var cut := Cut(bin.value, e.span);
        if cut.None? then None else DecodePayload(r.codec, e.span.codec, cut.value)
  }

  /** Why a record's payload cannot be had. */
  function WhyLost(r: Repo, e: PackEntry): Fault {
    if r.bins(e.id).None? then NotFound else BadData
  }

  /** The finished object must have the size its record declares. */
  function Framed(e: PackEntry, bytes: Bytes): Result {
    if |bytes| == e.span.raw then Ok(Obj(e.span.typ, bytes)) else Failed(BadData)
  }

  function Patched(e: PackEntry, base: Result, payload: Bytes): Result {
    match base
    case Failed(why) => Failed(why)
    case Ok(b) =>
      var plain := Delta.Apply(b.bytes, payload);
      if plain.None? then Failed(BadIndex) else Framed(e, plain.value)
  }

  /** Turns a payload into the finished object. `depth` counts the links walked already. */
  function FramePacked(r: Repo, h: Hash, e: PackEntry, payload: Bytes, depth: nat): Result
    decreases MAX_DELTA_DEPTH + 1 - depth, 0
  {
    if e.base == ZERO_HASH then Framed(e, payload)
    else if depth >= MAX_DELTA_DEPTH then Failed(TooManyLinks)
    else if e.base == h then Failed(BadIndex)
    else Patched(e, DeltaBase(r, e.base, depth + 1), payload)
  }

  /** The base of a delta, itself looked up through the index. A base that is missing is damage. */
  function DeltaBase(r: Repo, h: Hash, depth: nat): Result
    decreases MAX_DELTA_DEPTH + 1 - depth, 1
  {
    if depth > MAX_DELTA_DEPTH then Failed(TooManyLinks)
    else if h !in r.index then
      if r.loose(h).Some? then Ok(r.loose(h).value) else Failed(BadIndex)
    else
      var payload := PayloadOf(r, r.index[h]);
      if payload.None? then Failed(if WhyLost(r, r.index[h]) == NotFound then BadIndex else BadData)
      else FramePacked(r, h, r.index[h], payload.value, depth)
  }

  /** Reads a packed object. */
  function ReadPacked(r: Repo, h: Hash): Result {
    if h !in r.index then Failed(NotFound)
    else
      var payload := PayloadOf(r, r.index[h]);
      if payload.None? then Failed(WhyLost(r, r.index[h])) else FramePacked(r, h, r.index[h], payload.value, 0)
  }

  // Bases lead nowhere twice: containers whose own chains are acyclic stay acyclic together.

  type Packs = seq<(string, seq<CueRecord>)>

  /** Each delta's base is recorded in the same container at a smaller chain depth. */
  ghost predicate Local(m: EntryMap, chain: map<Hash, nat>) {
    forall h <- m :: LocalAt(m, chain, h)
  }

  ghost predicate LocalAt(m: EntryMap, chain: map<Hash, nat>, h: Hash)
    requires h in m
  {
    var b := m[h].base;
    h in chain && (b == ZERO_HASH || (b in m && b in chain && chain[b] < chain[h]))
  }

  ghost predicate AllLocal(cs: Packs, chains: seq<map<Hash, nat>>) {
    |chains| == |cs| && forall i :: 0 <= i < |cs| ==> Local(MapOf(cs[i].0, cs[i].1), chains[i])
  }

  /** The newest container that records `h`. */
  ghost function Newest(cs: Packs, h: Hash): (i: nat)
    requires h in MapOfAll(cs)
    ensures i < |cs| && h in MapOf(cs[i].0, cs[i].1) && MapOfAll(cs)[h] == MapOf(cs[i].0, cs[i].1)[h]
    ensures forall j :: i < j < |cs| ==> h !in MapOf(cs[j].0, cs[j].1)
  {
    var n := |cs| - 1;
    if h in MapOf(cs[n].0, cs[n].1) then n else Newest(cs[..n], h)
  }

  lemma {:induction false} RecordedIsFound(cs: Packs, h: Hash, i: nat)
    requires i < |cs| && h in MapOf(cs[i].0, cs[i].1)
    ensures h in MapOfAll(cs)
  {
    var n := |cs| - 1;
    if i < n {
      RecordedIsFound(cs[..n], h, i);
    }
  }

  /** The measure of a read: first how new the container is, then the chain inside it. */
  lemma BaseIsNearer(cs: Packs, chains: seq<map<Hash, nat>>, h: Hash)
    requires AllLocal(cs, chains) && h in MapOfAll(cs) && MapOfAll(cs)[h].base != ZERO_HASH
    ensures var b := MapOfAll(cs)[h].base;
            && b != h && b in MapOfAll(cs)
            && (|| Newest(cs, b) > Newest(cs, h)
                || (Newest(cs, b) == Newest(cs, h) && chains[Newest(cs, b)][b] < chains[Newest(cs, h)][h]))
  {
    var i := Newest(cs, h);
    var m := MapOf(cs[i].0, cs[i].1);
    assert Local(m, chains[i]) && LocalAt(m, chains[i], h);
    RecordedIsFound(cs, MapOfAll(cs)[h].base, i);
  }

  /** How many delta links a read of `h` follows, with no bound on them. */
  ghost function Links(cs: Packs, chains: seq<map<Hash, nat>>, h: Hash): nat
    requires AllLocal(cs, chains) && h in MapOfAll(cs)
    decreases |cs| - Newest(cs, h), chains[Newest(cs, h)][h]
  {
    var b := MapOfAll(cs)[h].base;
    if b == ZERO_HASH then 0
    else
      BaseIsNearer(cs, chains, h);
      1 + Links(cs, chains, b)
  }

  /** The same read without the depth guard: it terminates on its own. */
  ghost function Unguarded(r: Repo, cs: Packs, chains: seq<map<Hash, nat>>, h: Hash): Result
    requires r.index == MapOfAll(cs) && AllLocal(cs, chains) && h in r.index
    decreases |cs| - Newest(cs, h), chains[Newest(cs, h)][h]
  {
    var e := r.index[h];
    var payload := PayloadOf(r, e);
    if payload.None? then Failed(if WhyLost(r, e) == NotFound then BadIndex else BadData)
    else if e.base == ZERO_HASH then Framed(e, payload.value)
    else
      BaseIsNearer(cs, chains, h);
      Patched(e, Unguarded(r, cs, chains, e.base), payload.value)
  }

  /** The guard changes nothing for up to fifty links, and refuses everything past them. */
  lemma {:induction false} GuardIsExact(r: Repo, cs: Packs, chains: seq<map<Hash, nat>>, h: Hash, depth: nat)
    requires r.index == MapOfAll(cs) && AllLocal(cs, chains) && h in r.index && depth <= MAX_DELTA_DEPTH
    ensures depth + Links(cs, chains, h) <= MAX_DELTA_DEPTH ==> DeltaBase(r, h, depth) == Unguarded(r, cs, chains, h)
    ensures depth + Links(cs, chains, h) > MAX_DELTA_DEPTH ==> DeltaBase(r, h, depth).Failed?
    decreases MAX_DELTA_DEPTH - depth
  {
    hide Newest, MapOfAll, PayloadOf, Patched;
    var e := r.index[h];
    if e.base != ZERO_HASH {
      BaseIsNearer(cs, chains, h);
      if depth < MAX_DELTA_DEPTH {
        GuardIsExact(r, cs, chains, e.base, depth + 1);
        PatchNeedsBase(e, DeltaBase(r, e.base, depth + 1));
      }
    }
  }

  lemma PatchNeedsBase(e: PackEntry, base: Result)
    ensures base.Failed? ==> forall payload :: Patched(e, base, payload).Failed?
  {
  }

  /** A packed object can be read exactly when its chain has at most fifty links and every link is
      sound; then the guard makes no difference. */
  lemma ReadIffShort(r: Repo, cs: Packs, chains: seq<map<Hash, nat>>, h: Hash)
    requires r.index == MapOfAll(cs) && AllLocal(cs, chains) && h in r.index
    ensures ReadPacked(r, h).Ok? <==> Unguarded(r, cs, chains, h).Ok? && Links(cs, chains, h) <= MAX_DELTA_DEPTH
    ensures ReadPacked(r, h).Ok? ==> ReadPacked(r, h) == Unguarded(r, cs, chains, h)
  {
    GuardIsExact(r, cs, chains, h, 0);
  }

  lemma LinksStep(cs: Packs, chains: seq<map<Hash, nat>>, h: Hash)
    requires AllLocal(cs, chains) && h in MapOfAll(cs)
    ensures var b := MapOfAll(cs)[h].base;
            if b == ZERO_HASH then Links(cs, chains, h) == 0
            else b in MapOfAll(cs) && Links(cs, chains, h) == 1 + Links(cs, chains, b)
  {
    if MapOfAll(cs)[h].base != ZERO_HASH {
      BaseIsNearer(cs, chains, h);
    }
  }

  lemma UnguardedStep(r: Repo, cs: Packs, chains: seq<map<Hash, nat>>, h: Hash)
    requires r.index == MapOfAll(cs) && AllLocal(cs, chains) && h in r.index && PayloadOf(r, r.index[h]).Some?
    ensures var e := r.index[h];
            var payload := PayloadOf(r, e).value;
            if e.base == ZERO_HASH then Unguarded(r, cs, chains, h) == Framed(e, payload)
            else e.base in r.index && Unguarded(r, cs, chains, h) == Patched(e, Unguarded(r, cs, chains, e.base), payload)
  {
    if r.index[h].base != ZERO_HASH {
      BaseIsNearer(cs, chains, h);
    }
  }
}
