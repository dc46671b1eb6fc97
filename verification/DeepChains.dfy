/** Pushes whose containers keep to the fifty links, one record per hash or not, and what a reader then
    gets. They are built for every lawful hash and codec. */
module DeepChains {
  import opened Prelude
  import opened PackTable
  import opened PackIndex
  import opened PackWriter
  import opened Placement
  import opened Containers
  import opened ReadPath
  import opened StoreRead
  import Delta
  import Search

  const BLOB: int := 3

  // Objects of twenty bytes, each made of the one before by six bytes of delta.

  /** The numbers from `k` down, then zeros. */
  function Thing(k: nat): (b: Bytes)
    requires k < 256
    ensures |b| == 20 && b[0] as nat == k
  {
    if k == 0 then seq(20, _ => 0 as byte) else [k as byte] + Thing(k - 1)[..19]
  }

  function Object(k: nat): Obj
    requires k < 256
  {
    Obj(BLOB, Thing(k))
  }

  /** One byte inserted, and nineteen copied. */
  function Edit(k: nat): Bytes
    requires k < 256
  {
    [20, 20, 1, k as byte, 144, 19]
  }

  /** The same undone, for the first step up from zeros. */
  const BACK: Bytes := [20, 20, 145, 1, 19, 1, 0]

  lemma EditApplies(k: nat)
    requires 0 < k < 256
    ensures Delta.Apply(Thing(k - 1), Edit(k)) == Some(Thing(k))
  {
    hide Delta.Apply, Delta.WriteCmd;
    var base, a, b := Thing(k - 1), Delta.Literal([k as byte]), ShortCopy(0, 19);
    ShortCopyMeans(0, 19);
    TwoCommands(base, a, b);
    InsertByte(k as byte);
    assert Edit(k) == [20] + [20] + ([1, k as byte] + [144, 19]);
    assert Thing(k) == [k as byte] + base[0..19];
  }

  lemma BackApplies()
    ensures Delta.Apply(Thing(1), BACK) == Some(Thing(0))
  {
    hide Delta.Apply, Delta.WriteCmd;
    var base, a, b := Thing(1), ShortCopy(1, 19), Delta.Literal([0]);
    ShortCopyMeans(1, 19);
    TwoCommands(base, a, b);
    InsertByte(0);
    assert BACK == [20] + [20] + ([145, 1, 19] + [1, 0]);
    assert base[1..20] == Thing(0)[..19];
    assert Thing(0) == base[1..20] + [0];
  }

  /** A delta of two commands between objects of twenty bytes. */
  lemma TwoCommands(base: Bytes, a: Delta.Written, b: Delta.Written)
    requires |base| == 20 && Delta.Fits(base, a) && Delta.Fits(base, b)
    requires |Delta.Chunk(base, Delta.Meant(a)).value + Delta.Chunk(base, Delta.Meant(b)).value| == 20
    ensures Delta.Apply(base, [20] + [20] + (Delta.WriteCmd(a) + Delta.WriteCmd(b)))
         == Some(Delta.Chunk(base, Delta.Meant(a)).value + Delta.Chunk(base, Delta.Meant(b)).value)
  {
    hide Delta.Apply, Delta.WriteCmd, Delta.Meant;
    var cmds := [a, b];
    assert cmds[1..] == [b];
    Delta.MeaningOfOne(base, b);
    Delta.WriteOne(b);
    assert Delta.WriteCmds(cmds) == Delta.WriteCmd(a) + Delta.WriteCmd(b);
    assert Delta.WriteSize(20) == [20];
    Delta.ApplyWrittenDelta(base, cmds);
  }

  lemma InsertByte(x: byte)
    ensures Delta.WriteCmd(Delta.Literal([x])) == [1, x]
  {
    assert [1 as byte] + [x] == [1, x];
  }

  /** A copy whose place and length take a byte each. */
  function ShortCopy(off: nat, size: nat): (w: Delta.Written)
    requires off < 256 && 0 < size < 256
    ensures Delta.Legal(w)
  {
    Delta.CopyOf([if off == 0 then None else Some(off as byte), None, None, None], [Some(size as byte), None, None])
  }

  lemma ShortCopyMeans(off: nat, size: nat)
    requires off < 256 && 0 < size < 256
    ensures Delta.Meant(ShortCopy(off, size)) == Delta.Copy(off, size)
    ensures Delta.WriteCmd(ShortCopy(off, size)) == if off == 0 then [144, size as byte] else [145, off as byte, size as byte]
  {
    var w := ShortCopy(off, size);
    Nothing(w.off[1..]);
    Nothing(w.size[1..]);
  }

  lemma {:induction false} Nothing(ds: seq<Option<byte>>)
    requires forall i :: 0 <= i < |ds| ==> ds[i].None?
    ensures Delta.Number(ds) == 0 && Delta.WriteField(ds) == []
  {
    if ds != [] {
      Nothing(ds[1..]);
    }
  }

  // A push that goes into one container, every payload stored as it is.

  /** The payloads one behind the other. */
  function DataOf(log: seq<Placed>): Bytes {
    if log == [] then [] else DataOf(log[..|log| - 1]) + log[|log| - 1].payload
  }

  ghost predicate InOneContainer(log: seq<Placed>) {
    forall k :: 0 <= k < |log| ==> StoredRaw(log, k)
  }

  ghost predicate StoredRaw(log: seq<Placed>, k: nat)
    requires k < |log|
  {
    var x := log[k];
    x.serial == 1 && x.rec.span.codec == CODEC_RAW && x.rec.span.offset == |DataOf(log[..k])| && x.rec.span.stored == |x.payload|
  }

  lemma {:induction false} DataHolds(c: Codec, log: seq<Placed>)
    requires InOneContainer(log)
    ensures Holds(c, RecsOf(log, 1), PayloadsOf(log, 1), DataOf(log)) && |RecsOf(log, 1)| == |log|
  {
    hide Holds;
    if log == [] {
      NothingHolds(c);
    } else {
      var n := |log| - 1;
      var low, x := log[..n], log[n];
      forall k | 0 <= k < n ensures StoredRaw(low, k) {
        assert StoredRaw(log, k) && low[..k] == log[..k];
      }
      assert StoredRaw(log, n) && log == low + [x];
      DataHolds(c, low);
      RecsNext(low, x, 1);
      HoldsLength(c, low);
      HoldsNext(c, RecsOf(low, 1), PayloadsOf(low, 1), DataOf(low), x.rec, x.payload, x.payload);
    }
  }

  lemma NothingHolds(c: Codec)
    ensures Holds(c, [], [], [])
  {
  }

  lemma HoldsLength(c: Codec, log: seq<Placed>)
    requires Holds(c, RecsOf(log, 1), PayloadsOf(log, 1), DataOf(log))
    ensures EndOf(RecsOf(log, 1)) == |DataOf(log)|
  {
  }

  /** The push is sealed as one container, in some order of equal hashes. */
  lemma SealExists(c: Codec, byteLimit: nat, log: seq<Placed>) returns (b: Container)
    requires InOneContainer(log) && log != [] && |DataOf(log)| <= byteLimit
    ensures SealedKeep(c, byteLimit, [b], log) && b.bin == DataOf(log)
  {
    hide Holds, Search.SortedBy, SealedKeep;
    var recs := Search.SortExists(RecsOf(log, 1), (r: CueRecord) => r.hash);
    b := Container(recs, DataOf(log));
    SealOf(c, byteLimit, log, recs);
  }

  lemma SealOf(c: Codec, byteLimit: nat, log: seq<Placed>, recs: seq<CueRecord>)
    requires InOneContainer(log) && log != [] && |DataOf(log)| <= byteLimit
    requires multiset(recs) == multiset(RecsOf(log, 1)) && Search.SortedBy(recs, (r: CueRecord) => r.hash)
    ensures SealedKeep(c, byteLimit, [Container(recs, DataOf(log))], log)
  {
    hide Holds, Search.SortedBy, DataOf, RecsOf, InOneContainer;
    DataHolds(c, log);
    var b := Container(recs, DataOf(log));
    assert Keeps(c, byteLimit, b, RecsOf(log, 1), PayloadsOf(log, 1));
  }

  // The ladder: object `lo` whole, and each later one as a delta on the one before.

  function Rung(lo: nat, j: nat): Entry
    requires lo + j < 256
  {
    if j == 0 then Whole(BLOB, Thing(lo)) else Ofs(j - 1, Edit(lo + j))
  }

  function LadderPack(lo: nat, n: nat): Pack
    requires lo + n <= 256
  {
    seq(n, j requires 0 <= j < n => Rung(lo, j))
  }

  function RungOffset(j: nat): nat {
    if j == 0 then 0 else 20 + 6 * (j - 1)
  }

  function PlacedRung(w: World, lo: nat, j: nat): Placed
    requires lo + j < 256
  {
    var e := Rung(lo, j);
    Placed(j, Object(lo + j), if j == 0 then Root else OnPlaced(j - 1), 1,
           CueRecord(w.sha(Object(lo + j)), Span(BLOB, CODEC_RAW, RungOffset(j), |e.Payload()|, 20),
                     if j == 0 then ZERO_HASH else w.sha(Object(lo + j - 1))),
           e.Payload(), j)
  }

  function LadderLog(w: World, lo: nat, n: nat): seq<Placed>
    requires lo + n <= 256
  {
    seq(n, j requires 0 <= j < n => PlacedRung(w, lo, j))
  }

  /** It is what a push of that pack places. */
  lemma LadderIsSound(w: World, lo: nat, n: nat)
    requires Lawful(w) && n <= MAX_DELTA_DEPTH + 1 && lo + n <= 256
    ensures LogOk(w, LadderPack(lo, n), LadderLog(w, lo, n))
  {
    hide Delta.Apply, Thing, Edit;
    var p, log := LadderPack(lo, n), LadderLog(w, lo, n);
    forall k | 0 <= k < n ensures ResolvedAs(w, p, log[..k], log[k]) && Recorded(w, p, log[..k], log[k]) {
      RungIsSound(w, lo, n, k);
    }
  }

  lemma RungIsSound(w: World, lo: nat, n: nat, k: nat)
    requires Lawful(w) && k < n <= MAX_DELTA_DEPTH + 1 && lo + n <= 256
    ensures var p, log := LadderPack(lo, n), LadderLog(w, lo, n);
            ResolvedAs(w, p, log[..k], log[k]) && Recorded(w, p, log[..k], log[k])
  {
    hide Delta.Apply;
    var p, log := LadderPack(lo, n), LadderLog(w, lo, n);
    assert p[k] == Rung(lo, k) && log[k] == PlacedRung(w, lo, k);
    if k > 0 {
      EditApplies(lo + k);
      assert log[..k][k - 1] == PlacedRung(w, lo, k - 1);
    }
  }

  lemma {:induction false} LadderData(w: World, lo: nat, n: nat)
    requires lo + n <= 256
    ensures n > 0 ==> |DataOf(LadderLog(w, lo, n))| == RungOffset(n)
    ensures n == 0 ==> DataOf(LadderLog(w, lo, n)) == []
  {
    if n > 0 {
      LadderData(w, lo, n - 1);
      assert LadderLog(w, lo, n)[..n - 1] == LadderLog(w, lo, n - 1);
    }
  }

  lemma LadderInOne(w: World, lo: nat, n: nat)
    requires lo + n <= 256
    ensures InOneContainer(LadderLog(w, lo, n))
  {
    var log := LadderLog(w, lo, n);
    forall k | 0 <= k < n ensures StoredRaw(log, k) {
      LadderData(w, lo, k);
      assert log[..k] == LadderLog(w, lo, k);
    }
  }

  lemma LadderDistinct(w: World, lo: nat, n: nat)
    requires Injective(w) && lo + n <= 256
    ensures DistinctHashes(LadderLog(w, lo, n))
  {
    var log := LadderLog(w, lo, n);
    forall j, k | 0 <= j < k < n ensures log[j].rec.hash != log[k].rec.hash {
      assert Object(lo + j).bytes[0] != Object(lo + k).bytes[0];
    }
  }

  // An older push stores 52 on a whole 51, and a newer one stores 51 at the end of fifty links.

  /** The index of one container, for one record per hash, is what was placed in it. */
  lemma MapOfPlaced(c: Codec, byteLimit: nat, b: Container, log: seq<Placed>, id: string, k: nat)
    requires SealedKeep(c, byteLimit, [b], log) && DistinctHashes(log) && k < |log| && log[k].serial == 1
    ensures var r := log[k].rec;
            r.hash in MapOf(id, b.recs) && MapOf(id, b.recs)[r.hash] == PackEntry(id, r.span, r.base)
    ensures SpanHolds(c, log[k].rec.span, log[k].payload, b.bin)
  {
    hide SealedKeep, MapOf, DistinctHashes;
    var i := PlacedIsSealed(c, byteLimit, [b], log, k, 0);
    MapOfHas(id, b.recs, i);
    var j := MapOfIs(id, b.recs, log[k].rec.hash);
    SealedRecord(c, byteLimit, [b], log, 0, j, k);
  }

  lemma OnlyPlaced(c: Codec, byteLimit: nat, b: Container, log: seq<Placed>, id: string, h: Hash)
    requires SealedKeep(c, byteLimit, [b], log) && forall k :: 0 <= k < |log| ==> log[k].rec.hash != h
    ensures h !in MapOf(id, b.recs)
  {
    hide SealedKeep, MapOf;
    if h in MapOf(id, b.recs) {
      var i := MapOfIs(id, b.recs, h);
      var k := SealedWasPlaced(c, byteLimit, [b], log, 0, i);
    }
  }

  /** Two containers as a reader finds them, the newer one last. */
  ghost predicate Shelved(r: Repo, a: Container, b: Container) {
    && r.index == MapOfAll([("old", a.recs), ("new", b.recs)])
    && r.bins("old") == Some(a.bin) && r.bins("new") == Some(b.bin)
  }

  lemma MapOfTwo(a: (string, seq<CueRecord>), b: (string, seq<CueRecord>))
    ensures MapOfAll([a, b]) == MapOf(a.0, a.1) + MapOf(b.0, b.1)
  {
    assert [a, b][..1] == [a] && [a][..0] == [];
    assert MapOfAll([a]) == MapOf(a.0, a.1);
  }

  /** What the reader finds of object `k`. */
  ghost predicate Found(r: Repo, w: World, k: nat)
    requires 1 <= k < 256
  {
    var h := w.sha(Object(k));
    && h in r.index && r.index[h].span.typ == BLOB && r.index[h].span.raw == 20
    && r.index[h].base == (if k == 1 then ZERO_HASH else w.sha(Object(k - 1)))
    && PayloadOf(r, r.index[h]) == Some(if k == 1 then Thing(1) else Edit(k))
  }

  ghost predicate Pushed(w: World, c: Codec, byteLimit: nat, a: Container, b: Container) {
    SealedKeep(c, byteLimit, [a], LadderLog(w, 51, 2)) && SealedKeep(c, byteLimit, [b], LadderLog(w, 1, 51))
  }

  lemma AllFound(r: Repo, w: World, byteLimit: nat, a: Container, b: Container, k: nat)
    requires Lawful(w) && Injective(w) && Pushed(w, r.codec, byteLimit, a, b) && Shelved(r, a, b) && 1 <= k <= 52
    ensures Found(r, w, k)
  {
    hide SealedKeep, MapOf, MapOfAll, Thing, Edit, DistinctHashes;
    MapOfTwo(("old", a.recs), ("new", b.recs));
    var h := w.sha(Object(k));
    if k <= 51 {
      LadderDistinct(w, 1, 51);
      MapOfPlaced(r.codec, byteLimit, b, LadderLog(w, 1, 51), "new", k - 1);
      assert LadderLog(w, 1, 51)[k - 1] == PlacedRung(w, 1, k - 1);
    } else {
      LadderDistinct(w, 51, 2);
      MapOfPlaced(r.codec, byteLimit, a, LadderLog(w, 51, 2), "old", 1);
      assert LadderLog(w, 51, 2)[1] == PlacedRung(w, 51, 1);
      forall j | 0 <= j < 51 ensures LadderLog(w, 1, 51)[j].rec.hash != h {
        assert Object(1 + j).bytes[0] != Object(52).bytes[0];
      }
      OnlyPlaced(r.codec, byteLimit, b, LadderLog(w, 1, 51), "new", h);
    }
  }

  /** Going down from `k` at some depth: the object, or the refusal where the links run out. */
  lemma {:induction false} GoesDown(r: Repo, w: World, k: nat, depth: nat)
    requires Lawful(w) && Injective(w) && 1 <= k <= 52 && depth <= MAX_DELTA_DEPTH && forall i: nat :: 1 <= i <= 52 ==> Found(r, w, i)
    ensures DeltaBase(r, w.sha(Object(k)), depth)
         == if depth + k - 1 <= MAX_DELTA_DEPTH then Ok(Object(k)) else Failed(TooManyLinks)
    decreases k
  {
    hide PayloadOf, Delta.Apply, Thing, Edit;
    assert Found(r, w, k);
    if k > 1 {
      assert Object(k).bytes[0] != Object(k - 1).bytes[0];
      EditApplies(k);
      if depth < MAX_DELTA_DEPTH {
        GoesDown(r, w, k - 1, depth + 1);
      }
    }
  }

  lemma {:induction false} LinksDown(r: Repo, w: World, cs: Packs, chains: seq<map<Hash, nat>>, k: nat)
    requires Lawful(w) && 1 <= k <= 52 && (forall i: nat :: 1 <= i <= 52 ==> Found(r, w, i)) && r.index == MapOfAll(cs) && AllLocal(cs, chains)
    ensures var h := w.sha(Object(k));
            h in r.index && Links(cs, chains, h) == k - 1 && Unguarded(r, cs, chains, h) == Ok(Object(k))
  {
    hide MapOf, MapOfAll, AllLocal, Links, Unguarded, PayloadOf, Delta.Apply, Thing, Edit;
    assert Found(r, w, k);
    LinksStep(cs, chains, w.sha(Object(k)));
    UnguardedStep(r, cs, chains, w.sha(Object(k)));
    if k > 1 {
      EditApplies(k);
      LinksDown(r, w, cs, chains, k - 1);
    }
  }

  /** Both containers are what sound pushes seal and keep to fifty links. Every object rebuilds through
      its bases, and 51 reads back over fifty links; but 52 has fifty-one to follow and is refused. */
  lemma SharedHashPassesTheBound(r: Repo, w: World, byteLimit: nat, a: Container, b: Container)
    requires Lawful(w) && Injective(w) && Pushed(w, r.codec, byteLimit, a, b) && Shelved(r, a, b)
    ensures LogOk(w, LadderPack(51, 2), LadderLog(w, 51, 2)) && LogOk(w, LadderPack(1, 51), LadderLog(w, 1, 51))
    ensures var cs := [("old", a.recs), ("new", b.recs)];
            var chains := [ChainsOf(LadderLog(w, 51, 2)), ChainsOf(LadderLog(w, 1, 51))];
            var h := w.sha(Object(52));
            && AllLocal(cs, chains) && h in r.index
            && Links(cs, chains, h) == MAX_DELTA_DEPTH + 1 && Unguarded(r, cs, chains, h) == Ok(Object(52))
            && ReadPacked(r, h) == Failed(TooManyLinks) && ReadPacked(r, w.sha(Object(51))) == Ok(Object(51))
  {
    hide SealedKeep, MapOf, MapOfAll, LogOk, Thing, Edit, Links, Unguarded, PayloadOf, Delta.Apply, Local, ChainsOf, DistinctHashes;
    var old', new' := LadderLog(w, 51, 2), LadderLog(w, 1, 51);
    LadderIsSound(w, 51, 2);
    LadderIsSound(w, 1, 51);
    LadderDistinct(w, 51, 2);
    LadderDistinct(w, 1, 51);
    SealedIsLocal(w, LadderPack(51, 2), r.codec, byteLimit, [a], old', 0, "old");
    SealedIsLocal(w, LadderPack(1, 51), r.codec, byteLimit, [b], new', 0, "new");
    var cs, chains := [("old", a.recs), ("new", b.recs)], [ChainsOf(old'), ChainsOf(new')];
    forall i: nat | 1 <= i <= 52 ensures Found(r, w, i) {
      AllFound(r, w, byteLimit, a, b, i);
    }
    assert AllLocal(cs, chains);
    LinksDown(r, w, cs, chains, 52);
    ReadIsBase(r, w, 52);
    ReadIsBase(r, w, 51);
    GoesDown(r, w, 52, 0);
    GoesDown(r, w, 51, 0);
  }

  lemma ReadIsBase(r: Repo, w: World, k: nat)
    requires 1 <= k < 256 && Found(r, w, k)
    ensures ReadPacked(r, w.sha(Object(k))) == DeltaBase(r, w.sha(Object(k)), 0)
  {
    hide PayloadOf;
  }

  /** For every lawful hash and codec there are such containers. */
  lemma SuchContainersExist(w: World, c: Codec) returns (r: Repo, a: Container, b: Container)
    ensures r.codec == c && Pushed(w, c, 400, a, b) && Shelved(r, a, b)
  {
    hide SealedKeep, MapOfAll;
    var old', new' := LadderLog(w, 51, 2), LadderLog(w, 1, 51);
    LadderInOne(w, 51, 2);
    LadderInOne(w, 1, 51);
    LadderData(w, 51, 2);
    LadderData(w, 1, 51);
    a := SealExists(c, 400, old');
    b := SealExists(c, 400, new');
    var x, y := a.bin, b.bin;
    r := Repo(MapOfAll([("old", a.recs), ("new", b.recs)]),
              (id: string) => if id == "old" then Some(x) else if id == "new" then Some(y) else None,
              (h: Hash) => None, c);
  }

  // One object twice in a container: whole, and as a delta on an object built on it.

  function TwicePack(): Pack {
    [Whole(BLOB, Thing(0)), Ofs(0, Edit(1)), Ofs(1, BACK)]
  }

  function TwiceLog(w: World): seq<Placed> {
    var x, y := w.sha(Object(0)), w.sha(Object(1));
    [Placed(0, Object(0), Root, 1, CueRecord(x, Span(BLOB, CODEC_RAW, 0, 20, 20), ZERO_HASH), Thing(0), 0),
     Placed(1, Object(1), OnPlaced(0), 1, CueRecord(y, Span(BLOB, CODEC_RAW, 20, 6, 20), x), Edit(1), 1),
     Placed(2, Object(0), OnPlaced(1), 1, CueRecord(x, Span(BLOB, CODEC_RAW, 26, 7, 20), y), BACK, 2)]
  }

  lemma TwiceIsSound(w: World)
    requires Lawful(w)
    ensures LogOk(w, TwicePack(), TwiceLog(w)) && Complete(TwicePack(), TwiceLog(w)) && InOneContainer(TwiceLog(w)) && |DataOf(TwiceLog(w))| == 33
  {
    hide Delta.Apply, Thing;
    var p, log := TwicePack(), TwiceLog(w);
    EditApplies(1);
    BackApplies();
    forall k | 0 <= k < 3 ensures ResolvedAs(w, p, log[..k], log[k]) && Recorded(w, p, log[..k], log[k]) {
    }
    assert log[0] in log && log[1] in log && log[2] in log;
    assert log[..0] == [] && log[..1] == [log[0]] && log[..2] == [log[0], log[1]] && log[..3] == log;
    assert log[..1][..0] == [] && log[..2][..1] == log[..1] && log[..3][..2] == log[..2];
    assert |DataOf(log[..1])| == 20;
    assert |DataOf(log[..2])| == 26;
    assert StoredRaw(log, 0) && StoredRaw(log, 1) && StoredRaw(log, 2);
  }

  /** A reader of a container that holds this push. */
  ghost predicate ReadsTwice(r: Repo, w: World, byteLimit: nat, b: Container) {
    SealedKeep(r.codec, byteLimit, [b], TwiceLog(w)) && r.index == MapOf("p", b.recs) && r.bins("p") == Some(b.bin)
  }

  lemma TwiceFound(r: Repo, w: World, byteLimit: nat, b: Container)
    requires Lawful(w) && Injective(w) && ReadsTwice(r, w, byteLimit, b)
    ensures var x, y, log := w.sha(Object(0)), w.sha(Object(1)), TwiceLog(w);
            && x != y && x in r.index && y in r.index
            && r.index[y] == PackEntry("p", log[1].rec.span, x) && PayloadOf(r, r.index[y]) == Some(Edit(1))
            && (|| (r.index[x] == PackEntry("p", log[0].rec.span, ZERO_HASH) && PayloadOf(r, r.index[x]) == Some(Thing(0)))
                || (r.index[x] == PackEntry("p", log[2].rec.span, y) && PayloadOf(r, r.index[x]) == Some(BACK)))
  {
    hide SealedKeep, MapOf, Thing, Edit;
    var x, y, log := w.sha(Object(0)), w.sha(Object(1)), TwiceLog(w);
    assert Object(0).bytes[0] != Object(1).bytes[0];
    var i0 := PlacedIsSealed(r.codec, byteLimit, [b], log, 0, 0);
    var i1 := PlacedIsSealed(r.codec, byteLimit, [b], log, 1, 0);
    var i2 := PlacedIsSealed(r.codec, byteLimit, [b], log, 2, 0);
    MapOfHas("p", b.recs, i0);
    MapOfHas("p", b.recs, i1);
    var j := MapOfIs("p", b.recs, y);
    var k := SealedWasPlaced(r.codec, byteLimit, [b], log, 0, j);
    var j' := MapOfIs("p", b.recs, x);
    var k' := SealedWasPlaced(r.codec, byteLimit, [b], log, 0, j');
  }

  /** The push is sound, and still both its objects read back exactly when the whole record of the
      first counts. When its delta record counts, the two are each other's base and are refused. */
  lemma TwiceGoesRound(r: Repo, w: World, byteLimit: nat, b: Container)
    requires Lawful(w) && Injective(w) && ReadsTwice(r, w, byteLimit, b)
    ensures var x, y := w.sha(Object(0)), w.sha(Object(1));
            && x in r.index && y in r.index
            && (if r.index[x].base == ZERO_HASH
                then ReadPacked(r, x) == Ok(Object(0)) && ReadPacked(r, y) == Ok(Object(1))
                else ReadPacked(r, x) == ReadPacked(r, y) == Failed(TooManyLinks))
  {
    hide SealedKeep, MapOf, Thing, Edit, PayloadOf, Delta.Apply;
    TwiceFound(r, w, byteLimit, b);
    var x, y := w.sha(Object(0)), w.sha(Object(1));
    EditApplies(1);
    if r.index[x].base != ZERO_HASH {
      RoundAndRound(r, x, y, 1);
      RoundAndRound(r, y, x, 1);
    }
  }

  lemma {:induction false} RoundAndRound(r: Repo, x: Hash, y: Hash, depth: nat)
    requires x != y && x in r.index && y in r.index && r.index[x].base == y && r.index[y].base == x && x != ZERO_HASH && y != ZERO_HASH
    requires PayloadOf(r, r.index[x]).Some? && PayloadOf(r, r.index[y]).Some?
    ensures DeltaBase(r, x, depth) == Failed(TooManyLinks)
    decreases MAX_DELTA_DEPTH + 1 - depth
  {
    hide PayloadOf;
    if depth < MAX_DELTA_DEPTH {
      RoundAndRound(r, y, x, depth + 1);
    }
  }

  /** The sort does not say which of two equal hashes comes first: both containers can be sealed. */
  lemma EitherOrderIsSealed(w: World, c: Codec) returns (good: Container, bad: Container)
    requires Lawful(w) && Injective(w)
    ensures SealedKeep(c, 400, [good], TwiceLog(w)) && SealedKeep(c, 400, [bad], TwiceLog(w))
    ensures var x := w.sha(Object(0));
            && x in MapOf("p", good.recs) && MapOf("p", good.recs)[x].base == ZERO_HASH
            && x in MapOf("p", bad.recs) && MapOf("p", bad.recs)[x].base != ZERO_HASH
  {
    hide SealedKeep, Thing, Edit, MapOf, DataOf, RecsOf, InOneContainer, LogOk;
    var log := TwiceLog(w);
    var whole, other, again := log[0].rec, log[1].rec, log[2].rec;
    assert Object(0).bytes[0] != Object(1).bytes[0];
    TwiceIsSound(w);
    TwiceRecs(w);
    good := SealInOrder(c, log, again, whole, other);
    bad := SealInOrder(c, log, whole, again, other);
  }

  /** Of two records of one hash, `b` can be sorted behind `a`, and counts then. */
  lemma SealInOrder(c: Codec, log: seq<Placed>, a: CueRecord, b: CueRecord, other: CueRecord) returns (s: Container)
    requires InOneContainer(log) && log != [] && |DataOf(log)| <= 400 && a.hash == b.hash != other.hash
    requires RecsOf(log, 1) == [a] + [other] + [b] || RecsOf(log, 1) == [b] + [other] + [a]
    ensures SealedKeep(c, 400, [s], log)
    ensures b.hash in MapOf("p", s.recs) && MapOf("p", s.recs)[b.hash] == PackEntry("p", b.span, b.base)
  {
    hide SealedKeep, MapOf, DataOf, RecsOf, InOneContainer, Search.SortedBy;
    var x, y, z := [a], [b], [other];
    AnyOrder(x, z, y);
    AnyOrder(y, z, x);
    InOrder(x, y, z);
    var recs := if other.hash < a.hash then z + x + y else x + y + z;
    LastCounts("p", if other.hash < a.hash then z + x else x, b, if other.hash < a.hash then [] else z);
    assert z + x + y + [] == z + x + y;
    SealOf(c, 400, log, recs);
    s := Container(recs, DataOf(log));
  }

  lemma AnyOrder<T>(x: seq<T>, y: seq<T>, z: seq<T>)
    ensures multiset(y + x + z) == multiset(x + y + z) && multiset(y + z + x) == multiset(x + y + z)
    ensures multiset(x + z + y) == multiset(x + y + z) && multiset(z + x + y) == multiset(x + y + z)
  {
  }

  lemma InOrder(x: seq<CueRecord>, y: seq<CueRecord>, z: seq<CueRecord>)
    requires |x| == |y| == |z| == 1 && x[0].hash == y[0].hash
    ensures z[0].hash < x[0].hash ==> Search.SortedBy(z + x + y, (r: CueRecord) => r.hash)
    ensures x[0].hash <= z[0].hash ==> Search.SortedBy(x + y + z, (r: CueRecord) => r.hash)
  {
  }

  lemma TwiceRecs(w: World)
    ensures RecsOf(TwiceLog(w), 1) == [TwiceLog(w)[0].rec] + [TwiceLog(w)[1].rec] + [TwiceLog(w)[2].rec]
  {
    var log := TwiceLog(w);
    assert log[..2][..1] == log[..1] && log[..1][..0] == [];
    assert RecsOf(log[..1], 1) == [log[0].rec];
    assert RecsOf(log[..2], 1) == [log[0].rec] + [log[1].rec];
  }

  lemma LastCounts(id: string, low: seq<CueRecord>, r: CueRecord, last: seq<CueRecord>)
    requires |last| <= 1 && forall x <- last :: x.hash != r.hash
    ensures var m := MapOf(id, low + [r] + last);
            r.hash in m && m[r.hash] == PackEntry(id, r.span, r.base)
  {
    assert (low + [r])[..|low|] == low;
    if last == [] {
      assert low + [r] + last == low + [r];
    } else {
      assert (low + [r] + last)[..|low| + 1] == low + [r];
    }
  }
}
