/** One table of the pack index: the records of one or more packs, sorted by hash. */
module PackTable {
  import opened Prelude
  import Search

  /** Where a payload lies in its container, how it is encoded, and what object it is. */
  datatype Span = Span(typ: int, codec: nat, offset: nat, stored: nat, raw: nat)

  /** A record as the table's sources give it. A zero base means that the payload is the whole object. */
  datatype Source = Source(hash: Hash, span: Span, pack: nat, base: Hash)

  /** A stored record. `base` is a record number, or one of the two markers below. */
  datatype Rec = Rec(span: Span, pack: nat, base: int)

  const BASE_NONE: int := -1
  const BASE_FAR: int := -2

  /** `pack` is the one pack of every record, or -1 when there is more than one. */
  datatype Table = Table(hashes: seq<Hash>, recs: seq<Rec>, farBase: map<nat, Hash>, pack: int)

  ghost predicate Increasing(hs: seq<Hash>) {
    forall i, j :: 0 <= i < j < |hs| ==> hs[i] < hs[j]
  }

  /** Every base of record `i` can be read back. */
  predicate BaseOk(t: Table, i: nat)
    requires i < |t.recs|
  {
    var b := t.recs[i].base;
    b == BASE_NONE || (b == BASE_FAR && i in t.farBase) || 0 <= b < |t.hashes|
  }

  ghost predicate WellFormed(t: Table) {
    && |t.hashes| == |t.recs| && Increasing(t.hashes)
    && (forall i :: 0 <= i < |t.recs| ==> BaseOk(t, i))
    && (t.pack >= 0 ==> forall i :: 0 <= i < |t.recs| ==> t.recs[i].pack == t.pack)
  }

  /** The record number of a hash. */
  function Find(t: Table, h: Hash): (r: Option<nat>)
    requires |t.hashes| == |t.recs|
    ensures r.Some? ==> r.value < |t.recs| && t.hashes[r.value] == h
  {
    var i := Search.LowerBound(t.hashes, h);
    if i < |t.hashes| && t.hashes[i] == h then Some(i) else None
  }

  lemma FindIsComplete(t: Table, i: nat)
    requires WellFormed(t) && i < |t.recs|
    ensures Find(t, t.hashes[i]) == Some(i)
  {
    Search.LowerBoundSplits(t.hashes, t.hashes[i]);
  }

  lemma FindMiss(t: Table, h: Hash)
    requires WellFormed(t) && h !in t.hashes
    ensures Find(t, h) == None
  {
  }

  function BaseHash(t: Table, i: nat): Hash
    requires i < |t.recs| && BaseOk(t, i)
  {
    var b := t.recs[i].base;
    if b == BASE_NONE then ZERO_HASH else if b == BASE_FAR then t.farBase[i] else t.hashes[b]
  }

  /** Record `i` with its base hash back in place. */
  function SourceOf(t: Table, i: nat): Source
    requires |t.hashes| == |t.recs| && i < |t.recs| && BaseOk(t, i)
  {
    Source(t.hashes[i], t.recs[i].span, t.recs[i].pack, BaseHash(t, i))
  }

  /** What the table knows about a hash. */
  ghost function TableAt(t: Table, h: Hash): Option<Source>
    requires WellFormed(t)
  {
    var r := Find(t, h);
    if r.Some? then Some(SourceOf(t, r.value)) else None
  }

  /** The last source with a hash. */
  function LastAt(src: seq<Source>, h: Hash): Option<Source> {
    if src == [] then None
    else if src[|src| - 1].hash == h then Some(src[|src| - 1])
    else LastAt(src[..|src| - 1], h)
  }

  // The stable order of the sources: by hash, and by place for equal hashes.

  ghost predicate Before(src: seq<Source>, a: nat, b: nat)
    requires a < |src| && b < |src|
  {
    src[a].hash < src[b].hash || (src[a].hash == src[b].hash && a < b)
  }

  ghost predicate StableOrder(src: seq<Source>, n: nat, order: seq<nat>)
    requires n <= |src|
  {
    && (forall k :: 0 <= k < |order| ==> order[k] < n)
    && (forall i :: 0 <= i < n ==> i in order)
    && (forall k, l :: 0 <= k < l < |order| ==> Before(src, order[k], order[l]))
  }

  /** The place after every index whose hash is not above that of source `i`. */
  function InsertionPoint(src: seq<Source>, order: seq<nat>, i: nat): (k: nat)
    requires i < |src| && forall l :: 0 <= l < |order| ==> order[l] < |src|
    ensures k <= |order|
    ensures k > 0 ==> src[order[k - 1]].hash <= src[i].hash
    ensures forall l :: k <= l < |order| ==> src[order[l]].hash > src[i].hash
  {
    if order == [] || src[order[|order| - 1]].hash <= src[i].hash then |order|
    else InsertionPoint(src, order[..|order| - 1], i)
  }

  /** A stable sort of the source places by hash. */
  method SortStable(src: seq<Source>) returns (order: seq<nat>)
    ensures StableOrder(src, |src|, order)
  {
    order := [];
    for i := 0 to |src|
      invariant StableOrder(src, i, order)
    {
      var k := InsertionPoint(src, order, i);
      Inserted(src, i, order, k);
      order := order[..k] + [i] + order[k..];
    }
  }

  lemma Inserted(src: seq<Source>, i: nat, order: seq<nat>, k: nat)
    requires i < |src| && StableOrder(src, i, order) && k <= |order|
    requires k > 0 ==> src[order[k - 1]].hash <= src[i].hash
    requires forall l :: k <= l < |order| ==> src[order[l]].hash > src[i].hash
    ensures StableOrder(src, i + 1, order[..k] + [i] + order[k..])
  {
    var out := order[..k] + [i] + order[k..];
    forall j | 0 <= j < i + 1 ensures j in out {
      if j < i {
        assert j in order;
        var m :| 0 <= m < |order| && order[m] == j;
        assert out[if m < k then m else m + 1] == j;
      } else {
        assert out[k] == i;
      }
    }
    forall m, l | 0 <= m < l < |out| ensures Before(src, out[m], out[l]) {
      if l == k {
        assert out[m] == order[m];
        assert m < k - 1 ==> Before(src, order[m], order[k - 1]);
      } else if m == k {
        assert out[l] == order[l - 1];
      } else {
        assert Before(src, order[if m < k then m else m - 1], order[if l < k then l else l - 1]);
      }
    }
  }

  /** No later source has the same hash. */
  ghost predicate IsLast(src: seq<Source>, i: nat)
    requires i < |src|
  {
    forall j :: i < j < |src| ==> src[j].hash != src[i].hash
  }

  lemma {:induction false} LastAtIs(src: seq<Source>, i: nat)
    requires i < |src| && IsLast(src, i)
    ensures LastAt(src, src[i].hash) == Some(src[i])
  {
    var n := |src| - 1;
    if i < n {
      assert src[n].hash != src[i].hash;
      LastAtIs(src[..n], i);
    }
  }

  lemma {:induction false} LastAtNone(src: seq<Source>, h: Hash)
    requires forall i :: 0 <= i < |src| ==> src[i].hash != h
    ensures LastAt(src, h) == None
  {
    if src != [] {
      LastAtNone(src[..|src| - 1], h);
    }
  }

  /** The places kept of each run of equal hashes: the last of every hash, in hash order. */
  ghost predicate KeepsLasts(src: seq<Source>, kept: seq<nat>) {
    && (forall k :: 0 <= k < |kept| ==> kept[k] < |src| && IsLast(src, kept[k]))
    && (forall k, l :: 0 <= k < l < |kept| ==> src[kept[k]].hash < src[kept[l]].hash)
    && forall i :: 0 <= i < |src| ==> Kept(src, kept, src[i].hash)
  }

  ghost predicate Kept(src: seq<Source>, kept: seq<nat>, h: Hash) {
    exists k :: 0 <= k < |kept| && kept[k] < |src| && src[kept[k]].hash == h
  }

  /** Keeps the last source of every hash. */
  method Dedupe(src: seq<Source>, order: seq<nat>) returns (kept: seq<nat>)
    requires StableOrder(src, |src|, order)
    ensures KeepsLasts(src, kept) && forall k :: 0 <= k < |kept| ==> kept[k] < |src|
  {
    hide IsLast;
    kept := [];
    for k := 0 to |order|
      invariant forall m :: 0 <= m < |kept| ==> kept[m] < |src| && IsLast(src, kept[m])
      invariant forall m :: 0 <= m < |kept| && k < |order| ==> src[kept[m]].hash < src[order[k]].hash
      invariant forall m, l :: 0 <= m < l < |kept| ==> src[kept[m]].hash < src[kept[l]].hash
      invariant forall p :: 0 <= p < k ==>
                  Kept(src, kept, src[order[p]].hash) || (k < |order| && src[order[p]].hash == src[order[k]].hash)
    {
      var i := order[k];
      if k + 1 < |order| && src[i].hash == src[order[k + 1]].hash {
        continue;
      }
      LastInOrder(src, order, k);
      ghost var before := kept;
      kept := kept + [i];
      forall p | 0 <= p <= k ensures Kept(src, kept, src[order[p]].hash) {
        if Kept(src, before, src[order[p]].hash) {
          var m :| 0 <= m < |before| && before[m] < |src| && src[before[m]].hash == src[order[p]].hash;
          assert kept[m] == before[m];
        } else {
          assert kept[|before|] == i;
        }
      }
      if k + 1 < |order| {
        assert Before(src, order[k], order[k + 1]);
      }
    }
    forall i | 0 <= i < |src| ensures Kept(src, kept, src[i].hash) {
      assert i in order;
    }
  }

  lemma LastInOrder(src: seq<Source>, order: seq<nat>, k: nat)
    requires StableOrder(src, |src|, order) && k < |order|
    requires k + 1 < |order| ==> src[order[k]].hash != src[order[k + 1]].hash
    ensures IsLast(src, order[k])
  {
    forall j | order[k] < j < |src| ensures src[j].hash != src[order[k]].hash {
      assert j in order;
      var l :| 0 <= l < |order| && order[l] == j;
      if l < k {
        assert Before(src, order[l], order[k]);
      } else if l > k {
        assert Before(src, order[k], order[k + 1]);
        assert l > k + 1 ==> Before(src, order[k + 1], order[l]);
      }
    }
  }

  /** The number a base gets in a table with these hashes. */
  function BaseNumber(hashes: seq<Hash>, base: Hash): int {
    if base == ZERO_HASH then BASE_NONE
    else
      var j := Search.LowerBound(hashes, base);
      if j < |hashes| && hashes[j] == base then j else BASE_FAR
  }

  /** A table of the sources: for every hash it knows exactly the last source, base hash included. */
  method BuildTable(src: seq<Source>) returns (t: Table)
    ensures WellFormed(t)
    ensures forall h :: TableAt(t, h) == LastAt(src, h)
    ensures |t.recs| == 0 <==> |src| == 0
  {
    hide KeepsLasts, StableOrder, WellFormed, LastAt, TableAt;
    var order := SortStable(src);
    var kept := Dedupe(src, order);
    t := NumberBases(src, kept);
    TableKnowsLasts(src, kept, t);
  }

  /** Replaces each base hash by a record number, or files it as far. */
  method NumberBases(src: seq<Source>, kept: seq<nat>) returns (t: Table)
    requires forall k :: 0 <= k < |kept| ==> kept[k] < |src|
    ensures |t.hashes| == |t.recs| == |kept|
    ensures forall k :: 0 <= k < |kept| ==> t.hashes[k] == src[kept[k]].hash
    ensures forall k :: 0 <= k < |kept| ==> t.recs[k] == Rec(src[kept[k]].span, src[kept[k]].pack, BaseNumber(t.hashes, src[kept[k]].base))
    ensures forall k :: 0 <= k < |kept| && t.recs[k].base == BASE_FAR ==> k in t.farBase && t.farBase[k] == src[kept[k]].base
    ensures t.pack >= 0 ==> forall i :: 0 <= i < |t.recs| ==> t.recs[i].pack == t.pack
  {
    hide BaseNumber;
    var hashes: seq<Hash> := [];
    for k := 0 to |kept|
      invariant |hashes| == k && forall m :: 0 <= m < k ==> hashes[m] == src[kept[m]].hash
    {
      hashes := hashes + [src[kept[k]].hash];
    }
    var recs: seq<Rec> := [];
    var farBase: map<nat, Hash> := map[];
    for k := 0 to |kept|
      invariant |recs| == k
      invariant forall m :: 0 <= m < k ==> recs[m] == Rec(src[kept[m]].span, src[kept[m]].pack, BaseNumber(hashes, src[kept[m]].base))
      invariant forall m :: 0 <= m < k && recs[m].base == BASE_FAR ==> m in farBase && farBase[m] == src[kept[m]].base
    {
      var s := src[kept[k]];
      var b := BaseNumber(hashes, s.base);
      recs := recs + [Rec(s.span, s.pack, b)];
      if b == BASE_FAR {
        farBase := farBase[k := s.base];
      }
    }
    var pack := OnlyPack(recs);
    t := Table(hashes, recs, farBase, pack);
  }

  method OnlyPack(recs: seq<Rec>) returns (pack: int)
    ensures pack >= 0 <==> recs != [] && forall i :: 0 <= i < |recs| ==> recs[i].pack == recs[0].pack
    ensures pack >= 0 ==> pack == recs[0].pack
  {
    pack := -1;
    for k := 0 to |recs|
      invariant k > 0 ==> (pack >= 0 <==> forall i :: 0 <= i < k ==> recs[i].pack == recs[0].pack)
      invariant if pack >= 0 then k > 0 && pack == recs[0].pack else pack == -1
    {
      if k == 0 {
        pack := recs[k].pack;
      } else if pack != recs[k].pack {
        pack := -1;
      }
    }
  }

  lemma TableKnowsLasts(src: seq<Source>, kept: seq<nat>, t: Table)
    requires KeepsLasts(src, kept) && |t.hashes| == |t.recs| == |kept|
    requires forall k :: 0 <= k < |kept| ==> t.hashes[k] == src[kept[k]].hash
    requires forall k :: 0 <= k < |kept| ==> t.recs[k] == Rec(src[kept[k]].span, src[kept[k]].pack, BaseNumber(t.hashes, src[kept[k]].base))
    requires forall k :: 0 <= k < |kept| && t.recs[k].base == BASE_FAR ==> k in t.farBase && t.farBase[k] == src[kept[k]].base
    requires t.pack >= 0 ==> forall i :: 0 <= i < |t.recs| ==> t.recs[i].pack == t.pack
    ensures WellFormed(t) && forall h :: TableAt(t, h) == LastAt(src, h)
    ensures kept == [] <==> src == []
  {
    assert src != [] ==> Kept(src, kept, src[0].hash);
    assert kept != [] ==> kept[0] < |src|;
    assert WellFormed(t);
    forall h ensures TableAt(t, h) == LastAt(src, h) {
      if k :| 0 <= k < |kept| && src[kept[k]].hash == h {
        FindIsComplete(t, k);
        LastAtIs(src, kept[k]);
      } else {
        assert forall i :: 0 <= i < |src| ==> Kept(src, kept, src[i].hash);
        LastAtNone(src, h);
        FindMiss(t, h);
      }
    }
  }

  // Several tables, oldest first, with a set of dead packs.

  ghost predicate AllWellFormed(tables: seq<Table>) {
    forall k :: 0 <= k < |tables| ==> WellFormed(tables[k])
  }

  /** The record of a hash: in the newest table that has it, skipping dead packs. */
  ghost function Lookup(tables: seq<Table>, dead: set<nat>, h: Hash): Option<Source>
    requires AllWellFormed(tables)
  {
    if tables == [] then None
    else
      var n := |tables| - 1;
      var r := TableAt(tables[n], h);
      if r.Some? && r.value.pack !in dead then r else Lookup(tables[..n], dead, h)
  }

  /** The lookup as the snapshot does it: newest table first. */
  method LookupScan(tables: seq<Table>, dead: set<nat>, h: Hash) returns (r: Option<Source>)
    requires AllWellFormed(tables)
    ensures r == Lookup(tables, dead, h)
  {
    var k := |tables|;
    assert tables[..k] == tables;
    while k > 0
      invariant 0 <= k <= |tables|
      invariant Lookup(tables, dead, h) == Lookup(tables[..k], dead, h)
    {
      k := k - 1;
      assert tables[..k + 1][..k] == tables[..k];
      var t := tables[k];
      var i := Find(t, h);
      if i.Some? && t.recs[i.value].pack !in dead {
        return Some(SourceOf(t, i.value));
      }
    }
    r := None;
  }

  function LiveOf(t: Table, dead: set<nat>, n: nat): seq<Source>
    requires |t.hashes| == |t.recs| && n <= |t.recs| && forall i :: 0 <= i < |t.recs| ==> BaseOk(t, i)
  {
    if n == 0 then []
    else LiveOf(t, dead, n - 1) + if t.recs[n - 1].pack in dead then [] else [SourceOf(t, n - 1)]
  }

  ghost function LiveSources(tables: seq<Table>, dead: set<nat>): seq<Source>
    requires AllWellFormed(tables)
  {
    if tables == [] then []
    else
      var t := tables[|tables| - 1];
      LiveSources(tables[..|tables| - 1], dead) + LiveOf(t, dead, |t.recs|)
  }

  lemma {:induction false} LastAtConcat(a: seq<Source>, b: seq<Source>, h: Hash)
    ensures LastAt(a + b, h) == if LastAt(b, h).Some? then LastAt(b, h) else LastAt(a, h)
  {
    if b == [] {
      assert a + b == a;
    } else {
      assert (a + b)[..|a + b| - 1] == a + b[..|b| - 1];
      LastAtConcat(a, b[..|b| - 1], h);
    }
  }

  lemma LastAtOne(s: Source, h: Hash)
    ensures LastAt([s], h) == if s.hash == h then Some(s) else None
  {
    assert [s][..0] == [];
  }

  /** Among the first `n` live records, a hash is found exactly when its record is one of them. */
  lemma {:induction false} LiveOfAt(t: Table, dead: set<nat>, n: nat, h: Hash)
    requires WellFormed(t) && n <= |t.recs|
    ensures var i := Find(t, h);
            LastAt(LiveOf(t, dead, n), h) ==
            if i.Some? && i.value < n && t.recs[i.value].pack !in dead then Some(SourceOf(t, i.value)) else None
  {
    if n > 0 {
      LiveOfAt(t, dead, n - 1, h);
      FindIsComplete(t, n - 1);
      var tail := if t.recs[n - 1].pack in dead then [] else [SourceOf(t, n - 1)];
      LastAtConcat(LiveOf(t, dead, n - 1), tail, h);
      LastAtOne(SourceOf(t, n - 1), h);
    }
  }

  /** Merging changes no answer: the last live record of a hash is the one lookup finds. */
  lemma {:induction false} MergedAnswer(tables: seq<Table>, dead: set<nat>, h: Hash)
    requires AllWellFormed(tables)
    ensures LastAt(LiveSources(tables, dead), h) == Lookup(tables, dead, h)
  {
    if tables != [] {
      var n := |tables| - 1;
      var t := tables[n];
      MergedAnswer(tables[..n], dead, h);
      LastAtConcat(LiveSources(tables[..n], dead), LiveOf(t, dead, |t.recs|), h);
      LiveOfAt(t, dead, |t.recs|, h);
    }
  }

  /** One table in place of many, without the records of dead packs. */
  method MergeTables(tables: seq<Table>, dead: set<nat>) returns (t: Table)
    requires AllWellFormed(tables)
    ensures WellFormed(t)
    ensures forall h :: TableAt(t, h) == Lookup(tables, dead, h)
    ensures forall i :: 0 <= i < |t.recs| ==> t.recs[i].pack !in dead
  {
    var src: seq<Source> := [];
    for k := 0 to |tables|
      invariant src == LiveSources(tables[..k], dead)
    {
      assert tables[..k + 1][..k] == tables[..k];
      var u := tables[k];
      ghost var before := src;
      for i := 0 to |u.recs|
        invariant src == before + LiveOf(u, dead, i)
      {
        if u.recs[i].pack !in dead {
          src := src + [SourceOf(u, i)];
        }
      }
    }
    assert tables[..|tables|] == tables;
    t := BuildTable(src);
    forall h ensures TableAt(t, h) == Lookup(tables, dead, h) {
      MergedAnswer(tables, dead, h);
    }
    forall i | 0 <= i < |t.recs| ensures t.recs[i].pack !in dead {
      FindIsComplete(t, i);
      LookupIsLive(tables, dead, t.hashes[i]);
    }
  }

  lemma {:induction false} LookupIsLive(tables: seq<Table>, dead: set<nat>, h: Hash)
    requires AllWellFormed(tables)
    ensures Lookup(tables, dead, h).Some? ==> Lookup(tables, dead, h).value.pack !in dead && Lookup(tables, dead, h).value.hash == h
  {
    if tables != [] {
      LookupIsLive(tables[..|tables| - 1], dead, h);
    }
  }
}
