/** A storer's pack index: a growing list of tables with a set of dead packs, automatic merging,
    and snapshots that share the list's backing array. It answers like a plain newest-wins map. */
module PackIndex {
  import opened Prelude
  import opened PackTable

  const MAX_PACK_TABLES: nat := 16

  /** A record of a container's .cue index. */
  datatype CueRecord = CueRecord(hash: Hash, span: Span, base: Hash)

  datatype PackEntry = PackEntry(id: string, span: Span, base: Hash)

  type EntryMap = map<Hash, PackEntry>

  /** The records of one container as a map: the last record of a hash counts. */
  function MapOf(id: string, recs: seq<CueRecord>): EntryMap {
    if recs == [] then map[]
    else
      var r := recs[|recs| - 1];
      MapOf(id, recs[..|recs| - 1])[r.hash := PackEntry(id, r.span, r.base)]
  }

  /** A cold listing as a map: later containers win. */
  function MapOfAll(packs: seq<(string, seq<CueRecord>)>): EntryMap {
    if packs == [] then map[]
    else MapOfAll(packs[..|packs| - 1]) + MapOf(packs[|packs| - 1].0, packs[|packs| - 1].1)
  }

  function At(m: EntryMap, h: Hash): Option<PackEntry> {
    if h in m then Some(m[h]) else None
  }

  function SourcesOf(pack: nat, recs: seq<CueRecord>): (s: seq<Source>)
    ensures |s| == |recs| && forall i :: 0 <= i < |s| ==> s[i] == Source(recs[i].hash, recs[i].span, pack, recs[i].base)
  {
    seq(|recs|, i requires 0 <= i < |recs| => Source(recs[i].hash, recs[i].span, pack, recs[i].base))
  }

  function EntryOf(ids: seq<string>, s: Source): PackEntry {
    PackEntry(if s.pack < |ids| then ids[s.pack] else "", s.span, s.base)
  }

  function OptEntry(ids: seq<string>, s: Option<Source>): Option<PackEntry> {
    if s.Some? then Some(EntryOf(ids, s.value)) else None
  }

  lemma {:induction false} SourcesAnswer(ids: seq<string>, pack: nat, recs: seq<CueRecord>, h: Hash)
    requires pack < |ids|
    ensures OptEntry(ids, LastAt(SourcesOf(pack, recs), h)) == At(MapOf(ids[pack], recs), h)
    ensures LastAt(SourcesOf(pack, recs), h).Some? ==> LastAt(SourcesOf(pack, recs), h).value.pack == pack
  {
    if recs != [] {
      var n := |recs| - 1;
      assert SourcesOf(pack, recs)[..n] == SourcesOf(pack, recs[..n]);
      SourcesAnswer(ids, pack, recs[..n], h);
    }
  }

  method NewPackTable(pack: nat, recs: seq<CueRecord>) returns (t: Table)
    ensures WellFormed(t) && (|t.recs| == 0 <==> |recs| == 0)
    ensures forall h :: TableAt(t, h) == LastAt(SourcesOf(pack, recs), h)
    ensures forall i :: 0 <= i < |t.recs| ==> t.recs[i].pack == pack
  {
    t := BuildTable(SourcesOf(pack, recs));
    forall i | 0 <= i < |t.recs| ensures t.recs[i].pack == pack {
      FindIsComplete(t, i);
      LastAtPack(pack, recs, t.hashes[i]);
    }
  }

  lemma {:induction false} LastAtPack(pack: nat, recs: seq<CueRecord>, h: Hash)
    ensures LastAt(SourcesOf(pack, recs), h).Some? ==> LastAt(SourcesOf(pack, recs), h).value.pack == pack
  {
    if recs != [] {
      var n := |recs| - 1;
      assert SourcesOf(pack, recs)[..n] == SourcesOf(pack, recs[..n]);
      LastAtPack(pack, recs[..n], h);
    }
  }

  /** Putting a table on top: its live records win. */
  lemma LookupOnTop(tables: seq<Table>, t: Table, dead: set<nat>, h: Hash)
    requires AllWellFormed(tables) && WellFormed(t)
    ensures AllWellFormed(tables + [t])
    ensures var r := TableAt(t, h);
            Lookup(tables + [t], dead, h) == if r.Some? && r.value.pack !in dead then r else Lookup(tables, dead, h)
  {
    assert (tables + [t])[..|tables|] == tables;
  }

  /** Putting tables underneath: they answer where the others do not. */
  lemma {:induction false} LookupUnderneath(below: seq<Table>, above: seq<Table>, dead: set<nat>, h: Hash)
    requires AllWellFormed(below) && AllWellFormed(above)
    ensures AllWellFormed(below + above)
    ensures Lookup(below + above, dead, h) == if Lookup(above, dead, h).Some? then Lookup(above, dead, h) else Lookup(below, dead, h)
  {
    if above == [] {
      assert below + above == below;
    } else {
      var n := |above| - 1;
      LookupUnderneath(below, above[..n], dead, h);
      assert below + above == (below + above[..n]) + [above[n]];
      LookupOnTop(below + above[..n], above[n], dead, h);
    }
  }

  lemma LookupMerged(t: Table, tables: seq<Table>, dead: set<nat>, h: Hash)
    requires AllWellFormed(tables) && WellFormed(t) && TableAt(t, h) == Lookup(tables, dead, h)
    ensures AllWellFormed([t]) && Lookup([t], {}, h) == Lookup(tables, dead, h)
  {
    assert [t][..0] == [];
  }

  /** A single-pack table is dropped and a shared one is kept: what other packs answer stays. */
  lemma {:induction false} LookupWithout(tables: seq<Table>, kept: seq<Table>, dead: set<nat>, dead': set<nat>, num: nat, h: Hash)
    requires AllWellFormed(tables) && kept == Without(tables, num)
    requires dead <= dead' <= dead + {num}
    ensures AllWellFormed(kept)
    ensures Lookup(tables, dead, h).Some? && Lookup(tables, dead, h).value.pack != num ==> Lookup(kept, dead', h) == Lookup(tables, dead, h)
    ensures Lookup(tables, dead, h).None? ==> Lookup(kept, dead', h).None?
  {
    if tables != [] {
      var n := |tables| - 1;
      LookupWithout(tables[..n], Without(tables[..n], num), dead, dead', num, h);
      var r := TableAt(tables[n], h);
      if tables[n].pack == num {
        assert kept == Without(tables[..n], num);
        assert r.Some? ==> r.value.pack == num;
      } else {
        LookupOnTop(Without(tables[..n], num), tables[n], dead', h);
      }
    }
  }

  function Without(tables: seq<Table>, num: nat): seq<Table> {
    if tables == [] then []
    else
      var t := tables[|tables| - 1];
      Without(tables[..|tables| - 1], num) + if t.pack == num then [] else [t]
  }

  /** All records are of packs in `packs`. */
  ghost predicate PacksIn(tables: seq<Table>, packs: set<nat>) {
    forall k, i :: 0 <= k < |tables| && 0 <= i < |tables[k].recs| ==> tables[k].recs[i].pack in packs
  }

  lemma {:induction false} LookupIn(tables: seq<Table>, dead: set<nat>, packs: set<nat>, h: Hash)
    requires AllWellFormed(tables) && PacksIn(tables, packs)
    ensures Lookup(tables, dead, h).Some? ==> Lookup(tables, dead, h).value.pack in packs
  {
    if tables != [] {
      LookupIn(tables[..|tables| - 1], dead, packs, h);
    }
  }

  /** The index as a value, with its history: the plain map it should agree with, whether a pack was
      ever taken out, and the packs taken out and not registered or listed since. */
  datatype State = State(ids: seq<string>, idNum: map<string, nat>, tables: seq<Table>, dead: set<nat>,
                         newest: EntryMap, pristine: bool, gone: set<string>)

  /** The packs a record may be of: known ones, and gone ones only if they are marked dead. */
  function Allowed(s: State): set<nat> {
    set n | 0 <= n < |s.ids| && (s.ids[n] in s.gone ==> n in s.dead)
  }

  ghost predicate Numbered(s: State) {
    && (forall id :: id in s.idNum ==> s.idNum[id] < |s.ids| && s.ids[s.idNum[id]] == id)
    && (forall n :: 0 <= n < |s.ids| ==> s.ids[n] in s.idNum && s.idNum[s.ids[n]] == n)
    && (forall n :: n in s.dead ==> n < |s.ids|)
  }

  ghost function Answer(s: State, h: Hash): Option<PackEntry> {
    if AllWellFormed(s.tables) then OptEntry(s.ids, Lookup(s.tables, s.dead, h)) else None
  }

  ghost predicate SameAnswers(s: State, s': State) {
    forall h :: Answer(s', h) == Answer(s, h)
  }

  /** The pack's own records win, and the rest answers as before. */
  ghost predicate OwnAnswersFirst(s: State, s': State, own: EntryMap) {
    forall h :: Answer(s', h) == Over(At(own, h), Answer(s, h))
  }

  ghost predicate Good(s: State) {
    && AllWellFormed(s.tables) && Numbered(s) && PacksIn(s.tables, Allowed(s))
    && (s.pristine ==> s.dead == {} && forall h :: Answer(s, h) == At(s.newest, h))
  }

  /** A pack that was taken out is not returned until it is registered or listed again. */
  lemma GoneIsNotReturned(s: State, h: Hash)
    requires Good(s) && Answer(s, h).Some?
    ensures Answer(s, h).value.id !in s.gone
  {
    LookupIn(s.tables, s.dead, Allowed(s), h);
    LookupIsLive(s.tables, s.dead, h);
  }

  lemma NotAnswered(s: State, id: string)
    requires Good(s) && id in s.gone
    ensures forall h :: Answer(s, h).Some? ==> Answer(s, h).value.id != id
  {
    hide Good, Answer;
    forall h | Answer(s, h).Some? ensures Answer(s, h).value.id != id {
      GoneIsNotReturned(s, h);
    }
  }

  lemma NumberGiven(s: State, s': State, id: string)
    requires Good(s) && id !in s.idNum
    requires s' == s.(ids := s.ids + [id], idNum := s.idNum[id := |s.ids|])
    ensures Good(s') && SameAnswers(s, s')
  {
    forall k, i | 0 <= k < |s.tables| && 0 <= i < |s.tables[k].recs| ensures s.tables[k].recs[i].pack in Allowed(s') {
      assert s.tables[k].recs[i].pack in Allowed(s);
    }
    forall h ensures Answer(s', h) == Answer(s, h) {
      LookupIn(s.tables, s.dead, Allowed(s), h);
    }
  }

  /** A pack that is written again is live. */
  lemma PackRevived(s: State, s': State, num: nat)
    requires Good(s) && num < |s.ids|
    requires s' == s.(dead := s.dead - {num}, gone := s.gone - {s.ids[num]})
    ensures Good(s') && (num !in s.dead ==> SameAnswers(s, s'))
  {
    forall k, i | 0 <= k < |s.tables| && 0 <= i < |s.tables[k].recs| ensures s.tables[k].recs[i].pack in Allowed(s') {
      assert s.tables[k].recs[i].pack in Allowed(s);
    }
    if num !in s.dead {
      assert s'.dead == s.dead;
    }
  }

  /** A registered pack goes on top: its own records win, and the rest answers as before. */
  lemma TablePushed(s: State, s': State, num: nat, recs: seq<CueRecord>, t: Table)
    requires Good(s) && num < |s.ids| && WellFormed(t) && num !in s.dead && s.ids[num] !in s.gone
    requires forall h :: TableAt(t, h) == LastAt(SourcesOf(num, recs), h)
    requires forall i :: 0 <= i < |t.recs| ==> t.recs[i].pack == num
    requires s' == s.(tables := s.tables + [t], newest := s.newest + MapOf(s.ids[num], recs))
    ensures Good(s')
    ensures OwnAnswersFirst(s, s', MapOf(s.ids[num], recs))
  {
    forall k, i | 0 <= k < |s'.tables| && 0 <= i < |s'.tables[k].recs| ensures s'.tables[k].recs[i].pack in Allowed(s') {
      if k < |s.tables| {
        assert s.tables[k].recs[i].pack in Allowed(s);
      }
    }
    forall h ensures Answer(s', h) == Over(At(MapOf(s.ids[num], recs), h), Answer(s, h)) {
      LookupOnTop(s.tables, t, s'.dead, h);
      SourcesAnswer(s.ids, num, recs, h);
    }
    if s.pristine {
      forall h ensures Answer(s', h) == At(s'.newest, h) {
        assert Answer(s, h) == At(s.newest, h);
      }
    }
  }

  function Over(top: Option<PackEntry>, under: Option<PackEntry>): Option<PackEntry> {
    if top.Some? then top else under
  }

  /** A merge changes no answer. */
  lemma TablesMerged(s: State, s': State, t: Table)
    requires Good(s) && WellFormed(t) && forall h :: TableAt(t, h) == Lookup(s.tables, s.dead, h)
    requires forall i :: 0 <= i < |t.recs| ==> t.recs[i].pack !in s.dead
    requires s' == s.(tables := [t], dead := {})
    ensures Good(s') && SameAnswers(s, s')
  {
    forall h ensures Answer(s', h) == Answer(s, h) {
      LookupMerged(t, s.tables, s.dead, h);
    }
    forall i | 0 <= i < |t.recs| ensures t.recs[i].pack in Allowed(s') {
      FindIsComplete(t, i);
      LookupIn(s.tables, s.dead, Allowed(s), t.hashes[i]);
      assert t.recs[i].pack == Lookup(s.tables, s.dead, t.hashes[i]).value.pack;
    }
    if s.pristine {
      forall h ensures Answer(s', h) == At(s'.newest, h) {
        assert Answer(s, h) == At(s.newest, h);
      }
    }
  }

  lemma {:induction false} WithoutKeepsShared(tables: seq<Table>, num: nat, k: nat)
    requires k < |Without(tables, num)|
    ensures Without(tables, num)[k] in tables && Without(tables, num)[k].pack != num
  {
    var n := |tables| - 1;
    if k < |Without(tables[..n], num)| {
      WithoutKeepsShared(tables[..n], num, k);
    }
  }

  /** A pack is taken out: its own tables go, and it is dead in the shared ones. */
  lemma PackTakenOut(s: State, s': State, num: nat, shared: bool)
    requires Good(s) && num < |s.ids|
    requires !shared ==> forall t :: t in s.tables ==> t.pack >= 0
    requires s' == s.(tables := Without(s.tables, num), dead := if shared then s.dead + {num} else s.dead,
                      pristine := false, gone := s.gone + {s.ids[num]})
    ensures Good(s')
    ensures forall h :: Answer(s, h).Some? && Answer(s, h).value.id != s.ids[num] ==> Answer(s', h) == Answer(s, h)
    ensures forall h :: Answer(s, h).None? ==> Answer(s', h).None?
  {
    hide Lookup;
    LookupWithout(s.tables, s'.tables, s.dead, s'.dead, num, 0);
    forall h
      ensures Answer(s, h).Some? && Answer(s, h).value.id != s.ids[num] ==> Answer(s', h) == Answer(s, h)
      ensures Answer(s, h).None? ==> Answer(s', h).None?
    {
      LookupWithout(s.tables, s'.tables, s.dead, s'.dead, num, h);
    }
    forall k, i | 0 <= k < |s'.tables| && 0 <= i < |s'.tables[k].recs| ensures s'.tables[k].recs[i].pack in Allowed(s') {
      TakenOutAllowed(s, s', num, shared, k, i);
    }
  }

  lemma TakenOutAllowed(s: State, s': State, num: nat, shared: bool, k: nat, i: nat)
    requires Good(s) && num < |s.ids|
    requires !shared ==> forall t :: t in s.tables ==> t.pack >= 0
    requires s' == s.(tables := Without(s.tables, num), dead := if shared then s.dead + {num} else s.dead,
                      pristine := false, gone := s.gone + {s.ids[num]})
    requires k < |s'.tables| && i < |s'.tables[k].recs|
    ensures s'.tables[k].recs[i].pack in Allowed(s')
  {
    hide Lookup;
    WithoutKeepsShared(s.tables, num, k);
    var j :| 0 <= j < |s.tables| && s.tables[j] == s'.tables[k];
    assert s.tables[j].recs[i].pack in Allowed(s) && WellFormed(s.tables[j]);
  }

  /** A cold build goes underneath everything registered so far. */
  lemma TablesUnderneath(s: State, s': State, below: seq<Table>, listed: EntryMap, listedIds: set<string>)
    requires Good(s) && AllWellFormed(below)
    requires forall h :: OptEntry(s.ids, Lookup(below, {}, h)) == At(listed, h)
    requires forall k, i :: 0 <= k < |below| && 0 <= i < |below[k].recs| ==> below[k].recs[i].pack < |s.ids| && s.ids[below[k].recs[i].pack] in listedIds
    requires s' == s.(tables := below + s.tables, newest := listed + s.newest, gone := s.gone - listedIds)
    ensures Good(s')
    ensures forall h :: Answer(s, h).Some? ==> Answer(s', h) == Answer(s, h)
  {
    forall k, i | 0 <= k < |s'.tables| && 0 <= i < |s'.tables[k].recs| ensures s'.tables[k].recs[i].pack in Allowed(s') {
      if k < |below| {
        assert s'.tables[k] == below[k];
      } else {
        assert s'.tables[k] == s.tables[k - |below|];
        assert s.tables[k - |below|].recs[i].pack in Allowed(s);
      }
    }
    forall h ensures Answer(s, h).Some? ==> Answer(s', h) == Answer(s, h)
      ensures s.pristine ==> Answer(s', h) == At(s'.newest, h)
    {
      LookupUnderneath(below, s.tables, s.dead, h);
      assert s.pristine ==> Answer(s, h) == At(s.newest, h);
    }
  }

  /** A pack that no record is of can be counted as taken out. */
  lemma UnknownGone(s: State, s': State, id: string)
    requires Good(s) && id !in s.idNum && s' == s.(gone := s.gone + {id})
    ensures Good(s') && SameAnswers(s, s')
  {
    forall k, i | 0 <= k < |s.tables| && 0 <= i < |s.tables[k].recs| ensures s.tables[k].recs[i].pack in Allowed(s') {
      assert s.tables[k].recs[i].pack in Allowed(s);
    }
    forall h ensures Answer(s', h) == Answer(s, h) {
    }
  }

  // The tables of a cold listing, before they join the index.

  function IdsOf(packs: seq<(string, seq<CueRecord>)>): set<string> {
    set p | p in packs :: p.0
  }

  ghost predicate Lists(ids: seq<string>, cold: seq<Table>, packs: seq<(string, seq<CueRecord>)>) {
    && AllWellFormed(cold)
    && (forall k, i :: 0 <= k < |cold| && 0 <= i < |cold[k].recs| ==>
          cold[k].recs[i].pack < |ids| && ids[cold[k].recs[i].pack] in IdsOf(packs))
    && forall h :: OptEntry(ids, Lookup(cold, {}, h)) == At(MapOfAll(packs), h)
  }

  lemma ListsStart(ids: seq<string>)
    ensures Lists(ids, [], [])
  {
  }

  lemma ListsNext(ids: seq<string>, ids': seq<string>, cold: seq<Table>, packs: seq<(string, seq<CueRecord>)>,
                  num: nat, pack: (string, seq<CueRecord>), t: Table)
    requires Lists(ids, cold, packs) && ids <= ids' && num < |ids'| && ids'[num] == pack.0 && WellFormed(t)
    requires forall h :: TableAt(t, h) == LastAt(SourcesOf(num, pack.1), h)
    requires forall i :: 0 <= i < |t.recs| ==> t.recs[i].pack == num
    ensures Lists(ids', cold + [t], packs + [pack])
  {
    var cold', packs' := cold + [t], packs + [pack];
    assert packs'[..|packs|] == packs;
    assert pack in packs';
    var known := set n | 0 <= n < |ids| && ids[n] in IdsOf(packs);
    forall k, i | 0 <= k < |cold'| && 0 <= i < |cold'[k].recs|
      ensures cold'[k].recs[i].pack < |ids'| && ids'[cold'[k].recs[i].pack] in IdsOf(packs')
    {
      if k < |cold| {
        assert cold'[k] == cold[k];
        assert ids[cold[k].recs[i].pack] in IdsOf(packs);
      }
    }
    forall h ensures AllWellFormed(cold') && OptEntry(ids', Lookup(cold', {}, h)) == At(MapOfAll(packs'), h) {
      LookupIn(cold, {}, known, h);
      LookupOnTop(cold, t, {}, h);
      SourcesAnswer(ids', num, pack.1, h);
      assert OptEntry(ids, Lookup(cold, {}, h)) == At(MapOfAll(packs), h);
    }
    assert AllWellFormed(cold');
  }

  lemma ListsMerged(ids: seq<string>, cold: seq<Table>, packs: seq<(string, seq<CueRecord>)>, t: Table)
    requires Lists(ids, cold, packs) && WellFormed(t) && forall h :: TableAt(t, h) == Lookup(cold, {}, h)
    ensures Lists(ids, [t], packs)
  {
    var listed := set n | 0 <= n < |ids| && ids[n] in IdsOf(packs);
    forall i | 0 <= i < |t.recs| ensures t.recs[i].pack in listed {
      FindIsComplete(t, i);
      LookupIn(cold, {}, listed, t.hashes[i]);
    }
    forall h ensures OptEntry(ids, Lookup([t], {}, h)) == At(MapOfAll(packs), h) {
      LookupMerged(t, cold, {}, h);
    }
  }

  /** Numbers given to packs later change nothing. */
  lemma ListsMoreIds(ids: seq<string>, ids': seq<string>, cold: seq<Table>, packs: seq<(string, seq<CueRecord>)>)
    requires Lists(ids, cold, packs) && ids <= ids'
    ensures Lists(ids', cold, packs)
  {
    var known := set n | 0 <= n < |ids| && ids[n] in IdsOf(packs);
    forall h ensures OptEntry(ids', Lookup(cold, {}, h)) == At(MapOfAll(packs), h) {
      LookupIn(cold, {}, known, h);
      assert OptEntry(ids, Lookup(cold, {}, h)) == At(MapOfAll(packs), h);
    }
  }

  /** One table for the whole listing. */
  method MergeCold(ids: seq<string>, cold: seq<Table>, ghost packs: seq<(string, seq<CueRecord>)>) returns (r: seq<Table>)
    requires Lists(ids, cold, packs)
    ensures Lists(ids, r, packs) && |r| <= 1
  {
    hide Lists, MapOfAll, IdsOf;
    r := cold;
    if |cold| > 1 {
      ListsFacts(ids, cold, packs);
      var t := MergeTables(cold, {});
      ListsMerged(ids, cold, packs, t);
      r := [t];
    }
  }

  /** A view of the list as it was at one moment: it shares the backing array. */
  datatype Snapshot = Snapshot(backing: array<Table>, count: nat, ids: seq<string>, dead: set<nat>)

  datatype Taken = Taken(sn: Snapshot, seen: seq<Table>)

  const NO_TABLE: Table := Table([], [], map[], -1)

  class Index {
    var built: bool
    var ids: seq<string>
    var idNum: map<string, nat>
    var backing: array<Table>
    var count: nat
    var dead: set<nat>

    ghost var newest: EntryMap
    ghost var pristine: bool
    ghost var gone: set<string>

    /** Every snapshot ever taken, with the tables it was given. */
    ghost var taken: seq<Taken>

    ghost function Abs(): State
      reads this, backing
      requires count <= backing.Length
    {
      State(ids, idNum, backing[..count], dead, newest, pristine, gone)
    }

    /** A snapshot's part of its backing array still is what it was given. */
    ghost predicate Frozen(t: Taken)
      reads this, t.sn.backing
    {
      && t.sn.count <= t.sn.backing.Length && t.sn.backing[..t.sn.count] == t.seen && AllWellFormed(t.seen)
      && (t.sn.backing == backing ==> t.sn.count <= count)
    }

    ghost predicate Shape()
      reads this, backing, set k | 0 <= k < |taken| :: taken[k].sn.backing
    {
      count <= backing.Length && forall k :: 0 <= k < |taken| ==> Frozen(taken[k])
    }

    ghost predicate Valid()
      reads this, backing, set k | 0 <= k < |taken| :: taken[k].sn.backing
    {
      Shape() && Good(Abs())
    }

    constructor ()
      ensures Valid() && pristine && newest == map[] && gone == {} && taken == [] && fresh(backing)
      ensures !built && ids == [] && idNum == map[]
    {
      built, ids, idNum, count, dead := false, [], map[], 0, {};
      backing := new Table[0];
      newest, pristine, gone, taken := map[], true, {}, [];
    }

    method TakeSnapshot() returns (sn: Snapshot)
      requires Valid()
      modifies this`taken
      ensures Valid() && sn == Snapshot(backing, count, ids, dead)
      ensures taken == old(taken) + [Taken(sn, Abs().tables)]
    {
      hide Good, AllWellFormed;
      GoodTables(Abs());
      sn := Snapshot(backing, count, ids, dead);
      taken := taken + [Taken(sn, backing[..count])];
    }

    /** Appends in place when the backing array has room, as Go does. No snapshot sees it. */
    method Append(t: Table)
      requires Shape()
      modifies this`backing, this`count, backing
      ensures Shape() && backing[..count] == old(backing[..count]) + [t]
      ensures backing == old(backing) || fresh(backing)
    {
      hide AllWellFormed;
      if count == backing.Length {
        Grow();
      }
      backing[count] := t;
      count := count + 1;
    }

    /** Moves the list to an array with room for more. */
    method Grow()
      requires Shape()
      modifies this`backing
      ensures Shape() && fresh(backing) && count < backing.Length && backing[..count] == old(backing[..count])
    {
      hide AllWellFormed;
      var bigger := new Table[2 * count + 1](_ => NO_TABLE);
      for i := 0 to count
        modifies bigger
        invariant bigger[..i] == backing[..i]
      {
        bigger[i] := backing[i];
      }
      backing := bigger;
    }

    /** Replaces the whole list by a new one. */
    method Replace(tables: seq<Table>)
      requires Shape()
      modifies this`backing, this`count
      ensures Shape() && backing[..count] == tables && fresh(backing)
    {
      backing := new Table[|tables|](i requires 0 <= i < |tables| => tables[i]);
      count := |tables|;
    }

    /** The number of a pack, given to it now if it has none. */
    method PackNum(id: string) returns (num: nat)
      requires Valid()
      modifies this`ids, this`idNum
      ensures Valid() && num < |ids| && ids[num] == id
      ensures old(ids) <= ids && (id in old(idNum) ==> num == old(idNum)[id]) && (id !in old(idNum) ==> num == |old(ids)|)
      ensures idNum.Keys == old(idNum).Keys + {id}
      ensures SameAnswers(old(Abs()), Abs())
    {
      if id in idNum {
        return idNum[id];
      }
      num := |ids|;
      ids := ids + [id];
      idNum := idNum[id := num];
      NumberGiven(old(Abs()), Abs(), id);
    }

    /** Merges all tables into one when there are too many. No answer changes. */
    method MergeIfMany()
      requires Valid()
      modifies this`backing, this`count, this`dead
      ensures Valid() && count <= MAX_PACK_TABLES && (backing == old(backing) || fresh(backing))
      ensures SameAnswers(old(Abs()), Abs())
    {
      hide Good, Answer;
      if count > MAX_PACK_TABLES {
        GoodTables(Abs());
        var t := MergeTables(backing[..count], dead);
        Replace([t]);
        dead := {};
        TablesMerged(old(Abs()), Abs(), t);
      }
    }

    /** Makes a pack's objects visible: its own records win from now on, and the pack is live again. */
    method Register(id: string, recs: seq<CueRecord>)
      requires Valid()
      modifies this, backing
      ensures Valid() && taken == old(taken) && pristine == old(pristine) && built == old(built)
      ensures (backing == old(backing) || fresh(backing)) && old(ids) <= ids && idNum.Keys == old(idNum).Keys + {id}
      ensures newest == old(newest) + MapOf(id, recs) && gone == old(gone) - {id}
      ensures forall h :: h in MapOf(id, recs) ==> Answer(Abs(), h) == Some(MapOf(id, recs)[h])
      ensures !IsDead(old(Abs()), id) ==> OwnAnswersFirst(old(Abs()), Abs(), MapOf(id, recs))
    {
      hide Good, Answer, MapOf, SameAnswers, OwnAnswersFirst, IsDead;
      var num := Revive(id);
      ghost var s2 := Abs();
      PushRecords(id, num, recs);
      SameIsOwn(Abs());
      RegisteredAnswers(old(Abs()), s2, Abs(), Abs(), MapOf(id, recs), IsDead(old(Abs()), id));
    }

    /** Puts the table of a live pack on top, unless it is empty. */
    method PushRecords(id: string, num: nat, recs: seq<CueRecord>)
      requires Valid() && num < |ids| && ids[num] == id && num !in dead && id !in gone
      modifies this`backing, this`count, this`dead, this`newest, backing
      ensures Valid() && (backing == old(backing) || fresh(backing)) && newest == old(newest) + MapOf(id, recs)
      ensures OwnAnswersFirst(old(Abs()), Abs(), MapOf(id, recs))
    {
      hide Good, Answer, MapOf, SameAnswers, OwnAnswersFirst;
      var t := NewPackTable(num, recs);
      newest := newest + MapOf(id, recs);
      if |t.recs| == 0 {
        NoRecords(id);
        assert Abs() == old(Abs());
        SameIsOwn(Abs());
      } else {
        Append(t);
        ghost var s3 := Abs();
        TablePushed(old(Abs()), s3, num, recs, t);
        MergeIfMany();
        SameIsOwn(old(Abs()));
        RegisteredAnswers(old(Abs()), old(Abs()), s3, Abs(), MapOf(id, recs), false);
      }
    }

    /** Numbers a pack and makes sure that it is not dead. */
    method Revive(id: string) returns (num: nat)
      requires Valid()
      modifies this`ids, this`idNum, this`dead, this`gone
      ensures Valid() && num < |ids| && ids[num] == id && num !in dead && gone == old(gone) - {id}
      ensures !IsDead(old(Abs()), id) ==> SameAnswers(old(Abs()), Abs())
      ensures old(ids) <= ids && idNum.Keys == old(idNum).Keys + {id}
    {
      hide Good, Answer, SameAnswers;
      GoodTables(Abs());
      num := PackNum(id);
      ghost var s1 := Abs();
      GoodTables(s1);
      dead := dead - {num};
      gone := gone - {id};
      PackRevived(s1, Abs(), num);
      if !IsDead(old(Abs()), id) {
        SameAnswersTrans(old(Abs()), s1, Abs());
      }
    }

    /** Takes a pack out. It is not returned any more, and what other packs answer stays. */
    method Deregister(id: string)
      requires Valid()
      modifies this
      ensures Valid() && taken == old(taken) && newest == old(newest) && built == old(built)
      ensures (backing == old(backing) || fresh(backing)) && ids == old(ids) && idNum == old(idNum)
      ensures gone == old(gone) + {id} && pristine == (old(pristine) && id !in idNum)
      ensures forall h :: Answer(Abs(), h).Some? ==> Answer(Abs(), h).value.id != id
      ensures forall h :: Answer(old(Abs()), h).Some? && Answer(old(Abs()), h).value.id != id ==> Answer(Abs(), h) == Answer(old(Abs()), h)
      ensures forall h :: Answer(old(Abs()), h).None? ==> Answer(Abs(), h).None?
    {
      hide Good, Answer;
      if id in idNum {
        TakeOut(id);
      } else {
        gone := gone + {id};
        UnknownGone(old(Abs()), Abs(), id);
      }
      NotAnswered(Abs(), id);
    }

    /** Takes out a pack that has a number. */
    method TakeOut(id: string)
      requires Valid() && id in idNum
      modifies this`backing, this`count, this`dead, this`pristine, this`gone
      ensures Valid() && fresh(backing) && gone == old(gone) + {id} && !pristine
      ensures forall h :: Answer(old(Abs()), h).Some? && Answer(old(Abs()), h).value.id != id ==> Answer(Abs(), h) == Answer(old(Abs()), h)
      ensures forall h :: Answer(old(Abs()), h).None? ==> Answer(Abs(), h).None?
    {
      hide Good, Answer;
      GoodTables(Abs());
      var num := idNum[id];
      var kept, shared := Survivors(backing[..count], num);
      Replace(kept);
      if shared {
        dead := dead + {num};
      }
      pristine, gone := false, gone + {id};
      PackTakenOut(old(Abs()), Abs(), num, shared);
    }

    /** The tables that stay when a pack is taken out, and whether one of them is shared. */
    method Survivors(tables: seq<Table>, num: nat) returns (kept: seq<Table>, shared: bool)
      ensures kept == Without(tables, num)
      ensures shared <==> exists t :: t in tables && t.pack != num && t.pack < 0
    {
      kept, shared := [], false;
      for k := 0 to |tables|
        invariant kept == Without(tables[..k], num)
        invariant shared <==> exists t :: t in tables[..k] && t.pack != num && t.pack < 0
      {
        assert tables[..k + 1][..k] == tables[..k];
        assert forall t :: t in tables[..k + 1] <==> t in tables[..k] || t == tables[k];
        if tables[k].pack == num {
          continue;
        } else if tables[k].pack < 0 {
          shared := true;
        }
        kept := kept + [tables[k]];
      }
      assert tables[..|tables|] == tables;
    }

    /** A table for each listed container, merged into one when there are several. */
    method ColdTables(packs: seq<(string, seq<CueRecord>)>) returns (cold: seq<Table>)
      requires Valid()
      modifies this`ids, this`idNum
      ensures Valid() && Lists(ids, cold, packs) && SameAnswers(old(Abs()), Abs()) && old(ids) <= ids
    {
      hide Good, Answer, Lists, MapOfAll, IdsOf, SameAnswers;
      cold := [];
      ListsStart(ids);
      SameIsOwn(Abs());
      for k := 0 to |packs|
        invariant Valid() && SameAnswers(old(Abs()), Abs()) && old(ids) <= ids
        invariant Lists(ids, cold, packs[..k])
      {
        ghost var before := Abs();
        var num := PackNum(packs[k].0);
        SameAnswersTrans(old(Abs()), before, Abs());
        var t := NewPackTable(num, packs[k].1);
        ListsNext(before.ids, ids, cold, packs[..k], num, packs[k], t);
        assert packs[..k + 1] == packs[..k] + [packs[k]];
        cold := cold + [t];
      }
      assert packs[..|packs|] == packs;
      cold := MergeCold(ids, cold, packs);
    }

    /** The second half of a cold build: the tables of a listing go under everything registered so
        far, unless another build came first. Anything may have happened since they were made. */
    method InstallCold(cold: seq<Table>, ghost packs: seq<(string, seq<CueRecord>)>)
      requires Valid() && Lists(ids, cold, packs)
      modifies this`backing, this`count, this`dead, this`built, this`newest, this`gone
      ensures Valid() && built && (backing == old(backing) || fresh(backing))
      ensures old(built) ==> newest == old(newest) && gone == old(gone) && Abs() == old(Abs())
      ensures !old(built) ==> newest == MapOfAll(packs) + old(newest) && gone == old(gone) - IdsOf(packs)
      ensures forall h :: Answer(old(Abs()), h).Some? ==> Answer(Abs(), h) == Answer(old(Abs()), h)
    {
      hide Good, Answer, Lists, MapOfAll, IdsOf;
      if built {
        return;
      }
      ListsFacts(ids, cold, packs);
      Replace(cold + backing[..count]);
      newest, gone := MapOfAll(packs) + newest, gone - IdsOf(packs);
      TablesUnderneath(old(Abs()), Abs(), cold, MapOfAll(packs), IdsOf(packs));
      MergeIfMany();
      built := true;
    }

    /** The cold build, once, when nothing happens between its two halves. */
    method EnsurePacksBuilt(packs: seq<(string, seq<CueRecord>)>)
      requires Valid()
      modifies this
      ensures Valid() && built && taken == old(taken) && pristine == old(pristine)
      ensures (backing == old(backing) || fresh(backing)) && old(ids) <= ids
      ensures old(built) ==> newest == old(newest) && Abs() == old(Abs())
      ensures !old(built) ==> newest == MapOfAll(packs) + old(newest) && gone == old(gone) - IdsOf(packs)
      ensures forall h :: Answer(old(Abs()), h).Some? ==> Answer(Abs(), h) == Answer(old(Abs()), h)
    {
      hide Good, Answer, Lists, MapOfAll, IdsOf;
      if built {
        return;
      }
      var cold := ColdTables(packs);
      InstallCold(cold, packs);
    }
  }

  lemma SameAnswersTrans(s0: State, s1: State, s2: State)
    requires SameAnswers(s0, s1) && SameAnswers(s1, s2)
    ensures SameAnswers(s0, s2)
  {
    hide Answer;
  }

  predicate IsDead(s: State, id: string) {
    id in s.idNum && s.idNum[id] in s.dead
  }

  lemma SameIsOwn(s: State)
    ensures OwnAnswersFirst(s, s, map[]) && SameAnswers(s, s)
  {
  }

  lemma RegisteredAnswers(s0: State, s2: State, s3: State, s4: State, own: EntryMap, wasDead: bool)
    requires (!wasDead ==> SameAnswers(s0, s2)) && OwnAnswersFirst(s2, s3, own) && SameAnswers(s3, s4)
    ensures forall h :: h in own ==> Answer(s4, h) == Some(own[h])
    ensures !wasDead ==> OwnAnswersFirst(s0, s4, own)
  {
    hide Answer;
  }

  lemma GoodTables(s: State)
    requires Good(s)
    ensures AllWellFormed(s.tables) && Numbered(s)
  {
  }

  lemma NoRecords(id: string)
    ensures MapOf(id, []) == map[]
  {
  }

  lemma ListsFacts(ids: seq<string>, cold: seq<Table>, packs: seq<(string, seq<CueRecord>)>)
    requires Lists(ids, cold, packs)
    ensures AllWellFormed(cold)
    ensures forall h :: OptEntry(ids, Lookup(cold, {}, h)) == At(MapOfAll(packs), h)
    ensures forall k, i :: 0 <= k < |cold| && 0 <= i < |cold[k].recs| ==> cold[k].recs[i].pack < |ids| && ids[cold[k].recs[i].pack] in IdsOf(packs)
  {
  }

  /** Whatever was registered, listed and merged since, a snapshot gives the answers it gave when it was taken. */
  method SnapshotLookup(index: Index, ghost k: nat, sn: Snapshot, h: Hash) returns (r: Option<PackEntry>)
    requires index.Valid() && k < |index.taken| && sn == index.taken[k].sn
    ensures AllWellFormed(index.taken[k].seen)
    ensures r == OptEntry(sn.ids, Lookup(index.taken[k].seen, sn.dead, h))
  {
    hide Good, AllWellFormed;
    assert index.Frozen(index.taken[k]);
    var s := LookupScan(sn.backing[..sn.count], sn.dead, h);
    r := OptEntry(sn.ids, s);
  }
}
