/** Every history of a pack index: registrations, deregistrations and cold builds, whose listings run
    beside everything else, from the empty index on. */
module PackHistory {
  import opened Prelude
  import opened PackTable
  import opened PackIndex

  type Packs = seq<(string, seq<CueRecord>)>

  /** One critical section. A listing numbers its packs one by one and is installed later. */
  datatype Op =
    | Register(id: string, recs: seq<CueRecord>)
    | Deregister(id: string)
    | StartListing(packs: Packs)
    | NumberNext(listing: nat)
    | Install(listing: nat)

  /** A listing and how many of its packs have a number. */
  datatype Listing = Listing(packs: Packs, done: nat)

  /** The simple account of a history: the newest-wins map, the packs taken out and not registered or
      listed since, whether none that was known was ever taken out, and the packs known. */
  datatype History = History(newest: EntryMap, gone: set<string>, pristine: bool, built: bool, known: set<string>, listings: seq<Listing>)

  predicate Complete(h: History, k: nat) {
    k < |h.listings| && h.listings[k].done == |h.listings[k].packs|
  }

  function After(h: History, op: Op): History {
    match op
    case Register(id, recs) => h.(newest := h.newest + MapOf(id, recs), gone := h.gone - {id}, known := h.known + {id})
    case Deregister(id) => h.(gone := h.gone + {id}, pristine := h.pristine && id !in h.known)
    case StartListing(packs) => h.(listings := h.listings + [Listing(packs, 0)])
    case NumberNext(k) =>
      if k < |h.listings| && h.listings[k].done < |h.listings[k].packs| then
        var l := h.listings[k];
        h.(known := h.known + {l.packs[l.done].0}, listings := h.listings[k := l.(done := l.done + 1)])
      else h
    case Install(k) =>
      if !h.built && Complete(h, k) then
        h.(newest := MapOfAll(h.listings[k].packs) + h.newest, gone := h.gone - IdsOf(h.listings[k].packs), built := true)
      else h
  }

  function HistoryOf(ops: seq<Op>): History {
    if ops == [] then History(map[], {}, true, false, {}, [])
    else After(HistoryOf(ops[..|ops| - 1]), ops[|ops| - 1])
  }

  /** A listing as the storer holds it: one table for each pack numbered so far. */
  datatype Cold = Cold(packs: Packs, tables: seq<Table>)

  ghost predicate ListingOk(ids: seq<string>, c: Cold, l: Listing) {
    c.packs == l.packs && |c.tables| == l.done <= |l.packs| && Lists(ids, c.tables, l.packs[..l.done])
  }

  ghost predicate ListingsOk(ids: seq<string>, cs: seq<Cold>, ls: seq<Listing>) {
    |cs| == |ls| && forall k :: 0 <= k < |cs| ==> ListingOk(ids, cs[k], ls[k])
  }

  lemma ListingsMoreIds(ids: seq<string>, ids': seq<string>, cs: seq<Cold>, ls: seq<Listing>)
    requires ListingsOk(ids, cs, ls) && ids <= ids'
    ensures ListingsOk(ids', cs, ls)
  {
    hide Lists;
    forall k | 0 <= k < |cs| ensures ListingOk(ids', cs[k], ls[k]) {
      assert ListingOk(ids, cs[k], ls[k]);
      ListsMoreIds(ids, ids', cs[k].tables, ls[k].packs[..ls[k].done]);
    }
  }

  /** The index stands where its history says. */
  ghost predicate Agrees(index: Index, cs: seq<Cold>, h: History)
    reads index
  {
    && index.newest == h.newest && index.gone == h.gone && index.pristine == h.pristine && index.built == h.built
    && index.idNum.Keys == h.known && ListingsOk(index.ids, cs, h.listings)
  }

  /** One critical section on the index itself. */
  method Perform(index: Index, cs: seq<Cold>, op: Op, ghost h: History) returns (cs': seq<Cold>)
    requires index.Valid() && Agrees(index, cs, h)
    modifies index, index.backing
    ensures index.Valid() && Agrees(index, cs', After(h, op)) && index.taken == old(index.taken)
    ensures index.backing == old(index.backing) || fresh(index.backing)
  {
    hide Good, Answer, MapOf, MapOfAll, IdsOf, ListingsOk, OwnAnswersFirst;
    cs' := cs;
    match op
    case Register(id, recs) =>
      index.Register(id, recs);
      ListingsMoreIds(old(index.ids), index.ids, cs, h.listings);
    case Deregister(id) =>
      index.Deregister(id);
    case StartListing(packs) =>
      cs' := cs + [Cold(packs, [])];
      ListingStarts(index.ids, cs, h.listings, packs);
    case NumberNext(k) =>
      cs' := Number(index, cs, k, h);
    case Install(k) =>
      InstallListing(index, cs, k, h);
  }

  lemma ListingStarts(ids: seq<string>, cs: seq<Cold>, ls: seq<Listing>, packs: Packs)
    requires ListingsOk(ids, cs, ls)
    ensures ListingsOk(ids, cs + [Cold(packs, [])], ls + [Listing(packs, 0)])
  {
    hide Lists;
    ListsStart(ids);
    assert packs[..0] == [];
  }

  lemma ListingGrows(ids: seq<string>, ids': seq<string>, cs: seq<Cold>, ls: seq<Listing>, k: nat, num: nat, t: Table)
    requires ListingsOk(ids, cs, ls) && ids <= ids' && k < |ls| && ls[k].done < |ls[k].packs|
    requires num < |ids'| && ids'[num] == ls[k].packs[ls[k].done].0 && WellFormed(t)
    requires forall h :: TableAt(t, h) == LastAt(SourcesOf(num, ls[k].packs[ls[k].done].1), h)
    requires forall i :: 0 <= i < |t.recs| ==> t.recs[i].pack == num
    ensures ListingsOk(ids', cs[k := Cold(cs[k].packs, cs[k].tables + [t])], ls[k := ls[k].(done := ls[k].done + 1)])
  {
    hide Lists;
    var l := ls[k];
    assert ListingOk(ids, cs[k], l);
    ListsNext(ids, ids', cs[k].tables, l.packs[..l.done], num, l.packs[l.done], t);
    assert l.packs[..l.done + 1] == l.packs[..l.done] + [l.packs[l.done]];
    ListingsMoreIds(ids, ids', cs, ls);
  }

  method Number(index: Index, cs: seq<Cold>, k: nat, ghost h: History) returns (cs': seq<Cold>)
    requires index.Valid() && Agrees(index, cs, h)
    modifies index
    ensures index.Valid() && Agrees(index, cs', After(h, NumberNext(k))) && index.taken == old(index.taken) && index.backing == old(index.backing)
  {
    hide Good, Answer, Lists;
    cs' := cs;
    if k < |cs| {
      assert ListingOk(index.ids, cs[k], h.listings[k]);
      var c := cs[k];
      if |c.tables| < |c.packs| {
        var (id, recs) := c.packs[|c.tables|];
        var num := index.PackNum(id);
        var t := NewPackTable(num, recs);
        ListingGrows(old(index.ids), index.ids, cs, h.listings, k, num, t);
        cs' := cs[k := Cold(c.packs, c.tables + [t])];
      }
    }
  }

  method InstallListing(index: Index, cs: seq<Cold>, k: nat, ghost h: History)
    requires index.Valid() && Agrees(index, cs, h)
    modifies index
    ensures index.Valid() && Agrees(index, cs, After(h, Install(k))) && index.taken == old(index.taken)
    ensures index.backing == old(index.backing) || fresh(index.backing)
  {
    hide Good, Answer, Lists, MapOfAll, IdsOf;
    if k < |cs| {
      assert ListingOk(index.ids, cs[k], h.listings[k]);
      var c := cs[k];
      if |c.tables| == |c.packs| {
        assert c.packs[..|c.packs|] == c.packs;
        var cold := MergeCold(index.ids, c.tables, c.packs);
        index.InstallCold(cold, c.packs);
      }
    }
  }

  /** What a snapshot answers: the plain map, as long as no known pack was taken out, and never a pack
      that was taken out and not registered or listed since. */
  ghost predicate AnswersLike(r: Option<PackEntry>, hist: History, h: Hash) {
    && (hist.pristine ==> r == At(hist.newest, h))
    && (r.Some? ==> r.value.id !in hist.gone)
  }

  lemma GoodAnswer(s: State, hist: History, h: Hash)
    requires Good(s) && s.newest == hist.newest && s.pristine == hist.pristine && s.gone == hist.gone
    ensures AnswersLike(Answer(s, h), hist, h)
  {
    if Answer(s, h).Some? {
      GoneIsNotReturned(s, h);
    }
  }

  /** For every history: a snapshot taken after its first `j` steps answers, when all of it is over,
      like the simple account of those first steps. With `j` at the end it is the lookup itself. */
  method LookupInHistory(ops: seq<Op>, j: nat, h: Hash) returns (r: Option<PackEntry>)
    requires j <= |ops|
    ensures AnswersLike(r, HistoryOf(ops[..j]), h)
  {
    hide Good, Answer, After, ListingsOk, AnswersLike;
    var index := new Index();
    var cs: seq<Cold> := [];
    NothingListed(index.ids);
    var sn: Snapshot;
    for i := 0 to j
      invariant fresh(index) && fresh(index.backing) && index.Valid() && index.taken == []
      invariant Agrees(index, cs, HistoryOf(ops[..i]))
    {
      assert ops[..i + 1][..i] == ops[..i];
      cs := Perform(index, cs, ops[i], HistoryOf(ops[..i]));
    }
    ghost var seen := index.Abs();
    GoodAnswer(seen, HistoryOf(ops[..j]), h);
    sn := index.TakeSnapshot();
    ghost var taken := index.taken;
    for i := j to |ops|
      invariant fresh(index) && fresh(index.backing) && index.Valid() && index.taken == taken
      invariant Agrees(index, cs, HistoryOf(ops[..i]))
    {
      assert ops[..i + 1][..i] == ops[..i];
      cs := Perform(index, cs, ops[i], HistoryOf(ops[..i]));
    }
    r := SnapshotLookup(index, 0, sn, h);
    SnapshotSees(seen, taken[0], h);
  }

  lemma NothingListed(ids: seq<string>)
    ensures ListingsOk(ids, [], [])
  {
  }

  lemma SnapshotSees(s: State, t: Taken, h: Hash)
    requires t.seen == s.tables && t.sn.ids == s.ids && t.sn.dead == s.dead && AllWellFormed(s.tables)
    ensures Answer(s, h) == OptEntry(t.sn.ids, Lookup(t.seen, t.sn.dead, h))
  {
  }

  /** The history of a storer that only built its index from a listing. */
  function ColdOps(packs: Packs, n: nat): seq<Op> {
    if n == 0 then [StartListing(packs)] else ColdOps(packs, n - 1) + [NumberNext(0)]
  }

  lemma {:induction false} ColdHistory(packs: Packs, n: nat)
    requires n <= |packs|
    ensures var h := HistoryOf(ColdOps(packs, n));
            h.newest == map[] && h.gone == {} && h.pristine && !h.built && h.listings == [Listing(packs, n)]
  {
    var ops := ColdOps(packs, n);
    if n == 0 {
      assert ops[..0] == [];
    } else {
      assert ops[..|ops| - 1] == ColdOps(packs, n - 1);
      ColdHistory(packs, n - 1);
    }
  }

  /** A lookup after a cold build finds the record of the newest listed container. */
  method ColdLookup(packs: Packs, h: Hash) returns (r: Option<PackEntry>)
    ensures r == At(MapOfAll(packs), h)
  {
    hide MapOfAll, IdsOf;
    var ops := ColdOps(packs, |packs|) + [Install(0)];
    ColdHistory(packs, |packs|);
    assert ops[..|ops| - 1] == ColdOps(packs, |packs|) && ops[..|ops|] == ops;
    assert HistoryOf(ops).newest == MapOfAll(packs) + map[] == MapOfAll(packs);
    r := LookupInHistory(ops, |ops|, h);
  }
}
