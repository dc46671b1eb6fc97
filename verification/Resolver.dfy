/** The resolver: it walks a pack's delta forest depth first and places every object, each base
    before the deltas on it, while the bodies it keeps in memory stay within a budget. */
module Resolver {
  import opened Prelude
  import opened Placement
  import opened PackWriter
  import opened Containers
  import opened IncomingPack
  import opened Bodies
  import Delta

  /** What a walk knows of the base it starts from: the object, and where and how it was placed. A
      base from outside the pack is in no container of this push. */
  ghost predicate Link(w: World, log: seq<Placed>, from: From, obj: Obj, hash: Hash, serial: int, chain: nat) {
    && w.sha(obj) == hash
    && match from
       case Root => false
       case OnPlaced(at) =>
         at < |log| && log[at].obj == obj && log[at].rec.hash == hash && log[at].serial == serial > 0 && log[at].chain == chain
       case OnExternal => serial == -1 && w.external(hash) == Some(obj)
  }

  ghost function EntryOf(log: seq<Placed>, from: From): int {
    if from.OnPlaced? && from.at < |log| then log[from.at].entry else -1
  }

  /** The kids of a walk: deltas on its base, handed out and not placed yet. */
  ghost predicate AreKids(p: Pack, log: seq<Placed>, handed: set<nat>, kids: seq<nat>, from: From, hash: Hash) {
    && NoDup(kids)
    && forall k :: 0 <= k < |kids| ==> IsKid(p, log, handed, kids[k], from, hash)
  }

  ghost predicate IsKid(p: Pack, log: seq<Placed>, handed: set<nat>, c: nat, from: From, hash: Hash) {
    c < |p| && c in handed && c !in Entries(log) && BuiltOn(p, c, EntryOf(log, from), hash)
  }

  /** A kid's delta, applied to the base of the walk, resolves it; and it may be stored as it is. */
  lemma KidResolves(w: World, p: Pack, log: seq<Placed>, handed: set<nat>, c: nat, from: From, base: Obj, hash: Hash, serial: int, chain: nat, bytes: Bytes)
    requires Link(w, log, from, base, hash, serial, chain) && IsKid(p, log, handed, c, from, hash)
    requires Delta.Apply(base.bytes, p[c].Payload()) == Some(bytes)
    ensures Resolved(w, p, log, c, Obj(base.kind, bytes), from) && c !in Entries(log)
    ensures from != Root && (from.OnPlaced? ==> from.at < |log| && serial > 0)
    ensures serial > 0 ==> Names(p, log, c, from, p[c].Payload(), hash, serial, chain)
    ensures from.OnExternal? ==> p[c].ByRef? && p[c].hash == hash
  {
  }

  lemma LinkStays(w: World, log: seq<Placed>, log': seq<Placed>, from: From, obj: Obj, hash: Hash, serial: int, chain: nat)
    requires Link(w, log, from, obj, hash, serial, chain) && log <= log'
    ensures Link(w, log', from, obj, hash, serial, chain) && EntryOf(log', from) == EntryOf(log, from)
    ensures BaseDepth(log', from) == BaseDepth(log, from)
  {
    if from.OnPlaced? {
      DepthStays(log, log', from.at);
    }
  }

  /** What was placed while the deltas in `kids` and everything on them were walked. */
  ghost predicate Covered(log: seq<Placed>, log': seq<Placed>, handed: set<nat>, handed': set<nat>, kids: set<nat>) {
    handed <= handed' && Entries(log') == Entries(log) + kids + (handed' - handed)
  }

  /** Everything placed was asked for its children, and every placed delta was handed out. */
  ghost predicate Tracked(p: Pack, log: seq<Placed>, handed: set<nat>, expanded: set<nat>) {
    && expanded == Entries(log)
    && forall c <- Entries(log) :: c < |p| && (p[c].IsDelta() ==> c in handed)
  }

  /** Every ref-delta on a placed object was handed out. */
  ghost predicate AllAsked(refs: seq<RefDelta>, done: seq<bool>, log: seq<Placed>) {
    |done| == |refs| && forall j, k :: 0 <= j < |log| && 0 <= k < |refs| && refs[k].base == log[j].rec.hash ==> done[k]
  }

  lemma AskedNext(refs: seq<RefDelta>, done: seq<bool>, done': seq<bool>, l0: seq<Placed>, l1: seq<Placed>, c: nat, obj: Obj, h: Hash, serial: nat, chain: nat)
    requires AllAsked(refs, done, l0) && Placed1(l0, l1, c, obj, h, serial, chain) && |done'| == |refs|
    requires forall k :: 0 <= k < |refs| ==> done'[k] == (done[k] || refs[k].base == h)
    ensures AllAsked(refs, done', l1)
  {
  }

  /** The outside bases used so far, against the one that is being walked. */
  ghost predicate RootsOk(p: Pack, log: seq<Placed>, floor: Option<Hash>) {
    RootsBelow(p, log, floor) && RootsLow(p, log) && PendingHigh(p, log, floor)
  }

  lemma RootsOkNext(p: Pack, log: seq<Placed>, x: Placed, floor: Option<Hash>)
    requires RootsOk(p, log, floor) && x.entry !in Entries(log)
    requires x.from.OnExternal? && x.entry < |p| && p[x.entry].ByRef? ==> floor == Some(p[x.entry].hash)
    ensures RootsOk(p, log + [x], floor)
  {
    hide RootsBelow, RootsLow, PendingHigh, Entries;
    RootsNext(p, log, x, floor);
  }

  lemma CoveredNext(l0: seq<Placed>, l1: seq<Placed>, l2: seq<Placed>, h0: set<nat>, h1: set<nat>, h2: set<nat>, a: set<nat>, b: set<nat>)
    requires Covered(l0, l1, h0, h1, a) && Covered(l1, l2, h1, h2, b)
    ensures Covered(l0, l2, h0, h2, a + b)
  {
  }

  /** A walk leaves its later kids as they were: neither placed nor handed out again. */
  lemma StillKid(p: Pack, l0: seq<Placed>, l1: seq<Placed>, h0: set<nat>, h1: set<nat>, kids: seq<nat>, n: nat, from: From, hash: Hash)
    requires AreKids(p, l0, h0, kids, from, hash) && n < |kids| && l0 <= l1
    requires from.OnPlaced? ==> from.at < |l0|
    requires Covered(l0, l1, h0, h1, Elems(kids[..n]))
    ensures kids[n] < |p| && IsKid(p, l1, h1, kids[n], from, hash)
    ensures Elems(kids[..n]) + {kids[n]} == Elems(kids[..n + 1])
  {
    assert IsKid(p, l0, h0, kids[n], from, hash);
    assert kids[n] !in kids[..n];
    assert kids[..n + 1] == kids[..n] + [kids[n]];
    assert forall c :: c in kids[..n + 1] <==> c in kids[..n] || c == kids[n];
  }

  /** The entry that was just placed. */
  lemma JustPlaced(w: World, p: Pack, l0: seq<Placed>, l1: seq<Placed>, handed: set<nat>, c: nat, obj: Obj, h: Hash, serial: nat, chain: nat)
    requires Placed1(l0, l1, c, obj, h, serial, chain) && h == w.sha(obj)
    ensures Link(w, l1, OnPlaced(|l0|), obj, h, serial, chain) && EntryOf(l1, OnPlaced(|l0|)) == c
    ensures Covered(l0, l1, handed, handed, {c}) && Entries(l1) == Entries(l0) + {c} && l0 <= l1
  {
  }

  /** What Children hands out are kids of the entry asked for. */
  lemma HandedAreKids(p: Pack, log: seq<Placed>, h0: set<nat>, h1: set<nat>, kids: seq<nat>, from: From, hash: Hash)
    requires NoDup(kids) && h1 == h0 + Elems(kids)
    requires forall c <- kids :: c < |p| && c !in h0
    requires forall c <- kids :: BuiltOn(p, c, EntryOf(log, from), hash)
    requires forall c <- Entries(log) :: c < |p| && (p[c].IsDelta() ==> c in h0)
    ensures AreKids(p, log, h1, kids, from, hash)
  {
    forall k | 0 <= k < |kids| ensures IsKid(p, log, h1, kids[k], from, hash) {
      assert kids[k] in kids;
    }
  }

  lemma KidIsNew(p: Pack, log: seq<Placed>, handed: set<nat>, expanded: set<nat>, c: nat, from: From, hash: Hash)
    requires Tracked(p, log, handed, expanded) && IsKid(p, log, handed, c, from, hash)
    ensures c !in expanded && c in handed
  {
  }

  /** Walking what was handed out covers the growth since before it was handed out. */
  lemma HandedCovered(l0: seq<Placed>, l1: seq<Placed>, h0: set<nat>, h1: set<nat>, h2: set<nat>, kids: set<nat>)
    requires Covered(l0, l1, h1, h2, kids) && h1 == h0 + kids && kids !! h0
    ensures Covered(l0, l1, h0, h2, {})
  {
  }

  class Resolver {
    const forest: Forest
    const pool: BodyPool
    const builder: Builder

    /** The outside base that is being walked. */
    ghost var floor: Option<Hash>

    constructor (forest: Forest, pool: BodyPool, builder: Builder)
      ensures this.forest == forest && this.pool == pool && this.builder == builder && floor == None
    {
      this.forest, this.pool, this.builder, floor := forest, pool, builder, None;
    }

    ghost predicate Sound()
      reads this, forest, pool, pool.held.Keys, builder
    {
      && forest.Valid() && pool.Valid() && builder.Sound() && forest.p == builder.p
      && Lawful(builder.w) && LawfulCodec(builder.policy.codec) && Shallow(builder.log) && pool.steady == builder.steady
      && RootsOk(forest.p, builder.log, floor)
    }

    /** Between two walks everything placed was also asked for its children. */
    ghost predicate Ready()
      reads this, forest, pool, pool.held.Keys, builder, builder.seg
    {
      && Sound() && builder.Ready() && Tracked(forest.p, builder.log, forest.Handed(), forest.expanded)
      && AllAsked(forest.refs, forest.done, builder.log)
    }

    /** Reads an entry's inflated body. */
    method Inflate(i: nat) returns (r: Option<Body>)
      requires pool.Valid() && i < |forest.p|
      modifies pool
      ensures pool.Valid()
      ensures (r.None? ==> pool.held == old(pool.held)) && (pool.steady ==> r.Some?)
      ensures r.Some? ==> fresh(r.value) && r.value.Live() && r.value.Content() == forest.p[i].Payload() && pool.Knows(r.value)
      ensures r.Some? ==> pool.held - {r.value} == old(pool.held)
    {
      var failed: bool := *;
      if failed && !pool.steady {
        return None;
      }
      r := pool.Collect(forest.p[i].Payload());
    }

    /** Rebuilds an object from its base and a delta. A bad delta leaves some of its output in the
        sink, which is freed. */
    method Apply(base: Body, delta: Body) returns (r: Option<Body>, bad: bool)
      requires pool.Valid() && base.Live() && delta.Live()
      modifies pool
      ensures pool.Valid()
      ensures r.None? ==> pool.held == old(pool.held) && (pool.steady ==> bad)
      ensures bad == Delta.Apply(base.Content(), delta.Content()).None?
      ensures r.Some? ==> fresh(r.value) && r.value.Live() && pool.Knows(r.value)
      ensures r.Some? ==> Delta.Apply(base.Content(), delta.Content()) == Some(r.value.Content())
      ensures r.Some? ==> pool.held - {r.value} == old(pool.held)
    {
      hide Delta.Apply, BodyPool.Valid;
      var out := Delta.ApplyDelta(base.Content(), delta.Content());
      bad := out.None?;
      if out.Some? {
        r := pool.Collect(out.value);
      } else {
        var part: Bytes := *;
        var b := pool.Collect(part);
        if b.Some? {
          pool.Release(b.value);
        }
        r := None;
      }
    }

    /** Inflates a kid's delta and applies it. */
    method Decode(c: nat, base: Body) returns (r: Option<(Body, Body)>, bad: bool)
      requires pool.Valid() && base.Live() && c < |forest.p|
      modifies pool
      ensures pool.Valid()
      ensures r.None? ==> pool.held == old(pool.held) && (pool.steady ==> bad)
      ensures bad ==> Delta.Apply(base.Content(), forest.p[c].Payload()) == None
      ensures r.Some? ==> var (out, delta) := r.value;
                          && fresh(out) && fresh(delta) && out != delta && out.Live() && delta.Live() && pool.Knows(out) && pool.Knows(delta)
                          && delta.Content() == forest.p[c].Payload() && Delta.Apply(base.Content(), delta.Content()) == Some(out.Content())
                          && pool.held - {delta, out} == old(pool.held)
    {
      hide Delta.Apply, BodyPool.Valid;
      r, bad := None, false;
      var delta := Inflate(c);
      if delta.None? {
        return;
      }
      ghost var held := pool.held;
      var out;
      out, bad := Apply(base, delta.value);
      if out.None? {
        pool.Release(delta.value);
        return;
      }
      assert pool.held - {delta.value, out.value} == (pool.held - {out.value}) - {delta.value};
      r := Some((out.value, delta.value));
    }

    /** Places a resolved kid, whole or as its delta. */
    method PlaceOut(c: nat, hash: Hash, whole: Obj, serial: int, chain: nat, delta: Bytes, ghost from: From, ghost obj: Obj)
      returns (ok: bool, h: Hash, serial': nat, chain': nat)
      requires Sound() && builder.Ready() && obj.kind == whole.kind && BaseDepth(builder.log, from) < MAX_INCOMING_DELTA_DEPTH
      requires Link(builder.w, builder.log, from, obj, hash, serial, chain)
      requires c < |forest.p| && IsKid(forest.p, builder.log, forest.Handed(), c, from, hash)
      requires delta == forest.p[c].Payload() && Delta.Apply(obj.bytes, delta) == Some(whole.bytes)
      requires from.OnExternal? ==> floor == Some(hash)
      modifies builder, builder.seg
      ensures Sound() && (builder.seg == null || builder.seg == old(builder.seg) || fresh(builder.seg))
      ensures (!ok ==> builder.log == old(builder.log)) && (builder.steady ==> ok)
      ensures ok ==> builder.Ready() && Placed1(old(builder.log), builder.log, c, whole, h, serial', chain') && h == builder.w.sha(whole)
      ensures ok ==> BaseDepth(builder.log, OnPlaced(|old(builder.log)|)) == BaseDepth(old(builder.log), from) + 1
    {
      hide BodyPool.Valid, Builder.Sound, Builder.Ready, Forest.Valid, Entries, Shallow, ChainDepth, RootsOk;
      hide Resolved, Link, IsKid, Lawful, LawfulCodec, Delta.Apply, Names;
      h := builder.w.sha(whole);
      KidResolves(builder.w, builder.p, builder.log, forest.Handed(), c, from, obj, hash, serial, chain, whole.bytes);
      ok, serial', chain' := builder.Place(h, whole, Some(delta), hash, serial, chain, c, from);
      if ok {
        ShallowNext(old(builder.log), builder.log[|old(builder.log)|]);
        RootsOkNext(forest.p, old(builder.log), builder.log[|old(builder.log)|], floor);
      }
    }

    /** Places a resolved kid. Its base is freed first when this was its last use, its delta after,
        and on a failure the object too. */
    method Store(c: nat, last: bool, hash: Hash, kind: int, base: Body, serial: int, chain: nat, out: Body, delta: Body,
                 ghost from: From, ghost obj: Obj)
      returns (ok: bool, h: Hash, serial': nat, chain': nat)
      requires Sound() && builder.Ready() && base != out && base != delta && out != delta
      requires pool.Knows(base) && pool.Knows(out) && pool.Knows(delta) && out.Live() && delta.Live() && obj.kind == kind
      requires BaseDepth(builder.log, from) < MAX_INCOMING_DELTA_DEPTH
      requires Link(builder.w, builder.log, from, obj, hash, serial, chain)
      requires c < |forest.p| && IsKid(forest.p, builder.log, forest.Handed(), c, from, hash)
      requires delta.Content() == forest.p[c].Payload() && Delta.Apply(obj.bytes, delta.Content()) == Some(out.Content())
      requires from.OnExternal? ==> floor == Some(hash)
      modifies pool, builder, builder.seg, base, out, delta
      ensures Sound() && pool.Knows(base) && (!last ==> base.mem == old(base.mem) && base.file == old(base.file))
      ensures builder.seg == null || builder.seg == old(builder.seg) || fresh(builder.seg)
      ensures pool.held == old(pool.held) - {delta} - (if last then {base} else {}) - (if ok then {} else {out})
      ensures (!ok ==> builder.log == old(builder.log)) && (builder.steady ==> ok)
      ensures ok ==> BaseDepth(builder.log, OnPlaced(|old(builder.log)|)) == BaseDepth(old(builder.log), from) + 1
      ensures ok ==> out.Live() && pool.Knows(out) && out.Content() == old(out.Content()) && builder.Ready()
      ensures ok ==> Placed1(old(builder.log), builder.log, c, Obj(kind, out.Content()), h, serial', chain')
      ensures ok ==> h == builder.w.sha(Obj(kind, out.Content()))
    {
      hide BodyPool.Valid, Builder.Sound, Builder.Ready, Forest.Valid;
      hide Link, IsKid, Lawful, LawfulCodec, Delta.Apply, Placed1, Shallow, BaseDepth, RootsOk;
      if last {
        pool.Release(base);
      }
      ok, h, serial', chain' := PlaceOut(c, hash, Obj(kind, out.Content()), serial, chain, delta.Content(), from, obj);
      pool.Release(delta);
      if !ok {
        pool.Release(out);
      }
    }

    /** One turn of a walk: the kid `c`, and everything built on it. */
    method Kid(c: nat, last: bool, hash: Hash, kind: int, base: Body, serial: int, chain: nat, depth: nat, ghost from: From, ghost obj: Obj)
      returns (r: Outcome)
      requires Ready() && depth == BaseDepth(builder.log, from) + 1 <= MAX_INCOMING_DELTA_DEPTH
      requires from.OnExternal? ==> floor == Some(hash)
      requires pool.Knows(base) && base.Live() && obj == Obj(kind, base.Content())
      requires Link(builder.w, builder.log, from, obj, hash, serial, chain)
      requires c < |forest.p| && IsKid(forest.p, builder.log, forest.Handed(), c, from, hash)
      modifies forest, pool, builder, builder.seg, base
      ensures Sound() && pool.Knows(base) && (!last ==> base.mem == old(base.mem) && base.file == old(base.file))
      ensures builder.seg == null || builder.seg == old(builder.seg) || fresh(builder.seg)
      ensures pool.held - {base} == old(pool.held) - {base} && old(builder.log) <= builder.log && forest.MarksKept(old(forest.done))
      ensures Blamed(builder.w, forest.p, builder.log, r) && (builder.steady ==> !r.Fault?)
      ensures r.Done? ==> Ready() && Covered(old(builder.log), builder.log, old(forest.Handed()), forest.Handed(), {c})
      decreases MAX_INCOMING_DELTA_DEPTH + 1 - depth, 0
    {
      hide BodyPool.Valid, Builder.Sound, Builder.Ready, Forest.Valid;
      hide Link, IsKid, AreKids, Lawful, LawfulCodec, Delta.Apply, Placed1, Covered, Tracked, NoDup, Shallow, BaseDepth, Blamed;
      hide RootsOk, AllAsked;
      KidIsNew(forest.p, builder.log, forest.Handed(), forest.expanded, c, from, hash);
      var decoded, bad := Decode(c, base);
      if decoded.None? {
        KidIsStuck(builder.w, forest.p, builder.log, forest.Handed(), c, from, obj, hash, serial, chain);
        NothingBlamed(builder.w, forest.p, builder.log);
        r := if bad then BadDelta(c) else Fault;
        return;
      }
      var (out, delta) := decoded.value;
      var ok, h, serial', chain' := Store(c, last, hash, kind, base, serial, chain, out, delta, from, obj);
      if !ok {
        NothingBlamed(builder.w, forest.p, builder.log);
        return Fault;
      }
      r := Descend(c, h, kind, out, serial', chain', depth + 1, old(builder.log));
    }

    /** Goes on with what is built on the entry `c` that was just placed, or frees its body. */
    method Descend(c: nat, h: Hash, kind: int, out: Body, serial: nat, chain: nat, depth: nat, ghost before: seq<Placed>) returns (r: Outcome)
      requires Sound() && builder.Ready() && c < |forest.p| && Placed1(before, builder.log, c, Obj(kind, out.Content()), h, serial, chain)
      requires Tracked(forest.p, before, forest.Handed(), forest.expanded) && c !in forest.expanded
      requires (forest.p[c].IsDelta() ==> c in forest.Handed()) && AllAsked(forest.refs, forest.done, before)
      requires pool.Knows(out) && out.Live() && h == builder.w.sha(Obj(kind, out.Content()))
      requires depth == BaseDepth(builder.log, OnPlaced(|before|)) + 1
      modifies forest, pool, builder, builder.seg, out
      ensures Sound() && (builder.seg == null || builder.seg == old(builder.seg) || fresh(builder.seg))
      ensures pool.held == old(pool.held) - {out} && before <= builder.log && forest.MarksKept(old(forest.done))
      ensures Blamed(builder.w, forest.p, builder.log, r) && (builder.steady ==> !r.Fault?)
      ensures r.Done? ==> Ready() && Covered(before, builder.log, old(forest.Handed()), forest.Handed(), {c})
      decreases MAX_INCOMING_DELTA_DEPTH + 1 - depth, 2
    {
      hide BodyPool.Valid, Builder.Sound, Builder.Ready, Forest.Valid;
      hide Link, IsKid, AreKids, Lawful, LawfulCodec, Delta.Apply, Placed1, Covered, Entries, NoDup, RootsOk, AllAsked;
      ghost var obj, log, handed, from := Obj(kind, out.Content()), builder.log, forest.Handed(), OnPlaced(|before|);
      JustPlaced(builder.w, forest.p, before, log, handed, c, obj, h, serial, chain);
      var grand := forest.Children(c, h);
      HandedAreKids(forest.p, log, handed, forest.Handed(), grand, from, h);
      AskedNext(forest.refs, old(forest.done), forest.done, before, log, c, obj, h, serial, chain);
      if grand == [] {
        assert forest.Handed() == handed;
        pool.Release(out);
        return Done;
      }
      ghost var handed1 := forest.Handed();
      r := Walk(grand, h, kind, out, serial, chain, depth, from, obj);
      if r.Done? {
        HandedCovered(log, builder.log, handed, handed1, forest.Handed(), Elems(grand));
        CoveredNext(before, log, builder.log, handed, handed, forest.Handed(), {c}, {});
        assert {c} + {} == {c};
      }
    }

    /** Walks the kids of a base and everything built on them, depth first, and frees the base. On
        success exactly the kids, and what was handed out on the way, were placed. On every path no
        other body is held than before. */
    method Walk(kids: seq<nat>, hash: Hash, kind: int, base: Body, serial: int, chain: nat, depth: nat, ghost from: From, ghost obj: Obj)
      returns (r: Outcome)
      requires Ready() && pool.Knows(base) && base.Live() && obj == Obj(kind, base.Content())
      requires Link(builder.w, builder.log, from, obj, hash, serial, chain)
      requires AreKids(forest.p, builder.log, forest.Handed(), kids, from, hash)
      requires depth == BaseDepth(builder.log, from) + 1 && (kids == [] ==> depth <= MAX_INCOMING_DELTA_DEPTH)
      requires from.OnExternal? ==> floor == Some(hash)
      modifies forest, pool, builder, builder.seg, base
      ensures Sound() && (builder.seg == null || builder.seg == old(builder.seg) || fresh(builder.seg))
      ensures pool.held == old(pool.held) - {base} && old(builder.log) <= builder.log && forest.MarksKept(old(forest.done))
      ensures Blamed(builder.w, forest.p, builder.log, r) && (builder.steady ==> !r.Fault?)
      ensures r.Done? ==> Ready() && Covered(old(builder.log), builder.log, old(forest.Handed()), forest.Handed(), Elems(kids))
      decreases MAX_INCOMING_DELTA_DEPTH + 1 - depth, 1
    {
      hide BodyPool.Valid, Builder.Sound, Builder.Ready, Forest.Valid;
      hide Link, IsKid, AreKids, Lawful, LawfulCodec, Covered, Tracked, NoDup, Shallow, BaseDepth, Blamed, RootsOk, AllAsked;
      if depth > MAX_INCOMING_DELTA_DEPTH {
        FirstIsKid(forest.p, builder.log, forest.Handed(), kids, from, hash);
        KidIsStuck(builder.w, forest.p, builder.log, forest.Handed(), kids[0], from, obj, hash, serial, chain);
        pool.Release(base);
        return TooDeep(kids[0]);
      }
      ghost var log, handed := builder.log, forest.Handed();
      NoneCovered(log, handed);
      assert Elems(kids[..0]) == {};
      for n := 0 to |kids|
        invariant Ready() && pool.Knows(base) && (n < |kids| ==> base.Live() && obj.bytes == base.Content())
        invariant builder.seg == null || builder.seg == old(builder.seg) || fresh(builder.seg)
        invariant pool.held - {base} == old(pool.held) - {base} && log <= builder.log && forest.MarksKept(old(forest.done))
        invariant Covered(log, builder.log, handed, forest.Handed(), Elems(kids[..n]))
      {
        LinkStays(builder.w, log, builder.log, from, obj, hash, serial, chain);
        StillKid(forest.p, log, builder.log, handed, forest.Handed(), kids, n, from, hash);
        ghost var log1, handed1 := builder.log, forest.Handed();
        r := Kid(kids[n], n == |kids| - 1, hash, kind, base, serial, chain, depth, from, obj);
        if !r.Done? {
          pool.Release(base);
          return;
        }
        CoveredNext(log, log1, builder.log, handed, handed1, forest.Handed(), Elems(kids[..n]), {kids[n]});
      }
      assert kids[..|kids|] == kids;
      pool.Release(base);
      NothingBlamed(builder.w, forest.p, builder.log);
      r := Done;
    }

    /** A whole object, and everything built on it. Its children are asked for first: when there are
        none, it goes from the pack file to the container and is never held. */
    method WholeObject(i: nat) returns (r: Outcome)
      requires Ready() && i < |forest.p| && forest.p[i].Whole? && i !in Entries(builder.log)
      modifies forest, pool, builder, builder.seg
      ensures Sound() && (builder.seg == null || builder.seg == old(builder.seg) || fresh(builder.seg))
      ensures pool.held == old(pool.held) && old(builder.log) <= builder.log && forest.MarksKept(old(forest.done))
      ensures Blamed(builder.w, forest.p, builder.log, r) && (builder.steady ==> !r.Fault?)
      ensures r.Done? ==> Ready() && Covered(old(builder.log), builder.log, old(forest.Handed()), forest.Handed(), {i})
    {
      hide BodyPool.Valid, Builder.Sound, Builder.Ready, Forest.Valid;
      hide Resolved, Link, IsKid, AreKids, Lawful, LawfulCodec, Covered, Entries, NoDup, RootsOk, AllAsked, Blamed;
      NothingBlamed(builder.w, forest.p, builder.log);
      ghost var log, handed := builder.log, forest.Handed();
      var obj := Obj(forest.p[i].kind, forest.p[i].body);
      var h := builder.w.sha(obj);
      var kids := forest.Children(i, h);
      WholeResolves(builder.w, builder.p, log, i);
      var ok, serial, chain, b;
      if kids == [] {
        assert forest.Handed() == handed;
        ok, serial, chain := builder.Place(h, obj, None, ZERO_HASH, -1, 0, i, Root);
        if ok {
          ShallowNext(log, builder.log[|log|]);
          RootsOkNext(forest.p, log, builder.log[|log|], floor);
          JustPlaced(builder.w, forest.p, log, builder.log, handed, i, obj, h, serial, chain);
          AskedNext(forest.refs, old(forest.done), forest.done, log, builder.log, i, obj, h, serial, chain);
          NothingBlamed(builder.w, forest.p, builder.log);
        }
        r := if ok then Done else Fault;
        return;
      }
      b := Inflate(i);
      if b.None? {
        return Fault;
      }
      ok, serial, chain := builder.Place(h, obj, None, ZERO_HASH, -1, 0, i, Root);
      if !ok {
        pool.Release(b.value);
        return Fault;
      }
      ShallowNext(log, builder.log[|log|]);
      RootsOkNext(forest.p, log, builder.log[|log|], floor);
      AskedNext(forest.refs, old(forest.done), forest.done, log, builder.log, i, obj, h, serial, chain);
      r := WalkRoot(i, h, obj.kind, b.value, serial, kids, log, handed);
    }

    /** Walks what was handed out on a whole object that was just placed. */
    method WalkRoot(i: nat, h: Hash, kind: int, b: Body, serial: nat, kids: seq<nat>, ghost log: seq<Placed>, ghost handed: set<nat>) returns (r: Outcome)
      requires Sound() && builder.Ready() && i < |forest.p| && forest.p[i].Whole?
      requires Placed1(log, builder.log, i, Obj(kind, b.Content()), h, serial, 0) && h == builder.w.sha(Obj(kind, b.Content()))
      requires NoDup(kids) && forest.Handed() == handed + Elems(kids) && (forall c <- kids :: c < |forest.p| && c !in handed && BuiltOn(forest.p, c, i, h))
      requires Tracked(forest.p, log, handed, forest.expanded - {i}) && i in forest.expanded && i !in Entries(log)
      requires pool.Knows(b) && b.Live() && BaseDepth(builder.log, OnPlaced(|log|)) == 0
      requires AllAsked(forest.refs, forest.done, builder.log)
      modifies forest, pool, builder, builder.seg, b
      ensures Sound() && (builder.seg == null || builder.seg == old(builder.seg) || fresh(builder.seg))
      ensures pool.held == old(pool.held) - {b} && log <= builder.log && forest.MarksKept(old(forest.done))
      ensures Blamed(builder.w, forest.p, builder.log, r) && (builder.steady ==> !r.Fault?)
      ensures r.Done? ==> Ready() && Covered(log, builder.log, handed, forest.Handed(), {i})
    {
      hide BodyPool.Valid, Builder.Sound, Builder.Ready, Forest.Valid;
      hide Link, IsKid, AreKids, Lawful, LawfulCodec, Covered, Entries, NoDup, Placed1, RootsOk, AllAsked, Blamed;
      ghost var log1, from, obj, handed1 := builder.log, OnPlaced(|log|), Obj(kind, b.Content()), forest.Handed();
      JustPlaced(builder.w, forest.p, log, log1, handed, i, obj, h, serial, 0);
      HandedAreKids(forest.p, log1, handed, handed1, kids, from, h);
      r := Walk(kids, h, kind, b, serial, 0, 1, from, obj);
      if r.Done? {
        HandedCovered(log1, builder.log, handed, handed1, forest.Handed(), Elems(kids));
        CoveredNext(log, log1, builder.log, handed, handed, forest.Handed(), {i}, {});
        assert {i} + {} == {i};
      }
    }

    /** Everything built on a base from outside the pack. */
    method OutsideBase(h: Hash) returns (r: Outcome)
      requires Ready() && AskedFor(forest.p, builder.log, h) && Exhausted(forest.p, builder.log, h) && AtMost(floor, Some(h))
      modifies this`floor, forest, pool, builder, builder.seg
      ensures Sound() && (builder.seg == null || builder.seg == old(builder.seg) || fresh(builder.seg))
      ensures pool.held == old(pool.held) && old(builder.log) <= builder.log && forest.MarksKept(old(forest.done))
      ensures Blamed(builder.w, forest.p, builder.log, r) && (builder.steady ==> !r.Fault?)
      ensures r.Done? ==> Ready() && Covered(old(builder.log), builder.log, old(forest.Handed()), forest.Handed(), {})
      ensures AtMost(floor, Some(h))
      ensures r.Done? ==> forall k :: 0 <= k < |forest.refs| && forest.refs[k].base == h ==> k < |forest.done| && forest.done[k]
    {
      hide BodyPool.Valid, Builder.Sound, Builder.Ready, Forest.Valid;
      hide Link, IsKid, AreKids, Lawful, LawfulCodec, Covered, Entries, NoDup, RootsOk, AllAsked, Exhausted;
      var found := builder.w.external(h);
      if found.None? {
        return NoBase(h);
      }
      var obj := found.value;
      var b := pool.Collect(obj.bytes);
      if b.None? {
        return Fault;
      }
      ghost var log, handed := builder.log, forest.Handed();
      var kids := forest.Children(-1, h);
      ghost var handed1 := forest.Handed();
      HandedAreKids(forest.p, log, handed, handed1, kids, OnExternal, h);
      OutsideLink(builder.w, log, obj, h);
      AskedMore(forest.refs, old(forest.done), forest.done, log);
      FloorRaised(forest.p, log, floor, h);
      floor := Some(h);
      r := Walk(kids, h, obj.kind, b.value, -1, 0, 1, OnExternal, obj);
      if r.Done? {
        HandedCovered(log, builder.log, handed, handed1, forest.Handed(), Elems(kids));
      }
    }

    /** Resolves the pack: every whole object with what is built on it, then what is built on bases
        from outside. On success every entry is placed, and placed once. On every path no body is
        held that was not held before. */
    method Run() returns (r: Outcome)
      requires Ready() && builder.log == [] && forest.Handed() == {} && floor == None
      modifies this`floor, forest, pool, builder, builder.seg
      ensures Sound() && pool.held == old(pool.held) && pool.mem == old(pool.mem)
      ensures builder.seg == null || builder.seg == old(builder.seg) || fresh(builder.seg)
      ensures Blamed(builder.w, forest.p, builder.log, r) && (builder.steady ==> !r.Fault?)
      ensures r.Done? ==> builder.Ready() && Complete(forest.p, builder.log)
    {
      hide RootsOk, AllAsked, Blamed;
      r := WholeObjects();
      if r.Done? {
        r := OutsideBases();
        if r.Done? {
          forall c: nat | c < |forest.p| ensures c in Entries(builder.log) {
            AllPlaced(forest.p, forest.refs, forest.done, builder.log, c);
          }
        }
      }
    }

    /** The whole objects come first. */
    method WholeObjects() returns (r: Outcome)
      requires Ready() && builder.log == [] && forest.Handed() == {} && floor == None
      modifies forest, pool, builder, builder.seg
      ensures Sound() && pool.held == old(pool.held) && (builder.seg == null || builder.seg == old(builder.seg) || fresh(builder.seg))
      ensures Blamed(builder.w, forest.p, builder.log, r) && (builder.steady ==> !r.Fault?)
      ensures r.Done? ==> Ready() && Walked(forest.p, builder.log, forest.Handed(), |forest.p|)
    {
      hide BodyPool.Valid, Builder.Sound, Builder.Ready, Forest.Valid, Lawful, LawfulCodec, Covered, Walked, RootsOk, AllAsked, Blamed;
      NoneWalked(forest.p, builder.log, forest.Handed());
      for i := 0 to |forest.p|
        invariant Ready() && pool.held == old(pool.held) && (builder.seg == null || builder.seg == old(builder.seg) || fresh(builder.seg))
        invariant Walked(forest.p, builder.log, forest.Handed(), i)
      {
        ghost var log, handed := builder.log, forest.Handed();
        if forest.p[i].IsDelta() {
          WalkedNext(forest.p, log, log, handed, handed, i);
        } else {
          forest.HandedAreDeltas();
          NotWalkedYet(forest.p, log, handed, i);
          r := WholeObject(i);
          if !r.Done? {
            return;
          }
          WalkedNext(forest.p, log, builder.log, handed, forest.Handed(), i);
        }
      }
      NothingBlamed(builder.w, forest.p, builder.log);
      r := Done;
    }

    /** A ref-delta that is still pending names a base outside the pack. */
    method OutsideBases() returns (r: Outcome)
      requires Ready() && Walked(forest.p, builder.log, forest.Handed(), |forest.p|) && floor == None
      modifies this`floor, forest, pool, builder, builder.seg
      ensures Sound() && pool.held == old(pool.held) && (builder.seg == null || builder.seg == old(builder.seg) || fresh(builder.seg))
      ensures Blamed(builder.w, forest.p, builder.log, r) && (builder.steady ==> !r.Fault?)
      ensures r.Done? ==> Ready() && Walked(forest.p, builder.log, forest.Handed(), |forest.p|) && forest.AllDone(|forest.refs|)
    {
      hide BodyPool.Valid, Builder.Sound, Builder.Ready, Lawful, LawfulCodec, Covered, Walked, Tracked, Linked, Listed, RootsOk, AllAsked, Blamed;
      hide AtMost, Exhausted, AskedFor, Claimed;
      forall j | 0 <= j < |forest.refs| ensures AtMost(floor, Some(forest.refs[j].base)) {
        FloorMoves(forest.p, forest.refs, floor, j, j);
      }
      for k := 0 to |forest.refs|
        invariant Ready() && pool.held == old(pool.held) && (builder.seg == null || builder.seg == old(builder.seg) || fresh(builder.seg))
        invariant Walked(forest.p, builder.log, forest.Handed(), |forest.p|) && forest.AllDone(k)
        invariant forall j :: k <= j < |forest.refs| ==> AtMost(floor, Some(forest.refs[j].base))
      {
        if !forest.done[k] {
          ghost var log, handed := builder.log, forest.Handed();
          TrackedExpands(forest.p, log, handed, forest.expanded);
          NotPlacedYet(forest.p, forest.refs, forest.done, forest.expanded, log, k);
          AllBelowDone(forest.p, forest.refs, forest.done, log, k);
          r := OutsideBase(forest.refs[k].base);
          if !r.Done? {
            return;
          }
          WalkedMore(forest.p, log, builder.log, handed, forest.Handed());
          forall j | k < j < |forest.refs| ensures AtMost(floor, Some(forest.refs[j].base)) {
            FloorMoves(forest.p, forest.refs, floor, k, j);
          }
        }
      }
      NothingBlamed(builder.w, forest.p, builder.log);
      r := Done;
    }
  }

  /** The whole objects below `n`, every delta handed out, and nothing else is placed. */
  ghost predicate Walked(p: Pack, log: seq<Placed>, handed: set<nat>, n: nat) {
    forall c :: c in Entries(log) <==> c in handed || (0 <= c < n && c < |p| && p[c].Whole?)
  }

  lemma NoneWalked(p: Pack, log: seq<Placed>, handed: set<nat>)
    requires log == [] && handed == {}
    ensures Walked(p, log, handed, 0)
  {
  }

  lemma WalkedNext(p: Pack, l0: seq<Placed>, l1: seq<Placed>, h0: set<nat>, h1: set<nat>, i: nat)
    requires Walked(p, l0, h0, i) && i < |p|
    requires if p[i].IsDelta() then l1 == l0 && h1 == h0 else Covered(l0, l1, h0, h1, {i})
    ensures Walked(p, l1, h1, i + 1)
  {
  }

  /** Once every whole object was walked and every ref-delta handed out, every entry is placed: an
      ofs-delta's base comes before it, and its children were asked for. */
  lemma {:induction false} AllPlaced(p: Pack, refs: seq<RefDelta>, done: seq<bool>, log: seq<Placed>, c: nat)
    requires WellFormedPack(p) && Listed(p, refs) && |done| == |refs| && c < |p|
    requires forall k :: 0 <= k < |done| ==> done[k]
    requires Walked(p, log, Claimed(p, refs, done, Entries(log)), |p|)
    ensures c in Entries(log)
  {
    if p[c].Ofs? {
      AllPlaced(p, refs, done, log, p[c].base);
    } else if p[c].ByRef? {
      var k :| 0 <= k < |refs| && refs[k] == RefDelta(p[c].hash, c);
      assert done[k];
    }
  }

  lemma NotWalkedYet(p: Pack, log: seq<Placed>, handed: set<nat>, i: nat)
    requires Walked(p, log, handed, i) && i < |p| && p[i].Whole? && forall c <- handed :: c < |p| && p[c].IsDelta()
    ensures i !in Entries(log)
  {
  }

  lemma WalkedMore(p: Pack, l0: seq<Placed>, l1: seq<Placed>, h0: set<nat>, h1: set<nat>)
    requires Walked(p, l0, h0, |p|) && Covered(l0, l1, h0, h1, {})
    ensures Walked(p, l1, h1, |p|)
  {
  }

  lemma OutsideLink(w: World, log: seq<Placed>, obj: Obj, h: Hash)
    requires Lawful(w) && w.external(h) == Some(obj)
    ensures Link(w, log, OnExternal, obj, h, -1, 0) && EntryOf(log, OnExternal) == -1
  {
  }

  /** A kid of the walk's base is waiting for just that base. */
  lemma KidIsStuck(w: World, p: Pack, log: seq<Placed>, handed: set<nat>, c: nat, from: From, base: Obj, hash: Hash, serial: int, chain: nat)
    requires Link(w, log, from, base, hash, serial, chain) && IsKid(p, log, handed, c, from, hash)
    ensures WaitsOn(w, p, log, c, from, base)
    ensures Delta.Apply(base.bytes, p[c].Payload()) == None ==> Blamed(w, p, log, BadDelta(c))
    ensures BaseDepth(log, from) >= MAX_INCOMING_DELTA_DEPTH ==> Blamed(w, p, log, TooDeep(c))
  {
    hide Delta.Apply;
  }

  lemma FirstIsKid(p: Pack, log: seq<Placed>, handed: set<nat>, kids: seq<nat>, from: From, hash: Hash)
    requires AreKids(p, log, handed, kids, from, hash) && kids != []
    ensures IsKid(p, log, handed, kids[0], from, hash)
  {
  }

  lemma AskedMore(refs: seq<RefDelta>, done: seq<bool>, done': seq<bool>, log: seq<Placed>)
    requires AllAsked(refs, done, log) && |done'| == |refs| && forall k :: 0 <= k < |refs| && done[k] ==> done'[k]
    ensures AllAsked(refs, done', log)
  {
  }

  /** The next outside base is at or above the last one, and so is every ref-delta left. */
  lemma FloorRaised(p: Pack, log: seq<Placed>, floor: Option<Hash>, h: Hash)
    requires RootsOk(p, log, floor) && AtMost(floor, Some(h)) && Exhausted(p, log, h)
    ensures RootsOk(p, log, Some(h))
  {
    hide RootHash;
  }

  /** The bases come in rising order. */
  lemma FloorMoves(p: Pack, refs: seq<RefDelta>, floor: Option<Hash>, k: nat, j: nat)
    requires Listed(p, refs) && k <= j < |refs| && (floor == None || AtMost(floor, Some(refs[k].base)))
    ensures AtMost(floor, Some(refs[j].base))
  {
  }

  lemma TrackedExpands(p: Pack, log: seq<Placed>, handed: set<nat>, expanded: set<nat>)
    requires Tracked(p, log, handed, expanded)
    ensures expanded == Entries(log)
  {
  }

  /** When every ref-delta before place `k` was handed out, nothing more can be placed from below. */
  lemma AllBelowDone(p: Pack, refs: seq<RefDelta>, done: seq<bool>, log: seq<Placed>, k: nat)
    requires Listed(p, refs) && AllAsked(refs, done, log) && k < |refs| && forall j :: 0 <= j < k ==> done[j]
    requires Walked(p, log, Claimed(p, refs, done, Entries(log)), |p|)
    ensures Exhausted(p, log, refs[k].base)
  {
    var h := refs[k].base;
    forall c: nat, j: nat | j < |log| && Asks(p, c, log[j].rec.hash) ensures c in Entries(log) {
      var i :| 0 <= i < |refs| && refs[i] == RefDelta(p[c].hash, c);
      assert done[i];
    }
    forall c: nat | c < |p| && p[c].ByRef? && p[c].hash < h ensures c in Entries(log) {
      var i :| 0 <= i < |refs| && refs[i] == RefDelta(p[c].hash, c);
      assert i < k && done[i];
    }
  }

  lemma NotPlacedYet(p: Pack, refs: seq<RefDelta>, done: seq<bool>, expanded: set<nat>, log: seq<Placed>, k: nat)
    requires Listed(p, refs) && |done| == |refs| && k < |refs| && !done[k] && Walked(p, log, Claimed(p, refs, done, expanded), |p|)
    ensures AskedFor(p, log, refs[k].base)
  {
    var c := refs[k].idx;
    assert !Handed(refs, done, c);
    assert Asks(p, c, refs[k].base) && c !in Entries(log);
  }

  lemma WholeResolves(w: World, p: Pack, log: seq<Placed>, i: nat)
    requires i < |p| && p[i].Whole?
    ensures Resolved(w, p, log, i, Obj(p[i].kind, p[i].body), Root)
  {
  }

  lemma NoneCovered(log: seq<Placed>, handed: set<nat>)
    ensures Covered(log, log, handed, handed, {})
  {
  }

  /** One object more in the log: entry `c`. */
  ghost predicate Placed1(log: seq<Placed>, log': seq<Placed>, c: nat, obj: Obj, h: Hash, serial: nat, chain: nat) {
    && |log'| == |log| + 1
    && var x := log'[|log|];
       log' == log + [x] && x.entry == c && x.obj == obj && x.rec.hash == h && x.serial == serial > 0 && x.chain == chain
  }

  /** A push: the pack is resolved and its last container sealed. When it succeeds, every entry was
      placed, after its base and with the bytes its delta chain means, and the sealed containers hold
      exactly what was placed. When nothing fails but the pack, the pack is to blame. `mem` is what the
      resolver still counts as held in memory. */
  method IndexPack(w: World, p: Pack, policy: Policy, byteLimit: nat, bodyLimit: nat, budget: nat, steady: bool)
    returns (r: Outcome, sealed: seq<Container>, mem: int, ghost log: seq<Placed>)
    requires WellFormedPack(p) && Lawful(w) && LawfulCodec(policy.codec)
    ensures mem == 0 && LogOk(w, p, log) && Shallow(log) && SealedKeep(policy.codec, byteLimit, sealed, log)
    ensures r.Done? ==> Complete(p, log) && SerialsTo(log, |sealed|)
    ensures Blamed(w, p, log, r) && (steady ==> !r.Fault?)
    ensures r.Done? ==> Ordered(w, p)
    ensures Injective(w) && Ordered(w, p) ==> r.Done? || r.Fault? || r.TooDeep?
    ensures Injective(w) && steady ==> forall b :: OrderedLog(w, p, b) && Plain(w, p, b) ==> (r.Done? <==> Shallow(b))
  {
    hide OrderedLog, Plain;
    hide LogOk, SealedKeep, Complete, Lawful, LawfulCodec, WellFormedPack, Linked, Listed, SerialsTo, Blamed, Shallow, RootsOk, AllAsked, Ordered, Injective;
    var forest := new Forest(p);
    var pool := new BodyPool(bodyLimit, budget, steady);
    var builder := new Builder(w, p, policy, byteLimit, steady);
    var resolver := new Resolver(forest, pool, builder);
    NothingTracked(p, builder.log, forest.Handed(), forest.expanded);
    NothingAsked(p, forest.refs, forest.done, builder.log);
    NothingBlamed(w, p, builder.log);
    r := resolver.Run();
    NothingBlamed(w, p, builder.log);
    if r.Done? && builder.seg != null {
      var ok := builder.Seal();
      r := if ok then Done else Fault;
    }
    sealed, mem, log := builder.sealed, pool.mem, builder.log;
    OutcomeIsJust(w, p, log, r, resolver.floor);
    if Injective(w) && steady {
      forall b | OrderedLog(w, p, b) && Plain(w, p, b) ensures r.Done? <==> Shallow(b) {
        DepthDecides(w, p, log, r, b);
      }
    }
  }

  /** Success means that the pack was in order; a missing base that it was not; and a delta that does
      not apply that no order resolves it. */
  lemma OutcomeIsJust(w: World, p: Pack, log: seq<Placed>, r: Outcome, floor: Option<Hash>)
    requires LogOk(w, p, log) && Blamed(w, p, log, r) && RootsOk(p, log, floor) && (r.Done? ==> Complete(p, log))
    ensures r.Done? ==> Ordered(w, p)
    ensures Injective(w) && Ordered(w, p) ==> r.Done? || r.Fault? || r.TooDeep?
  {
    hide LogOk, Blamed, RootsLow, Injective;
    if r.Done? {
      ResolvedIsOrdered(w, p, log);
    } else if r.NoBase? && Injective(w) {
      NoBaseIsUnordered(w, p, log, r.hash);
    } else if r.BadDelta? && Injective(w) {
      BadDeltaEntry(w, p, log, r.entry);
      forall other: seq<Placed> ensures !OrderedLog(w, p, other) {
        if OrderedLog(w, p, other) {
          BadDeltaIsFinal(w, p, log, r.entry, other);
        }
      }
    }
  }

  /** For a pack in order whose objects are distinct and new, only the depth of its chains is left. */
  lemma DepthDecides(w: World, p: Pack, log: seq<Placed>, r: Outcome, b: seq<Placed>)
    requires LogOk(w, p, log) && Blamed(w, p, log, r) && Shallow(log) && !r.Fault? && Injective(w)
    requires r.Done? ==> Complete(p, log)
    requires Ordered(w, p) ==> r.Done? || r.TooDeep?
    requires OrderedLog(w, p, b) && Plain(w, p, b)
    ensures r.Done? <==> Shallow(b)
  {
    hide LogOk, Blamed, Complete, Injective, DistinctObjects, NoneOutside, ChainDepth;
    if r.Done? {
      forall k | 0 <= k < |b| ensures ChainDepth(b, k) <= MAX_INCOMING_DELTA_DEPTH {
        PlacedEntry(w, p, b, k);
        var j := PlaceOf(p, log, b[k].entry);
        DepthIsUnique(w, p, log, j, b, k);
      }
    } else {
      TooDeepIsFinal(w, p, log, r.entry, b);
    }
  }

  lemma PlacedEntry(w: World, p: Pack, log: seq<Placed>, k: nat)
    requires LogOk(w, p, log) && k < |log|
    ensures log[k].entry < |p|
  {
    assert ResolvedAs(w, p, log[..k], log[k]);
  }

  lemma BadDeltaEntry(w: World, p: Pack, log: seq<Placed>, c: nat)
    requires Blamed(w, p, log, BadDelta(c))
    ensures c < |p|
  {
  }

  lemma NothingBlamed(w: World, p: Pack, log: seq<Placed>)
    ensures Blamed(w, p, log, Done) && Blamed(w, p, log, Fault) && (log == [] ==> Shallow(log))
  {
  }

  lemma NothingAsked(p: Pack, refs: seq<RefDelta>, done: seq<bool>, log: seq<Placed>)
    requires log == [] && |done| == |refs|
    ensures AllAsked(refs, done, log) && RootsOk(p, log, None)
  {
  }

  lemma NothingTracked(p: Pack, log: seq<Placed>, handed: set<nat>, expanded: set<nat>)
    requires log == [] && expanded == {}
    ensures Tracked(p, log, handed, expanded)
  {
  }
}
