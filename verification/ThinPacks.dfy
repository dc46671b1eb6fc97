/** A thin pack whose resolution hangs on the order of two hashes: a ref-delta on an object of the
    repository, and a ref-delta on what the first one makes. */
module ThinPacks {
  import opened Prelude
  import opened PackWriter
  import opened Placement
  import opened Containers
  import opened Resolver
  import Delta
  import PackIndex
  import PackTable

  const EMPTY: Obj := Obj(3, [])
  const SEVEN: Obj := Obj(3, [7])
  const EIGHT: Obj := Obj(3, [8])

  /** A delta that makes the object 7 of the empty one, and a delta that makes the object 8 of that. */
  function ThinPack(w: World): Pack {
    [ByRef(w.sha(EMPTY), [0, 1, 1, 7]), ByRef(w.sha(SEVEN), [1, 1, 1, 8])]
  }

  /** The repository holds the empty object, and nothing else that matters. */
  ghost predicate HoldsEmpty(w: World) {
    && Lawful(w) && Injective(w) && w.external(w.sha(EMPTY)) == Some(EMPTY) && w.external(w.sha(SEVEN)) == None
  }

  lemma OneByteDelta(base: Bytes, x: byte)
    requires |base| < 128
    ensures Delta.Apply(base, [|base| as byte, 1, 1, x]) == Some([x])
  {
    var d: Bytes := [|base| as byte, 1, 1, x];
    assert Delta.ReadSize(d, 0, 0) == Some(Delta.Read(|base|, 1));
    assert Delta.ReadSize(d, 1, 0) == Some(Delta.Read(1, 2));
    assert d[3..4] == [x];
    assert Delta.ReadCmd(d, 2) == Some(Delta.Read(Delta.Insert([x]), 4));
    assert Delta.ApplyFrom(base, d, 4, 0) == Some([]);
    assert [x] + [] == [x];
    assert Delta.ApplyFrom(base, d, 2, 1) == Some([x]);
  }

  lemma ThinDeltas()
    ensures Delta.Apply(EMPTY.bytes, [0, 1, 1, 7]) == Some(SEVEN.bytes) && Delta.Apply(SEVEN.bytes, [1, 1, 1, 8]) == Some(EIGHT.bytes)
  {
    OneByteDelta([], 7);
    OneByteDelta([7], 8);
  }

  /** Everything can be placed: the first delta on the outside object, and the second on the first. */
  function ThinLog(w: World): seq<Placed> {
    [Placed(0, SEVEN, OnExternal, 1, PackIndex.CueRecord(w.sha(SEVEN), PackTable.Span(3, 0, 0, 1, 1), ZERO_HASH), [7], 0),
     Placed(1, EIGHT, OnPlaced(0), 1, PackIndex.CueRecord(w.sha(EIGHT), PackTable.Span(3, 0, 1, 1, 1), ZERO_HASH), [8], 0)]
  }

  lemma ThinResolves(w: World)
    requires HoldsEmpty(w)
    ensures WellFormedPack(ThinPack(w)) && LogOk(w, ThinPack(w), ThinLog(w)) && Complete(ThinPack(w), ThinLog(w))
  {
    hide Delta.Apply, Injective;
    var p, log := ThinPack(w), ThinLog(w);
    ThinDeltas();
    assert log[0] in log && log[1] in log;
    assert ResolvedAs(w, p, log[..0], log[0]) && ResolvedAs(w, p, log[..1], log[1]);
    assert Recorded(w, p, log[..0], log[0]) && Recorded(w, p, log[..1], log[1]);
  }

  /** In every sound log the first entry is 7, on the outside object, and the second is 8. */
  lemma ThinEntries(w: World, log: seq<Placed>, k: nat)
    requires HoldsEmpty(w) && LogOk(w, ThinPack(w), log) && k < |log|
    ensures log[k].entry < 2 && log[k].obj == (if log[k].entry == 0 then SEVEN else EIGHT)
  {
    hide Delta.Apply;
    ThinDeltas();
    assert ResolvedAs(w, ThinPack(w), log[..k], log[k]);
  }

  /** It is in order exactly when the outside object has the smaller hash. */
  lemma ThinOrder(w: World)
    requires HoldsEmpty(w)
    ensures Ordered(w, ThinPack(w)) <==> w.sha(EMPTY) < w.sha(SEVEN)
  {
    hide LogOk, Injective, Lawful;
    var p := ThinPack(w);
    if w.sha(EMPTY) < w.sha(SEVEN) {
      var log := ThinLog(w);
      ThinResolves(w);
      assert RootHash(p, log, 0) == Some(w.sha(EMPTY));
      assert RootHash(p, log, 1) == Some(w.sha(EMPTY));
      forall k | 0 <= k < |log| ensures InOrderAt(w, p, log, k) {
      }
      assert OrderedLog(w, p, log);
    } else {
      forall log: seq<Placed> | LogOk(w, p, log) && Complete(p, log) ensures !OrderedLog(w, p, log) {
        ThinUnordered(w, log);
      }
    }
  }

  lemma ThinUnordered(w: World, log: seq<Placed>)
    requires HoldsEmpty(w) && LogOk(w, ThinPack(w), log) && Complete(ThinPack(w), log) && w.sha(EMPTY) >= w.sha(SEVEN)
    ensures !OrderedLog(w, ThinPack(w), log)
  {
    var p := ThinPack(w);
    assert 1 in Entries(log);
    var k :| 0 <= k < |log| && log[k].entry == 1;
    var at := SecondOnFirst(w, log, k);
    FirstOnOutside(w, log, at);
    assert RootHash(p, log, k) == RootHash(p, log, at) == Some(w.sha(EMPTY));
    assert !InOrderAt(w, p, log, k);
  }

  lemma SecondOnFirst(w: World, log: seq<Placed>, k: nat) returns (at: nat)
    requires HoldsEmpty(w) && LogOk(w, ThinPack(w), log) && k < |log| && log[k].entry == 1
    ensures log[k].from == OnPlaced(at) && at < k && log[at].entry == 0
  {
    hide Delta.Apply;
    assert ResolvedAs(w, ThinPack(w), log[..k], log[k]);
    at := log[k].from.at;
    ThinEntries(w, log, at);
  }

  lemma FirstOnOutside(w: World, log: seq<Placed>, k: nat)
    requires HoldsEmpty(w) && LogOk(w, ThinPack(w), log) && k < |log| && log[k].entry == 0
    ensures log[k].from == OnExternal
  {
    hide Delta.Apply;
    assert ResolvedAs(w, ThinPack(w), log[..k], log[k]);
    if log[k].from.OnPlaced? {
      ThinEntries(w, log, log[k].from.at);
    }
  }

  /** Chains of two deltas are not too deep, and no delta of the pack is bad. */
  lemma ThinBlame(w: World, log: seq<Placed>, r: Outcome)
    requires HoldsEmpty(w) && LogOk(w, ThinPack(w), log) && Blamed(w, ThinPack(w), log, r)
    ensures r.Done? || r.Fault? || r == NoBase(w.sha(SEVEN))
  {
    hide Delta.Apply, LogOk, Exhausted;
    var p := ThinPack(w);
    ThinDeltas();
    if r.TooDeep? {
      var from, base :| WaitsOn(w, p, log, r.entry, from, base) && BaseDepth(log, from) >= MAX_INCOMING_DELTA_DEPTH;
      if from.OnPlaced? {
        ThinShort(w, log);
        DepthOfPlace(log, from.at);
      }
    }
  }

  lemma ThinShort(w: World, log: seq<Placed>)
    requires HoldsEmpty(w) && LogOk(w, ThinPack(w), log)
    ensures |log| <= 2
  {
    if |log| > 2 {
      ThinEntries(w, log, 0);
      ThinEntries(w, log, 1);
      ThinEntries(w, log, 2);
    }
  }

  lemma {:induction false} DepthOfPlace(log: seq<Placed>, k: nat)
    requires k < |log|
    ensures ChainDepth(log, k) <= k + 1
  {
    if log[k].from.OnPlaced? && log[k].from.at < k {
      DepthOfPlace(log, log[k].from.at);
    }
  }

  /** The pack can always be resolved. Without I/O faults the push succeeds when the outside object has
      the smaller hash, and ends with a missing base when it has the larger one. */
  method PushThinPack(w: World, policy: Policy, byteLimit: nat, bodyLimit: nat, budget: nat) returns (r: Outcome)
    requires HoldsEmpty(w) && LawfulCodec(policy.codec)
    ensures r == if w.sha(EMPTY) < w.sha(SEVEN) then Done else NoBase(w.sha(SEVEN))
  {
    hide LogOk, Blamed, LawfulCodec, Complete, WellFormedPack, Ordered;
    ThinResolves(w);
    var sealed, mem;
    ghost var log;
    r, sealed, mem, log := IndexPack(w, ThinPack(w), policy, byteLimit, bodyLimit, budget, true);
    ThinBlame(w, log, r);
    ThinOrder(w);
  }
}
