/** A scanned pack: the table of each entry's ofs-delta children, and the ref-deltas sorted by the
    base they name, each handed out once. */
module IncomingPack {
  import opened Prelude
  import opened Placement
  import Search

  /** The ofs-delta children of entry `i` among the first `n` entries, in pack order. */
  function OfsKids(p: Pack, i: nat, n: nat): seq<nat>
    requires n <= |p|
  {
    if n == 0 then []
    else OfsKids(p, i, n - 1) + if p[n - 1].Ofs? && p[n - 1].base == i then [n - 1] else []
  }

  /** They are exactly the deltas that name `i`, each once. */
  lemma {:induction false} OfsKidsExact(p: Pack, i: nat, n: nat)
    requires n <= |p|
    ensures forall c :: c in OfsKids(p, i, n) <==> 0 <= c < n && p[c].Ofs? && p[c].base == i
    ensures NoDup(OfsKids(p, i, n))
  {
    if n > 0 {
      OfsKidsExact(p, i, n - 1);
    }
  }

  lemma OfsKidsNext(p: Pack, i: nat, n: nat)
    requires n < |p|
    ensures OfsKids(p, i, n + 1) == OfsKids(p, i, n) + if p[n].Ofs? && p[n].base == i then [n] else []
  {
  }

  lemma {:induction false} OfsKidsGrow(p: Pack, i: nat, m: nat, n: nat)
    requires m <= n <= |p|
    ensures |OfsKids(p, i, m)| <= |OfsKids(p, i, n)|
    decreases n
  {
    if m < n {
      OfsKidsGrow(p, i, m, n - 1);
    }
  }

  /** The count kept at place `i`: how many children the entry before it has among the first `n`. */
  function Count(p: Pack, i: nat, n: nat): nat
    requires n <= |p|
  {
    if i == 0 then 0 else |OfsKids(p, i - 1, n)|
  }

  /** How many ofs-deltas are built on an entry below `i`: where the children of `i` start. */
  function KidsBelow(p: Pack, i: nat): nat {
    if i == 0 then 0 else KidsBelow(p, i - 1) + Count(p, i, |p|)
  }

  lemma {:induction false} KidsBelowGrow(p: Pack, i: nat, j: nat)
    requires i < j
    ensures KidsBelow(p, i) + |OfsKids(p, i, |p|)| <= KidsBelow(p, j)
    decreases j
  {
    hide OfsKids;
    if i < j - 1 {
      KidsBelowGrow(p, i, j - 1);
    }
  }

  /** The table holds exactly each entry's children, side by side. */
  ghost predicate Linked(p: Pack, start: seq<nat>, kids: seq<nat>) {
    && |start| == |p| + 1
    && forall i :: 0 <= i < |p| ==> KidsAt(p, start, kids, i)
  }

  ghost predicate KidsAt(p: Pack, start: seq<nat>, kids: seq<nat>, i: nat)
    requires |start| == |p| + 1 && i < |p|
  {
    start[i] <= start[i + 1] <= |kids| && kids[start[i]..start[i + 1]] == OfsKids(p, i, |p|)
  }

  /** Counts each entry's children one place to the right of the entry. */
  method CountKids(p: Pack) returns (start: array<nat>)
    requires WellFormedPack(p)
    ensures fresh(start) && start.Length == |p| + 1
    ensures forall i :: 0 <= i <= |p| ==> start[i] == Count(p, i, |p|)
  {
    hide Count;
    start := new nat[|p| + 1](_ => 0);
    CountNone(p);
    for n := 0 to |p|
      invariant forall i :: 0 <= i <= |p| ==> start[i] == Count(p, i, n)
    {
      CountNext(p, n, n + 1);
      if p[n].Ofs? {
        start[p[n].base + 1] := start[p[n].base + 1] + 1;
      }
    }
  }

  lemma CountNone(p: Pack)
    ensures forall i: nat :: Count(p, i, 0) == 0
  {
  }

  lemma CountNext(p: Pack, n: nat, m: nat)
    requires n < |p| && m == n + 1
    ensures forall i: nat :: Count(p, i, m) == Count(p, i, n) + if p[n].Ofs? && i == p[n].base + 1 then 1 else 0
  {
    forall i: nat ensures Count(p, i, m) == Count(p, i, n) + if p[n].Ofs? && i == p[n].base + 1 then 1 else 0 {
      if i > 0 {
        OfsKidsNext(p, i - 1, n);
      }
    }
  }

  /** Turns the counts into the places where each entry's children start. */
  method SumKids(p: Pack, start: array<nat>)
    requires start.Length == |p| + 1
    requires forall i :: 0 <= i <= |p| ==> start[i] == Count(p, i, |p|)
    modifies start
    ensures forall i :: 0 <= i <= |p| ==> start[i] == KidsBelow(p, i)
  {
    hide Count, KidsBelow;
    KidsBelowNext(p, 0, 0);
    for i := 1 to start.Length
      invariant forall j :: 0 <= j < i ==> start[j] == KidsBelow(p, j)
      invariant forall j :: i <= j <= |p| ==> start[j] == Count(p, j, |p|)
    {
      KidsBelowNext(p, i - 1, i);
      start[i] := start[i] + start[i - 1];
    }
  }

  lemma KidsBelowNext(p: Pack, i: nat, j: nat)
    requires j == i + 1 || i == j == 0
    ensures KidsBelow(p, j) == (if j == 0 then 0 else KidsBelow(p, i)) + Count(p, j, |p|)
  {
  }

  /** The children of `i` among the first `n` entries are in place. */
  ghost predicate Filled(p: Pack, kids: seq<nat>, i: nat, n: nat)
    requires n <= |p|
  {
    var at, done := KidsBelow(p, i), OfsKids(p, i, n);
    at + |done| <= |kids| && kids[at..at + |done|] == done
  }

  ghost predicate AllFilled(p: Pack, kids: seq<nat>, fill: seq<nat>, n: nat)
    requires n <= |p|
  {
    && |fill| == |p| && |kids| == KidsBelow(p, |p|)
    && forall i :: 0 <= i < |p| ==> fill[i] == |OfsKids(p, i, n)| && Filled(p, kids, i, n)
  }

  /** Puts every child behind its entry's earlier children. */
  method FillKids(p: Pack, start: array<nat>) returns (kids: array<nat>)
    requires WellFormedPack(p) && start.Length == |p| + 1
    requires forall i :: 0 <= i <= |p| ==> start[i] == KidsBelow(p, i)
    ensures fresh(kids) && kids.Length == KidsBelow(p, |p|)
    ensures forall i :: 0 <= i < |p| ==> Filled(p, kids[..], i, |p|)
  {
    hide KidsBelow, OfsKids, Filled;
    kids := new nat[start[|p|]](_ => 0);
    var fill := new nat[|p|](_ => 0);
    FillStarts(p, kids[..], fill[..]);
    for n := 0 to |p|
      invariant AllFilled(p, kids[..], fill[..], n)
    {
      if p[n].Ofs? {
        var b := p[n].base;
        FillOne(p, kids[..], fill[..], n);
        kids[start[b] + fill[b]] := n;
        fill[b] := fill[b] + 1;
      } else {
        FillNone(p, kids[..], fill[..], n);
      }
    }
  }

  lemma FillStarts(p: Pack, kids: seq<nat>, fill: seq<nat>)
    requires |fill| == |p| && |kids| == KidsBelow(p, |p|) && forall i :: 0 <= i < |p| ==> fill[i] == 0
    ensures AllFilled(p, kids, fill, 0)
  {
    forall i | 0 <= i < |p| ensures Filled(p, kids, i, 0) {
      KidsBelowGrow(p, i, |p|);
    }
  }

  lemma FillOne(p: Pack, kids: seq<nat>, fill: seq<nat>, n: nat)
    requires n < |p| && p[n].Ofs? && p[n].base < |p| && AllFilled(p, kids, fill, n)
    ensures var b := p[n].base;
            var at := KidsBelow(p, b) + fill[b];
            at < |kids| && AllFilled(p, kids[at := n], fill[b := fill[b] + 1], n + 1)
  {
    hide OfsKids, KidsBelow, Filled;
    var b := p[n].base;
    var at := KidsBelow(p, b) + fill[b];
    KidsBelowGrow(p, b, |p|);
    OfsKidsNext(p, b, n);
    OfsKidsGrow(p, b, n + 1, |p|);
    var m, kids', fill' := n + 1, kids[at := n], fill[b := fill[b] + 1];
    forall i | 0 <= i < |p| ensures Filled(p, kids', i, m) && fill'[i] == |OfsKids(p, i, m)| {
      assert Filled(p, kids, i, n);
      OfsKidsNext(p, i, n);
      FillAt(p, kids, i, n, at);
    }
  }

  /** A child that goes behind the earlier children of its own entry leaves the others alone. */
  lemma FillAt(p: Pack, kids: seq<nat>, i: nat, n: nat, at: nat)
    requires n < |p| && p[n].Ofs? && i < |p| && at < |kids| && Filled(p, kids, i, n)
    requires at == KidsBelow(p, p[n].base) + |OfsKids(p, p[n].base, n)|
    requires at < KidsBelow(p, p[n].base) + |OfsKids(p, p[n].base, |p|)|
    ensures Filled(p, kids[at := n], i, n + 1)
  {
    hide OfsKids, KidsBelow;
    var b := p[n].base;
    var from, was := KidsBelow(p, i), OfsKids(p, i, n);
    OfsKidsNext(p, i, n);
    OfsKidsGrow(p, i, n, |p|);
    var kids' := kids[at := n];
    if i == b {
      assert kids'[from..from + |was| + 1] == kids[from..from + |was|] + [n];
    } else {
      if i < b {
        KidsBelowGrow(p, i, b);
      } else {
        KidsBelowGrow(p, b, i);
      }
      assert kids'[from..from + |was|] == kids[from..from + |was|];
    }
  }

  lemma FillNone(p: Pack, kids: seq<nat>, fill: seq<nat>, n: nat)
    requires n < |p| && !p[n].Ofs? && AllFilled(p, kids, fill, n)
    ensures AllFilled(p, kids, fill, n + 1)
  {
    forall i | 0 <= i < |p| ensures Filled(p, kids, i, n + 1) && fill[i] == |OfsKids(p, i, n + 1)| {
      assert Filled(p, kids, i, n);
      OfsKidsNext(p, i, n);
    }
  }

  /** The child table, built in three passes. */
  method LinkKids(p: Pack) returns (start: array<nat>, kids: array<nat>)
    requires WellFormedPack(p)
    ensures fresh(start) && fresh(kids) && Linked(p, start[..], kids[..])
  {
    hide KidsBelow, OfsKids, Count, Linked;
    start := CountKids(p);
    SumKids(p, start);
    kids := FillKids(p, start);
    FilledIsLinked(p, start[..], kids[..]);
  }

  lemma FilledIsLinked(p: Pack, start: seq<nat>, kids: seq<nat>)
    requires |start| == |p| + 1 && |kids| == KidsBelow(p, |p|)
    requires forall i :: 0 <= i <= |p| ==> start[i] == KidsBelow(p, i)
    requires forall i :: 0 <= i < |p| ==> Filled(p, kids, i, |p|)
    ensures Linked(p, start, kids)
  {
    forall i | 0 <= i < |p| ensures KidsAt(p, start, kids, i) {
      assert Filled(p, kids, i, |p|);
    }
  }

  function Elems(s: seq<nat>): set<nat> {
    set c | c in s
  }

  /** A ref-delta: the base it names and its place in the pack. */
  datatype RefDelta = RefDelta(base: Hash, idx: nat)

  /** The ref-deltas among the first `n` entries, in pack order. */
  function RefsOf(p: Pack, n: nat): (refs: seq<RefDelta>)
    requires n <= |p|
  {
    if n == 0 then []
    else RefsOf(p, n - 1) + if p[n - 1].ByRef? then [RefDelta(p[n - 1].hash, n - 1)] else []
  }

  lemma {:induction false} RefsExact(p: Pack, n: nat)
    requires n <= |p|
    ensures forall x :: x in RefsOf(p, n) <==> x.idx < n && p[x.idx].ByRef? && p[x.idx].hash == x.base
    ensures NoDup(RefsOf(p, n))
  {
    if n > 0 {
      RefsExact(p, n - 1);
    }
  }

  /** Each ref-delta of the pack is listed once, by the base it names. */
  ghost predicate Listed(p: Pack, refs: seq<RefDelta>) {
    && (forall k :: 0 <= k < |refs| ==> refs[k].idx < |p| && p[refs[k].idx].ByRef? && p[refs[k].idx].hash == refs[k].base)
    && (forall j, k :: 0 <= j < k < |refs| ==> refs[j].idx != refs[k].idx && refs[j].base <= refs[k].base)
    && (forall c :: 0 <= c < |p| && p[c].ByRef? ==> RefDelta(p[c].hash, c) in refs)
  }

  method ListRefs(p: Pack) returns (refs: seq<RefDelta>)
    ensures Listed(p, refs)
  {
    var found: seq<RefDelta> := [];
    for i := 0 to |p|
      invariant found == RefsOf(p, i)
    {
      if p[i].ByRef? {
        found := found + [RefDelta(p[i].hash, i)];
      }
    }
    refs := Search.SortBy(found, (x: RefDelta) => x.base);
    RefsExact(p, |p|);
    AnyOrderIsListed(p, found, refs);
  }

  lemma AnyOrderIsListed(p: Pack, found: seq<RefDelta>, refs: seq<RefDelta>)
    requires multiset(refs) == multiset(found) && Search.SortedBy(refs, (x: RefDelta) => x.base) && NoDup(found)
    requires forall x :: x in found <==> x.idx < |p| && p[x.idx].ByRef? && p[x.idx].hash == x.base
    ensures Listed(p, refs)
  {
    Search.NoDupAnyOrder(found, refs);
    assert forall x :: x in refs <==> x in multiset(refs);
    assert forall x :: x in found <==> x in multiset(found);
  }

  /** A ref-delta of the first `n` that names `h` and was not handed out. */
  ghost predicate Pending(refs: seq<RefDelta>, done: seq<bool>, h: Hash, n: nat, c: nat)
    requires |done| == |refs| && n <= |refs|
  {
    exists k :: 0 <= k < n && refs[k] == RefDelta(h, c) && !done[k]
  }

  ghost predicate Handed(refs: seq<RefDelta>, done: seq<bool>, c: nat)
    requires |done| == |refs|
  {
    exists k :: 0 <= k < |refs| && refs[k].idx == c && done[k]
  }

  /** The deltas handed out so far: those on an entry whose children were asked for, and the marked
      ref-deltas. */
  ghost function Claimed(p: Pack, refs: seq<RefDelta>, done: seq<bool>, expanded: set<nat>): set<nat>
    requires |done| == |refs|
  {
    set c | 0 <= c < |p| && (if p[c].Ofs? then p[c].base in expanded else Handed(refs, done, c))
  }

  /** The forest of deltas in a scanned pack. `expanded` is the entries whose children were asked for. */
  class Forest {
    const p: Pack
    const start: seq<nat>
    const kids: seq<nat>
    const refs: seq<RefDelta>
    var done: seq<bool>
    ghost var expanded: set<nat>

    ghost predicate Valid()
      reads this
    {
      WellFormedPack(p) && Linked(p, start, kids) && Listed(p, refs) && |done| == |refs|
    }

    ghost function Handed(): set<nat>
      requires Valid()
      reads this
    {
      Claimed(p, refs, done, expanded)
    }

    /** What was handed out before is not handed out again. */
    ghost predicate MarksKept(was: seq<bool>)
      reads this
    {
      |was| == |done| && forall k :: 0 <= k < |done| && was[k] ==> done[k]
    }

    ghost predicate AllDone(n: nat)
      reads this
    {
      n <= |done| && forall k :: 0 <= k < n ==> done[k]
    }

    lemma HandedAreDeltas()
      requires Valid()
      ensures forall c <- Handed() :: c < |p| && p[c].IsDelta()
    {
    }

    constructor (p: Pack)
      requires WellFormedPack(p)
      ensures Valid() && this.p == p && expanded == {} && Handed() == {} && forall k :: 0 <= k < |done| ==> !done[k]
    {
      var s, k := LinkKids(p);
      var r := ListRefs(p);
      this.p, start, kids, refs := p, s[..], k[..], r;
      done, expanded := seq(|r|, _ => false), {};
    }

    /** Hands out every ref-delta that names `h` and was not handed out before. */
    method TakeRefs(h: Hash) returns (out: seq<nat>)
      requires Valid()
      modifies this`done
      ensures Valid() && NoDup(out)
      ensures forall c :: c in out <==> Pending(refs, old(done), h, |refs|, c)
      ensures forall k :: 0 <= k < |refs| ==> done[k] == (old(done[k]) || refs[k].base == h)
    {
      hide Linked, Listed, Pending, NoDup;
      out := [];
      NoKids();
      var k := FirstRef(p, refs, h);
      ghost var first := k;
      PendingFrom(refs, old(done), h, k);
      while k < |refs| && refs[k].base == h
        invariant first <= k <= |refs| && |done| == |refs|
        invariant forall j :: 0 <= j < |refs| ==> done[j] == (old(done[j]) || first <= j < k)
        invariant forall j :: first <= j < k ==> refs[j].base == h
        invariant NoDup(out) && forall c :: c in out <==> Pending(refs, old(done), h, k, c)
      {
        PendingNext(p, refs, old(done), h, k);
        if !done[k] {
          NoDupNext(out, refs[k].idx);
          done := done[k := true];
          out := out + [refs[k].idx];
        }
        k := k + 1;
      }
      NoneBehind(p, refs, old(done), h, k);
    }

    /** The deltas built on entry `i`, whose hash is `h`: its ofs-delta children, then every ref-delta
        that names `h` and was not handed out before. No delta is handed out twice. For a base from
        outside the pack `i` is -1. */
    method Children(i: int, h: Hash) returns (out: seq<nat>)
      requires Valid() && -1 <= i < |p| && i !in expanded
      modifies this
      ensures Valid() && NoDup(out) && Handed() == old(Handed()) + Elems(out) && MarksKept(old(done)) && |done| == |refs|
      ensures forall c <- out :: c < |p| && c !in old(Handed())
      ensures forall c <- out :: BuiltOn(p, c, i, h)
      ensures expanded == old(expanded) + (if i >= 0 then {i} else {})
      ensures forall k :: 0 <= k < |refs| ==> done[k] == (old(done[k]) || refs[k].base == h)
    {
      hide Listed, Linked, Pending, NoDup;
      var ofs: seq<nat> := [];
      if i >= 0 {
        KidsOf(p, start, kids, i);
        ofs := kids[start[i]..start[i + 1]];
      } else {
        NoKids();
      }
      var byRef := TakeRefs(h);
      if i >= 0 {
        expanded := expanded + {i};
      }
      out := ofs + byRef;
      ClaimedGrows(p, refs, old(done), done, old(expanded), i, h, ofs, byRef);
    }
  }

  lemma NoKids()
    ensures NoDup<nat>([])
  {
  }

  lemma KidsOf(p: Pack, start: seq<nat>, kids: seq<nat>, i: nat)
    requires Linked(p, start, kids) && i < |p|
    ensures |start| == |p| + 1 && start[i] <= start[i + 1] <= |kids|
    ensures var ks := kids[start[i]..start[i + 1]];
            NoDup(ks) && forall c :: c in ks <==> 0 <= c < |p| && p[c].Ofs? && p[c].base == i
  {
    assert KidsAt(p, start, kids, i);
    OfsKidsExact(p, i, |p|);
  }

  /** A delta on entry `i` (or on an outside base, when `i` is -1), whose hash is `h`. */
  predicate BuiltOn(p: Pack, c: nat, i: int, h: Hash)
    requires c < |p|
  {
    (p[c].Ofs? && p[c].base == i) || (p[c].ByRef? && p[c].hash == h)
  }

  /** The first ref-delta whose base is not below `h`, by binary search. */
  method FirstRef(p: Pack, refs: seq<RefDelta>, h: Hash) returns (k: nat)
    requires Listed(p, refs)
    ensures k <= |refs| && (forall j :: 0 <= j < k ==> refs[j].base < h) && (forall j :: k <= j < |refs| ==> refs[j].base >= h)
  {
    var keys := seq(|refs|, k requires 0 <= k < |refs| => refs[k].base);
    Search.LowerBoundSplits(keys, h);
    k := Search.LowerBound(keys, h);
    assert forall j :: 0 <= j < |refs| ==> keys[j] == refs[j].base;
  }

  lemma NoDupNext(s: seq<nat>, x: nat)
    requires NoDup(s) && x !in s
    ensures NoDup(s + [x])
  {
  }

  lemma PendingFrom(refs: seq<RefDelta>, done: seq<bool>, h: Hash, k: nat)
    requires k <= |refs| == |done| && forall j :: 0 <= j < k ==> refs[j].base < h
    ensures forall c :: !Pending(refs, done, h, k, c)
  {
  }

  lemma NoneBehind(p: Pack, refs: seq<RefDelta>, done: seq<bool>, h: Hash, k: nat)
    requires Listed(p, refs) && k <= |refs| == |done| && (k < |refs| ==> refs[k].base > h)
    ensures forall j :: k <= j < |refs| ==> refs[j].base != h
    ensures forall c :: Pending(refs, done, h, |refs|, c) <==> Pending(refs, done, h, k, c)
  {
  }

  lemma PendingNext(p: Pack, refs: seq<RefDelta>, done: seq<bool>, h: Hash, k: nat)
    requires Listed(p, refs) && k < |refs| == |done| && refs[k].base == h
    ensures !Pending(refs, done, h, k, refs[k].idx)
    ensures forall c :: Pending(refs, done, h, k + 1, c) <==> Pending(refs, done, h, k, c) || (!done[k] && c == refs[k].idx)
  {
    assert refs[k] == RefDelta(h, refs[k].idx);
  }

  /** Asking for the children of an entry hands out exactly what was not handed out yet. */
  lemma ClaimedGrows(p: Pack, refs: seq<RefDelta>, done: seq<bool>, done': seq<bool>, expanded: set<nat>, i: int, h: Hash,
                     ofs: seq<nat>, byRef: seq<nat>)
    requires Listed(p, refs) && |done| == |done'| == |refs| && -1 <= i < |p| && i !in expanded
    requires NoDup(ofs) && NoDup(byRef)
    requires forall c :: c in ofs <==> 0 <= c < |p| && p[c].Ofs? && p[c].base == i
    requires forall c :: c in byRef <==> Pending(refs, done, h, |refs|, c)
    requires forall k :: 0 <= k < |refs| ==> done'[k] == (done[k] || refs[k].base == h)
    ensures NoDup(ofs + byRef)
    ensures forall c <- ofs + byRef :: c < |p| && c !in Claimed(p, refs, done, expanded) && BuiltOn(p, c, i, h)
    ensures var expanded' := expanded + (if i >= 0 then {i} else {});
            Claimed(p, refs, done', expanded') == Claimed(p, refs, done, expanded) + Elems(ofs + byRef)
  {
    forall c <- byRef ensures c < |p| && p[c].ByRef? && p[c].hash == h && !Handed(refs, done, c) {
      var k :| 0 <= k < |refs| && refs[k] == RefDelta(h, c) && !done[k];
    }
    NoDupConcat(ofs, byRef);
    forall c: nat | c < |p| && p[c].ByRef?
      ensures Handed(refs, done', c) <==> Handed(refs, done, c) || c in byRef
    {
      HandedGrows(p, refs, done, done', h, c);
    }
  }

  lemma HandedGrows(p: Pack, refs: seq<RefDelta>, done: seq<bool>, done': seq<bool>, h: Hash, c: nat)
    requires Listed(p, refs) && |done| == |done'| == |refs| && c < |p| && p[c].ByRef?
    requires forall k :: 0 <= k < |refs| ==> done'[k] == (done[k] || refs[k].base == h)
    ensures Handed(refs, done', c) <==> Handed(refs, done, c) || Pending(refs, done, h, |refs|, c)
  {
    if Handed(refs, done', c) {
      var k :| 0 <= k < |refs| && refs[k].idx == c && done'[k];
      if !done[k] {
        assert refs[k] == RefDelta(h, c);
      }
    }
    if Handed(refs, done, c) {
      var k :| 0 <= k < |refs| && refs[k].idx == c && done[k];
      assert done'[k];
    }
    if Pending(refs, done, h, |refs|, c) {
      var k :| 0 <= k < |refs| && refs[k] == RefDelta(h, c) && !done[k];
      assert done'[k];
    }
  }
}
