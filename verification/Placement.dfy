/** What the resolver owes for a scanned pack: every entry placed once, after its base, with the
    bytes its delta chain means, in a record from which it can be read back. */
module Placement {
  import opened Prelude
  import opened PackTable
  import opened PackIndex
  import Delta

  const MAX_DELTA_DEPTH: nat := 50

  /** A git object: its type and its bytes. */
  datatype Obj = Obj(kind: int, bytes: Bytes)

  /** An entry of the pushed pack: a whole object, a delta against an earlier entry, or a delta
      against the object with a hash. */
  datatype Entry =
    | Whole(kind: int, body: Bytes)
    | Ofs(base: nat, delta: Bytes)
    | ByRef(hash: Hash, delta: Bytes)
  {
    predicate IsDelta() {
      !Whole?
    }

    function Payload(): Bytes {
      if Whole? then body else delta
    }
  }

  type Pack = seq<Entry>

  /** An ofs-delta is found through its distance back, so its base comes earlier. */
  ghost predicate WellFormedPack(p: Pack) {
    forall i :: 0 <= i < |p| && p[i].Ofs? ==> p[i].base < i
  }

  /** How objects hash, and what the repository already holds outside the pack. */
  datatype World = World(sha: Obj -> Hash, external: Hash -> Option<Obj>)

  /** No object has the zero hash, and an external object is stored under its own hash. */
  ghost predicate Lawful(w: World) {
    && (forall o :: w.sha(o) != ZERO_HASH)
    && (forall h :: w.external(h).Some? ==> w.sha(w.external(h).value) == h)
  }

  datatype From = Root | OnPlaced(at: nat) | OnExternal

  /** One placed entry: which entry, what object it is, what it was built on, and the record and
      payload it got in which container. `chain` counts the stored delta links under it. */
  datatype Placed = Placed(entry: nat, obj: Obj, from: From, serial: nat, rec: CueRecord, payload: Bytes, chain: nat)

  /** The object an entry was built on. */
  ghost function BaseObj(w: World, p: Pack, log: seq<Placed>, entry: nat, from: From): Option<Obj> {
    match from
    case Root => None
    case OnPlaced(j) => if j < |log| then Some(log[j].obj) else None
    case OnExternal => if entry < |p| && p[entry].ByRef? then w.external(p[entry].hash) else None
  }

  /** A resolved entry has the bytes its own delta makes of its base, and the base is the one it names. */
  ghost predicate Resolved(w: World, p: Pack, log: seq<Placed>, entry: nat, obj: Obj, from: From) {
    && entry < |p|
    && match p[entry]
       case Whole(kind, body) => from == Root && obj == Obj(kind, body)
       case Ofs(b, d) =>
         && from.OnPlaced? && from.at < |log| && log[from.at].entry == b
         && obj.kind == log[from.at].obj.kind && Delta.Apply(log[from.at].obj.bytes, d) == Some(obj.bytes)
       case ByRef(h, d) =>
         var base := BaseObj(w, p, log, entry, from);
         && from != Root && base.Some? && w.sha(base.value) == h
         && obj.kind == base.value.kind && Delta.Apply(base.value.bytes, d) == Some(obj.bytes)
  }

  ghost predicate ResolvedAs(w: World, p: Pack, log: seq<Placed>, x: Placed) {
    Resolved(w, p, log, x.entry, x.obj, x.from)
  }

  /** The client's delta may stand for an entry: its base is in the same container, it is the smaller,
      and the chain stays within what a read walks. */
  ghost predicate Storable(p: Pack, log: seq<Placed>, x: Placed) {
    && x.from.OnPlaced? && x.from.at < |log| && x.entry < |p| && p[x.entry].IsDelta()
    && log[x.from.at].serial == x.serial && |p[x.entry].Payload()| < |x.obj.bytes| && log[x.from.at].chain < MAX_DELTA_DEPTH
  }

  /** The record of a placed entry: its client's delta exactly when that may be stored, or whole. */
  ghost predicate Recorded(w: World, p: Pack, log: seq<Placed>, x: Placed) {
    && x.entry < |p|
    && x.rec.hash == w.sha(x.obj) && x.rec.span.typ == x.obj.kind && x.rec.span.raw == |x.obj.bytes|
    && if x.rec.base == ZERO_HASH then x.payload == x.obj.bytes && x.chain == 0 && !Storable(p, log, x)
       else
         && Storable(p, log, x) && x.payload == p[x.entry].Payload()
         && x.rec.base == log[x.from.at].rec.hash && x.chain == log[x.from.at].chain + 1
  }

  ghost predicate LogOk(w: World, p: Pack, log: seq<Placed>) {
    && (forall k :: 0 <= k < |log| ==> ResolvedAs(w, p, log[..k], log[k]) && Recorded(w, p, log[..k], log[k]))
    && (forall j, k :: 0 <= j < k < |log| ==> log[j].entry != log[k].entry)
  }

  lemma LogGrows(w: World, p: Pack, log: seq<Placed>, x: Placed)
    requires LogOk(w, p, log) && ResolvedAs(w, p, log, x) && Recorded(w, p, log, x)
    requires forall k :: 0 <= k < |log| ==> log[k].entry != x.entry
    ensures LogOk(w, p, log + [x])
  {
    var log' := log + [x];
    forall k | 0 <= k < |log'| ensures ResolvedAs(w, p, log'[..k], log'[k]) && Recorded(w, p, log'[..k], log'[k]) {
      assert log'[..k] == if k < |log| then log[..k] else log;
    }
  }

  function Entries(log: seq<Placed>): set<nat> {
    set x | x in log :: x.entry
  }

  /** The longest delta chain a client may send. */
  const MAX_INCOMING_DELTA_DEPTH: nat := 4095

  /** How many of the client's deltas lie under a placed entry; it may be stored whole all the same. */
  ghost function ChainDepth(log: seq<Placed>, k: nat): nat
    requires k < |log|
  {
    match log[k].from
    case Root => 0
    case OnExternal => 1
    case OnPlaced(at) => if at < k then 1 + ChainDepth(log, at) else 0
  }

  ghost function BaseDepth(log: seq<Placed>, from: From): nat {
    if from.OnPlaced? && from.at < |log| then ChainDepth(log, from.at) else 0
  }

  /** No chain is longer than git itself allows. */
  ghost predicate Shallow(log: seq<Placed>) {
    forall k :: 0 <= k < |log| ==> ChainDepth(log, k) <= 4095
  }

  lemma {:induction false} DepthStays(log: seq<Placed>, log': seq<Placed>, k: nat)
    requires k < |log| && log <= log'
    ensures ChainDepth(log', k) == ChainDepth(log, k)
  {
    assert log'[k] == log[k];
    if log[k].from.OnPlaced? && log[k].from.at < k {
      DepthStays(log, log', log[k].from.at);
    }
  }

  lemma ShallowNext(log: seq<Placed>, x: Placed)
    requires Shallow(log) && (x.from.OnPlaced? ==> x.from.at < |log|)
    requires BaseDepth(log, x.from) < MAX_INCOMING_DELTA_DEPTH
    ensures Shallow(log + [x]) && ChainDepth(log + [x], |log|) == if x.from == Root then 0 else BaseDepth(log, x.from) + 1
  {
    hide ChainDepth;
    var log' := log + [x];
    forall k | 0 <= k < |log| ensures ChainDepth(log', k) == ChainDepth(log, k) {
      DepthStays(log, log', k);
    }
    DepthNext(log, x);
  }

  lemma DepthNext(log: seq<Placed>, x: Placed)
    requires x.from.OnPlaced? ==> x.from.at < |log|
    ensures ChainDepth(log + [x], |log|) == if x.from == Root then 0 else BaseDepth(log, x.from) + 1
  {
    if x.from.OnPlaced? {
      DepthStays(log, log + [x], x.from.at);
    }
  }

  // The outside base at the bottom of each placed entry.

  ghost function RootHash(p: Pack, log: seq<Placed>, k: nat): Option<Hash>
    requires k < |log|
  {
    match log[k].from
    case Root => None
    case OnExternal => if log[k].entry < |p| && p[log[k].entry].ByRef? then Some(p[log[k].entry].hash) else None
    case OnPlaced(at) => if at < k then RootHash(p, log, at) else None
  }

  /** No outside base above `floor` was used. */
  ghost predicate RootsBelow(p: Pack, log: seq<Placed>, floor: Option<Hash>) {
    forall k :: 0 <= k < |log| ==> AtMost(RootHash(p, log, k), floor)
  }

  ghost predicate AtMost(root: Option<Hash>, floor: Option<Hash>) {
    root.None? || (floor.Some? && root.value <= floor.value)
  }

  /** No placed ref-delta stands on an outside base above the hash it names. */
  ghost predicate RootsLow(p: Pack, log: seq<Placed>) {
    forall k :: 0 <= k < |log| ==> RootLow(p, log, k)
  }

  ghost predicate RootLow(p: Pack, log: seq<Placed>, k: nat)
    requires k < |log|
  {
    log[k].entry < |p| && p[log[k].entry].ByRef? ==> AtMost(RootHash(p, log, k), Some(p[log[k].entry].hash))
  }

  /** Every ref-delta that is not placed names a hash at or above `floor`. */
  ghost predicate PendingHigh(p: Pack, log: seq<Placed>, floor: Option<Hash>) {
    forall c: nat :: c < |p| && p[c].ByRef? && c !in Entries(log) ==> AtMost(floor, Some(p[c].hash))
  }

  lemma {:induction false} RootStays(p: Pack, log: seq<Placed>, log': seq<Placed>, k: nat)
    requires k < |log| && log <= log'
    ensures RootHash(p, log', k) == RootHash(p, log, k)
  {
    assert log'[k] == log[k];
    if log[k].from.OnPlaced? && log[k].from.at < k {
      RootStays(p, log, log', log[k].from.at);
    }
  }

  lemma RootNext(p: Pack, log: seq<Placed>, x: Placed)
    ensures RootHash(p, log + [x], |log|)
         == match x.from
            case Root => None
            case OnExternal => if x.entry < |p| && p[x.entry].ByRef? then Some(p[x.entry].hash) else None
            case OnPlaced(at) => if at < |log| then RootHash(p, log, at) else None
  {
    if x.from.OnPlaced? && x.from.at < |log| {
      RootStays(p, log, log + [x], x.from.at);
    }
  }

  /** A delta that waited is placed on a base whose root is at most `floor`. */
  lemma RootsNext(p: Pack, log: seq<Placed>, x: Placed, floor: Option<Hash>)
    requires RootsBelow(p, log, floor) && RootsLow(p, log) && PendingHigh(p, log, floor) && x.entry !in Entries(log)
    requires x.from.OnExternal? && x.entry < |p| && p[x.entry].ByRef? ==> floor == Some(p[x.entry].hash)
    ensures RootsBelow(p, log + [x], floor) && RootsLow(p, log + [x]) && PendingHigh(p, log + [x], floor)
  {
    hide RootHash;
    var log' := log + [x];
    RootNext(p, log, x);
    forall k | 0 <= k < |log'| ensures AtMost(RootHash(p, log', k), floor) && RootLow(p, log', k) {
      if k < |log| {
        RootStays(p, log, log', k);
        assert AtMost(RootHash(p, log, k), floor) && RootLow(p, log, k);
      } else if x.from.OnPlaced? && x.from.at < |log| {
        assert AtMost(RootHash(p, log, x.from.at), floor);
      }
    }
    assert Entries(log) <= Entries(log');
  }

  /** A log in which every ref-delta whose base is not in the repository stands on whole objects, or on
      outside bases with hashes below the one it names. */
  ghost predicate OrderedLog(w: World, p: Pack, log: seq<Placed>) {
    && LogOk(w, p, log) && Complete(p, log)
    && forall k :: 0 <= k < |log| ==> InOrderAt(w, p, log, k)
  }

  ghost predicate InOrderAt(w: World, p: Pack, log: seq<Placed>, k: nat)
    requires k < |log|
  {
    var e := log[k].entry;
    e < |p| && p[e].ByRef? && w.external(p[e].hash) == None ==>
      RootHash(p, log, k).None? || RootHash(p, log, k).value < p[e].hash
  }

  /** The pack can be resolved by taking outside bases in the order of their hashes. */
  ghost predicate Ordered(w: World, p: Pack) {
    exists log :: OrderedLog(w, p, log)
  }

  ghost predicate Injective(w: World) {
    forall x, y :: w.sha(x) == w.sha(y) ==> x == y
  }

  lemma {:induction false} RootIsOutside(w: World, p: Pack, log: seq<Placed>, k: nat)
    requires LogOk(w, p, log) && k < |log| && RootHash(p, log, k).Some?
    ensures w.external(RootHash(p, log, k).value).Some?
  {
    assert ResolvedAs(w, p, log[..k], log[k]);
    if log[k].from.OnPlaced? {
      RootIsOutside(w, p, log, log[k].from.at);
    }
  }

  /** A pack that was resolved was in order. */
  lemma ResolvedIsOrdered(w: World, p: Pack, log: seq<Placed>)
    requires LogOk(w, p, log) && Complete(p, log) && RootsLow(p, log)
    ensures Ordered(w, p)
  {
    hide RootHash, LogOk, Complete;
    forall k | 0 <= k < |log| ensures InOrderAt(w, p, log, k) {
      assert RootLow(p, log, k);
      if RootHash(p, log, k).Some? {
        RootIsOutside(w, p, log, k);
      }
    }
    assert OrderedLog(w, p, log);
  }

  /** What stands on whole objects and outside bases below `h` is placed when nothing more can be. */
  lemma {:induction false} ExhaustedReaches(w: World, p: Pack, log: seq<Placed>, h: Hash, other: seq<Placed>, k: nat)
    requires LogOk(w, p, log) && Exhausted(p, log, h) && LogOk(w, p, other) && Injective(w) && k < |other|
    requires RootHash(p, other, k).None? || RootHash(p, other, k).value < h
    ensures other[k].entry in Entries(log)
  {
    hide Delta.Apply;
    var x := other[k];
    assert ResolvedAs(w, p, other[..k], x);
    if x.from.OnPlaced? {
      var at := x.from.at;
      ExhaustedReaches(w, p, log, h, other, at);
      if p[x.entry].ByRef? {
        var j :| 0 <= j < |log| && log[j].entry == other[at].entry;
        ResolutionIsUnique(w, p, log, other, j, at);
        assert Recorded(w, p, log[..j], log[j]);
        assert Asks(p, x.entry, log[j].rec.hash);
      }
    }
  }

  /** A missing base is reported only for a pack that is not in order. */
  lemma NoBaseIsUnordered(w: World, p: Pack, log: seq<Placed>, h: Hash)
    requires LogOk(w, p, log) && Blamed(w, p, log, NoBase(h)) && Injective(w)
    ensures !Ordered(w, p)
  {
    hide RootHash, LogOk, Exhausted;
    var c :| Asks(p, c, h) && c !in Entries(log);
    forall other: seq<Placed> ensures !OrderedLog(w, p, other) {
      if OrderedLog(w, p, other) {
        assert c in Entries(other);
        var k :| 0 <= k < |other| && other[k].entry == c;
        assert InOrderAt(w, p, other, k);
        ExhaustedReaches(w, p, log, h, other, k);
      }
    }
  }

  /** Entry `c` is not placed, and `base` is the object it is built on. */
  ghost predicate WaitsOn(w: World, p: Pack, log: seq<Placed>, c: nat, from: From, base: Obj) {
    && c < |p| && c !in Entries(log) && from != Root && BaseObj(w, p, log, c, from) == Some(base)
    && match p[c]
       case Whole(_, _) => false
       case Ofs(b, _) => from.OnPlaced? && log[from.at].entry == b
       case ByRef(h, _) => w.sha(base) == h
  }

  /** How a push ends: with everything placed, on an I/O fault, or because of the pack. */
  datatype Outcome = Done | Fault | BadDelta(entry: nat) | NoBase(hash: Hash) | TooDeep(entry: nat)

  /** A pack is blamed for what is wrong with it: a delta that does not apply to its base, a base that
      is nowhere, or a chain that is too deep. */
  ghost predicate Blamed(w: World, p: Pack, log: seq<Placed>, r: Outcome) {
    match r
    case Done => true
    case Fault => true
    case BadDelta(c) => exists from, base :: WaitsOn(w, p, log, c, from, base) && Delta.Apply(base.bytes, p[c].Payload()) == None
    case TooDeep(c) => exists from, base :: WaitsOn(w, p, log, c, from, base) && BaseDepth(log, from) >= MAX_INCOMING_DELTA_DEPTH
    case NoBase(h) => w.external(h) == None && AskedFor(p, log, h) && Exhausted(p, log, h)
  }

  /** Some entry that is not placed names `h`. */
  ghost predicate AskedFor(p: Pack, log: seq<Placed>, h: Hash) {
    exists c :: Asks(p, c, h) && c !in Entries(log)
  }

  /** Nothing more can be placed without an outside base at or above `h`: every whole object is placed,
      every delta on a placed object, and every ref-delta that names a hash below `h`. */
  ghost predicate Exhausted(p: Pack, log: seq<Placed>, h: Hash) {
    && (forall c: nat :: c < |p| && p[c].Whole? ==> c in Entries(log))
    && (forall c: nat :: c < |p| && p[c].Ofs? && p[c].base in Entries(log) ==> c in Entries(log))
    && (forall c: nat, j: nat :: j < |log| && Asks(p, c, log[j].rec.hash) ==> c in Entries(log))
    && (forall c: nat :: c < |p| && p[c].ByRef? && p[c].hash < h ==> c in Entries(log))
  }

  ghost predicate Asks(p: Pack, c: nat, h: Hash) {
    c < |p| && p[c].ByRef? && p[c].hash == h
  }

  /** Every entry is placed, and nothing else. */
  ghost predicate Complete(p: Pack, log: seq<Placed>) {
    forall c :: c in Entries(log) <==> 0 <= c < |p|
  }

  lemma {:induction false} EntriesCount(log: seq<Placed>)
    requires forall j, k :: 0 <= j < k < |log| ==> log[j].entry != log[k].entry
    ensures |Entries(log)| == |log|
  {
    if log != [] {
      var n := |log| - 1;
      EntriesCount(log[..n]);
      assert Entries(log) == Entries(log[..n]) + {log[n].entry};
    }
  }

  lemma {:induction false} FirstNumbers(s: set<nat>, n: nat)
    requires forall c :: c in s <==> 0 <= c < n
    ensures |s| == n
  {
    if n > 0 {
      FirstNumbers(s - {n - 1}, n - 1);
    }
  }

  /** What a placed entry was made from came before it, or from outside the pack. */
  ghost predicate BaseFirst(w: World, p: Pack, log: seq<Placed>, k: nat)
    requires k < |log|
  {
    var x := log[k];
    && x.entry < |p|
    && match p[x.entry]
       case Whole(_, _) => x.from == Root
       case Ofs(b, _) => x.from.OnPlaced? && x.from.at < k && log[x.from.at].entry == b
       case ByRef(h, _) =>
         || (x.from.OnPlaced? && x.from.at < k && w.sha(log[x.from.at].obj) == h)
         || (x.from.OnExternal? && w.external(h).Some?)
  }

  /** A complete log places each entry exactly once: it is as long as the pack, and every entry has
      its one place in it. An entry that is a delta comes after the object it was made from. */
  lemma PlacedOnce(w: World, p: Pack, log: seq<Placed>)
    requires LogOk(w, p, log) && Complete(p, log)
    ensures |log| == |p|
    ensures forall c :: 0 <= c < |p| ==> c in Entries(log)
    ensures forall k :: 0 <= k < |log| ==> BaseFirst(w, p, log, k)
  {
    EntriesCount(log);
    FirstNumbers(Entries(log), |p|);
    forall k | 0 <= k < |log| ensures BaseFirst(w, p, log, k) {
      assert ResolvedAs(w, p, log[..k], log[k]);
    }
  }

  /** The records of one container, in the order they were added. */
  function RecsOf(log: seq<Placed>, serial: nat): seq<CueRecord> {
    if log == [] then []
    else
      var x := log[|log| - 1];
      RecsOf(log[..|log| - 1], serial) + if x.serial == serial then [x.rec] else []
  }

  function PayloadsOf(log: seq<Placed>, serial: nat): (ps: seq<Bytes>)
    ensures |ps| == |RecsOf(log, serial)|
  {
    if log == [] then []
    else
      var x := log[|log| - 1];
      PayloadsOf(log[..|log| - 1], serial) + if x.serial == serial then [x.payload] else []
  }

  lemma RecsNext(log: seq<Placed>, x: Placed, serial: nat)
    ensures RecsOf(log + [x], serial) == if x.serial == serial then RecsOf(log, serial) + [x.rec] else RecsOf(log, serial)
    ensures PayloadsOf(log + [x], serial) == if x.serial == serial then PayloadsOf(log, serial) + [x.payload] else PayloadsOf(log, serial)
  {
    assert (log + [x])[..|log|] == log;
  }

  /** A placed entry's record is in its container, beside its payload. */
  lemma {:induction false} RecIsThere(log: seq<Placed>, k: nat) returns (i: nat)
    requires k < |log|
    ensures var s := log[k].serial;
            i < |RecsOf(log, s)| && RecsOf(log, s)[i] == log[k].rec && PayloadsOf(log, s)[i] == log[k].payload
  {
    var n := |log| - 1;
    if k == n {
      i := |RecsOf(log[..n], log[k].serial)|;
    } else {
      i := RecIsThere(log[..n], k);
    }
  }

  /** Every record of a container is of a placed entry. */
  lemma {:induction false} RecIsPlaced(log: seq<Placed>, serial: nat, i: nat) returns (k: nat)
    requires i < |RecsOf(log, serial)|
    ensures k < |log| && log[k].serial == serial && log[k].rec == RecsOf(log, serial)[i] && log[k].payload == PayloadsOf(log, serial)[i]
  {
    var n := |log| - 1;
    if i < |RecsOf(log[..n], serial)| {
      k := RecIsPlaced(log[..n], serial, i);
    } else {
      k := n;
    }
  }

  /** Two complete logs of one pack agree on every object, whatever order they were made in. */
  lemma {:induction false} ResolutionIsUnique(w: World, p: Pack, a: seq<Placed>, b: seq<Placed>, j: nat, k: nat)
    requires LogOk(w, p, a) && LogOk(w, p, b) && j < |a| && k < |b| && a[j].entry == b[k].entry
    requires Injective(w)
    ensures a[j].obj == b[k].obj
    decreases j
  {
    assert ResolvedAs(w, p, a[..j], a[j]) && ResolvedAs(w, p, b[..k], b[k]);
    var e := p[a[j].entry];
    if e.Ofs? {
      ResolutionIsUnique(w, p, a, b, a[j].from.at, b[k].from.at);
    } else if e.ByRef? {
      assert BaseObj(w, p, a[..j], a[j].entry, a[j].from) == BaseObj(w, p, b[..k], b[k].entry, b[k].from);
    }
  }

  /** A delta that is blamed cannot be resolved in any other order either. */
  lemma BadDeltaIsFinal(w: World, p: Pack, log: seq<Placed>, c: nat, other: seq<Placed>)
    requires LogOk(w, p, log) && Blamed(w, p, log, BadDelta(c)) && LogOk(w, p, other)
    requires Injective(w)
    ensures c !in Entries(other)
  {
    hide Delta.Apply;
    var from, base :| WaitsOn(w, p, log, c, from, base) && Delta.Apply(base.bytes, p[c].Payload()) == None;
    forall k | 0 <= k < |other| ensures other[k].entry != c {
      assert ResolvedAs(w, p, other[..k], other[k]);
      if other[k].entry == c && p[c].Ofs? {
        ResolutionIsUnique(w, p, log, other, from.at, other[k].from.at);
      }
    }
  }

  // When the pack alone says how deep its chains are.

  ghost predicate DistinctObjects(w: World, log: seq<Placed>) {
    forall j, k :: 0 <= j < k < |log| ==> w.sha(log[j].obj) != w.sha(log[k].obj)
  }

  /** No object of the pack is in the repository already. */
  ghost predicate NoneOutside(w: World, log: seq<Placed>) {
    forall k :: 0 <= k < |log| ==> w.external(w.sha(log[k].obj)) == None
  }

  /** A complete log of a pack whose objects are distinct and new. */
  ghost predicate Plain(w: World, p: Pack, log: seq<Placed>) {
    LogOk(w, p, log) && Complete(p, log) && DistinctObjects(w, log) && NoneOutside(w, log)
  }

  /** What one log builds on a placed entry, a plain log builds on that entry too. */
  lemma SameBase(w: World, p: Pack, a: seq<Placed>, at: nat, b: seq<Placed>, k: nat)
    requires LogOk(w, p, a) && Plain(w, p, b) && Injective(w) && at < |a| && k < |b|
    requires b[k].entry < |p| && (p[b[k].entry].Ofs? ==> p[b[k].entry].base == a[at].entry)
    requires p[b[k].entry].ByRef? ==> p[b[k].entry].hash == w.sha(a[at].obj)
    requires p[b[k].entry].IsDelta()
    ensures b[k].from.OnPlaced? && b[k].from.at < k && b[b[k].from.at].entry == a[at].entry
  {
    hide Delta.Apply, Complete, Injective;
    assert ResolvedAs(w, p, b[..k], b[k]) && ResolvedAs(w, p, a[..at], a[at]);
    if p[b[k].entry].ByRef? {
      var m := PlaceOf(p, b, a[at].entry);
      ResolutionIsUnique(w, p, a, b, at, m);
    }
  }

  lemma PlaceOf(p: Pack, log: seq<Placed>, c: nat) returns (m: nat)
    requires Complete(p, log) && c < |p|
    ensures m < |log| && log[m].entry == c
  {
    assert c in Entries(log);
    m :| 0 <= m < |log| && log[m].entry == c;
  }

  /** A plain log and any other give an entry the same depth. */
  lemma {:induction false} DepthIsUnique(w: World, p: Pack, a: seq<Placed>, j: nat, b: seq<Placed>, k: nat)
    requires LogOk(w, p, a) && Plain(w, p, b) && Injective(w) && j < |a| && k < |b| && a[j].entry == b[k].entry
    ensures ChainDepth(a, j) == ChainDepth(b, k)
    decreases j
  {
    hide Delta.Apply, Complete, Injective, DistinctObjects;
    assert ResolvedAs(w, p, a[..j], a[j]) && ResolvedAs(w, p, b[..k], b[k]);
    if a[j].from.OnPlaced? {
      SameBase(w, p, a, a[j].from.at, b, k);
      DepthIsUnique(w, p, a, a[j].from.at, b, b[k].from.at);
    }
  }

  /** A chain that is blamed as too deep is too deep in a plain log. */
  lemma TooDeepIsFinal(w: World, p: Pack, a: seq<Placed>, c: nat, b: seq<Placed>)
    requires LogOk(w, p, a) && Blamed(w, p, a, TooDeep(c)) && Plain(w, p, b) && Injective(w)
    ensures !Shallow(b)
  {
    hide Delta.Apply, Complete, Injective, DistinctObjects, LogOk, ChainDepth, NoneOutside;
    var from, base :| WaitsOn(w, p, a, c, from, base) && BaseDepth(a, from) >= MAX_INCOMING_DELTA_DEPTH;
    var k := PlaceOf(p, b, c);
    SameBase(w, p, a, from.at, b, k);
    DepthIsUnique(w, p, a, from.at, b, b[k].from.at);
    DepthStep(b, k);
  }

  lemma DepthStep(log: seq<Placed>, k: nat)
    requires k < |log| && log[k].from.OnPlaced? && log[k].from.at < k
    ensures ChainDepth(log, k) == 1 + ChainDepth(log, log[k].from.at)
  {
  }
}
