/** The cache of downloaded containers: least recently used ones go when the budget is passed, and
    a download that is still running is never touched. Every method is one critical section. */
module PackCache {
  import opened Prelude
  import opened Sums

  /** One container's slot, registered before its download runs. Size zero marks it unevictable. The
      ticket tells it from a later slot of the same id, as its address does in the source. */
  datatype Entry = Entry(ticket: nat, size: nat, used: nat, usedAt: int)

  /** What a caller of Claim holds. */
  datatype Handle = Handle(id: string, ticket: nat)

  type Entries = map<string, Entry>

  function Sizes(m: Entries): map<string, nat> {
    map id | id in m :: m[id].size
  }

  /** Every stamp was given once. */
  ghost predicate Stamped(m: Entries, seqNo: nat) {
    && (forall id <- m :: m[id].ticket <= m[id].used <= seqNo)
    && (forall a, b | a in m && b in m && a != b :: m[a].used != m[b].used && m[a].ticket != m[b].ticket)
  }

  predicate Registered(m: Entries, e: Handle) {
    e.id in m && m[e.id].ticket == e.ticket
  }

  /** A running download is registered and not charged. */
  ghost predicate AllFilling(m: Entries, filling: set<Handle>) {
    forall e <- filling :: Registered(m, e) && m[e.id].size == 0
  }

  /** A budget eviction that admits `keep` may take it. */
  predicate Evictable(m: Entries, id: string, keep: string) {
    id in m && id != keep && m[id].size > 0
  }

  lemma SizesWith(m: Entries, id: string, e: Entry)
    requires id !in m
    ensures Total(Sizes(m[id := e])) == Total(Sizes(m)) + e.size
  {
    TotalWith(Sizes(m), id, e.size);
    assert Sizes(m[id := e]) == Sizes(m)[id := e.size];
  }

  lemma SizesWithout(m: Entries, id: string)
    requires id in m
    ensures Total(Sizes(m - {id})) == Total(Sizes(m)) - m[id].size
  {
    TotalWithout(Sizes(m), id);
    assert Sizes(m - {id}) == Sizes(m) - {id};
  }

  lemma SizesChanged(m: Entries, id: string, e: Entry)
    requires id in m
    ensures Total(Sizes(m[id := e])) == Total(Sizes(m)) - m[id].size + e.size
  {
    SizesWithout(m, id);
    SizesWith(m - {id}, id, e);
    assert (m - {id})[id := e] == m[id := e];
  }

  /** `kept` is what a budget eviction left of `m`: everything it took was settled, was not the entry
      being admitted, and was less recently used than everything it could have taken and left. */
  ghost predicate Evicted(m: Entries, kept: Entries, keep: string) {
    && kept.Keys <= m.Keys
    && (forall id <- kept :: kept[id] == m[id])
    && (forall id <- m :: id !in kept ==> Evictable(m, id, keep))
    && (forall id, other | id in m && id !in kept && other in kept && Evictable(kept, other, keep) :: m[id].used < kept[other].used)
  }

  /** Taking out an entry keeps the rest in order; one that is charged is no running download. */
  lemma Dropped(m: Entries, id: string, seqNo: nat, filling: set<Handle>)
    requires Stamped(m, seqNo) && id in m
    requires forall e <- filling :: Registered(m, e) && m[e.id].size == 0 && e.id != id
    ensures Total(Sizes(m - {id})) == Total(Sizes(m)) - m[id].size && Stamped(m - {id}, seqNo) && AllFilling(m - {id}, filling)
    ensures |m - {id}| == |m| - 1
  {
    SizesWithout(m, id);
    assert (m - {id}).Keys == m.Keys - {id};
    assert |m| == |m.Keys| && |m - {id}| == |(m - {id}).Keys|;
  }

  lemma EvictedNone(m: Entries, keep: string)
    ensures Evicted(m, m, keep)
  {
  }

  /** Taking the least recently used of what may go. */
  lemma EvictedNext(m: Entries, kept: Entries, id: string, keep: string, seqNo: nat)
    requires Evicted(m, kept, keep) && Evictable(kept, id, keep) && Stamped(kept, seqNo)
    requires forall other <- kept :: Evictable(kept, other, keep) ==> kept[id].used <= kept[other].used
    ensures Evicted(m, kept - {id}, keep)
  {
    var left := kept - {id};
    assert forall other <- left :: Evictable(left, other, keep) ==> Evictable(kept, other, keep) && kept[id].used < kept[other].used;
  }

  lemma EvictedWas(m: Entries, kept: Entries, id: string, keep: string)
    requires Evicted(m, kept, keep) && id in kept
    ensures id in m && m[id] == kept[id]
  {
  }

  lemma FillingMore(m: Entries, filling: set<Handle>, e: Handle)
    requires AllFilling(m, filling) && Registered(m, e) && m[e.id].size == 0
    ensures AllFilling(m, filling + {e})
  {
  }

  /** Two handles on one registered entry are the same. */
  lemma OthersFilling(m: Entries, filling: set<Handle>, e: Handle)
    requires AllFilling(m, filling)
    ensures AllFilling(m, filling - {e}) && (e in filling ==> Registered(m, e) && m[e.id].size == 0)
    ensures Registered(m, e) ==> forall f <- filling - {e} :: Registered(m, f) && m[f.id].size == 0 && f.id != e.id
  {
  }

  /** A download that ends is charged, and no longer runs. */
  lemma Charged(m: Entries, e: Handle, size: nat, seqNo: nat, filling: set<Handle>)
    requires Stamped(m, seqNo) && AllFilling(m, filling) && e in filling && Registered(m, e) && m[e.id].size == 0
    ensures var m' := m[e.id := m[e.id].(size := size)];
            Stamped(m', seqNo) && AllFilling(m', filling - {e}) && Total(Sizes(m')) == Total(Sizes(m)) + size
  {
    SizesChanged(m, e.id, m[e.id].(size := size));
    OthersFilling(m, filling, e);
  }

  lemma KeptStays(m: Entries, kept: Entries, keep: string)
    requires Evicted(m, kept, keep) && keep in m
    ensures keep in kept && kept[keep] == m[keep]
  {
  }

  /** A new stamp goes above all others. */
  lemma Touched(m: Entries, id: string, e: Entry, seqNo: nat, filling: set<Handle>)
    requires Stamped(m, seqNo) && AllFilling(m, filling) && e.used == seqNo + 1
    requires if id in m then e.ticket == m[id].ticket && e.size == m[id].size else e.ticket == seqNo + 1
    ensures Stamped(m[id := e], seqNo + 1) && AllFilling(m[id := e], filling)
    ensures e.ticket <= e.used && forall other <- m :: other != id ==> m[other].used < e.used
    ensures id in m ==> e.ticket <= seqNo
  {
  }

  class Cache {
    const maxBytes: int
    var entries: Entries
    var cur: int
    var seqNo: nat
    ghost var filling: set<Handle>

    ghost predicate Valid()
      reads this
    {
      cur == Total(Sizes(entries)) && Stamped(entries, seqNo) && AllFilling(entries, filling)
    }

    constructor (maxBytes: int)
      ensures Valid() && this.maxBytes == maxBytes && entries == map[] && filling == {}
    {
      this.maxBytes := maxBytes;
      entries, cur, seqNo, filling := map[], 0, 0, {};
    }

    /** The entry of `id`, which becomes the most recently used. A new one is for the caller to fill. */
    method Claim(id: string, now: int) returns (e: Handle, mine: bool)
      requires Valid()
      modifies this
      ensures Valid() && mine == (id !in old(entries)) && e.id == id && cur == old(cur) && Registered(entries, e)
      ensures entries - {id} == old(entries) - {id} && entries[id].usedAt == now
      ensures forall other <- old(entries) :: other != id ==> old(entries)[other].used < entries[id].used
      ensures entries[id].size == if mine then 0 else old(entries)[id].size
      ensures filling == if mine then old(filling) + {e} else old(filling)
      ensures seqNo == old(seqNo) + 1 && if mine then e.ticket == seqNo else e.ticket == old(entries)[id].ticket < seqNo
    {
      hide Stamped, AllFilling;
      seqNo := seqNo + 1;
      mine := id !in entries;
      var entry := if mine then Entry(seqNo, 0, seqNo, now) else entries[id].(used := seqNo, usedAt := now);
      e := Handle(id, entry.ticket);
      Touched(entries, id, entry, seqNo - 1, filling);
      if mine {
        SizesWith(entries, id, entry);
        filling := filling + {e};
        FillingMore(entries[id := entry], old(filling), e);
      } else {
        SizesChanged(entries, id, entry);
      }
      entries := entries[id := entry];
    }

    /** Drops an entry if it is still the one registered for its id. One that was replaced is left
        alone. A download that fails ends this way. */
    method Forget(e: Handle)
      requires Valid()
      modifies this`entries, this`cur, this`filling
      ensures Valid() && filling == old(filling) - {e}
      ensures entries == if Registered(old(entries), e) then old(entries) - {e.id} else old(entries)
    {
      hide Stamped, AllFilling;
      OthersFilling(entries, filling, e);
      filling := filling - {e};
      if Registered(entries, e) {
        Dropped(entries, e.id, seqNo, filling);
        cur := cur - entries[e.id].size;
        entries := entries - {e.id};
      }
    }

    /** Takes out one settled entry. */
    method Drop(id: string)
      requires Valid() && id in entries && entries[id].size > 0
      modifies this`entries, this`cur
      ensures Valid() && entries == old(entries) - {id} && cur == old(cur) - old(entries)[id].size && |entries| == |old(entries)| - 1
    {
      hide Stamped;
      Dropped(entries, id, seqNo, filling);
      cur := cur - entries[id].size;
      entries := entries - {id};
    }

    /** The least recently used entry that may go, found by going through all entries in any order. */
    method Victim(keep: string) returns (victim: Option<string>)
      ensures victim.None? ==> forall id <- entries :: !Evictable(entries, id, keep)
      ensures victim.Some? ==> Evictable(entries, victim.value, keep)
      ensures victim.Some? ==> forall id <- entries :: Evictable(entries, id, keep) ==> entries[victim.value].used <= entries[id].used
    {
      victim := None;
      var left := entries.Keys;
      while left != {}
        invariant left <= entries.Keys
        invariant victim.Some? ==> Evictable(entries, victim.value, keep)
        invariant forall id <- entries :: id !in left && Evictable(entries, id, keep) ==> victim.Some? && entries[victim.value].used <= entries[id].used
        decreases left
      {
        var id :| id in left;
        left := left - {id};
        if Evictable(entries, id, keep) && (victim.None? || entries[id].used < entries[victim.value].used) {
          victim := Some(id);
        }
      }
    }

    /** Takes least recently used entries until the budget is met or nothing evictable is left, and no
        more than that. */
    method EvictLocked(keep: string) returns (n: nat)
      requires Valid()
      modifies this`entries, this`cur
      ensures Valid() && Evicted(old(entries), entries, keep)
      ensures maxBytes <= 0 ==> entries == old(entries)
      ensures maxBytes > 0 ==> cur <= maxBytes || forall id <- entries :: !Evictable(entries, id, keep)
      ensures entries != old(entries) ==> exists id <- old(entries) :: id !in entries && cur + old(entries)[id].size > maxBytes
      ensures n == |old(entries)| - |entries|
    {
      hide Evicted, Stamped, AllFilling;
      n := 0;
      EvictedNone(entries, keep);
      if maxBytes <= 0 {
        return;
      }
      while cur > maxBytes
        invariant Valid() && Evicted(old(entries), entries, keep)
        invariant entries != old(entries) ==> exists id <- old(entries) :: id !in entries && cur + old(entries)[id].size > maxBytes
        invariant n == |old(entries)| - |entries|
        decreases entries.Keys
      {
        var victim := Victim(keep);
        if victim.None? {
          return;
        }
        EvictedNext(old(entries), entries, victim.value, keep, seqNo);
        EvictedWas(old(entries), entries, victim.value, keep);
        Drop(victim.value);
        n := n + 1;
      }
    }

    /** A download ends well: the entry is charged, and the budget enforced around it. */
    method Settle(e: Handle, size: nat) returns (n: nat)
      requires Valid() && e in filling
      modifies this`entries, this`cur, this`filling
      ensures Valid() && filling == old(filling) - {e} && Registered(entries, e) && entries[e.id].size == size
      ensures e.id in old(entries)
      ensures Evicted(old(entries)[e.id := old(entries)[e.id].(size := size)], entries, e.id)
      ensures maxBytes > 0 ==> cur <= maxBytes || forall id <- entries :: id != e.id ==> entries[id].size == 0
    {
      hide Stamped, AllFilling, Evicted;
      OthersFilling(entries, filling, e);
      Charged(entries, e, size, seqNo, filling);
      filling := filling - {e};
      cur := cur + size;
      entries := entries[e.id := entries[e.id].(size := size)];
      n := EvictLocked(e.id);
      KeptStays(old(entries)[e.id := old(entries)[e.id].(size := size)], entries, e.id);
    }

    /** Takes every settled entry that nobody claimed since `cutoff`. */
    method EvictIdle(cutoff: int) returns (n: nat)
      requires Valid()
      modifies this`entries, this`cur
      ensures Valid() && n == |old(entries)| - |entries|
      ensures entries == map id | id in old(entries) && !(old(entries)[id].size > 0 && old(entries)[id].usedAt < cutoff) :: old(entries)[id]
    {
      hide Stamped, AllFilling;
      n := 0;
      var left := entries.Keys;
      while left != {}
        invariant Valid() && n == |old(entries)| - |entries| && left <= entries.Keys <= old(entries).Keys
        invariant forall id <- entries :: entries[id] == old(entries)[id]
        invariant forall id <- old(entries) :: id in entries <==> id in left || !(old(entries)[id].size > 0 && old(entries)[id].usedAt < cutoff)
        decreases left
      {
        var id :| id in left;
        left := left - {id};
        if entries[id].size > 0 && entries[id].usedAt < cutoff {
          Drop(id);
          n := n + 1;
        }
      }
    }
  }

  // The callers: each claims an entry, fills it or waits for the one that does, and opens the file.

  /** Where a caller is. */
  datatype Phase = Filling(e: Handle) | Waiting(e: Handle) | Opening(e: Handle)

  type Callers = map<nat, Phase>

  /** What one caller does next, or the idle sweep. A download ends well or not, a waiting caller is
      woken when the download it waits for has ended, and a file may have gone when it is opened. */
  datatype Op =
    | Get(caller: nat, id: string, now: int)
    | FillEnds(caller: nat, size: nat, ok: bool)
    | Wake(caller: nat, failed: bool)
    | Open(caller: nat, gone: bool)
    | Sweep(cutoff: int)

  /** A running download has one filler, and only a caller of an ended one opens it. */
  ghost predicate Disciplined(cs: Callers, running: set<Handle>, seqNo: nat) {
    && (forall c <- cs :: cs[c].e.ticket <= seqNo)
    && (forall c <- cs :: cs[c].Filling? ==> cs[c].e in running)
    && (forall c <- cs :: cs[c].Opening? ==> cs[c].e !in running)
    && (forall c, d | c in cs && d in cs && c != d && cs[c].Filling? && cs[d].Filling? :: cs[c].e != cs[d].e)
  }

  lemma ClaimKeeps(cs: Callers, running: set<Handle>, seqNo: nat, c: nat, e: Handle, mine: bool)
    requires Disciplined(cs, running, seqNo) && (forall f <- running :: f.ticket <= seqNo)
    requires if mine then e.ticket == seqNo + 1 else e.ticket <= seqNo
    ensures Disciplined(cs[c := if mine then Filling(e) else Waiting(e)], if mine then running + {e} else running, seqNo + 1)
  {
  }

  lemma FillKeeps(cs: Callers, running: set<Handle>, seqNo: nat, c: nat)
    requires Disciplined(cs, running, seqNo) && c in cs && cs[c].Filling?
    ensures Disciplined(cs - {c}, running - {cs[c].e}, seqNo) && Disciplined(cs[c := Opening(cs[c].e)], running - {cs[c].e}, seqNo)
  {
  }

  lemma LeaveKeeps(cs: Callers, running: set<Handle>, seqNo: nat, c: nat)
    requires Disciplined(cs, running, seqNo) && c in cs && !cs[c].Filling?
    ensures Disciplined(cs - {c}, running, seqNo)
    ensures cs[c].e !in running ==> Disciplined(cs[c := Opening(cs[c].e)], running, seqNo)
  {
  }

  /** What is left of the entries after a sweep: those that are not settled, or were claimed since. */
  ghost function Unswept(m: Entries, cutoff: int): Entries {
    map id | id in m && !(m[id].size > 0 && m[id].usedAt < cutoff) :: m[id]
  }

  /** What one critical section does to the entries and the callers: a first claim registers an empty
      entry for its claimer to fill, and a later one waits for the same entry; a download that lands is
      charged with its size and one that fails is forgotten; an entry whose file has gone is forgotten
      unless it was replaced; and a sweep takes what is idle. Out of turn nothing happens. */
  ghost predicate Acted(m: Entries, m': Entries, cs: Callers, cs': Callers, running: set<Handle>, running': set<Handle>, op: Op) {
    match op
    case Get(c, id, now) =>
      if c in cs then m' == m && cs' == cs && running' == running
      else
        && id in m' && m' - {id} == m - {id} && m'[id].usedAt == now
        && (forall other <- m :: other != id ==> m[other].used < m'[id].used)
        && var e := Handle(id, m'[id].ticket);
           if id in m then m'[id].size == m[id].size && m'[id].ticket == m[id].ticket && cs' == cs[c := Waiting(e)] && running' == running
           else m'[id].size == 0 && cs' == cs[c := Filling(e)] && running' == running + {e}
    case FillEnds(c, size, ok) =>
      if c !in cs || !cs[c].Filling? then m' == m && cs' == cs && running' == running
      else
        var e := cs[c].e;
        && e.id in m && running' == running - {e}
        && if ok then
             Evicted(m[e.id := m[e.id].(size := size)], m', e.id) && Registered(m', e) && m'[e.id].size == size && cs' == cs[c := Opening(e)]
           else m' == m - {e.id} && cs' == cs - {c}
    case Wake(c, failed) =>
      && m' == m && running' == running
      && cs' == (if c !in cs || !cs[c].Waiting? || cs[c].e in running then cs
                 else if failed then cs - {c} else cs[c := Opening(cs[c].e)])
    case Open(c, gone) =>
      && running' == running
      && if c !in cs || !cs[c].Opening? then m' == m && cs' == cs
         else cs' == cs - {c} && m' == if gone && Registered(m, cs[c].e) then m - {cs[c].e.id} else m
    case Sweep(cutoff) => m' == Unswept(m, cutoff) && cs' == cs && running' == running
  }

  /** One critical section of one caller, if it is that caller's turn. */
  method Act(cache: Cache, cs: Callers, running: set<Handle>, op: Op) returns (cs': Callers, running': set<Handle>)
    requires cache.Valid() && cache.filling == running && Disciplined(cs, running, cache.seqNo)
    modifies cache
    ensures cache.Valid() && cache.filling == running' && Disciplined(cs', running', cache.seqNo)
    ensures Acted(old(cache.entries), cache.entries, cs, cs', running, running', op)
  {
    hide Disciplined, Stamped, AllFilling, Evicted;
    cs', running' := cs, running;
    match op
    case Get(c, id, now) =>
      if c !in cs {
        RunningKnown(cache.entries, cache.seqNo, running);
        var e, mine := cache.Claim(id, now);
        ClaimKeeps(cs, running, cache.seqNo - 1, c, e, mine);
        cs' := cs[c := if mine then Filling(e) else Waiting(e)];
        running' := if mine then running + {e} else running;
      }
    case FillEnds(c, size, ok) =>
      if c in cs && cs[c].Filling? {
        FillerRuns(cs, running, cache.seqNo, c);
        FillKeeps(cs, running, cache.seqNo, c);
        OthersFilling(cache.entries, running, cs[c].e);
        if ok {
          var n := cache.Settle(cs[c].e, size);
          cs' := cs[c := Opening(cs[c].e)];
        } else {
          cache.Forget(cs[c].e);
          cs' := cs - {c};
        }
        running' := running - {cs[c].e};
      }
    case Wake(c, failed) =>
      if c in cs && cs[c].Waiting? && cs[c].e !in running {
        LeaveKeeps(cs, running, cache.seqNo, c);
        cs' := if failed then cs - {c} else cs[c := Opening(cs[c].e)];
      }
    case Open(c, gone) =>
      if c in cs && cs[c].Opening? {
        LeaveKeeps(cs, running, cache.seqNo, c);
        OpenerEnded(cs, running, cache.seqNo, c);
        if gone {
          cache.Forget(cs[c].e);
          assert running - {cs[c].e} == running;
        }
        cs' := cs - {c};
      }
    case Sweep(cutoff) =>
      var n := cache.EvictIdle(cutoff);
  }

  lemma RunningKnown(m: Entries, seqNo: nat, running: set<Handle>)
    requires Stamped(m, seqNo) && AllFilling(m, running)
    ensures forall f <- running :: f.ticket <= seqNo
  {
  }

  lemma FillerRuns(cs: Callers, running: set<Handle>, seqNo: nat, c: nat)
    requires Disciplined(cs, running, seqNo) && c in cs && cs[c].Filling?
    ensures cs[c].e in running
  {
  }

  lemma OpenerEnded(cs: Callers, running: set<Handle>, seqNo: nat, c: nat)
    requires Disciplined(cs, running, seqNo) && c in cs && cs[c].Opening?
    ensures cs[c].e !in running
  {
  }

  lemma NobodyYet(seqNo: nat)
    ensures Disciplined(map[], {}, seqNo)
  {
  }

  /** Every interleaving of any number of callers and sweeps: what is charged is the sizes of what is
      registered, and every running download is registered and not charged, so none was evicted. */
  method EveryInterleaving(maxBytes: int, ops: seq<Op>) returns (entries: Entries, cur: int, running: set<Handle>)
    ensures cur == Total(Sizes(entries)) && AllFilling(entries, running)
  {
    hide Disciplined, Stamped, AllFilling;
    var cache := new Cache(maxBytes);
    var cs: Callers := map[];
    running := {};
    NobodyYet(cache.seqNo);
    for i := 0 to |ops|
      invariant fresh(cache) && cache.Valid() && cache.filling == running && Disciplined(cs, running, cache.seqNo)
    {
      cs, running := Act(cache, cs, running, ops[i]);
    }
    entries, cur := cache.entries, cache.cur;
  }
}
