/** One storer committing ref batches to a bucket that still holds loose refs: the cached view, the
    retry loop, the fold and its batched cleanup. Every request can fail, and the process can stop
    after any of them. */
module RefCommit {
  import opened Prelude
  import opened RefSpec
  import opened RefStore

  const MAX_DELETE_BATCH: nat := 1000

  datatype PutResult = PutDone | Refused | PutError

  /** Each name has its value from before the commit or its value from after it. */
  ghost predicate Between(before: Refs, after: Refs, now: Refs) {
    forall n :: At(now, n) == At(before, n) || At(now, n) == At(after, n)
  }

  class Bucket {
    /** No request fails. */
    const steady: bool
    var packed: Option<Refs>
    var loose: Refs

    /** The refs a reader sees after each request that changed the bucket, oldest first. */
    ghost var trace: seq<Refs>

    ghost function View(): Refs
      reads this
    {
      Content(packed) + loose
    }

    /** A conditional write of the packed refs. A request that fails may have landed all the same. */
    method Put(tagOf: Refs -> Tag, tag: Option<Tag>, next: Refs) returns (r: PutResult)
      modifies this
      ensures loose == old(loose)
      ensures (packed == old(packed) && trace == old(trace) && r != PutDone)
           || (TagMatches(tagOf, old(packed), tag) && packed == Some(next) && trace == old(trace) + [next + loose] && r != Refused)
      ensures r == Refused ==> !TagMatches(tagOf, old(packed), tag)
      ensures steady ==> r != PutError
    {
      var failed: bool := *;
      if failed && !steady {
        return PutError;
      }
      if !TagMatches(tagOf, packed, tag) {
        return Refused;
      }
      packed := Some(next);
      trace := trace + [View()];
      failed := *;
      if failed && !steady {
        return PutError;
      }
      r := PutDone;
    }

    /** One delete request. A failed one may have removed some of its keys. */
    method DeleteObjects(keys: set<RefName>) returns (ok: bool)
      modifies this
      ensures packed == old(packed)
      ensures exists gone: set<RefName> :: gone <= keys && (ok ==> gone == keys) && loose == old(loose) - gone
      ensures trace == old(trace) + [Content(packed) + loose]
      ensures steady ==> ok
    {
      var gone := keys;
      ok := true;
      var failed: bool := *;
      if failed && !steady {
        ok := false;
        gone :| gone <= keys;
      }
      loose := loose - gone;
      trace := trace + [View()];
    }
  }

  ghost predicate PartOf(left: Refs, whole: Refs) {
    left.Keys <= whole.Keys && forall n :: n in left ==> left[n] == whole[n]
  }

  /** Every state of the bucket since `from` reads, name by name, as before or as after. */
  ghost predicate SafeSince(trace: seq<Refs>, from: nat, before: Refs, after: Refs) {
    from <= |trace| && forall k :: from <= k < |trace| ==> Between(before, after, trace[k])
  }

  /** Whatever part of the old loose layer is still there, each name reads as before or as after. */
  lemma AnyCleanupIsBetween(packed: Refs, loose: Refs, left: Refs, after: Refs)
    requires PartOf(left, loose)
    ensures Between(packed + loose, after, after + left)
  {
  }

  datatype CommitResult = Unchanged | Completed | CleanupError | Changed | Contended | RequestFailed

  class Storer {
    const bucket: Bucket
    const tagOf: Refs -> Tag
    var built: bool
    var etag: Option<Tag>
    var packed: Refs
    var loose: Refs

    /** The cache knows the loose refs, and knows the packed refs unless its ETag is out of date. */
    ghost predicate Valid()
      reads this, bucket
    {
      Injective(tagOf) &&
      (built ==> loose == bucket.loose && (TagMatches(tagOf, bucket.packed, etag) ==> packed == Content(bucket.packed)))
    }

    /** The refs that the next commit is checked against first: the cached ones, or a fresh read. */
    ghost function Seen(): Refs
      reads this, bucket
    {
      if built then packed + loose else bucket.View()
    }

    /** Without a cache, or with one whose ETag is still current, that is what the bucket holds. */
    lemma SeesTheBucket()
      requires Valid() && (!built || TagMatches(tagOf, bucket.packed, etag))
      ensures Seen() == bucket.View()
    {
    }

    constructor (bucket: Bucket, tagOf: Refs -> Tag)
      requires Injective(tagOf)
      ensures Valid() && this.bucket == bucket && this.tagOf == tagOf
    {
      this.bucket, this.tagOf, this.built, this.etag, this.packed, this.loose := bucket, tagOf, false, None, map[], map[];
    }

    /** Reads the packed refs and the loose layer once. A failed read leaves the cache unbuilt. */
    method EnsureRefsBuilt() returns (ok: bool)
      requires Valid()
      modifies this
      ensures Valid() && (ok ==> built)
      ensures ok && !old(built) ==> TagMatches(tagOf, bucket.packed, etag)
      ensures old(built) ==> ok && etag == old(etag) && packed == old(packed) && loose == old(loose)
      ensures bucket.steady ==> ok
      ensures ok ==> packed + loose == old(Seen())
    {
      if built {
        return true;
      }
      var failed: bool := *;
      if failed && !bucket.steady {
        return false;
      }
      etag := if bucket.packed.Some? then Some(tagOf(bucket.packed.value)) else None;
      packed := Content(bucket.packed);
      loose := bucket.loose;
      built := true;
      ok := true;
    }

    method InvalidateRefs()
      requires Injective(tagOf)
      modifies this
      ensures !built && Valid()
    {
      built, etag, packed, loose := false, None, map[], map[];
    }

    method CheckRefExpectations(view: Refs, wants: seq<Expectation>) returns (ok: bool)
      ensures ok <==> MeetsAll(view, wants)
    {
      for i := 0 to |wants|
        invariant forall j :: 0 <= j < i ==> Meets(view, wants[j])
      {
        var e := wants[i];
        assert e in wants;
        var present := e.name in view;
        if e.strict && e.old_.None? && present {
          return false;
        } else if e.strict && e.old_.Some? && (!present || view[e.name].Value() != e.old_.value.Value()) {
          return false;
        } else if e.old_.None? {
        } else if !present {
        } else if view[e.name].Value() != e.old_.value.Value() {
          return false;
        }
      }
      ok := true;
    }

    /** The refs after the batch: sets in order, then removals. */
    method Mutate(view: Refs, b: Batch) returns (next: Refs)
      ensures next == Apply(view, b)
    {
      next := view;
      for i := 0 to |b.sets|
        invariant next == Set(view, b.sets[..i])
      {
        assert b.sets[..i + 1][..i] == b.sets[..i];
        next := next[b.sets[i].0 := b.sets[i].1];
      }
      assert b.sets[..|b.sets|] == b.sets;
      ghost var set_ := next;
      for i := 0 to |b.removes|
        invariant next == set_ - NameSet(b.removes[..i])
      {
        assert NameSet(b.removes[..i + 1]) == NameSet(b.removes[..i]) + {b.removes[i]};
        next := next - {b.removes[i]};
      }
      assert b.removes[..|b.removes|] == b.removes;
    }

    /** Adds the names not seen yet, in order. */
    method AppendNew(names: seq<RefName>, keys: seq<RefName>) returns (out: seq<RefName>)
      ensures NameSet(out) == NameSet(keys) + NameSet(names)
      ensures NoDup(keys) ==> NoDup(out)
    {
      out := keys;
      for i := 0 to |names|
        invariant NameSet(out) == NameSet(keys) + NameSet(names[..i])
        invariant NoDup(keys) ==> NoDup(out)
      {
        assert NameSet(names[..i + 1]) == NameSet(names[..i]) + {names[i]};
        if names[i] !in out {
          assert NameSet(out + [names[i]]) == NameSet(out) + {names[i]};
          out := out + [names[i]];
        }
      }
      assert names[..|names|] == names;
    }

    /** Deletes the loose keys the landed commit superseded, at most a thousand per request. On an
        error the cache no longer matches the bucket and is dropped. */
    method DropFoldedLooseRefs(folded: seq<RefName>, removed: seq<RefName>, ghost before: Refs) returns (ok: bool)
      requires Injective(tagOf) && built && loose == map[] && bucket.packed == Some(packed)
      requires before == before + bucket.loose && bucket.loose.Keys <= NameSet(folded)
      modifies this, bucket
      ensures bucket.packed == old(bucket.packed) && PartOf(bucket.loose, old(bucket.loose))
      ensures SafeSince(bucket.trace, |old(bucket.trace)|, before, old(packed)) && old(bucket.trace) <= bucket.trace
      ensures ok ==> bucket.loose == map[] && Valid()
      ensures !ok ==> Valid() && !built
      ensures bucket.steady ==> ok
    {
      var keys := AppendNew(folded, []);
      keys := AppendNew(removed, keys);
      ghost var loose0 := bucket.loose;
      var start := 0;
      while start < |keys|
        invariant 0 <= start
        invariant built && loose == map[] && packed == old(packed) && bucket.packed == Some(packed)
        invariant PartOf(bucket.loose, loose0)
        invariant bucket.loose.Keys !! NameSet(keys[..if start < |keys| then start else |keys|])
        invariant SafeSince(bucket.trace, |old(bucket.trace)|, before, packed) && old(bucket.trace) <= bucket.trace
      {
        var end := if start + MAX_DELETE_BATCH < |keys| then start + MAX_DELETE_BATCH else |keys|;
        var batch := NameSet(keys[start..end]);
        assert NameSet(keys[..end]) == NameSet(keys[..start]) + batch by {
          assert keys[..end] == keys[..start] + keys[start..end];
        }
        ok := bucket.DeleteObjects(batch);
        AnyCleanupIsBetween(before, loose0, bucket.loose, packed);
        if !ok {
          InvalidateRefs();
          return;
        }
        start := start + MAX_DELETE_BATCH;
      }
      assert keys[..|keys|] == keys;
      ok := true;
    }

    /** One turn of the retry loop: read if need be, check, fold, mutate, write, clean up. No result
        means that the write was refused because the cache was out of date, and nothing changed. */
    method Attempt(b: Batch) returns (r: Option<CommitResult>)
      requires Valid()
      modifies this, bucket
      ensures Valid() && old(bucket.trace) <= bucket.trace
      ensures SafeSince(bucket.trace, |old(bucket.trace)|, old(bucket.View()), Apply(old(bucket.View()), b))
      ensures r.None? || r.value.Changed? ==> bucket.packed == old(bucket.packed) && bucket.loose == old(bucket.loose) && bucket.trace == old(bucket.trace)
      ensures r.Some? ==> r.value in {Completed, CleanupError, Changed, RequestFailed}
      ensures r == Some(Changed) ==> !MeetsAll(old(Seen()), b.wants)
      ensures r.None? || r == Some(Completed) || r == Some(CleanupError) ==> MeetsAll(old(Seen()), b.wants)
      ensures r.None? ==> old(built) && !TagMatches(tagOf, old(bucket.packed), old(etag))
      ensures bucket.steady ==> r.None? || r.value in {Completed, Changed}
      ensures r == Some(Completed) || r == Some(CleanupError) ==> MeetsAll(old(bucket.View()), b.wants)
      ensures r == Some(Completed) ==> bucket.packed == Some(Apply(old(bucket.View()), b)) && bucket.loose == map[]
      ensures r == Some(CleanupError) ==> bucket.packed == Some(Apply(old(bucket.View()), b)) && PartOf(bucket.loose, old(bucket.loose))
      ensures (bucket.packed == old(bucket.packed) || bucket.packed == Some(Apply(old(bucket.View()), b))) && PartOf(bucket.loose, old(bucket.loose))
      ensures bucket.packed == old(bucket.packed) && !(r.Some? && r.value in {Completed, CleanupError}) ==> bucket.loose == old(bucket.loose)
    {
      hide Apply, Between;
      var ready := EnsureRefsBuilt();
      if !ready {
        return Some(RequestFailed);
      }
      var tag, view := etag, packed + loose;
      var folded := NamesOf(loose);
      var met := CheckRefExpectations(view, b.wants);
      if !met {
        return Some(Changed);
      }
      var next := Mutate(view, b);
      var put := bucket.Put(tagOf, tag, next);
      AnyCleanupIsBetween(Content(old(bucket.packed)), bucket.loose, bucket.loose, next);
      match put {
        case Refused => return None;
        case PutError => return Some(RequestFailed);
        case PutDone =>
          etag, packed, loose, built := Some(tagOf(next)), next, map[], true;
          var cleaned := DropFoldedLooseRefs(folded, b.removes, view);
          return Some(if cleaned then Completed else CleanupError);
      }
    }

    /** One batch, committed in a single conditional write; `flushed` is whether the uploads were flushed
        without an error, and if not, nothing is written. Whatever happens, and wherever the process
        stops, every ref reads as before or as after; a commit that completes leaves exactly the batch
        applied to the old refs and no loose ref behind; and one that is turned away wrote nothing. It is
        turned away only when the refs it sees, or those of the bucket, do not meet its expectations, and
        as long as no request fails it completes in every other case. */
    method CommitRefs(b: Batch, flushed: bool) returns (r: CommitResult)
      requires Valid()
      modifies this, bucket
      ensures SafeSince(bucket.trace, |old(bucket.trace)|, old(bucket.View()), Apply(old(bucket.View()), b))
      ensures r.Completed? ==> bucket.View() == Apply(old(bucket.View()), b) && bucket.loose == map[]
      ensures r.CleanupError? ==> bucket.packed == Some(Apply(old(bucket.View()), b)) && PartOf(bucket.loose, old(bucket.loose))
      ensures r.Unchanged? || r.Changed? ==> bucket.View() == old(bucket.View()) && bucket.trace == old(bucket.trace)
      ensures r.Completed? || r.CleanupError? ==> flushed && MeetsAll(old(Seen()), b.wants) && MeetsAll(old(bucket.View()), b.wants)
      ensures r.Changed? ==> flushed && !(MeetsAll(old(Seen()), b.wants) && MeetsAll(old(bucket.View()), b.wants))
      ensures !flushed ==> bucket.packed == old(bucket.packed) && bucket.loose == old(bucket.loose) && bucket.trace == old(bucket.trace)
      ensures r.Unchanged? <==> b.sets == [] && b.removes == []
      ensures !r.Contended?
      ensures bucket.steady && flushed ==> r.Unchanged? || r.Changed? || r.Completed?
      ensures bucket.steady ==> (r.Completed? <==> (flushed && (b.sets != [] || b.removes != [])
                                                    && MeetsAll(old(Seen()), b.wants) && MeetsAll(old(bucket.View()), b.wants)))
      ensures Between(old(bucket.View()), Apply(old(bucket.View()), b), bucket.View())
      ensures Valid()
    {
      hide Apply, MeetsAll;
      if b.sets == [] && b.removes == [] {
        return Unchanged;
      }
      if !flushed {
        return RequestFailed;
      }
      ghost var after := Apply(bucket.View(), b);
      for attempt := 0 to MAX_ATTEMPTS
        invariant Valid() && bucket.packed == old(bucket.packed) && bucket.loose == old(bucket.loose) && bucket.trace == old(bucket.trace)
        invariant attempt == 0 ==> Seen() == old(Seen())
        invariant attempt > 0 ==> attempt == 1 && MeetsAll(old(Seen()), b.wants)
      {
        if attempt > 0 {
          InvalidateRefs();
        }
        var outcome := Attempt(b);
        if outcome.Some? {
          AnyCleanupIsBetween(Content(old(bucket.packed)), old(bucket.loose), bucket.loose, after);
          assert after + map[] == after;
          return outcome.value;
        }
      }
      r := Contended;
    }

    method NamesOf(m: Refs) returns (names: seq<RefName>)
      ensures NameSet(names) == m.Keys
    {
      names := [];
      var todo := m.Keys;
      while todo != {}
        invariant todo <= m.Keys && NameSet(names) == m.Keys - todo
        decreases todo
      {
        var n :| n in todo;
        assert NameSet(names + [n]) == NameSet(names) + {n};
        todo, names := todo - {n}, names + [n];
      }
    }
  }
}
