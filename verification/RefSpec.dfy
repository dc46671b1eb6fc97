/** References and batches of reference updates: what a batch does to a set of refs, and what it
    expects of them. */
module RefSpec {
  import opened Prelude

  type RefName = string

  datatype Ref = HashRef(target: Hash) | SymRef(name: RefName) {
    /** A symbolic ref reports the zero hash. */
    function Value(): Hash {
      if HashRef? then target else ZERO_HASH
    }
  }

  type Refs = map<RefName, Ref>

  datatype Expectation = Expectation(name: RefName, old_: Option<Ref>, strict: bool)

  datatype Batch = Batch(sets: seq<(RefName, Ref)>, removes: seq<RefName>, wants: seq<Expectation>)

  function Set(view: Refs, sets: seq<(RefName, Ref)>): Refs {
    if sets == [] then view else Set(view, sets[..|sets| - 1])[sets[|sets| - 1].0 := sets[|sets| - 1].1]
  }

  function NameSet(names: seq<RefName>): set<RefName> {
    set n | n in names
  }

  function Remove(view: Refs, removes: seq<RefName>): Refs {
    view - NameSet(removes)
  }

  function Apply(view: Refs, b: Batch): Refs {
    Remove(Set(view, b.sets), b.removes)
  }

  /** A strict expectation wants exactly the given value, or absence; a lenient one accepts a ref that
      is missing and an expectation without a value. */
  predicate Meets(view: Refs, e: Expectation) {
    if e.strict then
      if e.old_.None? then e.name !in view
      else e.name in view && view[e.name].Value() == e.old_.value.Value()
    else
      e.old_.Some? && e.name in view ==> view[e.name].Value() == e.old_.value.Value()
  }

  predicate MeetsAll(view: Refs, wants: seq<Expectation>) {
    forall e :: e in wants ==> Meets(view, e)
  }

  predicate Names(b: Batch, n: RefName) {
    n in b.removes || exists i :: 0 <= i < |b.sets| && b.sets[i].0 == n
  }

  /** The last value a batch sets a name to. */
  function LastSet(sets: seq<(RefName, Ref)>, n: RefName): Option<Ref> {
    if sets == [] then None
    else if sets[|sets| - 1].0 == n then Some(sets[|sets| - 1].1)
    else LastSet(sets[..|sets| - 1], n)
  }

  function At(view: Refs, n: RefName): Option<Ref> {
    if n in view then Some(view[n]) else None
  }

  /** A batch decides every name on its own: removed, set to its last value, or left alone. */
  lemma {:induction false} ApplyAt(view: Refs, b: Batch, n: RefName)
    ensures At(Apply(view, b), n) ==
            if n in b.removes then None
            else if LastSet(b.sets, n).Some? then LastSet(b.sets, n)
            else At(view, n)
  {
    SetAt(view, b.sets, n);
  }

  lemma {:induction false} SetAt(view: Refs, sets: seq<(RefName, Ref)>, n: RefName)
    ensures At(Set(view, sets), n) == if LastSet(sets, n).Some? then LastSet(sets, n) else At(view, n)
  {
    if sets != [] {
      SetAt(view, sets[..|sets| - 1], n);
    }
  }

  lemma {:induction false} LastSetIsNamed(sets: seq<(RefName, Ref)>, n: RefName)
    ensures LastSet(sets, n).Some? <==> exists i :: 0 <= i < |sets| && sets[i].0 == n
  {
    if sets != [] {
      var k := |sets| - 1;
      LastSetIsNamed(sets[..k], n);
      if exists i :: 0 <= i < |sets| && sets[i].0 == n {
        var i :| 0 <= i < |sets| && sets[i].0 == n;
        if i < k {
          assert sets[..k][i].0 == n;
        }
      }
    }
  }

  lemma UnnamedUnchanged(view: Refs, b: Batch, n: RefName)
    requires !Names(b, n)
    ensures At(Apply(view, b), n) == At(view, n)
  {
    ApplyAt(view, b, n);
    LastSetIsNamed(b.sets, n);
  }
}
