/** Many clients that commit ref batches to one packed-refs object by compare and swap, as a step
    system: fetch, list, conditional put, cleanup, crash, in any interleaving. */
module RefStore {
  import opened Prelude
  import opened RefSpec

  const MAX_ATTEMPTS: nat := 8

  type Client = nat

  type Tag = nat

  datatype Outcome = Committed | CleanupFailed | RefChanged | Contention | Failed

  /** Where a client's commit is. `tag` is the ETag the packed refs were read with, if there was an object. */
  datatype Phase =
    | Reading
    | Fetched(tag: Option<Tag>, packed: Refs)
    | Ready(tag: Option<Tag>, packed: Refs, loose: Refs)
    | Cleaning(folded: set<RefName>)
    | Done(outcome: Outcome)

  datatype Commit = Commit(batch: Batch, attempt: nat, phase: Phase)

  /** One write of the packed-refs object: who wrote it, and the refs before and after. */
  datatype Landing = Landing(client: Client, batch: Batch, before: Refs, after: Refs)

  datatype Store = Store(packed: Option<Refs>, loose: Refs, clients: map<Client, Commit>, log: seq<Landing>)

  function Content(packed: Option<Refs>): Refs {
    if packed.Some? then packed.value else map[]
  }

  datatype Step =
    | Begin(client: Client, batch: Batch)
    | Fetch(client: Client)
    | List(client: Client)
    | Reject(client: Client)
    | PutOk(client: Client)
    | PutRefused(client: Client)
    | PutFault(client: Client, landed: bool)
    | CleanupOk(client: Client)
    | CleanupFault(client: Client, deleted: set<RefName>)
    | Crash(client: Client)

  /** The view a commit works on: packed refs with the loose layer on top. */
  function View(p: Phase): Refs
    requires p.Ready?
  {
    p.packed + p.loose
  }

  /** The condition of the conditional write: same ETag, or no object when none was seen. */
  predicate TagMatches(tagOf: Refs -> Tag, packed: Option<Refs>, tag: Option<Tag>) {
    if packed.None? then tag.None? else tag == Some(tagOf(packed.value))
  }

  /** The loose keys a landed commit deletes: those it folded in and those it removed. */
  function Folded(commit: Commit): set<RefName>
    requires commit.phase.Ready?
  {
    commit.phase.loose.Keys + NameSet(commit.batch.removes)
  }

  predicate CanPut(s: Store, c: Client) {
    c in s.clients && s.clients[c].phase.Ready? && MeetsAll(View(s.clients[c].phase), s.clients[c].batch.wants)
  }

  predicate Enabled(tagOf: Refs -> Tag, s: Store, step: Step) {
    match step
    case Begin(c, b) => c !in s.clients && (b.sets != [] || b.removes != [])
    case Fetch(c) => c in s.clients && s.clients[c].phase.Reading?
    case List(c) => c in s.clients && s.clients[c].phase.Fetched?
    case Reject(c) => c in s.clients && s.clients[c].phase.Ready? && !MeetsAll(View(s.clients[c].phase), s.clients[c].batch.wants)
    case PutOk(c) => CanPut(s, c) && TagMatches(tagOf, s.packed, s.clients[c].phase.tag)
    case PutRefused(c) => CanPut(s, c) && !TagMatches(tagOf, s.packed, s.clients[c].phase.tag)
    case PutFault(c, landed) => CanPut(s, c) && (landed ==> TagMatches(tagOf, s.packed, s.clients[c].phase.tag))
    case CleanupOk(c) => c in s.clients && s.clients[c].phase.Cleaning?
    case CleanupFault(c, deleted) => c in s.clients && s.clients[c].phase.Cleaning? && deleted <= s.clients[c].phase.folded
    case Crash(c) => c in s.clients && !s.clients[c].phase.Done?
  }

  function SetPhase(s: Store, c: Client, p: Phase): Store
    requires c in s.clients
  {
    s.(clients := s.clients[c := s.clients[c].(phase := p)])
  }

  /** The packed object after client `c` wrote it. */
  function Land(s: Store, c: Client, p: Phase): Store
    requires CanPut(s, c)
  {
    var commit := s.clients[c];
    var next := Apply(View(commit.phase), commit.batch);
    SetPhase(s.(packed := Some(next), log := s.log + [Landing(c, commit.batch, Content(s.packed), next)]), c, p)
  }

  function Next(tagOf: Refs -> Tag, s: Store, step: Step): Store
    requires Enabled(tagOf, s, step)
  {
    match step
    case Begin(c, b) => s.(clients := s.clients[c := Commit(b, 0, Reading)])
    case Fetch(c) =>
      SetPhase(s, c, Fetched(if s.packed.Some? then Some(tagOf(s.packed.value)) else None, Content(s.packed)))
    case List(c) => var p := s.clients[c].phase; SetPhase(s, c, Ready(p.tag, p.packed, s.loose))
    case Reject(c) => SetPhase(s, c, Done(RefChanged))
    case PutOk(c) => Land(s, c, Cleaning(Folded(s.clients[c])))
    case PutRefused(c) =>
      var n := s.clients[c].attempt + 1;
      s.(clients := s.clients[c := Commit(s.clients[c].batch, n, if n < MAX_ATTEMPTS then Reading else Done(Contention))])
    case PutFault(c, landed) => if landed then Land(s, c, Done(Failed)) else SetPhase(s, c, Done(Failed))
    case CleanupOk(c) => SetPhase(s.(loose := s.loose - s.clients[c].phase.folded), c, Done(Committed))
    case CleanupFault(c, deleted) => SetPhase(s.(loose := s.loose - deleted), c, Done(CleanupFailed))
    case Crash(c) => SetPhase(s, c, Done(Failed))
  }

  ghost predicate Injective(tagOf: Refs -> Tag) {
    forall a, b :: tagOf(a) == tagOf(b) ==> a == b
  }

  /** What a client's phase says about the writes it made. */
  ghost predicate Honest(tagOf: Refs -> Tag, s: Store, c: Client)
    requires c in s.clients
  {
    var commit := s.clients[c];
    match commit.phase
    case Reading => !Landed(s, c)
    case Fetched(tag, packed) => !Landed(s, c) && TagNames(tagOf, tag, packed)
    case Ready(tag, packed, loose) => !Landed(s, c) && TagNames(tagOf, tag, packed) && loose == map[]
    case Cleaning(_) => Landed(s, c)
    case Done(o) =>
      match o
      case Committed => Landed(s, c)
      case CleanupFailed => Landed(s, c)
      case RefChanged => !Landed(s, c)
      case Contention => !Landed(s, c)
      case Failed => true
  }

  ghost predicate TagNames(tagOf: Refs -> Tag, tag: Option<Tag>, packed: Refs) {
    if tag.None? then packed == map[] else tag.value == tagOf(packed)
  }

  ghost predicate Landed(s: Store, c: Client) {
    exists i :: 0 <= i < |s.log| && s.log[i].client == c
  }

  /** Version `i` of the packed refs is one client's whole batch applied to version `i - 1`, which met
      everything that client expected. */
  ghost predicate Linear(s: Store, init: Refs, i: nat)
    requires i < |s.log|
  {
    && s.log[i].before == (if i == 0 then init else s.log[i - 1].after)
    && s.log[i].after == Apply(s.log[i].before, s.log[i].batch)
    && MeetsAll(s.log[i].before, s.log[i].batch.wants)
    && s.log[i].client in s.clients && s.log[i].batch == s.clients[s.log[i].client].batch
  }

  ghost predicate Inv(tagOf: Refs -> Tag, s: Store, init: Refs) {
    && s.loose == map[]
    && Content(s.packed) == (if s.log == [] then init else s.log[|s.log| - 1].after)
    && (forall i :: 0 <= i < |s.log| ==> Linear(s, init, i))
    && (forall i, j :: 0 <= i < j < |s.log| ==> s.log[i].client != s.log[j].client)
    && (forall c :: c in s.clients ==> Honest(tagOf, s, c))
  }

  /** An ETag that matches names the content that was read, even if other versions came between. */
  lemma MatchedTagIsCurrent(tagOf: Refs -> Tag, s: Store, init: Refs, c: Client)
    requires Injective(tagOf) && Inv(tagOf, s, init) && CanPut(s, c) && TagMatches(tagOf, s.packed, s.clients[c].phase.tag)
    ensures View(s.clients[c].phase) == Content(s.packed)
  {
    assert Honest(tagOf, s, c);
    var p := s.clients[c].phase;
    assert p.packed + map[] == p.packed;
  }

  lemma StepKeeps(tagOf: Refs -> Tag, s: Store, init: Refs, step: Step)
    requires Injective(tagOf) && Inv(tagOf, s, init) && Enabled(tagOf, s, step)
    ensures Inv(tagOf, Next(tagOf, s, step), init)
  {
    var s' := Next(tagOf, s, step);
    if step.PutOk? || (step.PutFault? && step.landed) {
      LandKeeps(tagOf, s, init, step.client, s'.clients[step.client].phase);
    } else {
      assert s'.log == s.log;
      assert s'.loose == map[];
      forall c | c in s'.clients ensures Honest(tagOf, s', c) {
        assert Landed(s', c) <==> Landed(s, c);
        if c in s.clients {
          assert Honest(tagOf, s, c);
        } else {
          forall i | 0 <= i < |s.log| ensures s.log[i].client != c {
            assert Linear(s, init, i);
          }
        }
      }
      forall i | 0 <= i < |s'.log| ensures Linear(s', init, i) {
        assert Linear(s, init, i);
      }
    }
  }

  lemma LandKeeps(tagOf: Refs -> Tag, s: Store, init: Refs, c: Client, p: Phase)
    requires Injective(tagOf) && Inv(tagOf, s, init) && CanPut(s, c) && TagMatches(tagOf, s.packed, s.clients[c].phase.tag)
    requires p.Cleaning? || p == Done(Failed)
    ensures Inv(tagOf, Land(s, c, p), init)
  {
    MatchedTagIsCurrent(tagOf, s, init, c);
    var s' := Land(s, c, p);
    var n := |s.log|;
    assert Honest(tagOf, s, c);
    forall i | 0 <= i < |s'.log| ensures Linear(s', init, i) {
      if i < n {
        assert Linear(s, init, i);
      }
    }
    assert s'.log[n].client == c;
    forall d | d in s'.clients ensures Honest(tagOf, s', d) {
      assert Honest(tagOf, s, d);
      if Landed(s, d) {
        var i :| 0 <= i < |s.log| && s.log[i].client == d;
        assert s'.log[i].client == d;
      }
    }
  }

  ghost predicate IsExec(tagOf: Refs -> Tag, states: seq<Store>, steps: seq<Step>) {
    && |states| == |steps| + 1
    && forall i :: 0 <= i < |steps| ==> Enabled(tagOf, states[i], steps[i]) && states[i + 1] == Next(tagOf, states[i], steps[i])
  }

  /** A run starts before any client, with no loose refs. */
  ghost predicate IsRun(tagOf: Refs -> Tag, states: seq<Store>, steps: seq<Step>) {
    IsExec(tagOf, states, steps) && states[0].loose == map[] && states[0].clients == map[] && states[0].log == []
  }

  lemma {:induction false} RunInv(tagOf: Refs -> Tag, states: seq<Store>, steps: seq<Step>, n: nat)
    requires Injective(tagOf) && IsRun(tagOf, states, steps) && n < |states|
    ensures Inv(tagOf, states[n], Content(states[0].packed))
  {
    if n > 0 {
      RunInv(tagOf, states, steps, n - 1);
      StepKeeps(tagOf, states[n - 1], Content(states[0].packed), steps[n - 1]);
    }
  }

  /** From an empty loose layer, in every interleaving, each version of the packed refs is one client's
      whole batch applied to the version just before it, which met that client's expectations; the
      first follows the initial refs and the last is what the store holds. */
  lemma CommitsAreLinear(tagOf: Refs -> Tag, states: seq<Store>, steps: seq<Step>, n: nat, i: nat)
    requires Injective(tagOf) && IsRun(tagOf, states, steps) && n < |states| && i < |states[n].log|
    ensures var s := states[n];
            && s.log[i].before == (if i == 0 then Content(states[0].packed) else s.log[i - 1].after)
            && s.log[i].after == Apply(s.log[i].before, s.log[i].batch)
            && MeetsAll(s.log[i].before, s.log[i].batch.wants)
            && Content(s.packed) == s.log[|s.log| - 1].after
  {
    RunInv(tagOf, states, steps, n);
    assert Linear(states[n], Content(states[0].packed), i);
  }

  /** A client that reports contention, or a changed ref, wrote nothing; one that reports success wrote
      its batch exactly once. */
  lemma OutcomesAreTrue(tagOf: Refs -> Tag, states: seq<Store>, steps: seq<Step>, n: nat, c: Client)
    requires Injective(tagOf) && IsRun(tagOf, states, steps) && n < |states|
    requires c in states[n].clients && states[n].clients[c].phase.Done?
    ensures var s, o := states[n], states[n].clients[c].phase.outcome;
            && (o == Contention || o == RefChanged ==> forall i :: 0 <= i < |s.log| ==> s.log[i].client != c)
            && (o == Committed || o == CleanupFailed ==>
                  exists i :: 0 <= i < |s.log| && s.log[i].client == c && s.log[i].batch == s.clients[c].batch)
            && (forall i, j :: 0 <= i < j < |s.log| && s.log[i].client == c ==> s.log[j].client != c)
  {
    RunInv(tagOf, states, steps, n);
    var s := states[n];
    assert Honest(tagOf, s, c);
    if Landed(s, c) {
      var i :| 0 <= i < |s.log| && s.log[i].client == c;
      assert Linear(s, Content(states[0].packed), i);
    }
  }

  // A commit is turned away for cause. Both laws hold with a loose layer too.

  /** The refs a client is to be checked against are what it read since moment `b`: the packed refs at
      one moment and the loose refs at a later one. */
  ghost predicate Saw(states: seq<Store>, b: nat, f: nat, l: nat, n: nat, phase: Phase, wants: seq<Expectation>) {
    && b <= f < n < |states| && l < n
    && match phase {
         case Fetched(_, packed) => packed == Content(states[f].packed)
         case Ready(_, packed, loose) => f < l && packed == Content(states[f].packed) && loose == states[l].loose
         case Done(o) => o == RefChanged ==> f < l && !MeetsAll(Content(states[f].packed) + states[l].loose, wants)
         case _ => true
       }
  }

  ghost predicate IsReader(phase: Phase) {
    phase.Fetched? || phase.Ready? || phase == Done(RefChanged)
  }

  lemma {:induction false} ReadSinceBegin(tagOf: Refs -> Tag, states: seq<Store>, steps: seq<Step>, b: nat, n: nat, c: Client)
    returns (f: nat, l: nat)
    requires IsExec(tagOf, states, steps) && b <= n < |states| && c !in states[b].clients && c in states[n].clients
    requires IsReader(states[n].clients[c].phase)
    ensures Saw(states, b, f, l, n, states[n].clients[c].phase, states[n].clients[c].batch.wants)
    decreases n
  {
    hide MeetsAll, Enabled, Next;
    var s, step := states[n - 1], steps[n - 1];
    ReaderNext(tagOf, s, step, c);
    if step == Fetch(c) {
      f, l := n - 1, n - 1;
    } else {
      f, l := ReadSinceBegin(tagOf, states, steps, b, n - 1, c);
      if step == List(c) {
        l := n - 1;
      }
    }
  }

  /** How a client comes to what it has read. */
  lemma ReaderNext(tagOf: Refs -> Tag, s: Store, step: Step, c: Client)
    requires Enabled(tagOf, s, step) && c in Next(tagOf, s, step).clients && IsReader(Next(tagOf, s, step).clients[c].phase)
    ensures c in s.clients
    ensures var was, now := s.clients[c].phase, Next(tagOf, s, step).clients[c].phase;
            && Next(tagOf, s, step).clients[c].batch == s.clients[c].batch
            && if step == Fetch(c) then now.Fetched? && now.packed == Content(s.packed)
               else if step == List(c) then was.Fetched? && now == Ready(was.tag, was.packed, s.loose)
               else if step == Reject(c) then
                 was.Ready? && now == Done(RefChanged) && !MeetsAll(was.packed + was.loose, s.clients[c].batch.wants)
               else now == was
  {
    hide MeetsAll, TagMatches, Apply;
  }

  /** A client that was told that a ref has changed had read, since it began, refs that do not meet its
      expectations. */
  lemma ChangedForCause(tagOf: Refs -> Tag, states: seq<Store>, steps: seq<Step>, b: nat, n: nat, c: Client) returns (f: nat, l: nat)
    requires IsExec(tagOf, states, steps) && b <= n < |states| && c !in states[b].clients
    requires c in states[n].clients && states[n].clients[c].phase == Done(RefChanged)
    ensures b <= f < l < n && !MeetsAll(Content(states[f].packed) + states[l].loose, states[n].clients[c].batch.wants)
  {
    f, l := ReadSinceBegin(tagOf, states, steps, b, n, c);
  }

  /** None of the writes since `began` is this client's. */
  ghost predicate OthersOnly(log: seq<Landing>, c: Client, began: nat) {
    forall i :: began <= i < |log| ==> log[i].client != c
  }

  /** As many puts have landed since `began` as this client had refused, and one more if what it has
      read is out of date; and as long as it has not got through, they are others'. */
  ghost predicate Paced(tagOf: Refs -> Tag, s: Store, c: Client, began: nat) {
    && c in s.clients
    && var commit := s.clients[c];
       && |s.log| >= began + commit.attempt
       && (commit.phase.Fetched? || commit.phase.Ready? ==>
             TagMatches(tagOf, s.packed, commit.phase.tag) || |s.log| >= began + commit.attempt + 1)
       && (commit.phase == Done(Contention) ==> commit.attempt >= 8)
       && (commit.phase.Reading? || commit.phase.Fetched? || commit.phase.Ready? || commit.phase == Done(Contention) ==>
             OthersOnly(s.log, c, began))
  }

  lemma StepPaced(tagOf: Refs -> Tag, s: Store, step: Step, c: Client, began: nat)
    requires Paced(tagOf, s, c, began) && Enabled(tagOf, s, step)
    ensures Paced(tagOf, Next(tagOf, s, step), c, began)
  {
    hide MeetsAll, Apply;
  }

  lemma {:induction false} RunPaced(tagOf: Refs -> Tag, states: seq<Store>, steps: seq<Step>, b: nat, n: nat, c: Client)
    requires IsExec(tagOf, states, steps) && b <= n < |states| && c !in states[b].clients && c in states[n].clients
    ensures Paced(tagOf, states[n], c, |states[b].log|)
    decreases n
  {
    hide Paced, Enabled, Next;
    if c in states[n - 1].clients {
      RunPaced(tagOf, states, steps, b, n - 1, c);
      StepPaced(tagOf, states[n - 1], steps[n - 1], c, |states[b].log|);
    } else {
      NotYet(tagOf, states, steps, b, n - 1, c);
      NewIsPaced(tagOf, states[n - 1], steps[n - 1], c, |states[b].log|);
    }
  }

  lemma NewIsPaced(tagOf: Refs -> Tag, s: Store, step: Step, c: Client, began: nat)
    requires Enabled(tagOf, s, step) && c !in s.clients && c in Next(tagOf, s, step).clients
    requires |s.log| >= began && OthersOnly(s.log, c, began)
    ensures Paced(tagOf, Next(tagOf, s, step), c, began)
  {
  }

  lemma {:induction false} NotYet(tagOf: Refs -> Tag, states: seq<Store>, steps: seq<Step>, b: nat, n: nat, c: Client)
    requires IsExec(tagOf, states, steps) && b <= n < |states| && c !in states[n].clients
    ensures |states[n].log| >= |states[b].log| && OthersOnly(states[n].log, c, |states[b].log|)
    decreases n
  {
    hide Enabled, Next;
    if b < n {
      NotYetStep(tagOf, states[n - 1], steps[n - 1], c);
      NotYet(tagOf, states, steps, b, n - 1, c);
    }
  }

  lemma NotYetStep(tagOf: Refs -> Tag, s: Store, step: Step, c: Client)
    requires Enabled(tagOf, s, step) && c !in Next(tagOf, s, step).clients
    ensures c !in s.clients && s.log <= Next(tagOf, s, step).log
    ensures OthersOnly(Next(tagOf, s, step).log, c, |s.log|)
  {
    hide MeetsAll, Apply;
  }

  /** A client gives up for contention only after eight puts of others have landed since it began, so
      whoever loses, the refs move on. */
  lemma ContentionIsProgress(tagOf: Refs -> Tag, states: seq<Store>, steps: seq<Step>, b: nat, n: nat, c: Client)
    requires IsExec(tagOf, states, steps) && b <= n < |states| && c !in states[b].clients
    requires c in states[n].clients && states[n].clients[c].phase == Done(Contention)
    ensures |states[n].log| >= |states[b].log| + 8
    ensures forall i :: |states[b].log| <= i < |states[n].log| ==> states[n].log[i].client != c
  {
    hide IsExec;
    RunPaced(tagOf, states, steps, b, n, c);
  }

  /** A landed value stays until a later batch names its ref. */
  lemma {:induction false} NoLostUpdate(tagOf: Refs -> Tag, states: seq<Store>, steps: seq<Step>, n: nat, i: nat, j: nat, name: RefName)
    requires Injective(tagOf) && IsRun(tagOf, states, steps) && n < |states| && i <= j < |states[n].log|
    requires forall k :: i < k <= j ==> !Names(states[n].log[k].batch, name)
    ensures At(states[n].log[j].after, name) == At(states[n].log[i].after, name)
    decreases j
  {
    if i < j {
      NoLostUpdate(tagOf, states, steps, n, i, j - 1, name);
      CommitsAreLinear(tagOf, states, steps, n, j);
      UnnamedUnchanged(states[n].log[j].before, states[n].log[j].batch, name);
    }
  }

  lemma SetOne(view: Refs, n: RefName, r: Ref)
    ensures Apply(view, Batch([(n, r)], [], [])) == view[n := r]
  {
    var sets := [(n, r)];
    assert sets[..0] == [];
    assert Set(view, sets) == view[n := r];
  }

  lemma ExecJoin(tagOf: Refs -> Tag, states: seq<Store>, steps: seq<Step>, states': seq<Store>, steps': seq<Step>)
    requires IsExec(tagOf, states, steps) && IsExec(tagOf, states', steps') && states'[0] == states[|steps|]
    ensures IsExec(tagOf, states + states'[1..], steps + steps')
  {
    hide Enabled, Next;
    var joined, all := states + states'[1..], steps + steps';
    forall i | 0 <= i < |all| ensures Enabled(tagOf, joined[i], all[i]) && joined[i + 1] == Next(tagOf, joined[i], all[i]) {
      if i >= |steps| {
        assert joined[i] == states'[i - |steps|] && joined[i + 1] == states'[i - |steps| + 1] && all[i] == steps'[i - |steps|];
      }
    }
  }

  lemma ReadAlone(tagOf: Refs -> Tag, s: Store, c: Client, b: Batch) returns (states: seq<Store>, steps: seq<Step>)
    requires c !in s.clients && b.sets != []
    ensures IsExec(tagOf, states, steps) && |steps| == 3 && states[0] == s
    ensures var tag := if s.packed.Some? then Some(tagOf(s.packed.value)) else None;
            states[3] == s.(clients := s.clients[c := Commit(b, 0, Ready(tag, Content(s.packed), s.loose))])
  {
    var tag := if s.packed.Some? then Some(tagOf(s.packed.value)) else None;
    var s1 := s.(clients := s.clients[c := Commit(b, 0, Reading)]);
    var s2 := s.(clients := s.clients[c := Commit(b, 0, Fetched(tag, Content(s.packed)))]);
    var s3 := s.(clients := s.clients[c := Commit(b, 0, Ready(tag, Content(s.packed), s.loose))]);
    states, steps := [s, s1, s2, s3], [Begin(c, b), Fetch(c), List(c)];
  }

  lemma OneStep(tagOf: Refs -> Tag, s: Store, step: Step)
    requires Enabled(tagOf, s, step)
    ensures IsExec(tagOf, [s, Next(tagOf, s, step)], [step])
  {
  }

  /** One client that sets one ref, up to its cleanup, on a store that may have loose refs. */
  lemma CommitAlone(tagOf: Refs -> Tag, s: Store, c: Client, n: RefName, r: Ref) returns (states: seq<Store>, steps: seq<Step>)
    requires c !in s.clients
    ensures IsExec(tagOf, states, steps) && |steps| == 4 && states[0] == s
    ensures var b := Batch([(n, r)], [], []);
            var next := (Content(s.packed) + s.loose)[n := r];
            states[4] == Store(Some(next), s.loose, s.clients[c := Commit(b, 0, Cleaning(s.loose.Keys))],
                               s.log + [Landing(c, b, Content(s.packed), next)])
  {
    hide IsExec;
    var b := Batch([(n, r)], [], []);
    states, steps := ReadAlone(tagOf, s, c, b);
    var s3 := states[3];
    SetOne(Content(s.packed) + s.loose, n, r);
    assert Folded(s3.clients[c]) == s.loose.Keys;
    OneStep(tagOf, s3, PutOk(c));
    var s4 := Next(tagOf, s3, PutOk(c));
    ExecJoin(tagOf, states, steps, [s3, s4], [PutOk(c)]);
    assert s4.clients == s.clients[c := Commit(b, 0, Cleaning(s.loose.Keys))];
    states, steps := states + [s3, s4][1..], steps + [PutOk(c)];
  }

  /** A committed update is gone: a client reported success, no later write names one of its refs, and
      that ref no longer reads as the client left it. */
  ghost predicate LostUpdate(s: Store) {
    exists i: nat, name :: LostAt(s, i, name)
  }

  ghost predicate LostAt(s: Store, i: nat, name: RefName) {
    && i < |s.log| && Names(s.log[i].batch, name) && s.log[i].client in s.clients
    && s.clients[s.log[i].client].phase == Done(Committed)
    && (forall k :: i < k < |s.log| ==> !Names(s.log[k].batch, name))
    && At(Content(s.packed) + s.loose, name) != At(s.log[i].after, name)
  }

  /** A client that lists the loose refs between another one's write and its cleanup folds the old
      value back over the new one. On any store with a loose ref, the first client sets it and reports
      success, the second never names it, and the update is gone. */
  lemma LooseLayerLosesAnUpdate(tagOf: Refs -> Tag, s0: Store, name: RefName) returns (states: seq<Store>, steps: seq<Step>)
    requires s0.clients == map[] && s0.log == [] && name in s0.loose
    ensures IsExec(tagOf, states, steps) && states[0] == s0 && LostUpdate(states[|steps|])
  {
    hide Enabled, Next;
    var was, other := s0.loose[name], name + "x";
    var is_ := if was == HashRef(0) then HashRef(1) else HashRef(0);
    var statesA, stepsA := CommitAlone(tagOf, s0, 0, name, is_);
    var s4 := statesA[4];
    var statesB, stepsB := CommitAlone(tagOf, s4, 1, other, is_);
    ExecJoin(tagOf, statesA, stepsA, statesB, stepsB);
    var s8 := statesB[4];
    assert s8.loose == s0.loose && s8.clients[0].phase == s8.clients[1].phase == Cleaning(s0.loose.Keys);
    var statesC, stepsC := CleanBoth(tagOf, s8);
    ExecJoin(tagOf, statesA + statesB[1..], stepsA + stepsB, statesC, stepsC);
    states, steps := statesA + statesB[1..] + statesC[1..], stepsA + stepsB + stepsC;
    var last := statesC[2];
    assert states[|steps|] == last;
    assert |other| != |name|;
    assert s4.log[0].after[name] == is_ && At(s8.packed.value, name) == Some(was);
    NamesOne(name, is_, name);
    NamesOne(other, is_, name);
    assert last.packed.value + map[] == last.packed.value;
    assert last.log == [s4.log[0], s8.log[1]] && last.log[0].client == 0;
    assert LostAt(last, 0, name);
  }

  lemma NamesOne(n: RefName, r: Ref, name: RefName)
    ensures Names(Batch([(n, r)], [], []), name) <==> name == n
  {
    assert (n, r) in [(n, r)];
    var sets := [(n, r)];
    assert sets[..0] == [];
  }

  /** Two clients that clean up the same keys, one after the other. */
  lemma CleanBoth(tagOf: Refs -> Tag, s: Store) returns (states: seq<Store>, steps: seq<Step>)
    requires s.clients.Keys == {0, 1} && s.clients[0].phase == s.clients[1].phase == Cleaning(s.loose.Keys)
    ensures IsExec(tagOf, states, steps) && |steps| == 2 && states[0] == s
    ensures states[2].packed == s.packed && states[2].loose == map[] && states[2].log == s.log
    ensures states[2].clients.Keys == {0, 1} && states[2].clients[0].phase == Done(Committed)
  {
    var s1 := Next(tagOf, s, CleanupOk(0));
    var s2 := Next(tagOf, s1, CleanupOk(1));
    states, steps := [s, s1, s2], [CleanupOk(0), CleanupOk(1)];
  }

  /** From an empty loose layer no committed update is gone, at the end of any execution. */
  lemma NothingLost(tagOf: Refs -> Tag, states: seq<Store>, steps: seq<Step>)
    requires Injective(tagOf) && IsRun(tagOf, states, steps)
    ensures !LostUpdate(states[|steps|])
  {
    hide Inv, IsExec;
    var n := |steps|;
    ExecLength(tagOf, states, steps);
    var s := states[n];
    forall i: nat, name | i < |s.log| && (forall k :: i < k < |s.log| ==> !Names(s.log[k].batch, name))
      ensures At(Content(s.packed) + s.loose, name) == At(s.log[i].after, name)
    {
      RunInv(tagOf, states, steps, n);
      NoLoose(tagOf, s, Content(states[0].packed));
      NoLostUpdate(tagOf, states, steps, n, i, |s.log| - 1, name);
    }
  }

  lemma ExecLength(tagOf: Refs -> Tag, states: seq<Store>, steps: seq<Step>)
    requires IsExec(tagOf, states, steps)
    ensures |states| == |steps| + 1
  {
  }

  lemma NoLoose(tagOf: Refs -> Tag, s: Store, init: Refs)
    requires Inv(tagOf, s, init) && s.log != []
    ensures Content(s.packed) + s.loose == s.log[|s.log| - 1].after
  {
    assert Content(s.packed) + map[] == Content(s.packed);
  }

  /** No execution from a store loses a committed update: that is so exactly when its loose layer is
      empty. */
  lemma LosslessIffNoLoose(tagOf: Refs -> Tag, s0: Store)
    requires Injective(tagOf) && s0.clients == map[] && s0.log == []
    ensures s0.loose == map[] <==> forall states, steps :: Execution(tagOf, s0, states, steps) ==> !LostUpdate(states[|steps|])
  {
    if s0.loose == map[] {
      forall states, steps | Execution(tagOf, s0, states, steps) ensures !LostUpdate(states[|steps|]) {
        NothingLost(tagOf, states, steps);
      }
    } else {
      var name :| name in s0.loose;
      var states, steps := LooseLayerLosesAnUpdate(tagOf, s0, name);
      assert Execution(tagOf, s0, states, steps);
    }
  }

  ghost predicate Execution(tagOf: Refs -> Tag, s0: Store, states: seq<Store>, steps: seq<Step>) {
    IsExec(tagOf, states, steps) && states[0] == s0
  }
}
