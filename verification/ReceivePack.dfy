/** The ref half of a push: the client's commands become one checked batch, and the commands that
    landed are reported to hooks and webhooks. */
module ReceivePack {
  import opened Prelude
  import opened RefSpec
  import R = RefStore

  /** A ref command. A zero hash means that the ref does not exist on that side. */
  datatype Command = Command(name: RefName, old_: Hash, new_: Hash)

  datatype Action = Create | Update | Delete | Invalid

  function ActionOf(c: Command): Action {
    if c.old_ == ZERO_HASH && c.new_ == ZERO_HASH then Invalid
    else if c.old_ == ZERO_HASH then Create
    else if c.new_ == ZERO_HASH then Delete
    else Update
  }

  /** The ref holds exactly this hash; for the zero hash, it does not exist. */
  predicate Holds(view: Refs, n: RefName, h: Hash) {
    if h == ZERO_HASH then n !in view else n in view && view[n] == HashRef(h)
  }

  /** The advertised old hash agrees with the current ref. */
  function ValidateRefCommand(view: Refs, c: Command): (ok: bool)
    ensures ok <==> ActionOf(c) != Invalid && Holds(view, c.name, c.old_)
  {
    match ActionOf(c)
    case Create => c.name !in view
    case Update => c.name in view && view[c.name].HashRef? && view[c.name].Value() == c.old_
    case Delete => c.name in view && view[c.name].HashRef? && view[c.name].Value() == c.old_
    case Invalid => false
  }

  /** The effective ref shows the command's new value. */
  function RefCommandVisible(view: Refs, c: Command): (ok: bool)
    ensures ok <==> Holds(view, c.name, c.new_)
  {
    if c.new_ == ZERO_HASH then c.name !in view
    else c.name in view && view[c.name].HashRef? && view[c.name].Value() == c.new_
  }

  function WantOf(n: RefName, h: Hash): Expectation {
    Expectation(n, if h == ZERO_HASH then None else Some(HashRef(h)), true)
  }

  function SetsOf(cs: seq<Command>): seq<(RefName, Ref)> {
    if cs == [] then []
    else
      var c := cs[|cs| - 1];
      SetsOf(cs[..|cs| - 1]) + if c.new_ != ZERO_HASH then [(c.name, HashRef(c.new_))] else []
  }

  function RemovesOf(cs: seq<Command>): seq<RefName> {
    if cs == [] then []
    else
      var c := cs[|cs| - 1];
      RemovesOf(cs[..|cs| - 1]) + if c.new_ == ZERO_HASH then [c.name] else []
  }

  ghost predicate DistinctNames(cs: seq<Command>) {
    forall i, j :: 0 <= i < j < |cs| ==> cs[i].name != cs[j].name
  }

  lemma LastSetNext(cs: seq<Command>, n: RefName)
    requires cs != []
    ensures var c, init := cs[|cs| - 1], cs[..|cs| - 1];
            LastSet(SetsOf(cs), n) == if c.new_ != ZERO_HASH && c.name == n then Some(HashRef(c.new_)) else LastSet(SetsOf(init), n)
  {
    var init := SetsOf(cs[..|cs| - 1]);
    if cs[|cs| - 1].new_ != ZERO_HASH {
      assert SetsOf(cs)[..|init|] == init;
    } else {
      assert SetsOf(cs) == init;
    }
  }

  lemma {:induction false} NotNamed(cs: seq<Command>, n: RefName)
    requires forall i :: 0 <= i < |cs| ==> cs[i].name != n
    ensures LastSet(SetsOf(cs), n) == None && n !in RemovesOf(cs)
  {
    if cs != [] {
      var init := cs[..|cs| - 1];
      NotNamed(init, n);
      LastSetNext(cs, n);
    }
  }

  /** With distinct names each staged command decides its own ref. */
  lemma {:induction false} StagedDecides(cs: seq<Command>, k: nat)
    requires DistinctNames(cs) && k < |cs|
    ensures var c := cs[k];
            && (c.name in RemovesOf(cs) <==> c.new_ == ZERO_HASH)
            && LastSet(SetsOf(cs), c.name) == (if c.new_ == ZERO_HASH then None else Some(HashRef(c.new_)))
  {
    hide SetsOf, RemovesOf, LastSet;
    var n := |cs| - 1;
    var init := cs[..n];
    LastSetNext(cs, cs[k].name);
    RemovesNext(cs, cs[k].name);
    if k < n {
      StagedDecides(init, k);
    } else {
      NotNamed(init, cs[k].name);
    }
  }

  lemma RemovesNext(cs: seq<Command>, n: RefName)
    requires cs != []
    ensures var c, init := cs[|cs| - 1], cs[..|cs| - 1];
            n in RemovesOf(cs) <==> n in RemovesOf(init) || (c.new_ == ZERO_HASH && c.name == n)
  {
  }

  /** A batch that landed on refs that met it moved each staged ref from its old hash to its new one. */
  lemma StagedTransition(b: Batch, staged: seq<Command>, before: Refs, k: nat)
    requires DistinctNames(staged) && k < |staged| && MeetsAll(before, b.wants)
    requires b.sets == SetsOf(staged) && b.removes == RemovesOf(staged)
    requires WantOf(staged[k].name, staged[k].old_) in b.wants
    ensures Holds(before, staged[k].name, staged[k].old_)
    ensures Holds(Apply(before, b), staged[k].name, staged[k].new_)
  {
    var c := staged[k];
    assert Meets(before, WantOf(c.name, c.old_));
    StagedDecides(staged, k);
    ApplyAt(before, b, c.name);
  }

  /** The outcome of a command: nil error or not. */
  type Status = map<RefName, bool>

  ghost predicate Staged(view: Refs, cmds: seq<Command>, staged: seq<Command>) {
    && (forall c :: c in staged <==> c in cmds && ValidateRefCommand(view, c))
    && (DistinctNames(cmds) ==> DistinctNames(staged))
  }

  ghost predicate Rejected(view: Refs, cmds: seq<Command>, status: Status) {
    && (forall n :: n in status ==> !status[n])
    && (forall c :: c in cmds && !ValidateRefCommand(view, c) ==> c.name in status)
  }

  lemma StagedNext(view: Refs, cmds: seq<Command>, staged: seq<Command>, cmd: Command)
    requires Staged(view, cmds, staged)
    ensures Staged(view, cmds + [cmd], if ValidateRefCommand(view, cmd) then staged + [cmd] else staged)
  {
    var all := cmds + [cmd];
    if DistinctNames(all) {
      forall i, j | 0 <= i < j < |cmds| ensures cmds[i].name != cmds[j].name {
        assert all[i].name != all[j].name;
      }
      if ValidateRefCommand(view, cmd) {
        var staged' := staged + [cmd];
        forall i, j | 0 <= i < j < |staged'| ensures staged'[i].name != staged'[j].name {
          if j == |staged| {
            assert staged[i] in cmds;
            var m :| 0 <= m < |cmds| && cmds[m] == staged[i];
            assert all[m].name != all[|cmds|].name;
          }
        }
      }
    }
  }

  /** Validates every command against the storer's view and stages the good ones. */
  method Stage(view: Refs, cmds: seq<Command>) returns (b: Batch, staged: seq<Command>, status: Status)
    ensures Staged(view, cmds, staged) && Rejected(view, cmds, status)
    ensures b.sets == SetsOf(staged) && b.removes == RemovesOf(staged)
    ensures DistinctNames(cmds) ==> forall k :: 0 <= k < |staged| ==> WantOf(staged[k].name, staged[k].old_) in b.wants
  {
    hide ValidateRefCommand, DistinctNames;
    var sets: seq<(RefName, Ref)> := [];
    var removes: seq<RefName> := [];
    var expected: map<RefName, Hash> := map[];
    staged, status := [], map[];
    NothingStaged(view);
    for i := 0 to |cmds|
      invariant Staged(view, cmds[..i], staged)
      invariant Rejected(view, cmds[..i], status)
      invariant sets == SetsOf(staged) && removes == RemovesOf(staged)
      invariant Expects(expected, staged)
    {
      var cmd := cmds[i];
      assert cmds[..i + 1] == cmds[..i] + [cmd];
      StagedNext(view, cmds[..i], staged, cmd);
      if !ValidateRefCommand(view, cmd) {
        status := status[cmd.name := false];
        continue;
      }
      if ActionOf(cmd) == Delete {
        removes := removes + [cmd.name];
      } else {
        sets := sets + [(cmd.name, HashRef(cmd.new_))];
      }
      ValidIsAction(view, cmd);
      assert (staged + [cmd])[..|staged|] == staged;
      ExpectsNext(expected, staged, cmd);
      staged := staged + [cmd];
      expected := expected[cmd.name := cmd.old_];
    }
    assert cmds[..|cmds|] == cmds;
    var wants := Expectations(expected);
    b := Batch(sets, removes, wants);
  }

  lemma NothingStaged(view: Refs)
    ensures Staged(view, [], [])
  {
  }

  lemma ValidIsAction(view: Refs, c: Command)
    requires ValidateRefCommand(view, c)
    ensures ActionOf(c) != Invalid
  {
  }

  ghost predicate Expects(expected: map<RefName, Hash>, staged: seq<Command>) {
    DistinctNames(staged) ==> forall c :: c in staged ==> c.name in expected && expected[c.name] == c.old_
  }

  lemma ExpectsNext(expected: map<RefName, Hash>, staged: seq<Command>, cmd: Command)
    requires Expects(expected, staged)
    ensures Expects(expected[cmd.name := cmd.old_], staged + [cmd])
  {
    var all := staged + [cmd];
    if DistinctNames(all) {
      forall i, j | 0 <= i < j < |staged| ensures staged[i].name != staged[j].name {
        assert all[i].name != all[j].name;
      }
      forall c | c in all ensures c.name in expected[cmd.name := cmd.old_] && expected[cmd.name := cmd.old_][c.name] == c.old_ {
        if c in staged {
          var m :| 0 <= m < |staged| && staged[m] == c;
          assert all[m].name != all[|staged|].name;
        }
      }
    }
  }

  /** The strict expectations of an expected-value map, in any order. */
  method Expectations(expected: map<RefName, Hash>) returns (wants: seq<Expectation>)
    ensures forall e :: e in wants <==> e.name in expected && e == WantOf(e.name, expected[e.name])
  {
    wants := [];
    var todo := expected.Keys;
    while todo != {}
      invariant todo <= expected.Keys
      invariant forall e :: e in wants <==> e.name in expected && e.name !in todo && e == WantOf(e.name, expected[e.name])
      decreases todo
    {
      var n :| n in todo;
      wants := wants + [WantOf(n, expected[n])];
      todo := todo - {n};
    }
  }

  /** What the storer's checked update returned: nothing was committed, the commit is clean, or it
      landed and its cleanup failed, when `seen` is what a fresh read of the refs shows. */
  datatype Answer = Refused | Clean | Dirty(seen: Refs)

  /** Whether a staged command is reported as done. */
  predicate Landed(answer: Answer, cmd: Command) {
    answer.Clean? || (answer.Dirty? && RefCommandVisible(answer.seen, cmd))
  }

  function NamesIn(cmds: seq<Command>): set<RefName> {
    set c | c in cmds :: c.name
  }

  function Reported(staged: seq<Command>, answer: Answer, rejected: Status): Status {
    if staged == [] then rejected
    else
      var n := |staged| - 1;
      Reported(staged[..n], answer, rejected)[staged[n].name := Landed(answer, staged[n])]
  }

  lemma {:induction false} ReportedKeys(staged: seq<Command>, answer: Answer, rejected: Status)
    ensures Reported(staged, answer, rejected).Keys == rejected.Keys + NamesIn(staged)
    ensures forall n <- rejected :: n !in NamesIn(staged) ==> Reported(staged, answer, rejected)[n] == rejected[n]
  {
    hide Landed;
    if staged != [] {
      var n := |staged| - 1;
      assert staged == staged[..n] + [staged[n]];
      ReportedKeys(staged[..n], answer, rejected);
    }
  }

  lemma {:induction false} ReportedAt(staged: seq<Command>, answer: Answer, rejected: Status, k: nat)
    requires DistinctNames(staged) && k < |staged|
    ensures staged[k].name in Reported(staged, answer, rejected)
    ensures Reported(staged, answer, rejected)[staged[k].name] == Landed(answer, staged[k])
  {
    hide Landed;
    var n := |staged| - 1;
    if k < n {
      ReportedAt(staged[..n], answer, rejected, k);
    }
  }

  lemma {:induction false} NoneReported(staged: seq<Command>, answer: Answer, rejected: Status)
    requires answer.Refused? && forall n <- rejected :: !rejected[n]
    ensures forall n <- Reported(staged, answer, rejected) :: !Reported(staged, answer, rejected)[n]
  {
    if staged != [] {
      NoneReported(staged[..|staged| - 1], answer, rejected);
    }
  }

  /** What a staged command is told: success after a clean commit, failure when nothing was committed,
      and when only the cleanup failed, whether its new value is what a fresh read shows. */
  ghost predicate Told(status: Status, answer: Answer, c: Command) {
    && c.name in status
    && match answer {
         case Clean => status[c.name]
         case Dirty(seen) => status[c.name] <==> Holds(seen, c.name, c.new_)
         case Refused => !status[c.name]
       }
  }

  lemma StagedAreTold(staged: seq<Command>, answer: Answer, rejected: Status)
    requires DistinctNames(staged)
    ensures forall c <- staged :: Told(Reported(staged, answer, rejected), answer, c)
  {
    hide DistinctNames, Reported, Holds;
    forall c | c in staged ensures Told(Reported(staged, answer, rejected), answer, c) {
      var k :| 0 <= k < |staged| && staged[k] == c;
      ReportedAt(staged, answer, rejected, k);
    }
  }

  /** Fills in the status of the staged commands. */
  method Report(staged: seq<Command>, answer: Answer, rejected: Status) returns (status: Status)
    ensures status.Keys == rejected.Keys + NamesIn(staged)
    ensures forall n <- rejected :: n !in NamesIn(staged) ==> status[n] == rejected[n]
    ensures DistinctNames(staged) ==> forall c <- staged :: Told(status, answer, c)
    ensures answer.Refused? && (forall n <- rejected :: !rejected[n]) ==> forall n <- status :: !status[n]
  {
    hide Landed, Told, DistinctNames;
    status := rejected;
    for i := 0 to |staged|
      invariant status == Reported(staged[..i], answer, rejected)
    {
      assert staged[..i + 1][..i] == staged[..i];
      status := status[staged[i].name := Landed(answer, staged[i])];
    }
    assert staged[..|staged|] == staged;
    ReportedKeys(staged, answer, rejected);
    if DistinctNames(staged) {
      StagedAreTold(staged, answer, rejected);
    }
    if answer.Refused? && forall n <- rejected :: !rejected[n] {
      NoneReported(staged, answer, rejected);
    }
  }

  /** The updates handed to hooks and webhooks: the commands that landed and changed something, in
      the order of the commands. */
  method SuccessfulRefUpdates(cmds: seq<Command>, status: Status) returns (updates: seq<Command>, ghost places: seq<nat>)
    ensures forall c :: c in updates <==> c in cmds && c.name in status && status[c.name] && c.old_ != c.new_
    ensures TakenInOrder(cmds, updates, places)
  {
    updates, places := [], [];
    for i := 0 to |cmds|
      invariant forall c :: c in updates <==> c in cmds[..i] && c.name in status && status[c.name] && c.old_ != c.new_
      invariant TakenInOrder(cmds, updates, places) && forall k :: 0 <= k < |places| ==> places[k] < i
    {
      if cmds[i].name in status && status[cmds[i].name] && cmds[i].old_ != cmds[i].new_ {
        updates, places := updates + [cmds[i]], places + [i];
      }
    }
  }

  /** `part` are the commands at these places, which go up. */
  ghost predicate TakenInOrder(cmds: seq<Command>, part: seq<Command>, places: seq<nat>) {
    && |places| == |part| && (forall k :: 0 <= k < |part| ==> places[k] < |cmds| && part[k] == cmds[places[k]])
    && forall k, m :: 0 <= k < m < |places| ==> places[k] < places[m]
  }

  /** The answer tells the client's outcome in the ref store. */
  ghost predicate Tells(answer: Answer, outcome: R.Outcome) {
    match answer
    case Refused => true
    case Clean => outcome == R.Committed
    case Dirty(_) => outcome == R.CleanupFailed
  }

  /** Every update reported to hooks is a true transition: one version of the packed refs, written by
      this push, moved the ref from exactly the reported old value to exactly the reported new one.
      It holds for pushes with distinct ref names, beside any number of concurrent pushes, and also
      when the cleanup after the commit failed. */
  lemma HooksSeeTrueTransitions(tagOf: Refs -> R.Tag, states: seq<R.Store>, steps: seq<R.Step>, n: nat, client: R.Client,
                                view: Refs, cmds: seq<Command>, staged: seq<Command>, rejected: Status, answer: Answer, status: Status, u: Command)
    returns (i: nat)
    requires R.Injective(tagOf) && R.IsRun(tagOf, states, steps) && n < |states|
    requires client in states[n].clients && states[n].clients[client].phase.Done?
    requires DistinctNames(cmds) && Staged(view, cmds, staged) && Rejected(view, cmds, rejected)
    requires var b := states[n].clients[client].batch;
             b.sets == SetsOf(staged) && b.removes == RemovesOf(staged) &&
             forall k :: 0 <= k < |staged| ==> WantOf(staged[k].name, staged[k].old_) in b.wants
    requires Tells(answer, states[n].clients[client].phase.outcome)
    requires answer.Refused? ==> forall m :: m in status ==> !status[m]
    requires forall m :: m in rejected && (forall c :: c in staged ==> c.name != m) ==> m in status && status[m] == rejected[m]
    requires u in cmds && u.name in status && status[u.name] && u.old_ != u.new_
    ensures i < |states[n].log| && states[n].log[i].client == client
    ensures Holds(states[n].log[i].before, u.name, u.old_) && Holds(states[n].log[i].after, u.name, u.new_)
  {
    hide R.IsRun, R.Injective, ValidateRefCommand, SetsOf, RemovesOf;
    assert u in staged by { ReportedWasStaged(view, cmds, staged, rejected, status, u); }
    var k :| 0 <= k < |staged| && staged[k] == u;
    R.OutcomesAreTrue(tagOf, states, steps, n, client);
    i :| i < |states[n].log| && states[n].log[i].client == client && states[n].log[i].batch == states[n].clients[client].batch;
    R.CommitsAreLinear(tagOf, states, steps, n, i);
    StagedTransition(states[n].log[i].batch, staged, states[n].log[i].before, k);
  }

  lemma ReportedWasStaged(view: Refs, cmds: seq<Command>, staged: seq<Command>, rejected: Status, status: Status, u: Command)
    requires DistinctNames(cmds) && Staged(view, cmds, staged) && Rejected(view, cmds, rejected)
    requires forall m :: m in rejected && (forall c :: c in staged ==> c.name != m) ==> m in status && status[m] == rejected[m]
    requires u in cmds && u.name in status && status[u.name]
    ensures u in staged
  {
    forall c | c in staged && c.name == u.name ensures c == u {
      OneOfAName(cmds, u, c);
    }
  }

  /** A run of the ref store, a moment in it, and the client that is this push. */
  datatype Execution = Execution(states: seq<R.Store>, steps: seq<R.Step>, n: nat, client: R.Client)

  /** By then the client has committed this batch, and was answered so. */
  ghost predicate Commits(tagOf: Refs -> R.Tag, e: Execution, b: Batch, answer: Answer) {
    && R.IsRun(tagOf, e.states, e.steps) && e.n < |e.states| && e.client in e.states[e.n].clients
    && e.states[e.n].clients[e.client].batch == b && e.states[e.n].clients[e.client].phase.Done?
    && Tells(answer, e.states[e.n].clients[e.client].phase.outcome)
  }

  /** One version of the packed refs, written by the push, moved the ref from the old value to the new. */
  ghost predicate TrueTransition(e: Execution, u: Command) {
    exists i :: LandedIn(e, u, i)
  }

  ghost predicate LandedIn(e: Execution, u: Command, i: int) {
    && e.n < |e.states| && 0 <= i < |e.states[e.n].log| && e.states[e.n].log[i].client == e.client
    && Holds(e.states[e.n].log[i].before, u.name, u.old_) && Holds(e.states[e.n].log[i].after, u.name, u.new_)
  }

  /** The command was accepted and carried out. */
  ghost predicate Succeeded(view: Refs, answer: Answer, c: Command) {
    ValidateRefCommand(view, c) && (answer.Clean? || (answer.Dirty? && Holds(answer.seen, c.name, c.new_)))
  }

  /** The whole of it: the commands are staged, the batch is committed in whatever run of the store it
      meets, and what is handed to hooks and webhooks, in the order of the commands, is exactly what was
      carried out and changed something: true transitions of that run. */
  method PushRefs(tagOf: Refs -> R.Tag, ghost store: Batch -> Execution, answers: Batch -> Answer, view: Refs, cmds: seq<Command>)
    returns (updates: seq<Command>, status: Status, b: Batch, ghost places: seq<nat>)
    requires R.Injective(tagOf) && DistinctNames(cmds)
    requires forall b: Batch :: b.sets != [] || b.removes != [] ==> Commits(tagOf, store(b), b, answers(b))
    ensures forall u <- updates :: u in cmds && TrueTransition(store(b), u)
    ensures forall c <- cmds :: c.name in status && (status[c.name] <==> Succeeded(view, answers(b), c))
    ensures forall c <- cmds :: c in updates <==> Succeeded(view, answers(b), c) && c.old_ != c.new_
    ensures TakenInOrder(cmds, updates, places)
  {
    hide R.IsRun, R.Injective, DistinctNames, Staged, Rejected, Holds, SetsOf, RemovesOf, Told, Succeeded, TakenInOrder;
    var batch, staged, rejected := Stage(view, cmds);
    b := batch;
    if staged == [] {
      status := rejected;
      updates, places := SuccessfulRefUpdates(cmds, rejected);
      StatusOfRejected(view, answers(b), cmds, staged, rejected);
      return;
    }
    SomethingStaged(staged);
    var answer := answers(batch);
    assert Commits(tagOf, store(batch), batch, answer);
    status := Report(staged, answer, rejected);
    StatusIsTrue(view, answer, cmds, staged, rejected, status);
    updates, places := SuccessfulRefUpdates(cmds, status);
    forall u <- updates ensures u in cmds && TrueTransition(store(b), u) {
      var e := store(b);
      NothingRejected(view, cmds, rejected);
      var i := HooksSeeTrueTransitions(tagOf, e.states, e.steps, e.n, e.client, view, cmds, staged, rejected, answer, status, u);
      assert LandedIn(e, u, i);
    }
  }

  lemma StatusOfRejected(view: Refs, answer: Answer, cmds: seq<Command>, staged: seq<Command>, rejected: Status)
    requires Staged(view, cmds, staged) && Rejected(view, cmds, rejected) && staged == []
    ensures forall c <- cmds :: !Succeeded(view, answer, c) && c.name in rejected && !rejected[c.name]
  {
    forall c | c in cmds ensures !ValidateRefCommand(view, c) {
      assert c !in staged;
    }
  }

  /** Every command is told whether it was carried out. */
  lemma StatusIsTrue(view: Refs, answer: Answer, cmds: seq<Command>, staged: seq<Command>, rejected: Status, status: Status)
    requires DistinctNames(cmds) && Staged(view, cmds, staged) && Rejected(view, cmds, rejected)
    requires status.Keys == rejected.Keys + NamesIn(staged)
    requires forall n <- rejected :: n !in NamesIn(staged) ==> status[n] == rejected[n]
    requires DistinctNames(staged) ==> forall c <- staged :: Told(status, answer, c)
    ensures forall c <- cmds :: c.name in status && (status[c.name] <==> Succeeded(view, answer, c))
  {
    hide ValidateRefCommand, Holds;
    forall c | c in cmds ensures c.name in status && (status[c.name] <==> Succeeded(view, answer, c)) {
      if c !in staged && c.name in NamesIn(staged) {
        var s :| s in staged && s.name == c.name;
        OneOfAName(cmds, c, s);
      }
    }
  }

  lemma OneOfAName(cmds: seq<Command>, c: Command, d: Command)
    requires DistinctNames(cmds) && c in cmds && d in cmds && c.name == d.name
    ensures c == d
  {
    var i :| 0 <= i < |cmds| && cmds[i] == c;
    var j :| 0 <= j < |cmds| && cmds[j] == d;
    assert i == j;
  }

  lemma NothingRejected(view: Refs, cmds: seq<Command>, status: Status)
    requires Rejected(view, cmds, status)
    ensures forall n <- status :: !status[n]
  {
  }

  lemma SomethingStaged(cs: seq<Command>)
    requires cs != []
    ensures SetsOf(cs) != [] || RemovesOf(cs) != []
  {
  }
}
