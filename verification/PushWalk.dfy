/** The commit walks of a push event: everything the old tip reaches, then every new commit. */
module PushWalk {
  import opened Prelude
  import opened CommitGraph

  datatype WalkResult<+T> = Walked(value: T) | MissingCommit(hash: Hash) | Cancelled

  /** Every commit reachable from `tip`, or nothing when there is no tip. */
  method Reachable(g: Commits, tip: Option<Hash>) returns (r: WalkResult<set<Hash>>)
    ensures r.Walked? && tip.Some? ==> forall h :: h in r.value <==> Reaches(g, tip.value, h)
    ensures r.Walked? && tip.Some? ==> r.value <= g.Keys
    ensures r.Walked? && tip.None? ==> r.value == {}
    ensures r.MissingCommit? ==> tip.Some? && Reaches(g, tip.value, r.hash) && r.hash !in g
  {
    hide Visiting, Reaches;
    var seen: set<Hash> := {};
    if tip.None? {
      return Walked(seen);
    }
    var stack := [tip.value];
    VisitStarts(g, tip.value);
    while |stack| != 0
      invariant Visiting(g, tip.value, seen, stack)
      decreases |g.Keys - seen|, |stack|
    {
      if * {
        return Cancelled;
      }
      var hash := stack[|stack| - 1];
      VisitTop(g, tip.value, seen, stack);
      stack := stack[..|stack| - 1];
      if hash in seen {
        continue;
      }
      if hash !in g {
        return MissingCommit(hash);
      }
      assert g.Keys - (seen + {hash}) == (g.Keys - seen) - {hash};
      seen := seen + {hash};
      stack := stack + g[hash];
    }
    VisitDone(g, tip.value, seen);
    r := Walked(seen);
  }

  /** Everything seen or stacked is reached, and every parent of what was seen is one or the other. */
  ghost predicate Visiting(g: Commits, tip: Hash, seen: set<Hash>, stack: seq<Hash>) {
    && seen <= g.Keys && (tip in seen || tip in stack)
    && (forall h :: h in seen || h in stack ==> Reaches(g, tip, h))
    && (forall h, q :: h in seen && Edge(g, h, q) ==> q in seen || q in stack)
  }

  lemma VisitStarts(g: Commits, tip: Hash)
    ensures Visiting(g, tip, {}, [tip])
  {
    ReachesSelf(g, tip);
  }

  lemma VisitTop(g: Commits, tip: Hash, seen: set<Hash>, stack: seq<Hash>)
    requires Visiting(g, tip, seen, stack) && stack != []
    ensures var hash, rest := stack[|stack| - 1], stack[..|stack| - 1];
            && Reaches(g, tip, hash) && seen <= g.Keys
            && (hash in seen ==> Visiting(g, tip, seen, rest))
            && (hash !in seen && hash in g ==> Visiting(g, tip, seen + {hash}, rest + g[hash]))
  {
    hide Reaches;
    var hash, rest := stack[|stack| - 1], stack[..|stack| - 1];
    assert stack == rest + [hash];
    assert forall h :: h in stack <==> h in rest || h == hash;
    if hash in g {
      forall q | q in g[hash] ensures Reaches(g, tip, q) {
        ReachesParent(g, tip, hash, q);
      }
    }
  }

  lemma VisitDone(g: Commits, tip: Hash, seen: set<Hash>)
    requires Visiting(g, tip, seen, [])
    ensures seen <= g.Keys && forall h :: h in seen <==> Reaches(g, tip, h)
  {
    hide Reaches;
    forall h | Reaches(g, tip, h) ensures h in seen {
      ClosedHoldsReachable(g, seen, {}, tip, h);
    }
  }

  datatype Frame = Frame(commit: Hash, next: nat)

  /** The new commits of one ref update, oldest first, and whether the update was a fast-forward. */
  datatype NewCommits = NewCommits(ordered: seq<Hash>, oldIsAncestor: bool)

  /** `excluded` is what the old tip reaches; with no old tip it is empty and `old` names no commit. */
  ghost predicate ExcludedBy(g: Commits, old_: Hash, excluded: set<Hash>) {
    || (forall h :: h in excluded <==> Reaches(g, old_, h))
    || (excluded == {} && old_ !in g)
  }

  /** Every parent of every listed commit is excluded or listed earlier. */
  ghost predicate ParentsFirst(g: Commits, ordered: seq<Hash>, excluded: set<Hash>) {
    forall i, q :: 0 <= i < |ordered| && Edge(g, ordered[i], q) ==> q in excluded || q in ordered[..i]
  }

  function Hashes(stack: seq<Frame>): (p: seq<Hash>)
    ensures |p| == |stack| && forall i :: 0 <= i < |p| ==> p[i] == stack[i].commit
  {
    seq(|stack|, i requires 0 <= i < |stack| => stack[i].commit)
  }

  ghost function Work(g: Commits, stack: seq<Frame>): nat
  {
    if stack == [] then 0
    else
      var f := stack[|stack| - 1];
      var rest := if f.commit in g && f.next <= |g[f.commit]| then |g[f.commit]| - f.next else 0;
      1 + rest + Work(g, stack[..|stack| - 1])
  }

  /** No parent of the top frame is on the stack, so one that was seen before is finished. */
  lemma ParentOffStack(g: Commits, stack: seq<Frame>, q: Hash)
    requires Acyclic(g) && |stack| > 0 && IsPath(g, Hashes(stack))
    requires Edge(g, stack[|stack| - 1].commit, q)
    ensures q !in Hashes(stack)
  {
    var p := Hashes(stack);
    forall j | 0 <= j < |p| ensures p[j] != q {
      var tail := p[j..];
      forall i | 0 <= i < |tail| - 1 ensures Edge(g, tail[i], tail[i + 1]) {
        assert Edge(g, p[j + i], p[j + i + 1]);
      }
      assert IsPath(g, tail + [q]);
    }
  }

  /** Pruning at excluded commits never hides the old tip: the walk meets it as somebody's parent. */
  lemma {:induction false} OldSeenAsParent(g: Commits, listed: set<Hash>, old_: Hash, excluded: set<Hash>, p: seq<Hash>)
    requires Acyclic(g) && IsPath(g, p) && |p| > 1 && p[|p| - 1] == old_ && p[0] in listed
    requires forall h :: h in excluded <==> Reaches(g, old_, h)
    requires forall h, q :: h in listed && Edge(g, h, q) ==> q in listed || q in excluded
    requires old_ !in listed
    ensures exists h :: h in listed && Edge(g, h, old_)
    decreases |p|
  {
    var rest := p[1..];
    assert Edge(g, p[0], p[1]);
    forall i | 0 <= i < |rest| - 1 ensures Edge(g, rest[i], rest[i + 1]) {
      assert Edge(g, p[i + 1], p[i + 2]);
    }
    assert PathFromTo(g, rest, p[1], old_);
    if p[1] in listed {
      OldSeenAsParent(g, listed, old_, excluded, rest);
    } else {
      MutualReachIsEqual(g, p[1], old_);
    }
  }

  /** What every turn of the walk keeps. */
  ghost predicate Walking(g: Commits, tip: Hash, old_: Hash, excluded: set<Hash>,
                          stack: seq<Frame>, ordered: seq<Hash>, seen: set<Hash>, flag: bool)
  {
    && (forall f :: f in stack ==> f.commit in g && f.next <= |g[f.commit]|)
    && (if stack == [] then tip in ordered else IsPath(g, Hashes(stack)) && stack[0].commit == tip)
    && (forall h :: h in seen <==> h != tip && (h in ordered || h in Hashes(stack)))
    && seen !! excluded && seen <= g.Keys
    && NoDup(ordered) && (forall h :: h in Hashes(stack) ==> h !in ordered)
    && (forall h :: h in ordered || h in Hashes(stack) ==> Reaches(g, tip, h))
    && ParentsFirst(g, ordered, excluded)
    && (forall k :: 0 <= k < |stack| ==> Passed(g, old_, excluded, stack, k, ordered, flag))
    && (flag ==> Reaches(g, tip, old_))
    && (forall h :: h in ordered && Edge(g, h, old_) ==> flag)
  }

  /** The parents frame `k` has passed are excluded, listed, or the frame above it, and the old
      tip is not among them unless the flag says so. */
  ghost predicate Passed(g: Commits, old_: Hash, excluded: set<Hash>,
                         stack: seq<Frame>, k: nat, ordered: seq<Hash>, flag: bool)
    requires k < |stack|
  {
    stack[k].commit in g && stack[k].next <= |g[stack[k].commit]| &&
    forall j :: 0 <= j < stack[k].next ==>
      var q := g[stack[k].commit][j];
      && (q in excluded || q in ordered || (k + 1 < |stack| && q == stack[k + 1].commit))
      && (q == old_ ==> flag)
  }

  ghost function NextParent(g: Commits, stack: seq<Frame>): Option<Hash>
    requires stack != [] && stack[|stack| - 1].commit in g
  {
    var f := stack[|stack| - 1];
    if f.next < |g[f.commit]| then Some(g[f.commit][f.next]) else None
  }

  /** The flag after the top frame and its next parent were compared with the old tip. */
  ghost predicate MeetsOld(g: Commits, old_: Hash, stack: seq<Frame>, flag: bool)
    requires stack != [] && stack[|stack| - 1].commit in g
  {
    flag || stack[|stack| - 1].commit == old_ || NextParent(g, stack) == Some(old_)
  }

  lemma WalkStarts(g: Commits, tip: Hash, old_: Hash, excluded: set<Hash>)
    requires tip in g
    ensures Walking(g, tip, old_, excluded, [Frame(tip, 0)], [], {}, false)
  {
    ReachesSelf(g, tip);
    assert Hashes([Frame(tip, 0)]) == [tip];
  }

  lemma TopIsReached(g: Commits, tip: Hash, old_: Hash, excluded: set<Hash>,
                     stack: seq<Frame>, ordered: seq<Hash>, seen: set<Hash>, flag: bool)
    requires Walking(g, tip, old_, excluded, stack, ordered, seen, flag) && stack != []
    ensures stack[|stack| - 1].commit in g && Reaches(g, tip, stack[|stack| - 1].commit)
  {
    assert Hashes(stack)[|stack| - 1] == stack[|stack| - 1].commit;
  }

  lemma StepSkip(g: Commits, tip: Hash, old_: Hash, excluded: set<Hash>,
                 stack: seq<Frame>, ordered: seq<Hash>, seen: set<Hash>, flag: bool, flag': bool)
    requires Acyclic(g) && Walking(g, tip, old_, excluded, stack, ordered, seen, flag) && stack != []
    requires NextParent(g, stack).Some? && flag' == MeetsOld(g, old_, stack, flag)
    requires NextParent(g, stack).value in excluded || NextParent(g, stack).value in seen
    ensures var f := stack[|stack| - 1];
            var stack' := stack[|stack| - 1 := Frame(f.commit, f.next + 1)];
            Walking(g, tip, old_, excluded, stack', ordered, seen, flag') && Work(g, stack') < Work(g, stack)
  {
    hide Reaches, Acyclic;
    var top := |stack| - 1;
    var f := stack[top];
    var q := g[f.commit][f.next];
    var stack' := stack[top := Frame(f.commit, f.next + 1)];
    assert Hashes(stack') == Hashes(stack);
    assert stack'[..top] == stack[..top];
    assert Edge(g, f.commit, q);
    assert f.commit in Hashes(stack) by { assert Hashes(stack)[top] == f.commit; }
    ReachesParent(g, tip, f.commit, q);
    ParentOffStack(g, stack, q);
    forall k | 0 <= k < |stack'| ensures Passed(g, old_, excluded, stack', k, ordered, flag') {
      assert Passed(g, old_, excluded, stack, k, ordered, flag);
    }
  }

  lemma StepPush(g: Commits, tip: Hash, old_: Hash, excluded: set<Hash>,
                 stack: seq<Frame>, ordered: seq<Hash>, seen: set<Hash>, flag: bool, flag': bool)
    requires Acyclic(g) && Walking(g, tip, old_, excluded, stack, ordered, seen, flag) && stack != []
    requires NextParent(g, stack).Some? && flag' == MeetsOld(g, old_, stack, flag)
    requires NextParent(g, stack).value !in excluded && NextParent(g, stack).value !in seen
    requires NextParent(g, stack).value in g
    ensures var f := stack[|stack| - 1];
            var q := g[f.commit][f.next];
            var stack' := stack[|stack| - 1 := Frame(f.commit, f.next + 1)] + [Frame(q, 0)];
            Walking(g, tip, old_, excluded, stack', ordered, seen + {q}, flag')
  {
    hide Reaches, Acyclic;
    var top := |stack| - 1;
    var f := stack[top];
    var q := g[f.commit][f.next];
    var stack' := stack[top := Frame(f.commit, f.next + 1)] + [Frame(q, 0)];
    assert Hashes(stack') == Hashes(stack) + [q];
    assert Edge(g, f.commit, q);
    assert f.commit in Hashes(stack) by { assert Hashes(stack)[top] == f.commit; }
    ReachesParent(g, tip, f.commit, q);
    ParentOffStack(g, stack, q);
    assert tip in Hashes(stack) by { assert Hashes(stack)[0] == tip; }
    forall k | 0 <= k < |stack'| ensures Passed(g, old_, excluded, stack', k, ordered, flag') {
      if k < |stack| {
        assert Passed(g, old_, excluded, stack, k, ordered, flag);
      }
    }
  }

  lemma StepPop(g: Commits, tip: Hash, old_: Hash, excluded: set<Hash>,
                stack: seq<Frame>, ordered: seq<Hash>, seen: set<Hash>, flag: bool, flag': bool)
    requires Acyclic(g) && Walking(g, tip, old_, excluded, stack, ordered, seen, flag) && stack != []
    requires NextParent(g, stack).None? && flag' == MeetsOld(g, old_, stack, flag)
    ensures var stack' := stack[..|stack| - 1];
            var ordered' := ordered + [stack[|stack| - 1].commit];
            Walking(g, tip, old_, excluded, stack', ordered', seen, flag') && Work(g, stack') < Work(g, stack)
  {
    hide Reaches, Acyclic;
    var top := |stack| - 1;
    var c := stack[top].commit;
    var stack' := stack[..top];
    var ordered' := ordered + [c];
    StackDistinct(g, stack);
    var p, p' := Hashes(stack), Hashes(stack');
    assert p == p' + [c];
    assert c in p by { assert p[top] == c; }
    assert Passed(g, old_, excluded, stack, top, ordered, flag);
    if stack' != [] {
      forall i | 0 <= i < |p'| - 1 ensures Edge(g, p'[i], p'[i + 1]) {
        assert Edge(g, p[i], p[i + 1]);
      }
    }
    forall i, q | 0 <= i < |ordered'| && Edge(g, ordered'[i], q) ensures q in excluded || q in ordered'[..i] {
      assert ordered'[..i] == ordered[..i];
      if i == |ordered| {
        assert ordered[..i] == ordered;
      }
    }
    forall k | 0 <= k < |stack'| ensures Passed(g, old_, excluded, stack', k, ordered', flag') {
      assert Passed(g, old_, excluded, stack, k, ordered, flag);
    }
  }

  lemma StackDistinct(g: Commits, stack: seq<Frame>)
    requires Acyclic(g) && |stack| > 0 && IsPath(g, Hashes(stack))
    ensures forall i, j :: 0 <= i < j < |stack| ==> stack[i].commit != stack[j].commit
  {
    var p := Hashes(stack);
    forall i, j | 0 <= i < j < |p| ensures p[i] != p[j] {
      var mid := p[i..j + 1];
      forall k | 0 <= k < |mid| - 1 ensures Edge(g, mid[k], mid[k + 1]) {
        assert Edge(g, p[i + k], p[i + k + 1]);
      }
      assert IsPath(g, mid);
    }
  }

  /** With the stack empty the list is complete and the flag is exact. */
  lemma StepsDone(g: Commits, tip: Hash, old_: Hash, excluded: set<Hash>,
                  ordered: seq<Hash>, seen: set<Hash>, flag: bool)
    requires Acyclic(g) && tip in g && tip != old_ && ExcludedBy(g, old_, excluded)
    requires Walking(g, tip, old_, excluded, [], ordered, seen, flag)
    ensures forall h :: h in ordered <==> h == tip || (Reaches(g, tip, h) && h !in excluded)
    ensures flag <==> Reaches(g, tip, old_)
    ensures NoDup(ordered) && ParentsFirst(g, ordered, excluded)
  {
    var listed := set h | h in ordered;
    forall h, q | h in listed && Edge(g, h, q) ensures q in listed || q in excluded {
      var i :| 0 <= i < |ordered| && ordered[i] == h;
      assert q in excluded || q in ordered[..i];
    }
    forall h, q | h in excluded && Edge(g, h, q) ensures q in excluded {
      if Reaches(g, old_, h) {
        ReachesParent(g, old_, h, q);
      }
    }
    forall h | Reaches(g, tip, h) ensures h in ordered || h in excluded {
      ClosedHoldsReachable(g, listed, excluded, tip, h);
    }
    if Reaches(g, tip, old_) {
      OldIsMet(g, tip, old_, excluded, listed);
    }
  }

  lemma OldIsMet(g: Commits, tip: Hash, old_: Hash, excluded: set<Hash>, listed: set<Hash>)
    requires Acyclic(g) && tip != old_ && ExcludedBy(g, old_, excluded)
    requires tip in listed && listed <= g.Keys && Reaches(g, tip, old_)
    requires forall h :: h in listed ==> h == tip || h !in excluded
    requires forall h, q :: h in listed && Edge(g, h, q) ==> q in listed || q in excluded
    requires old_ in listed || old_ in excluded
    ensures exists h :: h in listed && Edge(g, h, old_)
  {
    ReachesSelf(g, old_);
    var p :| PathFromTo(g, p, tip, old_);
    OldSeenAsParent(g, listed, old_, excluded, p);
  }

  lemma NothingNew(g: Commits, excluded: set<Hash>)
    ensures NoDup<Hash>([]) && ParentsFirst(g, [], excluded)
  {
  }

  /** The post-order walk. It lists the commits the tip reaches and the old tip does not, each
      once and parents first. A tip the old commit already reaches is listed all the same. */
  method CollectNew(g: Commits, tip: Hash, old_: Hash, excluded: set<Hash>) returns (r: WalkResult<NewCommits>)
    requires Acyclic(g) && tip in g && ExcludedBy(g, old_, excluded)
    ensures r.Walked? && tip == old_ ==> r.value == NewCommits([], true)
    ensures r.Walked? && tip != old_ ==>
              forall h :: h in r.value.ordered <==> h == tip || (Reaches(g, tip, h) && h !in excluded)
    ensures r.Walked? ==> NoDup(r.value.ordered)
    ensures r.Walked? ==> ParentsFirst(g, r.value.ordered, excluded)
    ensures r.Walked? ==> (r.value.oldIsAncestor <==> Reaches(g, tip, old_))
    ensures r.Walked? ==> (Exact(g, tip, excluded, r.value.ordered) <==> tip == old_ || tip !in excluded)
    ensures r.Walked? && tip != old_ && tip in excluded ==> r.value.ordered == [tip]
    ensures r.MissingCommit? ==> Reaches(g, tip, r.hash) && r.hash !in g
  {
    hide Walking, Reaches, Acyclic, ExcludedBy, ParentsFirst, NoDup, Exact;
    ReachesSelf(g, tip);
    if tip == old_ {
      NothingNew(g, excluded);
      ExactUnlessRewound(g, tip, old_, excluded, []);
      return Walked(NewCommits([], true));
    }
    var ordered: seq<Hash> := [];
    var stack := [Frame(tip, 0)];
    var seen: set<Hash> := {};
    var oldIsAncestor := false;
    WalkStarts(g, tip, old_, excluded);
    while |stack| != 0
      invariant Walking(g, tip, old_, excluded, stack, ordered, seen, oldIsAncestor)
      decreases |g.Keys - seen|, Work(g, stack)
    {
      if * {
        return Cancelled;
      }
      var top := |stack| - 1;
      var current := stack[top];
      TopIsReached(g, tip, old_, excluded, stack, ordered, seen, oldIsAncestor);
      ghost var flag := oldIsAncestor;
      if current.commit == old_ {
        oldIsAncestor := true;
      }
      if current.next < |g[current.commit]| {
        var parent := g[current.commit][current.next];
        if parent == old_ {
          oldIsAncestor := true;
        }
        if parent in excluded || parent in seen {
          StepSkip(g, tip, old_, excluded, stack, ordered, seen, flag, oldIsAncestor);
          stack := stack[top := Frame(current.commit, current.next + 1)];
          continue;
        }
        if parent !in g {
          ReachesParent(g, tip, current.commit, parent);
          return MissingCommit(parent);
        }
        StepPush(g, tip, old_, excluded, stack, ordered, seen, flag, oldIsAncestor);
        assert g.Keys - (seen + {parent}) == (g.Keys - seen) - {parent};
        seen := seen + {parent};
        stack := stack[top := Frame(current.commit, current.next + 1)] + [Frame(parent, 0)];
        continue;
      }
      StepPop(g, tip, old_, excluded, stack, ordered, seen, flag, oldIsAncestor);
      ordered := ordered + [current.commit];
      stack := stack[..top];
    }
    StepsDone(g, tip, old_, excluded, ordered, seen, oldIsAncestor);
    ExactUnlessRewound(g, tip, old_, excluded, ordered);
    r := Walked(NewCommits(ordered, oldIsAncestor));
  }

  /** The list is what the new tip reaches and the old one does not. */
  ghost predicate Exact(g: Commits, tip: Hash, excluded: set<Hash>, ordered: seq<Hash>) {
    forall h :: h in ordered <==> Reaches(g, tip, h) && h !in excluded
  }

  /** The list is exact unless the push rewinds the ref to another commit that the old tip reaches. Then
      it is that commit alone, although it is not new. */
  lemma ExactUnlessRewound(g: Commits, tip: Hash, old_: Hash, excluded: set<Hash>, ordered: seq<Hash>)
    requires ExcludedBy(g, old_, excluded) && tip in g && NoDup(ordered)
    requires if tip == old_ then ordered == [] else forall h :: h in ordered <==> h == tip || (Reaches(g, tip, h) && h !in excluded)
    ensures Exact(g, tip, excluded, ordered) <==> tip == old_ || tip !in excluded
    ensures tip != old_ && tip in excluded ==> ordered == [tip]
  {
    hide Reaches;
    ReachesSelf(g, tip);
    if tip in excluded || tip == old_ {
      forall h, q | h in excluded && Edge(g, h, q) ensures q in excluded {
        ReachesParent(g, old_, h, q);
      }
      forall h | Reaches(g, tip, h) ensures h in excluded {
        ClosedHoldsReachable(g, excluded, {}, tip, h);
      }
      if tip != old_ {
        OnlyOne(ordered, tip);
      }
    }
  }

  lemma OnlyOne(s: seq<Hash>, x: Hash)
    requires NoDup(s) && forall h :: h in s <==> h == x
    ensures s == [x]
  {
    assert x in s;
    assert |s| > 1 ==> s[0] != s[1];
    forall i | 0 <= i < |s| ensures s[i] == x {
      assert s[i] in s;
    }
  }

  datatype Pushed = Pushed(commits: seq<Hash>, forced: bool)

  /** The repository reached `h` from the ref before the push. */
  ghost predicate HadBefore(g: Commits, old_: Option<Hash>, h: Hash) {
    old_.Some? && Reaches(g, old_.value, h)
  }

  /** Every parent of a listed commit was there before the push or is listed earlier. */
  ghost predicate ParentsListed(g: Commits, old_: Option<Hash>, ordered: seq<Hash>) {
    forall i, q :: 0 <= i < |ordered| && Edge(g, ordered[i], q) ==>
      HadBefore(g, old_, q) || q in ordered[..i]
  }

  lemma ParentsFirstAreListed(g: Commits, old_: Option<Hash>, excluded: set<Hash>, ordered: seq<Hash>)
    requires ParentsFirst(g, ordered, excluded)
    requires forall h :: h in excluded ==> HadBefore(g, old_, h)
    ensures ParentsListed(g, old_, ordered)
  {
  }

  /** What one accepted update of a ref to a commit reports: its new commits and whether it was forced. */
  method PushedCommits(g: Commits, old_: Option<Hash>, tip: Hash) returns (r: WalkResult<Pushed>)
    requires Acyclic(g) && tip in g && ZERO_HASH !in g
    requires old_.Some? ==> old_.value in g
    ensures r.Walked? && old_.None? ==> forall h :: h in r.value.commits <==> Reaches(g, tip, h)
    ensures r.Walked? && old_.Some? && !Reaches(g, old_.value, tip) ==>
              forall h :: h in r.value.commits <==> Reaches(g, tip, h) && !Reaches(g, old_.value, h)
    ensures r.Walked? && old_.Some? && Reaches(g, old_.value, tip) ==> r.value.commits == if tip == old_.value then [] else [tip]
    ensures r.Walked? ==> NoDup(r.value.commits)
    ensures r.Walked? ==> ParentsListed(g, old_, r.value.commits)
    ensures r.Walked? ==> (r.value.forced <==> old_.Some? && !Reaches(g, tip, old_.value))
    ensures r.MissingCommit? ==> r.hash !in g && (Reaches(g, tip, r.hash) || HadBefore(g, old_, r.hash))
  {
    ReachesSelf(g, tip);
    var reached := Reachable(g, old_);
    match reached {
      case MissingCommit(h) => return MissingCommit(h);
      case Cancelled => return Cancelled;
      case Walked(excluded) =>
        var oldHash := if old_.Some? then old_.value else ZERO_HASH;
        var found := CollectNew(g, tip, oldHash, excluded);
        match found {
          case MissingCommit(h) => return MissingCommit(h);
          case Cancelled => return Cancelled;
          case Walked(commits) =>
            assert ParentsListed(g, old_, commits.ordered) by { ParentsFirstAreListed(g, old_, excluded, commits.ordered); }
            return Walked(Pushed(commits.ordered, old_.Some? && !commits.oldIsAncestor));
        }
    }
  }

  /** A history of two commits, and a push that moves a ref from the second back to the first. */
  method RewindExample() returns (r: WalkResult<Pushed>)
    ensures r.Walked? ==> r.value == Pushed([1], true)
    ensures !r.MissingCommit?
    ensures Reaches(map[1 := [], 2 := [1]], 2, 1)
  {
    hide Reaches, Acyclic;
    var g: Commits := map[1 := [], 2 := [1]];
    TwoCommits(g);
    r := PushedCommits(g, Some(2), 1);
  }

  lemma TwoCommits(g: Commits)
    requires g == map[1 := [], 2 := [1]]
    ensures Acyclic(g) && Reaches(g, 2, 1) && !Reaches(g, 1, 2)
    ensures forall a, b :: a in {1, 2} && Reaches(g, a, b) ==> b in g
  {
    ReachesSelf(g, 2);
    assert Edge(g, 2, 1);
    forall p | IsPath(g, p) && |p| > 1 ensures p[0] != p[|p| - 1] {
      assert Edge(g, p[0], p[1]) && Edge(g, p[|p| - 2], p[|p| - 1]);
    }
    ReachesParent(g, 2, 2, 1);
    forall a, b | a in {1, 2} && Reaches(g, a, b) ensures b in g {
      ClosedHoldsReachable(g, {1, 2}, {}, a, b);
    }
    forall b | Reaches(g, 1, b) ensures b == 1 {
      ClosedHoldsReachable(g, {1}, {}, 1, b);
    }
  }
}
