/** The upload bundler as a step system. Each step is one critical section of the bundler, so a
    run is any interleaving of adders, timers, handlers and flushes. */
module BundlerSpec {
  import opened Prelude

  /** A threshold or limit of zero or less is off. */
  datatype Config = Config(countThreshold: int, byteThreshold: int, byteLimit: int, bufferLimit: nat, handlerLimit: nat)

  datatype Bundle<T> = Bundle(items: seq<T>, size: nat, group: nat)

  /** `started` lists every bundle ever given to a handler, in that order, and `done` those whose
      handler returned. `counts[g]` is the wait group of flush `g`; `marks[g]` is how many items
      had been accepted when flush `g` began; `closed` holds the flushes that returned. `reserved`
      is the semaphore weight of adders between their acquire and their add. */
  datatype State<T> = State(
    accepted: seq<T>,
    started: seq<Bundle<T>>, done: set<nat>,
    queue: seq<Bundle<T>>, cur: Option<Bundle<T>>,
    handlers: nat, held: nat, reserved: nat,
    counts: seq<nat>, marks: seq<nat>, closed: set<nat>)

  function Initial<T>(): State<T> {
    State([], [], {}, [], None, 0, 0, 0, [0], [], {})
  }

  datatype Step<T> =
    | Reserve(size: nat)
    | AddItem(item: T, size: nat)
    | Timer
    | Finish(index: nat)
    | FlushBegin
    | FlushEnd(flush: nat)

  predicate CanFit<T>(c: Config, b: Bundle<T>, size: nat) {
    && (c.byteLimit <= 0 || b.size + size <= c.byteLimit)
    && (c.countThreshold <= 0 || |b.items| < c.countThreshold)
  }

  function Put<T>(b: Bundle<T>, item: T, size: nat): Bundle<T> {
    Bundle(b.items + [item], b.size + size, b.group)
  }

  /** Moves the current bundle to a free handler, or to the end of the queue. */
  function EnqueueCur<T>(c: Config, s: State<T>): State<T> {
    if s.cur.None? then s
    else if s.handlers < c.handlerLimit then
      s.(handlers := s.handlers + 1, started := s.started + [s.cur.value], cur := None)
    else
      s.(queue := s.queue + [s.cur.value], cur := None)
  }

  function Accept<T>(s: State<T>, item: T, size: nat): State<T>
    requires size <= s.reserved
  {
    s.(accepted := s.accepted + [item], reserved := s.reserved - size)
  }

  /** The item in the current bundle, which is opened in the current flush when there is none. */
  function Fill<T>(s: State<T>, item: T, size: nat): State<T>
    requires |s.counts| == |s.marks| + 1 && size <= s.reserved
  {
    var g := |s.marks|;
    if s.cur.Some? then Accept(s, item, size).(cur := Some(Put(s.cur.value, item, size)))
    else Accept(s, item, size).(cur := Some(Bundle([item], size, g)), counts := s.counts[g := s.counts[g] + 1])
  }

  /** A current bundle that reached a threshold goes to the handlers. */
  function Settle<T>(c: Config, s: State<T>): State<T>
    requires s.cur.Some?
  {
    if s.cur.value.size >= c.byteThreshold || |s.cur.value.items| == c.countThreshold then EnqueueCur(c, s) else s
  }

  function PutTail<T>(s: State<T>, item: T, size: nat): State<T>
    requires s.queue != [] && size <= s.reserved
  {
    var last := |s.queue| - 1;
    Accept(s, item, size).(queue := s.queue[last := Put(s.queue[last], item, size)])
  }

  function Add<T>(c: Config, s: State<T>, item: T, size: nat): State<T>
    requires |s.counts| == |s.marks| + 1 && size <= s.reserved
  {
    if s.queue != [] && s.cur.None? && CanFit(c, s.queue[|s.queue| - 1], size) then PutTail(s, item, size)
    else
      var s1 := if s.cur.Some? && !CanFit(c, s.cur.value, size) then EnqueueCur(c, s) else s;
      Settle(c, Fill(s1, item, size))
  }

  /** The semaphore, the wait group and the handler count can all give back bundle `i`. In every
      reachable state this holds of every running bundle; see FinishEnabled. */
  predicate Releasable<T>(s: State<T>, i: nat)
    requires i < |s.started|
  {
    var b := s.started[i];
    b.group < |s.counts| && b.size <= s.held && s.counts[b.group] > 0 && s.handlers > 0
  }

  /** After a handler returns: release, count down, and take the next bundle or stop. */
  function PostHandle<T>(s: State<T>, i: nat): State<T>
    requires i < |s.started| && Releasable(s, i)
  {
    var b := s.started[i];
    var s1 := s.(done := s.done + {i}, held := s.held - b.size, counts := s.counts[b.group := s.counts[b.group] - 1]);
    if s1.queue == [] then s1.(handlers := s1.handlers - 1)
    else s1.(started := s1.started + [s1.queue[0]], queue := s1.queue[1..])
  }

  function BeginFlush<T>(c: Config, s: State<T>): State<T> {
    var s1 := EnqueueCur(c, s);
    s1.(marks := s1.marks + [|s1.accepted|], counts := s1.counts + [0])
  }

  predicate Enabled<T>(c: Config, s: State<T>, step: Step<T>) {
    match step
    case Reserve(size) => s.held + size <= c.bufferLimit && (c.byteLimit > 0 ==> size <= c.byteLimit)
    case AddItem(_, size) => size <= s.reserved && (c.byteLimit > 0 ==> size <= c.byteLimit) && |s.counts| == |s.marks| + 1
    case Timer => true
    case Finish(i) => i < |s.started| && i !in s.done && Releasable(s, i)
    case FlushBegin => true
    case FlushEnd(k) => k < |s.marks| && k !in s.closed && (k == 0 || k - 1 in s.closed) && k < |s.counts| && s.counts[k] == 0
  }

  function Next<T>(c: Config, s: State<T>, step: Step<T>): State<T>
    requires Enabled(c, s, step)
  {
    match step
    case Reserve(size) => s.(held := s.held + size, reserved := s.reserved + size)
    case AddItem(item, size) => Add(c, s, item, size)
    case Timer => EnqueueCur(c, s)
    case Finish(i) => PostHandle(s, i)
    case FlushBegin => BeginFlush(c, s)
    case FlushEnd(k) => s.(closed := s.closed + {k})
  }

  /** Every bundle in order of creation. */
  function All<T>(s: State<T>): seq<Bundle<T>> {
    s.started + s.queue + (if s.cur.Some? then [s.cur.value] else [])
  }

  function Flat<T>(bs: seq<Bundle<T>>): seq<T> {
    if bs == [] then [] else Flat(bs[..|bs| - 1]) + bs[|bs| - 1].items
  }

  /** The sum of `f` over the bundles whose handler has not returned. */
  function LiveSum<T>(bs: seq<Bundle<T>>, done: set<nat>, f: Bundle<T> -> nat): nat {
    if bs == [] then 0
    else
      var n := |bs| - 1;
      LiveSum(bs[..n], done, f) + if n in done then 0 else f(bs[n])
  }

  function InGroup<T>(k: nat): Bundle<T> -> nat {
    (b: Bundle<T>) => if b.group == k then 1 else 0
  }

  function One<T>(): Bundle<T> -> nat {
    (b: Bundle<T>) => 1
  }

  function Size<T>(): Bundle<T> -> nat {
    (b: Bundle<T>) => b.size
  }

  ghost predicate WithinCaps<T>(c: Config, b: Bundle<T>) {
    && b.items != []
    && (c.countThreshold > 0 ==> |b.items| <= c.countThreshold)
    && (c.byteLimit > 0 ==> b.size <= c.byteLimit)
  }

  /** A bundle whose first item was accepted before flush `k` began belongs to flush `k` or an earlier one. */
  ghost predicate GroupsInOrder<T>(all: seq<Bundle<T>>, marks: seq<nat>) {
    && (forall b :: 0 <= b < |all| ==> all[b].group <= |marks|)
    && forall b, k :: 0 <= b < |all| && 0 <= k < |marks| && |Flat(all[..b])| < marks[k] ==> all[b].group <= k
  }

  /** What holds of the bundles in order of creation: every accepted item is in exactly one bundle,
      in order of acceptance; `live` is the size, and each count the number, of bundles not yet done. */
  ghost predicate Core<T>(c: Config, all: seq<Bundle<T>>, done: set<nat>, accepted: seq<T>, live: nat, counts: seq<nat>, marks: seq<nat>) {
    && Flat(all) == accepted
    && (forall b :: 0 <= b < |all| ==> WithinCaps(c, all[b]))
    && live == LiveSum(all, done, Size())
    && |counts| == |marks| + 1
    && (forall k :: 0 <= k < |counts| ==> counts[k] == LiveSum(all, done, InGroup(k)))
    && GroupsInOrder(all, marks)
    && (forall k :: 0 <= k < |marks| ==> marks[k] <= |accepted|)
  }

  ghost predicate Inv<T>(c: Config, s: State<T>) {
    && s.reserved <= s.held <= c.bufferLimit
    && Core(c, All(s), s.done, s.accepted, s.held - s.reserved, s.counts, s.marks)
    && (forall i :: i in s.done ==> i < |s.started|)
    && s.handlers == LiveSum(s.started, s.done, One())
    && s.handlers <= c.handlerLimit && (s.queue != [] ==> s.handlers == c.handlerLimit)
    && (forall k :: k in s.closed ==> k < |s.marks|)
    && (forall k, j :: k in s.closed && 0 <= j <= k ==> s.counts[j] == 0)
  }

  lemma {:induction false} LiveAtLeast<T>(bs: seq<Bundle<T>>, done: set<nat>, f: Bundle<T> -> nat, i: nat)
    requires i < |bs| && i !in done
    ensures LiveSum(bs, done, f) >= f(bs[i])
  {
    if i < |bs| - 1 {
      LiveAtLeast(bs[..|bs| - 1], done, f, i);
    }
  }

  lemma {:induction false} LiveFinish<T>(bs: seq<Bundle<T>>, done: set<nat>, f: Bundle<T> -> nat, i: nat)
    requires i !in done
    ensures LiveSum(bs, done + {i}, f) == LiveSum(bs, done, f) - if i < |bs| then f(bs[i]) else 0
  {
    if bs != [] {
      LiveFinish(bs[..|bs| - 1], done, f, i);
    }
  }

  lemma CoreLive<T>(c: Config, all: seq<Bundle<T>>, done: set<nat>, accepted: seq<T>, live: nat, counts: seq<nat>, marks: seq<nat>, i: nat)
    requires Core(c, all, done, accepted, live, counts, marks) && i < |all| && i !in done
    ensures all[i].group < |counts| && counts[all[i].group] > 0 && live >= all[i].size
  {
    LiveAtLeast(all, done, Size(), i);
    LiveAtLeast(all, done, InGroup(all[i].group), i);
  }

  lemma FinishEnabled<T>(c: Config, s: State<T>, i: nat)
    requires Inv(c, s) && i < |s.started| && i !in s.done
    ensures Releasable(s, i)
  {
    var all := All(s);
    assert all[i] == s.started[i];
    CoreLive(c, all, s.done, s.accepted, s.held - s.reserved, s.counts, s.marks, i);
    LiveAtLeast(s.started, s.done, One(), i);
  }

  lemma {:induction false} LiveNew<T>(bs: seq<Bundle<T>>, b: Bundle<T>, done: set<nat>, f: Bundle<T> -> nat)
    requires |bs| !in done
    ensures LiveSum(bs + [b], done, f) == LiveSum(bs, done, f) + f(b)
  {
    assert (bs + [b])[..|bs|] == bs;
  }

  lemma FlatNew<T>(bs: seq<Bundle<T>>, b: Bundle<T>)
    ensures Flat(bs + [b]) == Flat(bs) + b.items
  {
    assert (bs + [b])[..|bs|] == bs;
  }

  /** Appending an item to the newest bundle, which was not yet handed out. */
  lemma CorePut<T>(c: Config, all: seq<Bundle<T>>, done: set<nat>, accepted: seq<T>, live: nat, counts: seq<nat>, marks: seq<nat>, item: T, size: nat)
    requires Core(c, all, done, accepted, live, counts, marks) && all != [] && |all| - 1 !in done
    requires CanFit(c, all[|all| - 1], size)
    ensures Core(c, all[|all| - 1 := Put(all[|all| - 1], item, size)], done, accepted + [item], live + size, counts, marks)
  {
    hide Flat, LiveSum, WithinCaps, GroupsInOrder, CanFit;
    var n := |all| - 1;
    var low, b, b' := all[..n], all[n], Put(all[n], item, size);
    var all' := all[n := b'];
    assert all == low + [b] && all' == low + [b'];
    FlatNew(low, b);
    FlatNew(low, b');
    LiveNew(low, b, done, Size());
    LiveNew(low, b', done, Size());
    forall k | 0 <= k < |counts| ensures counts[k] == LiveSum(all', done, InGroup(k)) {
      LiveNew(low, b, done, InGroup(k));
      LiveNew(low, b', done, InGroup(k));
    }
    PutWithinCaps(c, b, item, size);
    PutInOrder(low, b, b', marks);
  }

  lemma PutWithinCaps<T>(c: Config, b: Bundle<T>, item: T, size: nat)
    requires CanFit(c, b, size)
    ensures WithinCaps(c, Put(b, item, size))
  {
  }

  lemma PutInOrder<T>(low: seq<Bundle<T>>, b: Bundle<T>, b': Bundle<T>, marks: seq<nat>)
    requires GroupsInOrder(low + [b], marks) && b'.group == b.group
    ensures GroupsInOrder(low + [b'], marks)
  {
    hide Flat;
    var all, all' := low + [b], low + [b'];
    forall i | 0 <= i < |all'| ensures all'[..i] == all[..i] && all'[i].group == all[i].group {}
  }

  /** A new bundle with its first item, in the current flush. */
  lemma CoreOpen<T>(c: Config, all: seq<Bundle<T>>, done: set<nat>, accepted: seq<T>, live: nat, counts: seq<nat>, marks: seq<nat>, item: T, size: nat)
    requires Core(c, all, done, accepted, live, counts, marks) && |all| !in done
    requires c.byteLimit > 0 ==> size <= c.byteLimit
    ensures var g := |marks|;
            Core(c, all + [Bundle([item], size, g)], done, accepted + [item], live + size, counts[g := counts[g] + 1], marks)
  {
    var g := |marks|;
    var b := Bundle([item], size, g);
    var all' := all + [b];
    FlatNew(all, b);
    LiveNew(all, b, done, Size());
    forall k | 0 <= k < |counts| ensures counts[g := counts[g] + 1][k] == LiveSum(all', done, InGroup(k)) {
      LiveNew(all, b, done, InGroup(k));
    }
    forall i | 0 <= i <= |all| ensures all'[..i] == all[..i] {}
    assert all[..|all|] == all;
  }

  lemma CoreFinish<T>(c: Config, all: seq<Bundle<T>>, done: set<nat>, accepted: seq<T>, live: nat, counts: seq<nat>, marks: seq<nat>, i: nat)
    requires Core(c, all, done, accepted, live, counts, marks) && i < |all| && i !in done
    requires all[i].group < |counts| && counts[all[i].group] > 0 && live >= all[i].size
    ensures Core(c, all, done + {i}, accepted, live - all[i].size, counts[all[i].group := counts[all[i].group] - 1], marks)
  {
    LiveFinish(all, done, Size(), i);
    forall k | 0 <= k < |counts|
      ensures counts[all[i].group := counts[all[i].group] - 1][k] == LiveSum(all, done + {i}, InGroup(k))
    {
      LiveFinish(all, done, InGroup(k), i);
    }
  }

  lemma {:induction false} NoneInGroup<T>(all: seq<Bundle<T>>, done: set<nat>, k: nat)
    requires forall b :: 0 <= b < |all| ==> all[b].group < k
    ensures LiveSum(all, done, InGroup(k)) == 0
  {
    if all != [] {
      NoneInGroup(all[..|all| - 1], done, k);
    }
  }

  lemma CoreFlush<T>(c: Config, all: seq<Bundle<T>>, done: set<nat>, accepted: seq<T>, live: nat, counts: seq<nat>, marks: seq<nat>)
    requires Core(c, all, done, accepted, live, counts, marks)
    ensures Core(c, all, done, accepted, live, counts + [0], marks + [|accepted|])
  {
    NoneInGroup(all, done, |counts|);
  }

  lemma InvFacts<T>(c: Config, s: State<T>)
    requires Inv(c, s)
    ensures |s.counts| == |s.marks| + 1
    ensures s.handlers < c.handlerLimit ==> s.queue == []
  {
  }

  /** Moving the current bundle on keeps the order of creation. */
  lemma EnqueueKeeps<T>(c: Config, s: State<T>)
    requires Inv(c, s)
    ensures Inv(c, EnqueueCur(c, s)) && EnqueueCur(c, s).cur.None?
    ensures EnqueueCur(c, s) == s.(cur := None, handlers := EnqueueCur(c, s).handlers,
                                   started := EnqueueCur(c, s).started, queue := EnqueueCur(c, s).queue)
  {
    hide Core;
    var s' := EnqueueCur(c, s);
    if s.cur.Some? {
      assert All(s') == All(s);
      if s.handlers < c.handlerLimit {
        LiveNew(s.started, s.cur.value, s.done, One());
      }
    }
  }

  lemma AddKeeps<T>(c: Config, s: State<T>, item: T, size: nat)
    requires Inv(c, s) && size <= s.reserved && (c.byteLimit > 0 ==> size <= c.byteLimit)
    ensures Inv(c, Add(c, s, item, size))
  {
    hide Inv, CanFit;
    if s.queue != [] && s.cur.None? && CanFit(c, s.queue[|s.queue| - 1], size) {
      TailPutKeeps(c, s, item, size);
    } else {
      var s1 := s;
      if s.cur.Some? && !CanFit(c, s.cur.value, size) {
        EnqueueKeeps(c, s);
        s1 := EnqueueCur(c, s);
      }
      InvFacts(c, s1);
      FillKeeps(c, s1, item, size);
      EnqueueKeeps(c, Fill(s1, item, size));
    }
  }

  lemma TailPutKeeps<T>(c: Config, s: State<T>, item: T, size: nat)
    requires Inv(c, s) && size <= s.reserved && s.queue != [] && s.cur.None?
    requires CanFit(c, s.queue[|s.queue| - 1], size)
    ensures Inv(c, PutTail(s, item, size))
  {
    var all, n := All(s), |All(s)| - 1;
    assert all[n] == s.queue[|s.queue| - 1];
    CorePut(c, all, s.done, s.accepted, s.held - s.reserved, s.counts, s.marks, item, size);
    assert All(PutTail(s, item, size)) == all[n := Put(all[n], item, size)];
  }

  lemma FillKeeps<T>(c: Config, s: State<T>, item: T, size: nat)
    requires Inv(c, s) && size <= s.reserved && (c.byteLimit > 0 ==> size <= c.byteLimit)
    requires s.cur.Some? ==> CanFit(c, s.cur.value, size)
    ensures Inv(c, Fill(s, item, size))
  {
    FillCore(c, s, Fill(s, item, size), item, size);
    FillInv(c, s, Fill(s, item, size));
  }

  lemma FillCore<T>(c: Config, s: State<T>, s': State<T>, item: T, size: nat)
    requires Inv(c, s) && size <= s.reserved && (c.byteLimit > 0 ==> size <= c.byteLimit)
    requires s.cur.Some? ==> CanFit(c, s.cur.value, size)
    requires s' == Fill(s, item, size)
    ensures Core(c, All(s'), s'.done, s'.accepted, s'.held - s'.reserved, s'.counts, s'.marks)
  {
    hide Core;
    var all := All(s);
    if s.cur.Some? {
      CorePut(c, all, s.done, s.accepted, s.held - s.reserved, s.counts, s.marks, item, size);
      assert All(s') == all[|all| - 1 := Put(all[|all| - 1], item, size)];
    } else {
      CoreOpen(c, all, s.done, s.accepted, s.held - s.reserved, s.counts, s.marks, item, size);
      assert All(s') == all + [Bundle([item], size, |s.marks|)];
    }
  }

  lemma FillInv<T>(c: Config, s: State<T>, s': State<T>)
    requires Inv(c, s) && s'.reserved <= s'.held
    requires Core(c, All(s'), s'.done, s'.accepted, s'.held - s'.reserved, s'.counts, s'.marks)
    requires s' == s.(accepted := s'.accepted, reserved := s'.reserved, cur := s'.cur, counts := s'.counts)
    requires s'.reserved <= s.reserved && |s'.counts| == |s.counts|
    requires forall k :: 0 <= k < |s.marks| && k < |s.counts| ==> s'.counts[k] == s.counts[k]
    ensures Inv(c, s')
  {
    forall k, j | k in s'.closed && 0 <= j <= k ensures s'.counts[j] == 0 {
      assert s.counts[j] == 0;
    }
  }

  lemma FinishKeeps<T>(c: Config, s: State<T>, i: nat)
    requires Inv(c, s) && i < |s.started| && i !in s.done
    requires Releasable(s, i)
    ensures Inv(c, PostHandle(s, i))
  {
    hide Core, LiveSum;
    var all := All(s);
    assert all[i] == s.started[i];
    CoreLive(c, all, s.done, s.accepted, s.held - s.reserved, s.counts, s.marks, i);
    CoreFinish(c, all, s.done, s.accepted, s.held - s.reserved, s.counts, s.marks, i);
    LiveFinish(s.started, s.done, One(), i);
    var s' := PostHandle(s, i);
    if s.queue != [] {
      LiveNew(s.started, s.queue[0], s.done + {i}, One());
    }
    assert All(s') == all;
  }

  lemma FlushBeginKeeps<T>(c: Config, s: State<T>)
    requires Inv(c, s)
    ensures Inv(c, BeginFlush(c, s))
  {
    EnqueueKeeps(c, s);
    var s1 := EnqueueCur(c, s);
    CoreFlush(c, All(s1), s1.done, s1.accepted, s1.held - s1.reserved, s1.counts, s1.marks);
    assert All(BeginFlush(c, s)) == All(s1);
  }

  lemma StepKeeps<T>(c: Config, s: State<T>, step: Step<T>)
    requires Inv(c, s) && Enabled(c, s, step)
    ensures Inv(c, Next(c, s, step))
  {
    hide Core, CanFit, PostHandle, BeginFlush, EnqueueCur;
    match step
    case Reserve(_) => assert All(Next(c, s, step)) == All(s);
    case AddItem(item, size) => AddKeeps(c, s, item, size);
    case Timer => EnqueueKeeps(c, s);
    case Finish(i) =>
      FinishEnabled(c, s, i);
      FinishKeeps(c, s, i);
    case FlushBegin => FlushBeginKeeps(c, s);
    case FlushEnd(k) => assert All(Next(c, s, step)) == All(s);
  }

  /** Nothing accepted, started, finished or marked is ever taken back, and a bundle once given to a
      handler never changes again. */
  ghost predicate Grows<T>(s: State<T>, s': State<T>) {
    s.accepted <= s'.accepted && s.started <= s'.started && s.done <= s'.done && s.marks <= s'.marks
  }

  /** Moving the current bundle on touches nothing else. */
  lemma EnqueueShape<T>(c: Config, s: State<T>)
    ensures var s' := EnqueueCur(c, s);
            s' == s.(cur := s'.cur, handlers := s'.handlers, started := s'.started, queue := s'.queue) && s.started <= s'.started
  {
  }

  lemma AddShape<T>(c: Config, s: State<T>, item: T, size: nat)
    requires |s.counts| == |s.marks| + 1 && size <= s.reserved
    ensures var s' := Add(c, s, item, size);
            && s'.accepted == s.accepted + [item] && s.started <= s'.started
            && s'.done == s.done && s'.marks == s.marks && s'.closed == s.closed
  {
    hide CanFit, EnqueueCur;
    var s1 := if s.cur.Some? && !CanFit(c, s.cur.value, size) then EnqueueCur(c, s) else s;
    EnqueueShape(c, s);
    EnqueueShape(c, Fill(s1, item, size));
  }

  /** What each step does to the history. */
  lemma StepShape<T>(c: Config, s: State<T>, step: Step<T>)
    requires Enabled(c, s, step)
    ensures var s' := Next(c, s, step);
            && Grows(s, s')
            && s'.accepted == (if step.AddItem? then s.accepted + [step.item] else s.accepted)
            && s'.marks == (if step.FlushBegin? then s.marks + [|s.accepted|] else s.marks)
            && s'.closed == (if step.FlushEnd? then s.closed + {step.flush} else s.closed)
            && s'.done == (if step.Finish? then s.done + {step.index} else s.done)
  {
    hide CanFit, Releasable, EnqueueCur, Add;
    EnqueueShape(c, s);
    if step.AddItem? {
      AddShape(c, s, step.item, step.size);
    }
  }

  /** A run: each state is the enabled next of the one before. */
  ghost predicate IsRun<T>(c: Config, states: seq<State<T>>, steps: seq<Step<T>>) {
    && |states| == |steps| + 1 && states[0] == Initial()
    && forall i :: 0 <= i < |steps| ==>
      Enabled(c, states[i], steps[i]) && states[i + 1] == Next(c, states[i], steps[i])
  }

  lemma InitialInv<T>(c: Config)
    ensures Inv(c, Initial<T>())
  {
    assert All(Initial<T>()) == [];
  }

  lemma {:induction false} RunInv<T>(c: Config, states: seq<State<T>>, steps: seq<Step<T>>, n: nat)
    requires IsRun(c, states, steps) && n < |states|
    ensures Inv(c, states[n])
  {
    if n == 0 {
      InitialInv<T>(c);
    } else {
      RunInv(c, states, steps, n - 1);
      StepKeeps(c, states[n - 1], steps[n - 1]);
    }
  }

  lemma {:induction false} RunGrows<T>(c: Config, states: seq<State<T>>, steps: seq<Step<T>>, m: nat, n: nat)
    requires IsRun(c, states, steps) && m <= n < |states|
    ensures Grows(states[m], states[n])
    decreases n - m
  {
    if m < n {
      StepShape(c, states[m], steps[m]);
      RunGrows(c, states, steps, m + 1, n);
    }
  }

  /** The handler returned from the bundle that holds the item accepted in place `i`. */
  ghost predicate Handled<T>(s: State<T>, i: nat) {
    exists b :: b in s.done && b < |s.started| && Holds(s.started, b, i)
  }

  ghost predicate Holds<T>(bs: seq<Bundle<T>>, b: nat, i: nat)
    requires b < |bs|
  {
    |Flat(bs[..b])| <= i < |Flat(bs[..b])| + |bs[b].items|
  }

  lemma {:induction false} Locate<T>(bs: seq<Bundle<T>>, i: nat) returns (b: nat)
    requires i < |Flat(bs)|
    ensures b < |bs| && Holds(bs, b, i)
  {
    var n := |bs| - 1;
    if i < |Flat(bs[..n])| {
      b := Locate(bs[..n], i);
      assert bs[..n][..b] == bs[..b];
    } else {
      b := n;
    }
  }

  lemma HeldIsAccepted<T>(c: Config, s: State<T>, b: nat, i: nat)
    requires Inv(c, s) && b < |s.started| && Holds(s.started, b, i)
    ensures i < |s.accepted|
  {
    var all := All(s);
    assert all[..b + 1] == s.started[..b] + [s.started[b]];
    FlatNew(s.started[..b], s.started[b]);
    assert all == all[..b + 1] + all[b + 1..];
    FlatConcat(all[..b + 1], all[b + 1..]);
  }

  /** When flush `k` has returned, everything accepted before its mark was handled, also the items
      that went into a queued bundle of an earlier flush. */
  lemma ClosedMeansHandled<T>(c: Config, s: State<T>, k: nat, i: nat)
    requires Inv(c, s) && k in s.closed && i < s.marks[k]
    ensures Handled(s, i)
  {
    var all := All(s);
    var b := Locate(all, i);
    assert all[b].group <= k && s.counts[all[b].group] == 0;
    if b !in s.done {
      CoreLive(c, all, s.done, s.accepted, s.held - s.reserved, s.counts, s.marks, b);
    }
    assert all[..b] == s.started[..b] && all[b] == s.started[b];
    assert Holds(s.started, b, i);
  }

  /** A flush that began at time `t0` and has returned by time `t1` waited for every item whose add
      finished before it began, in every interleaving. */
  lemma FlushWaits<T>(c: Config, states: seq<State<T>>, steps: seq<Step<T>>, t0: nat, t1: nat, i: nat)
    requires IsRun(c, states, steps) && t0 < t1 < |states| && steps[t0] == FlushBegin
    requires |states[t0].marks| in states[t1].closed && i < |states[t0].accepted|
    ensures Handled(states[t1], i)
  {
    var k := |states[t0].marks|;
    RunInv(c, states, steps, t1);
    RunGrows(c, states, steps, t0 + 1, t1);
    assert states[t0 + 1].marks[k] == |states[t0].accepted|;
    ClosedMeansHandled(c, states[t1], k, i);
  }

  // Dispatch: a bundle that is full is not kept.

  /** The thresholds at which a bundle goes to the handlers. */
  ghost predicate Full<T>(c: Config, b: Bundle<T>) {
    b.size >= c.byteThreshold || |b.items| == c.countThreshold
  }

  ghost predicate CurIsBelow<T>(c: Config, s: State<T>) {
    s.cur.Some? ==> !Full(c, s.cur.value)
  }

  lemma CurStaysBelow<T>(c: Config, s: State<T>, step: Step<T>)
    requires CurIsBelow(c, s) && Enabled(c, s, step)
    ensures CurIsBelow(c, Next(c, s, step))
  {
    hide CanFit, Releasable;
  }

  lemma StartIsBelow<T>(c: Config)
    ensures CurIsBelow(c, Initial<T>())
  {
  }

  lemma {:induction false} CurIsBelowInRun<T>(c: Config, states: seq<State<T>>, steps: seq<Step<T>>, t: nat)
    requires IsRun(c, states, steps) && t < |states|
    ensures CurIsBelow(c, states[t])
  {
    hide Enabled, Next, CurIsBelow;
    if t > 0 {
      CurIsBelowInRun(c, states, steps, t - 1);
      CurStaysBelow(c, states[t - 1], steps[t - 1]);
    } else {
      StartIsBelow<T>(c);
    }
  }

  /** In every reachable state the bundle that waits for more items is below both thresholds. */
  lemma NoFullBundleWaits<T>(c: Config, states: seq<State<T>>, steps: seq<Step<T>>, t: nat)
    requires IsRun(c, states, steps) && t < |states| && states[t].cur.Some?
    ensures states[t].cur.value.size < c.byteThreshold && |states[t].cur.value.items| != c.countThreshold
  {
    hide IsRun;
    CurIsBelowInRun(c, states, steps, t);
  }

  /** The item joins the bundle: it stays within the limits. */
  ghost predicate Joins<T>(c: Config, b: Bundle<T>, size: nat) {
    (c.byteLimit > 0 ==> b.size + size <= c.byteLimit) && (c.countThreshold > 0 ==> |b.items| + 1 <= c.countThreshold)
  }

  /** The bundle an added item is in: the tail of the queue when no other is being filled and it fits
      there, else the current bundle if it fits there, else a new one. */
  ghost function BundleOf<T>(c: Config, s: State<T>, item: T, size: nat): Bundle<T> {
    if s.cur.None? && s.queue != [] && Joins(c, s.queue[|s.queue| - 1], size) then Put(s.queue[|s.queue| - 1], item, size)
    else if s.cur.Some? && Joins(c, s.cur.value, size) then Put(s.cur.value, item, size)
    else Bundle([item], size, |s.marks|)
  }

  /** Where it is after the add: still the tail of the queue; or, if it is not yet full, current; or, if
      it is, given to a handler as long as one is free, beside the bundle it may have displaced, and
      queued last otherwise. */
  ghost predicate IsPlaced<T>(c: Config, s: State<T>, s': State<T>, b: Bundle<T>, size: nat) {
    if s.cur.None? && s.queue != [] && Joins(c, s.queue[|s.queue| - 1], size) then
      s'.queue == s.queue[..|s.queue| - 1] + [b] && s'.started == s.started && s'.cur.None?
    else
      var displaced := if s.cur.Some? && !Joins(c, s.cur.value, size) then [s.cur.value] else [];
      if !Full(c, b) then s'.cur == Some(b) && s'.started + s'.queue == s.started + s.queue + displaced
      else
        && s'.cur.None?
        && s'.started + s'.queue == s.started + s.queue + displaced + [b]
        && (s.handlers + |displaced| < c.handlerLimit ==> s'.queue == [])
        && (s.handlers + |displaced| >= c.handlerLimit ==> s'.queue != [])
  }

  /** Each add in a run puts its item into the bundle where it belongs, and a bundle that it fills
      goes to a free handler or to the queue at once. */
  lemma AddDispatches<T>(c: Config, states: seq<State<T>>, steps: seq<Step<T>>, t: nat)
    requires IsRun(c, states, steps) && t < |steps| && steps[t].AddItem?
    ensures var s, s', item, size := states[t], states[t + 1], steps[t].item, steps[t].size;
            IsPlaced(c, s, s', BundleOf(c, s, item, size), size)
  {
    hide Inv;
    RunInv(c, states, steps, t);
    AddPlaces(c, states[t], steps[t].item, steps[t].size);
  }

  lemma AddPlaces<T>(c: Config, s: State<T>, item: T, size: nat)
    requires Inv(c, s) && size <= s.reserved
    ensures |s.counts| == |s.marks| + 1
    ensures IsPlaced(c, s, Add(c, s, item, size), BundleOf(c, s, item, size), size)
  {
    hide Inv, IsPlaced, Add, BundleOf;
    InvFacts(c, s);
    HandlersFacts(c, s);
    if s.cur.None? && s.queue != [] && Joins(c, s.queue[|s.queue| - 1], size) {
      TailPlaces(c, s, item, size);
    } else {
      CurPlaces(c, s, item, size);
    }
  }

  lemma JoinsIsCanFit<T>(c: Config, b: Bundle<T>, size: nat)
    ensures Joins(c, b, size) <==> CanFit(c, b, size)
  {
  }

  lemma TailPlaces<T>(c: Config, s: State<T>, item: T, size: nat)
    requires s.cur.None? && s.queue != [] && Joins(c, s.queue[|s.queue| - 1], size)
    requires |s.counts| == |s.marks| + 1 && size <= s.reserved
    ensures IsPlaced(c, s, Add(c, s, item, size), BundleOf(c, s, item, size), size)
  {
    hide Joins, CanFit, Fill, Settle, EnqueueCur, Full;
    JoinsIsCanFit(c, s.queue[|s.queue| - 1], size);
    var n := |s.queue| - 1;
    assert s.queue[n := Put(s.queue[n], item, size)] == s.queue[..n] + [Put(s.queue[n], item, size)];
  }

  lemma CurPlaces<T>(c: Config, s: State<T>, item: T, size: nat)
    requires !(s.cur.None? && s.queue != [] && Joins(c, s.queue[|s.queue| - 1], size))
    requires s.handlers <= c.handlerLimit && (s.handlers < c.handlerLimit ==> s.queue == [])
    requires |s.counts| == |s.marks| + 1 && size <= s.reserved
    ensures IsPlaced(c, s, Add(c, s, item, size), BundleOf(c, s, item, size), size)
  {
    hide Joins, CanFit, Settle, EnqueueCur, PutTail, Full;
    if s.queue != [] {
      JoinsIsCanFit(c, s.queue[|s.queue| - 1], size);
    }
    var displaced: seq<Bundle<T>> := [];
    var s1 := s;
    if s.cur.Some? {
      JoinsIsCanFit(c, s.cur.value, size);
      if !Joins(c, s.cur.value, size) {
        displaced, s1 := [s.cur.value], EnqueueCur(c, s);
      }
    }
    Displaces(c, s, s1, displaced);
    var s2 := Fill(s1, item, size);
    assert s2.cur == Some(BundleOf(c, s, item, size)) && s2.queue == s1.queue && s2.started == s1.started && s2.handlers == s1.handlers;
    assert Add(c, s, item, size) == Settle(c, s2);
    hide Add, Fill, BundleOf;
    Dispatches(c, s2);
  }

  lemma Displaces<T>(c: Config, s: State<T>, s1: State<T>, displaced: seq<Bundle<T>>)
    requires s.handlers <= c.handlerLimit && (s.handlers < c.handlerLimit ==> s.queue == [])
    requires if displaced == [] then s1 == s else s.cur == Some(displaced[0]) && |displaced| == 1 && s1 == EnqueueCur(c, s)
    ensures s1.started + s1.queue == s.started + s.queue + displaced
    ensures s1.marks == s.marks && s1.counts == s.counts && s1.reserved == s.reserved && (displaced != [] ==> s1.cur.None?)
    ensures s1.handlers < c.handlerLimit <==> s.handlers + |displaced| < c.handlerLimit
    ensures s1.handlers <= c.handlerLimit && (s1.handlers < c.handlerLimit ==> s1.queue == [])
  {
  }

  lemma Dispatches<T>(c: Config, s: State<T>)
    requires s.cur.Some? && s.handlers <= c.handlerLimit && (s.handlers < c.handlerLimit ==> s.queue == [])
    ensures var s' := Settle(c, s);
            if !Full(c, s.cur.value) then s' == s
            else s'.cur.None? && s'.started + s'.queue == s.started + s.queue + [s.cur.value]
                 && (s'.queue == [] <==> s.handlers < c.handlerLimit)
  {
  }

  lemma HandlersFacts<T>(c: Config, s: State<T>)
    requires Inv(c, s)
    ensures s.handlers <= c.handlerLimit && (s.handlers < c.handlerLimit ==> s.queue == [])
  {
  }

  // Progress: a flush never waits in vain.

  /** The bundle that is being filled belongs to the flush to come. */
  ghost predicate CurIsNew<T>(s: State<T>) {
    |s.counts| == |s.marks| + 1 && (s.cur.Some? ==> s.cur.value.group == |s.marks|)
  }

  lemma CurStaysNew<T>(c: Config, s: State<T>, step: Step<T>)
    requires CurIsNew(s) && Enabled(c, s, step)
    ensures CurIsNew(Next(c, s, step))
  {
  }

  lemma {:induction false} CurIsNewInRun<T>(c: Config, states: seq<State<T>>, steps: seq<Step<T>>, t: nat)
    requires IsRun(c, states, steps) && t < |states|
    ensures CurIsNew(states[t])
  {
    hide Enabled, Next;
    if t > 0 {
      CurIsNewInRun(c, states, steps, t - 1);
      CurStaysNew(c, states[t - 1], steps[t - 1]);
    } else {
      StartIsNew<T>();
    }
  }

  lemma StartIsNew<T>()
    ensures CurIsNew(Initial<T>())
  {
  }

  /** Where something is live, some bundle is. */
  lemma {:induction false} SomeLive<T>(bs: seq<Bundle<T>>, done: set<nat>, f: Bundle<T> -> nat) returns (i: nat)
    requires LiveSum(bs, done, f) > 0
    ensures i < |bs| && i !in done && f(bs[i]) > 0
  {
    var n := |bs| - 1;
    if n !in done && f(bs[n]) > 0 {
      i := n;
    } else {
      i := SomeLive(bs[..n], done, f);
    }
  }

  ghost predicate Open<T>(s: State<T>, k: nat) {
    k < |s.marks| && k !in s.closed
  }

  lemma {:induction false} FirstOpen<T>(s: State<T>, k: nat) returns (j: nat)
    requires Open(s, k)
    ensures Open(s, j) && (j == 0 || j - 1 in s.closed)
  {
    if k == 0 || k - 1 in s.closed {
      j := k;
    } else {
      j := FirstOpen(s, k - 1);
    }
  }

  /** In every reachable state with an open flush and at least one handler allowed, a running bundle can
      finish or a flush can end: no flush waits on something that cannot happen. */
  lemma FlushNeverStuck<T>(c: Config, states: seq<State<T>>, steps: seq<Step<T>>, t: nat, k: nat) returns (step: Step<T>)
    requires IsRun(c, states, steps) && t < |states| && c.handlerLimit > 0 && Open(states[t], k)
    ensures Enabled(c, states[t], step) && (step.Finish? || step.FlushEnd?)
  {
    hide IsRun, Releasable;
    var s := states[t];
    RunInv(c, states, steps, t);
    CurIsNewInRun(c, states, steps, t);
    var j := FirstOpen(s, k);
    if s.counts[j] == 0 {
      return FlushEnd(j);
    }
    var all := All(s);
    var b := SomeLive(all, s.done, InGroup(j));
    if b >= |s.started| {
      assert s.cur.Some? && b == |all| - 1 ==> all[b] == s.cur.value;
      assert s.queue != [];
      b := SomeLive(s.started, s.done, One());
    }
    FinishEnabled(c, s, b);
    step := Finish(b);
  }

  /** In every reachable state every accepted item is in exactly one bundle and bundles start in
      the order of acceptance, no bundle exceeds its limits, a waiting bundle means that every
      handler is busy, and the semaphore holds exactly what is reserved or not yet handled. */
  lemma Conservation<T>(c: Config, states: seq<State<T>>, steps: seq<Step<T>>, t: nat)
    requires IsRun(c, states, steps) && t < |states|
    ensures var s := states[t];
            && Flat(s.started) + Flat(s.queue + if s.cur.Some? then [s.cur.value] else []) == s.accepted
            && (forall b :: 0 <= b < |s.started| ==> WithinCaps(c, s.started[b]))
            && s.handlers == LiveSum(s.started, s.done, One()) <= c.handlerLimit
            && (s.queue != [] ==> s.handlers == c.handlerLimit)
            && s.held == s.reserved + LiveSum(All(s), s.done, Size()) <= c.bufferLimit
  {
    RunInv(c, states, steps, t);
    var s := states[t];
    var rest := s.queue + if s.cur.Some? then [s.cur.value] else [];
    assert All(s) == s.started + rest;
    FlatConcat(s.started, rest);
    forall b | 0 <= b < |s.started| ensures WithinCaps(c, s.started[b]) {
      assert All(s)[b] == s.started[b];
    }
  }

  lemma {:induction false} FlatConcat<T>(a: seq<Bundle<T>>, b: seq<Bundle<T>>)
    ensures Flat(a + b) == Flat(a) + Flat(b)
  {
    if b == [] {
      assert a + b == a;
    } else {
      var n := |b| - 1;
      FlatConcat(a, b[..n]);
      assert a + b == (a + b[..n]) + [b[n]];
      assert Flat(a + b) == Flat(a + b[..n]) + b[n].items by { FlatNew(a + b[..n], b[n]); }
      assert (Flat(a) + Flat(b[..n])) + b[n].items == Flat(a) + (Flat(b[..n]) + b[n].items);
    }
  }
}
