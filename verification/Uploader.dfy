/** The uploader over the bundler: jobs end one by one with success or failure, the first failure
    is remembered, and a flush returns it. One storer uses it sequentially while handlers and
    timers run beside it. */
module Uploader {
  import opened Prelude
  import S = BundlerSpec

  /** Where the storer's own thread is: free to enqueue, waiting in flush `k`, about to read and clear
      the error slot after flush `k`, or, after a flush that returned no error, committing refs. The
      jobs that flush settled are those from place `from` on. */
  datatype User = Idle | Flushing(flush: nat) | Reading(flush: nat) | Committing(from: nat)

  /** `ended[i]` tells how the job accepted in place `i` ended; jobs below `floor` were settled by
      an earlier flush. */
  datatype State<T> = State(b: S.State<T>, err: bool, ended: map<nat, bool>, user: User, floor: nat)

  datatype Step<T> =
    | Bundler(step: S.Step<T>)
    | JobEnds(job: nat, ok: bool)
    | TakeError
    | PutRefs
    | EndCommit

  ghost predicate InBundle<T>(s: State<T>, b: nat, i: nat) {
    b < |s.b.started| && S.Holds(s.b.started, b, i)
  }

  /** The handler of a bundle returns only when all of its jobs have. */
  ghost predicate AllEnded<T>(s: State<T>, b: nat) {
    forall i :: InBundle(s, b, i) ==> i in s.ended
  }

  ghost predicate Enabled<T>(c: S.Config, s: State<T>, step: Step<T>) {
    match step
    case Bundler(st) =>
      S.Enabled(c, s.b, st) &&
      (match st
       case Reserve(_) => s.user.Idle?
       case AddItem(_, _) => s.user.Idle?
       case Timer => true
       case Finish(b) => AllEnded(s, b)
       case FlushBegin => s.user.Idle?
       case FlushEnd(k) => s.user == Flushing(k))
    case JobEnds(i, _) => i !in s.ended && exists b :: b !in s.b.done && InBundle(s, b, i)
    case TakeError => s.user.Reading?
    case PutRefs => s.user.Committing?
    case EndCommit => s.user.Committing?
  }

  ghost function Next<T>(c: S.Config, s: State<T>, step: Step<T>): State<T>
    requires Enabled(c, s, step)
  {
    match step
    case Bundler(st) =>
      var b' := S.Next(c, s.b, st);
      (match st
       case FlushBegin => s.(b := b', user := Flushing(|s.b.marks|))
       case FlushEnd(k) => s.(b := b', user := Reading(k))
       case _ => s.(b := b'))
    case JobEnds(i, ok) => s.(ended := s.ended[i := ok], err := s.err || !ok)
    case TakeError => s.(err := false, user := if s.err then Idle else Committing(s.floor), floor := |s.b.accepted|)
    case PutRefs => s
    case EndCommit => s.(user := Idle)
  }

  ghost predicate Inv<T>(c: S.Config, s: State<T>) {
    && S.Inv(c, s.b)
    && (forall b :: b in s.b.done ==> AllEnded(s, b))
    && (forall i :: i in s.ended ==> i < |s.b.accepted|)
    && (forall i :: i in s.ended && !s.ended[i] && s.floor <= i ==> s.err)
    && (s.user.Flushing? ==> s.user.flush + 1 == |s.b.marks| && s.b.marks[s.user.flush] == |s.b.accepted|)
    && (s.user.Reading? ==> s.user.flush + 1 == |s.b.marks| && s.b.marks[s.user.flush] == |s.b.accepted| && s.user.flush in s.b.closed)
    && (s.user.Committing? ==> s.floor == |s.b.accepted| && AllUploaded(s, s.user.from))
  }

  /** Every job from place `from` on has ended in success. */
  ghost predicate AllUploaded<T>(s: State<T>, from: nat) {
    forall i :: from <= i < |s.b.accepted| ==> i in s.ended && s.ended[i]
  }

  /** When flush returns no error, every job enqueued since the flush before it has ended, and has succeeded. */
  lemma NoErrorMeansUploaded<T>(c: S.Config, s: State<T>, i: nat)
    requires Inv(c, s) && s.user.Reading? && !s.err
    requires s.floor <= i < |s.b.accepted|
    ensures i in s.ended && s.ended[i]
  {
    S.ClosedMeansHandled(c, s.b, s.user.flush, i);
    var b :| b in s.b.done && b < |s.b.started| && S.Holds(s.b.started, b, i);
    assert InBundle(s, b, i) && AllEnded(s, b);
  }

  lemma SameBundle<T>(s: State<T>, s': State<T>, b: nat, i: nat)
    requires s.b.started <= s'.b.started && b < |s.b.started|
    ensures InBundle(s', b, i) <==> InBundle(s, b, i)
  {
    assert s'.b.started[..b] == s.b.started[..b];
  }

  lemma StepKeeps<T>(c: S.Config, s: State<T>, step: Step<T>)
    requires Inv(c, s) && Enabled(c, s, step)
    ensures Inv(c, Next(c, s, step))
  {
    hide S.Inv, S.Enabled, S.Holds;
    var s' := Next(c, s, step);
    match step {
      case Bundler(st) =>
        S.StepKeeps(c, s.b, st);
        S.StepShape(c, s.b, st);
        BundlerStepEnded(c, s, st);
      case JobEnds(i, _) =>
        var b :| b !in s.b.done && InBundle(s, b, i);
        S.HeldIsAccepted(c, s.b, b, i);
        SameBundlesEnded(s, s');
      case TakeError =>
        SameBundlesEnded(s, s');
        if !s.err {
          forall i | s.floor <= i < |s.b.accepted| ensures i in s.ended && s.ended[i] {
            NoErrorMeansUploaded(c, s, i);
          }
        }
      case PutRefs =>
      case EndCommit =>
        SameBundlesEnded(s, s');
    }
  }

  lemma SameBundlesEnded<T>(s: State<T>, s': State<T>)
    requires s'.b == s.b && s.ended.Keys <= s'.ended.Keys
    requires forall b :: b in s.b.done ==> AllEnded(s, b)
    ensures forall b :: b in s'.b.done ==> AllEnded(s', b)
  {
    forall b | b in s'.b.done ensures AllEnded(s', b) {
      forall i | InBundle(s', b, i) ensures i in s'.ended {
        assert AllEnded(s, b) && InBundle(s, b, i);
      }
    }
  }

  lemma BundlerStepEnded<T>(c: S.Config, s: State<T>, st: S.Step<T>)
    requires Inv(c, s) && Enabled(c, s, Bundler(st))
    requires s.b.started <= S.Next(c, s.b, st).started
    requires S.Next(c, s.b, st).done == (if st.Finish? then s.b.done + {st.index} else s.b.done)
    ensures forall b :: b in S.Next(c, s.b, st).done ==> AllEnded(Next(c, s, Bundler(st)), b)
  {
    hide S.Enabled, S.Holds, S.Next;
    var s' := Next(c, s, Bundler(st));
    forall b | b in s'.b.done ensures AllEnded(s', b) {
      assert b < |s.b.started| by { DoneWasStarted(c, s, st, b); }
      assert AllEnded(s, b);
      forall i | InBundle(s', b, i) ensures i in s'.ended {
        SameBundle(s, s', b, i);
      }
    }
  }

  lemma DoneWasStarted<T>(c: S.Config, s: State<T>, st: S.Step<T>, b: nat)
    requires S.Inv(c, s.b) && S.Enabled(c, s.b, st)
    requires b in (if st.Finish? then s.b.done + {st.index} else s.b.done)
    ensures b < |s.b.started|
  {
  }

  function Initial<T>(): State<T> {
    State(S.Initial(), false, map[], Idle, 0)
  }

  ghost predicate IsRun<T>(c: S.Config, states: seq<State<T>>, steps: seq<Step<T>>) {
    && |states| == |steps| + 1 && states[0] == Initial()
    && forall i :: 0 <= i < |steps| ==> Enabled(c, states[i], steps[i]) && states[i + 1] == Next(c, states[i], steps[i])
  }

  lemma {:induction false} RunInv<T>(c: S.Config, states: seq<State<T>>, steps: seq<Step<T>>, n: nat)
    requires IsRun(c, states, steps) && n < |states|
    ensures Inv(c, states[n])
  {
    if n == 0 {
      S.InitialInv<T>(c);
    } else {
      RunInv(c, states, steps, n - 1);
      StepKeeps(c, states[n - 1], steps[n - 1]);
    }
  }

  /** In every run, when the packed refs are put, every job enqueued since the flush before the last
      one has ended in success. */
  lemma PutAfterUploads<T>(c: S.Config, states: seq<State<T>>, steps: seq<Step<T>>, t: nat, i: nat)
    requires IsRun(c, states, steps) && t < |steps| && steps[t] == PutRefs
    requires states[t].user.from <= i < |states[t].b.accepted|
    ensures i in states[t].ended && states[t].ended[i]
  {
    RunInv(c, states, steps, t);
  }

  /** A put follows a flush that read no error, with nothing enqueued since, and `from` is where the
      jobs since the flush before it begin. */
  lemma {:induction false} PutFollowsFlush<T>(c: S.Config, states: seq<State<T>>, steps: seq<Step<T>>, t: nat) returns (t0: nat)
    requires IsRun(c, states, steps) && t < |states| && states[t].user.Committing?
    ensures t0 < t && steps[t0] == TakeError && !states[t0].err
    ensures states[t].user.from == states[t0].floor && |states[t].b.accepted| == |states[t0].b.accepted|
  {
    var n := t - 1;
    RunInv(c, states, steps, n);
    if steps[n] == TakeError {
      t0 := n;
    } else {
      if steps[n].Bundler? {
        S.StepShape(c, states[n].b, steps[n].step);
      }
      t0 := PutFollowsFlush(c, states, steps, n);
    }
  }

  /** The floor is where the jobs not settled by a flush begin: it moves only when a flush ends. */
  lemma {:induction false} FloorIsLastFlush<T>(c: S.Config, states: seq<State<T>>, steps: seq<Step<T>>, t: nat)
    requires IsRun(c, states, steps) && t < |states|
    ensures states[t].floor == 0 || exists t0 :: EndsFlush(states, steps, t0, t, states[t].floor)
  {
    hide S.Enabled, S.Next;
    if t > 0 {
      FloorIsLastFlush(c, states, steps, t - 1);
      if steps[t - 1] == TakeError {
        assert EndsFlush(states, steps, t - 1, t, states[t].floor);
      } else if states[t].floor != 0 {
        var t0 :| EndsFlush(states, steps, t0, t - 1, states[t - 1].floor);
        assert EndsFlush(states, steps, t0, t, states[t].floor);
      }
    }
  }

  /** The last flush to end before time `t` ended at step `t0`, with `n` jobs accepted. */
  ghost predicate EndsFlush<T>(states: seq<State<T>>, steps: seq<Step<T>>, t0: int, t: nat, n: nat) {
    && 0 <= t0 < t <= |steps| < |states| && steps[t0] == TakeError && |states[t0].b.accepted| == n
    && forall k :: t0 < k < t ==> steps[k] != TakeError
  }

  // What the slot forgets: a flush that returns an error clears it.

  /** No flush before time `t` read an error. */
  ghost predicate NoErrorRead<T>(states: seq<State<T>>, steps: seq<Step<T>>, t: nat) {
    t <= |steps| && t <= |states| && forall k :: 0 <= k < t && steps[k] == TakeError ==> !states[k].err
  }

  ghost predicate Failed<T>(s: State<T>, i: nat) {
    i in s.ended && !s.ended[i]
  }

  /** A job that ended stays as it ended. */
  lemma {:induction false} EndedStays<T>(c: S.Config, states: seq<State<T>>, steps: seq<Step<T>>, t: nat, t1: nat, i: nat)
    requires IsRun(c, states, steps) && t <= t1 < |states| && i in states[t].ended
    ensures i in states[t1].ended && states[t1].ended[i] == states[t].ended[i]
    decreases t1
  {
    hide S.Enabled, S.Next;
    if t < t1 {
      EndedStays(c, states, steps, t, t1 - 1, i);
    }
  }

  /** The slot holds an error only if some job failed. */
  lemma {:induction false} ErrorMeansFailed<T>(c: S.Config, states: seq<State<T>>, steps: seq<Step<T>>, t: nat) returns (i: nat)
    requires IsRun(c, states, steps) && t < |states| && states[t].err
    ensures Failed(states[t], i)
  {
    hide S.Enabled, S.Next;
    var step := steps[t - 1];
    if step.JobEnds? && !step.ok {
      i := step.job;
    } else {
      i := ErrorMeansFailed(c, states, steps, t - 1);
      EndedStays(c, states, steps, t - 1, t, i);
    }
  }

  /** As long as no flush read an error, everything a flush settled has succeeded. */
  lemma {:induction false} SettledSucceeded<T>(c: S.Config, states: seq<State<T>>, steps: seq<Step<T>>, t: nat, i: nat)
    requires IsRun(c, states, steps) && t < |states| && NoErrorRead(states, steps, t) && i < states[t].floor
    ensures i in states[t].ended && states[t].ended[i]
  {
    hide S.Enabled, S.Next;
    if t > 0 {
      var n := t - 1;
      if steps[n] == TakeError && states[n].floor <= i {
        RunInv(c, states, steps, n);
        NoErrorMeansUploaded(c, states[n], i);
      } else {
        SettledSucceeded(c, states, steps, n, i);
      }
      EndedStays(c, states, steps, n, t, i);
    }
  }

  /** When the packed refs are put, every job ever accepted has ended in success if and only if no flush
      before has read an error: a failed flush forgets its failure, and the next commit goes through. */
  lemma PutIffNoErrorRead<T>(c: S.Config, states: seq<State<T>>, steps: seq<Step<T>>, t: nat)
    requires IsRun(c, states, steps) && t < |steps| && steps[t] == PutRefs
    ensures AllUploaded(states[t], 0) <==> NoErrorRead(states, steps, t)
  {
    hide S.Inv, S.Enabled, S.Next;
    RunInv(c, states, steps, t);
    if NoErrorRead(states, steps, t) {
      forall i | 0 <= i < |states[t].b.accepted| ensures i in states[t].ended && states[t].ended[i] {
        SettledSucceeded(c, states, steps, t, i);
      }
    } else {
      var k :| 0 <= k < t && steps[k] == TakeError && states[k].err;
      var i := ErrorMeansFailed(c, states, steps, k);
      EndedStays(c, states, steps, k, t, i);
      assert i < |states[t].b.accepted| && !states[t].ended[i];
    }
  }

  // A run in which it does: one job, which fails.

  const ONE_AT_A_TIME: S.Config := S.Config(1, 1000, 0, 1000, 1)

  /** The job was handed to a handler. */
  function Handed<T>(item: T): S.State<T> {
    S.State([item], [S.Bundle([item], 1, 0)], {}, [], None, 1, 1, 0, [1], [], {})
  }

  /** The handler returned. */
  function Returned<T>(item: T, counts: seq<nat>, marks: seq<nat>, closed: set<nat>): S.State<T> {
    S.State([item], [S.Bundle([item], 1, 0)], {0}, [], None, 0, 0, 0, counts, marks, closed)
  }

  lemma HandedOver<T>(item: T) returns (reserved: S.State<T>)
    ensures var c, first := ONE_AT_A_TIME, S.Initial<T>();
            && S.Enabled(c, first, S.Reserve(1)) && S.Next(c, first, S.Reserve(1)) == reserved
            && S.Enabled(c, reserved, S.AddItem(item, 1)) && S.Next(c, reserved, S.AddItem(item, 1)) == Handed(item)
  {
    reserved := S.State([], [], {}, [], None, 0, 1, 1, [0], [], {});
    assert S.Fill(reserved, item, 1) == S.State([item], [], {}, [], Some(S.Bundle([item], 1, 0)), 0, 1, 0, [1], [], {});
  }

  lemma HandedBack<T>(item: T)
    ensures var c := ONE_AT_A_TIME;
            && S.Enabled(c, Handed(item), S.Finish(0)) && S.Next(c, Handed(item), S.Finish(0)) == Returned(item, [0], [], {})
  {
  }

  lemma FlushBoth<T>(item: T, counts: seq<nat>, marks: seq<nat>, closed: set<nat>)
    requires |counts| == |marks| + 1 && (forall k :: 0 <= k < |counts| ==> counts[k] == 0) && (forall k :: k in closed <==> 0 <= k < |marks|)
    ensures var c, s, n := ONE_AT_A_TIME, Returned(item, counts, marks, closed), |marks|;
            var s1 := Returned(item, counts + [0], marks + [1], closed);
            && S.Enabled(c, s, S.FlushBegin) && S.Next(c, s, S.FlushBegin) == s1
            && S.Enabled(c, s1, S.FlushEnd(n)) && S.Next(c, s1, S.FlushEnd(n)) == Returned(item, counts + [0], marks + [1], closed + {n})
  {
  }

  lemma InHandler<T>(s: State<T>, item: T)
    requires s.b.started == [S.Bundle([item], 1, 0)]
    ensures InBundle(s, 0, 0) && forall i :: InBundle(s, 0, i) ==> i == 0
  {
    assert s.b.started[..0] == [];
  }

  /** The flush after the failure reports it and clears the slot; the next commit flushes without an
      error and puts the refs, although the job is not uploaded. */
  lemma FailureIsForgotten<T>(item: T) returns (states: seq<State<T>>, steps: seq<Step<T>>)
    ensures IsRun(ONE_AT_A_TIME, states, steps) && |steps| == 11 && steps[10] == PutRefs
    ensures |states[10].b.accepted| == 1 && Failed(states[10], 0) && !NoErrorRead(states, steps, 10)
  {
    hide S.Enabled, S.Next;
    var c := ONE_AT_A_TIME;
    var bad: map<nat, bool> := map[0 := false];
    var reserved := HandedOver(item);
    HandedBack(item);
    FlushBoth(item, [0], [], {});
    FlushBoth(item, [0, 0], [1], {0});
    var b0, b1, b2 := Returned(item, [0], [], {}), Returned(item, [0] + [0], [] + [1], {}), Returned(item, [0] + [0], [] + [1], {} + {0});
    var b3, b4 := Returned(item, [0, 0] + [0], [1] + [1], {0}), Returned(item, [0, 0] + [0], [1] + [1], {0} + {1});
    var s2 := State(Handed(item), false, map[], Idle, 0);
    var s3 := State(Handed(item), true, bad, Idle, 0);
    InHandler(s2, item);
    InHandler(s3, item);
    steps := [Bundler(S.Reserve(1)), Bundler(S.AddItem(item, 1)), JobEnds(0, false), Bundler(S.Finish(0)), Bundler(S.FlushBegin),
              Bundler(S.FlushEnd(0)), TakeError, Bundler(S.FlushBegin), Bundler(S.FlushEnd(1)), TakeError, PutRefs];
    states := [Initial(), State(reserved, false, map[], Idle, 0), s2, s3, State(b0, true, bad, Idle, 0), State(b1, true, bad, Flushing(0), 0),
               State(b2, true, bad, Reading(0), 0), State(b2, false, bad, Idle, 1), State(b3, false, bad, Flushing(1), 1),
               State(b4, false, bad, Reading(1), 1), State(b4, false, bad, Committing(1), 1), State(b4, false, bad, Committing(1), 1)];
    assert b2 == Returned(item, [0, 0], [1], {0});
    assert steps[6] == TakeError && states[6].err;
  }

  /** A job weight, clamped to the semaphore so that an acquire can always be granted. */
  function SizeHint(bytes: nat, bufferedByteLimit: int): (w: nat)
    ensures bufferedByteLimit > 0 ==> w <= bufferedByteLimit
    ensures w <= bytes && (bytes <= bufferedByteLimit || bufferedByteLimit <= 0 ==> w == bytes)
  {
    if bufferedByteLimit > 0 && bytes > bufferedByteLimit then bufferedByteLimit else bytes
  }

  /** With nothing else held, a clamped job can always be reserved; an unclamped one larger than the
      whole semaphore never can. */
  lemma ClampedJobFits<T>(c: S.Config, s: S.State<T>, bytes: nat)
    requires s.held == 0 && c.byteLimit <= 0 && c.bufferLimit > 0
    ensures S.Enabled(c, s, S.Reserve(SizeHint(bytes, c.bufferLimit)))
    ensures S.Enabled(c, s, S.Reserve(bytes)) <==> bytes <= c.bufferLimit
  {
  }
}
