/** The bundler as it is built: a linked queue of bundles, a current bundle, a handler count, a
    weighted semaphore, and one wait group and one channel per flush. Every critical section
    refines its step of the step system. Bundles, wait groups and channels live in stores, and a
    reference to one is its number in its store. */
module Bundler {
  import opened Prelude
  import S = BundlerSpec

  datatype Node<T> = Node(items: seq<T>, size: nat, flush: nat, next: Option<nat>) {
    function View(): S.Bundle<T> {
      S.Bundle(items, size, flush)
    }

    function Add(item: T, extra: nat): (n: Node<T>)
      ensures n.View() == S.Put(View(), item, extra) && n.next == next
    {
      Node(items + [item], size + extra, flush, next)
    }
  }

  function Views<T>(ns: seq<Node<T>>): (v: seq<S.Bundle<T>>)
    ensures |v| == |ns| && forall i :: 0 <= i < |ns| ==> v[i] == ns[i].View()
  {
    seq(|ns|, i requires 0 <= i < |ns| => ns[i].View())
  }

  lemma LinkedViews<T>(ns: seq<Node<T>>, ns': seq<Node<T>>, a: nat, n: nat)
    requires a + n < |ns| == |ns'| && forall i :: 0 <= i < |ns| ==> ns'[i].View() == ns[i].View()
    ensures Views(ns'[..a]) == Views(ns[..a])
    ensures Views(ns'[a..a + n + 1]) == Views(ns[a..a + n]) + [ns[a + n].View()]
  {
  }

  lemma UnlinkedViews<T>(ns: seq<Node<T>>, ns': seq<Node<T>>, a: nat, n: nat)
    requires 0 < n && a + n <= |ns| && ns' == ns[a := ns[a].(next := None)]
    ensures Views(ns'[..a + 1]) == Views(ns[..a]) + [Views(ns[a..a + n])[0]]
    ensures Views(ns'[a + 1..a + n]) == Views(ns[a..a + n])[1..]
    ensures a + n < |ns| ==> ns'[a + n].View() == ns[a + n].View()
  {
  }

  lemma TailViews<T>(ns: seq<Node<T>>, ns': seq<Node<T>>, a: nat, n: nat)
    requires 0 < n && a + n <= |ns| && |ns'| == |ns| && ns' == ns[a + n - 1 := ns'[a + n - 1]]
    ensures Views(ns'[..a]) == Views(ns[..a])
    ensures Views(ns'[a..a + n]) == Views(ns[a..a + n])[n - 1 := ns'[a + n - 1].View()]
  {
  }

  lemma LastView<T>(ns: seq<Node<T>>, a: nat, n: nat)
    requires 0 < n && a + n <= |ns|
    ensures Views(ns[a..a + n])[n - 1] == ns[a + n - 1].View()
  {
    assert ns[a..a + n][n - 1] == ns[a + n - 1];
  }

  class Queue<T> {
    const config: S.Config
    var nodes: seq<Node<T>>
    var head: Option<nat>
    var tail: Option<nat>
    var cur: Option<nat>
    var handlerCount: nat
    var held: nat
    var waitGroups: seq<nat>
    var channels: seq<bool>

    // History that the code does not keep: nodes[..nStarted] went to a handler, and the
    // next nQueued are the linked queue.
    ghost var nStarted: nat
    ghost var nQueued: nat
    ghost var done: set<nat>
    ghost var accepted: seq<T>
    ghost var reserved: nat
    ghost var marks: seq<nat>
    ghost var closed: set<nat>

    /** The queue is nodes[nStarted..nStarted+nQueued], linked in that order from head to tail. */
    ghost predicate Linked()
      reads this
    {
      && nStarted + nQueued <= |nodes| <= nStarted + nQueued + 1
      && head == (if nQueued == 0 then None else Some(nStarted))
      && tail == (if nQueued == 0 then None else Some(nStarted + nQueued - 1))
      && cur == (if |nodes| == nStarted + nQueued then None else Some(nStarted + nQueued))
      && (forall i :: nStarted <= i < nStarted + nQueued - 1 ==> nodes[i].next == Some(i + 1))
      && (forall i :: nStarted + nQueued - 1 <= i < |nodes| && nStarted <= i ==> nodes[i].next == None)
      && |waitGroups| == |marks| + 1 && |channels| == |marks|
      && (forall k :: k in closed <==> 0 <= k < |channels| && channels[k])
    }

    ghost function Abs(): S.State<T>
      reads this
      requires nStarted + nQueued <= |nodes|
    {
      S.State(accepted, Views(nodes[..nStarted]), done, Views(nodes[nStarted..nStarted + nQueued]),
              (if |nodes| == nStarted + nQueued then None else Some(nodes[nStarted + nQueued].View())),
              handlerCount, held, reserved, waitGroups, marks, closed)
    }

    ghost predicate Valid()
      reads this
    {
      Linked() && S.Inv(config, Abs())
    }

    constructor (config: S.Config)
      ensures Valid() && Abs() == S.Initial() && this.config == config
    {
      this.config := config;
      nodes, head, tail, cur, handlerCount, held := [], None, None, None, 0, 0;
      waitGroups, channels := [0], [];
      nStarted, nQueued, done, accepted, reserved, marks, closed := 0, 0, {}, [], 0, [], {};
      new;
      S.InitialInv<T>(config);
    }

    /** Moves the current bundle to a handler or to the end of the linked queue. */
    method EnqueueCurBundle()
      requires Valid()
      modifies this
      ensures Valid() && cur == None && reserved == old(reserved) && marks == old(marks)
      ensures Abs() == S.EnqueueCur(config, old(Abs()))
    {
      hide S.Inv;
      S.EnqueueKeeps(config, Abs());
      S.InvFacts(config, Abs());
      if cur.None? {
        return;
      }
      if handlerCount < config.handlerLimit {
        StartCur();
      } else {
        LinkCur();
      }
    }

    method StartCur()
      requires Linked() && cur.Some? && nQueued == 0
      modifies this
      ensures Linked() && cur.None?
      ensures var s := old(Abs());
              Abs() == s.(handlers := s.handlers + 1, started := s.started + [s.cur.value], cur := None)
    {
      handlerCount := handlerCount + 1;
      nStarted := nStarted + 1;
      cur := None;
      assert Views(nodes[..nStarted]) == old(Views(nodes[..nStarted])) + [old(Abs()).cur.value];
    }

    method LinkCur()
      requires Linked() && cur.Some?
      modifies this
      ensures Linked() && cur.None?
      ensures var s := old(Abs());
              Abs() == s.(queue := s.queue + [s.cur.value], cur := None)
    {
      hide Views;
      if tail.Some? {
        nodes := nodes[tail.value := nodes[tail.value].(next := cur)];
        tail := cur;
      } else {
        head := cur;
        tail := cur;
      }
      nQueued := nQueued + 1;
      cur := None;
      LinkedViews(old(nodes), nodes, nStarted, old(nQueued));
    }

    /** Adds an accepted item to the queued tail, or to the current bundle. */
    method Add(item: T, size: nat)
      requires Valid() && size <= reserved && (config.byteLimit > 0 ==> size <= config.byteLimit)
      modifies this
      ensures Valid()
      ensures Abs() == S.Add(config, old(Abs()), item, size)
    {
      hide S.Inv, S.CanFit, S.Fill, S.PutTail, S.EnqueueCur, S.Settle, Views;
      S.InvFacts(config, Abs());
      S.AddKeeps(config, Abs(), item, size);
      if nQueued > 0 {
        LastView(nodes, nStarted, nQueued);
      }
      if tail.Some? && cur.None? && S.CanFit(config, nodes[tail.value].View(), size) {
        AddToTail(item, size);
        return;
      }
      if cur.Some? && !S.CanFit(config, nodes[cur.value].View(), size) {
        EnqueueCurBundle();
      }
      Fill(item, size);
    }

    /** Puts the item into the current bundle, which goes on when it has reached a threshold. */
    method Fill(item: T, size: nat)
      requires Valid() && size <= reserved && (cur.Some? ==> S.CanFit(config, nodes[cur.value].View(), size))
      requires config.byteLimit > 0 ==> size <= config.byteLimit
      modifies this
      ensures |old(Abs()).counts| == |old(Abs()).marks| + 1 && Valid()
      ensures Abs() == S.Settle(config, S.Fill(old(Abs()), item, size))
    {
      hide S.Inv, S.CanFit, S.Fill, S.EnqueueCur;
      S.FillKeeps(config, Abs(), item, size);
      AddToCur(item, size);
      if nodes[cur.value].size >= config.byteThreshold || |nodes[cur.value].items| == config.countThreshold {
        EnqueueCurBundle();
      }
    }

    method AddToTail(item: T, size: nat)
      requires Linked() && size <= reserved && tail.Some? && cur.None?
      modifies this
      ensures Linked()
      ensures Abs() == S.PutTail(old(Abs()), item, size)
    {
      hide Views;
      LastView(nodes, nStarted, nQueued);
      accepted, reserved := accepted + [item], reserved - size;
      nodes := nodes[tail.value := nodes[tail.value].Add(item, size)];
      TailViews(old(nodes), nodes, nStarted, nQueued);
    }

    /** Puts the item into the current bundle, opening one in the current flush when there is none. */
    method AddToCur(item: T, size: nat)
      requires Linked() && size <= reserved
      modifies this
      ensures Linked() && Abs() == S.Fill(old(Abs()), item, size) && cur.Some?
    {
      hide Views;
      var fresh_ := cur.None?;
      if fresh_ {
        var g := |waitGroups| - 1;
        waitGroups := waitGroups[g := waitGroups[g] + 1];
        cur := Some(|nodes|);
        nodes := nodes + [Node([item], size, g, None)];
      } else {
        nodes := nodes[cur.value := nodes[cur.value].Add(item, size)];
      }
      accepted, reserved := accepted + [item], reserved - size;
      assert nodes[..nStarted] == old(nodes[..nStarted]);
      assert nodes[nStarted..nStarted + nQueued] == old(nodes[nStarted..nStarted + nQueued]);
    }

    /** AddWait and Add acquire the item's weight before they take the lock. A weight the semaphore
        cannot grant leaves everything as it was. */
    method Reserve(size: nat) returns (ok: bool)
      requires Valid() && (config.byteLimit > 0 ==> size <= config.byteLimit)
      modifies this
      ensures Valid() && (ok <==> old(held) + size <= config.bufferLimit)
      ensures if ok then Abs() == S.Next(config, old(Abs()), S.Reserve(size)) else Abs() == old(Abs())
    {
      hide S.Inv;
      ok := held + size <= config.bufferLimit;
      if ok {
        S.StepKeeps(config, Abs(), S.Reserve(size));
        held, reserved := held + size, reserved + size;
      }
    }

    /** The handler returned from bundle `done`: give back its weight, count it down in its wait
        group, and hand out the head of the queue, or end the handler when the queue is empty. */
    method PostHandle(bundle: nat) returns (next: Option<nat>)
      requires Valid() && bundle < nStarted && bundle !in done
      modifies this
      ensures Valid() && S.Enabled(config, old(Abs()), S.Finish(bundle))
      ensures Abs() == S.Next(config, old(Abs()), S.Finish(bundle))
      ensures next == (if old(nQueued) == 0 then None else Some(old(nStarted)))
    {
      hide S.Inv;
      S.FinishEnabled(config, Abs(), bundle);
      S.StepKeeps(config, Abs(), S.Finish(bundle));
      assert Abs().started[bundle] == nodes[bundle].View();
      Release(bundle);
      hide Linked;
      next := TakeHead();
      if next.None? {
        handlerCount := handlerCount - 1;
      }
    }

    /** Gives back a bundle's weight and counts it down. */
    method Release(bundle: nat)
      requires Linked() && bundle < nStarted && S.Releasable(Abs(), bundle)
      modifies this`held, this`waitGroups, this`done
      ensures Linked()
      ensures var s := old(Abs());
              var b := s.started[bundle];
              Abs() == s.(done := s.done + {bundle}, held := s.held - b.size, counts := s.counts[b.group := s.counts[b.group] - 1])
    {
      held := held - nodes[bundle].size;
      waitGroups := waitGroups[nodes[bundle].flush := waitGroups[nodes[bundle].flush] - 1];
      done := done + {bundle};
    }

    /** Unlinks the head of the queue. */
    method TakeHead() returns (out: Option<nat>)
      requires Linked()
      modifies this`nodes, this`head, this`tail, this`nStarted, this`nQueued
      ensures Linked() && out == (if old(nQueued) == 0 then None else Some(old(nStarted)))
      ensures var s := old(Abs());
              Abs() == if out.None? then s else s.(started := s.started + [s.queue[0]], queue := s.queue[1..])
      ensures out.None? <==> old(Abs()).queue == []
    {
      hide Views;
      out := Unlink();
      if out.Some? {
        hide Linked;
        UnlinkedViews(old(nodes), nodes, old(nStarted), old(nQueued));
      }
    }

    /** Moves the head on by one. */
    method Unlink() returns (out: Option<nat>)
      requires Linked()
      modifies this`nodes, this`head, this`tail, this`nStarted, this`nQueued
      ensures Linked() && out == (if old(nQueued) == 0 then None else Some(old(nStarted)))
      ensures out.None? ==> nodes == old(nodes) && nStarted == old(nStarted) && nQueued == old(nQueued)
      ensures out.Some? ==> nStarted == old(nStarted) + 1 && nQueued == old(nQueued) - 1 && old(nStarted) < |nodes|
                            && nodes == old(nodes)[old(nStarted) := old(nodes)[old(nStarted)].(next := None)]
    {
      out := head;
      if out.Some? {
        head := nodes[out.value].next;
        if head.None? {
          tail := None;
        }
        nodes := nodes[out.value := nodes[out.value].(next := None)];
        nStarted, nQueued := nStarted + 1, nQueued - 1;
      }
    }

    /** The first half of Flush: queue what is pending, and leave a wait group and a channel for the
        bundles and the flush to come. The flush is known by its number. */
    method FlushBegin() returns (flush: nat)
      requires Valid()
      modifies this
      ensures Valid() && S.Enabled(config, old(Abs()), S.FlushBegin)
      ensures Abs() == S.Next(config, old(Abs()), S.FlushBegin)
      ensures flush == |old(marks)|
    {
      hide S.Inv, S.EnqueueCur;
      S.StepKeeps(config, Abs(), S.FlushBegin);
      EnqueueCurBundle();
      flush := |channels|;
      waitGroups := waitGroups + [0];
      channels := channels + [false];
      marks := marks + [|accepted|];
    }

    /** The second half: the previous flush has let this one go on and its own wait group is at zero. */
    method FlushEnd(flush: nat)
      requires Valid() && flush < |channels| && flush < |waitGroups| && !channels[flush]
      requires flush == 0 || channels[flush - 1]
      requires waitGroups[flush] == 0
      modifies this
      ensures Valid() && S.Enabled(config, old(Abs()), S.FlushEnd(flush))
      ensures Abs() == S.Next(config, old(Abs()), S.FlushEnd(flush))
    {
      hide S.Inv;
      S.StepKeeps(config, Abs(), S.FlushEnd(flush));
      channels := channels[flush := true];
      closed := closed + {flush};
    }
  }
}
