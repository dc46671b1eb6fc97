/** Object bodies while the resolver needs them: in memory under a budget, or spilled to a file. */
module Bodies {
  import opened Prelude
  import opened Sums

  /** An object or a delta, in memory or in a temporary file, until it is released. */
  class Body {
    var mem: Option<Bytes>
    var file: Option<Bytes>
    const size: nat

    constructor (mem: Option<Bytes>, file: Option<Bytes>, size: nat)
      ensures this.mem == mem && this.file == file && this.size == size
    {
      this.mem, this.file, this.size := mem, file, size;
    }

    /** The bytes a reader of the body sees. */
    function Content(): Bytes
      reads this
    {
      if file.Some? then file.value else if mem.Some? then mem.value else []
    }

    predicate Live()
      reads this
    {
      (mem.Some? || file.Some?) && size == |Content()|
    }
  }

  /** The memory account. `held` is what the live in-memory bodies take, which the source only
      knows as the sum `mem`. */
  class BodyPool {
    const limit: nat
    const budget: nat
    const steady: bool
    var mem: int
    ghost var held: map<Body, nat>

    ghost predicate Valid()
      reads this, held.Keys
    {
      && mem == Total(held) <= budget
      && forall b <- held :: b.mem.Some? && |b.mem.value| == held[b]
    }

    /** The pool knows whether a body is in memory. */
    ghost predicate Knows(b: Body)
      reads this, b
    {
      b.mem.Some? <==> b in held
    }

    constructor (limit: nat, budget: nat, steady: bool)
      ensures Valid() && held == map[] && mem == 0 && this.limit == limit && this.budget == budget && this.steady == steady
    {
      this.limit, this.budget, this.steady := limit, budget, steady;
      mem, held := 0, map[];
    }

    /** Collects one body that arrives in pieces of any size. Unless the disk is steady, any write to a
        file can fail. */
    method Collect(content: Bytes) returns (r: Option<Body>)
      requires Valid()
      modifies this
      ensures Valid()
      ensures (r.None? ==> held == old(held) && mem == old(mem)) && (steady ==> r.Some?)
      ensures r.Some? ==> fresh(r.value) && r.value.Live() && r.value.Content() == content && Knows(r.value)
      ensures r.Some? ==> held == if r.value.mem.Some? then old(held)[r.value := |content|] else old(held)
      ensures r.Some? ==> (r.value.mem.Some? <==> |content| <= limit && old(mem) + |content| <= budget)
    {
      hide Valid;
      var sink := new BodySink(this);
      var n := 0;
      while n < |content|
        modifies sink
        invariant fresh(sink) && sink.pool == this && sink.Open() && 0 <= n <= |content| && sink.content == content[..n]
      {
        var k: int :| n < k <= |content|;
        var ok := sink.Write(content[n..k]);
        if !ok {
          return None;
        }
        assert content[..k] == content[..n] + content[n..k];
        n := k;
      }
      assert content[..n] == content;
      r := sink.Finish();
    }

    /** Frees a body. A body already released changes nothing. */
    method Release(b: Body)
      requires Valid() && Knows(b)
      modifies this, b
      ensures Valid() && Knows(b)
      ensures held == old(held) - {b} && b.mem == None && b.file == None
      ensures mem == old(mem) - (if b in old(held) then old(held)[b] else 0)
    {
      b.file := None;
      if b.mem.Some? {
        TotalWithout(held, b);
        mem := mem - |b.mem.value|;
        held := held - {b};
        b.mem := None;
      }
    }
  }

  /** Collects one body: in memory at first, and in a file as soon as it passes what the pool admits.
      `content` is what was written so far. */
  class BodySink {
    const pool: BodyPool
    const most: int
    const memAtOpen: int
    var buf: Bytes
    var file: Option<Bytes>
    var n: nat
    ghost var content: Bytes

    /** While the sink is open, the bodies in memory and what it holds stay within the budget together. */
    ghost predicate Open()
      reads this, pool
    {
      && pool.mem == memAtOpen && most == (if pool.limit < pool.budget - pool.mem then pool.limit else pool.budget - pool.mem)
      && |buf| <= most && pool.mem + |buf| <= pool.budget && n == |content|
      && if file.Some? then buf == [] && file.value == content && n > most else buf == content
    }

    constructor (pool: BodyPool)
      requires pool.Valid()
      ensures this.pool == pool && Open() && content == []
    {
      this.pool, memAtOpen := pool, pool.mem;
      most := if pool.limit < pool.budget - pool.mem then pool.limit else pool.budget - pool.mem;
      buf, file, n, content := [], None, 0, [];
    }

    /** Appends a piece. One that would pass the limit moves everything to a file first. */
    method Write(p: Bytes) returns (ok: bool)
      requires Open()
      modifies this
      ensures pool.mem + |buf| <= pool.budget && (pool.steady ==> ok)
      ensures ok ==> Open() && content == old(content) + p
    {
      if file.None? && |buf| + |p| > most {
        file, buf := Some(buf), [];
      }
      n := n + |p|;
      content := content + p;
      if file.Some? {
        var failed: bool := *;
        if failed && !pool.steady {
          return false;
        }
        file := Some(file.value + p);
      } else {
        buf := buf + p;
      }
      ok := true;
    }

    /** Hands over the body, which counts when it is in memory. A file may fail to be finished. */
    method Finish() returns (r: Option<Body>)
      requires Open() && pool.Valid()
      modifies pool
      ensures pool.Valid()
      ensures (r.None? ==> pool.held == old(pool.held) && pool.mem == old(pool.mem)) && (pool.steady ==> r.Some?)
      ensures r.Some? ==> fresh(r.value) && r.value.Live() && r.value.Content() == content && pool.Knows(r.value)
      ensures r.Some? ==> pool.held == if r.value.mem.Some? then old(pool.held)[r.value := |content|] else old(pool.held)
      ensures r.Some? ==> (r.value.mem.Some? <==> |content| <= pool.limit && old(pool.mem) + |content| <= pool.budget)
    {
      var failed: bool := *;
      if file.Some? && failed && !pool.steady {
        return None;
      }
      var b := new Body(if file.Some? then None else Some(buf), file, n);
      r := Some(b);
      if file.None? {
        TotalWith(pool.held, b, |buf|);
        pool.held := pool.held[b := |buf|];
        pool.mem := pool.mem + |buf|;
      }
    }
  }
}
