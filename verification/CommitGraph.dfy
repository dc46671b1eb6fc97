/** The commit graph of a repository: paths along parent links, reachability, acyclicity. */
module CommitGraph {
  import opened Prelude

  /** The stored commits: each hash with its parents, in recorded order. */
  type Commits = map<Hash, seq<Hash>>

  ghost predicate Edge(g: Commits, child: Hash, parent: Hash) {
    child in g && parent in g[child]
  }

  ghost predicate IsPath(g: Commits, p: seq<Hash>) {
    |p| > 0 && forall i :: 0 <= i < |p| - 1 ==> Edge(g, p[i], p[i + 1])
  }

  ghost predicate PathFromTo(g: Commits, p: seq<Hash>, a: Hash, b: Hash) {
    IsPath(g, p) && p[0] == a && p[|p| - 1] == b
  }

  /** `b` is `a` itself or one of its ancestors. */
  ghost predicate Reaches(g: Commits, a: Hash, b: Hash) {
    exists p :: PathFromTo(g, p, a, b)
  }

  ghost predicate Acyclic(g: Commits) {
    forall p :: IsPath(g, p) && |p| > 1 ==> p[0] != p[|p| - 1]
  }

  lemma ReachesSelf(g: Commits, a: Hash)
    ensures Reaches(g, a, a)
  {
    assert PathFromTo(g, [a], a, a);
  }

  lemma ReachesParent(g: Commits, a: Hash, b: Hash, c: Hash)
    requires Reaches(g, a, b) && Edge(g, b, c)
    ensures Reaches(g, a, c)
  {
    var p :| PathFromTo(g, p, a, b);
    assert PathFromTo(g, p + [c], a, c);
  }

  lemma PathJoin(g: Commits, p: seq<Hash>, q: seq<Hash>)
    requires IsPath(g, p) && IsPath(g, q) && p[|p| - 1] == q[0]
    ensures PathFromTo(g, p + q[1..], p[0], q[|q| - 1])
  {
    var joined := p + q[1..];
    forall i | 0 <= i < |joined| - 1 ensures Edge(g, joined[i], joined[i + 1]) {
      if i >= |p| - 1 {
        assert joined[i] == q[i - |p| + 1] && joined[i + 1] == q[i - |p| + 2];
      }
    }
  }

  /** On an acyclic graph two commits that reach each other are the same commit. */
  lemma MutualReachIsEqual(g: Commits, a: Hash, b: Hash)
    requires Acyclic(g) && Reaches(g, a, b) && Reaches(g, b, a)
    ensures a == b
  {
    var p :| PathFromTo(g, p, a, b);
    var q :| PathFromTo(g, q, b, a);
    PathJoin(g, p, q);
    assert |p + q[1..]| == 1;
  }

  /** A set that leads back only into itself or into a second such set holds a whole path. */
  lemma {:induction false} ClosedAlongPath(g: Commits, closed: set<Hash>, out: set<Hash>, p: seq<Hash>)
    requires IsPath(g, p) && p[0] in closed
    requires forall h, q :: h in closed && Edge(g, h, q) ==> q in closed || q in out
    requires forall h, q :: h in out && Edge(g, h, q) ==> q in out
    ensures p[|p| - 1] in closed || p[|p| - 1] in out
    decreases |p|
  {
    if |p| > 1 {
      var rest := p[1..];
      assert Edge(g, p[0], p[1]);
      forall i | 0 <= i < |rest| - 1 ensures Edge(g, rest[i], rest[i + 1]) {
        assert Edge(g, p[i + 1], p[i + 2]);
      }
      if p[1] in closed {
        ClosedAlongPath(g, closed, out, rest);
      } else {
        ClosedAlongPath(g, out, {}, rest);
      }
    }
  }

  lemma ClosedHoldsReachable(g: Commits, closed: set<Hash>, out: set<Hash>, a: Hash, b: Hash)
    requires a in closed && Reaches(g, a, b)
    requires forall h, q :: h in closed && Edge(g, h, q) ==> q in closed || q in out
    requires forall h, q :: h in out && Edge(g, h, q) ==> q in out
    ensures b in closed || b in out
  {
    var p :| PathFromTo(g, p, a, b);
    ClosedAlongPath(g, closed, out, p);
  }
}
