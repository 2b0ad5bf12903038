/** Clusters of entities: connected components over the pairs scored at or above a threshold. */
module Clustering {
  import opened Prelude

  datatype Pair = Pair(a: Id, b: Id, prob: real)

  ghost predicate Linked(pairs: seq<Pair>, threshold: real, x: Id, y: Id) {
    exists p | p in pairs :: p.prob >= threshold && ((p.a == x && p.b == y) || (p.a == y && p.b == x))
  }

  ghost predicate IsPath(pairs: seq<Pair>, threshold: real, path: seq<Id>) {
    path != [] && forall i | 0 < i < |path| :: Linked(pairs, threshold, path[i - 1], path[i])
  }

  ghost predicate Connected(pairs: seq<Pair>, threshold: real, x: Id, y: Id) {
    exists path :: IsPath(pairs, threshold, path) && path[0] == x && path[|path| - 1] == y
  }

  function Nodes(pairs: seq<Pair>): set<Id> {
    (set p | p in pairs :: p.a) + (set p | p in pairs :: p.b)
  }

  // ---------------------------------------------------------------- connectivity

  lemma ConnectedSelf(pairs: seq<Pair>, threshold: real, x: Id)
    ensures Connected(pairs, threshold, x, x)
  {
    assert IsPath(pairs, threshold, [x]);
  }

  lemma ConnectedStep(pairs: seq<Pair>, threshold: real, x: Id, y: Id, z: Id)
    requires Connected(pairs, threshold, x, y) && Linked(pairs, threshold, y, z)
    ensures Connected(pairs, threshold, x, z)
  {
    var path :| IsPath(pairs, threshold, path) && path[0] == x && path[|path| - 1] == y;
    assert IsPath(pairs, threshold, path + [z]);
  }

  /** A set no link leaves: each link has both of its ends inside or both outside. */
  ghost predicate LinkClosed(pairs: seq<Pair>, threshold: real, s: set<Id>) {
    forall p | p in pairs && p.prob >= threshold :: p.a in s <==> p.b in s
  }

  lemma {:induction false} PathStaysInside(pairs: seq<Pair>, threshold: real, s: set<Id>, path: seq<Id>)
    requires LinkClosed(pairs, threshold, s) && IsPath(pairs, threshold, path) && path[0] in s
    ensures path[|path| - 1] in s
  {
    if |path| > 1 {
      assert Linked(pairs, threshold, path[0], path[1]);
      forall i | 0 < i < |path[1..]| ensures Linked(pairs, threshold, path[1..][i - 1], path[1..][i]) {
        assert path[1..][i - 1] == path[i] && path[1..][i] == path[i + 1];
      }
      PathStaysInside(pairs, threshold, s, path[1..]);
    }
  }

  /** Everything a node is connected to is link-closed, so no closed set that contains it can be smaller. */
  ghost function Reach(pairs: seq<Pair>, threshold: real, x: Id): set<Id> {
    set y | y in Nodes(pairs) + {x} && Connected(pairs, threshold, x, y)
  }

  lemma ReachIsClosed(pairs: seq<Pair>, threshold: real, x: Id)
    ensures LinkClosed(pairs, threshold, Reach(pairs, threshold, x))
  {
    forall p | p in pairs && p.prob >= threshold
      ensures p.a in Reach(pairs, threshold, x) <==> p.b in Reach(pairs, threshold, x)
    {
      assert Linked(pairs, threshold, p.a, p.b) && Linked(pairs, threshold, p.b, p.a);
      if Connected(pairs, threshold, x, p.a) { ConnectedStep(pairs, threshold, x, p.a, p.b); }
      if Connected(pairs, threshold, x, p.b) { ConnectedStep(pairs, threshold, x, p.b, p.a); }
      assert p.a in Nodes(pairs) && p.b in Nodes(pairs);
    }
  }

  // ---------------------------------------------------------------- the partition

  function Covered(blocks: set<set<Id>>): set<Id> {
    set b, x | b in blocks && x in b :: x
  }

  /** No link-closed set cuts through the block. */
  ghost predicate Uncut(pairs: seq<Pair>, threshold: real, b: set<Id>) {
    forall s | LinkClosed(pairs, threshold, s) :: b <= s || b !! s
  }

  /** The blocks partition the nodes, and each is link-closed and as small as that allows. */
  ghost predicate Partition(pairs: seq<Pair>, threshold: real, blocks: set<set<Id>>) {
    && Covered(blocks) == Nodes(pairs)
    && (forall b, c | b in blocks && c in blocks && b != c :: b !! c)
    && (forall b | b in blocks :: LinkClosed(pairs, threshold, b) && Uncut(pairs, threshold, b))
  }

  /** In a partition, two nodes share a block exactly when a path of links joins them. */
  lemma SameBlockIffConnected(pairs: seq<Pair>, threshold: real, blocks: set<set<Id>>, b: set<Id>, x: Id, y: Id)
    requires Partition(pairs, threshold, blocks) && b in blocks && x in b
    ensures y in b <==> Connected(pairs, threshold, x, y)
  {
    if y in b {
      ReachIsClosed(pairs, threshold, x);
      ConnectedSelf(pairs, threshold, x);
      assert y in Reach(pairs, threshold, x);
    }
    if Connected(pairs, threshold, x, y) {
      var path :| IsPath(pairs, threshold, path) && path[0] == x && path[|path| - 1] == y;
      PathStaysInside(pairs, threshold, b, path);
    }
  }

  /** The block of `x`, a new singleton if there is none yet. */
  function BlockOf(blocks: set<set<Id>>, x: Id): set<Id> {
    {x} + set b, y | b in blocks && x in b && y in b :: y
  }

  /** Adds the two nodes of a pair and, if it is strong enough, the link between them. */
  function AddPair(blocks: set<set<Id>>, p: Pair, threshold: real): set<set<Id>> {
    var a, b := BlockOf(blocks, p.a), BlockOf(blocks, p.b);
    (set c | c in blocks && p.a !in c && p.b !in c) + if p.prob >= threshold then {a + b} else {a, b}
  }

  lemma BlockOfIs(pairs: seq<Pair>, threshold: real, blocks: set<set<Id>>, x: Id)
    requires Partition(pairs, threshold, blocks)
    ensures var b := BlockOf(blocks, x);
      && x in b && (b in blocks || (b == {x} && x !in Nodes(pairs)))
      && (forall c | c in blocks && x in c :: c == b)
      && LinkClosed(pairs, threshold, b) && Uncut(pairs, threshold, b)
  {
    if c :| c in blocks && x in c {
      assert BlockOf(blocks, x) == c;
    } else {
      assert BlockOf(blocks, x) == {x};
      assert x !in Covered(blocks);
    }
  }

  lemma ClosedUnderMore(pairs: seq<Pair>, p: Pair, threshold: real, s: set<Id>)
    ensures LinkClosed(pairs + [p], threshold, s) <==>
            LinkClosed(pairs, threshold, s) && (p.prob >= threshold ==> (p.a in s <==> p.b in s))
  {
    assert p in pairs + [p];
  }

  lemma UncutUnderMore(pairs: seq<Pair>, p: Pair, threshold: real, b: set<Id>)
    requires Uncut(pairs, threshold, b)
    ensures Uncut(pairs + [p], threshold, b)
  {
    forall s | LinkClosed(pairs + [p], threshold, s) ensures b <= s || b !! s {
      ClosedUnderMore(pairs, p, threshold, s);
    }
  }

  lemma JoinedUncut(pairs: seq<Pair>, p: Pair, threshold: real, a: set<Id>, b: set<Id>)
    requires Uncut(pairs, threshold, a) && Uncut(pairs, threshold, b)
    requires p.a in a && p.b in b && p.prob >= threshold
    ensures Uncut(pairs + [p], threshold, a + b)
  {
    forall s | LinkClosed(pairs + [p], threshold, s) ensures a + b <= s || a + b !! s {
      ClosedUnderMore(pairs, p, threshold, s);
    }
  }

  lemma AddPairKeepsPartition(pairs: seq<Pair>, p: Pair, threshold: real, blocks: set<set<Id>>)
    requires Partition(pairs, threshold, blocks)
    ensures Partition(pairs + [p], threshold, AddPair(blocks, p, threshold))
  {
    var a, b := BlockOf(blocks, p.a), BlockOf(blocks, p.b);
    var after := AddPair(blocks, p, threshold);
    BlockOfIs(pairs, threshold, blocks, p.a);
    BlockOfIs(pairs, threshold, blocks, p.b);
    forall c | c in after
      ensures LinkClosed(pairs + [p], threshold, c) && Uncut(pairs + [p], threshold, c)
    {
      ClosedUnderMore(pairs, p, threshold, c);
      if c in blocks || c == a || c == b {
        UncutUnderMore(pairs, p, threshold, c);
      } else {
        JoinedUncut(pairs, p, threshold, a, b);
      }
    }
    AddPairCovers(blocks, p, threshold);
    NodesSnoc(pairs, p);
    forall c, d | c in after && d in after && c != d ensures c !! d {
      AddPairDisjoint(pairs, p, threshold, blocks, c, d);
    }
  }

  lemma BlockWithin(blocks: set<set<Id>>, x: Id)
    ensures BlockOf(blocks, x) <= Covered(blocks) + {x}
    ensures forall c | c in blocks && x in c :: c <= BlockOf(blocks, x)
  {
  }

  lemma AddPairCovers(blocks: set<set<Id>>, p: Pair, threshold: real)
    ensures Covered(AddPair(blocks, p, threshold)) == Covered(blocks) + {p.a, p.b}
  {
    var a, b := BlockOf(blocks, p.a), BlockOf(blocks, p.b);
    var after := AddPair(blocks, p, threshold);
    BlockWithin(blocks, p.a);
    BlockWithin(blocks, p.b);
    forall x | x in a + b ensures x in Covered(after) {
      assert (if p.prob >= threshold then a + b else if x in a then a else b) in after;
    }
    forall x, c | c in blocks && x in c ensures x in Covered(after) {
      if p.a !in c && p.b !in c { assert c in after; }
    }
  }

  lemma AddPairDisjoint(pairs: seq<Pair>, p: Pair, threshold: real, blocks: set<set<Id>>, c: set<Id>, d: set<Id>)
    requires Partition(pairs, threshold, blocks)
    requires c in AddPair(blocks, p, threshold) && d in AddPair(blocks, p, threshold) && c != d
    ensures c !! d
  {
    var a, b := BlockOf(blocks, p.a), BlockOf(blocks, p.b);
    BlockOfIs(pairs, threshold, blocks, p.a);
    BlockOfIs(pairs, threshold, blocks, p.b);
    assert forall e | e in blocks && e != a :: e !! a by {
      forall e, x | e in blocks && x in e && x in a ensures e == a {
        assert x in Covered(blocks);
      }
    }
    assert forall e | e in blocks && e != b :: e !! b by {
      forall e, x | e in blocks && x in e && x in b ensures e == b {
        assert x in Covered(blocks);
      }
    }
  }

  lemma NodesSnoc(pairs: seq<Pair>, p: Pair)
    ensures Nodes(pairs + [p]) == Nodes(pairs) + {p.a, p.b}
  {
    assert p in pairs + [p];
  }

  lemma ClusteredIffConnected(pairs: seq<Pair>, threshold: real, blocks: set<set<Id>>, x: Id, y: Id)
    requires Partition(pairs, threshold, blocks) && x != y
    ensures (exists c | c in blocks && |c| > 1 :: x in c && y in c) <==> Connected(pairs, threshold, x, y)
  {
    if Connected(pairs, threshold, x, y) {
      var path :| IsPath(pairs, threshold, path) && path[0] == x && path[|path| - 1] == y;
      assert Linked(pairs, threshold, path[0], path[1]);
      assert x in Nodes(pairs);
    }
    if x in Nodes(pairs) {
      assert x in Covered(blocks);
      var b :| b in blocks && x in b;
      SameBlockIffConnected(pairs, threshold, blocks, b, x, y);
      if y in b {
        assert {x, y} <= b;
        assert |b| == |{x, y}| + |b - {x, y}|;
      }
    }
  }

  /** The connected components with more than one member. */
  method ClusterPairs(pairs: seq<Pair>, threshold: real) returns (clusters: set<set<Id>>)
    ensures forall c | c in clusters :: |c| > 1
    ensures forall c, d | c in clusters && d in clusters && c != d :: c !! d
    ensures forall x, y | x != y ::
      (exists c | c in clusters :: x in c && y in c) <==> Connected(pairs, threshold, x, y)
  {
    var blocks: set<set<Id>> := {};
    for i := 0 to |pairs|
      invariant Partition(pairs[..i], threshold, blocks)
    {
      AddPairKeepsPartition(pairs[..i], pairs[i], threshold, blocks);
      assert pairs[..i + 1] == pairs[..i] + [pairs[i]];
      blocks := AddPair(blocks, pairs[i], threshold);
    }
    assert pairs[..|pairs|] == pairs;
    clusters := set b | b in blocks && |b| > 1;
    forall x, y | x != y
      ensures (exists c | c in clusters :: x in c && y in c) <==> Connected(pairs, threshold, x, y)
    {
      ClusteredIffConnected(pairs, threshold, blocks, x, y);
    }
  }
}
