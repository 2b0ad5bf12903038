/**
 The greedy batch pass over scored pairs of one entity type: which merges and
 which review questions it makes, and where each entity ends up.
 */
module BatchPass {
  import opened Clustering
  import opened EntityTables
  import opened Ordering
  import opened Prelude

  datatype Action = Fold(keep: Id, drop: Id) | Ask(a: Id, b: Id, score: real)

  function Prob(p: Pair): real {
    p.prob
  }

  predicate Skipped(p: Pair, members: set<Id>, dropped: set<Id>) {
    p.a in dropped || p.b in dropped || p.a !in members || p.b !in members
  }

  /** The action for one pair, none when it is skipped or scores too low. */
  function Decision(p: Pair, members: set<Id>, dropped: set<Id>): seq<Action> {
    if Skipped(p, members, dropped) then []
    else if p.prob >= HIGH_CONFIDENCE_THRESHOLD then [Fold(p.a, p.b)]
    else if p.prob >= REVIEW_THRESHOLD then [Ask(p.a, p.b, p.prob)]
    else []
  }

  /** The actions taken for `pairs`, in order. */
  function Pass(pairs: seq<Pair>, members: set<Id>): seq<Action> {
    if pairs == [] then [] else
    var prior := Pass(pairs[..|pairs| - 1], members);
    prior + Decision(pairs[|pairs| - 1], members, Dropped(prior))
  }

  lemma PassSnoc(pairs: seq<Pair>, i: nat, members: set<Id>)
    requires i < |pairs|
    ensures var prior := Pass(pairs[..i], members);
      Pass(pairs[..i + 1], members) == prior + Decision(pairs[i], members, Dropped(prior))
  {
    assert pairs[..i + 1][..i] == pairs[..i];
  }

  /** The entity `x` has become after the merges among `actions`. */
  function Home(actions: seq<Action>, x: Id): Id {
    if actions == [] then x else
    match actions[|actions| - 1]
    case Fold(keep, drop) => Renamed(Home(actions[..|actions| - 1], x), drop, keep)
    case Ask(_, _, _) => Home(actions[..|actions| - 1], x)
  }

  function Dropped(actions: seq<Action>): set<Id> {
    set f | f in actions && f.Fold? :: f.drop
  }

  function Asked(actions: seq<Action>): seq<Pair> {
    if actions == [] then [] else
    match actions[|actions| - 1]
    case Fold(_, _) => Asked(actions[..|actions| - 1])
    case Ask(a, b, score) => Asked(actions[..|actions| - 1]) + [Pair(a, b, score)]
  }

  function FoldCount(actions: seq<Action>): nat {
    if actions == [] then 0
    else FoldCount(actions[..|actions| - 1]) + if actions[|actions| - 1].Fold? then 1 else 0
  }

  /** The pairs in the review band with both sides in `live`, in order. */
  function InBand(pairs: seq<Pair>, live: set<Id>): seq<Pair> {
    if pairs == [] then [] else
    var p := pairs[|pairs| - 1];
    InBand(pairs[..|pairs| - 1], live)
    + if p.a in live && p.b in live && REVIEW_THRESHOLD <= p.prob < HIGH_CONFIDENCE_THRESHOLD then [p] else []
  }

  /** Splink's dedupe-only link type pairs two different records. */
  ghost predicate Distinct(pairs: seq<Pair>) {
    forall p | p in pairs :: p.a != p.b
  }

  // ---------------------------------------------------------------- appending an action

  lemma Snoc(actions: seq<Action>, act: Action, x: Id)
    ensures Dropped(actions + [act]) == Dropped(actions) + if act.Fold? then {act.drop} else {}
    ensures Home(actions + [act], x) ==
            if act.Fold? then Renamed(Home(actions, x), act.drop, act.keep) else Home(actions, x)
    ensures Asked(actions + [act]) == Asked(actions) + if act.Ask? then [Pair(act.a, act.b, act.score)] else []
    ensures FoldCount(actions + [act]) == FoldCount(actions) + if act.Fold? then 1 else 0
  {
    assert (actions + [act])[..|actions|] == actions;
    assert act in actions + [act];
  }

  // ---------------------------------------------------------------- the state of a pass

  /** What a pass that has done `actions` so far for the pairs `seen` guarantees. */
  ghost predicate Progress(seen: seq<Pair>, members: set<Id>, actions: seq<Action>) {
    && Dropped(actions) <= members
    && |Dropped(actions)| == FoldCount(actions)
    && (forall x | x in members ::
          && Home(actions, x) in members - Dropped(actions)
          && (Home(actions, x) == x <==> x !in Dropped(actions)))
    && (forall x | x !in members :: Home(actions, x) == x)
    && (forall x | x in members :: Connected(seen, HIGH_CONFIDENCE_THRESHOLD, x, Home(actions, x)))
    && (forall p | p in seen && p.prob >= HIGH_CONFIDENCE_THRESHOLD && p.a in members && p.b in members ::
          p.a in Dropped(actions) || p.b in Dropped(actions))
    && (forall k, d | Fold(k, d) in actions :: FromPair(seen, members, actions, k, d))
  }

  /** The second side of a strong pair of members has gone into the first. */
  ghost predicate FromPair(seen: seq<Pair>, members: set<Id>, actions: seq<Action>, k: Id, d: Id) {
    && k in members && d in members && Home(actions, k) == Home(actions, d)
    && exists p | p in seen :: p.a == k && p.b == d && p.prob >= HIGH_CONFIDENCE_THRESHOLD
  }

  lemma StartProgress(members: set<Id>)
    ensures Progress([], members, [])
  {
    forall x ensures Connected([], HIGH_CONFIDENCE_THRESHOLD, x, x) { ConnectedSelf([], HIGH_CONFIDENCE_THRESHOLD, x); }
  }

  lemma MoreConnected(seen: seq<Pair>, p: Pair, threshold: real, x: Id, y: Id)
    requires Connected(seen, threshold, x, y)
    ensures Connected(seen + [p], threshold, x, y)
  {
    var path :| IsPath(seen, threshold, path) && path[0] == x && path[|path| - 1] == y;
    forall i | 0 < i < |path| ensures Linked(seen + [p], threshold, path[i - 1], path[i]) {
      assert Linked(seen, threshold, path[i - 1], path[i]);
    }
    assert IsPath(seen + [p], threshold, path);
  }

  lemma HomeConnected(seen: seq<Pair>, p: Pair, members: set<Id>, actions: seq<Action>, x: Id)
    requires Connected(seen, HIGH_CONFIDENCE_THRESHOLD, x, Home(actions, x))
    ensures Connected(seen + [p], HIGH_CONFIDENCE_THRESHOLD, x,
                      Home(actions + Decision(p, members, Dropped(actions)), x))
  {
    var decision := Decision(p, members, Dropped(actions));
    MoreConnected(seen, p, HIGH_CONFIDENCE_THRESHOLD, x, Home(actions, x));
    if decision == [] {
      assert actions + decision == actions;
    } else {
      Snoc(actions, decision[0], x);
      if decision[0].Fold? && Home(actions, x) == p.b {
        assert p in seen + [p] && Linked(seen + [p], HIGH_CONFIDENCE_THRESHOLD, p.b, p.a);
        ConnectedStep(seen + [p], HIGH_CONFIDENCE_THRESHOLD, x, p.b, p.a);
      }
    }
  }

  /** What one more action drops. */
  lemma StepDropped(p: Pair, members: set<Id>, actions: seq<Action>)
    requires Dropped(actions) <= members && |Dropped(actions)| == FoldCount(actions)
    ensures var after := actions + Decision(p, members, Dropped(actions));
      && Dropped(actions) <= Dropped(after) <= members && |Dropped(after)| == FoldCount(after)
  {
    var decision := Decision(p, members, Dropped(actions));
    if decision == [] {
      assert actions + decision == actions;
    } else {
      Snoc(actions, decision[0], 0);
    }
  }

  /** A member ends up at a live member, itself if it is live; nothing else moves. */
  predicate AtHome(members: set<Id>, actions: seq<Action>, x: Id) {
    if x !in members then Home(actions, x) == x
    else Home(actions, x) in members - Dropped(actions) && (Home(actions, x) == x <==> x !in Dropped(actions))
  }

  /** Where an entity ends up when one more action is taken. */
  lemma StepHome(p: Pair, members: set<Id>, actions: seq<Action>, x: Id)
    requires p.a != p.b
    requires AtHome(members, actions, x)
    ensures var after := actions + Decision(p, members, Dropped(actions));
      AtHome(members, after, x)
  {
    var decision := Decision(p, members, Dropped(actions));
    if decision == [] {
      assert actions + decision == actions;
    } else {
      Snoc(actions, decision[0], x);
    }
  }

  /** A strong pair has lost a side once it has had its turn. */
  lemma StepStrong(p: Pair, members: set<Id>, actions: seq<Action>)
    requires p.prob >= HIGH_CONFIDENCE_THRESHOLD && p.a in members && p.b in members
    ensures var after := Dropped(actions + Decision(p, members, Dropped(actions))); p.a in after || p.b in after
  {
    var decision := Decision(p, members, Dropped(actions));
    if decision == [] {
      assert actions + decision == actions;
    } else {
      Snoc(actions, decision[0], 0);
    }
  }

  lemma StepFromPair(seen: seq<Pair>, p: Pair, members: set<Id>, actions: seq<Action>, k: Id, d: Id)
    requires Fold(k, d) in actions ==> FromPair(seen, members, actions, k, d)
    requires p.a in members && p.a !in Dropped(actions) ==> Home(actions, p.a) == p.a
    requires p.b in members && p.b !in Dropped(actions) ==> Home(actions, p.b) == p.b
    requires p.a != p.b
    ensures var after := actions + Decision(p, members, Dropped(actions));
      Fold(k, d) in after ==> FromPair(seen + [p], members, after, k, d)
  {
    var decision := Decision(p, members, Dropped(actions));
    var after := actions + decision;
    if decision == [] {
      assert after == actions;
    } else {
      Snoc(actions, decision[0], k);
      Snoc(actions, decision[0], d);
    }
    if Fold(k, d) in actions {
      var q :| q in seen && q.a == k && q.b == d && q.prob >= HIGH_CONFIDENCE_THRESHOLD;
      assert q in seen + [p];
    } else if Fold(k, d) in after {
      assert p in seen + [p];
    }
  }

  lemma StepProgress(seen: seq<Pair>, p: Pair, members: set<Id>, actions: seq<Action>)
    requires Progress(seen, members, actions) && p.a != p.b
    ensures Progress(seen + [p], members, actions + Decision(p, members, Dropped(actions)))
  {
    var after := actions + Decision(p, members, Dropped(actions));
    StepDropped(p, members, actions);
    forall x
      ensures x in members ==> Home(after, x) in members - Dropped(after)
      ensures x in members ==> (Home(after, x) == x <==> x !in Dropped(after))
      ensures x !in members ==> Home(after, x) == x
    {
      StepHome(p, members, actions, x);
    }
    forall x | x in members ensures Connected(seen + [p], HIGH_CONFIDENCE_THRESHOLD, x, Home(after, x)) {
      HomeConnected(seen, p, members, actions, x);
    }
    forall q | q in seen + [p] && q.prob >= HIGH_CONFIDENCE_THRESHOLD && q.a in members && q.b in members
      ensures q.a in Dropped(after) || q.b in Dropped(after)
    {
      if q !in seen { StepStrong(p, members, actions); }
    }
    forall k, d | Fold(k, d) in after ensures FromPair(seen + [p], members, after, k, d) {
      StepFromPair(seen, p, members, actions, k, d);
    }
  }

  /**
   Merges form a forest whose roots are live, each tree inside one connected
   component of the high-confidence pairs, and no such pair keeps both sides.
   */
  lemma {:induction false} PassProgress(pairs: seq<Pair>, members: set<Id>)
    requires Distinct(pairs)
    ensures Progress(pairs, members, Pass(pairs, members))
  {
    if pairs == [] {
      StartProgress(members);
    } else {
      var seen, p := pairs[..|pairs| - 1], pairs[|pairs| - 1];
      assert p in pairs && seen + [p] == pairs;
      PassProgress(seen, members);
      StepProgress(seen, p, members, Pass(seen, members));
    }
  }

  // ---------------------------------------------------------------- the order of the merges

  ghost predicate Descends(pairs: seq<Pair>) {
    forall i, j | 0 <= i < j < |pairs| :: pairs[i].prob >= pairs[j].prob
  }

  /** A merge along a pair at least as strong as `p` has taken one of its sides. */
  ghost predicate Beaten(seen: seq<Pair>, actions: seq<Action>, p: Pair) {
    exists q | q in seen :: q.prob >= p.prob && Fold(q.a, q.b) in actions && (q.b == p.a || q.b == p.b)
  }

  /** The merge of `d` into `q.b` comes from a pair at least as strong as `q`. */
  ghost predicate Precedes(seen: seq<Pair>, d: Id, q: Pair) {
    exists p | p in seen :: p.a == q.b && p.b == d && p.prob >= q.prob
  }

  /** Merges are made for the strongest pairs first: nothing stands in the way of a pair but stronger ones. */
  ghost predicate StrongestFirst(seen: seq<Pair>, members: set<Id>, actions: seq<Action>) {
    && (forall p | p in seen && p.prob >= HIGH_CONFIDENCE_THRESHOLD && p.a in members && p.b in members ::
          Beaten(seen, actions, p))
    && (forall q, d | q in seen && Fold(q.a, q.b) in actions && Fold(q.b, d) in actions :: Precedes(seen, d, q))
  }

  /** A pair is only skipped because one at least as strong took a side of it. */
  lemma SkippedBeaten(seen: seq<Pair>, p: Pair, members: set<Id>, actions: seq<Action>)
    requires Progress(seen, members, actions) && Descends(seen + [p])
    requires p.a in members && p.b in members && Skipped(p, members, Dropped(actions))
    ensures Beaten(seen, actions, p)
  {
    var x := if p.a in Dropped(actions) then p.a else p.b;
    var f :| f in actions && f.Fold? && f.drop == x;
    assert FromPair(seen, members, actions, f.keep, x);
    var r :| r in seen && r.a == f.keep && r.b == x && r.prob >= HIGH_CONFIDENCE_THRESHOLD;
    EarlierStronger(seen, p, r);
  }

  lemma StepBeaten(seen: seq<Pair>, p: Pair, members: set<Id>, actions: seq<Action>, q: Pair)
    requires Progress(seen, members, actions) && Descends(seen + [p])
    requires q.prob >= HIGH_CONFIDENCE_THRESHOLD && q.a in members && q.b in members
    requires q == p || Beaten(seen, actions, q)
    ensures Beaten(seen + [p], actions + Decision(p, members, Dropped(actions)), q)
  {
    var more, after := seen + [p], actions + Decision(p, members, Dropped(actions));
    if q == p && Skipped(p, members, Dropped(actions)) { SkippedBeaten(seen, p, members, actions); }
    if Beaten(seen, actions, q) {
      var r :| r in seen && r.prob >= q.prob && Fold(r.a, r.b) in actions && (r.b == q.a || r.b == q.b);
      assert r in more && Fold(r.a, r.b) in after;
    } else {
      assert p in more && Fold(p.a, p.b) in after;
    }
  }

  lemma EarlierStronger(seen: seq<Pair>, p: Pair, r: Pair)
    requires Descends(seen + [p]) && r in seen
    ensures r.prob >= p.prob
  {
    var i :| 0 <= i < |seen| && seen[i] == r;
    assert (seen + [p])[i] == r && (seen + [p])[|seen|] == p;
  }

  /** A merge that is new comes from the pair, whose sides were both live. */
  lemma NewFold(p: Pair, members: set<Id>, actions: seq<Action>, k: Id, d: Id)
    requires Fold(k, d) in actions + Decision(p, members, Dropped(actions)) && Fold(k, d) !in actions
    ensures k == p.a && d == p.b && p.prob >= HIGH_CONFIDENCE_THRESHOLD && p.a in members && p.b in members
    ensures p.a !in Dropped(actions) && p.b !in Dropped(actions)
  {
  }

  lemma PrecedesMore(seen: seq<Pair>, p: Pair, d: Id, q: Pair)
    requires Precedes(seen, d, q)
    ensures Precedes(seen + [p], d, q)
  {
    var e :| e in seen && e.a == q.b && e.b == d && e.prob >= q.prob;
    assert e in seen + [p];
  }

  /** Whatever merged into `p.b` before the turn of `p` did so for a pair at least as strong. */
  lemma EarlierPrecedes(seen: seq<Pair>, p: Pair, members: set<Id>, actions: seq<Action>, d: Id)
    requires Progress(seen, members, actions) && Descends(seen + [p]) && Fold(p.b, d) in actions
    ensures Precedes(seen, d, p)
  {
    assert FromPair(seen, members, actions, p.b, d);
    var r :| r in seen && r.a == p.b && r.b == d && r.prob >= HIGH_CONFIDENCE_THRESHOLD;
    EarlierStronger(seen, p, r);
  }

  lemma StepPrecedes(seen: seq<Pair>, p: Pair, members: set<Id>, actions: seq<Action>, q: Pair, d: Id)
    requires Progress(seen, members, actions) && StrongestFirst(seen, members, actions)
    requires Descends(seen + [p]) && p.a != p.b && q in seen + [p]
    requires var after := actions + Decision(p, members, Dropped(actions));
      Fold(q.a, q.b) in after && Fold(q.b, d) in after
    ensures Precedes(seen + [p], d, q)
  {
    if Fold(q.a, q.b) !in actions {
      NewFold(p, members, actions, q.a, q.b);
      if q in seen {
        EarlierStronger(seen, p, q);
        assert false;
      }
    }
    if Fold(q.b, d) !in actions {
      NewFold(p, members, actions, q.b, d);
      assert false;
    }
    if q in seen {
      assert Precedes(seen, d, q);
    } else {
      EarlierPrecedes(seen, p, members, actions, d);
    }
    PrecedesMore(seen, p, d, q);
  }

  lemma {:induction false} PassStrongestFirst(pairs: seq<Pair>, members: set<Id>)
    requires Distinct(pairs) && Descends(pairs)
    ensures StrongestFirst(pairs, members, Pass(pairs, members))
  {
    if pairs != [] {
      var seen, p := pairs[..|pairs| - 1], pairs[|pairs| - 1];
      var actions := Pass(seen, members);
      assert p in pairs && seen + [p] == pairs;
      PassStrongestFirst(seen, members);
      PassProgress(seen, members);
      forall q | q in pairs && q.prob >= HIGH_CONFIDENCE_THRESHOLD && q.a in members && q.b in members
        ensures Beaten(pairs, Pass(pairs, members), q)
      {
        StepBeaten(seen, p, members, actions, q);
      }
      forall q, d | q in pairs && Fold(q.a, q.b) in Pass(pairs, members) && Fold(q.b, d) in Pass(pairs, members)
        ensures Precedes(pairs, d, q)
      {
        StepPrecedes(seen, p, members, actions, q, d);
      }
    }
  }

  // ---------------------------------------------------------------- the questions

  lemma {:induction false} StrongPairsAskNothing(pairs: seq<Pair>, members: set<Id>, live: set<Id>)
    requires forall p | p in pairs :: p.prob >= HIGH_CONFIDENCE_THRESHOLD
    ensures Asked(Pass(pairs, members)) == [] && InBand(pairs, live) == []
  {
    if pairs != [] {
      var prior, p := Pass(pairs[..|pairs| - 1], members), pairs[|pairs| - 1];
      assert p in pairs;
      StrongPairsAskNothing(pairs[..|pairs| - 1], members, live);
      if Skipped(p, members, Dropped(prior)) {
        assert prior + [] == prior;
      } else {
        Snoc(prior, Fold(p.a, p.b), 0);
      }
    }
  }

  /** A pair below the merge threshold drops nothing and is asked about exactly when in the band and live. */
  lemma WeakPairStep(p: Pair, members: set<Id>, prior: seq<Action>)
    requires p.prob < HIGH_CONFIDENCE_THRESHOLD
    ensures var after := prior + Decision(p, members, Dropped(prior));
      && Dropped(after) == Dropped(prior)
      && Asked(after) == Asked(prior) + InBand([p], members - Dropped(prior))
  {
    var decision := Decision(p, members, Dropped(prior));
    if decision == [] {
      assert prior + decision == prior;
    } else {
      Snoc(prior, decision[0], 0);
    }
  }

  /**
   Because the pairs come in descending order, exactly the review-band pairs with
   both sides live at the end of the pass are asked about, in order.
   */
  lemma {:induction false} PassAsksExactly(pairs: seq<Pair>, members: set<Id>)
    requires Descending(pairs, Prob)
    ensures Asked(Pass(pairs, members)) == InBand(pairs, members - Dropped(Pass(pairs, members)))
  {
    if pairs != [] {
      var seen, p := pairs[..|pairs| - 1], pairs[|pairs| - 1];
      if p.prob >= HIGH_CONFIDENCE_THRESHOLD {
        forall q | q in pairs ensures q.prob >= HIGH_CONFIDENCE_THRESHOLD {
          var i :| 0 <= i < |pairs| && pairs[i] == q;
          assert i < |pairs| - 1 ==> Prob(pairs[i]) >= Prob(pairs[|pairs| - 1]);
        }
        StrongPairsAskNothing(pairs, members, members - Dropped(Pass(pairs, members)));
      } else {
        PassAsksExactly(seen, members);
        WeakPairStep(p, members, Pass(seen, members));
        var live := members - Dropped(Pass(seen, members));
        assert InBand(pairs, live) == InBand(seen, live) + InBand([p], live);
      }
    }
  }

  // ---------------------------------------------------------------- the effect on the tables

  function HomeRef(actions: seq<Action>, x: Option<Id>): Option<Id> {
    if x.Some? then Some(Home(actions, x.value)) else None
  }

  function LiveRef(actions: seq<Action>, x: Option<Id>): Option<Id> {
    if x.Some? && x.value in Dropped(actions) then None else x
  }

  ghost predicate EntitiesFolded(before: map<Id, Entity>, after: map<Id, Entity>, actions: seq<Action>) {
    && after.Keys == before.Keys - Dropped(actions)
    && (forall x {:trigger after[x]} | x in after :: after[x].(aliases := before[x].aliases) == before[x])
    && (forall x {:trigger Survives(before, after, actions, x)} | x in before :: Survives(before, after, actions, x))
    && (forall y, name {:trigger Inherited(before, actions, y, name)} | y in after && name in after[y].Names() ::
          Inherited(before, actions, y, name))
  }

  /** The home of `x` is live and answers to all of its names. */
  ghost predicate Survives(before: map<Id, Entity>, after: map<Id, Entity>, actions: seq<Action>, x: Id) {
    && x in before && Home(actions, x) in after
    && before[x].Names() <= after[Home(actions, x)].Names()
  }

  /** Some entity that ended up as `y` already answered to `name`. */
  ghost predicate Inherited(before: map<Id, Entity>, actions: seq<Action>, y: Id, name: string) {
    exists x :: x in before && Home(actions, x) == y && name in before[x].Names()
  }

  ghost predicate ReferencesFolded(before: Tables, after: Tables, actions: seq<Action>) {
    && after.mentions.Keys == before.mentions.Keys
    && (forall m | m in before.mentions ::
          after.mentions[m] == before.mentions[m].(entity := HomeRef(actions, before.mentions[m].entity)))
    && after.edges.Keys == before.edges.Keys
    && (forall e | e in before.edges :: after.edges[e] == before.edges[e].(
          from := Home(actions, before.edges[e].from), to := Home(actions, before.edges[e].to)))
    && after.candidates == before.candidates && after.nodes == before.nodes && after.relations == before.relations
  }

  /** Reviews of merged-away entities are cleared; question `i` is row `first + i`. */
  ghost predicate ReviewsFolded(before: Tables, after: Tables, actions: seq<Action>, first: Id) {
    && (forall r | r in before.reviews :: r < first)
    && (forall r :: r in after.reviews <==> r in before.reviews || first <= r < first + |Asked(actions)|)
    && (forall r | r in before.reviews :: after.reviews[r] == before.reviews[r].(
          a := LiveRef(actions, before.reviews[r].a), b := LiveRef(actions, before.reviews[r].b)))
    && (forall i | 0 <= i < |Asked(actions)| ::
          var p := Asked(actions)[i];
          after.reviews[first + i] ==
          Review(LiveRef(actions, Some(p.a)), LiveRef(actions, Some(p.b)), p.prob, "pending", None))
  }

  /** Every table is the old one with each entity replaced by its home. */
  ghost predicate Folded(before: Tables, after: Tables, actions: seq<Action>, first: Id) {
    && EntitiesFolded(before.entities, after.entities, actions)
    && ReferencesFolded(before, after, actions)
    && ReviewsFolded(before, after, actions, first)
  }

  lemma StartFolded(db: Tables, first: Id)
    requires forall r | r in db.reviews :: r < first
    ensures Folded(db, db, [], first)
  {
  }

  lemma FoldInherited(before: Tables, mid: Tables, after: Tables, actions: seq<Action>, keep: Id, drop: Id, y: Id,
                      name: string)
    requires EntitiesFolded(before.entities, mid.entities, actions)
    requires keep in mid.entities && drop in mid.entities && keep != drop && IsMerge(mid, after, keep, drop)
    requires y in after.entities && name in after.entities[y].Names()
    ensures Inherited(before.entities, actions + [Fold(keep, drop)], y, name)
  {
    MergeJoinsNames(mid, after, keep, drop);
    var origin := if y == keep && name !in mid.entities[keep].Names() then drop else y;
    assert name in mid.entities[origin].Names();
    assert Inherited(before.entities, actions, origin, name);
    var x :| x in before.entities && Home(actions, x) == origin && name in before.entities[x].Names();
    Snoc(actions, Fold(keep, drop), x);
  }

  lemma FoldSurvives(before: Tables, mid: Tables, after: Tables, actions: seq<Action>, keep: Id, drop: Id, x: Id)
    requires Survives(before.entities, mid.entities, actions, x)
    requires keep in mid.entities && drop in mid.entities && keep != drop && IsMerge(mid, after, keep, drop)
    ensures Survives(before.entities, after.entities, actions + [Fold(keep, drop)], x)
  {
    MergeJoinsNames(mid, after, keep, drop);
    Snoc(actions, Fold(keep, drop), x);
  }

  lemma FoldEntities(before: Tables, mid: Tables, after: Tables, actions: seq<Action>, keep: Id, drop: Id)
    requires EntitiesFolded(before.entities, mid.entities, actions)
    requires keep in mid.entities && drop in mid.entities && keep != drop && IsMerge(mid, after, keep, drop)
    ensures EntitiesFolded(before.entities, after.entities, actions + [Fold(keep, drop)])
  {
    Snoc(actions, Fold(keep, drop), 0);
    var more := actions + [Fold(keep, drop)];
    forall x {:trigger Survives(before.entities, after.entities, more, x)} | x in before.entities
      ensures Survives(before.entities, after.entities, actions + [Fold(keep, drop)], x)
    {
      FoldSurvives(before, mid, after, actions, keep, drop, x);
    }
    forall y, name | y in after.entities && name in after.entities[y].Names()
      ensures Inherited(before.entities, actions + [Fold(keep, drop)], y, name)
    {
      FoldInherited(before, mid, after, actions, keep, drop, y, name);
    }
  }

  lemma FoldReferences(before: Tables, mid: Tables, after: Tables, actions: seq<Action>, keep: Id, drop: Id)
    requires ReferencesFolded(before, mid, actions)
    requires keep in mid.entities && drop in mid.entities && keep != drop && IsMerge(mid, after, keep, drop)
    ensures ReferencesFolded(before, after, actions + [Fold(keep, drop)])
  {
    var all := actions + [Fold(keep, drop)];
    forall x ensures Home(all, x) == Renamed(Home(actions, x), drop, keep) { Snoc(actions, Fold(keep, drop), x); }
    forall m | m in before.mentions
      ensures after.mentions[m] == before.mentions[m].(entity := HomeRef(all, before.mentions[m].entity))
    {
      assert HomeRef(all, before.mentions[m].entity) ==
             RenamedRef(HomeRef(actions, before.mentions[m].entity), drop, keep);
    }
    FoldEdges(before.edges, mid.edges, after.edges, actions, all, keep, drop);
  }

  lemma FoldEdges(before: map<Id, Edge>, mid: map<Id, Edge>, after: map<Id, Edge>, actions: seq<Action>,
                  all: seq<Action>, keep: Id, drop: Id)
    requires mid.Keys == before.Keys && after.Keys == mid.Keys
    requires forall x :: Home(all, x) == Renamed(Home(actions, x), drop, keep)
    requires forall e | e in before ::
      mid[e] == before[e].(from := Home(actions, before[e].from), to := Home(actions, before[e].to))
    requires forall e | e in mid ::
      after[e] == mid[e].(from := Renamed(mid[e].from, drop, keep), to := Renamed(mid[e].to, drop, keep))
    ensures forall e | e in before ::
      after[e] == before[e].(from := Home(all, before[e].from), to := Home(all, before[e].to))
  {
    forall e | e in before
      ensures after[e] == before[e].(from := Home(all, before[e].from), to := Home(all, before[e].to))
    {
      assert e in mid.Keys;
    }
  }

  lemma FoldLiveRefs(actions: seq<Action>, all: seq<Action>, keep: Id, drop: Id)
    requires all == actions + [Fold(keep, drop)]
    ensures Asked(all) == Asked(actions)
    ensures forall x: Option<Id> :: LiveRef(all, x) == ClearedRef(LiveRef(actions, x), drop)
  {
    Snoc(actions, Fold(keep, drop), 0);
  }

  lemma FoldReviews(before: Tables, mid: Tables, after: Tables, actions: seq<Action>, first: Id, keep: Id, drop: Id)
    requires ReviewsFolded(before, mid, actions, first)
    requires keep in mid.entities && drop in mid.entities && keep != drop && IsMerge(mid, after, keep, drop)
    ensures ReviewsFolded(before, after, actions + [Fold(keep, drop)], first)
  {
    FoldLiveRefs(actions, actions + [Fold(keep, drop)], keep, drop);
  }

  lemma AskInherited(before: map<Id, Entity>, actions: seq<Action>, ask: Action, y: Id, name: string)
    requires Inherited(before, actions, y, name) && ask.Ask?
    ensures Inherited(before, actions + [ask], y, name)
  {
    var x :| x in before && Home(actions, x) == y && name in before[x].Names();
    Snoc(actions, ask, x);
  }

  lemma AskEntities(before: map<Id, Entity>, mid: map<Id, Entity>, actions: seq<Action>, ask: Action)
    requires EntitiesFolded(before, mid, actions) && ask.Ask?
    ensures EntitiesFolded(before, mid, actions + [ask])
  {
    Snoc(actions, ask, 0);
    forall x {:trigger Survives(before, mid, actions + [ask], x)} | x in before
      ensures Survives(before, mid, actions + [ask], x)
    {
      Snoc(actions, ask, x);
      assert Survives(before, mid, actions, x);
    }
    forall y, name | y in mid && name in mid[y].Names()
      ensures Inherited(before, actions + [ask], y, name)
    {
      AskInherited(before, actions, ask, y, name);
    }
  }

  lemma AskReferences(before: Tables, mid: Tables, actions: seq<Action>, ask: Action)
    requires ReferencesFolded(before, mid, actions) && ask.Ask?
    ensures ReferencesFolded(before, mid, actions + [ask])
  {
    forall x ensures Home(actions + [ask], x) == Home(actions, x) { Snoc(actions, ask, x); }
  }

  lemma AskLiveRefs(actions: seq<Action>, all: seq<Action>, a: Id, b: Id, score: real)
    requires all == actions + [Ask(a, b, score)]
    ensures Asked(all) == Asked(actions) + [Pair(a, b, score)]
    ensures forall x: Option<Id> :: LiveRef(all, x) == LiveRef(actions, x)
  {
    Snoc(actions, Ask(a, b, score), 0);
  }

  /** The review row of a question, once `actions` are done. */
  function QuestionRow(actions: seq<Action>, p: Pair): Review {
    Review(LiveRef(actions, Some(p.a)), LiveRef(actions, Some(p.b)), p.prob, "pending", None)
  }

  lemma AskReviews(before: Tables, mid: Tables, after: Tables, actions: seq<Action>, first: Id, a: Id, b: Id,
                   score: real)
    requires ReviewsFolded(before, mid, actions, first)
    requires a !in Dropped(actions) && b !in Dropped(actions)
    requires after.reviews == mid.reviews[first + |Asked(actions)| := Review(Some(a), Some(b), score, "pending", None)]
    ensures ReviewsFolded(before, after, actions + [Ask(a, b, score)], first)
  {
    var all, n := actions + [Ask(a, b, score)], |Asked(actions)|;
    AskLiveRefs(actions, all, a, b, score);
    forall i | 0 <= i < n + 1
      ensures after.reviews[first + i] == QuestionRow(all, Asked(all)[i])
    {
      if i < n { assert Asked(all)[i] == Asked(actions)[i] && first + i in mid.reviews; }
    }
  }

  lemma FoldStep(before: Tables, mid: Tables, after: Tables, actions: seq<Action>, first: Id, keep: Id, drop: Id)
    requires Folded(before, mid, actions, first)
    requires keep in mid.entities && drop in mid.entities && keep != drop && IsMerge(mid, after, keep, drop)
    ensures Folded(before, after, actions + [Fold(keep, drop)], first)
    ensures Dropped(actions + [Fold(keep, drop)]) == Dropped(actions) + {drop}
    ensures FoldCount(actions + [Fold(keep, drop)]) == FoldCount(actions) + 1
    ensures Asked(actions + [Fold(keep, drop)]) == Asked(actions)
  {
    Snoc(actions, Fold(keep, drop), 0);
    FoldEntities(before, mid, after, actions, keep, drop);
    FoldReferences(before, mid, after, actions, keep, drop);
    FoldReviews(before, mid, after, actions, first, keep, drop);
  }

  lemma AskStep(before: Tables, mid: Tables, after: Tables, actions: seq<Action>, first: Id, a: Id, b: Id, score: real)
    requires Folded(before, mid, actions, first) && a in mid.entities && b in mid.entities
    requires after == mid.(reviews :=
               mid.reviews[first + |Asked(actions)| := Review(Some(a), Some(b), score, "pending", None)])
    ensures Folded(before, after, actions + [Ask(a, b, score)], first)
    ensures Dropped(actions + [Ask(a, b, score)]) == Dropped(actions)
    ensures FoldCount(actions + [Ask(a, b, score)]) == FoldCount(actions)
    ensures |Asked(actions + [Ask(a, b, score)])| == |Asked(actions)| + 1
  {
    Snoc(actions, Ask(a, b, score), 0);
    AskEntities(before.entities, mid.entities, actions, Ask(a, b, score));
    AskReferences(before, mid, actions, Ask(a, b, score));
    AskReviews(before, mid, after, actions, first, a, b, score);
    assert after.entities == mid.entities;
    assert ReferencesFolded(before, after, actions + [Ask(a, b, score)]);
  }

  lemma FoldedCounts(before: Tables, after: Tables, actions: seq<Action>, first: Id)
    requires Folded(before, after, actions, first) && Dropped(actions) <= before.entities.Keys
    ensures |after.entities| == |before.entities| - |Dropped(actions)|
    ensures |after.reviews| == |before.reviews| + |Asked(actions)|
  {
    assert before.entities.Keys == after.entities.Keys + Dropped(actions);
    assert |before.entities.Keys| == |after.entities.Keys| + |Dropped(actions)|;
    ReviewCount(before.reviews, after.reviews, first, |Asked(actions)|);
  }

  lemma {:induction false} ReviewCount(before: map<Id, Review>, after: map<Id, Review>, first: Id, n: nat)
    requires forall r | r in before :: r < first
    requires forall r :: r in after <==> r in before || first <= r < first + n
    ensures |after| == |before| + n
  {
    if n == 0 {
      assert after.Keys == before.Keys;
    } else {
      var last := first + n - 1;
      ReviewCount(before, after - {last}, first, n - 1);
      assert after.Keys == (after - {last}).Keys + {last};
    }
  }

  // ---------------------------------------------------------------- one pass after another

  lemma {:induction false} ConcatActions(a: seq<Action>, b: seq<Action>, x: Id)
    ensures Home(a + b, x) == Home(b, Home(a, x))
    ensures Asked(a + b) == Asked(a) + Asked(b)
    ensures Dropped(a + b) == Dropped(a) + Dropped(b)
  {
    if b == [] {
      assert a + b == a && Asked(a) + [] == Asked(a);
    } else {
      var front, last := b[..|b| - 1], b[|b| - 1];
      assert b == front + [last] && a + b == (a + front) + [last];
      ConcatActions(a, front, x);
      Snoc(a + front, last, x);
      Snoc(front, last, Home(a, x));
    }
  }

  lemma {:induction false} AskedMembers(pairs: seq<Pair>, members: set<Id>)
    ensures forall p | p in Asked(Pass(pairs, members)) :: p.a in members && p.b in members
  {
    if pairs != [] {
      var prior, p := Pass(pairs[..|pairs| - 1], members), pairs[|pairs| - 1];
      AskedMembers(pairs[..|pairs| - 1], members);
      ConcatActions(prior, Decision(p, members, Dropped(prior)), 0);
    }
  }

  lemma ConcatSurvives(before: map<Id, Entity>, mid: map<Id, Entity>, after: map<Id, Entity>,
                       a: seq<Action>, b: seq<Action>, x: Id)
    requires Survives(before, mid, a, x) && Survives(mid, after, b, Home(a, x))
    ensures Survives(before, after, a + b, x)
  {
    ConcatActions(a, b, x);
  }

  lemma ConcatInherited(before: map<Id, Entity>, mid: map<Id, Entity>, a: seq<Action>, b: seq<Action>, y: Id,
                        name: string)
    requires Inherited(mid, b, y, name)
    requires forall z | z in mid && name in mid[z].Names() :: Inherited(before, a, z, name)
    ensures Inherited(before, a + b, y, name)
  {
    var z :| z in mid && Home(b, z) == y && name in mid[z].Names();
    assert Inherited(before, a, z, name);
    var x :| x in before && Home(a, x) == z && name in before[x].Names();
    ConcatActions(a, b, x);
  }

  lemma ConcatEntities(before: map<Id, Entity>, mid: map<Id, Entity>, after: map<Id, Entity>, a: seq<Action>,
                       b: seq<Action>)
    requires EntitiesFolded(before, mid, a) && EntitiesFolded(mid, after, b)
    ensures EntitiesFolded(before, after, a + b)
  {
    ConcatActions(a, b, 0);
    assert after.Keys == before.Keys - Dropped(a + b);
    forall x {:trigger Survives(before, after, a + b, x)} | x in before ensures Survives(before, after, a + b, x) {
      assert Survives(before, mid, a, x);
      assert Survives(mid, after, b, Home(a, x));
      ConcatSurvives(before, mid, after, a, b, x);
    }
    forall y, name | y in after && name in after[y].Names() ensures Inherited(before, a + b, y, name) {
      assert Inherited(mid, b, y, name);
      forall z | z in mid && name in mid[z].Names() ensures Inherited(before, a, z, name) {}
      ConcatInherited(before, mid, a, b, y, name);
    }
  }

  lemma ConcatReferences(before: Tables, mid: Tables, after: Tables, a: seq<Action>, b: seq<Action>)
    requires ReferencesFolded(before, mid, a) && ReferencesFolded(mid, after, b)
    ensures ReferencesFolded(before, after, a + b)
  {
    forall x ensures Home(a + b, x) == Home(b, Home(a, x)) { ConcatActions(a, b, x); }
  }

  lemma LiveRefConcat(a: seq<Action>, b: seq<Action>, x: Option<Id>)
    ensures LiveRef(a + b, x) == LiveRef(b, LiveRef(a, x))
  {
    ConcatActions(a, b, 0);
  }

  /** No question of `b` is about an entity `a` has merged away. */
  ghost predicate AsksLive(a: seq<Action>, b: seq<Action>) {
    forall p | p in Asked(b) :: p.a !in Dropped(a) && p.b !in Dropped(a)
  }

  lemma ConcatQuestion(before: Tables, mid: Tables, after: Tables, a: seq<Action>, b: seq<Action>,
                       first: Id, next: Id, i: nat)
    requires ReviewsFolded(before, mid, a, first) && ReviewsFolded(mid, after, b, next) && AsksLive(a, b)
    requires next == first + |Asked(a)|
    requires Asked(a + b) == Asked(a) + Asked(b) && i < |Asked(a + b)|
    ensures first + i in after.reviews && after.reviews[first + i] == QuestionRow(a + b, Asked(a + b)[i])
  {
    var p := Asked(a + b)[i];
    LiveRefConcat(a, b, Some(p.a));
    LiveRefConcat(a, b, Some(p.b));
    if i < |Asked(a)| {
      FirstQuestion(before, mid, after, a, b, first, next, i, p);
    } else {
      SecondQuestion(mid, after, a, b, next, i - |Asked(a)|, p);
      assert first + i == next + (i - |Asked(a)|);
    }
  }

  lemma FirstQuestion(before: Tables, mid: Tables, after: Tables, a: seq<Action>, b: seq<Action>, first: Id, next: Id,
                      i: nat, p: Pair)
    requires ReviewsFolded(before, mid, a, first) && ReviewsFolded(mid, after, b, next)
    requires i < |Asked(a)| && p == Asked(a)[i]
    ensures first + i in after.reviews && after.reviews[first + i] ==
            Review(LiveRef(b, LiveRef(a, Some(p.a))), LiveRef(b, LiveRef(a, Some(p.b))), p.prob, "pending", None)
  {
    assert first + i in mid.reviews;
  }

  lemma SecondQuestion(mid: Tables, after: Tables, a: seq<Action>, b: seq<Action>, next: Id, k: nat, p: Pair)
    requires ReviewsFolded(mid, after, b, next) && AsksLive(a, b) && k < |Asked(b)| && p == Asked(b)[k]
    ensures next + k in after.reviews && after.reviews[next + k] ==
            Review(LiveRef(b, LiveRef(a, Some(p.a))), LiveRef(b, LiveRef(a, Some(p.b))), p.prob, "pending", None)
  {
    assert p in Asked(b);
    assert LiveRef(a, Some(p.a)) == Some(p.a) && LiveRef(a, Some(p.b)) == Some(p.b);
  }

  lemma ConcatReviews(before: Tables, mid: Tables, after: Tables, a: seq<Action>, b: seq<Action>, first: Id, next: Id)
    requires ReviewsFolded(before, mid, a, first) && ReviewsFolded(mid, after, b, next) && AsksLive(a, b)
    requires next == first + |Asked(a)|
    ensures ReviewsFolded(before, after, a + b, first)
  {
    ConcatActions(a, b, 0);
    forall x: Option<Id> ensures LiveRef(a + b, x) == LiveRef(b, LiveRef(a, x)) { LiveRefConcat(a, b, x); }
    forall i | 0 <= i < |Asked(a + b)|
      ensures after.reviews[first + i] == QuestionRow(a + b, Asked(a + b)[i])
    {
      ConcatQuestion(before, mid, after, a, b, first, next, i);
    }
  }

  /** Two passes one after the other are one pass with the actions of both. */
  lemma FoldedConcat(before: Tables, mid: Tables, after: Tables, a: seq<Action>, b: seq<Action>, first: Id, next: Id)
    requires Folded(before, mid, a, first) && Folded(mid, after, b, next)
    requires next == first + |Asked(a)| && AsksLive(a, b)
    ensures Folded(before, after, a + b, first)
  {
    ConcatEntities(before.entities, mid.entities, after.entities, a, b);
    ConcatReferences(before, mid, after, a, b);
    ConcatReviews(before, mid, after, a, b, first, next);
  }

  // ---------------------------------------------------------------- the pass over unsorted predictions

  lemma ConnectedAmong(pairs: seq<Pair>, others: seq<Pair>, threshold: real, x: Id, y: Id)
    requires forall p | p in pairs :: p in others
    requires Connected(pairs, threshold, x, y)
    ensures Connected(others, threshold, x, y)
  {
    var path :| IsPath(pairs, threshold, path) && path[0] == x && path[|path| - 1] == y;
    forall i | 0 < i < |path| ensures Linked(others, threshold, path[i - 1], path[i]) {
      assert Linked(pairs, threshold, path[i - 1], path[i]);
    }
    assert IsPath(others, threshold, path);
  }

  /** Sorting keeps the pairs distinct, and every merge of the pass drops another entity. */
  lemma SortedPass(predicted: seq<Pair>, members: set<Id>)
    requires Distinct(predicted)
    ensures var pairs := SortDesc(predicted, Prob);
      && Distinct(pairs)
      && Dropped(Pass(pairs, members)) <= members
      && |Dropped(Pass(pairs, members))| == FoldCount(Pass(pairs, members))
  {
    SortDescMembers(predicted, Prob);
    PassProgress(SortDesc(predicted, Prob), members);
  }

  lemma {:induction false} InBandMembers(pairs: seq<Pair>, live: set<Id>, p: Pair)
    ensures p in InBand(pairs, live) <==>
            p in pairs && p.a in live && p.b in live && REVIEW_THRESHOLD <= p.prob < HIGH_CONFIDENCE_THRESHOLD
  {
    if pairs != [] {
      InBandMembers(pairs[..|pairs| - 1], live, p);
      assert pairs == pairs[..|pairs| - 1] + [pairs[|pairs| - 1]];
    }
  }

  lemma DroppedAlong(seen: seq<Pair>, members: set<Id>, actions: seq<Action>, x: Id)
    requires Progress(seen, members, actions) && x in Dropped(actions)
    ensures exists p | p in seen :: p.b == x && p.prob >= HIGH_CONFIDENCE_THRESHOLD && p.a in members
                                    && Home(actions, x) == Home(actions, p.a)
  {
    var f :| f in actions && f.Fold? && f.drop == x;
    assert FromPair(seen, members, actions, f.keep, x);
  }

  /**
   Which of the pairs that share a side are merged: the strongest first. A strong pair is
   merged unless a pair at least as strong has taken one of its sides, and never when a
   stronger one has.
   */
  lemma BatchStrongestFirst(predicted: seq<Pair>, members: set<Id>)
    requires Distinct(predicted)
    ensures StrongestFirst(predicted, members, Pass(SortDesc(predicted, Prob), members))
  {
    var pairs := SortDesc(predicted, Prob);
    var actions := Pass(pairs, members);
    SortDescCorrect(predicted, Prob, 0.0);
    SortDescMembers(predicted, Prob);
    assert forall i | 0 <= i < |pairs| :: Prob(pairs[i]) == pairs[i].prob;
    PassStrongestFirst(pairs, members);
    forall p | p in predicted && p.prob >= HIGH_CONFIDENCE_THRESHOLD && p.a in members && p.b in members
      ensures Beaten(predicted, actions, p)
    {
      assert Beaten(pairs, actions, p);
    }
    forall q, d | q in predicted && Fold(q.a, q.b) in actions && Fold(q.b, d) in actions
      ensures Precedes(predicted, d, q)
    {
      assert Precedes(pairs, d, q);
    }
  }

  /**
   The batch pass, whatever Splink predicts for a type: merges form a forest with
   live roots, each tree inside one connected component at the merge threshold; what
   goes is the second side of a predicted pair, which goes where the first side does; no
   pair at or above the threshold keeps both sides; and the questions asked are exactly
   the review-band pairs whose two sides are live at the end.
   */
  lemma BatchCharacterised(predicted: seq<Pair>, members: set<Id>)
    requires Distinct(predicted)
    ensures var actions := Pass(SortDesc(predicted, Prob), members);
      var live := members - Dropped(actions);
      && Dropped(actions) <= members && |Dropped(actions)| == FoldCount(actions)
      && (forall x | x in members :: Home(actions, x) in live && (Home(actions, x) == x <==> x in live))
      && (forall x | x in members :: Connected(predicted, HIGH_CONFIDENCE_THRESHOLD, x, Home(actions, x)))
      && (forall p | p in predicted && p.prob >= HIGH_CONFIDENCE_THRESHOLD :: p.a !in live || p.b !in live)
      && (forall x | x in Dropped(actions) :: exists p | p in predicted ::
            && p.b == x && p.prob >= HIGH_CONFIDENCE_THRESHOLD && p.a in members
            && Home(actions, x) == Home(actions, p.a))
      && (forall p :: p in Asked(actions) <==>
            p in predicted && p.a in live && p.b in live && REVIEW_THRESHOLD <= p.prob < HIGH_CONFIDENCE_THRESHOLD)
  {
    var pairs := SortDesc(predicted, Prob);
    var actions := Pass(pairs, members);
    SortDescCorrect(predicted, Prob, 0.0);
    SortDescMembers(predicted, Prob);
    PassProgress(pairs, members);
    PassAsksExactly(pairs, members);
    forall x | x in members ensures Connected(predicted, HIGH_CONFIDENCE_THRESHOLD, x, Home(actions, x)) {
      ConnectedAmong(pairs, predicted, HIGH_CONFIDENCE_THRESHOLD, x, Home(actions, x));
    }
    forall x | x in Dropped(actions)
      ensures exists p | p in predicted :: p.b == x && p.prob >= HIGH_CONFIDENCE_THRESHOLD && p.a in members
                                           && Home(actions, x) == Home(actions, p.a)
    {
      DroppedAlong(pairs, members, actions, x);
    }
    forall p ensures p in Asked(actions) <==>
      p in predicted && p.a in members - Dropped(actions) && p.b in members - Dropped(actions)
      && REVIEW_THRESHOLD <= p.prob < HIGH_CONFIDENCE_THRESHOLD
    {
      InBandMembers(pairs, members - Dropped(actions), p);
    }
  }
}
