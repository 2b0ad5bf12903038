/**
 The batch over several entity types: the passes one after the other, and what they
 come to.
 */
module BatchTypes {
  import opened BatchPass
  import opened Clustering
  import opened EntityTables
  import opened Ordering
  import opened Prelude

  const MIN_RECORDS_FOR_BATCH := 4

  datatype BatchStats = BatchStats(types: int, scored: int, merged: int, queued: int)

  // ---------------------------------------------------------------- the batch over types

  /** What the actions add to the counters. */
  ghost predicate Counted(actions: seq<Action>, stats: BatchStats, r: BatchStats) {
    r == stats.(merged := stats.merged + FoldCount(actions), queued := stats.queued + |Asked(actions)|)
  }

  ghost predicate AllDistinct(predict: string -> Option<seq<Pair>>) {
    forall k :: predict(k).Some? ==> Distinct(predict(k).value)
  }

  function Listed(kinds: seq<string>): set<string> {
    set k | k in kinds
  }

  ghost predicate NoRepeats(kinds: seq<string>) {
    forall i, j | 0 <= i < j < |kinds| :: kinds[i] != kinds[j]
  }

  /** Of `all`, each once, what is not left to do. */
  ghost predicate HasListed(kinds: seq<string>, all: set<string>, todo: set<string>) {
    NoRepeats(kinds) && Listed(kinds) == all - todo && todo <= all
  }

  lemma ListOneMore(kinds: seq<string>, all: set<string>, todo: set<string>, kind: string)
    requires HasListed(kinds, all, todo) && kind in todo
    ensures kind !in kinds && HasListed(kinds + [kind], all, todo - {kind})
  {
    assert kind !in Listed(kinds);
    assert forall k :: k in kinds + [kind] <==> k in kinds || k == kind;
    assert Listed(kinds + [kind]) == Listed(kinds) + {kind};
  }

  /** Whether a type gets a pass at all. */
  predicate Resolved(db: Tables, kind: string, predicted: Option<seq<Pair>>) {
    |MembersOf(db, kind)| >= MIN_RECORDS_FOR_BATCH && predicted.Some?
  }

  function TypeActions(db: Tables, kind: string, predicted: Option<seq<Pair>>): seq<Action> {
    if Resolved(db, kind, predicted) then Pass(SortDesc(predicted.value, Prob), MembersOf(db, kind)) else []
  }

  /** The actions of the passes over the types, each on the tables as they were before all of them. */
  function AllActions(db: Tables, predict: string -> Option<seq<Pair>>, kinds: seq<string>): seq<Action> {
    if kinds == [] then []
    else
      var last := kinds[|kinds| - 1];
      AllActions(db, predict, kinds[..|kinds| - 1]) + TypeActions(db, last, predict(last))
  }

  ghost predicate DroppedWithin(db: Tables, actions: seq<Action>, kinds: seq<string>) {
    forall x | x in Dropped(actions) :: x in db.entities && db.entities[x].kind in kinds
  }

  /** The tables `now` are `before` folded along `actions`, which merge entities of `kinds` only. */
  ghost predicate FoldedAlong(before: Tables, now: Tables, actions: seq<Action>, kinds: seq<string>,
                              first: Id, next: Id, stats: BatchStats) {
    && Folded(before, now, actions, first) && next == first + |Asked(actions)|
    && DroppedWithin(before, actions, kinds)
    && stats.merged == |Dropped(actions)| && stats.queued == |Asked(actions)|
  }

  /** The state of the batch after the types `kinds`. */
  ghost predicate Batched(before: Tables, now: Tables, predict: string -> Option<seq<Pair>>, kinds: seq<string>,
                          first: Id, next: Id, stats: BatchStats) {
    FoldedAlong(before, now, AllActions(before, predict, kinds), kinds, first, next, stats)
  }

  lemma StartBatched(db: Tables, predict: string -> Option<seq<Pair>>, next: Id)
    requires forall r | r in db.reviews :: r < next
    ensures Batched(db, db, predict, [], next, next, BatchStats(0, 0, 0, 0))
  {
    StartFolded(db, next);
  }

  lemma TypePass(db: Tables, kind: string, predicted: Option<seq<Pair>>, next: Id)
    requires predicted.Some? ==> Distinct(predicted.value)
    requires forall r | r in db.reviews :: r < next
    ensures var actions := TypeActions(db, kind, predicted);
      if Resolved(db, kind, predicted)
      then && Distinct(SortDesc(predicted.value, Prob))
           && Dropped(actions) <= db.entities.Keys && |Dropped(actions)| == FoldCount(actions)
      else actions == [] && Folded(db, db, [], next)
  {
    if Resolved(db, kind, predicted) {
      SortedPass(predicted.value, MembersOf(db, kind));
    } else {
      StartFolded(db, next);
    }
  }

  /** What `actions` merge and ask about are among `members`. */
  ghost predicate Concerns(actions: seq<Action>, members: set<Id>) {
    Dropped(actions) <= members && forall p | p in Asked(actions) :: p.a in members && p.b in members
  }

  /** What a type's pass merges and asks about are entities of the type. */
  lemma TypeActionsWithin(db: Tables, kind: string, predicted: Option<seq<Pair>>)
    requires predicted.Some? ==> Distinct(predicted.value)
    ensures Concerns(TypeActions(db, kind, predicted), MembersOf(db, kind))
  {
    if Resolved(db, kind, predicted) {
      SortedPass(predicted.value, MembersOf(db, kind));
      AskedMembers(SortDesc(predicted.value, Prob), MembersOf(db, kind));
    }
  }

  /** A type whose turn has not come has the members it had. */
  lemma MembersUntouched(before: Tables, mid: Tables, actions: seq<Action>, kinds: seq<string>, kind: string)
    requires EntitiesFolded(before.entities, mid.entities, actions)
    requires DroppedWithin(before, actions, kinds) && kind !in kinds
    ensures MembersOf(mid, kind) == MembersOf(before, kind)
  {
    forall x ensures x in MembersOf(mid, kind) <==> x in MembersOf(before, kind) {
      assert x in mid.entities.Keys <==> x in before.entities.Keys - Dropped(actions);
    }
  }

  lemma FoldedOneMore(before: Tables, mid: Tables, after: Tables, done: seq<Action>, kinds: seq<string>, kind: string,
                      first: Id, next: Id, stats: BatchStats, r: BatchStats, actions: seq<Action>)
    requires FoldedAlong(before, mid, done, kinds, first, next, stats) && kind !in kinds
    requires Concerns(actions, MembersOf(mid, kind)) && Folded(mid, after, actions, next)
    requires r.merged == stats.merged + |Dropped(actions)| && r.queued == stats.queued + |Asked(actions)|
    ensures FoldedAlong(before, after, done + actions, kinds + [kind], first, next + |Asked(actions)|, r)
  {
    DroppedApart(before, mid, done, actions, kinds, kind);
    FoldedConcat(before, mid, after, done, actions, first, next);
    CloseFold(before, after, done, actions, kinds + [kind], first, next, stats, r);
  }

  lemma CloseFold(before: Tables, after: Tables, done: seq<Action>, actions: seq<Action>, kinds: seq<string>,
                  first: Id, next: Id, stats: BatchStats, r: BatchStats)
    requires Folded(before, after, done + actions, first) && DroppedWithin(before, done + actions, kinds)
    requires next == first + |Asked(done)| && Dropped(done) !! Dropped(actions)
    requires stats.merged == |Dropped(done)| && stats.queued == |Asked(done)|
    requires r.merged == stats.merged + |Dropped(actions)| && r.queued == stats.queued + |Asked(actions)|
    ensures FoldedAlong(before, after, done + actions, kinds, first, next + |Asked(actions)|, r)
  {
    CountsConcat(done, actions);
  }

  lemma CountsConcat(done: seq<Action>, actions: seq<Action>)
    requires Dropped(done) !! Dropped(actions)
    ensures |Dropped(done + actions)| == |Dropped(done)| + |Dropped(actions)|
    ensures |Asked(done + actions)| == |Asked(done)| + |Asked(actions)|
  {
    ConcatActions(done, actions, 0);
    assert |Dropped(done) + Dropped(actions)| == |Dropped(done)| + |Dropped(actions)|;
  }

  lemma BatchOneMore(before: Tables, mid: Tables, after: Tables, predict: string -> Option<seq<Pair>>,
                     kinds: seq<string>, kind: string, first: Id, next: Id,
                     stats: BatchStats, r: BatchStats, actions: seq<Action>)
    requires Batched(before, mid, predict, kinds, first, next, stats) && kind !in kinds
    requires predict(kind).Some? ==> Distinct(predict(kind).value)
    requires actions == TypeActions(mid, kind, predict(kind)) && Folded(mid, after, actions, next)
    requires r.merged == stats.merged + |Dropped(actions)| && r.queued == stats.queued + |Asked(actions)|
    ensures Batched(before, after, predict, kinds + [kind], first, next + |Asked(actions)|, r)
  {
    var done := AllActions(before, predict, kinds);
    TypeActionsWithin(mid, kind, predict(kind));
    FoldedOneMore(before, mid, after, done, kinds, kind, first, next, stats, r, actions);
    AllActionsSnoc(before, mid, predict, done, kinds, kind);
  }

  lemma AllActionsSnoc(before: Tables, mid: Tables, predict: string -> Option<seq<Pair>>, done: seq<Action>,
                       kinds: seq<string>, kind: string)
    requires done == AllActions(before, predict, kinds) && kind !in kinds
    requires EntitiesFolded(before.entities, mid.entities, done) && DroppedWithin(before, done, kinds)
    ensures AllActions(before, predict, kinds + [kind]) == done + TypeActions(mid, kind, predict(kind))
  {
    MembersUntouched(before, mid, done, kinds, kind);
    assert (kinds + [kind])[..|kinds|] == kinds;
  }

  lemma DroppedApart(before: Tables, mid: Tables, done: seq<Action>, actions: seq<Action>, kinds: seq<string>,
                     kind: string)
    requires EntitiesFolded(before.entities, mid.entities, done) && DroppedWithin(before, done, kinds) && kind !in kinds
    requires Concerns(actions, MembersOf(mid, kind))
    ensures AsksLive(done, actions) && Dropped(done) !! Dropped(actions)
    ensures DroppedWithin(before, done + actions, kinds + [kind])
  {
    ConcatActions(done, actions, 0);
    MembersUntouched(before, mid, done, kinds, kind);
    forall x | x in MembersOf(mid, kind)
      ensures x !in Dropped(done) && x in before.entities && before.entities[x].kind == kind
    {
      assert x in MembersOf(before, kind);
    }
  }

  lemma BatchedCounts(before: Tables, now: Tables, predict: string -> Option<seq<Pair>>, kinds: seq<string>,
                      first: Id, next: Id, stats: BatchStats)
    requires Batched(before, now, predict, kinds, first, next, stats)
    ensures stats.merged == |before.entities| - |now.entities|
    ensures stats.queued == |now.reviews| - |before.reviews|
  {
    var actions := AllActions(before, predict, kinds);
    assert Dropped(actions) <= before.entities.Keys;
    FoldedCounts(before, now, actions, first);
  }

  // ---------------------------------------------------------------- what the batch comes to

  /** The type has enough entities for a pass, and Splink did not fail on it. */
  ghost predicate GetsPass(before: Tables, predict: string -> Option<seq<Pair>>, kind: string) {
    predict(kind).Some? && |set x | x in before.entities && before.entities[x].kind == kind| >= MIN_RECORDS_FOR_BATCH
  }

  /** Some prediction strong enough to merge has `x` as its second side and another entity of its type as its first. */
  ghost predicate MergedAway(before: Tables, predict: string -> Option<seq<Pair>>, x: Id) {
    && x in before.entities && GetsPass(before, predict, before.entities[x].kind)
    && exists p | p in predict(before.entities[x].kind).value ::
         && p.b == x && p.prob >= HIGH_CONFIDENCE_THRESHOLD && p.a != x && p.a in before.entities
         && before.entities[p.a].kind == before.entities[x].kind
  }

  /** A prediction about two entities of its type. */
  ghost predicate Predicted(before: Tables, predict: string -> Option<seq<Pair>>, kind: string, p: Pair) {
    && GetsPass(before, predict, kind) && p in predict(kind).value
    && p.a in before.entities && before.entities[p.a].kind == kind
    && p.b in before.entities && before.entities[p.b].kind == kind
  }

  /** In the review band, with both sides still there. */
  ghost predicate AskedAbout(before: Tables, now: Tables, predict: string -> Option<seq<Pair>>, kind: string, p: Pair) {
    && Predicted(before, predict, kind, p) && REVIEW_THRESHOLD <= p.prob < HIGH_CONFIDENCE_THRESHOLD
    && p.a in now.entities && p.b in now.entities
  }

  function QuestionOf(p: Pair): Review {
    Review(Some(p.a), Some(p.b), p.prob, "pending", None)
  }

  /**
   What the batch comes to, from the tables alone: what has gone is the second side of a
   strong pair of its type, what is left has only gained aliases, no strong pair keeps both
   sides, and the new questions are those about the pairs in the band that do.
   */
  ghost predicate BatchOutcome(before: Tables, now: Tables, predict: string -> Option<seq<Pair>>, kinds: seq<string>) {
    && (forall x | x in before.entities && x !in now.entities ::
          before.entities[x].kind in kinds && MergedAway(before, predict, x))
    && (forall x | x in now.entities ::
          x in before.entities && now.entities[x].(aliases := before.entities[x].aliases) == before.entities[x]
          && before.entities[x].aliases <= now.entities[x].Names())
    && (forall kind, p | kind in kinds && Predicted(before, predict, kind, p) && p.prob >= HIGH_CONFIDENCE_THRESHOLD ::
          p.a !in now.entities || p.b !in now.entities)
    && (forall r | r in now.reviews && r !in before.reviews :: exists kind, p ::
          && kind in kinds && AskedAbout(before, now, predict, kind, p)
          && now.reviews[r] == Review(Some(p.a), Some(p.b), p.prob, "pending", None))
    && (forall kind, p | kind in kinds && AskedAbout(before, now, predict, kind, p) :: exists r ::
          && r in now.reviews && r !in before.reviews
          && now.reviews[r] == Review(Some(p.a), Some(p.b), p.prob, "pending", None))
  }

  lemma {:induction false} AllActionsIff(db: Tables, predict: string -> Option<seq<Pair>>, kinds: seq<string>)
    ensures forall act :: act in AllActions(db, predict, kinds) <==>
              exists kind :: kind in kinds && act in TypeActions(db, kind, predict(kind))
  {
    if kinds != [] {
      var front, last := kinds[..|kinds| - 1], kinds[|kinds| - 1];
      assert kinds == front + [last];
      AllActionsIff(db, predict, front);
    }
  }

  lemma {:induction false} AskedIff(actions: seq<Action>, p: Pair)
    ensures p in Asked(actions) <==> Ask(p.a, p.b, p.prob) in actions
  {
    if actions != [] {
      var front, last := actions[..|actions| - 1], actions[|actions| - 1];
      assert actions == front + [last];
      AskedIff(front, p);
    }
  }

  function MembersOf(db: Tables, kind: string): set<Id> {
    set x | x in db.entities && db.entities[x].kind == kind
  }

  function Kinds(db: Tables): set<string> {
    set x | x in db.entities :: db.entities[x].kind
  }

  lemma GetsPassIff(db: Tables, predict: string -> Option<seq<Pair>>, kind: string)
    ensures GetsPass(db, predict, kind) <==> Resolved(db, kind, predict(kind))
  {
    assert MembersOf(db, kind) == set x | x in db.entities && db.entities[x].kind == kind;
  }

  /** What is merged or asked about is so in the pass of its type. */
  lemma ActionOfType(db: Tables, predict: string -> Option<seq<Pair>>, kinds: seq<string>, act: Action)
    returns (kind: string)
    requires AllDistinct(predict) && act in AllActions(db, predict, kinds)
    ensures kind in kinds && act in TypeActions(db, kind, predict(kind)) && GetsPass(db, predict, kind)
    ensures act.Fold? ==> act.drop in MembersOf(db, kind)
    ensures act.Ask? ==> act.a in MembersOf(db, kind) && act.b in MembersOf(db, kind)
  {
    AllActionsIff(db, predict, kinds);
    kind :| kind in kinds && act in TypeActions(db, kind, predict(kind));
    GetsPassIff(db, predict, kind);
    ActionWithin(db, kind, predict(kind), act);
  }

  lemma ActionWithin(db: Tables, kind: string, predicted: Option<seq<Pair>>, act: Action)
    requires (predicted.Some? ==> Distinct(predicted.value)) && act in TypeActions(db, kind, predicted)
    ensures Resolved(db, kind, predicted)
    ensures act.Fold? ==> act.drop in MembersOf(db, kind)
    ensures act.Ask? ==> act.a in MembersOf(db, kind) && act.b in MembersOf(db, kind)
  {
    var actions := TypeActions(db, kind, predicted);
    TypeActionsWithin(db, kind, predicted);
    if act.Fold? { assert act.drop in Dropped(actions); }
    if act.Ask? {
      AskedIff(actions, Pair(act.a, act.b, act.score));
      assert Pair(act.a, act.b, act.score) in Asked(actions);
    }
  }

  lemma DroppedIsMergedAway(db: Tables, predict: string -> Option<seq<Pair>>, kinds: seq<string>, x: Id)
    requires AllDistinct(predict) && x in Dropped(AllActions(db, predict, kinds))
    ensures x in db.entities && db.entities[x].kind in kinds && MergedAway(db, predict, x)
  {
    var f :| f in AllActions(db, predict, kinds) && f.Fold? && f.drop == x;
    var kind := ActionOfType(db, predict, kinds, f);
    GetsPassIff(db, predict, kind);
    var p := PassDrops(predict(kind).value, MembersOf(db, kind), f);
  }

  lemma PassDrops(predicted: seq<Pair>, members: set<Id>, f: Action) returns (p: Pair)
    requires Distinct(predicted) && f in Pass(SortDesc(predicted, Prob), members) && f.Fold?
    ensures p in predicted && p.b == f.drop && p.prob >= HIGH_CONFIDENCE_THRESHOLD && p.a in members && p.a != p.b
  {
    BatchCharacterised(predicted, members);
    assert f.drop in Dropped(Pass(SortDesc(predicted, Prob), members));
    p :| p in predicted && p.b == f.drop && p.prob >= HIGH_CONFIDENCE_THRESHOLD && p.a in members;
  }

  /** What the pass of a type drops, all passes drop, and nothing else of the type. */
  lemma DroppedOfType(db: Tables, predict: string -> Option<seq<Pair>>, kinds: seq<string>, kind: string, x: Id)
    requires AllDistinct(predict) && kind in kinds && x in MembersOf(db, kind)
    ensures x in Dropped(AllActions(db, predict, kinds)) <==> x in Dropped(TypeActions(db, kind, predict(kind)))
  {
    var all, own := AllActions(db, predict, kinds), TypeActions(db, kind, predict(kind));
    AllActionsIff(db, predict, kinds);
    if x in Dropped(own) {
      var f :| f in own && f.Fold? && f.drop == x;
      assert f in all;
    }
    if x in Dropped(all) {
      var f :| f in all && f.Fold? && f.drop == x;
      var k := ActionOfType(db, predict, kinds, f);
      assert k == kind;
    }
  }

  lemma PassSplits(predicted: seq<Pair>, members: set<Id>, p: Pair)
    requires Distinct(predicted) && p in predicted && p.prob >= HIGH_CONFIDENCE_THRESHOLD
    requires p.a in members && p.b in members
    ensures var gone := Dropped(Pass(SortDesc(predicted, Prob), members)); p.a in gone || p.b in gone
  {
    BatchCharacterised(predicted, members);
  }

  lemma PassAsks(predicted: seq<Pair>, members: set<Id>, p: Pair)
    requires Distinct(predicted)
    ensures var actions := Pass(SortDesc(predicted, Prob), members);
      p in Asked(actions) <==>
        && p in predicted && REVIEW_THRESHOLD <= p.prob < HIGH_CONFIDENCE_THRESHOLD
        && p.a in members && p.b in members && p.a !in Dropped(actions) && p.b !in Dropped(actions)
  {
    BatchCharacterised(predicted, members);
  }

  lemma TypeSplits(before: Tables, predict: string -> Option<seq<Pair>>, kind: string, p: Pair)
    requires AllDistinct(predict) && Predicted(before, predict, kind, p) && p.prob >= HIGH_CONFIDENCE_THRESHOLD
    ensures var gone := Dropped(TypeActions(before, kind, predict(kind))); p.a in gone || p.b in gone
  {
    GetsPassIff(before, predict, kind);
    PassSplits(predict(kind).value, MembersOf(before, kind), p);
  }

  lemma TypeAsks(before: Tables, predict: string -> Option<seq<Pair>>, kind: string, p: Pair)
    requires AllDistinct(predict) && GetsPass(before, predict, kind)
    ensures var actions := TypeActions(before, kind, predict(kind));
      p in Asked(actions) <==>
        && Predicted(before, predict, kind, p) && REVIEW_THRESHOLD <= p.prob < HIGH_CONFIDENCE_THRESHOLD
        && p.a !in Dropped(actions) && p.b !in Dropped(actions)
  {
    GetsPassIff(before, predict, kind);
    PassAsks(predict(kind).value, MembersOf(before, kind), p);
  }

  lemma StrongPairSplit(before: Tables, now: Tables, predict: string -> Option<seq<Pair>>, kinds: seq<string>,
                        kind: string, p: Pair)
    requires AllDistinct(predict) && kind in kinds && Predicted(before, predict, kind, p)
    requires p.prob >= HIGH_CONFIDENCE_THRESHOLD
    requires now.entities.Keys == before.entities.Keys - Dropped(AllActions(before, predict, kinds))
    ensures p.a !in now.entities || p.b !in now.entities
  {
    TypeSplits(before, predict, kind, p);
    DroppedOfType(before, predict, kinds, kind, p.a);
    DroppedOfType(before, predict, kinds, kind, p.b);
    assert p.a in now.entities ==> p.a in now.entities.Keys;
    assert p.b in now.entities ==> p.b in now.entities.Keys;
  }

  lemma AskedOfType(before: Tables, now: Tables, predict: string -> Option<seq<Pair>>, kinds: seq<string>,
                    kind: string, p: Pair)
    requires AllDistinct(predict) && kind in kinds && GetsPass(before, predict, kind)
    requires now.entities.Keys == before.entities.Keys - Dropped(AllActions(before, predict, kinds))
    ensures p in Asked(TypeActions(before, kind, predict(kind))) <==> AskedAbout(before, now, predict, kind, p)
  {
    TypeAsks(before, predict, kind, p);
    if Predicted(before, predict, kind, p) {
      DroppedOfType(before, predict, kinds, kind, p.a);
      DroppedOfType(before, predict, kinds, kind, p.b);
      assert p.a in now.entities <==> p.a in now.entities.Keys;
      assert p.b in now.entities <==> p.b in now.entities.Keys;
    }
  }

  lemma AskedOfAll(before: Tables, now: Tables, predict: string -> Option<seq<Pair>>, kinds: seq<string>, p: Pair)
    requires AllDistinct(predict)
    requires now.entities.Keys == before.entities.Keys - Dropped(AllActions(before, predict, kinds))
    ensures p in Asked(AllActions(before, predict, kinds)) <==>
            exists kind :: kind in kinds && AskedAbout(before, now, predict, kind, p)
  {
    var all := AllActions(before, predict, kinds);
    AskedIff(all, p);
    AllActionsIff(before, predict, kinds);
    if p in Asked(all) {
      var kind := ActionOfType(before, predict, kinds, Ask(p.a, p.b, p.prob));
      AskedIff(TypeActions(before, kind, predict(kind)), p);
      AskedOfType(before, now, predict, kinds, kind, p);
    }
    if kind :| kind in kinds && AskedAbout(before, now, predict, kind, p) {
      AskedOfType(before, now, predict, kinds, kind, p);
      AskedIff(TypeActions(before, kind, predict(kind)), p);
    }
  }

  /** The row of a question about two entities that are still there. */
  lemma QuestionIs(before: Tables, now: Tables, actions: seq<Action>, first: Id, i: nat)
    requires Folded(before, now, actions, first) && i < |Asked(actions)|
    requires var p := Asked(actions)[i]; p.a in now.entities && p.b in now.entities
    ensures first + i in now.reviews && first + i !in before.reviews
    ensures now.reviews[first + i] == QuestionOf(Asked(actions)[i])
  {
    var p := Asked(actions)[i];
    assert p.a in now.entities.Keys && p.b in now.entities.Keys;
    assert LiveRef(actions, Some(p.a)) == Some(p.a) && LiveRef(actions, Some(p.b)) == Some(p.b);
  }

  lemma EntitiesOutcome(before: map<Id, Entity>, now: map<Id, Entity>, actions: seq<Action>, x: Id)
    requires EntitiesFolded(before, now, actions) && x in now && Home(actions, x) == x
    ensures x in before && now[x].(aliases := before[x].aliases) == before[x] && before[x].aliases <= now[x].Names()
  {
    assert x in now.Keys && Survives(before, now, actions, x);
  }

  lemma {:induction false} LiveStaysHome(actions: seq<Action>, x: Id)
    requires x !in Dropped(actions)
    ensures Home(actions, x) == x
  {
    if actions != [] {
      var front, last := actions[..|actions| - 1], actions[|actions| - 1];
      assert actions == front + [last];
      Snoc(front, last, x);
      LiveStaysHome(front, x);
    }
  }

  lemma QuestionsOutcome(before: Tables, now: Tables, predict: string -> Option<seq<Pair>>, kinds: seq<string>,
                         first: Id, r: Id)
    requires AllDistinct(predict) && Folded(before, now, AllActions(before, predict, kinds), first)
    requires r in now.reviews && r !in before.reviews
    ensures exists kind, p ::
              kind in kinds && AskedAbout(before, now, predict, kind, p) && now.reviews[r] == QuestionOf(p)
  {
    var all := AllActions(before, predict, kinds);
    var p := Asked(all)[r - first];
    AskedOfAll(before, now, predict, kinds, p);
    var kind :| kind in kinds && AskedAbout(before, now, predict, kind, p);
    QuestionIs(before, now, all, first, r - first);
  }

  lemma QuestionAsked(before: Tables, now: Tables, predict: string -> Option<seq<Pair>>, kinds: seq<string>,
                      first: Id, kind: string, p: Pair)
    requires AllDistinct(predict) && Folded(before, now, AllActions(before, predict, kinds), first)
    requires kind in kinds && AskedAbout(before, now, predict, kind, p)
    ensures exists r :: r in now.reviews && r !in before.reviews && now.reviews[r] == QuestionOf(p)
  {
    var all := AllActions(before, predict, kinds);
    AskedOfAll(before, now, predict, kinds, p);
    var i :| 0 <= i < |Asked(all)| && Asked(all)[i] == p;
    QuestionIs(before, now, all, first, i);
  }

  lemma BatchComesTo(before: Tables, now: Tables, predict: string -> Option<seq<Pair>>, kinds: seq<string>, first: Id,
                     next: Id, stats: BatchStats)
    requires AllDistinct(predict) && Batched(before, now, predict, kinds, first, next, stats)
    ensures BatchOutcome(before, now, predict, kinds)
  {
    var all := AllActions(before, predict, kinds);
    forall x | x in before.entities && x !in now.entities
      ensures before.entities[x].kind in kinds && MergedAway(before, predict, x)
    {
      assert x !in now.entities.Keys;
      DroppedIsMergedAway(before, predict, kinds, x);
    }
    forall x | x in now.entities
      ensures x in before.entities && now.entities[x].(aliases := before.entities[x].aliases) == before.entities[x]
      ensures before.entities[x].aliases <= now.entities[x].Names()
    {
      assert x in now.entities.Keys;
      LiveStaysHome(all, x);
      EntitiesOutcome(before.entities, now.entities, all, x);
    }
    forall kind, p | kind in kinds && Predicted(before, predict, kind, p) && p.prob >= HIGH_CONFIDENCE_THRESHOLD
      ensures p.a !in now.entities || p.b !in now.entities
    {
      StrongPairSplit(before, now, predict, kinds, kind, p);
    }
    forall r | r in now.reviews && r !in before.reviews
      ensures exists kind, p ::
                kind in kinds && AskedAbout(before, now, predict, kind, p) && now.reviews[r] == QuestionOf(p)
    {
      QuestionsOutcome(before, now, predict, kinds, first, r);
    }
    forall kind, p | kind in kinds && AskedAbout(before, now, predict, kind, p)
      ensures exists r :: r in now.reviews && r !in before.reviews && now.reviews[r] == QuestionOf(p)
    {
      QuestionAsked(before, now, predict, kinds, first, kind, p);
    }
  }
}
