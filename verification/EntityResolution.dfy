/**
 The code that works on the tables: document ingestion, human review and the
 batch pass. Every write is recorded in a ghost log, and `Valid` says that the
 tables are what a legal log makes of empty ones.
 */
module EntityResolution {
  import opened BatchPass
  import opened BatchTypes
  import opened Clustering
  import opened EntityTables
  import opened Ingestion
  import opened Ordering
  import opened Prelude

  datatype IngestStats = IngestStats(mentions: nat, candidates: nat, entities: nat, edges: nat, reviews: nat)

  // ---------------------------------------------------------------- relations between states

  ghost predicate FreshFrom(db: Tables, next: Id) {
    && (forall x | x in db.entities :: x < next)
    && (forall x | x in db.mentions :: x < next)
    && (forall x | x in db.candidates :: x < next)
    && (forall x | x in db.edges :: x < next)
    && (forall x | x in db.reviews :: x < next)
  }

  lemma MergeUsesNoNewId(db: Tables, after: Tables, keep: Id, drop: Id, next: Id)
    requires FreshFrom(db, next)
    requires keep in db.entities && drop in db.entities && keep != drop && IsMerge(db, after, keep, drop)
    ensures FreshFrom(after, next)
  {
    forall x | x in after.entities ensures x < next { assert x in db.entities.Keys; }
    forall m | m in after.mentions ensures m < next { assert m in db.mentions.Keys; }
    forall e | e in after.edges ensures e < next { assert e in db.edges.Keys; }
    forall r | r in after.reviews ensures r < next { assert r in db.reviews.Keys; }
  }

  lemma DecisionRows(db: Tables, ev: Event, next: Id)
    requires ReviewsSound(db) && Enabled(db, ev) && ev.ReviewDecided? && FreshFrom(db, next)
    ensures FreshFrom(Apply(db, ev), next)
    ensures var after := Apply(db, ev).reviews;
      ev.review in after && after[ev.review].status == ev.decision && after[ev.review].decidedBy == ev.decider
  {
    DecidedMerge(db, ev);
    var merge, before := MergeOf(db, ev), BeforeMerge(db, ev);
    MarkedRows(db, ev, before, next);
    if merge.Some? { MergedRows(before, Apply(db, ev), merge.value.0, merge.value.1, next, ev.review); }
  }

  lemma MarkedRows(db: Tables, ev: Event, before: Tables, next: Id)
    requires Enabled(db, ev) && ev.ReviewDecided? && FreshFrom(db, next) && before == BeforeMerge(db, ev)
    ensures FreshFrom(before, next) && ev.review in before.reviews
    ensures before.reviews[ev.review].status == ev.decision && before.reviews[ev.review].decidedBy == ev.decider
  {
  }

  lemma MergedRows(db: Tables, after: Tables, keep: Id, drop: Id, next: Id, r: Id)
    requires FreshFrom(db, next) && r in db.reviews
    requires keep in db.entities && drop in db.entities && keep != drop && IsMerge(db, after, keep, drop)
    ensures FreshFrom(after, next) && r in after.reviews
    ensures after.reviews[r].status == db.reviews[r].status && after.reviews[r].decidedBy == db.reviews[r].decidedBy
  {
    MergeUsesNoNewId(db, after, keep, drop, next);
    assert r in after.reviews.Keys;
  }

  /** The log has only grown, and by steps that merge nothing. */
  ghost predicate GrewWithoutMerge(before: seq<Event>, after: seq<Event>) {
    before <= after && MergesIn(after) == MergesIn(before)
  }

  /** The same, and by steps that resolve nothing. */
  ghost predicate GrewQuietly(before: seq<Event>, after: seq<Event>) {
    GrewWithoutMerge(before, after) && NoneResolved(before, after)
  }

  lemma QuietOnward(a: seq<Event>, b: seq<Event>, c: seq<Event>)
    requires GrewQuietly(a, b) && GrewQuietly(b, c)
    ensures GrewQuietly(a, c)
  {
    forall i | |a| <= i < |c| ensures !c[i].MentionResolved? {
      if i < |b| { assert c[i] == b[i]; }
    }
  }

  /** Entities are never lost or renamed by ingestion; they only answer to more names. */
  ghost predicate EntitiesGrew(before: map<Id, Entity>, after: map<Id, Entity>) {
    forall x | x in before :: x in after && after[x].kind == before[x].kind && after[x].name == before[x].name
      && before[x].aliases <= after[x].aliases
  }

  /** All candidates of the chunks but those still to do are promoted if they can be; no other candidate has changed. */
  ghost predicate Promoted(before: Tables, now: Tables, chunks: set<Id>, todo: set<Id>) {
    && now.candidates.Keys == before.candidates.Keys
    && (forall c | c in before.candidates && c !in todo :: var row := before.candidates[c];
          now.candidates[c] == row.(promoted := row.promoted || (row.chunk in chunks && Promotable(before, row))))
    && (forall c | c in todo :: c in before.candidates && now.candidates[c] == before.candidates[c]
          && before.candidates[c].chunk in chunks && !before.candidates[c].promoted)
  }

  lemma NothingPromoted(db: Tables, c: Id)
    requires c in db.candidates && !db.candidates[c].promoted
    ensures db.candidates == db.candidates[c := db.candidates[c].(promoted := false)] && Extends(db, db)
  {
  }

  lemma ExtendsOnward(a: Tables, b: Tables, c: Tables)
    requires Extends(a, b) && Extends(b, c)
    ensures Extends(a, c)
  {
  }

  lemma PromotedOneMore(before: Tables, now: Tables, chunks: set<Id>, todo: set<Id>, c: Id)
    requires Promoted(before, now, chunks, todo) && c in todo && now.mentions == before.mentions
    ensures c in now.candidates && !now.candidates[c].promoted
    ensures var row := now.candidates[c];
      var after := now.(candidates := now.candidates[c := row.(promoted := Promotable(now, row))]);
      forall other: Tables | other.candidates == after.candidates :: Promoted(before, other, chunks, todo - {c})
  {
    var row := now.candidates[c];
    assert Promotable(now, row) == Promotable(before, row);
  }

  /** Promoted, or too uncertain, or between mentions that are not resolved to two entities. */
  predicate Settled(db: Tables, c: Candidate) {
    || c.promoted || c.confidence < EDGE_PROMOTION_THRESHOLD
    || c.from !in db.mentions || c.to !in db.mentions
    || db.mentions[c.from].entity.None? || db.mentions[c.to].entity.None?
    || db.mentions[c.from].entity == db.mentions[c.to].entity
  }

  lemma NonePromotable(before: Tables, now: Tables, chunks: set<Id>)
    requires Promoted(before, now, chunks, {}) && now.mentions == before.mentions
    ensures forall c | c in now.candidates && now.candidates[c].chunk in chunks :: Settled(now, now.candidates[c])
  {
  }

  class Session {
    var db: Tables
    var nextId: Id
    ghost var log: seq<Event>

    /** Name similarity, blocking and lower-casing are library functions of their arguments. */
    const scorePair: (string, string) -> real
    const blockKey: (string, string) -> string
    const lower: string -> string

    ghost predicate Valid()
      reads this
    {
      Legal(EMPTY, log) && db == Replay(EMPTY, log) && FreshFrom(db, nextId)
    }

    constructor (scorePair: (string, string) -> real, blockKey: (string, string) -> string, lower: string -> string)
      ensures Valid() && log == [] && db == EMPTY && nextId == 0
      ensures this.scorePair == scorePair && this.blockKey == blockKey && this.lower == lower
    {
      this.scorePair, this.blockKey, this.lower := scorePair, blockKey, lower;
      db, nextId, log := EMPTY, 0, [];
    }

    /** Every state a valid session can be in satisfies the table invariants. */
    lemma ValidMeansInvariant()
      requires Valid()
      ensures Invariant(db)
      ensures MergesIn(log) == [] ==> MirrorAgrees(db) && EdgesSimple(db)
    {
      EveryRunKeepsInvariant(EMPTY, log);
      if MergesIn(log) == [] {
        MergeFreeRunMirrors(EMPTY, log);
      }
    }

    // -------------------------------------------------------------- review.py

    method QueueForReview(a: Id, b: Id, score: real) returns (review: Id)
      requires Valid()
      requires a != b && a in db.entities && b in db.entities && db.entities[a].kind == db.entities[b].kind
      modifies this
      ensures GrewWithoutMerge(old(log), log)
      ensures Valid() && review == old(nextId) && nextId == old(nextId) + 1
      ensures log == old(log) + [ReviewQueued(review, a, b, score)]
      ensures db == old(db).(reviews := old(db.reviews)[review := Review(Some(a), Some(b), score, "pending", None)])
    {
      review := nextId;
      ReplayOne(EMPTY, log, ReviewQueued(review, a, b, score));
      db := db.(reviews := db.reviews[review := Review(Some(a), Some(b), score, "pending", None)]);
      nextId := nextId + 1;
      log := log + [ReviewQueued(review, a, b, score)];
    }

    /** The three bulk updates, one column at a time. */
    method RepointRows(drop: Id, keep: Id)
      modifies this`db
      ensures db == Repoint(old(db), drop, keep)
    {
      db := db.(edges := map e | e in db.edges :: db.edges[e].(from := Renamed(db.edges[e].from, drop, keep)));
      db := db.(edges := map e | e in db.edges :: db.edges[e].(to := Renamed(db.edges[e].to, drop, keep)));
      db := db.(mentions := map m | m in db.mentions ::
                  db.mentions[m].(entity := RenamedRef(db.mentions[m].entity, drop, keep)));
    }

    /** The statements of a merge, up to the deletion whose foreign keys then fire. */
    method MergeRows(keep: Option<Id>, drop: Option<Id>)
      modifies this`db
      ensures db == MergeEntities(old(db), keep, drop)
      ensures if keep.None? || drop.None? || keep.value !in old(db).entities || drop.value !in old(db).entities
              then db == old(db)
              else keep != drop ==> IsMerge(old(db), db, keep.value, drop.value)
    {
      if keep.None? || drop.None? || keep.value !in db.entities || drop.value !in db.entities {
        return;
      }
      var k, d := keep.value, drop.value;
      var dropped := db.entities[d];
      db := db.(entities := db.entities[k := db.entities[k].(
                  aliases := db.entities[k].aliases + {dropped.name} + dropped.aliases)]);
      assert db.entities[k].aliases == old(db.entities[k].aliases) + dropped.Names();
      RepointRows(d, k);
      db := DeleteEntity(db, d);
      if k != d { MergeConserves(old(db), k, d); }
    }

    /** A decision is a legal step that deletes no review and uses no new id. */
    lemma DecisionStep(ev: Event)
      requires Valid() && ev.ReviewDecided? && ev.review in db.reviews
      ensures Legal(EMPTY, log + [ev]) && Replay(EMPTY, log + [ev]) == Apply(db, ev)
      ensures FreshFrom(Apply(db, ev), nextId)
      ensures var after := Apply(db, ev).reviews;
        ev.review in after && after[ev.review].status == ev.decision && after[ev.review].decidedBy == ev.decider
    {
      ReviewsAreSound();
      ReplayOne(EMPTY, log, ev);
      DecisionRows(db, ev, nextId);
    }

    lemma ReviewsAreSound()
      requires Valid()
      ensures ReviewsSound(db)
    {
      ValidMeansInvariant();
    }

    method Decide(review: Id, decision: string, decider: Option<string>) returns (r: Result<Review, string>)
      requires Valid()
      modifies this
      ensures Valid() && nextId == old(nextId)
      ensures r.Err? <==> review !in old(db).reviews
      ensures r.Err? ==> db == old(db) && log == old(log)
      ensures r.Ok? ==>
        && log == old(log) + [ReviewDecided(review, decision, decider)]
        && review in db.reviews && r.value == db.reviews[review]
        && r.value.status == decision && r.value.decidedBy == decider
        && db == Apply(old(db), ReviewDecided(review, decision, decider))
    {
      if review !in db.reviews {
        return Err("No review row");
      }
      ghost var ev := ReviewDecided(review, decision, decider);
      DecisionStep(ev);
      var row := db.reviews[review].(status := decision, decidedBy := decider);
      db := db.(reviews := db.reviews[review := row]);
      if decision == "merged" {
        MergeRows(row.a, row.b);
      }
      log := log + [ev];
      r := Ok(db.reviews[review]);
    }

    // -------------------------------------------------------------- pipeline.py

    /** Worth scoring: same type, and either the same block or the text among the aliases up to case. */
    predicate Eligible(tables: Tables, text: string, kind: string, x: Id) {
      && x in tables.entities && tables.entities[x].kind == kind
      && (blockKey(kind, tables.entities[x].name) == blockKey(kind, text)
          || exists a | a in tables.entities[x].aliases :: lower(a) == lower(text))
    }

    function Score(tables: Tables, text: string, x: Id): real
      requires x in tables.entities
    {
      scorePair(text, tables.entities[x].name)
    }

    /** A positive-scoring eligible entity none of the others beats, if there is any. */
    ghost predicate IsBestMatch(tables: Tables, text: string, kind: string, best: Option<Id>) {
      match best
      case None => forall x | Eligible(tables, text, kind, x) :: Score(tables, text, x) <= 0.0
      case Some(b) =>
        && Eligible(tables, text, kind, b) && Score(tables, text, b) > 0.0
        && forall x | Eligible(tables, text, kind, x) :: Score(tables, text, x) <= Score(tables, text, b)
    }

    method FindBestMatch(text: string, kind: string) returns (best: Option<Id>, bestScore: real)
      ensures IsBestMatch(db, text, kind, best)
      ensures best.Some? ==> bestScore == Score(db, text, best.value)
    {
      var key := blockKey(kind, text);
      best, bestScore := None, 0.0;
      var todo := set x | x in db.entities && db.entities[x].kind == kind;
      while todo != {}
        invariant forall x | x in todo :: x in db.entities && db.entities[x].kind == kind
        invariant bestScore == if best.Some? && best.value in db.entities then Score(db, text, best.value) else 0.0
        invariant best.Some? ==> Eligible(db, text, kind, best.value) && bestScore > 0.0
        invariant forall x | Eligible(db, text, kind, x) && x !in todo :: Score(db, text, x) <= bestScore
      {
        var x :| x in todo;
        todo := todo - {x};
        var candidate := db.entities[x];
        if blockKey(candidate.kind, candidate.name) != key
           && !(exists a | a in candidate.aliases :: lower(a) == lower(text)) {
          continue;
        }
        var score := scorePair(text, candidate.name);
        if score > bestScore {
          bestScore, best := score, Some(x);
        }
      }
    }

    /** What being the best match comes to, said of scores, types, blocks and aliases. */
    lemma BestMatchIs(tables: Tables, text: string, kind: string, best: Option<Id>)
      requires IsBestMatch(tables, text, kind, best)
      ensures best.Some? ==>
        && best.value in tables.entities && tables.entities[best.value].kind == kind
        && scorePair(text, tables.entities[best.value].name) > 0.0
        && (blockKey(kind, tables.entities[best.value].name) == blockKey(kind, text)
            || exists a | a in tables.entities[best.value].aliases :: lower(a) == lower(text))
      ensures forall x | x in tables.entities && tables.entities[x].kind == kind
                && (blockKey(kind, tables.entities[x].name) == blockKey(kind, text)
                    || exists a | a in tables.entities[x].aliases :: lower(a) == lower(text)) ::
                scorePair(text, tables.entities[x].name) <=
                if best.Some? then scorePair(text, tables.entities[best.value].name) else 0.0
    {
      forall x | x in tables.entities && tables.entities[x].kind == kind
        && (blockKey(kind, tables.entities[x].name) == blockKey(kind, text)
            || exists a | a in tables.entities[x].aliases :: lower(a) == lower(text))
        ensures scorePair(text, tables.entities[x].name) <=
                if best.Some? then scorePair(text, tables.entities[best.value].name) else 0.0
      {
        assert Eligible(tables, text, kind, x);
      }
    }

    /**
     `steps` lead from a mention to the entity `x`: its best match if that is good enough,
     which then answers to the text, otherwise a new entity, about which a question is
     asked if the best match is worth one.
     */
    ghost predicate ByMatch(tables: Tables, m: Mention, x: Id, steps: seq<Event>, best: Option<Id>) {
      && IsBestMatch(tables, m.text, m.kind, best)
      && var score := if best.Some? && best.value in tables.entities
                      then scorePair(m.text, tables.entities[best.value].name) else 0.0;
      if best.Some? && best.value in tables.entities && score >= HIGH_CONFIDENCE_THRESHOLD
      then && x == best.value
           && steps == if m.text == tables.entities[x].name || m.text in tables.entities[x].aliases then []
                       else [AliasAdded(x, m.text)]
      else && x !in tables.entities
           && steps == [EntityCreated(x, m.kind, m.text, m.confidence)]
                       + if best.Some? && score >= REVIEW_THRESHOLD
                         then [ReviewQueued(x + 1, x, best.value, score)] else []
    }

    ghost predicate RowByMatch(tables: Tables, row: Id, x: Id, steps: seq<Event>, best: Option<Id>) {
      row in tables.mentions && ByMatch(tables, tables.mentions[row], x, steps, best)
    }

    /** Event `i` resolves a mention as the tables at the time, some events earlier, ask for. */
    ghost predicate ResolvedByMatch(log: seq<Event>, i: nat)
      requires i < |log| && log[i].MentionResolved?
    {
      exists k: nat, best: Option<Id> :: k <= i && Legal(EMPTY, log[..k])
        && RowByMatch(Replay(EMPTY, log[..k]), log[i].mention, log[i].entity, log[k..i], best)
    }

    /** Since `before`, the mention has been resolved to `x` in that way. */
    ghost predicate Matched(before: seq<Event>, log: seq<Event>, row: Id, x: Id) {
      exists i :: |before| <= i < |log| && log[i] == MentionResolved(row, x) && ResolvedByMatch(log, i)
    }

    /** Every new mention has. */
    ghost predicate NewMatched(start: Tables, before: seq<Event>, db: Tables, log: seq<Event>) {
      forall m | m in db.mentions && m !in start.mentions ::
        db.mentions[m].entity.Some? && Matched(before, log, m, db.mentions[m].entity.value)
    }

    lemma MatchedOnce(before: seq<Event>, tables: Tables, row: Id, x: Id, steps: seq<Event>, best: Option<Id>)
      requires Legal(EMPTY, before) && Replay(EMPTY, before) == tables && RowByMatch(tables, row, x, steps, best)
      ensures Matched(before, before + steps + [MentionResolved(row, x)], row, x)
    {
      var log, k, i := before + steps + [MentionResolved(row, x)], |before|, |before| + |steps|;
      assert log[..k] == before && log[k..i] == steps && log[i] == MentionResolved(row, x);
      assert ResolvedByMatch(log, i);
    }

    lemma ByMatchOnward(log: seq<Event>, more: seq<Event>, i: nat)
      requires i < |log| && log <= more && log[i].MentionResolved? && ResolvedByMatch(log, i)
      ensures more[i] == log[i] && ResolvedByMatch(more, i)
    {
      var k: nat, best: Option<Id> :| k <= i && Legal(EMPTY, log[..k])
        && RowByMatch(Replay(EMPTY, log[..k]), log[i].mention, log[i].entity, log[k..i], best);
      assert more[..k] == log[..k] && more[k..i] == log[k..i] && more[i] == log[i];
    }

    lemma MatchedOnward(start: seq<Event>, before: seq<Event>, log: seq<Event>, more: seq<Event>, row: Id, x: Id)
      requires Matched(before, log, row, x) && |start| <= |before| && log <= more
      ensures Matched(start, more, row, x)
    {
      var i :| |before| <= i < |log| && log[i] == MentionResolved(row, x) && ResolvedByMatch(log, i);
      ByMatchOnward(log, more, i);
    }

    /** The steps resolving a mention takes, given its best match. */
    ghost function ResolveSteps(tables: Tables, m: Ner, best: Option<Id>, next: Id): seq<Event>
      requires IsBestMatch(tables, m.text, m.kind, best)
    {
      if best.Some? && Score(tables, m.text, best.value) >= HIGH_CONFIDENCE_THRESHOLD then
        if m.text in tables.entities[best.value].Names() then [] else [AliasAdded(best.value, m.text)]
      else
        [EntityCreated(next, m.kind, m.text, m.confidence)]
        + if best.Some? && Score(tables, m.text, best.value) >= REVIEW_THRESHOLD
          then [ReviewQueued(next + 1, next, best.value, Score(tables, m.text, best.value))] else []
    }

    lemma ResolveStepsAre(tables: Tables, m: Ner, best: Option<Id>, next: Id)
      requires IsBestMatch(tables, m.text, m.kind, best)
      ensures best.Some? ==> best.value in tables.entities && tables.entities[best.value].kind == m.kind
      ensures var steps := ResolveSteps(tables, m, best, next);
        if best.Some? && Score(tables, m.text, best.value) >= HIGH_CONFIDENCE_THRESHOLD
        then steps == if m.text in tables.entities[best.value].Names() then [] else [AliasAdded(best.value, m.text)]
        else steps == [EntityCreated(next, m.kind, m.text, m.confidence)]
               + if best.Some? && Score(tables, m.text, best.value) >= REVIEW_THRESHOLD
                 then [ReviewQueued(next + 1, next, best.value, Score(tables, m.text, best.value))] else []
    {
    }

    method AddAlias(x: Id, text: string)
      requires Valid() && x in db.entities
      modifies this
      ensures GrewWithoutMerge(old(log), log)
      ensures Valid() && nextId == old(nextId) && log == old(log) + [AliasAdded(x, text)]
      ensures db == old(db).(entities := old(db).entities[x :=
                      old(db).entities[x].(aliases := old(db).entities[x].aliases + {text})])
    {
      ReplayOne(EMPTY, log, AliasAdded(x, text));
      db := db.(entities := db.entities[x := db.entities[x].(aliases := db.entities[x].aliases + {text})]);
      log := log + [AliasAdded(x, text)];
    }

    /** Adds the entity row and mirrors it. */
    method CreateEntity(kind: string, text: string, confidence: real) returns (x: Id)
      requires Valid()
      modifies this
      ensures GrewWithoutMerge(old(log), log)
      ensures Valid() && x == old(nextId) && nextId == old(nextId) + 1
      ensures log == old(log) + [EntityCreated(x, kind, text, confidence)]
      ensures db == old(db).(entities := old(db).entities[x := Entity(kind, text, {}, confidence)],
                             nodes := old(db).nodes[x := Node(kind, text, confidence)])
    {
      x := nextId;
      ReplayOne(EMPTY, log, EntityCreated(x, kind, text, confidence));
      db := db.(entities := db.entities[x := Entity(kind, text, {}, confidence)]);
      db := db.(nodes := db.nodes[x := Node(kind, text, confidence)]);
      nextId := nextId + 1;
      log := log + [EntityCreated(x, kind, text, confidence)];
    }

    method ResolveMention(m: Ner) returns (entity: Id, created: bool, queued: bool, ghost best: Option<Id>)
      requires Valid()
      modifies this
      ensures GrewWithoutMerge(old(log), log)
      ensures Valid() && nextId == old(nextId) + (if created then 1 else 0) + if queued then 1 else 0
      ensures IsBestMatch(old(db), m.text, m.kind, best)
      ensures log == old(log) + ResolveSteps(old(db), m, best, old(nextId))
      ensures created == (best.None? || Score(old(db), m.text, best.value) < HIGH_CONFIDENCE_THRESHOLD)
      ensures queued == (created && best.Some? && Score(old(db), m.text, best.value) >= REVIEW_THRESHOLD)
      ensures entity == if created then old(nextId) else best.value
      ensures entity in db.entities && db.entities[entity].kind == m.kind && m.text in db.entities[entity].Names()
      ensures EntitiesGrew(old(db.entities), db.entities)
      ensures created ==> old(nextId) !in old(db.entities) && db.entities.Keys == old(db.entities.Keys) + {old(nextId)}
      ensures !created ==> db.entities.Keys == old(db.entities.Keys)
      ensures |db.entities| == |old(db.entities)| + (if created then 1 else 0)
      ensures |db.reviews| == |old(db.reviews)| + (if queued then 1 else 0)
      ensures db == old(db).(entities := db.entities, reviews := db.reviews, nodes := db.nodes)
    {
      var bestMatch, bestScore := FindBestMatch(m.text, m.kind);
      best := bestMatch;
      ResolveStepsAre(db, m, best, nextId);
      if bestMatch.Some? && bestScore >= HIGH_CONFIDENCE_THRESHOLD {
        entity, created, queued := bestMatch.value, false, false;
        JoinEntity(entity, m.text);
      } else {
        created := true;
        entity, queued := CreateOrAsk(m, bestMatch, bestScore);
      }
    }

    /** The confident match takes the mention's text as an alias unless it already answers to it. */
    method JoinEntity(x: Id, text: string)
      requires Valid() && x in db.entities
      modifies this
      ensures GrewWithoutMerge(old(log), log)
      ensures Valid() && nextId == old(nextId)
      ensures log == old(log) + if text in old(db).entities[x].Names() then [] else [AliasAdded(x, text)]
      ensures x in db.entities && text in db.entities[x].Names() && EntitiesGrew(old(db.entities), db.entities)
      ensures db == old(db).(entities := db.entities) && db.entities.Keys == old(db.entities.Keys)
      ensures |db.entities| == |old(db.entities)|
    {
      var row := db.entities[x];
      if text !in row.aliases && text != row.name {
        AddAlias(x, text);
      } else {
        assert log == old(log) + [];
      }
    }

    /** A new entity, and a review question if it resembles `best` closely enough. */
    method CreateOrAsk(m: Ner, best: Option<Id>, bestScore: real) returns (entity: Id, queued: bool)
      requires Valid() && (best.Some? ==> best.value in db.entities && db.entities[best.value].kind == m.kind)
      modifies this
      ensures GrewWithoutMerge(old(log), log)
      ensures Valid() && entity == old(nextId) && nextId == entity + 1 + if queued then 1 else 0
      ensures queued == (best.Some? && bestScore >= REVIEW_THRESHOLD)
      ensures log == old(log) + [EntityCreated(entity, m.kind, m.text, m.confidence)]
                     + if queued then [ReviewQueued(entity + 1, entity, best.value, bestScore)] else []
      ensures db == old(db).(entities := old(db).entities[entity := Entity(m.kind, m.text, {}, m.confidence)],
                             nodes := db.nodes, reviews := db.reviews)
      ensures |db.reviews| == |old(db.reviews)| + (if queued then 1 else 0)
      ensures |db.entities| == |old(db.entities)| + 1
    {
      entity := CreateEntity(m.kind, m.text, m.confidence);
      queued := best.Some? && bestScore >= REVIEW_THRESHOLD;
      if queued {
        var _ := QueueForReview(entity, best.value, bestScore);
      }
    }

    /** Sets a mention row's entity. */
    method AttachMention(row: Id, x: Id)
      requires Valid() && Enabled(db, MentionResolved(row, x))
      modifies this
      ensures GrewWithoutMerge(old(log), log)
      ensures Valid() && nextId == old(nextId) && log == old(log) + [MentionResolved(row, x)]
      ensures db == old(db).(mentions := old(db).mentions[row :=
                      old(db).mentions[row].(entity := Some(x), resolved := true)])
    {
      ReplayOne(EMPTY, log, MentionResolved(row, x));
      db := db.(mentions := db.mentions[row := db.mentions[row].(entity := Some(x), resolved := true)]);
      log := log + [MentionResolved(row, x)];
    }

    method AddMention(chunk: Id, m: Ner) returns (row: Id)
      requires Valid()
      modifies this
      ensures GrewQuietly(old(log), log)
      ensures Valid() && row == old(nextId) && nextId == old(nextId) + 1
      ensures log == old(log) + [MentionAdded(row, chunk, m.text, m.kind, m.confidence)]
      ensures db == old(db).(
        mentions := old(db).mentions[row := Mention(chunk, m.text, m.kind, m.confidence, None, false)])
    {
      row := nextId;
      ReplayOne(EMPTY, log, MentionAdded(row, chunk, m.text, m.kind, m.confidence));
      db := db.(mentions := db.mentions[row := Mention(chunk, m.text, m.kind, m.confidence, None, false)]);
      nextId := nextId + 1;
      log := log + [MentionAdded(row, chunk, m.text, m.kind, m.confidence)];
    }

    method AddCandidate(c: Candidate) returns (row: Id)
      requires Valid() && !c.promoted && CandidateInOneChunk(db, c)
      modifies this
      ensures GrewQuietly(old(log), log)
      ensures Valid() && row == old(nextId) && nextId == old(nextId) + 1
      ensures log == old(log) + [CandidateAdded(row, c.from, c.to, c.kind, c.chunk, c.confidence)]
      ensures db == old(db).(candidates := old(db).candidates[row := c])
    {
      row := nextId;
      ReplayOne(EMPTY, log, CandidateAdded(row, c.from, c.to, c.kind, c.chunk, c.confidence));
      db := db.(candidates := db.candidates[row := c]);
      nextId := nextId + 1;
      log := log + [CandidateAdded(row, c.from, c.to, c.kind, c.chunk, c.confidence)];
    }

    /** Mentions have got their rows, and nothing else has happened since `before`. */
    ghost predicate AddedSoFar(before: Tables, start: seq<Event>, first: Id, made: seq<Mention>)
      reads this
    {
      && Valid() && GrewQuietly(start, log) && nextId == first + |made|
      && (forall id | id in before.mentions :: id < first)
      && Appended(before.mentions, db.mentions, first, made)
      && db == before.(mentions := db.mentions)
    }

    lemma StartAdding()
      requires Valid()
      ensures AddedSoFar(db, log, nextId, [])
    {
    }

    /** One turn of the loop over the mentions. */
    method AddNextMention(chunk: Chunk, i: nat, ghost before: Tables, ghost start: seq<Event>, ghost first: Id)
      returns (row: Id)
      requires i < |chunk.mentions| && AddedSoFar(before, start, first, NewMentions(chunk, i))
      modifies this
      ensures AddedSoFar(before, start, first, NewMentions(chunk, i + 1)) && row == first + i
    {
      ghost var logged := log;
      MentionsOneMore(before.mentions, db.mentions, first, chunk, i, nextId);
      row := AddMention(chunk.id, chunk.mentions[i]);
      QuietOnward(start, logged, log);
    }

    /** One pending row per reported mention, in order, with consecutive ids. */
    method AddMentions(chunk: Chunk) returns (rows: seq<Id>)
      requires Valid()
      modifies this
      ensures AddedSoFar(old(db), old(log), old(nextId), NewMentions(chunk, |chunk.mentions|))
      ensures |rows| == |chunk.mentions| && |db.mentions| == |old(db).mentions| + |rows|
      ensures forall i | 0 <= i < |rows| :: rows[i] == old(nextId) + i
      ensures forall m :: m in db.mentions <==> m in old(db).mentions || m in rows
      ensures forall i | 0 <= i < |rows| :: Says(db.mentions[rows[i]], chunk.id, chunk.mentions[i])
      ensures forall i | 0 <= i < |rows| :: db.mentions[rows[i]].entity.None? && !db.mentions[rows[i]].resolved
    {
      rows := [];
      StartAdding();
      for i := 0 to |chunk.mentions|
        invariant AddedSoFar(old(db), old(log), old(nextId), NewMentions(chunk, i))
        invariant |rows| == i && forall k | 0 <= k < i :: rows[k] == old(nextId) + k
      {
        var row := AddNextMention(chunk, i, old(db), old(log), old(nextId));
        rows := rows + [row];
      }
      AppendedRows(old(db).mentions, db.mentions, old(nextId), NewMentions(chunk, |chunk.mentions|), rows);
    }

    /** One turn of the loop over the relations. */
    method AddNextCandidate(chunk: Chunk, i: nat, bySpan: map<Span, Id>, ghost before: map<Id, Candidate>,
                            ghost first: Id)
      returns (isNew: bool)
      requires Valid() && i < |chunk.relations| && forall id | id in before :: id < first
      requires forall s | s in bySpan :: bySpan[s] in db.mentions && db.mentions[bySpan[s]].chunk == chunk.id
      requires var found := CandidateRows(chunk, chunk.relations[..i], bySpan);
        nextId == first + |found| && Appended(before, db.candidates, first, found)
      modifies this
      ensures Valid() && GrewQuietly(old(log), log) && nextId == old(nextId) + if isNew then 1 else 0
      ensures var found := CandidateRows(chunk, chunk.relations[..i + 1], bySpan);
        nextId == first + |found| && Appended(before, db.candidates, first, found)
      ensures db == old(db).(candidates := db.candidates)
    {
      var rel := chunk.relations[i];
      CandidateRowsSnoc(chunk, i, bySpan);
      isNew := rel.from in bySpan && rel.to in bySpan;
      if isNew {
        var c := Candidate(bySpan[rel.from], bySpan[rel.to], rel.kind, chunk.id, rel.confidence, false);
        AppendOne(before, db.candidates, first, CandidateRows(chunk, chunk.relations[..i], bySpan), nextId, c);
        var _ := AddCandidate(c);
      }
    }

    /** One pending candidate per relation between two mentions of the chunk, in order. */
    method AddCandidates(chunk: Chunk, rows: seq<Id>) returns (added: nat, ghost found: seq<Candidate>)
      requires Valid() && |rows| == |chunk.mentions|
      requires forall r | r in rows :: r in db.mentions && db.mentions[r].chunk == chunk.id
      modifies this
      ensures Valid() && GrewQuietly(old(log), log)
      ensures found == CandidateRows(chunk, chunk.relations, BySpan(chunk.mentions, rows))
      ensures added == |found| && nextId == old(nextId) + added
      ensures Appended(old(db).candidates, db.candidates, old(nextId), found)
      ensures db == old(db).(candidates := db.candidates)
    {
      var bySpan := BySpan(chunk.mentions, rows);
      BySpanInRows(chunk.mentions, rows);
      added := 0;
      for i := 0 to |chunk.relations|
        invariant Valid() && GrewQuietly(old(log), log)
        invariant db == old(db).(candidates := db.candidates)
        invariant added == |CandidateRows(chunk, chunk.relations[..i], bySpan)| && nextId == old(nextId) + added
        invariant Appended(old(db).candidates, db.candidates, old(nextId),
                           CandidateRows(chunk, chunk.relations[..i], bySpan))
      {
        var isNew := AddNextCandidate(chunk, i, bySpan, old(db).candidates, old(nextId));
        added := added + if isNew then 1 else 0;
      }
      assert chunk.relations[..|chunk.relations|] == chunk.relations;
      found := CandidateRows(chunk, chunk.relations, bySpan);
    }

    /** The steps taken are those the best match asks for. */
    lemma StepsByMatch(tables: Tables, m: Ner, row: Mention, best: Option<Id>, next: Id, x: Id, created: bool)
      requires IsBestMatch(tables, m.text, m.kind, best) && next !in tables.entities
      requires row.text == m.text && row.kind == m.kind && row.confidence == m.confidence
      requires created == (best.None? || Score(tables, m.text, best.value) < HIGH_CONFIDENCE_THRESHOLD)
      requires x == if created then next else best.value
      ensures ByMatch(tables, row, x, ResolveSteps(tables, m, best, next), best)
    {
      ResolveStepsAre(tables, m, best, next);
    }

    lemma NoStepResolves(tables: Tables, m: Ner, best: Option<Id>, next: Id)
      requires IsBestMatch(tables, m.text, m.kind, best)
      ensures forall ev | ev in ResolveSteps(tables, m, best, next) :: !ev.MentionResolved?
    {
    }

    lemma OneInTurn(before: seq<Event>, steps: seq<Event>, row: Id, x: Id)
      requires forall ev | ev in steps :: !ev.MentionResolved?
      ensures ResolvedInTurn(before, before + steps + [MentionResolved(row, x)], row, row + 1)
    {
    }

    /** What resolving a mention and attaching it writes to the log. */
    lemma RowResolved(before: seq<Event>, tables: Tables, m: Ner, row: Id, best: Option<Id>, next: Id, x: Id,
                      created: bool)
      requires Legal(EMPTY, before) && Replay(EMPTY, before) == tables && row in tables.mentions
      requires IsBestMatch(tables, m.text, m.kind, best) && next !in tables.entities
      requires SaysSame(tables.mentions[row], m)
      requires created == (best.None? || Score(tables, m.text, best.value) < HIGH_CONFIDENCE_THRESHOLD)
      requires x == if created then next else best.value
      ensures var after := before + ResolveSteps(tables, m, best, next) + [MentionResolved(row, x)];
        Matched(before, after, row, x) && ResolvedInTurn(before, after, row, row + 1)
    {
      var steps := ResolveSteps(tables, m, best, next);
      StepsByMatch(tables, m, tables.mentions[row], best, next, x, created);
      NoStepResolves(tables, m, best, next);
      MatchedOnce(before, tables, row, x, steps, best);
      OneInTurn(before, steps, row, x);
    }

    predicate SaysSame(row: Mention, m: Ner) {
      row.text == m.text && row.kind == m.kind && row.confidence == m.confidence
    }

    /** One turn of the resolution loop. */
    method ResolveRow(m: Ner, row: Id) returns (created: bool, queued: bool)
      requires Valid() && row in db.mentions && db.mentions[row].entity.None? && SaysSame(db.mentions[row], m)
      modifies this
      ensures Valid() && GrewWithoutMerge(old(log), log) && nextId >= old(nextId)
      ensures |db.entities| == |old(db.entities)| + (if created then 1 else 0)
      ensures |db.reviews| == |old(db.reviews)| + (if queued then 1 else 0)
      ensures EntitiesGrew(old(db.entities), db.entities)
      ensures row in db.mentions && db.mentions[row].entity.Some?
      ensures db.mentions == old(db).mentions[row :=
                old(db).mentions[row].(entity := db.mentions[row].entity, resolved := true)]
      ensures db.candidates == old(db).candidates && db.edges == old(db).edges
      ensures Matched(old(log), log, row, db.mentions[row].entity.value)
      ensures ResolvedInTurn(old(log), log, row, row + 1)
    {
      var entity, isNew, asked := EntityFor(m, row);
      created, queued := isNew, asked;
      AttachMention(row, entity);
    }

    /** The entity for a row, which is still to be attached. */
    method EntityFor(m: Ner, ghost row: Id) returns (entity: Id, created: bool, queued: bool)
      requires Valid() && row in db.mentions && db.mentions[row].entity.None? && SaysSame(db.mentions[row], m)
      modifies this
      ensures Valid() && GrewWithoutMerge(old(log), log) && nextId >= old(nextId)
      ensures |db.entities| == |old(db.entities)| + (if created then 1 else 0)
      ensures |db.reviews| == |old(db.reviews)| + (if queued then 1 else 0)
      ensures EntitiesGrew(old(db.entities), db.entities)
      ensures db.mentions == old(db).mentions && db.candidates == old(db).candidates && db.edges == old(db).edges
      ensures Enabled(db, MentionResolved(row, entity))
      ensures Matched(old(log), log + [MentionResolved(row, entity)], row, entity)
      ensures ResolvedInTurn(old(log), log + [MentionResolved(row, entity)], row, row + 1)
    {
      ghost var tables, before, next := db, log, nextId;
      ghost var best;
      entity, created, queued, best := ResolveMention(m);
      RowResolved(before, tables, m, row, best, next, entity, created);
    }

    /** All rows resolved so far have been matched. */
    ghost predicate RowsMatched(before: seq<Event>, log: seq<Event>, mentions: map<Id, Mention>, rows: seq<Id>) {
      forall i | 0 <= i < |rows| ::
        && rows[i] in mentions && mentions[rows[i]].entity.Some?
        && Matched(before, log, rows[i], mentions[rows[i]].entity.value)
    }

    lemma RowsMatchedOneMore(start: seq<Event>, before: seq<Event>, after: seq<Event>, mid: map<Id, Mention>,
                             now: map<Id, Mention>, rows: seq<Id>, i: nat)
      requires i < |rows| && start <= before <= after && RowsMatched(start, before, mid, rows[..i])
      requires forall j | 0 <= j < i :: rows[j] in now && now[rows[j]] == mid[rows[j]]
      requires rows[i] in now && now[rows[i]].entity.Some? && Matched(before, after, rows[i], now[rows[i]].entity.value)
      ensures RowsMatched(start, after, now, rows[..i + 1])
    {
      forall j | 0 <= j <= i
        ensures rows[j] in now && now[rows[j]].entity.Some?
                && Matched(start, after, rows[j], now[rows[j]].entity.value)
      {
        if j < i {
          assert rows[..i][j] == rows[j];
          MatchedOnward(start, start, before, after, rows[j], now[rows[j]].entity.value);
        } else {
          MatchedOnward(start, before, after, after, rows[j], now[rows[j]].entity.value);
        }
      }
    }

    /** The first `i` rows are resolved, and nothing else has happened to the tables since `before`. */
    ghost predicate ResolvedSoFar(before: Tables, start: seq<Event>, rows: seq<Id>, i: nat)
      requires i <= |rows|
      reads this
    {
      && Valid() && GrewWithoutMerge(start, log)
      && EntitiesGrew(before.entities, db.entities)
      && RowsResolved(before.mentions, db.mentions, rows[..i])
      && db.candidates == before.candidates && db.edges == before.edges
      && RowsMatched(start, log, db.mentions, rows[..i])
      && InTurnSoFar(start, log, rows, i)
    }

    ghost predicate InTurnSoFar(start: seq<Event>, log: seq<Event>, rows: seq<Id>, i: nat)
      requires i <= |rows|
    {
      if i == 0 then log == start else ResolvedInTurn(start, log, rows[0], rows[i - 1] + 1)
    }

    lemma StartResolving(rows: seq<Id>)
      requires Valid()
      ensures ResolvedSoFar(db, log, rows, 0)
    {
      assert rows[..0] == [];
    }

    /** The rows hold the chunk's mentions, still unresolved. */
    static ghost predicate AreNewRows(mentions: map<Id, Mention>, chunk: Chunk, rows: seq<Id>) {
      && |rows| == |chunk.mentions| && Increasing(rows)
      && forall i | 0 <= i < |rows| :: rows[i] in mentions && mentions[rows[i]] == NewMention(chunk, i)
    }

    /** Resolves the chunk's new mention rows one after the other. */
    method ResolveMentions(chunk: Chunk, rows: seq<Id>) returns (created: nat, queued: nat)
      requires Valid() && AreNewRows(db.mentions, chunk, rows)
      modifies this
      ensures ResolvedSoFar(old(db), old(log), rows, |rows|) && nextId >= old(nextId)
      ensures |db.entities| == |old(db.entities)| + created && |db.reviews| == |old(db.reviews)| + queued
    {
      ghost var before, start := db, log;
      created, queued := 0, 0;
      StartResolving(rows);
      for i := 0 to |rows|
        invariant ResolvedSoFar(before, start, rows, i) && nextId >= old(nextId)
        invariant |db.entities| == |before.entities| + created && |db.reviews| == |before.reviews| + queued
      {
        var isNew, asked := ResolveNext(chunk, rows, i, before, start);
        if isNew {
          created := created + 1;
        }
        if asked {
          queued := queued + 1;
        }
      }
    }

    /** One turn of that loop. */
    method ResolveNext(chunk: Chunk, rows: seq<Id>, i: nat, ghost before: Tables, ghost start: seq<Event>)
      returns (isNew: bool, asked: bool)
      requires AreNewRows(before.mentions, chunk, rows) && i < |rows| && ResolvedSoFar(before, start, rows, i)
      modifies this
      ensures ResolvedSoFar(before, start, rows, i + 1) && nextId >= old(nextId)
      ensures |db.entities| == |old(db.entities)| + (if isNew then 1 else 0)
      ensures |db.reviews| == |old(db.reviews)| + (if asked then 1 else 0)
    {
      StillPending(before.mentions, db.mentions, chunk, rows, i);
      ghost var mid, logged := db.mentions, log;
      isNew, asked := ResolveRow(chunk.mentions[i], rows[i]);
      ResolveOneMore(start, logged, log, before.mentions, mid, db.mentions, rows, i);
    }

    lemma StillPending(before: map<Id, Mention>, now: map<Id, Mention>, chunk: Chunk, rows: seq<Id>, i: nat)
      requires AreNewRows(before, chunk, rows) && i < |rows| && RowsResolved(before, now, rows[..i])
      ensures rows[i] in before && rows[i] in now
      ensures now[rows[i]].entity.None? && SaysSame(now[rows[i]], chunk.mentions[i])
    {
      assert rows[i] !in rows[..i];
      assert rows[i] in now.Keys;
    }

    lemma ResolveOneMore(start: seq<Event>, logged: seq<Event>, log: seq<Event>, before: map<Id, Mention>,
                         mid: map<Id, Mention>, now: map<Id, Mention>, rows: seq<Id>, i: nat)
      requires i < |rows| && start <= logged <= log && Increasing(rows)
      requires rows[i] in before && RowsResolved(before, mid, rows[..i]) && RowsMatched(start, logged, mid, rows[..i])
      requires InTurnSoFar(start, logged, rows, i)
      requires rows[i] in mid && rows[i] in now && now[rows[i]].entity.Some?
      requires now == mid[rows[i] := mid[rows[i]].(entity := now[rows[i]].entity, resolved := true)]
      requires Matched(logged, log, rows[i], now[rows[i]].entity.value)
      requires ResolvedInTurn(logged, log, rows[i], rows[i] + 1)
      ensures RowsResolved(before, now, rows[..i + 1]) && RowsMatched(start, log, now, rows[..i + 1])
      ensures InTurnSoFar(start, log, rows, i + 1)
    {
      ResolvedOneMore(before, mid, now, rows, i);
      forall j | 0 <= j < i ensures rows[j] in now && now[rows[j]] == mid[rows[j]] { assert rows[..i][j] == rows[j]; }
      RowsMatchedOneMore(start, logged, log, mid, now, rows, i);
      NextInTurn(start, logged, log, rows, i);
    }

    lemma NextInTurn(start: seq<Event>, before: seq<Event>, after: seq<Event>, rows: seq<Id>, i: nat)
      requires i < |rows| && Increasing(rows) && InTurnSoFar(start, before, rows, i)
      requires ResolvedInTurn(before, after, rows[i], rows[i] + 1)
      ensures InTurnSoFar(start, after, rows, i + 1)
    {
      if i > 0 {
        assert ResolvedInTurn(before, after, rows[i - 1] + 1, rows[i] + 1);
        InTurnOnward(start, before, after, rows[0], rows[i - 1] + 1, rows[i] + 1);
      }
    }

    /** What promoting to `edge` does to the rows. */
    lemma PromotionStep(c: Id, edge: Id)
      requires Valid() && Enabled(db, CandidatePromoted(c, edge))
      ensures var after := Apply(db, CandidatePromoted(c, edge));
        && Extends(db, after)
        && |after.edges| == |db.edges| + (if edge in db.edges then 0 else 1)
        && after.candidates == db.candidates[c := db.candidates[c].(promoted := true)]
        && after.mentions == db.mentions && after.entities == db.entities && after.reviews == db.reviews
    {
      ValidMeansInvariant();
      PromotionRows(db, c, edge);
      RowStepExtends(db, CandidatePromoted(c, edge));
    }

    /** One turn of the promotion loop: a promotable candidate goes to some edge of its triple, or to a new one. */
    method PromoteCandidate(c: Id) returns (created: bool)
      requires Valid() && c in db.candidates && !db.candidates[c].promoted
      modifies this
      ensures Valid() && GrewQuietly(old(log), log) && nextId == old(nextId) + if created then 1 else 0
      ensures Promotable(old(db), old(db).candidates[c]) ==>
                exists edge :: log == old(log) + [CandidatePromoted(c, edge)] && created == (edge !in old(db).edges)
                               && (created ==> edge == old(nextId)) && Enabled(old(db), CandidatePromoted(c, edge))
      ensures !Promotable(old(db), old(db).candidates[c]) ==> log == old(log) && db == old(db) && !created
      ensures Extends(old(db), db) && |db.edges| == |old(db).edges| + (if created then 1 else 0)
      ensures db.candidates == old(db).candidates[c :=
                old(db).candidates[c].(promoted := Promotable(old(db), old(db).candidates[c]))]
      ensures db.mentions == old(db).mentions && db.entities == old(db).entities && db.reviews == old(db).reviews
    {
      created := false;
      var ends := EndsToJoin(db.candidates[c]);
      if ends.None? {
        NothingPromoted(db, c);
        return;
      }
      var edge;
      edge, created := EdgeFor(db.candidates[c], ends.value.0, ends.value.1);
      PromotionStep(c, edge);
      Promote(c, edge);
    }

    /** The entities to join, unless one of the guards skips the candidate. */
    method EndsToJoin(cand: Candidate) returns (ends: Option<(Id, Id)>)
      requires !cand.promoted
      ensures ends.Some? == Promotable(db, cand) && (ends.Some? ==> ends == Ends(db, cand))
    {
      if cand.confidence < EDGE_PROMOTION_THRESHOLD {
        return None;
      }
      if cand.from !in db.mentions || cand.to !in db.mentions {
        return None;
      }
      var from, to := db.mentions[cand.from].entity, db.mentions[cand.to].entity;
      if from.None? || to.None? {
        return None;
      }
      if from == to {
        return None;
      }
      return Some((from.value, to.value));
    }

    /** Some existing edge of the triple, or the id of the one to insert. */
    method EdgeFor(cand: Candidate, from: Id, to: Id) returns (edge: Id, isNew: bool)
      requires Valid()
      ensures isNew <==> edge !in db.edges
      ensures !isNew ==> Joins(db.edges[edge], (from, to), cand.kind)
      ensures isNew ==> edge == nextId && forall e | e in db.edges :: !Joins(db.edges[e], (from, to), cand.kind)
    {
      var existing := set e | e in db.edges && Joins(db.edges[e], (from, to), cand.kind);
      if existing != {} {
        edge :| edge in existing;
        isNew := false;
      } else {
        edge, isNew := nextId, true;
        forall e | e in db.edges ensures !Joins(db.edges[e], (from, to), cand.kind) {
          assert e !in existing;
        }
      }
    }

    method Promote(c: Id, edge: Id)
      requires Valid() && Enabled(db, CandidatePromoted(c, edge)) && (edge in db.edges || edge == nextId)
      modifies this
      ensures GrewQuietly(old(log), log)
      ensures Valid() && nextId == old(nextId) + if edge in old(db).edges then 0 else 1
      ensures log == old(log) + [CandidatePromoted(c, edge)] && db == Apply(old(db), CandidatePromoted(c, edge))
    {
      ReplayOne(EMPTY, log, CandidatePromoted(c, edge));
      PromotionRows(db, c, edge);
      var cand := db.candidates[c];
      if edge !in db.edges {
        nextId := nextId + 1;
      }
      WriteEdge(edge, cand, db.mentions[cand.from].entity.value, db.mentions[cand.to].entity.value);
      db := db.(candidates := db.candidates[c := cand.(promoted := true)]);
      log := log + [CandidatePromoted(c, edge)];
    }

    /** Extends the evidence of an existing edge or inserts a new one, then mirrors it. */
    method WriteEdge(e: Id, cand: Candidate, from: Id, to: Id)
      requires Ends(db, cand) == Some((from, to))
      modifies this`db
      ensures db == SyncEdge(old(db).(edges := old(db).edges[e := PromotedEdge(old(db), cand, e)]), e)
    {
      if e in db.edges {
        var edge := db.edges[e];
        if cand.chunk !in edge.evidence {
          db := db.(edges := db.edges[e := edge.(evidence := edge.evidence + [cand.chunk])]);
        }
      } else {
        db := db.(edges := db.edges[e := Edge(from, to, cand.kind, [cand.chunk], cand.confidence)]);
      }
      assert db.edges == old(db).edges[e := PromotedEdge(old(db), cand, e)];
      var row := db.edges[e];
      if row.from in db.nodes && row.to in db.nodes {
        db := db.(relations := db.relations[RelationKey(e, row.from, row.to) :=
                    Relation(row.kind, row.confidence, row.evidence)]);
      }
    }

    /** Promotes exactly the promotable pending candidates of the chunks. */
    method PromoteEdgeCandidates(chunks: set<Id>) returns (promoted: nat)
      requires Valid()
      modifies this
      ensures Valid() && GrewQuietly(old(log), log) && nextId >= old(nextId)
      ensures |db.edges| == |old(db).edges| + promoted
      ensures Extends(old(db), db)
      ensures Promoted(old(db), db, chunks, {})
      ensures db.mentions == old(db).mentions && db.entities == old(db).entities && db.reviews == old(db).reviews
    {
      promoted := 0;
      if chunks == {} {
        return;
      }
      var todo := set c | c in db.candidates && db.candidates[c].chunk in chunks && !db.candidates[c].promoted;
      while todo != {}
        invariant Valid() && GrewQuietly(old(log), log) && nextId >= old(nextId)
        invariant |db.edges| == |old(db).edges| + promoted
        invariant Extends(old(db), db)
        invariant Promoted(old(db), db, chunks, todo)
        invariant db.mentions == old(db).mentions && db.entities == old(db).entities && db.reviews == old(db).reviews
      {
        var c :| c in todo;
        var created := PromoteNext(c, old(db), chunks, todo);
        todo := todo - {c};
        if created {
          promoted := promoted + 1;
        }
      }
    }

    /** One turn of that loop. */
    method PromoteNext(c: Id, ghost before: Tables, ghost chunks: set<Id>, ghost todo: set<Id>) returns (created: bool)
      requires Valid() && c in todo && Promoted(before, db, chunks, todo) && Extends(before, db)
      requires db.mentions == before.mentions
      modifies this
      ensures Valid() && GrewQuietly(old(log), log) && nextId >= old(nextId)
      ensures |db.edges| == |old(db).edges| + (if created then 1 else 0)
      ensures Promoted(before, db, chunks, todo - {c}) && Extends(before, db)
      ensures db.mentions == old(db).mentions && db.entities == old(db).entities && db.reviews == old(db).reviews
    {
      PromotedOneMore(before, db, chunks, todo, c);
      ghost var mid := db;
      created := PromoteCandidate(c);
      ExtendsOnward(before, mid, db);
    }

    // -------------------------------------------------------------- one chunk

    lemma RowsAreNewMatched(before: Tables, start: seq<Event>, logged: seq<Event>, log: seq<Event>, now: Tables,
                            rows: seq<Id>)
      requires RowsMatched(logged, log, now.mentions, rows) && start <= logged
      requires forall m | m in now.mentions && m !in before.mentions :: m in rows
      ensures NewMatched(before, start, now, log)
    {
      forall m | m in now.mentions && m !in before.mentions
        ensures now.mentions[m].entity.Some? && Matched(start, log, m, now.mentions[m].entity.value)
      {
        var i :| 0 <= i < |rows| && rows[i] == m;
        MatchedOnward(start, logged, log, log, m, now.mentions[m].entity.value);
      }
    }

    lemma ChunkInTurn(start: seq<Event>, logged: seq<Event>, log: seq<Event>, rows: seq<Id>, first: Id, next: Id)
      requires GrewQuietly(start, logged) && InTurnSoFar(logged, log, rows, |rows|) && rows != []
      requires rows[0] == first && rows[|rows| - 1] < next && Increasing(rows)
      ensures ResolvedInTurn(start, log, first, next)
    {
      assert ResolvedInTurn(logged, log, first, next);
      assert ResolvedInTurn(start, logged, first, first);
      InTurnOnward(start, logged, log, first, first, next);
    }

    /** What a chunk has come to when its mentions are resolved, in the log and in the rows. */
    ghost predicate ChunkProcessed(before: Tables, start: seq<Event>, first: Id, chunk: Chunk, rows: Rows)
      reads this
    {
      && Valid() && GrewWithoutMerge(start, log) && first <= nextId
      && EntitiesGrew(before.entities, db.entities) && RowsAppended(before, db)
      && Ingested(db, chunk, rows) && NoOtherRows(before, db, [rows]) && Between(rows, first, nextId)
      && NewMatched(before, start, db, log) && ResolvedInTurn(start, log, first, nextId)
    }

    /** Adds the rows of a chunk, mentions first. */
    method AddRows(chunk: Chunk) returns (ids: seq<Id>, added: nat, ghost next: Id, ghost found: seq<Candidate>)
      requires Valid()
      modifies this
      ensures Valid() && GrewQuietly(old(log), log)
      ensures |ids| == |chunk.mentions|
      ensures found == CandidateRows(chunk, chunk.relations, BySpan(chunk.mentions, ids))
      ensures RowsAdded(old(db), db, old(nextId), next, ids, NewMentions(chunk, |ids|), found)
      ensures nextId == old(nextId) + |ids| + added && added == |db.candidates| - |old(db).candidates|
    {
      ids := AddMentions(chunk);
      ghost var mid, logged := db, log;
      next := nextId;
      RowsOfChunk(old(db).mentions, mid.mentions, old(nextId), chunk, ids);
      added, found := AddCandidates(chunk, ids);
      QuietOnward(old(log), logged, log);
      BothAdded(old(db), mid, db, old(nextId), next, ids, NewMentions(chunk, |ids|), found);
    }

    lemma ChunkDone(before: Tables, start: seq<Event>, first: Id, next: Id, mid: Tables, logged: seq<Event>,
                    chunk: Chunk, ids: seq<Id>, found: seq<Candidate>)
      returns (rows: Rows)
      requires ids != [] && |ids| == |chunk.mentions|
      requires found == CandidateRows(chunk, chunk.relations, BySpan(chunk.mentions, ids))
      requires RowsAdded(before, mid, first, next, ids, NewMentions(chunk, |ids|), found)
      requires GrewQuietly(start, logged) && ResolvedSoFar(mid, logged, ids, |ids|)
      requires nextId >= next + |mid.candidates| - |before.candidates|
      ensures ChunkProcessed(before, start, first, chunk, rows)
    {
      assert ids[..|ids|] == ids;
      rows := RowsResolvedToo(before, mid, db, first, next, chunk, ids, found);
      RowsAreNewMatched(before, start, logged, log, db, ids);
      ChunkInTurn(start, logged, log, ids, first, nextId);
    }

    /** Everything done for one chunk before promotion. */
    method ProcessChunk(chunk: Chunk) returns (stats: IngestStats, ghost rows: Rows)
      requires Valid()
      modifies this
      ensures ChunkProcessed(old(db), old(log), old(nextId), chunk, rows)
      ensures Counts(old(db), db, stats) && stats.mentions == |chunk.mentions| && stats.edges == 0
    {
      if chunk.mentions == [] {
        rows := NothingMade(chunk, db, nextId);
        return IngestStats(0, 0, 0, 0, 0), rows;
      }
      ghost var next, found;
      var ids, added;
      ids, added, next, found := AddRows(chunk);
      ghost var mid, logged := db, log;
      RowsPending(old(db), mid, old(nextId), next, chunk, ids, found);
      var created, queued := ResolveMentions(chunk, ids);
      stats := IngestStats(|chunk.mentions|, added, created, 0, queued);
      rows := ChunkDone(old(db), old(log), old(nextId), next, mid, logged, chunk, ids, found);
    }

    // -------------------------------------------------------------- one document

    /** What is left of the chunks of a document once they are done. */
    ghost predicate IngestedSoFar(before: Tables, start: seq<Event>, first: Id, chunks: seq<Chunk>, all: seq<Rows>)
      reads this
    {
      && Valid() && GrewWithoutMerge(start, log) && first <= nextId
      && EntitiesGrew(before.entities, db.entities) && RowsAppended(before, db)
      && DocumentRows(before, db, chunks, all)
      && NewMatched(before, start, db, log) && ResolvedInTurn(start, log, first, nextId)
    }

    method ProcessChunks(chunks: seq<Chunk>) returns (stats: IngestStats, ghost all: seq<Rows>)
      requires Valid()
      modifies this
      ensures IngestedSoFar(old(db), old(log), old(nextId), chunks, all)
      ensures Counts(old(db), db, stats) && stats.mentions == MentionCount(chunks) && stats.edges == 0
    {
      stats, all := IngestStats(0, 0, 0, 0, 0), [];
      StartIngesting(chunks);
      for i := 0 to |chunks|
        invariant IngestedSoFar(old(db), old(log), old(nextId), chunks[..i], all)
        invariant Counts(old(db), db, stats) && stats.mentions == MentionCount(chunks[..i]) && stats.edges == 0
      {
        CountOneMore(chunks, i);
        var one;
        one, all := ProcessNext(chunks, i, all, old(db), old(log), old(nextId));
        stats := IngestStats(stats.mentions + one.mentions, stats.candidates + one.candidates,
                             stats.entities + one.entities, 0, stats.reviews + one.reviews);
      }
      assert chunks[..|chunks|] == chunks;
    }

    lemma StartIngesting(chunks: seq<Chunk>)
      requires Valid()
      ensures IngestedSoFar(db, log, nextId, chunks[..0], [])
    {
      assert chunks[..0] == [];
    }

    /** One turn of the loop over the chunks. */
    method ProcessNext(chunks: seq<Chunk>, i: nat, ghost all: seq<Rows>, ghost before: Tables, ghost start: seq<Event>,
                       ghost first: Id)
      returns (one: IngestStats, ghost more: seq<Rows>)
      requires i < |chunks| && IngestedSoFar(before, start, first, chunks[..i], all)
      requires RowsBelow(before, first)
      modifies this
      ensures IngestedSoFar(before, start, first, chunks[..i + 1], more)
      ensures Counts(old(db), db, one) && one.mentions == |chunks[i].mentions|
    {
      ghost var mid, logged, next := db, log, nextId;
      ghost var rows;
      one, rows := ProcessChunk(chunks[i]);
      more := all + [rows];
      IngestOneMore(before, start, first, mid, logged, next, chunks, i, all, rows);
    }

    lemma NewMatchedOnward(before: Tables, start: seq<Event>, mid: Tables, logged: seq<Event>)
      requires NewMatched(before, start, mid, logged) && NewMatched(mid, logged, db, log)
      requires start <= logged <= log && RowsAppended(mid, db)
      ensures NewMatched(before, start, db, log)
    {
      forall m | m in db.mentions && m !in before.mentions
        ensures db.mentions[m].entity.Some? && Matched(start, log, m, db.mentions[m].entity.value)
      {
        if m in mid.mentions {
          MatchedOnward(start, start, logged, log, m, mid.mentions[m].entity.value);
        } else {
          MatchedOnward(start, logged, log, log, m, db.mentions[m].entity.value);
        }
      }
    }

    lemma IngestOneMore(before: Tables, start: seq<Event>, first: Id, mid: Tables, logged: seq<Event>, next: Id,
                        chunks: seq<Chunk>, i: nat, all: seq<Rows>, rows: Rows)
      requires i < |chunks| && DocumentRows(before, mid, chunks[..i], all)
      requires GrewWithoutMerge(start, logged) && first <= next && RowsBelow(before, first) && RowsBelow(mid, next)
      requires EntitiesGrew(before.entities, mid.entities) && RowsAppended(before, mid)
      requires NewMatched(before, start, mid, logged) && ResolvedInTurn(start, logged, first, next)
      requires ChunkProcessed(mid, logged, next, chunks[i], rows)
      ensures IngestedSoFar(before, start, first, chunks[..i + 1], all + [rows])
    {
      assert chunks[..i + 1] == chunks[..i] + [chunks[i]];
      DocumentOneMore(before, mid, db, chunks[..i], all, chunks[i], rows, next, nextId);
      NewMatchedOnward(before, start, mid, logged);
      InTurnOnward(start, logged, log, first, next, nextId);
    }

    /**
     Ingests one document: its chunks in turn, then the promotion of their candidates. The
     document's rows are those of its chunks in order, every new mention was resolved in
     its turn to what its best match at that time asked for.
     */
    method ProcessDocument(chunks: seq<Chunk>) returns (stats: IngestStats, ghost all: seq<Rows>)
      requires Valid()
      modifies this
      ensures Valid() && GrewWithoutMerge(old(log), log)
      ensures Counts(old(db), db, stats) && stats.mentions == MentionCount(chunks)
      ensures DocumentRows(old(db), db, chunks, all)
      ensures NewMatched(old(db), old(log), db, log) && ResolvedInTurn(old(log), log, old(nextId), nextId)
      ensures EntitiesGrew(old(db).entities, db.entities)
      ensures Extends(old(db), db)
      ensures forall m | m in db.mentions && m !in old(db).mentions :: db.mentions[m].resolved
      ensures forall c | c in db.candidates && db.candidates[c].chunk in (set k | k in chunks :: k.id) ::
                Settled(db, db.candidates[c])
    {
      stats, all := ProcessChunks(chunks);
      ghost var before, logged, next := db, log, nextId;
      var ids := set k | k in chunks :: k.id;
      var promoted := PromoteEdgeCandidates(ids);
      NonePromotable(before, db, ids);
      PromotionKeepsRows(old(db), before, db, chunks, all, ids);
      PromotionKeepsMatches(old(db), old(log), before, logged);
      QuietInTurn(old(log), logged, log, old(nextId), next, nextId);
      stats := stats.(edges := promoted);
    }

    lemma PromotionKeepsRows(start: Tables, before: Tables, now: Tables, chunks: seq<Chunk>, all: seq<Rows>,
                             ids: set<Id>)
      requires DocumentRows(start, before, chunks, all) && Promoted(before, now, ids, {})
      requires now.mentions == before.mentions
      ensures DocumentRows(start, now, chunks, all)
    {
      forall c | c in before.candidates
        ensures c in now.candidates && SameCandidate(before.candidates[c], now.candidates[c])
      {
        assert c in now.candidates.Keys;
      }
      DocumentStays(start, before, now, chunks, all);
    }

    lemma PromotionKeepsMatches(start: Tables, begun: seq<Event>, before: Tables, logged: seq<Event>)
      requires db.mentions == before.mentions && logged <= log && NewMatched(start, begun, before, logged)
      ensures NewMatched(start, begun, db, log)
    {
      forall m | m in db.mentions && m !in start.mentions
        ensures db.mentions[m].entity.Some? && Matched(begun, log, m, db.mentions[m].entity.value)
      {
        MatchedOnward(begun, begun, logged, log, m, before.mentions[m].entity.value);
      }
    }

    lemma QuietInTurn(begun: seq<Event>, logged: seq<Event>, log: seq<Event>, first: Id, next: Id, last: Id)
      requires ResolvedInTurn(begun, logged, first, next) && GrewQuietly(logged, log) && first <= next <= last
      ensures ResolvedInTurn(begun, log, first, last)
    {
      assert ResolvedInTurn(logged, log, next, last);
      InTurnOnward(begun, logged, log, first, next, last);
    }

    // -------------------------------------------------------------- splink_batch.py

    method MergeLive(keep: Id, drop: Id)
      requires Valid() && Enabled(db, EntitiesMerged(keep, drop))
      modifies this
      ensures Valid() && nextId == old(nextId) && log == old(log) + [EntitiesMerged(keep, drop)]
      ensures IsMerge(old(db), db, keep, drop)
    {
      ReplayOne(EMPTY, log, EntitiesMerged(keep, drop));
      MergeConserves(db, keep, drop);
      MergeRows(Some(keep), Some(drop));
      log := log + [EntitiesMerged(keep, drop)];
    }

    /** One turn of the pass. */
    method TakePair(p: Pair, members: set<Id>, dropped: set<Id>, stats: BatchStats,
                    ghost before: Tables, ghost actions: seq<Action>, ghost first: Id)
      returns (gone: set<Id>, r: BatchStats, ghost taken: seq<Action>)
      requires Valid() && p.a != p.b && dropped == Dropped(actions)
      requires Folded(before, db, actions, first) && nextId == first + |Asked(actions)|
      requires forall x | x in members :: x in before.entities
      requires forall x, y | x in members && y in members :: before.entities[x].kind == before.entities[y].kind
      modifies this
      ensures Valid() && old(log) <= log
      ensures taken == actions + Decision(p, members, dropped) && gone == Dropped(taken)
      ensures var both := p.a in members && p.b in members && p.a !in dropped && p.b !in dropped;
        if both && p.prob >= HIGH_CONFIDENCE_THRESHOLD
        then && p.a in old(db).entities && p.b in old(db).entities && IsMerge(old(db), db, p.a, p.b)
             && taken == actions + [Fold(p.a, p.b)] && gone == dropped + {p.b}
        else if both && p.prob >= REVIEW_THRESHOLD
        then && db == old(db).(reviews :=
                  old(db).reviews[old(nextId) := Review(Some(p.a), Some(p.b), p.prob, "pending", None)])
             && taken == actions + [Ask(p.a, p.b, p.prob)] && gone == dropped
        else db == old(db) && taken == actions && gone == dropped
      ensures Folded(before, db, taken, first) && nextId == first + |Asked(taken)|
      ensures r == stats.(merged := stats.merged + FoldCount(taken) - FoldCount(actions),
                          queued := stats.queued + |Asked(taken)| - |Asked(actions)|)
    {
      gone, r, taken := dropped, stats, actions;
      if p.a in dropped || p.b in dropped || p.a !in members || p.b !in members {
        assert actions + [] == actions;
        return;
      }
      if p.prob >= HIGH_CONFIDENCE_THRESHOLD {
        ghost var mid := db;
        MergeLive(p.a, p.b);
        FoldStep(before, mid, db, actions, first, p.a, p.b);
        taken := actions + [Fold(p.a, p.b)];
        gone := dropped + {p.b};
        r := stats.(merged := stats.merged + 1);
      } else if p.prob >= REVIEW_THRESHOLD {
        ghost var mid := db;
        var _ := QueueForReview(p.a, p.b, p.prob);
        AskStep(before, mid, db, actions, first, p.a, p.b, p.prob);
        taken := actions + [Ask(p.a, p.b, p.prob)];
        r := stats.(queued := stats.queued + 1);
      } else {
        assert actions + [] == actions;
      }
    }

    /** The state of the loop over the sorted pairs before its turn `i`. */
    ghost predicate Passing(pairs: seq<Pair>, i: nat, members: set<Id>, actions: seq<Action>, before: Tables, first: Id)
      requires i <= |pairs|
      reads this
    {
      && Valid() && actions == Pass(pairs[..i], members)
      && Folded(before, db, actions, first) && nextId == first + |Asked(actions)|
    }

    method TakeNext(pairs: seq<Pair>, i: nat, members: set<Id>, dropped: set<Id>, stats: BatchStats,
                    ghost before: Tables, ghost actions: seq<Action>, ghost first: Id, ghost start: BatchStats)
      returns (gone: set<Id>, r: BatchStats, ghost taken: seq<Action>)
      requires i < |pairs| && Distinct(pairs)
      requires Passing(pairs, i, members, actions, before, first) && dropped == Dropped(actions)
      requires Counted(actions, start, stats)
      requires forall x | x in members :: x in before.entities
      requires forall x, y | x in members && y in members :: before.entities[x].kind == before.entities[y].kind
      modifies this
      ensures old(log) <= log
      ensures Passing(pairs, i + 1, members, taken, before, first) && gone == Dropped(taken)
      ensures Counted(taken, start, r)
    {
      PassSnoc(pairs, i, members);
      gone, r, taken := TakePair(pairs[i], members, dropped, stats, before, actions, first);
    }

    /** The loop of a pass over the sorted pairs. */
    method TakePairs(pairs: seq<Pair>, members: set<Id>, stats: BatchStats)
      returns (r: BatchStats, ghost actions: seq<Action>)
      requires Valid() && Distinct(pairs)
      requires forall x | x in members :: x in db.entities
      requires forall x, y | x in members && y in members :: db.entities[x].kind == db.entities[y].kind
      modifies this
      ensures Valid() && old(log) <= log
      ensures actions == Pass(pairs, members) && Folded(old(db), db, actions, old(nextId))
      ensures nextId == old(nextId) + |Asked(actions)|
      ensures Counted(actions, stats, r)
    {
      r, actions := stats, [];
      StartFolded(db, nextId);
      var dropped: set<Id> := {};
      for i := 0 to |pairs|
        invariant old(log) <= log && dropped == Dropped(actions)
        invariant Passing(pairs, i, members, actions, old(db), old(nextId)) && Counted(actions, stats, r)
      {
        dropped, r, actions := TakeNext(pairs, i, members, dropped, r, old(db), actions, old(nextId), stats);
      }
      assert pairs[..|pairs|] == pairs;
    }

    /**
     One pass over the entities of a type. `predicted` is what Splink returns, none
     if it fails. The outcome is the old tables with every entity replaced by its
     home under the pass over the sorted pairs, plus the questions asked.
     */
    method ResolveType(kind: string, predicted: Option<seq<Pair>>, stats: BatchStats)
      returns (r: BatchStats, ghost actions: seq<Action>)
      requires Valid() && (predicted.Some? ==> Distinct(predicted.value))
      modifies this
      ensures Valid() && old(log) <= log
      ensures actions == TypeActions(old(db), kind, predicted)
      ensures if Resolved(old(db), kind, predicted)
              then r == stats.(scored := stats.scored + |predicted.value|,
                               merged := stats.merged + |Dropped(actions)|,
                               queued := stats.queued + |Asked(actions)|)
              else db == old(db) && r == stats
      ensures nextId == old(nextId) + |Asked(actions)|
      ensures Folded(old(db), db, actions, old(nextId)) && Dropped(actions) <= old(db).entities.Keys
    {
      r, actions := stats, [];
      TypePass(db, kind, predicted, nextId);
      var members := MembersOf(db, kind);
      if |members| < MIN_RECORDS_FOR_BATCH || predicted.None? {
        return;
      }
      var pairs := SortDesc(predicted.value, Prob);
      r, actions := TakePairs(pairs, members, stats.(scored := stats.scored + |predicted.value|));
    }

    /** One turn of the loop over types. */
    method BatchTurn(kind: string, predict: string -> Option<seq<Pair>>, stats: BatchStats,
                     ghost before: Tables, ghost kinds: seq<string>, ghost first: Id)
      returns (r: BatchStats)
      requires Valid() && (predict(kind).Some? ==> Distinct(predict(kind).value)) && kind !in kinds
      requires Batched(before, db, predict, kinds, first, nextId, stats)
      modifies this
      ensures Valid() && old(log) <= log && r.types == stats.types + 1
      ensures Batched(before, db, predict, kinds + [kind], first, nextId, r)
    {
      ghost var mid, next := db, nextId;
      var counted := stats.(types := stats.types + 1);
      ghost var actions;
      r, actions := ResolveType(kind, predict(kind), counted);
      BatchOneMore(before, mid, db, predict, kinds, kind, first, next, stats, r, actions);
    }

    /**
     The whole batch: one type if one is named, otherwise every type present, in
     any order. `predict` stands for Splink's answer for each type. The outcome is
     the old tables with every entity replaced by its home under the passes of all
     types, each of them the pass its type would have had alone.
     */
    method RunBatchResolution(entityType: string, predict: string -> Option<seq<Pair>>)
      returns (stats: BatchStats, ghost kinds: seq<string>)
      requires Valid() && AllDistinct(predict)
      modifies this
      ensures Valid() && old(log) <= log
      ensures NoRepeats(kinds) && stats.types == |kinds|
      ensures forall k :: k in kinds <==> if entityType != "" then k == entityType
                                          else exists x :: x in old(db).entities && old(db).entities[x].kind == k
      ensures BatchOutcome(old(db), db, predict, kinds)
      ensures Batched(old(db), db, predict, kinds, old(nextId), nextId, stats)
      ensures stats.merged == |old(db).entities| - |db.entities|
      ensures stats.queued == |db.reviews| - |old(db).reviews|
    {
      var all := if entityType != "" then {entityType} else Kinds(db);
      stats, kinds := ResolveAll(all, predict);
      assert forall k :: k in kinds <==> k in Listed(kinds);
      BatchComesTo(old(db), db, predict, kinds, old(nextId), nextId, stats);
      BatchedCounts(old(db), db, predict, kinds, old(nextId), nextId, stats);
    }

    /** The loop over types. */
    method ResolveAll(all: set<string>, predict: string -> Option<seq<Pair>>)
      returns (stats: BatchStats, ghost kinds: seq<string>)
      requires Valid() && AllDistinct(predict)
      modifies this
      ensures Valid() && old(log) <= log
      ensures Listed(kinds) == all && NoRepeats(kinds) && stats.types == |kinds|
      ensures Batched(old(db), db, predict, kinds, old(nextId), nextId, stats)
    {
      stats, kinds := BatchStats(0, 0, 0, 0), [];
      StartBatched(db, predict, nextId);
      var todo := all;
      while todo != {}
        invariant Valid() && old(log) <= log
        invariant stats.types == |kinds| && HasListed(kinds, all, todo)
        invariant Batched(old(db), db, predict, kinds, old(nextId), nextId, stats)
      {
        var kind :| kind in todo;
        ListOneMore(kinds, all, todo, kind);
        stats := BatchTurn(kind, predict, stats, old(db), kinds, old(nextId));
        kinds, todo := kinds + [kind], todo - {kind};
      }
    }
  }

  /** How much each table has grown. */
  ghost predicate Counts(before: Tables, after: Tables, stats: IngestStats) {
    && |after.mentions| == |before.mentions| + stats.mentions
    && |after.candidates| == |before.candidates| + stats.candidates
    && |after.entities| == |before.entities| + stats.entities
    && |after.edges| == |before.edges| + stats.edges
    && |after.reviews| == |before.reviews| + stats.reviews
  }
}
