/** A run of ingestion and review after which a merge has cost the tables their mirror and their simple edges. */
module MergeWitness {
  import opened EntityTables
  import opened Prelude

  const ORG := "Organization"
  const LABS := "Acme Labs"
  const LAND := "Acme Land"
  const CHUNK: Id := 100

  /**
   One document, "Acme Labs acquired Acme Land. Acme Land acquired Acme Labs.", is
   processed: the second name is similar enough to the first to be asked about, and
   the answer is to merge.
   */
  const RUN: seq<Event> := [
    MentionAdded(0, CHUNK, LABS, ORG, 1.0),
    MentionAdded(1, CHUNK, LAND, ORG, 1.0),
    MentionAdded(2, CHUNK, LAND, ORG, 1.0),
    MentionAdded(3, CHUNK, LABS, ORG, 1.0),
    CandidateAdded(4, 1, 0, "ACQUIRED", CHUNK, 0.8),
    CandidateAdded(5, 3, 2, "ACQUIRED", CHUNK, 0.8),
    EntityCreated(6, ORG, LABS, 1.0),
    MentionResolved(0, 6),
    EntityCreated(7, ORG, LAND, 1.0),
    ReviewQueued(8, 7, 6, 0.82),
    MentionResolved(1, 7),
    MentionResolved(2, 7),
    MentionResolved(3, 6),
    CandidatePromoted(4, 9),
    CandidatePromoted(5, 10),
    ReviewDecided(8, "merged", None)]

  /** The state after the first `n` events, none of which merges. */
  ghost predicate Reaches(n: nat, db: Tables) {
    n <= |RUN| && Legal(EMPTY, RUN[..n]) && MergesIn(RUN[..n]) == [] && Replay(EMPTY, RUN[..n]) == db
  }

  lemma OneMoreEvent(n: nat, ev: Event)
    requires n < |RUN| && RUN[n] == ev
    ensures RUN[..n] + [ev] == RUN[..n + 1]
  {
  }

  lemma Goes(n: nat, db: Tables, ev: Event)
    requires n < |RUN| && RUN[n] == ev && Reaches(n, db) && Enabled(db, ev) && !Merges(ev)
    ensures Reaches(n + 1, Apply(db, ev))
  {
    GoesFrom(RUN[..n], db, ev, Apply(db, ev));
    OneMoreEvent(n, ev);
  }

  lemma GoesFrom(log: seq<Event>, db: Tables, ev: Event, after: Tables)
    requires Legal(EMPTY, log) && Replay(EMPTY, log) == db && MergesIn(log) == []
    requires Enabled(db, ev) && !Merges(ev) && after == Apply(db, ev)
    ensures Legal(EMPTY, log + [ev]) && Replay(EMPTY, log + [ev]) == after && MergesIn(log + [ev]) == []
  {
    ReplayOne(EMPTY, log, ev);
  }

  /** A mention of the document, resolved or not. */
  function Named(text: string, entity: Option<Id>): Mention {
    Mention(CHUNK, text, ORG, 1.0, entity, entity.Some?)
  }

  const FORTH := Candidate(1, 0, "ACQUIRED", CHUNK, 0.8, false)
  const BACK := Candidate(3, 2, "ACQUIRED", CHUNK, 0.8, false)

  /** The document's mentions, and the entities they are resolved to so far. */
  ghost predicate MentionsAre(db: Tables, a: Option<Id>, b: Option<Id>, c: Option<Id>, d: Option<Id>) {
    && 0 in db.mentions && db.mentions[0] == Named(LABS, a)
    && 1 in db.mentions && db.mentions[1] == Named(LAND, b)
    && 2 in db.mentions && db.mentions[2] == Named(LAND, c)
    && 3 in db.mentions && db.mentions[3] == Named(LABS, d)
  }

  ghost predicate CandidatesAre(db: Tables) {
    4 in db.candidates && db.candidates[4] == FORTH && 5 in db.candidates && db.candidates[5] == BACK
  }

  lemma FourMentions() returns (db: Tables)
    ensures Reaches(4, db) && MentionsAre(db, None, None, None, None)
    ensures db.entities == map[] && db.edges == map[] && db.reviews == map[] && db.candidates == map[]
  {
    db := EMPTY;
    assert RUN[..0] == [];
    Goes(0, db, MentionAdded(0, CHUNK, LABS, ORG, 1.0));
    db := Apply(db, MentionAdded(0, CHUNK, LABS, ORG, 1.0));
    Goes(1, db, MentionAdded(1, CHUNK, LAND, ORG, 1.0));
    db := Apply(db, MentionAdded(1, CHUNK, LAND, ORG, 1.0));
    Goes(2, db, MentionAdded(2, CHUNK, LAND, ORG, 1.0));
    db := Apply(db, MentionAdded(2, CHUNK, LAND, ORG, 1.0));
    Goes(3, db, MentionAdded(3, CHUNK, LABS, ORG, 1.0));
    db := Apply(db, MentionAdded(3, CHUNK, LABS, ORG, 1.0));
  }

  lemma TwoCandidates() returns (db: Tables)
    ensures Reaches(6, db) && MentionsAre(db, None, None, None, None) && CandidatesAre(db)
    ensures db.entities == map[] && db.edges == map[] && db.reviews == map[]
  {
    db := FourMentions();
    Goes(4, db, CandidateAdded(4, 1, 0, "ACQUIRED", CHUNK, 0.8));
    db := Apply(db, CandidateAdded(4, 1, 0, "ACQUIRED", CHUNK, 0.8));
    Goes(5, db, CandidateAdded(5, 3, 2, "ACQUIRED", CHUNK, 0.8));
    db := Apply(db, CandidateAdded(5, 3, 2, "ACQUIRED", CHUNK, 0.8));
  }

  lemma FirstEntity() returns (db: Tables)
    ensures Reaches(7, db) && MentionsAre(db, None, None, None, None) && CandidatesAre(db)
    ensures db.entities == map[6 := Entity(ORG, LABS, {}, 1.0)] && db.edges == map[] && db.reviews == map[]
  {
    db := TwoCandidates();
    Goes(6, db, EntityCreated(6, ORG, LABS, 1.0));
    db := Apply(db, EntityCreated(6, ORG, LABS, 1.0));
  }

  lemma FirstResolved() returns (db: Tables)
    ensures Reaches(8, db) && MentionsAre(db, Some(6), None, None, None) && CandidatesAre(db)
    ensures db.entities == map[6 := Entity(ORG, LABS, {}, 1.0)] && db.edges == map[] && db.reviews == map[]
  {
    db := FirstEntity();
    Goes(7, db, MentionResolved(0, 6));
    db := Apply(db, MentionResolved(0, 6));
  }

  /** Both entities are there. */
  ghost predicate BothThere(db: Tables) {
    && 6 in db.entities && db.entities[6] == Entity(ORG, LABS, {}, 1.0)
    && 7 in db.entities && db.entities[7] == Entity(ORG, LAND, {}, 1.0)
  }

  ghost predicate NoneBesides(db: Tables) {
    forall x | x in db.entities :: x == 6 || x == 7
  }

  lemma SecondEntity() returns (db: Tables)
    ensures Reaches(9, db) && MentionsAre(db, Some(6), None, None, None) && CandidatesAre(db)
    ensures BothThere(db) && NoneBesides(db) && db.edges == map[] && db.reviews == map[]
  {
    db := FirstResolved();
    Goes(8, db, EntityCreated(7, ORG, LAND, 1.0));
    db := Apply(db, EntityCreated(7, ORG, LAND, 1.0));
  }

  /** The question about the two is open. */
  ghost predicate Asked(db: Tables) {
    BothThere(db) && 8 in db.reviews && db.reviews[8] == Review(Some(7), Some(6), 0.82, "pending", None)
  }

  lemma QuestionAsked() returns (db: Tables)
    ensures Reaches(10, db) && MentionsAre(db, Some(6), None, None, None) && CandidatesAre(db)
    ensures Asked(db) && NoneBesides(db) && db.edges == map[]
  {
    db := SecondEntity();
    Goes(9, db, ReviewQueued(8, 7, 6, 0.82));
    db := Apply(db, ReviewQueued(8, 7, 6, 0.82));
  }

  /** What resolving mention `m` to `x` does. */
  lemma Resolves(n: nat, db: Tables, m: Id, x: Id) returns (after: Tables)
    requires n < |RUN| && RUN[n] == MentionResolved(m, x) && Reaches(n, db) && Enabled(db, MentionResolved(m, x))
    ensures Reaches(n + 1, after)
    ensures after == db.(mentions := db.mentions[m := db.mentions[m].(entity := Some(x), resolved := true)])
  {
    Goes(n, db, MentionResolved(m, x));
    after := Apply(db, MentionResolved(m, x));
  }

  lemma ThreeResolved() returns (db: Tables)
    ensures Reaches(12, db) && MentionsAre(db, Some(6), Some(7), Some(7), None) && CandidatesAre(db)
    ensures Asked(db) && NoneBesides(db) && db.edges == map[]
  {
    db := QuestionAsked();
    db := Resolves(10, db, 1, 7);
    db := Resolves(11, db, 2, 7);
  }

  lemma AllResolved() returns (db: Tables)
    ensures Reaches(13, db) && MentionsAre(db, Some(6), Some(7), Some(7), Some(6)) && CandidatesAre(db)
    ensures Asked(db) && db.edges == map[]
  {
    db := ThreeResolved();
    db := Resolves(12, db, 3, 6);
  }

  lemma OneEdge() returns (db: Tables)
    ensures Reaches(14, db) && Asked(db) && db.edges == map[9 := Edge(7, 6, "ACQUIRED", [CHUNK], 0.8)]
    ensures 5 in db.candidates && db.candidates[5] == BACK && Ends(db, BACK) == Some((6, 7))
  {
    db := AllResolved();
    assert Ends(db, FORTH) == Some((7, 6)) && Ends(db, BACK) == Some((6, 7));
    Goes(13, db, CandidatePromoted(4, 9));
    db := Apply(db, CandidatePromoted(4, 9));
  }

  lemma TwoEdges() returns (db: Tables)
    ensures Reaches(15, db) && Asked(db)
    ensures 9 in db.edges && db.edges[9] == Edge(7, 6, "ACQUIRED", [CHUNK], 0.8)
    ensures 10 in db.edges && db.edges[10] == Edge(6, 7, "ACQUIRED", [CHUNK], 0.8)
  {
    db := OneEdge();
    Goes(14, db, CandidatePromoted(5, 10));
    db := Apply(db, CandidatePromoted(5, 10));
  }

  /** Merging entities with an edge either way. */
  lemma MergeBreaksAll(db: Tables, keep: Id, drop: Id, e: Id, f: Id)
    requires MirrorAgrees(db) && NoSelfLoops(db) && keep in db.entities && drop in db.entities && keep != drop
    requires e in db.edges && db.edges[e].from == keep && db.edges[e].to == drop
    requires f in db.edges && db.edges[f].from == drop && db.edges[f].to == keep && db.edges[f].kind == db.edges[e].kind
    ensures var after := MergeEntities(db, Some(keep), Some(drop));
      !MirrorAgrees(after) && !NoSelfLoops(after) && !UniqueTriples(after)
  {
    MergeKeepsMirrorIff(db, Some(keep), Some(drop));
    MergeMakesSelfLoopIff(db, keep, drop);
    assert {db.edges[e].from, db.edges[e].to} == {keep, drop};
    MergeKeepsUniqueIff(db, keep, drop);
    assert e != f && Collide(db.edges[e], db.edges[f], drop, keep);
  }

  /** Neo4j disagrees with the tables, an edge is a self-loop, and a triple has two edges. */
  ghost predicate LosesAll(db: Tables) {
    !MirrorAgrees(db) && !NoSelfLoops(db) && !UniqueTriples(db)
  }

  lemma SameMirror(db: Tables, marked: Tables)
    requires marked == db.(reviews := marked.reviews)
    ensures MirrorAgrees(marked) <==> MirrorAgrees(db)
    ensures EdgesSimple(marked) <==> EdgesSimple(db)
  {
  }

  /** The answer to merge the two. */
  lemma MergeDecided(db: Tables)
    requires Asked(db) && MirrorAgrees(db) && EdgesSimple(db)
    requires 9 in db.edges && db.edges[9] == Edge(7, 6, "ACQUIRED", [CHUNK], 0.8)
    requires 10 in db.edges && db.edges[10] == Edge(6, 7, "ACQUIRED", [CHUNK], 0.8)
    ensures Enabled(db, ReviewDecided(8, "merged", None))
    ensures LosesAll(Apply(db, ReviewDecided(8, "merged", None)))
  {
    var marked := db.(reviews := db.reviews[8 := db.reviews[8].(status := "merged", decidedBy := None)]);
    SameMirror(db, marked);
    MergeBreaksAll(marked, 7, 6, 9, 10);
    assert Apply(db, ReviewDecided(8, "merged", None)) == MergeEntities(marked, Some(7), Some(6));
  }

  lemma LastStep(before: seq<Event>, db: Tables, ev: Event)
    requires before + [ev] == RUN && Legal(EMPTY, before) && Replay(EMPTY, before) == db && Enabled(db, ev)
    ensures Legal(EMPTY, RUN) && Replay(EMPTY, RUN) == Apply(db, ev)
  {
    ReplayOne(EMPTY, before, ev);
  }

  lemma KeptBefore(before: seq<Event>, db: Tables)
    requires before == RUN[..15] && Reaches(15, db)
    ensures Legal(EMPTY, before) && Replay(EMPTY, before) == db && MirrorAgrees(db) && EdgesSimple(db)
  {
    MergeFreeRunMirrors(EMPTY, before);
  }

  /** The run is legal, keeps all of this up to the decision, and loses it by the merge. */
  lemma SomeRunLosesAll()
    ensures Legal(EMPTY, RUN) && LosesAll(Replay(EMPTY, RUN))
    ensures Legal(EMPTY, RUN[..15]) && MirrorAgrees(Replay(EMPTY, RUN[..15])) && EdgesSimple(Replay(EMPTY, RUN[..15]))
  {
    var db := TwoEdges();
    var before := RUN[..15];
    assert before + [ReviewDecided(8, "merged", None)] == RUN;
    KeptBefore(before, db);
    MergeDecided(db);
    LastStep(before, db, ReviewDecided(8, "merged", None));
  }
}
