/** The methods of a session write the run that loses the mirror. */
module SessionWitness {
  import opened EntityResolution
  import opened EntityTables
  import opened Ingestion
  import opened MergeWitness
  import opened Prelude

  /** The two names resemble each other enough to be asked about. */
  function Similarity(a: string, b: string): real {
    if a == b then 1.0 else 0.82
  }

  ghost predicate Rates(s: Session) {
    s.scorePair == Similarity && s.blockKey == ((kind, text) => kind)
  }

  /** The session has written the first `n` events of the run. */
  ghost predicate Wrote(s: Session, n: nat, next: Id)
    reads s
  {
    s.Valid() && n <= |RUN| && s.log == RUN[..n] && s.nextId == next
  }

  method WriteMention(s: Session, n: nat, text: string)
    requires n < 4 && Wrote(s, n, n) && RUN[n] == MentionAdded(n, CHUNK, text, ORG, 1.0)
    modifies s
    ensures Wrote(s, n + 1, n + 1)
  {
    OneMoreEvent(n, RUN[n]);
    var _ := s.AddMention(CHUNK, Ner(text, Span(0, 0), ORG, 1.0));
  }

  method WriteMentions(s: Session)
    requires Wrote(s, 0, 0)
    modifies s
    ensures Wrote(s, 4, 4)
  {
    WriteMention(s, 0, LABS);
    WriteMention(s, 1, LAND);
    WriteMention(s, 2, LAND);
    WriteMention(s, 3, LABS);
  }

  method WriteCandidate(s: Session, n: nat, c: Candidate)
    requires n < |RUN| && Wrote(s, n, n) && CandidateInOneChunk(s.db, c) && !c.promoted
    requires RUN[n] == CandidateAdded(n, c.from, c.to, c.kind, c.chunk, c.confidence)
    modifies s
    ensures Wrote(s, n + 1, n + 1)
    ensures s.db == old(s.db).(candidates := s.db.candidates)
  {
    OneMoreEvent(n, RUN[n]);
    var _ := s.AddCandidate(c);
  }

  method WriteCandidates(s: Session)
    requires Wrote(s, 4, 4)
    modifies s
    ensures Wrote(s, 6, 6)
  {
    ghost var db := FourMentions();
    WriteCandidate(s, 4, FORTH);
    WriteCandidate(s, 5, BACK);
  }

  function Reported(text: string): Ner {
    Ner(text, Span(0, 0), ORG, 1.0)
  }

  // ---------------------------------------------------------------- best matches

  lemma NothingToMatch(s: Session, m: Ner, best: Option<Id>)
    requires Rates(s) && s.db.entities == map[] && s.IsBestMatch(s.db, m.text, m.kind, best)
    ensures best == None
  {
  }

  /** A name that no entity has is matched with the only one there is. */
  lemma OnlyOneToMatch(s: Session, m: Ner, best: Option<Id>, x: Id, name: string)
    requires Rates(s) && s.db.entities == map[x := Entity(ORG, name, {}, 1.0)] && m.kind == ORG && m.text != name
    requires s.IsBestMatch(s.db, m.text, m.kind, best)
    ensures best == Some(x) && s.Score(s.db, m.text, x) == 0.82
  {
    assert s.Eligible(s.db, m.text, m.kind, x);
  }

  /** A name that one of the two has is matched with it. */
  lemma SameNameMatched(s: Session, m: Ner, best: Option<Id>, x: Id)
    requires Rates(s) && BothThere(s.db) && NoneBesides(s.db)
    requires m.kind == ORG && x in s.db.entities && s.db.entities[x].name == m.text
    requires s.IsBestMatch(s.db, m.text, m.kind, best)
    ensures best == Some(x) && s.Score(s.db, m.text, x) == 1.0
  {
    assert s.Eligible(s.db, m.text, m.kind, x);
    assert LABS[5..] == "Labs" && LAND[5..] == "Land" && LABS[7] != LAND[7];
  }

  // ---------------------------------------------------------------- resolution

  /** What resolving a mention writes: `steps`, the events from `n` on. */
  method WriteEntity(s: Session, n: nat, m: Ner, next: Id, ghost best: Option<Id>, ghost steps: seq<Event>)
    returns (x: Id)
    requires n + |steps| <= |RUN| && Wrote(s, n, next) && Rates(s) && RUN[n..n + |steps|] == steps
    requires forall b | s.IsBestMatch(s.db, m.text, m.kind, b) :: b == best && s.ResolveSteps(s.db, m, b, next) == steps
    requires if steps == [] then best.Some? else steps[0].EntityCreated?
    modifies s
    ensures Wrote(s, n + |steps|, next + |steps|)
    ensures x == if steps == [] then best.value else next
  {
    var isNew, asked;
    ghost var found;
    x, isNew, asked, found := s.ResolveMention(m);
    assert RUN[..n] + steps == RUN[..n + |steps|];
  }

  method WriteResolved(s: Session, n: nat, row: Id, x: Id, next: Id)
    requires n < |RUN| && Wrote(s, n, next) && RUN[n] == MentionResolved(row, x) && Enabled(s.db, RUN[n])
    modifies s
    ensures Wrote(s, n + 1, next)
  {
    OneMoreEvent(n, RUN[n]);
    s.AttachMention(row, x);
  }

  /** The first mention resembles nothing and becomes an entity. */
  method ResolveFirst(s: Session)
    requires Wrote(s, 6, 6) && Rates(s)
    modifies s
    ensures Wrote(s, 8, 7)
  {
    ghost var db := TwoCandidates();
    ghost var steps := [EntityCreated(6, ORG, LABS, 1.0)];
    forall b | s.IsBestMatch(s.db, LABS, ORG, b)
      ensures b == None && s.ResolveSteps(s.db, Reported(LABS), b, 6) == steps
    {
      NothingToMatch(s, Reported(LABS), b);
    }
    assert RUN[6..7] == steps;
    var x := WriteEntity(s, 6, Reported(LABS), 6, None, steps);
    db := FirstEntity();
    WriteResolved(s, 7, 0, x, 7);
  }

  /** The second becomes an entity and is asked about. */
  method ResolveSecond(s: Session)
    requires Wrote(s, 8, 7) && Rates(s)
    modifies s
    ensures Wrote(s, 11, 9)
  {
    ghost var db := FirstResolved();
    ghost var steps := [EntityCreated(7, ORG, LAND, 1.0), ReviewQueued(8, 7, 6, 0.82)];
    forall b | s.IsBestMatch(s.db, LAND, ORG, b)
      ensures b == Some(6) && s.ResolveSteps(s.db, Reported(LAND), b, 7) == steps
    {
      assert LABS[7] != LAND[7];
      OnlyOneToMatch(s, Reported(LAND), b, 6, LABS);
    }
    assert RUN[8] == steps[0] && RUN[9] == steps[1];
    assert RUN[8..10] == steps;
    var x := WriteEntity(s, 8, Reported(LAND), 7, Some(6), steps);
    db := QuestionAsked();
    WriteResolved(s, 10, 1, x, 9);
  }

  /** A name an entity has is resolved to it, and nothing else is written. */
  method ResolveKnown(s: Session, n: nat, row: Id, text: string, ghost known: Id)
    requires n < |RUN| && Wrote(s, n, 9) && Rates(s) && BothThere(s.db) && NoneBesides(s.db)
    requires known in s.db.entities && s.db.entities[known].name == text
    requires RUN[n] == MentionResolved(row, known) && Enabled(s.db, RUN[n])
    modifies s
    ensures Wrote(s, n + 1, 9)
  {
    forall b | s.IsBestMatch(s.db, text, ORG, b)
      ensures b == Some(known) && s.ResolveSteps(s.db, Reported(text), b, 9) == []
    {
      SameNameMatched(s, Reported(text), b, known);
    }
    var x := WriteEntity(s, n, Reported(text), 9, Some(known), []);
    WriteResolved(s, n, row, x, 9);
  }

  method ResolveThird(s: Session)
    requires Wrote(s, 11, 9) && Rates(s)
    modifies s
    ensures Wrote(s, 12, 9)
  {
    ghost var db := QuestionAsked();
    db := Resolves(10, db, 1, 7);
    ResolveKnown(s, 11, 2, LAND, 7);
  }

  method ResolveFourth(s: Session)
    requires Wrote(s, 12, 9) && Rates(s)
    modifies s
    ensures Wrote(s, 13, 9)
  {
    ghost var db := ThreeResolved();
    ResolveKnown(s, 12, 3, LABS, 6);
  }

  // ---------------------------------------------------------------- promotion and the answer

  method WriteEdge(s: Session, n: nat, c: Id, next: Id)
    requires n < |RUN| && Wrote(s, n, next) && RUN[n] == CandidatePromoted(c, next)
    requires c in s.db.candidates && Promotable(s.db, s.db.candidates[c])
    requires forall e | e in s.db.edges ::
               !Joins(s.db.edges[e], Ends(s.db, s.db.candidates[c]).value, s.db.candidates[c].kind)
    modifies s
    ensures Wrote(s, n + 1, next + 1)
  {
    OneMoreEvent(n, RUN[n]);
    var isNew := s.PromoteCandidate(c);
  }

  method WriteEdges(s: Session)
    requires Wrote(s, 13, 9)
    modifies s
    ensures Wrote(s, 15, 11)
  {
    ghost var db := AllResolved();
    assert Ends(db, FORTH) == Some((7, 6));
    WriteEdge(s, 13, 4, 9);
    db := OneEdge();
    WriteEdge(s, 14, 5, 10);
  }

  /**
   Ingesting the document by the calls that processing a document makes, in their
   order, and answering the question writes exactly the run.
   */
  method WriteRun() returns (s: Session)
    ensures fresh(s) && s.Valid() && s.log == RUN && LosesAll(s.db)
  {
    s := new Session(Similarity, (kind, text) => kind, text => text);
    WriteMentions(s);
    WriteCandidates(s);
    ResolveFirst(s);
    ResolveSecond(s);
    ResolveThird(s);
    ResolveFourth(s);
    WriteEdges(s);
    Answer(s);
    RunLoses(s);
  }

  method Answer(s: Session)
    requires Wrote(s, 15, 11)
    modifies s
    ensures s.Valid() && s.log == RUN
  {
    ghost var db := TwoEdges();
    OneMoreEvent(15, RUN[15]);
    var r := s.Decide(8, "merged", None);
    assert RUN[..16] == RUN;
  }

  lemma RunLoses(s: Session)
    requires s.Valid() && s.log == RUN
    ensures LosesAll(s.db)
  {
    SomeRunLosesAll();
  }
}
