/** A sentence whose voices give the two ends of an acquisition the other way round. */
module AcquiredWitness {
  import opened Prelude
  import opened Relations
  import opened Rewording
  import opened SentenceEnds
  import opened Voice
  import opened Voices

  const ANN := Mention("Ann", 0, 3, PERSON, 1.0)
  const ACME := Mention("Acme", 7, 11, ORGANIZATION, 1.0)
  const BETA := Mention("Beta", 21, 25, ORGANIZATION, 1.0)
  const NAMED := [ANN, ACME, BETA]
  const LOWERED := "ann of acme " + "acquired" + " beta"
  const ANN_OF_ACME := Sentence("Ann of Acme acquired Beta", LOWERED, 0, 25, [
    Token(0, "Ann", "nsubj", 3, [1], []),
    Token(4, "of", "prep", 0, [2], []),
    Token(7, "Acme", "pobj", 1, [], []),
    Token(12, "acquire", "ROOT", 3, [0, 4], []),
    Token(21, "Beta", "dobj", 3, [], [])])

  /** An offset outside every mention. */
  const BY := 30

  const BETA2 := Mention("Beta", 0, 4, ORGANIZATION, 1.0)
  const ANN2 := Mention("Ann", 21, 24, PERSON, 1.0)
  const ACME2 := Mention("Acme", 28, 32, ORGANIZATION, 1.0)
  const NAMED2 := [BETA2, ANN2, ACME2]
  const LOWERED2 := "beta was " + "acquired" + " by ann of acme"
  const BY_ANN_OF_ACME := Sentence("Beta was acquired by Ann of Acme", LOWERED2, 0, 32, [
    Token(21, "Ann", "pobj", 5, [1], []),
    Token(25, "of", "prep", 0, [2], []),
    Token(28, "Acme", "pobj", 1, [], []),
    Token(9, "acquire", "ROOT", 3, [4, 5], []),
    Token(0, "Beta", "nsubjpass", 3, [], []),
    Token(18, "by", "agent", 3, [0], [])])

  function Again(m: Mention): Mention {
    if m == ANN then ANN2 else if m == ACME then ACME2 else if m == BETA then BETA2 else m
  }

  /** The words, "by" included, with their offsets in either sentence. */
  const PLACES := [(0, 21), (4, 25), (7, 28), (12, 9), (21, 0), (BY, 18)]

  lemma MentionsAre(s: Sentence)
    requires s == ANN_OF_ACME
    ensures MentionsIn(NAMED, s) == NAMED
  {
    assert NAMED[1..] == [ACME, BETA] && [ACME, BETA][1..] == [BETA];
    assert MentionsIn([BETA], s) == [BETA] && MentionsIn([ACME, BETA], s) == [ACME, BETA];
  }

  lemma MentionsAre2(q: Sentence)
    requires q == BY_ANN_OF_ACME
    ensures MentionsIn(NAMED2, q) == NAMED2
  {
    assert NAMED2[1..] == [ANN2, ACME2] && [ANN2, ACME2][1..] == [ACME2];
    assert MentionsIn([ACME2], q) == [ACME2] && MentionsIn([ANN2, ACME2], q) == [ANN2, ACME2];
  }

  lemma MentionsAt(idx: int)
    ensures MentionAt(NAMED, idx) ==
      if 0 <= idx < 3 then Some(ANN)
      else if 7 <= idx < 11 then Some(ACME)
      else if 21 <= idx < 25 then Some(BETA) else None
  {
    assert NAMED[1..] == [ACME, BETA] && [ACME, BETA][1..] == [BETA];
    assert MentionAt([BETA], idx) == if 21 <= idx < 25 then Some(BETA) else None;
  }

  lemma MentionsAt2(idx: int)
    ensures MentionAt(NAMED2, idx) ==
      if 0 <= idx < 4 then Some(BETA2)
      else if 21 <= idx < 24 then Some(ANN2)
      else if 28 <= idx < 32 then Some(ACME2) else None
  {
    assert NAMED2[1..] == [ANN2, ACME2] && [ANN2, ACME2][1..] == [ACME2];
    assert MentionAt([ACME2], idx) == if 28 <= idx < 32 then Some(ACME2) else None;
  }

  lemma TriggersFire(s: Sentence, q: Sentence)
    requires s == ANN_OF_ACME && q == BY_ANN_OF_ACME
    ensures Fires(s, ACQUIRED) && Fires(q, ACQUIRED)
  {
    assert LOWERED[12..20] == "acquired" && LOWERED2[9..17] == "acquired";
    TriggerAt(LOWERED, ACQUIRED_TRIGGERS, 0, 12);
    TriggerAt(LOWERED2, ACQUIRED_TRIGGERS, 0, 9);
  }

  lemma ParseIsTree(s: Sentence)
    requires s == ANN_OF_ACME
    ensures WellFormed(s) && IsTree(s)
  {
    forall t | 0 <= t < |s.tokens| ensures HeadOf(s, t, s.tokens[t].children) {
      if t == 3 { assert s.tokens[t].children == [0, 4]; }
    }
  }

  lemma ClauseIsActive(s: Sentence)
    requires s == ANN_OF_ACME && WellFormed(s)
    ensures ActiveClause(s, NAMED, 3, BY)
  {
    MentionsAt(12);
    MentionsAt(BY);
    assert ActiveChild(s, 3, 0) && ActiveChild(s, 3, 4);
    assert s.tokens[3].children == [0, 4];
  }

  lemma NamesDiffer()
    ensures ANN != ACME && ANN != BETA && ACME != BETA && Faithful(Again, NAMED)
  {
    assert ANN.spanStart != ACME.spanStart && ANN.spanStart != BETA.spanStart && ACME.spanStart != BETA.spanStart;
  }

  lemma NamesAgain()
    ensures multiset(NAMED2) == multiset(Renamed(Again, NAMED))
  {
    NamesDiffer();
    assert Renamed(Again, NAMED) == [ANN2, ACME2, BETA2];
    assert multiset([ANN2, ACME2, BETA2]) == multiset{ANN2, ACME2, BETA2} == multiset(NAMED2);
  }

  lemma NamedAgain(t: nat)
    requires t < 6
    ensures MentionAt(NAMED2, PLACES[t].1) == RenamedOption(Again, MentionAt(NAMED, PLACES[t].0))
  {
    MentionsAt(PLACES[t].0);
    MentionsAt2(PLACES[t].1);
    NamesDiffer();
  }

  lemma TokensAgain(s: Sentence, q: Sentence, t: nat)
    requires s == ANN_OF_ACME && q == BY_ANN_OF_ACME && WellFormed(s) && t < 6
    ensures var p := Passive(s, 3, BY);
      q.tokens[t] == p.tokens[t].(idx := q.tokens[t].idx) && (p.tokens[t].idx, q.tokens[t].idx) == PLACES[t]
  {
    VerbInPassive(s, 3, BY, 0, 4);
    if t < 5 && t != 3 { assert Passive(s, 3, BY).tokens[t] == PassiveToken(s.tokens[t], 3, 5); }
  }

  lemma IsItsPassive(s: Sentence, q: Sentence)
    requires s == ANN_OF_ACME && q == BY_ANN_OF_ACME
    ensures PassiveOf(s, NAMED, 3, BY, q, NAMED2, Again)
  {
    ParseIsTree(s);
    ClauseIsActive(s);
    NamesDiffer();
    NamesAgain();
    PassiveWellFormed(s, 3, BY);
    forall t | 0 <= t < 6 ensures SameToken(Passive(s, 3, BY), NAMED, q, NAMED2, Again, t) {
      TokensAgain(s, q, t);
      NamedAgain(t);
    }
  }

  lemma OnlyAnn(s: Sentence, m: Mention)
    requires s == ANN_OF_ACME && WellFormed(s) && IsArg(s, NAMED, 3, {"nsubj"}, m)
    ensures m == ANN
  {
    var cs := s.tokens[3].children;
    var k :| 0 <= k < |cs| && s.tokens[cs[k]].dep in {"nsubj"} && Brings(s, NAMED, cs[k], m);
    assert cs[0] == 0 && cs[1] == 4;
    assert "nsubj"[0] != "dobj"[0];
    MentionsAt(0);
    assert [0] + s.tokens[0].conjuncts == [0];
  }

  /** The subject is a person, so nothing is bought by a company. */
  lemma NobodyBuys(s: Sentence, target: Mention, buyer: Mention)
    requires s == ANN_OF_ACME && WellFormed(s)
    ensures (target, buyer) !in AcquiredPairs(s, NAMED, 3)
  {
    AcquiredPairsIff(s, NAMED, 3, target, buyer);
    ClauseIsActive(s);
    NoneInOtherVoice(s, NAMED, 3, BY);
    ArgsIff(s, NAMED, 3, {"nsubjpass"}, target);
    if IsArg(s, NAMED, 3, {"nsubj"}, buyer) {
      OnlyAnn(s, buyer);
      assert PERSON[0] != ORGANIZATION[0];
    }
  }

  lemma NoOtherVerb(s: Sentence, t: nat)
    requires s == ANN_OF_ACME && t < |s.tokens| && t != 3
    ensures s.tokens[t].base !in ACQUIRED_LEMMAS
  {
    var base := s.tokens[t].base;
    assert |base| <= 4 && base[0] != "buy"[0] && |"acquire"| == 7;
  }

  lemma NothingFound(s: Sentence)
    requires s == ANN_OF_ACME && WellFormed(s)
    ensures Found(s, NAMED, ACQUIRED) == {}
  {
    forall t | 0 <= t < |s.tokens| ensures VerbPairs(s, NAMED, t, ACQUIRED) == {} {
      if t == 3 {
        if x :| x in AcquiredPairs(s, NAMED, 3) { NobodyBuys(s, x.0, x.1); }
      } else {
        NoOtherVerb(s, t);
      }
    }
  }

  lemma TwoOrganizations()
    ensures OfType(NAMED, ORGANIZATION) == [ACME, BETA] && OfType(NAMED2, ORGANIZATION) == [BETA2, ACME2]
  {
    assert PERSON[0] != ORGANIZATION[0];
    assert NAMED[1..] == [ACME, BETA] && [ACME, BETA][1..] == [BETA] && [BETA][1..] == [];
    assert NAMED2[1..] == [ANN2, ACME2] && [ANN2, ACME2][1..] == [ACME2] && [ACME2][1..] == [];
    assert OfType([BETA], ORGANIZATION) == [BETA] && OfType([ACME2], ORGANIZATION) == [ACME2];
  }

  lemma TextOrders()
    ensures Fallback(NAMED, ACQUIRED) == {(ACME, BETA)} && Fallback(NAMED2, ACQUIRED) == {(BETA2, ACME2)}
  {
    TwoOrganizations();
  }

  /** With nothing found, either sentence gives its two organizations in the order of the text. */
  lemma InOrderOfText(s: Sentence, q: Sentence)
    requires s == ANN_OF_ACME && q == BY_ANN_OF_ACME
    ensures WellFormed(s) && WellFormed(q)
    ensures Ends(SentenceRelations(s, NAMED), ACQUIRED) == {(ACME, BETA)}
    ensures Ends(SentenceRelations(q, NAMED2), ACQUIRED) == {(BETA2, ACME2)}
  {
    MentionsAre(s);
    MentionsAre2(q);
    IsItsPassive(s, q);
    TriggersFire(s, q);
    NothingFound(s);
    NothingBought(s, NAMED, 3, BY, q, NAMED2, Again);
    TextOrders();
  }

  /** It gives (Acme, Beta); "Beta was acquired by Ann of Acme" gives (Beta, Acme). */
  lemma SomeAcquisitionTurns()
    ensures PassiveOf(ANN_OF_ACME, MentionsIn(NAMED, ANN_OF_ACME), 3, BY,
                      BY_ANN_OF_ACME, MentionsIn(NAMED2, BY_ANN_OF_ACME), Again)
    ensures WellFormed(ANN_OF_ACME) && WellFormed(BY_ANN_OF_ACME)
    ensures Ends(SentenceRelations(ANN_OF_ACME, NAMED), ACQUIRED) == {(ACME, BETA)}
    ensures Ends(SentenceRelations(BY_ANN_OF_ACME, NAMED2), ACQUIRED) == {(BETA2, ACME2)}
    ensures !Agree(ANN_OF_ACME, NAMED, BY_ANN_OF_ACME, NAMED2, Again, ACQUIRED)
  {
    var s, q := ANN_OF_ACME, BY_ANN_OF_ACME;
    MentionsAre(s);
    MentionsAre2(q);
    IsItsPassive(s, q);
    InOrderOfText(s, q);
    ImageOfOne(Again, ACME, BETA);
    assert ACME2.spanStart != BETA2.spanStart;
    assert (BETA2, ACME2) in {(BETA2, ACME2)};
  }
}
