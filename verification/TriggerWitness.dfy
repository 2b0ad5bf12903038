/** A sentence whose passive form alone has a trigger. */
module TriggerWitness {
  import opened Prelude
  import opened Relations
  import opened Rewording
  import opened SentenceEnds
  import opened Voice
  import opened Voices

  const ACME := Mention("Acme", 0, 4, ORGANIZATION, 1.0)
  const BETA := Mention("Beta", 14, 18, ORGANIZATION, 1.0)
  const NAMED := [ACME, BETA]
  const LOWERED := "acme acquires beta"
  const ACME_ACQUIRES := Sentence("Acme acquires Beta", LOWERED, 0, 18, [
    Token(0, "Acme", "nsubj", 1, [], []),
    Token(5, "acquire", "ROOT", 1, [0, 2], []),
    Token(14, "Beta", "dobj", 1, [], [])])

  /** An offset outside every mention. */
  const BY := 30

  const BETA2 := Mention("Beta", 0, 4, ORGANIZATION, 1.0)
  const ACME2 := Mention("Acme", 21, 25, ORGANIZATION, 1.0)
  const NAMED2 := [BETA2, ACME2]
  const LOWERED2 := "beta was " + "acquired" + " by acme"
  const BY_ACME := Sentence("Beta was acquired by Acme", LOWERED2, 0, 25, [
    Token(21, "Acme", "pobj", 3, [], []),
    Token(9, "acquire", "ROOT", 1, [2, 3], []),
    Token(0, "Beta", "nsubjpass", 1, [], []),
    Token(18, "by", "agent", 1, [0], [])])

  function Again(m: Mention): Mention {
    if m == ACME then ACME2 else if m == BETA then BETA2 else m
  }

  /** The words, "by" included, with their offsets in either sentence. */
  const PLACES := [(0, 21), (5, 9), (14, 0), (BY, 18)]

  lemma MentionsAre(s: Sentence)
    requires s == ACME_ACQUIRES
    ensures MentionsIn(NAMED, s) == NAMED
  {
    assert NAMED[1..] == [BETA];
    assert MentionsIn([BETA], s) == [BETA];
  }

  lemma MentionsAre2(q: Sentence)
    requires q == BY_ACME
    ensures MentionsIn(NAMED2, q) == NAMED2
  {
    assert NAMED2[1..] == [ACME2];
    assert MentionsIn([ACME2], q) == [ACME2];
  }

  lemma MentionsAt(idx: int)
    ensures MentionAt(NAMED, idx) ==
            if 0 <= idx < 4 then Some(ACME) else if 14 <= idx < 18 then Some(BETA) else None
  {
    assert NAMED[1..] == [BETA];
    assert MentionAt([BETA], idx) == if 14 <= idx < 18 then Some(BETA) else None;
  }

  lemma MentionsAt2(idx: int)
    ensures MentionAt(NAMED2, idx) ==
            if 0 <= idx < 4 then Some(BETA2) else if 21 <= idx < 25 then Some(ACME2) else None
  {
    assert NAMED2[1..] == [ACME2];
    assert MentionAt([ACME2], idx) == if 21 <= idx < 25 then Some(ACME2) else None;
  }

  lemma {:induction false} NoTriggerWithout(lowered: string, triggers: seq<string>, c: char)
    requires c !in lowered && forall k | 0 <= k < |triggers| :: c in triggers[k]
    ensures !AnyTrigger(lowered, triggers)
  {
    if triggers != [] {
      forall k | 0 <= k < |triggers[1..]| ensures c in triggers[1..][k] { assert c in triggers[k + 1]; }
      NoTriggerWithout(lowered, triggers[1..], c);
    }
  }

  lemma OnlyOneFires(s: Sentence, q: Sentence)
    requires s == ACME_ACQUIRES && q == BY_ACME
    ensures !Fires(s, ACQUIRED) && Fires(q, ACQUIRED)
  {
    assert LOWERED2[9..17] == "acquired";
    TriggerAt(LOWERED2, ACQUIRED_TRIGGERS, 0, 9);
    NoTrigger();
  }

  lemma NoTrigger()
    ensures !AnyTrigger(LOWERED, ACQUIRED_TRIGGERS)
  {
    assert ACQUIRED_TRIGGERS[1..] == ["acquisition of", "bought"];
    assert "acquired"[7] == 'd' && "acquisition of"[12] == 'o' && "bought"[1] == 'o';
    assert 'd' !in LOWERED && 'o' !in LOWERED;
    NoTriggerWithout(LOWERED, ["acquisition of", "bought"], 'o');
  }

  lemma ParseIsTree(s: Sentence)
    requires s == ACME_ACQUIRES
    ensures WellFormed(s) && IsTree(s)
  {
    forall t | 0 <= t < |s.tokens| ensures HeadOf(s, t, s.tokens[t].children) {
      if t == 1 { assert s.tokens[t].children == [0, 2]; }
    }
  }

  lemma ClauseIsActive(s: Sentence)
    requires s == ACME_ACQUIRES && WellFormed(s)
    ensures ActiveClause(s, NAMED, 1, BY)
  {
    MentionsAt(5);
    MentionsAt(BY);
    assert ActiveChild(s, 1, 0) && ActiveChild(s, 1, 2);
    assert s.tokens[1].children == [0, 2];
  }

  lemma NamesAgain()
    ensures ACME != BETA && Faithful(Again, NAMED) && multiset(NAMED2) == multiset(Renamed(Again, NAMED))
  {
    assert ACME.spanStart != BETA.spanStart;
    assert Renamed(Again, NAMED) == [ACME2, BETA2];
    assert multiset([ACME2, BETA2]) == multiset{ACME2, BETA2} == multiset(NAMED2);
  }

  lemma NamedAgain(t: nat)
    requires t < 4
    ensures MentionAt(NAMED2, PLACES[t].1) == RenamedOption(Again, MentionAt(NAMED, PLACES[t].0))
  {
    MentionsAt(PLACES[t].0);
    MentionsAt2(PLACES[t].1);
    assert ACME.spanStart != BETA.spanStart;
  }

  lemma TokensAgain(s: Sentence, q: Sentence, t: nat)
    requires s == ACME_ACQUIRES && q == BY_ACME && WellFormed(s) && t < 4
    ensures var p := Passive(s, 1, BY);
      q.tokens[t] == p.tokens[t].(idx := q.tokens[t].idx) && (p.tokens[t].idx, q.tokens[t].idx) == PLACES[t]
  {
    VerbInPassive(s, 1, BY, 0, 2);
    if t < 3 && t != 1 { assert Passive(s, 1, BY).tokens[t] == PassiveToken(s.tokens[t], 1, 3); }
  }

  lemma IsItsPassive(s: Sentence, q: Sentence)
    requires s == ACME_ACQUIRES && q == BY_ACME
    ensures PassiveOf(s, NAMED, 1, BY, q, NAMED2, Again)
  {
    ParseIsTree(s);
    ClauseIsActive(s);
    NamesAgain();
    PassiveWellFormed(s, 1, BY);
    forall t | 0 <= t < 4 ensures SameToken(Passive(s, 1, BY), NAMED, q, NAMED2, Again, t) {
      TokensAgain(s, q, t);
      NamedAgain(t);
    }
  }

  lemma TwoOrganizations()
    ensures |OfType(NAMED, ORGANIZATION)| == 2
  {
    assert NAMED[1..] == [BETA] && [BETA][1..] == [];
    assert OfType([BETA], ORGANIZATION) == [BETA];
  }

  /** It gives no acquisition; "Beta was acquired by Acme" gives one. */
  lemma SomeTriggerMissing()
    ensures PassiveOf(ACME_ACQUIRES, MentionsIn(NAMED, ACME_ACQUIRES), 1, BY,
                      BY_ACME, MentionsIn(NAMED2, BY_ACME), Again)
    ensures WellFormed(ACME_ACQUIRES) && WellFormed(BY_ACME)
    ensures Ends(SentenceRelations(ACME_ACQUIRES, NAMED), ACQUIRED) == {}
    ensures Ends(SentenceRelations(BY_ACME, NAMED2), ACQUIRED) != {}
  {
    var s, q := ACME_ACQUIRES, BY_ACME;
    MentionsAre(s);
    MentionsAre2(q);
    IsItsPassive(s, q);
    OnlyOneFires(s, q);
    TwoOrganizations();
    AcquiredVoicesAgreeIff(s, NAMED, 1, BY, q, NAMED2, Again);
    GivenInTheEnd(s, NAMED, NAMED, ACQUIRED);
    ImageEmptyIff(Again, {});
  }
}
