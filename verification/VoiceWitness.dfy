/** Sentences whose voices differ. */
module VoiceWitness {
  import opened Prelude
  import opened Relations
  import opened Rewording
  import opened SentenceEnds
  import opened Voice
  import opened Voices

  // ---------------------------------------------------------------- "Ann and Bob cofounded Acme"

  const ANN := Mention("Ann", 0, 3, PERSON, 1.0)
  const BOB := Mention("Bob", 8, 11, PERSON, 1.0)
  const ACME := Mention("Acme", 22, 26, ORGANIZATION, 1.0)
  const NAMED := [ANN, BOB, ACME]
  const LOWERED := "ann and bob " + "cofounded" + " acme"
  const ANN_AND_BOB := Sentence("Ann and Bob cofounded Acme", LOWERED, 0, 26, [
    Token(0, "Ann", "nsubj", 3, [1, 2], [2]),
    Token(4, "and", "cc", 0, [], []),
    Token(8, "Bob", "conj", 0, [], [0]),
    Token(12, "cofound", "ROOT", 3, [0, 4], []),
    Token(22, "Acme", "dobj", 3, [], [])])

  /** An offset outside every mention. */
  const BY := 30

  const ANN2 := Mention("Ann", 22, 25, PERSON, 1.0)
  const BOB2 := Mention("Bob", 30, 33, PERSON, 1.0)
  const ACME2 := Mention("Acme", 0, 4, ORGANIZATION, 1.0)
  const NAMED2 := [ACME2, ANN2, BOB2]
  const LOWERED2 := "acme was " + "cofounded" + " by ann and bob"
  const BY_ANN_AND_BOB := Sentence("Acme was cofounded by Ann and Bob", LOWERED2, 0, 33, [
    Token(22, "Ann", "pobj", 5, [1, 2], [2]),
    Token(26, "and", "cc", 0, [], []),
    Token(30, "Bob", "conj", 0, [], [0]),
    Token(9, "cofound", "ROOT", 3, [4, 5], []),
    Token(0, "Acme", "nsubjpass", 3, [], []),
    Token(19, "by", "agent", 3, [0], [])])

  function Again(m: Mention): Mention {
    if m == ANN then ANN2 else if m == BOB then BOB2 else if m == ACME then ACME2 else m
  }

  lemma MentionsAre2(q: Sentence)
    requires q == BY_ANN_AND_BOB
    ensures MentionsIn(NAMED2, q) == NAMED2
  {
    assert NAMED2[1..] == [ANN2, BOB2] && [ANN2, BOB2][1..] == [BOB2];
    assert MentionsIn([BOB2], q) == [BOB2] && MentionsIn([ANN2, BOB2], q) == [ANN2, BOB2];
  }

  lemma MentionsAt2(idx: int)
    ensures MentionAt(NAMED2, idx) ==
      if 0 <= idx < 4 then Some(ACME2)
      else if 22 <= idx < 25 then Some(ANN2)
      else if 30 <= idx < 33 then Some(BOB2) else None
  {
    assert NAMED2[1..] == [ANN2, BOB2] && [ANN2, BOB2][1..] == [BOB2];
    assert MentionAt([BOB2], idx) == if 30 <= idx < 33 then Some(BOB2) else None;
  }

  lemma MentionsAre(s: Sentence)
    requires s == ANN_AND_BOB
    ensures MentionsIn(NAMED, s) == NAMED
  {
    assert NAMED[1..] == [BOB, ACME] && [BOB, ACME][1..] == [ACME];
    assert MentionsIn([ACME], s) == [ACME] && MentionsIn([BOB, ACME], s) == [BOB, ACME];
  }

  lemma MentionsAt(idx: int)
    ensures MentionAt(NAMED, idx) ==
      if 0 <= idx < 3 then Some(ANN)
      else if 8 <= idx < 11 then Some(BOB)
      else if 22 <= idx < 26 then Some(ACME) else None
  {
    assert NAMED[1..] == [BOB, ACME] && [BOB, ACME][1..] == [ACME];
    assert MentionAt([ACME], idx) == if 22 <= idx < 26 then Some(ACME) else None;
  }

  lemma TriggersFire(s: Sentence)
    requires s == ANN_AND_BOB
    ensures Fires(s, FOUNDED) && Fires(s, CO_FOUNDED_WITH)
  {
    assert LOWERED[12..21] == "cofounded";
    TriggerAt(LOWERED, FOUNDED_TRIGGERS, 2, 12);
    TriggerAt(LOWERED, COFOUNDER_TRIGGERS, 3, 12);
  }

  lemma ParseIsTree(s: Sentence)
    requires s == ANN_AND_BOB
    ensures WellFormed(s) && IsTree(s)
  {
    forall t | 0 <= t < |s.tokens| ensures HeadOf(s, t, s.tokens[t].children) {
      if t == 0 { assert s.tokens[t].children == [1, 2]; }
      if t == 3 { assert s.tokens[t].children == [0, 4]; }
    }
  }

  lemma VerbIsAlone(s: Sentence)
    requires s == ANN_AND_BOB
    ensures OnlyFoundingVerb(s, 3) && s.tokens[3].base in FOUNDED_LEMMAS
  {
    forall t | 0 <= t < |s.tokens| && t != 3 ensures s.tokens[t].base !in FOUNDED_LEMMAS {
      assert |s.tokens[t].base| <= 4;
      assert |"found"| == 5 && |"establish"| == 9 && |"cofound"| == 7 && |"cofounde"| == 8;
    }
  }

  lemma ClauseIsActive(s: Sentence)
    requires s == ANN_AND_BOB && WellFormed(s)
    ensures ActiveClause(s, NAMED, 3, BY)
  {
    MentionsAt(12);
    MentionsAt(BY);
    assert ActiveChild(s, 3, 0) && ActiveChild(s, 3, 4);
    assert s.tokens[3].children == [0, 4];
  }

  lemma NamesDiffer()
    ensures ANN != BOB && ANN != ACME && BOB != ACME && Faithful(Again, NAMED)
  {
    assert ANN.spanStart != BOB.spanStart && ANN.spanStart != ACME.spanStart && BOB.spanStart != ACME.spanStart;
  }

  lemma NamesAgain()
    ensures multiset(NAMED2) == multiset(Renamed(Again, NAMED))
  {
    NamesDiffer();
    assert Renamed(Again, NAMED) == [ANN2, BOB2, ACME2];
    assert multiset([ANN2, BOB2, ACME2]) == multiset{ANN2, BOB2, ACME2} == multiset(NAMED2);
  }

  /** The words, "by" included, with their offsets in either sentence. */
  const PLACES := [(0, 22), (4, 26), (8, 30), (12, 9), (22, 0), (BY, 19)]

  lemma NamedAgain(t: nat)
    requires t < 6
    ensures MentionAt(NAMED2, PLACES[t].1) == RenamedOption(Again, MentionAt(NAMED, PLACES[t].0))
  {
    MentionsAt(PLACES[t].0);
    MentionsAt2(PLACES[t].1);
    NamesDiffer();
  }

  lemma TokensAgain(s: Sentence, q: Sentence, t: nat)
    requires s == ANN_AND_BOB && q == BY_ANN_AND_BOB && WellFormed(s) && t < 6
    ensures var p := Passive(s, 3, BY);
      q.tokens[t] == p.tokens[t].(idx := q.tokens[t].idx) && (p.tokens[t].idx, q.tokens[t].idx) == PLACES[t]
  {
    VerbInPassive(s, 3, BY, 0, 4);
    if t < 5 && t != 3 { assert Passive(s, 3, BY).tokens[t] == PassiveToken(s.tokens[t], 3, 5); }
  }

  lemma IsItsPassive(s: Sentence, q: Sentence)
    requires s == ANN_AND_BOB && q == BY_ANN_AND_BOB
    ensures PassiveOf(s, NAMED, 3, BY, q, NAMED2, Again)
  {
    ParseIsTree(s);
    ClauseIsActive(s);
    NamesDiffer();
    NamesAgain();
    PassiveWellFormed(s, 3, BY);
    forall t | 0 <= t < 6 ensures SameToken(Passive(s, 3, BY), NAMED, q, NAMED2, Again, t) {
      TokensAgain(s, q, t);
      NamedAgain(t);
    }
  }

  /** Who hangs where in the active clause. */
  lemma WhoIsWhere(s: Sentence)
    requires s == ANN_AND_BOB && WellFormed(s)
    ensures IsArg(s, NAMED, 3, {"nsubj", "nsubjpass"}, ANN) && IsArg(s, NAMED, 3, {"nsubj", "nsubjpass"}, BOB)
    ensures IsArg(s, NAMED, 3, {"dobj", "attr", "oprd"}, ACME)
    ensures IsArg(s, NAMED, 3, {"dobj"}, ACME)
  {
    MentionsAt(0);
    MentionsAt(8);
    MentionsAt(22);
    var cs := s.tokens[3].children;
    assert cs[0] == 0 && cs[1] == 4;
    assert ([0] + s.tokens[0].conjuncts)[0] == 0 && MentionOf(s, NAMED, 0) == Some(ANN);
    assert ([0] + s.tokens[0].conjuncts)[1] == 2 && MentionOf(s, NAMED, 2) == Some(BOB);
    assert ([4] + s.tokens[4].conjuncts)[0] == 4 && MentionOf(s, NAMED, 4) == Some(ACME);
  }

  lemma OnlyAcme(s: Sentence, m: Mention)
    requires s == ANN_AND_BOB && WellFormed(s) && IsArg(s, NAMED, 3, {"dobj"}, m)
    ensures m == ACME
  {
    var cs := s.tokens[3].children;
    var k :| 0 <= k < |cs| && s.tokens[cs[k]].dep in {"dobj"} && Brings(s, NAMED, cs[k], m);
    assert cs[0] == 0 && cs[1] == 4;
    assert "nsubj"[0] != "dobj"[0];
    MentionsAt(22);
    assert [4] + s.tokens[4].conjuncts == [4];
  }

  lemma TwoInTwo(ms: seq<Mention>, a: Mention, b: Mention)
    requires a in ms && b in ms && a != b
    ensures |ms| > 1
  {
  }

  lemma TwoFounders(s: Sentence)
    requires s == ANN_AND_BOB && WellFormed(s)
    ensures var people := People(s, NAMED, 3); ANN in people && BOB in people && |people| > 1
  {
    WhoIsWhere(s);
    ArgsIff(s, NAMED, 3, {"nsubj", "nsubjpass"}, ANN);
    ArgsIff(s, NAMED, 3, {"nsubj", "nsubjpass"}, BOB);
    OfTypeMembers(Founders(s, NAMED, 3), PERSON, ANN);
    OfTypeMembers(Founders(s, NAMED, 3), PERSON, BOB);
    assert ANN.text[0] != BOB.text[0];
    TwoInTwo(People(s, NAMED, 3), ANN, BOB);
  }

  lemma OneCompany(s: Sentence)
    requires s == ANN_AND_BOB && WellFormed(s)
    ensures ACME in Companies(s, NAMED, 3)
    ensures Args(s, NAMED, 3, {"attr", "oprd"}) == []
  {
    WhoIsWhere(s);
    ArgsIff(s, NAMED, 3, {"dobj", "attr", "oprd"}, ACME);
    OfTypeMembers(Args(s, NAMED, 3, {"dobj", "attr", "oprd"}), ORGANIZATION, ACME);
    NoComplement(s, s.tokens[3].children);
  }

  lemma NoComplement(s: Sentence, cs: seq<nat>)
    requires s == ANN_AND_BOB && WellFormed(s) && cs == [0, 4]
    ensures Attached(s, NAMED, cs, {"attr", "oprd"}) == []
  {
    assert s.tokens[0].dep == "nsubj" && |"nsubj"| == 5;
    NoneAttached(s, NAMED, cs, {"attr", "oprd"});
  }

  lemma {:induction false} NoneOfType(ms: seq<Mention>, nerType: string)
    requires forall m | m in ms :: m.nerType != nerType
    ensures OfType(ms, nerType) == []
  {
    if ms != [] { NoneOfType(ms[1..], nerType); }
  }

  lemma NobodyInPassive(s: Sentence)
    requires s == ANN_AND_BOB && WellFormed(s)
    ensures OtherPeople(s, NAMED, 3) == []
  {
    WhoIsWhere(s);
    var objects := Args(s, NAMED, 3, {"dobj"});
    ArgsIff(s, NAMED, 3, {"dobj"}, ACME);
    assert objects != [];
    forall m | m in objects ensures m.nerType != PERSON {
      ArgsIff(s, NAMED, 3, {"dobj"}, m);
      OnlyAcme(s, m);
      assert PERSON[0] != ORGANIZATION[0];
    }
    NoneOfType(objects, PERSON);
  }

  lemma TwoPeople()
    ensures !OneOfEach(NAMED)
  {
    assert NAMED[0] == ANN && NAMED[1] == BOB && ANN.text[0] != BOB.text[0];
    OfTypeMembers(NAMED, PERSON, ANN);
    OfTypeMembers(NAMED, PERSON, BOB);
    TwoInTwo(OfType(NAMED, PERSON), ANN, BOB);
  }

  /** It says who founded Acme and with whom; "Acme was cofounded by Ann and Bob" gives neither. */
  lemma SomeVoicesDiffer()
    ensures PassiveOf(ANN_AND_BOB, MentionsIn(NAMED, ANN_AND_BOB), 3, BY,
                      BY_ANN_AND_BOB, MentionsIn(NAMED2, BY_ANN_AND_BOB), Again)
    ensures WellFormed(ANN_AND_BOB) && WellFormed(BY_ANN_AND_BOB)
    ensures var rs := SentenceRelations(ANN_AND_BOB, NAMED);
      (ANN, ACME) in Ends(rs, FOUNDED) && (BOB, ACME) in Ends(rs, FOUNDED) && Ends(rs, CO_FOUNDED_WITH) != {}
    ensures var rs := SentenceRelations(BY_ANN_AND_BOB, NAMED2);
      Ends(rs, FOUNDED) == {} && Ends(rs, CO_FOUNDED_WITH) == {}
  {
    var s, q := ANN_AND_BOB, BY_ANN_AND_BOB;
    MentionsAre(s);
    MentionsAre2(q);
    IsItsPassive(s, q);
    VerbIsAlone(s);
    TwoPeople();
    NobodyInPassive(s);
    FoundersLost(s, NAMED, 3, BY, q, NAMED2, Again);
    ActiveGives(s);
  }

  lemma ActiveGives(s: Sentence)
    requires s == ANN_AND_BOB && WellFormed(s) && MentionsIn(NAMED, s) == NAMED
    ensures var rs := SentenceRelations(s, NAMED);
      (ANN, ACME) in Ends(rs, FOUNDED) && (BOB, ACME) in Ends(rs, FOUNDED) && Ends(rs, CO_FOUNDED_WITH) != {}
  {
    VerbIsAlone(s);
    TriggersFire(s);
    TwoFounders(s);
    OneCompany(s);
    SoleVerb(s, NAMED, 3);
    GivenInTheEnd(s, NAMED, NAMED, FOUNDED);
    GivenInTheEnd(s, NAMED, NAMED, CO_FOUNDED_WITH);
    NoCoupleIff(People(s, NAMED, 3));
    assert (ANN, ACME) in Cross(People(s, NAMED, 3), Companies(s, NAMED, 3));
    assert (BOB, ACME) in Cross(People(s, NAMED, 3), Companies(s, NAMED, 3));
  }
}
