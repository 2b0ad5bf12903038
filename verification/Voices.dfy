/** What the active and the passive form of a sentence give in the end, and when that is the same. */
module Voices {
  import opened Prelude
  import opened Relations
  import opened Rewording
  import opened SentenceEnds
  import opened Voice

  /**
   `q` is the passive form, in its own words, of the sentence `s` with an active verb
   `v`; `f` says under which mention of `q` a mention of `s` comes back. Auxiliaries,
   which bring no mention, are left out of `q`.
   */
  ghost predicate PassiveOf(s: Sentence, here: seq<Mention>, v: nat, byIdx: int, q: Sentence, there: seq<Mention>,
                            f: Mention -> Mention) {
    ActiveClause(s, here, v, byIdx) && IsTree(s) && Reworded(Passive(s, v, byIdx), here, q, there, f)
  }

  /** Both sentences give the same relations of a kind in the end. */
  ghost predicate Agree(s: Sentence, ms: seq<Mention>, q: Sentence, qs: seq<Mention>, f: Mention -> Mention, kind: Kind)
    requires WellFormed(s) && WellFormed(q)
  {
    Ends(SentenceRelations(q, qs), kind) == Image(f, Ends(SentenceRelations(s, ms), kind))
  }

  lemma BothVoices(s: Sentence, ms: seq<Mention>, here: seq<Mention>, v: nat, byIdx: int, q: Sentence,
                   qs: seq<Mention>, there: seq<Mention>, f: Mention -> Mention, kind: Kind)
    requires here == MentionsIn(ms, s) && there == MentionsIn(qs, q) && kind != SUBSIDIARY_OF
    requires PassiveOf(s, here, v, byIdx, q, there, f)
    ensures WellFormed(q)
    ensures Ends(SentenceRelations(s, ms), kind) == Given(Fires(s, kind), Found(s, here, kind), Fallback(here, kind))
    ensures Ends(SentenceRelations(q, qs), kind) ==
            Given(Fires(q, kind), Image(f, FoundInPassive(s, here, v, kind)), Fallback(there, kind))
  {
    PassiveStandsFor(s, here, v, byIdx, kind);
    FoundReworded(Passive(s, v, byIdx), here, q, there, f, kind);
    GivenInTheEnd(s, ms, here, kind);
    GivenInTheEnd(q, qs, there, kind);
  }

  lemma ImageEmptyIff(f: Mention -> Mention, a: set<(Mention, Mention)>)
    ensures Image(f, a) == {} <==> a == {}
  {
    if x :| x in a { assert (f(x.0), f(x.1)) in Image(f, a); }
  }

  // ---------------------------------------------------------------- acquisitions

  lemma ImageOfOne(f: Mention -> Mention, a: Mention, b: Mention)
    ensures Image(f, {(a, b)}) == {(f(a), f(b))}
  {
    assert (a, b) in {(a, b)};
  }

  /** The fallbacks for two organizations agree exactly when the two stand in the same order. */
  lemma SameOrderIff(here: seq<Mention>, there: seq<Mention>, f: Mention -> Mention)
    requires |OfType(there, ORGANIZATION)| == |OfType(here, ORGANIZATION)|
    ensures Fallback(there, ACQUIRED) == Image(f, Fallback(here, ACQUIRED)) <==>
            |OfType(here, ORGANIZATION)| != 2 || OfType(there, ORGANIZATION) == Renamed(f, OfType(here, ORGANIZATION))
  {
    var orgs, others := OfType(here, ORGANIZATION), OfType(there, ORGANIZATION);
    if |orgs| == 2 {
      ImageOfOne(f, orgs[0], orgs[1]);
      assert (others[0], others[1]) in Fallback(there, ACQUIRED);
    } else {
      ImageEmptyIff(f, {});
    }
  }

  /**
   Acquisition verbs stand for the same in both voices, but where no verb stands for
   anything the fallback goes by the order of the text, which the passive turns round:
   then both voices agree only if there are not exactly two organizations or they stand
   in the same order. If only one voice has a trigger, it must have nothing to give.
   */
  lemma AcquiredVoicesAgreeIff(s: Sentence, ms: seq<Mention>, v: nat, byIdx: int, q: Sentence, qs: seq<Mention>,
                               f: Mention -> Mention)
    requires PassiveOf(s, MentionsIn(ms, s), v, byIdx, q, MentionsIn(qs, q), f)
    ensures WellFormed(q)
    ensures var orgs, others := OfType(MentionsIn(ms, s), ORGANIZATION), OfType(MentionsIn(qs, q), ORGANIZATION);
      var found := Found(s, MentionsIn(ms, s), ACQUIRED);
      Agree(s, ms, q, qs, f, ACQUIRED) <==>
        if Fires(s, ACQUIRED) && Fires(q, ACQUIRED) then found != {} || |orgs| != 2 || others == Renamed(f, orgs)
        else Fires(s, ACQUIRED) || Fires(q, ACQUIRED) ==> found == {} && |orgs| != 2
  {
    var here, there := MentionsIn(ms, s), MentionsIn(qs, q);
    var found := Found(s, here, ACQUIRED);
    BothVoices(s, ms, here, v, byIdx, q, qs, there, f, ACQUIRED);
    AcquiredStandsForTheSame(s, here, v);
    TypesReworded(Passive(s, v, byIdx), here, q, there, f, ORGANIZATION);
    SameOrderIff(here, there, f);
    ImageEmptyIff(f, found);
    ImageEmptyIff(f, {});
    ImageEmptyIff(f, Fallback(here, ACQUIRED));
    FallbackEmptyIff(here);
    FallbackEmptyIff(there);
  }

  lemma FallbackEmptyIff(ms: seq<Mention>)
    ensures Fallback(ms, ACQUIRED) == {} <==> |OfType(ms, ORGANIZATION)| != 2
  {
    var orgs := OfType(ms, ORGANIZATION);
    if |orgs| == 2 { assert (orgs[0], orgs[1]) in Fallback(ms, ACQUIRED); }
  }

  /** With nothing found, either sentence gives its own two organizations in the order of its own text. */
  lemma NothingBought(s: Sentence, ms: seq<Mention>, v: nat, byIdx: int, q: Sentence, qs: seq<Mention>,
                      f: Mention -> Mention)
    requires PassiveOf(s, MentionsIn(ms, s), v, byIdx, q, MentionsIn(qs, q), f)
    requires Fires(s, ACQUIRED) && Fires(q, ACQUIRED) && Found(s, MentionsIn(ms, s), ACQUIRED) == {}
    ensures WellFormed(q)
    ensures Ends(SentenceRelations(s, ms), ACQUIRED) == Fallback(MentionsIn(ms, s), ACQUIRED)
    ensures Ends(SentenceRelations(q, qs), ACQUIRED) == Fallback(MentionsIn(qs, q), ACQUIRED)
  {
    var here, there := MentionsIn(ms, s), MentionsIn(qs, q);
    BothVoices(s, ms, here, v, byIdx, q, qs, there, f, ACQUIRED);
    AcquiredStandsForTheSame(s, here, v);
    ImageEmptyIff(f, {});
  }

  // ---------------------------------------------------------------- founders

  /** Pairs of a person and an organization among the mentions. */
  ghost predicate Founding(ms: seq<Mention>, pairs: set<(Mention, Mention)>) {
    forall x | x in pairs :: x.0 in ms && x.1 in ms && x.0.nerType == PERSON && x.1.nerType == ORGANIZATION
  }

  ghost predicate Within(ms: seq<Mention>, pairs: set<(Mention, Mention)>) {
    forall x | x in pairs :: x.0 in ms && x.1 in ms
  }

  lemma FoundersFound(s: Sentence, ms: seq<Mention>, v: nat)
    requires WellFormed(s) && v < |s.tokens|
    ensures Founding(ms, Found(s, ms, FOUNDED)) && Founding(ms, FoundInPassive(s, ms, v, FOUNDED))
  {
    forall t | 0 <= t < |s.tokens|
      ensures Founding(ms, VerbPairs(s, ms, t, FOUNDED)) && Founding(ms, PassivePairs(s, ms, v, t, FOUNDED))
    {
    }
  }

  lemma CouplesFound(s: Sentence, ms: seq<Mention>, v: nat)
    requires WellFormed(s) && v < |s.tokens|
    ensures Within(ms, Found(s, ms, CO_FOUNDED_WITH)) && Within(ms, FoundInPassive(s, ms, v, CO_FOUNDED_WITH))
  {
    forall t | 0 <= t < |s.tokens|
      ensures Within(ms, VerbPairs(s, ms, t, CO_FOUNDED_WITH)) && Within(ms, PassivePairs(s, ms, v, t, CO_FOUNDED_WITH))
    {
    }
  }

  lemma {:induction false} OfTypeMembers(ms: seq<Mention>, nerType: string, m: Mention)
    ensures m in OfType(ms, nerType) <==> m in ms && m.nerType == nerType
  {
    if ms != [] {
      OfTypeMembers(ms[1..], nerType, m);
      assert ms == [ms[0]] + ms[1..];
    }
  }

  lemma OnlyPair(ms: seq<Mention>, x: (Mention, Mention))
    requires OneOfEach(ms) && x.0 in ms && x.1 in ms && x.0.nerType == PERSON && x.1.nerType == ORGANIZATION
    ensures x == (OfType(ms, PERSON)[0], OfType(ms, ORGANIZATION)[0])
  {
    OfTypeMembers(ms, PERSON, x.0);
    OfTypeMembers(ms, ORGANIZATION, x.1);
  }

  /** With one person and one organization the one founded the other, whatever the verbs stand for. */
  lemma OneFounder(ms: seq<Mention>, found: set<(Mention, Mention)>)
    requires OneOfEach(ms) && Founding(ms, found)
    ensures Given(true, found, Fallback(ms, FOUNDED)) == {(OfType(ms, PERSON)[0], OfType(ms, ORGANIZATION)[0])}
  {
    forall x | x in found ensures x == (OfType(ms, PERSON)[0], OfType(ms, ORGANIZATION)[0]) { OnlyPair(ms, x); }
    if x :| x in found { assert found == {x}; }
  }

  /** With one person and one organization the sentence says that the one founded the other, whatever its parse. */
  lemma OneOfEachFounded(s: Sentence, ms: seq<Mention>, here: seq<Mention>)
    requires WellFormed(s) && here == MentionsIn(ms, s) && Fires(s, FOUNDED) && OneOfEach(here)
    ensures Ends(SentenceRelations(s, ms), FOUNDED) == {(OfType(here, PERSON)[0], OfType(here, ORGANIZATION)[0])}
  {
    GivenInTheEnd(s, ms, here, FOUNDED);
    if here != [] && s.tokens != [] { FoundersFound(s, here, 0); }
    OneFounder(here, Found(s, here, FOUNDED));
  }

  lemma OnlyOne(xs: seq<Mention>, ys: seq<Mention>)
    requires multiset(xs) == multiset(ys) && |ys| == 1
    ensures xs == ys
  {
    assert |multiset(xs)| == |xs| && ys == [ys[0]];
    assert xs[0] in multiset(xs);
  }

  lemma OneOfEachReworded(p: Sentence, here: seq<Mention>, q: Sentence, there: seq<Mention>, f: Mention -> Mention)
    requires Reworded(p, here, q, there, f)
    ensures OneOfEach(there) <==> OneOfEach(here)
    ensures OneOfEach(here) ==> OfType(there, PERSON)[0] == f(OfType(here, PERSON)[0])
    ensures OneOfEach(here) ==> OfType(there, ORGANIZATION)[0] == f(OfType(here, ORGANIZATION)[0])
  {
    TypesReworded(p, here, q, there, f, PERSON);
    TypesReworded(p, here, q, there, f, ORGANIZATION);
    if OneOfEach(here) {
      OnlyOne(OfType(there, PERSON), Renamed(f, OfType(here, PERSON)));
      OnlyOne(OfType(there, ORGANIZATION), Renamed(f, OfType(here, ORGANIZATION)));
    }
  }

  lemma NoFounderIff(ms: seq<Mention>)
    ensures Fallback(ms, FOUNDED) == {} <==> !OneOfEach(ms)
  {
    var people, orgs := OfType(ms, PERSON), OfType(ms, ORGANIZATION);
    if OneOfEach(ms) { assert (people[0], orgs[0]) in Fallback(ms, FOUNDED); }
  }

  /** When two voices agree where nothing is fallen back on. */
  lemma AgreeIff(f: Mention -> Mention, ms: seq<Mention>, a: set<(Mention, Mention)>, b: set<(Mention, Mention)>,
                 first: bool, second: bool)
    requires Faithful(f, ms) && Within(ms, a) && Within(ms, b)
    ensures Given(second, Image(f, b), {}) == Image(f, Given(first, a, {})) <==>
            if first && second then b == a else (first ==> a == {}) && (second ==> b == {})
  {
    SameImage(f, ms, a, b);
    ImageEmptyIff(f, a);
    ImageEmptyIff(f, b);
    ImageEmptyIff(f, {});
  }

  /**
   For founding verbs the voice matters. Where both voices have a trigger, they give the
   same FOUNDED relations in the end exactly when one person and one organization settle
   the matter, or the verbs stand for the same in both; both sides of that are read off
   the active sentence. A voice alone in having a trigger must have nothing to give.
   */
  lemma FoundedVoicesAgreeIff(s: Sentence, ms: seq<Mention>, v: nat, byIdx: int, q: Sentence, qs: seq<Mention>,
                              f: Mention -> Mention)
    requires PassiveOf(s, MentionsIn(ms, s), v, byIdx, q, MentionsIn(qs, q), f)
    ensures WellFormed(q)
    ensures var here := MentionsIn(ms, s);
      var found, passive := Found(s, here, FOUNDED), FoundInPassive(s, here, v, FOUNDED);
      Agree(s, ms, q, qs, f, FOUNDED) <==>
        if Fires(s, FOUNDED) && Fires(q, FOUNDED) then OneOfEach(here) || passive == found
        else && (Fires(s, FOUNDED) ==> found == {} && !OneOfEach(here))
             && (Fires(q, FOUNDED) ==> passive == {} && !OneOfEach(here))
  {
    var here, there := MentionsIn(ms, s), MentionsIn(qs, q);
    var found, passive := Found(s, here, FOUNDED), FoundInPassive(s, here, v, FOUNDED);
    BothVoices(s, ms, here, v, byIdx, q, qs, there, f, FOUNDED);
    OneOfEachReworded(Passive(s, v, byIdx), here, q, there, f);
    FoundersFound(s, here, v);
    NoFounderIff(here);
    NoFounderIff(there);
    if OneOfEach(here) {
      OneFounderEither(s, ms, here, q, qs, there, f);
    } else {
      AgreeIff(f, here, found, passive, Fires(s, FOUNDED), Fires(q, FOUNDED));
    }
  }

  /** Whichever voice has a trigger gives the one founder and the one company. */
  lemma OneFounderEither(s: Sentence, ms: seq<Mention>, here: seq<Mention>, q: Sentence, qs: seq<Mention>,
                         there: seq<Mention>, f: Mention -> Mention)
    requires WellFormed(s) && WellFormed(q) && here == MentionsIn(ms, s) && there == MentionsIn(qs, q)
    requires OneOfEach(here) && OneOfEach(there)
    requires OfType(there, PERSON)[0] == f(OfType(here, PERSON)[0])
    requires OfType(there, ORGANIZATION)[0] == f(OfType(here, ORGANIZATION)[0])
    ensures Agree(s, ms, q, qs, f, FOUNDED) <==> (Fires(s, FOUNDED) <==> Fires(q, FOUNDED))
  {
    var x := (OfType(here, PERSON)[0], OfType(here, ORGANIZATION)[0]);
    GivenInTheEnd(s, ms, here, FOUNDED);
    GivenInTheEnd(q, qs, there, FOUNDED);
    if Fires(s, FOUNDED) { OneOfEachFounded(s, ms, here); }
    if Fires(q, FOUNDED) { OneOfEachFounded(q, qs, there); }
    ImageOfOne(f, x.0, x.1);
    ImageEmptyIff(f, {});
    assert (f(x.0), f(x.1)) in {(f(x.0), f(x.1))};
  }

  /** The same for couples of founders, for which there is no fallback. */
  lemma CouplesAgreeIff(s: Sentence, ms: seq<Mention>, v: nat, byIdx: int, q: Sentence, qs: seq<Mention>,
                        f: Mention -> Mention)
    requires PassiveOf(s, MentionsIn(ms, s), v, byIdx, q, MentionsIn(qs, q), f)
    ensures WellFormed(q)
    ensures var here := MentionsIn(ms, s);
      var found, passive := Found(s, here, CO_FOUNDED_WITH), FoundInPassive(s, here, v, CO_FOUNDED_WITH);
      Agree(s, ms, q, qs, f, CO_FOUNDED_WITH) <==>
        if Fires(s, CO_FOUNDED_WITH) && Fires(q, CO_FOUNDED_WITH) then passive == found
        else (Fires(s, CO_FOUNDED_WITH) ==> found == {}) && (Fires(q, CO_FOUNDED_WITH) ==> passive == {})
  {
    var here, there := MentionsIn(ms, s), MentionsIn(qs, q);
    BothVoices(s, ms, here, v, byIdx, q, qs, there, f, CO_FOUNDED_WITH);
    CouplesFound(s, here, v);
    AgreeIff(f, here, Found(s, here, CO_FOUNDED_WITH), FoundInPassive(s, here, v, CO_FOUNDED_WITH),
             Fires(s, CO_FOUNDED_WITH), Fires(q, CO_FOUNDED_WITH));
  }

  // ---------------------------------------------------------------- a sole founding verb

  ghost predicate OnlyFoundingVerb(s: Sentence, v: nat) {
    forall t | 0 <= t < |s.tokens| && t != v :: s.tokens[t].base !in FOUNDED_LEMMAS
  }

  /** The people among the founders of the active clause, and the organizations it says they founded. */
  function People(s: Sentence, ms: seq<Mention>, v: nat): seq<Mention>
    requires WellFormed(s) && v < |s.tokens|
  {
    OfType(Founders(s, ms, v), PERSON)
  }

  function Companies(s: Sentence, ms: seq<Mention>, v: nat): seq<Mention>
    requires WellFormed(s) && v < |s.tokens|
  {
    OfType(Args(s, ms, v, {"dobj", "attr", "oprd"}), ORGANIZATION)
  }

  /** The same in the passive clause, read off the active one. */
  function OtherPeople(s: Sentence, ms: seq<Mention>, v: nat): seq<Mention>
    requires WellFormed(s) && v < |s.tokens|
  {
    OfType(PassiveFounders(s, ms, v, v), PERSON)
  }

  function Complements(s: Sentence, ms: seq<Mention>, v: nat): seq<Mention>
    requires WellFormed(s) && v < |s.tokens|
  {
    OfType(Args(s, ms, v, {"attr", "oprd"}), ORGANIZATION)
  }

  /** All pairs of the one with the other. */
  ghost function Cross(people: seq<Mention>, orgs: seq<Mention>): set<(Mention, Mention)> {
    set a, b | a in people && b in orgs :: (a, b)
  }

  lemma PairsAreCross(sources: seq<Mention>, targets: seq<Mention>)
    ensures Members(Pairs(sources, targets, PERSON, ORGANIZATION)) ==
            Cross(OfType(sources, PERSON), OfType(targets, ORGANIZATION))
  {
    assert PERSON[0] != ORGANIZATION[0];
    forall a, b
      ensures (a, b) in Pairs(sources, targets, PERSON, ORGANIZATION) <==>
              a in OfType(sources, PERSON) && b in OfType(targets, ORGANIZATION)
    {
      PairsIff(sources, targets, PERSON, ORGANIZATION, a, b);
      OfTypeMembers(sources, PERSON, a);
      OfTypeMembers(targets, ORGANIZATION, b);
    }
  }

  lemma CrossEmptyIff(people: seq<Mention>, orgs: seq<Mention>)
    ensures Cross(people, orgs) == {} <==> people == [] || orgs == []
  {
    if people != [] && orgs != [] { assert (people[0], orgs[0]) in Cross(people, orgs); }
  }

  lemma NoCoupleIff(people: seq<Mention>)
    ensures Members(PersonPairs(people)) == {} <==> |people| <= 1
  {
    if |people| <= 1 {
      NoCouple(people);
    } else {
      PersonPairsIff(people, people[0], people[1]);
      assert InTurn(people, people[0], people[1]);
      assert (people[0], people[1]) in Members(PersonPairs(people));
    }
  }

  lemma OnlyOneSet<T>(sets: seq<set<T>>, v: nat)
    requires v < |sets| && forall t | 0 <= t < |sets| && t != v :: sets[t] == {}
    ensures Union(sets) == sets[v]
  {
  }

  /** What a sole founding verb stands for in either voice. */
  lemma SoleVerb(s: Sentence, ms: seq<Mention>, v: nat)
    requires WellFormed(s) && v < |s.tokens| && s.tokens[v].base in FOUNDED_LEMMAS && OnlyFoundingVerb(s, v)
    ensures Found(s, ms, FOUNDED) == Cross(People(s, ms, v), Companies(s, ms, v))
    ensures FoundInPassive(s, ms, v, FOUNDED) == Cross(OtherPeople(s, ms, v), Complements(s, ms, v))
    ensures Found(s, ms, CO_FOUNDED_WITH) == Members(PersonPairs(People(s, ms, v)))
    ensures FoundInPassive(s, ms, v, CO_FOUNDED_WITH) == Members(PersonPairs(OtherPeople(s, ms, v)))
  {
    OnlyOneSet(PairsByToken(s, ms, FOUNDED), v);
    OnlyOneSet(PassivePairsByToken(s, ms, v, FOUNDED), v);
    OnlyOneSet(PairsByToken(s, ms, CO_FOUNDED_WITH), v);
    OnlyOneSet(PassivePairsByToken(s, ms, v, CO_FOUNDED_WITH), v);
    PairsAreCross(Founders(s, ms, v), Args(s, ms, v, {"dobj", "attr", "oprd"}));
    PairsAreCross(PassiveFounders(s, ms, v, v), Args(s, ms, v, {"attr", "oprd"}));
  }

  /**
   With no other founding verb and no organization as complement, two voices with a
   trigger agree exactly when there is one person and one organization, or the active
   clause has no person or no organization.
   */
  lemma SoleFoundedVoicesAgreeIff(s: Sentence, ms: seq<Mention>, v: nat, byIdx: int, q: Sentence, qs: seq<Mention>,
                                  f: Mention -> Mention)
    requires PassiveOf(s, MentionsIn(ms, s), v, byIdx, q, MentionsIn(qs, q), f)
    requires s.tokens[v].base in FOUNDED_LEMMAS && OnlyFoundingVerb(s, v) && Complements(s, MentionsIn(ms, s), v) == []
    ensures WellFormed(q)
    ensures var here := MentionsIn(ms, s);
      var nothing := People(s, here, v) == [] || Companies(s, here, v) == [];
      Agree(s, ms, q, qs, f, FOUNDED) <==>
        if Fires(s, FOUNDED) && Fires(q, FOUNDED) then OneOfEach(here) || nothing
        else (Fires(s, FOUNDED) ==> nothing && !OneOfEach(here)) && (Fires(q, FOUNDED) ==> !OneOfEach(here))
  {
    var here := MentionsIn(ms, s);
    FoundedVoicesAgreeIff(s, ms, v, byIdx, q, qs, f);
    SoleVerb(s, here, v);
    CrossEmptyIff(People(s, here, v), Companies(s, here, v));
    CrossEmptyIff(OtherPeople(s, here, v), []);
  }

  /** And if the passive form finds fewer than two people as founders: exactly when the active one has no couple. */
  lemma SoleCouplesAgreeIff(s: Sentence, ms: seq<Mention>, v: nat, byIdx: int, q: Sentence, qs: seq<Mention>,
                            f: Mention -> Mention)
    requires PassiveOf(s, MentionsIn(ms, s), v, byIdx, q, MentionsIn(qs, q), f)
    requires s.tokens[v].base in FOUNDED_LEMMAS && OnlyFoundingVerb(s, v)
    requires |OtherPeople(s, MentionsIn(ms, s), v)| <= 1
    ensures WellFormed(q)
    ensures Agree(s, ms, q, qs, f, CO_FOUNDED_WITH) <==>
            (Fires(s, CO_FOUNDED_WITH) ==> |People(s, MentionsIn(ms, s), v)| <= 1)
  {
    var here := MentionsIn(ms, s);
    CouplesAgreeIff(s, ms, v, byIdx, q, qs, f);
    SoleVerb(s, here, v);
    NoCoupleIff(People(s, here, v));
    NoCoupleIff(OtherPeople(s, here, v));
  }

  /** What the passive form of a sole founding verb gives if neither it nor the fallback finds anybody: nothing. */
  lemma FoundersLost(s: Sentence, ms: seq<Mention>, v: nat, byIdx: int, q: Sentence, qs: seq<Mention>,
                     f: Mention -> Mention)
    requires PassiveOf(s, MentionsIn(ms, s), v, byIdx, q, MentionsIn(qs, q), f)
    requires s.tokens[v].base in FOUNDED_LEMMAS && OnlyFoundingVerb(s, v)
    requires OtherPeople(s, MentionsIn(ms, s), v) == [] && !OneOfEach(MentionsIn(ms, s))
    ensures WellFormed(q) && Ends(SentenceRelations(q, qs), FOUNDED) == {}
    ensures Ends(SentenceRelations(q, qs), CO_FOUNDED_WITH) == {}
  {
    var here, there := MentionsIn(ms, s), MentionsIn(qs, q);
    BothVoices(s, ms, here, v, byIdx, q, qs, there, f, FOUNDED);
    BothVoices(s, ms, here, v, byIdx, q, qs, there, f, CO_FOUNDED_WITH);
    OneOfEachReworded(Passive(s, v, byIdx), here, q, there, f);
    SoleVerb(s, here, v);
    CrossEmptyIff([], Complements(s, here, v));
    NoCoupleIff([]);
    ImageEmptyIff(f, {});
  }
}
