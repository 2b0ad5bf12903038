/** The relations of one sentence by their ends: what each verb gives, and what the fallbacks make of nothing. */
module SentenceEnds {
  import opened Relations
  import Text

  /** The (from, to) ends of the relations of one kind. */
  ghost function Ends(rs: seq<Relation>, kind: Kind): set<(Mention, Mention)> {
    set r | r in rs && r.kind == kind :: (r.from, r.to)
  }

  ghost function Members(pairs: seq<(Mention, Mention)>): set<(Mention, Mention)> {
    set x | x in pairs
  }

  lemma EndsConcat(a: seq<Relation>, b: seq<Relation>, kind: Kind)
    ensures Ends(a + b, kind) == Ends(a, kind) + Ends(b, kind)
  {
  }

  lemma {:induction false} EndsRelated(pairs: seq<(Mention, Mention)>, of: Kind, confidence: real, evidence: string,
                                       kind: Kind)
    ensures Ends(Relate(pairs, of, confidence, evidence), kind) == if kind == of then Members(pairs) else {}
  {
    if pairs != [] {
      var first := [Relation(pairs[0].0, pairs[0].1, of, confidence, evidence)];
      EndsRelated(pairs[1..], of, confidence, evidence, kind);
      EndsConcat(first, Relate(pairs[1..], of, confidence, evidence), kind);
      assert first[0] in first;
      assert pairs == [pairs[0]] + pairs[1..];
    }
  }

  lemma EndsFound(s: Sentence, ms: seq<Mention>, t: nat, kind: Kind)
    requires WellFormed(s) && t < |s.tokens|
    ensures Ends(RelationsAt(s, ms, t), kind) ==
            Ends(FoundedAt(s, ms, t), kind) + Ends(AcquiredAt(s, ms, t), kind) + Ends(SubsidiaryAt(s, ms, t), kind)
  {
    EndsConcat(FoundedAt(s, ms, t) + AcquiredAt(s, ms, t), SubsidiaryAt(s, ms, t), kind);
    EndsConcat(FoundedAt(s, ms, t), AcquiredAt(s, ms, t), kind);
  }

  lemma NoSubsidiaryEnds(s: Sentence, ms: seq<Mention>, t: nat, kind: Kind)
    requires WellFormed(s) && t < |s.tokens| && kind != SUBSIDIARY_OF
    ensures Ends(SubsidiaryAt(s, ms, t), kind) == {}
  {
    if e :| e in Ends(SubsidiaryAt(s, ms, t), kind) {
      var r :| r in SubsidiaryAt(s, ms, t) && r.kind == kind;
      SubsidiaryIff(s, ms, t, r);
    }
  }

  /** The pairs of one kind that a verb stands for, trigger or not; subsidiaries are left out. */
  ghost function VerbPairs(s: Sentence, ms: seq<Mention>, t: nat, kind: Kind): set<(Mention, Mention)>
    requires WellFormed(s) && t < |s.tokens|
  {
    if s.tokens[t].base !in Verbs(kind) then {}
    else
      match kind
      case FOUNDED => Members(FoundedPairs(s, ms, t))
      case CO_FOUNDED_WITH => Members(PersonPairs(OfType(Founders(s, ms, t), PERSON)))
      case ACQUIRED => Members(AcquiredPairs(s, ms, t))
      case SUBSIDIARY_OF => {}
  }

  predicate Fires(s: Sentence, kind: Kind) {
    AnyTrigger(s.lowered,
      match kind
      case FOUNDED => FOUNDED_TRIGGERS
      case CO_FOUNDED_WITH => COFOUNDER_TRIGGERS
      case ACQUIRED => ACQUIRED_TRIGGERS
      case SUBSIDIARY_OF => SUBSIDIARY_TRIGGERS)
  }

  lemma {:induction false} TriggerAt(lowered: string, triggers: seq<string>, k: nat, i: nat)
    requires k < |triggers| && Text.At(lowered, triggers[k], i)
    ensures AnyTrigger(lowered, triggers)
    decreases k
  {
    if k > 0 { TriggerAt(lowered, triggers[1..], k - 1, i); }
  }

  function Verbs(kind: Kind): set<string> {
    if kind == ACQUIRED then ACQUIRED_LEMMAS else FOUNDED_LEMMAS
  }

  lemma EndsIf(c: bool, pairs: seq<(Mention, Mention)>, of: Kind, confidence: real, evidence: string, kind: Kind)
    ensures Ends(if c then Relate(pairs, of, confidence, evidence) else [], kind) ==
            if c && kind == of then Members(pairs) else {}
  {
    EndsRelated(pairs, of, confidence, evidence, kind);
  }

  lemma NoCouple(people: seq<Mention>)
    requires |people| <= 1
    ensures PersonPairs(people) == []
  {
    if |people| == 1 { assert people[1..] == []; }
  }

  lemma EndsOfBoth(pairs: seq<(Mention, Mention)>, founded: bool, people: seq<Mention>, cofounded: bool, text: string,
                   kind: Kind)
    ensures var couples := PersonPairs(people);
      Ends((if founded then Relate(pairs, FOUNDED, 0.85, text) else []) +
           (if cofounded && |people| > 1 then Relate(couples, CO_FOUNDED_WITH, 0.8, text) else []), kind) ==
      if kind == FOUNDED && founded then Members(pairs)
      else if kind == CO_FOUNDED_WITH && cofounded then Members(couples) else {}
  {
    var couples := cofounded && |people| > 1;
    EndsIf(founded, pairs, FOUNDED, 0.85, text, kind);
    EndsIf(couples, PersonPairs(people), CO_FOUNDED_WITH, 0.8, text, kind);
    EndsConcat(if founded then Relate(pairs, FOUNDED, 0.85, text) else [],
               if couples then Relate(PersonPairs(people), CO_FOUNDED_WITH, 0.8, text) else [], kind);
    if |people| <= 1 { NoCouple(people); }
  }

  lemma FoundedEnds(s: Sentence, ms: seq<Mention>, t: nat, pairs: seq<(Mention, Mention)>, people: seq<Mention>,
                    kind: Kind)
    requires WellFormed(s) && t < |s.tokens|
    requires pairs == FoundedPairs(s, ms, t) && people == OfType(Founders(s, ms, t), PERSON)
    ensures Ends(FoundedAt(s, ms, t), kind) ==
            if s.tokens[t].base !in FOUNDED_LEMMAS then {}
            else if kind == FOUNDED && Fires(s, FOUNDED) then Members(pairs)
            else if kind == CO_FOUNDED_WITH && Fires(s, CO_FOUNDED_WITH) then Members(PersonPairs(people)) else {}
  {
    EndsOfBoth(pairs, Fires(s, FOUNDED), people, Fires(s, CO_FOUNDED_WITH), s.text, kind);
  }

  lemma VerbPairsAre(s: Sentence, ms: seq<Mention>, t: nat, kind: Kind)
    requires WellFormed(s) && t < |s.tokens| && kind != SUBSIDIARY_OF
    ensures Ends(RelationsAt(s, ms, t), kind) == if Fires(s, kind) then VerbPairs(s, ms, t, kind) else {}
  {
    var people := OfType(Founders(s, ms, t), PERSON);
    EndsFound(s, ms, t, kind);
    NoSubsidiaryEnds(s, ms, t, kind);
    FoundedEnds(s, ms, t, FoundedPairs(s, ms, t), people, kind);
    EndsRelated(AcquiredPairs(s, ms, t), ACQUIRED, 0.8, s.text, kind);
  }

  /** For every token the pairs of one kind it stands for. */
  ghost function PairsByToken(s: Sentence, ms: seq<Mention>, kind: Kind): (r: seq<set<(Mention, Mention)>>)
    requires WellFormed(s)
    ensures |r| == |s.tokens| && forall t | 0 <= t < |r| :: r[t] == VerbPairs(s, ms, t, kind)
  {
    seq(|s.tokens|, t requires 0 <= t < |s.tokens| => VerbPairs(s, ms, t, kind))
  }

  /** What the verbs of a sentence stand for. */
  ghost function Found(s: Sentence, ms: seq<Mention>, kind: Kind): set<(Mention, Mention)>
    requires WellFormed(s)
  {
    Union(PairsByToken(s, ms, kind))
  }

  ghost function Union<T>(sets: seq<set<T>>): set<T> {
    set k, x | 0 <= k < |sets| && x in sets[k] :: x
  }

  lemma UnionSnoc<T>(sets: seq<set<T>>, n: nat)
    requires n < |sets|
    ensures Union(sets[..n + 1]) == Union(sets[..n]) + sets[n]
  {
    assert forall k | 0 <= k < n :: sets[..n][k] == sets[..n + 1][k];
    assert sets[..n + 1][n] == sets[n];
  }

  lemma DerivedSnoc(s: Sentence, ms: seq<Mention>, m: nat, n: nat, kind: Kind)
    requires WellFormed(s) && n == m + 1 <= |s.tokens|
    ensures Ends(Derived(s, ms, n), kind) == Ends(Derived(s, ms, m), kind) + Ends(RelationsAt(s, ms, m), kind)
  {
    EndsConcat(Derived(s, ms, m), RelationsAt(s, ms, m), kind);
  }

  /** `sets` holds the ends of what each token gives. */
  ghost predicate EndsByToken(s: Sentence, ms: seq<Mention>, sets: seq<set<(Mention, Mention)>>, kind: Kind)
    requires WellFormed(s)
  {
    |sets| == |s.tokens| && forall t | 0 <= t < |sets| :: sets[t] == Ends(RelationsAt(s, ms, t), kind)
  }

  lemma {:induction false} DerivedEnds(s: Sentence, ms: seq<Mention>, sets: seq<set<(Mention, Mention)>>, n: nat,
                                       kind: Kind)
    requires WellFormed(s) && n <= |s.tokens| && EndsByToken(s, ms, sets, kind)
    ensures Ends(Derived(s, ms, n), kind) == Union(sets[..n])
  {
    if n == 0 {
      assert sets[..n] == [] && Derived(s, ms, n) == [];
    } else {
      var m := n - 1;
      DerivedEnds(s, ms, sets, m, kind);
      UnionSnoc(sets, m);
      DerivedSnoc(s, ms, m, n, kind);
      assert sets[m] == Ends(RelationsAt(s, ms, m), kind);
    }
  }

  lemma AllDerivedEnds(s: Sentence, ms: seq<Mention>, kind: Kind)
    requires WellFormed(s) && kind != SUBSIDIARY_OF
    ensures Ends(Derived(s, ms, |s.tokens|), kind) == if Fires(s, kind) then Found(s, ms, kind) else {}
  {
    var sets := if Fires(s, kind) then PairsByToken(s, ms, kind) else seq(|s.tokens|, t => {});
    forall t | 0 <= t < |sets| ensures sets[t] == Ends(RelationsAt(s, ms, t), kind) { VerbPairsAre(s, ms, t, kind); }
    DerivedEnds(s, ms, sets, |s.tokens|, kind);
    assert sets[..|s.tokens|] == sets;
  }

  lemma {:induction false} HasKindIff(rs: seq<Relation>, kind: Kind)
    ensures HasKind(rs, kind) <==> Ends(rs, kind) != {}
  {
    if rs != [] {
      var front, last := rs[..|rs| - 1], rs[|rs| - 1];
      HasKindIff(front, kind);
      EndsConcat(front, [last], kind);
      assert rs == front + [last] && last in [last];
      if last.kind == kind { assert (last.from, last.to) in Ends([last], kind); }
    }
  }

  /** One person and one organization: what the fallback for founders asks for. */
  predicate OneOfEach(ms: seq<Mention>) {
    |OfType(ms, PERSON)| == 1 && |OfType(ms, ORGANIZATION)| == 1
  }

  /** What the fallbacks give where the verbs stand for nothing: the two organizations in the order of the text. */
  ghost function Fallback(ms: seq<Mention>, kind: Kind): set<(Mention, Mention)> {
    var people, orgs := OfType(ms, PERSON), OfType(ms, ORGANIZATION);
    if kind == FOUNDED && OneOfEach(ms) then {(people[0], orgs[0])}
    else if kind == ACQUIRED && |orgs| == 2 then {(orgs[0], orgs[1])}
    else {}
  }

  /** What a sentence gives of a kind: nothing without a trigger, otherwise what was found, or else the fallback. */
  ghost function Given(fires: bool, found: set<(Mention, Mention)>, fallback: set<(Mention, Mention)>)
    : set<(Mention, Mention)>
  {
    if !fires then {} else if found != {} then found else fallback
  }

  lemma EndsOfOne(c: bool, r: Relation, kind: Kind)
    ensures Ends(if c then [r] else [], kind) == if c && r.kind == kind then {(r.from, r.to)} else {}
  {
    assert r in [r];
  }

  lemma EndsOfTwo(c: bool, first: Relation, d: bool, second: Relation, kind: Kind)
    ensures Ends((if c then [first] else []) + (if d then [second] else []), kind) ==
            (if c && first.kind == kind then {(first.from, first.to)} else {}) +
            (if d && second.kind == kind then {(second.from, second.to)} else {})
  {
    EndsOfOne(c, first, kind);
    EndsOfOne(d, second, kind);
    EndsConcat(if c then [first] else [], if d then [second] else [], kind);
  }

  lemma FallbackEnds(s: Sentence, ms: seq<Mention>, derived: seq<Relation>, kind: Kind)
    requires kind != SUBSIDIARY_OF
    requires !Fires(s, kind) ==> Ends(derived, kind) == {}
    ensures Ends(derived + Fallbacks(s, ms, derived), kind) ==
            Given(Fires(s, kind), Ends(derived, kind), Fallback(ms, kind))
  {
    var people, orgs := OfType(ms, PERSON), OfType(ms, ORGANIZATION);
    HasKindIff(derived, FOUNDED);
    HasKindIff(derived, ACQUIRED);
    EndsConcat(derived, Fallbacks(s, ms, derived), kind);
    var none := Mention("", 0, 0, "", 0.0);
    EndsOfTwo(
      Fires(s, FOUNDED) && !HasKind(derived, FOUNDED) && |people| == 1 && |orgs| == 1,
      if |people| == 1 && |orgs| == 1 then Relation(people[0], orgs[0], FOUNDED, 0.6, s.text)
      else Relation(none, none, FOUNDED, 0.6, s.text),
      Fires(s, ACQUIRED) && !HasKind(derived, ACQUIRED) && |orgs| == 2,
      if |orgs| == 2 then Relation(orgs[0], orgs[1], ACQUIRED, 0.55, s.text)
      else Relation(none, none, ACQUIRED, 0.55, s.text), kind);
  }

  lemma NobodyFound(rs: seq<Relation>, text: string, kind: Kind)
    requires Sound(rs, [], text)
    ensures Ends(rs, kind) == {}
  {
  }

  lemma NothingWithoutTrigger(s: Sentence, kind: Kind)
    requires !AnyTriggerAtAll(s)
    ensures !Fires(s, kind)
  {
  }

  /** What the verbs give, after the fallbacks, is what the sentence gives in the end. */
  lemma GivenInTheEnd(s: Sentence, ms: seq<Mention>, here: seq<Mention>, kind: Kind)
    requires WellFormed(s) && kind != SUBSIDIARY_OF && here == MentionsIn(ms, s)
    ensures Ends(SentenceRelations(s, ms), kind) == Given(Fires(s, kind), Found(s, here, kind), Fallback(here, kind))
  {
    var derived := Derived(s, here, |s.tokens|);
    AllDerivedEnds(s, here, kind);
    if here == [] {
      NobodyFound(derived, s.text, kind);
    } else if !AnyTriggerAtAll(s) {
      NothingWithoutTrigger(s, kind);
    } else {
      FallbackEnds(s, here, derived, kind);
    }
  }
}
