/** Relation extraction over dependency parses. The parse itself is an input. */
module Relations {
  import opened Prelude
  import opened Text

  datatype Mention = Mention(text: string, spanStart: int, spanEnd: int, nerType: string, confidence: real)

  /** A token: `head`, `children` and `conjuncts` are positions in its sentence. */
  datatype Token = Token(idx: int, base: string, dep: string, head: nat, children: seq<nat>, conjuncts: seq<nat>)

  datatype Sentence = Sentence(text: string, lowered: string, startChar: int, endChar: int, tokens: seq<Token>)

  datatype Kind = FOUNDED | CO_FOUNDED_WITH | SUBSIDIARY_OF | ACQUIRED

  datatype Relation = Relation(from: Mention, to: Mention, kind: Kind, confidence: real, evidence: string)

  const FOUNDED_TRIGGERS := ["founded", "co-founded", "cofounded", "started the company", "established"]
  const COFOUNDER_TRIGGERS := ["co-founder", "cofounder", "co-founded", "cofounded"]
  const SUBSIDIARY_TRIGGERS := ["subsidiary of", "owned by", "a unit of", "division of"]
  const ACQUIRED_TRIGGERS := ["acquired", "acquisition of", "bought"]
  const FOUNDED_LEMMAS := {"found", "establish", "cofound", "cofounde"}
  const ACQUIRED_LEMMAS := {"acquire", "buy"}
  const OWN_LEMMAS := {"own"}
  const SUBSIDIARY_NOUNS := {"subsidiary", "unit", "division"}
  const PERSON := "Person"
  const ORGANIZATION := "Organization"

  ghost predicate Inside(s: Sentence, ts: seq<nat>) {
    forall k | 0 <= k < |ts| :: ts[k] < |s.tokens|
  }

  ghost predicate WellFormed(s: Sentence) {
    forall i | 0 <= i < |s.tokens| ::
      s.tokens[i].head < |s.tokens| && Inside(s, s.tokens[i].children) && Inside(s, s.tokens[i].conjuncts)
  }

  // ---------------------------------------------------------------- mentions of tokens

  /** The first mention whose span contains the offset. */
  function MentionAt(ms: seq<Mention>, idx: int): (r: Option<Mention>)
    ensures r.Some? ==> r.value in ms
  {
    if ms == [] then None
    else if ms[0].spanStart <= idx < ms[0].spanEnd then Some(ms[0])
    else MentionAt(ms[1..], idx)
  }

  /** The mention of the token at `t`, its head's if it has none. */
  function MentionOf(s: Sentence, ms: seq<Mention>, t: nat): (r: Option<Mention>)
    requires WellFormed(s) && t < |s.tokens|
    ensures r.Some? ==> r.value in ms
  {
    var own := MentionAt(ms, s.tokens[t].idx);
    if own.Some? then own else MentionAt(ms, s.tokens[s.tokens[t].head].idx)
  }

  ghost predicate Among(out: seq<Mention>, ms: seq<Mention>) {
    forall m | m in out :: m in ms
  }

  function Include(out: seq<Mention>, m: Option<Mention>): seq<Mention> {
    if m.Some? && m.value !in out then out + [m.value] else out
  }

  /** The mentions of the tokens `ts`, added to `out` unless there already. */
  function IncludeAll(s: Sentence, ms: seq<Mention>, out: seq<Mention>, ts: seq<nat>): (r: seq<Mention>)
    requires WellFormed(s) && Inside(s, ts)
    ensures Among(out, ms) ==> Among(r, ms)
  {
    if ts == [] then out
    else Include(IncludeAll(s, ms, out, ts[..|ts| - 1]), MentionOf(s, ms, ts[|ts| - 1]))
  }

  /** The mentions attached through one of `deps` by the tokens `cs`, following coordination. */
  function Attached(s: Sentence, ms: seq<Mention>, cs: seq<nat>, deps: set<string>): (r: seq<Mention>)
    requires WellFormed(s) && Inside(s, cs)
    ensures Among(r, ms)
  {
    if cs == [] then []
    else
      var before, last := Attached(s, ms, cs[..|cs| - 1], deps), cs[|cs| - 1];
      if s.tokens[last].dep in deps then IncludeAll(s, ms, before, [last] + s.tokens[last].conjuncts) else before
  }

  function Args(s: Sentence, ms: seq<Mention>, t: nat, deps: set<string>): (r: seq<Mention>)
    requires WellFormed(s) && t < |s.tokens|
    ensures Among(r, ms)
  {
    Attached(s, ms, s.tokens[t].children, deps)
  }

  method ArgMentions(s: Sentence, ms: seq<Mention>, t: nat, deps: set<string>) returns (out: seq<Mention>)
    requires WellFormed(s) && t < |s.tokens|
    ensures out == Args(s, ms, t, deps)
  {
    out := [];
    var cs := s.tokens[t].children;
    for i := 0 to |cs|
      invariant out == Attached(s, ms, cs[..i], deps)
    {
      assert cs[..i + 1][..i] == cs[..i];
      if s.tokens[cs[i]].dep !in deps {
        continue;
      }
      var ts := [cs[i]] + s.tokens[cs[i]].conjuncts;
      var out0 := out;
      for j := 0 to |ts|
        invariant out == IncludeAll(s, ms, out0, ts[..j])
      {
        assert ts[..j + 1][..j] == ts[..j];
        var m := MentionOf(s, ms, ts[j]);
        if m.Some? && m.value !in out {
          out := out + [m.value];
        }
      }
      assert ts[..|ts|] == ts;
    }
    assert cs[..|cs|] == cs;
  }

  function VerbSubjects(s: Sentence, ms: seq<Mention>, t: nat, depth: nat): (r: seq<Mention>)
    requires WellFormed(s) && t < |s.tokens| && depth <= 3
    ensures Among(r, ms)
    decreases 3 - depth
  {
    var direct := Args(s, ms, t, {"nsubj", "nsubjpass"});
    var tok := s.tokens[t];
    if direct != [] then direct
    else if depth < 3 && tok.dep == "conj" then VerbSubjects(s, ms, tok.head, depth + 1)
    else if tok.dep == "relcl" then Include([], MentionAt(ms, s.tokens[tok.head].idx))
    else []
  }

  /** The `pobj` mentions of the tokens among `cs` that have the given dependency, and base form if one is given. */
  function Through(s: Sentence, ms: seq<Mention>, cs: seq<nat>, dep: string, base: Option<string>): (r: seq<Mention>)
    requires WellFormed(s) && Inside(s, cs)
    ensures Among(r, ms)
  {
    if cs == [] then []
    else
      var last := cs[|cs| - 1];
      Through(s, ms, cs[..|cs| - 1], dep, base) +
      if s.tokens[last].dep == dep && (base.None? || s.tokens[last].base == base.value)
      then Args(s, ms, last, {"pobj"}) else []
  }

  function AgentMentions(s: Sentence, ms: seq<Mention>, t: nat): (r: seq<Mention>)
    requires WellFormed(s) && t < |s.tokens|
    ensures Among(r, ms)
  {
    Through(s, ms, s.tokens[t].children, "agent", None)
  }

  // ---------------------------------------------------------------- pairs

  function PairsWith(a: Mention, targets: seq<Mention>, wantTo: string): (r: seq<(Mention, Mention)>)
    ensures forall p | p in r :: p.0 == a && p.1 in targets && p.1.nerType == wantTo && p.0 != p.1
  {
    if targets == [] then []
    else
      (if targets[0].nerType != wantTo || targets[0] == a then [] else [(a, targets[0])]) +
      PairsWith(a, targets[1..], wantTo)
  }

  function Pairs(sources: seq<Mention>, targets: seq<Mention>, wantFrom: string, wantTo: string)
    : (r: seq<(Mention, Mention)>)
    ensures forall p | p in r :: p.0 in sources && p.1 in targets && p.0.nerType == wantFrom && p.1.nerType == wantTo
  {
    if sources == [] then []
    else
      (if sources[0].nerType != wantFrom then [] else PairsWith(sources[0], targets, wantTo)) +
      Pairs(sources[1..], targets, wantFrom, wantTo)
  }

  function PairsAfter(a: Mention, people: seq<Mention>): (r: seq<(Mention, Mention)>)
    ensures forall p | p in r :: p.0 == a && p.1 in people
  {
    if people == [] then [] else [(a, people[0])] + PairsAfter(a, people[1..])
  }

  function PersonPairs(people: seq<Mention>): (r: seq<(Mention, Mention)>)
    ensures forall p | p in r :: p.0 in people && p.1 in people
  {
    if people == [] then [] else PairsAfter(people[0], people[1..]) + PersonPairs(people[1..])
  }

  function OfType(ms: seq<Mention>, nerType: string): (r: seq<Mention>)
    ensures forall m | m in r :: m in ms && m.nerType == nerType
  {
    if ms == [] then [] else (if ms[0].nerType == nerType then [ms[0]] else []) + OfType(ms[1..], nerType)
  }

  function Swap(pairs: seq<(Mention, Mention)>): (r: seq<(Mention, Mention)>)
    ensures forall p | p in r :: (p.1, p.0) in pairs
  {
    if pairs == [] then [] else [(pairs[0].1, pairs[0].0)] + Swap(pairs[1..])
  }

  function Relate(pairs: seq<(Mention, Mention)>, kind: Kind, confidence: real, evidence: string): (r: seq<Relation>)
    ensures forall c | c in r :: (c.from, c.to) in pairs && c.kind == kind && c.evidence == evidence
    ensures |r| == |pairs|
  {
    if pairs == [] then []
    else [Relation(pairs[0].0, pairs[0].1, kind, confidence, evidence)] + Relate(pairs[1..], kind, confidence, evidence)
  }

  // ---------------------------------------------------------------- the patterns

  predicate AnyTrigger(lowered: string, triggers: seq<string>) {
    triggers != [] && (IndexFrom(lowered, triggers[0], 0).Some? || AnyTrigger(lowered, triggers[1..]))
  }

  function Founders(s: Sentence, ms: seq<Mention>, t: nat): (r: seq<Mention>)
    requires WellFormed(s) && t < |s.tokens|
    ensures Among(r, ms)
  {
    var subjects := VerbSubjects(s, ms, t, 0);
    if subjects != [] then subjects else AgentMentions(s, ms, t)
  }

  function FoundedPairs(s: Sentence, ms: seq<Mention>, t: nat): seq<(Mention, Mention)>
    requires WellFormed(s) && t < |s.tokens|
  {
    Pairs(Founders(s, ms, t), Args(s, ms, t, {"dobj", "attr", "oprd"}), PERSON, ORGANIZATION)
  }

  function FoundedAt(s: Sentence, ms: seq<Mention>, t: nat): (r: seq<Relation>)
    requires WellFormed(s) && t < |s.tokens|
  {
    var founded, cofounder := AnyTrigger(s.lowered, FOUNDED_TRIGGERS), AnyTrigger(s.lowered, COFOUNDER_TRIGGERS);
    var people := OfType(Founders(s, ms, t), PERSON);
    if s.tokens[t].base !in FOUNDED_LEMMAS then []
    else
      (if founded then Relate(FoundedPairs(s, ms, t), FOUNDED, 0.85, s.text) else []) +
      (if cofounder && |people| > 1 then Relate(PersonPairs(people), CO_FOUNDED_WITH, 0.8, s.text) else [])
  }

  /** The (target, buyer) pairs an acquisition verb gives, active first, then passive. */
  function AcquiredPairs(s: Sentence, ms: seq<Mention>, t: nat): seq<(Mention, Mention)>
    requires WellFormed(s) && t < |s.tokens|
  {
    Swap(Pairs(Args(s, ms, t, {"nsubj"}), Args(s, ms, t, {"dobj"}), ORGANIZATION, ORGANIZATION)) +
    Swap(Pairs(AgentMentions(s, ms, t), Args(s, ms, t, {"nsubjpass"}), ORGANIZATION, ORGANIZATION))
  }

  function AcquiredAt(s: Sentence, ms: seq<Mention>, t: nat): (r: seq<Relation>)
    requires WellFormed(s) && t < |s.tokens|
  {
    if !AnyTrigger(s.lowered, ACQUIRED_TRIGGERS) || s.tokens[t].base !in ACQUIRED_LEMMAS then []
    else Relate(AcquiredPairs(s, ms, t), ACQUIRED, 0.8, s.text)
  }

  function SubsidiaryAt(s: Sentence, ms: seq<Mention>, t: nat): (r: seq<Relation>)
    requires WellFormed(s) && t < |s.tokens|
  {
    var tok := s.tokens[t];
    if !AnyTrigger(s.lowered, SUBSIDIARY_TRIGGERS) then []
    else
      (if tok.base !in SUBSIDIARY_NOUNS then []
       else
         var parents := Through(s, ms, tok.children, "prep", Some("of"));
         var head := MentionAt(ms, s.tokens[tok.head].idx);
         var children := (if head.Some? then [head.value] else []) + Args(s, ms, tok.head, {"nsubj", "appos"});
         Relate(Pairs(children, parents, ORGANIZATION, ORGANIZATION), SUBSIDIARY_OF, 0.75, s.text)) +
      (if tok.base !in OWN_LEMMAS then []
       else
         var owned, owners := Args(s, ms, t, {"nsubjpass"}), AgentMentions(s, ms, t);
         Relate(Pairs(owned, owners, ORGANIZATION, ORGANIZATION), SUBSIDIARY_OF, 0.75, s.text))
  }

  predicate Typed(r: Relation) {
    && r.from.nerType == (if r.kind.FOUNDED? || r.kind.CO_FOUNDED_WITH? then PERSON else ORGANIZATION)
    && r.to.nerType == (if r.kind.CO_FOUNDED_WITH? then PERSON else ORGANIZATION)
  }

  /** Relations of the right types between mentions among `ms`, with the sentence as evidence. */
  ghost predicate Sound(rs: seq<Relation>, ms: seq<Mention>, text: string) {
    forall r | r in rs :: Typed(r) && r.from in ms && r.to in ms && r.evidence == text
  }

  lemma FoundedSound(s: Sentence, ms: seq<Mention>, t: nat)
    requires WellFormed(s) && t < |s.tokens|
    ensures Sound(FoundedAt(s, ms, t), ms, s.text)
  {
    var people := OfType(Founders(s, ms, t), PERSON);
    FoundersSound(Founders(s, ms, t), Args(s, ms, t, {"dobj", "attr", "oprd"}), ms, s.text);
    CoFoundersSound(people, ms, s.text);
  }

  lemma FoundersSound(founders: seq<Mention>, objects: seq<Mention>, ms: seq<Mention>, text: string)
    requires Among(founders, ms) && Among(objects, ms)
    ensures Sound(Relate(Pairs(founders, objects, PERSON, ORGANIZATION), FOUNDED, 0.85, text), ms, text)
  {
  }

  lemma CoFoundersSound(people: seq<Mention>, ms: seq<Mention>, text: string)
    requires Among(people, ms) && forall m | m in people :: m.nerType == PERSON
    ensures Sound(Relate(PersonPairs(people), CO_FOUNDED_WITH, 0.8, text), ms, text)
  {
  }

  lemma AcquiredSound(s: Sentence, ms: seq<Mention>, t: nat)
    requires WellFormed(s) && t < |s.tokens|
    ensures Sound(AcquiredAt(s, ms, t), ms, s.text)
  {
  }

  lemma SubsidiarySound(s: Sentence, ms: seq<Mention>, t: nat)
    requires WellFormed(s) && t < |s.tokens|
    ensures Sound(SubsidiaryAt(s, ms, t), ms, s.text)
  {
  }

  function RelationsAt(s: Sentence, ms: seq<Mention>, t: nat): (r: seq<Relation>)
    requires WellFormed(s) && t < |s.tokens|
    ensures Sound(r, ms, s.text)
  {
    FoundedSound(s, ms, t);
    AcquiredSound(s, ms, t);
    SubsidiarySound(s, ms, t);
    FoundedAt(s, ms, t) + AcquiredAt(s, ms, t) + SubsidiaryAt(s, ms, t)
  }

  /** What the first `n` tokens give. */
  function Derived(s: Sentence, ms: seq<Mention>, n: nat): (r: seq<Relation>)
    requires WellFormed(s) && n <= |s.tokens|
    ensures Sound(r, ms, s.text)
  {
    if n == 0 then [] else Derived(s, ms, n - 1) + RelationsAt(s, ms, n - 1)
  }

  predicate HasKind(rs: seq<Relation>, kind: Kind) {
    rs != [] && (rs[|rs| - 1].kind == kind || HasKind(rs[..|rs| - 1], kind))
  }

  /** The fallbacks for sentences whose parse gave nothing. */
  function Fallbacks(s: Sentence, ms: seq<Mention>, derived: seq<Relation>): (r: seq<Relation>) {
    var people, orgs := OfType(ms, PERSON), OfType(ms, ORGANIZATION);
    (if AnyTrigger(s.lowered, FOUNDED_TRIGGERS) && !HasKind(derived, FOUNDED) && |people| == 1 && |orgs| == 1
     then [Relation(people[0], orgs[0], FOUNDED, 0.6, s.text)] else []) +
    (if AnyTrigger(s.lowered, ACQUIRED_TRIGGERS) && !HasKind(derived, ACQUIRED) && |orgs| == 2
     then [Relation(orgs[0], orgs[1], ACQUIRED, 0.55, s.text)] else [])
  }

  predicate InSpan(m: Mention, s: Sentence) {
    m.spanStart >= s.startChar && m.spanEnd <= s.endChar
  }

  function MentionsIn(ms: seq<Mention>, s: Sentence): (r: seq<Mention>)
    ensures forall m | m in r :: m in ms && InSpan(m, s)
  {
    if ms == [] then [] else (if InSpan(ms[0], s) then [ms[0]] else []) + MentionsIn(ms[1..], s)
  }

  predicate AnyTriggerAtAll(s: Sentence) {
    || AnyTrigger(s.lowered, FOUNDED_TRIGGERS) || AnyTrigger(s.lowered, COFOUNDER_TRIGGERS)
    || AnyTrigger(s.lowered, SUBSIDIARY_TRIGGERS) || AnyTrigger(s.lowered, ACQUIRED_TRIGGERS)
  }

  function SentenceRelations(s: Sentence, ms: seq<Mention>): (r: seq<Relation>)
    requires WellFormed(s)
  {
    var here := MentionsIn(ms, s);
    var derived := Derived(s, here, |s.tokens|);
    if here == [] || !AnyTriggerAtAll(s) then [] else derived + Fallbacks(s, here, derived)
  }

  function Candidates(doc: seq<Sentence>, ms: seq<Mention>): seq<Relation>
    requires forall i | 0 <= i < |doc| :: WellFormed(doc[i])
  {
    if doc == [] then [] else Candidates(doc[..|doc| - 1], ms) + SentenceRelations(doc[|doc| - 1], ms)
  }

  // ---------------------------------------------------------------- extraction

  /** "a subsidiary of X" and "owned by X". */
  method SubsidiariesOf(s: Sentence, ms: seq<Mention>, t: nat) returns (r: seq<Relation>)
    requires WellFormed(s) && t < |s.tokens|
    ensures r == SubsidiaryAt(s, ms, t)
  {
    var tok := s.tokens[t];
    r := [];
    if AnyTrigger(s.lowered, SUBSIDIARY_TRIGGERS) && tok.base in SUBSIDIARY_NOUNS {
      var parents := Through(s, ms, tok.children, "prep", Some("of"));
      var head := MentionAt(ms, s.tokens[tok.head].idx);
      var children := if head.Some? then [head.value] else [];
      var named := ArgMentions(s, ms, tok.head, {"nsubj", "appos"});
      r := r + Relate(Pairs(children + named, parents, ORGANIZATION, ORGANIZATION), SUBSIDIARY_OF, 0.75, s.text);
    }
    if AnyTrigger(s.lowered, SUBSIDIARY_TRIGGERS) && tok.base in OWN_LEMMAS {
      var owned := ArgMentions(s, ms, t, {"nsubjpass"});
      var owners := AgentMentions(s, ms, t);
      r := r + Relate(Pairs(owned, owners, ORGANIZATION, ORGANIZATION), SUBSIDIARY_OF, 0.75, s.text);
    }
  }

  /** The founding verbs. */
  method FoundersOf(s: Sentence, ms: seq<Mention>, t: nat) returns (r: seq<Relation>)
    requires WellFormed(s) && t < |s.tokens|
    ensures r == FoundedAt(s, ms, t)
  {
    var founded, cofounder := AnyTrigger(s.lowered, FOUNDED_TRIGGERS), AnyTrigger(s.lowered, COFOUNDER_TRIGGERS);
    r := [];
    if (founded || cofounder) && s.tokens[t].base in FOUNDED_LEMMAS {
      var founders := Founders(s, ms, t);
      var objects := ArgMentions(s, ms, t, {"dobj", "attr", "oprd"});
      var pairs := Pairs(founders, objects, PERSON, ORGANIZATION);
      assert pairs == FoundedPairs(s, ms, t);
      r := if founded then Relate(pairs, FOUNDED, 0.85, s.text) else [];
      var people := OfType(founders, PERSON);
      r := r + if cofounder && |people| > 1 then Relate(PersonPairs(people), CO_FOUNDED_WITH, 0.8, s.text) else [];
    }
  }

  /** The acquisition verbs, active and passive. */
  method AcquisitionsOf(s: Sentence, ms: seq<Mention>, t: nat) returns (r: seq<Relation>)
    requires WellFormed(s) && t < |s.tokens|
    ensures r == AcquiredAt(s, ms, t)
  {
    r := [];
    if AnyTrigger(s.lowered, ACQUIRED_TRIGGERS) && s.tokens[t].base in ACQUIRED_LEMMAS {
      var buyers := ArgMentions(s, ms, t, {"nsubj"});
      var targets := ArgMentions(s, ms, t, {"dobj"});
      var active := Swap(Pairs(buyers, targets, ORGANIZATION, ORGANIZATION));
      var passiveTargets := ArgMentions(s, ms, t, {"nsubjpass"});
      var passive := Swap(Pairs(AgentMentions(s, ms, t), passiveTargets, ORGANIZATION, ORGANIZATION));
      r := Relate(active + passive, ACQUIRED, 0.8, s.text);
    }
  }

  method RelationsOf(s: Sentence, ms: seq<Mention>, t: nat) returns (r: seq<Relation>)
    requires WellFormed(s) && t < |s.tokens|
    ensures r == RelationsAt(s, ms, t)
  {
    var founded := FoundersOf(s, ms, t);
    var acquired := AcquisitionsOf(s, ms, t);
    var subsidiaries := SubsidiariesOf(s, ms, t);
    r := founded + acquired + subsidiaries;
  }

  method DeriveAll(s: Sentence, ms: seq<Mention>) returns (r: seq<Relation>)
    requires WellFormed(s)
    ensures r == Derived(s, ms, |s.tokens|)
  {
    r := [];
    for t := 0 to |s.tokens|
      invariant r == Derived(s, ms, t)
    {
      var found := RelationsOf(s, ms, t);
      r := r + found;
    }
  }

  method RelationsInSentence(s: Sentence, ms: seq<Mention>) returns (r: seq<Relation>)
    requires WellFormed(s)
    ensures r == SentenceRelations(s, ms)
  {
    var here := MentionsIn(ms, s);
    if here == [] { return []; }
    if !AnyTriggerAtAll(s) { return []; }
    var derived := DeriveAll(s, here);
    r := derived + Fallbacks(s, here, derived);
  }

  method ExtractRelations(doc: seq<Sentence>, ms: seq<Mention>) returns (deduped: seq<Relation>)
    requires forall i | 0 <= i < |doc| :: WellFormed(doc[i])
    ensures deduped == FirstOfEach(Candidates(doc, ms))
  {
    var candidates: seq<Relation> := [];
    for i := 0 to |doc|
      invariant candidates == Candidates(doc[..i], ms)
    {
      assert doc[..i + 1][..i] == doc[..i];
      var found := RelationsInSentence(doc[i], ms);
      candidates := candidates + found;
    }
    assert doc[..|doc|] == doc;
    deduped := Deduplicate(candidates);
  }

  // ---------------------------------------------------------------- duplicates

  type TripleKey = (int, int, Kind, int, int)

  function Key(c: Relation): TripleKey {
    (c.from.spanStart, c.from.spanEnd, c.kind, c.to.spanStart, c.to.spanEnd)
  }

  /** Position of the first candidate with this key, the length if there is none. */
  function FirstIndex(cs: seq<Relation>, key: TripleKey): (n: nat)
    ensures n <= |cs| && (forall i | 0 <= i < n :: Key(cs[i]) != key) && (n < |cs| ==> Key(cs[n]) == key)
  {
    if cs == [] || Key(cs[0]) == key then 0 else 1 + FirstIndex(cs[1..], key)
  }

  function FirstOfEach(cs: seq<Relation>): seq<Relation> {
    if cs == [] then []
    else
      var before, last := cs[..|cs| - 1], cs[|cs| - 1];
      FirstOfEach(before) + if FirstIndex(before, Key(last)) < |before| then [] else [last]
  }

  lemma FirstIndexSnoc(cs: seq<Relation>, c: Relation, key: TripleKey)
    ensures FirstIndex(cs + [c], key) ==
      if FirstIndex(cs, key) < |cs| then FirstIndex(cs, key) else if Key(c) == key then |cs| else |cs| + 1
  {
    var n, m := FirstIndex(cs, key), FirstIndex(cs + [c], key);
    assert m < |cs| ==> (cs + [c])[m] == cs[m];
    assert n < |cs| ==> (cs + [c])[n] == cs[n];
    assert (cs + [c])[|cs|] == c;
  }

  /** `seen` holds the keys of the candidates. */
  ghost predicate AreKeys(cs: seq<Relation>, seen: set<TripleKey>) {
    forall key :: key in seen <==> FirstIndex(cs, key) < |cs|
  }

  lemma KeysSnoc(cs: seq<Relation>, c: Relation, seen: set<TripleKey>)
    requires AreKeys(cs, seen)
    ensures AreKeys(cs + [c], seen + {Key(c)}) && (Key(c) in seen ==> seen + {Key(c)} == seen)
  {
    forall key ensures FirstIndex(cs + [c], key) < |cs| + 1 <==> FirstIndex(cs, key) < |cs| || Key(c) == key {
      FirstIndexSnoc(cs, c, key);
    }
  }

  method Deduplicate(cs: seq<Relation>) returns (deduped: seq<Relation>)
    ensures deduped == FirstOfEach(cs)
  {
    var seen: set<TripleKey> := {};
    deduped := [];
    for i := 0 to |cs|
      invariant deduped == FirstOfEach(cs[..i])
      invariant AreKeys(cs[..i], seen)
    {
      assert cs[..i + 1][..i] == cs[..i] && cs[..i + 1] == cs[..i] + [cs[i]];
      KeysSnoc(cs[..i], cs[i], seen);
      if Key(cs[i]) in seen {
        continue;
      }
      seen := seen + {Key(cs[i])};
      deduped := deduped + [cs[i]];
    }
    assert cs[..|cs|] == cs;
  }

  /** `r` is the first candidate of its key. */
  ghost predicate IsFirst(cs: seq<Relation>, r: Relation) {
    FirstIndex(cs, Key(r)) < |cs| && cs[FirstIndex(cs, Key(r))] == r
  }

  ghost predicate Represented(kept: seq<Relation>, key: TripleKey) {
    exists i :: 0 <= i < |kept| && Key(kept[i]) == key
  }

  lemma FirstStays(cs: seq<Relation>, c: Relation, r: Relation)
    requires IsFirst(cs, r)
    ensures IsFirst(cs + [c], r) && FirstIndex(cs + [c], Key(r)) == FirstIndex(cs, Key(r))
  {
    FirstIndexSnoc(cs, c, Key(r));
  }

  lemma RepresentedStays(kept: seq<Relation>, more: seq<Relation>, key: TripleKey)
    requires Represented(kept, key)
    ensures Represented(kept + more, key)
  {
    var i :| 0 <= i < |kept| && Key(kept[i]) == key;
    assert (kept + more)[i] == kept[i];
  }

  /** What is kept is, in the candidates' order, the first candidate of every key. */
  lemma {:induction false} DeduplicationIs(cs: seq<Relation>)
    ensures var kept := FirstOfEach(cs);
      && (forall i | 0 <= i < |kept| :: IsFirst(cs, kept[i]))
      && (forall i, j | 0 <= i < j < |kept| :: FirstIndex(cs, Key(kept[i])) < FirstIndex(cs, Key(kept[j])))
      && (forall key | FirstIndex(cs, key) < |cs| :: Represented(kept, key))
  {
    if cs != [] {
      var n := |cs| - 1;
      var before, last := cs[..n], cs[n];
      var kept, kept0 := FirstOfEach(cs), FirstOfEach(before);
      DeduplicationIs(before);
      assert cs == before + [last];
      forall i | 0 <= i < |kept0|
        ensures IsFirst(cs, kept[i]) && kept[i] == kept0[i]
        ensures FirstIndex(cs, Key(kept[i])) == FirstIndex(before, Key(kept0[i])) < n
      {
        FirstStays(before, last, kept0[i]);
      }
      FirstIndexSnoc(before, last, Key(last));
      if |kept| > |kept0| { assert kept[|kept0|] == last; }
      forall key | FirstIndex(cs, key) < |cs| ensures Represented(kept, key) {
        FirstIndexSnoc(before, last, key);
        if FirstIndex(before, key) < n { RepresentedStays(kept0, kept[|kept0|..], key); }
      }
    }
  }

  // ---------------------------------------------------------------- typing

  lemma FallbacksSound(s: Sentence, ms: seq<Mention>, derived: seq<Relation>)
    ensures Sound(Fallbacks(s, ms, derived), ms, s.text)
  {
    var people, orgs := OfType(ms, PERSON), OfType(ms, ORGANIZATION);
    assert people != [] ==> people[0] in people;
    assert |orgs| >= 1 ==> orgs[0] in orgs;
    assert |orgs| >= 2 ==> orgs[1] in orgs;
  }

  /** Both ends of `r` are mentions inside one sentence, which is its evidence. */
  ghost predicate FromOneSentence(r: Relation, doc: seq<Sentence>, ms: seq<Mention>) {
    exists i | 0 <= i < |doc| :: doc[i].text == r.evidence && Spans(r, doc[i]) && r.from in ms && r.to in ms
  }

  predicate Spans(r: Relation, s: Sentence) {
    InSpan(r.from, s) && InSpan(r.to, s)
  }

  lemma {:induction false} CandidatesTyped(doc: seq<Sentence>, ms: seq<Mention>, r: Relation)
    requires (forall i | 0 <= i < |doc| :: WellFormed(doc[i])) && r in Candidates(doc, ms)
    ensures Typed(r) && FromOneSentence(r, doc, ms)
  {
    var n := |doc| - 1;
    var s := doc[n];
    if r in Candidates(doc[..n], ms) {
      CandidatesTyped(doc[..n], ms, r);
      var i :| 0 <= i < n && doc[..n][i].text == r.evidence && Spans(r, doc[..n][i]) && r.from in ms && r.to in ms;
      assert doc[i] == doc[..n][i];
    } else {
      var here := MentionsIn(ms, s);
      FallbacksSound(s, here, Derived(s, here, |s.tokens|));
      assert Spans(r, doc[n]);
    }
  }

  /** Every relation returned has the endpoint types of its kind and both ends in the sentence that is its evidence. */
  lemma ExtractedTyped(doc: seq<Sentence>, ms: seq<Mention>, r: Relation)
    requires (forall i | 0 <= i < |doc| :: WellFormed(doc[i])) && r in FirstOfEach(Candidates(doc, ms))
    ensures Typed(r) && FromOneSentence(r, doc, ms)
  {
    var cs := Candidates(doc, ms);
    DeduplicationIs(cs);
    assert IsFirst(cs, r);
    CandidatesTyped(doc, ms, r);
  }

  // ---------------------------------------------------------------- what the patterns mean

  /** The token `c`, or one coordinated with it, brings the mention. */
  ghost predicate Brings(s: Sentence, ms: seq<Mention>, c: nat, m: Mention)
    requires WellFormed(s) && c < |s.tokens|
  {
    var ts := [c] + s.tokens[c].conjuncts;
    exists k | 0 <= k < |ts| :: MentionOf(s, ms, ts[k]) == Some(m)
  }

  /** Some token among `cs` that hangs on through one of `deps` brings the mention. */
  ghost predicate IsAttached(s: Sentence, ms: seq<Mention>, cs: seq<nat>, deps: set<string>, m: Mention)
    requires WellFormed(s) && Inside(s, cs)
  {
    exists k | 0 <= k < |cs| :: s.tokens[cs[k]].dep in deps && Brings(s, ms, cs[k], m)
  }

  ghost predicate IsArg(s: Sentence, ms: seq<Mention>, t: nat, deps: set<string>, m: Mention)
    requires WellFormed(s) && t < |s.tokens|
  {
    IsAttached(s, ms, s.tokens[t].children, deps, m)
  }

  predicate Links(tok: Token, dep: string, base: Option<string>) {
    tok.dep == dep && (base.None? || tok.base == base.value)
  }

  /** The mention is the object of a preposition or agent below the token `t`. */
  ghost predicate IsBelow(s: Sentence, ms: seq<Mention>, cs: seq<nat>, dep: string, base: Option<string>, m: Mention)
    requires WellFormed(s) && Inside(s, cs)
  {
    exists k | 0 <= k < |cs| :: Links(s.tokens[cs[k]], dep, base) && IsArg(s, ms, cs[k], {"pobj"}, m)
  }

  lemma {:induction false} IncludeAllIff(s: Sentence, ms: seq<Mention>, out: seq<Mention>, ts: seq<nat>, m: Mention)
    requires WellFormed(s) && Inside(s, ts)
    ensures m in IncludeAll(s, ms, out, ts) <==>
            m in out || exists k | 0 <= k < |ts| :: MentionOf(s, ms, ts[k]) == Some(m)
  {
    if ts != [] {
      var front := ts[..|ts| - 1];
      IncludeAllIff(s, ms, out, front, m);
      if k :| 0 <= k < |front| && MentionOf(s, ms, front[k]) == Some(m) { assert ts[k] == front[k]; }
      if k :| 0 <= k < |ts| && MentionOf(s, ms, ts[k]) == Some(m) { assert k < |front| ==> front[k] == ts[k]; }
    }
  }

  lemma {:induction false} AttachedIff(s: Sentence, ms: seq<Mention>, cs: seq<nat>, deps: set<string>, m: Mention)
    requires WellFormed(s) && Inside(s, cs)
    ensures m in Attached(s, ms, cs, deps) <==> IsAttached(s, ms, cs, deps, m)
  {
    if cs != [] {
      var front, c := cs[..|cs| - 1], cs[|cs| - 1];
      AttachedIff(s, ms, front, deps, m);
      AttachedSnoc(s, ms, front, c, deps, m);
      assert cs == front + [c];
      IncludeAllIff(s, ms, Attached(s, ms, front, deps), [c] + s.tokens[c].conjuncts, m);
    }
  }

  lemma AttachedSnoc(s: Sentence, ms: seq<Mention>, front: seq<nat>, c: nat, deps: set<string>, m: Mention)
    requires WellFormed(s) && Inside(s, front) && c < |s.tokens|
    ensures Inside(s, front + [c])
    ensures IsAttached(s, ms, front + [c], deps, m) <==>
            IsAttached(s, ms, front, deps, m) || (s.tokens[c].dep in deps && Brings(s, ms, c, m))
  {
    var cs := front + [c];
    if IsAttached(s, ms, front, deps, m) {
      var k :| 0 <= k < |front| && s.tokens[front[k]].dep in deps && Brings(s, ms, front[k], m);
      assert cs[k] == front[k];
    }
    if s.tokens[c].dep in deps && Brings(s, ms, c, m) { assert cs[|front|] == c; }
  }

  /** The mentions the loops collect are exactly those an attached token or one coordinated with it brings. */
  lemma ArgsIff(s: Sentence, ms: seq<Mention>, t: nat, deps: set<string>, m: Mention)
    requires WellFormed(s) && t < |s.tokens|
    ensures m in Args(s, ms, t, deps) <==> IsArg(s, ms, t, deps, m)
  {
    AttachedIff(s, ms, s.tokens[t].children, deps, m);
  }

  lemma BelowSnoc(s: Sentence, ms: seq<Mention>, front: seq<nat>, c: nat, dep: string, base: Option<string>, m: Mention)
    requires WellFormed(s) && Inside(s, front) && c < |s.tokens|
    ensures Inside(s, front + [c])
    ensures IsBelow(s, ms, front + [c], dep, base, m) <==>
            IsBelow(s, ms, front, dep, base, m) || (Links(s.tokens[c], dep, base) && IsArg(s, ms, c, {"pobj"}, m))
  {
    var cs := front + [c];
    if IsBelow(s, ms, front, dep, base, m) {
      var k :| 0 <= k < |front| && Links(s.tokens[front[k]], dep, base) && IsArg(s, ms, front[k], {"pobj"}, m);
      assert cs[k] == front[k];
    }
    if Links(s.tokens[c], dep, base) && IsArg(s, ms, c, {"pobj"}, m) { assert cs[|front|] == c; }
  }

  lemma {:induction false} ThroughIff(s: Sentence, ms: seq<Mention>, cs: seq<nat>, dep: string, base: Option<string>,
                                      m: Mention)
    requires WellFormed(s) && Inside(s, cs)
    ensures m in Through(s, ms, cs, dep, base) <==> IsBelow(s, ms, cs, dep, base, m)
  {
    if cs != [] {
      var front, c := cs[..|cs| - 1], cs[|cs| - 1];
      ThroughIff(s, ms, front, dep, base, m);
      BelowSnoc(s, ms, front, c, dep, base, m);
      ArgsIff(s, ms, c, {"pobj"}, m);
      assert cs == front + [c];
    }
  }

  predicate MayPair(a: Mention, b: Mention, wantFrom: string, wantTo: string) {
    a.nerType == wantFrom && b.nerType == wantTo && a != b
  }

  lemma {:induction false} PairsWithIff(a: Mention, targets: seq<Mention>, wantTo: string, b: Mention)
    ensures (a, b) in PairsWith(a, targets, wantTo) <==> b in targets && b.nerType == wantTo && a != b
  {
    if targets != [] {
      PairsWithIff(a, targets[1..], wantTo, b);
      assert targets == [targets[0]] + targets[1..];
    }
  }

  /** `_pairs` yields every pair of the right types but a mention with itself. */
  lemma {:induction false} PairsIff(sources: seq<Mention>, targets: seq<Mention>, wantFrom: string, wantTo: string,
                                    a: Mention, b: Mention)
    ensures (a, b) in Pairs(sources, targets, wantFrom, wantTo) <==>
            a in sources && b in targets && MayPair(a, b, wantFrom, wantTo)
  {
    if sources != [] {
      PairsIff(sources[1..], targets, wantFrom, wantTo, a, b);
      PairsWithIff(sources[0], targets, wantTo, b);
      assert sources == [sources[0]] + sources[1..];
    }
  }

  lemma {:induction false} SwapIff(pairs: seq<(Mention, Mention)>, a: Mention, b: Mention)
    ensures (a, b) in Swap(pairs) <==> (b, a) in pairs
  {
    if pairs != [] {
      SwapIff(pairs[1..], a, b);
      assert pairs == [pairs[0]] + pairs[1..];
    }
  }

  lemma {:induction false} RelateIff(pairs: seq<(Mention, Mention)>, kind: Kind, confidence: real, evidence: string,
                                     r: Relation)
    ensures r in Relate(pairs, kind, confidence, evidence) <==>
            (r.from, r.to) in pairs && r.kind == kind && r.confidence == confidence && r.evidence == evidence
  {
    if pairs != [] {
      RelateIff(pairs[1..], kind, confidence, evidence, r);
      assert pairs == [pairs[0]] + pairs[1..];
    }
  }

  /**
   The (target, buyer) pairs at a verb: its object and subject in the active voice, its
   passive subject and agent in the passive, two different organizations in either.
   */
  lemma AcquiredPairsIff(s: Sentence, ms: seq<Mention>, t: nat, target: Mention, buyer: Mention)
    requires WellFormed(s) && t < |s.tokens|
    ensures (target, buyer) in AcquiredPairs(s, ms, t) <==>
      && MayPair(buyer, target, ORGANIZATION, ORGANIZATION)
      && ((IsArg(s, ms, t, {"nsubj"}, buyer) && IsArg(s, ms, t, {"dobj"}, target))
          || (IsBelow(s, ms, s.tokens[t].children, "agent", None, buyer) && IsArg(s, ms, t, {"nsubjpass"}, target)))
  {
    var active := Pairs(Args(s, ms, t, {"nsubj"}), Args(s, ms, t, {"dobj"}), ORGANIZATION, ORGANIZATION);
    var passive := Pairs(AgentMentions(s, ms, t), Args(s, ms, t, {"nsubjpass"}), ORGANIZATION, ORGANIZATION);
    SwapIff(active, target, buyer);
    SwapIff(passive, target, buyer);
    PairsIff(Args(s, ms, t, {"nsubj"}), Args(s, ms, t, {"dobj"}), ORGANIZATION, ORGANIZATION, buyer, target);
    PairsIff(AgentMentions(s, ms, t), Args(s, ms, t, {"nsubjpass"}), ORGANIZATION, ORGANIZATION, buyer, target);
    ArgsIff(s, ms, t, {"nsubj"}, buyer);
    ArgsIff(s, ms, t, {"dobj"}, target);
    ArgsIff(s, ms, t, {"nsubjpass"}, target);
    ThroughIff(s, ms, s.tokens[t].children, "agent", None, buyer);
  }

  /** The ACQUIRED relations at a token are exactly those pairs, at an acquisition verb of a sentence with a trigger. */
  lemma AcquiredIff(s: Sentence, ms: seq<Mention>, t: nat, r: Relation)
    requires WellFormed(s) && t < |s.tokens|
    ensures r in AcquiredAt(s, ms, t) <==>
      && AnyTrigger(s.lowered, ACQUIRED_TRIGGERS) && s.tokens[t].base in ACQUIRED_LEMMAS
      && r == Relation(r.from, r.to, ACQUIRED, 0.8, s.text) && (r.from, r.to) in AcquiredPairs(s, ms, t)
  {
    RelateIff(AcquiredPairs(s, ms, t), ACQUIRED, 0.8, s.text, r);
  }

  /** A subsidiary of the noun pattern: the token's head or what is attached to it, below the preposition's object. */
  ghost predicate IsSubsidiary(s: Sentence, ms: seq<Mention>, t: nat, child: Mention, parent: Mention)
    requires WellFormed(s) && t < |s.tokens|
  {
    var tok := s.tokens[t];
    && tok.base in SUBSIDIARY_NOUNS
    && (MentionAt(ms, s.tokens[tok.head].idx) == Some(child) || IsArg(s, ms, tok.head, {"nsubj", "appos"}, child))
    && IsBelow(s, ms, tok.children, "prep", Some("of"), parent)
  }

  ghost predicate IsOwned(s: Sentence, ms: seq<Mention>, t: nat, child: Mention, parent: Mention)
    requires WellFormed(s) && t < |s.tokens|
  {
    && s.tokens[t].base in OWN_LEMMAS && IsArg(s, ms, t, {"nsubjpass"}, child)
    && IsBelow(s, ms, s.tokens[t].children, "agent", None, parent)
  }

  /** The SUBSIDIARY_OF relations at a token come from one of the two patterns, between two different organizations. */
  lemma SubsidiaryIff(s: Sentence, ms: seq<Mention>, t: nat, r: Relation)
    requires WellFormed(s) && t < |s.tokens|
    ensures r in SubsidiaryAt(s, ms, t) <==>
      && AnyTrigger(s.lowered, SUBSIDIARY_TRIGGERS) && r == Relation(r.from, r.to, SUBSIDIARY_OF, 0.75, s.text)
      && MayPair(r.from, r.to, ORGANIZATION, ORGANIZATION)
      && (IsSubsidiary(s, ms, t, r.from, r.to) || IsOwned(s, ms, t, r.from, r.to))
  {
    var tok := s.tokens[t];
    var parents := Through(s, ms, tok.children, "prep", Some("of"));
    var head := MentionAt(ms, s.tokens[tok.head].idx);
    var children := (if head.Some? then [head.value] else []) + Args(s, ms, tok.head, {"nsubj", "appos"});
    PatternIff(children, parents, s.text, r);
    ArgsIff(s, ms, tok.head, {"nsubj", "appos"}, r.from);
    ThroughIff(s, ms, tok.children, "prep", Some("of"), r.to);
    var owned, owners := Args(s, ms, t, {"nsubjpass"}), AgentMentions(s, ms, t);
    PatternIff(owned, owners, s.text, r);
    ArgsIff(s, ms, t, {"nsubjpass"}, r.from);
    ThroughIff(s, ms, tok.children, "agent", None, r.to);
  }

  lemma PatternIff(children: seq<Mention>, parents: seq<Mention>, text: string, r: Relation)
    ensures r in Relate(Pairs(children, parents, ORGANIZATION, ORGANIZATION), SUBSIDIARY_OF, 0.75, text) <==>
      && r == Relation(r.from, r.to, SUBSIDIARY_OF, 0.75, text)
      && r.from in children && r.to in parents && MayPair(r.from, r.to, ORGANIZATION, ORGANIZATION)
  {
    RelateIff(Pairs(children, parents, ORGANIZATION, ORGANIZATION), SUBSIDIARY_OF, 0.75, text, r);
    PairsIff(children, parents, ORGANIZATION, ORGANIZATION, r.from, r.to);
  }

  /** Two people, the one before the other. */
  ghost predicate InTurn(people: seq<Mention>, a: Mention, b: Mention) {
    exists i, j | 0 <= i < j < |people| :: people[i] == a && people[j] == b
  }

  lemma {:induction false} PairsAfterIff(a: Mention, people: seq<Mention>, b: Mention)
    ensures (a, b) in PairsAfter(a, people) <==> b in people
  {
    if people != [] {
      PairsAfterIff(a, people[1..], b);
      assert people == [people[0]] + people[1..];
    }
  }

  lemma InTurnCons(first: Mention, rest: seq<Mention>, a: Mention, b: Mention)
    ensures InTurn([first] + rest, a, b) <==> InTurn(rest, a, b) || (a == first && b in rest)
  {
    var people := [first] + rest;
    if InTurn(rest, a, b) {
      var i, j :| 0 <= i < j < |rest| && rest[i] == a && rest[j] == b;
      assert people[i + 1] == a && people[j + 1] == b;
    }
    if a == first && b in rest {
      var j :| 0 <= j < |rest| && rest[j] == b;
      assert people[0] == a && people[j + 1] == b;
    }
    if InTurn(people, a, b) {
      var i, j :| 0 <= i < j < |people| && people[i] == a && people[j] == b;
      assert rest[j - 1] == b;
      if i > 0 { assert rest[i - 1] == a; }
    }
  }

  lemma {:induction false} PersonPairsIff(people: seq<Mention>, a: Mention, b: Mention)
    ensures (a, b) in PersonPairs(people) <==> InTurn(people, a, b)
  {
    if people != [] {
      PersonPairsIff(people[1..], a, b);
      PairsAfterIff(people[0], people[1..], b);
      InTurnCons(people[0], people[1..], a, b);
      assert people == [people[0]] + people[1..];
    }
  }

  /** FOUNDED joins a person among the founders to an attached organization; CO_FOUNDED_WITH two founders in turn. */
  lemma FoundedIff(s: Sentence, ms: seq<Mention>, t: nat, r: Relation)
    requires WellFormed(s) && t < |s.tokens|
    ensures r in FoundedAt(s, ms, t) <==>
      && s.tokens[t].base in FOUNDED_LEMMAS
      && ((&& AnyTrigger(s.lowered, FOUNDED_TRIGGERS) && r == Relation(r.from, r.to, FOUNDED, 0.85, s.text)
           && r.from in Founders(s, ms, t) && IsArg(s, ms, t, {"dobj", "attr", "oprd"}, r.to)
           && MayPair(r.from, r.to, PERSON, ORGANIZATION))
          || (&& AnyTrigger(s.lowered, COFOUNDER_TRIGGERS) && r == Relation(r.from, r.to, CO_FOUNDED_WITH, 0.8, s.text)
              && InTurn(OfType(Founders(s, ms, t), PERSON), r.from, r.to)))
  {
    var people := OfType(Founders(s, ms, t), PERSON);
    RelateIff(FoundedPairs(s, ms, t), FOUNDED, 0.85, s.text, r);
    PairsIff(Founders(s, ms, t), Args(s, ms, t, {"dobj", "attr", "oprd"}), PERSON, ORGANIZATION, r.from, r.to);
    ArgsIff(s, ms, t, {"dobj", "attr", "oprd"}, r.to);
    RelateIff(PersonPairs(people), CO_FOUNDED_WITH, 0.8, s.text, r);
    PersonPairsIff(people, r.from, r.to);
  }
}
