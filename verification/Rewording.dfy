/** One parse in other words: other offsets, another order of the mentions, other triggers. */
module Rewording {
  import opened Prelude
  import opened Relations
  import opened SentenceEnds

  // ---------------------------------------------------------------- renaming mentions

  function Renamed(f: Mention -> Mention, ms: seq<Mention>): (r: seq<Mention>)
    ensures |r| == |ms| && forall i | 0 <= i < |ms| :: r[i] == f(ms[i])
  {
    seq(|ms|, i requires 0 <= i < |ms| => f(ms[i]))
  }

  function RenamedOption(f: Mention -> Mention, m: Option<Mention>): Option<Mention> {
    if m.Some? then Some(f(m.value)) else None
  }

  function RenamedPairs(f: Mention -> Mention, pairs: seq<(Mention, Mention)>): (r: seq<(Mention, Mention)>)
    ensures |r| == |pairs| && forall i | 0 <= i < |pairs| :: r[i] == (f(pairs[i].0), f(pairs[i].1))
  {
    seq(|pairs|, i requires 0 <= i < |pairs| => (f(pairs[i].0), f(pairs[i].1)))
  }

  /** The pairs of the renamed mentions. */
  ghost function Image(f: Mention -> Mention, pairs: set<(Mention, Mention)>): set<(Mention, Mention)> {
    set x | x in pairs :: (f(x.0), f(x.1))
  }

  /** No two mentions get the same name, and none changes its type. */
  ghost predicate Faithful(f: Mention -> Mention, ms: seq<Mention>) {
    && (forall a, b | a in ms && b in ms && f(a) == f(b) :: a == b)
    && (forall a | a in ms :: f(a).nerType == a.nerType)
  }

  lemma RenamedSnoc(f: Mention -> Mention, ms: seq<Mention>, m: Mention)
    ensures Renamed(f, ms + [m]) == Renamed(f, ms) + [f(m)]
  {
  }

  lemma RenamedCons(f: Mention -> Mention, m: Mention, ms: seq<Mention>)
    ensures Renamed(f, [m] + ms) == [f(m)] + Renamed(f, ms)
  {
  }

  lemma RenamedTail(f: Mention -> Mention, ms: seq<Mention>)
    requires ms != []
    ensures Renamed(f, ms)[0] == f(ms[0]) && Renamed(f, ms)[1..] == Renamed(f, ms[1..])
  {
  }

  lemma RenamedConcat(f: Mention -> Mention, a: seq<Mention>, b: seq<Mention>)
    ensures Renamed(f, a + b) == Renamed(f, a) + Renamed(f, b)
  {
  }

  lemma RenamedPairsConcat(f: Mention -> Mention, a: seq<(Mention, Mention)>, b: seq<(Mention, Mention)>)
    ensures RenamedPairs(f, a + b) == RenamedPairs(f, a) + RenamedPairs(f, b)
  {
  }

  lemma MemberRenamed(f: Mention -> Mention, ms: seq<Mention>, out: seq<Mention>, m: Mention)
    requires Faithful(f, ms) && Among(out, ms) && m in ms
    ensures f(m) in Renamed(f, out) <==> m in out
  {
    if m in out {
      var i :| 0 <= i < |out| && out[i] == m;
      assert Renamed(f, out)[i] == f(m);
    }
    if f(m) in Renamed(f, out) {
      var i :| 0 <= i < |out| && Renamed(f, out)[i] == f(m);
      assert out[i] in out;
    }
  }

  lemma MembersRenamed(f: Mention -> Mention, pairs: seq<(Mention, Mention)>)
    ensures Members(RenamedPairs(f, pairs)) == Image(f, Members(pairs))
  {
    forall x | x in Image(f, Members(pairs)) ensures x in RenamedPairs(f, pairs) {
      var y :| y in pairs && x == (f(y.0), f(y.1));
      var i :| 0 <= i < |pairs| && pairs[i] == y;
      assert RenamedPairs(f, pairs)[i] == x;
    }
    forall x | x in RenamedPairs(f, pairs) ensures x in Image(f, Members(pairs)) {
      var i :| 0 <= i < |pairs| && RenamedPairs(f, pairs)[i] == x;
      assert pairs[i] in Members(pairs);
    }
  }

  // ---------------------------------------------------------------- pairs of renamed mentions

  lemma {:induction false} OfTypeRenamed(f: Mention -> Mention, ms: seq<Mention>, out: seq<Mention>, nerType: string)
    requires Faithful(f, ms) && Among(out, ms)
    ensures OfType(Renamed(f, out), nerType) == Renamed(f, OfType(out, nerType))
  {
    if out != [] {
      assert out[0] in out && out == [out[0]] + out[1..];
      OfTypeRenamed(f, ms, out[1..], nerType);
      RenamedTail(f, out);
      RenamedCons(f, out[0], OfType(out[1..], nerType));
    }
  }

  lemma {:induction false} PairsWithRenamed(f: Mention -> Mention, ms: seq<Mention>, a: Mention, bs: seq<Mention>,
                                            wantTo: string)
    requires Faithful(f, ms) && Among(bs, ms) && a in ms
    ensures PairsWith(f(a), Renamed(f, bs), wantTo) == RenamedPairs(f, PairsWith(a, bs, wantTo))
  {
    if bs != [] {
      assert bs[0] in bs && bs == [bs[0]] + bs[1..];
      PairsWithRenamed(f, ms, a, bs[1..], wantTo);
      RenamedTail(f, bs);
      RenamedPairsConcat(f, [(a, bs[0])], PairsWith(a, bs[1..], wantTo));
      assert RenamedPairs(f, [(a, bs[0])]) == [(f(a), f(bs[0]))];
    }
  }

  lemma {:induction false} PairsRenamed(f: Mention -> Mention, ms: seq<Mention>, xs: seq<Mention>, bs: seq<Mention>,
                                        wantFrom: string, wantTo: string)
    requires Faithful(f, ms) && Among(xs, ms) && Among(bs, ms)
    ensures Pairs(Renamed(f, xs), Renamed(f, bs), wantFrom, wantTo) ==
            RenamedPairs(f, Pairs(xs, bs, wantFrom, wantTo))
  {
    if xs != [] {
      assert xs[0] in xs && xs == [xs[0]] + xs[1..];
      PairsRenamed(f, ms, xs[1..], bs, wantFrom, wantTo);
      PairsWithRenamed(f, ms, xs[0], bs, wantTo);
      RenamedTail(f, xs);
      RenamedPairsConcat(f, PairsWith(xs[0], bs, wantTo), Pairs(xs[1..], bs, wantFrom, wantTo));
    }
  }

  lemma {:induction false} SwapRenamed(f: Mention -> Mention, pairs: seq<(Mention, Mention)>)
    ensures Swap(RenamedPairs(f, pairs)) == RenamedPairs(f, Swap(pairs))
  {
    if pairs != [] {
      SwapRenamed(f, pairs[1..]);
      assert RenamedPairs(f, pairs)[1..] == RenamedPairs(f, pairs[1..]);
      RenamedPairsConcat(f, [(pairs[0].1, pairs[0].0)], Swap(pairs[1..]));
      assert RenamedPairs(f, [(pairs[0].1, pairs[0].0)]) == [(f(pairs[0].1), f(pairs[0].0))];
    }
  }

  lemma {:induction false} PairsAfterRenamed(f: Mention -> Mention, a: Mention, people: seq<Mention>)
    ensures PairsAfter(f(a), Renamed(f, people)) == RenamedPairs(f, PairsAfter(a, people))
  {
    if people != [] {
      PairsAfterRenamed(f, a, people[1..]);
      RenamedTail(f, people);
      RenamedPairsConcat(f, [(a, people[0])], PairsAfter(a, people[1..]));
      assert RenamedPairs(f, [(a, people[0])]) == [(f(a), f(people[0]))];
    }
  }

  lemma {:induction false} PersonPairsRenamed(f: Mention -> Mention, people: seq<Mention>)
    ensures PersonPairs(Renamed(f, people)) == RenamedPairs(f, PersonPairs(people))
  {
    if people != [] {
      PersonPairsRenamed(f, people[1..]);
      PairsAfterRenamed(f, people[0], people[1..]);
      RenamedTail(f, people);
      RenamedPairsConcat(f, PairsAfter(people[0], people[1..]), PersonPairs(people[1..]));
    }
  }

  // ---------------------------------------------------------------- sentences in other words

  /** The token stands where it stood, and what stands at its offset is what stood at its old one. */
  ghost predicate SameToken(p: Sentence, ms: seq<Mention>, q: Sentence, qs: seq<Mention>, f: Mention -> Mention, t: nat)
    requires t < |p.tokens| && t < |q.tokens|
  {
    && q.tokens[t] == p.tokens[t].(idx := q.tokens[t].idx)
    && MentionAt(qs, q.tokens[t].idx) == RenamedOption(f, MentionAt(ms, p.tokens[t].idx))
  }

  /**
   `q` is parsed as `p` is and names what `p` names. Its words, hence its triggers, its
   offsets and the order of its mentions are its own.
   */
  ghost predicate Reworded(p: Sentence, ms: seq<Mention>, q: Sentence, qs: seq<Mention>, f: Mention -> Mention) {
    && WellFormed(p) && |q.tokens| == |p.tokens|
    && (forall t | 0 <= t < |p.tokens| :: SameToken(p, ms, q, qs, f, t))
    && Faithful(f, ms) && multiset(qs) == multiset(Renamed(f, ms))
  }

  lemma RewordedWellFormed(p: Sentence, ms: seq<Mention>, q: Sentence, qs: seq<Mention>, f: Mention -> Mention)
    requires Reworded(p, ms, q, qs, f)
    ensures WellFormed(q)
  {
    forall t | 0 <= t < |q.tokens|
      ensures q.tokens[t].head < |q.tokens| && Inside(q, q.tokens[t].children) && Inside(q, q.tokens[t].conjuncts)
    {
      assert SameToken(p, ms, q, qs, f, t);
    }
  }

  lemma MentionReworded(p: Sentence, ms: seq<Mention>, q: Sentence, qs: seq<Mention>, f: Mention -> Mention, t: nat)
    requires Reworded(p, ms, q, qs, f) && WellFormed(q) && t < |p.tokens|
    ensures MentionOf(q, qs, t) == RenamedOption(f, MentionOf(p, ms, t))
  {
    assert SameToken(p, ms, q, qs, f, t) && SameToken(p, ms, q, qs, f, p.tokens[t].head);
  }

  lemma IncludeRenamed(f: Mention -> Mention, ms: seq<Mention>, out: seq<Mention>, m: Option<Mention>)
    requires Faithful(f, ms) && Among(out, ms) && (m.Some? ==> m.value in ms)
    ensures Include(Renamed(f, out), RenamedOption(f, m)) == Renamed(f, Include(out, m))
  {
    if m.Some? {
      MemberRenamed(f, ms, out, m.value);
      RenamedSnoc(f, out, m.value);
    }
  }

  lemma {:induction false} IncludeAllReworded(p: Sentence, ms: seq<Mention>, q: Sentence, qs: seq<Mention>,
                                              f: Mention -> Mention, out: seq<Mention>, ts: seq<nat>)
    requires Reworded(p, ms, q, qs, f) && WellFormed(q) && Inside(p, ts) && Inside(q, ts) && Among(out, ms)
    ensures IncludeAll(q, qs, Renamed(f, out), ts) == Renamed(f, IncludeAll(p, ms, out, ts))
  {
    if ts != [] {
      var front, t := ts[..|ts| - 1], ts[|ts| - 1];
      IncludeAllReworded(p, ms, q, qs, f, out, front);
      MentionReworded(p, ms, q, qs, f, t);
      IncludeRenamed(f, ms, IncludeAll(p, ms, out, front), MentionOf(p, ms, t));
    }
  }

  lemma {:induction false} AttachedReworded(p: Sentence, ms: seq<Mention>, q: Sentence, qs: seq<Mention>,
                                            f: Mention -> Mention, cs: seq<nat>, deps: set<string>)
    requires Reworded(p, ms, q, qs, f) && WellFormed(q) && Inside(p, cs) && Inside(q, cs)
    ensures Attached(q, qs, cs, deps) == Renamed(f, Attached(p, ms, cs, deps))
  {
    if cs != [] {
      var front, c := cs[..|cs| - 1], cs[|cs| - 1];
      AttachedReworded(p, ms, q, qs, f, front, deps);
      assert SameToken(p, ms, q, qs, f, c);
      IncludeAllReworded(p, ms, q, qs, f, Attached(p, ms, front, deps), [c] + p.tokens[c].conjuncts);
    }
  }

  lemma ArgsReworded(p: Sentence, ms: seq<Mention>, q: Sentence, qs: seq<Mention>, f: Mention -> Mention, t: nat,
                     deps: set<string>)
    requires Reworded(p, ms, q, qs, f) && WellFormed(q) && t < |p.tokens|
    ensures Args(q, qs, t, deps) == Renamed(f, Args(p, ms, t, deps))
  {
    assert SameToken(p, ms, q, qs, f, t);
    AttachedReworded(p, ms, q, qs, f, p.tokens[t].children, deps);
  }

  lemma {:induction false} SubjectsReworded(p: Sentence, ms: seq<Mention>, q: Sentence, qs: seq<Mention>,
                                            f: Mention -> Mention, t: nat, depth: nat)
    requires Reworded(p, ms, q, qs, f) && WellFormed(q) && t < |p.tokens| && depth <= 3
    ensures VerbSubjects(q, qs, t, depth) == Renamed(f, VerbSubjects(p, ms, t, depth))
    decreases 3 - depth
  {
    ArgsReworded(p, ms, q, qs, f, t, {"nsubj", "nsubjpass"});
    var h := p.tokens[t].head;
    assert SameToken(p, ms, q, qs, f, t) && SameToken(p, ms, q, qs, f, h);
    if depth < 3 && p.tokens[t].dep == "conj" {
      SubjectsReworded(p, ms, q, qs, f, h, depth + 1);
    } else {
      IncludeRenamed(f, ms, [], MentionAt(ms, p.tokens[h].idx));
    }
  }

  lemma {:induction false} AgentsReworded(p: Sentence, ms: seq<Mention>, q: Sentence, qs: seq<Mention>,
                                          f: Mention -> Mention, cs: seq<nat>)
    requires Reworded(p, ms, q, qs, f) && WellFormed(q) && Inside(p, cs) && Inside(q, cs)
    ensures Through(q, qs, cs, "agent", None) == Renamed(f, Through(p, ms, cs, "agent", None))
  {
    if cs != [] {
      var front, c := cs[..|cs| - 1], cs[|cs| - 1];
      AgentsReworded(p, ms, q, qs, f, front);
      assert SameToken(p, ms, q, qs, f, c);
      ArgsReworded(p, ms, q, qs, f, c, {"pobj"});
      RenamedConcat(f, Through(p, ms, front, "agent", None), Args(p, ms, c, {"pobj"}));
      RenamedConcat(f, Through(p, ms, front, "agent", None), []);
    }
  }

  lemma FoundersReworded(p: Sentence, ms: seq<Mention>, q: Sentence, qs: seq<Mention>, f: Mention -> Mention, t: nat)
    requires Reworded(p, ms, q, qs, f) && WellFormed(q) && t < |p.tokens|
    ensures AgentMentions(q, qs, t) == Renamed(f, AgentMentions(p, ms, t))
    ensures Founders(q, qs, t) == Renamed(f, Founders(p, ms, t))
  {
    assert SameToken(p, ms, q, qs, f, t);
    SubjectsReworded(p, ms, q, qs, f, t, 0);
    AgentsReworded(p, ms, q, qs, f, p.tokens[t].children);
  }

  lemma FoundedReworded(p: Sentence, ms: seq<Mention>, q: Sentence, qs: seq<Mention>, f: Mention -> Mention, t: nat)
    requires Reworded(p, ms, q, qs, f) && WellFormed(q) && t < |p.tokens|
    ensures FoundedPairs(q, qs, t) == RenamedPairs(f, FoundedPairs(p, ms, t))
  {
    FoundersReworded(p, ms, q, qs, f, t);
    ArgsReworded(p, ms, q, qs, f, t, {"dobj", "attr", "oprd"});
    PairsRenamed(f, ms, Founders(p, ms, t), Args(p, ms, t, {"dobj", "attr", "oprd"}), PERSON, ORGANIZATION);
  }

  lemma CouplesReworded(p: Sentence, ms: seq<Mention>, q: Sentence, qs: seq<Mention>, f: Mention -> Mention, t: nat)
    requires Reworded(p, ms, q, qs, f) && WellFormed(q) && t < |p.tokens|
    ensures PersonPairs(OfType(Founders(q, qs, t), PERSON)) ==
            RenamedPairs(f, PersonPairs(OfType(Founders(p, ms, t), PERSON)))
  {
    FoundersReworded(p, ms, q, qs, f, t);
    OfTypeRenamed(f, ms, Founders(p, ms, t), PERSON);
    PersonPairsRenamed(f, OfType(Founders(p, ms, t), PERSON));
  }

  lemma SwappedPairsRenamed(f: Mention -> Mention, ms: seq<Mention>, buyers: seq<Mention>, targets: seq<Mention>)
    requires Faithful(f, ms) && Among(buyers, ms) && Among(targets, ms)
    ensures Swap(Pairs(Renamed(f, buyers), Renamed(f, targets), ORGANIZATION, ORGANIZATION)) ==
            RenamedPairs(f, Swap(Pairs(buyers, targets, ORGANIZATION, ORGANIZATION)))
  {
    PairsRenamed(f, ms, buyers, targets, ORGANIZATION, ORGANIZATION);
    SwapRenamed(f, Pairs(buyers, targets, ORGANIZATION, ORGANIZATION));
  }

  lemma AcquiredReworded(p: Sentence, ms: seq<Mention>, q: Sentence, qs: seq<Mention>, f: Mention -> Mention, t: nat)
    requires Reworded(p, ms, q, qs, f) && WellFormed(q) && t < |p.tokens|
    ensures AcquiredPairs(q, qs, t) == RenamedPairs(f, AcquiredPairs(p, ms, t))
  {
    var subjects, objects := Args(p, ms, t, {"nsubj"}), Args(p, ms, t, {"dobj"});
    var agents, targets := AgentMentions(p, ms, t), Args(p, ms, t, {"nsubjpass"});
    ArgsReworded(p, ms, q, qs, f, t, {"nsubj"});
    ArgsReworded(p, ms, q, qs, f, t, {"dobj"});
    ArgsReworded(p, ms, q, qs, f, t, {"nsubjpass"});
    FoundersReworded(p, ms, q, qs, f, t);
    SwappedPairsRenamed(f, ms, subjects, objects);
    SwappedPairsRenamed(f, ms, agents, targets);
    RenamedPairsConcat(f, Swap(Pairs(subjects, objects, ORGANIZATION, ORGANIZATION)),
                       Swap(Pairs(agents, targets, ORGANIZATION, ORGANIZATION)));
  }

  lemma VerbPairsReworded(p: Sentence, ms: seq<Mention>, q: Sentence, qs: seq<Mention>, f: Mention -> Mention, t: nat,
                          kind: Kind)
    requires Reworded(p, ms, q, qs, f) && WellFormed(q) && t < |p.tokens|
    ensures VerbPairs(q, qs, t, kind) == Image(f, VerbPairs(p, ms, t, kind))
  {
    assert SameToken(p, ms, q, qs, f, t);
    match kind {
      case FOUNDED =>
        FoundedReworded(p, ms, q, qs, f, t);
        MembersRenamed(f, FoundedPairs(p, ms, t));
      case CO_FOUNDED_WITH =>
        CouplesReworded(p, ms, q, qs, f, t);
        MembersRenamed(f, PersonPairs(OfType(Founders(p, ms, t), PERSON)));
      case ACQUIRED =>
        AcquiredReworded(p, ms, q, qs, f, t);
        MembersRenamed(f, AcquiredPairs(p, ms, t));
      case SUBSIDIARY_OF =>
    }
  }

  lemma UnionRenamed(f: Mention -> Mention, a: seq<set<(Mention, Mention)>>, b: seq<set<(Mention, Mention)>>)
    requires |a| == |b| && forall t | 0 <= t < |a| :: b[t] == Image(f, a[t])
    ensures Union(b) == Image(f, Union(a))
  {
    forall x | x in Image(f, Union(a)) ensures x in Union(b) {
      var y :| y in Union(a) && x == (f(y.0), f(y.1));
      var t :| 0 <= t < |a| && y in a[t];
      assert x in b[t];
    }
    forall x | x in Union(b) ensures x in Image(f, Union(a)) {
      var t :| 0 <= t < |b| && x in b[t];
      var y :| y in a[t] && x == (f(y.0), f(y.1));
      assert y in Union(a);
    }
  }

  /** What the verbs of the reworded sentence stand for is what they stood for. */
  lemma FoundReworded(p: Sentence, ms: seq<Mention>, q: Sentence, qs: seq<Mention>, f: Mention -> Mention, kind: Kind)
    requires Reworded(p, ms, q, qs, f)
    ensures WellFormed(q) && Found(q, qs, kind) == Image(f, Found(p, ms, kind))
  {
    RewordedWellFormed(p, ms, q, qs, f);
    var a, b := PairsByToken(p, ms, kind), PairsByToken(q, qs, kind);
    forall t | 0 <= t < |a| ensures b[t] == Image(f, a[t]) { VerbPairsReworded(p, ms, q, qs, f, t, kind); }
    UnionRenamed(f, a, b);
  }

  // ---------------------------------------------------------------- the mentions of a type

  lemma {:induction false} OfTypeCounts(ms: seq<Mention>, nerType: string, m: Mention)
    ensures multiset(OfType(ms, nerType))[m] == if m.nerType == nerType then multiset(ms)[m] else 0
  {
    if ms != [] {
      OfTypeCounts(ms[1..], nerType, m);
      assert ms == [ms[0]] + ms[1..];
      assert OfType(ms, nerType) == (if ms[0].nerType == nerType then [ms[0]] else []) + OfType(ms[1..], nerType);
    }
  }

  /** Of each type there are the same mentions, in another order perhaps. */
  lemma OfTypeReordered(a: seq<Mention>, b: seq<Mention>, nerType: string)
    requires multiset(a) == multiset(b)
    ensures multiset(OfType(a, nerType)) == multiset(OfType(b, nerType)) && |OfType(a, nerType)| == |OfType(b, nerType)|
  {
    forall m ensures multiset(OfType(a, nerType))[m] == multiset(OfType(b, nerType))[m] {
      OfTypeCounts(a, nerType, m);
      OfTypeCounts(b, nerType, m);
    }
    assert |multiset(OfType(a, nerType))| == |OfType(a, nerType)|;
  }

  lemma TypesReworded(p: Sentence, ms: seq<Mention>, q: Sentence, qs: seq<Mention>, f: Mention -> Mention,
                      nerType: string)
    requires Reworded(p, ms, q, qs, f)
    ensures multiset(OfType(qs, nerType)) == multiset(Renamed(f, OfType(ms, nerType)))
    ensures |OfType(qs, nerType)| == |OfType(ms, nerType)|
  {
    OfTypeReordered(qs, Renamed(f, ms), nerType);
    OfTypeRenamed(f, ms, ms, nerType);
  }

  lemma SameImage(f: Mention -> Mention, ms: seq<Mention>, a: set<(Mention, Mention)>, b: set<(Mention, Mention)>)
    requires Faithful(f, ms)
    requires forall x | x in a + b :: x.0 in ms && x.1 in ms
    ensures Image(f, a) == Image(f, b) <==> a == b
  {
    if Image(f, a) == Image(f, b) {
      forall x | x in a ensures x in b { InImage(f, ms, a, b, x); }
      forall x | x in b ensures x in a { InImage(f, ms, b, a, x); }
    }
  }

  lemma InImage(f: Mention -> Mention, ms: seq<Mention>, a: set<(Mention, Mention)>, b: set<(Mention, Mention)>,
                x: (Mention, Mention))
    requires Faithful(f, ms) && x in a && Image(f, a) <= Image(f, b)
    requires forall y | y in a + b :: y.0 in ms && y.1 in ms
    ensures x in b
  {
    assert (f(x.0), f(x.1)) in Image(f, b);
    var y :| y in b && (f(y.0), f(y.1)) == (f(x.0), f(x.1));
    assert y in a + b && x in a + b;
  }
}
