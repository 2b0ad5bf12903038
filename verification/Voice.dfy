/** Active and passive clauses: for which relations the voice of the verb does not matter. */
module Voice {
  import opened Prelude
  import opened Relations
  import opened SentenceEnds

  // ---------------------------------------------------------------- the passive form of a clause

  /** The tokens among `cs` attached through `dep`. */
  function WithDep(s: Sentence, cs: seq<nat>, dep: string): (r: seq<nat>)
    requires Inside(s, cs)
    ensures Inside(s, r)
  {
    if cs == [] then []
    else
      WithDep(s, cs[..|cs| - 1], dep) + if s.tokens[cs[|cs| - 1]].dep == dep then [cs[|cs| - 1]] else []
  }

  function WithoutDep(s: Sentence, cs: seq<nat>, dep: string): (r: seq<nat>)
    requires Inside(s, cs)
    ensures Inside(s, r)
  {
    if cs == [] then []
    else
      WithoutDep(s, cs[..|cs| - 1], dep) + if s.tokens[cs[|cs| - 1]].dep == dep then [] else [cs[|cs| - 1]]
  }

  lemma WithoutSnoc(s: Sentence, front: seq<nat>, c: nat, dep: string)
    requires Inside(s, front) && c < |s.tokens|
    ensures Inside(s, front + [c])
    ensures WithoutDep(s, front + [c], dep) ==
            if s.tokens[c].dep == dep then WithoutDep(s, front, dep) else WithoutDep(s, front, dep) + [c]
  {
    assert (front + [c])[..|front|] == front;
  }

  lemma WithSnoc(s: Sentence, front: seq<nat>, c: nat, dep: string)
    requires Inside(s, front) && c < |s.tokens|
    ensures Inside(s, front + [c])
    ensures WithDep(s, front + [c], dep) ==
            if s.tokens[c].dep == dep then WithDep(s, front, dep) + [c] else WithDep(s, front, dep)
  {
    assert (front + [c])[..|front|] == front;
  }

  /** A token of the active clause with verb `v` as it is in the passive clause, where `agent` is the new "by". */
  function PassiveToken(tok: Token, v: nat, agent: nat): Token {
    if tok.head != v then tok
    else if tok.dep == "nsubj" then tok.(dep := "pobj", head := agent)
    else if tok.dep == "dobj" then tok.(dep := "nsubjpass")
    else tok
  }

  /**
   The passive form of a clause: the verb's objects become its passive subjects, and
   its subjects move below a new agent token at offset `byIdx`.
   */
  function Passive(s: Sentence, v: nat, byIdx: int): (r: Sentence)
    requires WellFormed(s) && v < |s.tokens|
    ensures |r.tokens| == |s.tokens| + 1
  {
    var n := |s.tokens|;
    var cs := s.tokens[v].children;
    var verb := s.tokens[v].(children := WithoutDep(s, cs, "nsubj") + [n]);
    var agentToken := Token(byIdx, "by", "agent", v, WithDep(s, cs, "nsubj"), []);
    s.(tokens := seq(n + 1, i requires 0 <= i < n + 1 =>
      if i == n then agentToken else if i == v then verb else PassiveToken(s.tokens[i], v, n)))
  }

  lemma Subject(s: Sentence, subj: nat, obj: nat)
    requires subj < |s.tokens| && obj < |s.tokens|
    requires s.tokens[subj].dep == "nsubj" && s.tokens[obj].dep == "dobj"
    ensures Inside(s, [subj, obj]) && WithDep(s, [subj, obj], "nsubj") == [subj]
  {
    assert "nsubj"[0] != "dobj"[0];
    assert WithDep(s, [], "nsubj") == [] && [] + [subj] == [subj] && [subj] + [obj] == [subj, obj];
    WithSnoc(s, [], subj, "nsubj");
    WithSnoc(s, [subj], obj, "nsubj");
  }

  lemma Object(s: Sentence, subj: nat, obj: nat)
    requires subj < |s.tokens| && obj < |s.tokens|
    requires s.tokens[subj].dep == "nsubj" && s.tokens[obj].dep == "dobj"
    ensures Inside(s, [subj, obj]) && WithoutDep(s, [subj, obj], "nsubj") == [obj]
  {
    assert "nsubj"[0] != "dobj"[0];
    assert WithoutDep(s, [], "nsubj") == [] && [] + [subj] == [subj] && [] + [obj] == [obj];
    assert [subj] + [obj] == [subj, obj];
    WithoutSnoc(s, [], subj, "nsubj");
    WithoutSnoc(s, [subj], obj, "nsubj");
  }

  /** What becomes of a verb with one subject and one object: the object stays, the subject moves below the agent. */
  lemma VerbInPassive(s: Sentence, v: nat, byIdx: int, subj: nat, obj: nat)
    requires WellFormed(s) && v < |s.tokens| && subj < |s.tokens| && obj < |s.tokens|
    requires s.tokens[v].children == [subj, obj]
    requires s.tokens[subj].dep == "nsubj" && s.tokens[obj].dep == "dobj"
    ensures var p, n := Passive(s, v, byIdx), |s.tokens|;
      && p.tokens[v] == s.tokens[v].(children := [obj, n])
      && p.tokens[n] == Token(byIdx, "by", "agent", v, [subj], [])
  {
    Subject(s, subj, obj);
    Object(s, subj, obj);
  }

  /** A child of the verb in an active clause. */
  ghost predicate ActiveChild(s: Sentence, v: nat, c: nat) {
    c < |s.tokens| && c != v && s.tokens[c].head == v && s.tokens[c].dep !in {"nsubjpass", "agent"}
  }

  ghost predicate ActiveChildren(s: Sentence, v: nat, cs: seq<nat>) {
    forall k | 0 <= k < |cs| :: ActiveChild(s, v, cs[k])
  }

  /** Every subject has a mention of its own, unless "by" stands in the same mention, if any, as the verb does. */
  ghost predicate SubjectsKeepNames(s: Sentence, ms: seq<Mention>, v: nat, byIdx: int)
    requires v < |s.tokens|
  {
    MentionAt(ms, byIdx) == MentionAt(ms, s.tokens[v].idx) ||
    forall t | 0 <= t < |s.tokens| && s.tokens[t].head == v && s.tokens[t].dep == "nsubj" ::
      MentionAt(ms, s.tokens[t].idx).Some?
  }

  /** An active clause around `v`. */
  ghost predicate ActiveClause(s: Sentence, ms: seq<Mention>, v: nat, byIdx: int) {
    && WellFormed(s) && v < |s.tokens| && ActiveChildren(s, v, s.tokens[v].children)
    && SubjectsKeepNames(s, ms, v, byIdx)
  }

  lemma PassiveWellFormed(s: Sentence, v: nat, byIdx: int)
    requires WellFormed(s) && v < |s.tokens|
    ensures WellFormed(Passive(s, v, byIdx))
  {
    var p := Passive(s, v, byIdx);
    forall i | 0 <= i < |p.tokens|
      ensures p.tokens[i].head < |p.tokens| && Inside(p, p.tokens[i].children) && Inside(p, p.tokens[i].conjuncts)
    {
      if i < |s.tokens| && i != v { assert p.tokens[i] == PassiveToken(s.tokens[i], v, |s.tokens|); }
    }
  }

  /** Whatever is coordinated or hangs where, a token brings the same mention in both voices. */
  lemma MentionUnchanged(s: Sentence, ms: seq<Mention>, v: nat, byIdx: int, t: nat)
    requires ActiveClause(s, ms, v, byIdx) && t < |s.tokens|
    ensures WellFormed(Passive(s, v, byIdx))
    ensures MentionOf(Passive(s, v, byIdx), ms, t) == MentionOf(s, ms, t)
  {
    PassiveWellFormed(s, v, byIdx);
    var p := Passive(s, v, byIdx);
    assert forall i | 0 <= i < |s.tokens| :: p.tokens[i].idx == s.tokens[i].idx;
  }

  lemma {:induction false} IncludeAllAgree(s: Sentence, p: Sentence, ms: seq<Mention>, out: seq<Mention>, ts: seq<nat>)
    requires WellFormed(s) && WellFormed(p) && Inside(s, ts) && Inside(p, ts)
    requires forall k | 0 <= k < |ts| :: MentionOf(p, ms, ts[k]) == MentionOf(s, ms, ts[k])
    ensures IncludeAll(p, ms, out, ts) == IncludeAll(s, ms, out, ts)
  {
    if ts != [] { IncludeAllAgree(s, p, ms, out, ts[..|ts| - 1]); }
  }

  /** A token brings the same mentions in both voices, with those coordinated with it. */
  lemma TokenUnchanged(s: Sentence, ms: seq<Mention>, v: nat, byIdx: int, c: nat, out: seq<Mention>)
    requires ActiveClause(s, ms, v, byIdx) && c < |s.tokens|
    ensures WellFormed(Passive(s, v, byIdx))
    ensures Passive(s, v, byIdx).tokens[c].conjuncts == s.tokens[c].conjuncts
    ensures IncludeAll(Passive(s, v, byIdx), ms, out, [c] + s.tokens[c].conjuncts) ==
            IncludeAll(s, ms, out, [c] + s.tokens[c].conjuncts)
  {
    PassiveWellFormed(s, v, byIdx);
    var ts := [c] + s.tokens[c].conjuncts;
    forall k | 0 <= k < |ts| ensures MentionOf(Passive(s, v, byIdx), ms, ts[k]) == MentionOf(s, ms, ts[k]) {
      MentionUnchanged(s, ms, v, byIdx, ts[k]);
    }
    IncludeAllAgree(s, Passive(s, v, byIdx), ms, out, ts);
  }

  /** What becomes of a dependency on the verb, that of a subject aside. */
  function InPassive(dep: string): string {
    if dep == "dobj" then "nsubjpass" else dep
  }

  /** `passive` picks in the passive clause what `active` picks in the active one. */
  ghost predicate Corresponds(active: set<string>, passive: set<string>) {
    && "nsubj" !in active && "agent" !in passive
    && forall dep :: PicksAlike(dep, active, passive)
  }

  predicate PicksAlike(dep: string, active: set<string>, passive: set<string>) {
    dep in {"nsubj", "nsubjpass", "agent"} || (InPassive(dep) in passive <==> dep in active)
  }

  lemma PickedInPassive(s: Sentence, v: nat, byIdx: int, p: Sentence, c: nat, active: set<string>, passive: set<string>)
    requires WellFormed(s) && v < |s.tokens| && p == Passive(s, v, byIdx)
    requires ActiveChild(s, v, c) && Corresponds(active, passive)
    ensures if s.tokens[c].dep == "nsubj" then s.tokens[c].dep !in active
            else p.tokens[c].dep in passive <==> s.tokens[c].dep in active
  {
    assert p.tokens[c] == PassiveToken(s.tokens[c], v, |s.tokens|);
    assert PicksAlike(s.tokens[c].dep, active, passive);
  }

  lemma PickSnoc(s: Sentence, ms: seq<Mention>, front: seq<nat>, c: nat, deps: set<string>)
    requires WellFormed(s) && Inside(s, front) && c < |s.tokens|
    ensures Inside(s, front + [c])
    ensures var before := Attached(s, ms, front, deps);
      Attached(s, ms, front + [c], deps) ==
        if s.tokens[c].dep in deps then IncludeAll(s, ms, before, [c] + s.tokens[c].conjuncts) else before
  {
    assert (front + [c])[..|front|] == front;
  }

  lemma {:induction false} AttachedInPassive(s: Sentence, ms: seq<Mention>, v: nat, byIdx: int, p: Sentence,
                                             cs: seq<nat>, active: set<string>, passive: set<string>)
    requires ActiveClause(s, ms, v, byIdx) && ActiveChildren(s, v, cs) && Inside(s, cs) && Corresponds(active, passive)
    requires p == Passive(s, v, byIdx) && WellFormed(p)
    ensures Inside(p, WithoutDep(s, cs, "nsubj"))
    ensures Attached(p, ms, WithoutDep(s, cs, "nsubj"), passive) == Attached(s, ms, cs, active)
  {
    if cs != [] {
      var front, c := cs[..|cs| - 1], cs[|cs| - 1];
      var kept := WithoutDep(s, front, "nsubj");
      assert cs == front + [c] && ActiveChild(s, v, c);
      AttachedInPassive(s, ms, v, byIdx, p, front, active, passive);
      PickedInPassive(s, v, byIdx, p, c, active, passive);
      WithoutSnoc(s, front, c, "nsubj");
      PickSnoc(s, ms, front, c, active);
      PickSnoc(p, ms, kept, c, passive);
      TokenUnchanged(s, ms, v, byIdx, c, Attached(s, ms, front, active));
    }
  }

  /** Arguments of the verb other than its subjects. */
  lemma ArgsInPassive(s: Sentence, ms: seq<Mention>, v: nat, byIdx: int, active: set<string>, passive: set<string>)
    requires ActiveClause(s, ms, v, byIdx) && Corresponds(active, passive)
    ensures WellFormed(Passive(s, v, byIdx))
    ensures Args(Passive(s, v, byIdx), ms, v, passive) == Args(s, ms, v, active)
  {
    PassiveWellFormed(s, v, byIdx);
    var p := Passive(s, v, byIdx);
    AttachedInPassive(s, ms, v, byIdx, p, s.tokens[v].children, active, passive);
    var kept := WithoutDep(s, s.tokens[v].children, "nsubj");
    assert p.tokens[v].children == kept + [|s.tokens|] && (kept + [|s.tokens|])[..|kept|] == kept;
    assert p.tokens[|s.tokens|].dep == "agent";
  }

  /** The tokens below the agent bring what the active subjects bring. */
  lemma {:induction false} SubjectsBecomeAgents(s: Sentence, ms: seq<Mention>, v: nat, byIdx: int, cs: seq<nat>)
    requires ActiveClause(s, ms, v, byIdx) && ActiveChildren(s, v, cs) && Inside(s, cs)
    ensures WellFormed(Passive(s, v, byIdx)) && Inside(Passive(s, v, byIdx), WithDep(s, cs, "nsubj"))
    ensures Attached(Passive(s, v, byIdx), ms, WithDep(s, cs, "nsubj"), {"pobj"}) == Attached(s, ms, cs, {"nsubj"})
  {
    PassiveWellFormed(s, v, byIdx);
    if cs != [] {
      var front, c := cs[..|cs| - 1], cs[|cs| - 1];
      SubjectsBecomeAgents(s, ms, v, byIdx, front);
      TokenUnchanged(s, ms, v, byIdx, c, Attached(s, ms, front, {"nsubj"}));
      assert Passive(s, v, byIdx).tokens[c] == PassiveToken(s.tokens[c], v, |s.tokens|);
      var kept := WithDep(s, front, "nsubj");
      assert (kept + [c])[..|kept|] == kept && kept + [] == kept;
    }
  }

  /** No other agent hangs on the verb. */
  lemma {:induction false} NoOtherAgent(s: Sentence, ms: seq<Mention>, v: nat, byIdx: int, p: Sentence, cs: seq<nat>)
    requires ActiveClause(s, ms, v, byIdx) && ActiveChildren(s, v, cs) && Inside(s, cs)
    requires p == Passive(s, v, byIdx) && WellFormed(p)
    ensures Inside(p, WithoutDep(s, cs, "nsubj"))
    ensures Through(p, ms, WithoutDep(s, cs, "nsubj"), "agent", None) == [] && Through(s, ms, cs, "agent", None) == []
  {
    if cs != [] {
      var front, c := cs[..|cs| - 1], cs[|cs| - 1];
      var kept := WithoutDep(s, front, "nsubj");
      assert cs == front + [c] && ActiveChild(s, v, c);
      NoOtherAgent(s, ms, v, byIdx, p, front);
      assert p.tokens[c] == PassiveToken(s.tokens[c], v, |s.tokens|);
      WithoutSnoc(s, front, c, "nsubj");
      ThroughSnoc(s, ms, front, c);
      if s.tokens[c].dep != "nsubj" { ThroughSnoc(p, ms, kept, c); }
    }
  }

  lemma ThroughSnoc(p: Sentence, ms: seq<Mention>, kept: seq<nat>, c: nat)
    requires WellFormed(p) && Inside(p, kept) && c < |p.tokens| && p.tokens[c].dep != "agent"
    ensures Inside(p, kept + [c])
    ensures Through(p, ms, kept + [c], "agent", None) == Through(p, ms, kept, "agent", None)
  {
    assert (kept + [c])[..|kept|] == kept;
  }

  lemma AgentsInPassive(s: Sentence, ms: seq<Mention>, v: nat, byIdx: int)
    requires ActiveClause(s, ms, v, byIdx)
    ensures WellFormed(Passive(s, v, byIdx)) && AgentMentions(s, ms, v) == []
    ensures AgentMentions(Passive(s, v, byIdx), ms, v) == Args(s, ms, v, {"nsubj"})
  {
    PassiveWellFormed(s, v, byIdx);
    var p := Passive(s, v, byIdx);
    var cs := s.tokens[v].children;
    var kept := WithoutDep(s, cs, "nsubj");
    SubjectsBecomeAgents(s, ms, v, byIdx, cs);
    NoOtherAgent(s, ms, v, byIdx, p, cs);
    assert p.tokens[v].children == kept + [|s.tokens|];
    OneAgent(p, ms, kept, |s.tokens|);
  }

  lemma OneAgent(p: Sentence, ms: seq<Mention>, kept: seq<nat>, agent: nat)
    requires WellFormed(p) && Inside(p, kept) && agent < |p.tokens| && p.tokens[agent].dep == "agent"
    requires Through(p, ms, kept, "agent", None) == []
    ensures Inside(p, kept + [agent])
    ensures Through(p, ms, kept + [agent], "agent", None) == Args(p, ms, agent, {"pobj"})
  {
    assert (kept + [agent])[..|kept|] == kept;
  }

  lemma {:induction false} NoneAttached(s: Sentence, ms: seq<Mention>, cs: seq<nat>, deps: set<string>)
    requires WellFormed(s) && Inside(s, cs) && forall k | 0 <= k < |cs| :: s.tokens[cs[k]].dep !in deps
    ensures Attached(s, ms, cs, deps) == []
  {
    if cs != [] { NoneAttached(s, ms, cs[..|cs| - 1], deps); }
  }

  /** Nothing is a passive subject in the active clause, nor subject or object in the passive one. */
  lemma NoneInOtherVoice(s: Sentence, ms: seq<Mention>, v: nat, byIdx: int)
    requires ActiveClause(s, ms, v, byIdx)
    ensures WellFormed(Passive(s, v, byIdx)) && Args(s, ms, v, {"nsubjpass"}) == []
    ensures Args(Passive(s, v, byIdx), ms, v, {"nsubj"}) == [] && Args(Passive(s, v, byIdx), ms, v, {"dobj"}) == []
  {
    var cs := s.tokens[v].children;
    forall k | 0 <= k < |cs| ensures s.tokens[cs[k]].dep != "nsubjpass" { assert ActiveChild(s, v, cs[k]); }
    NoneAttached(s, ms, cs, {"nsubjpass"});
    NoneAttached(s, ms, cs, {});
    ArgsInPassive(s, ms, v, byIdx, {}, {"nsubj"});
    ArgsInPassive(s, ms, v, byIdx, {}, {"dobj"});
  }

  /** The passive form gives the same (target, buyer) pairs as the active one, whatever is coordinated. */
  lemma AcquiredVoiceInvariance(s: Sentence, ms: seq<Mention>, v: nat, byIdx: int)
    requires ActiveClause(s, ms, v, byIdx)
    ensures WellFormed(Passive(s, v, byIdx))
    ensures AcquiredPairs(Passive(s, v, byIdx), ms, v) == AcquiredPairs(s, ms, v)
  {
    NoneInOtherVoice(s, ms, v, byIdx);
    ArgsInPassive(s, ms, v, byIdx, {"dobj"}, {"nsubjpass"});
    AgentsInPassive(s, ms, v, byIdx);
  }

  // ---------------------------------------------------------------- the other verbs of the sentence

  /** The parse is a tree: what a token has as a child has it as its head. */
  ghost predicate IsTree(s: Sentence)
    requires WellFormed(s)
  {
    forall t | 0 <= t < |s.tokens| :: HeadOf(s, t, s.tokens[t].children)
  }

  ghost predicate HeadOf(s: Sentence, t: nat, cs: seq<nat>)
    requires Inside(s, cs)
  {
    forall k | 0 <= k < |cs| :: s.tokens[cs[k]].head == t
  }

  lemma {:induction false} AttachedElsewhere(s: Sentence, ms: seq<Mention>, v: nat, byIdx: int, cs: seq<nat>,
                                             deps: set<string>)
    requires ActiveClause(s, ms, v, byIdx) && Inside(s, cs)
    requires forall k | 0 <= k < |cs| :: s.tokens[cs[k]].head != v
    ensures WellFormed(Passive(s, v, byIdx)) && Inside(Passive(s, v, byIdx), cs)
    ensures Attached(Passive(s, v, byIdx), ms, cs, deps) == Attached(s, ms, cs, deps)
  {
    PassiveWellFormed(s, v, byIdx);
    if cs != [] {
      var front, c := cs[..|cs| - 1], cs[|cs| - 1];
      AttachedElsewhere(s, ms, v, byIdx, front, deps);
      TokenUnchanged(s, ms, v, byIdx, c, Attached(s, ms, front, deps));
    }
  }

  lemma ArgsElsewhere(s: Sentence, ms: seq<Mention>, v: nat, byIdx: int, t: nat, deps: set<string>)
    requires ActiveClause(s, ms, v, byIdx) && IsTree(s) && t < |s.tokens| && t != v
    ensures WellFormed(Passive(s, v, byIdx))
    ensures Args(Passive(s, v, byIdx), ms, t, deps) == Args(s, ms, t, deps)
  {
    assert HeadOf(s, t, s.tokens[t].children);
    AttachedElsewhere(s, ms, v, byIdx, s.tokens[t].children, deps);
    assert Passive(s, v, byIdx).tokens[t] == PassiveToken(s.tokens[t], v, |s.tokens|);
  }

  lemma {:induction false} ThroughElsewhere(s: Sentence, ms: seq<Mention>, v: nat, byIdx: int, p: Sentence, t: nat,
                                            cs: seq<nat>)
    requires ActiveClause(s, ms, v, byIdx) && IsTree(s) && t != v && Inside(s, cs) && HeadOf(s, t, cs)
    requires p == Passive(s, v, byIdx) && WellFormed(p) && Inside(p, cs)
    ensures Through(p, ms, cs, "agent", None) == Through(s, ms, cs, "agent", None)
  {
    if cs != [] {
      var front, c := cs[..|cs| - 1], cs[|cs| - 1];
      ThroughElsewhere(s, ms, v, byIdx, p, t, front);
      PObjectsUnchanged(s, ms, v, byIdx, c);
      assert p.tokens[c].dep == s.tokens[c].dep;
    }
  }

  lemma PObjectsUnchanged(s: Sentence, ms: seq<Mention>, v: nat, byIdx: int, c: nat)
    requires ActiveClause(s, ms, v, byIdx) && IsTree(s) && c < |s.tokens|
    ensures WellFormed(Passive(s, v, byIdx))
    ensures Args(Passive(s, v, byIdx), ms, c, {"pobj"}) == Args(s, ms, c, {"pobj"})
  {
    if c == v {
      ArgsInPassive(s, ms, v, byIdx, {"pobj"}, {"pobj"});
    } else {
      ArgsElsewhere(s, ms, v, byIdx, c, {"pobj"});
    }
  }

  lemma AgentsElsewhere(s: Sentence, ms: seq<Mention>, v: nat, byIdx: int, t: nat)
    requires ActiveClause(s, ms, v, byIdx) && IsTree(s) && t < |s.tokens| && t != v
    ensures WellFormed(Passive(s, v, byIdx))
    ensures AgentMentions(Passive(s, v, byIdx), ms, t) == AgentMentions(s, ms, t)
  {
    var p := Passive(s, v, byIdx);
    PassiveWellFormed(s, v, byIdx);
    assert HeadOf(s, t, s.tokens[t].children);
    assert p.tokens[t] == PassiveToken(s.tokens[t], v, |s.tokens|);
    ThroughElsewhere(s, ms, v, byIdx, p, t, s.tokens[t].children);
  }

  lemma AcquiredElsewhere(s: Sentence, ms: seq<Mention>, v: nat, byIdx: int, t: nat)
    requires ActiveClause(s, ms, v, byIdx) && IsTree(s) && t < |s.tokens| && t != v
    ensures WellFormed(Passive(s, v, byIdx))
    ensures AcquiredPairs(Passive(s, v, byIdx), ms, t) == AcquiredPairs(s, ms, t)
  {
    AgentsElsewhere(s, ms, v, byIdx, t);
    ArgsElsewhere(s, ms, v, byIdx, t, {"nsubj"});
    ArgsElsewhere(s, ms, v, byIdx, t, {"dobj"});
    ArgsElsewhere(s, ms, v, byIdx, t, {"nsubjpass"});
  }

  // ---------------------------------------------------------------- subjects and founders in the passive form

  /** `VerbSubjects` of the passive form, read off the active clause: the objects of `v` are its subjects. */
  function PassiveSubjects(s: Sentence, ms: seq<Mention>, v: nat, t: nat, depth: nat): (r: seq<Mention>)
    requires WellFormed(s) && v < |s.tokens| && t < |s.tokens| && depth <= 3
    ensures Among(r, ms)
    decreases 3 - depth
  {
    var direct := if t == v then Args(s, ms, v, {"dobj"}) else Args(s, ms, t, {"nsubj", "nsubjpass"});
    var tok := s.tokens[t];
    if direct != [] then direct
    else if depth < 3 && tok.dep == "conj" then PassiveSubjects(s, ms, v, tok.head, depth + 1)
    else if tok.dep == "relcl" then Include([], MentionAt(ms, s.tokens[tok.head].idx))
    else []
  }

  lemma {:induction false} SubjectsInPassive(s: Sentence, ms: seq<Mention>, v: nat, byIdx: int, t: nat, depth: nat)
    requires ActiveClause(s, ms, v, byIdx) && IsTree(s) && t < |s.tokens| && depth <= 3
    ensures WellFormed(Passive(s, v, byIdx))
    ensures VerbSubjects(Passive(s, v, byIdx), ms, t, depth) == PassiveSubjects(s, ms, v, t, depth)
    decreases 3 - depth
  {
    var p, h := Passive(s, v, byIdx), s.tokens[t].head;
    PassiveWellFormed(s, v, byIdx);
    DirectSubjects(s, ms, v, byIdx, t);
    if depth < 3 && s.tokens[t].dep == "conj" { SubjectsInPassive(s, ms, v, byIdx, h, depth + 1); }
    VerbKeepsPlace(s, v, byIdx, p, t);
    assert p.tokens[h].idx == s.tokens[h].idx;
  }

  lemma DirectSubjects(s: Sentence, ms: seq<Mention>, v: nat, byIdx: int, t: nat)
    requires ActiveClause(s, ms, v, byIdx) && IsTree(s) && t < |s.tokens|
    ensures WellFormed(Passive(s, v, byIdx))
    ensures Args(Passive(s, v, byIdx), ms, t, {"nsubj", "nsubjpass"}) ==
            if t == v then Args(s, ms, v, {"dobj"}) else Args(s, ms, t, {"nsubj", "nsubjpass"})
  {
    if t == v {
      ArgsInPassive(s, ms, v, byIdx, {"dobj"}, {"nsubj", "nsubjpass"});
    } else {
      ArgsElsewhere(s, ms, v, byIdx, t, {"nsubj", "nsubjpass"});
    }
  }

  /** How a token hangs where it does matters only if it is coordinated or a relative clause: that stays. */
  lemma VerbKeepsPlace(s: Sentence, v: nat, byIdx: int, p: Sentence, t: nat)
    requires WellFormed(s) && v < |s.tokens| && t < |s.tokens| && p == Passive(s, v, byIdx)
    ensures p.tokens[t].base == s.tokens[t].base
    ensures p.tokens[t].dep == "conj" <==> s.tokens[t].dep == "conj"
    ensures p.tokens[t].dep == "relcl" <==> s.tokens[t].dep == "relcl"
    ensures s.tokens[t].dep in {"conj", "relcl"} ==> p.tokens[t].head == s.tokens[t].head
  {
    assert "nsubj"[0] == 'n' && "dobj"[0] == 'd' && "pobj"[0] == 'p' && "nsubjpass"[0] == 'n';
    assert "conj"[0] == 'c' && "relcl"[0] == 'r';
    if t != v { assert p.tokens[t] == PassiveToken(s.tokens[t], v, |s.tokens|); }
  }

  /** Who counts as the founders at `t` in the passive form, read off the active clause. */
  function PassiveFounders(s: Sentence, ms: seq<Mention>, v: nat, t: nat): (r: seq<Mention>)
    requires WellFormed(s) && v < |s.tokens| && t < |s.tokens|
    ensures Among(r, ms)
  {
    var subjects := PassiveSubjects(s, ms, v, t, 0);
    if subjects != [] then subjects
    else if t == v then Args(s, ms, v, {"nsubj"})
    else AgentMentions(s, ms, t)
  }

  lemma FoundersInPassive(s: Sentence, ms: seq<Mention>, v: nat, byIdx: int, t: nat)
    requires ActiveClause(s, ms, v, byIdx) && IsTree(s) && t < |s.tokens|
    ensures WellFormed(Passive(s, v, byIdx))
    ensures Founders(Passive(s, v, byIdx), ms, t) == PassiveFounders(s, ms, v, t)
  {
    SubjectsInPassive(s, ms, v, byIdx, t, 0);
    if t == v { AgentsInPassive(s, ms, v, byIdx); } else { AgentsElsewhere(s, ms, v, byIdx, t); }
  }

  /** The organizations founded according to `t` in the passive form: the objects of `v` are no objects any more. */
  function PassiveCompanies(s: Sentence, ms: seq<Mention>, v: nat, t: nat): (r: seq<Mention>)
    requires WellFormed(s) && v < |s.tokens| && t < |s.tokens|
    ensures Among(r, ms)
  {
    Args(s, ms, t, if t == v then {"attr", "oprd"} else {"dobj", "attr", "oprd"})
  }

  lemma CompaniesInPassive(s: Sentence, ms: seq<Mention>, v: nat, byIdx: int, t: nat)
    requires ActiveClause(s, ms, v, byIdx) && IsTree(s) && t < |s.tokens|
    ensures WellFormed(Passive(s, v, byIdx))
    ensures Args(Passive(s, v, byIdx), ms, t, {"dobj", "attr", "oprd"}) == PassiveCompanies(s, ms, v, t)
  {
    if t == v {
      ArgsInPassive(s, ms, v, byIdx, {"attr", "oprd"}, {"dobj", "attr", "oprd"});
    } else {
      ArgsElsewhere(s, ms, v, byIdx, t, {"dobj", "attr", "oprd"});
    }
  }

  // ---------------------------------------------------------------- what the passive form stands for

  /** The pairs the passive form stands for at `t`, read off the active clause. */
  ghost function PassivePairs(s: Sentence, ms: seq<Mention>, v: nat, t: nat, kind: Kind): set<(Mention, Mention)>
    requires WellFormed(s) && v < |s.tokens| && t < |s.tokens|
  {
    if s.tokens[t].base !in Verbs(kind) then {}
    else
      match kind
      case FOUNDED =>
        Members(Pairs(PassiveFounders(s, ms, v, t), PassiveCompanies(s, ms, v, t), PERSON, ORGANIZATION))
      case CO_FOUNDED_WITH => Members(PersonPairs(OfType(PassiveFounders(s, ms, v, t), PERSON)))
      case ACQUIRED => Members(AcquiredPairs(s, ms, t))
      case SUBSIDIARY_OF => {}
  }

  lemma PairsInPassive(s: Sentence, ms: seq<Mention>, v: nat, byIdx: int, t: nat, kind: Kind)
    requires ActiveClause(s, ms, v, byIdx) && IsTree(s) && t < |s.tokens|
    ensures WellFormed(Passive(s, v, byIdx))
    ensures VerbPairs(Passive(s, v, byIdx), ms, t, kind) == PassivePairs(s, ms, v, t, kind)
  {
    PassiveWellFormed(s, v, byIdx);
    VerbKeepsPlace(s, v, byIdx, Passive(s, v, byIdx), t);
    match kind {
      case FOUNDED =>
        FoundersInPassive(s, ms, v, byIdx, t);
        CompaniesInPassive(s, ms, v, byIdx, t);
      case CO_FOUNDED_WITH => FoundersInPassive(s, ms, v, byIdx, t);
      case ACQUIRED =>
        if t == v { AcquiredVoiceInvariance(s, ms, v, byIdx); } else { AcquiredElsewhere(s, ms, v, byIdx, t); }
      case SUBSIDIARY_OF =>
    }
  }

  ghost function PassivePairsByToken(s: Sentence, ms: seq<Mention>, v: nat, kind: Kind)
    : (r: seq<set<(Mention, Mention)>>)
    requires WellFormed(s) && v < |s.tokens|
    ensures |r| == |s.tokens| && forall t | 0 <= t < |r| :: r[t] == PassivePairs(s, ms, v, t, kind)
  {
    seq(|s.tokens|, t requires 0 <= t < |s.tokens| => PassivePairs(s, ms, v, t, kind))
  }

  /** What the verbs of the passive form stand for, read off the active sentence. */
  ghost function FoundInPassive(s: Sentence, ms: seq<Mention>, v: nat, kind: Kind): set<(Mention, Mention)>
    requires WellFormed(s) && v < |s.tokens|
  {
    Union(PassivePairsByToken(s, ms, v, kind))
  }

  lemma AgentGivesNothing(s: Sentence, ms: seq<Mention>, v: nat, byIdx: int, p: Sentence, kind: Kind)
    requires WellFormed(s) && v < |s.tokens| && p == Passive(s, v, byIdx) && WellFormed(p)
    ensures VerbPairs(p, ms, |s.tokens|, kind) == {}
  {
    var base := p.tokens[|s.tokens|].base;
    assert base == "by" && |base| == 2;
    assert forall w | w in FOUNDED_LEMMAS + ACQUIRED_LEMMAS :: w != "by" by {
      assert "buy"[1] != "by"[1];
    }
  }

  lemma PassiveStandsFor(s: Sentence, ms: seq<Mention>, v: nat, byIdx: int, kind: Kind)
    requires ActiveClause(s, ms, v, byIdx) && IsTree(s)
    ensures WellFormed(Passive(s, v, byIdx))
    ensures Found(Passive(s, v, byIdx), ms, kind) == FoundInPassive(s, ms, v, kind)
  {
    PassiveWellFormed(s, v, byIdx);
    var p, n := Passive(s, v, byIdx), |s.tokens|;
    var a, b := PairsByToken(p, ms, kind), PassivePairsByToken(s, ms, v, kind);
    forall t | 0 <= t < n ensures a[t] == b[t] { PairsInPassive(s, ms, v, byIdx, t, kind); }
    AgentGivesNothing(s, ms, v, byIdx, p, kind);
    UnionSnoc(a, n);
    assert a[..n] == b && a[..n + 1] == a;
  }

  /** Acquisition verbs stand for the same in both voices. */
  lemma AcquiredStandsForTheSame(s: Sentence, ms: seq<Mention>, v: nat)
    requires WellFormed(s) && v < |s.tokens|
    ensures FoundInPassive(s, ms, v, ACQUIRED) == Found(s, ms, ACQUIRED)
  {
    var a, b := PairsByToken(s, ms, ACQUIRED), PassivePairsByToken(s, ms, v, ACQUIRED);
    forall t | 0 <= t < |a| ensures a[t] == b[t] {}
    assert a == b;
  }
}
