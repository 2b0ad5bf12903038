/** What relation extraction gives, said of the parse and the mentions alone. */
module Extraction {
  import opened Prelude
  import opened Relations
  import SentenceEnds
  import opened Text

  // ---------------------------------------------------------------- mentions and triggers

  predicate Covers(m: Mention, idx: int) {
    m.spanStart <= idx < m.spanEnd
  }

  /** `m` is the first mention whose span holds the offset. */
  ghost predicate FirstCovers(ms: seq<Mention>, idx: int, m: Mention) {
    exists i :: 0 <= i < |ms| && ms[i] == m && Covers(m, idx) && forall j | 0 <= j < i :: !Covers(ms[j], idx)
  }

  lemma {:induction false} MentionAtIs(ms: seq<Mention>, idx: int)
    ensures MentionAt(ms, idx) == None ==> forall i | 0 <= i < |ms| :: !Covers(ms[i], idx)
    ensures MentionAt(ms, idx).Some? ==> FirstCovers(ms, idx, MentionAt(ms, idx).value)
  {
    if ms != [] && !Covers(ms[0], idx) {
      var rest := ms[1..];
      MentionAtIs(rest, idx);
      assert ms == [ms[0]] + rest;
      if MentionAt(rest, idx).Some? {
        var m := MentionAt(rest, idx).value;
        var i :| 0 <= i < |rest| && rest[i] == m && Covers(m, idx) && forall j | 0 <= j < i :: !Covers(rest[j], idx);
        assert ms[i + 1] == m && forall j | 0 < j < i + 1 :: ms[j] == rest[j - 1];
      }
    }
  }

  lemma OneFirst(ms: seq<Mention>, idx: int, m: Mention)
    ensures MentionAt(ms, idx) == Some(m) <==> FirstCovers(ms, idx, m)
  {
    MentionAtIs(ms, idx);
  }

  /** A token stands for the first mention that holds it, or, if none does, for the first that holds its head. */
  lemma MentionOfIs(s: Sentence, ms: seq<Mention>, t: nat, m: Mention)
    requires WellFormed(s) && t < |s.tokens|
    ensures var own, head := s.tokens[t].idx, s.tokens[s.tokens[t].head].idx;
      MentionOf(s, ms, t) == Some(m) <==>
      || FirstCovers(ms, own, m)
      || (FirstCovers(ms, head, m) && forall i | 0 <= i < |ms| :: !Covers(ms[i], own))
  {
    OneFirst(ms, s.tokens[t].idx, m);
    OneFirst(ms, s.tokens[s.tokens[t].head].idx, m);
    MentionAtIs(ms, s.tokens[t].idx);
  }

  /** Some trigger occurs in the sentence. */
  ghost predicate Occurs(lowered: string, trigger: string) {
    exists i: nat :: At(lowered, trigger, i)
  }

  lemma {:induction false} AnyTriggerIff(lowered: string, triggers: seq<string>)
    ensures AnyTrigger(lowered, triggers) <==> exists k :: 0 <= k < |triggers| && Occurs(lowered, triggers[k])
  {
    if triggers != [] {
      AnyTriggerIff(lowered, triggers[1..]);
      OccursIff(lowered, triggers[0]);
      if k :| 0 <= k < |triggers[1..]| && Occurs(lowered, triggers[1..][k]) {
        assert Occurs(lowered, triggers[k + 1]);
      }
      if k :| 0 <= k < |triggers| && Occurs(lowered, triggers[k]) {
        assert k > 0 ==> triggers[1..][k - 1] == triggers[k];
      }
    }
  }

  lemma OccursIff(lowered: string, trigger: string)
    ensures IndexFrom(lowered, trigger, 0).Some? <==> Occurs(lowered, trigger)
  {
    var r := IndexFrom(lowered, trigger, 0);
    if r.Some? { assert At(lowered, trigger, r.value); }
  }

  // ---------------------------------------------------------------- the mentions of a sentence

  /** The mentions of a sentence are those inside it, in order. */
  lemma MentionsInTurn(m: Mention, rest: seq<Mention>, s: Sentence)
    ensures MentionsIn([], s) == []
    ensures MentionsIn([m] + rest, s) ==
      (if m.spanStart >= s.startChar && m.spanEnd <= s.endChar then [m] else []) + MentionsIn(rest, s)
  {
    assert ([m] + rest)[1..] == rest;
  }

  lemma TypedInTurn(m: Mention, rest: seq<Mention>, nerType: string)
    ensures OfType([], nerType) == []
    ensures OfType([m] + rest, nerType) == (if m.nerType == nerType then [m] else []) + OfType(rest, nerType)
  {
    assert ([m] + rest)[1..] == rest;
  }

  // ---------------------------------------------------------------- subjects

  ghost predicate HasArg(s: Sentence, ms: seq<Mention>, t: nat, deps: set<string>)
    requires WellFormed(s) && t < |s.tokens|
  {
    exists m :: IsArg(s, ms, t, deps, m)
  }

  lemma HasArgIff(s: Sentence, ms: seq<Mention>, t: nat, deps: set<string>)
    requires WellFormed(s) && t < |s.tokens|
    ensures Args(s, ms, t, deps) != [] <==> HasArg(s, ms, t, deps)
  {
    var args := Args(s, ms, t, deps);
    if args != [] { ArgsIff(s, ms, t, deps, args[0]); }
    if m :| IsArg(s, ms, t, deps, m) { ArgsIff(s, ms, t, deps, m); }
  }

  /** A token without a subject of its own that hangs on to its head through coordination. */
  ghost predicate Inherits(s: Sentence, ms: seq<Mention>, t: nat)
    requires WellFormed(s) && t < |s.tokens|
  {
    !HasArg(s, ms, t, {"nsubj", "nsubjpass"}) && s.tokens[t].dep == "conj"
  }

  /** From `t` up through coordinated verbs without subjects, `left` heads at most. */
  ghost predicate IsChain(s: Sentence, ms: seq<Mention>, t: nat, chain: seq<nat>, left: nat)
    requires WellFormed(s)
  {
    && 1 <= |chain| <= left + 1 && chain[0] == t && Inside(s, chain)
    && (forall i | 0 <= i < |chain| - 1 :: Inherits(s, ms, chain[i]) && chain[i + 1] == s.tokens[chain[i]].head)
    && (|chain| == left + 1 || !Inherits(s, ms, chain[|chain| - 1]))
  }

  /**
   The subjects at the verb `t`, where the chain ends at `last`: its own, or else, at a
   relative clause, the mention of the word it modifies.
   */
  ghost predicate AreSubjects(s: Sentence, ms: seq<Mention>, last: nat, r: seq<Mention>)
    requires WellFormed(s) && last < |s.tokens|
  {
    if HasArg(s, ms, last, {"nsubj", "nsubjpass"}) then
      r == Args(s, ms, last, {"nsubj", "nsubjpass"})
    else if s.tokens[last].dep == "relcl" then
      && |r| <= 1 && forall m :: m in r <==> FirstCovers(ms, s.tokens[s.tokens[last].head].idx, m)
    else r == []
  }

  lemma {:induction false} SubjectsFrom(s: Sentence, ms: seq<Mention>, t: nat, depth: nat) returns (chain: seq<nat>)
    requires WellFormed(s) && t < |s.tokens| && depth <= 3
    ensures IsChain(s, ms, t, chain, 3 - depth)
    ensures AreSubjects(s, ms, chain[|chain| - 1], VerbSubjects(s, ms, t, depth))
    decreases 3 - depth
  {
    HasArgIff(s, ms, t, {"nsubj", "nsubjpass"});
    chain := [t];
    if Inherits(s, ms, t) && depth < 3 {
      var rest := SubjectsFrom(s, ms, s.tokens[t].head, depth + 1);
      chain := [t] + rest;
    } else if !HasArg(s, ms, t, {"nsubj", "nsubjpass"}) && s.tokens[t].dep == "relcl" {
      AntecedentIs(s, ms, t);
    }
  }

  lemma AntecedentIs(s: Sentence, ms: seq<Mention>, t: nat)
    requires WellFormed(s) && t < |s.tokens|
    ensures var idx := s.tokens[s.tokens[t].head].idx;
      var r := Include([], MentionAt(ms, idx));
      |r| <= 1 && forall m :: m in r <==> FirstCovers(ms, idx, m)
  {
    var idx := s.tokens[s.tokens[t].head].idx;
    forall m ensures m in Include([], MentionAt(ms, idx)) <==> FirstCovers(ms, idx, m) { OneFirst(ms, idx, m); }
  }

  /** Founders are the subjects found within three heads, or else the agents. */
  lemma FoundersAre(s: Sentence, ms: seq<Mention>, t: nat) returns (chain: seq<nat>, subjects: seq<Mention>)
    requires WellFormed(s) && t < |s.tokens|
    ensures IsChain(s, ms, t, chain, 3) && AreSubjects(s, ms, chain[|chain| - 1], subjects)
    ensures subjects != [] ==> Founders(s, ms, t) == subjects
    ensures subjects == [] ==> forall m ::
      m in Founders(s, ms, t) <==> IsBelow(s, ms, s.tokens[t].children, "agent", None, m)
  {
    chain := SubjectsFrom(s, ms, t, 0);
    subjects := VerbSubjects(s, ms, t, 0);
    forall m ensures m in AgentMentions(s, ms, t) <==> IsBelow(s, ms, s.tokens[t].children, "agent", None, m) {
      ThroughIff(s, ms, s.tokens[t].children, "agent", None, m);
    }
  }

  // ---------------------------------------------------------------- the order of arguments

  /** The token `c`, followed by those coordinated with it, brings the mention as its `l`-th. */
  ghost predicate BringsAt(s: Sentence, ms: seq<Mention>, c: nat, l: nat, m: Mention)
    requires WellFormed(s) && c < |s.tokens|
  {
    var ts := [c] + s.tokens[c].conjuncts;
    l < |ts| && MentionOf(s, ms, ts[l]) == Some(m)
  }

  ghost predicate BringsBefore(s: Sentence, ms: seq<Mention>, c: nat, l: nat, m: Mention)
    requires WellFormed(s) && c < |s.tokens|
  {
    exists e: nat :: e < l && BringsAt(s, ms, c, e, m)
  }

  /** Wherever `b` is attached, `a` has been attached before. */
  ghost predicate AttachedFirst(s: Sentence, ms: seq<Mention>, cs: seq<nat>, deps: set<string>, a: Mention, b: Mention)
    requires WellFormed(s) && Inside(s, cs)
  {
    forall k, l: nat | 0 <= k < |cs| && s.tokens[cs[k]].dep in deps && BringsAt(s, ms, cs[k], l, b) ::
      IsAttached(s, ms, cs[..k], deps, a) || BringsBefore(s, ms, cs[k], l, a)
  }

  ghost predicate InOrder(s: Sentence, ms: seq<Mention>, cs: seq<nat>, deps: set<string>, out: seq<Mention>)
    requires WellFormed(s) && Inside(s, cs)
  {
    forall p, q | 0 <= p < q < |out| :: out[p] != out[q] && AttachedFirst(s, ms, cs, deps, out[p], out[q])
  }

  ghost predicate MentionedBefore(s: Sentence, ms: seq<Mention>, ts: seq<nat>, l: nat, m: Mention)
    requires WellFormed(s) && Inside(s, ts) && l <= |ts|
  {
    exists e :: 0 <= e < l && MentionOf(s, ms, ts[e]) == Some(m)
  }

  ghost predicate InTurnAmong(s: Sentence, ms: seq<Mention>, ts: seq<nat>, a: Mention, b: Mention)
    requires WellFormed(s) && Inside(s, ts)
  {
    forall l | 0 <= l < |ts| && MentionOf(s, ms, ts[l]) == Some(b) :: MentionedBefore(s, ms, ts, l, a)
  }

  /** `r` is `out` with what the tokens bring besides, each once and in the order they bring it. */
  ghost predicate Grew(s: Sentence, ms: seq<Mention>, out: seq<Mention>, ts: seq<nat>, r: seq<Mention>)
    requires WellFormed(s) && Inside(s, ts)
  {
    && out <= r && (forall p, q | 0 <= p < q < |r| && |out| <= q :: r[p] != r[q])
    && (forall p | |out| <= p < |r| :: MentionedBefore(s, ms, ts, |ts|, r[p]))
    && (forall p, q | |out| <= p < q < |r| :: InTurnAmong(s, ms, ts, r[p], r[q]))
  }

  lemma MentionedOneMore(s: Sentence, ms: seq<Mention>, ts: seq<nat>, last: nat, l: nat, m: Mention)
    requires WellFormed(s) && Inside(s, ts) && last < |s.tokens| && l <= |ts|
    ensures Inside(s, ts + [last])
    ensures MentionedBefore(s, ms, ts + [last], l, m) <==> MentionedBefore(s, ms, ts, l, m)
    ensures MentionedBefore(s, ms, ts + [last], |ts| + 1, m) <==>
            MentionedBefore(s, ms, ts, |ts|, m) || MentionOf(s, ms, last) == Some(m)
  {
    var more := ts + [last];
    assert more[|ts|] == last && forall e | 0 <= e < |ts| :: more[e] == ts[e];
  }

  lemma TurnOneMore(s: Sentence, ms: seq<Mention>, ts: seq<nat>, last: nat, a: Mention, b: Mention)
    requires WellFormed(s) && Inside(s, ts) && last < |s.tokens| && InTurnAmong(s, ms, ts, a, b)
    requires MentionOf(s, ms, last) == Some(b) ==> MentionedBefore(s, ms, ts, |ts|, a)
    ensures Inside(s, ts + [last]) && InTurnAmong(s, ms, ts + [last], a, b)
  {
    var more := ts + [last];
    forall l | 0 <= l < |more| && MentionOf(s, ms, more[l]) == Some(b) ensures MentionedBefore(s, ms, more, l, a) {
      MentionedOneMore(s, ms, ts, last, l, a);
    }
  }

  lemma NeverMentioned(s: Sentence, ms: seq<Mention>, ts: seq<nat>, a: Mention, b: Mention)
    requires WellFormed(s) && Inside(s, ts) && !MentionedBefore(s, ms, ts, |ts|, b)
    ensures InTurnAmong(s, ms, ts, a, b)
  {
  }

  lemma GrewOneMore(s: Sentence, ms: seq<Mention>, out: seq<Mention>, ts: seq<nat>, last: nat, r: seq<Mention>)
    requires WellFormed(s) && Inside(s, ts) && last < |s.tokens| && Grew(s, ms, out, ts, r)
    requires forall m :: m in r <==> m in out || MentionedBefore(s, ms, ts, |ts|, m)
    ensures Inside(s, ts + [last]) && Grew(s, ms, out, ts + [last], Include(r, MentionOf(s, ms, last)))
  {
    var more, after := ts + [last], Include(r, MentionOf(s, ms, last));
    forall p | |out| <= p < |after| ensures MentionedBefore(s, ms, more, |more|, after[p]) {
      MentionedOneMore(s, ms, ts, last, 0, after[p]);
    }
    forall p, q | |out| <= p < q < |after| ensures InTurnAmong(s, ms, more, after[p], after[q]) {
      if q == |r| {
        assert after[q] !in r;
        NeverMentioned(s, ms, ts, after[p], after[q]);
      }
      TurnOneMore(s, ms, ts, last, after[p], after[q]);
    }
  }

  lemma {:induction false} IncludeAllGrew(s: Sentence, ms: seq<Mention>, out: seq<Mention>, ts: seq<nat>)
    requires WellFormed(s) && Inside(s, ts)
    ensures Grew(s, ms, out, ts, IncludeAll(s, ms, out, ts))
  {
    if ts != [] {
      var front, last := ts[..|ts| - 1], ts[|ts| - 1];
      var r := IncludeAll(s, ms, out, front);
      IncludeAllGrew(s, ms, out, front);
      forall m ensures m in r <==> m in out || MentionedBefore(s, ms, front, |front|, m) {
        IncludeAllIff(s, ms, out, front, m);
      }
      GrewOneMore(s, ms, out, front, last, r);
      assert ts == front + [last];
    }
  }

  lemma OrderOneMore(s: Sentence, ms: seq<Mention>, front: seq<nat>, c: nat, deps: set<string>,
                     out: seq<Mention>, r: seq<Mention>)
    requires WellFormed(s) && Inside(s, front) && c < |s.tokens| && InOrder(s, ms, front, deps, out)
    requires forall m :: m in out <==> IsAttached(s, ms, front, deps, m)
    requires Inside(s, [c] + s.tokens[c].conjuncts)
    requires if s.tokens[c].dep in deps then Grew(s, ms, out, [c] + s.tokens[c].conjuncts, r) else r == out
    ensures Inside(s, front + [c]) && InOrder(s, ms, front + [c], deps, r)
  {
    forall p, q | 0 <= p < q < |r| ensures r[p] != r[q] && AttachedFirst(s, ms, front + [c], deps, r[p], r[q]) {
      if q < |out| {
        assert r[p] == out[p] && r[q] == out[q];
      } else {
        assert r[q] !in out;
        NotAttachedYet(s, ms, front, deps, r[p], r[q]);
      }
      if s.tokens[c].dep in deps {
        if p < |out| { assert r[p] == out[p] && r[p] in out; }
        FirstOneMore(s, ms, front, c, deps, r[p], r[q]);
      } else {
        FirstOneMore(s, ms, front, c, deps, r[p], r[q]);
      }
    }
  }

  lemma NotAttachedYet(s: Sentence, ms: seq<Mention>, cs: seq<nat>, deps: set<string>, a: Mention, b: Mention)
    requires WellFormed(s) && Inside(s, cs) && !IsAttached(s, ms, cs, deps, b)
    ensures AttachedFirst(s, ms, cs, deps, a, b)
  {
  }

  lemma FirstOneMore(s: Sentence, ms: seq<Mention>, front: seq<nat>, c: nat, deps: set<string>, a: Mention, b: Mention)
    requires WellFormed(s) && Inside(s, front) && c < |s.tokens| && AttachedFirst(s, ms, front, deps, a, b)
    requires Inside(s, [c] + s.tokens[c].conjuncts)
    requires s.tokens[c].dep in deps ==>
      IsAttached(s, ms, front, deps, a) || InTurnAmong(s, ms, [c] + s.tokens[c].conjuncts, a, b)
    ensures Inside(s, front + [c]) && AttachedFirst(s, ms, front + [c], deps, a, b)
  {
    var cs, ts := front + [c], [c] + s.tokens[c].conjuncts;
    forall k, l: nat | 0 <= k < |cs| && s.tokens[cs[k]].dep in deps && BringsAt(s, ms, cs[k], l, b)
      ensures IsAttached(s, ms, cs[..k], deps, a) || BringsBefore(s, ms, cs[k], l, a)
    {
      if k < |front| {
        assert cs[..k] == front[..k] && cs[k] == front[k];
      } else {
        assert cs[..k] == front && cs[k] == c;
        if !IsAttached(s, ms, front, deps, a) {
          assert MentionedBefore(s, ms, ts, l, a);
          var e :| 0 <= e < l && MentionOf(s, ms, ts[e]) == Some(a);
          assert BringsAt(s, ms, c, e, a);
        }
      }
    }
  }

  lemma {:induction false} AttachedInOrder(s: Sentence, ms: seq<Mention>, cs: seq<nat>, deps: set<string>)
    requires WellFormed(s) && Inside(s, cs)
    ensures InOrder(s, ms, cs, deps, Attached(s, ms, cs, deps))
  {
    if cs != [] {
      var front, c := cs[..|cs| - 1], cs[|cs| - 1];
      var out := Attached(s, ms, front, deps);
      AttachedInOrder(s, ms, front, deps);
      forall m ensures m in out <==> IsAttached(s, ms, front, deps, m) { AttachedIff(s, ms, front, deps, m); }
      if s.tokens[c].dep in deps { IncludeAllGrew(s, ms, out, [c] + s.tokens[c].conjuncts); }
      OrderOneMore(s, ms, front, c, deps, out, Attached(s, ms, cs, deps));
      assert cs == front + [c];
    }
  }

  /** The loops collect each mention once, in the order in which the parse attaches them. */
  lemma ArgsInOrder(s: Sentence, ms: seq<Mention>, t: nat, deps: set<string>)
    requires WellFormed(s) && t < |s.tokens|
    ensures InOrder(s, ms, s.tokens[t].children, deps, Args(s, ms, t, deps))
  {
    AttachedInOrder(s, ms, s.tokens[t].children, deps);
  }

  // ---------------------------------------------------------------- the fallbacks

  /** `m` is the only mention of its type. */
  ghost predicate IsOnly(ms: seq<Mention>, m: Mention, nerType: string) {
    exists i :: 0 <= i < |ms| && ms[i] == m && forall j | 0 <= j < |ms| :: ms[j].nerType == nerType <==> j == i
  }

  /** The mentions at `i` and `k` are the only ones of the type. */
  ghost predicate OnlyAt(ms: seq<Mention>, i: int, k: int, nerType: string) {
    forall j | 0 <= j < |ms| :: ms[j].nerType == nerType <==> j == i || j == k
  }

  /** `a` and `b`, in this order, are the only mentions of their type. */
  ghost predicate AreOnly(ms: seq<Mention>, a: Mention, b: Mention, nerType: string) {
    exists i, k :: 0 <= i < k < |ms| && ms[i] == a && ms[k] == b && OnlyAt(ms, i, k, nerType)
  }

  ghost predicate NoneOf(ms: seq<Mention>, nerType: string) {
    forall j | 0 <= j < |ms| :: ms[j].nerType != nerType
  }

  lemma {:induction false} NoneIff(ms: seq<Mention>, nerType: string)
    ensures OfType(ms, nerType) == [] <==> NoneOf(ms, nerType)
  {
    if ms != [] {
      NoneIff(ms[1..], nerType);
      assert forall j | 0 < j < |ms| :: ms[j] == ms[1..][j - 1];
    }
  }

  lemma {:induction false} OnlyIff(ms: seq<Mention>, nerType: string, m: Mention)
    ensures OfType(ms, nerType) == [m] <==> IsOnly(ms, m, nerType)
  {
    if ms != [] {
      var rest := ms[1..];
      assert ms == [ms[0]] + rest;
      OnlyIff(rest, nerType, m);
      NoneIff(rest, nerType);
      OnlyCons(ms[0], rest, m, nerType);
    }
  }

  lemma OnlyCons(first: Mention, rest: seq<Mention>, m: Mention, nerType: string)
    ensures IsOnly([first] + rest, m, nerType) <==>
      if first.nerType == nerType then first == m && NoneOf(rest, nerType) else IsOnly(rest, m, nerType)
  {
    var ms := [first] + rest;
    assert forall j | 0 < j < |ms| :: ms[j] == rest[j - 1];
    if IsOnly(ms, m, nerType) {
      var i :| 0 <= i < |ms| && ms[i] == m && forall j | 0 <= j < |ms| :: ms[j].nerType == nerType <==> j == i;
      if first.nerType == nerType {
        forall j | 0 <= j < |rest| ensures rest[j].nerType != nerType { assert ms[j + 1] == rest[j]; }
      } else {
        assert rest[i - 1] == m;
        forall j | 0 <= j < |rest| ensures rest[j].nerType == nerType <==> j == i - 1 { assert ms[j + 1] == rest[j]; }
      }
    }
    if first.nerType != nerType && IsOnly(rest, m, nerType) {
      var i :| 0 <= i < |rest| && rest[i] == m && forall j | 0 <= j < |rest| :: rest[j].nerType == nerType <==> j == i;
      assert ms[i + 1] == m;
    }
    if first.nerType == nerType && first == m && NoneOf(rest, nerType) { assert ms[0] == m; }
  }

  lemma {:induction false} TwoIff(ms: seq<Mention>, nerType: string, a: Mention, b: Mention)
    ensures OfType(ms, nerType) == [a, b] <==> AreOnly(ms, a, b, nerType)
  {
    if ms != [] {
      var rest := ms[1..];
      assert ms == [ms[0]] + rest;
      TwoIff(rest, nerType, a, b);
      OnlyIff(rest, nerType, b);
      assert [ms[0]] + OfType(rest, nerType) == [a, b] <==> ms[0] == a && OfType(rest, nerType) == [b] by {
        assert [a, b][1..] == [b] && ([ms[0]] + OfType(rest, nerType))[1..] == OfType(rest, nerType);
      }
      TwoCons(ms[0], rest, a, b, nerType);
    }
  }

  lemma TwoCons(first: Mention, rest: seq<Mention>, a: Mention, b: Mention, nerType: string)
    ensures AreOnly([first] + rest, a, b, nerType) <==>
      if first.nerType == nerType then first == a && IsOnly(rest, b, nerType) else AreOnly(rest, a, b, nerType)
  {
    if AreOnly([first] + rest, a, b, nerType) { TwoConsOnlyIf(first, rest, a, b, nerType); }
    if first.nerType == nerType && first == a && IsOnly(rest, b, nerType) {
      var k :| 0 <= k < |rest| && rest[k] == b && forall j | 0 <= j < |rest| :: rest[j].nerType == nerType <==> j == k;
      TwoAt(first, rest, 0, k + 1, nerType);
    }
    if first.nerType != nerType && AreOnly(rest, a, b, nerType) {
      var i, k :| 0 <= i < k < |rest| && rest[i] == a && rest[k] == b && OnlyAt(rest, i, k, nerType);
      TwoAt(first, rest, i + 1, k + 1, nerType);
    }
  }

  lemma TwoAt(first: Mention, rest: seq<Mention>, i: nat, k: nat, nerType: string)
    requires i < k <= |rest| && (first.nerType == nerType <==> i == 0) && OnlyAt(rest, i - 1, k - 1, nerType)
    ensures AreOnly([first] + rest, if i == 0 then first else rest[i - 1], rest[k - 1], nerType)
  {
    OnlyBehind(first, rest, i, k, nerType);
    assert ([first] + rest)[k] == rest[k - 1];
  }

  lemma TwoConsOnlyIf(first: Mention, rest: seq<Mention>, a: Mention, b: Mention, nerType: string)
    requires AreOnly([first] + rest, a, b, nerType)
    ensures if first.nerType == nerType then first == a && IsOnly(rest, b, nerType) else AreOnly(rest, a, b, nerType)
  {
    var ms := [first] + rest;
    var i, k :| 0 <= i < k < |ms| && ms[i] == a && ms[k] == b && OnlyAt(ms, i, k, nerType);
    OnlyBehind(first, rest, i, k, nerType);
    assert rest[k - 1] == b;
    if i > 0 { assert rest[i - 1] == a; }
  }

  lemma OnlyBehind(first: Mention, rest: seq<Mention>, i: nat, k: nat, nerType: string)
    ensures OnlyAt([first] + rest, i, k, nerType) <==>
      (first.nerType == nerType <==> i == 0 || k == 0) && OnlyAt(rest, i - 1, k - 1, nerType)
  {
    var ms := [first] + rest;
    forall j | 0 <= j < |rest| ensures ms[j + 1] == rest[j] {}
    if OnlyAt(ms, i, k, nerType) {
      assert ms[0] == first || |ms| == 0;
      forall j | 0 <= j < |rest| ensures rest[j].nerType == nerType <==> j == i - 1 || j == k - 1 {
        assert ms[j + 1].nerType == nerType <==> j + 1 == i || j + 1 == k;
      }
    }
    if (first.nerType == nerType <==> i == 0 || k == 0) && OnlyAt(rest, i - 1, k - 1, nerType) {
      forall j | 0 <= j < |ms| ensures ms[j].nerType == nerType <==> j == i || j == k {
        if j > 0 { assert ms[j] == rest[j - 1]; }
      }
    }
  }

  ghost predicate Holds(rs: seq<Relation>, kind: Kind) {
    exists i :: 0 <= i < |rs| && rs[i].kind == kind
  }

  lemma {:induction false} HoldsIff(rs: seq<Relation>, kind: Kind)
    ensures HasKind(rs, kind) <==> Holds(rs, kind)
  {
    if rs != [] {
      var n := |rs| - 1;
      HoldsIff(rs[..n], kind);
      if i :| 0 <= i < n && rs[..n][i].kind == kind { assert rs[i].kind == kind; }
      if i :| 0 <= i < |rs| && rs[i].kind == kind { assert i == n || rs[..n][i].kind == kind; }
    }
  }

  /**
   The fallbacks: without a founding from the parse, the only person founded the only
   organization; without an acquisition from the parse, the first of the only two
   organizations is related to the second.
   */
  lemma FallbackIff(s: Sentence, ms: seq<Mention>, derived: seq<Relation>, r: Relation)
    ensures r in Fallbacks(s, ms, derived) <==>
      || (&& r == Relation(r.from, r.to, FOUNDED, 0.6, s.text)
          && AnyTrigger(s.lowered, FOUNDED_TRIGGERS) && !Holds(derived, FOUNDED)
          && IsOnly(ms, r.from, PERSON) && IsOnly(ms, r.to, ORGANIZATION))
      || (&& r == Relation(r.from, r.to, ACQUIRED, 0.55, s.text)
          && AnyTrigger(s.lowered, ACQUIRED_TRIGGERS) && !Holds(derived, ACQUIRED)
          && AreOnly(ms, r.from, r.to, ORGANIZATION))
  {
    var people, orgs := OfType(ms, PERSON), OfType(ms, ORGANIZATION);
    HoldsIff(derived, FOUNDED);
    HoldsIff(derived, ACQUIRED);
    OnlyIff(ms, PERSON, r.from);
    OnlyIff(ms, ORGANIZATION, r.to);
    TwoIff(ms, ORGANIZATION, r.from, r.to);
    assert |people| == 1 ==> people == [people[0]];
    assert |orgs| == 1 ==> orgs == [orgs[0]];
    assert |orgs| == 2 ==> orgs == [orgs[0], orgs[1]];
  }

  // ---------------------------------------------------------------- what a document gives

  /** One of the first `n` tokens gives the relation. */
  ghost predicate TokenGives(s: Sentence, ms: seq<Mention>, n: nat, r: Relation)
    requires WellFormed(s) && n <= |s.tokens|
  {
    exists t: nat :: t < n && r in RelationsAt(s, ms, t)
  }

  lemma InThree(a: seq<Relation>, b: seq<Relation>, c: seq<Relation>, r: Relation)
    ensures r in a + b + c <==> r in a || r in b || r in c
  {
  }

  lemma GivenIff(s: Sentence, ms: seq<Mention>, t: nat, r: Relation)
    requires WellFormed(s) && t < |s.tokens|
    ensures r in RelationsAt(s, ms, t) <==>
      r in FoundedAt(s, ms, t) || r in AcquiredAt(s, ms, t) || r in SubsidiaryAt(s, ms, t)
  {
    InThree(FoundedAt(s, ms, t), AcquiredAt(s, ms, t), SubsidiaryAt(s, ms, t), r);
  }

  ghost function All(rs: seq<Relation>): set<Relation> {
    set r | r in rs
  }

  lemma AllConcat(a: seq<Relation>, b: seq<Relation>)
    ensures All(a + b) == All(a) + All(b)
  {
  }

  lemma DerivedSnoc(s: Sentence, ms: seq<Mention>, m: nat, n: nat)
    requires WellFormed(s) && n == m + 1 <= |s.tokens|
    ensures All(Derived(s, ms, n)) == All(Derived(s, ms, m)) + All(RelationsAt(s, ms, m))
  {
    AllConcat(Derived(s, ms, m), RelationsAt(s, ms, m));
  }

  /** `sets` holds what each token gives. */
  ghost predicate ByToken(s: Sentence, ms: seq<Mention>, sets: seq<set<Relation>>)
    requires WellFormed(s)
  {
    |sets| == |s.tokens| && forall t | 0 <= t < |sets| :: sets[t] == All(RelationsAt(s, ms, t))
  }

  lemma {:induction false} DerivedUnion(s: Sentence, ms: seq<Mention>, sets: seq<set<Relation>>, n: nat)
    requires WellFormed(s) && n <= |s.tokens| && ByToken(s, ms, sets)
    ensures All(Derived(s, ms, n)) == SentenceEnds.Union(sets[..n])
  {
    if n == 0 {
      assert sets[..n] == [] && Derived(s, ms, n) == [];
    } else {
      var m := n - 1;
      DerivedUnion(s, ms, sets, m);
      SentenceEnds.UnionSnoc(sets, m);
      DerivedSnoc(s, ms, m, n);
      assert sets[m] == All(RelationsAt(s, ms, m));
    }
  }

  lemma DerivedIff(s: Sentence, ms: seq<Mention>, r: Relation)
    requires WellFormed(s)
    ensures r in Derived(s, ms, |s.tokens|) <==> TokenGives(s, ms, |s.tokens|, r)
  {
    var sets := seq(|s.tokens|, t requires 0 <= t < |s.tokens| => All(RelationsAt(s, ms, t)));
    DerivedUnion(s, ms, sets, |s.tokens|);
    assert sets[..|s.tokens|] == sets;
    assert r in All(Derived(s, ms, |s.tokens|)) <==> exists t :: 0 <= t < |sets| && r in sets[t];
    assert forall t | 0 <= t < |sets| :: r in sets[t] <==> r in RelationsAt(s, ms, t);
  }

  /** A relation the sentence gives: from one of its tokens or a fallback, if some trigger occurs. */
  ghost predicate SentenceGives(s: Sentence, ms: seq<Mention>, r: Relation)
    requires WellFormed(s)
  {
    var here := MentionsIn(ms, s);
    && here != []
    && (|| AnyTrigger(s.lowered, FOUNDED_TRIGGERS) || AnyTrigger(s.lowered, COFOUNDER_TRIGGERS)
        || AnyTrigger(s.lowered, SUBSIDIARY_TRIGGERS) || AnyTrigger(s.lowered, ACQUIRED_TRIGGERS))
    && (TokenGives(s, here, |s.tokens|, r) || r in Fallbacks(s, here, Derived(s, here, |s.tokens|)))
  }

  lemma {:induction false} CandidatesIff(doc: seq<Sentence>, ms: seq<Mention>, r: Relation)
    requires forall i | 0 <= i < |doc| :: WellFormed(doc[i])
    ensures r in Candidates(doc, ms) <==> exists i :: 0 <= i < |doc| && SentenceGives(doc[i], ms, r)
  {
    if doc != [] {
      var n := |doc| - 1;
      CandidatesIff(doc[..n], ms, r);
      DerivedIff(doc[n], MentionsIn(ms, doc[n]), r);
      if i :| 0 <= i < n && SentenceGives(doc[..n][i], ms, r) { assert SentenceGives(doc[i], ms, r); }
      if i :| 0 <= i < |doc| && SentenceGives(doc[i], ms, r) { assert i == n || doc[..n][i] == doc[i]; }
    }
  }

  /** Pairs come source by source, and for each source target by target. */
  lemma PairsInTurn(a: Mention, sources: seq<Mention>, b: Mention, targets: seq<Mention>, wantFrom: string,
                    wantTo: string)
    ensures Pairs([], targets, wantFrom, wantTo) == [] && PairsWith(a, [], wantTo) == []
    ensures Pairs([a] + sources, targets, wantFrom, wantTo) ==
      (if a.nerType == wantFrom then PairsWith(a, targets, wantTo) else []) + Pairs(sources, targets, wantFrom, wantTo)
    ensures PairsWith(a, [b] + targets, wantTo) ==
      (if b.nerType == wantTo && b != a then [(a, b)] else []) + PairsWith(a, targets, wantTo)
  {
    assert ([a] + sources)[1..] == sources && ([b] + targets)[1..] == targets;
  }

  /** Couples come person by person, each with those behind. */
  lemma CouplesInTurn(a: Mention, b: Mention, people: seq<Mention>)
    ensures PersonPairs([]) == [] && PersonPairs([a] + people) == PairsAfter(a, people) + PersonPairs(people)
    ensures PairsAfter(a, []) == [] && PairsAfter(a, [b] + people) == [(a, b)] + PairsAfter(a, people)
  {
    assert ([a] + people)[1..] == people && ([b] + people)[1..] == people;
  }

  /** What stands below a token comes child by child. */
  lemma BelowInTurn(s: Sentence, ms: seq<Mention>, cs: seq<nat>, c: nat, dep: string, base: Option<string>)
    requires WellFormed(s) && Inside(s, cs) && c < |s.tokens|
    ensures Inside(s, cs + [c]) && Through(s, ms, [], dep, base) == []
    ensures Through(s, ms, cs + [c], dep, base) ==
      Through(s, ms, cs, dep, base) + if Links(s.tokens[c], dep, base) then Args(s, ms, c, {"pobj"}) else []
  {
    assert (cs + [c])[..|cs|] == cs;
  }

  lemma {:induction false} RelatedInTurn(pairs: seq<(Mention, Mention)>, kind: Kind, confidence: real,
                                         evidence: string, i: nat)
    requires i < |pairs|
    ensures Relate(pairs, kind, confidence, evidence)[i] ==
      Relation(pairs[i].0, pairs[i].1, kind, confidence, evidence)
    ensures |Swap(pairs)| == |pairs| && Swap(pairs)[i] == (pairs[i].1, pairs[i].0)
  {
    if i > 0 {
      RelatedInTurn(pairs[1..], kind, confidence, evidence, i - 1);
    } else if |pairs| > 1 {
      RelatedInTurn(pairs[1..], kind, confidence, evidence, 0);
    }
  }

  /** Candidates come in the order of the text; at a token, foundings before acquisitions before subsidiaries. */
  lemma CandidatesInTurn(doc: seq<Sentence>, s: Sentence, ms: seq<Mention>, t: nat)
    requires (forall i | 0 <= i < |doc| :: WellFormed(doc[i])) && WellFormed(s) && t < |s.tokens|
    ensures forall i | 0 <= i < |doc + [s]| :: WellFormed((doc + [s])[i])
    ensures Candidates(doc + [s], ms) == Candidates(doc, ms) + SentenceRelations(s, ms)
    ensures Derived(s, ms, 0) == []
    ensures Derived(s, ms, t + 1) ==
      Derived(s, ms, t) + (FoundedAt(s, ms, t) + AcquiredAt(s, ms, t) + SubsidiaryAt(s, ms, t))
  {
    assert (doc + [s])[..|doc|] == doc;
  }

  predicate SameTriple(a: Relation, b: Relation) {
    && a.from.spanStart == b.from.spanStart && a.from.spanEnd == b.from.spanEnd && a.kind == b.kind
    && a.to.spanStart == b.to.spanStart && a.to.spanEnd == b.to.spanEnd
  }

  /** Kept is, in order, the first candidate of every pair of spans and kind. */
  lemma TriplesOnce(cs: seq<Relation>)
    ensures var kept := FirstOfEach(cs);
      && (forall i, j | 0 <= i < j < |kept| :: !SameTriple(kept[i], kept[j]))
      && (forall i | 0 <= i < |cs| :: cs[i] in kept <== forall j | 0 <= j < i :: !SameTriple(cs[j], cs[i]))
      && (forall r | r in kept :: FirstAmong(cs, r))
  {
    DeduplicationIs(cs);
    var kept := FirstOfEach(cs);
    forall r | r in kept ensures FirstAmong(cs, r) {
      var n := FirstIndex(cs, Key(r));
      assert cs[n] == r && forall j | 0 <= j < n :: !SameTriple(cs[j], r);
    }
    forall i | 0 <= i < |cs| && forall j | 0 <= j < i :: !SameTriple(cs[j], cs[i]) ensures cs[i] in kept {
      var n := FirstIndex(cs, Key(cs[i]));
      assert n == i;
      assert Represented(kept, Key(cs[i]));
      var p :| 0 <= p < |kept| && Key(kept[p]) == Key(cs[i]);
      assert IsFirst(cs, kept[p]);
    }
  }

  ghost predicate FirstAmong(cs: seq<Relation>, r: Relation) {
    exists n :: 0 <= n < |cs| && cs[n] == r && forall j | 0 <= j < n :: !SameTriple(cs[j], r)
  }
}
