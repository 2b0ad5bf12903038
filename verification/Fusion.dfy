/** Reciprocal rank fusion and the removal of duplicate candidates. Scores are reals. */
module Fusion {
  import opened Ordering
  import opened Prelude

  datatype Retrieved = Retrieved(id: string, doc: string, text: string)

  datatype FusedResult = FusedResult(id: string, doc: string, text: string, score: real)

  function ScoreOf(r: FusedResult): real {
    r.score
  }

  // ---------------------------------------------------------------- scores

  /** What the item at position `i` of a list contributes; where the code divides by zero, `Divides` says so. */
  function Share(k: int, i: nat): real {
    if k + i + 1 == 0 then 0.0 else 1.0 / (k + i + 1) as real
  }

  /** No rank of the list makes a divisor zero. */
  predicate Divides(k: int, ranked: seq<Retrieved>) {
    !(0 <= -k - 1 < |ranked|)
  }

  function ListScore(k: int, ranked: seq<Retrieved>, id: string): real {
    if ranked == [] then 0.0
    else
      var n := |ranked| - 1;
      ListScore(k, ranked[..n], id) + if ranked[n].id == id then Share(k, n) else 0.0
  }

  function Score(k: int, lists: seq<seq<Retrieved>>, id: string): real {
    if lists == [] then 0.0
    else Score(k, lists[..|lists| - 1], id) + ListScore(k, lists[|lists| - 1], id)
  }

  // ---------------------------------------------------------------- order of first appearance

  function Flatten(lists: seq<seq<Retrieved>>): seq<Retrieved> {
    if lists == [] then [] else Flatten(lists[..|lists| - 1]) + lists[|lists| - 1]
  }

  predicate Mentions(items: seq<Retrieved>, id: string) {
    exists r | r in items :: r.id == id
  }

  /** The first item of each id, in order: what an insertion-ordered dictionary holds. */
  function Firsts(items: seq<Retrieved>): seq<Retrieved> {
    if items == [] then []
    else
      var n := |items| - 1;
      Firsts(items[..n]) + if Mentions(items[..n], items[n].id) then [] else [items[n]]
  }

  ghost predicate DistinctIds(items: seq<Retrieved>) {
    forall i, j | 0 <= i < j < |items| :: items[i].id != items[j].id
  }

  lemma {:induction false} FirstsDistinct(items: seq<Retrieved>)
    ensures DistinctIds(Firsts(items))
    ensures forall id :: Mentions(Firsts(items), id) <==> Mentions(items, id)
    ensures forall r | r in Firsts(items) :: r in items
  {
    if items != [] {
      var n := |items| - 1;
      var before, last := items[..n], items[n];
      FirstsDistinct(before);
      assert items == before + [last];
      forall id ensures Mentions(items, id) <==> Mentions(before, id) || id == last.id {
        if Mentions(before, id) { var r :| r in before && r.id == id; assert r in items; }
        if id == last.id { assert last in items; }
      }
      if !Mentions(before, last.id) {
        var firsts := Firsts(before);
        forall i | 0 <= i < |firsts| ensures firsts[i].id != last.id {
          if firsts[i].id == last.id { assert firsts[i] in firsts; assert Mentions(firsts, last.id); }
        }
        forall id ensures Mentions(firsts + [last], id) <==> Mentions(firsts, id) || id == last.id {
          if Mentions(firsts, id) { var r :| r in firsts && r.id == id; assert r in firsts + [last]; }
          assert last in firsts + [last];
        }
      } else {
        assert Firsts(items) == Firsts(before);
      }
    }
  }

  /** One entry per id, with the first item's document and text and the id's total score. */
  function Entries(k: int, lists: seq<seq<Retrieved>>): seq<FusedResult> {
    var firsts := Firsts(Flatten(lists));
    seq(|firsts|, i requires 0 <= i < |firsts| =>
      FusedResult(firsts[i].id, firsts[i].doc, firsts[i].text, Score(k, lists, firsts[i].id)))
  }

  // ---------------------------------------------------------------- rrf_merge

  function Get(scores: map<string, real>, id: string): real {
    if id in scores then scores[id] else 0.0
  }

  /** The dictionaries once `items` have been seen; `order` is the order their keys were inserted in. */
  ghost predicate Keyed(items: seq<Retrieved>, keys: set<string>, meta: map<string, Retrieved>, order: seq<string>) {
    var firsts := Firsts(items);
    && |order| == |firsts|
    && (forall i | 0 <= i < |firsts| :: order[i] == firsts[i].id && order[i] in meta && meta[order[i]] == firsts[i])
    && (forall id :: id in meta <==> Mentions(items, id))
    && meta.Keys == keys
  }

  lemma MentionsSnoc(items: seq<Retrieved>, item: Retrieved, id: string)
    ensures Mentions(items + [item], id) <==> Mentions(items, id) || id == item.id
  {
    if Mentions(items, id) { var r :| r in items && r.id == id; assert r in items + [item]; }
    assert item in items + [item];
  }

  lemma FirstsMentioned(items: seq<Retrieved>, i: nat)
    requires i < |Firsts(items)|
    ensures Mentions(items, Firsts(items)[i].id)
  {
    FirstsDistinct(items);
    assert Firsts(items)[i] in Firsts(items);
  }

  lemma KeyOne(items: seq<Retrieved>, item: Retrieved, keys: set<string>, meta: map<string, Retrieved>,
               order: seq<string>)
    requires Keyed(items, keys, meta, order)
    ensures item.id in meta ==> Keyed(items + [item], keys + {item.id}, meta, order)
    ensures item.id !in meta ==> Keyed(items + [item], keys + {item.id}, meta[item.id := item], order + [item.id])
  {
    assert (items + [item])[..|items|] == items;
    forall id ensures Mentions(items + [item], id) <==> Mentions(items, id) || id == item.id {
      MentionsSnoc(items, item, id);
    }
    if item.id in meta {
      assert Firsts(items + [item]) == Firsts(items) && keys + {item.id} == keys;
    } else {
      assert Firsts(items + [item]) == Firsts(items) + [item];
      forall i | 0 <= i < |order| ensures order[i] != item.id { FirstsMentioned(items, i); }
      assert meta[item.id := item].Keys == keys + {item.id};
    }
  }

  /** `scores` is `scores0` plus what `ranked` contributes. */
  ghost predicate Tallied(k: int, ranked: seq<Retrieved>, scores0: map<string, real>, scores: map<string, real>) {
    forall id :: Get(scores, id) == Get(scores0, id) + ListScore(k, ranked, id)
  }

  ghost predicate Added(item: Retrieved, share: real, scores0: map<string, real>, scores: map<string, real>) {
    forall id :: Get(scores, id) == Get(scores0, id) + if item.id == id then share else 0.0
  }

  lemma TallyOne(k: int, ranked: seq<Retrieved>, item: Retrieved,
                 scores0: map<string, real>, scores: map<string, real>, after: map<string, real>)
    requires Tallied(k, ranked, scores0, scores) && Added(item, Share(k, |ranked|), scores, after)
    ensures Tallied(k, ranked + [item], scores0, after)
  {
    assert (ranked + [item])[..|ranked|] == ranked;
  }

  method TallyItem(item: Retrieved, share: real, ghost items: seq<Retrieved>,
                   scores0: map<string, real>, meta0: map<string, Retrieved>, order0: seq<string>)
    returns (scores: map<string, real>, meta: map<string, Retrieved>, order: seq<string>)
    requires Keyed(items, scores0.Keys, meta0, order0)
    ensures Keyed(items + [item], scores.Keys, meta, order)
    ensures Added(item, share, scores0, scores)
  {
    KeyOne(items, item, scores0.Keys, meta0, order0);
    scores, meta, order := scores0[item.id := Get(scores0, item.id) + share], meta0, order0;
    assert scores.Keys == scores0.Keys + {item.id};
    if item.id !in meta {
      meta := meta[item.id := item];
      order := order + [item.id];
    }
  }

  lemma OneMore(items: seq<Retrieved>, ranked: seq<Retrieved>, j: nat)
    requires j < |ranked|
    ensures items + ranked[..j + 1] == items + ranked[..j] + [ranked[j]]
    ensures ranked[..j + 1] == ranked[..j] + [ranked[j]]
  {
  }

  /** The inner loop: one ranked list goes into the dictionaries, unless a divisor is zero. */
  method TallyList(k: int, ranked: seq<Retrieved>, ghost items: seq<Retrieved>,
                   scores0: map<string, real>, meta0: map<string, Retrieved>, order0: seq<string>)
    returns (ok: bool, scores: map<string, real>, meta: map<string, Retrieved>, order: seq<string>)
    requires Keyed(items, scores0.Keys, meta0, order0)
    ensures ok <==> Divides(k, ranked)
    ensures ok ==> Keyed(items + ranked, scores.Keys, meta, order) && Tallied(k, ranked, scores0, scores)
  {
    scores, meta, order := scores0, meta0, order0;
    assert items + ranked[..0] == items;
    for j := 0 to |ranked|
      invariant Divides(k, ranked[..j])
      invariant Keyed(items + ranked[..j], scores.Keys, meta, order)
      invariant Tallied(k, ranked[..j], scores0, scores)
    {
      if k + j + 1 == 0 {
        return false, scores, meta, order;
      }
      ghost var before := scores;
      scores, meta, order := TallyItem(ranked[j], Share(k, j), items + ranked[..j], scores, meta, order);
      OneMore(items, ranked, j);
      TallyOne(k, ranked[..j], ranked[j], scores0, before, scores);
    }
    assert ranked[..|ranked|] == ranked;
    ok := true;
  }

  function Fused(k: int, lists: seq<seq<Retrieved>>): seq<FusedResult> {
    SortDesc(Entries(k, lists), ScoreOf)
  }

  /** The configured rank constant is used when none or zero is given. */
  function RankConstant(k: Option<int>, setting: int): int {
    if k == None || k == Some(0) then setting else k.value
  }

  /** Fails exactly when some list is long enough for a negative rank constant to make a divisor zero. */
  method RrfMerge(lists: seq<seq<Retrieved>>, k: Option<int>, setting: int)
    returns (r: Result<seq<FusedResult>, string>)
    ensures var kk := if k == None || k == Some(0) then setting else k.value;
      && (r.Ok? <==> forall l | l in lists :: Divides(kk, l))
      && (r.Ok? ==> r.value == Fused(kk, lists))
  {
    var kk := RankConstant(k, setting);
    var scores: map<string, real> := map[];
    var meta: map<string, Retrieved> := map[];
    var order: seq<string> := [];
    for i := 0 to |lists|
      invariant forall l | l in lists[..i] :: Divides(kk, l)
      invariant Keyed(Flatten(lists[..i]), scores.Keys, meta, order)
      invariant forall id :: Get(scores, id) == Score(kk, lists[..i], id)
    {
      var ok;
      ok, scores, meta, order := TallyList(kk, lists[i], Flatten(lists[..i]), scores, meta, order);
      if !ok {
        assert lists[i] in lists;
        return Err("division by zero");
      }
      assert lists[..i + 1] == lists[..i] + [lists[i]] && lists[..i + 1][..i] == lists[..i];
    }
    assert lists[..|lists|] == lists;
    var entries := seq(|order|, i requires 0 <= i < |order| && order[i] in meta =>
      FusedResult(order[i], meta[order[i]].doc, meta[order[i]].text, Get(scores, order[i])));
    assert entries == Entries(kk, lists);
    r := Ok(SortDesc(entries, ScoreOf));
  }

  // ---------------------------------------------------------------- scores do not depend on the order of the lists

  lemma {:induction false} ScoreWithout(k: int, lists: seq<seq<Retrieved>>, j: nat, id: string)
    requires j < |lists|
    ensures Score(k, lists, id) == Score(k, lists[..j] + lists[j + 1..], id) + ListScore(k, lists[j], id)
  {
    var n := |lists| - 1;
    var rest := lists[..j] + lists[j + 1..];
    if j < n {
      ScoreWithout(k, lists[..n], j, id);
      assert lists[..n][..j] + lists[..n][j + 1..] == rest[..n - 1];
    } else {
      assert rest == lists[..n];
    }
  }

  lemma {:induction false} ScoreIgnoresListOrder(k: int, lists: seq<seq<Retrieved>>, others: seq<seq<Retrieved>>,
                                                 id: string)
    requires multiset(lists) == multiset(others)
    ensures Score(k, lists, id) == Score(k, others, id)
  {
    if lists == [] {
      assert |multiset(others)| == 0;
    } else {
      var n := |lists| - 1;
      var last := lists[n];
      assert last in multiset(others);
      var j :| 0 <= j < |others| && others[j] == last;
      assert lists == lists[..n] + [last];
      assert others == others[..j] + [last] + others[j + 1..];
      assert multiset(lists[..n]) == multiset(lists) - multiset{last};
      assert multiset(others[..j] + others[j + 1..]) == multiset(others) - multiset{last};
      ScoreIgnoresListOrder(k, lists[..n], others[..j] + others[j + 1..], id);
      ScoreWithout(k, others, j, id);
    }
  }

  // ---------------------------------------------------------------- dominance

  lemma {:induction false} ListScoreAbsent(k: int, ranked: seq<Retrieved>, id: string)
    requires forall i | 0 <= i < |ranked| :: ranked[i].id != id
    ensures ListScore(k, ranked, id) == 0.0
  {
    if ranked != [] { ListScoreAbsent(k, ranked[..|ranked| - 1], id); }
  }

  lemma {:induction false} ListScoreAt(k: int, ranked: seq<Retrieved>, i: nat)
    requires DistinctIds(ranked) && i < |ranked|
    ensures ListScore(k, ranked, ranked[i].id) == Share(k, i)
  {
    var n := |ranked| - 1;
    if i < n {
      ListScoreAt(k, ranked[..n], i);
    } else {
      ListScoreAbsent(k, ranked[..n], ranked[n].id);
    }
  }

  lemma {:induction false} ListScoreNonNegative(k: nat, ranked: seq<Retrieved>, id: string)
    ensures ListScore(k, ranked, id) >= 0.0
  {
    if ranked != [] { ListScoreNonNegative(k, ranked[..|ranked| - 1], id); }
  }

  lemma EarlierCountsMore(k: nat, i: nat, j: nat)
    requires i < j
    ensures Share(k, i) > Share(k, j) > 0.0
  {
    var a, b := (k + i + 1) as real, (k + j + 1) as real;
    assert 0.0 < a < b;
    assert 1.0 / a - 1.0 / b == (b - a) / (a * b);
  }

  /** In this list `a` stands before `b` if `b` is in it at all. */
  ghost predicate Outranks(ranked: seq<Retrieved>, a: string, b: string) {
    forall j | 0 <= j < |ranked| && ranked[j].id == b :: exists i :: 0 <= i < j && ranked[i].id == a
  }

  lemma OutrankedScoresLess(k: nat, ranked: seq<Retrieved>, a: string, b: string)
    requires DistinctIds(ranked) && Outranks(ranked, a, b)
    ensures ListScore(k, ranked, a) >= ListScore(k, ranked, b)
    ensures Mentions(ranked, b) ==> ListScore(k, ranked, a) > ListScore(k, ranked, b)
  {
    if Mentions(ranked, b) {
      var r :| r in ranked && r.id == b;
      var j :| 0 <= j < |ranked| && ranked[j] == r;
      var i :| 0 <= i < j && ranked[i].id == a;
      ListScoreAt(k, ranked, i);
      ListScoreAt(k, ranked, j);
      EarlierCountsMore(k, i, j);
    } else {
      forall i | 0 <= i < |ranked| ensures ranked[i].id != b { assert ranked[i] in ranked; }
      ListScoreAbsent(k, ranked, b);
      ListScoreNonNegative(k, ranked, a);
    }
  }

  lemma {:induction false} DominanceScores(k: nat, lists: seq<seq<Retrieved>>, a: string, b: string)
    requires forall l | l in lists :: DistinctIds(l) && Outranks(l, a, b)
    ensures Score(k, lists, a) >= Score(k, lists, b)
    ensures (exists l | l in lists :: Mentions(l, b)) ==> Score(k, lists, a) > Score(k, lists, b)
  {
    if lists != [] {
      var before, last := lists[..|lists| - 1], lists[|lists| - 1];
      assert lists == before + [last] && last in lists;
      DominanceScores(k, before, a, b);
      OutrankedScoresLess(k, last, a, b);
    }
  }

  /**
   With duplicate-free lists, a chunk that outranks another wherever the other
   appears precedes it in the fused list.
   */
  lemma FusionRespectsDominance(k: nat, lists: seq<seq<Retrieved>>, a: string, b: string, i: nat, j: nat)
    requires forall l | l in lists :: DistinctIds(l) && Outranks(l, a, b)
    requires exists l | l in lists :: Mentions(l, b)
    requires var fused := Fused(k, lists);
      i < |fused| && j < |fused| && fused[i].id == a && fused[j].id == b
    ensures i < j
  {
    var entries := Entries(k, lists);
    var fused := SortDesc(entries, ScoreOf);
    SortDescCorrect(entries, ScoreOf, 0.0);
    SortDescMembers(entries, ScoreOf);
    DominanceScores(k, lists, a, b);
    assert fused[i] in entries && fused[j] in entries;
    assert fused[i].score == Score(k, lists, a) && fused[j].score == Score(k, lists, b);
    assert i != j && forall p, q | 0 <= p < q < |fused| :: ScoreOf(fused[p]) >= ScoreOf(fused[q]);
  }

  // ---------------------------------------------------------------- _dedupe

  predicate Holds(candidates: seq<FusedResult>, id: string) {
    exists c | c in candidates :: c.id == id
  }

  /** `r` is the first of the best-scored candidates with its id. */
  ghost predicate IsBest(candidates: seq<FusedResult>, r: FusedResult) {
    exists i | 0 <= i < |candidates| :: candidates[i] == r
      && (forall j | 0 <= j < |candidates| && candidates[j].id == r.id :: candidates[j].score <= r.score)
      && (forall j | 0 <= j < i && candidates[j].id == r.id :: candidates[j].score < r.score)
  }

  /** The values of the dictionary: one best candidate per id. */
  ghost predicate OneBestPerId(candidates: seq<FusedResult>, kept: seq<FusedResult>) {
    && DistinctResults(kept)
    && (forall i | 0 <= i < |kept| :: IsBest(candidates, kept[i]))
    && (forall id :: Holds(kept, id) <==> Holds(candidates, id))
  }

  /** Position of the value for `id` in the dictionary, the length if there is none. */
  function Slot(kept: seq<FusedResult>, id: string): (i: nat)
    ensures i <= |kept| && (i < |kept| ==> kept[i].id == id) && (forall j | 0 <= j < i :: kept[j].id != id)
  {
    if kept == [] || kept[0].id == id then 0 else 1 + Slot(kept[1..], id)
  }

  lemma BestStays(candidates: seq<FusedResult>, r: FusedResult, c: FusedResult)
    requires IsBest(candidates, r) && (c.id == r.id ==> c.score <= r.score)
    ensures IsBest(candidates + [c], r)
  {
    var more := candidates + [c];
    var i :| 0 <= i < |candidates| && candidates[i] == r
      && (forall j | 0 <= j < |candidates| && candidates[j].id == r.id :: candidates[j].score <= r.score)
      && (forall j | 0 <= j < i && candidates[j].id == r.id :: candidates[j].score < r.score);
    assert more[i] == r && forall j | 0 <= j < |candidates| :: more[j] == candidates[j];
  }

  lemma NewBest(candidates: seq<FusedResult>, c: FusedResult)
    requires forall j | 0 <= j < |candidates| && candidates[j].id == c.id :: candidates[j].score < c.score
    ensures IsBest(candidates + [c], c)
  {
    var more := candidates + [c];
    assert more[|candidates|] == c && forall j | 0 <= j < |candidates| :: more[j] == candidates[j];
  }

  lemma BestBounds(candidates: seq<FusedResult>, r: FusedResult, j: nat)
    requires IsBest(candidates, r) && j < |candidates| && candidates[j].id == r.id
    ensures candidates[j].score <= r.score
  {
  }

  lemma HoldsSnoc(candidates: seq<FusedResult>, c: FusedResult, id: string)
    ensures Holds(candidates + [c], id) <==> Holds(candidates, id) || id == c.id
  {
    if Holds(candidates, id) { var r :| r in candidates && r.id == id; assert r in candidates + [c]; }
    assert c in candidates + [c];
  }

  /** A candidate of a new id is appended. */
  lemma AppendBest(candidates: seq<FusedResult>, seen: seq<FusedResult>, c: FusedResult)
    requires OneBestPerId(candidates, seen) && Slot(seen, c.id) == |seen|
    ensures OneBestPerId(candidates + [c], seen + [c])
  {
    forall id ensures Holds(seen + [c], id) <==> Holds(candidates + [c], id) {
      HoldsSnoc(candidates, c, id);
      HoldsSnoc(seen, c, id);
    }
    assert !Holds(seen, c.id);
    forall j | 0 <= j < |candidates| ensures candidates[j].id != c.id {
      assert candidates[j] in candidates;
      assert candidates[j].id == c.id ==> Holds(candidates, c.id);
    }
    NewBest(candidates, c);
    forall i | 0 <= i < |seen| ensures seen[i].id != c.id && IsBest(candidates + [c], seen[i]) {
      BestStays(candidates, seen[i], c);
    }
  }

  ghost predicate DistinctResults(kept: seq<FusedResult>) {
    forall i, j | 0 <= i < j < |kept| :: kept[i].id != kept[j].id
  }

  lemma ReplaceDistinct(seen: seq<FusedResult>, slot: nat, c: FusedResult)
    requires DistinctResults(seen) && slot < |seen| && seen[slot].id == c.id
    ensures DistinctResults(seen[slot := c])
  {
    var after := seen[slot := c];
    forall i, j | 0 <= i < j < |after| ensures after[i].id != after[j].id {
      assert after[i].id == seen[i].id && after[j].id == seen[j].id && seen[i].id != seen[j].id;
    }
  }

  lemma ReplaceIsBest(candidates: seq<FusedResult>, seen: seq<FusedResult>, slot: nat, c: FusedResult, i: nat)
    requires DistinctResults(seen) && slot < |seen| && seen[slot].id == c.id && i < |seen|
    requires IsBest(candidates, seen[i])
    ensures IsBest(candidates + [c], if i == slot && c.score > seen[slot].score then c else seen[i])
  {
    if i == slot {
      HeldOrReplaced(candidates, seen[slot], c);
    } else {
      assert seen[i].id != seen[slot].id;
      BestStays(candidates, seen[i], c);
    }
  }

  /** A better candidate takes the place of the one held; a worse one changes nothing. */
  lemma ReplaceBest(candidates: seq<FusedResult>, seen: seq<FusedResult>, slot: nat, c: FusedResult)
    requires OneBestPerId(candidates, seen) && slot < |seen| && seen[slot].id == c.id
    ensures OneBestPerId(candidates + [c], if c.score > seen[slot].score then seen[slot := c] else seen)
  {
    var after := if c.score > seen[slot].score then seen[slot := c] else seen;
    ReplaceDistinct(seen, slot, c);
    forall i | 0 <= i < |after| ensures IsBest(candidates + [c], after[i]) {
      ReplaceIsBest(candidates, seen, slot, c, i);
    }
    forall id ensures Holds(after, id) <==> Holds(candidates + [c], id) {
      HoldsSnoc(candidates, c, id);
      SameIds(seen, slot, c, id);
    }
  }

  lemma HeldOrReplaced(candidates: seq<FusedResult>, held: FusedResult, c: FusedResult)
    requires IsBest(candidates, held) && held.id == c.id
    ensures IsBest(candidates + [c], if c.score > held.score then c else held)
  {
    if c.score > held.score {
      forall j | 0 <= j < |candidates| && candidates[j].id == c.id ensures candidates[j].score < c.score {
        BestBounds(candidates, held, j);
      }
      NewBest(candidates, c);
    } else {
      BestStays(candidates, held, c);
    }
  }

  lemma SameIds(seen: seq<FusedResult>, slot: nat, c: FusedResult, id: string)
    requires slot < |seen| && seen[slot].id == c.id
    ensures Holds(seen[slot := c], id) <==> Holds(seen, id)
    ensures Holds(seen, c.id)
  {
    var after := seen[slot := c];
    assert seen[slot] in seen && after[slot] in after;
    forall i | 0 <= i < |seen| && i != slot ensures seen[i] in after && after[i] in seen { assert after[i] == seen[i]; }
    if Holds(seen, id) {
      var i :| 0 <= i < |seen| && seen[i].id == id;
      assert after[i].id == id;
    }
    if Holds(after, id) {
      var i :| 0 <= i < |after| && after[i].id == id;
      assert seen[i].id == id;
    }
  }

  lemma {:induction false} CountedOnce(kept: seq<FusedResult>, r: FusedResult)
    requires DistinctResults(kept)
    ensures multiset(kept)[r] <= 1
  {
    if kept != [] {
      var n := |kept| - 1;
      CountedOnce(kept[..n], r);
      assert kept == kept[..n] + [kept[n]];
      if kept[n] == r { assert r !in kept[..n]; }
    }
  }

  lemma SortKeepsBest(candidates: seq<FusedResult>, seen: seq<FusedResult>)
    requires OneBestPerId(candidates, seen)
    ensures OneBestPerId(candidates, SortDesc(seen, ScoreOf)) && Descending(SortDesc(seen, ScoreOf), ScoreOf)
  {
    var sorted := SortDesc(seen, ScoreOf);
    SortDescCorrect(seen, ScoreOf, 0.0);
    SortDescMembers(seen, ScoreOf);
    forall i, j | 0 <= i < j < |sorted| ensures sorted[i].id != sorted[j].id {
      assert sorted[i] in seen && sorted[j] in seen;
      if sorted[i] == sorted[j] {
        CountedTwice(sorted, i, j);
        CountedOnce(seen, sorted[i]);
        assert false;
      }
    }
    forall i | 0 <= i < |sorted| ensures IsBest(candidates, sorted[i]) {
      assert sorted[i] in seen;
    }
  }

  /** The dictionary after one more candidate: a new id goes to the end, a better score replaces the value. */
  function KeepBetter(seen: seq<FusedResult>, c: FusedResult): seq<FusedResult> {
    var slot := Slot(seen, c.id);
    if slot == |seen| then seen + [c]
    else if c.score > seen[slot].score then seen[slot := c]
    else seen
  }

  function BestOf(candidates: seq<FusedResult>): seq<FusedResult> {
    if candidates == [] then []
    else KeepBetter(BestOf(candidates[..|candidates| - 1]), candidates[|candidates| - 1])
  }

  function Deduped(candidates: seq<FusedResult>): seq<FusedResult> {
    SortDesc(BestOf(candidates), ScoreOf)
  }

  lemma {:induction false} BestOfIs(candidates: seq<FusedResult>)
    ensures OneBestPerId(candidates, BestOf(candidates))
  {
    if candidates != [] {
      var front, c := candidates[..|candidates| - 1], candidates[|candidates| - 1];
      var seen := BestOf(front);
      BestOfIs(front);
      assert candidates == front + [c];
      if Slot(seen, c.id) == |seen| {
        AppendBest(front, seen, c);
      } else {
        ReplaceBest(front, seen, Slot(seen, c.id), c);
      }
    }
  }

  /** Deduplication keeps exactly one candidate per id, the first of the best-scored, in descending order of score. */
  lemma DedupedIs(candidates: seq<FusedResult>)
    ensures OneBestPerId(candidates, Deduped(candidates)) && Descending(Deduped(candidates), ScoreOf)
  {
    BestOfIs(candidates);
    SortKeepsBest(candidates, BestOf(candidates));
  }

  method Dedupe(candidates: seq<FusedResult>) returns (r: seq<FusedResult>)
    ensures r == Deduped(candidates)
    ensures OneBestPerId(candidates, r) && Descending(r, ScoreOf)
  {
    var seen: seq<FusedResult> := [];
    for i := 0 to |candidates|
      invariant seen == BestOf(candidates[..i])
    {
      var c := candidates[i];
      assert candidates[..i + 1][..i] == candidates[..i];
      var slot := Slot(seen, c.id);
      if slot == |seen| {
        seen := seen + [c];
      } else if c.score > seen[slot].score {
        seen := seen[slot := c];
      }
    }
    assert candidates[..|candidates|] == candidates;
    r := SortDesc(seen, ScoreOf);
    DedupedIs(candidates);
  }

  // ---------------------------------------------------------------- deduplication after fusion

  lemma {:induction false} DistinctStay(candidates: seq<FusedResult>)
    requires DistinctResults(candidates)
    ensures BestOf(candidates) == candidates
  {
    if candidates != [] {
      var front, c := candidates[..|candidates| - 1], candidates[|candidates| - 1];
      DistinctStay(front);
      assert forall j | 0 <= j < |front| :: front[j] == candidates[j] && front[j].id != c.id;
      assert candidates == front + [c];
    }
  }

  lemma FusedDistinct(k: int, lists: seq<seq<Retrieved>>)
    ensures DistinctResults(Fused(k, lists)) && Descending(Fused(k, lists), ScoreOf)
  {
    var entries := Entries(k, lists);
    FirstsDistinct(Flatten(lists));
    assert DistinctResults(entries);
    BestOfIs(entries);
    DistinctStay(entries);
    SortKeepsBest(entries, entries);
  }

  /** Deduplicating a fused list changes nothing. */
  lemma FusedStays(k: int, lists: seq<seq<Retrieved>>)
    ensures Deduped(Fused(k, lists)) == Fused(k, lists)
  {
    FusedDistinct(k, lists);
    DistinctStay(Fused(k, lists));
    SortedStays(Fused(k, lists), ScoreOf);
  }

  lemma BestIsOne(candidates: seq<FusedResult>, r: FusedResult, q: FusedResult)
    requires IsBest(candidates, r) && IsBest(candidates, q) && r.id == q.id
    ensures r == q
  {
  }

  /** No candidate of `graph` with the id of `f` scores higher. */
  ghost predicate Unbeaten(graph: seq<FusedResult>, f: FusedResult) {
    forall j | 0 <= j < |graph| && graph[j].id == f.id :: graph[j].score <= f.score
  }

  lemma UnbeatenIsBest(fused: seq<FusedResult>, graph: seq<FusedResult>, i: nat)
    requires DistinctResults(fused) && i < |fused|
    ensures IsBest(fused + graph, fused[i]) <==> Unbeaten(graph, fused[i])
  {
    var all, f := fused + graph, fused[i];
    assert all[i] == f && forall j | 0 <= j < |graph| :: all[|fused| + j] == graph[j];
    assert forall j | 0 <= j < |fused| && j != i :: all[j].id != f.id;
    if IsBest(all, f) {
      forall j | 0 <= j < |graph| && graph[j].id == f.id ensures graph[j].score <= f.score {
        BestBounds(all, f, |fused| + j);
      }
    }
  }

  /**
   Fused results deduplicated together with graph candidates: a fused result stays
   exactly when no graph candidate of its id scores higher.
   */
  lemma FusedWithGraph(k: int, lists: seq<seq<Retrieved>>, graph: seq<FusedResult>, f: FusedResult)
    requires f in Fused(k, lists)
    ensures f in Deduped(Fused(k, lists) + graph) <==> Unbeaten(graph, f)
  {
    var fused := Fused(k, lists);
    var all, kept := fused + graph, Deduped(fused + graph);
    FusedDistinct(k, lists);
    DedupedIs(all);
    var i :| 0 <= i < |fused| && fused[i] == f;
    UnbeatenIsBest(fused, graph, i);
    if Unbeaten(graph, f) {
      assert all[i] == f && f in all;
      assert Holds(all, f.id);
      var r :| r in kept && r.id == f.id;
      assert IsBest(all, r);
      BestIsOne(all, f, r);
    }
  }

  // ---------------------------------------------------------------- said of the lists alone

  /** The shares of an id add up, list by list and rank by rank. */
  lemma ScoreIsSum(k: int, lists: seq<seq<Retrieved>>, ranked: seq<Retrieved>, item: Retrieved, id: string)
    ensures Score(k, [], id) == 0.0 && ListScore(k, [], id) == 0.0
    ensures Score(k, lists + [ranked], id) == Score(k, lists, id) + ListScore(k, ranked, id)
    ensures k + |ranked| + 1 != 0 ==>
      ListScore(k, ranked + [item], id) ==
      ListScore(k, ranked, id) + if item.id == id then 1.0 / (k + |ranked| + 1) as real else 0.0
  {
    assert (lists + [ranked])[..|lists|] == lists;
    assert (ranked + [item])[..|ranked|] == ranked;
  }

  /** The lists one after the other. */
  lemma FlattenIs(lists: seq<seq<Retrieved>>, ranked: seq<Retrieved>)
    ensures Flatten([]) == [] && Flatten(lists + [ranked]) == Flatten(lists) + ranked
  {
    assert (lists + [ranked])[..|lists|] == lists;
  }

  /** A rank divides by zero exactly when it is the negated rank constant. */
  lemma DividesIff(k: int, ranked: seq<Retrieved>)
    ensures Divides(k, ranked) <==> forall i {:trigger ranked[i]} | 0 <= i < |ranked| :: k + i + 1 != 0
  {
    if !Divides(k, ranked) { assert ranked[-k - 1] == ranked[-k - 1]; }
  }

  ghost predicate IsFirst(items: seq<Retrieved>, i: nat)
    requires i < |items|
  {
    forall j | 0 <= j < i :: items[j].id != items[i].id
  }

  /** The places, in order, of the first item of each id. */
  ghost predicate FirstPlaces(items: seq<Retrieved>, at: seq<nat>) {
    && (forall p, q | 0 <= p < q < |at| :: at[p] < at[q])
    && (forall p | 0 <= p < |at| :: at[p] < |items|)
    && (forall i | 0 <= i < |items| :: i in at <==> IsFirst(items, i))
  }

  lemma FirstStays(items: seq<Retrieved>, last: Retrieved, i: nat)
    requires i < |items|
    ensures IsFirst(items + [last], i) <==> IsFirst(items, i)
  {
    assert forall j | 0 <= j <= i :: (items + [last])[j] == items[j];
  }

  lemma LastIsFirst(items: seq<Retrieved>, last: Retrieved)
    ensures IsFirst(items + [last], |items|) <==> !Mentions(items, last.id)
  {
    var more := items + [last];
    forall j | 0 <= j < |items| ensures more[j] in items { assert more[j] == items[j]; }
    if Mentions(items, last.id) {
      var j :| 0 <= j < |items| && items[j].id == last.id;
      assert more[j].id == last.id;
    }
  }

  lemma PlacesOneMore(items: seq<Retrieved>, last: Retrieved, at: seq<nat>)
    requires FirstPlaces(items, at)
    ensures FirstPlaces(items + [last], if Mentions(items, last.id) then at else at + [|items|])
  {
    var n, after := |items|, if Mentions(items, last.id) then at else at + [|items|];
    LastIsFirst(items, last);
    forall i | 0 <= i <= n ensures i in after <==> IsFirst(items + [last], i) {
      if i < n { FirstStays(items, last, i); }
    }
  }

  ghost predicate StandAt(items: seq<Retrieved>, firsts: seq<Retrieved>, at: seq<nat>) {
    FirstPlaces(items, at) && |firsts| == |at| && forall p | 0 <= p < |at| :: firsts[p] == items[at[p]]
  }

  lemma FirstsOneMore(items: seq<Retrieved>, last: Retrieved, firsts: seq<Retrieved>, at: seq<nat>)
    requires StandAt(items, firsts, at)
    ensures if Mentions(items, last.id) then StandAt(items + [last], firsts, at)
      else StandAt(items + [last], firsts + [last], at + [|items|])
  {
    PlacesOneMore(items, last, at);
  }

  lemma {:induction false} FirstsAt(items: seq<Retrieved>) returns (at: seq<nat>)
    ensures StandAt(items, Firsts(items), at)
  {
    if items == [] {
      at := [];
    } else {
      var n := |items| - 1;
      var firsts := Firsts(items[..n]);
      assert items == items[..n] + [items[n]] && firsts + [] == firsts;
      at := FirstsAt(items[..n]);
      FirstsOneMore(items[..n], items[n], firsts, at);
      if !Mentions(items[..n], items[n].id) { at := at + [n]; }
    }
  }

  /**
   The fused list: one entry for each id retrieved, with the document and the text of the first
   item of that id, sorted by score, equal scores by first appearance.
   */
  lemma FusedIs(k: int, lists: seq<seq<Retrieved>>)
    returns (at: seq<nat>, entries: seq<FusedResult>, places: seq<nat>)
    ensures var items := Flatten(lists);
      && FirstPlaces(items, at) && |entries| == |at|
      && (forall p | 0 <= p < |at| ::
            var first := items[at[p]];
            entries[p] == FusedResult(first.id, first.doc, first.text, Score(k, lists, first.id)))
      && IsStableSort(entries, Fused(k, lists), (e: FusedResult) => e.score, places)
  {
    at := FirstsAt(Flatten(lists));
    entries := Entries(k, lists);
    places := SortDescPlaces(entries, ScoreOf);
  }

  /** `a` appears before `b` does for the first time. */
  ghost predicate AppearsFirst(candidates: seq<FusedResult>, a: string, b: string) {
    forall m | 0 <= m < |candidates| && candidates[m].id == b :: Holds(candidates[..m], a)
  }

  ghost predicate InFirstOrder(candidates: seq<FusedResult>, kept: seq<FusedResult>) {
    forall p, q | 0 <= p < q < |kept| :: AppearsFirst(candidates, kept[p].id, kept[q].id)
  }

  lemma AppearsStill(candidates: seq<FusedResult>, c: FusedResult, a: string, b: string)
    requires AppearsFirst(candidates, a, b) && (c.id == b ==> Holds(candidates, a))
    ensures AppearsFirst(candidates + [c], a, b)
  {
    var more := candidates + [c];
    forall m | 0 <= m < |more| && more[m].id == b ensures Holds(more[..m], a) {
      assert more[..m] == if m < |candidates| then candidates[..m] else candidates;
    }
  }

  lemma HeldKept(candidates: seq<FusedResult>, kept: seq<FusedResult>, p: nat)
    requires OneBestPerId(candidates, kept) && p < |kept|
    ensures Holds(candidates, kept[p].id)
  {
    assert kept[p] in kept && Holds(kept, kept[p].id);
  }

  lemma KeepBetterInOrder(candidates: seq<FusedResult>, kept: seq<FusedResult>, c: FusedResult)
    requires OneBestPerId(candidates, kept) && InFirstOrder(candidates, kept)
    ensures InFirstOrder(candidates + [c], KeepBetter(kept, c))
  {
    var after := KeepBetter(kept, c);
    assert forall p | 0 <= p < |kept| :: after[p].id == kept[p].id;
    forall p, q | 0 <= p < q < |after| ensures AppearsFirst(candidates + [c], after[p].id, after[q].id) {
      HeldKept(candidates, kept, p);
      if q == |kept| {
        assert !Holds(kept, c.id) && !Holds(candidates, c.id);
        forall m | 0 <= m < |candidates| ensures candidates[m].id != c.id { assert candidates[m] in candidates; }
      }
      AppearsStill(candidates, c, after[p].id, after[q].id);
    }
  }

  lemma {:induction false} BestOfInOrder(candidates: seq<FusedResult>)
    ensures InFirstOrder(candidates, BestOf(candidates))
  {
    if candidates != [] {
      var n := |candidates| - 1;
      BestOfInOrder(candidates[..n]);
      BestOfIs(candidates[..n]);
      KeepBetterInOrder(candidates[..n], BestOf(candidates[..n]), candidates[n]);
      assert candidates == candidates[..n] + [candidates[n]];
    }
  }

  /** Deduplicated: the best candidate of each id, sorted by score, equal scores by first appearance of the id. */
  lemma DedupedInOrder(candidates: seq<FusedResult>) returns (kept: seq<FusedResult>, places: seq<nat>)
    ensures OneBestPerId(candidates, kept) && InFirstOrder(candidates, kept)
    ensures IsStableSort(kept, Deduped(candidates), (e: FusedResult) => e.score, places)
  {
    kept := BestOf(candidates);
    BestOfIs(candidates);
    BestOfInOrder(candidates);
    places := SortDescPlaces(kept, ScoreOf);
  }
}
