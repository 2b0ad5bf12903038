/** The bounded research loop: a model proposes actions, a controller with a budget executes them. */
module Agent {
  import opened Citations
  import opened Text

  datatype Item = Item(id: string, text: string)

  /** The arguments of an action: their JSON text with sorted keys, and the two fields a `finish` carries. */
  datatype Args = Args(json: string, answer: string, citations: seq<string>)

  /** `text` is the printed action, from which its tokens are estimated. */
  datatype Action = Action(tool: string, args: Args, text: string)

  datatype Outcome = Found(items: seq<Item>) | UnknownTool | DuplicateCall | Finish

  datatype Step = Step(action: Action, outcome: Outcome)

  datatype Event = ToolCall(action: Action) | AgentStopped(reason: StopReason, stepsUsed: nat)

  datatype StopReason = Finished | MaxStepsExhausted

  /** The model and the tools: what each does may depend on everything that happened before. */
  datatype World = World(next: seq<Step> -> Action, call: (seq<Step>, Action) -> seq<Item>)

  datatype Report = Report(verified: VerifiedAnswer, retrieved: seq<Item>, sources: seq<Item>)

  const TOOLS := {"search_text", "graph_lookup", "resolve_entity"}

  // ---------------------------------------------------------------- budget

  /** The number of words that end at or behind position `i`. */
  function Words(s: string, i: nat): nat
    requires i <= |s|
    decreases |s| - i
  {
    if i == |s| then 0
    else if IsSpace(s[i]) then Words(s, i + 1)
    else if i + 1 < |s| && !IsSpace(s[i + 1]) then Words(s, i + 1)
    else 1 + Words(s, i + 1)
  }

  function EstimateTokens(text: string): (n: nat)
    ensures n >= 1
  {
    if Words(text, 0) > 1 then Words(text, 0) else 1
  }

  function Key(a: Action): string {
    a.tool + ":" + a.args.json
  }

  /** No two calls of known tools share a key unless they share tool and arguments. */
  lemma KeyIdentifies(a: Action, b: Action)
    requires a.tool in TOOLS && b.tool in TOOLS
    ensures Key(a) == Key(b) <==> a.tool == b.tool && a.args.json == b.args.json
  {
    if Key(a) == Key(b) {
      assert a.tool[0] == Key(a)[0] && b.tool[0] == Key(b)[0];
      assert a.args.json == Key(a)[|a.tool| + 1..] && b.args.json == Key(b)[|b.tool| + 1..];
    }
  }

  class AgentBudget {
    const maxSteps: int
    const maxTotalTokens: int
    var stepsUsed: nat
    var tokensUsed: nat
    var seenCalls: set<string>

    constructor (maxSteps: int, maxTotalTokens: int)
      ensures this.maxSteps == maxSteps && this.maxTotalTokens == maxTotalTokens
      ensures stepsUsed == 0 && tokensUsed == 0 && seenCalls == {}
    {
      this.maxSteps, this.maxTotalTokens := maxSteps, maxTotalTokens;
      stepsUsed, tokensUsed, seenCalls := 0, 0, {};
    }

    predicate StepsExhausted()
      reads this
    {
      stepsUsed >= maxSteps
    }

    predicate TokensExhausted()
      reads this
    {
      tokensUsed >= maxTotalTokens
    }

    method RecordStep(tokens: nat)
      modifies this
      ensures stepsUsed == old(stepsUsed) + 1 && tokensUsed == old(tokensUsed) + tokens
      ensures seenCalls == old(seenCalls)
    {
      stepsUsed := stepsUsed + 1;
      tokensUsed := tokensUsed + tokens;
    }

    method IsDuplicateCall(a: Action) returns (duplicate: bool)
      modifies this
      ensures duplicate <==> Key(a) in old(seenCalls)
      ensures seenCalls == old(seenCalls) + {Key(a)}
      ensures stepsUsed == old(stepsUsed) && tokensUsed == old(tokensUsed)
    {
      if Key(a) in seenCalls { return true; }
      seenCalls := seenCalls + {Key(a)};
      return false;
    }
  }

  // ---------------------------------------------------------------- runs

  /** The keys of the calls executed in a run. */
  function Executed(steps: seq<Step>): set<string> {
    if steps == [] then {}
    else
      var last := steps[|steps| - 1];
      Executed(steps[..|steps| - 1]) + if last.outcome.Found? then {Key(last.action)} else {}
  }

  function Tokens(steps: seq<Step>): nat {
    if steps == [] then 0
    else Tokens(steps[..|steps| - 1]) + EstimateTokens(steps[|steps| - 1].action.text)
  }

  function OutcomeOf(w: World, before: seq<Step>, a: Action): Outcome {
    if a.tool == "finish" then Finish
    else if a.tool !in TOOLS then UnknownTool
    else if Key(a) in Executed(before) then DuplicateCall
    else Found(w.call(before, a))
  }

  /** The first `n` steps, were nothing ever to stop the loop. */
  function Trace(w: World, n: nat): (steps: seq<Step>)
    ensures |steps| == n
  {
    if n == 0 then []
    else
      var before := Trace(w, n - 1);
      var a := w.next(before);
      before + [Step(a, OutcomeOf(w, before, a))]
  }

  predicate HasFinished(steps: seq<Step>) {
    steps != [] && steps[|steps| - 1].outcome.Finish?
  }

  /** The reason the loop logs: it has only two to choose from. */
  function ReasonOf(steps: seq<Step>): StopReason {
    if HasFinished(steps) then Finished else MaxStepsExhausted
  }

  /** After `n` steps the loop takes another one. */
  predicate GoesOn(w: World, maxSteps: int, maxTokens: int, n: nat) {
    n < maxSteps && Tokens(Trace(w, n)) < maxTokens && !HasFinished(Trace(w, n))
  }

  /** The loop takes exactly `n` steps. */
  ghost predicate Runs(w: World, maxSteps: int, maxTokens: int, n: nat) {
    (forall m: nat | m < n :: GoesOn(w, maxSteps, maxTokens, m)) && !GoesOn(w, maxSteps, maxTokens, n)
  }

  /** An insertion-ordered dictionary of items by id. */
  function Put(gathered: seq<Item>, item: Item): seq<Item> {
    if gathered == [] then [item]
    else if gathered[0].id == item.id then [item] + gathered[1..]
    else [gathered[0]] + Put(gathered[1..], item)
  }

  function PutAll(gathered: seq<Item>, items: seq<Item>): seq<Item> {
    if items == [] then gathered
    else Put(PutAll(gathered, items[..|items| - 1]), items[|items| - 1])
  }

  function Gathered(steps: seq<Step>): seq<Item> {
    if steps == [] then []
    else
      var before, last := Gathered(steps[..|steps| - 1]), steps[|steps| - 1];
      if last.outcome.Found? then PutAll(before, last.outcome.items) else before
  }

  function Ids(items: seq<Item>): set<string> {
    set item | item in items :: item.id
  }

  function ToolCalls(steps: seq<Step>): seq<Event> {
    if steps == [] then []
    else ToolCalls(steps[..|steps| - 1]) + [ToolCall(steps[|steps| - 1].action)]
  }

  /** The answer that goes to verification: the final one, unless it or its list of citations is empty. */
  function FinalAnswer(steps: seq<Step>): string {
    if HasFinished(steps) && steps[|steps| - 1].action.args.citations != []
    then steps[|steps| - 1].action.args.answer
    else ""
  }

  function Only(items: seq<Item>, ids: set<string>): seq<Item> {
    if items == [] then []
    else
      var last := items[|items| - 1];
      Only(items[..|items| - 1], ids) + if last.id in ids then [last] else []
  }

  function ReportOf(word: char -> bool, steps: seq<Step>): Report {
    var gathered := Gathered(steps);
    var verified := Verified(word, FinalAnswer(steps), Ids(gathered));
    Report(verified, gathered, Only(gathered, SupportOf(verified)))
  }

  function SupportOf(verified: VerifiedAnswer): set<string> {
    set id | id in Cited(verified.claims)
  }

  // ---------------------------------------------------------------- the loop

  method GatherAll(gathered0: seq<Item>, items: seq<Item>) returns (gathered: seq<Item>)
    ensures gathered == PutAll(gathered0, items)
  {
    gathered := gathered0;
    for i := 0 to |items|
      invariant gathered == PutAll(gathered0, items[..i])
    {
      assert items[..i + 1][..i] == items[..i];
      gathered := Put(gathered, items[i]);
    }
    assert items[..|items|] == items;
  }

  /** The budget after `steps`. */
  ghost predicate Tracks(budget: AgentBudget, steps: seq<Step>)
    reads budget
  {
    budget.stepsUsed == |steps| && budget.tokensUsed == Tokens(steps) && budget.seenCalls == Executed(steps)
  }

  lemma OneStep(steps: seq<Step>, s: Step)
    ensures Tokens(steps + [s]) == Tokens(steps) + EstimateTokens(s.action.text)
    ensures ToolCalls(steps + [s]) == ToolCalls(steps) + [ToolCall(s.action)]
    ensures Gathered(steps + [s]) ==
      if s.outcome.Found? then PutAll(Gathered(steps), s.outcome.items) else Gathered(steps)
  {
    assert (steps + [s])[..|steps|] == steps;
  }

  /** One turn of the loop, up to the bookkeeping of its result. */
  method TakeTurn(w: World, history: seq<Step>, budget: AgentBudget) returns (step: Step)
    requires Tracks(budget, history)
    modifies budget
    ensures step == Step(w.next(history), OutcomeOf(w, history, w.next(history)))
    ensures Tracks(budget, history + [step])
  {
    var a := w.next(history);
    assert forall o :: (history + [Step(a, o)])[..|history|] == history;
    budget.RecordStep(EstimateTokens(a.text));
    if a.tool == "finish" { return Step(a, Finish); }
    if a.tool !in TOOLS { return Step(a, UnknownTool); }
    var duplicate := budget.IsDuplicateCall(a);
    if duplicate {
      assert {Key(a)} + Executed(history) == Executed(history);
      return Step(a, DuplicateCall);
    }
    return Step(a, Found(w.call(history, a)));
  }

  lemma TraceSnoc(w: World, n: nat, step: Step)
    requires step == Step(w.next(Trace(w, n)), OutcomeOf(w, Trace(w, n), w.next(Trace(w, n))))
    ensures Trace(w, n + 1) == Trace(w, n) + [step]
  {
  }

  /** What `steps` left behind: the gathered items, the log, the final answer and the reason to stop. */
  ghost predicate Recorded(steps: seq<Step>, gathered: seq<Item>, log: seq<Event>, answer: string, reason: StopReason) {
    && gathered == Gathered(steps) && log == ToolCalls(steps) && answer == FinalAnswer(steps)
    && reason == ReasonOf(steps)
  }

  method Record(history: seq<Step>, step: Step, gathered0: seq<Item>, log0: seq<Event>)
    returns (gathered: seq<Item>, log: seq<Event>, answer: string, reason: StopReason)
    requires gathered0 == Gathered(history) && log0 == ToolCalls(history)
    ensures Recorded(history + [step], gathered, log, answer, reason)
  {
    OneStep(history, step);
    gathered, log := gathered0, log0 + [ToolCall(step.action)];
    answer, reason := "", MaxStepsExhausted;
    if step.outcome.Finish? {
      answer := if step.action.args.citations != [] then step.action.args.answer else "";
      reason := Finished;
    }
    if step.outcome.Found? {
      gathered := GatherAll(gathered, step.outcome.items);
    }
  }

  method RunAgent(w: World, word: char -> bool, maxSteps: int, maxTokens: int)
    returns (report: Report, log: seq<Event>, stepsUsed: nat, tokensUsed: nat)
    ensures Runs(w, maxSteps, maxTokens, stepsUsed)
    ensures tokensUsed == Tokens(Trace(w, stepsUsed))
    ensures var steps := Trace(w, stepsUsed);
      && report == ReportOf(word, steps)
      && log == ToolCalls(steps) + [AgentStopped(ReasonOf(steps), stepsUsed)]
  {
    var budget := new AgentBudget(maxSteps, maxTokens);
    var history: seq<Step> := [];
    var gathered, answer, reason := [], "", MaxStepsExhausted;
    log := [];
    while !reason.Finished? && !budget.StepsExhausted() && !budget.TokensExhausted()
      invariant fresh(budget) && budget.maxSteps == maxSteps && budget.maxTotalTokens == maxTokens
      invariant history == Trace(w, budget.stepsUsed) && Tracks(budget, history)
      invariant Recorded(history, gathered, log, answer, reason)
      invariant forall m: nat | m < budget.stepsUsed :: GoesOn(w, maxSteps, maxTokens, m)
      decreases maxSteps - budget.stepsUsed
    {
      assert GoesOn(w, maxSteps, maxTokens, budget.stepsUsed);
      ghost var n := budget.stepsUsed;
      var step := TakeTurn(w, history, budget);
      gathered, log, answer, reason := Record(history, step, gathered, log);
      TraceSnoc(w, n, step);
      history := history + [step];
    }
    var verified := VerifyCitations(word, answer, Ids(gathered));
    report := Report(verified, gathered, Only(gathered, SupportOf(verified)));
    log := log + [AgentStopped(reason, budget.stepsUsed)];
    return report, log, budget.stepsUsed, budget.tokensUsed;
  }

  // ---------------------------------------------------------------- every run is bounded

  lemma {:induction false} EveryStepCosts(w: World, n: nat)
    ensures Tokens(Trace(w, n)) >= n
  {
    if n > 0 {
      EveryStepCosts(w, n - 1);
      assert Trace(w, n)[..n - 1] == Trace(w, n - 1);
    }
  }

  /** Whatever the model proposes, both budgets bound the steps, and the tokens go over by less than the last action. */
  lemma RunsAreBounded(w: World, maxSteps: int, maxTokens: int, n: nat)
    requires Runs(w, maxSteps, maxTokens, n)
    ensures n > 0 ==> n <= maxSteps && n <= maxTokens
    ensures n > 0 ==> Tokens(Trace(w, n)) < maxTokens + EstimateTokens(Trace(w, n)[n - 1].action.text)
    ensures HasFinished(Trace(w, n)) || n >= maxSteps || Tokens(Trace(w, n)) >= maxTokens
    ensures forall m: nat | m < n :: !HasFinished(Trace(w, m))
  {
    if n > 0 {
      assert GoesOn(w, maxSteps, maxTokens, n - 1);
      EveryStepCosts(w, n - 1);
      assert Trace(w, n)[..n - 1] == Trace(w, n - 1);
    }
    forall m: nat | m < n ensures !HasFinished(Trace(w, m)) { assert GoesOn(w, maxSteps, maxTokens, m); }
  }

  /** Some number of steps short of the maximum uses up the tokens without a `finish` on the way. */
  ghost predicate TokensRunOut(w: World, maxSteps: int, maxTokens: int) {
    exists m: nat :: RunsOutAt(w, maxSteps, maxTokens, m)
  }

  ghost predicate RunsOutAt(w: World, maxSteps: int, maxTokens: int, m: nat) {
    m < maxSteps && Tokens(Trace(w, m)) >= maxTokens && forall k: nat | k <= m :: !HasFinished(Trace(w, k))
  }

  /** "max_steps_exhausted" is logged with steps left over exactly when the tokens run out first. */
  lemma ReasonMisleadsIff(w: World, maxSteps: int, maxTokens: int, n: nat)
    requires Runs(w, maxSteps, maxTokens, n)
    ensures ReasonOf(Trace(w, n)).MaxStepsExhausted? && n < maxSteps <==> TokensRunOut(w, maxSteps, maxTokens)
  {
    RunsAreBounded(w, maxSteps, maxTokens, n);
    if ReasonOf(Trace(w, n)).MaxStepsExhausted? && n < maxSteps {
      assert RunsOutAt(w, maxSteps, maxTokens, n);
    }
    if m: nat :| RunsOutAt(w, maxSteps, maxTokens, m) {
      assert !GoesOn(w, maxSteps, maxTokens, m);
      assert m < n ==> GoesOn(w, maxSteps, maxTokens, m);
    }
  }

  /** A model that never finishes stops after one step of a token budget of one, four steps short of the maximum. */
  lemma TokensCanRunOut(w: World)
    requires forall before :: w.next(before).tool != "finish"
    ensures Runs(w, 5, 1, 1) && ReasonOf(Trace(w, 1)) == MaxStepsExhausted
  {
    EveryStepCosts(w, 1);
    assert Trace(w, 0) == [] && GoesOn(w, 5, 1, 0);
    var a := w.next([]);
    assert Trace(w, 1) == [] + [Step(a, OutcomeOf(w, [], a))];
  }

  /** The number of steps is determined: a run takes one course. */
  lemma RunsOneWay(w: World, maxSteps: int, maxTokens: int, n: nat, m: nat)
    requires Runs(w, maxSteps, maxTokens, n) && Runs(w, maxSteps, maxTokens, m)
    ensures n == m
  {
    assert n < m ==> GoesOn(w, maxSteps, maxTokens, n);
    assert m < n ==> GoesOn(w, maxSteps, maxTokens, m);
  }

  // ---------------------------------------------------------------- no call is executed twice

  predicate ExecutedAt(steps: seq<Step>, i: nat, key: string)
    requires i < |steps|
  {
    steps[i].outcome.Found? && Key(steps[i].action) == key
  }

  lemma {:induction false} ExecutedMembers(steps: seq<Step>, key: string)
    ensures key in Executed(steps) <==> exists i | 0 <= i < |steps| :: ExecutedAt(steps, i, key)
  {
    if steps != [] {
      var n := |steps| - 1;
      ExecutedMembers(steps[..n], key);
      if i :| 0 <= i < n && ExecutedAt(steps[..n], i, key) { assert ExecutedAt(steps, i, key); }
      if i :| 0 <= i < |steps| && ExecutedAt(steps, i, key) {
        assert i == n || ExecutedAt(steps[..n], i, key);
      }
      assert steps[n].outcome.Found? && Key(steps[n].action) == key ==> ExecutedAt(steps, n, key);
    }
  }

  lemma {:induction false} TracePrefix(w: World, m: nat, n: nat)
    requires m <= n
    ensures Trace(w, n)[..m] == Trace(w, m)
  {
    if m < n {
      TracePrefix(w, m, n - 1);
      assert Trace(w, n)[..m] == Trace(w, n - 1)[..m];
    }
  }

  lemma StepAt(w: World, i: nat, n: nat)
    requires i < n
    ensures Trace(w, n)[i].outcome == OutcomeOf(w, Trace(w, i), Trace(w, n)[i].action)
    ensures forall k | 0 <= k < i :: Trace(w, n)[k] == Trace(w, i)[k]
  {
    TracePrefix(w, i + 1, n);
    assert Trace(w, n)[i] == Trace(w, n)[..i + 1][i];
    TracePrefix(w, i, n);
  }

  /** A proposed retrieval call is executed exactly when the same call was not executed earlier in the run. */
  lemma ExecutedIffNew(w: World, n: nat, i: nat)
    requires i < n && Trace(w, n)[i].action.tool in TOOLS
    ensures var steps := Trace(w, n);
      steps[i].outcome.Found? <==>
      !exists k :: 0 <= k < i && steps[k].outcome.Found? && Key(steps[k].action) == Key(steps[i].action)
  {
    var steps := Trace(w, n);
    StepAt(w, i, n);
    ExecutedMembers(Trace(w, i), Key(steps[i].action));
    assert forall k | 0 <= k < i :: ExecutedAt(Trace(w, i), k, Key(steps[i].action)) <==>
                                    steps[k].outcome.Found? && Key(steps[k].action) == Key(steps[i].action);
  }

  lemma NoCallTwice(w: World, n: nat, i: nat, j: nat)
    requires i < j < n && Trace(w, n)[i].outcome.Found? && Trace(w, n)[j].outcome.Found?
    ensures Trace(w, n)[i].action.tool != Trace(w, n)[j].action.tool
      || Trace(w, n)[i].action.args.json != Trace(w, n)[j].action.args.json
  {
    StepAt(w, i, n);
    StepAt(w, j, n);
    ExecutedIffNew(w, n, j);
    KeyIdentifies(Trace(w, n)[i].action, Trace(w, n)[j].action);
  }

  // ---------------------------------------------------------------- the log

  lemma {:induction false} ToolCallsAre(steps: seq<Step>)
    ensures |ToolCalls(steps)| == |steps|
    ensures forall i | 0 <= i < |steps| :: ToolCalls(steps)[i] == ToolCall(steps[i].action)
  {
    if steps != [] { ToolCallsAre(steps[..|steps| - 1]); }
  }

  // ---------------------------------------------------------------- what supports the claims

  ghost predicate DistinctItems(items: seq<Item>) {
    forall i, j | 0 <= i < j < |items| :: items[i].id != items[j].id
  }

  lemma IdsOfCons(item: Item, items: seq<Item>)
    ensures Ids([item] + items) == {item.id} + Ids(items)
  {
    assert forall x :: x in [item] + items <==> x == item || x in items;
  }

  lemma IdsOfSnoc(items: seq<Item>, item: Item)
    ensures Ids(items + [item]) == Ids(items) + {item.id}
  {
    assert forall x :: x in items + [item] <==> x in items || x == item;
  }

  lemma IdsOfLast(items: seq<Item>)
    requires items != []
    ensures Ids(items) == Ids(items[..|items| - 1]) + {items[|items| - 1].id}
  {
    assert items == items[..|items| - 1] + [items[|items| - 1]];
    IdsOfSnoc(items[..|items| - 1], items[|items| - 1]);
  }

  lemma {:induction false} PutIs(g: seq<Item>, item: Item)
    requires DistinctItems(g)
    ensures DistinctItems(Put(g, item)) && Ids(Put(g, item)) == Ids(g) + {item.id}
  {
    if g == [] {
    } else {
      assert g == [g[0]] + g[1..];
      IdsOfCons(g[0], g[1..]);
      if g[0].id == item.id {
        IdsOfCons(item, g[1..]);
      } else {
        var rest := Put(g[1..], item);
        PutIs(g[1..], item);
        IdsOfCons(g[0], rest);
        forall i | 0 <= i < |rest| ensures rest[i].id != g[0].id {
          assert rest[i] in rest && rest[i].id in Ids(g[1..]) + {item.id};
        }
      }
    }
  }

  lemma {:induction false} PutAllIs(g: seq<Item>, items: seq<Item>)
    requires DistinctItems(g)
    ensures DistinctItems(PutAll(g, items)) && Ids(PutAll(g, items)) == Ids(g) + Ids(items)
  {
    if items != [] {
      var n := |items| - 1;
      PutAllIs(g, items[..n]);
      PutIs(PutAll(g, items[..n]), items[n]);
      IdsOfLast(items);
    }
  }

  /** `id` came back from a call executed in the run. */
  ghost predicate ReturnedBy(steps: seq<Step>, i: nat, id: string) {
    i < |steps| && steps[i].outcome.Found? && id in Ids(steps[i].outcome.items)
  }

  lemma {:induction false} GatheredIs(steps: seq<Step>)
    ensures DistinctItems(Gathered(steps))
    ensures forall id :: id in Ids(Gathered(steps)) <==> exists i :: ReturnedBy(steps, i, id)
  {
    if steps != [] {
      var n := |steps| - 1;
      var before, last := steps[..n], steps[n];
      GatheredIs(before);
      if last.outcome.Found? { PutAllIs(Gathered(before), last.outcome.items); }
      forall id ensures id in Ids(Gathered(steps)) <==> exists i :: ReturnedBy(steps, i, id) {
        if i :| ReturnedBy(before, i, id) { assert ReturnedBy(steps, i, id); }
        if i :| ReturnedBy(steps, i, id) { assert i == n || ReturnedBy(before, i, id); }
        assert last.outcome.Found? && id in Ids(last.outcome.items) ==> ReturnedBy(steps, n, id);
      }
    }
  }

  /**
   The ids that support the claims of a finished run are exactly those the answer cites
   inline and some call executed in the run returned. The `citations` argument of
   `finish` only has to be non-empty: what it lists is never looked at.
   */
  lemma SupportIsRetrieved(word: char -> bool, steps: seq<Step>, id: string)
    requires Proper(word)
    ensures id in Cited(ReportOf(word, steps).verified.claims) <==>
      id in Cites(word, FinalAnswer(steps)) && exists i :: ReturnedBy(steps, i, id)
  {
    var gathered := Gathered(steps);
    GatheredIs(steps);
    VerifiedCites(word, FinalAnswer(steps), Ids(gathered));
    KeepMembers(Cites(word, FinalAnswer(steps)), Ids(gathered), id);
  }

  /** The citations a finished run lists. */
  function ListedCitations(steps: seq<Step>): seq<string> {
    if HasFinished(steps) then steps[|steps| - 1].action.args.citations else []
  }

  /** The answer cites `id` inline and a call of the run returned it. */
  ghost predicate CitedAndReturned(word: char -> bool, steps: seq<Step>, id: string) {
    id in Cites(word, FinalAnswer(steps)) && exists i :: ReturnedBy(steps, i, id)
  }

  /** Claims stay within the listed citations exactly when the answer cites no returned id that is not listed. */
  lemma SupportIsListedIff(word: char -> bool, steps: seq<Step>)
    requires Proper(word)
    ensures (forall id | id in Cited(ReportOf(word, steps).verified.claims) :: id in ListedCitations(steps)) <==>
            (forall id | CitedAndReturned(word, steps, id) :: id in ListedCitations(steps))
  {
    forall id ensures id in Cited(ReportOf(word, steps).verified.claims) <==> CitedAndReturned(word, steps, id) {
      SupportIsRetrieved(word, steps, id);
    }
  }

  const SEARCH := Action("search_text", Args("{}", "", []), "search")
  const FINISH := Action("finish", Args("{}", "[a].", ["b"]), "finish")

  /** A model that searches, is given the item "a", and finishes citing "a" while it lists "b". */
  const UNLISTED := World(before => if before == [] then SEARCH else FINISH, (before, a) => [Item("a", "")])

  lemma SupportCanBeUnlisted(word: char -> bool)
    requires Proper(word) && word('a')
    ensures Runs(UNLISTED, 6, 20000, 2)
    ensures var steps := Trace(UNLISTED, 2);
      "a" in Cited(ReportOf(word, steps).verified.claims) && "a" !in ListedCitations(steps)
  {
    UnlistedTrace();
    UnlistedCosts();
    UnlistedReturns();
    BracketedId(word, "a", ".");
    assert "[" + "a" + "]" + "." == "[a].";
    SupportIsRetrieved(word, Trace(UNLISTED, 2), "a");
  }

  lemma UnlistedReturns()
    ensures ReturnedBy(Trace(UNLISTED, 2), 0, "a")
  {
    UnlistedTrace();
    assert Item("a", "") in [Item("a", "")];
  }

  lemma UnlistedTrace()
    ensures Trace(UNLISTED, 0) == []
    ensures Trace(UNLISTED, 1) == [Step(SEARCH, Found([Item("a", "")]))]
    ensures Trace(UNLISTED, 2) == [Step(SEARCH, Found([Item("a", "")])), Step(FINISH, Finish)]
  {
    assert Trace(UNLISTED, 1) == Trace(UNLISTED, 0) + [Step(SEARCH, OutcomeOf(UNLISTED, [], SEARCH))];
    var first := Trace(UNLISTED, 1);
    assert Trace(UNLISTED, 2) == first + [Step(FINISH, OutcomeOf(UNLISTED, first, FINISH))];
  }

  lemma UnlistedCosts()
    ensures Runs(UNLISTED, 6, 20000, 2)
  {
    UnlistedTrace();
    var first := Trace(UNLISTED, 1);
    assert first[..0] == [];
    WordsBound("search", 0);
    assert Tokens(first) == Tokens([]) + EstimateTokens("search");
    assert GoesOn(UNLISTED, 6, 20000, 0) && GoesOn(UNLISTED, 6, 20000, 1);
  }

  lemma {:induction false} WordsBound(s: string, i: nat)
    requires i <= |s|
    ensures Words(s, i) <= |s| - i
    decreases |s| - i
  {
    if i < |s| { WordsBound(s, i + 1); }
  }

  lemma {:induction false} OnlyIs(items: seq<Item>, ids: set<string>)
    requires DistinctItems(items)
    ensures DistinctItems(Only(items, ids)) && Ids(Only(items, ids)) == Ids(items) * ids
    ensures forall item | item in Only(items, ids) :: item in items
  {
    if items != [] {
      var n := |items| - 1;
      OnlyIs(items[..n], ids);
      assert items == items[..n] + [items[n]];
      IdsOfSnoc(items[..n], items[n]);
      IdsOfSnoc(Only(items[..n], ids), items[n]);
      assert Only(items[..n], ids) + [] == Only(items[..n], ids);
      forall i | 0 <= i < |Only(items[..n], ids)| ensures Only(items[..n], ids)[i].id != items[n].id {
        assert Only(items[..n], ids)[i] in items[..n];
      }
    }
  }

  /** The sources listed are the retrieved items that support a claim, each once. */
  lemma SourcesAreTheSupport(word: char -> bool, steps: seq<Step>)
    requires Proper(word)
    ensures var r := ReportOf(word, steps);
      && DistinctItems(r.sources)
      && Ids(r.sources) == SupportOf(r.verified)
      && forall item | item in r.sources :: item in r.retrieved
  {
    var gathered := Gathered(steps);
    var r := ReportOf(word, steps);
    GatheredIs(steps);
    OnlyIs(gathered, SupportOf(r.verified));
    forall id | id in SupportOf(r.verified) ensures id in Ids(gathered) { SupportIsRetrieved(word, steps, id); }
  }

  // ---------------------------------------------------------------- said of the steps alone

  /** From `a` to `b` stands a word: a longest run of characters that are not white space. */
  ghost predicate IsWord(s: string, a: nat, b: nat) {
    && a < b <= |s| && (forall k | a <= k < b :: !IsSpace(s[k]))
    && (a > 0 ==> IsSpace(s[a - 1])) && (b < |s| ==> IsSpace(s[b]))
  }

  predicate WordEndsAt(s: string, b: nat) {
    0 < b <= |s| && !IsSpace(s[b - 1]) && (b < |s| ==> IsSpace(s[b]))
  }

  lemma {:induction false} WordStart(s: string, a: nat, b: nat) returns (start: nat)
    requires a < b <= |s| && WordEndsAt(s, b) && forall k | a <= k < b :: !IsSpace(s[k])
    ensures IsWord(s, start, b)
    decreases a
  {
    if a == 0 || IsSpace(s[a - 1]) {
      start := a;
    } else {
      start := WordStart(s, a - 1, b);
    }
  }

  lemma {:induction false} WordEnds(s: string, i: nat) returns (ends: seq<nat>)
    requires i <= |s|
    ensures |ends| == Words(s, i) && forall k, l | 0 <= k < l < |ends| :: ends[k] < ends[l]
    ensures forall b: nat :: b in ends <==> i < b && WordEndsAt(s, b)
    decreases |s| - i
  {
    if i == |s| {
      ends := [];
    } else {
      ends := WordEnds(s, i + 1);
      if WordEndsAt(s, i + 1) {
        forall k | 0 <= k < |ends| ensures i + 1 < ends[k] { assert ends[k] in ends; }
        ends := [i + 1] + ends;
      }
    }
  }

  /** The tokens of a text are its words, here given by where they end, but at least one. */
  lemma TokensAreWords(text: string) returns (ends: seq<nat>)
    ensures EstimateTokens(text) == if ends == [] then 1 else |ends|
    ensures forall k, l | 0 <= k < l < |ends| :: ends[k] < ends[l]
    ensures forall b: nat :: b in ends <==> exists a: nat :: IsWord(text, a, b)
  {
    ends := WordEnds(text, 0);
    forall b: nat ensures WordEndsAt(text, b) <==> exists a: nat :: IsWord(text, a, b) {
      if WordEndsAt(text, b) { var a := WordStart(text, b - 1, b); }
    }
  }

  /** The call of step `i` is executed at an earlier step. */
  ghost predicate CalledBefore(steps: seq<Step>, i: nat)
    requires i < |steps|
  {
    var a := steps[i].action;
    exists k :: 0 <= k < i && steps[k].outcome.Found? && steps[k].action.tool == a.tool
      && steps[k].action.args.json == a.args.json
  }

  /** What becomes of each action the model proposes. */
  lemma StepIs(w: World, n: nat, i: nat)
    requires i < n
    ensures var steps := Trace(w, n);
      var a, r := steps[i].action, steps[i].outcome;
      && a == w.next(steps[..i]) && (r.Finish? <==> a.tool == "finish")
      && (r.UnknownTool? <==> a.tool !in {"finish", "search_text", "graph_lookup", "resolve_entity"})
      && (r.DuplicateCall? <==> a.tool in {"search_text", "graph_lookup", "resolve_entity"} && CalledBefore(steps, i))
      && (r.Found? ==> r.items == w.call(steps[..i], a))
  {
    var steps := Trace(w, n);
    var a := steps[i].action;
    TracePrefix(w, i, n);
    TracePrefix(w, i + 1, n);
    assert steps[i] == Trace(w, i + 1)[i];
    if a.tool in TOOLS {
      ExecutedIffNew(w, n, i);
      forall k | 0 <= k < i && steps[k].outcome.Found? ensures steps[k].action.tool in TOOLS { StepAt(w, k, n); }
      forall k | 0 <= k < i && steps[k].outcome.Found?
        ensures Key(steps[k].action) == Key(a) <==>
                steps[k].action.tool == a.tool && steps[k].action.args.json == a.args.json
      {
        KeyIdentifies(steps[k].action, a);
      }
    }
  }

  /** Only the last step of a run is a `finish`; it decides the reason logged and the answer verified. */
  lemma RunEnds(w: World, word: char -> bool, maxSteps: int, maxTokens: int, n: nat)
    requires Runs(w, maxSteps, maxTokens, n)
    ensures var steps := Trace(w, n);
      && (forall i | 0 <= i < n - 1 :: steps[i].action.tool != "finish")
      && var finished := n > 0 && steps[n - 1].action.tool == "finish";
      && (ReasonOf(steps) == if finished then Finished else MaxStepsExhausted)
      && (!finished ==> n >= maxSteps || Tokens(steps) >= maxTokens)
      && ReportOf(word, steps).verified == Verified(word,
           if finished && steps[n - 1].action.args.citations != [] then steps[n - 1].action.args.answer else "",
           set item | item in Gathered(steps) :: item.id)
  {
    RunsAreBounded(w, maxSteps, maxTokens, n);
    if n > 0 { StepAt(w, n - 1, n); }
    forall i | 0 <= i < n - 1 ensures Trace(w, n)[i].action.tool != "finish" { NotFinishedAt(w, i, n); }
  }

  lemma NotFinishedAt(w: World, i: nat, n: nat)
    requires i < n && !HasFinished(Trace(w, i + 1))
    ensures Trace(w, n)[i].action.tool != "finish"
  {
    StepAt(w, i, n);
    TracePrefix(w, i + 1, n);
    assert Trace(w, n)[i] == Trace(w, i + 1)[i];
  }

  // ---------------------------------------------------------------- the gathered items

  /** Everything the calls of a run returned, one after the other. */
  function Returned(steps: seq<Step>): seq<Item> {
    if steps == [] then []
    else
      var last := steps[|steps| - 1];
      Returned(steps[..|steps| - 1]) + if last.outcome.Found? then last.outcome.items else []
  }

  lemma ReturnedInTurn(steps: seq<Step>, s: Step)
    ensures Returned([]) == []
    ensures Returned(steps + [s]) == Returned(steps) + if s.outcome.Found? then s.outcome.items else []
  {
    assert (steps + [s])[..|steps|] == steps;
  }

  /** `item` is the last one of its id. */
  ghost predicate IsLast(returned: seq<Item>, item: Item) {
    exists k :: 0 <= k < |returned| && returned[k] == item && forall l | k < l < |returned| :: returned[l].id != item.id
  }

  /** `a` is returned before `b` is for the first time. */
  ghost predicate ComesFirst(returned: seq<Item>, a: string, b: string) {
    forall m | 0 <= m < |returned| && returned[m].id == b :: HasId(returned[..m], a)
  }

  ghost predicate HasId(items: seq<Item>, id: string) {
    exists k :: 0 <= k < |items| && items[k].id == id
  }

  /** One item for each id returned: the last one returned, in the order in which the ids first came. */
  ghost predicate IsDictionary(returned: seq<Item>, g: seq<Item>) {
    && (forall id :: HasId(g, id) <==> HasId(returned, id))
    && (forall p | 0 <= p < |g| :: IsLast(returned, g[p]))
    && (forall p, q | 0 <= p < q < |g| :: g[p].id != g[q].id && ComesFirst(returned, g[p].id, g[q].id))
  }

  lemma {:induction false} PutWhere(g: seq<Item>, item: Item)
    ensures !HasId(g, item.id) ==> Put(g, item) == g + [item]
    ensures HasId(g, item.id) ==>
      exists p :: 0 <= p < |g| && g[p].id == item.id && Put(g, item) == g[p := item]
  {
    if g != [] && g[0].id != item.id {
      PutWhere(g[1..], item);
      assert g == [g[0]] + g[1..];
      if HasId(g, item.id) {
        var k :| 0 <= k < |g| && g[k].id == item.id;
        assert g[1..][k - 1].id == item.id;
        var p :| 0 <= p < |g[1..]| && g[1..][p].id == item.id && Put(g[1..], item) == g[1..][p := item];
        assert g[p + 1].id == item.id && Put(g, item) == g[p + 1 := item];
      } else {
        forall k | 0 <= k < |g[1..]| ensures g[1..][k].id != item.id { assert g[k + 1].id != item.id; }
      }
    } else if g != [] {
      assert Put(g, item) == g[0 := item];
    }
  }

  lemma OneMoreReturned(returned: seq<Item>, item: Item)
    ensures IsLast(returned + [item], item)
    ensures forall id :: HasId(returned + [item], id) <==> HasId(returned, id) || id == item.id
    ensures forall x | IsLast(returned, x) && x.id != item.id :: IsLast(returned + [item], x)
    ensures forall a, b | ComesFirst(returned, a, b) && (b != item.id || HasId(returned, a)) ::
      ComesFirst(returned + [item], a, b)
  {
    var r := returned + [item];
    assert r[|returned|] == item;
    forall id ensures HasId(r, id) <==> HasId(returned, id) || id == item.id {
      if HasId(returned, id) {
        var k :| 0 <= k < |returned| && returned[k].id == id;
        assert r[k].id == id;
      }
    }
    forall x | IsLast(returned, x) && x.id != item.id ensures IsLast(r, x) {
      var k :| 0 <= k < |returned| && returned[k] == x && forall l | k < l < |returned| :: returned[l].id != x.id;
      assert r[k] == x;
    }
    forall a, b | ComesFirst(returned, a, b) && (b != item.id || HasId(returned, a)) ensures ComesFirst(r, a, b) {
      forall m | 0 <= m < |r| && r[m].id == b ensures HasId(r[..m], a) {
        assert r[..m] == if m < |returned| then returned[..m] else returned;
      }
    }
  }

  lemma PutKeepsDictionary(returned: seq<Item>, g: seq<Item>, item: Item)
    requires IsDictionary(returned, g)
    ensures IsDictionary(returned + [item], Put(g, item))
  {
    PutWhere(g, item);
    OneMoreReturned(returned, item);
    if HasId(g, item.id) {
      var p :| 0 <= p < |g| && g[p].id == item.id && Put(g, item) == g[p := item];
      PutInPlace(returned, g, item, p);
    } else {
      PutAtEnd(returned, g, item);
    }
  }

  lemma PutInPlace(returned: seq<Item>, g: seq<Item>, item: Item, p: nat)
    requires IsDictionary(returned, g) && p < |g| && g[p].id == item.id
    ensures IsDictionary(returned + [item], g[p := item])
  {
    var r, h := returned + [item], g[p := item];
    OneMoreReturned(returned, item);
    assert forall k | 0 <= k < |g| :: h[k].id == g[k].id;
    forall id ensures HasId(h, id) <==> HasId(g, id) {
      if HasId(g, id) {
        var k :| 0 <= k < |g| && g[k].id == id;
        assert h[k].id == id;
      }
    }
    assert HasId(returned, item.id) by { assert HasId(g, item.id); }
    forall k | 0 <= k < |h| ensures IsLast(r, h[k]) {
      if k != p { assert g[k].id != g[p].id by { assert k < p || p < k; } }
    }
    forall k, l | 0 <= k < l < |h| ensures h[k].id != h[l].id && ComesFirst(r, h[k].id, h[l].id) {
      assert HasId(g, g[k].id);
    }
  }

  lemma PutAtEnd(returned: seq<Item>, g: seq<Item>, item: Item)
    requires IsDictionary(returned, g) && !HasId(g, item.id)
    ensures IsDictionary(returned + [item], g + [item])
  {
    var r, h := returned + [item], g + [item];
    OneMoreReturned(returned, item);
    OneMoreReturned(g, item);
    forall k | 0 <= k < |g| ensures g[k].id != item.id && HasId(returned, g[k].id) { assert HasId(g, g[k].id); }
    forall k, l | 0 <= k < l < |h| ensures h[k].id != h[l].id && ComesFirst(r, h[k].id, h[l].id) {
      if l == |g| { NeverReturned(returned, g[k].id, item.id); }
    }
  }

  lemma NeverReturned(returned: seq<Item>, a: string, b: string)
    requires !HasId(returned, b)
    ensures ComesFirst(returned, a, b)
  {
  }

  lemma {:induction false} PutAllKeepsDictionary(returned: seq<Item>, g: seq<Item>, items: seq<Item>)
    requires IsDictionary(returned, g)
    ensures IsDictionary(returned + items, PutAll(g, items))
  {
    if items == [] {
      assert returned + items == returned;
    } else {
      var n := |items| - 1;
      PutAllKeepsDictionary(returned, g, items[..n]);
      PutKeepsDictionary(returned + items[..n], PutAll(g, items[..n]), items[n]);
      assert returned + items[..n] + [items[n]] == returned + items;
    }
  }

  /** The sources at the end of a run: the last item returned for each id, in the order of first return. */
  lemma {:induction false} GatheredInOrder(steps: seq<Step>)
    ensures IsDictionary(Returned(steps), Gathered(steps))
  {
    if steps != [] {
      var n := |steps| - 1;
      var before, returned, g := steps[..n], Returned(steps[..n]), Gathered(steps[..n]);
      assert steps == before + [steps[n]];
      ReturnedInTurn(before, steps[n]);
      OneStep(before, steps[n]);
      GatheredInOrder(before);
      if steps[n].outcome.Found? {
        PutAllKeepsDictionary(returned, g, steps[n].outcome.items);
      } else {
        assert returned + [] == returned;
      }
    }
  }

  /** `only` are the items at the places `at`, in order, and these are all with one of the ids. */
  ghost predicate PickedAt(items: seq<Item>, ids: set<string>, only: seq<Item>, at: seq<nat>) {
    && |at| == |only| && (forall i, j | 0 <= i < j < |at| :: at[i] < at[j])
    && (forall k | 0 <= k < |at| :: at[k] < |items| && only[k] == items[at[k]])
    && (forall i | 0 <= i < |items| :: items[i].id in ids <==> i in at)
  }

  lemma PickedOneMore(items: seq<Item>, last: Item, ids: set<string>, only: seq<Item>, at: seq<nat>)
    requires PickedAt(items, ids, only, at)
    ensures if last.id in ids then PickedAt(items + [last], ids, only + [last], at + [|items|])
      else PickedAt(items + [last], ids, only, at)
  {
    assert |items| !in at;
    assert forall i :: i in at + [|items|] <==> i in at || i == |items|;
  }

  /** The sources listed stand in the order in which they were gathered. */
  lemma {:induction false} SourcesInOrder(items: seq<Item>, ids: set<string>) returns (at: seq<nat>)
    ensures PickedAt(items, ids, Only(items, ids), at)
  {
    if items == [] {
      at := [];
    } else {
      var n := |items| - 1;
      var only := Only(items[..n], ids);
      assert only + [] == only && items == items[..n] + [items[n]];
      at := SourcesInOrder(items[..n], ids);
      PickedOneMore(items[..n], items[n], ids, only, at);
      if items[n].id in ids { at := at + [n]; }
    }
  }
}
