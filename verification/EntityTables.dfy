/**
 The relational tables behind entity resolution, as values, and every row-level
 step the application takes on them. A run of the application is a log of such
 steps; the lemmas at the end speak about every legal log.
 */
module EntityTables {
  import opened Prelude

  const HIGH_CONFIDENCE_THRESHOLD := 0.92
  const REVIEW_THRESHOLD := 0.75
  const EDGE_PROMOTION_THRESHOLD := 0.5

  // ---------------------------------------------------------------- rows

  datatype Entity = Entity(kind: string, name: string, aliases: set<string>, confidence: real) {
    function Names(): set<string> {
      {name} + aliases
    }
  }

  datatype Mention = Mention(
    chunk: Id, text: string, kind: string, confidence: real, entity: Option<Id>, resolved: bool)

  datatype Candidate = Candidate(from: Id, to: Id, kind: string, chunk: Id, confidence: real, promoted: bool)

  datatype Edge = Edge(from: Id, to: Id, kind: string, evidence: seq<Id>, confidence: real)

  datatype Review = Review(a: Option<Id>, b: Option<Id>, score: real, status: string, decidedBy: Option<string>)

  /** What Neo4j holds for an entity and for an edge. */
  datatype Node = Node(kind: string, name: string, confidence: real)

  datatype Relation = Relation(kind: string, confidence: real, evidence: seq<Id>)

  /** A relationship is merged on its id and both of its ends, so all three form its key. */
  datatype RelationKey = RelationKey(edge: Id, from: Id, to: Id)

  datatype Tables = Tables(
    entities: map<Id, Entity>,
    mentions: map<Id, Mention>,
    candidates: map<Id, Candidate>,
    edges: map<Id, Edge>,
    reviews: map<Id, Review>,
    nodes: map<Id, Node>,
    relations: map<RelationKey, Relation>)

  const EMPTY := Tables(map[], map[], map[], map[], map[], map[], map[])

  // ---------------------------------------------------------------- deletion and merging

  /** The entity a reference to `x` means once `drop` has been renamed `keep`. */
  function Renamed(x: Id, drop: Id, keep: Id): Id {
    if x == drop then keep else x
  }

  function RenamedRef(x: Option<Id>, drop: Id, keep: Id): Option<Id> {
    if x == Some(drop) then Some(keep) else x
  }

  function ClearedRef(x: Option<Id>, gone: Id): Option<Id> {
    if x == Some(gone) then None else x
  }

  /** The bulk updates of edges and mentions. Reviews are not touched. */
  function Repoint(db: Tables, drop: Id, keep: Id): Tables {
    db.(edges := map e | e in db.edges ::
          db.edges[e].(from := Renamed(db.edges[e].from, drop, keep), to := Renamed(db.edges[e].to, drop, keep)),
        mentions := map m | m in db.mentions ::
          db.mentions[m].(entity := RenamedRef(db.mentions[m].entity, drop, keep)))
  }

  /** Deleting an entity row fires the foreign keys: edges CASCADE, mentions and reviews SET NULL. */
  function DeleteEntity(db: Tables, gone: Id): Tables {
    db.(entities := map x | x in db.entities && x != gone :: db.entities[x],
        edges := map e | e in db.edges && db.edges[e].from != gone && db.edges[e].to != gone :: db.edges[e],
        mentions := map m | m in db.mentions :: db.mentions[m].(entity := ClearedRef(db.mentions[m].entity, gone)),
        reviews := map r | r in db.reviews ::
          db.reviews[r].(a := ClearedRef(db.reviews[r].a, gone), b := ClearedRef(db.reviews[r].b, gone)))
  }

  predicate Live(db: Tables, x: Option<Id>) {
    x.Some? && x.value in db.entities
  }

  function MergeEntities(db: Tables, keep: Option<Id>, drop: Option<Id>): Tables {
    if !Live(db, keep) || !Live(db, drop) then db else
    var k, d := keep.value, drop.value;
    var folded := db.entities[k].(aliases := db.entities[k].aliases + db.entities[d].Names());
    DeleteEntity(Repoint(db.(entities := db.entities[k := folded]), d, k), d)
  }

  // ---------------------------------------------------------------- steps

  datatype Event =
    | MentionAdded(mention: Id, chunk: Id, text: string, kind: string, confidence: real)
    | CandidateAdded(candidate: Id, from: Id, to: Id, kind: string, chunk: Id, confidence: real)
    | AliasAdded(entity: Id, text: string)
    | EntityCreated(entity: Id, kind: string, text: string, confidence: real)
    | ReviewQueued(review: Id, a: Id, b: Id, score: real)
    | MentionResolved(mention: Id, entity: Id)
    | CandidatePromoted(candidate: Id, edge: Id)
    | EntitiesMerged(keep: Id, drop: Id)
    | ReviewDecided(review: Id, decision: string, decider: Option<string>)

  /** The two ends the candidate's mentions currently resolve to. */
  function Ends(db: Tables, c: Candidate): Option<(Id, Id)> {
    if c.from in db.mentions && c.to in db.mentions
       && db.mentions[c.from].entity.Some? && db.mentions[c.to].entity.Some?
    then Some((db.mentions[c.from].entity.value, db.mentions[c.to].entity.value))
    else None
  }

  predicate Promotable(db: Tables, c: Candidate) {
    && !c.promoted
    && c.confidence >= EDGE_PROMOTION_THRESHOLD
    && Ends(db, c).Some?
    && Ends(db, c).value.0 != Ends(db, c).value.1
  }

  predicate Joins(e: Edge, ends: (Id, Id), kind: string) {
    e.from == ends.0 && e.to == ends.1 && e.kind == kind
  }

  /** The edge after promotion: an existing edge gains the chunk once, a new one starts with it. */
  function PromotedEdge(db: Tables, c: Candidate, edge: Id): Edge
    requires Ends(db, c).Some?
  {
    var ends := Ends(db, c).value;
    if edge !in db.edges then Edge(ends.0, ends.1, c.kind, [c.chunk], c.confidence)
    else if c.chunk in db.edges[edge].evidence then db.edges[edge]
    else db.edges[edge].(evidence := db.edges[edge].evidence + [c.chunk])
  }

  function SyncEntity(db: Tables, id: Id): Tables
    requires id in db.entities
  {
    var e := db.entities[id];
    db.(nodes := db.nodes[id := Node(e.kind, e.name, e.confidence)])
  }

  /** Writes the relationship only between nodes the mirror already has. */
  function SyncEdge(db: Tables, id: Id): Tables
    requires id in db.edges
  {
    var e := db.edges[id];
    if e.from in db.nodes && e.to in db.nodes
    then db.(relations := db.relations[RelationKey(id, e.from, e.to) := Relation(e.kind, e.confidence, e.evidence)])
    else db
  }

  /** What holds in the code whenever it takes the step. */
  predicate Enabled(db: Tables, ev: Event) {
    match ev
    case MentionAdded(m, _, _, _, _) => m !in db.mentions
    case CandidateAdded(c, from, to, _, chunk, _) =>
      && c !in db.candidates
      && from in db.mentions && to in db.mentions
      && db.mentions[from].chunk == chunk && db.mentions[to].chunk == chunk
    case AliasAdded(x, _) => x in db.entities
    case EntityCreated(x, _, _, _) => x !in db.entities
    case ReviewQueued(r, a, b, _) =>
      && r !in db.reviews
      && a != b && a in db.entities && b in db.entities && db.entities[a].kind == db.entities[b].kind
    case MentionResolved(m, x) =>
      && m in db.mentions && db.mentions[m].entity.None?
      && x in db.entities && db.entities[x].kind == db.mentions[m].kind
      && db.mentions[m].text in db.entities[x].Names()
    case CandidatePromoted(c, e) =>
      && c in db.candidates && Promotable(db, db.candidates[c])
      && var ends, kind := Ends(db, db.candidates[c]).value, db.candidates[c].kind;
      if e in db.edges then Joins(db.edges[e], ends, kind)
      else forall other | other in db.edges :: !Joins(db.edges[other], ends, kind)
    case EntitiesMerged(keep, drop) =>
      && keep != drop && keep in db.entities && drop in db.entities
      && db.entities[keep].kind == db.entities[drop].kind
    case ReviewDecided(r, _, _) => r in db.reviews
  }

  function Apply(db: Tables, ev: Event): Tables
    requires Enabled(db, ev)
  {
    match ev
    case MentionAdded(m, chunk, text, kind, confidence) =>
      db.(mentions := db.mentions[m := Mention(chunk, text, kind, confidence, None, false)])
    case CandidateAdded(c, from, to, kind, chunk, confidence) =>
      db.(candidates := db.candidates[c := Candidate(from, to, kind, chunk, confidence, false)])
    case AliasAdded(x, text) =>
      db.(entities := db.entities[x := db.entities[x].(aliases := db.entities[x].aliases + {text})])
    case EntityCreated(x, kind, text, confidence) =>
      SyncEntity(db.(entities := db.entities[x := Entity(kind, text, {}, confidence)]), x)
    case ReviewQueued(r, a, b, score) =>
      db.(reviews := db.reviews[r := Review(Some(a), Some(b), score, "pending", None)])
    case MentionResolved(m, x) =>
      db.(mentions := db.mentions[m := db.mentions[m].(entity := Some(x), resolved := true)])
    case CandidatePromoted(c, e) =>
      var cand := db.candidates[c];
      SyncEdge(db.(edges := db.edges[e := PromotedEdge(db, cand, e)],
                   candidates := db.candidates[c := cand.(promoted := true)]), e)
    case EntitiesMerged(keep, drop) =>
      MergeEntities(db, Some(keep), Some(drop))
    case ReviewDecided(r, decision, decider) =>
      var row := db.reviews[r];
      var marked := db.(reviews := db.reviews[r := row.(status := decision, decidedBy := decider)]);
      if decision == "merged" then MergeEntities(marked, row.a, row.b) else marked
  }

  function Replay(db: Tables, log: seq<Event>): Tables
    requires Legal(db, log)
    decreases |log|, 1
  {
    if log == [] then db else Apply(Replay(db, log[..|log| - 1]), log[|log| - 1])
  }

  predicate Legal(db: Tables, log: seq<Event>)
    decreases |log|, 0
  {
    log == [] ||
    (Legal(db, log[..|log| - 1]) && Enabled(Replay(db, log[..|log| - 1]), log[|log| - 1]))
  }

  // ---------------------------------------------------------------- invariants

  /** Every foreign key that is set refers to a row that is there. */
  ghost predicate ReferencesLive(db: Tables) {
    && (forall m | m in db.mentions :: db.mentions[m].entity.Some? ==> db.mentions[m].entity.value in db.entities)
    && (forall e | e in db.edges :: db.edges[e].from in db.entities && db.edges[e].to in db.entities)
    && (forall c | c in db.candidates :: CandidateInOneChunk(db, db.candidates[c]))
  }

  predicate CandidateInOneChunk(db: Tables, c: Candidate) {
    && c.from in db.mentions && c.to in db.mentions
    && db.mentions[c.from].chunk == c.chunk && db.mentions[c.to].chunk == c.chunk
  }

  /** A resolved mention points to a live entity of its own type that answers to its text. */
  ghost predicate SurfaceFormsKept(db: Tables) {
    forall m | m in db.mentions ::
      var row := db.mentions[m];
      && row.resolved == row.entity.Some?
      && (row.resolved ==>
        && row.entity.value in db.entities
        && db.entities[row.entity.value].kind == row.kind
        && row.text in db.entities[row.entity.value].Names())
  }

  ghost predicate ReviewsSound(db: Tables) {
    forall r | r in db.reviews ::
      var row := db.reviews[r];
      && (row.a.Some? ==> row.a.value in db.entities)
      && (row.b.Some? ==> row.b.value in db.entities)
      && (row.a.Some? && row.b.Some? ==>
        row.a != row.b && db.entities[row.a.value].kind == db.entities[row.b.value].kind)
  }

  /** Candidate `c` is evidence from `chunk` for edge `e` as the mentions resolve now. */
  ghost predicate Supports(db: Tables, c: Id, e: Id, chunk: Id) {
    && c in db.candidates && e in db.edges
    && db.candidates[c].promoted
    && db.candidates[c].chunk == chunk
    && Ends(db, db.candidates[c]).Some?
    && Joins(db.edges[e], Ends(db, db.candidates[c]).value, db.candidates[c].kind)
  }

  ghost predicate EveryEvidenceSupported(db: Tables) {
    forall e, chunk | e in db.edges && chunk in db.edges[e].evidence :: exists c :: Supports(db, c, e, chunk)
  }

  ghost predicate EveryPromotionShown(db: Tables) {
    forall c | c in db.candidates && db.candidates[c].promoted ::
      exists e :: Supports(db, c, e, db.candidates[c].chunk) && db.candidates[c].chunk in db.edges[e].evidence
  }

  ghost predicate EdgesJustified(db: Tables) {
    EveryEvidenceSupported(db) && EveryPromotionShown(db)
  }

  ghost predicate Invariant(db: Tables) {
    ReferencesLive(db) && SurfaceFormsKept(db) && ReviewsSound(db) && EdgesJustified(db)
  }

  // ---------------------------------------------------------------- each step keeps the invariants

  /**
   `after` is `db` with `drop` renamed `keep` everywhere and reviews of it cleared. The
   entity kept stays what it is but for its aliases: it gains the names of the other.
   */
  ghost predicate IsMerge(db: Tables, after: Tables, keep: Id, drop: Id)
    requires keep in db.entities && drop in db.entities && keep != drop
  {
    && after.entities.Keys == db.entities.Keys - {drop}
    && after.entities[keep] == db.entities[keep].(aliases :=
         db.entities[keep].aliases + {db.entities[drop].name} + db.entities[drop].aliases)
    && (forall x | x in after.entities && x != keep :: after.entities[x] == db.entities[x])
    && after.edges.Keys == db.edges.Keys
    && (forall e | e in db.edges :: after.edges[e] == db.edges[e].(
          from := Renamed(db.edges[e].from, drop, keep), to := Renamed(db.edges[e].to, drop, keep)))
    && after.mentions.Keys == db.mentions.Keys
    && (forall m | m in db.mentions ::
          after.mentions[m] == db.mentions[m].(entity := RenamedRef(db.mentions[m].entity, drop, keep)))
    && after.candidates == db.candidates
    && after.reviews.Keys == db.reviews.Keys
    && (forall r | r in db.reviews :: after.reviews[r] == db.reviews[r].(
          a := ClearedRef(db.reviews[r].a, drop), b := ClearedRef(db.reviews[r].b, drop)))
    && after.nodes == db.nodes && after.relations == db.relations
  }

  /** Merging two distinct live entities is a pure renaming: no row of any other table goes away. */
  lemma MergeConserves(db: Tables, keep: Id, drop: Id)
    requires keep in db.entities && drop in db.entities && keep != drop
    ensures IsMerge(db, MergeEntities(db, Some(keep), Some(drop)), keep, drop)
  {
    var after := MergeEntities(db, Some(keep), Some(drop));
    MergeKeepsNames(db, after, keep, drop);
    MergeRenamesEdges(db, after, keep, drop);
    MergeRenamesRows(db, after, keep, drop);
  }

  lemma MergeKeepsNames(db: Tables, after: Tables, keep: Id, drop: Id)
    requires keep in db.entities && drop in db.entities && keep != drop
    requires after == MergeEntities(db, Some(keep), Some(drop))
    ensures after.entities.Keys == db.entities.Keys - {drop}
    ensures after.entities[keep] == db.entities[keep].(aliases :=
              db.entities[keep].aliases + {db.entities[drop].name} + db.entities[drop].aliases)
    ensures forall x | x in after.entities && x != keep :: after.entities[x] == db.entities[x]
    ensures after.candidates == db.candidates && after.nodes == db.nodes && after.relations == db.relations
  {
    var k, d := db.entities[keep], db.entities[drop];
    assert k.aliases + d.Names() == k.aliases + {d.name} + d.aliases;
  }

  /** No name is lost in a merge, and none is made up. */
  lemma MergeJoinsNames(db: Tables, after: Tables, keep: Id, drop: Id)
    requires keep in db.entities && drop in db.entities && keep != drop && IsMerge(db, after, keep, drop)
    ensures after.entities[keep].Names() == db.entities[keep].Names() + db.entities[drop].Names()
  {
  }

  lemma MergeRenamesEdges(db: Tables, after: Tables, keep: Id, drop: Id)
    requires keep in db.entities && drop in db.entities && keep != drop
    requires after == MergeEntities(db, Some(keep), Some(drop))
    ensures after.edges.Keys == db.edges.Keys
    ensures forall e | e in db.edges :: after.edges[e] == db.edges[e].(
              from := Renamed(db.edges[e].from, drop, keep), to := Renamed(db.edges[e].to, drop, keep))
  {
  }

  lemma MergeRenamesRows(db: Tables, after: Tables, keep: Id, drop: Id)
    requires keep in db.entities && drop in db.entities && keep != drop
    requires after == MergeEntities(db, Some(keep), Some(drop))
    ensures after.mentions.Keys == db.mentions.Keys && after.reviews.Keys == db.reviews.Keys
    ensures forall m | m in db.mentions ::
              after.mentions[m] == db.mentions[m].(entity := RenamedRef(db.mentions[m].entity, drop, keep))
    ensures forall r | r in db.reviews :: after.reviews[r] == db.reviews[r].(
              a := ClearedRef(db.reviews[r].a, drop), b := ClearedRef(db.reviews[r].b, drop))
  {
  }

  /** A merge of live entities loses nothing exactly when the two differ, or nothing refers to the one. */
  lemma MergeLosesNothingIff(db: Tables, keep: Id, drop: Id)
    requires Invariant(db) && keep in db.entities && drop in db.entities
    ensures var after := MergeEntities(db, Some(keep), Some(drop));
      (&& after.edges.Keys == db.edges.Keys
       && forall m | m in db.mentions :: after.mentions[m].entity.Some? == db.mentions[m].entity.Some?)
      <==>
      (keep != drop ||
       (&& (forall e | e in db.edges :: db.edges[e].from != keep && db.edges[e].to != keep)
        && (forall m | m in db.mentions :: db.mentions[m].entity != Some(keep))))
  {
    var after := MergeEntities(db, Some(keep), Some(drop));
    if keep != drop {
      MergeConserves(db, keep, drop);
    } else {
      SelfMergeIs(db, keep);
    }
  }

  /** Merging an entity with itself deletes it, and the foreign keys fire. */
  lemma SelfMergeIs(db: Tables, x: Id)
    requires x in db.entities
    ensures var after := MergeEntities(db, Some(x), Some(x));
      && (forall e :: e in after.edges <==> e in db.edges && db.edges[e].from != x && db.edges[e].to != x)
      && after.mentions.Keys == db.mentions.Keys
      && (forall m | m in db.mentions :: after.mentions[m].entity == ClearedRef(db.mentions[m].entity, x))
  {
  }

  /** The merge a step performs, if any. Its two entities are live, distinct and of one type. */
  function MergeOf(db: Tables, ev: Event): Option<(Id, Id)> {
    match ev
    case EntitiesMerged(keep, drop) => Some((keep, drop))
    case ReviewDecided(r, decision, _) =>
      if decision == "merged" && r in db.reviews && Live(db, db.reviews[r].a) && Live(db, db.reviews[r].b)
      then Some((db.reviews[r].a.value, db.reviews[r].b.value)) else None
    case _ => None
  }

  /** The tables a merge step starts from: a decision first marks its own review row. */
  function BeforeMerge(db: Tables, ev: Event): Tables
    requires Enabled(db, ev)
  {
    match ev
    case ReviewDecided(r, decision, decider) =>
      db.(reviews := db.reviews[r := db.reviews[r].(status := decision, decidedBy := decider)])
    case _ => db
  }

  lemma DecidedMerge(db: Tables, ev: Event)
    requires ReviewsSound(db) && Enabled(db, ev)
    ensures var merge, before := MergeOf(db, ev), BeforeMerge(db, ev);
      && ReviewsSound(before)
      && (merge.Some? ==>
        var (keep, drop) := merge.value;
        && keep != drop && keep in db.entities && drop in db.entities
        && db.entities[keep].kind == db.entities[drop].kind
        && Apply(db, ev) == MergeEntities(before, Some(keep), Some(drop))
        && IsMerge(before, Apply(db, ev), keep, drop))
      && (merge.None? && (ev.ReviewDecided? || ev.EntitiesMerged?) ==> Apply(db, ev) == before)
  {
    var merge, before := MergeOf(db, ev), BeforeMerge(db, ev);
    MarkingKeepsReviews(db, ev);
    MergeOfIs(db, ev);
    if merge.Some? {
      MergeConserves(before, merge.value.0, merge.value.1);
    }
  }

  /**
   A decision marks its review row. If it is to merge and both ends are live, the second
   end goes into the first; otherwise nothing else changes.
   */
  lemma DecisionKeepsFirst(db: Tables, r: Id, decision: string, decider: Option<string>)
    requires ReviewsSound(db) && r in db.reviews
    ensures Enabled(db, ReviewDecided(r, decision, decider))
    ensures var a, b := db.reviews[r].a, db.reviews[r].b;
      var after := Apply(db, ReviewDecided(r, decision, decider));
      var marked := db.(reviews := db.reviews[r := db.reviews[r].(status := decision, decidedBy := decider)]);
      if decision == "merged" && a.Some? && b.Some?
      then a.value in db.entities && b.value in db.entities && a != b && IsMerge(marked, after, a.value, b.value)
      else after == marked
  {
    var ev := ReviewDecided(r, decision, decider);
    DecidedMerge(db, ev);
    assert MergeOf(db, ev).Some? <==> decision == "merged" && db.reviews[r].a.Some? && db.reviews[r].b.Some?;
  }

  lemma MarkingKeepsReviews(db: Tables, ev: Event)
    requires ReviewsSound(db) && Enabled(db, ev)
    ensures ReviewsSound(BeforeMerge(db, ev)) && BeforeMerge(db, ev).entities == db.entities
  {
  }

  lemma MergeOfIs(db: Tables, ev: Event)
    requires ReviewsSound(db) && Enabled(db, ev)
    ensures var merge, before := MergeOf(db, ev), BeforeMerge(db, ev);
      && (merge.Some? ==>
        var (keep, drop) := merge.value;
        && keep != drop && keep in db.entities && drop in db.entities
        && db.entities[keep].kind == db.entities[drop].kind
        && Apply(db, ev) == MergeEntities(before, Some(keep), Some(drop)))
      && (merge.None? && (ev.ReviewDecided? || ev.EntitiesMerged?) ==> Apply(db, ev) == before)
  {
  }

  lemma MergeKeepsRows(db: Tables, after: Tables, keep: Id, drop: Id)
    requires ReferencesLive(db) && SurfaceFormsKept(db)
    requires keep in db.entities && drop in db.entities && keep != drop && IsMerge(db, after, keep, drop)
    requires db.entities[keep].kind == db.entities[drop].kind
    ensures ReferencesLive(after) && SurfaceFormsKept(after)
  {
    MergeKeepsReferences(db, after, keep, drop);
    MergeKeepsSurfaceForms(db, after, keep, drop);
  }

  lemma RenamedLive(db: Tables, after: Tables, keep: Id, drop: Id)
    requires keep in db.entities && drop in db.entities && keep != drop && IsMerge(db, after, keep, drop)
    ensures forall x | x in db.entities :: Renamed(x, drop, keep) in after.entities
  {
    forall x | x in db.entities ensures Renamed(x, drop, keep) in after.entities {
      assert Renamed(x, drop, keep) in db.entities.Keys - {drop};
    }
  }

  lemma MergeKeepsCandidate(db: Tables, after: Tables, keep: Id, drop: Id, c: Candidate)
    requires CandidateInOneChunk(db, c)
    requires keep in db.entities && drop in db.entities && keep != drop && IsMerge(db, after, keep, drop)
    ensures CandidateInOneChunk(after, c)
  {
    assert c.from in after.mentions.Keys && c.to in after.mentions.Keys;
  }

  lemma MergeKeepsReferences(db: Tables, after: Tables, keep: Id, drop: Id)
    requires ReferencesLive(db)
    requires keep in db.entities && drop in db.entities && keep != drop && IsMerge(db, after, keep, drop)
    ensures ReferencesLive(after)
  {
    RenamedLive(db, after, keep, drop);
    forall m | m in after.mentions && after.mentions[m].entity.Some?
      ensures after.mentions[m].entity.value in after.entities
    {
      assert db.mentions[m].entity.value in db.entities;
    }
    forall e | e in after.edges ensures after.edges[e].from in after.entities && after.edges[e].to in after.entities {
      assert db.edges[e].from in db.entities && db.edges[e].to in db.entities;
    }
    forall c | c in after.candidates ensures CandidateInOneChunk(after, after.candidates[c]) {
      MergeKeepsCandidate(db, after, keep, drop, db.candidates[c]);
    }
  }

  lemma MergeKeepsSurfaceForms(db: Tables, after: Tables, keep: Id, drop: Id)
    requires SurfaceFormsKept(db)
    requires keep in db.entities && drop in db.entities && keep != drop && IsMerge(db, after, keep, drop)
    requires db.entities[keep].kind == db.entities[drop].kind
    ensures SurfaceFormsKept(after)
  {
    MergeJoinsNames(db, after, keep, drop);
    forall m | m in after.mentions && after.mentions[m].resolved
      ensures after.mentions[m].entity.Some? && after.mentions[m].entity.value in after.entities
      ensures after.entities[after.mentions[m].entity.value].kind == after.mentions[m].kind
      ensures after.mentions[m].text in after.entities[after.mentions[m].entity.value].Names()
    {
      var x := db.mentions[m].entity.value;
      assert Renamed(x, drop, keep) in db.entities.Keys - {drop};
    }
  }

  lemma MergeKeepsReviews(db: Tables, after: Tables, keep: Id, drop: Id)
    requires ReviewsSound(db)
    requires keep in db.entities && drop in db.entities && keep != drop && IsMerge(db, after, keep, drop)
    ensures ReviewsSound(after)
  {
  }

  /** What promotion does to the rows: one edge is written, one candidate marked. */
  lemma PromotionRows(db: Tables, c: Id, e: Id)
    requires Enabled(db, CandidatePromoted(c, e))
    ensures var after := Apply(db, CandidatePromoted(c, e));
      && after.edges == db.edges[e := PromotedEdge(db, db.candidates[c], e)]
      && after.candidates == db.candidates[c := db.candidates[c].(promoted := true)]
      && after.mentions == db.mentions && after.entities == db.entities && after.reviews == db.reviews
  {
  }

  /**
   The edge a candidate is promoted to joins the entities of its two mentions. A new one
   has the candidate's type and confidence and its chunk as evidence; an old one, of the
   same ends and type, gains the chunk unless it has it.
   */
  lemma PromotionWrites(db: Tables, c: Id, e: Id)
    requires Enabled(db, CandidatePromoted(c, e))
    ensures var cand, after := db.candidates[c], Apply(db, CandidatePromoted(c, e));
      && cand.from in db.mentions && cand.to in db.mentions && cand.confidence >= EDGE_PROMOTION_THRESHOLD
      && var from, to := db.mentions[cand.from].entity, db.mentions[cand.to].entity;
      && from.Some? && to.Some? && from != to
      && e in after.edges && (forall f | f in db.edges && f != e :: f in after.edges && after.edges[f] == db.edges[f])
      && after.edges.Keys == db.edges.Keys + {e}
      && if e !in db.edges
         then after.edges[e] == Edge(from.value, to.value, cand.kind, [cand.chunk], cand.confidence)
         else && db.edges[e].from == from.value && db.edges[e].to == to.value && db.edges[e].kind == cand.kind
              && after.edges[e] == if cand.chunk in db.edges[e].evidence then db.edges[e]
                                   else db.edges[e].(evidence := db.edges[e].evidence + [cand.chunk])
  {
    PromotionRows(db, c, e);
  }

  lemma PromotionKeepsReferences(db: Tables, c: Id, e: Id)
    requires ReferencesLive(db) && Enabled(db, CandidatePromoted(c, e))
    ensures ReferencesLive(Apply(db, CandidatePromoted(c, e)))
  {
    PromotionRows(db, c, e);
    assert CandidateInOneChunk(db, db.candidates[c]);
    assert db.mentions[db.candidates[c].from].entity.Some? && db.mentions[db.candidates[c].to].entity.Some?;
  }

  lemma RowStepKeepsReferences(db: Tables, ev: Event)
    requires ReferencesLive(db) && Enabled(db, ev) && !ev.EntitiesMerged? && !ev.ReviewDecided?
    ensures ReferencesLive(Apply(db, ev))
  {
    if ev.CandidatePromoted? {
      PromotionKeepsReferences(db, ev.candidate, ev.edge);
    } else {
      OtherStepKeepsEdges(db, ev);
    }
  }

  lemma RowStepKeepsSurfaceForms(db: Tables, ev: Event)
    requires SurfaceFormsKept(db) && Enabled(db, ev) && !ev.EntitiesMerged? && !ev.ReviewDecided?
    ensures SurfaceFormsKept(Apply(db, ev))
  {
  }

  lemma RowStepKeepsReviews(db: Tables, ev: Event)
    requires ReviewsSound(db) && Enabled(db, ev) && !ev.EntitiesMerged? && !ev.ReviewDecided?
    ensures ReviewsSound(Apply(db, ev))
  {
  }

  /** Support survives a renaming because edge and mentions are renamed alike. */
  lemma MergeKeepsSupport(db: Tables, after: Tables, keep: Id, drop: Id, c: Id, e: Id, chunk: Id)
    requires ReferencesLive(db) && Supports(db, c, e, chunk)
    requires keep in db.entities && drop in db.entities && keep != drop && IsMerge(db, after, keep, drop)
    ensures Supports(after, c, e, chunk) && after.edges[e].evidence == db.edges[e].evidence
  {
    var cand := db.candidates[c];
    assert after.mentions[cand.from].entity == RenamedRef(db.mentions[cand.from].entity, drop, keep);
    assert after.mentions[cand.to].entity == RenamedRef(db.mentions[cand.to].entity, drop, keep);
  }

  lemma MergeKeepsJustification(db: Tables, after: Tables, keep: Id, drop: Id)
    requires ReferencesLive(db) && EdgesJustified(db)
    requires keep in db.entities && drop in db.entities && keep != drop && IsMerge(db, after, keep, drop)
    ensures EdgesJustified(after)
  {
    forall e, chunk | e in after.edges && chunk in after.edges[e].evidence
      ensures exists c :: Supports(after, c, e, chunk)
    {
      var c :| Supports(db, c, e, chunk);
      MergeKeepsSupport(db, after, keep, drop, c, e, chunk);
    }
    forall c | c in after.candidates && after.candidates[c].promoted
      ensures exists e :: Supports(after, c, e, after.candidates[c].chunk)
                          && after.candidates[c].chunk in after.edges[e].evidence
    {
      var e :| Supports(db, c, e, db.candidates[c].chunk) && db.candidates[c].chunk in db.edges[e].evidence;
      MergeKeepsSupport(db, after, keep, drop, c, e, db.candidates[c].chunk);
    }
  }

  /** Rows only appear, candidates keep what they say, and what is resolved, linked or recorded stays so. */
  ghost predicate Extends(db: Tables, after: Tables) {
    && (forall m | m in db.mentions :: m in after.mentions
          && (db.mentions[m].entity.Some? ==> after.mentions[m].entity == db.mentions[m].entity))
    && (forall c | c in db.candidates && db.candidates[c].promoted ::
          c in after.candidates && after.candidates[c] == db.candidates[c])
    && (forall e | e in db.edges :: e in after.edges
          && after.edges[e].(evidence := db.edges[e].evidence) == db.edges[e]
          && db.edges[e].evidence <= after.edges[e].evidence)
  }

  lemma RowStepExtends(db: Tables, ev: Event)
    requires ReferencesLive(db) && Enabled(db, ev) && !ev.EntitiesMerged? && !ev.ReviewDecided?
    ensures Extends(db, Apply(db, ev))
  {
    if ev.CandidatePromoted? {
      PromotionExtends(db, ev.candidate, ev.edge);
    } else {
      OtherStepKeepsEdges(db, ev);
    }
  }

  lemma PromotionExtends(db: Tables, c: Id, e: Id)
    requires Enabled(db, CandidatePromoted(c, e))
    ensures Extends(db, Apply(db, CandidatePromoted(c, e)))
  {
    PromotionRows(db, c, e);
    if e in db.edges { assert db.edges[e].evidence <= PromotedEdge(db, db.candidates[c], e).evidence; }
  }

  lemma ExtensionKeepsSupport(db: Tables, after: Tables, c: Id, e: Id, chunk: Id)
    requires Extends(db, after) && Supports(db, c, e, chunk)
    ensures Supports(after, c, e, chunk)
  {
  }

  ghost predicate NewEvidenceSupported(db: Tables, after: Tables) {
    forall e, chunk | e in after.edges && chunk in after.edges[e].evidence ::
      (e in db.edges && chunk in db.edges[e].evidence) || exists c :: Supports(after, c, e, chunk)
  }

  ghost predicate NewPromotionsShown(db: Tables, after: Tables) {
    forall c | c in after.candidates && after.candidates[c].promoted ::
      (c in db.candidates && db.candidates[c].promoted)
      || exists e :: Supports(after, c, e, after.candidates[c].chunk)
                     && after.candidates[c].chunk in after.edges[e].evidence
  }

  lemma ExtensionKeepsJustification(db: Tables, after: Tables)
    requires EdgesJustified(db) && Extends(db, after)
    requires NewEvidenceSupported(db, after) && NewPromotionsShown(db, after)
    ensures EdgesJustified(after)
  {
    forall e, chunk | e in after.edges && chunk in after.edges[e].evidence
      ensures exists c :: Supports(after, c, e, chunk)
    {
      if e in db.edges && chunk in db.edges[e].evidence {
        var c :| Supports(db, c, e, chunk);
        ExtensionKeepsSupport(db, after, c, e, chunk);
      }
    }
    forall c | c in after.candidates && after.candidates[c].promoted
      ensures exists e :: Supports(after, c, e, after.candidates[c].chunk)
                          && after.candidates[c].chunk in after.edges[e].evidence
    {
      if c in db.candidates && db.candidates[c].promoted {
        var e :| Supports(db, c, e, db.candidates[c].chunk) && db.candidates[c].chunk in db.edges[e].evidence;
        ExtensionKeepsSupport(db, after, c, e, db.candidates[c].chunk);
      }
    }
  }

  lemma PromotionJustified(db: Tables, c: Id, e: Id)
    requires Enabled(db, CandidatePromoted(c, e))
    ensures var after := Apply(db, CandidatePromoted(c, e));
      NewEvidenceSupported(db, after) && NewPromotionsShown(db, after)
  {
    var after := Apply(db, CandidatePromoted(c, e));
    assert after.mentions == db.mentions;
    assert Supports(after, c, e, db.candidates[c].chunk);
    assert after.edges == db.edges[e := PromotedEdge(db, db.candidates[c], e)];
    assert after.candidates == db.candidates[c := db.candidates[c].(promoted := true)];
  }

  lemma RowStepKeepsJustification(db: Tables, ev: Event)
    requires ReferencesLive(db) && EdgesJustified(db) && Enabled(db, ev) && !ev.EntitiesMerged? && !ev.ReviewDecided?
    ensures EdgesJustified(Apply(db, ev))
  {
    var after := Apply(db, ev);
    RowStepExtends(db, ev);
    if ev.CandidatePromoted? {
      PromotionJustified(db, ev.candidate, ev.edge);
    } else {
      assert after.edges == db.edges;
    }
    ExtensionKeepsJustification(db, after);
  }

  lemma MergeStepKeepsInvariant(db: Tables, ev: Event)
    requires Invariant(db) && Enabled(db, ev) && (ev.EntitiesMerged? || ev.ReviewDecided?)
    ensures Invariant(Apply(db, ev))
  {
    DecidedMerge(db, ev);
    MarkingKeepsInvariant(db, ev);
    var merge := MergeOf(db, ev);
    if merge.Some? {
      MergeStepFrom(BeforeMerge(db, ev), Apply(db, ev), merge.value.0, merge.value.1);
    }
  }

  lemma MarkingKeepsInvariant(db: Tables, ev: Event)
    requires Invariant(db) && Enabled(db, ev)
    ensures Invariant(BeforeMerge(db, ev))
  {
    DecidedMerge(db, ev);
    MarkingKeepsJustification(db, ev);
  }

  lemma MergeStepFrom(db: Tables, after: Tables, keep: Id, drop: Id)
    requires Invariant(db)
    requires keep in db.entities && drop in db.entities && keep != drop && IsMerge(db, after, keep, drop)
    requires db.entities[keep].kind == db.entities[drop].kind
    ensures Invariant(after)
  {
    MergeKeepsRows(db, after, keep, drop);
    MergeKeepsReviews(db, after, keep, drop);
    MergeKeepsJustification(db, after, keep, drop);
  }

  lemma StepKeepsInvariant(db: Tables, ev: Event)
    requires Invariant(db) && Enabled(db, ev)
    ensures Invariant(Apply(db, ev))
  {
    if ev.EntitiesMerged? || ev.ReviewDecided? {
      MergeStepKeepsInvariant(db, ev);
    } else {
      RowStepKeepsReferences(db, ev);
      RowStepKeepsSurfaceForms(db, ev);
      RowStepKeepsReviews(db, ev);
      RowStepKeepsJustification(db, ev);
    }
  }

  lemma MarkingKeepsJustification(db: Tables, ev: Event)
    requires EdgesJustified(db) && Enabled(db, ev)
    ensures EdgesJustified(BeforeMerge(db, ev))
  {
    var before := BeforeMerge(db, ev);
    assert forall c, e, chunk :: Supports(db, c, e, chunk) <==> Supports(before, c, e, chunk);
  }

  /** All four invariants hold in every state any run reaches. */
  lemma {:induction false} EveryRunKeepsInvariant(db: Tables, log: seq<Event>)
    requires Invariant(db) && Legal(db, log)
    ensures Invariant(Replay(db, log))
  {
    if log != [] {
      EveryRunKeepsInvariant(db, log[..|log| - 1]);
      StepKeepsInvariant(Replay(db, log[..|log| - 1]), log[|log| - 1]);
    }
  }

  lemma ReplayOne(db: Tables, log: seq<Event>, ev: Event)
    requires Legal(db, log) && Enabled(Replay(db, log), ev)
    ensures Legal(db, log + [ev]) && Replay(db, log + [ev]) == Apply(Replay(db, log), ev)
    ensures MergesIn(log + [ev]) == MergesIn(log) + if Merges(ev) then [ev] else []
  {
    assert (log + [ev])[..|log|] == log;
  }

  // ---------------------------------------------------------------- the mirror

  /** The Neo4j graph is the projection of the entity and edge tables, evidence lists included. */
  ghost predicate MirrorAgrees(db: Tables) {
    && db.nodes.Keys == db.entities.Keys
    && (forall x | x in db.entities ::
          db.nodes[x] == Node(db.entities[x].kind, db.entities[x].name, db.entities[x].confidence))
    && (forall k | k in db.relations :: k.edge in db.edges && k == KeyOf(db, k.edge))
    && (forall e | e in db.edges :: KeyOf(db, e) in db.relations && db.relations[KeyOf(db, e)] ==
          Relation(db.edges[e].kind, db.edges[e].confidence, db.edges[e].evidence))
  }

  function KeyOf(db: Tables, e: Id): RelationKey
    requires e in db.edges
  {
    RelationKey(e, db.edges[e].from, db.edges[e].to)
  }

  ghost predicate NoSelfLoops(db: Tables) {
    forall e | e in db.edges :: db.edges[e].from != db.edges[e].to
  }

  ghost predicate UniqueTriples(db: Tables) {
    forall e, f | e in db.edges && f in db.edges && e != f ::
      !Joins(db.edges[f], (db.edges[e].from, db.edges[e].to), db.edges[e].kind)
  }

  ghost predicate EdgesSimple(db: Tables) {
    NoSelfLoops(db) && UniqueTriples(db)
  }

  /** Whether the step may delete an entity. */
  predicate Merges(ev: Event) {
    ev.EntitiesMerged? || (ev.ReviewDecided? && ev.decision == "merged")
  }

  function MergesIn(log: seq<Event>): seq<Event> {
    if log == [] then []
    else MergesIn(log[..|log| - 1]) + if Merges(log[|log| - 1]) then [log[|log| - 1]] else []
  }

  lemma RowStepKeepsMirror(db: Tables, ev: Event)
    requires ReferencesLive(db) && MirrorAgrees(db) && Enabled(db, ev) && !Merges(ev)
    ensures MirrorAgrees(Apply(db, ev))
  {
    if ev.CandidatePromoted? {
      PromotionKeepsMirror(db, ev.candidate, ev.edge);
    } else {
      OtherStepKeepsEdges(db, ev);
      OtherStepKeepsNodes(db, ev);
      SameEdgesMirrored(db, Apply(db, ev));
    }
  }

  lemma SameEdgesMirrored(db: Tables, after: Tables)
    requires MirrorAgrees(db) && after.edges == db.edges && after.relations == db.relations
    requires after.nodes.Keys == after.entities.Keys && forall x | x in after.entities :: NodeAgrees(after, x)
    ensures MirrorAgrees(after)
  {
    forall x | x in after.entities
      ensures after.nodes[x] == Node(after.entities[x].kind, after.entities[x].name, after.entities[x].confidence)
    {
      assert NodeAgrees(after, x);
    }
    assert forall e | e in db.edges :: KeyOf(after, e) == KeyOf(db, e);
  }

  predicate NodeAgrees(db: Tables, x: Id) {
    && x in db.entities && x in db.nodes
    && db.nodes[x] == Node(db.entities[x].kind, db.entities[x].name, db.entities[x].confidence)
  }

  lemma OtherStepKeepsNodes(db: Tables, ev: Event)
    requires MirrorAgrees(db) && Enabled(db, ev) && !Merges(ev) && !ev.CandidatePromoted?
    ensures var after := Apply(db, ev);
      after.nodes.Keys == after.entities.Keys && forall x | x in after.entities :: NodeAgrees(after, x)
  {
    var after := Apply(db, ev);
    assert forall x | x in db.entities :: NodeAgrees(db, x);
    if ev.EntityCreated? {
      assert after.nodes.Keys == db.nodes.Keys + {ev.entity} && after.entities.Keys == db.entities.Keys + {ev.entity};
    } else {
      assert after.nodes == db.nodes && after.entities.Keys == db.entities.Keys;
    }
  }

  lemma OtherStepKeepsEdges(db: Tables, ev: Event)
    requires Enabled(db, ev) && !Merges(ev) && !ev.CandidatePromoted?
    ensures Apply(db, ev).edges == db.edges && Apply(db, ev).relations == db.relations
  {
  }

  lemma PromotionKeepsMirror(db: Tables, c: Id, e: Id)
    requires ReferencesLive(db) && MirrorAgrees(db) && Enabled(db, CandidatePromoted(c, e))
    ensures MirrorAgrees(Apply(db, CandidatePromoted(c, e)))
  {
    PromotionEffect(db, c, e);
    UpsertKeepsMirror(db, Apply(db, CandidatePromoted(c, e)), e, PromotedEdge(db, db.candidates[c], e));
  }

  /** Promotion writes one edge row and its relationship; an existing edge keeps its ends and type. */
  lemma PromotionEffect(db: Tables, c: Id, e: Id)
    requires ReferencesLive(db) && MirrorAgrees(db) && Enabled(db, CandidatePromoted(c, e))
    ensures var after, row := Apply(db, CandidatePromoted(c, e)), PromotedEdge(db, db.candidates[c], e);
      && (e in db.edges ==> db.edges[e].from == row.from && db.edges[e].to == row.to)
      && after.entities == db.entities && after.nodes == db.nodes
      && after.edges == db.edges[e := row]
      && after.relations == db.relations[RelationKey(e, row.from, row.to) :=
        Relation(row.kind, row.confidence, row.evidence)]
  {
    var row := PromotedEdge(db, db.candidates[c], e);
    assert row.from in db.nodes.Keys && row.to in db.nodes.Keys;
  }

  lemma UpsertKeepsMirror(db: Tables, after: Tables, e: Id, row: Edge)
    requires MirrorAgrees(db)
    requires e in db.edges ==> db.edges[e].from == row.from && db.edges[e].to == row.to
    requires after.entities == db.entities && after.nodes == db.nodes && after.edges == db.edges[e := row]
    requires after.relations ==
             db.relations[RelationKey(e, row.from, row.to) := Relation(row.kind, row.confidence, row.evidence)]
    ensures MirrorAgrees(after)
  {
  }

  lemma RowStepKeepsEdgesSimple(db: Tables, ev: Event)
    requires EdgesSimple(db) && Enabled(db, ev) && !Merges(ev)
    ensures EdgesSimple(Apply(db, ev))
  {
    if ev.CandidatePromoted? {
      var row := PromotedEdge(db, db.candidates[ev.candidate], ev.edge);
      assert Apply(db, ev).edges == db.edges[ev.edge := row];
      UpsertKeepsSimple(db, Apply(db, ev), ev.edge, row);
    } else {
      OtherStepKeepsEdges(db, ev);
    }
  }

  lemma UpsertKeepsSimple(db: Tables, after: Tables, e: Id, row: Edge)
    requires EdgesSimple(db) && after.edges == db.edges[e := row] && row.from != row.to
    requires if e in db.edges then Joins(db.edges[e], (row.from, row.to), row.kind)
             else forall other | other in db.edges :: !Joins(db.edges[other], (row.from, row.to), row.kind)
    ensures EdgesSimple(after)
  {
    forall f | f in db.edges && f != e
      ensures !Joins(db.edges[f], (row.from, row.to), row.kind)
      ensures !Joins(row, (db.edges[f].from, db.edges[f].to), db.edges[f].kind)
    {
      if e in db.edges { assert !Joins(db.edges[f], (db.edges[e].from, db.edges[e].to), db.edges[e].kind); }
    }
  }

  /** In every run that merges nothing, Neo4j mirrors Postgres and edges are unique per triple without self-loops. */
  lemma {:induction false} MergeFreeRunMirrors(db: Tables, log: seq<Event>)
    requires Invariant(db) && MirrorAgrees(db) && EdgesSimple(db)
    requires Legal(db, log) && MergesIn(log) == []
    ensures MirrorAgrees(Replay(db, log)) && EdgesSimple(Replay(db, log))
  {
    if log != [] {
      var prefix, ev := log[..|log| - 1], log[|log| - 1];
      MergeFreeRunMirrors(db, prefix);
      EveryRunKeepsInvariant(db, prefix);
      RowStepKeepsMirror(Replay(db, prefix), ev);
      RowStepKeepsEdgesSimple(Replay(db, prefix), ev);
    }
  }

  /** A merge keeps the mirror in agreement exactly when it does nothing. */
  lemma MergeKeepsMirrorIff(db: Tables, keep: Option<Id>, drop: Option<Id>)
    requires MirrorAgrees(db)
    ensures MirrorAgrees(MergeEntities(db, keep, drop)) <==> !(Live(db, keep) && Live(db, drop))
  {
    if Live(db, keep) && Live(db, drop) {
      var after := MergeEntities(db, keep, drop);
      assert drop.value in after.nodes.Keys && drop.value !in after.entities.Keys;
    }
  }

  /** A merge creates a self-loop exactly when the two entities were joined by an edge. */
  lemma MergeMakesSelfLoopIff(db: Tables, keep: Id, drop: Id)
    requires NoSelfLoops(db) && keep in db.entities && drop in db.entities && keep != drop
    ensures NoSelfLoops(MergeEntities(db, Some(keep), Some(drop))) <==>
            forall e | e in db.edges :: {db.edges[e].from, db.edges[e].to} != {keep, drop}
  {
    var after := MergeEntities(db, Some(keep), Some(drop));
    MergeConserves(db, keep, drop);
    forall e | e in db.edges
      ensures after.edges[e].from == after.edges[e].to <==> {db.edges[e].from, db.edges[e].to} == {keep, drop}
    {
      var from, to := db.edges[e].from, db.edges[e].to;
      assert from in {from, to} && to in {from, to} && keep in {keep, drop} && drop in {keep, drop};
    }
  }

  /** Two edges that become one triple when `drop` is renamed `keep`. */
  predicate Collide(e: Edge, f: Edge, drop: Id, keep: Id) {
    && e.kind == f.kind
    && Renamed(e.from, drop, keep) == Renamed(f.from, drop, keep)
    && Renamed(e.to, drop, keep) == Renamed(f.to, drop, keep)
  }

  /** After a merge there is one edge per triple exactly when no two edges get the same ends and have the same type. */
  lemma MergeKeepsUniqueIff(db: Tables, keep: Id, drop: Id)
    requires keep in db.entities && drop in db.entities && keep != drop
    ensures UniqueTriples(MergeEntities(db, Some(keep), Some(drop))) <==>
            forall e, f | e in db.edges && f in db.edges && e != f :: !Collide(db.edges[e], db.edges[f], drop, keep)
  {
    var after := MergeEntities(db, Some(keep), Some(drop));
    MergeConserves(db, keep, drop);
    forall e, f | e in db.edges && f in db.edges
      ensures Joins(after.edges[f], (after.edges[e].from, after.edges[e].to), after.edges[e].kind) <==>
              Collide(db.edges[e], db.edges[f], drop, keep)
    {
      assert e in after.edges.Keys && f in after.edges.Keys;
    }
  }
}
