/** What one chunk is reported to hold, and the rows that are made of it. */
module Ingestion {
  import opened EntityTables
  import opened Prelude

  datatype Span = Span(start: int, end: int)

  /** What named-entity recognition and relation extraction report about one chunk. */
  datatype Ner = Ner(text: string, span: Span, kind: string, confidence: real)

  datatype Found = Found(from: Span, to: Span, kind: string, confidence: real)

  datatype Chunk = Chunk(id: Id, mentions: seq<Ner>, relations: seq<Found>)

  // ---------------------------------------------------------------- what ingestion extracts

  /** The row of the last mention with each span. */
  function BySpan(mentions: seq<Ner>, rows: seq<Id>): map<Span, Id>
    requires |rows| == |mentions|
  {
    if mentions == [] then map[]
    else BySpan(mentions[..|mentions| - 1], rows[..|rows| - 1])[mentions[|mentions| - 1].span := rows[|rows| - 1]]
  }

  /** Mention `i` has the span, and none behind it has. */
  ghost predicate LastWith(mentions: seq<Ner>, i: nat, s: Span) {
    i < |mentions| && mentions[i].span == s && forall j | i < j < |mentions| :: mentions[j].span != s
  }

  lemma LastStays(mentions: seq<Ner>, last: Ner, i: nat, s: Span)
    requires LastWith(mentions, i, s) && last.span != s
    ensures LastWith(mentions + [last], i, s)
  {
  }

  lemma {:induction false} BySpanIsLast(mentions: seq<Ner>, rows: seq<Id>, s: Span)
    requires |rows| == |mentions|
    ensures s in BySpan(mentions, rows) <==> exists i: nat :: LastWith(mentions, i, s)
    ensures s in BySpan(mentions, rows) ==>
              exists i: nat :: LastWith(mentions, i, s) && BySpan(mentions, rows)[s] == rows[i]
    ensures s !in BySpan(mentions, rows) ==> forall i | 0 <= i < |mentions| :: mentions[i].span != s
  {
    if mentions != [] {
      var n := |mentions| - 1;
      var front, last := mentions[..n], mentions[n];
      assert mentions == front + [last];
      BySpanIsLast(front, rows[..n], s);
      if last.span == s {
        assert LastWith(mentions, n, s);
      } else if s in BySpan(front, rows[..n]) {
        var i: nat :| LastWith(front, i, s) && BySpan(front, rows[..n])[s] == rows[..n][i];
        LastStays(front, last, i, s);
      }
    }
  }

  /** The row of the chunk's mention `i` before it is resolved. */
  function NewMention(chunk: Chunk, i: nat): Mention
    requires i < |chunk.mentions|
  {
    var m := chunk.mentions[i];
    Mention(chunk.id, m.text, m.kind, m.confidence, None, false)
  }

  function NewMentions(chunk: Chunk, n: nat): (r: seq<Mention>)
    requires n <= |chunk.mentions|
    ensures |r| == n && forall i | 0 <= i < n :: r[i] == NewMention(chunk, i)
  {
    if n == 0 then [] else NewMentions(chunk, n - 1) + [NewMention(chunk, n - 1)]
  }

  /** The candidates a chunk yields: relations whose two spans are mentions of it, in order. */
  function CandidateRows(chunk: Chunk, found: seq<Found>, bySpan: map<Span, Id>): seq<Candidate> {
    if found == [] then [] else
    var rel := found[|found| - 1];
    CandidateRows(chunk, found[..|found| - 1], bySpan)
    + if rel.from in bySpan && rel.to in bySpan
      then [Candidate(bySpan[rel.from], bySpan[rel.to], rel.kind, chunk.id, rel.confidence, false)] else []
  }

  lemma CandidateRowsSnoc(chunk: Chunk, i: nat, bySpan: map<Span, Id>)
    requires i < |chunk.relations|
    ensures var rel := chunk.relations[i];
      CandidateRows(chunk, chunk.relations[..i + 1], bySpan) == CandidateRows(chunk, chunk.relations[..i], bySpan)
      + if rel.from in bySpan && rel.to in bySpan
        then [Candidate(bySpan[rel.from], bySpan[rel.to], rel.kind, chunk.id, rel.confidence, false)] else []
  {
    assert chunk.relations[..i + 1][..i] == chunk.relations[..i];
  }

  // ---------------------------------------------------------------- adding rows

  /** `now` is `before` with the rows `found` added under the ids from `first` on. */
  ghost predicate Appended<T>(before: map<Id, T>, now: map<Id, T>, first: Id, found: seq<T>) {
    && |now| == |before| + |found|
    && (forall c :: c in now <==> c in before || first <= c < first + |found|)
    && (forall c | c in before :: now[c] == before[c])
    && (forall c | first <= c < first + |found| :: c in now && now[c] == found[c - first])
  }

  lemma AppendOne<T>(before: map<Id, T>, now: map<Id, T>, first: Id, found: seq<T>, last: Id, row: T)
    requires Appended(before, now, first, found) && last == first + |found| && forall id | id in before :: id < first
    ensures Appended(before, now[last := row], first, found + [row])
  {
    var after := now[last := row];
    assert last !in now && last !in before;
    assert |after| == |now| + 1;
    forall c ensures c in after <==> c in before || first <= c < first + |found + [row]| {
      assert c in after <==> c in now || c == last;
    }
    forall c | first <= c <= last ensures c in after && after[c] == (found + [row])[c - first] {
      if c < last { assert c in now; }
    }
    forall c | c in before ensures after[c] == before[c] {
      assert c in now && c != last;
    }
  }

  lemma MentionsOneMore(before: map<Id, Mention>, now: map<Id, Mention>, first: Id, chunk: Chunk, i: nat, last: Id)
    requires i < |chunk.mentions| && last == first + i && forall id | id in before :: id < first
    requires Appended(before, now, first, NewMentions(chunk, i))
    ensures Appended(before, now[last := NewMention(chunk, i)], first, NewMentions(chunk, i + 1))
  {
    AppendOne(before, now, first, NewMentions(chunk, i), last, NewMention(chunk, i));
  }

  /** The same with the ids of the new rows listed. */
  lemma AppendedRows<T>(before: map<Id, T>, now: map<Id, T>, first: Id, found: seq<T>, rows: seq<Id>)
    requires Appended(before, now, first, found)
    requires |rows| == |found| && forall i | 0 <= i < |rows| :: rows[i] == first + i
    ensures forall m :: m in now <==> m in before || m in rows
    ensures forall i | 0 <= i < |rows| :: now[rows[i]] == found[i]
  {
    forall m ensures m in now <==> m in before || m in rows {
      if first <= m < first + |found| { assert rows[m - first] == m; }
    }
  }

  predicate SameSaid(a: Mention, b: Mention) {
    a.chunk == b.chunk && a.text == b.text && a.kind == b.kind && a.confidence == b.confidence
  }

  /** The rows are resolved; nothing else about the mentions has changed. */
  ghost predicate RowsResolved(before: map<Id, Mention>, now: map<Id, Mention>, rows: seq<Id>) {
    && now.Keys == before.Keys && |now| == |before|
    && (forall m | m in before && m !in rows :: now[m] == before[m])
    && (forall m | m in rows :: m in before && now[m].resolved && SameSaid(before[m], now[m]))
  }

  lemma ResolvedOneMore(before: map<Id, Mention>, mid: map<Id, Mention>, now: map<Id, Mention>, rows: seq<Id>, i: nat)
    requires i < |rows| && rows[i] in before && RowsResolved(before, mid, rows[..i])
    requires rows[i] in now && now == mid[rows[i] := mid[rows[i]].(entity := now[rows[i]].entity, resolved := true)]
    ensures RowsResolved(before, now, rows[..i + 1])
  {
    assert rows[..i + 1] == rows[..i] + [rows[i]];
    assert mid[rows[i]] == before[rows[i]] || SameSaid(before[rows[i]], mid[rows[i]]);
    assert now.Keys == mid.Keys && |now| == |now.Keys| && |mid| == |mid.Keys|;
  }

  lemma {:induction false} BySpanInRows(mentions: seq<Ner>, rows: seq<Id>)
    requires |rows| == |mentions|
    ensures forall s | s in BySpan(mentions, rows) :: BySpan(mentions, rows)[s] in rows
  {
    if mentions != [] {
      BySpanInRows(mentions[..|mentions| - 1], rows[..|rows| - 1]);
    }
  }

  // ---------------------------------------------------------------- what ingestion leaves in the tables

  /** The rows made of a chunk: one per mention, and one for every relation that gets one. */
  datatype Rows = Rows(mentions: seq<Id>, candidates: seq<Option<Id>>)

  ghost predicate Increasing(rows: seq<Id>) {
    forall i, j | 0 <= i < j < |rows| :: rows[i] < rows[j]
  }

  /** The row says what was reported. */
  ghost predicate Says(row: Mention, chunk: Id, m: Ner) {
    row.chunk == chunk && row.text == m.text && row.kind == m.kind && row.confidence == m.confidence
  }

  /** One row per reported mention, in order. */
  ghost predicate MentionRows(chunk: Chunk, table: map<Id, Mention>, rows: seq<Id>) {
    && |rows| == |chunk.mentions| && Increasing(rows)
    && forall i | 0 <= i < |rows| :: rows[i] in table && Says(table[rows[i]], chunk.id, chunk.mentions[i])
  }

  ghost predicate Reported(chunk: Chunk, s: Span) {
    exists i: nat :: LastWith(chunk.mentions, i, s)
  }

  /** `row` is the row of the last mention with the span. */
  ghost predicate IsRowOf(chunk: Chunk, rows: seq<Id>, s: Span, row: Id)
    requires |rows| == |chunk.mentions|
  {
    exists i: nat :: LastWith(chunk.mentions, i, s) && rows[i] == row
  }

  /** The candidate of a relation joins the last mentions with its spans. */
  ghost predicate CandidateSays(chunk: Chunk, rows: seq<Id>, rel: Found, c: Candidate)
    requires |rows| == |chunk.mentions|
  {
    && IsRowOf(chunk, rows, rel.from, c.from) && IsRowOf(chunk, rows, rel.to, c.to)
    && c.kind == rel.kind && c.chunk == chunk.id && c.confidence == rel.confidence
  }

  /** What has become of relation `r`: a row if both its spans are those of mentions, otherwise nothing. */
  ghost predicate RelationTaken(chunk: Chunk, table: map<Id, Candidate>, rows: Rows, r: nat)
    requires |rows.mentions| == |chunk.mentions| && |rows.candidates| == |chunk.relations| && r < |chunk.relations|
  {
    var rel, c := chunk.relations[r], rows.candidates[r];
    && (c.Some? <==> Reported(chunk, rel.from) && Reported(chunk, rel.to))
    && (c.Some? ==> c.value in table && CandidateSays(chunk, rows.mentions, rel, table[c.value]))
  }

  ghost predicate CandidateRowsAre(chunk: Chunk, table: map<Id, Candidate>, rows: Rows)
    requires |rows.mentions| == |chunk.mentions|
  {
    && |rows.candidates| == |chunk.relations|
    && (forall r | 0 <= r < |chunk.relations| :: RelationTaken(chunk, table, rows, r))
    && (forall r, q | 0 <= r < q < |rows.candidates| && rows.candidates[r].Some? && rows.candidates[q].Some? ::
          rows.candidates[r].value < rows.candidates[q].value)
  }

  ghost predicate Ingested(db: Tables, chunk: Chunk, rows: Rows) {
    MentionRows(chunk, db.mentions, rows.mentions) && CandidateRowsAre(chunk, db.candidates, rows)
  }

  /** The ids of the rows lie from `first` up to `next`. */
  ghost predicate Between(rows: Rows, first: Id, next: Id) {
    && (forall m | m in rows.mentions :: first <= m < next)
    && (forall c | c in rows.candidates && c.Some? :: first <= c.value < next)
  }

  /** The new rows are exactly those of the chunks. */
  ghost predicate NoOtherRows(before: Tables, now: Tables, all: seq<Rows>) {
    && (forall m :: m in now.mentions <==> m in before.mentions || exists k :: 0 <= k < |all| && m in all[k].mentions)
    && (forall c :: c in now.candidates <==>
          c in before.candidates || exists k :: 0 <= k < |all| && Some(c) in all[k].candidates)
  }

  /** Rows of an earlier chunk have smaller ids. */
  ghost predicate ChunkByChunk(all: seq<Rows>) {
    forall k, l | 0 <= k < l < |all| :: Before(all[k], all[l])
  }

  ghost predicate Before(a: Rows, b: Rows) {
    && (forall m, n | m in a.mentions && n in b.mentions :: m < n)
    && (forall c, d | c in a.candidates && d in b.candidates && c.Some? && d.Some? :: c.value < d.value)
  }

  /**
   The rows of a document: chunk by chunk one per reported mention and one per relation
   between two of them, all of them new, and no others.
   */
  ghost predicate DocumentRows(before: Tables, now: Tables, chunks: seq<Chunk>, all: seq<Rows>) {
    && |all| == |chunks| && (forall k | 0 <= k < |all| :: NewlyIngested(before, now, chunks[k], all[k]))
    && NoOtherRows(before, now, all) && ChunkByChunk(all)
  }

  ghost predicate NewlyIngested(before: Tables, now: Tables, chunk: Chunk, rows: Rows) {
    Ingested(now, chunk, rows) && New(before, rows)
  }

  ghost predicate New(before: Tables, rows: Rows) {
    && (forall m | m in rows.mentions :: m !in before.mentions)
    && (forall c | c in rows.candidates && c.Some? :: c.value !in before.candidates)
  }

  function MentionCount(chunks: seq<Chunk>): nat {
    if chunks == [] then 0 else MentionCount(chunks[..|chunks| - 1]) + |chunks[|chunks| - 1].mentions|
  }

  // ---------------------------------------------------------------- candidates as slots

  /** For every relation the id of its candidate, if it has one. */
  ghost function Slots(chunk: Chunk, n: nat, bySpan: map<Span, Id>, first: Id): (r: seq<Option<Id>>)
    requires n <= |chunk.relations|
    ensures |r| == n
  {
    if n == 0 then []
    else
      var rel := chunk.relations[n - 1];
      Slots(chunk, n - 1, bySpan, first) + [
        if rel.from in bySpan && rel.to in bySpan
        then Some(first + |CandidateRows(chunk, chunk.relations[..n - 1], bySpan)|) else None]
  }

  /** What a slot holds when `rows` have been made: the id of the relation's candidate. */
  ghost predicate SlotIs(chunk: Chunk, rel: Found, bySpan: map<Span, Id>, first: Id, rows: seq<Candidate>,
                         c: Option<Id>)
  {
    if rel.from in bySpan && rel.to in bySpan
    then c.Some? && first <= c.value < first + |rows| && rows[c.value - first] ==
                    Candidate(bySpan[rel.from], bySpan[rel.to], rel.kind, chunk.id, rel.confidence, false)
    else c.None?
  }

  lemma {:induction false} SlotAt(chunk: Chunk, n: nat, bySpan: map<Span, Id>, first: Id, r: nat)
    requires r < n <= |chunk.relations|
    ensures SlotIs(chunk, chunk.relations[r], bySpan, first, CandidateRows(chunk, chunk.relations[..n], bySpan),
                   Slots(chunk, n, bySpan, first)[r])
  {
    CandidateRowsSnoc(chunk, n - 1, bySpan);
    if r < n - 1 { SlotAt(chunk, n - 1, bySpan, first, r); }
  }

  lemma {:induction false} SlotsIncrease(chunk: Chunk, n: nat, bySpan: map<Span, Id>, first: Id, r: nat, q: nat)
    requires r < q < n <= |chunk.relations|
    ensures var s := Slots(chunk, n, bySpan, first); s[r].Some? && s[q].Some? ==> s[r].value < s[q].value
  {
    if q < n - 1 {
      SlotsIncrease(chunk, n - 1, bySpan, first, r, q);
    } else {
      SlotAt(chunk, n - 1, bySpan, first, r);
    }
  }

  /** Every candidate has a slot. */
  lemma {:induction false} SlotsCover(chunk: Chunk, n: nat, bySpan: map<Span, Id>, first: Id, c: Id)
    requires n <= |chunk.relations|
    ensures first <= c < first + |CandidateRows(chunk, chunk.relations[..n], bySpan)| <==>
            Some(c) in Slots(chunk, n, bySpan, first)
  {
    if n > 0 {
      CandidateRowsSnoc(chunk, n - 1, bySpan);
      SlotsCover(chunk, n - 1, bySpan, first, c);
    }
  }

  lemma SpanKnown(chunk: Chunk, rows: seq<Id>, s: Span)
    requires |rows| == |chunk.mentions|
    ensures s in BySpan(chunk.mentions, rows) <==> Reported(chunk, s)
    ensures s in BySpan(chunk.mentions, rows) ==> IsRowOf(chunk, rows, s, BySpan(chunk.mentions, rows)[s])
  {
    BySpanIsLast(chunk.mentions, rows, s);
  }

  lemma SlotTaken(chunk: Chunk, table: map<Id, Candidate>, rows: Rows, bySpan: map<Span, Id>, r: nat,
                  made: seq<Candidate>, first: Id)
    requires |rows.mentions| == |chunk.mentions| && |rows.candidates| == |chunk.relations| && r < |chunk.relations|
    requires bySpan == BySpan(chunk.mentions, rows.mentions)
    requires forall c | first <= c < first + |made| :: c in table && table[c] == made[c - first]
    requires SlotIs(chunk, chunk.relations[r], bySpan, first, made, rows.candidates[r])
    ensures RelationTaken(chunk, table, rows, r)
  {
    SpanKnown(chunk, rows.mentions, chunk.relations[r].from);
    SpanKnown(chunk, rows.mentions, chunk.relations[r].to);
  }

  /** The candidates added for a chunk are the rows of its relations. */
  lemma CandidatesTaken(chunk: Chunk, before: map<Id, Candidate>, now: map<Id, Candidate>, mentions: seq<Id>, first: Id)
    returns (rows: Rows)
    requires |mentions| == |chunk.mentions|
    requires Appended(before, now, first, CandidateRows(chunk, chunk.relations, BySpan(chunk.mentions, mentions)))
    ensures rows.mentions == mentions && CandidateRowsAre(chunk, now, rows)
    ensures forall c :: c in now <==> c in before || Some(c) in rows.candidates
    ensures forall c | c in rows.candidates && c.Some? :: first <= c.value < first + |now| - |before|
  {
    var bySpan, n := BySpan(chunk.mentions, mentions), |chunk.relations|;
    var made := CandidateRows(chunk, chunk.relations, bySpan);
    rows := Rows(mentions, Slots(chunk, n, bySpan, first));
    assert chunk.relations[..n] == chunk.relations;
    forall r | 0 <= r < n ensures RelationTaken(chunk, now, rows, r) {
      SlotAt(chunk, n, bySpan, first, r);
      SlotTaken(chunk, now, rows, bySpan, r, made, first);
    }
    forall r, q | 0 <= r < q < n && rows.candidates[r].Some? && rows.candidates[q].Some?
      ensures rows.candidates[r].value < rows.candidates[q].value
    {
      SlotsIncrease(chunk, n, bySpan, first, r, q);
    }
    forall c: Id ensures first <= c < first + |made| <==> Some(c) in rows.candidates {
      SlotsCover(chunk, n, bySpan, first, c);
    }
  }

  // ---------------------------------------------------------------- chunk after chunk

  /** Old mentions, candidates and edges are as they were; new mentions are resolved. */
  ghost predicate RowsAppended(before: Tables, after: Tables) {
    && (forall m | m in before.mentions :: m in after.mentions && after.mentions[m] == before.mentions[m])
    && (forall m | m in after.mentions && m !in before.mentions :: after.mentions[m].resolved)
    && (forall c | c in before.candidates :: c in after.candidates && after.candidates[c] == before.candidates[c])
    && after.edges == before.edges
  }

  /** Rows stay what they say while other rows are added, mentions are resolved and candidates promoted. */
  ghost predicate StillThere(db: Tables, after: Tables) {
    && (forall m | m in db.mentions :: m in after.mentions && SameSaid(db.mentions[m], after.mentions[m]))
    && (forall c | c in db.candidates :: c in after.candidates && SameCandidate(db.candidates[c], after.candidates[c]))
  }

  predicate SameCandidate(a: Candidate, b: Candidate) {
    b == a.(promoted := b.promoted)
  }

  lemma StaysIngested(db: Tables, after: Tables, chunk: Chunk, rows: Rows)
    requires Ingested(db, chunk, rows) && StillThere(db, after)
    ensures Ingested(after, chunk, rows)
  {
    forall i | 0 <= i < |rows.mentions|
      ensures rows.mentions[i] in after.mentions
      ensures Says(after.mentions[rows.mentions[i]], chunk.id, chunk.mentions[i])
    {
      assert SameSaid(db.mentions[rows.mentions[i]], after.mentions[rows.mentions[i]]);
    }
    forall r | 0 <= r < |chunk.relations| ensures RelationTaken(chunk, after.candidates, rows, r) {
      assert RelationTaken(chunk, db.candidates, rows, r);
      var c := rows.candidates[r];
      if c.Some? { assert SameCandidate(db.candidates[c.value], after.candidates[c.value]); }
    }
  }

  /** No row has an id from `next` on. */
  ghost predicate RowsBelow(db: Tables, next: Id) {
    (forall m | m in db.mentions :: m < next) && (forall c | c in db.candidates :: c < next)
  }

  lemma RowsOneMore(before: Tables, mid: Tables, now: Tables, all: seq<Rows>, rows: Rows)
    requires NoOtherRows(before, mid, all) && NoOtherRows(mid, now, [rows])
    ensures NoOtherRows(before, now, all + [rows])
  {
    var more := all + [rows];
    forall m ensures m in now.mentions <==>
                     m in before.mentions || exists k :: 0 <= k < |more| && m in more[k].mentions {
      assert (exists k :: 0 <= k < |[rows]| && m in [rows][k].mentions) <==> m in rows.mentions by {
        assert [rows][0] == rows;
      }
      if m in rows.mentions { assert more[|all|] == rows; }
      if k :| 0 <= k < |all| && m in all[k].mentions { assert more[k] == all[k]; }
    }
    forall c ensures c in now.candidates <==>
                     c in before.candidates || exists k :: 0 <= k < |more| && Some(c) in more[k].candidates {
      assert (exists k :: 0 <= k < |[rows]| && Some(c) in [rows][k].candidates) <==> Some(c) in rows.candidates by {
        assert [rows][0] == rows;
      }
      if Some(c) in rows.candidates { assert more[|all|] == rows; }
      if k :| 0 <= k < |all| && Some(c) in all[k].candidates { assert more[k] == all[k]; }
    }
  }

  lemma DocumentOneMore(before: Tables, mid: Tables, now: Tables, done: seq<Chunk>, all: seq<Rows>, chunk: Chunk,
                        rows: Rows, next: Id, last: Id)
    requires DocumentRows(before, mid, done, all) && StillThere(mid, now)
    requires Ingested(now, chunk, rows) && NoOtherRows(mid, now, [rows])
    requires RowsBelow(before, next) && RowsBelow(mid, next) && Between(rows, next, last)
    ensures DocumentRows(before, now, done + [chunk], all + [rows])
  {
    RowsOneMore(before, mid, now, all, rows);
    LaterBefore(before, mid, done, all, rows, next, last);
    StayIngested(before, mid, now, done, all);
    assert NewlyIngested(before, now, chunk, rows);
  }

  lemma StayIngested(before: Tables, mid: Tables, now: Tables, done: seq<Chunk>, all: seq<Rows>)
    requires DocumentRows(before, mid, done, all) && StillThere(mid, now)
    ensures forall k | 0 <= k < |all| :: NewlyIngested(before, now, done[k], all[k])
  {
    forall k | 0 <= k < |all| ensures NewlyIngested(before, now, done[k], all[k]) {
      assert NewlyIngested(before, mid, done[k], all[k]);
      StaysIngested(mid, now, done[k], all[k]);
    }
  }

  lemma LaterBefore(before: Tables, mid: Tables, done: seq<Chunk>, all: seq<Rows>, rows: Rows, next: Id, last: Id)
    requires DocumentRows(before, mid, done, all) && RowsBelow(mid, next) && Between(rows, next, last)
    ensures ChunkByChunk(all + [rows])
  {
    var more := all + [rows];
    forall k, l | 0 <= k < l < |more| ensures Before(more[k], more[l]) {
      if l == |all| {
        EarlierBefore(before, mid, done, all, k, rows, next, last);
      } else {
        assert Before(all[k], all[l]);
      }
    }
  }

  lemma EarlierBefore(before: Tables, mid: Tables, done: seq<Chunk>, all: seq<Rows>, k: nat, rows: Rows, next: Id,
                      last: Id)
    requires DocumentRows(before, mid, done, all) && RowsBelow(mid, next) && Between(rows, next, last) && k < |all|
    ensures Before(all[k], rows)
  {
    forall m | m in all[k].mentions ensures m < next { assert m in mid.mentions; }
    forall c | c in all[k].candidates && c.Some? ensures c.value < next { assert c.value in mid.candidates; }
  }

  lemma DocumentStays(before: Tables, now: Tables, after: Tables, chunks: seq<Chunk>, all: seq<Rows>)
    requires DocumentRows(before, now, chunks, all) && StillThere(now, after)
    requires after.mentions.Keys == now.mentions.Keys && after.candidates.Keys == now.candidates.Keys
    ensures DocumentRows(before, after, chunks, all)
  {
    StayIngested(before, now, after, chunks, all);
    forall m ensures m in after.mentions <==> m in now.mentions {
      assert m in after.mentions.Keys <==> m in now.mentions.Keys;
    }
    forall c ensures c in after.candidates <==> c in now.candidates {
      assert c in after.candidates.Keys <==> c in now.candidates.Keys;
    }
  }

  // ---------------------------------------------------------------- resolved in turn

  /** The mentions resolved between the two logs have ids from `first` up to `next`, in increasing order. */
  ghost predicate ResolvedInTurn(before: seq<Event>, after: seq<Event>, first: Id, next: Id) {
    && before <= after
    && (forall i | |before| <= i < |after| && after[i].MentionResolved? :: first <= after[i].mention < next)
    && (forall i, j | |before| <= i < j < |after| && after[i].MentionResolved? && after[j].MentionResolved? ::
          after[i].mention < after[j].mention)
  }

  /** None is. */
  ghost predicate NoneResolved(before: seq<Event>, after: seq<Event>) {
    before <= after && forall i | |before| <= i < |after| :: !after[i].MentionResolved?
  }

  lemma InTurnOnward(a: seq<Event>, b: seq<Event>, c: seq<Event>, first: Id, mid: Id, next: Id)
    requires ResolvedInTurn(a, b, first, mid) && ResolvedInTurn(b, c, mid, next) && first <= mid <= next
    ensures ResolvedInTurn(a, c, first, next)
  {
    forall i | |a| <= i < |c| && c[i].MentionResolved?
      ensures first <= c[i].mention < next && (i < |b| ==> c[i].mention < mid) && (i >= |b| ==> c[i].mention >= mid)
    {
      if i < |b| { assert c[i] == b[i]; }
    }
    forall i, j | |a| <= i < j < |c| && c[i].MentionResolved? && c[j].MentionResolved?
      ensures c[i].mention < c[j].mention
    {
      if j < |b| { assert c[i] == b[i] && c[j] == b[j]; }
    }
  }

  lemma CountOneMore(chunks: seq<Chunk>, i: nat)
    requires i < |chunks|
    ensures MentionCount(chunks[..i + 1]) == MentionCount(chunks[..i]) + |chunks[i].mentions|
  {
    assert chunks[..i + 1][..i] == chunks[..i];
  }

  // ---------------------------------------------------------------- one chunk

  lemma MentionsMade(chunk: Chunk, before: map<Id, Mention>, mid: map<Id, Mention>, now: map<Id, Mention>,
                     rows: seq<Id>, first: Id)
    requires |rows| == |chunk.mentions| && forall i | 0 <= i < |rows| :: rows[i] == first + i
    requires Appended(before, mid, first, NewMentions(chunk, |rows|)) && RowsResolved(mid, now, rows)
    ensures MentionRows(chunk, now, rows) && forall m :: m in now <==> m in before || m in rows
  {
    AppendedRows(before, mid, first, NewMentions(chunk, |rows|), rows);
    forall i | 0 <= i < |rows| ensures rows[i] in now && Says(now[rows[i]], chunk.id, chunk.mentions[i]) {
      assert rows[i] in rows && mid[rows[i]] == NewMention(chunk, i);
    }
    forall m ensures m in now <==> m in before || m in rows { assert m in now.Keys <==> m in mid.Keys; }
  }

  /** The rows of a chunk once its mentions are added, its candidates are, and its mentions are resolved. */
  lemma ChunkMade(chunk: Chunk, before: Tables, mid: Tables, now: Tables, mentions: seq<Id>, first: Id, next: Id)
    returns (rows: Rows)
    requires |mentions| == |chunk.mentions| && forall i | 0 <= i < |mentions| :: mentions[i] == first + i
    requires Appended(before.mentions, mid.mentions, first, NewMentions(chunk, |mentions|))
    requires RowsResolved(mid.mentions, now.mentions, mentions) && next == first + |mentions|
    requires Appended(before.candidates, mid.candidates, next,
                      CandidateRows(chunk, chunk.relations, BySpan(chunk.mentions, mentions)))
    requires now.candidates == mid.candidates
    ensures rows.mentions == mentions && Ingested(now, chunk, rows) && NoOtherRows(before, now, [rows])
    ensures Between(rows, first, next + |now.candidates| - |before.candidates|)
    ensures forall m :: m in now.mentions <==> m in before.mentions || m in mentions
  {
    MentionsMade(chunk, before.mentions, mid.mentions, now.mentions, mentions, first);
    rows := CandidatesTaken(chunk, before.candidates, mid.candidates, mentions, next);
    OnlyRows(before, now, rows);
  }

  lemma OnlyRows(before: Tables, now: Tables, rows: Rows)
    requires forall m :: m in now.mentions <==> m in before.mentions || m in rows.mentions
    requires forall c :: c in now.candidates <==> c in before.candidates || Some(c) in rows.candidates
    ensures NoOtherRows(before, now, [rows])
  {
    assert [rows][0] == rows;
  }

  /** The tables `now` are `before` with mentions and candidates added. */
  ghost predicate RowsAdded(before: Tables, now: Tables, first: Id, next: Id, ids: seq<Id>, made: seq<Mention>,
                            found: seq<Candidate>)
  {
    && next == first + |ids| && |ids| == |made| && (forall i | 0 <= i < |ids| :: ids[i] == first + i)
    && (forall m | m in before.mentions :: m < first)
    && Appended(before.mentions, now.mentions, first, made)
    && Appended(before.candidates, now.candidates, next, found)
    && now.entities == before.entities && now.edges == before.edges && now.reviews == before.reviews
  }

  lemma RowsOfChunk(before: map<Id, Mention>, now: map<Id, Mention>, first: Id, chunk: Chunk, ids: seq<Id>)
    requires |ids| == |chunk.mentions| && forall i | 0 <= i < |ids| :: ids[i] == first + i
    requires Appended(before, now, first, NewMentions(chunk, |ids|))
    ensures forall r | r in ids :: r in now && now[r].chunk == chunk.id
  {
    AppendedRows(before, now, first, NewMentions(chunk, |ids|), ids);
    forall r | r in ids ensures r in now && now[r].chunk == chunk.id {
      var i :| 0 <= i < |ids| && ids[i] == r;
      assert now[ids[i]] == NewMention(chunk, i);
    }
  }

  lemma BothAdded(before: Tables, mid: Tables, now: Tables, first: Id, next: Id, ids: seq<Id>, made: seq<Mention>,
                  found: seq<Candidate>)
    requires next == first + |ids| && |ids| == |made| && forall i | 0 <= i < |ids| :: ids[i] == first + i
    requires forall m | m in before.mentions :: m < first
    requires Appended(before.mentions, mid.mentions, first, made)
    requires mid == before.(mentions := mid.mentions) && now == mid.(candidates := now.candidates)
    requires Appended(mid.candidates, now.candidates, next, found)
    ensures RowsAdded(before, now, first, next, ids, made, found)
  {
  }

  lemma RowsPending(before: Tables, mid: Tables, first: Id, next: Id, chunk: Chunk, ids: seq<Id>,
                    found: seq<Candidate>)
    requires |ids| == |chunk.mentions| && RowsAdded(before, mid, first, next, ids, NewMentions(chunk, |ids|), found)
    ensures Increasing(ids) && |mid.mentions| == |before.mentions| + |ids|
    ensures forall i | 0 <= i < |ids| :: ids[i] in mid.mentions && mid.mentions[ids[i]] == NewMention(chunk, i)
  {
    AppendedRows(before.mentions, mid.mentions, first, NewMentions(chunk, |ids|), ids);
  }

  /** After resolution the rows of the chunk stand as they should. */
  lemma RowsResolvedToo(before: Tables, mid: Tables, now: Tables, first: Id, next: Id, chunk: Chunk,
                        ids: seq<Id>, found: seq<Candidate>)
    returns (rows: Rows)
    requires |ids| == |chunk.mentions| && RowsAdded(before, mid, first, next, ids, NewMentions(chunk, |ids|), found)
    requires found == CandidateRows(chunk, chunk.relations, BySpan(chunk.mentions, ids))
    requires RowsResolved(mid.mentions, now.mentions, ids)
    requires now.candidates == mid.candidates && now.edges == mid.edges
    ensures RowsAppended(before, now) && Ingested(now, chunk, rows) && NoOtherRows(before, now, [rows])
    ensures Between(rows, first, next + |now.candidates| - |before.candidates|)
    ensures forall m :: m in now.mentions <==> m in before.mentions || m in ids
  {
    rows := ChunkMade(chunk, before, mid, now, ids, first, next);
    OthersKept(before, mid, now, first, next, ids, NewMentions(chunk, |ids|), found);
  }

  lemma OthersKept(before: Tables, mid: Tables, now: Tables, first: Id, next: Id, ids: seq<Id>,
                   made: seq<Mention>, found: seq<Candidate>)
    requires RowsAdded(before, mid, first, next, ids, made, found) && RowsResolved(mid.mentions, now.mentions, ids)
    requires now.candidates == mid.candidates && now.edges == mid.edges
    requires forall m :: m in now.mentions <==> m in before.mentions || m in ids
    ensures RowsAppended(before, now)
  {
    forall m | m in before.mentions ensures m in now.mentions && now.mentions[m] == before.mentions[m] {
      assert m !in ids && m in mid.mentions;
    }
  }

  /** A chunk without mentions leaves nothing. */
  lemma NothingMade(chunk: Chunk, db: Tables, next: Id) returns (rows: Rows)
    requires chunk.mentions == []
    ensures Ingested(db, chunk, rows) && NoOtherRows(db, db, [rows]) && Between(rows, next, next)
  {
    rows := Rows([], seq(|chunk.relations|, _ => None));
    forall r | 0 <= r < |chunk.relations| ensures RelationTaken(chunk, db.candidates, rows, r) {
      assert forall i: nat, s :: !LastWith(chunk.mentions, i, s);
    }
    OnlyRows(db, db, rows);
  }

  lemma NothingYet(db: Tables)
    ensures DocumentRows(db, db, [], [])
  {
  }
}
