/** `chunk_text`: units packed into windows, each window joined into a chunk with its offsets. */
module Chunking {
  import opened Text
  import opened Units
  import opened Windows

  datatype ChunkSpan = ChunkSpan(text: string, ordinal: nat, start: nat, end: nat)

  datatype Settings = Settings(targetTokens: int, maxTokens: nat, overlapRatio: real)

  function Counts(tok: Tokenizer, units: seq<Unit>): seq<nat> {
    seq(|units|, i requires 0 <= i < |units| => tok.Count(units[i].text))
  }

  function PackingOf(tok: Tokenizer, settings: Settings, units: seq<Unit>): Packing {
    Packing(Counts(tok, units), settings.targetTokens, settings.maxTokens, settings.overlapRatio)
  }

  function Texts(units: seq<Unit>): seq<string> {
    seq(|units|, i requires 0 <= i < |units| => units[i].text)
  }

  function ChunkOf(units: seq<Unit>, w: Window, ordinal: nat): ChunkSpan
    requires w.start < w.end <= |units|
  {
    ChunkSpan(Join(Texts(units[w.start..w.end]), "\n"), ordinal, units[w.start].start, units[w.end - 1].end)
  }

  ghost predicate Within(units: seq<Unit>, ws: seq<Window>) {
    forall w | w in ws :: w.start < w.end <= |units|
  }

  /** One chunk per window, numbered in order. */
  ghost function ChunkList(units: seq<Unit>, ws: seq<Window>): seq<ChunkSpan>
    requires Within(units, ws)
  {
    if ws == [] then []
    else ChunkList(units, ws[..|ws| - 1]) + [ChunkOf(units, ws[|ws| - 1], |ws| - 1)]
  }

  lemma {:induction false} ChunkListAt(units: seq<Unit>, ws: seq<Window>, k: nat)
    requires Within(units, ws) && k < |ws|
    ensures |ChunkList(units, ws)| == |ws| && ChunkList(units, ws)[k] == ChunkOf(units, ws[k], k)
  {
    if k < |ws| - 1 {
      ChunkListAt(units, ws[..|ws| - 1], k);
    } else if k > 0 {
      ChunkListAt(units, ws[..|ws| - 1], k - 1);
    }
  }

  /** The windows of the packing, none if there are no units. */
  ghost function AllWindows(p: Packing): seq<Window> {
    if p.tokens == [] then [] else p.WindowsFrom(0)
  }

  // ---------------------------------------------------------------- fitting units

  /** Tiled, no newline in any unit, and what stands behind a gap starts with a non-space. */
  ghost predicate TidyUpTo(text: string, units: seq<Unit>, pos: nat) {
    && TiledUpTo(text, units, pos)
    && (forall i | 0 <= i < |units| :: '\n' !in units[i].text)
    && SolidBehindGaps(text, units)
  }

  predicate SolidAt(text: string, p: nat) {
    p < |text| && !IsSpace(text[p])
  }

  predicate SolidBehindGap(text: string, units: seq<Unit>, i: nat)
    requires 0 < i < |units|
  {
    units[i - 1].end < units[i].start ==> SolidAt(text, units[i].start)
  }

  ghost predicate Tidy(text: string, units: seq<Unit>) {
    TidyUpTo(text, units, |text|)
  }

  lemma ConcatTiled(text: string, units: seq<Unit>, pos: nat, more: seq<Unit>)
    requires TiledUpTo(text, units, pos) && more != [] && Gap(text, pos, more[0].start)
    requires forall i | 0 <= i < |more| :: IsSlice(text, more[i])
    requires forall i | 0 < i < |more| :: Adjacent(more, i)
    ensures TiledUpTo(text, units + more, Stop(more))
  {
    var all := units + more;
    assert Gap(text, Stop(units), more[0].start);
    forall i | 0 < i < |all| ensures GapBefore(text, all, i) {
      if i < |units| {
        assert GapBefore(text, units, i);
      } else if i > |units| {
        assert Adjacent(more, i - |units|);
      }
    }
  }

  ghost predicate SolidBehindGaps(text: string, units: seq<Unit>) {
    forall i | 0 < i < |units| :: SolidBehindGap(text, units, i)
  }

  lemma ConcatSolid(text: string, units: seq<Unit>, more: seq<Unit>)
    requires SolidBehindGaps(text, units) && SolidBehindGaps(text, more)
    requires units != [] && more != [] ==> Stop(units) == more[0].start || SolidAt(text, more[0].start)
    ensures SolidBehindGaps(text, units + more)
  {
    var all := units + more;
    forall i | 0 < i < |all| ensures SolidBehindGap(text, all, i) {
      if i < |units| {
        assert SolidBehindGap(text, units, i);
      } else if i > |units| {
        assert SolidBehindGap(text, more, i - |units|);
      }
    }
  }

  lemma LineSolid(text: string, line: Unit)
    requires IsSlice(text, line) && IsLine(line.text)
    ensures SolidAt(text, line.start) && line.start < line.end && '\n' !in line.text
  {
    assert line.text[0] == text[line.start];
  }

  lemma AdjacentSolid(text: string, units: seq<Unit>)
    requires forall i | 0 < i < |units| :: Adjacent(units, i)
    ensures SolidBehindGaps(text, units)
  {
    forall i | 0 < i < |units| ensures SolidBehindGap(text, units, i) {
      assert Adjacent(units, i);
    }
  }

  lemma PieceIn(text: string, line: Unit, fitted: seq<Unit>, i: nat)
    requires IsSlice(text, line) && '\n' !in line.text && Pieces(line.text, line.start, fitted) && i < |fitted|
    ensures IsSlice(text, fitted[i]) && '\n' !in fitted[i].text
  {
    PieceOfLine(text, line, fitted[i]);
  }

  /** What the pieces of a line are in the text. */
  lemma FittedSlices(text: string, line: Unit, fitted: seq<Unit>)
    requires IsSlice(text, line) && IsLine(line.text) && Pieces(line.text, line.start, fitted)
    ensures fitted != [] && fitted[0].start == line.start && Stop(fitted) == line.end && SolidBehindGaps(text, fitted)
    ensures forall i | 0 <= i < |fitted| :: IsSlice(text, fitted[i]) && '\n' !in fitted[i].text
    ensures SolidAt(text, line.start)
  {
    LineSolid(text, line);
    AdjacentSolid(text, fitted);
    forall i | 0 <= i < |fitted| ensures IsSlice(text, fitted[i]) && '\n' !in fitted[i].text {
      PieceIn(text, line, fitted, i);
    }
  }

  lemma ConcatTidy(text: string, units: seq<Unit>, pos: nat, more: seq<Unit>)
    requires TidyUpTo(text, units, pos) && more != [] && Gap(text, pos, more[0].start) && SolidBehindGaps(text, more)
    requires forall i | 0 <= i < |more| :: IsSlice(text, more[i]) && '\n' !in more[i].text
    requires forall i | 0 < i < |more| :: Adjacent(more, i)
    requires SolidAt(text, more[0].start)
    ensures TidyUpTo(text, units + more, Stop(more))
  {
    ConcatTiled(text, units, pos, more);
    ConcatSolid(text, units, more);
    forall i | 0 <= i < |units + more| ensures '\n' !in (units + more)[i].text {
      assert (units + more)[i] == if i < |units| then units[i] else more[i - |units|];
    }
  }

  /** A line, whole or in pieces, goes behind the units before it. */
  lemma AddFitted(text: string, units: seq<Unit>, pos: nat, line: Unit, fitted: seq<Unit>)
    requires TidyUpTo(text, units, pos) && Gap(text, pos, line.start)
    requires IsSlice(text, line) && IsLine(line.text) && Pieces(line.text, line.start, fitted)
    ensures TidyUpTo(text, units + fitted, line.end)
  {
    FittedSlices(text, line, fitted);
    ConcatTidy(text, units, pos, fitted);
  }

  lemma PieceOfLine(text: string, line: Unit, piece: Unit)
    requires IsSlice(text, line) && '\n' !in line.text && line.start <= piece.start <= piece.end <= line.end
    requires piece.text == line.text[piece.start - line.start..piece.end - line.start]
    ensures IsSlice(text, piece) && '\n' !in piece.text
  {
    var i, j := piece.start - line.start, piece.end - line.start;
    SliceOfSlice(text, line.start, line.end, i, j);
    forall k | 0 <= k < |piece.text| ensures piece.text[k] != '\n' {
      assert piece.text[k] == line.text[i + k] && line.text[i + k] in line.text;
    }
  }

  lemma SliceOfSlice(s: string, a: nat, b: nat, i: nat, j: nat)
    requires a <= b <= |s| && i <= j <= b - a
    ensures s[a..b][i..j] == s[a + i..a + j]
  {
    var t := s[a..b];
    forall k | 0 <= k < j - i ensures t[i..j][k] == s[a + i..a + j][k] {
      assert t[i..j][k] == t[i + k] && t[i + k] == s[a + (i + k)];
    }
  }

  /** What the tokens from `a` to `b` of `s` decode to counts no more than those tokens. */
  ghost predicate CountsNoMore(tok: Tokenizer, s: string) {
    forall a, b | 0 <= a <= b <= tok.Count(s) :: tok.Count(PieceAt(tok, s, 0, a, b).text) <= b - a
  }

  ghost predicate WithinMax(tok: Tokenizer, maxTokens: nat, units: seq<Unit>) {
    forall i | 0 <= i < |units| :: tok.Count(units[i].text) <= maxTokens
  }

  lemma PiecesWithinMax(tok: Tokenizer, maxTokens: nat, line: Unit, pieces: seq<Unit>)
    requires CountsNoMore(tok, line.text)
    requires forall k | 0 <= k < |pieces| ::
               pieces[k] == CutPiece(tok, line.text, line.start, k, maxTokens)
    ensures WithinMax(tok, maxTokens, pieces)
  {
    forall k | 0 <= k < |pieces| ensures tok.Count(pieces[k].text) <= maxTokens {
      var a, b := CutOf(tok, line.text, k, maxTokens), CutOf(tok, line.text, k + 1, maxTokens);
      CutAdvances(tok, line.text, k, maxTokens);
      assert pieces[k].text == PieceAt(tok, line.text, 0, a, b).text;
    }
  }

  /** A line too long for a chunk is cut exactly; any other need not be decoded at all. */
  ghost predicate Exact(tok: Tokenizer, maxTokens: nat, line: string) {
    tok.Count(line) > maxTokens ==> ExactCuts(tok, line, maxTokens)
  }

  ghost predicate Bounded(tok: Tokenizer, maxTokens: nat, line: string) {
    tok.Count(line) > maxTokens ==> CountsNoMore(tok, line)
  }

  ghost predicate AllExact(tok: Tokenizer, maxTokens: nat, lines: seq<Unit>) {
    forall i | 0 <= i < |lines| :: Exact(tok, maxTokens, lines[i].text)
  }

  ghost predicate AllBounded(tok: Tokenizer, maxTokens: nat, lines: seq<Unit>) {
    forall i | 0 <= i < |lines| :: Bounded(tok, maxTokens, lines[i].text)
  }

  lemma ConcatWithinMax(tok: Tokenizer, maxTokens: nat, units: seq<Unit>, more: seq<Unit>)
    requires WithinMax(tok, maxTokens, units) && WithinMax(tok, maxTokens, more)
    ensures WithinMax(tok, maxTokens, units + more)
  {
  }

  /** What a line, whole or split, becomes. */
  ghost predicate Fits(tok: Tokenizer, maxTokens: nat, line: Unit, fitted: seq<Unit>) {
    && fitted != []
    && (Exact(tok, maxTokens, line.text) ==> Pieces(line.text, line.start, fitted))
    && (Bounded(tok, maxTokens, line.text) ==> WithinMax(tok, maxTokens, fitted))
  }

  ghost predicate AllFit(tok: Tokenizer, maxTokens: nat, lines: seq<Unit>, fitted: seq<seq<Unit>>) {
    |fitted| <= |lines| && forall k | 0 <= k < |fitted| :: Fits(tok, maxTokens, lines[k], fitted[k])
  }

  ghost function Flat(fitted: seq<seq<Unit>>): seq<Unit> {
    if fitted == [] then [] else Flat(fitted[..|fitted| - 1]) + fitted[|fitted| - 1]
  }

  /** Where the text after the first `n` lines starts. */
  function StopAt(lines: seq<Unit>, n: nat): nat
    requires n <= |lines|
  {
    if n == 0 then 0 else lines[n - 1].end
  }

  /** Every entry of `fitted` tiles its line. */
  ghost predicate AllPieces(lines: seq<Unit>, fitted: seq<seq<Unit>>) {
    |fitted| <= |lines| && forall k | 0 <= k < |fitted| :: Pieces(lines[k].text, lines[k].start, fitted[k])
  }

  lemma PiecesBefore(lines: seq<Unit>, fitted: seq<seq<Unit>>, front: seq<seq<Unit>>)
    requires AllPieces(lines, fitted) && fitted != [] && front == fitted[..|fitted| - 1]
    ensures AllPieces(lines, front)
  {
  }

  lemma FlatOneMore(text: string, lines: seq<Unit>, fitted: seq<seq<Unit>>, front: seq<seq<Unit>>)
    requires AreLines(text, lines) && AllPieces(lines, fitted) && fitted != [] && front == fitted[..|fitted| - 1]
    requires TidyUpTo(text, Flat(front), StopAt(lines, |front|))
    ensures TidyUpTo(text, Flat(fitted), StopAt(lines, |fitted|))
  {
    var n := |front|;
    LineFacts(text, lines, n);
    AddFitted(text, Flat(front), StopAt(lines, n), lines[n], fitted[n]);
  }

  lemma {:induction false} FlatTidy(text: string, lines: seq<Unit>, fitted: seq<seq<Unit>>)
    requires AreLines(text, lines) && AllPieces(lines, fitted)
    ensures TidyUpTo(text, Flat(fitted), StopAt(lines, |fitted|))
  {
    if fitted != [] {
      var front := fitted[..|fitted| - 1];
      PiecesBefore(lines, fitted, front);
      FlatTidy(text, lines, front);
      FlatOneMore(text, lines, fitted, front);
    }
  }

  lemma {:induction false} FlatWithinMax(tok: Tokenizer, maxTokens: nat, lines: seq<Unit>, fitted: seq<seq<Unit>>)
    requires AllFit(tok, maxTokens, lines, fitted) && AllBounded(tok, maxTokens, lines)
    ensures WithinMax(tok, maxTokens, Flat(fitted))
  {
    if fitted != [] {
      var n := |fitted| - 1;
      FlatWithinMax(tok, maxTokens, lines, fitted[..n]);
      assert Fits(tok, maxTokens, lines[n], fitted[n]);
      ConcatWithinMax(tok, maxTokens, Flat(fitted[..n]), fitted[n]);
    }
  }

  /** What the line is replaced by: itself if it fits, otherwise what its tokens add, `maxTokens` at a time. */
  ghost predicate FitsAs(tok: Tokenizer, maxTokens: nat, line: Unit, fitted: seq<Unit>) {
    if tok.Count(line.text) <= maxTokens then fitted == [line]
    else
      && (|fitted| - 1) * maxTokens < tok.Count(line.text) <= |fitted| * maxTokens
      && forall k | 0 <= k < |fitted| :: fitted[k] == CutPiece(tok, line.text, line.start, k, maxTokens)
  }

  /** The units are those the lines are replaced by, line after line. */
  ghost predicate AreFitted(tok: Tokenizer, maxTokens: nat, lines: seq<Unit>, units: seq<Unit>, starts: seq<nat>) {
    && |starts| == |lines| + 1 && starts[0] == 0 && starts[|lines|] == |units|
    && (forall i | 0 <= i < |lines| :: LineFitted(tok, maxTokens, lines, units, starts, i))
  }

  /** Line `i` is replaced by the units from `starts[i]` up to `starts[i + 1]`. */
  ghost predicate LineFitted(tok: Tokenizer, maxTokens: nat, lines: seq<Unit>, units: seq<Unit>, starts: seq<nat>,
                             i: nat)
    requires i < |lines| && i + 1 < |starts|
  {
    starts[i] <= starts[i + 1] <= |units| && FitsAs(tok, maxTokens, lines[i], units[starts[i]..starts[i + 1]])
  }

  lemma OneLineMore(tok: Tokenizer, maxTokens: nat, lines: seq<Unit>, i: nat, units: seq<Unit>, starts: seq<nat>,
                    fitted: seq<Unit>)
    requires i < |lines| && AreFitted(tok, maxTokens, lines[..i], units, starts)
    requires FitsAs(tok, maxTokens, lines[i], fitted)
    ensures AreFitted(tok, maxTokens, lines[..i + 1], units + fitted, starts + [|units| + |fitted|])
  {
    var now, more, ends := lines[..i + 1], units + fitted, starts + [|units| + |fitted|];
    forall j | 0 <= j < |now| ensures LineFitted(tok, maxTokens, now, more, ends, j) {
      if j < i {
        assert LineFitted(tok, maxTokens, lines[..i], units, starts, j);
        assert more[ends[j]..ends[j + 1]] == units[starts[j]..starts[j + 1]];
      } else {
        assert more[ends[i]..ends[i + 1]] == fitted;
      }
    }
  }

  lemma FitsOneMore(tok: Tokenizer, maxTokens: nat, lines: seq<Unit>, all: seq<seq<Unit>>, fitted: seq<Unit>)
    requires AllFit(tok, maxTokens, lines, all) && |all| < |lines|
    requires Fits(tok, maxTokens, lines[|all|], fitted)
    ensures AllFit(tok, maxTokens, lines, all + [fitted])
  {
    forall k | 0 <= k <= |all| ensures Fits(tok, maxTokens, lines[k], (all + [fitted])[k]) {
      if k < |all| { assert (all + [fitted])[k] == all[k]; }
    }
  }

  lemma FlatSnoc(all: seq<seq<Unit>>, fitted: seq<Unit>)
    ensures Flat(all + [fitted]) == Flat(all) + fitted
  {
    assert (all + [fitted])[..|all|] == all;
  }

  /** Lines kept as they are, oversized ones replaced by their pieces. */
  method FitUnits(tok: Tokenizer, maxTokens: nat, ghost text: string, lines: seq<Unit>)
    returns (units: seq<Unit>, ghost starts: seq<nat>)
    requires maxTokens > 0 && AreLines(text, lines)
    ensures units == [] <==> lines == []
    ensures AllExact(tok, maxTokens, lines) ==> Tidy(text, units)
    ensures AllBounded(tok, maxTokens, lines) ==> WithinMax(tok, maxTokens, units)
    ensures AreFitted(tok, maxTokens, lines, units, starts)
  {
    units, starts := [], [0];
    ghost var all: seq<seq<Unit>> := [];
    for i := 0 to |lines|
      invariant (i == 0 <==> units == []) && |all| == i
      invariant AllFit(tok, maxTokens, lines, all) && units == Flat(all)
      invariant AreFitted(tok, maxTokens, lines[..i], units, starts)
    {
      LineFacts(text, lines, i);
      var fitted := FitLine(tok, maxTokens, lines[i]);
      OneLineMore(tok, maxTokens, lines, i, units, starts, fitted);
      starts := starts + [|units| + |fitted|];
      FitsOneMore(tok, maxTokens, lines, all, fitted);
      FlatSnoc(all, fitted);
      all := all + [fitted];
      units := units + fitted;
    }
    AllFitted(tok, maxTokens, text, lines, all);
    assert lines[..|lines|] == lines;
  }

  lemma AllTidy(tok: Tokenizer, maxTokens: nat, text: string, lines: seq<Unit>, fitted: seq<seq<Unit>>)
    requires AreLines(text, lines) && AllFit(tok, maxTokens, lines, fitted) && |fitted| == |lines|
    requires AllExact(tok, maxTokens, lines)
    ensures Tidy(text, Flat(fitted))
  {
    forall k | 0 <= k < |fitted| ensures Pieces(lines[k].text, lines[k].start, fitted[k]) {
      assert Fits(tok, maxTokens, lines[k], fitted[k]);
    }
    FlatTidy(text, lines, fitted);
    TidyToEnd(text, Flat(fitted), lines);
  }

  lemma AllFitted(tok: Tokenizer, maxTokens: nat, text: string, lines: seq<Unit>, fitted: seq<seq<Unit>>)
    requires AreLines(text, lines) && AllFit(tok, maxTokens, lines, fitted) && |fitted| == |lines|
    ensures AllExact(tok, maxTokens, lines) ==> Tidy(text, Flat(fitted))
    ensures AllBounded(tok, maxTokens, lines) ==> WithinMax(tok, maxTokens, Flat(fitted))
  {
    if AllExact(tok, maxTokens, lines) { AllTidy(tok, maxTokens, text, lines, fitted); }
    if AllBounded(tok, maxTokens, lines) { FlatWithinMax(tok, maxTokens, lines, fitted); }
  }

  lemma LineFacts(text: string, lines: seq<Unit>, i: nat)
    requires AreLines(text, lines) && i < |lines|
    ensures IsSlice(text, lines[i]) && IsLine(lines[i].text) && Gap(text, StopAt(lines, i), lines[i].start)
    ensures lines[i].end == lines[i].start + |lines[i].text| && StopAt(lines, i + 1) == lines[i].end
  {
    if i > 0 { assert GapBefore(text, lines, i); }
  }

  lemma TidyToEnd(text: string, units: seq<Unit>, lines: seq<Unit>)
    requires AreLines(text, lines) && TidyUpTo(text, units, Stop(lines))
    ensures Tidy(text, units)
  {
    assert Gap(text, Stop(units), |text|);
  }

  lemma SplitFits(tok: Tokenizer, maxTokens: nat, line: Unit, pieces: seq<Unit>)
    requires maxTokens < tok.Count(line.text) <= Cut(|pieces|, maxTokens)
    requires pieces != [] ==> Cut(|pieces| - 1, maxTokens) < tok.Count(line.text)
    requires forall k | 0 <= k < |pieces| :: pieces[k] == CutPiece(tok, line.text, line.start, k, maxTokens)
    ensures Fits(tok, maxTokens, line, pieces)
  {
    if CountsNoMore(tok, line.text) { PiecesWithinMax(tok, maxTokens, line, pieces); }
    PiecesTileIff(tok, line.text, line.start, maxTokens, pieces);
  }

  method FitLine(tok: Tokenizer, maxTokens: nat, line: Unit) returns (fitted: seq<Unit>)
    requires maxTokens > 0 && line.end == line.start + |line.text|
    ensures Fits(tok, maxTokens, line, fitted) && FitsAs(tok, maxTokens, line, fitted)
  {
    if tok.Count(line.text) > maxTokens {
      fitted := HardSplit(tok, line.text, line.start, maxTokens);
      SplitFits(tok, maxTokens, line, fitted);
    } else {
      fitted := [line];
      assert Pieces(line.text, line.start, [line]) && WithinMax(tok, maxTokens, [line]);
    }
  }

  // ---------------------------------------------------------------- chunk_text

  /** The greedy loop for one window. */
  method PackWindow(tok: Tokenizer, settings: Settings, units: seq<Unit>, i: nat)
    returns (window: seq<Unit>, tokens: nat, j: nat)
    requires i < |units|
    ensures var p := PackingOf(tok, settings, units);
      j == p.Extend(i, 0) && window == units[i..j] && tokens == p.Sum(i, j)
  {
    ghost var p := PackingOf(tok, settings, units);
    window, tokens, j := [], 0, i;
    while j < |units|
      invariant i <= j <= |units| && window == units[i..j] && tokens == p.Sum(i, j)
      invariant p.Extend(j, tokens) == p.Extend(i, 0)
    {
      var unitTokens := tok.Count(units[j].text);
      assert p.tokens[j] == unitTokens;
      if tokens > 0 && tokens + unitTokens > settings.maxTokens {
        break;
      }
      window := window + [units[j]];
      tokens := tokens + unitTokens;
      j := j + 1;
      if tokens >= settings.targetTokens {
        break;
      }
    }
  }

  /** The loop that walks the window backwards. */
  method StepBack(tok: Tokenizer, settings: Settings, ghost units: seq<Unit>, ghost i: nat, window: seq<Unit>,
                  tokens: nat, j: nat)
    returns (back: nat)
    requires i < j <= |units| && window == units[i..j] && tokens == PackingOf(tok, settings, units).Sum(i, j)
    ensures back == PackingOf(tok, settings, units).Overlap(Window(i, j))
  {
    ghost var p := PackingOf(tok, settings, units);
    var overlapBudget := tokens as real * settings.overlapRatio;
    assert overlapBudget == p.Budget(Window(i, j));
    back := 0;
    var overlapTokens := 0;
    var maxBack := |window| - 1;
    var r := |window|;
    while r > 0
      invariant back <= maxBack && r == |window| - back
      invariant p.BackUp(Window(i, j), overlapBudget, back, overlapTokens) == p.Overlap(Window(i, j))
    {
      r := r - 1;
      if back >= maxBack {
        break;
      }
      var uTokens := tok.Count(window[r].text);
      assert p.tokens[j - 1 - back] == uTokens;
      if (overlapTokens + uTokens) as real > overlapBudget && back > 0 {
        break;
      }
      overlapTokens := overlapTokens + uTokens;
      back := back + 1;
    }
  }

  /** The chunks made so far are those of the windows `done`; the windows from unit `i` on are still to come. */
  ghost predicate Packed(p: Packing, units: seq<Unit>, done: seq<Window>, i: nat, chunks: seq<ChunkSpan>)
    requires |p.tokens| == |units| && i < |units|
  {
    Within(units, done) && chunks == ChunkList(units, done) && done + p.WindowsFrom(i) == p.WindowsFrom(0)
  }

  lemma PackedOneMore(p: Packing, units: seq<Unit>, done: seq<Window>, i: nat, chunks: seq<ChunkSpan>,
                      chunk: ChunkSpan, j: nat, next: nat)
    requires |p.tokens| == |units| && i < |units| && Packed(p, units, done, i, chunks)
    requires j == p.Extend(i, 0) && chunk == ChunkOf(units, Window(i, j), |done|)
    requires j < |units| ==> next == j - p.Overlap(Window(i, j)) && next < |units|
    ensures if j == |units|
      then Within(units, p.WindowsFrom(0)) && chunks + [chunk] == ChunkList(units, p.WindowsFrom(0))
      else Packed(p, units, done + [Window(i, j)], next, chunks + [chunk])
  {
    var w, ws := Window(i, j), p.WindowsFrom(i);
    NextWindow(p, i);
    NextChunk(units, done, w);
    Shift(done, ws);
    if j == |units| { assert done + [w] == done + ws; }
  }

  /** The loop over windows. */
  method PackUnits(tok: Tokenizer, settings: Settings, units: seq<Unit>) returns (chunks: seq<ChunkSpan>)
    requires units != []
    ensures var ws := PackingOf(tok, settings, units).WindowsFrom(0);
      Within(units, ws) && chunks == ChunkList(units, ws)
  {
    ghost var p := PackingOf(tok, settings, units);
    ghost var done: seq<Window> := [];
    assert done + p.WindowsFrom(0) == p.WindowsFrom(0);
    chunks := [];
    var ordinal := 0;
    var i := 0;
    var n := |units|;
    while i < n
      invariant i < n && ordinal == |done| && Packed(p, units, done, i, chunks)
      decreases n - i
    {
      var chunk, j, next := PackChunk(tok, settings, units, i, ordinal);
      PackedOneMore(p, units, done, i, chunks, chunk, j, next);
      done := done + [Window(i, j)];
      chunks := chunks + [chunk];
      ordinal := ordinal + 1;
      if j >= n {
        break;
      }
      i := next;
    }
  }

  /** One turn of the loop: the chunk, where its window ends, and where the next one starts. */
  method PackChunk(tok: Tokenizer, settings: Settings, units: seq<Unit>, i: nat, ordinal: nat)
    returns (chunk: ChunkSpan, j: nat, next: nat)
    requires i < |units|
    ensures var p := PackingOf(tok, settings, units); var w := Window(i, p.Extend(i, 0));
      && w.start < w.end <= |units|
      && j == w.end && chunk == ChunkOf(units, w, ordinal)
      && next == if j == |units| then j else j - p.Overlap(w)
  {
    var window, tokens;
    window, tokens, j := PackWindow(tok, settings, units, i);
    chunk := ChunkSpan(Join(Texts(window), "\n"), ordinal, window[0].start, window[|window| - 1].end);
    next := j;
    if j < |units| {
      var back := StepBack(tok, settings, units, i, window, tokens, j);
      next := j - back;
    }
  }

  lemma Shift<T>(done: seq<T>, rest: seq<T>)
    requires rest != []
    ensures (done + [rest[0]]) + rest[1..] == done + rest
  {
  }

  lemma NextChunk(units: seq<Unit>, done: seq<Window>, w: Window)
    requires Within(units, done) && w.start < w.end <= |units|
    ensures Within(units, done + [w])
    ensures ChunkList(units, done + [w]) == ChunkList(units, done) + [ChunkOf(units, w, |done|)]
  {
    assert (done + [w])[..|done|] == done;
    ChunkListLast(units, done + [w]);
  }

  lemma ChunkListLast(units: seq<Unit>, ws: seq<Window>)
    requires Within(units, ws) && ws != []
    ensures ChunkList(units, ws) == ChunkList(units, ws[..|ws| - 1]) + [ChunkOf(units, ws[|ws| - 1], |ws| - 1)]
  {
  }

  lemma NextWindow(p: Packing, i: nat)
    requires i < |p.tokens|
    ensures var w := Window(i, p.Extend(i, 0)); var ws := p.WindowsFrom(i);
      && i < w.end && ws[0] == w
      && (if w.end == |p.tokens| then ws[1..] == [] else ws[1..] == p.WindowsFrom(w.end - p.Overlap(w)))
  {
    var w := Window(i, p.Extend(i, 0));
    if w.end < |p.tokens| {
      assert p.WindowsFrom(i) == [w] + p.WindowsFrom(w.end - p.Overlap(w));
    }
  }

  /** The packing with the units' token counts and the settings. */
  ghost predicate IsPackingOf(tok: Tokenizer, settings: Settings, units: seq<Unit>, p: Packing) {
    && |p.tokens| == |units| && (forall i | 0 <= i < |units| :: p.tokens[i] == tok.Count(units[i].text))
    && p.target == settings.targetTokens && p.max == settings.maxTokens && p.ratio == settings.overlapRatio
  }

  /** One chunk per window, from the first unit on to the last, in order. */
  ghost predicate AreChunks(units: seq<Unit>, p: Packing, ws: seq<Window>, chunks: seq<ChunkSpan>) {
    && |p.tokens| == |units| && p.Chained(ws) && |chunks| == |ws|
    && (if units == [] then ws == [] else ws != [] && ws[0].start == 0)
    && forall k | 0 <= k < |ws| :: IsChunkOf(units, ws[k], k, chunks[k])
  }

  ghost predicate IsChunkOf(units: seq<Unit>, w: Window, k: nat, c: ChunkSpan) {
    && w.start < w.end <= |units| && c.ordinal == k
    && c.start == units[w.start].start && c.end == units[w.end - 1].end
    && c.text == Join(Texts(units[w.start..w.end]), "\n")
  }

  lemma NoChunks(tok: Tokenizer, settings: Settings)
    ensures exists p: Packing, ws :: IsPackingOf(tok, settings, [], p) && AreChunks([], p, ws, [])
  {
    var p := PackingOf(tok, settings, []);
    assert IsPackingOf(tok, settings, [], p) && AreChunks([], p, [], []);
  }

  lemma PackedChunks(tok: Tokenizer, settings: Settings, units: seq<Unit>, chunks: seq<ChunkSpan>)
    requires units != []
    requires var ws := PackingOf(tok, settings, units).WindowsFrom(0);
      Within(units, ws) && chunks == ChunkList(units, ws)
    ensures exists p: Packing, ws :: IsPackingOf(tok, settings, units, p) && AreChunks(units, p, ws, chunks)
  {
    var p := PackingOf(tok, settings, units);
    var ws := p.WindowsFrom(0);
    p.WindowsChained(0);
    ChunkListAt(units, ws, 0);
    forall k | 0 <= k < |ws| ensures IsChunkOf(units, ws[k], k, chunks[k]) { ChunkListAt(units, ws, k); }
    assert IsPackingOf(tok, settings, units, p) && AreChunks(units, p, ws, chunks);
  }

  /**
   The chunks of a text, with the units they are made of: one chunk per window of
   the packing. If every line that has to be cut is cut exactly, the units tile the text.
   */
  method ChunkText(tok: Tokenizer, settings: Settings, text: string)
    returns (chunks: seq<ChunkSpan>, ghost lines: seq<Unit>, ghost units: seq<Unit>, ghost starts: seq<nat>)
    requires settings.maxTokens > 0
    ensures chunks == [] <==> Blank(text)
    ensures AreFitted(tok, settings.maxTokens, lines, units, starts)
    ensures exists p: Packing, ws :: IsPackingOf(tok, settings, units, p) && AreChunks(units, p, ws, chunks)
    ensures AreLines(text, lines) && (AllExact(tok, settings.maxTokens, lines) ==> Tidy(text, units))
    ensures var ws := AllWindows(PackingOf(tok, settings, units)); Within(units, ws) && chunks == ChunkList(units, ws)
    ensures AllBounded(tok, settings.maxTokens, lines) ==> ChunksWithinMax(tok, settings, units)
  {
    chunks, units, starts := [], [], [0];
    var rawUnits := SplitUnits(text);
    lines := rawUnits;
    BlankIffNoLines(text, lines);
    if rawUnits == [] {
      NoChunks(tok, settings);
      return;
    }
    var fitted;
    fitted, starts := FitUnits(tok, settings.maxTokens, text, rawUnits);
    units := fitted;
    chunks := PackUnits(tok, settings, fitted);
    PackedChunks(tok, settings, units, chunks);
    if WithinMax(tok, settings.maxTokens, units) {
      AllWithinMax(tok, settings, units);
    }
  }

  /** The unit tokens of every chunk add up to no more than the maximum. */
  ghost predicate ChunksWithinMax(tok: Tokenizer, settings: Settings, units: seq<Unit>) {
    var p := PackingOf(tok, settings, units);
    forall w | w in AllWindows(p) :: w.start < w.end <= |p.tokens| && p.Sum(w.start, w.end) <= settings.maxTokens
  }

  lemma AllWithinMax(tok: Tokenizer, settings: Settings, units: seq<Unit>)
    ensures ChunksWithinMax(tok, settings, units) <==> WithinMax(tok, settings.maxTokens, units)
  {
    var p := PackingOf(tok, settings, units);
    assert forall i | 0 <= i < |units| :: p.tokens[i] == tok.Count(units[i].text);
    if units != [] { p.WindowsWithinMaxIff(); }
  }

  lemma BlankIffNoLines(text: string, lines: seq<Unit>)
    requires AreLines(text, lines)
    ensures lines == [] <==> Blank(text)
    ensures lines == [] ==> Tidy(text, [])
  {
    if lines != [] {
      var u := lines[0];
      assert IsSlice(text, u) && IsLine(u.text) && text[u.start] == u.text[0];
    }
  }

  // ---------------------------------------------------------------- what a chunk says about the text

  lemma {:induction false} InOrder(text: string, units: seq<Unit>, i: nat, j: nat)
    requires Tiled(text, units) && i <= j < |units|
    ensures units[i].start <= units[j].start && units[i].end <= units[j].end
    ensures i < j ==> units[i].end <= units[j].start
    decreases j - i
  {
    if i < j {
      InOrder(text, units, i, j - 1);
      assert GapBefore(text, units, j) && IsSlice(text, units[j]) && IsSlice(text, units[j - 1]);
    }
  }

  lemma ChunkOne(units: seq<Unit>, i: nat)
    requires i < |units|
    ensures ChunkOf(units, Window(i, i + 1), 0).text == units[i].text
  {
    assert Texts(units[i..i + 1]) == [units[i].text];
  }

  /** A chunk, first unit apart. */
  lemma ChunkFirst(units: seq<Unit>, w: Window)
    requires w.start + 1 < w.end <= |units|
    ensures ChunkOf(units, w, 0).text == units[w.start].text + "\n" + ChunkOf(units, Window(w.start + 1, w.end), 0).text
  {
    assert Texts(units[w.start..w.end])[1..] == Texts(units[w.start + 1..w.end]);
  }

  lemma SolidJoined(before: string, last: string)
    ensures Solid(before + "\n" + last) == Solid(before) + Solid(last)
  {
    SpaceFacts();
    SolidBlank("\n");
    SolidConcat(before, "\n");
    SolidConcat(before + "\n", last);
  }

  /** The units from `i` to `end` joined, first unit first. */
  function Joined(units: seq<Unit>, end: nat, i: nat): string
    requires i < end <= |units|
    decreases end - i, 1
  {
    units[i].text + TailOf(units, end, i)
  }

  /** What is joined behind unit `i`. */
  function TailOf(units: seq<Unit>, end: nat, i: nat): string
    requires i < end <= |units|
    decreases end - i, 0
  {
    if i + 1 == end then "" else "\n" + Joined(units, end, i + 1)
  }

  lemma {:induction false} JoinedIs(units: seq<Unit>, end: nat, i: nat)
    requires i < end <= |units|
    ensures ChunkOf(units, Window(i, end), 0).text == Joined(units, end, i)
    decreases end - i
  {
    if i + 1 == end {
      ChunkOne(units, i);
    } else {
      ChunkFirst(units, Window(i, end));
      JoinedIs(units, end, i + 1);
      assert units[i].text + "\n" + Joined(units, end, i + 1) == units[i].text + ("\n" + Joined(units, end, i + 1));
    }
  }

  lemma {:induction false} JoinedIsSliceUpToSpaces(text: string, units: seq<Unit>, end: nat, i: nat)
    requires Tiled(text, units) && i < end <= |units|
    ensures units[i].start <= units[end - 1].end <= |text|
    ensures Solid(Joined(units, end, i)) == Solid(text[units[i].start..units[end - 1].end])
    decreases end - i
  {
    var u, stop := units[i], units[end - 1].end;
    InOrder(text, units, i, end - 1);
    assert IsSlice(text, u) && IsSlice(text, units[end - 1]);
    if i + 1 == end {
      assert Joined(units, end, i) == u.text;
    } else {
      var rest := Joined(units, end, i + 1);
      JoinedIsSliceUpToSpaces(text, units, end, i + 1);
      SolidJoined(u.text, rest);
      assert u.text + ("\n" + rest) == u.text + "\n" + rest;
      assert GapBefore(text, units, i + 1);
      SolidOfThree(text, u.start, u.end, units[i + 1].start, stop);
    }
  }

  /** Up to white space, a chunk's text is the text between its offsets. */
  lemma ChunkIsSliceUpToSpaces(text: string, units: seq<Unit>, w: Window)
    requires Tiled(text, units) && w.start < w.end <= |units|
    ensures var c := ChunkOf(units, w, 0);
      c.start <= c.end <= |text| && Solid(c.text) == Solid(text[c.start..c.end])
  {
    JoinedIsSliceUpToSpaces(text, units, w.end, w.start);
    JoinedIs(units, w.end, w.start);
    assert Window(w.start, w.end) == w;
  }

  lemma SolidOfThree(text: string, a: nat, b: nat, c: nat, d: nat)
    requires a <= b && Gap(text, b, c) && c <= d <= |text|
    ensures Solid(text[a..d]) == Solid(text[a..b]) + Solid(text[c..d])
  {
    Cut3(text, a, b, c, d);
    SolidConcat(text[a..b] + text[b..c], text[c..d]);
    SolidConcat(text[a..b], text[b..c]);
    SolidBlank(text[b..c]);
  }

  // ---------------------------------------------------------------- when a chunk's text is the slice

  /** The text of a chunk is, to the character, the text between its offsets. */
  predicate IsExact(text: string, c: ChunkSpan) {
    c.start <= c.end <= |text| && c.text == text[c.start..c.end]
  }

  function Newlines(n: nat): string {
    if n == 0 then "" else "\n" + Newlines(n - 1)
  }

  /** The text from `a` to `b` is `n` newlines. */
  predicate AreNewlines(text: string, a: nat, b: nat, n: nat) {
    b == a + n && b <= |text| && forall k | a <= k < b :: text[k] == '\n'
  }

  /**
   Before, between and behind the non-empty units from `i` to `end` the text is as
   many newlines as the chunk joins there: `pos` is where the last non-empty unit
   ended, `joins` how many units have been joined since.
   */
  predicate GapsAreJoins(text: string, units: seq<Unit>, end: nat, i: nat, pos: nat, joins: nat)
    requires i < end <= |units|
    decreases end - i
  {
    var u, last := units[i], i + 1 == end;
    if u.text != "" then
      AreNewlines(text, pos, u.start, joins) && (last || GapsAreJoins(text, units, end, i + 1, u.end, 1))
    else if last then AreNewlines(text, pos, u.end, joins)
    else GapsAreJoins(text, units, end, i + 1, pos, joins + 1)
  }

  lemma {:induction false} NewlinesAt(n: nat)
    ensures |Newlines(n)| == n && forall k | 0 <= k < n :: Newlines(n)[k] == '\n'
  {
    if n > 0 { NewlinesAt(n - 1); }
  }

  lemma NewlinesIff(text: string, a: nat, b: nat, n: nat)
    requires a <= b <= |text|
    ensures Newlines(n) == text[a..b] <==> AreNewlines(text, a, b, n)
  {
    NewlinesAt(n);
    if Newlines(n) == text[a..b] {
      assert forall k | a <= k < b :: text[k] == text[a..b][k - a];
    }
  }

  lemma {:induction false} NewlinesSnoc(n: nat, rest: string)
    ensures Newlines(n) + ("\n" + rest) == Newlines(n + 1) + rest
  {
    NewlinesAt(n);
    NewlinesAt(n + 1);
    var x, y := Newlines(n) + ("\n" + rest), Newlines(n + 1) + rest;
    assert |x| == |y| && forall k | 0 <= k < |x| :: x[k] == y[k];
  }

  /** In front of a unit, newlines and a gap agree only if the gap is those newlines. */
  lemma GapMatters(n: nat, gap: string, body: string, tail: string, slice: string)
    requires Blank(gap) && body != "" && body[0] != '\n' && (gap != "" ==> !IsSpace(body[0]))
    ensures Newlines(n) + (body + tail) == gap + (body + slice) <==> Newlines(n) == gap && tail == slice
  {
    NewlinesAt(n);
    var x, y := Newlines(n) + (body + tail), gap + (body + slice);
    assert |gap| < n ==> x[|gap|] == '\n' && y[|gap|] == body[0];
    assert |gap| > n ==> x[n] == body[0] && y[n] == gap[n] && IsSpace(gap[n]);
    if x == y {
      assert |gap| == n;
      assert x[..n] == Newlines(n) && y[..n] == gap;
      assert x[n..] == body + tail && y[n..] == body + slice;
      assert (body + tail)[|body|..] == tail && (body + slice)[|body|..] == slice;
    }
  }

  /** The text from `pos` to unit `i` is blank, and the unit's place is solid unless it is `pos` itself. */
  ghost predicate Approaches(text: string, units: seq<Unit>, i: nat, pos: nat)
    requires i < |units|
  {
    Gap(text, pos, units[i].start) && (pos < units[i].start ==> SolidAt(text, units[i].start))
  }

  lemma NextApproached(text: string, units: seq<Unit>, i: nat, pos: nat)
    requires Tidy(text, units) && i + 1 < |units| && Approaches(text, units, i, pos)
    ensures Approaches(text, units, i + 1, units[i].end)
    ensures units[i].text == "" ==> Approaches(text, units, i + 1, pos)
  {
    assert GapBefore(text, units, i + 1) && SolidBehindGap(text, units, i + 1);
    assert IsSlice(text, units[i]);
  }

  /** What is left to match from unit `i` on is the text from `pos` to `stop`. */
  predicate Matches(text: string, units: seq<Unit>, end: nat, i: nat, pos: nat, joins: nat)
    requires i < end <= |units|
  {
    pos <= units[end - 1].end <= |text| && Newlines(joins) + Joined(units, end, i) == text[pos..units[end - 1].end]
  }

  lemma CutBehind(text: string, a: nat, b: nat, c: nat, d: nat)
    requires a <= b <= c <= d <= |text|
    ensures text[a..d] == text[a..b] + (text[b..c] + text[c..d])
  {
  }

  lemma UnitPlace(text: string, units: seq<Unit>, end: nat, i: nat)
    requires Tidy(text, units) && i < end <= |units|
    ensures units[i].start <= units[i].end <= units[end - 1].end <= |text|
    ensures text[units[i].start..units[i].end] == units[i].text && '\n' !in units[i].text
    ensures units[i].text != "" ==> units[i].text[0] == text[units[i].start] && units[i].text[0] != '\n'
  {
    InOrder(text, units, i, end - 1);
    assert IsSlice(text, units[i]) && IsSlice(text, units[end - 1]);
    assert units[i].text != "" ==> units[i].text[0] in units[i].text;
  }

  /** A non-empty unit matches when the gap before it is as many newlines, and what follows it matches. */
  lemma UnitMatters(text: string, units: seq<Unit>, end: nat, i: nat, pos: nat, joins: nat)
    requires Tidy(text, units) && i < end <= |units| && Approaches(text, units, i, pos) && units[i].text != ""
    ensures units[i].end <= units[end - 1].end <= |text|
    ensures Matches(text, units, end, i, pos, joins) <==>
            && AreNewlines(text, pos, units[i].start, joins)
            && TailOf(units, end, i) == text[units[i].end..units[end - 1].end]
  {
    var u, stop := units[i], units[end - 1].end;
    UnitPlace(text, units, end, i);
    CutBehind(text, pos, u.start, u.end, stop);
    GapMatters(joins, text[pos..u.start], u.text, TailOf(units, end, i), text[u.end..stop]);
    NewlinesIff(text, pos, u.start, joins);
  }

  /** An empty unit only adds a newline to match, or ends the chunk. */
  lemma EmptyMatters(text: string, units: seq<Unit>, end: nat, i: nat, pos: nat, joins: nat)
    requires Tidy(text, units) && i < end <= |units| && Approaches(text, units, i, pos) && units[i].text == ""
    ensures Matches(text, units, end, i, pos, joins) <==>
            if i + 1 == end then AreNewlines(text, pos, units[i].end, joins)
            else Matches(text, units, end, i + 1, pos, joins + 1)
  {
    UnitPlace(text, units, end, i);
    assert Joined(units, end, i) == TailOf(units, end, i);
    if i + 1 == end {
      NewlinesIff(text, pos, units[i].end, joins);
      assert Newlines(joins) + "" == Newlines(joins);
    } else {
      NewlinesSnoc(joins, Joined(units, end, i + 1));
    }
  }

  lemma TailMatches(text: string, units: seq<Unit>, end: nat, i: nat)
    requires Tidy(text, units) && i + 1 < end <= |units| && units[i].end <= units[end - 1].end <= |text|
    ensures TailOf(units, end, i) == text[units[i].end..units[end - 1].end] <==>
            Matches(text, units, end, i + 1, units[i].end, 1)
  {
    assert Newlines(1) == "\n" + Newlines(0) == "\n";
  }

  lemma {:induction false} RestIsSliceIff(text: string, units: seq<Unit>, end: nat, i: nat, pos: nat, joins: nat)
    requires Tidy(text, units) && i < end <= |units| && Approaches(text, units, i, pos)
    ensures Matches(text, units, end, i, pos, joins) <==> GapsAreJoins(text, units, end, i, pos, joins)
    decreases end - i
  {
    if i + 1 < end { NextApproached(text, units, i, pos); }
    if units[i].text != "" {
      UnitMatters(text, units, end, i, pos, joins);
      if i + 1 < end {
        TailMatches(text, units, end, i);
        RestIsSliceIff(text, units, end, i + 1, units[i].end, 1);
      }
    } else {
      EmptyMatters(text, units, end, i, pos, joins);
      if i + 1 < end { RestIsSliceIff(text, units, end, i + 1, pos, joins + 1); }
    }
  }

  /**
   A chunk's text is exactly the text between its offsets if and only if, around its
   non-empty units, the text has as many newlines as the chunk joins, and nothing else.
   */
  lemma ChunkIsSliceIff(text: string, units: seq<Unit>, w: Window)
    requires Tidy(text, units) && w.start < w.end <= |units|
    ensures ChunkOf(units, w, 0).start <= ChunkOf(units, w, 0).end <= |text|
    ensures IsExact(text, ChunkOf(units, w, 0)) <==>
            GapsAreJoins(text, units, w.end, w.start, units[w.start].start, 0)
  {
    ExactIffJoined(text, units, w.end, w.start);
    MatchesFromStart(text, units, w.end, w.start);
    RestIsSliceIff(text, units, w.end, w.start, units[w.start].start, 0);
    assert Window(w.start, w.end) == w;
  }

  lemma ExactIffJoined(text: string, units: seq<Unit>, end: nat, i: nat)
    requires Tidy(text, units) && i < end <= |units|
    ensures var c := ChunkOf(units, Window(i, end), 0);
      && c.start == units[i].start <= c.end == units[end - 1].end <= |text|
      && (IsExact(text, c) <==> Joined(units, end, i) == text[units[i].start..units[end - 1].end])
  {
    UnitPlace(text, units, end, i);
    JoinedIs(units, end, i);
  }

  lemma MatchesFromStart(text: string, units: seq<Unit>, end: nat, i: nat)
    requires Tidy(text, units) && i < end <= |units|
    ensures units[i].start <= units[end - 1].end <= |text|
    ensures Matches(text, units, end, i, units[i].start, 0) <==>
            Joined(units, end, i) == text[units[i].start..units[end - 1].end]
  {
    UnitPlace(text, units, end, i);
    assert Newlines(0) + Joined(units, end, i) == Joined(units, end, i);
  }

  /** Every gap inside the window is one newline. */
  ghost predicate SingleNewlines(text: string, units: seq<Unit>, w: Window) {
    forall k | w.start < k < w.end && k < |units| :: AreNewlines(text, units[k - 1].end, units[k].start, 1)
  }

  lemma {:induction false} NonEmptyGaps(text: string, units: seq<Unit>, end: nat, i: nat, pos: nat, joins: nat)
    requires i < end <= |units| && forall k | i <= k < end :: units[k].text != ""
    ensures GapsAreJoins(text, units, end, i, pos, joins) <==>
            AreNewlines(text, pos, units[i].start, joins) && SingleNewlines(text, units, Window(i, end))
    decreases end - i
  {
    if i + 1 < end {
      NonEmptyGaps(text, units, end, i + 1, units[i].end, 1);
      assert SingleNewlines(text, units, Window(i, end)) ==>
        AreNewlines(text, units[i].end, units[i + 1].start, 1) && SingleNewlines(text, units, Window(i + 1, end));
    }
  }

  /** Without empty pieces that is: if and only if the units of its window stand one newline apart. */
  lemma LinesAreSliceIff(text: string, units: seq<Unit>, w: Window)
    requires Tidy(text, units) && w.start < w.end <= |units|
    requires forall k | w.start <= k < w.end :: units[k].text != ""
    ensures IsExact(text, ChunkOf(units, w, 0)) <==> SingleNewlines(text, units, w)
  {
    ChunkIsSliceIff(text, units, w);
    NonEmptyGaps(text, units, w.end, w.start, units[w.start].start, 0);
    assert Window(w.start, w.end) == w;
  }

  const BLANK_LINE_TEXT := "a\n\nb"
  const BLANK_LINE_UNITS := [Unit("a", 0, 1), Unit("b", 3, 4)]

  lemma BlankLineSlices()
    ensures forall i | 0 <= i < 2 :: IsSlice(BLANK_LINE_TEXT, BLANK_LINE_UNITS[i]) && IsLine(BLANK_LINE_UNITS[i].text)
    ensures Gap(BLANK_LINE_TEXT, 1, 3) && Break(BLANK_LINE_TEXT, 1, 3) && SolidAt(BLANK_LINE_TEXT, 3)
  {
    SpaceFacts();
    assert BLANK_LINE_TEXT[0..1] == "a" && BLANK_LINE_TEXT[3..4] == "b";
    assert BLANK_LINE_TEXT[1] == '\n' && BLANK_LINE_TEXT[2] == '\n' && BLANK_LINE_TEXT[3] == 'b';
  }

  lemma BlankLineTidy()
    ensures AreLines(BLANK_LINE_TEXT, BLANK_LINE_UNITS) && Tidy(BLANK_LINE_TEXT, BLANK_LINE_UNITS)
  {
    BlankLineSlices();
    var units := BLANK_LINE_UNITS;
    assert |units| == 2 && units[0].end == 1 && units[1].start == 3 && units[0].text == "a" && units[1].text == "b";
  }

  /** A blank line between two lines that fit is enough for the one chunk of the text not to be the slice. */
  lemma SomeChunkInexact(tok: Tokenizer, settings: Settings)
    requires tok.Count("a") < settings.targetTokens && tok.Count("a") + tok.Count("b") <= settings.maxTokens
    ensures AreLines(BLANK_LINE_TEXT, BLANK_LINE_UNITS) && Tidy(BLANK_LINE_TEXT, BLANK_LINE_UNITS)
    ensures AllWindows(PackingOf(tok, settings, BLANK_LINE_UNITS)) == [Window(0, 2)]
    ensures !IsExact(BLANK_LINE_TEXT, ChunkOf(BLANK_LINE_UNITS, Window(0, 2), 0))
  {
    BlankLineTidy();
    LinesAreSliceIff(BLANK_LINE_TEXT, BLANK_LINE_UNITS, Window(0, 2));
    assert !AreNewlines(BLANK_LINE_TEXT, BLANK_LINE_UNITS[0].end, BLANK_LINE_UNITS[1].start, 1);
    var p := PackingOf(tok, settings, BLANK_LINE_UNITS);
    assert p.tokens == [tok.Count("a"), tok.Count("b")];
    assert p.Extend(1, p.tokens[0]) == 2;
  }

  lemma Cut3(text: string, a: nat, b: nat, c: nat, d: nat)
    requires a <= b <= c <= d <= |text|
    ensures text[a..d] == text[a..b] + text[b..c] + text[c..d]
  {
  }

  lemma TilesBefore(text: string, units: seq<Unit>, pos: nat, fewer: seq<Unit>)
    requires TiledUpTo(text, units, pos) && units != [] && fewer == units[..|units| - 1]
    ensures TiledUpTo(text, fewer, units[|units| - 1].start)
  {
    if fewer != [] { assert GapBefore(text, units, |fewer|); }
    forall i | 0 < i < |fewer| ensures GapBefore(text, fewer, i) {
      assert GapBefore(text, units, i);
    }
  }

  lemma {:induction false} UnitWith(text: string, units: seq<Unit>, pos: nat, p: nat) returns (u: nat)
    requires TiledUpTo(text, units, pos) && p < pos && !IsSpace(text[p])
    ensures u < |units| && units[u].start <= p < units[u].end
    decreases |units|
  {
    assert units != [] && p < Stop(units);
    u := |units| - 1;
    if p < units[u].start {
      var fewer := units[..|units| - 1];
      TilesBefore(text, units, pos, fewer);
      u := UnitWith(text, fewer, units[u].start, p);
    }
  }

  lemma UnitInChunk(text: string, units: seq<Unit>, w: Window, u: nat, k: nat)
    requires Tiled(text, units) && w.start <= u < w.end <= |units|
    ensures var c := ChunkOf(units, w, k); c.start <= units[u].start && units[u].end <= c.end
  {
    InOrder(text, units, w.start, u);
    InOrder(text, units, u, w.end - 1);
  }

  /** Every non-space character of the text lies between the offsets of some chunk. */
  lemma EveryCharacterInSomeChunk(tok: Tokenizer, settings: Settings, text: string, units: seq<Unit>, p: nat)
    returns (k: nat)
    requires Tiled(text, units) && p < |text| && !IsSpace(text[p])
    ensures var ws := AllWindows(PackingOf(tok, settings, units));
      k < |ws| && ws[k].start < ws[k].end <= |units|
      && var c := ChunkOf(units, ws[k], k); c.start <= p < c.end
  {
    var u := UnitWith(text, units, |text|, p);
    var packing := PackingOf(tok, settings, units);
    k := packing.Located(0, u);
    var w := packing.WindowsFrom(0)[k];
    UnitInChunk(text, units, w, u, k);
  }
}
