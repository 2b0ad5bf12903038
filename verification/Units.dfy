/** The units of the structural chunker: stripped lines, and token-sized pieces of long ones. */
module Units {
  import opened Prelude
  import opened Text

  /** A piece of the text with its offsets. */
  datatype Unit = Unit(text: string, start: nat, end: nat)

  /** The tokenizer is a library; only its two functions are known. */
  datatype Tokenizer = Tokenizer(encode: string -> seq<int>, decode: seq<int> -> string) {
    function Count(s: string): nat {
      |encode(s)|
    }

    /** What the splitter's comment claims: token prefixes of `s` decode to longer and longer prefixes of `s`. */
    ghost predicate ExactPrefixes(s: string) {
      && decode([]) == ""
      && decode(encode(s)) == s
      && forall i, j | 0 <= i <= j <= |encode(s)| :: decode(encode(s)[..i]) <= decode(encode(s)[..j])
    }
  }

  // ---------------------------------------------------------------- lines

  /** Where the run of newlines at `i` ends. */
  function NewlinesEnd(s: string, i: nat): (n: nat)
    requires i <= |s|
    ensures i <= n <= |s| && (forall k | i <= k < n :: s[k] == '\n') && (n < |s| ==> s[n] != '\n')
    decreases |s| - i
  {
    if i < |s| && s[i] == '\n' then NewlinesEnd(s, i + 1) else i
  }

  /** Where the line at `i` ends. */
  function LineEnd(s: string, i: nat): (n: nat)
    requires i <= |s|
    ensures i <= n <= |s| && (forall k | i <= k < n :: s[k] != '\n') && (n < |s| ==> s[n] == '\n')
    decreases |s| - i
  {
    if i < |s| && s[i] != '\n' then LineEnd(s, i + 1) else i
  }

  /** `re.split(r"\n+", s)`, from a position where a line starts. */
  function LinesFrom(s: string, i: nat): (r: seq<string>)
    requires i <= |s|
    ensures r != []
    decreases |s| - i
  {
    var n := LineEnd(s, i);
    if n == |s| then [s[i..]] else [s[i..n]] + LinesFrom(s, NewlinesEnd(s, n))
  }

  // ---------------------------------------------------------------- units

  ghost predicate IsSlice(text: string, u: Unit) {
    u.start <= u.end <= |text| && text[u.start..u.end] == u.text
  }

  /** Nothing but spaces from `a` to `b`. */
  predicate Gap(text: string, a: nat, b: nat) {
    a <= b <= |text| && forall k | a <= k < b :: IsSpace(text[k])
  }

  predicate Break(text: string, a: nat, b: nat) {
    exists k | a <= k < b && k < |text| :: text[k] == '\n'
  }

  /** Nothing but spaces between unit `i` and the one before it. */
  predicate GapBefore(text: string, units: seq<Unit>, i: nat)
    requires 0 < i < |units|
  {
    Gap(text, units[i - 1].end, units[i].start)
  }

  predicate BreakBefore(text: string, units: seq<Unit>, i: nat)
    requires 0 < i < |units|
  {
    Break(text, units[i - 1].end, units[i].start)
  }

  /** Unit `i` starts where the one before it ends. */
  predicate Adjacent(units: seq<Unit>, i: nat)
    requires 0 < i < |units|
  {
    units[i - 1].end == units[i].start
  }

  /** Where the text after the units starts. */
  function Stop(units: seq<Unit>): nat {
    if units == [] then 0 else units[|units| - 1].end
  }

  /** The units are slices in order, with nothing but spaces before, between and after them up to `pos`. */
  ghost predicate TiledUpTo(text: string, units: seq<Unit>, pos: nat) {
    && (forall i | 0 <= i < |units| :: IsSlice(text, units[i]))
    && (forall i | 0 < i < |units| :: GapBefore(text, units, i))
    && (units != [] ==> Gap(text, 0, units[0].start))
    && Gap(text, Stop(units), pos)
  }

  ghost predicate Tiled(text: string, units: seq<Unit>) {
    TiledUpTo(text, units, |text|)
  }

  /** A stripped, non-blank line. */
  predicate IsLine(s: string) {
    s != "" && !IsSpace(s[0]) && !IsSpace(s[|s| - 1]) && '\n' !in s
  }

  /** Exactly the stripped non-blank lines: tiled, each a line, and a newline between any two. */
  ghost predicate AreLinesUpTo(text: string, units: seq<Unit>, pos: nat) {
    && TiledUpTo(text, units, pos)
    && (forall i | 0 <= i < |units| :: IsLine(units[i].text))
    && (forall i | 0 < i < |units| :: BreakBefore(text, units, i))
  }

  ghost predicate AreLines(text: string, units: seq<Unit>) {
    AreLinesUpTo(text, units, |text|)
  }

  /** The first occurrence of a line after some newlines is right behind them. */
  lemma LineFoundBehindNewlines(text: string, line: string, pos: nat, next: nat)
    requires pos <= next && At(text, line, next) && line != "" && line[0] != '\n'
    requires forall i | pos <= i < next :: text[i] == '\n'
    ensures IndexFrom(text, line, pos) == Some(next)
  {
    forall i | pos <= i < next ensures !At(text, line, i) {
      assert text[i] == '\n';
      if i + |line| <= |text| { assert text[i..i + |line|][0] == text[i]; }
    }
  }

  /** A stripped line is first found where its leading spaces end. */
  lemma StrippedFoundBehindSpaces(line: string)
    requires Strip(line) != ""
    ensures IndexFrom(line, Strip(line), 0) == Some(Lead(line))
  {
    var s := Strip(line);
    StripIs(line);
    forall i | 0 <= i < Lead(line) ensures !At(line, s, i) {
      if i + |s| <= |line| { assert line[i..i + |s|][0] == line[i]; }
    }
    assert At(line, s, Lead(line));
  }

  lemma CharAt(text: string, line: string, next: nat, k: nat)
    requires At(text, line, next) && k < |line|
    ensures text[next + k] == line[k]
  {
    assert text[next..next + |line|][k] == line[k];
  }

  lemma GapAt(text: string, line: string, next: nat, a: nat, b: nat)
    requires At(text, line, next) && a <= b <= |line| && forall k | a <= k < b :: IsSpace(line[k])
    ensures Gap(text, next + a, next + b)
  {
    forall k | next + a <= k < next + b ensures IsSpace(text[k]) {
      CharAt(text, line, next, k - next);
    }
  }

  lemma SliceAt(text: string, line: string, next: nat, a: nat, b: nat)
    requires At(text, line, next) && a <= b <= |line|
    ensures text[next + a..next + b] == line[a..b]
  {
    forall i | 0 <= i < b - a ensures text[next + a..next + b][i] == line[a..b][i] {
      CharAt(text, line, next, a + i);
    }
  }

  lemma StrippedIsLine(line: string)
    requires '\n' !in line && Strip(line) != ""
    ensures IsLine(Strip(line))
  {
    StripIs(line);
    assert forall i | 0 <= i < |Strip(line)| :: Strip(line)[i] == line[Lead(line) + i];
  }

  /** A line's stripped form as a slice of the text, with gaps around it. */
  lemma StrippedSlices(text: string, line: string, next: nat)
    requires At(text, line, next) && Strip(line) != ""
    ensures IsSlice(text, Unit(Strip(line), next + Lead(line), next + Trimmed(line)))
    ensures Gap(text, next, next + Lead(line)) && Gap(text, next + Trimmed(line), next + |line|)
  {
    StripIs(line);
    SliceAt(text, line, next, Lead(line), Trimmed(line));
    GapAt(text, line, next, 0, Lead(line));
    GapAt(text, line, next, Trimmed(line), |line|);
  }

  /** Where a line that starts at `next` ends, and where the one after it starts. */
  lemma LineAt(text: string, next: nat)
    requires next <= |text|
    ensures var rest, stop := LinesFrom(text, next), LineEnd(text, next); var after := NewlinesEnd(text, stop);
      && At(text, rest[0], next) && '\n' !in rest[0] && next + |rest[0]| == stop
      && (if |rest| == 1 then stop == after == |text| else stop < after && rest[1..] == LinesFrom(text, after))
  {
    var stop := LineEnd(text, next);
    assert text[next..stop] == LinesFrom(text, next)[0];
  }

  lemma NewlinesGap(text: string, a: nat, b: nat)
    requires a <= b <= |text| && forall k | a <= k < b :: text[k] == '\n'
    ensures Gap(text, a, b) && (a < b ==> Break(text, a, b))
  {
    SpaceFacts();
    if a < b { assert text[a] == '\n'; }
  }

  /**
   The units of the text. `pos` follows the code; the ghost `next` is where the
   current line really starts, behind the newlines that the search skips.
   */
  method SplitUnits(text: string) returns (units: seq<Unit>)
    ensures AreLines(text, units)
  {
    units := [];
    var pos: nat := 0;
    ghost var next: nat := 0;
    var lines := LinesFrom(text, 0);
    for i := 0 to |lines|
      invariant pos <= next <= |text| && forall k | pos <= k < next :: text[k] == '\n'
      invariant if i < |lines| then lines[i..] == LinesFrom(text, next) else next == |text|
      invariant AreLinesUpTo(text, units, pos)
      invariant units != [] && i < |lines| ==> pos < next
    {
      LineAt(text, next);
      assert lines[i..][1..] == lines[i + 1..];
      units, pos := TakeLine(text, lines[i], units, pos, next);
      next := NewlinesEnd(text, LineEnd(text, next));
    }
    NewlinesGap(text, pos, next);
  }

  /** One turn of the loop: the line is searched for from `pos0` on and found at `next`. */
  method TakeLine(text: string, line: string, units0: seq<Unit>, pos0: nat, ghost next: nat)
    returns (units: seq<Unit>, pos: nat)
    requires AreLinesUpTo(text, units0, pos0) && At(text, line, next) && '\n' !in line
    requires pos0 <= next && forall k | pos0 <= k < next :: text[k] == '\n'
    requires line != "" && units0 != [] ==> pos0 < next
    ensures AreLinesUpTo(text, units, pos)
    ensures if line == "" then pos == pos0 && units == units0 else pos == next + |line|
  {
    if line == "" { return units0, pos0; }
    LineFoundBehindNewlines(text, line, pos0, next);
    var start := IndexFrom(text, line, pos0).value;
    var unit := StrippedUnit(line, start);
    AppendLine(text, units0, pos0, next, line);
    return units0 + unit, start + |line|;
  }

  /** The unit of a line that starts at `start`, none if the line is blank. */
  method StrippedUnit(line: string, start: nat) returns (unit: seq<Unit>)
    ensures unit == UnitOf(line, start)
  {
    var stripped := Strip(line);
    if stripped == "" {
      return [];
    }
    StrippedFoundBehindSpaces(line);
    StripIs(line);
    var localStart := start + IndexFrom(line, stripped, 0).value;
    var localEnd := localStart + |stripped|;
    return [Unit(stripped, localStart, localEnd)];
  }

  function UnitOf(line: string, start: nat): seq<Unit> {
    if Strip(line) == "" then [] else [Unit(Strip(line), start + Lead(line), start + Trimmed(line))]
  }

  lemma AddBreak(text: string, units: seq<Unit>, u: Unit)
    requires forall i | 0 < i < |units| :: BreakBefore(text, units, i)
    requires units != [] ==> Break(text, Stop(units), u.start)
    ensures forall i | 0 < i < |units + [u]| :: BreakBefore(text, units + [u], i)
  {
    forall i | 0 < i < |units + [u]| ensures BreakBefore(text, units + [u], i) {
      if i < |units| { assert BreakBefore(text, units, i); }
    }
  }

  /** A further unit behind a gap with a newline in it. */
  lemma AddUnit(text: string, units: seq<Unit>, pos: nat, u: Unit, after: nat)
    requires AreLinesUpTo(text, units, pos) && IsSlice(text, u) && IsLine(u.text)
    requires Gap(text, pos, u.start) && Gap(text, u.end, after)
    requires units != [] ==> Break(text, pos, u.start)
    ensures AreLinesUpTo(text, units + [u], after)
  {
    AddTile(text, units, pos, u, after);
    if units != [] {
      var k :| pos <= k < u.start && k < |text| && text[k] == '\n';
      assert Break(text, Stop(units), u.start);
    }
    AddBreak(text, units, u);
  }

  lemma AddTile(text: string, units: seq<Unit>, pos: nat, u: Unit, after: nat)
    requires TiledUpTo(text, units, pos) && IsSlice(text, u)
    requires Gap(text, pos, u.start) && Gap(text, u.end, after)
    ensures TiledUpTo(text, units + [u], after)
  {
    assert Gap(text, Stop(units), u.start);
    forall i | 0 < i < |units + [u]| ensures GapBefore(text, units + [u], i) {
      if i < |units| { assert GapBefore(text, units, i); }
    }
  }

  lemma AppendLine(text: string, units: seq<Unit>, pos: nat, next: nat, line: string)
    requires AreLinesUpTo(text, units, pos) && At(text, line, next) && '\n' !in line
    requires pos <= next && forall k | pos <= k < next :: text[k] == '\n'
    requires units != [] ==> pos < next
    ensures AreLinesUpTo(text, units + UnitOf(line, next), next + |line|)
  {
    NewlinesGap(text, pos, next);
    if Strip(line) == "" {
      GapAt(text, line, next, 0, |line|);
      assert Gap(text, Stop(units), next + |line|);
      assert units + [] == units;
    } else {
      StrippedSlices(text, line, next);
      StrippedIsLine(line);
      var u := Unit(Strip(line), next + Lead(line), next + Trimmed(line));
      if units != [] { assert text[pos] == '\n'; }
      AddUnit(text, units, pos, u, next + |line|);
    }
  }

  // ---------------------------------------------------------------- oversized units

  /** The piece is the slice of `unit` between its offsets, which count from `offset` on. */
  predicate InPlace(unit: string, offset: nat, piece: Unit) {
    && offset <= piece.start <= piece.end <= offset + |unit|
    && piece.text == unit[piece.start - offset..piece.end - offset]
  }

  /** Adjacent slices that make up `unit`, placed from `offset` on. */
  ghost predicate Pieces(unit: string, offset: nat, pieces: seq<Unit>) {
    && (forall i | 0 <= i < |pieces| :: InPlace(unit, offset, pieces[i]))
    && (forall i | 0 < i < |pieces| :: Adjacent(pieces, i))
    && (if pieces == [] then unit == ""
        else pieces[0].start == offset && pieces[|pieces| - 1].end == offset + |unit|)
  }

  /** `s[n..]`, empty when `n` is past the end. */
  function From(s: string, n: nat): string {
    if n <= |s| then s[n..] else ""
  }

  function Min(a: int, b: int): int {
    if a <= b then a else b
  }

  /** The position of the `k`-th cut: `k * maxTokens`. */
  function Cut(k: nat, maxTokens: nat): nat {
    if k == 0 then 0 else Cut(k - 1, maxTokens) + maxTokens
  }

  lemma {:induction false} CutIs(k: nat, maxTokens: nat)
    ensures Cut(k, maxTokens) == k * maxTokens
  {
    if k > 0 {
      CutIs(k - 1, maxTokens);
      assert k * maxTokens == (k - 1) * maxTokens + maxTokens;
    }
  }

  /** The number of characters the first `a` tokens stand for. */
  function PrefixLength(tok: Tokenizer, unit: string, a: nat): nat {
    if a == 0 || a > tok.Count(unit) then 0 else |tok.decode(tok.encode(unit)[..a])|
  }

  /** The piece tokens `a` up to `b` add. */
  function PieceAt(tok: Tokenizer, unit: string, offset: nat, a: nat, b: nat): Unit
    requires b <= tok.Count(unit)
  {
    Unit(From(tok.decode(tok.encode(unit)[..b]), PrefixLength(tok, unit, a)),
         offset + PrefixLength(tok, unit, a), offset + PrefixLength(tok, unit, b))
  }

  function CutOf(tok: Tokenizer, unit: string, k: nat, maxTokens: nat): nat {
    Min(Cut(k, maxTokens), tok.Count(unit))
  }

  /** What the tokens from cut `k` to the next one add. */
  function CutPiece(tok: Tokenizer, unit: string, offset: nat, k: nat, maxTokens: nat): Unit {
    PieceAt(tok, unit, offset, CutOf(tok, unit, k, maxTokens), CutOf(tok, unit, k + 1, maxTokens))
  }

  /**
   Piece `k` runs from where the text of the first `k * maxTokens` tokens ends to where that of
   `maxTokens` more ends, or of all tokens if there are fewer, and holds what the longer text adds.
   */
  lemma CutPieceIs(tok: Tokenizer, unit: string, offset: nat, k: nat, maxTokens: nat)
    requires maxTokens > 0 && k * maxTokens < tok.Count(unit)
    ensures var tokens, from := tok.encode(unit), k * maxTokens;
      var before := if from == 0 then "" else tok.decode(tokens[..from]);
      var upTo := tok.decode(if from + maxTokens <= |tokens| then tokens[..from + maxTokens] else tokens);
      CutPiece(tok, unit, offset, k, maxTokens) ==
      Unit(if |before| <= |upTo| then upTo[|before|..] else "", offset + |before|, offset + |upTo|)
  {
    CutIs(k, maxTokens);
    assert tok.encode(unit)[..tok.Count(unit)] == tok.encode(unit);
  }

  /** Splits a unit every `maxTokens` tokens: piece `k` is what tokens `k * maxTokens` on add. */
  method HardSplit(tok: Tokenizer, unit: string, offset: nat, maxTokens: nat) returns (pieces: seq<Unit>)
    requires maxTokens > 0
    ensures pieces != [] ==> Cut(|pieces| - 1, maxTokens) < tok.Count(unit)
    ensures tok.Count(unit) <= Cut(|pieces|, maxTokens)
    ensures forall k | 0 <= k < |pieces| ::
              pieces[k] == CutPiece(tok, unit, offset, k, maxTokens)
    ensures (pieces != [] ==> (|pieces| - 1) * maxTokens < tok.Count(unit)) && tok.Count(unit) <= |pieces| * maxTokens
  {
    var tokens := tok.encode(unit);
    pieces := [];
    var prevLength: nat := 0;
    var i := 0;
    while i < |tokens|
      invariant i == Cut(|pieces|, maxTokens) && (pieces != [] ==> Cut(|pieces| - 1, maxTokens) < |tokens|)
      invariant prevLength == PrefixLength(tok, unit, Min(i, |tokens|))
      invariant forall k | 0 <= k < |pieces| ::
                  pieces[k] == CutPiece(tok, unit, offset, k, maxTokens)
      decreases |tokens| - i
    {
      var endToken := Min(i + maxTokens, |tokens|);
      var decoded := tok.decode(tokens[..endToken]);
      pieces := pieces + [Unit(From(decoded, prevLength), offset + prevLength, offset + |decoded|)];
      prevLength := |decoded|;
      i := i + maxTokens;
    }
    CutIs(|pieces|, maxTokens);
    if pieces != [] { CutIs(|pieces| - 1, maxTokens); }
  }

  /** With exact prefixes, each piece is the slice between its offsets, and longer prefixes reach further. */
  lemma PieceIsSlice(tok: Tokenizer, unit: string, offset: nat, a: nat, b: nat)
    requires tok.ExactPrefixes(unit) && a <= b <= tok.Count(unit)
    ensures var la, lb := PrefixLength(tok, unit, a), PrefixLength(tok, unit, b);
      && la <= lb <= |unit| && PieceAt(tok, unit, offset, a, b) == Unit(unit[la..lb], offset + la, offset + lb)
      && (b == tok.Count(unit) ==> lb == |unit|)
  {
    var tokens := tok.encode(unit);
    assert tokens[..|tokens|] == tokens && tokens[..0] == [];
    assert tok.decode(tokens[..a]) <= tok.decode(tokens[..b]);
    assert tok.decode(tokens[..b]) <= tok.decode(tokens[..|tokens|]);
    assert tok.decode(tokens[..b]) == unit[..|tok.decode(tokens[..b])|];
  }

  /** At every cut the decoded prefix goes on as the unit does, and all tokens together reach its end. */
  ghost predicate ExactCuts(tok: Tokenizer, unit: string, maxTokens: nat) {
    && (forall k: nat :: ExactCut(tok, unit, k, maxTokens))
    && PrefixLength(tok, unit, tok.Count(unit)) == |unit|
  }

  ghost predicate ExactCut(tok: Tokenizer, unit: string, k: nat, maxTokens: nat) {
    Cut(k, maxTokens) < tok.Count(unit) ==> InPlace(unit, 0, CutPiece(tok, unit, 0, k, maxTokens))
  }

  lemma CutAdvances(tok: Tokenizer, unit: string, k: nat, maxTokens: nat)
    ensures CutOf(tok, unit, k, maxTokens) <= CutOf(tok, unit, k + 1, maxTokens) <= tok.Count(unit)
  {
  }

  /** What the comment claims is enough, wherever the cuts fall. */
  lemma ExactPrefixesSuffice(tok: Tokenizer, unit: string, maxTokens: nat)
    requires tok.ExactPrefixes(unit)
    ensures ExactCuts(tok, unit, maxTokens)
  {
    forall k: nat ensures ExactCut(tok, unit, k, maxTokens) {
      CutAdvances(tok, unit, k, maxTokens);
      PieceIsSlice(tok, unit, 0, CutOf(tok, unit, k, maxTokens), CutOf(tok, unit, k + 1, maxTokens));
    }
    PieceIsSlice(tok, unit, 0, tok.Count(unit), tok.Count(unit));
  }

  lemma {:induction false} CutGrows(k: nat, n: nat, maxTokens: nat)
    requires k <= n
    ensures Cut(k, maxTokens) <= Cut(n, maxTokens)
  {
    if k < n { CutGrows(k, n - 1, maxTokens); }
  }

  lemma Shifted(unit: string, offset: nat, piece: Unit, from: Unit)
    requires piece == Unit(from.text, offset + from.start, offset + from.end)
    ensures InPlace(unit, offset, piece) <==> InPlace(unit, 0, from)
  {
  }

  /** The pieces a hard split makes tile the unit if and only if its cuts are exact. */
  lemma PiecesTileIff(tok: Tokenizer, unit: string, offset: nat, maxTokens: nat, pieces: seq<Unit>)
    requires pieces != [] ==> Cut(|pieces| - 1, maxTokens) < tok.Count(unit)
    requires tok.Count(unit) <= Cut(|pieces|, maxTokens)
    requires forall k | 0 <= k < |pieces| ::
               pieces[k] == CutPiece(tok, unit, offset, k, maxTokens)
    ensures Pieces(unit, offset, pieces) <==> ExactCuts(tok, unit, maxTokens)
  {
    forall k | 0 <= k < |pieces|
      ensures InPlace(unit, offset, pieces[k]) <==> ExactCut(tok, unit, k, maxTokens)
    {
      CutGrows(k, |pieces| - 1, maxTokens);
      Shifted(unit, offset, pieces[k], CutPiece(tok, unit, 0, k, maxTokens));
    }
    forall k: nat | k >= |pieces| ensures ExactCut(tok, unit, k, maxTokens) { CutGrows(|pieces|, k, maxTokens); }
    forall i | 0 < i < |pieces| ensures Adjacent(pieces, i) {
      assert pieces[i - 1] == CutPiece(tok, unit, offset, i - 1, maxTokens);
    }
    EndOfPieces(tok, unit, offset, maxTokens, pieces);
  }

  lemma EndOfPieces(tok: Tokenizer, unit: string, offset: nat, maxTokens: nat, pieces: seq<Unit>)
    requires tok.Count(unit) <= Cut(|pieces|, maxTokens)
    requires forall k | 0 <= k < |pieces| ::
               pieces[k] == CutPiece(tok, unit, offset, k, maxTokens)
    ensures if pieces == [] then PrefixLength(tok, unit, tok.Count(unit)) == 0
            else pieces[0].start == offset
                 && pieces[|pieces| - 1].end == offset + PrefixLength(tok, unit, tok.Count(unit))
  {
    if pieces != [] {
      var n := |pieces| - 1;
      assert pieces[n] == CutPiece(tok, unit, offset, n, maxTokens);
      assert CutOf(tok, unit, n + 1, maxTokens) == tok.Count(unit);
    }
  }

  // ---------------------------------------------------------------- a tokenizer that round-trips and is not exact

  /** Two tokens for every character, of which only both together decode to it. */
  const HALVES := Tokenizer(Halves, Whole)

  function Halves(s: string): seq<int> {
    if s == "" then [] else [s[0] as int, s[0] as int] + Halves(s[1..])
  }

  function Whole(ts: seq<int>): string {
    if ts == [] then ""
    else if |ts| == 1 || ts[0] != ts[1] || !IsCharCode(ts[0]) then [REPLACEMENT]
    else [ts[0] as char] + Whole(ts[2..])
  }

  const REPLACEMENT: char := '\U{FFFD}'

  predicate IsCharCode(n: int) {
    0 <= n < 0xD800 || 0xE000 <= n < 0x11_0000
  }

  lemma {:induction false} HalvesRoundTrip(s: string)
    ensures HALVES.decode(HALVES.encode(s)) == s
  {
    if s != "" {
      HalvesRoundTrip(s[1..]);
      assert Halves(s)[2..] == Halves(s[1..]);
    }
  }

  /** Every text comes back from its tokens, and yet a text cut between two tokens of a character is not a slice. */
  lemma SomeCutInexact(s: string)
    requires s != "" && s[0] != REPLACEMENT
    ensures HALVES.decode(HALVES.encode(s)) == s && !ExactCuts(HALVES, s, 1)
  {
    HalvesRoundTrip(s);
    assert HALVES.encode(s)[..1] == [s[0] as int];
    assert CutOf(HALVES, s, 1, 1) == 1;
    assert CutPiece(HALVES, s, 0, 0, 1) == Unit([REPLACEMENT], 0, 1);
    assert !ExactCut(HALVES, s, 0, 1);
  }
}
