/** Tokens that stand for bytes, as those of the chunker's tokenizer do: where a line may be cut. */
module ByteTokens {
  import opened Units

  /** The number of bytes of a character in UTF-8. */
  function Width(c: char): (n: nat)
    ensures 1 <= n <= 4
  {
    if c as int < 0x80 then 1 else if c as int < 0x800 then 2 else if c as int < 0x1_0000 then 3 else 4
  }

  function Widths(s: string): nat {
    if s == "" then 0 else Width(s[0]) + Widths(s[1..])
  }

  /** What the first `b` bytes of a text decode to: a character cut short is replaced by U+FFFD. */
  function Decoded(s: string, b: nat): string {
    if s == "" || b == 0 then ""
    else if b < Width(s[0]) then [REPLACEMENT]
    else [s[0]] + Decoded(s[1..], b - Width(s[0]))
  }

  /** The first `b` bytes end inside no character, other than one that is U+FFFD itself. */
  predicate Intact(s: string, b: nat) {
    if s == "" || b == 0 then true
    else if b < Width(s[0]) then s[0] == REPLACEMENT
    else Intact(s[1..], b - Width(s[0]))
  }

  function Bytes(size: int -> nat, tokens: seq<int>): nat {
    if tokens == [] then 0 else Bytes(size, tokens[..|tokens| - 1]) + size(tokens[|tokens| - 1])
  }

  /** Token `t` stands for `size(t)` bytes: the tokens of `s` for all of its bytes, the first few for the first few. */
  ghost predicate ByteLevel(tok: Tokenizer, size: int -> nat, s: string) {
    && Bytes(size, tok.encode(s)) == Widths(s)
    && forall n | 0 <= n <= tok.Count(s) ::
         tok.decode(tok.encode(s)[..n]) == Decoded(s, Bytes(size, tok.encode(s)[..n]))
  }

  /** How many bytes stand before cut `k`. */
  function BytesBefore(tok: Tokenizer, size: int -> nat, s: string, k: nat, maxTokens: nat): nat {
    Bytes(size, tok.encode(s)[..CutOf(tok, s, k, maxTokens)])
  }

  // ---------------------------------------------------------------- decoded prefixes

  /** All but the last character are the text's, and the last is unless it was cut short. */
  lemma {:induction false} DecodedIs(s: string, b: nat)
    ensures var d := Decoded(s, b); var n := |d| - 1;
      && |d| <= |s|
      && (d == "" ==> Intact(s, b))
      && (d != "" ==> d[..n] == s[..n] && (Intact(s, b) <==> d[n] == s[n]))
  {
    if s != "" && b >= Width(s[0]) {
      var rest := Decoded(s[1..], b - Width(s[0]));
      DecodedIs(s[1..], b - Width(s[0]));
      if rest == "" {
        assert Decoded(s, b) == [s[0]];
      } else {
        assert Decoded(s, b)[..|rest|] == [s[0]] + rest[..|rest| - 1];
        assert s[..|rest|] == [s[0]] + s[1..][..|rest| - 1];
      }
    }
  }

  lemma {:induction false} AllDecoded(s: string)
    ensures Decoded(s, Widths(s)) == s && Intact(s, Widths(s))
  {
    if s != "" { AllDecoded(s[1..]); }
  }

  /** More bytes decode to as many characters at least; if to as many only, no character is cut short anew. */
  lemma {:induction false} DecodedGrows(s: string, a: nat, b: nat)
    requires a <= b
    ensures |Decoded(s, a)| <= |Decoded(s, b)|
    ensures |Decoded(s, a)| == |Decoded(s, b)| && Intact(s, a) ==> Intact(s, b)
  {
    if s != "" && a >= Width(s[0]) {
      DecodedGrows(s[1..], a - Width(s[0]), b - Width(s[0]));
    } else if s != "" && 0 < a && b >= Width(s[0]) {
      DecodedIs(s[1..], b - Width(s[0]));
    }
  }

  lemma {:induction false} BytesGrow(size: int -> nat, tokens: seq<int>, m: nat, n: nat)
    requires m <= n <= |tokens|
    ensures Bytes(size, tokens[..m]) <= Bytes(size, tokens[..n])
  {
    if m < n {
      BytesGrow(size, tokens, m, n - 1);
      assert tokens[..n][..n - 1] == tokens[..n - 1];
    }
  }

  // ---------------------------------------------------------------- cuts

  lemma PrefixLengthIs(tok: Tokenizer, size: int -> nat, s: string, n: nat)
    requires ByteLevel(tok, size, s) && n <= tok.Count(s)
    ensures PrefixLength(tok, s, n) == |Decoded(s, Bytes(size, tok.encode(s)[..n]))|
  {
    if n == 0 { assert tok.encode(s)[..n] == []; }
  }

  /** Cut `k` is exact if and only if the next cut splits no character that cut `k` leaves whole. */
  lemma CutIsExactIff(s: string, a: nat, b: nat)
    requires a <= b
    requires Intact(s, a)
    ensures var la, d := |Decoded(s, a)|, Decoded(s, b);
      la <= |d| <= |s| && (d[la..] == s[la..|d|] <==> Intact(s, b))
  {
    var la, d := |Decoded(s, a)|, Decoded(s, b);
    var n := |d| - 1;
    DecodedGrows(s, a, b);
    DecodedIs(s, b);
    if la < |d| {
      if d[la..] == s[la..|d|] { assert d[la..][n - la] == s[la..|d|][n - la]; }
      if d[n] == s[n] { assert d == s[..n] + [s[n]] == s[..|d|]; }
    }
  }

  lemma PieceInPlaceIff(tok: Tokenizer, size: int -> nat, s: string, k: nat, maxTokens: nat)
    requires ByteLevel(tok, size, s) && Intact(s, BytesBefore(tok, size, s, k, maxTokens))
    ensures InPlace(s, 0, CutPiece(tok, s, 0, k, maxTokens)) <==> Intact(s, BytesBefore(tok, size, s, k + 1, maxTokens))
  {
    var m, n := CutOf(tok, s, k, maxTokens), CutOf(tok, s, k + 1, maxTokens);
    CutAdvances(tok, s, k, maxTokens);
    PrefixLengthIs(tok, size, s, m);
    PrefixLengthIs(tok, size, s, n);
    BytesGrow(size, tok.encode(s), m, n);
    CutIsExactIff(s, Bytes(size, tok.encode(s)[..m]), Bytes(size, tok.encode(s)[..n]));
  }

  ghost predicate IntactCut(tok: Tokenizer, size: int -> nat, s: string, k: nat, maxTokens: nat) {
    Intact(s, BytesBefore(tok, size, s, k, maxTokens))
  }

  lemma {:induction false} IntactUpTo(tok: Tokenizer, size: int -> nat, s: string, k: nat, maxTokens: nat)
    requires ByteLevel(tok, size, s) && ExactCuts(tok, s, maxTokens)
    ensures IntactCut(tok, size, s, k, maxTokens)
  {
    var tokens := tok.encode(s);
    if k == 0 {
      assert tokens[..0] == [];
    } else if Cut(k - 1, maxTokens) < |tokens| {
      IntactUpTo(tok, size, s, k - 1, maxTokens);
      PieceInPlaceIff(tok, size, s, k - 1, maxTokens);
      assert ExactCut(tok, s, k - 1, maxTokens);
    } else {
      assert CutOf(tok, s, k, maxTokens) == |tokens| && tokens[..|tokens|] == tokens;
      AllDecoded(s);
    }
  }

  /** With tokens that stand for bytes, the cuts are exact if and only if none falls inside a character. */
  lemma ExactCutsIff(tok: Tokenizer, size: int -> nat, s: string, maxTokens: nat)
    requires ByteLevel(tok, size, s)
    ensures ExactCuts(tok, s, maxTokens) <==> forall k: nat :: IntactCut(tok, size, s, k, maxTokens)
  {
    var tokens := tok.encode(s);
    if ExactCuts(tok, s, maxTokens) {
      forall k: nat ensures IntactCut(tok, size, s, k, maxTokens) { IntactUpTo(tok, size, s, k, maxTokens); }
    }
    if forall k: nat :: IntactCut(tok, size, s, k, maxTokens) {
      forall k: nat ensures ExactCut(tok, s, k, maxTokens) {
        assert IntactCut(tok, size, s, k, maxTokens) && IntactCut(tok, size, s, k + 1, maxTokens);
        PieceInPlaceIff(tok, size, s, k, maxTokens);
      }
      PrefixLengthIs(tok, size, s, |tokens|);
      assert tokens[..|tokens|] == tokens;
      AllDecoded(s);
    }
  }

  /** Then the pieces of a hard split tile the unit if and only if no cut falls inside a character. */
  lemma BytePiecesTileIff(tok: Tokenizer, size: int -> nat, unit: string, offset: nat, maxTokens: nat,
                          pieces: seq<Unit>)
    requires ByteLevel(tok, size, unit)
    requires pieces != [] ==> Cut(|pieces| - 1, maxTokens) < tok.Count(unit)
    requires tok.Count(unit) <= Cut(|pieces|, maxTokens)
    requires forall k | 0 <= k < |pieces| :: pieces[k] == CutPiece(tok, unit, offset, k, maxTokens)
    ensures Pieces(unit, offset, pieces) <==> forall k: nat :: IntactCut(tok, size, unit, k, maxTokens)
  {
    PiecesTileIff(tok, unit, offset, maxTokens, pieces);
    ExactCutsIff(tok, size, unit, maxTokens);
  }

  // ---------------------------------------------------------------- an example

  /** Every character takes two bytes. */
  predicate Doubles(s: string) {
    forall i | 0 <= i < |s| :: Width(s[i]) == 2
  }

  lemma WholeOfMore(c: char, rest: seq<int>)
    ensures Whole([c as int, c as int] + rest) == [c] + Whole(rest)
  {
    assert ([c as int, c as int] + rest)[2..] == rest;
  }

  lemma {:induction false} WholeOfHalves(s: string, n: nat)
    requires Doubles(s) && n <= |Halves(s)|
    ensures Whole(Halves(s)[..n]) == Decoded(s, n)
  {
    if s != "" && n >= 2 {
      WholeOfHalves(s[1..], n - 2);
      WholeOfMore(s[0], Halves(s[1..])[..n - 2]);
      assert Halves(s)[..n] == [s[0] as int, s[0] as int] + Halves(s[1..])[..n - 2];
    } else if n == 1 {
      assert Halves(s)[..1] == [s[0] as int];
    }
  }

  lemma {:induction false} OneByteEach(tokens: seq<int>)
    ensures Bytes(_ => 1, tokens) == |tokens|
  {
    if tokens != [] { OneByteEach(tokens[..|tokens| - 1]); }
  }

  lemma {:induction false} TwoTokensEach(s: string)
    requires Doubles(s)
    ensures |Halves(s)| == Widths(s)
  {
    if s != "" { TwoTokensEach(s[1..]); }
  }

  /** On characters of two bytes the halves are bytes. */
  lemma HalvesAreBytes(s: string)
    requires Doubles(s)
    ensures ByteLevel(HALVES, _ => 1, s)
  {
    var tokens := Halves(s);
    OneByteEach(tokens);
    TwoTokensEach(s);
    forall n | 0 <= n <= |tokens| ensures Whole(tokens[..n]) == Decoded(s, Bytes(_ => 1, tokens[..n])) {
      OneByteEach(tokens[..n]);
      WholeOfHalves(s, n);
    }
  }
}
