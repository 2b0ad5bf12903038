/** Citation verification: splitting an answer into sentences and keeping those that cite a valid source. */
module Citations {
  import opened Prelude
  import opened Text

  /** `\w` is a library table; all that is used of it is which characters it does not contain. */
  ghost predicate Proper(word: char -> bool) {
    && !word('[') && !word(']') && !word('.')
    && forall c: char | IsSpace(c) :: !word(c)
  }

  datatype Claim = Claim(number: nat, text: string, supportedBy: seq<string>)

  datatype VerifiedAnswer = VerifiedAnswer(text: string, claims: seq<Claim>, confidence: real, insufficient: bool)

  // ---------------------------------------------------------------- sentences

  predicate IsEnd(c: char) {
    c == '.' || c == '!' || c == '?'
  }

  /** A sentence ends right before position `i`: `(?<=[.!?])\s`. */
  predicate BreakAt(s: string, i: nat) {
    0 < i < |s| && IsEnd(s[i - 1]) && IsSpace(s[i])
  }

  /** The first break from `i` on, the length if there is none. */
  function FirstBreak(s: string, i: nat): (n: nat)
    requires i <= |s|
    ensures i <= n <= |s| && (forall k | i <= k < n :: !BreakAt(s, k)) && (n < |s| ==> BreakAt(s, n))
    decreases |s| - i
  {
    if i < |s| && !BreakAt(s, i) then FirstBreak(s, i + 1) else i
  }

  /** `re.split(r"(?<=[.!?])\s+", s)` */
  function Pieces(s: string): seq<string>
    decreases |s|
  {
    var n := FirstBreak(s, 0);
    if n == |s| then [s] else [s[..n]] + Pieces(s[SkipSpaces(s, n)..])
  }

  /** The pieces stripped, blank ones left out. */
  function StripAll(pieces: seq<string>): seq<string> {
    if pieces == [] then []
    else (if Strip(pieces[0]) == "" then [] else [Strip(pieces[0])]) + StripAll(pieces[1..])
  }

  function Sentences(s: string): seq<string> {
    StripAll(Pieces(s))
  }

  // ---------------------------------------------------------------- citations

  predicate IsIdChar(word: char -> bool, c: char) {
    word(c) || c == '-'
  }

  /** Where the run of id characters at `i` ends. */
  function IdEnd(word: char -> bool, s: string, i: nat): (n: nat)
    requires i <= |s|
    ensures i <= n <= |s| && (forall k | i <= k < n :: IsIdChar(word, s[k])) && (n < |s| ==> !IsIdChar(word, s[n]))
    decreases |s| - i
  {
    if i < |s| && IsIdChar(word, s[i]) then IdEnd(word, s, i + 1) else i
  }

  /** The closing bracket of the citation that starts at `i`, if one does. */
  function CiteAt(word: char -> bool, s: string, i: nat): (r: Option<nat>)
    requires i < |s|
    ensures r.Some? ==> i + 1 < r.value < |s|
  {
    var n := IdEnd(word, s, i + 1);
    if s[i] == '[' && i + 1 < n < |s| && s[n] == ']' then Some(n) else None
  }

  /** `re.findall(r"\[([\w\-]+)\]", s)`, from position `i` on. */
  function CitesFrom(word: char -> bool, s: string, i: nat): seq<string>
    requires i <= |s|
    decreases |s| - i
  {
    if i == |s| then []
    else
      match CiteAt(word, s, i)
      case Some(n) => [s[i + 1..n]] + CitesFrom(word, s, n + 1)
      case None => CitesFrom(word, s, i + 1)
  }

  function Cites(word: char -> bool, s: string): seq<string> {
    CitesFrom(word, s, 0)
  }

  function Keep(ids: seq<string>, valid: set<string>): seq<string> {
    if ids == [] then [] else (if ids[0] in valid then [ids[0]] else []) + Keep(ids[1..], valid)
  }

  function Supported(word: char -> bool, sentence: string, valid: set<string>): seq<string> {
    Keep(Cites(word, sentence), valid)
  }

  // ---------------------------------------------------------------- verification

  function Kept(word: char -> bool, sentences: seq<string>, valid: set<string>): seq<string> {
    if sentences == [] then []
    else
      var last := sentences[|sentences| - 1];
      Kept(word, sentences[..|sentences| - 1], valid) + if Supported(word, last, valid) == [] then [] else [last]
  }

  function Claims(word: char -> bool, kept: seq<string>, valid: set<string>): seq<Claim> {
    if kept == [] then []
    else
      var last := kept[|kept| - 1];
      Claims(word, kept[..|kept| - 1], valid) + [Claim(|kept|, last, Supported(word, last, valid))]
  }

  const INSUFFICIENT := VerifiedAnswer("", [], 0.0, true)

  function Verified(word: char -> bool, raw: string, valid: set<string>): VerifiedAnswer {
    var sentences := Sentences(raw);
    var kept := Kept(word, sentences, valid);
    if kept == [] then INSUFFICIENT
    else VerifiedAnswer(Join(kept, " "), Claims(word, kept, valid), Ratio(|kept|, |sentences|), false)
  }

  function Ratio(a: nat, b: nat): real {
    if b == 0 then 0.0 else a as real / b as real
  }

  lemma KeptOneMore(word: char -> bool, sentences: seq<string>, i: nat, valid: set<string>)
    requires i < |sentences|
    ensures var kept, next := Kept(word, sentences[..i], valid), sentences[i];
      Kept(word, sentences[..i + 1], valid) == if Supported(word, next, valid) == [] then kept else kept + [next]
  {
    assert sentences[..i + 1][..i] == sentences[..i];
    var kept := Kept(word, sentences[..i], valid);
    assert kept + [] == kept;
  }

  lemma ClaimsOneMore(word: char -> bool, kept: seq<string>, last: string, valid: set<string>)
    ensures Claims(word, kept + [last], valid) ==
      Claims(word, kept, valid) + [Claim(|kept| + 1, last, Supported(word, last, valid))]
  {
    assert (kept + [last])[..|kept|] == kept;
  }

  method VerifyCitations(word: char -> bool, raw: string, valid: set<string>) returns (r: VerifiedAnswer)
    ensures r == Verified(word, raw, valid)
  {
    if Strip(raw) == "" {
      BlankHasNoSentences(raw);
      return INSUFFICIENT;
    }
    var sentences := Sentences(raw);
    var kept: seq<string> := [];
    var claims: seq<Claim> := [];
    for i := 0 to |sentences|
      invariant kept == Kept(word, sentences[..i], valid) && claims == Claims(word, kept, valid) && |claims| == |kept|
    {
      var sentence := sentences[i];
      KeptOneMore(word, sentences, i, valid);
      ClaimsOneMore(word, kept, sentence, valid);
      var cited := Keep(Cites(word, sentence), valid);
      if cited == [] {
        continue;
      }
      kept := kept + [sentence];
      claims := claims + [Claim(|claims| + 1, sentence, cited)];
    }
    assert sentences[..|sentences|] == sentences;
    if kept == [] {
      return INSUFFICIENT;
    }
    var confidence := if sentences != [] then |kept| as real / |sentences| as real else 0.0;
    r := VerifiedAnswer(Join(kept, " "), claims, confidence, false);
  }

  lemma BlankHasNoSentences(raw: string)
    requires Strip(raw) == ""
    ensures Sentences(raw) == []
  {
    SpaceFacts();
    assert forall c: char | IsEnd(c) :: !IsSpace(c);
    assert forall k | 0 <= k < |raw| :: IsSpace(raw[k]) && !IsEnd(raw[k]);
    assert FirstBreak(raw, 0) == |raw|;
    assert StripAll([raw]) == StripAll([raw][1..]);
  }

  // ---------------------------------------------------------------- sentences split back into themselves

  ghost predicate NoBreak(s: string) {
    forall k :: !BreakAt(s, k)
  }

  /** A sentence as the splitter leaves it. */
  ghost predicate IsSentence(s: string) {
    s != "" && !IsSpace(s[0]) && !IsSpace(s[|s| - 1]) && NoBreak(s)
  }

  /** Sentences, all but the last closed by an end mark. */
  ghost predicate AreSentences(ts: seq<string>) {
    && (forall i | 0 <= i < |ts| :: IsSentence(ts[i]))
    && (forall i | 0 <= i < |ts| - 1 :: IsClosed(ts[i]))
  }

  predicate IsClosed(s: string) {
    s != "" && IsEnd(s[|s| - 1])
  }

  lemma StripKeepsNoBreak(s: string)
    requires NoBreak(s) && Strip(s) != ""
    ensures IsSentence(Strip(s))
  {
    StripIs(s);
    var a := Lead(s);
    forall k ensures !BreakAt(Strip(s), k) {
      assert !BreakAt(s, a + k);
    }
  }

  lemma PrefixNoBreak(s: string, n: nat)
    requires n <= |s| && forall k | 0 <= k < n :: !BreakAt(s, k)
    ensures NoBreak(s[..n])
  {
    forall k: nat ensures !BreakAt(s[..n], k) {
      if k < n { assert !BreakAt(s, k); }
    }
  }

  lemma StripKeepsClosed(t: string)
    requires NoBreak(t) && IsClosed(t)
    ensures IsSentence(Strip(t)) && IsClosed(Strip(t))
  {
    SpaceFacts();
    assert !IsSpace(t[|t| - 1]);
    StripKeepsNoBreak(t);
    StripIs(t);
  }

  /** A piece before a break is a sentence closed by its end mark. */
  lemma PieceCloses(s: string, n: nat)
    requires n == FirstBreak(s, 0) && n < |s|
    ensures IsSentence(Strip(s[..n])) && IsClosed(Strip(s[..n]))
  {
    PrefixNoBreak(s, n);
    assert s[..n][n - 1] == s[n - 1];
    StripKeepsClosed(s[..n]);
  }

  lemma {:induction false} SentencesAre(s: string)
    ensures AreSentences(Sentences(s))
    decreases |s|
  {
    var n := FirstBreak(s, 0);
    if n == |s| {
      OnePiece(s);
      if Strip(s) != "" { StripKeepsNoBreak(s); }
    } else {
      var rest := s[SkipSpaces(s, n)..];
      SentencesAre(rest);
      PieceCloses(s, n);
      FirstPiece(s, n);
      PrependSentence(Strip(s[..n]), Sentences(rest));
    }
  }

  lemma PrependSentence(t: string, ts: seq<string>)
    requires IsSentence(t) && IsClosed(t) && AreSentences(ts)
    ensures AreSentences([t] + ts)
  {
    assert forall i | 0 < i < |[t] + ts| :: ([t] + ts)[i] == ts[i - 1];
  }

  lemma OnePiece(s: string)
    requires FirstBreak(s, 0) == |s|
    ensures Sentences(s) == if Strip(s) == "" then [] else [Strip(s)]
  {
    assert StripAll([s]) == (if Strip(s) == "" then [] else [Strip(s)]) + StripAll([s][1..]);
  }

  lemma FirstPiece(s: string, n: nat)
    requires n == FirstBreak(s, 0) && n < |s| && Strip(s[..n]) != ""
    ensures Sentences(s) == [Strip(s[..n])] + Sentences(s[SkipSpaces(s, n)..])
  {
    var rest := s[SkipSpaces(s, n)..];
    assert ([s[..n]] + Pieces(rest))[1..] == Pieces(rest);
  }

  /** A closed sentence in front of a text that starts with a non-space is split off unchanged. */
  lemma SplitOff(t: string, rest: string)
    requires IsSentence(t) && IsEnd(t[|t| - 1]) && rest != "" && !IsSpace(rest[0])
    ensures Sentences(t + " " + rest) == [t] + Sentences(rest)
  {
    SpaceFacts();
    var s := t + " " + rest;
    assert BreakAt(s, |t|);
    forall k | 0 <= k < |t| ensures !BreakAt(s, k) { assert !BreakAt(t, k); }
    assert FirstBreak(s, 0) == |t|;
    assert SkipSpaces(s, |t|) == |t| + 1 by { assert s[|t| + 1] == rest[0]; }
    assert s[..|t|] == t && s[|t| + 1..] == rest;
    StripIdempotent(t);
    assert ([t] + Pieces(rest))[1..] == Pieces(rest);
  }

  lemma SentenceAlone(t: string)
    requires IsSentence(t)
    ensures Sentences(t) == [t]
  {
    StripIdempotent(t);
    assert FirstBreak(t, 0) == |t|;
    assert StripAll([t]) == [Strip(t)] + StripAll([t][1..]);
  }

  lemma {:induction false} JoinStarts(ts: seq<string>)
    requires ts != [] && AreSentences(ts)
    ensures Join(ts, " ") != "" && Join(ts, " ")[0] == ts[0][0]
  {
  }

  lemma TailAre(ts: seq<string>)
    requires |ts| > 1 && AreSentences(ts)
    ensures AreSentences(ts[1..]) && IsSentence(ts[0]) && IsClosed(ts[0]) && IsSentence(ts[1..][0])
  {
    assert forall i | 0 <= i < |ts[1..]| :: ts[1..][i] == ts[i + 1];
  }

  /** Joined with spaces, sentences split back into themselves. */
  lemma {:induction false} SentencesOfJoin(ts: seq<string>)
    requires ts != [] && AreSentences(ts)
    ensures Sentences(Join(ts, " ")) == ts
  {
    if |ts| == 1 {
      SentenceAlone(ts[0]);
    } else {
      TailAre(ts);
      SentencesOfJoin(ts[1..]);
      JoinStarts(ts[1..]);
      SplitOff(ts[0], Join(ts[1..], " "));
    }
  }

  // ---------------------------------------------------------------- kept sentences

  lemma {:induction false} KeptMembers(word: char -> bool, ts: seq<string>, valid: set<string>)
    ensures forall t | t in Kept(word, ts, valid) :: t in ts && Supported(word, t, valid) != []
  {
    if ts != [] {
      KeptMembers(word, ts[..|ts| - 1], valid);
      assert ts == ts[..|ts| - 1] + [ts[|ts| - 1]];
    }
  }

  lemma KeptAre(word: char -> bool, ts: seq<string>, valid: set<string>)
    requires AreSentences(ts)
    ensures AreSentences(Kept(word, ts, valid))
  {
    if ts != [] {
      var before := Kept(word, ts[..|ts| - 1], valid);
      KeptMembers(word, ts[..|ts| - 1], valid);
      forall i | 0 <= i < |before| ensures IsSentence(before[i]) && IsClosed(before[i]) {
        assert before[i] in ts[..|ts| - 1];
      }
    }
  }

  lemma {:induction false} AllKept(word: char -> bool, ts: seq<string>, valid: set<string>)
    requires forall t | t in ts :: Supported(word, t, valid) != []
    ensures Kept(word, ts, valid) == ts
  {
    if ts != [] {
      AllKept(word, ts[..|ts| - 1], valid);
      assert ts[|ts| - 1] in ts && ts == ts[..|ts| - 1] + [ts[|ts| - 1]];
    }
  }

  /** Verifying an accepted answer again changes nothing but the confidence, which becomes one. */
  lemma VerificationIsIdempotent(word: char -> bool, raw: string, valid: set<string>)
    ensures var v := Verified(word, raw, valid);
      !v.insufficient ==> Verified(word, v.text, valid) == v.(confidence := 1.0)
  {
    if !Verified(word, raw, valid).insufficient {
      var kept := Kept(word, Sentences(raw), valid);
      SentencesAre(raw);
      KeptAre(word, Sentences(raw), valid);
      SentencesOfJoin(kept);
      KeptMembers(word, Sentences(raw), valid);
      AllKept(word, kept, valid);
      RatioOne(|kept|);
    }
  }

  lemma RatioOne(n: nat)
    requires n > 0
    ensures Ratio(n, n) == 1.0
  {
  }

  lemma {:induction false} MoreSupported(ids: seq<string>, valid: set<string>, more: set<string>)
    requires valid <= more && Keep(ids, valid) != []
    ensures Keep(ids, more) != []
  {
    if ids[0] !in valid { MoreSupported(ids[1..], valid, more); }
  }

  /** With fewer valid ids, the sentences kept are those still supported among the ones kept before, in order. */
  lemma {:induction false} KeptGrows(word: char -> bool, ts: seq<string>, valid: set<string>, more: set<string>)
    requires valid <= more
    ensures Kept(word, Kept(word, ts, more), valid) == Kept(word, ts, valid)
  {
    if ts != [] {
      var last, b := ts[|ts| - 1], Kept(word, ts[..|ts| - 1], more);
      KeptGrows(word, ts[..|ts| - 1], valid, more);
      if Supported(word, last, valid) != [] { MoreSupported(Cites(word, last), valid, more); }
      assert (b + [last])[..|b|] == b && b + [] == b;
    }
  }

  // ---------------------------------------------------------------- citations of concatenations

  lemma IdEndIs(word: char -> bool, s: string, i: nat, n: nat)
    requires i <= n <= |s| && (forall k | i <= k < n :: IsIdChar(word, s[k])) && (n < |s| ==> !IsIdChar(word, s[n]))
    ensures IdEnd(word, s, i) == n
  {
  }

  /** `b` is what follows the first `n` characters of `s`. */
  ghost predicate Follows(s: string, n: nat, b: string) {
    |s| == n + |b| && forall k {:trigger s[k]} | n <= k < |s| :: s[k] == b[k - n]
  }

  /** Where the search goes on after position `i`. */
  function NextFrom(word: char -> bool, s: string, i: nat): (n: nat)
    requires i < |s|
    ensures i < n <= |s|
  {
    match CiteAt(word, s, i)
    case Some(n) => n + 1
    case None => i + 1
  }

  lemma CiteAtShift(word: char -> bool, s: string, n: nat, b: string, j: nat, i: nat)
    requires Follows(s, n, b) && i < |b| && j == n + i
    ensures CiteAt(word, s, j).Some? <==> CiteAt(word, b, i).Some?
    ensures NextFrom(word, s, j) == n + NextFrom(word, b, i)
    ensures CiteAt(word, b, i).Some? ==> s[j + 1..CiteAt(word, s, j).value] == b[i + 1..CiteAt(word, b, i).value]
  {
    IdEndIs(word, s, j + 1, n + IdEnd(word, b, i + 1));
  }

  /** Strings that agree on what is found at a position and afterwards agree from that position on. */
  lemma CitesAgree(word: char -> bool, s: string, j: nat, t: string, i: nat)
    requires j < |s| && i < |t|
    requires CiteAt(word, s, j).Some? <==> CiteAt(word, t, i).Some?
    requires CiteAt(word, s, j).Some? ==> s[j + 1..CiteAt(word, s, j).value] == t[i + 1..CiteAt(word, t, i).value]
    requires CitesFrom(word, s, NextFrom(word, s, j)) == CitesFrom(word, t, NextFrom(word, t, i))
    ensures CitesFrom(word, s, j) == CitesFrom(word, t, i)
  {
  }

  /** The same, with more found behind what one of the strings gives. */
  lemma CitesAgreeBefore(word: char -> bool, s: string, t: string, i: nat, more: seq<string>)
    requires i < |s| && i < |t| && NextFrom(word, s, i) == NextFrom(word, t, i)
    requires CiteAt(word, s, i).Some? <==> CiteAt(word, t, i).Some?
    requires CiteAt(word, s, i).Some? ==> s[i + 1..CiteAt(word, s, i).value] == t[i + 1..CiteAt(word, t, i).value]
    requires CitesFrom(word, s, NextFrom(word, s, i)) == CitesFrom(word, t, NextFrom(word, t, i)) + more
    ensures CitesFrom(word, s, i) == CitesFrom(word, t, i) + more
  {
    var rest := CitesFrom(word, t, NextFrom(word, t, i));
    if CiteAt(word, t, i).Some? {
      var id := t[i + 1..CiteAt(word, t, i).value];
      assert [id] + (rest + more) == [id] + rest + more;
    }
  }

  lemma {:induction false} CitesShift(word: char -> bool, s: string, n: nat, b: string, j: nat, i: nat)
    requires Follows(s, n, b) && i <= |b| && j == n + i
    ensures CitesFrom(word, s, j) == CitesFrom(word, b, i)
    decreases |b| - i
  {
    if i < |b| {
      CiteAtShift(word, s, n, b, j, i);
      CitesShift(word, s, n, b, NextFrom(word, s, j), NextFrom(word, b, i));
      CitesAgree(word, s, j, b, i);
    }
  }

  /** A character that occurs in no citation. */
  predicate Separates(word: char -> bool, c: char) {
    c != '[' && c != ']' && !IsIdChar(word, c)
  }

  /** `s` is `a`, a separator, and `b`. */
  ghost predicate Separated(word: char -> bool, s: string, a: string, b: string) {
    && Follows(s, |a| + 1, b) && Separates(word, s[|a|])
    && forall k {:trigger s[k]} | 0 <= k < |a| :: s[k] == a[k]
  }

  lemma CiteAtPrefix(word: char -> bool, s: string, a: string, b: string, i: nat)
    requires Separated(word, s, a, b) && i < |a|
    ensures CiteAt(word, s, i) == CiteAt(word, a, i) && NextFrom(word, s, i) == NextFrom(word, a, i)
    ensures CiteAt(word, a, i).Some? ==> s[i + 1..CiteAt(word, s, i).value] == a[i + 1..CiteAt(word, a, i).value]
  {
    IdEndIs(word, s, i + 1, IdEnd(word, a, i + 1));
  }

  lemma {:induction false} CitesSplit(word: char -> bool, s: string, a: string, b: string, i: nat)
    requires Separated(word, s, a, b) && i <= |a|
    ensures CitesFrom(word, s, i) == CitesFrom(word, a, i) + Cites(word, b)
    decreases |a| - i
  {
    if i == |a| {
      CitesShift(word, s, |a| + 1, b, |a| + 1, 0);
    } else {
      CiteAtPrefix(word, s, a, b, i);
      CitesSplit(word, s, a, b, NextFrom(word, a, i));
      CitesAgreeBefore(word, s, a, i, Cites(word, b));
    }
  }

  lemma {:induction false} BlankCitesNothing(word: char -> bool, s: string, i: nat, j: nat)
    requires i <= j <= |s| && forall k | i <= k < j :: s[k] != '['
    ensures CitesFrom(word, s, i) == CitesFrom(word, s, j)
    decreases j - i
  {
    if i < j { BlankCitesNothing(word, s, i + 1, j); }
  }

  lemma CitesOfSuffix(word: char -> bool, s: string, i: nat)
    requires i <= |s|
    ensures CitesFrom(word, s, i) == Cites(word, s[i..])
  {
    CitesShift(word, s, i, s[i..], i, 0);
  }

  lemma SpaceSeparates(word: char -> bool)
    requires Proper(word)
    ensures forall c: char | IsSpace(c) :: Separates(word, c)
  {
    SpaceFacts();
  }

  /** Cutting out a run of spaces keeps the citations on either side. */
  lemma CitesAroundSpaces(word: char -> bool, s: string, n: nat, m: nat)
    requires Proper(word) && n < m <= |s| && forall k | n <= k < m :: IsSpace(s[k])
    ensures Cites(word, s) == Cites(word, s[..n]) + Cites(word, s[m..])
  {
    CitesBeforeSpace(word, s, n);
    CitesOfSuffix(word, s, n + 1);
    SpacesCiteNothing(word, s, n + 1, m);
    CitesOfSuffix(word, s, m);
  }

  lemma SpacesCiteNothing(word: char -> bool, s: string, i: nat, j: nat)
    requires i <= j <= |s| && forall k | i <= k < j :: IsSpace(s[k])
    ensures CitesFrom(word, s, i) == CitesFrom(word, s, j)
  {
    SpaceFacts();
    BlankCitesNothing(word, s, i, j);
  }

  lemma CitesBeforeSpace(word: char -> bool, s: string, n: nat)
    requires Proper(word) && n < |s| && IsSpace(s[n])
    ensures Cites(word, s) == Cites(word, s[..n]) + Cites(word, s[n + 1..])
  {
    SpaceSeparates(word);
    CitesSplit(word, s, s[..n], s[n + 1..], 0);
  }

  lemma CitesOfBlank(word: char -> bool, s: string)
    requires Blank(s)
    ensures Cites(word, s) == []
  {
    SpaceFacts();
    BlankCitesNothing(word, s, 0, |s|);
  }

  lemma CitesOfStrip(word: char -> bool, s: string)
    requires Proper(word)
    ensures Cites(word, Strip(s)) == Cites(word, s)
  {
    if Strip(s) == "" {
      CitesOfBlank(word, s);
    } else {
      SpaceFacts();
      StripIs(s);
      var a, b := Lead(s), Trimmed(s);
      var t := s[..b];
      assert s[a..b] == t[a..];
      BlankCitesNothing(word, t, 0, a);
      CitesOfSuffix(word, t, a);
      if b < |s| {
        CitesAroundSpaces(word, s, b, |s|);
        assert s[|s|..] == "";
      } else {
        assert t == s;
      }
    }
  }

  ghost predicate WellFormedId(word: char -> bool, id: string) {
    id != "" && forall i | 0 <= i < |id| :: IsIdChar(word, id[i])
  }

  /** An id in brackets, whatever follows that has no bracket, is cited. */
  lemma BracketedId(word: char -> bool, id: string, tail: string)
    requires Proper(word) && WellFormedId(word, id) && '[' !in tail
    ensures Cites(word, "[" + id + "]" + tail) == [id]
  {
    var s := "[" + id + "]" + tail;
    var n := |id| + 1;
    assert s[0] == '[' && s[n] == ']' && s[1..n] == id && s[n + 1..] == tail;
    assert forall k | 1 <= k < n :: s[k] == id[k - 1];
    IdEndIs(word, s, 1, n);
    assert CiteAt(word, s, 0) == Some(n);
    assert forall k | n + 1 <= k < |s| :: s[k] == tail[k - n - 1];
    BlankCitesNothing(word, s, n + 1, |s|);
  }

  // ---------------------------------------------------------------- citations of an answer

  function CitesOfAll(word: char -> bool, ts: seq<string>): seq<string> {
    if ts == [] then [] else CitesOfAll(word, ts[..|ts| - 1]) + Cites(word, ts[|ts| - 1])
  }

  lemma {:induction false} CitesOfCons(word: char -> bool, t: string, ts: seq<string>)
    ensures CitesOfAll(word, [t] + ts) == Cites(word, t) + CitesOfAll(word, ts)
  {
    if ts == [] {
      assert [t] + ts == [t] && [t][..0] == [];
      assert CitesOfAll(word, [t]) == CitesOfAll(word, [t][..0]) + Cites(word, t);
    } else {
      CitesOfCons(word, t, ts[..|ts| - 1]);
      assert ([t] + ts)[..|ts|] == [t] + ts[..|ts| - 1];
    }
  }

  /** Splitting into sentences loses no citation and makes none up. */
  lemma {:induction false} CitesOfSentences(word: char -> bool, s: string)
    requires Proper(word)
    ensures CitesOfAll(word, Sentences(s)) == Cites(word, s)
    decreases |s|
  {
    var n := FirstBreak(s, 0);
    if n == |s| {
      OnePiece(s);
      CitesOfStrip(word, s);
      CitesOfCons(word, Strip(s), []);
      assert [Strip(s)] + [] == [Strip(s)];
    } else {
      var m := SkipSpaces(s, n);
      var rest := s[m..];
      CitesOfSentences(word, rest);
      PieceCloses(s, n);
      FirstPiece(s, n);
      CitesOfCons(word, Strip(s[..n]), Sentences(rest));
      CitesOfStrip(word, s[..n]);
      CitesAroundSpaces(word, s, n, m);
    }
  }

  /** Everything the claims of an answer are supported by, in order. */
  function Cited(claims: seq<Claim>): seq<string> {
    if claims == [] then [] else Cited(claims[..|claims| - 1]) + claims[|claims| - 1].supportedBy
  }

  /** Every valid id is kept as often as it is cited, every other one is left out. */
  lemma {:induction false} KeepMembers(ids: seq<string>, valid: set<string>, id: string)
    ensures multiset(Keep(ids, valid))[id] == if id in valid then multiset(ids)[id] else 0
    ensures id in Keep(ids, valid) <==> id in ids && id in valid
  {
    if ids != [] {
      KeepMembers(ids[1..], valid, id);
      assert ids == [ids[0]] + ids[1..];
    }
  }

  lemma {:induction false} KeepConcat(a: seq<string>, b: seq<string>, valid: set<string>)
    ensures Keep(a + b, valid) == Keep(a, valid) + Keep(b, valid)
  {
    if a == [] {
      assert a + b == b;
    } else {
      KeepConcat(a[1..], b, valid);
      var c := a + b;
      assert c[0] == a[0] && c[1..] == a[1..] + b;
    }
  }

  lemma {:induction false} CitedIs(word: char -> bool, ts: seq<string>, valid: set<string>)
    ensures Cited(Claims(word, Kept(word, ts, valid), valid)) == Keep(CitesOfAll(word, ts), valid)
  {
    if ts != [] {
      var last, before := ts[|ts| - 1], Kept(word, ts[..|ts| - 1], valid);
      CitedIs(word, ts[..|ts| - 1], valid);
      KeepConcat(CitesOfAll(word, ts[..|ts| - 1]), Cites(word, last), valid);
      assert (before + [last])[..|before|] == before && before + [] == before;
      var claims := Claims(word, before, valid);
      var claim := Claim(|before| + 1, last, Supported(word, last, valid));
      assert (claims + [claim])[..|claims|] == claims;
    }
  }

  /** The claims of a verified answer are supported by exactly the valid ids it cites, in order. */
  lemma VerifiedCites(word: char -> bool, raw: string, valid: set<string>)
    requires Proper(word)
    ensures var v := Verified(word, raw, valid);
      && Cited(v.claims) == Keep(Cites(word, raw), valid)
      && (v.insufficient <==> Keep(Cites(word, raw), valid) == [])
  {
    var ts := Sentences(raw);
    CitesOfSentences(word, raw);
    CitedIs(word, ts, valid);
    var kept := Kept(word, ts, valid);
    if kept != [] {
      var last := kept[|kept| - 1];
      KeptMembers(word, ts, valid);
      assert last in kept;
      var claims := Claims(word, kept, valid);
      assert claims[|claims| - 1].supportedBy == Supported(word, last, valid);
    }
  }

  // ---------------------------------------------------------------- said of the text alone

  /** From `i` to `n` stands a citation: an id of word characters and hyphens in brackets. */
  ghost predicate IsCitation(word: char -> bool, s: string, i: nat, n: nat) {
    && i + 1 < n < |s| && s[i] == '[' && s[n] == ']'
    && forall k {:trigger s[k]} | i < k < n :: word(s[k]) || s[k] == '-'
  }

  /** The ids are those of all citations from `from` on, at the places `starts`, in order. */
  ghost predicate AllCitations(word: char -> bool, s: string, from: nat, ids: seq<string>, starts: seq<nat>) {
    CitedInOrder(word, s, from, ids, starts) && NoneMissed(word, s, from, starts)
  }

  ghost predicate CitedInOrder(word: char -> bool, s: string, from: nat, ids: seq<string>, starts: seq<nat>) {
    && |starts| == |ids| && (forall i, j | 0 <= i < j < |starts| :: starts[i] < starts[j])
    && forall k | 0 <= k < |starts| :: from <= starts[k] && CitedAt(word, s, starts[k], ids[k])
  }

  ghost predicate NoneMissed(word: char -> bool, s: string, from: nat, starts: seq<nat>) {
    forall i, n | from <= i && IsCitation(word, s, i, n) :: i in starts
  }

  ghost predicate CitedAt(word: char -> bool, s: string, i: nat, id: string) {
    exists n: nat :: IsCitation(word, s, i, n) && id == s[i + 1..n]
  }

  lemma CiteAtIff(word: char -> bool, s: string, i: nat, n: nat)
    requires Proper(word) && i < |s|
    ensures CiteAt(word, s, i) == Some(n) <==> IsCitation(word, s, i, n)
  {
    if IsCitation(word, s, i, n) { IdEndIs(word, s, i + 1, n); }
  }

  /** Inside a citation no other one starts. */
  lemma NoneInside(word: char -> bool, s: string, i: nat, n: nat, j: nat, m: nat)
    requires Proper(word) && IsCitation(word, s, i, n) && i < j <= n
    ensures !IsCitation(word, s, j, m)
  {
  }

  /** What `findall` finds: every citation, in order, and nothing else. */
  lemma {:induction false} CitesAreAll(word: char -> bool, s: string, from: nat) returns (starts: seq<nat>)
    requires Proper(word) && from <= |s|
    ensures AllCitations(word, s, from, CitesFrom(word, s, from), starts)
    decreases |s| - from
  {
    if from == |s| {
      starts := [];
    } else {
      var next := NextFrom(word, s, from);
      var rest := CitesAreAll(word, s, next);
      if CiteAt(word, s, from).Some? {
        starts := [from] + rest;
        CitationFirst(word, s, from, CiteAt(word, s, from).value, rest);
      } else {
        starts := rest;
        forall n ensures !IsCitation(word, s, from, n) {
          if IsCitation(word, s, from, n) { CiteAtIff(word, s, from, n); }
        }
      }
    }
  }

  lemma CitationFirst(word: char -> bool, s: string, from: nat, n: nat, rest: seq<nat>)
    requires Proper(word) && from < |s| && CiteAt(word, s, from) == Some(n)
    requires AllCitations(word, s, n + 1, CitesFrom(word, s, n + 1), rest)
    ensures AllCitations(word, s, from, CitesFrom(word, s, from), [from] + rest)
  {
    CiteAtIff(word, s, from, n);
    assert CitedAt(word, s, from, s[from + 1..n]);
    PrependCitation(word, s, from, n, CitesFrom(word, s, n + 1), rest);
    PrependMissesNone(word, s, from, n, rest);
  }

  lemma PrependCitation(word: char -> bool, s: string, from: nat, n: nat, ids: seq<string>, rest: seq<nat>)
    requires Proper(word) && IsCitation(word, s, from, n) && CitedAt(word, s, from, s[from + 1..n])
    requires CitedInOrder(word, s, n + 1, ids, rest)
    ensures CitedInOrder(word, s, from, [s[from + 1..n]] + ids, [from] + rest)
  {
    var starts, more := [from] + rest, [s[from + 1..n]] + ids;
    forall k | 0 < k < |starts| ensures starts[k] == rest[k - 1] && more[k] == ids[k - 1] {}
  }

  lemma PrependMissesNone(word: char -> bool, s: string, from: nat, n: nat, rest: seq<nat>)
    requires Proper(word) && IsCitation(word, s, from, n) && NoneMissed(word, s, n + 1, rest)
    ensures NoneMissed(word, s, from, [from] + rest)
  {
    forall i, m | from <= i && IsCitation(word, s, i, m) ensures i in [from] + rest {
      if from < i <= n { NoneInside(word, s, from, n, i, m); }
    }
  }

  /** An end mark with white space behind it. */
  predicate EndsInside(t: string, k: nat) {
    0 < k < |t| && (t[k - 1] == '.' || t[k - 1] == '!' || t[k - 1] == '?') && IsSpace(t[k])
  }

  /**
   The sentences of an answer: none has an end mark with white space behind it, all but the
   last end in an end mark, and together they are the answer up to white space.
   */
  lemma SentencesOfText(s: string)
    ensures var ts := Sentences(s);
      && (forall i | 0 <= i < |ts| :: ts[i] != "" && forall k :: !EndsInside(ts[i], k))
      && (forall i | 0 <= i < |ts| - 1 :: ts[i][|ts[i]| - 1] in {'.', '!', '?'})
      && Solid(Join(ts, " ")) == Solid(s)
  {
    var ts := Sentences(s);
    SentencesAre(s);
    forall i | 0 <= i < |ts| ensures ts[i] != "" && forall k :: !EndsInside(ts[i], k) {
      assert IsSentence(ts[i]);
      assert forall k :: EndsInside(ts[i], k) <==> BreakAt(ts[i], k);
    }
    forall i | 0 <= i < |ts| - 1 ensures ts[i][|ts[i]| - 1] in {'.', '!', '?'} { assert IsClosed(ts[i]); }
    SentencesKeepText(s);
  }

  lemma SolidOfStrip(s: string)
    ensures Solid(Strip(s)) == Solid(s)
  {
    if Strip(s) == "" {
      SolidBlank(s);
    } else {
      StripIs(s);
      var a, b := Lead(s), Trimmed(s);
      assert s == s[..a] + s[a..b] + s[b..];
      SolidBlank(s[..a]);
      SolidConcat(s[..a], s[a..b]);
      SolidConcat(s[..a] + s[a..b], s[b..]);
      SolidBlank(s[b..]);
    }
  }

  lemma {:induction false} SolidJoinCons(t: string, ts: seq<string>)
    ensures Solid(Join([t] + ts, " ")) == Solid(t) + Solid(Join(ts, " "))
  {
    SpaceFacts();
    assert ([t] + ts)[1..] == ts;
    if ts == [] {
      assert Join([t], " ") == t;
    } else {
      SolidConcat(t, " ");
      SolidBlank(" ");
      SolidConcat(t + " ", Join(ts, " "));
    }
  }

  lemma SolidAround(a: string, b: string, c: string)
    requires Blank(b)
    ensures Solid(a + b + c) == Solid(a) + Solid(c)
  {
    SolidBlank(b);
    SolidConcat(a, b);
    SolidConcat(a + b, c);
  }

  lemma InThree(s: string, n: nat, m: nat)
    requires n <= m <= |s|
    ensures s == s[..n] + s[n..m] + s[m..]
  {
  }

  /** The text before and after a break, put together, is the text without white space. */
  lemma BreakKeepsText(s: string, n: nat)
    requires n == FirstBreak(s, 0) && n < |s|
    ensures Solid(s) == Solid(s[..n]) + Solid(s[SkipSpaces(s, n)..])
  {
    var m := SkipSpaces(s, n);
    var gap := s[n..m];
    assert Blank(gap);
    InThree(s, n, m);
    SolidAround(s[..n], gap, s[m..]);
  }

  lemma {:induction false} SentencesKeepText(s: string)
    ensures Solid(Join(Sentences(s), " ")) == Solid(s)
    decreases |s|
  {
    var n := FirstBreak(s, 0);
    if n == |s| {
      OnePiece(s);
      SolidOfStrip(s);
    } else {
      var rest := s[SkipSpaces(s, n)..];
      SentencesKeepText(rest);
      PieceCloses(s, n);
      FirstPiece(s, n);
      SolidJoinCons(Strip(s[..n]), Sentences(rest));
      SolidOfStrip(s[..n]);
      BreakKeepsText(s, n);
    }
  }

  // ---------------------------------------------------------------- what is kept

  /** The sentence cites something valid. */
  ghost predicate CitesValid(word: char -> bool, t: string, valid: set<string>) {
    exists id :: id in Cites(word, t) && id in valid
  }

  /** A claim: its sentence, its number, and the valid ids the sentence cites, at least one. */
  ghost predicate IsClaim(word: char -> bool, c: Claim, k: nat, t: string, valid: set<string>) {
    && c.number == k + 1 && c.text == t && c.supportedBy != []
    && forall id :: multiset(c.supportedBy)[id] == if id in valid then multiset(Cites(word, t))[id] else 0
  }

  /** The sentences at the places `at`, in order, and no others, cite something valid. */
  ghost predicate KeptAt(word: char -> bool, ts: seq<string>, valid: set<string>, kept: seq<string>, at: seq<nat>) {
    && |at| == |kept| && (forall i, j | 0 <= i < j < |at| :: at[i] < at[j])
    && (forall k | 0 <= k < |at| :: at[k] < |ts| && kept[k] == ts[at[k]])
    && (forall i | 0 <= i < |ts| :: CitesValid(word, ts[i], valid) <==> i in at)
  }

  lemma SupportedIff(word: char -> bool, t: string, valid: set<string>)
    ensures Supported(word, t, valid) != [] <==> CitesValid(word, t, valid)
    ensures var ids := multiset(Supported(word, t, valid));
      forall id :: ids[id] == if id in valid then multiset(Cites(word, t))[id] else 0
  {
    forall id
      ensures multiset(Supported(word, t, valid))[id] == if id in valid then multiset(Cites(word, t))[id] else 0
      ensures id in Supported(word, t, valid) <==> id in Cites(word, t) && id in valid
    {
      KeepMembers(Cites(word, t), valid, id);
    }
    if Supported(word, t, valid) != [] { assert Supported(word, t, valid)[0] in Supported(word, t, valid); }
  }

  lemma {:induction false} KeptPlaces(word: char -> bool, ts: seq<string>, valid: set<string>) returns (at: seq<nat>)
    ensures KeptAt(word, ts, valid, Kept(word, ts, valid), at)
  {
    if ts == [] {
      at := [];
    } else {
      var n := |ts| - 1;
      assert ts[..n + 1] == ts;
      KeptOneMore(word, ts, n, valid);
      SupportedIff(word, ts[n], valid);
      at := KeptPlaces(word, ts[..n], valid);
      PlacesOneMore(word, ts, valid, Kept(word, ts[..n], valid), at);
      if CitesValid(word, ts[n], valid) { at := at + [n]; }
    }
  }

  lemma PlacesOneMore(word: char -> bool, ts: seq<string>, valid: set<string>, kept: seq<string>, at: seq<nat>)
    requires ts != [] && KeptAt(word, ts[..|ts| - 1], valid, kept, at)
    ensures var n := |ts| - 1;
      if CitesValid(word, ts[n], valid) then KeptAt(word, ts, valid, kept + [ts[n]], at + [n])
      else KeptAt(word, ts, valid, kept, at)
  {
    var n := |ts| - 1;
    forall i | 0 <= i < n ensures CitesValid(word, ts[i], valid) <==> i in at { assert ts[..n][i] == ts[i]; }
    assert n !in at;
    assert forall i :: i in at + [n] <==> i in at || i == n;
  }

  lemma {:induction false} ClaimsAre(word: char -> bool, kept: seq<string>, valid: set<string>)
    requires forall t | t in kept :: Supported(word, t, valid) != []
    ensures |Claims(word, kept, valid)| == |kept|
    ensures forall k | 0 <= k < |kept| :: IsClaim(word, Claims(word, kept, valid)[k], k, kept[k], valid)
  {
    if kept != [] {
      var n := |kept| - 1;
      assert kept == kept[..n] + [kept[n]];
      ClaimsAre(word, kept[..n], valid);
      SupportedIff(word, kept[n], valid);
    }
  }

  /** The sentences at the given places. */
  function Picked(ts: seq<string>, at: seq<nat>): (r: seq<string>)
    requires forall k | 0 <= k < |at| :: at[k] < |ts|
    ensures |r| == |at| && forall k | 0 <= k < |at| :: r[k] == ts[at[k]]
  {
    seq(|at|, k requires 0 <= k < |at| => ts[at[k]])
  }

  /**
   What verification makes of an answer: one numbered claim for each sentence that cites
   something valid, in order, the text of these sentences, and their share as confidence.
   */
  lemma VerifiedKeeps(word: char -> bool, raw: string, valid: set<string>) returns (at: seq<nat>)
    ensures var v, ts := Verified(word, raw, valid), Sentences(raw);
      && |at| == |v.claims| && (forall i, j | 0 <= i < j < |at| :: at[i] < at[j])
      && (forall k | 0 <= k < |at| :: at[k] < |ts| && IsClaim(word, v.claims[k], k, ts[at[k]], valid))
      && (forall i | 0 <= i < |ts| :: CitesValid(word, ts[i], valid) <==> i in at)
      && (v.insufficient <==> at == []) && v.text == Join(Picked(ts, at), " ")
      && v.confidence == (if at == [] then 0.0 else |at| as real / |ts| as real)
  {
    var ts := Sentences(raw);
    var kept := Kept(word, ts, valid);
    at := KeptPlaces(word, ts, valid);
    KeptMembers(word, ts, valid);
    ClaimsAre(word, kept, valid);
    assert Picked(ts, at) == kept;
  }
}
