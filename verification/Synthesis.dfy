/** The mock synthesizer prints cited sentences; the verifier reads them back. */
module Synthesis {
  import opened Citations
  import opened Text

  datatype Source = Source(id: string, text: string)

  const MAX_SOURCES := 5
  const SNIPPET_LENGTH := 220
  const NO_ANSWER := "No source answers this question."

  function NewlinesToSpaces(s: string): string {
    seq(|s|, i requires 0 <= i < |s| => if s[i] == '\n' then ' ' else s[i])
  }

  /** `s.rsplit(" ", 1)[0]`, looking for the space before `n`. */
  function BeforeLastSpace(s: string, n: nat): string
    requires n <= |s|
  {
    if n == 0 then s else if s[n - 1] == ' ' then s[..n - 1] else BeforeLastSpace(s, n - 1)
  }

  /** `s.rstrip(".")` */
  function WithoutDots(s: string): string {
    if s != "" && s[|s| - 1] == '.' then WithoutDots(s[..|s| - 1]) else s
  }

  function Snippet(text: string): string {
    var s := NewlinesToSpaces(Strip(text));
    WithoutDots(if |s| > SNIPPET_LENGTH then BeforeLastSpace(s[..SNIPPET_LENGTH], SNIPPET_LENGTH) else s)
  }

  function Sentence(src: Source): string {
    Snippet(src.text) + " [" + src.id + "]."
  }

  function FirstFive(sources: seq<Source>): seq<Source> {
    if |sources| > MAX_SOURCES then sources[..MAX_SOURCES] else sources
  }

  function SentencesFor(sources: seq<Source>): (r: seq<string>)
    ensures |r| == |sources| && forall i | 0 <= i < |r| :: r[i] == Sentence(sources[i])
  {
    seq(|sources|, i requires 0 <= i < |sources| => Sentence(sources[i]))
  }

  lemma OneMoreSentence(sources: seq<Source>, i: nat)
    requires i < |sources|
    ensures SentencesFor(sources[..i + 1]) == SentencesFor(sources[..i]) + [Sentence(sources[i])]
  {
  }

  function Synthesized(sources: seq<Source>): string {
    if sources == [] then NO_ANSWER else Join(SentencesFor(FirstFive(sources)), " ")
  }

  method Synthesize(sources: seq<Source>) returns (r: string)
    ensures r == Synthesized(sources)
  {
    if sources == [] {
      return NO_ANSWER;
    }
    var used := FirstFive(sources);
    var sentences: seq<string> := [];
    for i := 0 to |used|
      invariant sentences == SentencesFor(used[..i])
    {
      OneMoreSentence(used, i);
      var snippet := Snippet(used[i].text);
      sentences := sentences + [snippet + " [" + used[i].id + "]."];
    }
    assert used[..|used|] == used;
    r := Join(sentences, " ");
  }

  /** The answer: one sentence for each of the first five sources, joined with spaces. */
  lemma SynthesizedIs(sources: seq<Source>) returns (ts: seq<string>)
    ensures |ts| == if |sources| < 5 then |sources| else 5
    ensures forall k | 0 <= k < |ts| :: ts[k] == Snippet(sources[k].text) + " [" + sources[k].id + "]."
    ensures Synthesized(sources) == if sources == [] then NO_ANSWER else Join(ts, " ")
  {
    ts := SentencesFor(FirstFive(sources));
  }

  predicate IsGap(c: char) {
    c == ' ' || c == '\n'
  }

  lemma {:induction false} CutAtGap(s: string, n: nat) returns (cut: nat)
    requires n <= |s| && forall k | n <= k < |s| :: s[k] != ' '
    ensures cut <= |s| && BeforeLastSpace(s, n) == s[..cut]
    ensures forall k | cut < k < |s| :: s[k] != ' '
    ensures if cut < |s| then s[cut] == ' ' else s == [] || s[0] != ' '
  {
    if n == 0 {
      cut := |s|;
    } else if s[n - 1] == ' ' {
      cut := n - 1;
    } else {
      cut := CutAtGap(s, n - 1);
    }
  }

  lemma {:induction false} DotsDropped(s: string) returns (end: nat)
    ensures end <= |s| && WithoutDots(s) == s[..end]
    ensures (forall k | end <= k < |s| :: s[k] == '.') && (end > 0 ==> s[end - 1] != '.')
  {
    if s != "" && s[|s| - 1] == '.' {
      end := DotsDropped(s[..|s| - 1]);
    } else {
      end := |s|;
    }
  }

  /** Of more than 220 characters, what stands before the last gap among the first 220, if there is one. */
  ghost predicate IsCut(s: string, cut: nat) {
    if |s| <= 220 then cut == |s| else
      && cut <= 220 && (forall k | cut < k < 220 :: !IsGap(s[k]))
      && (if cut < 220 then IsGap(s[cut]) else !IsGap(s[0]))
  }

  lemma ShortIs(line: string) returns (cut: nat)
    requires forall k | 0 <= k < |line| :: line[k] != '\n'
    ensures IsCut(line, cut) && cut <= |line|
    ensures (if |line| > SNIPPET_LENGTH then BeforeLastSpace(line[..SNIPPET_LENGTH], SNIPPET_LENGTH) else line) ==
      line[..cut]
  {
    cut := |line|;
    if |line| > SNIPPET_LENGTH {
      var front := line[..SNIPPET_LENGTH];
      cut := CutAtGap(front, SNIPPET_LENGTH);
      assert front[..cut] == line[..cut];
      forall k | cut < k < 220 ensures !IsGap(line[k]) { assert front[k] == line[k]; }
      assert cut < 220 ==> front[cut] == line[cut];
      assert front[0] == line[0];
    }
  }

  /** A snippet: the stripped text on one line, cut at a gap, without the full stops at its end. */
  lemma SnippetIs(text: string) returns (cut: nat, end: nat)
    ensures var s, r := Strip(text), Snippet(text);
      && end <= cut <= |s| && IsCut(s, cut) && |r| == end
      && (forall k | 0 <= k < end :: r[k] == if s[k] == '\n' then ' ' else s[k])
      && (forall k | end <= k < cut :: s[k] == '.') && (end > 0 ==> s[end - 1] != '.')
  {
    var s := Strip(text);
    var line := NewlinesToSpaces(s);
    cut := ShortIs(line);
    end := DotsDropped(line[..cut]);
    CutOfLine(s, cut);
    forall k | end <= k < cut ensures s[k] == '.' { assert line[..cut][k] == line[k]; }
  }

  lemma CutOfLine(s: string, cut: nat)
    requires IsCut(NewlinesToSpaces(s), cut)
    ensures IsCut(s, cut)
  {
    var line := NewlinesToSpaces(s);
    if |s| > 220 {
      forall k | cut < k < 220 ensures !IsGap(s[k]) { assert !IsGap(line[k]); }
      assert !IsGap(s[0]) <==> !IsGap(line[0]);
    }
  }

  // ---------------------------------------------------------------- the round trip

  /** What the printed sentences cite: whatever the snippets bracket, each followed by its source's id. */
  function Printed(word: char -> bool, sources: seq<Source>): seq<string> {
    if sources == [] then [] else
    var last := sources[|sources| - 1];
    Printed(word, sources[..|sources| - 1]) + (Cites(word, Snippet(last.text)) + [last.id])
  }

  function Ids(sources: seq<Source>): set<string> {
    set s | s in sources :: s.id
  }

  lemma SpaceJoins(word: char -> bool, a: string, b: string)
    requires Proper(word)
    ensures Cites(word, a + " " + b) == Cites(word, a) + Cites(word, b)
  {
    SpaceFacts();
    var s := a + " " + b;
    assert s[..|a|] == a && s[|a| + 1..] == b;
    CitesAroundSpaces(word, s, |a|, |a| + 1);
  }

  lemma SentenceCites(word: char -> bool, src: Source)
    requires Proper(word) && WellFormedId(word, src.id)
    ensures Cites(word, Sentence(src)) == Cites(word, Snippet(src.text)) + [src.id]
  {
    var a, cite := Snippet(src.text), "[" + src.id + "]" + ".";
    SentenceParts(src);
    SpaceJoins(word, a, cite);
    BracketedId(word, src.id, ".");
  }

  lemma SentenceParts(src: Source)
    ensures Sentence(src) == Snippet(src.text) + " " + ("[" + src.id + "]" + ".")
  {
    assert " [" == " " + "[" && "]." == "]" + ".";
    Regroup(Snippet(src.text), " ", "[", src.id, "]", ".");
  }

  lemma Regroup(a: string, b: string, c: string, d: string, e: string, f: string)
    ensures a + (b + c) + d + (e + f) == a + b + (c + d + e + f)
  {
    assert a + (b + c) == a + b + c;
    assert a + b + c + d == a + b + (c + d);
    assert a + b + (c + d) + (e + f) == a + b + (c + d + e + f);
  }

  lemma {:induction false} JoinCites(word: char -> bool, ts: seq<string>)
    requires Proper(word) && ts != []
    ensures Cites(word, Join(ts, " ")) == CitesOfAll(word, ts)
  {
    var n := |ts| - 1;
    if n > 0 {
      JoinCites(word, ts[..n]);
      assert ts == ts[..n] + [ts[n]];
      JoinSnoc(ts[..n], " ", ts[n]);
      SpaceJoins(word, Join(ts[..n], " "), ts[n]);
    } else {
      assert CitesOfAll(word, ts[..0]) == [];
    }
  }

  lemma {:induction false} PrintedIs(word: char -> bool, sources: seq<Source>)
    requires Proper(word) && forall s | s in sources :: WellFormedId(word, s.id)
    ensures CitesOfAll(word, SentencesFor(sources)) == Printed(word, sources)
  {
    if sources != [] {
      var n := |sources| - 1;
      PrintedIs(word, sources[..n]);
      SentenceCites(word, sources[n]);
      LastSentence(sources);
    }
  }

  lemma LastSentence(sources: seq<Source>)
    requires sources != []
    ensures var n, ts := |sources| - 1, SentencesFor(sources);
      ts[..n] == SentencesFor(sources[..n]) && ts[n] == Sentence(sources[n])
  {
    OneMoreSentence(sources, |sources| - 1);
    assert sources[..|sources|] == sources;
  }

  /** Some snippet brackets `id`. */
  ghost predicate Brackets(word: char -> bool, sources: seq<Source>, id: string) {
    exists s | s in sources :: id in Cites(word, Snippet(s.text))
  }

  lemma MoreSources(word: char -> bool, sources: seq<Source>, last: Source, id: string)
    ensures Ids(sources + [last]) == Ids(sources) + {last.id}
    ensures Brackets(word, sources + [last], id) <==>
            Brackets(word, sources, id) || id in Cites(word, Snippet(last.text))
  {
    assert forall s :: s in sources + [last] <==> s in sources || s == last;
  }

  lemma InConcat(a: seq<string>, b: seq<string>, last: string, id: string)
    ensures id in a + (b + [last]) <==> id in a || id in b || id == last
  {
  }

  lemma PrintedStep(word: char -> bool, sources: seq<Source>, last: Source, id: string)
    ensures id in Printed(word, sources + [last]) <==>
            id in Printed(word, sources) || id in Cites(word, Snippet(last.text)) || id == last.id
  {
    assert (sources + [last])[..|sources|] == sources;
    InConcat(Printed(word, sources), Cites(word, Snippet(last.text)), last.id, id);
  }

  lemma {:induction false} PrintedMembers(word: char -> bool, sources: seq<Source>, id: string)
    ensures id in Printed(word, sources) <==> id in Ids(sources) || Brackets(word, sources, id)
  {
    if sources == [] {
      assert !Brackets(word, sources, id);
    } else {
      var before, last := sources[..|sources| - 1], sources[|sources| - 1];
      assert sources == before + [last];
      PrintedMembers(word, before, id);
      MoreSources(word, before, last, id);
      PrintedStep(word, before, last, id);
    }
  }

  /**
   Print, then verify. Against the ids of the sources, the synthesizer's answer is
   never insufficient; its claims cite each of the first five sources, no id that is
   not a source's, and beyond the first five exactly the ids their snippets bracket.
   */
  lemma RoundTrip(word: char -> bool, sources: seq<Source>, id: string)
    requires Proper(word) && sources != [] && forall s | s in sources :: WellFormedId(word, s.id)
    ensures var v := Verified(word, Synthesized(sources), Ids(sources));
      && !v.insufficient
      && Cited(v.claims) == Keep(Printed(word, FirstFive(sources)), Ids(sources))
      && (id in Ids(FirstFive(sources)) ==> id in Cited(v.claims))
      && (id in Cited(v.claims) ==> id in Ids(sources))
      && (id !in Ids(FirstFive(sources)) ==>
            (id in Cited(v.claims) <==>
             id in Ids(sources) && Brackets(word, FirstFive(sources), id)))
  {
    var used := FirstFive(sources);
    JoinCites(word, SentencesFor(used));
    PrintedIs(word, used);
    VerifiedCites(word, Synthesized(sources), Ids(sources));
    KeepMembers(Printed(word, used), Ids(sources), id);
    PrintedMembers(word, used, id);
    var first := used[0].id;
    assert used[0] in sources && first in Ids(used);
    PrintedMembers(word, used, first);
    KeepMembers(Printed(word, used), Ids(sources), first);
    forall s | s in used ensures s.id in Ids(sources) { assert s in sources; }
  }

  /** An answer without brackets, such as the one given without sources, is insufficient. */
  lemma NoBracketInsufficient(word: char -> bool, raw: string, valid: set<string>)
    requires Proper(word) && '[' !in raw
    ensures Verified(word, raw, valid) == INSUFFICIENT
  {
    BlankCitesNothing(word, raw, 0, |raw|);
    VerifiedCites(word, raw, valid);
  }

  const SIX_SOURCES := [
    Source("a", "[f]"), Source("b", "x"), Source("c", "x"), Source("d", "x"), Source("e", "x"), Source("f", "y")]

  /** The snippet "[f]" of the first source has the sixth cited as well. */
  lemma SixthSourceCited(word: char -> bool)
    requires Proper(word) && forall c | 'a' <= c <= 'f' :: word(c)
    ensures "f" !in Ids(FirstFive(SIX_SOURCES))
    ensures "f" in Cited(Verified(word, Synthesized(SIX_SOURCES), Ids(SIX_SOURCES)).claims)
  {
    var used := FirstFive(SIX_SOURCES);
    forall s | s in SIX_SOURCES ensures WellFormedId(word, s.id) {
      assert s.id in {"a", "b", "c", "d", "e", "f"};
    }
    forall s | s in used ensures s.id != "f" { assert s.id in {"a", "b", "c", "d", "e"}; }
    BracketSnippet();
    BracketedId(word, "f", "");
    assert "[" + "f" + "]" + "" == "[f]";
    assert used[0] in used && Brackets(word, used, "f");
    assert SIX_SOURCES[5] in SIX_SOURCES && "f" in Ids(SIX_SOURCES);
    RoundTrip(word, SIX_SOURCES, "f");
  }

  lemma BracketSnippet()
    ensures Snippet("[f]") == "[f]"
  {
    SpaceFacts();
    StripIdempotent("[f]");
    assert NewlinesToSpaces("[f]") == "[f]";
  }
}
