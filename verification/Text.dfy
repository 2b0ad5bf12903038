/** Python's string primitives, on sequences of characters. */
module Text {
  import opened Prelude

  /** The code points of Python's white space, as ranges. */
  const SPACE_RANGES: seq<(int, int)> := [
    (0x09, 0x0d), (0x1c, 0x20), (0x85, 0x85), (0xa0, 0xa0), (0x1680, 0x1680), (0x2000, 0x200a),
    (0x2028, 0x2029), (0x202f, 0x202f), (0x205f, 0x205f), (0x3000, 0x3000)]

  predicate InRanges(n: int, from: nat)
    decreases |SPACE_RANGES| - from
  {
    from < |SPACE_RANGES| && (SPACE_RANGES[from].0 <= n <= SPACE_RANGES[from].1 || InRanges(n, from + 1))
  }

  /** `str.isspace`, which is also what `\s` matches. */
  predicate IsSpace(c: char) {
    InRanges(c as int, 0)
  }

  lemma {:induction false} PrintableAscii(n: int, from: nat)
    requires 0x21 <= n <= 0x84
    ensures !InRanges(n, from)
    decreases |SPACE_RANGES| - from
  {
    if from < |SPACE_RANGES| { PrintableAscii(n, from + 1); }
  }

  lemma SpaceFacts()
    ensures IsSpace('\n') && IsSpace(' ')
    ensures forall c: char | '!' <= c <= '~' :: !IsSpace(c)
  {
    assert InRanges(' ' as int, 1);
    forall c: char | '!' <= c <= '~' ensures !IsSpace(c) { PrintableAscii(c as int, 0); }
  }

  predicate Blank(s: string) {
    forall i | 0 <= i < |s| :: IsSpace(s[i])
  }

  /** The first position from `i` on that does not hold a space. */
  function SkipSpaces(s: string, i: nat): (n: nat)
    requires i <= |s|
    ensures i <= n <= |s| && (forall k | i <= k < n :: IsSpace(s[k])) && (n < |s| ==> !IsSpace(s[n]))
    decreases |s| - i
  {
    if i < |s| && IsSpace(s[i]) then SkipSpaces(s, i + 1) else i
  }

  /** Where the spaces that end at `i` start. */
  function DropSpaces(s: string, i: nat): (n: nat)
    requires i <= |s|
    ensures n <= i && (forall k | n <= k < i :: IsSpace(s[k])) && (n > 0 ==> !IsSpace(s[n - 1]))
  {
    if i > 0 && IsSpace(s[i - 1]) then DropSpaces(s, i - 1) else i
  }

  /** The number of leading spaces. */
  function Lead(s: string): nat {
    SkipSpaces(s, 0)
  }

  /** The length without trailing spaces. */
  function Trimmed(s: string): nat {
    DropSpaces(s, |s|)
  }

  /** Both ends stripped: what is left, if anything, starts and ends with a non-space. */
  function Strip(s: string): (r: string)
    ensures Blank(s) <==> r == ""
    ensures r != "" ==> !IsSpace(r[0]) && !IsSpace(r[|r| - 1])
  {
    if Lead(s) == |s| then "" else s[Lead(s)..Trimmed(s)]
  }

  /** Where a non-blank string's stripped form sits in it. */
  lemma StripIs(s: string)
    requires Strip(s) != ""
    ensures Lead(s) < Trimmed(s) <= |s| && Strip(s) == s[Lead(s)..Trimmed(s)]
    ensures forall k | 0 <= k < Lead(s) || Trimmed(s) <= k < |s| :: IsSpace(s[k])
  {
  }

  lemma StripIdempotent(s: string)
    requires s != "" && !IsSpace(s[0]) && !IsSpace(s[|s| - 1])
    ensures Strip(s) == s
  {
    assert Lead(s) == 0 && Trimmed(s) == |s|;
  }

  /** The characters that are not spaces. */
  function Solid(s: string): string {
    if s == "" then "" else (if IsSpace(s[0]) then "" else [s[0]]) + Solid(s[1..])
  }

  lemma {:induction false} SolidConcat(a: string, b: string)
    ensures Solid(a + b) == Solid(a) + Solid(b)
  {
    if a == "" {
      assert a + b == b;
    } else {
      assert (a + b)[1..] == a[1..] + b;
      SolidConcat(a[1..], b);
    }
  }

  lemma {:induction false} SolidBlank(s: string)
    requires Blank(s)
    ensures Solid(s) == ""
  {
    if s != "" { SolidBlank(s[1..]); }
  }

  predicate At(s: string, sub: string, i: nat) {
    i + |sub| <= |s| && s[i..i + |sub|] == sub
  }

  /** `str.index(sub, pos)`: the first occurrence at or after `pos`; none stands for the exception. */
  function IndexFrom(s: string, sub: string, pos: nat): (r: Option<nat>)
    ensures r.Some? ==> pos <= r.value && At(s, sub, r.value) && forall i | pos <= i < r.value :: !At(s, sub, i)
    ensures r.None? ==> forall i | pos <= i :: !At(s, sub, i)
    decreases |s| - pos
  {
    if pos + |sub| > |s| then None
    else if At(s, sub, pos) then Some(pos)
    else IndexFrom(s, sub, pos + 1)
  }

  /** `sep.join(parts)` */
  function Join(parts: seq<string>, sep: string): string {
    if parts == [] then "" else if |parts| == 1 then parts[0]
    else parts[0] + sep + Join(parts[1..], sep)
  }

  lemma {:induction false} JoinSnoc(parts: seq<string>, sep: string, last: string)
    requires parts != []
    ensures Join(parts + [last], sep) == Join(parts, sep) + sep + last
  {
    assert (parts + [last])[1..] == parts[1..] + [last];
    if |parts| > 1 {
      JoinSnoc(parts[1..], sep, last);
    }
  }
}
