/** Which targets an engagement covers. */
module Engagements {
  import opened Text

  predicate EndsWith(s: string, suffix: string) {
    |suffix| <= |s| && s[|s| - |suffix|..] == suffix
  }

  /** `lower` is the library's case mapping, any function here. */
  function Normalise(lower: string -> string, target: string): string {
    lower(Strip(target))
  }

  predicate TargetInScope(lower: string -> string, engagementTarget: string, requestedTarget: string) {
    var e, r := Normalise(lower, engagementTarget), Normalise(lower, requestedTarget);
    r == e || EndsWith(r, "." + e)
  }

  // ---------------------------------------------------------------- labels

  function DotFrom(s: string, i: nat): (n: nat)
    requires i <= |s|
    ensures i <= n <= |s| && (forall k | i <= k < n :: s[k] != '.') && (n < |s| ==> s[n] == '.')
    decreases |s| - i
  {
    if i < |s| && s[i] != '.' then DotFrom(s, i + 1) else i
  }

  /** The dot-separated labels of a target. */
  function Labels(s: string): (r: seq<string>)
    ensures r != []
    decreases |s|
  {
    var n := DotFrom(s, 0);
    if n == |s| then [s] else [s[..n]] + Labels(s[n + 1..])
  }

  lemma {:induction false} JoinLabels(s: string)
    ensures Join(Labels(s), ".") == s
    decreases |s|
  {
    var n := DotFrom(s, 0);
    if n < |s| {
      var rest := Labels(s[n + 1..]);
      JoinLabels(s[n + 1..]);
      assert ([s[..n]] + rest)[1..] == rest;
      assert s == s[..n] + "." + s[n + 1..];
    }
  }

  lemma DotFromIs(s: string, i: nat, n: nat)
    requires i <= n <= |s| && (forall k | i <= k < n :: s[k] != '.') && (n < |s| ==> s[n] == '.')
    ensures DotFrom(s, i) == n
  {
  }

  lemma FirstLabel(s: string, n: nat)
    requires n == DotFrom(s, 0) && n < |s|
    ensures Labels(s) == [s[..n]] + Labels(s[n + 1..])
  {
  }

  /** Cutting out position `n` of two targets joined by a dot. */
  lemma CutAt(p: string, e: string, n: nat)
    requires n <= |p|
    ensures var s := p + "." + e;
      s[..n] == p[..n] && s[n + 1..] == if n == |p| then e else p[n + 1..] + "." + e
    ensures p[..|p|] == p
  {
  }

  lemma FirstDot(p: string, e: string)
    ensures DotFrom(p + "." + e, 0) == DotFrom(p, 0)
  {
    var s := p + "." + e;
    assert forall k | 0 <= k < |p| :: s[k] == p[k];
    DotFromIs(s, 0, DotFrom(p, 0));
  }

  /** The labels of two targets joined by a dot are those of the one followed by those of the other. */
  lemma {:induction false} LabelsOfJoined(p: string, e: string)
    ensures Labels(p + "." + e) == Labels(p) + Labels(e)
    decreases |p|
  {
    var n := DotFrom(p, 0);
    FirstDot(p, e);
    CutAt(p, e, n);
    FirstLabel(p + "." + e, n);
    if n < |p| {
      FirstLabel(p, n);
      LabelsOfJoined(p[n + 1..], e);
      Regroup([p[..n]], Labels(p[n + 1..]), Labels(e));
    }
  }

  lemma Regroup(a: seq<string>, b: seq<string>, c: seq<string>)
    ensures a + (b + c) == a + b + c
  {
  }

  lemma {:induction false} JoinConcat(a: seq<string>, b: seq<string>)
    requires a != [] && b != []
    ensures Join(a + b, ".") == Join(a, ".") + "." + Join(b, ".")
  {
    assert (a + b)[1..] == a[1..] + b;
    if |a| > 1 { JoinConcat(a[1..], b); }
  }

  // ---------------------------------------------------------------- scope

  predicate IsSuffix(suffix: seq<string>, s: seq<string>) {
    |suffix| <= |s| && s[|s| - |suffix|..] == suffix
  }

  lemma SuffixGivesLabels(r: string, e: string)
    requires r == e || EndsWith(r, "." + e)
    ensures IsSuffix(Labels(e), Labels(r))
  {
    if r != e {
      var p := r[..|r| - |e| - 1];
      assert r == p + "." + e;
      LabelsOfJoined(p, e);
    }
  }

  lemma BehindDot(p: string, e: string)
    ensures EndsWith(p + "." + e, "." + e)
  {
    assert p + "." + e == p + ("." + e);
  }

  lemma LabelsGiveSuffix(r: string, e: string)
    requires IsSuffix(Labels(e), Labels(r))
    ensures r == e || EndsWith(r, "." + e)
  {
    var front := Labels(r)[..|Labels(r)| - |Labels(e)|];
    assert Labels(r) == front + Labels(e);
    JoinLabels(r);
    JoinLabels(e);
    if front != [] {
      JoinConcat(front, Labels(e));
      BehindDot(Join(front, "."), e);
    }
  }

  /** A request is in scope exactly when the labels of the engagement's target are the last labels of the request's. */
  lemma InScopeIffLabelSuffix(lower: string -> string, engagement: string, request: string)
    ensures TargetInScope(lower, engagement, request) <==>
      IsSuffix(Labels(Normalise(lower, engagement)), Labels(Normalise(lower, request)))
  {
    var e, r := Normalise(lower, engagement), Normalise(lower, request);
    if TargetInScope(lower, engagement, request) { SuffixGivesLabels(r, e); }
    if IsSuffix(Labels(e), Labels(r)) { LabelsGiveSuffix(r, e); }
  }

  lemma SuffixAntisymmetric(x: seq<string>, y: seq<string>)
    requires IsSuffix(x, y) && IsSuffix(y, x)
    ensures x == y
  {
    assert y[0..] == y;
  }

  lemma SuffixTransitive(x: seq<string>, y: seq<string>, z: seq<string>)
    requires IsSuffix(x, y) && IsSuffix(y, z)
    ensures IsSuffix(x, z)
  {
    assert z[|z| - |x|..] == z[|z| - |y|..][|y| - |x|..];
  }

  lemma LabelsInjective(a: string, b: string)
    requires Labels(a) == Labels(b)
    ensures a == b
  {
    JoinLabels(a);
    JoinLabels(b);
  }

  lemma ScopeAntisymmetric(lower: string -> string, a: string, b: string)
    requires TargetInScope(lower, a, b) && TargetInScope(lower, b, a)
    ensures Normalise(lower, a) == Normalise(lower, b)
  {
    InScopeIffLabelSuffix(lower, a, b);
    InScopeIffLabelSuffix(lower, b, a);
    SuffixAntisymmetric(Labels(Normalise(lower, a)), Labels(Normalise(lower, b)));
    LabelsInjective(Normalise(lower, a), Normalise(lower, b));
  }

  lemma ScopeTransitive(lower: string -> string, a: string, b: string, c: string)
    requires TargetInScope(lower, a, b) && TargetInScope(lower, b, c)
    ensures TargetInScope(lower, a, c)
  {
    InScopeIffLabelSuffix(lower, a, b);
    InScopeIffLabelSuffix(lower, b, c);
    InScopeIffLabelSuffix(lower, a, c);
    SuffixTransitive(Labels(Normalise(lower, a)), Labels(Normalise(lower, b)), Labels(Normalise(lower, c)));
  }

  /** Scope is a partial order on normalised targets. */
  lemma ScopeIsPartialOrder(lower: string -> string, a: string, b: string, c: string)
    ensures TargetInScope(lower, a, a)
    ensures TargetInScope(lower, a, b) && TargetInScope(lower, b, a) ==> Normalise(lower, a) == Normalise(lower, b)
    ensures TargetInScope(lower, a, b) && TargetInScope(lower, b, c) ==> TargetInScope(lower, a, c)
  {
    if TargetInScope(lower, a, b) && TargetInScope(lower, b, a) { ScopeAntisymmetric(lower, a, b); }
    if TargetInScope(lower, a, b) && TargetInScope(lower, b, c) { ScopeTransitive(lower, a, b, c); }
  }

  // ---------------------------------------------------------------- white space and case

  /** `core` stands in `s` at position `n`, itself without outer white space, and all around it is white space. */
  ghost predicate IsCore(s: string, n: nat, core: string) {
    && n + |core| <= |s| && s[n..n + |core|] == core
    && (forall k | 0 <= k < n || n + |core| <= k < |s| :: IsSpace(s[k]))
    && (core != "" ==> !IsSpace(core[0]) && !IsSpace(core[|core| - 1]))
  }

  lemma StripsToCore(s: string, n: nat, core: string)
    requires IsCore(s, n, core)
    ensures Strip(s) == core
  {
    if core == "" {
      assert Blank(s);
    } else {
      assert s[n] == core[0] && s[n + |core| - 1] == core[|core| - 1];
      assert !Blank(s);
      StripIs(s);
      assert Lead(s) == n && Trimmed(s) == n + |core|;
    }
  }

  /**
   Outer white space and case make no difference to scope: it depends on the lower-case
   cores alone, and holds when the request is the engagement's target or ends in a dot and it.
   */
  lemma ScopeIsOfCores(lower: string -> string, e: string, i: nat, a: string, r: string, j: nat, b: string)
    requires IsCore(e, i, a) && IsCore(r, j, b)
    ensures TargetInScope(lower, e, r) <==> lower(b) == lower(a) || exists p :: lower(b) == p + "." + lower(a)
  {
    StripsToCore(e, i, a);
    StripsToCore(r, j, b);
    var x, y := lower(a), lower(b);
    if EndsWith(y, "." + x) { assert y == y[..|y| - |x| - 1] + "." + x; }
    if p :| y == p + "." + x { BehindDot(p, x); }
  }
}
