/** How units of given token counts are packed into overlapping windows. */
module Windows {

  /** Units `start` up to, not including, `end`. */
  datatype Window = Window(start: nat, end: nat)

  /** `tokens[i]` is the count of unit `i`. */
  datatype Packing = Packing(tokens: seq<nat>, target: int, max: int, ratio: real) {

    function Sum(i: nat, j: nat): nat
      requires i <= j <= |tokens|
      decreases j
    {
      if i == j then 0 else Sum(i, j - 1) + tokens[j - 1]
    }

    /** Where a window that holds `held` tokens of units before `j` ends. */
    function Extend(j: nat, held: nat): (end: nat)
      requires j <= |tokens|
      ensures j <= end <= |tokens| && (held == 0 && j < |tokens| ==> j < end)
      decreases |tokens| - j
    {
      if j == |tokens| || (held > 0 && held + tokens[j] > max) then j
      else if held + tokens[j] >= target then j + 1
      else Extend(j + 1, held + tokens[j])
    }

    /** How many units the next window repeats, having taken `back` with `overlap` tokens so far. */
    function BackUp(w: Window, budget: real, back: nat, overlap: nat): (b: nat)
      requires back < w.end - w.start && w.end <= |tokens|
      ensures back <= b <= w.end - w.start - 1
      decreases w.end - w.start - back
    {
      var u := tokens[w.end - 1 - back];
      if back >= w.end - w.start - 1 then back
      else if (overlap + u) as real > budget && back > 0 then back
      else BackUp(w, budget, back + 1, overlap + u)
    }

    function Overlap(w: Window): (b: nat)
      requires w.start < w.end <= |tokens|
      ensures b < w.end - w.start
    {
      BackUp(w, Budget(w), 0, 0)
    }

    /** The tokens a window may repeat of the one before it. */
    function Budget(w: Window): real
      requires w.start <= w.end <= |tokens|
    {
      Sum(w.start, w.end) as real * ratio
    }

    /** All windows from unit `i` on. */
    function WindowsFrom(i: nat): (ws: seq<Window>)
      requires i < |tokens|
      ensures ws != [] && ws[0] == Window(i, Extend(i, 0))
      decreases |tokens| - i
    {
      var w := Window(i, Extend(i, 0));
      if w.end == |tokens| then [w] else [w] + WindowsFrom(w.end - Overlap(w))
    }

    // -------------------------------------------------------------- sums

    lemma {:induction false} SumSplit(i: nat, k: nat, j: nat)
      requires i <= k <= j <= |tokens|
      ensures Sum(i, j) == Sum(i, k) + Sum(k, j)
      decreases j
    {
      if k < j { SumSplit(i, k, j - 1); }
    }

    /** With `SumSplit` this says what the sum of any stretch of units is. */
    lemma SumOne(i: nat)
      requires i < |tokens|
      ensures Sum(i, i) == 0 && Sum(i, i + 1) == tokens[i]
    {
      assert Sum(i, i + 1) == Sum(i, i) + tokens[i];
    }

    // -------------------------------------------------------------- where windows end

    /** A window that starts later, hence holds less at each unit, ends no earlier. */
    lemma {:induction false} HoldingLessEndsLater(j: nat, less: nat, more: nat)
      requires j <= |tokens| && less <= more
      ensures Extend(j, more) <= Extend(j, less)
      decreases |tokens| - j
    {
      if j < |tokens| && !(more > 0 && more + tokens[j] > max) && more + tokens[j] < target {
        HoldingLessEndsLater(j + 1, less + tokens[j], more + tokens[j]);
      }
    }

    /** Every unit before the end of a window was reached with the sum of those before it. */
    lemma {:induction false} Reached(i: nat, k: nat)
      requires i <= k <= |tokens| && k < Extend(i, 0)
      ensures Extend(k, Sum(i, k)) == Extend(i, 0)
      ensures i < k ==> Sum(i, k) < target
      decreases k
    {
      if i < k {
        Reached(i, k - 1);
      }
    }

    /** Holding less, a window passes every unit up to `j` the other one passed, unless it meets the target there. */
    lemma {:induction false} PassesAlike(k: nat, less: nat, more: nat, j: nat)
      requires k < j <= |tokens| && less <= more && Extend(k, more) == j
      ensures Extend(k, less) == if less + Sum(k, j) >= target then j else Extend(j, less + Sum(k, j))
      decreases |tokens| - k
    {
      SumSplit(k, k + 1, j);
      assert Sum(k, k + 1) == Sum(k, k) + tokens[k];
      if more + tokens[k] < target && k + 1 < j {
        PassesAlike(k + 1, less + tokens[k], more + tokens[k], j);
      }
    }

    lemma {:induction false} HeldWithinMax(j: nat, held: nat, i: nat)
      requires i <= j <= |tokens| && held == Sum(i, j) && held <= max
      requires forall k | 0 <= k < |tokens| :: tokens[k] <= max
      ensures Sum(i, Extend(j, held)) <= max
      decreases |tokens| - j
    {
      if j < |tokens| && !(held > 0 && held + tokens[j] > max) {
        assert Sum(i, j + 1) == held + tokens[j];
        if held + tokens[j] < target {
          HeldWithinMax(j + 1, held + tokens[j], i);
        }
      }
    }

    // -------------------------------------------------------------- overlaps

    lemma {:induction false} BackUpBounds(w: Window, budget: real, back: nat, overlap: nat)
      requires back < w.end - w.start && w.end <= |tokens| && overlap == Sum(w.end - back, w.end)
      requires back > 0 ==> overlap as real <= budget || back == 1
      ensures var b := BackUp(w, budget, back, overlap);
        && (w.end - w.start >= 2 ==> b >= 1)
        && (b > 0 ==> Sum(w.end - b, w.end) as real <= budget || b == 1)
        && (b < w.end - w.start - 1 ==> Sum(w.end - b - 1, w.end) as real > budget)
      decreases w.end - w.start - back
    {
      var u := tokens[w.end - 1 - back];
      if back < w.end - w.start - 1 {
        SumSplit(w.end - back - 1, w.end - back, w.end);
        assert Sum(w.end - back - 1, w.end - back) == u;
        if !((overlap + u) as real > budget && back > 0) { BackUpBounds(w, budget, back + 1, overlap + u); }
      }
    }

    // -------------------------------------------------------------- consecutive windows

    predicate IsWindow(w: Window) {
      w.start < w.end <= |tokens| && w.end == Extend(w.start, 0)
    }

    /**
     A window takes units while it stays below the target and, unless it holds nothing yet,
     within the maximum, and ends only where it may not go on.
     */
    ghost predicate IsFull(w: Window) {
      && w.start < w.end <= |tokens|
      && (forall k | w.start < k < w.end :: MayGoOn(w.start, k))
      && (w.end < |tokens| ==> !MayGoOn(w.start, w.end))
    }

    /** What a window from `start` holds up to unit `k` leaves room for that unit. */
    predicate MayGoOn(start: nat, k: nat)
      requires start <= k < |tokens|
    {
      Sum(start, k) < target && (Sum(start, k) > 0 ==> Sum(start, k) + tokens[k] <= max)
    }

    /**
     What holds of a window and the one after it: what is repeated fits the share of the
     window's tokens that may be, single units apart, and one unit more would not.
     */
    ghost predicate Follows(w: Window, next: Window)
      requires w.start < w.end < |tokens|
    {
      var budget := Sum(w.start, w.end) as real * ratio;
      && w.start < next.start <= w.end <= next.end
      && (w.end - w.start >= 2 ==> next.start < w.end)
      && (next.start < w.end ==>
        Sum(next.start, w.end) as real <= budget || Sum(next.start, w.end) == tokens[w.end - 1])
      && (w.start + 1 < next.start ==> Sum(next.start - 1, w.end) as real > budget)
      && (w.end < next.end <==> GoesFurther(next.start, w.end))
    }

    /**
     Whether a window from `start` gets past `end`, where the one before it ended: it
     repeats nothing, or what it repeats stays below the target and leaves room for
     the next unit.
     */
    predicate GoesFurther(start: nat, end: nat)
      requires start <= end < |tokens|
    {
      var held := Sum(start, end);
      start == end || (held < target && (held == 0 || held + tokens[end] <= max))
    }

    lemma {:induction false} ExtendIsFull(i: nat, j: nat)
      requires i < |tokens| && i <= j <= |tokens| && Extend(j, Sum(i, j)) == Extend(i, 0)
      requires i < j ==> Sum(i, j) < target
      requires forall k | i < k < j :: MayGoOn(i, k)
      ensures IsFull(Window(i, Extend(i, 0)))
      decreases |tokens| - j
    {
      if j < |tokens| && !(Sum(i, j) > 0 && Sum(i, j) + tokens[j] > max) {
        assert i < j ==> MayGoOn(i, j);
        assert Sum(i, j + 1) == Sum(i, j) + tokens[j];
        if Sum(i, j + 1) < target { ExtendIsFull(i, j + 1); }
      }
    }

    lemma OverlapBounds(w: Window)
      requires w.start < w.end <= |tokens|
      ensures var b := Overlap(w);
        && (w.end - w.start >= 2 ==> b >= 1)
        && (b > 0 ==> Sum(w.end - b, w.end) as real <= Budget(w) || Sum(w.end - b, w.end) == tokens[w.end - 1])
        && (b < w.end - w.start - 1 ==> Sum(w.end - b - 1, w.end) as real > Budget(w))
    {
      BackUpBounds(w, Budget(w), 0, 0);
      if Overlap(w) == 1 { assert Sum(w.end - 1, w.end) == Sum(w.end - 1, w.end - 1) + tokens[w.end - 1]; }
    }

    lemma NextEnd(w: Window, start: nat)
      requires IsWindow(w) && w.end < |tokens| && w.start < start <= w.end
      ensures w.end <= Extend(start, 0) && (w.end < Extend(start, 0) <==> GoesFurther(start, w.end))
    {
      if start < w.end {
        Reached(w.start, start);
        HoldingLessEndsLater(start, 0, Sum(w.start, start));
        PassesAlike(start, 0, Sum(w.start, start), w.end);
      }
    }

    lemma NextFollows(w: Window)
      requires IsWindow(w) && w.end < |tokens|
      ensures var start := w.end - Overlap(w); Follows(w, Window(start, Extend(start, 0)))
    {
      OverlapBounds(w);
      NextEnd(w, w.end - Overlap(w));
    }

    // -------------------------------------------------------------- all windows

    ghost predicate Chained(ws: seq<Window>) {
      && (forall k | 0 <= k < |ws| :: IsWindow(ws[k]) && IsFull(ws[k]))
      && (forall k | 0 <= k < |ws| - 1 :: ws[k].end < |tokens| && Follows(ws[k], ws[k + 1]))
      && (ws != [] ==> ws[|ws| - 1].end == |tokens|)
    }

    /**
     Every window follows its predecessor as stated, the last one reaches the end,
     and there are at most as many windows as units.
     */
    lemma {:induction false} WindowsChained(i: nat)
      requires i < |tokens|
      ensures Chained(WindowsFrom(i))
      ensures |WindowsFrom(i)| <= |tokens| - i
      decreases |tokens| - i
    {
      var w := Window(i, Extend(i, 0));
      ExtendIsFull(i, i);
      if w.end < |tokens| {
        var next := w.end - Overlap(w);
        WindowsChained(next);
        NextChained(w, next, WindowsFrom(next));
      } else {
        LastWindow(w);
      }
    }

    lemma NextChained(w: Window, next: nat, rest: seq<Window>)
      requires IsWindow(w) && IsFull(w) && w.end < |tokens| && next == w.end - Overlap(w) && rest != []
      requires Chained(rest) && rest[0] == Window(next, Extend(next, 0))
      ensures Chained([w] + rest)
    {
      NextFollows(w);
      PrependWindow(w, rest, next);
    }

    lemma LastWindow(w: Window)
      requires IsWindow(w) && IsFull(w) && w.end == |tokens|
      ensures Chained([w])
    {
    }

    lemma PrependWindow(w: Window, rest: seq<Window>, next: nat)
      requires IsWindow(w) && IsFull(w) && w.end < |tokens| && next < |tokens| && rest != [] && Chained(rest)
      requires rest[0] == Window(next, Extend(next, 0)) && Follows(w, Window(next, Extend(next, 0)))
      ensures Chained([w] + rest)
    {
      var ws := [w] + rest;
      assert forall k | 0 < k < |ws| :: ws[k] == rest[k - 1];
    }

    lemma {:induction false} Located(i: nat, u: nat) returns (k: nat)
      requires i <= u < |tokens|
      ensures k < |WindowsFrom(i)| && WindowsFrom(i)[k].start <= u < WindowsFrom(i)[k].end <= |tokens|
      decreases |tokens| - i
    {
      var w := Window(i, Extend(i, 0));
      if u < w.end {
        k := 0;
      } else {
        k := Located(w.end - Overlap(w), u);
        k := k + 1;
      }
    }

    lemma WindowsWithinMax(w: Window)
      requires tokens != [] && w in WindowsFrom(0) && forall u | 0 <= u < |tokens| :: tokens[u] <= max
      ensures w.start < w.end <= |tokens| && Sum(w.start, w.end) <= max
    {
      WindowsChained(0);
      var k :| 0 <= k < |WindowsFrom(0)| && WindowsFrom(0)[k] == w;
      assert IsWindow(WindowsFrom(0)[k]) && tokens[0] <= max;
      HeldWithinMax(w.start, 0, w.start);
    }

    lemma UnitWithinWindow(w: Window, u: nat)
      requires w.start <= u < w.end <= |tokens|
      ensures tokens[u] <= Sum(w.start, w.end)
    {
      SumSplit(w.start, u, w.end);
      SumSplit(u, u + 1, w.end);
      assert Sum(u, u + 1) == Sum(u, u) + tokens[u];
    }

    /** All windows stay within the maximum exactly when all units do. */
    lemma WindowsWithinMaxIff()
      requires tokens != []
      ensures (forall w | w in WindowsFrom(0) :: w.start < w.end <= |tokens| && Sum(w.start, w.end) <= max)
              <==> forall u | 0 <= u < |tokens| :: tokens[u] <= max
    {
      if forall u | 0 <= u < |tokens| :: tokens[u] <= max {
        forall w | w in WindowsFrom(0) ensures w.start < w.end <= |tokens| && Sum(w.start, w.end) <= max {
          WindowsWithinMax(w);
        }
      }
      if forall w | w in WindowsFrom(0) :: w.start < w.end <= |tokens| && Sum(w.start, w.end) <= max {
        forall u | 0 <= u < |tokens| ensures tokens[u] <= max {
          var k := Located(0, u);
          assert WindowsFrom(0)[k] in WindowsFrom(0);
          UnitWithinWindow(WindowsFrom(0)[k], u);
        }
      }
    }
  }
}
