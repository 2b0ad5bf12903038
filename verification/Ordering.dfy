/** `sorted(..., reverse=True)`: descending by key, equal keys in their original order. */
module Ordering {
  function InsertDesc<T>(x: T, sorted: seq<T>, key: T -> real): seq<T> {
    if sorted == [] || key(sorted[0]) <= key(x) then [x] + sorted
    else [sorted[0]] + InsertDesc(x, sorted[1..], key)
  }

  function SortDesc<T>(s: seq<T>, key: T -> real): seq<T> {
    if s == [] then [] else InsertDesc(s[0], SortDesc(s[1..], key), key)
  }

  ghost predicate Descending<T>(s: seq<T>, key: T -> real) {
    forall i, j | 0 <= i < j < |s| :: key(s[i]) >= key(s[j])
  }

  /** The elements whose key is `v`, in order. */
  function Ties<T>(s: seq<T>, key: T -> real, v: real): seq<T> {
    if s == [] then [] else (if key(s[0]) == v then [s[0]] else []) + Ties(s[1..], key, v)
  }

  lemma {:induction false} InsertDescMembers<T>(x: T, s: seq<T>, key: T -> real)
    ensures multiset(InsertDesc(x, s, key)) == multiset([x] + s)
  {
    if s != [] && key(s[0]) > key(x) {
      InsertDescMembers(x, s[1..], key);
      assert s == [s[0]] + s[1..];
    }
  }

  lemma {:induction false} InsertDescOrdered<T>(x: T, s: seq<T>, key: T -> real)
    requires Descending(s, key)
    ensures Descending(InsertDesc(x, s, key), key)
  {
    if s != [] && key(s[0]) > key(x) {
      var rest := InsertDesc(x, s[1..], key);
      InsertDescOrdered(x, s[1..], key);
      InsertDescMembers(x, s[1..], key);
      forall i | 0 <= i < |rest| ensures key(rest[i]) <= key(s[0]) {
        assert rest[i] in multiset(rest);
        assert rest[i] in [x] + s[1..];
      }
    }
  }

  lemma {:induction false} InsertDescStable<T>(x: T, s: seq<T>, key: T -> real, v: real)
    ensures Ties(InsertDesc(x, s, key), key, v) == Ties([x] + s, key, v)
  {
    assert ([x] + s)[1..] == s;
    if s != [] && key(s[0]) > key(x) {
      var rest := InsertDesc(x, s[1..], key);
      InsertDescStable(x, s[1..], key, v);
      assert ([x] + s[1..])[1..] == s[1..] && ([s[0]] + rest)[1..] == rest;
    }
  }

  /** The sort is descending, a permutation, and stable. */
  lemma {:induction false} SortDescCorrect<T>(s: seq<T>, key: T -> real, v: real)
    ensures Descending(SortDesc(s, key), key)
    ensures multiset(SortDesc(s, key)) == multiset(s)
    ensures Ties(SortDesc(s, key), key, v) == Ties(s, key, v)
  {
    if s != [] {
      var rest := SortDesc(s[1..], key);
      SortDescCorrect(s[1..], key, v);
      InsertDescOrdered(s[0], rest, key);
      InsertDescMembers(s[0], rest, key);
      InsertDescStable(s[0], rest, key, v);
      assert s == [s[0]] + s[1..] && ([s[0]] + rest)[1..] == rest;
    }
  }

  /** Sorting neither drops, adds nor repeats. */
  lemma SortDescMembers<T>(s: seq<T>, key: T -> real)
    ensures |SortDesc(s, key)| == |s|
    ensures forall x :: x in SortDesc(s, key) <==> x in s
  {
    SortDescCorrect(s, key, 0.0);
    assert |multiset(SortDesc(s, key))| == |multiset(s)|;
    forall x ensures x in SortDesc(s, key) <==> x in s {
      assert x in multiset(SortDesc(s, key)) <==> x in multiset(s);
    }
  }

  lemma CountedTwice<T>(s: seq<T>, i: nat, j: nat)
    requires i < j < |s| && s[i] == s[j]
    ensures multiset(s)[s[i]] >= 2
  {
    assert s == s[..j] + [s[j]] + s[j + 1..] && s[..j][i] == s[i];
    assert s[i] in multiset(s[..j]);
  }

  lemma {:induction false} SortedStays<T>(s: seq<T>, key: T -> real)
    requires Descending(s, key)
    ensures SortDesc(s, key) == s
  {
    if s != [] {
      SortedStays(s[1..], key);
      assert s == [s[0]] + s[1..];
      assert |s| > 1 ==> key(s[0]) >= key(s[1]);
    }
  }

  /**
   `r` is `s` sorted: `r[i]` stands at `places[i]` in `s`, a greater key goes first, and of
   equal keys the one that stands first. No place is taken twice.
   */
  ghost predicate IsStableSort<T>(s: seq<T>, r: seq<T>, key: T -> real, places: seq<nat>) {
    && |places| == |r| == |s|
    && (forall i | 0 <= i < |r| :: places[i] < |s| && r[i] == s[places[i]])
    && (forall i, j | 0 <= i < j < |r| ::
          places[i] != places[j] && key(r[i]) >= key(r[j]) && (key(r[i]) == key(r[j]) ==> places[i] < places[j]))
  }

  lemma {:induction false} InsertPlace<T>(x: T, s: seq<T>, key: T -> real) returns (n: nat)
    ensures n <= |s| && InsertDesc(x, s, key) == s[..n] + [x] + s[n..]
    ensures (forall i | 0 <= i < n :: key(s[i]) > key(x)) && (n < |s| ==> key(s[n]) <= key(x))
  {
    if s == [] || key(s[0]) <= key(x) {
      n := 0;
    } else {
      var m := InsertPlace(x, s[1..], key);
      n := m + 1;
      assert s == [s[0]] + s[1..];
    }
  }

  /** The places with the one of the inserted element, which is first, at `n`. */
  function ShiftIn(places: seq<nat>, n: nat): (r: seq<nat>)
    requires n <= |places|
    ensures |r| == |places| + 1 && r[n] == 0
    ensures forall i | 0 <= i < n :: r[i] == places[i] + 1
    ensures forall i | n < i < |r| :: r[i] == places[i - 1] + 1
  {
    seq(|places| + 1, i requires 0 <= i <= |places| =>
      if i < n then places[i] + 1 else if i == n then 0 else places[i - 1] + 1)
  }

  lemma InsertKeepsSort<T>(s: seq<T>, r: seq<T>, key: T -> real, places: seq<nat>, n: nat)
    requires s != [] && IsStableSort(s[1..], r, key, places) && n <= |r|
    requires (forall i | 0 <= i < n :: key(r[i]) > key(s[0])) && (n < |r| ==> key(r[n]) <= key(s[0]))
    ensures IsStableSort(s, r[..n] + [s[0]] + r[n..], key, ShiftIn(places, n))
  {
    var after := r[..n] + [s[0]] + r[n..];
    var at := ShiftIn(places, n);
    assert forall i | 0 <= i < n :: after[i] == r[i];
    assert forall i | n < i < |after| :: after[i] == r[i - 1];
    forall i | n <= i < |r| ensures key(r[i]) <= key(s[0]) {
      if i > n { assert key(r[n]) >= key(r[i]); }
    }
  }

  /** Where the elements of the sorted sequence come from. */
  lemma {:induction false} SortDescPlaces<T>(s: seq<T>, key: T -> real) returns (places: seq<nat>)
    ensures IsStableSort(s, SortDesc(s, key), key, places)
  {
    if s == [] {
      places := [];
    } else {
      var before := SortDescPlaces(s[1..], key);
      var n := InsertPlace(s[0], SortDesc(s[1..], key), key);
      InsertKeepsSort(s, SortDesc(s[1..], key), key, before, n);
      places := ShiftIn(before, n);
    }
  }
}
