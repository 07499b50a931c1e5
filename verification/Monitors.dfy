/**
 The alignment of monitors: in the order of a sorted copy, each is put to the right of the
 ones before it. An entry of the copy is matched with an equal monitor not yet used, so that
 equal entries do not get in each other's way.
 */
module Monitors {
  import opened Common

  datatype Monitor = Monitor(height: nat, width: nat, depth: nat, x: int, y: int)

  /** The sum of the widths. */
  function Total(ms: seq<Monitor>): nat {
    if ms == [] then 0 else Total(ms[..|ms| - 1]) + ms[|ms| - 1].width
  }

  /** How many of the first n monitors are unused and equal to m. */
  function Unused(ms: seq<Monitor>, used: set<nat>, n: nat, m: Monitor): nat
    requires n <= |ms|
  {
    if n == 0 then 0
    else Unused(ms, used, n - 1, m) + if n - 1 !in used && ms[n - 1] == m then 1 else 0
  }

  lemma {:induction false} UnusedAtFirst(ms: seq<Monitor>, n: nat, m: Monitor)
    requires n <= |ms|
    ensures Unused(ms, {}, n, m) == multiset(ms[..n])[m]
  {
    if n > 0 {
      UnusedAtFirst(ms, n - 1, m);
      assert ms[..n] == ms[..n - 1] + [ms[n - 1]];
    }
  }

  lemma {:induction false} UseOne(ms: seq<Monitor>, used: set<nat>, j: nat, n: nat, m: Monitor)
    requires n <= |ms| && j < |ms| && j !in used
    ensures Unused(ms, used, n, m) == Unused(ms, used + {j}, n, m) + if j < n && ms[j] == m then 1 else 0
  {
    if n > 0 { UseOne(ms, used, j, n - 1, m); }
  }

  lemma {:induction false} FindUnused(ms: seq<Monitor>, used: set<nat>, n: nat, m: Monitor) returns (j: nat)
    requires n <= |ms| && Unused(ms, used, n, m) > 0
    ensures j < n && j !in used && ms[j] == m
  {
    if n - 1 !in used && ms[n - 1] == m {
      j := n - 1;
    } else {
      j := FindUnused(ms, used, n - 1, m);
    }
  }

  function Placed(m: Monitor, x: int): Monitor { m.(x := x, y := 0) }

  /** The monitors order[0], order[1], ... are the sorted ones, side by side from 0 on. */
  ghost predicate Aligned(was: seq<Monitor>, now: seq<Monitor>, sorted: seq<Monitor>, order: seq<nat>) {
    && |now| == |was| && |order| <= |sorted|
    && (forall k :: 0 <= k < |order| ==> order[k] < |was| && was[order[k]] == sorted[k])
    && (forall i, k :: 0 <= i < k < |order| ==> order[i] != order[k])
    && (forall k :: 0 <= k < |order| ==> now[order[k]] == Placed(sorted[k], Total(sorted[..k])))
  }

  /** The indexes in use are those placed so far, and what is left of the copy can be matched. */
  ghost predicate Matched(was: seq<Monitor>, sorted: seq<Monitor>, used: set<nat>, order: seq<nat>) {
    && |order| <= |sorted|
    && (forall j: nat :: j in used <==> j in order)
    && (forall m :: Unused(was, used, |was|, m) == multiset(sorted[|order|..])[m])
  }

  lemma MatchedAtFirst(was: seq<Monitor>, sorted: seq<Monitor>)
    requires multiset(sorted) == multiset(was)
    ensures Matched(was, sorted, {}, []) && |sorted| == |was|
  {
    assert |multiset(sorted)| == |multiset(was)|;
    assert was[..|was|] == was && sorted[0..] == sorted;
    forall m ensures Unused(was, {}, |was|, m) == multiset(sorted)[m] { UnusedAtFirst(was, |was|, m); }
  }

  lemma MatchNext(was: seq<Monitor>, sorted: seq<Monitor>, used: set<nat>, order: seq<nat>, j: nat)
    requires Matched(was, sorted, used, order) && |order| < |sorted|
    requires j < |was| && j !in used && was[j] == sorted[|order|]
    ensures Matched(was, sorted, used + {j}, order + [j])
  {
    var i := |order|;
    assert sorted[i..] == [sorted[i]] + sorted[i + 1..];
    forall m ensures Unused(was, used + {j}, |was|, m) == multiset(sorted[i + 1..])[m] {
      UseOne(was, used, j, |was|, m);
    }
  }

  lemma PlaceNext(was: seq<Monitor>, now: seq<Monitor>, sorted: seq<Monitor>, order: seq<nat>, j: nat)
    requires Aligned(was, now, sorted, order) && |order| < |sorted|
    requires j < |was| && j !in order && was[j] == now[j] == sorted[|order|]
    ensures Aligned(was, now[j := Placed(now[j], Total(sorted[..|order|]))], sorted, order + [j])
    ensures Total(sorted[..|order| + 1]) == Total(sorted[..|order|]) + now[j].width
  {
    var i := |order|;
    assert sorted[..i + 1][..i] == sorted[..i];
  }

  /** The search for an unused monitor equal to m. */
  method Find(monitors: array<Monitor>, used: set<nat>, m: Monitor, ghost was: seq<Monitor>) returns (j: nat)
    requires |was| == monitors.Length && Unused(was, used, |was|, m) > 0
    requires forall j :: 0 <= j < |was| && j !in used ==> monitors[j] == was[j]
    ensures j < monitors.Length && j !in used && monitors[j] == m
  {
    ghost var found := FindUnused(was, used, |was|, m);
    j := 0;
    while j in used || monitors[j] != m
      invariant 0 <= j <= found
      decreases monitors.Length - j
    {
      j := j + 1;
    }
  }

  /** Aligns the monitors in place, the sorted copy being any permutation of them. The inner
      search always ends at a monitor, and every monitor is placed exactly once. */
  method Align(monitors: array<Monitor>, sorted: seq<Monitor>) returns (ghost order: seq<nat>)
    requires multiset(sorted) == multiset(monitors[..]) && monitors.Length <= 32
    modifies monitors
    ensures |order| == monitors.Length == |sorted| && Aligned(old(monitors[..]), monitors[..], sorted, order)
    ensures forall k :: 0 <= k < |order| ==>
              && monitors[order[k]].x == Total(sorted[..k]) && monitors[order[k]].y == 0
              && SameSize(old(monitors[..])[order[k]], monitors[order[k]])
  {
    ghost var was := monitors[..];
    var n := monitors.Length;
    MatchedAtFirst(was, sorted);
    var used: set<nat> := {};
    var x := 0;
    order := [];
    for i := 0 to n
      invariant |order| == i && x == Total(sorted[..i])
      invariant Aligned(was, monitors[..], sorted, order) && Matched(was, sorted, used, order)
      invariant forall j :: 0 <= j < n && j !in used ==> monitors[j] == was[j]
    {
      assert sorted[i] in sorted[i..];
      var j := Find(monitors, used, sorted[i], was);
      MatchNext(was, sorted, used, order, j);
      PlaceNext(was, monitors[..], sorted, order, j);
      used := used + {j};
      order := order + [j];
      monitors[j] := monitors[j].(x := x, y := 0);
      x := x + monitors[j].width;
    }
  }

  // ---------------------------------------------------------------- what the alignment is

  /** Where the monitor that is k-th in the order begins, and where it ends. */
  function Left(sorted: seq<Monitor>, k: nat): nat
    requires k <= |sorted|
  {
    Total(sorted[..k])
  }

  lemma NextLeft(sorted: seq<Monitor>, k: nat)
    requires k < |sorted|
    ensures Left(sorted, k + 1) == Left(sorted, k) + sorted[k].width
  {
    assert sorted[..k + 1][..k] == sorted[..k];
  }

  lemma {:induction false} LeftGrows(sorted: seq<Monitor>, i: nat, k: nat)
    requires i <= k <= |sorted|
    ensures Left(sorted, i) <= Left(sorted, k)
    decreases k
  {
    if i < k {
      NextLeft(sorted, k - 1);
      LeftGrows(sorted, i, k - 1);
    }
  }

  /** The column p is covered by monitor m. */
  predicate Covers(m: Monitor, p: int) { m.x <= p < m.x + m.width }

  predicate SameSize(a: Monitor, b: Monitor) { a.height == b.height && a.width == b.width && a.depth == b.depth }

  /** Where each monitor is in the order. */
  lemma Placement(was: seq<Monitor>, now: seq<Monitor>, sorted: seq<Monitor>, order: seq<nat>, j: nat) returns (k: nat)
    requires |order| == |sorted| == |was| && Aligned(was, now, sorted, order) && j < |now|
    ensures k < |order| && order[k] == j && now[j] == Placed(was[j], Left(sorted, k)) && was[j] == sorted[k]
  {
    k := Position(order, |was|, j);
  }

  /** A column in the k-th place lies within the whole. */
  lemma ColumnRange(sorted: seq<Monitor>, k: nat, p: int)
    requires k < |sorted| && Left(sorted, k) <= p < Left(sorted, k) + sorted[k].width
    ensures 0 <= p < Total(sorted)
  {
    assert sorted[..|sorted|] == sorted;
    NextLeft(sorted, k);
    LeftGrows(sorted, k + 1, |sorted|);
  }

  lemma ColumnOnce(sorted: seq<Monitor>, i: nat, k: nat, p: int)
    requires i < k < |sorted| && Left(sorted, i) <= p < Left(sorted, i) + sorted[i].width
    ensures p < Left(sorted, k)
  {
    NextLeft(sorted, i);
    LeftGrows(sorted, i + 1, k);
  }

  lemma {:induction false} TotalAppend(a: seq<Monitor>, b: seq<Monitor>)
    ensures Total(a + b) == Total(a) + Total(b)
  {
    if b == [] {
      assert a + b == a;
    } else {
      assert (a + b)[..|a + b| - 1] == a + b[..|b| - 1];
      TotalAppend(a, b[..|b| - 1]);
    }
  }

  lemma TotalMiddle(a: seq<Monitor>, m: Monitor, b: seq<Monitor>)
    ensures Total(a + [m] + b) == Total(a + b) + m.width
  {
    TotalAppend(a + [m], b);
    TotalAppend(a, b);
    assert (a + [m])[..|a|] == a;
  }

  lemma SplitAt(ms: seq<Monitor>, m: Monitor) returns (a: seq<Monitor>, b: seq<Monitor>)
    requires m in multiset(ms)
    ensures ms == a + [m] + b
  {
    var k :| 0 <= k < |ms| && ms[k] == m;
    a, b := ms[..k], ms[k + 1..];
  }

  lemma RestPermuted(front: seq<Monitor>, m: Monitor, a: seq<Monitor>, b: seq<Monitor>)
    requires multiset(front + [m]) == multiset(a + [m] + b)
    ensures multiset(front) == multiset(a + b)
  {
    assert multiset(front + [m]) == multiset(front) + multiset{m};
    assert multiset(a + [m] + b) == multiset(a + b) + multiset{m};
    assert multiset(front) == multiset(front + [m]) - multiset{m};
  }

  /** The sum of the widths does not depend on the order. */
  lemma {:induction false} TotalPermuted(xs: seq<Monitor>, ys: seq<Monitor>)
    requires multiset(xs) == multiset(ys)
    ensures Total(xs) == Total(ys)
  {
    if xs == [] {
      assert |multiset(ys)| == 0;
    } else {
      var front, m := xs[..|xs| - 1], xs[|xs| - 1];
      assert xs == front + [m] && m in multiset(xs);
      var a, b := SplitAt(ys, m);
      RestPermuted(front, m, a, b);
      TotalMiddle(a, m, b);
      TotalPermuted(front, a + b);
    }
  }

  /** The aligned monitors cover exactly the columns from 0 to the sum of the widths, and keep
      their widths and heights. */
  lemma Covering(was: seq<Monitor>, now: seq<Monitor>, sorted: seq<Monitor>, order: seq<nat>, p: int)
    requires multiset(sorted) == multiset(was)
    requires |order| == |sorted| == |was| && Aligned(was, now, sorted, order)
    ensures 0 <= p < Total(was) <==> exists j :: 0 <= j < |now| && Covers(now[j], p)
    ensures forall j :: 0 <= j < |now| ==> now[j] == Placed(was[j], now[j].x)
    ensures forall j :: 0 <= j < |now| ==> now[j].y == 0 && SameSize(was[j], now[j])
  {
    TotalPermuted(sorted, was);
    forall j | 0 <= j < |now|
      ensures now[j] == Placed(was[j], now[j].x) && (Covers(now[j], p) ==> 0 <= p < Total(sorted))
    {
      var k := Placement(was, now, sorted, order, j);
      if Covers(now[j], p) { ColumnRange(sorted, k, p); }
    }
    if 0 <= p < Total(sorted) {
      assert sorted[..|sorted|] == sorted;
      var k := FindColumn(sorted, |sorted|, p);
      NextLeft(sorted, k);
      assert Covers(now[order[k]], p);
    }
  }

  /** No two aligned monitors overlap. */
  lemma Disjointness(was: seq<Monitor>, now: seq<Monitor>, sorted: seq<Monitor>, order: seq<nat>, i: nat, j: nat, p: int)
    requires |order| == |sorted| == |was| && Aligned(was, now, sorted, order) && i < |now| && j < |now|
    requires Covers(now[i], p) && Covers(now[j], p)
    ensures i == j
  {
    var a := Placement(was, now, sorted, order, i);
    var b := Placement(was, now, sorted, order, j);
    if a < b { ColumnOnce(sorted, a, b, p); }
    if b < a { ColumnOnce(sorted, b, a, p); }
  }

  lemma {:induction false} FindColumn(sorted: seq<Monitor>, n: nat, p: nat) returns (k: nat)
    requires n <= |sorted| && p < Left(sorted, n)
    ensures k < n && Left(sorted, k) <= p < Left(sorted, k + 1)
  {
    if p < Left(sorted, n - 1) { k := FindColumn(sorted, n - 1, p); } else { k := n - 1; }
  }

  function Below(n: nat): (r: set<nat>)
    ensures |r| == n && forall i: nat :: i in r <==> i < n
  {
    if n == 0 then {} else Below(n - 1) + {n - 1}
  }

  /** n different numbers below n are all the numbers below n. */
  lemma Position(order: seq<nat>, n: nat, j: nat) returns (k: nat)
    requires |order| == n && j < n
    requires forall k :: 0 <= k < n ==> order[k] < n
    requires forall i, k :: 0 <= i < k < n ==> order[i] != order[k]
    ensures k < n && order[k] == j
  {
    if j !in order {
      Pigeons(order, Below(n) - {j});
    }
    k :| 0 <= k < n && order[k] == j;
  }

  lemma {:induction false} Pigeons(xs: seq<nat>, holes: set<nat>)
    requires forall i :: 0 <= i < |xs| ==> xs[i] in holes
    requires forall i, k :: 0 <= i < k < |xs| ==> xs[i] != xs[k]
    ensures |xs| <= |holes|
  {
    if xs != [] {
      Pigeons(xs[1..], holes - {xs[0]});
    }
  }
}
