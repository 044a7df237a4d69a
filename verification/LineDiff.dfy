/** The line differ of the test runner: which lines of the expected and of the actual text it names. */
module LineDiff {

  /** comp_line: equality, or a match with a pattern. */
  type Comparison = (string, string) -> bool

  // ---------- longest common subsequences ----------

  function Max(x: nat, y: nat): nat { if x < y then y else x }

  /** The length of a longest common subsequence of a and b, where `same` says which lines agree. */
  function Lcs(same: Comparison, a: seq<string>, b: seq<string>): nat
    decreases |a| + |b|
  {
    if a == [] || b == [] then 0
    else
      var skip := Max(Lcs(same, a[1..], b), Lcs(same, a, b[1..]));
      if same(a[0], b[0]) then Max(1 + Lcs(same, a[1..], b[1..]), skip) else skip
  }

  datatype Pair = Pair(i: nat, j: nat)

  /** Matching lines, in the order of both texts. */
  ghost predicate Matching(same: Comparison, a: seq<string>, b: seq<string>, c: seq<Pair>) {
    && (forall k :: 0 <= k < |c| ==> c[k].i < |a| && c[k].j < |b| && same(a[c[k].i], b[c[k].j]))
    && (forall k, m :: 0 <= k < m < |c| ==> c[k].i < c[m].i && c[k].j < c[m].j)
  }

  ghost function Moved(c: seq<Pair>, di: int, dj: int): (d: seq<Pair>)
    requires forall k :: 0 <= k < |c| ==> c[k].i + di >= 0 && c[k].j + dj >= 0
    ensures |d| == |c| && forall k :: 0 <= k < |c| ==> d[k].i == c[k].i + di && d[k].j == c[k].j + dj
  {
    seq(|c|, k requires 0 <= k < |c| => Pair(c[k].i + di, c[k].j + dj))
  }

  lemma MatchingMoved(same: Comparison, a: seq<string>, b: seq<string>, c: seq<Pair>, di: int, dj: int)
    requires 0 <= di <= |a| && 0 <= dj <= |b| && Matching(same, a, b, c) && forall k :: 0 <= k < |c| ==> c[k].i >= di && c[k].j >= dj
    ensures Matching(same, a[di..], b[dj..], Moved(c, -di, -dj))
  {
  }

  lemma MatchingBack(same: Comparison, a: seq<string>, b: seq<string>, c: seq<Pair>, di: nat, dj: nat)
    requires di <= |a| && dj <= |b| && Matching(same, a[di..], b[dj..], c)
    ensures Matching(same, a, b, Moved(c, di, dj))
  {
  }

  /** No matching is longer than Lcs says. */
  lemma {:induction false} LcsBounds(same: Comparison, a: seq<string>, b: seq<string>, c: seq<Pair>)
    requires Matching(same, a, b, c)
    ensures |c| <= Lcs(same, a, b)
    decreases |a| + |b|
  {
    if c != [] {
      if c[0].i > 0 {
        MatchingMoved(same, a, b, c, 1, 0);
        LcsBounds(same, a[1..], b, Moved(c, -1, 0));
      } else if c[0].j > 0 {
        MatchingMoved(same, a, b, c, 0, 1);
        LcsBounds(same, a, b[1..], Moved(c, 0, -1));
      } else {
        assert Matching(same, a, b, c[1..]);
        MatchingMoved(same, a, b, c[1..], 1, 1);
        LcsBounds(same, a[1..], b[1..], Moved(c[1..], -1, -1));
      }
    }
  }

  /** And there is a matching of that length. */
  lemma {:induction false} LcsAttained(same: Comparison, a: seq<string>, b: seq<string>) returns (c: seq<Pair>)
    ensures Matching(same, a, b, c) && |c| == Lcs(same, a, b)
    decreases |a| + |b|
  {
    c := [];
    if a != [] && b != [] {
      if Lcs(same, a, b) == Lcs(same, a[1..], b) {
        var d := LcsAttained(same, a[1..], b);
        MatchingBack(same, a, b, d, 1, 0);
        c := Moved(d, 1, 0);
      } else if Lcs(same, a, b) == Lcs(same, a, b[1..]) {
        var e := LcsAttained(same, a, b[1..]);
        MatchingBack(same, a, b, e, 0, 1);
        c := Moved(e, 0, 1);
      } else {
        var f := LcsAttained(same, a[1..], b[1..]);
        MatchingBack(same, a, b, f, 1, 1);
        c := [Pair(0, 0)] + Moved(f, 1, 1);
      }
    }
  }

  /** Dropping lines at the front does not make it longer. */
  lemma {:induction false} LcsShrinks(same: Comparison, a: seq<string>, b: seq<string>, i: nat, j: nat)
    requires i <= |a| && j <= |b|
    ensures Lcs(same, a[i..], b[j..]) <= Lcs(same, a, b)
    decreases i + j
  {
    if i > 0 {
      LcsShrinks(same, a, b, i - 1, j);
      assert a[i - 1..][1..] == a[i..];
    } else if j > 0 {
      LcsShrinks(same, a, b, i, j - 1);
      assert b[j - 1..][1..] == b[j..];
    } else {
      assert a[0..] == a && b[0..] == b;
    }
  }

  /** Lines that match at the front count in full. */
  lemma LcsStep(same: Comparison, a: seq<string>, b: seq<string>, i: nat, j: nat)
    requires i < |a| && j < |b| && same(a[i], b[j])
    ensures Lcs(same, a[i..], b[j..]) >= 1 + Lcs(same, a[i + 1..], b[j + 1..])
  {
    assert a[i..][1..] == a[i + 1..] && b[j..][1..] == b[j + 1..];
  }

  // ---------- count_array_diff ----------

  /** How deep the recursion may still go with this many steps, which need not be whole. */
  function Depth(steps: real): nat { if steps <= 0.0 then 0 else steps.Floor + 1 }

  lemma DepthDrops(steps: real, less: real)
    requires steps > 0.0 && less <= steps - 1.0
    ensures Depth(less) < Depth(steps)
  {
  }

  /** count_array_diff: a guess that never exceeds the truth, found within the step budget. */
  method CountArrayDiff(same: Comparison, ar1: seq<string>, ar2: seq<string>, i: nat, j: nat, budget: real) returns (equal: nat)
    requires i <= |ar1| && j <= |ar2|
    ensures equal <= Lcs(same, ar1[i..], ar2[j..])
    ensures i < |ar1| && j < |ar2| && same(ar1[i], ar2[j]) ==> equal > 0
    decreases Depth(budget)
  {
    var idx1, idx2, steps := i, j, budget;
    equal := 0;
    while idx1 < |ar1| && idx2 < |ar2| && same(ar1[idx1], ar2[idx2])
      invariant i <= idx1 <= |ar1| && j <= idx2 <= |ar2| && idx1 - i == idx2 - j == equal
      invariant equal + Lcs(same, ar1[idx1..], ar2[idx2..]) <= Lcs(same, ar1[i..], ar2[j..])
      invariant steps <= budget
    {
      LcsStep(same, ar1, ar2, idx1, idx2);
      idx1, idx2, equal, steps := idx1 + 1, idx2 + 1, equal + 1, steps - 1.0;
    }
    steps := steps - 1.0;
    if steps > 0.0 {
      ghost var best := Lcs(same, ar1[idx1..], ar2[idx2..]);
      var eq1, st, ofs1 := 0, steps / 2.0, idx1 + 1;
      while ofs1 < |ar1| && st > 0.0
        invariant idx1 < ofs1 && eq1 <= best && st <= steps / 2.0
        decreases |ar1| - ofs1
      {
        st := st - 1.0;
        DepthDrops(budget, st);
        var eq := CountArrayDiff(same, ar1, ar2, ofs1, idx2, st);
        Dropped(same, ar1, ar2, idx1, idx2, ofs1, idx2);
        if eq > eq1 { eq1 := eq; }
        ofs1 := ofs1 + 1;
      }
      var eq2, ofs2 := 0, idx2 + 1;
      st := steps;
      while ofs2 < |ar2| && st > 0.0
        invariant idx2 < ofs2 && eq2 <= best && st <= steps
        decreases |ar2| - ofs2
      {
        st := st - 1.0;
        DepthDrops(budget, st);
        var eq := CountArrayDiff(same, ar1, ar2, idx1, ofs2, st);
        Dropped(same, ar1, ar2, idx1, idx2, idx1, ofs2);
        if eq > eq2 { eq2 := eq; }
        ofs2 := ofs2 + 1;
      }
      if eq1 > eq2 {
        equal := equal + eq1;
      } else if eq2 > 0 {
        equal := equal + eq2;
      }
    }
  }

  lemma Dropped(same: Comparison, a: seq<string>, b: seq<string>, i: nat, j: nat, k: nat, m: nat)
    requires i <= k <= |a| && j <= m <= |b|
    ensures Lcs(same, a[k..], b[m..]) <= Lcs(same, a[i..], b[j..])
  {
    LcsShrinks(same, a[i..], b[j..], k - i, m - j);
    assert a[i..][k - i..] == a[k..] && b[j..][m - j..] == b[m..];
  }

  // ---------- generate_array_diff ----------

  /** One line of the diff; it is shown with its line number, `index` + 1. */
  datatype Line = Minus(index: nat, text: string) | Plus(index: nat, text: string)

  function Minuses(d: seq<Line>): seq<Line> { if d == [] then [] else Minuses(d[..|d| - 1]) + (if d[|d| - 1].Minus? then [d[|d| - 1]] else []) }

  function Pluses(d: seq<Line>): seq<Line> { if d == [] then [] else Pluses(d[..|d| - 1]) + (if d[|d| - 1].Plus? then [d[|d| - 1]] else []) }

  ghost function MinusSet(d: seq<Line>): set<nat> { set l | l in d && l.Minus? :: l.index }

  ghost function PlusSet(d: seq<Line>): set<nat> { set l | l in d && l.Plus? :: l.index }

  /** The first n lines of s but for those that are gone. */
  ghost function Kept(s: seq<string>, gone: set<nat>, n: nat): seq<string>
    requires n <= |s|
  {
    if n == 0 then [] else Kept(s, gone, n - 1) + (if n - 1 in gone then [] else [s[n - 1]])
  }

  /** The lines of s that are gone, up to line n, in order. */
  ghost function MinusLines(s: seq<string>, gone: set<nat>, n: nat): seq<Line>
    requires n <= |s|
  {
    if n == 0 then [] else MinusLines(s, gone, n - 1) + (if n - 1 in gone then [Minus(n - 1, s[n - 1])] else [])
  }

  ghost function PlusLines(s: seq<string>, gone: set<nat>, n: nat): seq<Line>
    requires n <= |s|
  {
    if n == 0 then [] else PlusLines(s, gone, n - 1) + (if n - 1 in gone then [Plus(n - 1, s[n - 1])] else [])
  }

  /** Line by line the same. */
  ghost predicate Aligned(same: Comparison, a: seq<string>, b: seq<string>) { |a| == |b| && forall k :: 0 <= k < |a| ==> same(a[k], b[k]) }

  /** The diff names lines of w and ar2 by number and text, each once and in order, and what it does not name agrees. */
  ghost predicate Sound(same: Comparison, ar1: seq<string>, ar2: seq<string>, w: seq<string>, d: seq<Line>)
    requires |w| == |ar1|
  {
    && Minuses(d) == MinusLines(w, MinusSet(d), |w|) && Pluses(d) == PlusLines(ar2, PlusSet(d), |ar2|)
    && Aligned(same, Kept(ar1, MinusSet(d), |ar1|), Kept(ar2, PlusSet(d), |ar2|))
  }

  // ---------- lemmas about lists of lines ----------

  /** Only the lines before n matter. */
  lemma {:induction false} SameBefore(s: seq<string>, g: set<nat>, h: set<nat>, n: nat)
    requires n <= |s| && forall k :: 0 <= k < n ==> (k in g <==> k in h)
    ensures Kept(s, g, n) == Kept(s, h, n) && MinusLines(s, g, n) == MinusLines(s, h, n) && PlusLines(s, g, n) == PlusLines(s, h, n)
  {
    if n > 0 { SameBefore(s, g, h, n - 1); }
  }

  lemma {:induction false} NothingGone(s: seq<string>, n: nat)
    requires n <= |s|
    ensures Kept(s, {}, n) == s[..n] && MinusLines(s, {}, n) == [] && PlusLines(s, {}, n) == []
  {
    if n > 0 { NothingGone(s, n - 1); }
  }

  lemma MinusesSnoc(d: seq<Line>, l: Line)
    ensures Minuses(d + [l]) == Minuses(d) + (if l.Minus? then [l] else [])
    ensures Pluses(d + [l]) == Pluses(d) + (if l.Plus? then [l] else [])
  {
    assert (d + [l])[..|d|] == d;
  }

  lemma {:induction false} InMinuses(d: seq<Line>, l: Line)
    ensures l in Minuses(d) <==> l in d && l.Minus?
    ensures l in Pluses(d) <==> l in d && l.Plus?
  {
    if d != [] {
      InMinuses(d[..|d| - 1], l);
      assert d == d[..|d| - 1] + [d[|d| - 1]];
    }
  }

  lemma {:induction false} InLines(s: seq<string>, gone: set<nat>, n: nat, l: Line)
    requires n <= |s|
    ensures l in MinusLines(s, gone, n) <==> l.Minus? && l.index < n && l.index in gone && l.text == s[l.index]
    ensures l in PlusLines(s, gone, n) <==> l.Plus? && l.index < n && l.index in gone && l.text == s[l.index]
  {
    if n > 0 { InLines(s, gone, n - 1, l); }
  }

  /** The numbers in the diff are the lines that are gone. */
  lemma SetsOf(d: seq<Line>, w: seq<string>, o: seq<string>, g1: set<nat>, g2: set<nat>)
    requires Minuses(d) == MinusLines(w, g1, |w|) && Pluses(d) == PlusLines(o, g2, |o|)
    requires (forall k :: k in g1 ==> k < |w|) && forall k :: k in g2 ==> k < |o|
    ensures MinusSet(d) == g1 && PlusSet(d) == g2
  {
    forall k ensures k in MinusSet(d) <==> k in g1 {
      if k in g1 {
        InLines(w, g1, |w|, Minus(k, w[k]));
        InMinuses(d, Minus(k, w[k]));
      }
      if k in MinusSet(d) {
        var l :| l in d && l.Minus? && l.index == k;
        InMinuses(d, l);
        InLines(w, g1, |w|, l);
      }
    }
    forall k ensures k in PlusSet(d) <==> k in g2 {
      if k in g2 {
        InLines(o, g2, |o|, Plus(k, o[k]));
        InMinuses(d, Plus(k, o[k]));
      }
      if k in PlusSet(d) {
        var l :| l in d && l.Plus? && l.index == k;
        InMinuses(d, l);
        InLines(o, g2, |o|, l);
      }
    }
  }

  // ---------- the merge ----------

  lemma TakenFirst(diff: seq<Line>, old1: seq<Line>, p: nat)
    requires p < |old1| && old1[p].Minus? && Minuses(diff) == old1[..p]
    ensures Minuses(diff + [old1[p]]) == old1[..p + 1] && Pluses(diff + [old1[p]]) == Pluses(diff)
  {
    MinusesSnoc(diff, old1[p]);
  }

  lemma TakenSecond(diff: seq<Line>, old2: seq<Line>, p: nat)
    requires p < |old2| && old2[p].Plus? && Pluses(diff) == old2[..p]
    ensures Pluses(diff + [old2[p]]) == old2[..p + 1] && Minuses(diff + [old2[p]]) == Minuses(diff)
  {
    MinusesSnoc(diff, old2[p]);
  }

  /** The loop that puts the recorded lines together: every one once, those of each text in their order. */
  method Merge(old1: seq<Line>, old2: seq<Line>) returns (diff: seq<Line>)
    requires (forall l :: l in old1 ==> l.Minus?) && forall l :: l in old2 ==> l.Plus?
    ensures Minuses(diff) == old1 && Pluses(diff) == old2 && |diff| == |old1| + |old2|
  {
    diff := [];
    var p1, p2 := 0, 0;
    var l1: int, l2: int := -2, -2;
    while p1 < |old1| || p2 < |old2|
      invariant 0 <= p1 <= |old1| && 0 <= p2 <= |old2| && |diff| == p1 + p2
      invariant Minuses(diff) == old1[..p1] && Pluses(diff) == old2[..p2]
      decreases |old1| - p1 + |old2| - p2
    {
      var first := if p1 < |old1| && old1[p1].index == l1 + 1 then true
                   else if p2 == |old2| then true
                   else if old2[p2].index == l2 + 1 || p1 == |old1| then false
                   else old1[p1].index < old2[p2].index;
      if first {
        l1 := old1[p1].index;
        TakenFirst(diff, old1, p1);
        diff := diff + [old1[p1]];
        p1 := p1 + 1;
      } else {
        l2 := old2[p2].index;
        TakenSecond(diff, old2, p2);
        diff := diff + [old2[p2]];
        p2 := p2 + 1;
      }
    }
  }

  // ---------- generate_array_diff ----------

  /** The first i lines of ar1 and j lines of ar2 have been compared; those in g1 and g2 are gone. */
  ghost predicate Compared(same: Comparison, ar1: seq<string>, ar2: seq<string>, g1: set<nat>, g2: set<nat>, i: nat, j: nat) {
    && i <= |ar1| && j <= |ar2| && (forall k :: k in g1 ==> k < i) && (forall k :: k in g2 ==> k < j)
    && Aligned(same, Kept(ar1, g1, i), Kept(ar2, g2, j))
    && (Aligned(same, ar1, ar2) ==> i == j && g1 == {} && g2 == {})
  }

  /** The lines d1 and d2 are those that are gone so far. */
  ghost predicate Recorded(w: seq<string>, ar2: seq<string>, g1: set<nat>, g2: set<nat>, i: nat, j: nat, d1: seq<Line>, d2: seq<Line>) {
    i <= |w| && j <= |ar2| && d1 == MinusLines(w, g1, i) && d2 == PlusLines(ar2, g2, j)
  }

  lemma KeepBoth(same: Comparison, ar1: seq<string>, ar2: seq<string>, w: seq<string>, g1: set<nat>, g2: set<nat>, i: nat, j: nat, d1: seq<Line>, d2: seq<Line>)
    requires |w| == |ar1| && Compared(same, ar1, ar2, g1, g2, i, j) && Recorded(w, ar2, g1, g2, i, j, d1, d2)
    requires i < |ar1| && j < |ar2| && same(ar1[i], ar2[j])
    ensures Compared(same, ar1, ar2, g1, g2, i + 1, j + 1) && Recorded(w, ar2, g1, g2, i + 1, j + 1, d1, d2)
  {
  }

  lemma DropFirst(same: Comparison, ar1: seq<string>, ar2: seq<string>, w: seq<string>, g1: set<nat>, g2: set<nat>, i: nat, j: nat, d1: seq<Line>, d2: seq<Line>)
    requires |w| == |ar1| && Compared(same, ar1, ar2, g1, g2, i, j) && Recorded(w, ar2, g1, g2, i, j, d1, d2)
    requires i < |ar1| && !Aligned(same, ar1, ar2)
    ensures Compared(same, ar1, ar2, g1 + {i}, g2, i + 1, j) && Recorded(w, ar2, g1 + {i}, g2, i + 1, j, d1 + [Minus(i, w[i])], d2)
  {
    SameBefore(ar1, g1, g1 + {i}, i);
    SameBefore(w, g1, g1 + {i}, i);
  }

  lemma DropSecond(same: Comparison, ar1: seq<string>, ar2: seq<string>, w: seq<string>, g1: set<nat>, g2: set<nat>, i: nat, j: nat, d1: seq<Line>, d2: seq<Line>)
    requires |w| == |ar1| && Compared(same, ar1, ar2, g1, g2, i, j) && Recorded(w, ar2, g1, g2, i, j, d1, d2)
    requires j < |ar2| && !Aligned(same, ar1, ar2)
    ensures Compared(same, ar1, ar2, g1, g2 + {j}, i, j + 1) && Recorded(w, ar2, g1, g2 + {j}, i, j + 1, d1, d2 + [Plus(j, ar2[j])])
  {
    SameBefore(ar2, g2, g2 + {j}, j);
  }

  /** Lines that do not agree, or are left over, show that the texts are not aligned. */
  lemma NotAligned(same: Comparison, ar1: seq<string>, ar2: seq<string>, g1: set<nat>, g2: set<nat>, i: nat, j: nat)
    requires Compared(same, ar1, ar2, g1, g2, i, j)
    requires (i < |ar1| && j < |ar2| && !same(ar1[i], ar2[j])) || (i < |ar1| && j == |ar2|) || (i == |ar1| && j < |ar2|)
    ensures !Aligned(same, ar1, ar2)
  {
  }

  /** generate_array_diff; w are the lines to show for ar1. */
  method GenerateArrayDiff(same: Comparison, ar1: seq<string>, ar2: seq<string>, w: seq<string>) returns (diff: seq<Line>)
    requires |w| == |ar1|
    ensures Sound(same, ar1, ar2, w, diff)
    ensures diff == [] <==> Aligned(same, ar1, ar2)
  {
    var idx1, idx2, old1, old2 := 0, 0, [], [];
    ghost var g1: set<nat>, g2: set<nat> := {}, {};
    while idx1 < |ar1| && idx2 < |ar2|
      invariant Compared(same, ar1, ar2, g1, g2, idx1, idx2) && Recorded(w, ar2, g1, g2, idx1, idx2, old1, old2)
      decreases |ar1| - idx1 + |ar2| - idx2
    {
      if same(ar1[idx1], ar2[idx2]) {
        KeepBoth(same, ar1, ar2, w, g1, g2, idx1, idx2, old1, old2);
        idx1, idx2 := idx1 + 1, idx2 + 1;
        continue;
      }
      NotAligned(same, ar1, ar2, g1, g2, idx1, idx2);
      var c1 := CountArrayDiff(same, ar1, ar2, idx1 + 1, idx2, 10.0);
      var c2 := CountArrayDiff(same, ar1, ar2, idx1, idx2 + 1, 10.0);
      var drop1, drop2 := c1 > c2 || c2 == 0, c1 <= c2;
      if drop1 {
        DropFirst(same, ar1, ar2, w, g1, g2, idx1, idx2, old1, old2);
        old1, g1, idx1 := old1 + [Minus(idx1, w[idx1])], g1 + {idx1}, idx1 + 1;
      }
      if drop2 {
        DropSecond(same, ar1, ar2, w, g1, g2, idx1, idx2, old1, old2);
        old2, g2, idx2 := old2 + [Plus(idx2, ar2[idx2])], g2 + {idx2}, idx2 + 1;
      }
    }
    if Aligned(same, ar1, ar2) {
      NothingGone(w, idx1);
      NothingGone(ar2, idx2);
    }
    AllOfKind(w, ar2, g1, g2, idx1, idx2);
    diff := Merge(old1, old2);
    diff := Rest(same, ar1, ar2, w, g1, g2, idx1, idx2, diff);
  }

  lemma AllOfKind(w: seq<string>, o: seq<string>, g1: set<nat>, g2: set<nat>, i: nat, j: nat)
    requires i <= |w| && j <= |o|
    ensures (forall l :: l in MinusLines(w, g1, i) ==> l.Minus?) && forall l :: l in PlusLines(o, g2, j) ==> l.Plus?
  {
    forall l | l in MinusLines(w, g1, i) ensures l.Minus? { InLines(w, g1, i, l); }
    forall l | l in PlusLines(o, g2, j) ensures l.Plus? { InLines(o, g2, j, l); }
  }

  /** The last two loops: what is left of either text. */
  method Rest(same: Comparison, ar1: seq<string>, ar2: seq<string>, w: seq<string>, ghost h1: set<nat>, ghost h2: set<nat>, i: nat, j: nat, d: seq<Line>)
    returns (diff: seq<Line>)
    requires |w| == |ar1| && Compared(same, ar1, ar2, h1, h2, i, j) && Recorded(w, ar2, h1, h2, i, j, Minuses(d), Pluses(d)) && (i == |ar1| || j == |ar2|)
    requires d == [] || !Aligned(same, ar1, ar2)
    ensures Sound(same, ar1, ar2, w, diff)
    ensures diff == [] <==> Aligned(same, ar1, ar2)
  {
    diff := d;
    ghost var g1: set<nat>, g2: set<nat> := h1, h2;
    var idx1, idx2 := i, j;
    while idx1 < |ar1|
      invariant Compared(same, ar1, ar2, g1, g2, idx1, idx2) && Recorded(w, ar2, g1, g2, idx1, idx2, Minuses(diff), Pluses(diff))
      invariant idx2 == j && (diff == [] || !Aligned(same, ar1, ar2))
    {
      NotAligned(same, ar1, ar2, g1, g2, idx1, idx2);
      DropFirst(same, ar1, ar2, w, g1, g2, idx1, idx2, Minuses(diff), Pluses(diff));
      MinusesSnoc(diff, Minus(idx1, w[idx1]));
      diff, g1, idx1 := diff + [Minus(idx1, w[idx1])], g1 + {idx1}, idx1 + 1;
    }
    while idx2 < |ar2|
      invariant idx1 == |ar1| && Compared(same, ar1, ar2, g1, g2, idx1, idx2) && Recorded(w, ar2, g1, g2, idx1, idx2, Minuses(diff), Pluses(diff))
      invariant diff == [] || !Aligned(same, ar1, ar2)
    {
      NotAligned(same, ar1, ar2, g1, g2, idx1, idx2);
      DropSecond(same, ar1, ar2, w, g1, g2, idx1, idx2, Minuses(diff), Pluses(diff));
      MinusesSnoc(diff, Plus(idx2, ar2[idx2]));
      diff, g2, idx2 := diff + [Plus(idx2, ar2[idx2])], g2 + {idx2}, idx2 + 1;
    }
    AllCompared(same, ar1, ar2, w, g1, g2, diff);
  }

  lemma AllCompared(same: Comparison, ar1: seq<string>, ar2: seq<string>, w: seq<string>, g1: set<nat>, g2: set<nat>, d: seq<Line>)
    requires |w| == |ar1| && Compared(same, ar1, ar2, g1, g2, |ar1|, |ar2|) && Recorded(w, ar2, g1, g2, |w|, |ar2|, Minuses(d), Pluses(d))
    ensures Sound(same, ar1, ar2, w, d)
    ensures d == [] ==> Aligned(same, ar1, ar2)
  {
    SetsOf(d, w, ar2, g1, g2);
    if d == [] {
      assert MinusSet(d) == {} && PlusSet(d) == {};
      NothingGone(ar1, |ar1|);
      NothingGone(ar2, |ar2|);
      assert ar1[..|ar1|] == ar1 && ar2[..|ar2|] == ar2;
    }
  }

  // ---------- what a diff is good for ----------

  function Same(x: string, y: string): bool { x == y }

  /** The first n lines of a text, from the lines `rest` that are common and those that a diff shows with "-". */
  ghost function Restored(rest: seq<string>, minus: map<nat, string>, n: nat): seq<string> {
    if n == 0 then []
    else if n - 1 in minus then Restored(rest, minus, n - 1) + [minus[n - 1]]
    else
      var before := Restored(rest, minus, n - 1);
      var k := Common(minus, n - 1);
      before + (if k < |rest| then [rest[k]] else [])
  }

  /** How many of the first n lines the diff does not show. */
  ghost function Common(minus: map<nat, string>, n: nat): nat {
    if n == 0 then 0 else Common(minus, n - 1) + (if n - 1 in minus then 0 else 1)
  }

  ghost function Shown(d: seq<Line>): map<nat, string> {
    map k | k in MinusSet(d) :: TextOf(d, k)
  }

  ghost function TextOf(d: seq<Line>, k: nat): string
    requires k in MinusSet(d)
  {
    var l :| l in d && l.Minus? && l.index == k;
    l.text
  }

  lemma {:induction false} KeptLength(s: seq<string>, minus: map<nat, string>, gone: set<nat>, n: nat)
    requires n <= |s| && gone == minus.Keys
    ensures |Kept(s, gone, n)| == Common(minus, n)
  {
    if n > 0 { KeptLength(s, minus, gone, n - 1); }
  }

  lemma {:induction false} KeptPrefix(s: seq<string>, gone: set<nat>, n: nat, m: nat)
    requires n <= m <= |s|
    ensures Kept(s, gone, n) <= Kept(s, gone, m)
  {
    if n < m { KeptPrefix(s, gone, n, m - 1); }
  }

  lemma {:induction false} RestoredIs(s: seq<string>, minus: map<nat, string>, gone: set<nat>, n: nat)
    requires n <= |s| && gone == minus.Keys && forall k :: k in minus && k < |s| ==> minus[k] == s[k]
    ensures Restored(Kept(s, gone, |s|), minus, n) == s[..n]
  {
    if n > 0 {
      RestoredIs(s, minus, gone, n - 1);
      assert s[..n] == s[..n - 1] + [s[n - 1]];
      if n - 1 !in gone {
        KeptLength(s, minus, gone, n - 1);
        KeptPrefix(s, gone, n, |s|);
      }
    }
  }

  /** In exact mode, the diff and the actual text are enough to get the expected text back. */
  lemma Patched(w: seq<string>, o: seq<string>, d: seq<Line>)
    requires Sound(Same, w, o, w, d)
    ensures Kept(w, MinusSet(d), |w|) == Kept(o, PlusSet(d), |o|)
    ensures Restored(Kept(o, PlusSet(d), |o|), Shown(d), |w|) == w
  {
    var x, y := Kept(w, MinusSet(d), |w|), Kept(o, PlusSet(d), |o|);
    assert forall k :: 0 <= k < |x| ==> Same(x[k], y[k]);
    assert x == y;
    forall k | k in Shown(d) && k < |w| ensures Shown(d)[k] == w[k] {
      var l :| l in d && l.Minus? && l.index == k && l.text == TextOf(d, k);
      InMinuses(d, l);
      InLines(w, MinusSet(d), |w|, l);
    }
    RestoredIs(w, Shown(d), MinusSet(d), |w|);
    assert w[..|w|] == w;
  }

  /** generate_diff on lists of lines: with a pattern per line, or, without patterns, by equality. */
  method GenerateDiff(wanted: seq<string>, patterns: seq<string>, exact: bool, matches: Comparison, output: seq<string>) returns (diff: seq<Line>)
    requires |patterns| == |wanted|
    ensures exact ==> Sound(Same, wanted, output, wanted, diff) && Restored(Kept(output, PlusSet(diff), |output|), Shown(diff), |wanted|) == wanted
    ensures exact ==> (diff == [] <==> wanted == output)
    ensures !exact ==> Sound(matches, patterns, output, wanted, diff) && (diff == [] <==> Aligned(matches, patterns, output))
  {
    if exact {
      diff := GenerateArrayDiff(Same, wanted, output, wanted);
      Patched(wanted, output, diff);
      AlignedIsEqual(wanted, output);
    } else {
      diff := GenerateArrayDiff(matches, patterns, output, wanted);
    }
  }

  lemma AlignedIsEqual(a: seq<string>, b: seq<string>)
    ensures Aligned(Same, a, b) <==> a == b
  {
    if Aligned(Same, a, b) {
      assert forall k :: 0 <= k < |a| ==> Same(a[k], b[k]);
      assert a == b;
    }
  }
}
