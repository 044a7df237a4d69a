/** Sums over finite maps. */
module Sums {

  lemma Inhabited(s: set<int>)
    requires s != {}
    ensures exists x :: x in s
  {
    assert (forall x :: x !in s) ==> s == {};
  }

  ghost function Sum(m: map<int, nat>): nat
    decreases m.Keys
  {
    if m.Keys == {} then 0
    else
      Inhabited(m.Keys);
      var k :| k in m.Keys;
      m[k] + Sum(m - {k})
  }

  /** Any one entry can be counted first. */
  lemma {:induction false} SumWithout(m: map<int, nat>, k: int)
    requires k in m
    ensures Sum(m) == m[k] + Sum(m - {k})
    decreases m.Keys
  {
    var j :| j in m && Sum(m) == m[j] + Sum(m - {j});
    if j != k {
      SumWithout(m - {j}, k);
      SumWithout(m - {k}, j);
      assert m - {j} - {k} == m - {k} - {j};
    }
  }

  lemma SumSet(m: map<int, nat>, k: int, v: nat)
    ensures Sum(m[k := v]) == Sum(m - {k}) + v
    ensures Sum(m[k := v]) == (if k in m then Sum(m) - m[k] else Sum(m)) + v
  {
    SumWithout(m[k := v], k);
    assert m[k := v] - {k} == m - {k};
    if k in m {
      SumWithout(m, k);
    } else {
      assert m - {k} == m;
    }
  }

  /** The largest key. */
  ghost function Top(s: set<int>): (k: int)
    requires s != {}
    ensures k in s && forall x :: x in s ==> x <= k
  {
    Inhabited(s);
    var x :| x in s;
    var rest := s - {x};
    assert forall y :: y in s ==> y == x || y in rest;
    if rest == {} then x
    else
      var y := Top(rest);
      if x > y then x else y
  }

  /** Regions that do not overlap and end below a bound add up to no more than the bound. */
  lemma {:induction false} Packed(m: map<int, nat>, bound: int)
    requires forall g :: g in m ==> 0 <= g && g + m[g] <= bound
    requires forall g, h :: g in m && h in m && g < h ==> g + m[g] <= h
    requires bound >= 0
    ensures Sum(m) <= bound
    decreases m.Keys
  {
    if m.Keys != {} {
      var g := Top(m.Keys);
      SumWithout(m, g);
      Packed(m - {g}, g);
    }
  }
}
