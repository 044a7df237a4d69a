/**
 An abstract file system and the simple way to resolve a path on it: part by part from left to right,
 replacing every symbolic link by its target.
 */
module FileTree {
  import opened PathText

  const MAXPATHLEN: nat := 4096

  datatype Node = File | Dir | Link(target: string)

  /** Nodes by location: the names on the way from the root, without links. */
  type Tree = map<seq<string>, Node>

  /** A place below the root has a proper name in a directory. */
  ghost predicate PlaceOk(t: Tree, q: seq<string>) { q in t && q != [] ==> Proper(Last(q)) && Front(q) in t && t[Front(q)] == Dir }

  ghost predicate TreeOk(t: Tree) {
    && [] in t && t[[]] == Dir
    && (forall q {:trigger PlaceOk(t, q)} :: PlaceOk(t, q))
    && (forall q {:trigger t[q]} :: q in t && t[q].Link? ==> 0 < |t[q].target| < MAXPATHLEN)
  }

  predicate Absolute(s: string) { s != "" && s[0] == '/' }

  function PartsOf(s: string): seq<string> { Parts(s, if Absolute(s) then 1 else 0) }

  function Up(q: seq<string>): seq<string> { if q == [] then q else Front(q) }

  /** Where a walk ends and how many more links it could have followed. */
  datatype Stop = Nowhere | At(place: seq<string>, left: nat)

  /**
   The walk from q along ps, following at most n links; a link that is the very last part is followed
   only if `follow` holds.
   */
  ghost function Walk(t: Tree, n: nat, q: seq<string>, ps: seq<string>, follow: bool): Stop
    decreases n, |ps|
  {
    if ps == [] then At(q, n)
    else if q !in t || t[q] != Dir then Nowhere
    else
      var c, rest := ps[0], ps[1..];
      if c == "" || c == "." then Walk(t, n, q, rest, follow)
      else if c == ".." then Walk(t, n, Up(q), rest, follow)
      else if q + [c] !in t then Nowhere
      else
        var x := t[q + [c]];
        if x.Link? && (follow || rest != []) then
          if n == 0 then Nowhere
          else Walk(t, n - 1, if Absolute(x.target) then [] else q, PartsOf(x.target) + rest, follow)
        else Walk(t, n, q + [c], rest, follow)
  }

  /** The walk reaches r, following as many links as it takes. */
  ghost predicate Reaches(t: Tree, q: seq<string>, ps: seq<string>, follow: bool, r: seq<string>) {
    exists n: nat, m: nat :: Walk(t, n, q, ps, follow) == At(r, m)
  }

  /** A budget for more links does not change where a walk ends. */
  lemma {:induction false} WalkMore(t: Tree, n: nat, q: seq<string>, ps: seq<string>, follow: bool, d: nat)
    requires Walk(t, n, q, ps, follow).At?
    ensures var w := Walk(t, n, q, ps, follow); w.left <= n && Walk(t, n + d, q, ps, follow) == At(w.place, w.left + d)
    decreases n, |ps|
  {
    if ps != [] {
      var c, rest := ps[0], ps[1..];
      if c == "" || c == "." {
        WalkMore(t, n, q, rest, follow, d);
      } else if c == ".." {
        WalkMore(t, n, Up(q), rest, follow, d);
      } else {
        var x := t[q + [c]];
        if x.Link? && (follow || rest != []) {
          WalkMore(t, n - 1, if Absolute(x.target) then [] else q, PartsOf(x.target) + rest, follow, d);
        } else {
          WalkMore(t, n, q + [c], rest, follow, d);
        }
      }
    }
  }

  /** A walk along a + b is the walk along b from where the walk along a ends. */
  lemma {:induction false} WalkOn(t: Tree, n: nat, q: seq<string>, a: seq<string>, b: seq<string>, follow: bool)
    requires b != []
    ensures Walk(t, n, q, a + b, follow) ==
            var w := Walk(t, n, q, a, true); if w.Nowhere? then Nowhere else Walk(t, w.left, w.place, b, follow)
    decreases n, |a|
  {
    if a == [] {
      assert a + b == b;
    } else if q in t && t[q] == Dir {
      var c, rest := a[0], a[1..];
      assert (a + b)[0] == c && (a + b)[1..] == rest + b;
      if c == "" || c == "." {
        WalkOn(t, n, q, rest, b, follow);
      } else if c == ".." {
        WalkOn(t, n, Up(q), rest, b, follow);
      } else if q + [c] in t {
        var x := t[q + [c]];
        if x.Link? {
          if n > 0 {
            var from, ps := if Absolute(x.target) then [] else q, PartsOf(x.target) + rest;
            WalkOn(t, n - 1, from, ps, b, follow);
            assert PartsOf(x.target) + (rest + b) == ps + b;
          }
        } else {
          WalkOn(t, n, q + [c], rest, b, follow);
        }
      }
    }
  }

  /** Every link leads somewhere. */
  ghost predicate NoDangling(t: Tree) {
    forall q {:trigger Leads(t, q)} :: q in t && t[q].Link? ==> Leads(t, q)
  }

  ghost predicate Leads(t: Tree, q: seq<string>) { q != [] && exists r :: Reaches(t, Front(q), [Last(q)], true, r) }

  /** Walks end in one place only. */
  lemma ReachesOne(t: Tree, q: seq<string>, ps: seq<string>, follow: bool, r: seq<string>, s: seq<string>)
    requires Reaches(t, q, ps, follow, r) && Reaches(t, q, ps, follow, s)
    ensures r == s
  {
    var n: nat, m: nat :| Walk(t, n, q, ps, follow) == At(r, m);
    var i: nat, j: nat :| Walk(t, i, q, ps, follow) == At(s, j);
    WalkMore(t, n, q, ps, follow, i);
    WalkMore(t, i, q, ps, follow, n);
  }

  /** Reaching a place along a + [c] means reaching one along a, and going on from there. */
  lemma ReachesBefore(t: Tree, q: seq<string>, a: seq<string>, b: seq<string>, follow: bool, r: seq<string>) returns (x: seq<string>)
    requires Reaches(t, q, a + b, follow, r) && b != []
    ensures Reaches(t, q, a, true, x) && Reaches(t, x, b, follow, r)
  {
    var n: nat, m: nat :| Walk(t, n, q, a + b, follow) == At(r, m);
    WalkOn(t, n, q, a, b, follow);
    var w := Walk(t, n, q, a, true);
    x := w.place;
    assert Walk(t, n, q, a, true) == At(x, w.left);
    assert Walk(t, w.left, x, b, follow) == At(r, m);
  }

  lemma ReachesOn(t: Tree, q: seq<string>, a: seq<string>, b: seq<string>, follow: bool, x: seq<string>, r: seq<string>)
    requires Reaches(t, q, a, true, x) && Reaches(t, x, b, follow, r)
    ensures b != [] ==> Reaches(t, q, a + b, follow, r)
  {
    if b != [] {
      var n: nat, m: nat :| Walk(t, n, q, a, true) == At(x, m);
      var i: nat, j: nat :| Walk(t, i, x, b, follow) == At(r, j);
      WalkMore(t, n, q, a, true, i);
      WalkMore(t, i, x, b, follow, m);
      WalkOn(t, n + i, q, a, b, follow);
      assert Walk(t, n + i, q, a + b, follow) == At(r, j + m);
    }
  }
}
