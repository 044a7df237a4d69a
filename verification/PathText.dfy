/** Paths as text: splitting at slashes, putting together again, and the normal form of CWD_EXPAND. */
module PathText {

  /** Where the last part of s starts: behind the last slash, but not before `start`. */
  function LastStart(s: string, start: nat): (i: nat)
    requires start <= |s|
    ensures start <= i <= |s|
    ensures i > start ==> s[i - 1] == '/'
    ensures forall k :: i <= k < |s| ==> s[k] != '/'
    decreases |s|
  {
    if |s| == start || s[|s| - 1] == '/' then |s| else LastStart(s[..|s| - 1], start)
  }

  /** The parts between the slashes, from left to right; `start` is 1 for an absolute path. */
  function Parts(s: string, start: nat): seq<string>
    decreases |s|
  {
    if |s| <= start then []
    else
      var i := LastStart(s, start);
      (if i <= start then [] else Parts(s[..i - 1], start)) + [s[i..]]
  }

  predicate Proper(c: string) { c != "" && c != "." && c != ".." && '/' !in c }

  function Front<T>(q: seq<T>): seq<T>
    requires q != []
  {
    q[..|q| - 1]
  }

  function Last<T>(q: seq<T>): T
    requires q != []
  {
    q[|q| - 1]
  }

  /** A path from its parts, the way the resolver appends them. */
  function Render(q: seq<string>, start: nat): (s: string)
    ensures start == 1 ==> |s| >= 1 && s[0] == '/'
    decreases |q|
  {
    if q == [] then (if start == 1 then "/" else "")
    else
      var p := Render(Front(q), start);
      (if |p| > start then p + "/" else p) + Last(q)
  }

  // ---------- the component stack ----------

  /** One part more: empty parts and "." are dropped, ".." pops; at the root it is dropped, before a relative path it stays. */
  function Push(q: seq<string>, c: string, start: nat): seq<string> {
    if c == "" || c == "." then q
    else if c == ".." then
      if q != [] && Last(q) != ".." then Front(q) else if start == 1 then q else q + [c]
    else q + [c]
  }

  function Normal(ps: seq<string>, start: nat): seq<string>
    decreases |ps|
  {
    if ps == [] then [] else Push(Normal(Front(ps), start), Last(ps), start)
  }

  /** The component stack a path stands for. */
  function Stack(s: string, start: nat): seq<string> { Normal(Parts(s, start), start) }

  /** What CWD_EXPAND promises for the text of a path. */
  function Expanded(s: string, start: nat): string { Render(Stack(s, start), start) }

  /** All of a path but its last part, and the last part. */
  function HeadOf(s: string, start: nat): (h: string)
    requires |s| > start
    ensures |h| < |s|
  {
    var i := LastStart(s, start); if i <= start then "" else s[..i - 1]
  }

  function NameOf(s: string, start: nat): string
    requires |s| > start
  {
    s[LastStart(s, start)..]
  }

  lemma PartsStep(s: string, start: nat)
    requires |s| > start
    ensures Parts(s, start) == Parts(HeadOf(s, start), start) + [NameOf(s, start)]
    ensures LastStart(s, start) <= start + 1 ==> Parts(HeadOf(s, start), start) == []
    ensures '/' !in NameOf(s, start)
  {
  }

  /** The stack of a path is that of its head with the last part pushed. */
  lemma StackStep(s: string, start: nat)
    requires |s| > start
    ensures Stack(s, start) == Push(Stack(HeadOf(s, start), start), NameOf(s, start), start)
    ensures LastStart(s, start) <= start + 1 ==> Stack(HeadOf(s, start), start) == []
  {
    PartsStep(s, start);
    var before, c := Parts(HeadOf(s, start), start), NameOf(s, start);
    assert Front(before + [c]) == before && Last(before + [c]) == c;
  }

  lemma StackNormal(s: string, start: nat)
    requires start <= 1
    ensures NormalParts(Stack(s, start), start)
    ensures Clean(Stack(s, start))
  {
    PartsHaveNoSlash(s, start);
    NormalIsNormal(Parts(s, start), start);
    NormalIsClean(Stack(s, start), start);
  }

  /** Proper names, after any number of ".." if the path is relative. */
  predicate NormalParts(q: seq<string>, start: nat)
    decreases |q|
  {
    q == []
    || (NormalParts(Front(q), start)
        && (Proper(Last(q)) || (start == 0 && Last(q) == ".." && (Front(q) == [] || Last(Front(q)) == ".."))))
  }

  // ---------- laws of splitting ----------

  lemma {:induction false} PartsHaveNoSlash(s: string, start: nat)
    ensures forall c :: c in Parts(s, start) ==> '/' !in c
    decreases |s|
  {
    if |s| > start {
      var i := LastStart(s, start);
      if i > start { PartsHaveNoSlash(s[..i - 1], start); }
    }
  }

  lemma PushNormal(q: seq<string>, c: string, start: nat)
    requires NormalParts(q, start) && '/' !in c && start <= 1
    ensures NormalParts(Push(q, c, start), start)
  {
    assert Front(q + [c]) == q && Last(q + [c]) == c;
  }

  lemma {:induction false} NormalIsNormal(ps: seq<string>, start: nat)
    requires start <= 1 && forall c :: c in ps ==> '/' !in c
    ensures NormalParts(Normal(ps, start), start)
    decreases |ps|
  {
    if ps != [] {
      NormalIsNormal(Front(ps), start);
      PushNormal(Normal(Front(ps), start), Last(ps), start);
    }
  }

  /** What being normal means for every single part. */
  lemma {:induction false} NormalMeans(q: seq<string>, start: nat, k: nat)
    requires NormalParts(q, start) && k < |q|
    ensures Proper(q[k]) || (start == 0 && q[k] == ".." && forall i :: 0 <= i < k ==> q[i] == "..")
    decreases |q|
  {
    if k < |q| - 1 {
      NormalMeans(Front(q), start, k);
    } else if q[k] == ".." && k > 0 {
      NormalMeans(Front(q), start, k - 1);
      assert Front(q)[k - 1] == "..";
      forall i | 0 <= i < k ensures q[i] == ".." {
        assert Front(q)[i] == q[i];
      }
    }
  }

  /** Parts that can be written behind a slash. */
  predicate Clean(q: seq<string>)
    decreases |q|
  {
    q == [] || (Clean(Front(q)) && Last(q) != "" && '/' !in Last(q))
  }

  lemma {:induction false} NormalIsClean(q: seq<string>, start: nat)
    requires NormalParts(q, start)
    ensures Clean(q)
    decreases |q|
  {
    if q != [] {
      NormalIsClean(Front(q), start);
    }
  }

  /** A normal sequence of parts is its own normal form. */
  lemma {:induction false} NormalFixed(q: seq<string>, start: nat)
    requires NormalParts(q, start) && start <= 1
    ensures Normal(q, start) == q
    decreases |q|
  {
    if q != [] {
      NormalFixed(Front(q), start);
      assert q == Front(q) + [Last(q)];
    }
  }

  /** The last part of a text without slash behind the last one. */
  lemma {:induction false} LastStartAt(s: string, start: nat, i: nat)
    requires start <= i <= |s| && (i == start || s[i - 1] == '/') && forall k :: i <= k < |s| ==> s[k] != '/'
    ensures LastStart(s, start) == i
    decreases |s|
  {
    if |s| > i {
      LastStartAt(s[..|s| - 1], start, i);
    }
  }

  /** The last part is what follows the last slash. */
  lemma PartsSnoc(p: string, c: string, start: nat)
    requires |p| > start && '/' !in c
    ensures Parts(p + "/" + c, start) == Parts(p, start) + [c]
  {
    var s := p + "/" + c;
    LastStartAt(s, start, |p| + 1);
    assert s[..|p|] == p && s[|p| + 1..] == c;
  }

  lemma PartsOne(c: string, start: nat)
    requires c != "" && '/' !in c && start <= 1
    ensures Parts((if start == 1 then "/" else "") + c, start) == [c]
  {
    var s := (if start == 1 then "/" else "") + c;
    LastStartAt(s, start, start);
    assert s[start..] == c;
  }

  /** Rendering one part more. */
  lemma RenderSnoc(q: seq<string>, c: string, start: nat)
    ensures Render(q + [c], start) == var p := Render(q, start); (if |p| > start then p + "/" else p) + c
  {
    assert Front(q + [c]) == q && Last(q + [c]) == c;
  }

  lemma PartsOfSnoc(q: seq<string>, c: string, start: nat)
    requires start <= 1 && c != "" && '/' !in c
    requires Parts(Render(q, start), start) == q && (|Render(q, start)| > start <==> q != [])
    ensures Parts(Render(q + [c], start), start) == q + [c] && |Render(q + [c], start)| > start
  {
    RenderSnoc(q, c, start);
    if q == [] {
      PartsOne(c, start);
    } else {
      PartsSnoc(Render(q, start), c, start);
    }
  }

  /** Splitting undoes rendering. */
  lemma {:induction false} PartsOfRender(q: seq<string>, start: nat)
    requires start <= 1 && Clean(q)
    ensures Parts(Render(q, start), start) == q
    ensures |Render(q, start)| > start <==> q != []
    decreases |q|
  {
    if q != [] {
      PartsOfRender(Front(q), start);
      assert q == Front(q) + [Last(q)];
      PartsOfSnoc(Front(q), Last(q), start);
    }
  }

  /** The normal form of a path is a fixed point of the expansion. */
  lemma ExpandedTwice(s: string, start: nat)
    requires start <= 1
    ensures Expanded(Expanded(s, start), start) == Expanded(s, start)
  {
    StackNormal(s, start);
    PartsOfRender(Stack(s, start), start);
    NormalFixed(Stack(s, start), start);
  }

  /** Expansion never makes a path longer. */
  lemma {:induction false} ExpandedNoLonger(s: string, start: nat)
    requires start <= 1
    ensures |Expanded(s, start)| <= if |s| <= start then start else |s|
    decreases |s|
  {
    if |s| > start {
      var h, c := HeadOf(s, start), NameOf(s, start);
      ExpandedNoLonger(h, start);
      StackStep(s, start);
      PushNoLonger(Stack(h, start), c, start);
      assert LastStart(s, start) <= start + 1 || |h| + 1 + |c| == |s|;
    }
  }

  lemma PushNoLonger(q: seq<string>, c: string, start: nat)
    requires start <= 1
    ensures |Render(Push(q, c, start), start)| <= if q == [] then start + |c| else |Render(q, start)| + 1 + |c|
  {
    RenderSnoc(q, c, start);
  }

  /** The parts of a relative path behind a directory. */
  lemma {:induction false} PartsJoin(a: string, b: string)
    requires b != "" && b[0] != '/'
    ensures Parts(a + "/" + b, 1) == Parts(a, 1) + Parts(b, 0)
    decreases |b|
  {
    var k := LastStart(b, 0);
    var c := b[k..];
    if k == 0 {
      assert c == b;
      if |a| > 1 {
        PartsSnoc(a, b, 1);
      } else {
        LastStartAt(a + "/" + b, 1, |a| + 1);
        assert (a + "/" + b)[|a| + 1..] == b;
      }
    } else {
      var d := b[..k - 1];
      assert b == d + "/" + c;
      assert a + "/" + b == (a + "/" + d) + "/" + c;
      assert k != 1;
      PartsJoin(a, d);
      PartsSnoc(a + "/" + d, c, 1);
    }
  }

  /** A part without slash behind a text that ends in one. */
  lemma EndsWith(h: string, c: string, start: nat)
    requires c != "" && '/' !in c && start <= |h| && (|h| > start ==> h[|h| - 1] == '/')
    ensures LastStart(h + c, start) == |h| && (h + c)[|h|..] == c && (h + c)[..|h|] == h
  {
    LastStartAt(h + c, start, |h|);
  }

  /** The last part of a rendered text, and what is before it. */
  lemma RenderedEnd(q: seq<string>, start: nat)
    requires q != [] && start <= 1 && Clean(q)
    ensures var p, i := Render(q, start), LastStart(Render(q, start), start);
            && start < |p| && i < |p| && p[i..] == Last(q) && (i <= start <==> Front(q) == [])
            && Render(Front(q), start) == p[..if i <= start then start else i - 1]
  {
    var f := Render(Front(q), start);
    PartsOfRender(Front(q), start);
    if Front(q) == [] {
      EndsWith(f, Last(q), start);
    } else {
      EndsWith(f + "/", Last(q), start);
      assert (f + "/" + Last(q))[..|f|] == f;
    }
  }
}
