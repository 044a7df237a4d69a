/**
 The path buffer: the small pieces of C text handling of tsrm_realpath_r, each with what it does to
 the text.
 */
module PathBuffer {
  import opened PathText
  import opened FileTree
  import opened RealpathLaws

  /** A relative path whose normal form ends in "..". */
  predicate EndsUp(q: seq<string>) { q != [] && Last(q) == ".." }

  /** The last of the first len characters of the buffer starts at i, and is c. */
  ghost predicate PartAt(p: seq<char>, start: nat, len: nat, i: nat, c: string) {
    start < len <= |p| && i == LastStart(p[..len], start) && c == p[i..len]
  }

  lemma PartAtMeans(p: seq<char>, start: nat, len: nat, i: nat, c: string)
    requires PartAt(p, start, len, i, c)
    ensures start <= i <= len && NameOf(p[..len], start) == c && |c| == len - i
    ensures HeadOf(p[..len], start) == (if i <= start then "" else p[..i - 1]) && (i > start ==> p[i - 1] == '/')
  {
    assert p[..len][i..] == p[i..len];
  }

  /** Where the last part begins. */
  method LastSlash(path: array<char>, start: nat, len: nat) returns (i: nat)
    requires start <= len <= path.Length
    ensures i == LastStart(path[..][..len], start)
  {
    i := len;
    while i > start && path[i - 1] != '/'
      invariant start <= i <= len
      invariant forall k :: i <= k < len ==> path[k] != '/'
    {
      i := i - 1;
    }
    LastStartAt(path[..][..len], start, i);
  }

  /** The code's tests for a part that is dropped, and for "..". */
  lemma DotTests(p: seq<char>, start: nat, len: nat, i: nat)
    requires start < len <= |p| && i == LastStart(p[..len], start)
    ensures (i == len || (i == len - 1 && p[i] == '.')) <==> p[i..len] == "" || p[i..len] == "."
    ensures (i == len - 2 && p[i] == '.' && p[i + 1] == '.') <==> p[i..len] == ".."
    ensures p[i..len] == "" || p[i..len] == "." || p[i..len] == ".." || Proper(p[i..len])
  {
    var c := p[i..len];
    assert |c| == len - i && (i < len ==> c[0] == p[i]) && (i + 1 < len ==> c[1] == p[i + 1]);
    assert i == len - 1 ==> c == [p[i]];
    assert i == len - 2 ==> c == [p[i], p[i + 1]];
  }

  /** memcpy of a text to the place at. */
  method CopyIn(path: array<char>, at: nat, text: string)
    requires at + |text| <= path.Length
    modifies path
    ensures path[..] == old(path[..])[..at] + text + old(path[..])[at + |text|..]
  {
    ghost var was := path[..];
    var k := 0;
    while k < |text|
      invariant 0 <= k <= |text|
      invariant path[..] == was[..at] + text[..k] + was[at + k..]
    {
      path[at + k] := text[k];
      k := k + 1;
    }
    assert text[..k] == text;
  }

  /** Back to the slash before the last part. */
  method BackToSlash(path: array<char>, start: nat, end: nat) returns (j: nat)
    requires start < end <= path.Length
    ensures start <= j < end && (j > start ==> path[j] == '/') && forall k :: j < k < end ==> path[k] != '/'
  {
    j := end - 1;
    while j > start && path[j] != '/'
      invariant start <= j < end
      invariant forall k :: j < k < end ==> path[k] != '/'
    {
      j := j - 1;
    }
  }

  /** Removes the last part of an absolute path. */
  method PopAbsolute(path: array<char>, end: nat) returns (j: nat)
    requires 1 <= end <= path.Length
    ensures 1 <= j <= end && path[..j] == PopText(path[..end])
  {
    j := end;
    if j > 1 {
      j := BackToSlash(path, 1, end);
      LastStartAt(path[..end], 1, if path[j] == '/' then j + 1 else j);
      assert path[..end][..j] == path[..j] && path[..end][..1] == path[..1];
    }
  }

  lemma PopRoot(p: seq<char>)
    requires |p| >= 1
    ensures PopText(p[..1]) == p[..1]
  {
  }

  lemma PopTextRendered(q: seq<string>)
    requires NormalParts(q, 1)
    ensures PopText(Render(q, 1)) == Render(Push(q, "..", 1), 1)
  {
    if q != [] {
      NormalIsClean(q, 1);
      NormalMeans(q, 1, |q| - 1);
      RenderedEnd(q, 1);
    }
  }

  /** What PopInPlace leaves of a relative path. */
  ghost predicate Popped(t: seq<char>, j: nat, q: seq<string>) {
    j < |t| && t[..j] == Render(Push(q, "..", 0), 0) && (EndsUp(Push(q, "..", 0)) ==> t[j] == '/')
  }

  lemma {:induction false} RenderedHead(q: seq<string>)
    requires NormalParts(q, 0) && q != []
    ensures |Render(q, 0)| > 0 && Render(q, 0)[0] != '/'
    decreases |q|
  {
    NormalMeans(q, 0, |q| - 1);
    if Front(q) != [] {
      RenderedHead(Front(q));
    }
  }

  /** What the slash found in a rendered relative path splits. */
  lemma SplitAtSlash(t: seq<char>, end: nat, q: seq<string>, j: nat)
    requires NormalParts(q, 0) && j < end <= |t| && t[..end] == Render(q, 0)
    requires (j > 0 ==> t[j] == '/') && forall k :: j < k < end ==> t[k] != '/'
    ensures q != [] && t[..j] == Render(Front(q), 0) && (j == 0 <==> Front(q) == [])
    ensures var i := if j == 0 then 0 else j + 1; i <= end && t[i..end] == Last(q) && (j > 0 ==> t[j] == '/')
    ensures Last(q) != "" && Last(q) != "." && '/' !in Last(q)
  {
    var p, i := t[..end], if j == 0 then 0 else j + 1;
    assert q != [];
    NormalIsClean(q, 0);
    NormalMeans(q, 0, |q| - 1);
    RenderedHead(q);
    LastStartAt(p, 0, i);
    RenderedEnd(q, 0);
    assert t[i..end] == p[i..] && t[..j] == p[..j];
  }

  /** The three characters behind a slash tell whether the last part is "..". */
  lemma DotsAreUp(t: seq<char>, k: nat, c: string)
    requires k + |c| < |t| && t[k..k + |c|] == c && '/' !in c && c != "" && c != "."
    requires k + 2 < |t| && (c == ".." ==> t[k + 2] == '/')
    ensures t[k] == '.' && t[k + 1] == '.' && t[k + 2] == '/' <==> c == ".."
  {
    assert forall m {:trigger c[m]} :: 0 <= m < |c| ==> c[m] == t[k + m] && c[m] != '/';
    assert |c| == 1 ==> c == [c[0]];
    assert |c| == 2 ==> c == [c[0], c[1]];
    assert |c| > 2 ==> c[2] == t[k + 2];
  }

  /** Whether the three characters behind the slash are what the code looks for. */
  lemma UpIsSeen(t: seq<char>, end: nat, q: seq<string>, j: nat)
    requires NormalParts(q, 0) && j < end && end + 3 < |t| && t[..end] == Render(q, 0) && (EndsUp(q) ==> t[end] == '/')
    requires (j > 0 ==> t[j] == '/') && forall k :: j < k < end ==> t[k] != '/'
    ensures var i := if j == 0 then 0 else j + 1; (t[i] == '.' && t[i + 1] == '.' && t[i + 2] == '/' <==> EndsUp(q)) && (EndsUp(q) ==> end == i + 2)
  {
    SplitAtSlash(t, end, q, j);
    DotsAreUp(t, if j == 0 then 0 else j + 1, Last(q));
  }

  /** ".." goes behind a path that ends in "..". */
  lemma UpKept(was: seq<char>, t: seq<char>, end: nat, q: seq<string>)
    requires NormalParts(q, 0) && EndsUp(q) && end + 3 < |was| && was[..end] == Render(q, 0) && was[end] == '/'
    requires t == was[..end + 1] + "../" + was[end + 4..]
    ensures Popped(t, end + 3, q)
  {
    RenderedHead(q);
    RenderSnoc(q, "..", 0);
    assert t[..end + 3] == was[..end] + "/" + "..";
    assert Last(q + [".."]) == "..";
  }

  lemma OneUp()
    ensures Render([".."], 0) == ".."
  {
    assert Front([".."]) == [];
    assert Render([], 0) == "";
  }

  lemma EmptyUp(was: seq<char>, t: seq<char>, q: seq<string>)
    requires NormalParts(q, 0) && Render(q, 0) == "" && |was| > 3 && t == "../" + was[3..]
    ensures Popped(t, 2, q)
  {
    assert q == [] by {
      if q != [] { RenderedHead(q); }
    }
    assert t[..2] == ".." && t[2] == '/';
    assert Push(q, "..", 0) == [".."];
    OneUp();
  }

  lemma PartGone(t: seq<char>, end: nat, q: seq<string>, j: nat)
    requires NormalParts(q, 0) && !EndsUp(q) && j < end <= |t| && t[..end] == Render(q, 0)
    requires (j > 0 ==> t[j] == '/') && forall k :: j < k < end ==> t[k] != '/'
    ensures Popped(t, j, q)
  {
    SplitAtSlash(t, end, q, j);
  }

  /** Writes "../" at the place at. */
  method PutUp(path: array<char>, at: nat)
    requires at + 3 <= path.Length
    modifies path
    ensures path[..] == old(path[..at]) + "../" + old(path[at + 3..])
  {
    path[at], path[at + 1], path[at + 2] := '.', '.', '/';
  }

  /** ".." behind a relative path: its last part goes, unless there is none or it is ".." itself. */
  method PopRelative(path: array<char>, end: nat, ghost q: seq<string>) returns (j: nat)
    requires path.Length == MAXPATHLEN && end + 3 < MAXPATHLEN && NormalParts(q, 0) && path[..end] == Render(q, 0)
    requires EndsUp(q) ==> path[end] == '/'
    modifies path
    ensures Popped(path[..], j, q)
  {
    ghost var was := path[..];
    j := end;
    if j > 0 {
      j := BackToSlash(path, 0, end);
      UpIsSeen(was, end, q, j);
      if j == 0 && path[0] == '.' && path[1] == '.' && path[2] == '/' {
        PutUp(path, 3);
        j := 5;
        UpKept(was, path[..], end, q);
      } else if j > 0 && path[j + 1] == '.' && path[j + 2] == '.' && path[j + 3] == '/' {
        PutUp(path, j + 4);
        j := j + 6;
        UpKept(was, path[..], end, q);
      } else {
        PartGone(was, end, q, j);
      }
    } else {
      PutUp(path, 0);
      j := 2;
      EmptyUp(was, path[..], q);
    }
  }

  /** A relative target replaces the last part of the path. */
  method PutTarget(path: array<char>, tmp: string, i: nat, n: nat, ghost target: string)
    requires path.Length == MAXPATHLEN && i + n < MAXPATHLEN - 1 && 1 <= |tmp| && i == LastStart(tmp, 1) && tmp[0] == '/'
    requires n < MAXPATHLEN && path[..n] == target && !Absolute(target)
    modifies path
    ensures path[..][..i + n] == Replaced(tmp, target) && path[..][0] == '/'
  {
    ghost var p0, link := path[..], path[..n + 1];
    assert link == target + [link[n]];
    CopyIn(path, i, path[..n + 1]);
    ghost var p1 := path[..];
    CopyIn(path, 0, tmp[..i - 1]);
    ghost var p2 := path[..];
    path[i - 1] := '/';
    TargetText(p0, p1, p2, path[..], tmp[..i - 1], i, link);
    ReplacedText(path[..], tmp, i, n, target, link[n]);
  }

  lemma TargetText(p0: seq<char>, p1: seq<char>, p2: seq<char>, p: seq<char>, h: seq<char>, i: nat, t: seq<char>)
    requires i == |h| + 1 && i + |t| <= |p0|
    requires p1 == p0[..i] + t + p0[i + |t|..] && p2 == p1[..0] + h + p1[i - 1..] && p == p2[i - 1 := '/']
    ensures p[..i + |t|] == h + ['/'] + t
  {
    assert p2 == h + p1[i - 1..];
    assert p2[i - 1..] == p1[i - 1..];
    assert p1[i..i + |t|] == t;
  }

  lemma ReplacedText(p: seq<char>, tmp: string, i: nat, n: nat, target: string, z: char)
    requires i + n + 1 <= |p| && 1 <= |tmp| && i == LastStart(tmp, 1) && tmp[0] == '/' && !Absolute(target) && n == |target|
    requires p[..i + n + 1] == tmp[..i - 1] + ['/'] + (target + [z])
    ensures p[..i + n] == Replaced(tmp, target) && p[0] == '/'
  {
    var r := tmp[..i - 1] + "/" + target;
    assert tmp[..i - 1] + ['/'] + (target + [z]) == r + [z];
    assert p[..i + n] == r;
    assert i <= 1 ==> tmp[..i - 1] == "";
    assert p[0] == r[0];
  }

  /** The target of a link takes the place of the last part, or of the whole path; -1 if there is no room. */
  method FollowText(path: array<char>, tmp: string, i: nat, target: string) returns (n: int)
    requires path.Length == MAXPATHLEN && |target| < MAXPATHLEN && 1 <= |tmp| && i == LastStart(tmp, 1) && tmp[0] == '/'
    modifies path
    ensures n == -1 <==> !Absolute(target) && i + |target| >= MAXPATHLEN - 1
    ensures n != -1 ==> 0 <= n < MAXPATHLEN && path[..][..n] == Replaced(tmp, target) && path[..][0] == '/'
  {
    CopyIn(path, 0, target + ['\0']);
    n := |target|;
    assert path[..n] == target && path[n] == '\0';
    assert path[0] == '/' <==> Absolute(target);
    if path[0] != '/' {
      if i + n >= MAXPATHLEN - 1 {
        return -1;
      }
      PutTarget(path, tmp, i, n, target);
      n := i + n;
    }
  }

  /** A text, and a terminating zero, behind the text h. */
  method PutText(path: array<char>, at: nat, text: string, ghost h: string)
    requires at + |text| < path.Length && path[..][..at] == h
    modifies path
    ensures path[..][..at + |text|] == h + text
  {
    ghost var p := path[..];
    CopyIn(path, at, text + ['\0']);
    assert path[..] == h + text + (['\0'] + p[at + |text| + 1..]);
  }
}
