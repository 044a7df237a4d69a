/**
 The resolver without its cache, as a function, and what its success means: the result is the place
 that left-to-right resolution reaches, written without links, "." or "..".
 */
module RealpathLaws {
  import opened PathText
  import opened FileTree

  const LINK_MAX: nat := 32

  datatype Mode = Expand | FilePath | RealPath

  /** `lstat` is the system call, as a table by path text. */
  datatype FileSystem = FileSystem(tree: Tree, lstat: map<string, Node>)

  /** The system call finds what a walk that does not follow a final link finds. */
  ghost predicate Faithful(fs: FileSystem) {
    && TreeOk(fs.tree)
    && forall s: string {:trigger LstatOk(fs, s)} :: |s| < MAXPATHLEN && Absolute(s) ==> LstatOk(fs, s)
  }

  ghost predicate LstatOk(fs: FileSystem, s: string) {
    && (s in fs.lstat ==> exists r :: Reaches(fs.tree, [], Parts(s, 1), false, r) && r in fs.tree && fs.tree[r] == fs.lstat[s])
    && (s !in fs.lstat ==> forall r :: r in fs.tree ==> !Reaches(fs.tree, [], Parts(s, 1), false, r))
  }

  datatype Outcome = Failed | Done(path: string, dir: bool, links: nat)

  /** One step up in the text of an absolute path without special parts. */
  function PopText(p: string): string
    decreases |p|
  {
    if |p| <= 1 then p
    else
      var i := LastStart(p, 1);
      if i <= 1 then p[..1] else p[..i - 1]
  }

  /** All but the last part of a path, as the resolver sees it. */
  function Before(s: string): (d: string)
    requires |s| > 1
    ensures |d| < |s|
  {
    HeadOf(s, 1)
  }

  function Name(s: string): string
    requires |s| > 1
  {
    NameOf(s, 1)
  }

  /** What ".." leaves of the path before it. */
  function Climb(below: Outcome): Outcome {
    if below.Failed? then Failed else Done(PopText(below.path), true, below.links)
  }

  /** A name appended to what its directory resolved to. */
  function Append(below: Outcome, c: string, dir: bool): Outcome {
    if below.Failed? then Failed
    else
      var p := if |below.path| > 1 then below.path + "/" else below.path;
      if |p| + |c| >= MAXPATHLEN - 1 then Failed else Done(p + c, dir, below.links)
  }

  /** tsrm_realpath_r for an absolute path and without a cache; `links` have been followed already. */
  function Plain(fs: FileSystem, s: string, links: nat, mode: Mode, isDir: bool): (r: Outcome)
    requires links <= LINK_MAX
    ensures r.Done? ==> links <= r.links <= LINK_MAX
    decreases LINK_MAX - links, |s|
  {
    if |s| <= 1 then Done("/", true, links)
    else
      var c, atRoot := Name(s), LastStart(s, 1) <= 2;
      if c == "" || c == "." then Plain(fs, Before(s), links, mode, true)
      else if c == ".." then
        if atRoot then Done("/", true, links) else Climb(Plain(fs, Before(s), links, mode, true))
      else
        var found := mode != Expand && s in fs.lstat;
        if mode == RealPath && !found then Failed
        else if found && fs.lstat[s].Link? then PlainLink(fs, s, links, mode, isDir)
        else
          var directory := found && fs.lstat[s] == Dir;
          if found && isDir && !directory then Failed
          else
            var below := if atRoot then Done("/", true, links) else Plain(fs, Before(s), links, if found then FilePath else mode, true);
            Append(below, c, directory)
  }

  /** The path after a link was replaced by its target. */
  function Replaced(s: string, target: string): string
    requires |s| >= 1
  {
    if Absolute(target) then target else (if LastStart(s, 1) <= 1 then "" else s[..LastStart(s, 1) - 1]) + "/" + target
  }

  function PlainLink(fs: FileSystem, s: string, links: nat, mode: Mode, isDir: bool): (r: Outcome)
    requires links <= LINK_MAX && |s| > 1 && s in fs.lstat && fs.lstat[s].Link?
    ensures r.Done? ==> links <= r.links <= LINK_MAX
    decreases LINK_MAX - links, |s|, 0
  {
    var target := fs.lstat[s].target;
    if links + 1 > LINK_MAX then Failed
    else if !Absolute(target) && LastStart(s, 1) + |target| >= MAXPATHLEN - 1 then Failed
    else Plain(fs, Replaced(s, target), links + 1, mode, isDir)
  }

  // ---------- single steps of a walk ----------

  /** The walk along a single part. */
  lemma WalkOne(t: Tree, n: nat, q: seq<string>, c: string, follow: bool)
    requires Proper(c) && q + [c] in t && t[q + [c]].Link? ==> !follow
    ensures Walk(t, n, q, [c], follow) ==
            if q !in t || t[q] != Dir then Nowhere
            else if c == "" || c == "." then At(q, n)
            else if c == ".." then At(Up(q), n)
            else if q + [c] !in t then Nowhere
            else if t[q + [c]].Link? && follow then Walk(t, n, q, [c], follow)
            else At(q + [c], n)
  {
    var rest := [c][1..];
    assert rest == [];
    assert Walk(t, n, q, rest, follow) == At(q, n) && Walk(t, n, Up(q), rest, follow) == At(Up(q), n);
    assert Walk(t, n, q + [c], rest, follow) == At(q + [c], n);
  }

  lemma StepSkip(t: Tree, q: seq<string>, c: string, follow: bool, r: seq<string>)
    requires c == "" || c == "."
    ensures Reaches(t, q, [c], follow, r) <==> q in t && t[q] == Dir && r == q
  {
    WalkOne(t, 0, q, c, follow);
    if Reaches(t, q, [c], follow, r) {
      var n: nat, m: nat :| Walk(t, n, q, [c], follow) == At(r, m);
      WalkOne(t, n, q, c, follow);
    }
  }

  lemma StepUp(t: Tree, q: seq<string>, follow: bool, r: seq<string>)
    ensures Reaches(t, q, [".."], follow, r) <==> q in t && t[q] == Dir && r == Up(q)
  {
    WalkOne(t, 0, q, "..", follow);
    if Reaches(t, q, [".."], follow, r) {
      var n: nat, m: nat :| Walk(t, n, q, [".."], follow) == At(r, m);
      WalkOne(t, n, q, "..", follow);
    }
  }

  lemma StepName(t: Tree, q: seq<string>, c: string, follow: bool, r: seq<string>)
    requires Proper(c) && (q + [c] in t && t[q + [c]].Link? ==> !follow)
    ensures Reaches(t, q, [c], follow, r) <==> q in t && t[q] == Dir && q + [c] in t && r == q + [c]
  {
    WalkOne(t, 0, q, c, follow);
    if Reaches(t, q, [c], follow, r) {
      var n: nat, m: nat :| Walk(t, n, q, [c], follow) == At(r, m);
      WalkOne(t, n, q, c, follow);
    }
  }

  lemma StepLink(t: Tree, q: seq<string>, c: string, r: seq<string>)
    requires Proper(c) && q in t && t[q] == Dir && q + [c] in t && t[q + [c]].Link?
    ensures var x := t[q + [c]].target;
            Reaches(t, q, [c], true, r) <==> Reaches(t, if Absolute(x) then [] else q, PartsOf(x), true, r)
  {
    var x := t[q + [c]].target;
    var start, ps := if Absolute(x) then [] else q, PartsOf(x);
    assert ps + [c][1..] == ps;
    if Reaches(t, q, [c], true, r) {
      var n: nat, m: nat :| Walk(t, n, q, [c], true) == At(r, m);
      assert Walk(t, n - 1, start, ps, true) == At(r, m);
    }
    if Reaches(t, start, ps, true, r) {
      var n: nat, m: nat :| Walk(t, n, start, ps, true) == At(r, m);
      assert Walk(t, n + 1, q, [c], true) == At(r, m);
    }
  }

  /** One step of a walk that follows every link; the new place is no link either. */
  lemma FollowStep(t: Tree, n: nat, q: seq<string>, ps: seq<string>) returns (m: nat, r: seq<string>, rest: seq<string>)
    requires TreeOk(t) && q in t && !t[q].Link? && ps != [] && Walk(t, n, q, ps, true).At?
    ensures Walk(t, n, q, ps, true) == Walk(t, m, r, rest, true) && (m < n || (m == n && |rest| < |ps|))
    ensures r in t && !t[r].Link?
  {
    var c := ps[0];
    m, r, rest := n, q, ps[1..];
    if c == ".." {
      assert PlaceOk(t, q);
      r := Up(q);
    } else if c != "" && c != "." {
      if t[q + [c]].Link? {
        m, r, rest := n - 1, if Absolute(t[q + [c]].target) then [] else q, PartsOf(t[q + [c]].target) + rest;
      } else {
        r := q + [c];
      }
    }
  }

  /** A walk that follows every link ends at a file or a directory. */
  lemma {:induction false} FollowEnds(t: Tree, n: nat, q: seq<string>, ps: seq<string>)
    requires TreeOk(t) && q in t && !t[q].Link? && Walk(t, n, q, ps, true).At?
    ensures Walk(t, n, q, ps, true).place in t && !t[Walk(t, n, q, ps, true).place].Link?
    decreases n, |ps|
  {
    if ps != [] {
      var m, r, rest := FollowStep(t, n, q, ps);
      FollowEnds(t, m, r, rest);
    }
  }

  /** Left-to-right resolution of the path s arrives at q. */
  ghost predicate Arrives(t: Tree, s: string, q: seq<string>) {
    Reaches(t, [], Parts(s, 1), true, q) && q in t && !t[q].Link?
  }

  lemma ArrivesAt(t: Tree, s: string, q: seq<string>)
    requires TreeOk(t) && Reaches(t, [], Parts(s, 1), true, q)
    ensures Arrives(t, s, q)
  {
    var n: nat, m: nat :| Walk(t, n, [], Parts(s, 1), true) == At(q, m);
    FollowEnds(t, n, [], Parts(s, 1));
  }

  ghost predicate Resolvable(t: Tree, s: string) { exists q :: Arrives(t, s, q) }

  /** The names on the way to a place are proper. */
  lemma {:induction false} PlacesAreNamed(t: Tree, q: seq<string>)
    requires TreeOk(t) && q in t
    ensures NormalParts(q, 1)
    decreases |q|
  {
    if q != [] {
      assert PlaceOk(t, q);
      PlacesAreNamed(t, Front(q));
    }
  }

  lemma PartsBefore(s: string)
    requires |s| > 1
    ensures Parts(s, 1) == Parts(Before(s), 1) + [Name(s)]
    ensures LastStart(s, 1) <= 2 ==> Parts(Before(s), 1) == []
    ensures '/' !in Name(s)
  {
    PartsStep(s, 1);
  }

  lemma PartsReplaced(s: string, target: string)
    requires |s| > 1 && target != ""
    ensures Parts(Replaced(s, target), 1) == if Absolute(target) then PartsOf(target) else Parts(Before(s), 1) + PartsOf(target)
  {
    if !Absolute(target) {
      PartsJoin(Before(s), target);
    }
  }

  // ---------- what left-to-right resolution does with the last part ----------

  /** An empty or dot part behind a directory. */
  lemma ArrivesSkip(t: Tree, s: string, q: seq<string>)
    requires TreeOk(t) && |s| > 1 && (Name(s) == "" || Name(s) == ".")
    ensures Arrives(t, s, q) <==> Arrives(t, Before(s), q) && t[q] == Dir
  {
    PartsBefore(s);
    if Arrives(t, s, q) {
      var x := ReachesBefore(t, [], Parts(Before(s), 1), [Name(s)], true, q);
      StepSkip(t, x, Name(s), true, q);
    }
    if Arrives(t, Before(s), q) && t[q] == Dir {
      StepSkip(t, q, Name(s), true, q);
      ReachesOn(t, [], Parts(Before(s), 1), [Name(s)], true, q, q);
    }
  }

  lemma ArrivesUp(t: Tree, s: string, q: seq<string>)
    requires TreeOk(t) && |s| > 1 && Name(s) == ".."
    ensures Arrives(t, s, q) <==> exists x :: Arrives(t, Before(s), x) && t[x] == Dir && q == Up(x)
  {
    PartsBefore(s);
    if Arrives(t, s, q) {
      var x := ReachesBefore(t, [], Parts(Before(s), 1), [".."], true, q);
      StepUp(t, x, true, q);
      assert Arrives(t, Before(s), x);
    }
    if x :| Arrives(t, Before(s), x) && t[x] == Dir && q == Up(x) {
      assert PlaceOk(t, x);
      StepUp(t, x, true, q);
      ReachesOn(t, [], Parts(Before(s), 1), [".."], true, x, q);
    }
  }

  /** A name that is no link. */
  lemma ArrivesName(t: Tree, s: string, x: seq<string>)
    requires TreeOk(t) && |s| > 1 && Proper(Name(s)) && Arrives(t, Before(s), x) && t[x] == Dir
    requires x + [Name(s)] in t && !t[x + [Name(s)]].Link?
    ensures Arrives(t, s, x + [Name(s)])
  {
    PartsBefore(s);
    StepName(t, x, Name(s), true, x + [Name(s)]);
    ReachesOn(t, [], Parts(Before(s), 1), [Name(s)], true, x, x + [Name(s)]);
  }

  /** A link: the path with the target in its place arrives where the path arrives. */
  lemma ArrivesLink(t: Tree, s: string, x: seq<string>, q: seq<string>)
    requires TreeOk(t) && |s| > 1 && Proper(Name(s)) && Arrives(t, Before(s), x) && t[x] == Dir
    requires x + [Name(s)] in t && t[x + [Name(s)]].Link?
    ensures Arrives(t, s, q) <==> Arrives(t, Replaced(s, t[x + [Name(s)]].target), q)
  {
    var c, target, before := Name(s), t[x + [Name(s)]].target, Parts(Before(s), 1);
    PartsBefore(s);
    PartsReplaced(s, target);
    StepLink(t, x, c, q);
    if Arrives(t, s, q) {
      var y := ReachesBefore(t, [], before, [c], true, q);
      ReachesOne(t, [], before, true, x, y);
      if !Absolute(target) { ReachesOn(t, [], before, PartsOf(target), true, x, q); PartsNonEmpty(target); }
    }
    if Arrives(t, Replaced(s, target), q) {
      if !Absolute(target) {
        PartsNonEmpty(target);
        var y := ReachesBefore(t, [], before, PartsOf(target), true, q);
        ReachesOne(t, [], before, true, x, y);
      }
      ReachesOn(t, [], before, [c], true, x, q);
    }
  }

  lemma PartsNonEmpty(s: string)
    requires s != "" && !Absolute(s)
    ensures PartsOf(s) != []
  {
  }

  /** The system call on a path whose last part is a name. */
  lemma LstatMeans(fs: FileSystem, s: string)
    requires Faithful(fs) && 1 < |s| < MAXPATHLEN && Absolute(s) && Proper(Name(s))
    ensures s in fs.lstat <==> exists x :: Arrives(fs.tree, Before(s), x) && fs.tree[x] == Dir && x + [Name(s)] in fs.tree
    ensures forall x :: s in fs.lstat && Arrives(fs.tree, Before(s), x) ==>
              fs.tree[x] == Dir && x + [Name(s)] in fs.tree && fs.lstat[s] == fs.tree[x + [Name(s)]]
  {
    var t := fs.tree;
    assert LstatOk(fs, s);
    PartsBefore(s);
    if s in fs.lstat {
      var r :| Reaches(t, [], Parts(s, 1), false, r) && r in t && t[r] == fs.lstat[s];
      var x := LstatParent(t, s, r);
      forall y | Arrives(t, Before(s), y) ensures y == x {
        ReachesOne(t, [], Parts(Before(s), 1), true, x, y);
      }
    }
    forall x | Arrives(t, Before(s), x) && t[x] == Dir && x + [Name(s)] in t ensures s in fs.lstat {
      StepName(t, x, Name(s), false, x + [Name(s)]);
      ReachesOn(t, [], Parts(Before(s), 1), [Name(s)], false, x, x + [Name(s)]);
    }
  }

  /** Without dangling links, what the system call finds resolves. */
  lemma FoundResolves(fs: FileSystem, s: string)
    requires Faithful(fs) && NoDangling(fs.tree) && 1 < |s| < MAXPATHLEN && Absolute(s) && Proper(Name(s)) && s in fs.lstat
    ensures Resolvable(fs.tree, s)
  {
    var t := fs.tree;
    LstatMeans(fs, s);
    var x :| Arrives(t, Before(s), x) && t[x] == Dir && x + [Name(s)] in t;
    if t[x + [Name(s)]].Link? {
      assert Leads(t, x + [Name(s)]);
      assert Front(x + [Name(s)]) == x && Last(x + [Name(s)]) == Name(s);
      var r :| Reaches(t, x, [Name(s)], true, r);
      PartsBefore(s);
      ReachesOn(t, [], Parts(Before(s), 1), [Name(s)], true, x, r);
      ArrivesAt(t, s, r);
    } else {
      ArrivesName(t, s, x);
    }
  }

  lemma LstatParent(t: Tree, s: string, r: seq<string>) returns (x: seq<string>)
    requires TreeOk(t) && |s| > 1 && Proper(Name(s)) && Reaches(t, [], Parts(s, 1), false, r)
    ensures Arrives(t, Before(s), x) && t[x] == Dir && x + [Name(s)] in t && r == x + [Name(s)]
  {
    PartsBefore(s);
    x := ReachesBefore(t, [], Parts(Before(s), 1), [Name(s)], false, r);
    StepName(t, x, Name(s), false, r);
    ArrivesAt(t, Before(s), x);
  }

  // ---------- the theorem ----------

  /** r is the right answer for the path s. */
  ghost predicate Answers(t: Tree, s: string, r: Outcome, q: seq<string>) {
    r.Done? && Arrives(t, s, q) && r.path == Render(q, 1) && r.dir == (t[q] == Dir)
  }

  lemma AnswersRoot(t: Tree, s: string, links: nat)
    requires TreeOk(t) && Parts(s, 1) == []
    ensures Answers(t, s, Done("/", true, links), [])
  {
    assert Walk(t, 0, [], [], true) == At([], 0);
  }

  lemma AnswersUp(t: Tree, s: string, x: seq<string>, r: Outcome, links: nat)
    requires TreeOk(t) && |s| > 1 && Name(s) == ".." && Answers(t, Before(s), r, x) && r.dir
    ensures Answers(t, s, Done(PopText(r.path), true, links), Up(x))
  {
    ArrivesUp(t, s, Up(x));
    if x != [] {
      assert PlaceOk(t, x);
      PlacesAreNamed(t, x);
      NormalIsClean(x, 1);
      RenderedEnd(x, 1);
    }
  }

  lemma AnswersName(t: Tree, s: string, x: seq<string>, r: Outcome, links: nat)
    requires TreeOk(t) && |s| > 1 && Proper(Name(s)) && Answers(t, Before(s), r, x) && r.dir
    requires x + [Name(s)] in t && !t[x + [Name(s)]].Link?
    ensures Answers(t, s, Done((if |r.path| > 1 then r.path + "/" else r.path) + Name(s), t[x + [Name(s)]] == Dir, links), x + [Name(s)])
  {
    ArrivesName(t, s, x);
    assert Front(x + [Name(s)]) == x && Last(x + [Name(s)]) == Name(s);
  }

  /** What the resolver may be asked: any path in realpath mode, a path that resolves in filepath mode. */
  ghost predicate Asked(fs: FileSystem, s: string, mode: Mode) {
    && |s| < MAXPATHLEN && (|s| > 0 ==> Absolute(s))
    && (mode == RealPath || (mode == FilePath && Resolvable(fs.tree, s)))
  }

  /** When it succeeds, the resolver gives the place that left-to-right resolution arrives at. */
  lemma {:induction false} PlainAnswers(fs: FileSystem, s: string, links: nat, mode: Mode, isDir: bool) returns (q: seq<string>)
    requires Faithful(fs) && Asked(fs, s, mode) && links <= LINK_MAX && Plain(fs, s, links, mode, isDir).Done?
    ensures Answers(fs.tree, s, Plain(fs, s, links, mode, isDir), q)
    ensures isDir ==> Plain(fs, s, links, mode, isDir).dir
    decreases LINK_MAX - links, |s|
  {
    var t := fs.tree;
    if |s| <= 1 {
      q := [];
      AnswersRoot(t, s, links);
      return;
    }
    PartsBefore(s);
    var c, d := Name(s), Before(s);
    if c == "" || c == "." {
      if mode == FilePath {
        var r :| Arrives(t, s, r);
        ArrivesSkip(t, s, r);
        assert Arrives(t, d, r);
      }
      q := PlainAnswers(fs, d, links, mode, true);
      ArrivesSkip(t, s, q);
    } else if c == ".." {
      if mode == FilePath {
        var r :| Arrives(t, s, r);
        ArrivesUp(t, s, r);
      }
      if LastStart(s, 1) <= 2 {
        AnswersRoot(t, d, links);
        AnswersUp(t, s, [], Done("/", true, links), links);
        q := [];
      } else {
        var x := PlainAnswers(fs, d, links, mode, true);
        AnswersUp(t, s, x, Plain(fs, d, links, mode, true), Plain(fs, d, links, mode, true).links);
        q := Up(x);
      }
    } else {
      q := PlainAnswersName(fs, s, links, mode, isDir);
    }
  }

  lemma FoundIfResolvable(fs: FileSystem, s: string)
    requires Faithful(fs) && 1 < |s| < MAXPATHLEN && Absolute(s) && Proper(Name(s)) && Resolvable(fs.tree, s)
    ensures s in fs.lstat
  {
    var t := fs.tree;
    var r :| Arrives(t, s, r);
    PartsBefore(s);
    var x := ReachesBefore(t, [], Parts(Before(s), 1), [Name(s)], true, r);
    ArrivesAt(t, Before(s), x);
    NameExists(t, x, Name(s), r);
    LstatMeans(fs, s);
  }

  lemma NameExists(t: Tree, x: seq<string>, c: string, r: seq<string>)
    requires Proper(c) && Reaches(t, x, [c], true, r)
    ensures x in t && t[x] == Dir && x + [c] in t
  {
    var n: nat, m: nat :| Walk(t, n, x, [c], true) == At(r, m);
  }

  lemma {:induction false} PlainAnswersName(fs: FileSystem, s: string, links: nat, mode: Mode, isDir: bool) returns (q: seq<string>)
    requires Faithful(fs) && Asked(fs, s, mode) && links <= LINK_MAX && Plain(fs, s, links, mode, isDir).Done?
    requires |s| > 1 && Proper(Name(s))
    ensures Answers(fs.tree, s, Plain(fs, s, links, mode, isDir), q)
    ensures isDir ==> Plain(fs, s, links, mode, isDir).dir
    decreases LINK_MAX - links, |s|, 1
  {
    var t := fs.tree;
    if mode == FilePath { FoundIfResolvable(fs, s); }
    LstatMeans(fs, s);
    var x :| Arrives(t, Before(s), x) && t[x] == Dir && x + [Name(s)] in t;
    if fs.lstat[s].Link? {
      q := PlainAnswersLink(fs, s, links, mode, isDir, x);
    } else {
      PlainAnswersEntry(fs, s, links, mode, isDir, x);
      q := x + [Name(s)];
    }
  }

  /** A file or a directory, behind a path that resolves. */
  lemma {:induction false} PlainAnswersEntry(fs: FileSystem, s: string, links: nat, mode: Mode, isDir: bool, x: seq<string>)
    requires Faithful(fs) && Asked(fs, s, mode) && links <= LINK_MAX && Plain(fs, s, links, mode, isDir).Done?
    requires |s| > 1 && Proper(Name(s)) && s in fs.lstat && !fs.lstat[s].Link?
    requires Arrives(fs.tree, Before(s), x) && fs.tree[x] == Dir && x + [Name(s)] in fs.tree && fs.lstat[s] == fs.tree[x + [Name(s)]]
    ensures Answers(fs.tree, s, Plain(fs, s, links, mode, isDir), x + [Name(s)])
    ensures isDir ==> Plain(fs, s, links, mode, isDir).dir
    decreases LINK_MAX - links, |s|, 0
  {
    var t := fs.tree;
    PartsBefore(s);
    assert Resolvable(t, Before(s));
    if LastStart(s, 1) <= 2 {
      AnswersRoot(t, Before(s), links);
      ReachesOne(t, [], Parts(Before(s), 1), true, x, []);
      AnswersName(t, s, x, Done("/", true, links), links);
    } else {
      var y := PlainAnswers(fs, Before(s), links, FilePath, true);
      ReachesOne(t, [], Parts(Before(s), 1), true, x, y);
      AnswersName(t, s, x, Plain(fs, Before(s), links, FilePath, true), Plain(fs, Before(s), links, FilePath, true).links);
    }
  }

  /** A link: the answer for the path with the target in its place. */
  lemma {:induction false} PlainAnswersLink(fs: FileSystem, s: string, links: nat, mode: Mode, isDir: bool, x: seq<string>) returns (q: seq<string>)
    requires Faithful(fs) && Asked(fs, s, mode) && links <= LINK_MAX && Plain(fs, s, links, mode, isDir).Done?
    requires |s| > 1 && Proper(Name(s)) && s in fs.lstat && fs.lstat[s].Link?
    requires Arrives(fs.tree, Before(s), x) && fs.tree[x] == Dir && x + [Name(s)] in fs.tree && fs.lstat[s] == fs.tree[x + [Name(s)]]
    ensures Answers(fs.tree, s, Plain(fs, s, links, mode, isDir), q)
    ensures isDir ==> Plain(fs, s, links, mode, isDir).dir
    decreases LINK_MAX - links, |s|, 0
  {
    var again := Replaced(s, fs.lstat[s].target);
    PlainOfLink(fs, s, links, mode, isDir);
    AskedAgain(fs, s, mode, x);
    q := PlainAnswers(fs, again, links + 1, mode, isDir);
    ArrivesLink(fs.tree, s, x, q);
  }

  lemma AskedAgain(fs: FileSystem, s: string, mode: Mode, x: seq<string>)
    requires Faithful(fs) && Asked(fs, s, mode) && 1 < |s| && Proper(Name(s)) && s in fs.lstat && fs.lstat[s].Link?
    requires Arrives(fs.tree, Before(s), x) && fs.tree[x] == Dir && x + [Name(s)] in fs.tree && fs.lstat[s] == fs.tree[x + [Name(s)]]
    requires |Replaced(s, fs.lstat[s].target)| < MAXPATHLEN
    ensures Asked(fs, Replaced(s, fs.lstat[s].target), mode)
  {
    ReplacedIsPath(s, fs.lstat[s].target);
    if mode == FilePath {
      var r :| Arrives(fs.tree, s, r);
      ArrivesLink(fs.tree, s, x, r);
    }
  }

  lemma ReplacedIsPath(s: string, target: string)
    requires 1 < |s| && Absolute(s) && target != ""
    ensures Absolute(Replaced(s, target))
    ensures |Replaced(s, target)| == if Absolute(target) then |target| else LastStart(s, 1) + |target|
  {
  }

  lemma PlainOfLink(fs: FileSystem, s: string, links: nat, mode: Mode, isDir: bool)
    requires TreeOk(fs.tree) && mode != Expand && 1 < |s| < MAXPATHLEN && Absolute(s) && links <= LINK_MAX && Proper(Name(s))
    requires s in fs.lstat && fs.lstat[s].Link? && 0 < |fs.lstat[s].target| < MAXPATHLEN
    requires Plain(fs, s, links, mode, isDir).Done?
    ensures links < LINK_MAX
    ensures var again := Replaced(s, fs.lstat[s].target);
            |again| < MAXPATHLEN && Absolute(again) && Plain(fs, s, links, mode, isDir) == Plain(fs, again, links + 1, mode, isDir)
  {
    ReplacedIsPath(s, fs.lstat[s].target);
  }
}
