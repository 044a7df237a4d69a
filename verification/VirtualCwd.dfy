/**
 virtual_file_ex: a path is joined to the virtual working directory, resolved, and becomes the new
 one; and what the resolver promises, stated in the open.
 */
module VirtualCwd {
  import opened PathText
  import opened FileTree
  import opened RealpathLaws
  import opened PathBuffer
  import opened RealpathCache
  import opened RealpathSteps
  import opened Realpath

  // ---------- canonical paths ----------

  /** p is the canonical path of the place q that left-to-right resolution of s reaches. */
  ghost predicate CanonicalAt(t: Tree, s: string, p: string, dir: bool, q: seq<string>) {
    && Arrives(t, s, q) && p == Render(q, 1) && Parts(p, 1) == q && dir == (t[q] == Dir)
    && (forall k {:trigger q[k]} :: 0 <= k < |q| ==> Proper(q[k]))
    && (forall k {:trigger q[..k]} :: 0 <= k <= |q| ==> q[..k] in t && !t[q[..k]].Link?)
  }

  ghost predicate Canonical(t: Tree, s: string, p: string, dir: bool) { exists q :: CanonicalAt(t, s, p, dir, q) }

  /** Everything on the way to a place that is no link is a directory. */
  lemma {:induction false} PrefixesAreDirs(t: Tree, q: seq<string>, k: nat)
    requires TreeOk(t) && q in t && !t[q].Link? && k <= |q|
    ensures q[..k] in t && !t[q[..k]].Link? && (k < |q| ==> t[q[..k]] == Dir)
    decreases |q|
  {
    if k < |q| {
      assert PlaceOk(t, q);
      PrefixesAreDirs(t, Front(q), k);
      assert Front(q)[..k] == q[..k];
    } else {
      assert q[..k] == q;
    }
  }

  lemma AnswerIsCanonical(t: Tree, s: string, r: Outcome, q: seq<string>)
    requires TreeOk(t) && Answers(t, s, r, q)
    ensures CanonicalAt(t, s, r.path, r.dir, q)
  {
    PlacesAreNamed(t, q);
    NormalIsClean(q, 1);
    PartsOfRender(q, 1);
    forall k {:trigger q[k]} | 0 <= k < |q| ensures Proper(q[k]) {
      NormalMeans(q, 1, k);
    }
    forall k {:trigger q[..k]} | 0 <= k <= |q| ensures q[..k] in t && !t[q[..k]].Link? {
      PrefixesAreDirs(t, q, k);
    }
  }

  /** In realpath mode, success without cache means the canonical path. */
  lemma PlainIsCanonical(fs: FileSystem, s: string, links: nat, isDir: bool)
    requires Faithful(fs) && PathOf(s) && links <= LINK_MAX && Plain(fs, s, links, RealPath, isDir).Done?
    ensures var r := Plain(fs, s, links, RealPath, isDir); Canonical(fs.tree, s, r.path, r.dir)
  {
    var q := PlainAnswers(fs, s, links, RealPath, isDir);
    AnswerIsCanonical(fs.tree, s, Plain(fs, s, links, RealPath, isDir), q);
  }

  /** The canonical path of a place resolves to that place. */
  lemma {:induction false} ArrivesAtItself(t: Tree, q: seq<string>)
    requires TreeOk(t) && q in t && !t[q].Link?
    ensures Arrives(t, Render(q, 1), q)
    decreases |q|
  {
    PlacesAreNamed(t, q);
    NormalIsClean(q, 1);
    PartsOfRender(q, 1);
    if q == [] {
      assert Walk(t, 0, [], [], true) == At([], 0);
    } else {
      assert PlaceOk(t, q);
      var f, c := Front(q), Last(q);
      assert q == f + [c];
      ArrivesAtItself(t, f);
      PartsOfRender(f, 1);
      StepName(t, f, c, true, q);
      ReachesOn(t, [], f, [c], true, f, q);
    }
  }

  /** The path before the last part of a rendered one. */
  lemma FixedBefore(q: seq<string>)
    requires q != [] && Clean(q)
    ensures var s := Render(q, 1);
            && |s| > 1 && Name(s) == Last(q) && |Render(Front(q), 1)| < |s|
            && if LastStart(s, 1) <= 2 then Front(q) == [] && Before(s) == "" else Before(s) == Render(Front(q), 1) && Front(q) != []
  {
    RenderedEnd(q, 1);
    PartsOfRender(Front(q), 1);
  }

  lemma ArrivesHead(t: Tree, q: seq<string>)
    requires TreeOk(t) && q in t && !t[q].Link? && q != []
    ensures |Render(q, 1)| > 1 && Arrives(t, Before(Render(q, 1)), Front(q))
  {
    assert PlaceOk(t, q);
    PlacesAreNamed(t, q);
    NormalIsClean(q, 1);
    FixedBefore(q);
    ArrivesAtItself(t, Front(q));
    if Front(q) == [] {
      assert Walk(t, 0, [], [], true) == At([], 0);
    }
  }

  /** One step of the resolver at a name that is there and is no link. */
  lemma PlainOfEntry(fs: FileSystem, s: string, links: nat, mode: Mode, isDir: bool, below: Outcome)
    requires |s| > 1 && Proper(Name(s)) && s in fs.lstat && !fs.lstat[s].Link? && (isDir ==> fs.lstat[s] == Dir) && mode != Expand && links <= LINK_MAX
    requires below == if LastStart(s, 1) <= 2 then Done("/", true, links) else Plain(fs, Before(s), links, FilePath, true)
    ensures Plain(fs, s, links, mode, isDir) == Append(below, Name(s), fs.lstat[s] == Dir)
  {
  }

  /** The system call finds a place by its canonical path. */
  lemma FoundAtItself(fs: FileSystem, q: seq<string>)
    requires Faithful(fs) && q in fs.tree && !fs.tree[q].Link? && q != [] && |Render(q, 1)| < MAXPATHLEN
    ensures var s := Render(q, 1); |s| > 1 && Proper(Name(s)) && s in fs.lstat && fs.lstat[s] == fs.tree[q]
  {
    assert PlaceOk(fs.tree, q);
    PlacesAreNamed(fs.tree, q);
    NormalIsClean(q, 1);
    FixedBefore(q);
    ArrivesHead(fs.tree, q);
    assert q == Front(q) + [Last(q)];
    LstatMeans(fs, Render(q, 1));
  }

  /** Resolving a canonical path again follows no link and gives the path back. */
  lemma {:induction false} PlainFixed(fs: FileSystem, q: seq<string>, links: nat, mode: Mode, isDir: bool)
    requires Faithful(fs) && q in fs.tree && !fs.tree[q].Link? && (isDir ==> fs.tree[q] == Dir) && mode != Expand
    requires |Render(q, 1)| < MAXPATHLEN - 1 && links <= LINK_MAX
    ensures Plain(fs, Render(q, 1), links, mode, isDir) == Done(Render(q, 1), fs.tree[q] == Dir, links)
    decreases |q|
  {
    if q != [] {
      var below := Done(Render(Front(q), 1), true, links);
      FoundAtItself(fs, q);
      FrontFacts(fs.tree, q);
      PlainFixed(fs, Front(q), links, FilePath, true);
      PlainOfEntry(fs, Render(q, 1), links, mode, isDir, below);
      AppendedToFront(q, links, fs.tree[q] == Dir);
    }
  }

  lemma FrontFacts(t: Tree, q: seq<string>)
    requires TreeOk(t) && q in t && q != []
    ensures Front(q) in t && t[Front(q)] == Dir && Clean(q)
    ensures var s := Render(q, 1);
            && |s| > 1 && Name(s) == Last(q) && |Render(Front(q), 1)| < |s|
            && (LastStart(s, 1) <= 2 ==> Render(Front(q), 1) == "/") && (LastStart(s, 1) > 2 ==> Before(s) == Render(Front(q), 1))
  {
    assert PlaceOk(t, q);
    PlacesAreNamed(t, q);
    NormalIsClean(q, 1);
    FixedBefore(q);
  }

  lemma AppendedToFront(q: seq<string>, links: nat, dir: bool)
    requires q != [] && |Render(q, 1)| < MAXPATHLEN - 1
    ensures Append(Done(Render(Front(q), 1), true, links), Last(q), dir) == Done(Render(q, 1), dir, links)
  {
  }

  // ---------- the resolver's promises ----------

  /** What a cached answer must be: if the resolver without cache succeeds, the same. */
  ghost predicate Transparent(fs: FileSystem, s: string, mode: Mode, r: Outcome) {
    var p := Plain(fs, s, 0, mode, false);
    p.Done? ==> r.Done? && r.path == p.path && r.dir == p.dir && r.links <= p.links
  }

  lemma ResolvedOpen(fs: FileSystem, limit: nat, c: Call, p: seq<char>, j: int, dir: bool, links: nat, recent: seq<Entry>)
    requires Kept(fs, limit, true, c, p, j, dir, links, recent) && c.mode != Expand && Faithful(fs) && c.links == 0 && !c.isDir && PathOf(c.s)
    ensures j <= |p| && Trusted(fs, limit, recent, c.mode)
    ensures limit == 0 ==> OutcomeOf(p, j, dir, links) == Plain(fs, c.s, 0, c.mode, false)
    ensures c.mode == RealPath || NoDangling(fs.tree) || Resolvable(fs.tree, c.s) ==> Transparent(fs, c.s, c.mode, OutcomeOf(p, j, dir, links))
    ensures j >= 0 && (Resolvable(fs.tree, c.s) || (c.mode == RealPath && (limit == 0 || NoDangling(fs.tree)))) ==> Canonical(fs.tree, c.s, p[..j], dir)
  {
    assert Seal(0);
    var r := OutcomeOf(p, j, dir, links);
    if c.mode == RealPath && Plain(fs, c.s, 0, c.mode, false).Done? {
      var q := PlainAnswers(fs, c.s, 0, c.mode, false);
      assert Resolvable(fs.tree, c.s);
    }
    if c.mode == RealPath || NoDangling(fs.tree) || Resolvable(fs.tree, c.s) {
      assert Covered(fs, c.s, c.mode) ==> AsPlain(fs, c.s, 0, c.mode, false, r);
    }
    if r.Done? && Resolvable(fs.tree, c.s) {
      var q :| Answers(fs.tree, c.s, r, q);
      AnswerIsCanonical(fs.tree, c.s, r, q);
    }
  }

  /** An absolute path, with symbolic links followed; the path is the first len characters of the buffer. */
  method ResolvePath(fs: FileSystem, cache: Cache, path: array<char>, len: nat, mode: Mode, now: int)
    returns (j: int, dir: bool, links: nat)
    requires Ready(fs, path[..], 1, len, 0, mode) && mode != Expand && cache.Ok() && Fits(cache.recent)
    requires Faithful(fs) && (cache.limit == 0 || Truthful(fs, cache.recent))
    modifies path, cache, cache.chains
    ensures cache.Ok() && Bounded(1, j, cache.recent) && (cache.limit == 0 || Truthful(fs, cache.recent))
    ensures cache.limit == 0 ==> OutcomeOf(path[..], j, dir, links) == Plain(fs, old(path[..len]), 0, mode, false)
    ensures mode == RealPath || NoDangling(fs.tree) || Resolvable(fs.tree, old(path[..len])) ==>
              Transparent(fs, old(path[..len]), mode, OutcomeOf(path[..], j, dir, links))
    ensures j >= 0 && (Resolvable(fs.tree, old(path[..len])) || (mode == RealPath && (cache.limit == 0 || NoDangling(fs.tree)))) ==>
              Canonical(fs.tree, old(path[..len]), path[..j], dir)
  {
    ghost var c := CallOf(path[..], 1, len, 0, mode, false);
    assert c.s == path[..len] && PathOf(c.s);
    j, dir, links := RealpathR(fs, cache, path, 1, len, 0, mode, false, now);
    ResolvedOpen(fs, cache.limit, c, path[..], j, dir, links, cache.recent);
    assert j >= 0 ==> path[..][..j] == path[..j];
  }

  lemma ExpandedOpen(fs: FileSystem, limit: nat, c: Call, p: seq<char>, j: int, dir: bool, links: nat, recent: seq<Entry>)
    requires Kept(fs, limit, true, c, p, j, dir, links, recent) && c.mode == Expand && c.start <= 1
    ensures 0 <= j <= |p| && p[..j] == Expanded(c.s, c.start) && j <= (if |c.s| <= c.start then c.start else |c.s|)
    ensures Expanded(p[..j], c.start) == p[..j]
  {
    assert Seal(0);
    ExpandedNoLonger(c.s, c.start);
    ExpandedTwice(c.s, c.start);
  }

  /** Expansion in place: the component stack's text, never longer, and a second expansion changes nothing. */
  method ExpandPath(fs: FileSystem, cache: Cache, path: array<char>, start: nat, len: nat, now: int) returns (j: nat)
    requires Ready(fs, path[..], start, len, 0, Expand) && cache.Ok() && Fits(cache.recent)
    modifies path, cache, cache.chains
    ensures cache.Ok() && Bounded(start, j, cache.recent) && j <= path.Length && cache.recent == old(cache.recent)
    ensures path[..j] == Expanded(old(path[..len]), start)
    ensures j <= if len <= start then start else len
    ensures Expanded(path[..j], start) == path[..j]
  {
    ghost var c := CallOf(path[..], start, len, 0, Expand, false);
    assert c.s == path[..len];
    var i, dir, links := RealpathR(fs, cache, path, start, len, 0, Expand, false, now);
    ExpandedOpen(fs, cache.limit, c, path[..], i, dir, links, cache.recent);
    j := i;
    assert path[..][..j] == path[..j];
  }

  // ---------- runs ----------

  datatype Ask = Ask(path: string, mode: Mode, now: int)

  /** Absolute paths in a symlink mode. */
  predicate Asks(a: Ask) { Absolute(a.path) && |a.path| < MAXPATHLEN - 1 && a.mode != Expand }

  /** The answer to one question: transparent, and canonical in realpath mode. */
  ghost predicate Answered(fs: FileSystem, a: Ask, r: Outcome) {
    && Transparent(fs, a.path, a.mode, r)
    && (r.Done? && (a.mode == RealPath || Resolvable(fs.tree, a.path)) ==> Canonical(fs.tree, a.path, r.path, r.dir))
  }

  /** Any run of questions to one cache that starts empty is answered as if there were no cache. */
  method ResolveAll(fs: FileSystem, key: string -> nat, header: nat, limit: nat, ttl: int, asks: seq<Ask>) returns (answers: seq<Outcome>)
    requires Faithful(fs) && NoDangling(fs.tree) && TargetsFit(fs) && forall k :: 0 <= k < |asks| ==> Asks(asks[k])
    ensures |answers| == |asks| && forall k {:trigger asks[k]} :: 0 <= k < |asks| ==> Answered(fs, asks[k], answers[k])
  {
    var cache := new Cache(key, header, limit, ttl);
    var path := new char[MAXPATHLEN];
    answers := [];
    while |answers| < |asks|
      invariant fresh(cache) && fresh(cache.chains) && fresh(path) && path.Length == MAXPATHLEN
      invariant cache.Ok() && Fits(cache.recent) && (cache.limit == 0 || Truthful(fs, cache.recent))
      invariant |answers| <= |asks| && forall k {:trigger asks[k]} :: 0 <= k < |answers| ==> Answered(fs, asks[k], answers[k])
    {
      var a := asks[|answers|];
      var r := ResolveOne(fs, cache, path, a);
      answers := answers + [r];
    }
  }

  method ResolveOne(fs: FileSystem, cache: Cache, path: array<char>, a: Ask) returns (r: Outcome)
    requires Faithful(fs) && NoDangling(fs.tree) && TargetsFit(fs) && Asks(a) && path.Length == MAXPATHLEN
    requires cache.Ok() && Fits(cache.recent) && (cache.limit == 0 || Truthful(fs, cache.recent))
    modifies path, cache, cache.chains
    ensures cache.Ok() && Fits(cache.recent) && (cache.limit == 0 || Truthful(fs, cache.recent))
    ensures Answered(fs, a, r)
  {
    CopyIn(path, 0, a.path);
    assert path[..|a.path|] == a.path && path[..][0] == a.path[0];
    var j, dir, links := ResolvePath(fs, cache, path, |a.path|, a.mode, a.now);
    r := if j < 0 then Failed else Done(path[..j], dir, links);
  }

  // ---------- virtual_file_ex ----------

  predicate EndsInSlash(s: string) { s != "" && Last(s) == '/' }

  /** 0 for a path that stays relative, which only happens when there is no working directory. */
  function StartOf(cwd: string, path: string): nat { if !Absolute(path) && cwd == "" then 0 else 1 }

  function Joined(cwd: string, path: string): string {
    if Absolute(path) || cwd == "" then path else if EndsInSlash(cwd) then cwd + path else cwd + "/" + path
  }

  /** The lengths virtual_file_ex accepts. */
  predicate Acceptable(cwd: string, path: string) {
    0 < |path| < MAXPATHLEN - 1 && (Absolute(path) || cwd == "" || |path| + |cwd| + 1 < MAXPATHLEN - 1)
  }

  /** "." for the empty relative path, and the slash at the end of the joined path is kept. */
  function Finished(start: nat, p: string, addSlash: bool): string {
    var t := if start == 0 && p == "" then "." else p;
    if addSlash && t != "" && !EndsInSlash(t) then t + "/" else t
  }

  /** The new working directory in expand mode. */
  function Expansion(cwd: string, path: string): string {
    var s := Joined(cwd, path);
    Finished(StartOf(cwd, path), Expanded(s, StartOf(cwd, path)), EndsInSlash(s))
  }

  /** The working directory, a slash unless it ends in one, and the path. */
  method JoinCwd(buffer: array<char>, cwd: string, path: string) returns (n: nat)
    requires buffer.Length == MAXPATHLEN && cwd != "" && |cwd| + |path| + 2 < MAXPATHLEN
    modifies buffer
    ensures var s := if EndsInSlash(cwd) then cwd + path else cwd + "/" + path; n == |s| && buffer[..][..n] == s
  {
    PutText(buffer, 0, cwd, "");
    n := |cwd|;
    ghost var h := "" + cwd;
    assert buffer[n - 1] == buffer[..][..n][n - 1] == Last(cwd);
    if buffer[n - 1] != '/' {
      PutText(buffer, n, "/", h);
      n := n + 1;
      h := h + "/";
    }
    PutText(buffer, n, path, h);
    n := n + |path|;
  }

  method Join(buffer: array<char>, cwd: string, path: string) returns (start: nat, n: int)
    requires buffer.Length == MAXPATHLEN && 0 < |path| < MAXPATHLEN - 1
    modifies buffer
    ensures start == StartOf(cwd, path) && (n == -1 <==> !Acceptable(cwd, path))
    ensures n != -1 ==> n == |Joined(cwd, path)| < MAXPATHLEN - 1 && buffer[..][..n] == Joined(cwd, path)
  {
    start, n := 1, |path|;
    if Absolute(path) {
      PutText(buffer, 0, path, "");
    } else if cwd == "" {
      start := 0;
      PutText(buffer, 0, path, "");
    } else {
      if |path| + |cwd| + 1 >= MAXPATHLEN - 1 {
        n := -1;
        return;
      }
      n := JoinCwd(buffer, cwd, path);
    }
    assert "" + path == path;
  }

  /** What is appended after resolution; -1 if there is no room. */
  method Finish(buffer: array<char>, start: nat, n: nat, addSlash: bool) returns (j: int)
    requires buffer.Length == MAXPATHLEN && start <= n < MAXPATHLEN
    modifies buffer
    ensures j == -1 <==> n >= MAXPATHLEN - 1 && Finished(start, old(buffer[..])[..n], addSlash) != old(buffer[..])[..n]
    ensures j != -1 ==> 0 <= j < MAXPATHLEN && buffer[..j] == Finished(start, old(buffer[..])[..n], addSlash)
  {
    j := n;
    ghost var p := buffer[..];
    if start == 0 && j == 0 {
      buffer[0] := '.';
      j := 1;
    }
    ghost var t := if start == 0 && p[..n] == "" then "." else p[..n];
    assert buffer[..j] == t;
    if addSlash && j > 0 && buffer[j - 1] != '/' {
      if j >= MAXPATHLEN - 1 {
        return -1;
      }
      buffer[j] := '/';
      j := j + 1;
      assert buffer[..j] == t + "/";
    }
  }

  /** The resolver on the joined path. */
  method Resolve(fs: FileSystem, cache: Cache, buffer: array<char>, start: nat, n: nat, mode: Mode, now: int) returns (j: int)
    requires Ready(fs, buffer[..], start, n, 0, mode) && cache.Ok() && Fits(cache.recent) && n < MAXPATHLEN - 1
    requires Faithful(fs) && (cache.limit == 0 || Truthful(fs, cache.recent))
    modifies buffer, cache, cache.chains
    ensures cache.Ok() && Bounded(start, j, cache.recent) && (cache.limit == 0 || Truthful(fs, cache.recent))
    ensures mode == Expand ==> 0 <= j < MAXPATHLEN - 1 && buffer[..][..j] == Expanded(old(buffer[..])[..n], start)
    ensures mode == RealPath && NoDangling(fs.tree) && j >= 0 ==> exists dir :: Canonical(fs.tree, old(buffer[..])[..n], buffer[..][..j], dir)
  {
    assert buffer[..][..n] == buffer[..n];
    if mode == Expand {
      j := ExpandPath(fs, cache, buffer, start, n, now);
    } else {
      var dir, links;
      j, dir, links := ResolvePath(fs, cache, buffer, n, mode, now);
    }
    assert j >= 0 ==> buffer[..][..j] == buffer[..j];
  }

  /** Joins, resolves and finishes; the result is the first j characters of the buffer. */
  method Locate(fs: FileSystem, cache: Cache, buffer: array<char>, cwd: string, path: string, mode: Mode, now: int) returns (code: int, j: nat)
    requires cache.Ok() && Fits(cache.recent) && TargetsFit(fs) && Faithful(fs) && (cache.limit == 0 || Truthful(fs, cache.recent))
    requires (cwd == "" || Absolute(cwd)) && (cwd == "" && !Absolute(path) ==> mode == Expand) && buffer.Length == MAXPATHLEN
    modifies buffer, cache, cache.chains
    ensures cache.Ok() && Fits(cache.recent) && (cache.limit == 0 || Truthful(fs, cache.recent))
    ensures j <= MAXPATHLEN && (code == 0 ==> Acceptable(cwd, path))
    ensures mode == Expand ==> (code == 0 <==> Acceptable(cwd, path)) && (code == 0 ==> buffer[..j] == Expansion(cwd, path))
    ensures mode == RealPath && NoDangling(fs.tree) && code == 0 ==> exists dir :: Canonical(fs.tree, Joined(cwd, path), buffer[..j], dir)
  {
    if |path| == 0 || |path| >= MAXPATHLEN - 1 {
      return 1, 0;
    }
    var start, n := Join(buffer, cwd, path);
    if n < 0 {
      return 1, 0;
    }
    var addSlash := mode != RealPath && n > 0 && buffer[n - 1] == '/';
    assert buffer[n - 1] == buffer[..][..n][n - 1];
    var i := Resolve(fs, cache, buffer, start, n, mode, now);
    if i < 0 {
      return 1, 0;
    }
    i := Finish(buffer, start, i, addSlash);
    if i < 0 {
      return -1, 0;
    }
    return 0, i;
  }

  class CwdState {
    var cwd: string

    constructor (cwd: string)
      ensures this.cwd == cwd
    {
      this.cwd := cwd;
    }

    /**
     virtual_file_ex: 0 for success. `accepts` is the check of the caller, such as that of chdir for a
     directory. Without a working directory a relative path can only be expanded.
     */
    method VirtualFile(fs: FileSystem, cache: Cache, path: string, accepts: string -> bool, mode: Mode, now: int) returns (code: int)
      requires cache.Ok() && Fits(cache.recent) && TargetsFit(fs) && Faithful(fs) && (cache.limit == 0 || Truthful(fs, cache.recent))
      requires cwd == "" || Absolute(cwd)
      requires cwd == "" && !Absolute(path) ==> mode == Expand
      modifies this, cache, cache.chains
      ensures cache.Ok() && Fits(cache.recent) && (cache.limit == 0 || Truthful(fs, cache.recent))
      ensures code != 0 ==> cwd == old(cwd)
      ensures code == 0 ==> accepts(cwd) && Acceptable(old(cwd), path)
      ensures mode == Expand ==>
                (code == 0 <==> Acceptable(old(cwd), path) && accepts(Expansion(old(cwd), path))) && (code == 0 ==> cwd == Expansion(old(cwd), path))
      ensures mode == RealPath && NoDangling(fs.tree) && code == 0 ==> exists dir :: Canonical(fs.tree, Joined(old(cwd), path), cwd, dir)
    {
      var buffer := new char[MAXPATHLEN];
      var j;
      code, j := Locate(fs, cache, buffer, cwd, path, mode, now);
      if code == 0 {
        code := Commit(buffer, j, accepts);
      }
    }

    /** The resolved path becomes the working directory, unless the caller's check refuses it. */
    method Commit(buffer: array<char>, j: nat, accepts: string -> bool) returns (code: int)
      requires j <= buffer.Length
      modifies this
      ensures code == if accepts(buffer[..j]) then 0 else 1
      ensures cwd == if accepts(buffer[..j]) then buffer[..j] else old(cwd)
    {
      var was := cwd;
      cwd := buffer[..j];
      if !accepts(cwd) {
        cwd := was;
        return 1;
      }
      return 0;
    }
  }

  // ---------- what the new working directory names ----------

  /** The joined path arrives where a walk along the path from the working directory's place ends. */
  lemma JoinedWalks(t: Tree, w: seq<string>, path: string, q: seq<string>)
    requires TreeOk(t) && w in t && t[w] == Dir && path != ""
    ensures Arrives(t, Joined(Render(w, 1), path), q) <==> Reaches(t, if Absolute(path) then [] else w, PartsOf(path), true, q)
  {
    var cwd := Render(w, 1);
    ArrivesAtItself(t, w);
    if Absolute(path) {
      if Reaches(t, [], PartsOf(path), true, q) { ArrivesAt(t, path, q); }
    } else {
      JoinedParts(t, w, path);
      PartsNonEmpty(path);
      if Arrives(t, Joined(cwd, path), q) {
        var x := ReachesBefore(t, [], w, PartsOf(path), true, q);
        ReachesOne(t, [], w, true, w, x);
      }
      if Reaches(t, w, PartsOf(path), true, q) {
        ReachesOn(t, [], w, PartsOf(path), true, w, q);
        ArrivesAt(t, Joined(cwd, path), q);
      }
    }
  }

  lemma JoinedParts(t: Tree, w: seq<string>, path: string)
    requires TreeOk(t) && w in t && !t[w].Link? && path != "" && !Absolute(path)
    ensures Parts(Joined(Render(w, 1), path), 1) == w + PartsOf(path) && Reaches(t, [], w, true, w)
  {
    ArrivesAtItself(t, w);
    PlacesAreNamed(t, w);
    NormalIsClean(w, 1);
    PartsOfRender(w, 1);
    if w == [] {
      PartsJoin("", path);
      assert "" + "/" + path == "/" + path;
    } else {
      RenderedEnd(w, 1);
      assert PlaceOk(t, w);
      assert !EndsInSlash(Render(w, 1));
      PartsJoin(Render(w, 1), path);
    }
  }

  /** After chdir, the working directory is the canonical path of the place a walk from the old one reaches. */
  lemma ChdirPlace(t: Tree, w: seq<string>, path: string, cwd: string, dir: bool)
    requires TreeOk(t) && w in t && t[w] == Dir && path != "" && Canonical(t, Joined(Render(w, 1), path), cwd, dir)
    ensures exists q :: Reaches(t, if Absolute(path) then [] else w, PartsOf(path), true, q) && cwd == Render(q, 1) && q in t && dir == (t[q] == Dir)
  {
    var q :| CanonicalAt(t, Joined(Render(w, 1), path), cwd, dir, q);
    JoinedWalks(t, w, path, q);
  }
}
