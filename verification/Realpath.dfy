/**
 tsrm_realpath_r: the resolver rewrites the path buffer in place, from right to left, with the cache
 beside it.
 */
module Realpath {
  import opened PathText
  import opened FileTree
  import opened RealpathLaws
  import opened PathBuffer
  import opened RealpathCache
  import opened RealpathSteps

  /** The text in the first len characters of the buffer. */
  function Text(p: seq<char>, len: int): string
    requires len <= |p|
  {
    if len < 0 then "" else p[..len]
  }

  /** A returned length, -1 for failure, with what the buffer holds. */
  function OutcomeOf(p: seq<char>, j: int, dir: bool, links: nat): Outcome
    requires j <= |p|
  {
    if j < 0 then Failed else Done(p[..j], dir, links)
  }

  /** What a call promises: the component stack in expand mode, else what the resolver without cache gives. */
  ghost predicate Delivers(fs: FileSystem, cached: bool, start: nat, s: string, links: nat, mode: Mode, isDir: bool, r: Outcome) {
    if mode == Expand then r.Done? && r.path == Expanded(s, start) && r.links == links
    else Resolved(fs, cached, s, links, mode, isDir, r)
  }

  /** The cache can be believed, or is not asked. */
  ghost predicate Trusted(fs: FileSystem, limit: nat, recent: seq<Entry>, mode: Mode) {
    mode == Expand || limit == 0 || (Faithful(fs) && Truthful(fs, recent))
  }

  /** Every cached text fits into the buffer, and is not empty. */
  ghost predicate Fits(recent: seq<Entry>) { forall e {:trigger e in recent} :: e in recent ==> 0 < |e.resolved| < MAXPATHLEN }

  /** readlink never fills the buffer. */
  ghost predicate TargetsFit(fs: FileSystem) {
    forall s {:trigger s in fs.lstat} :: s in fs.lstat && fs.lstat[s].Link? ==> |fs.lstat[s].target| < MAXPATHLEN
  }

  /** The buffer at a call: an absolute path (start is 1), or a relative one that is only to be expanded. */
  ghost predicate Ready(fs: FileSystem, p: seq<char>, start: nat, len: int, links: nat, mode: Mode) {
    && |p| == MAXPATHLEN && 0 <= len < MAXPATHLEN && links <= LINK_MAX && start <= 1 && TargetsFit(fs)
    && (start == 1 ==> p[0] == '/') && (start == 0 ==> mode == Expand && (len > 0 ==> p[0] != '/'))
    && (mode == Expand ==> len < MAXPATHLEN - 1)
  }

  lemma SkipDelivers(fs: FileSystem, cached: bool, start: nat, s: string, links: nat, mode: Mode, isDir: bool, r: Outcome)
    requires |s| > start && (NameOf(s, start) == "" || NameOf(s, start) == ".") && (start == 1 || mode == Expand)
    requires Delivers(fs, cached, start, HeadOf(s, start), links, mode, true, r)
    ensures Delivers(fs, cached, start, s, links, mode, isDir, r)
  {
    if mode == Expand {
      StackStep(s, start);
    } else {
      SkipResolved(fs, cached, s, links, mode, isDir, r);
    }
  }

  lemma RootDelivers(fs: FileSystem, cached: bool, start: nat, s: string, links: nat, mode: Mode, isDir: bool)
    requires |s| <= start <= 1 && links <= LINK_MAX && (start == 1 || mode == Expand)
    ensures Delivers(fs, cached, start, s, links, mode, isDir, Done(if start == 1 then "/" else "", true, links))
  {
    if mode != Expand {
      RootResolved(fs, cached, s, links, mode, isDir);
    }
  }

  // ---------- what the branches deliver in expand mode ----------

  lemma UpDelivers(fs: FileSystem, cached: bool, s: string, links: nat, mode: Mode, isDir: bool, below: Outcome)
    requires |s| > 1 && NameOf(s, 1) == ".." && links <= LINK_MAX
    requires if LastStart(s, 1) <= 2 then below == Done("/", true, links) else Delivers(fs, cached, 1, HeadOf(s, 1), links, mode, true, below)
    ensures Delivers(fs, cached, 1, s, links, mode, isDir, Climb(below))
  {
    if mode == Expand {
      StackStep(s, 1);
      StackNormal(HeadOf(s, 1), 1);
      PopTextRendered(Stack(HeadOf(s, 1), 1));
    } else {
      UpResolved(fs, cached, s, links, mode, isDir, below);
    }
  }

  /** The name behind what the path before it delivered. */
  lemma NameDelivers(fs: FileSystem, cached: bool, start: nat, s: string, links: nat, mode: Mode, isDir: bool, below: Outcome)
    requires |s| > start && Proper(NameOf(s, start)) && start <= 1 && links <= LINK_MAX && |s| < MAXPATHLEN - 1 && mode == Expand
    requires if LastStart(s, start) <= start + 1 then below == Done(if start == 1 then "/" else "", true, links)
             else Delivers(fs, cached, start, HeadOf(s, start), links, mode, true, below)
    ensures var p, c := if |below.path| > start then below.path + "/" else below.path, NameOf(s, start);
            |p| + |c| < MAXPATHLEN - 1 && forall d :: Delivers(fs, cached, start, s, links, mode, isDir, Done(p + c, d, links))
    ensures !EndsUp(Stack(s, start))
  {
    StackStep(s, start);
    RenderSnoc(Stack(HeadOf(s, start), start), NameOf(s, start), start);
    ExpandedNoLonger(s, start);
  }

  // ---------- the resolver ----------

  /** A call: the path, whether a slash follows it in the buffer, and the other arguments. */
  datatype Call = Call(start: nat, s: string, tail: bool, links: nat, mode: Mode, isDir: bool)

  ghost function CallOf(p: seq<char>, start: nat, len: nat, links: nat, mode: Mode, isDir: bool): Call
    requires len < |p|
  {
    Call(start, p[..len], p[len] == '/', links, mode, isDir)
  }

  predicate Seal(k: nat) { true }

  /** What every method below leaves behind. */
  ghost predicate Kept(fs: FileSystem, limit: nat, trusted: bool, c: Call, p: seq<char>, j: int, dir: bool, links: nat, recent: seq<Entry>) {
    forall k: nat {:trigger Seal(k)} :: Seal(k) ==> KeptOpen(fs, limit, trusted, c, p, j, dir, links, recent)
  }

  ghost predicate KeptOpen(fs: FileSystem, limit: nat, trusted: bool, c: Call, p: seq<char>, j: int, dir: bool, links: nat, recent: seq<Entry>) {
    && j <= |p|
    && (trusted ==> Trusted(fs, limit, recent, c.mode) && Delivers(fs, limit > 0, c.start, c.s, c.links, c.mode, c.isDir, OutcomeOf(p, j, dir, links)))
    && (c.start == 0 && c.tail && EndsUp(Stack(c.s, 0)) ==> 0 <= j < |p| && p[j] == '/')
  }

  /** The length that is returned, and the cache. */
  ghost predicate Bounded(start: nat, j: int, recent: seq<Entry>) { (j == -1 || start <= j < MAXPATHLEN) && Fits(recent) }

  /** Resolving t does for resolving s. */
  ghost predicate Serves(fs: FileSystem, cached: bool, start: nat, t: string, isDir: bool, s: string, isDir0: bool, links: nat, mode: Mode) {
    forall k: nat {:trigger Seal(k)} :: Seal(k) ==> ServesOpen(fs, cached, start, t, isDir, s, isDir0, links, mode)
  }

  ghost predicate ServesOpen(fs: FileSystem, cached: bool, start: nat, t: string, isDir: bool, s: string, isDir0: bool, links: nat, mode: Mode) {
    && Stack(t, start) == Stack(s, start)
    && forall r {:trigger Delivers(fs, cached, start, s, links, mode, isDir0, r)} ::
         Delivers(fs, cached, start, t, links, mode, isDir, r) ==> Delivers(fs, cached, start, s, links, mode, isDir0, r)
  }

  lemma ServesStep(fs: FileSystem, cached: bool, start: nat, t: string, isDir: bool, s: string, isDir0: bool, links: nat, mode: Mode)
    requires |t| > start && (NameOf(t, start) == "" || NameOf(t, start) == ".") && (start == 1 || mode == Expand)
    requires Serves(fs, cached, start, t, isDir, s, isDir0, links, mode)
    ensures Serves(fs, cached, start, HeadOf(t, start), true, s, isDir0, links, mode)
  {
    assert Seal(0);
    StackStep(t, start);
    forall r {:trigger Delivers(fs, cached, start, s, links, mode, isDir0, r)} | Delivers(fs, cached, start, HeadOf(t, start), links, mode, true, r)
      ensures Delivers(fs, cached, start, s, links, mode, isDir0, r)
    {
      SkipDelivers(fs, cached, start, t, links, mode, isDir, r);
    }
  }

  lemma DropOne(fs: FileSystem, cached: bool, p: seq<char>, start: nat, len: nat, i: nat, isDir: bool, s: string, isDir0: bool, links: nat, mode: Mode)
    requires start < len <= |p| && i == LastStart(p[..len], start) && start <= 1 && (start == 1 || mode == Expand)
    requires i == len || (i == len - 1 && p[i] == '.')
    requires Serves(fs, cached, start, p[..len], isDir, s, isDir0, links, mode)
    ensures Serves(fs, cached, start, Text(p, i - 1), true, s, isDir0, links, mode)
  {
    DotTests(p, start, len, i);
    PartAtMeans(p, start, len, i, p[i..len]);
    ServesStep(fs, cached, start, p[..len], isDir, s, isDir0, links, mode);
  }

  /** Where the last part begins, and whether it is empty or ".". */
  method LastIsDropped(path: array<char>, start: nat, len: nat) returns (i: nat, dropped: bool)
    requires start < len <= path.Length
    ensures i == LastStart(path[..][..len], start) && (dropped <==> i == len || (i == len - 1 && path[..][i] == '.'))
    ensures !dropped ==> i <= len && PartAt(path[..], start, len, i, path[..][i..len]) && path[..][i..len] != "" && path[..][i..len] != "."
    ensures i > start ==> path[..][i - 1] == '/'
  {
    i := LastSlash(path, start, len);
    DotTests(path[..], start, len, i);
    PartAtMeans(path[..], start, len, i, path[..][i..len]);
    dropped := i == len || (i == len - 1 && path[i] == '.');
  }

  /** Drops empty and "." parts from the end. */
  method DropDots(fs: FileSystem, ghost cached: bool, path: array<char>, start: nat, len0: nat, links: nat, mode: Mode, isDir0: bool)
    returns (len: int, i: nat, isDir: bool)
    requires Ready(fs, path[..], start, len0, links, mode)
    ensures -1 <= len <= len0 && (0 <= len < len0 ==> path[..][len] == '/')
    ensures len > start ==> i <= len && PartAt(path[..], start, len, i, path[..][i..len]) && path[..][i..len] != "" && path[..][i..len] != "."
    ensures Serves(fs, cached, start, Text(path[..], len), isDir, path[..][..len0], isDir0, links, mode)
  {
    len, isDir := len0, isDir0;
    i := 0;
    ghost var p := path[..];
    while true
      invariant -1 <= len <= len0 && (0 <= len < len0 ==> p[len] == '/')
      invariant Serves(fs, cached, start, Text(p, len), isDir, p[..len0], isDir0, links, mode)
      decreases len
    {
      if len <= start { return; }
      var dropped;
      i, dropped := LastIsDropped(path, start, len);
      if dropped {
        DropOne(fs, cached, p, start, len, i, isDir, p[..len0], isDir0, links, mode);
        len := i - 1;
        isDir := true;
      } else {
        return;
      }
    }
  }

  lemma AtRoot(fs: FileSystem, limit: nat, trusted: bool, p: seq<char>, start: nat, len: nat, links: nat, mode: Mode, isDir: bool, recent: seq<Entry>)
    requires Ready(fs, p, start, len, links, mode) && len <= start && (trusted ==> Trusted(fs, limit, recent, mode))
    ensures Kept(fs, limit, trusted, CallOf(p, start, len, links, mode, isDir), p, start, true, links, recent)
  {
    RootDelivers(fs, limit > 0, start, p[..len], links, mode, isDir);
    assert p[..start] == if start == 1 then "/" else "";
  }

  lemma KeptServes(fs: FileSystem, limit: nat, trusted: bool, c: Call, c0: Call, p: seq<char>, j: int, dir: bool, links: nat, recent: seq<Entry>)
    requires Kept(fs, limit, trusted, c, p, j, dir, links, recent)
    requires Serves(fs, limit > 0, c.start, c.s, c.isDir, c0.s, c0.isDir, c0.links, c0.mode) && (c0.tail ==> c.tail || c.s == "")
    requires c0 == Call(c.start, c0.s, c0.tail, c.links, c.mode, c0.isDir)
    ensures Kept(fs, limit, trusted, c0, p, j, dir, links, recent)
  {
    assert Seal(0);
    if c.s == "" { assert Stack(c.s, 0) == []; }
  }

  /** tsrm_realpath_r. */
  method RealpathR(fs: FileSystem, cache: Cache, path: array<char>, start: nat, len0: nat, links0: nat, mode: Mode, isDir0: bool, now: int)
    returns (j: int, dir: bool, links: nat)
    requires Ready(fs, path[..], start, len0, links0, mode) && cache.Ok() && Fits(cache.recent)
    modifies path, cache, cache.chains
    ensures cache.Ok()
    ensures Bounded(start, j, cache.recent) && (mode == Expand ==> cache.recent == old(cache.recent))
    ensures Kept(fs, cache.limit, old(Trusted(fs, cache.limit, cache.recent, mode)),
                 CallOf(old(path[..]), start, len0, links0, mode, isDir0), path[..], j, dir, links, cache.recent)
    decreases LINK_MAX - links0, len0, 5
  {
    var len, i, isDir := DropDots(fs, cache.limit > 0, path, start, len0, links0, mode, isDir0);
    ghost var p, n, trusted := path[..], if len < 0 then 0 else len, Trusted(fs, cache.limit, cache.recent, mode);
    ghost var c0, c := CallOf(p, start, len0, links0, mode, isDir0), CallOf(p, start, n, links0, mode, isDir);
    if len <= start {
      j, dir, links := start, true, links0;
      AtRoot(fs, cache.limit, trusted, p, start, n, links0, mode, isDir, cache.recent);
    } else {
      j, dir, links := LastPart(fs, cache, path, start, len, i, links0, mode, isDir, now);
    }
    KeptServes(fs, cache.limit, trusted, c, c0, path[..], j, dir, links, cache.recent);
  }

  /** The last part is neither empty nor ".". */
  method LastPart(fs: FileSystem, cache: Cache, path: array<char>, start: nat, len: nat, i: nat, links0: nat, mode: Mode, isDir: bool, now: int)
    returns (j: int, dir: bool, links: nat)
    requires Ready(fs, path[..], start, len, links0, mode) && cache.Ok() && Fits(cache.recent)
    requires i <= len && PartAt(path[..], start, len, i, path[..][i..len]) && path[..][i..len] != "" && path[..][i..len] != "."
    modifies path, cache, cache.chains
    ensures cache.Ok()
    ensures Bounded(start, j, cache.recent) && (mode == Expand ==> cache.recent == old(cache.recent))
    ensures Kept(fs, cache.limit, old(Trusted(fs, cache.limit, cache.recent, mode)),
                 CallOf(old(path[..]), start, len, links0, mode, isDir), path[..], j, dir, links, cache.recent)
    decreases LINK_MAX - links0, len, 4
  {
    DotTests(path[..], start, len, i);
    if i == len - 2 && path[i] == '.' && path[i + 1] == '.' {
      j, dir, links := UpStep(fs, cache, path, start, len, i, links0, mode, isDir, now);
    } else {
      j, dir, links := NamedStep(fs, cache, path, start, len, i, path[i..len], links0, mode, isDir, now);
    }
  }

  lemma UpAtRoot(fs: FileSystem, limit: nat, trusted: bool, p: seq<char>, start: nat, len: nat, i: nat, links: nat, mode: Mode, isDir: bool, recent: seq<Entry>)
    requires Ready(fs, p, start, len, links, mode) && (trusted ==> Trusted(fs, limit, recent, mode)) && PartAt(p, start, len, i, "..") && i <= start + 1
    ensures Kept(fs, limit, trusted, CallOf(p, start, len, links, mode, isDir), p, if start == 1 then 1 else len, true, links, recent)
  {
    PartAtMeans(p, start, len, i, "..");
    if start == 1 {
      UpDelivers(fs, limit > 0, p[..len], links, mode, isDir, Done("/", true, links));
      assert p[..1] == "/";
    } else {
      OnlyUp(p[..len]);
      assert i == 0 && p[..len] == "..";
    }
  }

  lemma OnlyUp(s: string)
    requires |s| > 0 && NameOf(s, 0) == ".." && LastStart(s, 0) == 0
    ensures Expanded(s, 0) == ".." && Stack(s, 0) == [".."]
  {
    StackStep(s, 0);
    OneUp();
  }

  /** The call for the path before the last part. */
  ghost function HeadCall(c: Call): Call
    requires |c.s| > c.start
  {
    Call(c.start, HeadOf(c.s, c.start), true, c.links, c.mode, true)
  }

  /** ".." behind something: what the recursive call left is popped. */
  lemma UpAbsolute(fs: FileSystem, limit: nat, trusted: bool, c: Call, p: seq<char>, below: int, j: int, d: bool, links: nat, recent: seq<Entry>)
    requires c.start == 1 < |c.s| && NameOf(c.s, 1) == ".." && LastStart(c.s, 1) > 2 && c.links <= LINK_MAX && below <= |p|
    requires Kept(fs, limit, trusted, HeadCall(c), p, below, d, links, recent)
    requires if below < 0 then j == -1 else 1 <= j <= below && p[..j] == PopText(p[..below])
    ensures Kept(fs, limit, trusted, c, p, j, true, links, recent)
  {
    assert Seal(0);
    if trusted {
      UpDelivers(fs, limit > 0, c.s, c.links, c.mode, c.isDir, OutcomeOf(p, below, d, links));
    }
  }

  lemma UpRelative(fs: FileSystem, limit: nat, trusted: bool, c: Call, p: seq<char>, j: nat, recent: seq<Entry>)
    requires c.start == 0 < |c.s| && NameOf(c.s, 0) == ".." && c.mode == Expand && Popped(p, j, Stack(HeadOf(c.s, 0), 0))
    ensures Kept(fs, limit, trusted, c, p, j, true, c.links, recent)
  {
    StackStep(c.s, 0);
  }

  /** A relative path was expanded by the recursive call. */
  lemma HeadExpanded(fs: FileSystem, limit: nat, trusted: bool, h: Call, p: seq<char>, j: int, d: bool, links: nat, recent: seq<Entry>)
    requires h.start == 0 && h.mode == Expand && h.tail && trusted && j <= |p| && Kept(fs, limit, trusted, h, p, j, d, links, recent)
    ensures 0 <= j <= |h.s| && links == h.links && p[..j] == Render(Stack(h.s, 0), 0) && NormalParts(Stack(h.s, 0), 0)
    ensures EndsUp(Stack(h.s, 0)) ==> j < |p| && p[j] == '/'
  {
    assert Seal(0);
    StackNormal(h.s, 0);
    ExpandedNoLonger(h.s, 0);
  }

  lemma CallIsUp(p: seq<char>, start: nat, len: nat, i: nat, links: nat, mode: Mode, isDir: bool)
    requires PartAt(p, start, len, i, "..") && len < |p|
    ensures var c := CallOf(p, start, len, links, mode, isDir);
            && start < |c.s| == len && NameOf(c.s, start) == ".." && i == LastStart(c.s, start) && start <= i && i + 2 == len
            && (i > start + 1 ==> CallOf(p, start, i - 1, links, mode, true) == HeadCall(c) && |HeadOf(c.s, start)| == i - 1)
  {
    PartAtMeans(p, start, len, i, "..");
  }

  /** The last part is "..". */
  method UpStep(fs: FileSystem, cache: Cache, path: array<char>, start: nat, len: nat, i: nat, links0: nat, mode: Mode, isDir: bool, now: int)
    returns (j: int, dir: bool, links: nat)
    requires Ready(fs, path[..], start, len, links0, mode) && cache.Ok() && Fits(cache.recent)
    requires PartAt(path[..], start, len, i, "..")
    modifies path, cache, cache.chains
    ensures cache.Ok()
    ensures Bounded(start, j, cache.recent) && (mode == Expand ==> cache.recent == old(cache.recent))
    ensures Kept(fs, cache.limit, old(Trusted(fs, cache.limit, cache.recent, mode)),
                 CallOf(old(path[..]), start, len, links0, mode, isDir), path[..], j, dir, links, cache.recent)
    decreases LINK_MAX - links0, len, 3
  {
    ghost var p, trusted := path[..], Trusted(fs, cache.limit, cache.recent, mode);
    ghost var c := CallOf(p, start, len, links0, mode, isDir);
    dir, links := true, links0;
    CallIsUp(p, start, len, i, links0, mode, isDir);
    if i - 1 <= start {
      j := if start == 1 then start else len;
      UpAtRoot(fs, cache.limit, trusted, p, start, len, i, links0, mode, isDir, cache.recent);
    } else {
      var d;
      j, d, links := RealpathR(fs, cache, path, start, i - 1, links0, mode, true, now);
      j := PopLast(fs, cache.limit, path, start, i, j, d, links, trusted, c, cache.recent);
    }
  }

  /** Removes the last part of what the recursive call left. */
  method PopLast(ghost fs: FileSystem, ghost limit: nat, path: array<char>, start: nat, ghost i: nat, below: int, ghost d: bool, ghost links: nat, ghost trusted: bool, ghost c: Call, ghost recent: seq<Entry>)
    returns (j: int)
    requires path.Length == MAXPATHLEN && c.start == start <= 1 && start < |c.s| < MAXPATHLEN && c.links <= LINK_MAX && Bounded(start, below, recent)
    requires NameOf(c.s, start) == ".." && i == LastStart(c.s, start) && i > start + 1
    requires start == 0 ==> c.mode == Expand && |HeadOf(c.s, 0)| + 3 < MAXPATHLEN && trusted
    requires Kept(fs, limit, trusted, HeadCall(c), path[..], below, d, links, recent)
    modifies path
    ensures Bounded(start, j, recent)
    ensures Kept(fs, limit, trusted, c, path[..], j, true, links, recent)
  {
    j := below;
    if start == 1 {
      if j > start { j := PopAbsolute(path, j); } else if j == start { PopRoot(path[..]); }
      UpAbsolute(fs, limit, trusted, c, path[..], below, j, d, links, recent);
    } else {
      HeadExpanded(fs, limit, trusted, HeadCall(c), path[..], j, d, links, recent);
      j := PopRelative(path, j, Stack(HeadOf(c.s, 0), 0));
      UpRelative(fs, limit, trusted, c, path[..], j, recent);
    }
  }

  // ---------- a name ----------

  /** A call whose last part is the name c, starting at i. */
  ghost predicate Named(fs: FileSystem, c: Call, i: nat, name: string) {
    && c.start <= 1 && |c.s| < MAXPATHLEN && c.links <= LINK_MAX && TargetsFit(fs)
    && PartAt(c.s, c.start, |c.s|, i, name) && Proper(name)
    && (c.start == 1 ==> c.s[0] == '/') && (c.start == 0 ==> c.mode == Expand) && (c.mode == Expand ==> |c.s| < MAXPATHLEN - 1)
  }

  lemma NamedMeans(fs: FileSystem, c: Call, i: nat, name: string)
    requires Named(fs, c, i, name)
    ensures c.start <= i <= |c.s| && c.s[i..] == name == NameOf(c.s, c.start) && |c.s| == i + |name|
    ensures HeadOf(c.s, c.start) == (if i <= c.start then "" else c.s[..i - 1]) && !EndsUp(Stack(c.s, c.start)) && i == LastStart(c.s, c.start)
  {
    assert c.s[..|c.s|] == c.s;
    PartAtMeans(c.s, c.start, |c.s|, i, name);
    StackStep(c.s, c.start);
  }

  lemma CallIsNamed(fs: FileSystem, p: seq<char>, start: nat, len: nat, i: nat, name: string, links: nat, mode: Mode, isDir: bool)
    requires Ready(fs, p, start, len, links, mode) && PartAt(p, start, len, i, name) && Proper(name)
    ensures Named(fs, CallOf(p, start, len, links, mode, isDir), i, name)
  {
    assert p[..len][..len] == p[..len] && p[..len][i..len] == p[i..len];
  }

  // ---------- cached answers ----------

  lemma HitKept(fs: FileSystem, limit: nat, trusted: bool, c: Call, i: nat, name: string, e: Entry, t: seq<char>, j: int, recent: seq<Entry>)
    requires Named(fs, c, i, name) && c.start == 1 && c.mode != Expand && limit > 0 && e.path == c.s
    requires j == (if c.isDir && !e.isDir then -1 else |e.resolved|) <= |t| && (j >= 0 ==> t[..j] == e.resolved)
    requires trusted ==> Trusted(fs, limit, recent, c.mode) && e in recent
    ensures Kept(fs, limit, trusted, c, t, j, e.isDir, c.links, recent)
  {
    NamedMeans(fs, c, i, name);
    if trusted {
      assert EntryOk(fs, e);
      HitResolved(fs, c.s, c.links, c.mode, c.isDir, e);
    }
  }

  /** Only a path that was found, and whose last part is a name, is saved. */
  ghost predicate Saved(fs: FileSystem, s: string) { s in fs.lstat && |s| > 1 && Proper(Name(s)) }

  /** The answer goes into the cache. */
  lemma StoredKept(fs: FileSystem, limit: nat, trusted: bool, c: Call, p: seq<char>, j: nat, dir: bool, links: nat, recent: seq<Entry>, e: Entry)
    requires limit > 0 && c.start == 1 && c.mode != Expand && PathOf(c.s) && Saved(fs, c.s) && Kept(fs, limit, trusted, c, p, j, dir, links, recent)
    requires j <= |p| && e.path == c.s && e.resolved == p[..j] && e.isDir == dir
    ensures Kept(fs, limit, trusted, c, p, j, dir, links, [e] + recent)
  {
    assert Seal(0);
    if trusted {
      StoredTruth(fs, c.s, c.links, c.mode, c.isDir, OutcomeOf(p, j, dir, links), e);
      forall d {:trigger EntryOk(fs, d)} | d in [e] + recent ensures EntryOk(fs, d) {
      }
    }
  }

  lemma FewerTrusted(fs: FileSystem, limit: nat, mode: Mode, was: seq<Entry>, recent: seq<Entry>)
    requires forall e :: e in recent ==> e in was
    ensures Trusted(fs, limit, was, mode) ==> Trusted(fs, limit, recent, mode)
    ensures Fits(was) ==> Fits(recent)
  {
  }

  /** The cache lookup; what is found is copied into the buffer. */
  method FromCache(fs: FileSystem, cache: Cache, path: array<char>, tmp: string, mode: Mode, isDir: bool, now: int)
    returns (j: int, dir: bool, hit: Option<Entry>)
    requires cache.Ok() && Fits(cache.recent) && path.Length == MAXPATHLEN
    modifies path, cache, cache.chains
    ensures cache.Ok() && Fits(cache.recent)
    ensures old(Trusted(fs, cache.limit, cache.recent, mode)) ==> Trusted(fs, cache.limit, cache.recent, mode)
    ensures hit.None? ==> path[..] == old(path[..])
    ensures hit.Some? ==> hit.value in cache.recent && hit.value.path == tmp && dir == hit.value.isDir
    ensures hit.Some? ==> j == (if isDir && !hit.value.isDir then -1 else |hit.value.resolved|) && Bounded(1, j, cache.recent)
    ensures hit.Some? && j >= 0 ==> path[..][..j] == hit.value.resolved
  {
    assert Opened(0);
    ghost var was := cache.recent;
    hit := cache.Find(tmp, now);
    FewerTrusted(fs, cache.limit, mode, was, cache.recent);
    j, dir := -1, false;
    if hit.Some? {
      dir := hit.value.isDir;
      if !(isDir && !dir) {
        CopyIn(path, 0, hit.value.resolved);
        j := |hit.value.resolved|;
      }
    }
  }

  /** Saves the answer for tmp. */
  method IntoCache(fs: FileSystem, cache: Cache, path: array<char>, tmp: string, j: nat, dir: bool, now: int, ghost trusted: bool, ghost c: Call, ghost links: nat)
    requires cache.Ok() && Fits(cache.recent) && 0 < j < MAXPATHLEN == path.Length && cache.limit > 0
    requires c.start == 1 && c.mode != Expand && PathOf(c.s) && Saved(fs, tmp) && c.s == tmp && Kept(fs, cache.limit, trusted, c, path[..], j, dir, links, cache.recent)
    modifies cache, cache.chains
    ensures cache.Ok() && Fits(cache.recent)
    ensures Kept(fs, cache.limit, trusted, c, path[..], j, dir, links, cache.recent)
  {
    assert Opened(0);
    ghost var e := Entry(tmp, path[..j], dir, now + cache.ttl);
    assert path[..j] == path[..][..j];
    StoredKept(fs, cache.limit, trusted, c, path[..], j, dir, links, cache.recent, e);
    cache.Add(tmp, path[..j], dir, now);
  }

  // ---------- a link ----------

  lemma LinkRefusedKept(fs: FileSystem, limit: nat, trusted: bool, c: Call, i: nat, name: string, p: seq<char>, dir: bool, links: nat, recent: seq<Entry>)
    requires Named(fs, c, i, name) && c.start == 1 && c.mode != Expand && c.s in fs.lstat && fs.lstat[c.s].Link?
    requires c.links == LINK_MAX || (!Absolute(fs.lstat[c.s].target) && i + |fs.lstat[c.s].target| >= MAXPATHLEN - 1)
    requires trusted ==> Trusted(fs, limit, recent, c.mode)
    ensures Kept(fs, limit, trusted, c, p, -1, dir, links, recent)
  {
    NamedMeans(fs, c, i, name);
    LinkRefused(fs, limit > 0, c.s, c.links, c.mode, c.isDir);
  }

  /** Following the link of the call c leads to the call `again`. */
  ghost predicate LinkAgain(fs: FileSystem, c: Call, i: nat, name: string, again: Call) {
    && Named(fs, c, i, name) && c.start == 1 && c.mode != Expand && c.s in fs.lstat && fs.lstat[c.s].Link?
    && c.links < LINK_MAX && (Absolute(fs.lstat[c.s].target) || i + |fs.lstat[c.s].target| < MAXPATHLEN - 1)
    && again == Call(1, Replaced(c.s, fs.lstat[c.s].target), again.tail, c.links + 1, c.mode, c.isDir)
  }

  lemma LinkDelivers(fs: FileSystem, cached: bool, c: Call, i: nat, name: string, again: Call, r: Outcome)
    requires LinkAgain(fs, c, i, name, again) && Resolved(fs, cached, again.s, again.links, again.mode, again.isDir, r)
    ensures Resolved(fs, cached, c.s, c.links, c.mode, c.isDir, r)
  {
    NamedMeans(fs, c, i, name);
    LinkResolved(fs, cached, c.s, c.links, c.mode, c.isDir, r);
  }

  lemma LinkKept(fs: FileSystem, limit: nat, trusted: bool, c: Call, i: nat, name: string, again: Call, p: seq<char>, j: int, dir: bool, links: nat, recent: seq<Entry>)
    requires LinkAgain(fs, c, i, name, again) && Kept(fs, limit, trusted, again, p, j, dir, links, recent)
    ensures Kept(fs, limit, trusted, c, p, j, dir, links, recent)
  {
    assert Seal(0);
    if trusted {
      LinkDelivers(fs, limit > 0, c, i, name, again, OutcomeOf(p, j, dir, links));
    }
  }

  /** The last part is a link. */
  method FollowLink(fs: FileSystem, cache: Cache, path: array<char>, tmp: string, i: nat, ghost name: string, links0: nat, mode: Mode, isDir: bool, now: int, ghost c: Call)
    returns (j: int, dir: bool, links: nat)
    requires path.Length == MAXPATHLEN && cache.Ok() && Fits(cache.recent)
    requires Named(fs, c, i, name) && c.start == 1 && mode != Expand && tmp in fs.lstat && fs.lstat[tmp].Link?
    requires c.s == tmp && c.links == links0 && c.mode == mode && c.isDir == isDir
    modifies path, cache, cache.chains
    ensures cache.Ok()
    ensures Bounded(1, j, cache.recent)
    ensures Kept(fs, cache.limit, old(Trusted(fs, cache.limit, cache.recent, mode)), c, path[..], j, dir, links, cache.recent)
    decreases LINK_MAX - links0, |tmp|, 1
  {
    ghost var trusted := Trusted(fs, cache.limit, cache.recent, mode);
    var target := fs.lstat[tmp].target;
    j, dir, links := -1, false, links0 + 1;
    if links > LINK_MAX {
      LinkRefusedKept(fs, cache.limit, trusted, c, i, name, path[..], dir, links, cache.recent);
      return;
    }
    NamedMeans(fs, c, i, name);
    var n := FollowText(path, tmp, i, target);
    if n < 0 {
      LinkRefusedKept(fs, cache.limit, trusted, c, i, name, path[..], dir, links, cache.recent);
      return;
    }
    ghost var again := CallOf(path[..], 1, n, links, mode, isDir);
    j, dir, links := RealpathR(fs, cache, path, 1, n, links, mode, isDir, now);
    LinkKept(fs, cache.limit, trusted, c, i, name, again, path[..], j, dir, links, cache.recent);
  }

  // ---------- any other name ----------

  lemma RefusedKept(fs: FileSystem, limit: nat, trusted: bool, c: Call, i: nat, name: string, p: seq<char>, dir: bool, links: nat, recent: seq<Entry>)
    requires Named(fs, c, i, name) && c.start == 1 && c.mode != Expand && (trusted ==> Trusted(fs, limit, recent, c.mode))
    requires (c.mode == RealPath && c.s !in fs.lstat) || (c.s in fs.lstat && !fs.lstat[c.s].Link? && c.isDir && fs.lstat[c.s] != Dir)
    ensures Kept(fs, limit, trusted, c, p, -1, dir, links, recent)
  {
    NamedMeans(fs, c, i, name);
    RefusedResolved(fs, limit > 0, c.s, c.links, c.mode, c.isDir);
  }

  /** What the resolver has for the path before the name: nothing to do at the root, else the result of a call. */
  ghost predicate BelowKept(fs: FileSystem, limit: nat, trusted: bool, c: Call, i: nat, p: seq<char>, j: int, d: bool, links: nat, recent: seq<Entry>)
    requires |c.s| > c.start
  {
    && (trusted ==> Trusted(fs, limit, recent, c.mode))
    && if i <= c.start + 1 then j == c.start <= |p| && p[..j] == (if c.start == 1 then "/" else "") && links == c.links
       else j <= |p| && Kept(fs, limit, trusted, HeadCall(c).(mode := if Found(fs, c.s, c.mode) then FilePath else c.mode), p, j, d, links, recent)
  }

  /** The outcome below is what the recursive call delivered, or the root. */
  ghost predicate BelowIs(fs: FileSystem, cached: bool, c: Call, mode: Mode, below: Outcome)
    requires |c.s| > c.start
  {
    if LastStart(c.s, c.start) <= c.start + 1 then below == Done(if c.start == 1 then "/" else "", true, c.links)
    else Delivers(fs, cached, c.start, HeadOf(c.s, c.start), c.links, mode, true, below)
  }

  lemma BelowFrom(fs: FileSystem, limit: nat, c: Call, i: nat, name: string, p: seq<char>, j: int, d: bool, links: nat, recent: seq<Entry>) returns (below: Outcome)
    requires Named(fs, c, i, name) && |c.s| > c.start && BelowKept(fs, limit, true, c, i, p, j, d, links, recent)
    ensures BelowIs(fs, limit > 0, c, if Found(fs, c.s, c.mode) then FilePath else c.mode, below)
    ensures below.Failed? <==> j < 0
    ensures j >= 0 ==> j <= |p| && below.path == p[..j] && below.links == links
  {
    assert Seal(0);
    NamedMeans(fs, c, i, name);
    below := if i <= c.start + 1 then Done(p[..j], true, links) else OutcomeOf(p, j, d, links);
  }

  /** The text that is left: the part below, a slash unless that is the root, and the name. */
  ghost predicate Appended(c: Call, below: Outcome, name: string, p: seq<char>, j: int) {
    && j <= |p|
    && if below.Failed? then j == -1
       else
         var t := (if |below.path| > c.start then below.path + "/" else below.path) + name;
         if |t| >= MAXPATHLEN - 1 then j == -1 else j == |t| && p[..j] == t
  }

  lemma AppendedIs(c: Call, below: Outcome, name: string, p: seq<char>, j: int, dir: bool, links: nat)
    requires c.start == 1 && Appended(c, below, name, p, j) && (below.Done? ==> links == below.links)
    ensures OutcomeOf(p, j, dir, links) == Append(below, name, dir)
  {
  }

  lemma EntryDelivers(fs: FileSystem, cached: bool, c: Call, i: nat, name: string, below: Outcome, p: seq<char>, j: int, dir: bool, links: nat)
    requires Named(fs, c, i, name) && |c.s| > c.start && BelowIs(fs, cached, c, if Found(fs, c.s, c.mode) then FilePath else c.mode, below)
    requires Found(fs, c.s, c.mode) ==> !fs.lstat[c.s].Link? && (c.isDir ==> fs.lstat[c.s] == Dir)
    requires c.mode == RealPath ==> c.s in fs.lstat
    requires dir == (Found(fs, c.s, c.mode) && fs.lstat[c.s] == Dir) && (below.Done? ==> links == below.links) && Appended(c, below, name, p, j)
    ensures Delivers(fs, cached, c.start, c.s, c.links, c.mode, c.isDir, OutcomeOf(p, j, dir, links))
  {
    NamedMeans(fs, c, i, name);
    if c.mode == Expand {
      NameDelivers(fs, cached, c.start, c.s, c.links, c.mode, c.isDir, below);
    } else {
      EntryResolved(fs, cached, c.s, c.links, c.mode, c.isDir, below);
      AppendedIs(c, below, name, p, j, dir, links);
    }
  }

  lemma AppendKept(fs: FileSystem, limit: nat, trusted: bool, c: Call, i: nat, name: string, pb: seq<char>, jb: int, d: bool,
                   p: seq<char>, j: int, dir: bool, links: nat, recent: seq<Entry>)
    requires Named(fs, c, i, name) && |c.s| > c.start && BelowKept(fs, limit, trusted, c, i, pb, jb, d, links, recent) && jb <= |pb|
    requires Found(fs, c.s, c.mode) ==> !fs.lstat[c.s].Link? && (c.isDir ==> fs.lstat[c.s] == Dir)
    requires c.mode == RealPath ==> c.s in fs.lstat
    requires dir == (Found(fs, c.s, c.mode) && fs.lstat[c.s] == Dir)
    requires Appended(c, OutcomeOf(pb, jb, d, links), name, p, j)
    ensures Kept(fs, limit, trusted, c, p, j, dir, links, recent)
  {
    NamedMeans(fs, c, i, name);
    if trusted {
      var below := BelowFrom(fs, limit, c, i, name, pb, jb, d, links, recent);
      EntryDelivers(fs, limit > 0, c, i, name, below, p, j, dir, links);
    }
  }

  /** Puts the name behind the text that is j long. */
  method PutName(path: array<char>, start: nat, j0: int, tmp: string, i: nat, ghost c: Call, ghost below: Outcome) returns (j: int)
    requires path.Length == MAXPATHLEN && i <= |tmp| && (j0 == -1 || start <= j0 < MAXPATHLEN) && c.start == start <= 1
    requires below == OutcomeOf(path[..], j0, true, 0)
    modifies path
    ensures Appended(c, below, tmp[i..], path[..], j) && (j == -1 || start <= j < MAXPATHLEN)
  {
    j := j0;
    ghost var was := path[..];
    if j > start {
      path[j] := '/';
      j := j + 1;
      assert path[..j] == was[..j0] + "/";
    }
    if j < 0 || j + |tmp| - i >= MAXPATHLEN - 1 {
      return -1;
    }
    ghost var head := path[..j];
    CopyIn(path, j, tmp[i..] + ['\0']);
    j := j + |tmp| - i;
    assert path[..j] == head + tmp[i..];
  }

  lemma HeadCallIs(fs: FileSystem, p: seq<char>, c: Call, i: nat, below: Mode)
    requires Ready(fs, p, c.start, |c.s|, c.links, c.mode) && p[..|c.s|] == c.s && c.start < |c.s| && i == LastStart(c.s, c.start) && i > c.start + 1
    requires below == c.mode || (below == FilePath && c.mode != Expand)
    ensures Ready(fs, p, c.start, i - 1, c.links, below) && CallOf(p, c.start, i - 1, c.links, below, true) == HeadCall(c).(mode := below)
  {
    HeadSlash(p, c.s, c.start, i);
  }

  lemma SameTrust(fs: FileSystem, limit: nat, recent: seq<Entry>, mode: Mode, below: Mode)
    requires below == mode || (below == FilePath && mode != Expand)
    ensures Trusted(fs, limit, recent, mode) == Trusted(fs, limit, recent, below)
  {
  }

  /** Resolves what is before the name. */
  method BelowName(fs: FileSystem, cache: Cache, path: array<char>, start: nat, tmp: string, i: nat, ghost name: string, found: bool, links0: nat, mode: Mode, now: int, ghost trusted: bool, ghost c: Call)
    returns (j: int, d: bool, links: nat)
    requires Ready(fs, path[..], start, |tmp|, links0, mode) && path[..][..|tmp|] == tmp && cache.Ok() && Fits(cache.recent)
    requires Named(fs, c, i, name) && found == Found(fs, tmp, mode) && start < |tmp| && i == LastStart(tmp, start)
    requires c.start == start && c.s == tmp && c.links == links0 && c.mode == mode && trusted == Trusted(fs, cache.limit, cache.recent, mode)
    modifies path, cache, cache.chains
    ensures cache.Ok()
    ensures Bounded(start, j, cache.recent) && (mode == Expand ==> cache.recent == old(cache.recent))
    ensures BelowKept(fs, cache.limit, trusted, c, i, path[..], j, d, links, cache.recent)
    decreases LINK_MAX - links0, |tmp|, 0
  {
    j, d, links := start, true, links0;
    if i - 1 > start {
      ghost var below := if found then FilePath else mode;
      ghost var h := CallOf(path[..], start, i - 1, links0, below, true);
      HeadCallIs(fs, path[..], c, i, below);
      SameTrust(fs, cache.limit, cache.recent, mode, below);
      j, d, links := RealpathR(fs, cache, path, start, i - 1, links0, if found then FilePath else mode, true, now);
      BelowCalled(fs, cache.limit, trusted, c, i, h, path[..], j, d, links, cache.recent);
    } else {
      assert path[..][..start] == if start == 1 then "/" else "";
    }
  }

  /** The last part is a name: no link, or not there. */
  method AppendName(fs: FileSystem, cache: Cache, path: array<char>, start: nat, tmp: string, i: nat, ghost name: string, found: bool, links0: nat, mode: Mode, isDir: bool, now: int, ghost c: Call)
    returns (j: int, dir: bool, links: nat)
    requires Ready(fs, path[..], start, |tmp|, links0, mode) && path[..][..|tmp|] == tmp && cache.Ok() && Fits(cache.recent)
    requires Named(fs, c, i, name) && found == Found(fs, tmp, mode) && (found ==> !fs.lstat[tmp].Link?) && (mode == RealPath ==> found) && start < |tmp|
    requires c.start == start && c.s == tmp && c.links == links0 && c.mode == mode && c.isDir == isDir
    modifies path, cache, cache.chains
    ensures cache.Ok()
    ensures Bounded(start, j, cache.recent) && (mode == Expand ==> cache.recent == old(cache.recent))
    ensures Kept(fs, cache.limit, old(Trusted(fs, cache.limit, cache.recent, mode)), c, path[..], j, dir, links, cache.recent)
    decreases LINK_MAX - links0, |tmp|, 1
  {
    ghost var trusted := Trusted(fs, cache.limit, cache.recent, mode);
    NamedMeans(fs, c, i, name);
    dir, links := found && fs.lstat[tmp] == Dir, links0;
    if found && isDir && !dir {
      j := -1;
      RefusedKept(fs, cache.limit, trusted, c, i, name, path[..], dir, links, cache.recent);
      return;
    }
    var d;
    j, d, links := BelowName(fs, cache, path, start, tmp, i, name, found, links0, mode, now, trusted, c);
    ghost var pb, jb := path[..], j;
    j := PutName(path, start, j, tmp, i, c, OutcomeOf(pb, jb, true, 0));
    AppendKept(fs, cache.limit, trusted, c, i, name, pb, jb, d, path[..], j, dir, links, cache.recent);
  }

  lemma HeadSlash(p: seq<char>, tmp: string, start: nat, i: nat)
    requires start < |tmp| <= |p| && p[..|tmp|] == tmp && i == LastStart(tmp, start) && i > start
    ensures p[..i - 1] == HeadOf(tmp, start) && p[i - 1] == '/'
  {
    assert p[..i - 1] == tmp[..i - 1] && p[i - 1] == tmp[i - 1];
  }

  lemma BelowCalled(fs: FileSystem, limit: nat, trusted: bool, c: Call, i: nat, h: Call, p: seq<char>, j: int, d: bool, links: nat, recent: seq<Entry>)
    requires |c.s| > c.start && i > c.start + 1 && h == HeadCall(c).(mode := if Found(fs, c.s, c.mode) then FilePath else c.mode)
    requires j <= |p| && Kept(fs, limit, trusted, h, p, j, d, links, recent)
    ensures BelowKept(fs, limit, trusted, c, i, p, j, d, links, recent)
  {
    assert Seal(0);
  }

  /** The last part is a name: the cache is asked, then the file system. */
  method NamedStep(fs: FileSystem, cache: Cache, path: array<char>, start: nat, len: nat, i: nat, ghost name: string, links0: nat, mode: Mode, isDir: bool, now: int)
    returns (j: int, dir: bool, links: nat)
    requires Ready(fs, path[..], start, len, links0, mode) && cache.Ok() && Fits(cache.recent)
    requires PartAt(path[..], start, len, i, name) && Proper(name)
    modifies path, cache, cache.chains
    ensures cache.Ok()
    ensures Bounded(start, j, cache.recent) && (mode == Expand ==> cache.recent == old(cache.recent))
    ensures Kept(fs, cache.limit, old(Trusted(fs, cache.limit, cache.recent, mode)),
                 CallOf(old(path[..]), start, len, links0, mode, isDir), path[..], j, dir, links, cache.recent)
    decreases LINK_MAX - links0, len, 3
  {
    ghost var trusted, c := Trusted(fs, cache.limit, cache.recent, mode), CallOf(path[..], start, len, links0, mode, isDir);
    CallIsNamed(fs, path[..], start, len, i, name, links0, mode, isDir);
    NamedMeans(fs, c, i, name);
    path[len] := '\0';
    var tmp := path[..len];
    assert tmp == c.s;
    links := links0;
    if start == 1 && mode != Expand && cache.limit > 0 {
      var hit;
      j, dir, hit := FromCache(fs, cache, path, tmp, mode, isDir, now);
      if hit.Some? {
        HitKept(fs, cache.limit, trusted, c, i, name, hit.value, path[..], j, cache.recent);
        return;
      }
    }
    j, dir, links := Uncached(fs, cache, path, start, tmp, i, name, links0, mode, isDir, now, trusted, c);
  }

  /** The file system is asked, and the answer saved. */
  method Uncached(fs: FileSystem, cache: Cache, path: array<char>, start: nat, tmp: string, i: nat, ghost name: string, links0: nat, mode: Mode, isDir: bool, now: int, ghost trusted: bool, ghost c: Call)
    returns (j: int, dir: bool, links: nat)
    requires Ready(fs, path[..], start, |tmp|, links0, mode) && path[..][..|tmp|] == tmp && cache.Ok() && Fits(cache.recent)
    requires Named(fs, c, i, name) && start < |tmp| && (trusted ==> Trusted(fs, cache.limit, cache.recent, mode))
    requires c.start == start && c.s == tmp && c.links == links0 && c.mode == mode && c.isDir == isDir
    modifies path, cache, cache.chains
    ensures cache.Ok()
    ensures Bounded(start, j, cache.recent) && (mode == Expand ==> cache.recent == old(cache.recent))
    ensures Kept(fs, cache.limit, trusted, c, path[..], j, dir, links, cache.recent)
    decreases LINK_MAX - links0, |tmp|, 2
  {
    NamedMeans(fs, c, i, name);
    var save := mode != Expand && tmp in fs.lstat;
    if mode == RealPath && !save {
      j, dir, links := -1, false, links0;
      RefusedKept(fs, cache.limit, trusted, c, i, name, path[..], dir, links, cache.recent);
      return;
    }
    ghost var before := Trusted(fs, cache.limit, cache.recent, mode);
    if save && fs.lstat[tmp].Link? {
      j, dir, links := FollowLink(fs, cache, path, tmp, i, name, links0, mode, isDir, now, c);
    } else {
      j, dir, links := AppendName(fs, cache, path, start, tmp, i, name, save, links0, mode, isDir, now, c);
    }
    LessTrusted(fs, cache.limit, before, trusted, c, path[..], j, dir, links, cache.recent);
    if j >= 0 && save && start == 1 && cache.limit > 0 {
      IntoCache(fs, cache, path, tmp, j, dir, now, trusted, c, links);
    }
  }

  lemma LessTrusted(fs: FileSystem, limit: nat, before: bool, trusted: bool, c: Call, p: seq<char>, j: int, dir: bool, links: nat, recent: seq<Entry>)
    requires (trusted ==> before) && Kept(fs, limit, before, c, p, j, dir, links, recent)
    ensures Kept(fs, limit, trusted, c, p, j, dir, links, recent)
  {
    assert Seal(0);
  }
}
