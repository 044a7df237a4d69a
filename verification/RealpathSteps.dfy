/**
 What a call of the resolver must deliver, with or without the cache, and how each branch delivers it
 from what its recursive call delivered.
 */
module RealpathSteps {
  import opened PathText
  import opened FileTree
  import opened RealpathLaws
  import opened RealpathCache

  /** The path of the entry is there, its last part is a name, and if the path resolves, the entry has the right answer. */
  ghost predicate EntryOk(fs: FileSystem, e: Entry) {
    && e.path in fs.lstat && |e.path| > 1 && PathOf(e.path) && Proper(Name(e.path))
    && forall q {:trigger Arrives(fs.tree, e.path, q)} :: Arrives(fs.tree, e.path, q) ==> e.resolved == Render(q, 1) && e.isDir == (fs.tree[q] == Dir)
  }

  ghost predicate Truthful(fs: FileSystem, s: seq<Entry>) {
    forall e {:trigger EntryOk(fs, e)} :: e in s ==> EntryOk(fs, e)
  }

  /** Whatever the resolver without cache delivers after b links, r delivers too. */
  ghost predicate AsPlain(fs: FileSystem, s: string, b: nat, mode: Mode, isDir: bool, r: Outcome)
    requires b <= LINK_MAX
  {
    var p := Plain(fs, s, b, mode, isDir);
    p.Done? ==> r.Done? && r.path == p.path && r.dir == p.dir && r.links <= p.links
  }

  ghost predicate Right(t: Tree, s: string, r: Outcome) { exists q :: Answers(t, s, r, q) }

  ghost predicate PathOf(s: string) { |s| < MAXPATHLEN && (s != "" ==> Absolute(s)) }

  /** r is a proper result for the path s when `links` links have been followed before. */
  ghost predicate Resolved(fs: FileSystem, cached: bool, s: string, links: nat, mode: Mode, isDir: bool, r: Outcome) {
    && links <= LINK_MAX && (r.Done? ==> links <= r.links <= LINK_MAX)
    && (!cached ==> r == Plain(fs, s, links, mode, isDir))
    && (Covered(fs, s, mode) ==>
          forall b: nat {:trigger AsPlain(fs, s, b, mode, isDir, r)} :: links <= b <= LINK_MAX ==> AsPlain(fs, s, b, mode, isDir, r))
    && (Faithful(fs) && PathOf(s) && mode != Expand && Resolvable(fs.tree, s) && r.Done? ==> Right(fs.tree, s, r))
    && Grounded(fs, s, mode, isDir, r)
  }

  /** The path resolves, or at least no link dangles. */
  ghost predicate Covered(fs: FileSystem, s: string, mode: Mode) {
    Faithful(fs) && PathOf(s) && mode != Expand && (Resolvable(fs.tree, s) || NoDangling(fs.tree))
  }

  /** Without dangling links, realpath mode succeeds only for paths that resolve, and asks for a directory only where there is one. */
  ghost predicate Grounded(fs: FileSystem, s: string, mode: Mode, isDir: bool, r: Outcome) {
    Faithful(fs) && NoDangling(fs.tree) && PathOf(s) && mode == RealPath && r.Done? ==> Resolvable(fs.tree, s) && (isDir ==> r.dir)
  }

  lemma RightOnly(t: Tree, s: string, r: Outcome, q: seq<string>)
    requires TreeOk(t) && Right(t, s, r) && Arrives(t, s, q)
    ensures Answers(t, s, r, q)
  {
    var x :| Answers(t, s, r, x);
    ReachesOne(t, [], Parts(s, 1), true, q, x);
  }

  lemma RootResolved(fs: FileSystem, cached: bool, s: string, links: nat, mode: Mode, isDir: bool)
    requires |s| <= 1 && links <= LINK_MAX
    ensures Resolved(fs, cached, s, links, mode, isDir, Done("/", true, links))
  {
    if Faithful(fs) {
      AnswersRoot(fs.tree, s, links);
      assert Arrives(fs.tree, s, []);
      assert Right(fs.tree, s, Done("/", true, links));
    }
  }

  lemma SkipCovered(fs: FileSystem, s: string, mode: Mode)
    requires |s| > 1 && (Name(s) == "" || Name(s) == ".") && Covered(fs, s, mode)
    ensures Covered(fs, Before(s), mode)
  {
    BeforeIsPath(s);
    if Resolvable(fs.tree, s) {
      var q :| Arrives(fs.tree, s, q);
      ArrivesSkip(fs.tree, s, q);
      assert Resolvable(fs.tree, Before(s));
    }
  }

  lemma SkipGrounded(fs: FileSystem, cached: bool, s: string, links: nat, mode: Mode, isDir: bool, r: Outcome)
    requires |s| > 1 && (Name(s) == "" || Name(s) == ".") && Resolved(fs, cached, Before(s), links, mode, true, r)
    ensures Grounded(fs, s, mode, isDir, r)
  {
    if Faithful(fs) && NoDangling(fs.tree) && PathOf(s) && mode == RealPath && r.Done? {
      BeforeIsPath(s);
      assert Right(fs.tree, Before(s), r);
      var q :| Answers(fs.tree, Before(s), r, q);
      ArrivesSkip(fs.tree, s, q);
      assert Arrives(fs.tree, s, q);
    }
  }

  /** Parts that are dropped. */
  lemma SkipResolved(fs: FileSystem, cached: bool, s: string, links: nat, mode: Mode, isDir: bool, r: Outcome)
    requires |s| > 1 && (Name(s) == "" || Name(s) == ".") && Resolved(fs, cached, Before(s), links, mode, true, r)
    ensures Resolved(fs, cached, s, links, mode, isDir, r)
  {
    SkipGrounded(fs, cached, s, links, mode, isDir, r);
    if Covered(fs, s, mode) {
      SkipCovered(fs, s, mode);
      forall b: nat {:trigger AsPlain(fs, s, b, mode, isDir, r)} | links <= b <= LINK_MAX ensures AsPlain(fs, s, b, mode, isDir, r) {
        assert AsPlain(fs, Before(s), b, mode, true, r);
      }
    }
    if Faithful(fs) && PathOf(s) && mode != Expand && Resolvable(fs.tree, s) && r.Done? {
      BeforeIsPath(s);
      var q :| Arrives(fs.tree, s, q);
      ArrivesSkip(fs.tree, s, q);
      assert Resolvable(fs.tree, Before(s));
      RightOnly(fs.tree, Before(s), r, q);
      assert Answers(fs.tree, s, r, q);
    }
  }

  /** The result for the path before the last part; nothing is resolved before a part at the root. */
  ghost predicate Below(fs: FileSystem, cached: bool, s: string, links: nat, mode: Mode, below: Outcome)
    requires |s| > 1
  {
    && links <= LINK_MAX
    && if LastStart(s, 1) <= 2 then below == Done("/", true, links) else Resolved(fs, cached, Before(s), links, mode, true, below)
  }

  lemma BelowAsPlain(fs: FileSystem, cached: bool, s: string, links: nat, b: nat, mode: Mode, below: Outcome)
    requires |s| > 1 && Below(fs, cached, s, links, mode, below) && links <= b <= LINK_MAX
    requires Covered(fs, Before(s), mode)
    ensures LastStart(s, 1) > 2 ==> AsPlain(fs, Before(s), b, mode, true, below)
  {
  }

  lemma BelowAnswers(fs: FileSystem, cached: bool, s: string, links: nat, mode: Mode, below: Outcome, x: seq<string>)
    requires |s| > 1 && Below(fs, cached, s, links, mode, below) && below.Done?
    requires Faithful(fs) && PathOf(Before(s)) && mode != Expand && Arrives(fs.tree, Before(s), x)
    ensures Answers(fs.tree, Before(s), below, x)
  {
    assert Resolvable(fs.tree, Before(s));
    if LastStart(s, 1) <= 2 {
      PartsBefore(s);
      AnswersRoot(fs.tree, Before(s), links);
      assert Right(fs.tree, Before(s), below);
    }
    RightOnly(fs.tree, Before(s), below, x);
  }

  lemma UpAsPlain(fs: FileSystem, s: string, links: nat, b: nat, mode: Mode, isDir: bool, below: Outcome)
    requires |s| > 1 && Name(s) == ".." && links <= b <= LINK_MAX
    requires if LastStart(s, 1) <= 2 then below == Done("/", true, links) else AsPlain(fs, Before(s), b, mode, true, below)
    ensures AsPlain(fs, s, b, mode, isDir, Climb(below))
  {
  }

  lemma UpCovered(fs: FileSystem, s: string, mode: Mode)
    requires |s| > 1 && Name(s) == ".." && Covered(fs, s, mode)
    ensures Covered(fs, Before(s), mode)
  {
    BeforeIsPath(s);
    if Resolvable(fs.tree, s) {
      var q :| Arrives(fs.tree, s, q);
      ArrivesUp(fs.tree, s, q);
      assert Resolvable(fs.tree, Before(s));
    }
  }

  /** ".." behind the root, or behind another path. */
  lemma UpResolved(fs: FileSystem, cached: bool, s: string, links: nat, mode: Mode, isDir: bool, below: Outcome)
    requires |s| > 1 && Name(s) == ".." && Below(fs, cached, s, links, mode, below)
    ensures Resolved(fs, cached, s, links, mode, isDir, Climb(below))
  {
    var r := Climb(below);
    if Covered(fs, s, mode) {
      UpCovered(fs, s, mode);
      forall b: nat {:trigger AsPlain(fs, s, b, mode, isDir, r)} | links <= b <= LINK_MAX ensures AsPlain(fs, s, b, mode, isDir, r) {
        BelowAsPlain(fs, cached, s, links, b, mode, below);
        UpAsPlain(fs, s, links, b, mode, isDir, below);
      }
    }
    if Faithful(fs) && PathOf(s) && mode != Expand && Resolvable(fs.tree, s) && r.Done? {
      BeforeIsPath(s);
      var q :| Arrives(fs.tree, s, q);
      ArrivesUp(fs.tree, s, q);
      var x :| Arrives(fs.tree, Before(s), x) && fs.tree[x] == Dir && q == Up(x);
      BelowAnswers(fs, cached, s, links, mode, below, x);
      AnswersUp(fs.tree, s, x, below, below.links);
      assert Right(fs.tree, s, r);
    }
    UpPlain(fs, cached, s, links, mode, isDir, below);
    UpGrounded(fs, cached, s, links, mode, isDir, below);
  }

  lemma UpGrounded(fs: FileSystem, cached: bool, s: string, links: nat, mode: Mode, isDir: bool, below: Outcome)
    requires |s| > 1 && Name(s) == ".." && Below(fs, cached, s, links, mode, below)
    ensures Grounded(fs, s, mode, isDir, Climb(below))
  {
    if Faithful(fs) && NoDangling(fs.tree) && PathOf(s) && mode == RealPath && below.Done? {
      BeforeIsPath(s);
      var x := BelowResolves(fs, cached, s, links, below);
      BelowAnswers(fs, cached, s, links, mode, below, x);
      ArrivesUp(fs.tree, s, Up(x));
      assert Arrives(fs.tree, s, Up(x));
    }
  }

  lemma BelowResolves(fs: FileSystem, cached: bool, s: string, links: nat, below: Outcome) returns (x: seq<string>)
    requires |s| > 1 && Below(fs, cached, s, links, RealPath, below) && below.Done? && Faithful(fs) && NoDangling(fs.tree) && PathOf(Before(s))
    ensures Arrives(fs.tree, Before(s), x) && below.dir
  {
    if LastStart(s, 1) <= 2 {
      PartsBefore(s);
      AnswersRoot(fs.tree, Before(s), links);
      x := [];
    } else {
      x :| Arrives(fs.tree, Before(s), x);
    }
  }

  lemma BeforeIsPath(s: string)
    requires |s| > 1 && PathOf(s)
    ensures PathOf(Before(s))
  {
  }

  lemma UpPlain(fs: FileSystem, cached: bool, s: string, links: nat, mode: Mode, isDir: bool, below: Outcome)
    requires |s| > 1 && Name(s) == ".." && Below(fs, cached, s, links, mode, below)
    ensures Climb(below).Done? ==> links <= Climb(below).links <= LINK_MAX
    ensures !cached ==> Climb(below) == Plain(fs, s, links, mode, isDir)
  {
  }

  /** A last part that is a name, but no link: what the system call says about it does not refuse it. */
  ghost predicate NamesEntry(fs: FileSystem, s: string, mode: Mode, isDir: bool)
  {
    && |s| > 1 && Proper(Name(s)) && (mode == RealPath ==> s in fs.lstat)
    && (s in fs.lstat && mode != Expand ==> !fs.lstat[s].Link? && (isDir ==> fs.lstat[s] == Dir))
  }

  /** The system call is asked, and finds something. */
  predicate Found(fs: FileSystem, s: string, mode: Mode) { mode != Expand && s in fs.lstat }

  function EntryOutcome(fs: FileSystem, s: string, mode: Mode, below: Outcome): Outcome
    requires |s| > 1
  {
    Append(below, Name(s), Found(fs, s, mode) && fs.lstat[s] == Dir)
  }

  lemma EntryAsPlain(fs: FileSystem, s: string, links: nat, b: nat, mode: Mode, isDir: bool, below: Outcome)
    requires NamesEntry(fs, s, mode, isDir) && links <= b <= LINK_MAX && mode != Expand
    requires if LastStart(s, 1) <= 2 then below == Done("/", true, links)
             else AsPlain(fs, Before(s), b, if Found(fs, s, mode) then FilePath else mode, true, below)
    ensures AsPlain(fs, s, b, mode, isDir, EntryOutcome(fs, s, mode, below))
  {
  }

  lemma EntryPlain(fs: FileSystem, cached: bool, s: string, links: nat, mode: Mode, isDir: bool, below: Outcome)
    requires NamesEntry(fs, s, mode, isDir) && Below(fs, cached, s, links, if Found(fs, s, mode) then FilePath else mode, below)
    ensures var r := EntryOutcome(fs, s, mode, below); (r.Done? ==> links <= r.links <= LINK_MAX) && (!cached ==> r == Plain(fs, s, links, mode, isDir))
  {
  }

  lemma EntryCovered(fs: FileSystem, s: string, mode: Mode)
    requires |s| > 1 && Proper(Name(s)) && Covered(fs, s, mode)
    ensures Covered(fs, Before(s), if Found(fs, s, mode) then FilePath else mode)
  {
    BeforeIsPath(s);
    if Resolvable(fs.tree, s) {
      FoundIfResolvable(fs, s);
      LstatMeans(fs, s);
      assert Resolvable(fs.tree, Before(s));
    }
  }

  lemma EntryRight(fs: FileSystem, cached: bool, s: string, links: nat, mode: Mode, isDir: bool, below: Outcome)
    requires NamesEntry(fs, s, mode, isDir) && Below(fs, cached, s, links, if Found(fs, s, mode) then FilePath else mode, below)
    requires Faithful(fs) && PathOf(s) && mode != Expand && Resolvable(fs.tree, s) && EntryOutcome(fs, s, mode, below).Done?
    ensures Right(fs.tree, s, EntryOutcome(fs, s, mode, below))
  {
    FoundIfResolvable(fs, s);
    LstatMeans(fs, s);
    var x :| Arrives(fs.tree, Before(s), x) && fs.tree[x] == Dir && x + [Name(s)] in fs.tree;
    BeforeIsPath(s);
    BelowAnswers(fs, cached, s, links, FilePath, below, x);
    AnswersName(fs.tree, s, x, below, below.links);
  }

  /** A name that is no link, or is not there in filepath mode. */
  lemma EntryResolved(fs: FileSystem, cached: bool, s: string, links: nat, mode: Mode, isDir: bool, below: Outcome)
    requires NamesEntry(fs, s, mode, isDir) && Below(fs, cached, s, links, if Found(fs, s, mode) then FilePath else mode, below)
    ensures Resolved(fs, cached, s, links, mode, isDir, EntryOutcome(fs, s, mode, below))
  {
    var r := EntryOutcome(fs, s, mode, below);
    var under := if Found(fs, s, mode) then FilePath else mode;
    if Covered(fs, s, mode) {
      EntryCovered(fs, s, mode);
      forall b: nat {:trigger AsPlain(fs, s, b, mode, isDir, r)} | links <= b <= LINK_MAX ensures AsPlain(fs, s, b, mode, isDir, r) {
        BelowAsPlain(fs, cached, s, links, b, under, below);
        EntryAsPlain(fs, s, links, b, mode, isDir, below);
      }
    }
    if Faithful(fs) && PathOf(s) && mode != Expand && Resolvable(fs.tree, s) && r.Done? {
      EntryRight(fs, cached, s, links, mode, isDir, below);
    }
    EntryPlain(fs, cached, s, links, mode, isDir, below);
    if Faithful(fs) && NoDangling(fs.tree) && PathOf(s) && mode == RealPath {
      FoundResolves(fs, s);
    }
  }

  /** Failures that do not depend on a recursive call. */
  lemma RefusedResolved(fs: FileSystem, cached: bool, s: string, links: nat, mode: Mode, isDir: bool)
    requires |s| > 1 && Proper(Name(s)) && links <= LINK_MAX && mode != Expand
    requires (mode == RealPath && s !in fs.lstat) || (s in fs.lstat && !fs.lstat[s].Link? && isDir && fs.lstat[s] != Dir)
    ensures Resolved(fs, cached, s, links, mode, isDir, Failed)
  {
    forall b: nat {:trigger AsPlain(fs, s, b, mode, isDir, Failed)} | links <= b <= LINK_MAX ensures AsPlain(fs, s, b, mode, isDir, Failed) {
    }
  }

  lemma LinkRefused(fs: FileSystem, cached: bool, s: string, links: nat, mode: Mode, isDir: bool)
    requires |s| > 1 && Proper(Name(s)) && links <= LINK_MAX && mode != Expand && s in fs.lstat && fs.lstat[s].Link?
    requires links == LINK_MAX || (!Absolute(fs.lstat[s].target) && LastStart(s, 1) + |fs.lstat[s].target| >= MAXPATHLEN - 1)
    ensures Resolved(fs, cached, s, links, mode, isDir, Failed)
  {
    forall b: nat {:trigger AsPlain(fs, s, b, mode, isDir, Failed)} | links <= b <= LINK_MAX ensures AsPlain(fs, s, b, mode, isDir, Failed) {
    }
  }

  /** The last part is a link that may be followed. */
  ghost predicate Follows(fs: FileSystem, s: string, links: nat, mode: Mode) {
    && |s| > 1 && Proper(Name(s)) && links < LINK_MAX && mode != Expand && s in fs.lstat && fs.lstat[s].Link?
    && (Absolute(fs.lstat[s].target) || LastStart(s, 1) + |fs.lstat[s].target| < MAXPATHLEN - 1)
  }

  lemma LinkPlain(fs: FileSystem, s: string, links: nat, mode: Mode, isDir: bool)
    requires Follows(fs, s, links, mode)
    ensures Plain(fs, s, links, mode, isDir) == Plain(fs, Replaced(s, fs.lstat[s].target), links + 1, mode, isDir)
  {
  }

  lemma LinkAsPlain(fs: FileSystem, s: string, links: nat, b: nat, mode: Mode, isDir: bool, r: Outcome)
    requires Follows(fs, s, links, mode) && links <= b <= LINK_MAX
    requires b < LINK_MAX ==> AsPlain(fs, Replaced(s, fs.lstat[s].target), b + 1, mode, isDir, r)
    ensures AsPlain(fs, s, b, mode, isDir, r)
  {
    if b < LINK_MAX {
      LinkPlain(fs, s, b, mode, isDir);
    } else {
      assert Plain(fs, s, b, mode, isDir).Failed?;
    }
  }

  /** A link, from the result for the path with its target. */
  lemma LinkResolved(fs: FileSystem, cached: bool, s: string, links: nat, mode: Mode, isDir: bool, r: Outcome)
    requires Follows(fs, s, links, mode)
    requires Resolved(fs, cached, Replaced(s, fs.lstat[s].target), links + 1, mode, isDir, r)
    ensures Resolved(fs, cached, s, links, mode, isDir, r)
  {
    var again := Replaced(s, fs.lstat[s].target);
    if Covered(fs, s, mode) {
      LinkCovered(fs, s, links, mode);
      forall b: nat {:trigger AsPlain(fs, s, b, mode, isDir, r)} | links <= b <= LINK_MAX ensures AsPlain(fs, s, b, mode, isDir, r) {
        assert b < LINK_MAX ==> AsPlain(fs, again, b + 1, mode, isDir, r);
        LinkAsPlain(fs, s, links, b, mode, isDir, r);
      }
    }
    if Faithful(fs) && PathOf(s) && Resolvable(fs.tree, s) && r.Done? {
      var q := LinkArrives(fs, s, links, mode);
      RightOnly(fs.tree, again, r, q);
      assert Answers(fs.tree, s, r, q);
    }
    LinkPlain(fs, s, links, mode, isDir);
    LinkGrounded(fs, cached, s, links, mode, isDir, r);
  }

  lemma LinkCovered(fs: FileSystem, s: string, links: nat, mode: Mode)
    requires Follows(fs, s, links, mode) && Covered(fs, s, mode)
    ensures Covered(fs, Replaced(s, fs.lstat[s].target), mode)
  {
    if NoDangling(fs.tree) { FoundResolves(fs, s); }
    var q := LinkArrives(fs, s, links, mode);
  }

  lemma LinkGrounded(fs: FileSystem, cached: bool, s: string, links: nat, mode: Mode, isDir: bool, r: Outcome)
    requires Follows(fs, s, links, mode)
    requires Resolved(fs, cached, Replaced(s, fs.lstat[s].target), links + 1, mode, isDir, r)
    ensures Grounded(fs, s, mode, isDir, r)
  {
    if Faithful(fs) && NoDangling(fs.tree) && PathOf(s) && mode == RealPath && r.Done? {
      FoundResolves(fs, s);
      var q := LinkArrives(fs, s, links, mode);
    }
  }

  lemma LinkArrives(fs: FileSystem, s: string, links: nat, mode: Mode) returns (q: seq<string>)
    requires Follows(fs, s, links, mode) && Faithful(fs) && PathOf(s) && Resolvable(fs.tree, s)
    ensures var again := Replaced(s, fs.lstat[s].target); Arrives(fs.tree, s, q) && Arrives(fs.tree, again, q) && Resolvable(fs.tree, again) && PathOf(again)
  {
    LstatMeans(fs, s);
    var x :| Arrives(fs.tree, Before(s), x) && fs.tree[x] == Dir && x + [Name(s)] in fs.tree;
    q :| Arrives(fs.tree, s, q);
    ArrivesLink(fs.tree, s, x, q);
    ReplacedIsPath(s, fs.lstat[s].target);
  }

  /** A cached answer. */
  lemma HitResolved(fs: FileSystem, s: string, links: nat, mode: Mode, isDir: bool, e: Entry)
    requires |s| > 1 && links <= LINK_MAX && mode != Expand && e.path == s && EntryOk(fs, e)
    ensures Resolved(fs, true, s, links, mode, isDir, if isDir && !e.isDir then Failed else Done(e.resolved, e.isDir, links))
  {
    var r := if isDir && !e.isDir then Failed else Done(e.resolved, e.isDir, links);
    if Faithful(fs) && NoDangling(fs.tree) { FoundResolves(fs, s); }
    if Faithful(fs) && PathOf(s) && Resolvable(fs.tree, s) {
      var q :| Arrives(fs.tree, s, q);
      assert r.Done? ==> Answers(fs.tree, s, r, q);
      forall b: nat {:trigger AsPlain(fs, s, b, mode, isDir, r)} | links <= b <= LINK_MAX ensures AsPlain(fs, s, b, mode, isDir, r) {
        if Plain(fs, s, b, mode, isDir).Done? {
          var x := PlainAnswers(fs, s, b, mode, isDir);
          ReachesOne(fs.tree, [], Parts(s, 1), true, q, x);
        }
      }
    }
  }

  /** What is stored in the cache is true. */
  lemma StoredTruth(fs: FileSystem, s: string, links: nat, mode: Mode, isDir: bool, r: Outcome, e: Entry)
    requires Faithful(fs) && PathOf(s) && mode != Expand && Resolved(fs, true, s, links, mode, isDir, r) && r.Done?
    requires e.path == s && e.resolved == r.path && e.isDir == r.dir && |s| > 1 && Proper(Name(s)) && s in fs.lstat
    ensures EntryOk(fs, e)
  {
    forall q {:trigger Arrives(fs.tree, e.path, q)} | Arrives(fs.tree, e.path, q)
      ensures e.resolved == Render(q, 1) && e.isDir == (fs.tree[q] == Dir)
    {
      assert Resolvable(fs.tree, s);
      RightOnly(fs.tree, s, r, q);
    }
  }
}
