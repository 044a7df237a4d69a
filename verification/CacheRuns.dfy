/**
 Whole runs of the realpath cache: with a clock that does not go back, it cannot be told from one
 list, most recent first, from which nothing is ever dropped.
 */
module CacheRuns {
  import opened RealpathCache

  datatype Op = Find(path: string, now: int) | Add(path: string, resolved: string, isDir: bool, now: int) | Del(path: string) | Clean

  /** The time after the operation. */
  function Clock(op: Op, before: int): int { if op.Find? || op.Add? then op.now else before }

  function Fresh(op: Op, ttl: int): Entry
    requires op.Add?
  {
    Entry(op.path, op.resolved, op.isDir, op.now + ttl)
  }

  /** The list without the newest entry for the path. */
  function Without(s: seq<Entry>, path: string): seq<Entry>
    decreases |s|
  {
    if s == [] then [] else if s[0].path == path then s[1..] else [s[0]] + Without(s[1..], path)
  }

  /** One operation on the plain list. */
  function Step(ttl: int, log: seq<Entry>, op: Op, accepted: bool): seq<Entry> {
    match op
    case Find(_, _) => log
    case Add(_, _, _, _) => if accepted then [Fresh(op, ttl)] + log else log
    case Del(path) => Without(log, path)
    case Clean => []
  }

  /** What is seen of one operation: the entry found, and whether an entry was accepted. */
  ghost predicate Seen(ttl: int, header: nat, limit: nat, log: seq<Entry>, op: Op, answer: Option<Entry>, accepted: bool) {
    && (op.Find? ==> answer == FirstLive(ttl, log, op.path, op.now))
    && (op.Add? && Total(header, log) + Charge(header, Fresh(op, ttl)) <= limit ==> accepted)
  }

  /** Older entries expire earlier. */
  ghost predicate Aging(s: seq<Entry>, bound: int) {
    && (forall i, j {:trigger s[i], s[j]} :: 0 <= i <= j < |s| ==> s[i].expires >= s[j].expires)
    && (forall i {:trigger s[i]} :: 0 <= i < |s| ==> s[i].expires <= bound)
  }

  /** The cache holds the list but for entries that have expired. */
  ghost predicate Shadows(ttl: int, log: seq<Entry>, recent: seq<Entry>, now: int) {
    Live(ttl, log, now) == Live(ttl, recent, now) && Sublist(recent, log) && Aging(log, now + ttl)
  }

  lemma {:induction false} LiveLater(ttl: int, s: seq<Entry>, now: int, later: int)
    requires now <= later
    ensures Live(ttl, s, later) == Live(ttl, Live(ttl, s, now), later)
    decreases |s|
  {
    if s != [] {
      LiveLater(ttl, s[1..], now, later);
      var rest := Live(ttl, s[1..], now);
      if !Expired(ttl, s[0], now) {
        assert ([s[0]] + rest)[1..] == rest;
      } else {
        assert [] + rest == rest;
      }
    }
  }

  lemma ShadowsLater(ttl: int, log: seq<Entry>, recent: seq<Entry>, now: int, later: int)
    requires Shadows(ttl, log, recent, now) && now <= later
    ensures Shadows(ttl, log, recent, later)
  {
    LiveLater(ttl, log, now, later);
    LiveLater(ttl, recent, now, later);
  }

  lemma AgingTail(s: seq<Entry>, bound: int)
    requires Aging(s, bound) && s != []
    ensures Aging(s[1..], s[0].expires)
  {
    forall i, j {:trigger s[1..][i], s[1..][j]} | 0 <= i <= j < |s| - 1 ensures s[1..][i].expires >= s[1..][j].expires {
      assert s[1..][i] == s[i + 1] && s[1..][j] == s[j + 1];
    }
  }

  lemma AgingCons(e: Entry, s: seq<Entry>, bound: int)
    requires Aging(s, e.expires) && e.expires <= bound
    ensures Aging([e] + s, bound)
  {
    var t := [e] + s;
    forall i, j {:trigger t[i], t[j]} | 0 <= i <= j < |t| ensures t[i].expires >= t[j].expires {
      assert i > 0 ==> t[i] == s[i - 1];
      assert j > 0 ==> t[j] == s[j - 1];
    }
  }

  lemma {:induction false} AgingSublist(t: seq<Entry>, s: seq<Entry>, bound: int)
    requires Aging(s, bound) && Sublist(t, s)
    ensures Aging(t, bound)
    decreases |s|
  {
    if t != [] {
      AgingTail(s, bound);
      if Sublist(t, s[1..]) {
        AgingSublist(t, s[1..], s[0].expires);
      } else {
        AgingSublist(t[1..], s[1..], s[0].expires);
        AgingCons(t[0], t[1..], bound);
        assert t == [t[0]] + t[1..];
      }
    }
  }

  /** In an aging list, the newest entry for a path is alive if any is. */
  lemma {:induction false} LiveWithout(ttl: int, s: seq<Entry>, path: string, now: int, bound: int)
    requires Aging(s, bound)
    ensures Live(ttl, Without(s, path), now) == Without(Live(ttl, s, now), path)
    decreases |s|
  {
    if s != [] {
      AgingTail(s, bound);
      LiveWithout(ttl, s[1..], path, now, s[0].expires);
      var e, rest := s[0], Live(ttl, s[1..], now);
      assert ([e] + rest)[1..] == rest && [] + rest == rest;
      if e.path == path {
        if Expired(ttl, e, now) { NothingAlive(ttl, s[1..], now, e.expires); }
      } else {
        assert ([e] + Without(s[1..], path))[1..] == Without(s[1..], path);
      }
    }
  }

  lemma {:induction false} NothingAlive(ttl: int, s: seq<Entry>, now: int, bound: int)
    requires Aging(s, bound) && ttl != 0 && bound < now
    ensures Live(ttl, s, now) == []
    decreases |s|
  {
    if s != [] {
      AgingTail(s, bound);
      NothingAlive(ttl, s[1..], now, s[0].expires);
    }
  }

  lemma {:induction false} WithoutSublist(s: seq<Entry>, path: string)
    ensures Sublist(Without(s, path), s)
    decreases |s|
  {
    if s != [] {
      SublistSelf(s[1..]);
      WithoutSublist(s[1..], path);
      assert ([s[0]] + Without(s[1..], path))[1..] == Without(s[1..], path);
    }
  }

  lemma {:induction false} SublistsWithout(t: seq<Entry>, s: seq<Entry>, path: string)
    requires Sublist(t, s)
    ensures Sublist(Without(t, path), Without(s, path))
    decreases |s|
  {
    if s != [] {
      var rest := s[1..];
      SublistSelf(rest);
      WithoutSublist(rest, path);
      if Sublist(t, rest) {
        SublistsWithout(t, rest, path);
        WithoutSublist(t, path);
        SublistTrans(Without(t, path), t, rest);
      } else {
        SublistsWithout(t[1..], rest, path);
      }
    }
  }

  /** What Del removes is what Without removes. */
  lemma {:induction false} WithoutIs(s: seq<Entry>, path: string, i: nat)
    requires i < |s| && s[i].path == path && forall h :: 0 <= h < i ==> s[h].path != path
    ensures Without(s, path) == s[..i] + s[i + 1..]
    decreases |s|
  {
    if i > 0 {
      WithoutIs(s[1..], path, i - 1);
      assert s[..i] + s[i + 1..] == [s[0]] + (s[1..][..i - 1] + s[1..][i..]);
    }
  }

  lemma {:induction false} WithoutNone(s: seq<Entry>, path: string)
    requires forall e :: e in s ==> e.path != path
    ensures Without(s, path) == s
    decreases |s|
  {
    if s != [] {
      WithoutNone(s[1..], path);
      assert s[0] in s && s == [s[0]] + s[1..];
    }
  }

  lemma {:induction false} FirstFor(s: seq<Entry>, path: string) returns (i: nat)
    requires exists i :: 0 <= i < |s| && s[i].path == path
    ensures i < |s| && s[i].path == path && forall h :: 0 <= h < i ==> s[h].path != path
    decreases |s|
  {
    if s[0].path == path {
      i := 0;
    } else {
      var k :| 0 <= k < |s| && s[k].path == path;
      assert s[1..][k - 1].path == path;
      i := FirstFor(s[1..], path);
      i := i + 1;
      forall h | 0 <= h < i ensures s[h].path != path {
        assert h > 0 ==> s[h] == s[1..][h - 1];
      }
    }
  }

  // ---------- one operation ----------

  lemma FoundAlike(ttl: int, log: seq<Entry>, recent: seq<Entry>, path: string, now: int)
    requires Shadows(ttl, log, recent, now)
    ensures FirstLive(ttl, recent, path, now) == FirstLive(ttl, log, path, now)
  {
    FirstOfLive(ttl, recent, path, now, now);
    FirstOfLive(ttl, log, path, now, now);
  }

  lemma ThinnedShadows(ttl: int, log: seq<Entry>, was: seq<Entry>, recent: seq<Entry>, now: int)
    requires Shadows(ttl, log, was, now) && Thinned(ttl, was, recent, now)
    ensures Shadows(ttl, log, recent, now)
  {
    SublistTrans(recent, was, log);
  }

  lemma AddedShadows(ttl: int, log: seq<Entry>, recent: seq<Entry>, e: Entry, now: int)
    requires Shadows(ttl, log, recent, now) && e.expires == now + ttl
    ensures Shadows(ttl, [e] + log, [e] + recent, now)
  {
    LiveConcat(ttl, [e], log, now);
    LiveConcat(ttl, [e], recent, now);
    AgingCons(e, log, now + ttl);
    assert ([e] + log)[1..] == log && ([e] + recent)[1..] == recent;
  }

  lemma DeletedShadows(ttl: int, log: seq<Entry>, recent: seq<Entry>, path: string, now: int)
    requires Shadows(ttl, log, recent, now)
    ensures Shadows(ttl, Without(log, path), Without(recent, path), now)
  {
    AgingSublist(recent, log, now + ttl);
    LiveWithout(ttl, log, path, now, now + ttl);
    LiveWithout(ttl, recent, path, now, now + ttl);
    SublistsWithout(recent, log, path);
    WithoutSublist(log, path);
    AgingSublist(Without(log, path), log, now + ttl);
  }

  lemma DelIsWithout(was: seq<Entry>, recent: seq<Entry>, path: string)
    requires (forall e :: e in was ==> e.path != path) ==> recent == was
    requires (exists e :: e in was && e.path == path) ==>
               exists i :: 0 <= i < |was| && was[i].path == path && recent == was[..i] + was[i + 1..] && forall h :: 0 <= h < i ==> was[h].path != path
    ensures recent == Without(was, path)
  {
    if e :| e in was && e.path == path {
      var i :| 0 <= i < |was| && was[i].path == path && recent == was[..i] + was[i + 1..] && forall h :: 0 <= h < i ==> was[h].path != path;
      WithoutIs(was, path, i);
    } else {
      WithoutNone(was, path);
    }
  }

  method ApplyAdd(cache: Cache, op: Op, ghost log: seq<Entry>) returns (accepted: bool)
    requires cache.Valid() && op.Add? && Shadows(cache.ttl, log, cache.recent, op.now)
    modifies cache, cache.chains
    ensures cache.Valid() && Seen(cache.ttl, cache.header, cache.limit, log, op, None, accepted)
    ensures Shadows(cache.ttl, Step(cache.ttl, log, op, accepted), cache.recent, op.now)
  {
    var e := Fresh(op, cache.ttl);
    accepted := cache.bytes + Charge(cache.header, e) <= cache.limit;
    SublistTotal(cache.header, cache.recent, log);
    AddedShadows(cache.ttl, log, cache.recent, e, op.now);
    cache.Add(op.path, op.resolved, op.isDir, op.now);
  }

  method ApplyDel(cache: Cache, path: string, ghost log: seq<Entry>, ghost now: int)
    requires cache.Valid() && Shadows(cache.ttl, log, cache.recent, now)
    modifies cache, cache.chains
    ensures cache.Valid() && Shadows(cache.ttl, Without(log, path), cache.recent, now)
  {
    DeletedShadows(cache.ttl, log, cache.recent, path, now);
    ghost var was := cache.recent;
    cache.Del(path);
    DelIsWithout(was, cache.recent, path);
  }

  /** One operation on the cache, beside the same operation on the plain list. */
  method Apply(cache: Cache, op: Op, ghost log: seq<Entry>, ghost before: int) returns (answer: Option<Entry>, accepted: bool)
    requires cache.Valid() && Shadows(cache.ttl, log, cache.recent, before) && before <= Clock(op, before)
    modifies cache, cache.chains
    ensures cache.Valid() && Seen(cache.ttl, cache.header, cache.limit, log, op, answer, accepted)
    ensures Shadows(cache.ttl, Step(cache.ttl, log, op, accepted), cache.recent, Clock(op, before))
  {
    ghost var now := Clock(op, before);
    ShadowsLater(cache.ttl, log, cache.recent, before, now);
    ghost var was := cache.recent;
    answer, accepted := None, false;
    match op
    case Find(path, t) =>
      FoundAlike(cache.ttl, log, was, path, t);
      answer := cache.Find(path, t);
      ThinnedShadows(cache.ttl, log, was, cache.recent, t);
    case Add(path, resolved, isDir, t) =>
      accepted := ApplyAdd(cache, op, log);
    case Del(path) =>
      ApplyDel(cache, path, log, now);
    case Clean =>
      cache.Clean();
  }

  // ---------- runs ----------

  /** The clock never goes back. */
  predicate Forward(ops: seq<Op>, start: int)
    decreases |ops|
  {
    ops == [] || (start <= Clock(ops[0], start) && Forward(ops[1..], Clock(ops[0], start)))
  }

  /** Every answer of the run is that of the plain list that grows and shrinks along with it. */
  ghost predicate Explained(ttl: int, header: nat, limit: nat, log: seq<Entry>, ops: seq<Op>, answers: seq<Option<Entry>>, accepted: seq<bool>)
    requires |answers| == |accepted| == |ops|
    decreases |ops|
  {
    ops == []
    || (Seen(ttl, header, limit, log, ops[0], answers[0], accepted[0])
        && Explained(ttl, header, limit, Step(ttl, log, ops[0], accepted[0]), ops[1..], answers[1..], accepted[1..]))
  }

  /** Any run on a cache that the list shadows. */
  method RunOn(cache: Cache, ops: seq<Op>, ghost log: seq<Entry>, ghost start: int) returns (answers: seq<Option<Entry>>, accepted: seq<bool>)
    requires cache.Valid() && Shadows(cache.ttl, log, cache.recent, start) && Forward(ops, start)
    modifies cache, cache.chains
    ensures cache.Valid() && |answers| == |accepted| == |ops|
    ensures Explained(cache.ttl, cache.header, cache.limit, log, ops, answers, accepted)
    decreases |ops|
  {
    if ops == [] {
      return [], [];
    }
    var answer, ok := Apply(cache, ops[0], log, start);
    var rest, oks := RunOn(cache, ops[1..], Step(cache.ttl, log, ops[0], ok), Clock(ops[0], start));
    answers, accepted := [answer] + rest, [ok] + oks;
    assert answers[1..] == rest && accepted[1..] == oks;
  }

  /** Any run on a new cache. */
  method Run(key: string -> nat, header: nat, limit: nat, ttl: int, ops: seq<Op>, start: int) returns (answers: seq<Option<Entry>>, accepted: seq<bool>)
    requires Forward(ops, start)
    ensures |answers| == |accepted| == |ops| && Explained(ttl, header, limit, [], ops, answers, accepted)
  {
    var cache := new Cache(key, header, limit, ttl);
    answers, accepted := RunOn(cache, ops, [], start);
  }
}
