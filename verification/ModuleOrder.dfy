/**
 The order in which extension modules are started: zend_sort_modules moves every dependency before
 the modules that need it, and one pass over the sorted registry starts them.
 */
module ModuleOrder {

  datatype DepKind = Required | Conflicts | Optional

  datatype Dep = Dep(name: string, kind: DepKind)

  function LowerChar(c: char): char { if 'A' <= c <= 'Z' then (c as int + 32) as char else c }

  /** Names are compared without case, as the registry does. */
  function Lower(s: string): string { seq(|s|, i requires 0 <= i < |s| => LowerChar(s[i])) }

  predicate SameName(a: string, b: string) { Lower(a) == Lower(b) }

  class ModuleEntry {
    const name: string
    const deps: seq<Dep>
    var started: bool              // module_started

    constructor (name: string, deps: seq<Dep>)
      ensures this.name == name && this.deps == deps && !started
    {
      this.name, this.deps, started := name, deps, false;
    }
  }

  /** The registry never holds two modules of one name. */
  ghost predicate Unique(s: seq<ModuleEntry>) {
    forall i, j :: 0 <= i < j < |s| ==> !SameName(s[i].name, s[j].name)
  }

  /** Dependency k of m names r, and matters for the order. */
  predicate Needs(m: ModuleEntry, k: nat, r: ModuleEntry)
    requires k < |m.deps|
  {
    m.deps[k].kind != Conflicts && SameName(m.deps[k].name, r.name)
  }

  /** m must come after r. */
  ghost predicate Wants(m: ModuleEntry, r: ModuleEntry) { m != r && exists k :: 0 <= k < |m.deps| && Needs(m, k, r) }

  /** The modules that have not been started; the others depend on nothing any more. */
  ghost function Idle(s: seq<ModuleEntry>): set<ModuleEntry>
    reads s
  {
    set m | m in s && !m.started
  }

  ghost predicate Depends(idle: set<ModuleEntry>, m: ModuleEntry, r: ModuleEntry) { m in idle && Wants(m, r) }

  /** No module stands before one it depends on. */
  ghost predicate InOrder(s: seq<ModuleEntry>, idle: set<ModuleEntry>) {
    forall i, j {:trigger Depends(idle, s[i], s[j])} :: 0 <= i < j < |s| ==> !Depends(idle, s[i], s[j])
  }

  type Ranking = map<string, nat>

  function Rank(rank: Ranking, m: ModuleEntry): nat { if Lower(m.name) in rank then rank[Lower(m.name)] else 0 }

  /** Dependencies go down in rank. */
  ghost predicate Ranks(s: seq<ModuleEntry>, idle: set<ModuleEntry>, rank: Ranking) {
    forall i, j {:trigger Depends(idle, s[i], s[j])} :: 0 <= i < |s| && 0 <= j < |s| && Depends(idle, s[i], s[j]) ==> Rank(rank, s[i]) > Rank(rank, s[j])
  }

  ghost predicate Acyclic(s: seq<ModuleEntry>, idle: set<ModuleEntry>) { exists rank :: Ranks(s, idle, rank) }

  // ---------- sorting ----------

  /** The first dependency of the module at b1 that is further back, or the end. */
  method LaterDependency(base: array<ModuleEntry>, b1: nat) returns (b2: nat)
    requires b1 < base.Length
    ensures b1 < b2 <= base.Length
    ensures b2 < base.Length ==> exists k :: 0 <= k < |base[b1].deps| && Needs(base[b1], k, base[b2])
    ensures b2 == base.Length ==> forall j, k :: b1 < j < base.Length && 0 <= k < |base[b1].deps| ==> !Needs(base[b1], k, base[j])
  {
    var m := base[b1];
    var dep := 0;
    while dep < |m.deps|
      invariant 0 <= dep <= |m.deps|
      invariant forall j, k :: b1 < j < base.Length && 0 <= k < dep ==> !Needs(m, k, base[j])
    {
      if m.deps[dep].kind == Required || m.deps[dep].kind == Optional {
        b2 := b1 + 1;
        while b2 < base.Length
          invariant b1 < b2 <= base.Length
          invariant forall j :: b1 < j < b2 ==> !Needs(m, dep, base[j])
        {
          if SameName(m.deps[dep].name, base[b2].name) {
            assert Needs(m, dep, base[b2]);
            return;
          }
          b2 := b2 + 1;
        }
      }
      dep := dep + 1;
    }
    b2 := base.Length;
  }

  /** Everything before b1 is final: it depends on nothing behind itself. */
  ghost predicate Settled(s: seq<ModuleEntry>, idle: set<ModuleEntry>, b1: nat) {
    forall i, j {:trigger Depends(idle, s[i], s[j])} :: 0 <= i < j < |s| && i < b1 ==> !Depends(idle, s[i], s[j])
  }

  ghost function RankAt(s: seq<ModuleEntry>, rank: Ranking, i: nat): nat { if i < |s| then Rank(rank, s[i]) else 0 }

  ghost function Swapped(s: seq<ModuleEntry>, i: nat, j: nat): seq<ModuleEntry>
    requires i < |s| && j < |s|
  {
    s[i := s[j]][j := s[i]]
  }

  /** Where the module at k of the exchanged sequence was. */
  function Was(i: nat, j: nat, k: nat): nat { if k == i then j else if k == j then i else k }

  /** What the sort keeps while b1 walks up. */
  ghost predicate Sorting(start: seq<ModuleEntry>, s: seq<ModuleEntry>, idle: set<ModuleEntry>, rank: Ranking, b1: nat) {
    multiset(s) == multiset(start) && Unique(s) && Ranks(s, idle, rank) && Settled(s, idle, b1)
  }

  /** Exchanging two modules behind the settled part. */
  lemma SwapKeeps(start: seq<ModuleEntry>, s: seq<ModuleEntry>, idle: set<ModuleEntry>, rank: Ranking, i: nat, j: nat)
    requires i < j < |s| && Sorting(start, s, idle, rank, i)
    ensures Sorting(start, Swapped(s, i, j), idle, rank, i)
  {
    var t := Swapped(s, i, j);
    forall a, b | 0 <= a < b < |t| ensures !SameName(t[a].name, t[b].name) {
      var x, y := Was(i, j, a), Was(i, j, b);
      assert t[a] == s[x] && t[b] == s[y] && x != y;
      assert x < y ==> !SameName(s[x].name, s[y].name);
      assert y < x ==> !SameName(s[y].name, s[x].name);
    }
    forall a, b {:trigger Depends(idle, t[a], t[b])} | 0 <= a < b < |t| && a < i ensures !Depends(idle, t[a], t[b]) {
      assert t[a] == s[a] && t[b] == s[Was(i, j, b)];
    }
    forall a, b {:trigger Depends(idle, t[a], t[b])} | 0 <= a < |t| && 0 <= b < |t| && Depends(idle, t[a], t[b]) ensures Rank(rank, t[a]) > Rank(rank, t[b]) {
      assert t[a] == s[Was(i, j, a)] && t[b] == s[Was(i, j, b)];
    }
  }

  /** The module found behind b1 is one that b1 depends on, and has a lower rank. */
  lemma FoundLater(s: seq<ModuleEntry>, idle: set<ModuleEntry>, rank: Ranking, i: nat, j: nat)
    requires i < j < |s| && Unique(s) && Ranks(s, idle, rank) && s[i] in idle && exists k :: 0 <= k < |s[i].deps| && Needs(s[i], k, s[j])
    ensures Rank(rank, s[j]) < Rank(rank, s[i])
  {
    assert !SameName(s[i].name, s[j].name);
    assert Depends(idle, s[i], s[j]);
  }

  lemma OneMoreSettled(start: seq<ModuleEntry>, s: seq<ModuleEntry>, idle: set<ModuleEntry>, rank: Ranking, b1: nat)
    requires b1 < |s| && Sorting(start, s, idle, rank, b1)
    requires s[b1] in idle ==> forall j, k :: b1 < j < |s| && 0 <= k < |s[b1].deps| ==> !Needs(s[b1], k, s[j])
    ensures Sorting(start, s, idle, rank, b1 + 1)
  {
    forall j | b1 < j < |s| ensures !Depends(idle, s[b1], s[j]) {
    }
  }

  /** zend_sort_modules; the ranks are the measure of how often it can try again at one place. */
  method SortRanked(base: array<ModuleEntry>, ghost rank: Ranking)
    requires Unique(base[..]) && Ranks(base[..], Idle(base[..]), rank)
    modifies base
    ensures multiset(base[..]) == multiset(old(base[..])) && Unique(base[..]) && InOrder(base[..], old(Idle(base[..])))
  {
    ghost var start, idle := base[..], Idle(base[..]);
    var b1 := 0;
    while b1 < base.Length
      invariant 0 <= b1 <= base.Length && Sorting(start, base[..], idle, rank, b1)
      decreases base.Length - b1, RankAt(base[..], rank, b1)
    {
      ghost var s := base[..];
      SameMembers(start, s, b1);
      if !base[b1].started && base[b1].deps != [] {
        var b2 := LaterDependency(base, b1);
        if b2 < base.Length {
          FoundLater(s, idle, rank, b1, b2);
          SwapKeeps(start, s, idle, rank, b1, b2);
          base[b1], base[b2] := base[b2], base[b1];
          assert base[..] == Swapped(s, b1, b2);
          continue;
        }
      }
      OneMoreSettled(start, s, idle, rank, b1);
      b1 := b1 + 1;
    }
  }

  lemma SameMembers(start: seq<ModuleEntry>, s: seq<ModuleEntry>, i: nat)
    requires multiset(start) == multiset(s) && i < |s|
    ensures s[i] in start
  {
    assert s[i] in multiset(s);
  }

  /** zend_sort_modules. */
  method SortModules(base: array<ModuleEntry>)
    requires Unique(base[..]) && Acyclic(base[..], Idle(base[..]))
    modifies base
    ensures multiset(base[..]) == multiset(old(base[..])) && Unique(base[..]) && InOrder(base[..], old(Idle(base[..])))
  {
    ghost var rank :| Ranks(base[..], Idle(base[..]), rank);
    SortRanked(base, rank);
  }

  // ---------- acyclic is exactly what it takes ----------

  ghost function Positions(s: seq<ModuleEntry>, n: nat): Ranking
    requires n <= |s|
  {
    if n == 0 then map[] else Positions(s, n - 1)[Lower(s[n - 1].name) := n - 1]
  }

  lemma {:induction false} PositionOf(s: seq<ModuleEntry>, n: nat, i: nat)
    requires Unique(s) && i < n <= |s|
    ensures Lower(s[i].name) in Positions(s, n) && Positions(s, n)[Lower(s[i].name)] == i
  {
    if i < n - 1 {
      PositionOf(s, n - 1, i);
      assert !SameName(s[i].name, s[n - 1].name);
    }
  }

  lemma DependsBackwards(s: seq<ModuleEntry>, idle: set<ModuleEntry>, i: nat, j: nat)
    requires InOrder(s, idle) && i < |s| && j < |s| && Depends(idle, s[i], s[j])
    ensures j < i
  {
  }

  /** Only without a cycle is there an order t of the modules s that the sort could end with. */
  lemma OrderedIsAcyclic(s: seq<ModuleEntry>, t: seq<ModuleEntry>, idle: set<ModuleEntry>)
    requires multiset(s) == multiset(t) && Unique(t) && InOrder(t, idle)
    ensures Acyclic(s, idle)
  {
    var rank := Positions(t, |t|);
    forall a, b {:trigger Depends(idle, s[a], s[b])} | 0 <= a < |s| && 0 <= b < |s| && Depends(idle, s[a], s[b])
      ensures Rank(rank, s[a]) > Rank(rank, s[b])
    {
      SameMembers(t, s, a);
      SameMembers(t, s, b);
      var i, j :| 0 <= i < |t| && 0 <= j < |t| && t[i] == s[a] && t[j] == s[b];
      PositionOf(t, |t|, i);
      PositionOf(t, |t|, j);
      DependsBackwards(t, idle, i, j);
    }
    assert Ranks(s, idle, rank);
  }

  // ---------- starting ----------

  /** What stopped the start: a required module that is not started, or the module's own startup function. */
  datatype Failure = NoFailure | Missing(m: ModuleEntry, dep: nat) | Refused(m: ModuleEntry)

  /** The module that dependency k of m names is registered. */
  ghost predicate Registered(registry: seq<ModuleEntry>, m: ModuleEntry, k: nat)
    requires k < |m.deps|
  {
    exists i :: 0 <= i < |registry| && SameName(m.deps[k].name, registry[i].name)
  }

  /** Every required module is registered, and every startup function succeeds. */
  ghost predicate Complete(s: seq<ModuleEntry>, works: string -> bool) {
    forall m {:trigger m in s} :: m in s ==> works(m.name) && forall k :: 0 <= k < |m.deps| && m.deps[k].kind == Required ==> Registered(s, m, k)
  }

  ghost predicate Met(registry: seq<ModuleEntry>, m: ModuleEntry, k: nat)
    requires k < |m.deps|
    reads registry
  {
    m.deps[k].kind == Required ==> exists i :: 0 <= i < |registry| && SameName(m.deps[k].name, registry[i].name) && registry[i].started
  }

  /** zend_hash_find in the registry. */
  method Find(registry: seq<ModuleEntry>, name: string) returns (i: nat)
    ensures i <= |registry|
    ensures i < |registry| ==> SameName(name, registry[i].name)
    ensures i == |registry| ==> forall j :: 0 <= j < |registry| ==> !SameName(name, registry[j].name)
  {
    i := 0;
    while i < |registry| && !SameName(name, registry[i].name)
      invariant 0 <= i <= |registry| && forall j :: 0 <= j < i ==> !SameName(name, registry[j].name)
    {
      i := i + 1;
    }
  }

  /** zend_startup_module_ex; `works` is what the startup function of the module of this name returns. */
  method StartModule(registry: seq<ModuleEntry>, m: ModuleEntry, works: string -> bool) returns (f: Failure)
    requires Unique(registry) && m in registry
    modifies m`started
    ensures old(m.started) ==> f == NoFailure && m.started
    ensures f == NoFailure ==> m.started && (old(m.started) || (works(m.name) && forall k :: 0 <= k < |m.deps| ==> Met(registry, m, k)))
    ensures f.Missing? ==> f.m == m && f.dep < |m.deps| && m.deps[f.dep].kind == Required && !m.started
    ensures f.Missing? ==> forall i :: 0 <= i < |registry| && SameName(m.deps[f.dep].name, registry[i].name) ==> registry[i] != m && !registry[i].started
    ensures f.Refused? ==> f.m == m && !works(m.name) && m.started
  {
    if m.started {
      return NoFailure;
    }
    m.started := true;
    var dep := 0;
    while dep < |m.deps|
      invariant 0 <= dep <= |m.deps| && m.started && forall k :: 0 <= k < dep ==> Met(registry, m, k)
    {
      if m.deps[dep].kind == Required {
        var i := Find(registry, m.deps[dep].name);
        if i == |registry| || !registry[i].started {
          OnlyOne(registry, m.deps[dep].name, i);
          m.started := false;
          return Missing(m, dep);
        }
      }
      dep := dep + 1;
    }
    f := if works(m.name) then NoFailure else Refused(m);
  }

  lemma OnlyOne(registry: seq<ModuleEntry>, name: string, i: nat)
    requires Unique(registry) && i <= |registry| && (i < |registry| ==> SameName(name, registry[i].name))
    requires i == |registry| ==> forall j :: 0 <= j < |registry| ==> !SameName(name, registry[j].name)
    ensures forall j :: 0 <= j < |registry| && SameName(name, registry[j].name) ==> i == j
  {
    forall j | 0 <= j < |registry| && SameName(name, registry[j].name) ensures i == j {
    }
  }

  /** The pass over the registry: a module that fails is taken out of it, and the pass stops. */
  method StartAll(registry: seq<ModuleEntry>, works: string -> bool) returns (f: Failure, left: seq<ModuleEntry>)
    requires Unique(registry) && InOrder(registry, Idle(registry))
    modifies set m | m in registry
    ensures f == NoFailure ==> left == registry && forall m :: m in registry ==> m.started
    ensures f.Missing? ==> f.m in registry && f.dep < |f.m.deps| && f.m.deps[f.dep].kind == Required && !Registered(registry, f.m, f.dep)
    ensures f.Refused? ==> f.m in registry && !works(f.m.name)
    ensures f != NoFailure ==> exists i :: 0 <= i < |registry| && registry[i] == f.m && left == registry[..i] + registry[i + 1..]
  {
    ghost var idle := Idle(registry);
    var i := 0;
    while i < |registry|
      invariant 0 <= i <= |registry| && (forall j :: 0 <= j < i ==> registry[j].started)
      invariant forall m :: m in registry && m !in idle ==> m.started
    {
      f := StartModule(registry, registry[i], works);
      if f != NoFailure {
        left := registry[..i] + registry[i + 1..];
        if f.Missing? { NeverTooEarly(registry, idle, i, f.dep); }
        return;
      }
      i := i + 1;
    }
    f, left := NoFailure, registry;
  }

  /** In a sorted registry, what a module requires stands before it, or is not there at all. */
  lemma NeverTooEarly(registry: seq<ModuleEntry>, idle: set<ModuleEntry>, i: nat, k: nat)
    requires InOrder(registry, idle) && i < |registry| && k < |registry[i].deps| && registry[i].deps[k].kind == Required
    requires registry[i] in idle && forall j :: 0 <= j < i ==> registry[j].started
    requires forall j :: 0 <= j < |registry| && SameName(registry[i].deps[k].name, registry[j].name) ==> registry[j] != registry[i] && !registry[j].started
    ensures !Registered(registry, registry[i], k)
  {
    forall j | 0 <= j < |registry| ensures !SameName(registry[i].deps[k].name, registry[j].name) {
      if SameName(registry[i].deps[k].name, registry[j].name) {
        assert Needs(registry[i], k, registry[j]);
        DependsBackwards(registry, idle, i, j);
      }
    }
  }

  /**
   zend_startup_modules: without a dependency cycle, the only way a dependency can fail is that the
   required module is not registered at all.
   */
  method StartupModules(base: array<ModuleEntry>, works: string -> bool) returns (f: Failure, left: seq<ModuleEntry>)
    requires Unique(base[..]) && Acyclic(base[..], Idle(base[..]))
    modifies base, set m | m in base[..]
    ensures multiset(base[..]) == multiset(old(base[..]))
    ensures f == NoFailure ==> left == base[..] && forall m :: m in base[..] ==> m.started
    ensures f.Missing? ==> f.m in base[..] && f.dep < |f.m.deps| && f.m.deps[f.dep].kind == Required && !Registered(base[..], f.m, f.dep)
    ensures f.Refused? ==> f.m in base[..] && !works(f.m.name)
    ensures Complete(base[..], works) ==> f == NoFailure
  {
    ghost var was, idle := base[..], Idle(base[..]);
    SortModules(base);
    SameIdle(was, base[..]);
    assert forall m :: m in base[..] ==> m in was;
    f, left := StartAll(base[..], works);
  }

  lemma SameIdle(s: seq<ModuleEntry>, t: seq<ModuleEntry>)
    requires multiset(s) == multiset(t)
    ensures Idle(s) == Idle(t)
    ensures forall m :: m in s <==> m in t
  {
    assert forall m :: m in s <==> m in multiset(s);
    assert forall m :: m in t <==> m in multiset(t);
  }
}
