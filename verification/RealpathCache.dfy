/**
 The cache of resolved paths: 1024 chains selected by a key of the path, seen as one list of entries,
 most recent first.
 */
module RealpathCache {

  datatype Option<T> = None | Some(value: T)

  datatype Entry = Entry(path: string, resolved: string, isDir: bool, expires: int)

  const CHAINS: nat := 1024

  /** The bytes an entry is charged for; equal texts are stored once. */
  function Charge(header: nat, e: Entry): nat {
    header + |e.path| + 1 + (if e.resolved == e.path then 0 else |e.resolved| + 1)
  }

  function Total(header: nat, s: seq<Entry>): nat
    decreases |s|
  {
    if s == [] then 0 else Charge(header, s[0]) + Total(header, s[1..])
  }

  predicate Expired(ttl: int, e: Entry, now: int) { ttl != 0 && e.expires < now }

  /** The newest entry for the path that has not expired. */
  function FirstLive(ttl: int, s: seq<Entry>, path: string, now: int): Option<Entry>
    decreases |s|
  {
    if s == [] then None
    else if s[0].path == path && !Expired(ttl, s[0], now) then Some(s[0])
    else FirstLive(ttl, s[1..], path, now)
  }

  /** The entries of one chain. */
  function InChain(key: string -> nat, s: seq<Entry>, n: nat): seq<Entry>
    decreases |s|
  {
    if s == [] then [] else (if key(s[0].path) % CHAINS == n then [s[0]] else []) + InChain(key, s[1..], n)
  }

  lemma {:induction false} TotalConcat(header: nat, a: seq<Entry>, b: seq<Entry>)
    ensures Total(header, a + b) == Total(header, a) + Total(header, b)
    decreases |a|
  {
    if a == [] {
      assert a + b == b;
    } else {
      assert (a + b)[0] == a[0] && (a + b)[1..] == a[1..] + b;
      TotalConcat(header, a[1..], b);
    }
  }

  lemma {:induction false} InChainConcat(key: string -> nat, a: seq<Entry>, b: seq<Entry>, n: nat)
    ensures InChain(key, a + b, n) == InChain(key, a, n) + InChain(key, b, n)
    decreases |a|
  {
    if a == [] {
      assert a + b == b;
    } else {
      var head := if key(a[0].path) % CHAINS == n then [a[0]] else [];
      assert (a + b)[0] == a[0] && (a + b)[1..] == a[1..] + b;
      InChainConcat(key, a[1..], b, n);
      assert head + (InChain(key, a[1..], n) + InChain(key, b, n)) == head + InChain(key, a[1..], n) + InChain(key, b, n);
    }
  }

  /** Looking in the chain of a path is looking in the whole list. */
  lemma {:induction false} FirstInChain(key: string -> nat, ttl: int, s: seq<Entry>, path: string, now: int)
    ensures FirstLive(ttl, InChain(key, s, key(path) % CHAINS), path, now) == FirstLive(ttl, s, path, now)
    decreases |s|
  {
    if s != [] {
      var n := key(path) % CHAINS;
      FirstInChain(key, ttl, s[1..], path, now);
      if key(s[0].path) % CHAINS == n {
        assert InChain(key, s, n)[0] == s[0] && InChain(key, s, n)[1..] == InChain(key, s[1..], n);
      } else {
        assert InChain(key, s, n) == InChain(key, s[1..], n);
      }
    }
  }

  /** The place in the whole list of the entry at position k of a chain. */
  lemma {:induction false} PlaceOf(key: string -> nat, s: seq<Entry>, n: nat, k: nat) returns (i: nat)
    requires k < |InChain(key, s, n)|
    ensures i < |s| && s[i] == InChain(key, s, n)[k] && key(s[i].path) % CHAINS == n
    ensures InChain(key, s[..i], n) == InChain(key, s, n)[..k] && InChain(key, s[i + 1..], n) == InChain(key, s, n)[k + 1..]
    decreases |s|
  {
    var here := key(s[0].path) % CHAINS == n;
    if here && k == 0 {
      i := 0;
    } else {
      var less := if here then k - 1 else k;
      var j := PlaceOf(key, s[1..], n, less);
      i := j + 1;
      OneBefore(key, s, n, k, j, less);
    }
  }

  lemma OneBefore(key: string -> nat, s: seq<Entry>, n: nat, k: nat, j: nat, less: nat)
    requires s != [] && j < |s| - 1 && less < |InChain(key, s[1..], n)|
    requires k == if key(s[0].path) % CHAINS == n then less + 1 else less
    requires InChain(key, s[1..][..j], n) == InChain(key, s[1..], n)[..less]
    requires InChain(key, s[1..][j + 1..], n) == InChain(key, s[1..], n)[less + 1..]
    ensures k < |InChain(key, s, n)| && InChain(key, s, n)[k] == InChain(key, s[1..], n)[less]
    ensures InChain(key, s[..j + 1], n) == InChain(key, s, n)[..k] && InChain(key, s[j + 2..], n) == InChain(key, s, n)[k + 1..]
  {
    assert s[..j + 1] == [s[0]] + s[1..][..j] && s[j + 2..] == s[1..][j + 1..];
    InChainConcat(key, [s[0]], s[1..][..j], n);
    InChainOne(key, s[0], n);
  }

  lemma InChainOne(key: string -> nat, e: Entry, n: nat)
    ensures InChain(key, [e], n) == if key(e.path) % CHAINS == n then [e] else []
  {
  }

  /** Taking one entry out of the list takes it out of its chain and leaves the other chains alone. */
  lemma WithoutEntry(key: string -> nat, header: nat, s: seq<Entry>, i: nat)
    requires i < |s|
    ensures var t := s[..i] + s[i + 1..];
            && Total(header, t) == Total(header, s) - Charge(header, s[i])
            && (forall n :: InChain(key, t, n) == InChain(key, s[..i], n) + InChain(key, s[i + 1..], n))
            && (forall n {:trigger InChain(key, t, n)} :: key(s[i].path) % CHAINS != n ==> InChain(key, t, n) == InChain(key, s, n))
  {
    var t := s[..i] + s[i + 1..];
    assert s == s[..i] + ([s[i]] + s[i + 1..]);
    TotalConcat(header, s[..i], [s[i]] + s[i + 1..]);
    TotalConcat(header, s[..i], s[i + 1..]);
    forall n ensures InChain(key, t, n) == InChain(key, s[..i], n) + InChain(key, s[i + 1..], n)
      && (key(s[i].path) % CHAINS != n ==> InChain(key, t, n) == InChain(key, s, n))
    {
      InChainConcat(key, s[..i], s[i + 1..], n);
      InChainConcat(key, s[..i], [s[i]] + s[i + 1..], n);
    }
  }

  /** The entries that have not expired. */
  function Live(ttl: int, s: seq<Entry>, now: int): seq<Entry>
    decreases |s|
  {
    if s == [] then [] else (if Expired(ttl, s[0], now) then [] else [s[0]]) + Live(ttl, s[1..], now)
  }

  /** t is s with some entries taken out. */
  predicate Sublist(t: seq<Entry>, s: seq<Entry>)
    decreases |s|
  {
    t == [] || (s != [] && (Sublist(t, s[1..]) || (t[0] == s[0] && Sublist(t[1..], s[1..]))))
  }

  lemma {:induction false} SublistSelf(s: seq<Entry>)
    ensures Sublist(s, s)
    decreases |s|
  {
    if s != [] { SublistSelf(s[1..]); }
  }

  lemma {:induction false} SublistTrans(a: seq<Entry>, b: seq<Entry>, c: seq<Entry>)
    requires Sublist(a, b) && Sublist(b, c)
    ensures Sublist(a, c)
    decreases |c|
  {
    if a != [] {
      if Sublist(b, c[1..]) {
        SublistTrans(a, b, c[1..]);
      } else if Sublist(a, b[1..]) {
        SublistTrans(a, b[1..], c[1..]);
      } else {
        SublistTrans(a[1..], b[1..], c[1..]);
      }
    }
  }

  lemma {:induction false} SublistWithout(s: seq<Entry>, i: nat)
    requires i < |s|
    ensures Sublist(s[..i] + s[i + 1..], s)
    decreases |s|
  {
    var t := s[..i] + s[i + 1..];
    if i == 0 {
      assert t == s[1..];
      SublistSelf(t);
    } else {
      SublistWithout(s[1..], i - 1);
      assert t[0] == s[0] && t[1..] == s[1..][..i - 1] + s[1..][i..];
    }
  }

  lemma {:induction false} SublistTotal(header: nat, t: seq<Entry>, s: seq<Entry>)
    requires Sublist(t, s)
    ensures Total(header, t) <= Total(header, s)
    decreases |s|
  {
    if t != [] {
      if Sublist(t, s[1..]) { SublistTotal(header, t, s[1..]); } else { SublistTotal(header, t[1..], s[1..]); }
    }
  }

  /** From s to t only entries that have expired by now were taken out. */
  ghost predicate Thinned(ttl: int, s: seq<Entry>, t: seq<Entry>, now: int) {
    (forall e :: e in t ==> e in s) && Live(ttl, t, now) == Live(ttl, s, now) && Sublist(t, s)
  }

  lemma {:induction false} LiveConcat(ttl: int, a: seq<Entry>, b: seq<Entry>, now: int)
    ensures Live(ttl, a + b, now) == Live(ttl, a, now) + Live(ttl, b, now)
    decreases |a|
  {
    if a == [] {
      assert a + b == b;
    } else {
      assert (a + b)[0] == a[0] && (a + b)[1..] == a[1..] + b;
      LiveConcat(ttl, a[1..], b, now);
    }
  }

  /** What is live later is live now: later answers come from the live entries. */
  lemma {:induction false} FirstOfLive(ttl: int, s: seq<Entry>, path: string, now: int, later: int)
    requires now <= later
    ensures FirstLive(ttl, s, path, later) == FirstLive(ttl, Live(ttl, s, now), path, later)
    decreases |s|
  {
    if s != [] {
      FirstOfLive(ttl, s[1..], path, now, later);
      var rest := Live(ttl, s[1..], now);
      if !Expired(ttl, s[0], now) {
        assert ([s[0]] + rest)[1..] == rest;
      } else {
        assert [] + rest == rest;
      }
    }
  }

  lemma ThinnedOne(ttl: int, s: seq<Entry>, t: seq<Entry>, i: nat, now: int)
    requires Thinned(ttl, s, t, now) && i < |t| && Expired(ttl, t[i], now)
    ensures Thinned(ttl, s, t[..i] + t[i + 1..], now)
  {
    assert t == t[..i] + ([t[i]] + t[i + 1..]);
    LiveConcat(ttl, t[..i], [t[i]] + t[i + 1..], now);
    LiveConcat(ttl, [t[i]], t[i + 1..], now);
    LiveConcat(ttl, t[..i], t[i + 1..], now);
    assert Live(ttl, [t[i]], now) == [];
    SublistWithout(t, i);
    SublistTrans(t[..i] + t[i + 1..], t, s);
  }

  predicate Opened(n: int) { true }

  class Cache {
    const key: string -> nat       // realpath_cache_key
    const header: nat              // sizeof(realpath_cache_bucket)
    const limit: nat               // realpath_cache_size_limit
    const ttl: int                 // realpath_cache_ttl
    const chains: array<seq<Entry>>
    var bytes: int                 // realpath_cache_size
    ghost var recent: seq<Entry>

    ghost predicate ChainOk(n: nat)
      requires n < chains.Length
      reads this, chains
    {
      chains[n] == InChain(key, recent, n)
    }

    /** The chains hold exactly the entries of one list, and the byte counter is their charge. */
    ghost predicate Valid()
      reads this, chains
    {
      && chains.Length == CHAINS
      && (forall n {:trigger ChainOk(n)} :: 0 <= n < CHAINS ==> ChainOk(n))
      && bytes == Total(header, recent) <= limit
    }

    /** Valid, for code that only passes the cache on. */
    ghost predicate Ok()
      reads this, chains
    {
      forall n {:trigger Opened(n)} :: Opened(n) ==> Valid()
    }

    constructor (key: string -> nat, header: nat, limit: nat, ttl: int)
      ensures Valid() && recent == [] && fresh(chains)
      ensures this.key == key && this.header == header && this.limit == limit && this.ttl == ttl
    {
      this.key, this.header, this.limit, this.ttl := key, header, limit, ttl;
      chains := new seq<Entry>[CHAINS](i => []);
      bytes := 0;
      recent := [];
    }

    /** Takes the entry at position k out of chain n. */
    method TakeOut(n: nat, k: nat)
      requires Valid() && n < CHAINS && k < |chains[n]|
      modifies this, chains
      ensures Valid() && chains[n] == old(chains[n])[..k] + old(chains[n])[k + 1..]
      ensures exists i :: 0 <= i < |old(recent)| && old(recent)[i] == old(chains[n])[k] && recent == old(recent)[..i] + old(recent)[i + 1..]
                          && InChain(key, old(recent)[..i], n) == old(chains[n])[..k]
    {
      assert ChainOk(n);
      ghost var i := PlaceOf(key, recent, n, k);
      WithoutEntry(key, header, recent, i);
      ghost var was := recent;
      bytes := bytes - Charge(header, chains[n][k]);
      recent := recent[..i] + recent[i + 1..];
      chains[n] := chains[n][..k] + chains[n][k + 1..];
      forall m {:trigger ChainOk(m)} | 0 <= m < CHAINS ensures ChainOk(m) {
        assert m != n ==> old(ChainOk(m));
        assert InChain(key, recent, m) == InChain(key, was[..i], m) + InChain(key, was[i + 1..], m);
      }
    }

    /** realpath_cache_find: expired entries on the way are dropped. */
    method Find(path: string, now: int) returns (hit: Option<Entry>)
      requires Valid()
      modifies this, chains
      ensures Valid() && Thinned(ttl, old(recent), recent, now)
      ensures hit == FirstLive(ttl, old(recent), path, now)
      ensures hit.Some? ==> hit.value in recent && hit.value.path == path
    {
      var n := key(path) % CHAINS;
      ghost var was := recent;
      var k := 0;
      FirstInChain(key, ttl, recent, path, now);
      assert ChainOk(n);
      assert chains[n][0..] == chains[n];
      SublistSelf(recent);
      while k < |chains[n]|
        invariant Valid() && 0 <= k <= |chains[n]| && Thinned(ttl, was, recent, now)
        invariant FirstLive(ttl, chains[n][k..], path, now) == FirstLive(ttl, was, path, now)
        decreases |chains[n]| - k
      {
        var e := chains[n][k];
        assert chains[n][k..][0] == e && chains[n][k..][1..] == chains[n][k + 1..];
        if Expired(ttl, e, now) {
          ghost var chain, before := chains[n], recent;
          TakeOut(n, k);
          ghost var i :| 0 <= i < |before| && before[i] == chain[k] && recent == before[..i] + before[i + 1..];
          ThinnedOne(ttl, was, before, i, now);
          assert chains[n][k..] == chain[k + 1..];
        } else if e.path == path {
          assert ChainOk(n);
          InChainMember(key, recent, n, e);
          return Some(e);
        } else {
          k := k + 1;
        }
      }
      return None;
    }

    /** realpath_cache_add: the entry goes to the front of its chain, unless the limit forbids it. */
    method Add(path: string, resolved: string, isDir: bool, now: int)
      requires Valid()
      modifies this, chains
      ensures Valid()
      ensures var e := Entry(path, resolved, isDir, now + ttl);
              recent == if old(bytes) + Charge(header, e) <= limit then [e] + old(recent) else old(recent)
    {
      var e := Entry(path, resolved, isDir, now + ttl);
      if bytes + Charge(header, e) <= limit {
        var n := key(path) % CHAINS;
        assert ChainOk(n);
        ghost var was := recent;
        chains[n] := [e] + chains[n];
        bytes := bytes + Charge(header, e);
        recent := [e] + recent;
        assert recent[0] == e && recent[1..] == was;
        forall m {:trigger ChainOk(m)} | 0 <= m < CHAINS ensures ChainOk(m) {
          assert m != n ==> old(ChainOk(m));
        }
      }
    }

    /** realpath_cache_del: the newest entry for the path, if there is one. */
    method Del(path: string)
      requires Valid()
      modifies this, chains
      ensures Valid()
      ensures (forall e :: e in old(recent) ==> e.path != path) ==> recent == old(recent)
      ensures (exists e :: e in old(recent) && e.path == path) ==>
                exists i :: 0 <= i < |old(recent)| && old(recent)[i].path == path && recent == old(recent)[..i] + old(recent)[i + 1..]
                            && forall h :: 0 <= h < i ==> old(recent)[h].path != path
    {
      var n := key(path) % CHAINS;
      var k := 0;
      assert ChainOk(n);
      while k < |chains[n]|
        invariant Valid() && recent == old(recent) && chains[n] == old(chains[n]) && 0 <= k <= |chains[n]|
        invariant forall h :: 0 <= h < k ==> chains[n][h].path != path
        decreases |chains[n]| - k
      {
        if chains[n][k].path == path {
          ghost var chain := chains[n];
          TakeOut(n, k);
          ghost var i :| 0 <= i < |old(recent)| && old(recent)[i] == chain[k] && recent == old(recent)[..i] + old(recent)[i + 1..]
                         && InChain(key, old(recent)[..i], n) == chain[..k];
          NoneBefore(key, old(recent)[..i], n, path);
          forall h | 0 <= h < i ensures old(recent)[h].path != path {
            assert old(recent)[..i][h] == old(recent)[h];
          }
          return;
        }
        k := k + 1;
      }
      NoneBefore(key, recent, n, path);
    }

    /** realpath_cache_clean. */
    method Clean()
      requires Valid()
      modifies this, chains
      ensures Valid() && recent == [] && bytes == 0
    {
      var i := 0;
      while i < CHAINS
        invariant 0 <= i <= CHAINS == chains.Length
        invariant forall n :: 0 <= n < i ==> chains[n] == []
      {
        chains[i] := [];
        i := i + 1;
      }
      bytes := 0;
      recent := [];
    }
  }

  lemma {:induction false} InChainMember(key: string -> nat, s: seq<Entry>, n: nat, e: Entry)
    requires e in InChain(key, s, n)
    ensures e in s && key(e.path) % CHAINS == n
    decreases |s|
  {
    if !(key(s[0].path) % CHAINS == n && e == s[0]) {
      InChainMember(key, s[1..], n, e);
    }
  }

  /** A path that is not in its chain is not in the list. */
  lemma {:induction false} NoneBefore(key: string -> nat, s: seq<Entry>, n: nat, path: string)
    requires n == key(path) % CHAINS && forall h :: 0 <= h < |InChain(key, s, n)| ==> InChain(key, s, n)[h].path != path
    ensures forall e :: e in s ==> e.path != path
    decreases |s|
  {
    if s != [] {
      var rest := InChain(key, s[1..], n);
      var d := |InChain(key, s, n)| - |rest|;
      forall h | 0 <= h < |rest| ensures rest[h].path != path {
        assert InChain(key, s, n)[d + h] == rest[h];
      }
      NoneBefore(key, s[1..], n, path);
      assert key(s[0].path) % CHAINS == n ==> InChain(key, s, n)[0] == s[0];
    }
  }
}
