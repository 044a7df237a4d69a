/**
 The life of the blocks of per-thread storage, and what the table, the threads and the history of
 events say about them.
 */
module ThreadHistory {

  datatype ResourceType = ResourceType(size: nat, ctor: bool, dtor: bool, done: bool)

  /** What happens to a block: it is allocated (and constructed, if its type has a constructor), destroyed, freed. */
  datatype Event = Created(block: nat, slot: nat) | Destroyed(block: nat, slot: nat) | Freed(block: nat)

  datatype Place = Place(thread: nat, slot: nat)

  /** Created once and first, destroyed at most once and before it is freed, freed at most once. */
  ghost predicate AllowedNext(h: seq<Event>, e: Event) {
    match e
    case Created(b, _) => b > 0 && forall d :: d in h ==> d.block != b
    case Destroyed(b, s) => Live(h, b, s)
    case Freed(b) => (exists s :: Created(b, s) in h) && Freed(b) !in h
  }

  /** The block b for slot s has been created, and nothing else has happened to it. */
  ghost predicate Live(h: seq<Event>, b: nat, s: nat) {
    Created(b, s) in h && forall d :: d in h && d.block == b ==> d.Created?
  }

  ghost predicate Legal(h: seq<Event>) { forall i :: 0 <= i < |h| ==> AllowedNext(h[..i], h[i]) }

  lemma LegalNext(h: seq<Event>, e: Event)
    requires Legal(h) && AllowedNext(h, e)
    ensures Legal(h + [e])
  {
    var g := h + [e];
    forall i | 0 <= i < |g| ensures AllowedNext(g[..i], g[i]) {
      assert g[..i] == h[..i];
      assert i == |h| ==> g[..i] == h;
    }
  }

  /** No constructor or destructor runs twice for one block, and nothing is done to a block that has been freed. */
  lemma OnceOnly(h: seq<Event>, i: nat, j: nat)
    requires Legal(h) && i < j < |h| && h[i].block == h[j].block
    ensures h[i] != h[j] && !h[j].Created? && !(h[i].Freed? && h[j].Destroyed?)
    ensures !(h[i].Destroyed? && h[j].Destroyed?) && !(h[i].Freed? && h[j].Freed?)
  {
    assert AllowedNext(h[..j], h[j]);
    assert h[..j][i] == h[i];
  }

  class TlsEntry {
    const threadId: nat
    var storage: seq<nat>          // addresses of blocks, 0 for NULL; count is |storage|

    constructor (threadId: nat)
      ensures this.threadId == threadId && storage == []
    {
      this.threadId, storage := threadId, [];
    }
  }

  type Threads = map<nat, TlsEntry>
  type Owners = map<nat, Place>
  type Views = map<nat, seq<ResourceType>>

  /** Slot j is empty exactly if the resource is done, and its block is recorded as its own. */
  ghost predicate SlotOk(e: TlsEntry, view: seq<ResourceType>, owner: Owners, j: nat)
    reads e
    requires j < |e.storage| && j < |view|
  {
    && (e.storage[j] == 0 <==> view[j].done)
    && (e.storage[j] != 0 ==> e.storage[j] in owner && owner[e.storage[j]] == Place(e.threadId, j))
  }

  /** The entry of thread t is in the chain of its thread and has a slot for every resource in `view`. */
  ghost predicate ThreadOk(tls: Threads, chains: seq<seq<TlsEntry>>, owner: Owners, t: nat, view: seq<ResourceType>)
    reads if t in tls then {tls[t]} else {}
  {
    && t in tls && |chains| > 0
    && var e := tls[t];
       && e.threadId == t && e in chains[t % |chains|] && |e.storage| == |view|
       && forall j {:trigger SlotOk(e, view, owner, j)} :: 0 <= j < |view| ==> SlotOk(e, view, owner, j)
  }

  /** The chains hold the entries of the threads, each in the chain of its thread and once. */
  ghost predicate ChainOk(tls: Threads, chains: seq<seq<TlsEntry>>, i: nat)
    requires i < |chains|
  {
    && (forall e :: e in chains[i] ==> e.threadId in tls && tls[e.threadId] == e && e.threadId % |chains| == i)
    && forall a, b :: 0 <= a < b < |chains[i]| ==> chains[i][a] != chains[i][b]
  }

  /** Block b is in its slot, and has only been created so far. */
  ghost predicate BlockOk(tls: Threads, owner: Owners, h: seq<Event>, b: nat)
    reads if b in owner && owner[b].thread in tls then {tls[owner[b].thread]} else {}
  {
    && b in owner && b > 0 && owner[b].thread in tls
    && owner[b].slot < |tls[owner[b].thread].storage| && tls[owner[b].thread].storage[owner[b].slot] == b
    && Live(h, b, owner[b].slot)
  }

  /** A block is in a slot, or has been freed, and then it was destroyed if its type has a destructor. */
  ghost predicate EventOk(h: seq<Event>, types: seq<ResourceType>, owner: Owners, next: nat, e: Event) {
    && e.block < next
    && (e.Created? ==> e.block in owner || Freed(e.block) in h)
    && (e.Created? && Freed(e.block) in h ==> e.slot < |types| && (types[e.slot].dtor ==> Destroyed(e.block, e.slot) in h))
  }

  ghost predicate HistoryOk(h: seq<Event>, types: seq<ResourceType>, owner: Owners, next: nat) {
    Legal(h) && next > 0 && forall e {:trigger EventOk(h, types, owner, next, e)} :: e in h ==> EventOk(h, types, owner, next, e)
  }

  // ---------- events ----------

  lemma NewBlockHistory(h: seq<Event>, types: seq<ResourceType>, owner: Owners, next: nat, p: Place)
    requires HistoryOk(h, types, owner, next) && next !in owner
    ensures HistoryOk(h + [Created(next, p.slot)], types, owner[next := p], next + 1) && Live(h + [Created(next, p.slot)], next, p.slot)
    ensures forall b, s :: Live(h, b, s) ==> Live(h + [Created(next, p.slot)], b, s)
  {
    var g := h + [Created(next, p.slot)];
    forall e | e in h ensures e.block < next { assert EventOk(h, types, owner, next, e); }
    LegalNext(h, Created(next, p.slot));
    forall e {:trigger EventOk(g, types, owner[next := p], next + 1, e)} | e in g ensures EventOk(g, types, owner[next := p], next + 1, e) {
      if e in h { assert EventOk(h, types, owner, next, e); }
    }
  }

  lemma CreatedOnce(h: seq<Event>, b: nat, s: nat, t: nat)
    requires Legal(h) && Created(b, s) in h && Created(b, t) in h
    ensures s == t
  {
    var i: nat, j: nat :| i < |h| && j < |h| && h[i] == Created(b, s) && h[j] == Created(b, t);
    if i < j { OnceOnly(h, i, j); }
    if j < i { OnceOnly(h, j, i); }
  }

  lemma DestroyHistory(h: seq<Event>, types: seq<ResourceType>, owner: Owners, next: nat, b: nat, s: nat)
    requires HistoryOk(h, types, owner, next) && Live(h, b, s)
    ensures HistoryOk(h + [Destroyed(b, s)], types, owner, next)
  {
    var g := h + [Destroyed(b, s)];
    assert EventOk(h, types, owner, next, Created(b, s));
    LegalNext(h, Destroyed(b, s));
    forall e {:trigger EventOk(g, types, owner, next, e)} | e in g ensures EventOk(g, types, owner, next, e) {
      if e in h { assert EventOk(h, types, owner, next, e); }
    }
  }

  lemma FreeHistory(h: seq<Event>, types: seq<ResourceType>, owner: Owners, next: nat, b: nat, s: nat)
    requires HistoryOk(h, types, owner, next) && Created(b, s) in h && Freed(b) !in h
    requires s < |types| && (types[s].dtor ==> Destroyed(b, s) in h)
    ensures HistoryOk(h + [Freed(b)], types, owner - {b}, next)
  {
    var g := h + [Freed(b)];
    assert EventOk(h, types, owner, next, Created(b, s));
    LegalNext(h, Freed(b));
    forall e {:trigger EventOk(g, types, owner - {b}, next, e)} | e in g ensures EventOk(g, types, owner - {b}, next, e) {
      if e in h {
        assert EventOk(h, types, owner, next, e);
        if e.Created? && e.block == b { CreatedOnce(h, b, s, e.slot); }
      }
    }
  }

  /** Every block that is owned has only been created so far. */
  ghost predicate OwnersLive(h: seq<Event>, owner: Owners) { forall c {:trigger c in owner} :: c in owner ==> Live(h, c, owner[c].slot) }

  lemma LiveElsewhere(h: seq<Event>, owner: Owners, e: Event)
    requires OwnersLive(h, owner - {e.block})
    ensures OwnersLive(h + [e], owner - {e.block})
  {
    forall c {:trigger c in owner} | c in owner - {e.block} ensures Live(h + [e], c, owner[c].slot) {
      assert c in owner - {e.block} && (owner - {e.block})[c] == owner[c];
    }
  }

  lemma LiveKept(h: seq<Event>, owner: Owners, e: Event)
    requires OwnersLive(h, owner) && e.block !in owner
    ensures OwnersLive(h + [e], owner)
  {
  }

  /** The blocks of one thread, by slot. */
  ghost function Blocks(s: seq<nat>): set<nat> { set j | 0 <= j < |s| && s[j] != 0 :: s[j] }

  ghost predicate NoRepeat(s: seq<nat>) { forall j, k :: 0 <= j < k < |s| && s[j] != 0 ==> s[j] != s[k] }

  /** The block in slot j is still only created. */
  ghost predicate Pending(h: seq<Event>, s: seq<nat>, j: nat)
    requires j < |s|
  {
    s[j] != 0 ==> Live(h, s[j], j)
  }

  /** The destructor has run for the block in slot j, if there is one, and the block is not freed yet. */
  ghost predicate Struck(h: seq<Event>, types: seq<ResourceType>, s: seq<nat>, j: nat)
    requires j < |s| && j < |types|
  {
    s[j] != 0 ==> Created(s[j], j) in h && Freed(s[j]) !in h && (types[j].dtor ==> Destroyed(s[j], j) in h)
  }

  /** What happens to the block in slot i does not concern the other slots. */
  lemma SlotsKept(h: seq<Event>, types: seq<ResourceType>, s: seq<nat>, i: nat, e: Event)
    requires i < |s| <= |types| && NoRepeat(s) && s[i] != 0 && e.block == s[i]
    ensures forall j {:trigger Pending(h + [e], s, j)} :: 0 <= j < |s| && j != i && Pending(h, s, j) ==> Pending(h + [e], s, j)
    ensures forall j {:trigger Struck(h + [e], types, s, j)} :: 0 <= j < |s| && j != i && Struck(h, types, s, j) ==> Struck(h + [e], types, s, j)
  {
  }

  lemma Stays(chain: seq<TlsEntry>, k: nat, e: TlsEntry)
    requires k < |chain| && e in chain && e != chain[k]
    ensures e in chain[..k] + chain[k + 1..]
  {
    var m :| 0 <= m < |chain| && chain[m] == e;
    assert m < k ==> chain[..k][m] == e;
    assert m > k ==> chain[k + 1..][m - k - 1] == e;
  }

  ghost function Shorter(chains: seq<seq<TlsEntry>>, i: nat, k: nat): seq<seq<TlsEntry>>
    requires i < |chains| && k < |chains[i]|
  {
    chains[i := chains[i][..k] + chains[i][k + 1..]]
  }

  lemma Unlinked(tls: Threads, chains: seq<seq<TlsEntry>>, i: nat, k: nat, t: nat, c: nat)
    requires i < |chains| && k < |chains[i]| && t in tls && chains[i][k] == tls[t] && tls[t].threadId == t && t % |chains| == i
    requires c < |chains| && ChainOk(tls, chains, c)
    ensures ChainOk(tls - {t}, Shorter(chains, i, k), c)
  {
    var r := Shorter(chains, i, k);
    forall e: TlsEntry | e in r[c] ensures e.threadId in tls - {t} && (tls - {t})[e.threadId] == e && e.threadId % |r| == c {
      var m :| 0 <= m < |r[c]| && r[c][m] == e;
      var w := if c == i && m >= k then m + 1 else m;
      assert chains[c][w] == e;
      assert c == i ==> w != k && chains[i][w] != chains[i][k];
    }
    forall a, b | 0 <= a < b < |r[c]| ensures r[c][a] != r[c][b] {
      assert r[c][a] == chains[c][if c == i && a >= k then a + 1 else a];
      assert r[c][b] == chains[c][if c == i && b >= k then b + 1 else b];
    }
  }

  lemma StillThreaded(tls: Threads, chains: seq<seq<TlsEntry>>, owner: Owners, i: nat, k: nat, t: nat, u: nat, view: seq<ResourceType>)
    requires i < |chains| && k < |chains[i]| && t in tls && chains[i][k] == tls[t] && tls[t].threadId == t
    requires u != t && ThreadOk(tls, chains, owner, u, view)
    ensures ThreadOk(tls - {t}, Shorter(chains, i, k), owner, u, view)
  {
    if u % |chains| == i { Stays(chains[i], k, tls[u]); }
  }

  lemma BlocksMore(s: seq<nat>, i: nat)
    requires i < |s|
    ensures Blocks(s[..i + 1]) == Blocks(s[..i]) + (if s[i] != 0 then {s[i]} else {})
  {
    var t := s[..i + 1];
    forall b ensures b in Blocks(t) <==> b in Blocks(s[..i]) || (s[i] != 0 && b == s[i]) {
      if b in Blocks(s[..i]) {
        var j :| 0 <= j < i && s[..i][j] == b && b != 0;
        assert t[j] == b;
      }
      if s[i] != 0 && b == s[i] { assert t[i] == b; }
    }
  }

  /** The threads of some entries. */
  ghost function Ids(chain: seq<TlsEntry>): set<nat> { set e | e in chain :: e.threadId }

  lemma IdsMore(chain: seq<TlsEntry>, k: nat)
    requires k < |chain|
    ensures Ids(chain[..k + 1]) == Ids(chain[..k]) + {chain[k].threadId}
  {
    assert chain[..k + 1] == chain[..k] + [chain[k]];
  }

  /** Slot j is empty, all other slots are as they were. */
  predicate Cleared(was: seq<nat>, now: seq<nat>, j: nat) { now == was || (j < |was| && now == was[j := 0]) }

  lemma ClearedTwice(a: seq<nat>, b: seq<nat>, c: seq<nat>, j: nat)
    requires Cleared(a, b, j) && j < |b| && c == b[j := 0]
    ensures Cleared(a, c, j)
  {
  }

  /** The resources when number j is done. */
  function Without(types: seq<ResourceType>, j: nat): seq<ResourceType>
    requires j < |types|
  {
    types[j := types[j].(done := true)]
  }
}
