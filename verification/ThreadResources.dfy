/**
 The thread resource manager: a hash table of per-thread storage, and a pointer to it in every thread.
 Each method is one step under the mutex.
 */
module ThreadResources {
  import opened ThreadHistory

  datatype Fetched = Whole(entry: TlsEntry) | Slot(block: nat)

  predicate Opened(k: nat) { true }

  class Tsrm {
    var types: seq<ResourceType>   // resource_types_table, of which id_count are in use
    const table: array<seq<TlsEntry>>   // tsrm_tls_table: the chains of entries
    var tls: Threads               // the thread-local pointer of every thread
    var nextBlock: nat
    ghost var owner: Owners
    ghost var history: seq<Event>

    /**
     The invariant, while what thread t has is storage for the resources in views[t].  It is stated
     behind a quantifier, so that it is not looked into where it is only passed on.
     */
    ghost predicate Sane(views: Views)
      reads this, table, tls.Values
    {
      table.Length > 0 && views.Keys == tls.Keys && forall k: nat {:trigger Opened(k)} :: Opened(k) ==> SaneOpen(views)
    }

    ghost predicate SaneOpen(views: Views)
      reads this, table, tls.Values
    {
      && table.Length > 0 && views.Keys == tls.Keys
      && HistoryOk(history, types, owner, nextBlock)
      && (forall i {:trigger ChainOk(tls, table[..], i)} :: 0 <= i < table.Length ==> ChainOk(tls, table[..], i))
      && (forall t {:trigger ThreadOk(tls, table[..], owner, t, views[t])} :: t in tls ==> ThreadOk(tls, table[..], owner, t, views[t]) && |views[t]| <= |types|)
      && (forall b {:trigger BlockOk(tls, owner, history, b)} :: b in owner ==> BlockOk(tls, owner, history, b))
    }

    ghost function Full(view: seq<ResourceType>): Views
      reads this
    {
      map t | t in tls :: view
    }

    /** Between two steps every thread has all slots. */
    ghost predicate Valid()
      reads this, table, tls.Values
    {
      Sane(Full(types))
    }

    /** tsrm_startup. */
    constructor (expectedThreads: nat)
      requires expectedThreads > 0
      ensures Valid() && types == [] && tls == map[] && history == [] && fresh(table) && table.Length == expectedThreads
    {
      types, tls, nextBlock, owner, history := [], map[], 1, map[], [];
      table := new seq<TlsEntry>[expectedThreads](i => []);
    }

    lemma OwnedBelow(views: Views, b: nat)
      requires SaneOpen(views) && b in owner
      ensures 0 < b < nextBlock && owner[b].slot < |types|
    {
      assert BlockOk(tls, owner, history, b);
      assert EventOk(history, types, owner, nextBlock, Created(b, owner[b].slot));
      var t := owner[b].thread;
      assert ThreadOk(tls, table[..], owner, t, views[t]);
    }

    /** Thread t has its entry, in its chain, with all the slots of its view. */
    lemma HasSlots(views: Views, t: nat)
      requires Sane(views) && t in tls
      ensures table.Length > 0 && t in views && |tls[t].storage| == |views[t]| && tls[t].threadId == t && tls[t] in table[t % table.Length]
    {
      assert Opened(0);
      assert ThreadOk(tls, table[..], owner, t, views[t]);
    }

    /** What is in a chain is the entry of a thread. */
    lemma InChain(views: Views, i: nat, k: nat)
      requires Sane(views) && i < table.Length && k < |table[i]|
      ensures var e := table[i][k]; e.threadId in tls && tls[e.threadId] == e && e.threadId % table.Length == i
    {
      assert Opened(0);
      assert ChainOk(tls, table[..], i);
    }

    /** The threads of one chain. */
    lemma WholeChain(views: Views, i: nat)
      requires Sane(views) && i < table.Length
      ensures forall t :: t in tls && t % table.Length == i ==> t in Ids(table[i])
    {
      forall t | t in tls && t % table.Length == i ensures t in Ids(table[i]) {
        HasSlots(views, t);
      }
    }

    /** Different threads have different entries. */
    lemma AllDistinct(views: Views, t: nat)
      requires Sane(views) && t in tls
      ensures forall u :: u in tls && u != t ==> tls[u] != tls[t]
    {
      HasSlots(views, t);
      forall u | u in tls && u != t ensures tls[u] != tls[t] {
        HasSlots(views, u);
      }
    }

    /** The next slot of thread t is filled: with a new block, or with NULL if the resource is done. */
    method GrowSlot(t: nat, ghost views: Views)
      requires Sane(views) && t in tls && |views[t]| < |types|
      modifies `nextBlock, `owner, `history, tls[t]
      ensures Sane(views[t := views[t] + [types[|views[t]|]]])
      ensures old(tls[t].storage) <= tls[t].storage && |tls[t].storage| == |views[t]| + 1
    {
      assert Opened(0);
      FillSlot(t, views);
    }

    method FillSlot(t: nat, ghost views: Views)
      requires SaneOpen(views) && t in tls && |views[t]| < |types|
      modifies `nextBlock, `owner, `history, tls[t]
      ensures SaneOpen(views[t := views[t] + [types[|views[t]|]]])
      ensures old(tls[t].storage) <= tls[t].storage && |tls[t].storage| == |views[t]| + 1
    {
      var e := tls[t];
      assert ThreadOk(tls, table[..], owner, t, views[t]);
      var j := |e.storage|;
      if types[j].done {
        e.storage := e.storage + [0];
      } else {
        var b := nextBlock;
        if b in owner { OwnedBelow(views, b); }
        nextBlock := nextBlock + 1;
        NewBlockHistory(history, types, owner, b, Place(t, j));
        owner := owner[b := Place(t, j)];
        history := history + [Created(b, j)];
        e.storage := e.storage + [b];
      }
      ghost var more := views[t := views[t] + [types[|views[t]|]]];
      forall u {:trigger ThreadOk(tls, table[..], owner, u, more[u])} | u in tls
        ensures ThreadOk(tls, table[..], owner, u, more[u]) && |more[u]| <= |types|
      {
        assert old(ThreadOk(tls, table[..], owner, u, views[u]));
        forall k {:trigger SlotOk(tls[u], more[u], owner, k)} | 0 <= k < |more[u]| ensures SlotOk(tls[u], more[u], owner, k) {
          assert k < |views[u]| ==> old(SlotOk(tls[u], views[u], owner, k));
        }
      }
      forall b {:trigger BlockOk(tls, owner, history, b)} | b in owner ensures BlockOk(tls, owner, history, b) {
        assert b in old(owner) ==> old(BlockOk(tls, owner, history, b));
      }
      forall i {:trigger ChainOk(tls, table[..], i)} | 0 <= i < table.Length ensures ChainOk(tls, table[..], i) {
        assert old(ChainOk(tls, table[..], i));
      }
    }

    /** Fills the slots that thread t lacks. */
    method GrowThread(t: nat, ghost views0: Views)
      requires Sane(views0) && t in tls && views0[t] <= types
      modifies `nextBlock, `owner, `history, tls[t]
      ensures Sane(views0[t := types])
      ensures old(tls[t].storage) <= tls[t].storage
      ensures forall u :: u in tls && u != t ==> tls[u].storage == old(tls[u].storage)
    {
      AllDistinct(views0, t);
      ghost var views := views0;
      HasSlots(views0, t);
      assert views0[t := views0[t]] == views0;
      while |tls[t].storage| < |types|
        invariant t in views && views == views0[t := views[t]] && views[t] <= types && |views[t]| == |tls[t].storage|
        invariant Sane(views) && old(tls[t].storage) <= tls[t].storage
        decreases |types| - |tls[t].storage|
      {
        ghost var next := views[t := views[t] + [types[|views[t]|]]];
        GrowSlot(t, views);
        views := next;
      }
      assert views[t] == types;
    }

    /** A new resource: the views of the threads lag one behind. */
    method AddType(r: ResourceType)
      requires Valid()
      modifies `types
      ensures types == old(types) + [r] && Sane(Full(old(types)))
    {
      assert Opened(0);
      ghost var was := types;
      types := types + [r];
      forall e {:trigger EventOk(history, types, owner, nextBlock, e)} | e in history ensures EventOk(history, types, owner, nextBlock, e) {
        assert EventOk(history, was, owner, nextBlock, e);
      }
      forall t {:trigger ThreadOk(tls, table[..], owner, t, Full(was)[t])} | t in tls ensures ThreadOk(tls, table[..], owner, t, Full(was)[t]) {
        assert old(ThreadOk(tls, table[..], owner, t, Full(types)[t]));
      }
    }

    /** The views while ts_allocate_id walks the table: the threads in `done` have all slots. */
    ghost function Partly(before: seq<ResourceType>, done: set<nat>): Views
      reads this
    {
      map t | t in tls :: if t in done then types else before
    }

    lemma PartlyMore(before: seq<ResourceType>, done: set<nat>, t: nat)
      requires t in tls
      ensures Partly(before, done)[t := types] == Partly(before, done + {t})
    {
    }

    method GrowOne(t: nat, ghost before: seq<ResourceType>, ghost done: set<nat>)
      requires t in tls && before <= types && Sane(Partly(before, done))
      modifies `nextBlock, `owner, `history, tls[t]
      ensures Sane(Partly(before, done + {t})) && old(tls[t].storage) <= tls[t].storage
      ensures forall u :: u in tls && u != t ==> tls[u].storage == old(tls[u].storage)
    {
      GrowThread(t, Partly(before, done));
      PartlyMore(before, done, t);
    }

    /** The arrays of the threads in one chain are enlarged. */
    method GrowChain(i: nat, ghost before: seq<ResourceType>, ghost done0: set<nat>) returns (ghost done: set<nat>)
      requires i < table.Length && before <= types && Sane(Partly(before, done0))
      modifies `nextBlock, `owner, `history, tls.Values
      ensures Sane(Partly(before, done)) && done0 <= done && forall t :: t in tls && t % table.Length == i ==> t in done
      ensures forall t :: t in tls ==> old(tls[t].storage) <= tls[t].storage
    {
      done := done0;
      var k, chain := 0, table[i];
      while k < |chain|
        invariant 0 <= k <= |chain| && chain == table[i] && Sane(Partly(before, done)) && done0 <= done
        invariant done == done0 + Ids(chain[..k])
        invariant forall t :: t in tls ==> old(tls[t].storage) <= tls[t].storage
      {
        InChain(Partly(before, done), i, k);
        var t := chain[k].threadId;
        ghost var mid := tls[t].storage;
        GrowOne(t, before, done);
        assert old(tls[t].storage) <= mid <= tls[t].storage;
        IdsMore(chain, k);
        done := done + {t};
        k := k + 1;
      }
      assert chain[..k] == chain;
      WholeChain(Partly(before, done), i);
    }

    /** ts_allocate_id; ids are shown to callers one higher than the slot. */
    method AllocateId(size: nat, ctor: bool, dtor: bool) returns (id: nat)
      requires Valid()
      modifies `types, `nextBlock, `owner, `history, tls.Values
      ensures Valid() && id == |types| && types == old(types) + [ResourceType(size, ctor, dtor, false)]
      ensures forall t :: t in tls ==> old(tls[t].storage) <= tls[t].storage
    {
      ghost var before := types;
      AddType(ResourceType(size, ctor, dtor, false));
      id := |types|;
      ghost var done: set<nat> := {};
      assert Partly(before, done) == Full(before);
      var i := 0;
      while i < table.Length
        invariant 0 <= i <= table.Length && types == before + [ResourceType(size, ctor, dtor, false)]
        invariant Sane(Partly(before, done)) && forall t :: t in tls && t % table.Length < i ==> t in done
        invariant forall t :: t in tls ==> old(tls[t].storage) <= tls[t].storage
      {
        done := GrowChain(i, before, done);
        i := i + 1;
      }
      AllDone(before, done);
    }

    lemma AllDone(before: seq<ResourceType>, done: set<nat>)
      requires table.Length > 0 && forall t :: t in tls && t % table.Length < table.Length ==> t in done
      ensures Partly(before, done) == Full(types)
    {
      forall t | t in tls ensures t in done {
        assert t % table.Length < table.Length;
      }
    }

    /** A new entry for a thread without one goes to the end of its chain. */
    method Link(thread: nat) returns (e: TlsEntry)
      requires Valid() && thread !in tls
      modifies `tls, table
      ensures fresh(e) && tls == old(tls)[thread := e] && e.storage == []
      ensures Sane(Full(types)[thread := []])
    {
      assert Opened(0);
      e := new TlsEntry(thread);
      var h := thread % table.Length;
      ghost var chains := table[..];
      table[h] := table[h] + [e];
      tls := tls[thread := e];
      ghost var views := Full(types)[thread := []];
      forall t {:trigger ThreadOk(tls, table[..], owner, t, views[t])} | t in tls ensures ThreadOk(tls, table[..], owner, t, views[t]) && |views[t]| <= |types| {
        if t != thread {
          assert old(ThreadOk(tls, table[..], owner, t, Full(types)[t]));
          assert t % |chains| == h ==> table[h] == chains[h] + [e];
          forall j {:trigger SlotOk(tls[t], views[t], owner, j)} | 0 <= j < |views[t]| ensures SlotOk(tls[t], views[t], owner, j) {
            assert old(SlotOk(tls[t], types, owner, j));
          }
        }
      }
      forall i {:trigger ChainOk(tls, table[..], i)} | 0 <= i < table.Length ensures ChainOk(tls, table[..], i) {
        assert old(ChainOk(tls, table[..], i));
        assert table[..][i] == if i == h then chains[h] + [e] else chains[i];
      }
      forall b {:trigger BlockOk(tls, owner, history, b)} | b in owner ensures BlockOk(tls, owner, history, b) {
        assert old(BlockOk(tls, owner, history, b));
      }
    }

    /** allocate_new_resource: storage for a thread that has none. */
    method AllocateNewResource(thread: nat)
      requires Valid() && thread !in tls
      modifies `tls, `nextBlock, `owner, `history, table
      ensures Valid() && thread in tls && fresh(tls[thread]) && tls == old(tls)[thread := tls[thread]]
    {
      var e := Link(thread);
      GrowThread(thread, Full(types)[thread := []]);
      assert Full(types)[thread := []][thread := types] == Full(types);
    }

    /** What a caller gets: the storage itself for id 0, else the block of the id. */
    function Result(e: TlsEntry, id: nat): Fetched
      reads e
      requires id <= |e.storage|
    {
      if id == 0 then Whole(e) else Slot(e.storage[id - 1])
    }

    /** The entry of a thread in its chain. */
    method Lookup(thread: nat) returns (e: TlsEntry?)
      requires Valid()
      ensures e == if thread in tls then tls[thread] else null
    {
      assert Opened(0);
      var chain := table[thread % table.Length];
      assert ChainOk(tls, table[..], thread % table.Length);
      assert thread in tls ==> ThreadOk(tls, table[..], owner, thread, Full(types)[thread]);
      var k := 0;
      while k < |chain|
        invariant 0 <= k <= |chain| && forall m :: 0 <= m < k ==> chain[m].threadId != thread
      {
        if chain[k].threadId == thread {
          return chain[k];
        }
        k := k + 1;
      }
      e := null;
    }

    /**
     ts_resource_ex for the calling thread, which passes its own id or none: without an id, the
     thread-local pointer is used.  Either way the caller gets what is in its entry of the table.
     */
    method ResourceEx(caller: nat, id: nat, given: bool) returns (r: Fetched)
      requires Valid() && id <= |types|
      modifies `tls, `nextBlock, `owner, `history, table
      ensures Valid() && caller in tls && id <= |tls[caller].storage| && r == Result(tls[caller], id)
      ensures caller in old(tls) ==> tls == old(tls) && history == old(history)
      ensures caller !in old(tls) ==> fresh(tls[caller]) && tls == old(tls)[caller := tls[caller]]
      decreases caller !in tls
    {
      if !given && caller in tls {
        HasSlots(Full(types), caller);
        return Result(tls[caller], id);
      }
      var e := Lookup(caller);
      if e == null {
        AllocateNewResource(caller);
        r := ResourceEx(caller, id, true);
      } else {
        HasSlots(Full(types), caller);
        r := Result(e, id);
      }
    }

    // ---------- ts_free_id ----------

    ghost predicate AllLive()
      reads this
    {
      OwnersLive(history, owner)
    }

    /** A block is destroyed, if its resource has a destructor, and freed. */
    method Retire(b: nat, j: nat)
      requires HistoryOk(history, types, owner, nextBlock) && AllLive() && b in owner && owner[b].slot == j < |types|
      modifies `owner, `history
      ensures HistoryOk(history, types, owner, nextBlock) && AllLive() && owner == old(owner) - {b}
    {
      assert b in owner && Live(history, b, j);
      assert OwnersLive(history, owner - {b});
      if types[j].dtor {
        DestroyHistory(history, types, owner, nextBlock, b, j);
        LiveElsewhere(history, owner, Destroyed(b, j));
        history := history + [Destroyed(b, j)];
      }
      FreeHistory(history, types, owner, nextBlock, b, j);
      LiveElsewhere(history, owner, Freed(b));
      history := history + [Freed(b)];
      owner := owner - {b};
    }

    lemma BlocksLive(views: Views)
      requires SaneOpen(views)
      ensures AllLive()
    {
      forall c {:trigger c in owner} | c in owner ensures Live(history, c, owner[c].slot) {
        assert BlockOk(tls, owner, history, c);
      }
    }

    /** The block in slot j of thread t, if there is one, is destroyed and freed. */
    method EmptySlot(t: nat, j: nat, ghost views: Views)
      requires SaneOpen(views) && t in tls && j < |views[t]|
      modifies `owner, `history, tls[t]
      ensures SaneOpen(views[t := Without(views[t], j)])
      ensures j < |old(tls[t].storage)| && tls[t].storage == old(tls[t].storage)[j := 0]
    {
      var e := tls[t];
      assert ThreadOk(tls, table[..], owner, t, views[t]);
      assert SlotOk(e, views[t], owner, j);
      BlocksLive(views);
      var b := e.storage[j];
      if b != 0 {
        Retire(b, j);
        e.storage := e.storage[j := 0];
      }
      ghost var less := views[t := Without(views[t], j)];
      forall u {:trigger ThreadOk(tls, table[..], owner, u, less[u])} | u in tls
        ensures ThreadOk(tls, table[..], owner, u, less[u]) && |less[u]| <= |types|
      {
        assert old(ThreadOk(tls, table[..], owner, u, views[u]));
        forall k {:trigger SlotOk(tls[u], less[u], owner, k)} | 0 <= k < |less[u]| ensures SlotOk(tls[u], less[u], owner, k) {
          assert old(SlotOk(tls[u], views[u], owner, k));
        }
      }
      forall c {:trigger BlockOk(tls, owner, history, c)} | c in owner ensures BlockOk(tls, owner, history, c) {
        assert old(BlockOk(tls, owner, history, c)) && c in old(owner);
      }
      forall i {:trigger ChainOk(tls, table[..], i)} | 0 <= i < table.Length ensures ChainOk(tls, table[..], i) {
        assert old(ChainOk(tls, table[..], i));
      }
    }

    /** The views while ts_free_id walks the table. */
    ghost function Emptied(j: nat, done: set<nat>): Views
      reads this
      requires j < |types|
    {
      map t | t in tls :: if t in done then Without(types, j) else types
    }

    lemma EmptiedMore(j: nat, done: set<nat>, t: nat)
      requires j < |types| && t in tls
      ensures Without(Without(types, j), j) == Without(types, j)
      ensures Emptied(j, done)[t := Without(Emptied(j, done)[t], j)] == Emptied(j, done + {t})
    {
    }

    method EmptyThread(t: nat, j: nat, ghost done: set<nat>)
      requires j < |types| && t in tls && Sane(Emptied(j, done))
      modifies `owner, `history, tls[t]
      ensures Sane(Emptied(j, done + {t})) && j < |old(tls[t].storage)| && tls[t].storage == old(tls[t].storage)[j := 0]
      ensures forall u :: u in tls && u != t ==> tls[u].storage == old(tls[u].storage)
    {
      AllDistinct(Emptied(j, done), t);
      assert Opened(0);
      EmptiedMore(j, done, t);
      EmptySlot(t, j, Emptied(j, done));
    }

    method EmptyChain(i: nat, j: nat, ghost done0: set<nat>) returns (ghost done: set<nat>)
      requires i < table.Length && j < |types| && Sane(Emptied(j, done0))
      modifies `owner, `history, tls.Values
      ensures Sane(Emptied(j, done)) && done0 <= done && forall t :: t in tls && t % table.Length == i ==> t in done
      ensures forall t :: t in tls ==> Cleared(old(tls[t].storage), tls[t].storage, j)
    {
      done := done0;
      var k, chain := 0, table[i];
      while k < |chain|
        invariant 0 <= k <= |chain| && chain == table[i] && Sane(Emptied(j, done)) && done0 <= done
        invariant done == done0 + Ids(chain[..k])
        invariant forall t :: t in tls ==> Cleared(old(tls[t].storage), tls[t].storage, j)
      {
        InChain(Emptied(j, done), i, k);
        var t := chain[k].threadId;
        ghost var mid := tls[t].storage;
        EmptyThread(t, j, done);
        ClearedTwice(old(tls[t].storage), mid, tls[t].storage, j);
        IdsMore(chain, k);
        done := done + {t};
        k := k + 1;
      }
      assert chain[..k] == chain;
      WholeChain(Emptied(j, done), i);
    }

    /** ts_free_id: the block of this id is destroyed and freed in every thread; no thread gets a new one. */
    method FreeId(id: nat)
      requires Valid() && 1 <= id <= |types|
      modifies `types, `owner, `history, tls.Values
      ensures Valid() && types == Without(old(types), id - 1)
      ensures forall t :: t in tls ==> Cleared(old(tls[t].storage), tls[t].storage, id - 1)
    {
      var j := id - 1;
      ghost var done: set<nat> := {};
      assert Emptied(j, done) == Full(types);
      ghost var was := types;
      var i := 0;
      while i < table.Length
        invariant 0 <= i <= table.Length && types == was && Sane(Emptied(j, done))
        invariant forall t :: t in tls && t % table.Length < i ==> t in done
        invariant forall t :: t in tls ==> Cleared(old(tls[t].storage), tls[t].storage, j)
      {
        done := EmptyChain(i, j, done);
        i := i + 1;
      }
      AllEmptied(j, done);
      MarkDone(j);
    }

    lemma AllEmptied(j: nat, done: set<nat>)
      requires table.Length > 0 && j < |types| && forall t :: t in tls && t % table.Length < table.Length ==> t in done
      ensures Emptied(j, done) == Full(Without(types, j))
    {
      forall t | t in tls ensures t in done {
        assert t % table.Length < table.Length;
      }
    }

    method MarkDone(j: nat)
      requires j < |types| && Sane(Full(Without(types, j)))
      modifies `types
      ensures Valid() && types == Without(old(types), j)
    {
      assert Opened(0);
      ghost var was := types;
      types := types[j := types[j].(done := true)];
      forall e {:trigger EventOk(history, types, owner, nextBlock, e)} | e in history ensures EventOk(history, types, owner, nextBlock, e) {
        assert EventOk(history, was, owner, nextBlock, e);
      }
      forall t {:trigger ThreadOk(tls, table[..], owner, t, Full(types)[t])} | t in tls ensures ThreadOk(tls, table[..], owner, t, Full(types)[t]) {
        assert old(ThreadOk(tls, table[..], owner, t, Full(Without(types, j))[t]));
      }
    }

    // ---------- ts_free_thread ----------

    /** The first loop of ts_free_thread. */
    method RunDestructors(s: seq<nat>, ghost others: Owners)
      requires HistoryOk(history, types, owner, nextBlock) && |s| <= |types| && NoRepeat(s)
      requires (forall j :: 0 <= j < |s| ==> Pending(history, s, j)) && OwnersLive(history, others) && others.Keys !! Blocks(s)
      modifies `history
      ensures HistoryOk(history, types, owner, nextBlock) && OwnersLive(history, others) && old(history) <= history
      ensures forall j :: 0 <= j < |s| ==> Struck(history, types, s, j)
    {
      var i := 0;
      while i < |s|
        invariant 0 <= i <= |s| && HistoryOk(history, types, owner, nextBlock) && OwnersLive(history, others) && old(history) <= history
        invariant forall j :: 0 <= j < i ==> Struck(history, types, s, j)
        invariant forall j :: i <= j < |s| ==> Pending(history, s, j)
      {
        assert Pending(history, s, i);
        if types[i].dtor && s[i] != 0 {
          DestroyHistory(history, types, owner, nextBlock, s[i], i);
          assert s[i] in Blocks(s);
          LiveKept(history, others, Destroyed(s[i], i));
          SlotsKept(history, types, s, i, Destroyed(s[i], i));
          history := history + [Destroyed(s[i], i)];
        }
        i := i + 1;
      }
    }

    /** The second loop of ts_free_thread. */
    method FreeBlocks(s: seq<nat>, ghost others: Owners)
      requires HistoryOk(history, types, owner, nextBlock) && |s| <= |types| && NoRepeat(s)
      requires (forall j :: 0 <= j < |s| ==> Struck(history, types, s, j)) && OwnersLive(history, others) && others.Keys !! Blocks(s)
      modifies `history, `owner
      ensures HistoryOk(history, types, owner, nextBlock) && OwnersLive(history, others) && old(history) <= history
      ensures owner == old(owner) - Blocks(s)
    {
      var i := 0;
      assert Blocks(s[..0]) == {};
      while i < |s|
        invariant 0 <= i <= |s| && HistoryOk(history, types, owner, nextBlock) && OwnersLive(history, others) && old(history) <= history
        invariant owner == old(owner) - Blocks(s[..i])
        invariant forall j :: i <= j < |s| ==> Struck(history, types, s, j)
      {
        assert Struck(history, types, s, i);
        BlocksMore(s, i);
        if s[i] != 0 {
          FreeHistory(history, types, owner, nextBlock, s[i], i);
          assert s[i] in Blocks(s);
          LiveKept(history, others, Freed(s[i]));
          SlotsKept(history, types, s, i, Freed(s[i]));
          history := history + [Freed(s[i])];
          owner := owner - {s[i]};
        }
        i := i + 1;
      }
      assert s[..i] == s;
    }

    /** The entry at place k of chain i, that of thread t, leaves the table, and the thread's pointer is cleared. */
    method Unlink(t: nat, i: nat, k: nat)
      requires t in tls && i < table.Length && k < |table[i]| && table[i][k] == tls[t] && tls[t].threadId == t && i == t % table.Length
      requires HistoryOk(history, types, owner, nextBlock) && OwnersLive(history, owner)
      requires forall c :: 0 <= c < table.Length ==> ChainOk(tls, table[..], c)
      requires forall u :: u in tls && u != t ==> ThreadOk(tls, table[..], owner, u, types)
      requires forall b {:trigger b in owner} :: b in owner ==> owner[b].thread != t && BlockOk(tls, owner, history, b)
      modifies `tls, table
      ensures Valid() && tls == old(tls) - {t} && table[..] == Shorter(old(table[..]), i, k)
    {
      ghost var chains, was := table[..], tls;
      table[i] := table[i][..k] + table[i][k + 1..];
      tls := tls - {t};
      assert table[..] == Shorter(chains, i, k);
      forall u {:trigger ThreadOk(tls, table[..], owner, u, Full(types)[u])} | u in tls ensures ThreadOk(tls, table[..], owner, u, Full(types)[u]) {
        StillThreaded(was, chains, owner, i, k, t, u, types);
      }
      forall c {:trigger ChainOk(tls, table[..], c)} | 0 <= c < table.Length ensures ChainOk(tls, table[..], c) {
        Unlinked(was, chains, i, k, t, c);
      }
      forall b {:trigger BlockOk(tls, owner, history, b)} | b in owner ensures BlockOk(tls, owner, history, b) {
        assert BlockOk(was, owner, history, b);
      }
    }

    /** The blocks of all threads but t. */
    ghost function Others(t: nat): Owners
      reads this
    {
      map b | b in owner && owner[b].thread != t :: owner[b]
    }

    /** What ts_free_thread finds in the storage of thread t. */
    lemma OwnBlocks(t: nat)
      requires Valid() && t in tls
      ensures var s := tls[t].storage;
              && |s| == |types| && NoRepeat(s) && OwnersLive(history, Others(t)) && Others(t).Keys !! Blocks(s) && owner - Blocks(s) == Others(t)
              && (forall j :: 0 <= j < |s| ==> Pending(history, s, j) && (s[j] != 0 ==> !types[j].done))
    {
      assert Opened(0);
      var s := tls[t].storage;
      assert ThreadOk(tls, table[..], owner, t, Full(types)[t]);
      forall j | 0 <= j < |s| ensures Pending(history, s, j) && (s[j] != 0 ==> !types[j].done && s[j] in owner && owner[s[j]] == Place(t, j)) {
        assert SlotOk(tls[t], types, owner, j);
        if s[j] != 0 { assert BlockOk(tls, owner, history, s[j]); }
      }
      forall b | b in owner ensures owner[b].thread == t <==> b in Blocks(s) {
        assert BlockOk(tls, owner, history, b);
      }
      forall b {:trigger b in Others(t)} | b in Others(t) ensures Live(history, b, Others(t)[b].slot) {
        assert BlockOk(tls, owner, history, b);
      }
    }

    /** What Unlink needs, once the blocks of thread t are gone. */
    ghost predicate Stripped(t: nat)
      reads this, table, tls.Values
    {
      && table.Length > 0 && HistoryOk(history, types, owner, nextBlock) && OwnersLive(history, owner)
      && (forall c :: 0 <= c < table.Length ==> ChainOk(tls, table[..], c))
      && (forall u :: u in tls && u != t ==> ThreadOk(tls, table[..], owner, u, types))
      && (forall b {:trigger b in owner} :: b in owner ==> owner[b].thread != t && BlockOk(tls, owner, history, b))
    }

    /** The state between the loops of ts_free_thread and the unlinking. */
    twostate lemma NowStripped(t: nat)
      requires old(Valid()) && t in old(tls)
      requires tls == old(tls) && table[..] == old(table[..]) && types == old(types) && nextBlock == old(nextBlock)
      requires forall u :: u in tls ==> tls[u].storage == old(tls[u].storage)
      requires owner == old(Others(t)) && HistoryOk(history, types, owner, nextBlock) && OwnersLive(history, owner)
      ensures Stripped(t)
    {
      assert Opened(0);
      assert old(SaneOpen(Full(types)));
      forall c | 0 <= c < table.Length ensures ChainOk(tls, table[..], c) {
        assert old(ChainOk(tls, table[..], c));
      }
      forall b {:trigger b in owner} | b in owner ensures owner[b].thread != t && BlockOk(tls, owner, history, b) {
        assert old(BlockOk(tls, owner, history, b));
      }
      forall u | u in tls && u != t ensures ThreadOk(tls, table[..], owner, u, types) {
        assert old(ThreadOk(tls, table[..], owner, u, Full(types)[u]));
        forall j {:trigger SlotOk(tls[u], types, owner, j)} | 0 <= j < |types| ensures SlotOk(tls[u], types, owner, j) {
          assert old(SlotOk(tls[u], types, owner, j));
        }
      }
    }

    /** Where the entry of a thread is in its chain; the length of the chain if it has none. */
    method PlaceInChain(t: nat) returns (k: nat)
      requires Valid()
      ensures k <= |table[t % table.Length]| && (t in tls <==> k < |table[t % table.Length]|)
      ensures t in tls ==> table[t % table.Length][k] == tls[t]
    {
      var chain := table[t % table.Length];
      k := 0;
      if t in tls { HasSlots(Full(types), t); }
      while k < |chain| && chain[k].threadId != t
        invariant 0 <= k <= |chain| && forall m :: 0 <= m < k ==> chain[m].threadId != t
      {
        k := k + 1;
      }
      if k < |chain| { InChain(Full(types), t % table.Length, k); }
    }

    /** All destructors of a thread, then all its memory, and its entry leaves the table. */
    method FreeEntry(t: nat, k: nat)
      requires Valid() && t in tls && k < |table[t % table.Length]| && table[t % table.Length][k] == tls[t]
      modifies `tls, `owner, `history, table
      ensures Valid() && tls == old(tls) - {t}
      ensures owner == old(Others(t)) && old(history) <= history
    {
      var e := tls[t];
      HasSlots(Full(types), t);
      OwnBlocks(t);
      ghost var others := Others(t);
      assert Opened(0);
      RunDestructors(e.storage, others);
      FreeBlocks(e.storage, others);
      NowStripped(t);
      Unlink(t, t % table.Length, k);
    }

    /** ts_free_thread for thread t: everything it has is destroyed and freed, nothing else is touched. */
    method FreeThread(t: nat)
      requires Valid()
      modifies `tls, `owner, `history, table
      ensures Valid() && tls == old(tls) - {t} && owner == old(Others(t))
      ensures t !in old(tls) ==> history == old(history)
    {
      var k := PlaceInChain(t);
      if k < |table[t % table.Length]| {
        FreeEntry(t, k);
      } else {
        NoBlocks(t);
      }
    }

    lemma NoBlocks(t: nat)
      requires Valid() && t !in tls
      ensures Others(t) == owner && tls - {t} == tls
    {
      assert Opened(0);
      forall b | b in owner ensures owner[b].thread != t {
        assert BlockOk(tls, owner, history, b);
      }
    }

    /** A block that has been created and is in no slot has been freed, after its destructor if there is one. */
    lemma Gone(b: nat, s: nat)
      requires Valid() && Created(b, s) in history && b !in owner
      ensures Freed(b) in history && s < |types| && (types[s].dtor ==> Destroyed(b, s) in history)
    {
      assert Opened(0);
      assert EventOk(history, types, owner, nextBlock, Created(b, s));
    }

    /** tsrm_shutdown: every block that was ever created has been freed, destroyed before if it had a destructor. */
    method Shutdown()
      requires Valid()
      modifies `tls, `owner, `history, `types, table
      ensures tls == map[] && types == [] && Legal(history)
      ensures forall b: nat, s: nat :: Created(b, s) in history ==> Freed(b) in history && s < |old(types)| && (old(types)[s].dtor ==> Destroyed(b, s) in history)
    {
      var i := 0;
      ghost var was := types;
      while i < table.Length
        invariant 0 <= i <= table.Length && Valid() && types == was
        invariant forall c :: 0 <= c < i ==> table[c] == []
      {
        while table[i] != []
          invariant i < table.Length && Valid() && types == was && forall c :: 0 <= c < i ==> table[c] == []
          decreases |table[i]|
        {
          FirstOf(i);
          FreeFirst(i);
        }
        i := i + 1;
      }
      NobodyLeft();
      assert Opened(0);
      forall b: nat, s: nat | Created(b, s) in history ensures Freed(b) in history && s < |was| && (was[s].dtor ==> Destroyed(b, s) in history) {
        Gone(b, s);
      }
      types := [];
    }

    lemma FirstOf(i: nat)
      requires Valid() && i < table.Length && table[i] != []
      ensures var t := table[i][0].threadId; t in tls && tls[t] == table[i][0] && t % table.Length == i
    {
      InChain(Full(types), i, 0);
    }

    lemma NobodyLeft()
      requires Valid() && forall c :: 0 <= c < table.Length ==> table[c] == []
      ensures tls == map[] && owner == map[]
    {
      forall t ensures t !in tls {
        if t in tls { HasSlots(Full(types), t); }
      }
      assert Opened(0);
      forall b ensures b !in owner {
        assert b in owner ==> BlockOk(tls, owner, history, b);
      }
      assert tls == map[] && owner == map[];
    }

    /** One turn of the loop of tsrm_shutdown: the first entry of a chain goes, slot by slot. */
    method FreeFirst(i: nat)
      requires Valid() && i < table.Length && table[i] != []
      modifies `tls, `owner, `history, table
      ensures Valid() && table[i] == old(table[i])[1..] && forall c :: 0 <= c < table.Length && c != i ==> table[c] == old(table[c])
    {
      FirstOf(i);
      var p := table[i][0];
      var t := p.threadId;
      HasSlots(Full(types), t);
      OwnBlocks(t);
      ghost var others := Others(t);
      assert Opened(0);
      FreeSlots(p.storage, others);
      NowStripped(t);
      Unlink(t, i, 0);
    }

    /** The slots of an entry at shutdown: destroyed and freed one by one. */
    method FreeSlots(s: seq<nat>, ghost others: Owners)
      requires HistoryOk(history, types, owner, nextBlock) && |s| <= |types| && NoRepeat(s)
      requires (forall j :: 0 <= j < |s| ==> Pending(history, s, j) && (s[j] != 0 ==> !types[j].done)) && OwnersLive(history, others) && others.Keys !! Blocks(s)
      modifies `history, `owner
      ensures HistoryOk(history, types, owner, nextBlock) && OwnersLive(history, others) && owner == old(owner) - Blocks(s)
    {
      var j := 0;
      assert Blocks(s[..0]) == {};
      while j < |s|
        invariant 0 <= j <= |s| && HistoryOk(history, types, owner, nextBlock) && OwnersLive(history, others)
        invariant owner == old(owner) - Blocks(s[..j])
        invariant forall k :: j <= k < |s| ==> Pending(history, s, k)
      {
        assert Pending(history, s, j);
        BlocksMore(s, j);
        if s[j] != 0 {
          assert s[j] in Blocks(s);
          if !types[j].done && types[j].dtor {
            DestroyHistory(history, types, owner, nextBlock, s[j], j);
            LiveKept(history, others, Destroyed(s[j], j));
            SlotsKept(history, types, s, j, Destroyed(s[j], j));
            history := history + [Destroyed(s[j], j)];
          }
          FreeHistory(history, types, owner, nextBlock, s[j], j);
          LiveKept(history, others, Freed(s[j]));
          SlotsKept(history, types, s, j, Freed(s[j]));
          history := history + [Freed(s[j])];
          owner := owner - {s[j]};
        }
        j := j + 1;
      }
      assert s[..j] == s;
    }
  }

  // ---------- runs ----------

  datatype Step = NewResource(size: nat, ctor: bool, dtor: bool) | Fetch(thread: nat, id: nat, given: bool) | Leave(thread: nat) | Drop(id: nat)

  /** One step of some thread; ids that were never given out are not used. */
  method Apply(m: Tsrm, step: Step)
    requires m.Valid()
    modifies m, m.table, m.tls.Values
    ensures m.Valid() && fresh(m.tls.Values - old(m.tls.Values))
  {
    match step
    case NewResource(size, ctor, dtor) => var id := m.AllocateId(size, ctor, dtor);
    case Fetch(thread, id, given) =>
      if id <= |m.types| {
        var r := m.ResourceEx(thread, id, given);
      }
    case Leave(thread) => m.FreeThread(thread);
    case Drop(id) =>
      if 1 <= id <= |m.types| {
        m.FreeId(id);
      }
  }

  /** Any interleaving of steps, and then a shutdown: every block had its life in order, and all are freed. */
  method Run(expectedThreads: nat, steps: seq<Step>) returns (m: Tsrm, ghost types: seq<ResourceType>)
    requires expectedThreads > 0
    ensures Legal(m.history)
    ensures forall b: nat, s: nat :: Created(b, s) in m.history ==>
              Freed(b) in m.history && s < |types| && (types[s].dtor ==> Destroyed(b, s) in m.history)
  {
    m := new Tsrm(expectedThreads);
    var i := 0;
    while i < |steps|
      invariant 0 <= i <= |steps| && m.Valid() && fresh(m) && fresh(m.table) && fresh(m.tls.Values)
    {
      Apply(m, steps[i]);
      i := i + 1;
    }
    types := m.types;
    m.Shutdown();
  }
}
