/** The pool of pending transactions: a map by ID, the set of coins they spend, and a FIFO of IDs. */
module Mempool {
  import opened Bytes

  datatype Id = Id(bytes: seq<Byte>)

  // A pending unit as the pool sees it; the ID is a function of its content.
  datatype Tx = Tx(id: Id, inputs: seq<CoinId>, content: seq<Byte>)

  // ---- what a pool is ------------------------------------------------------------------

  predicate Shares(t: Tx, coins: set<CoinId>) {
    exists c | c in t.inputs :: c in coins
  }

  function Inputs(t: Tx): set<CoinId> {
    set c | c in t.inputs
  }

  function Spent(pool: seq<Tx>): set<CoinId> {
    if pool == [] then {} else Spent(pool[..|pool| - 1]) + Inputs(pool[|pool| - 1])
  }

  // No ID twice and no coin spent twice.
  ghost predicate Coherent(pool: seq<Tx>) {
    forall i, j | 0 <= i < j < |pool| :: pool[i].id != pool[j].id && Inputs(pool[i]) !! Inputs(pool[j])
  }

  function Keep(pool: seq<Tx>, gone: set<Id>): seq<Tx> {
    if pool == [] then []
    else Keep(pool[..|pool| - 1], gone) + (if pool[|pool| - 1].id in gone then [] else [pool[|pool| - 1]])
  }

  // The pending units a block spending `coins` leaves alone, in order.
  function Survivors(pool: seq<Tx>, coins: set<CoinId>): seq<Tx> {
    if pool == [] then []
    else Survivors(pool[..|pool| - 1], coins) + (if Shares(pool[|pool| - 1], coins) then [] else [pool[|pool| - 1]])
  }

  predicate Accepts(pool: seq<Tx>, t: Tx) {
    (forall p | p in pool :: p.id != t.id) && !Shares(t, Spent(pool))
  }

  function Added(pool: seq<Tx>, t: Tx, capacity: nat): seq<Tx> {
    (if |pool| >= capacity && pool != [] then pool[1..] else pool) + [t]
  }

  // ---- properties of pools -------------------------------------------------------------

  lemma {:induction false} SpentIs(pool: seq<Tx>, c: CoinId)
    ensures c in Spent(pool) <==> exists t | t in pool :: c in t.inputs
  {
    if pool != [] {
      var m := |pool| - 1;
      SpentIs(pool[..m], c);
      assert pool == pool[..m] + [pool[m]];
    }
  }

  // Add turns away exactly the units that would repeat an ID or a coin.
  lemma AcceptsIffCoherent(pool: seq<Tx>, t: Tx)
    requires Coherent(pool)
    ensures Accepts(pool, t) <==> Coherent(pool + [t])
  {
    var all := pool + [t];
    if Accepts(pool, t) {
      forall i, j | 0 <= i < j < |all|
        ensures all[i].id != all[j].id && Inputs(all[i]) !! Inputs(all[j])
      {
        if j == |pool| {
          forall c | c in Inputs(all[i]) ensures c !in Inputs(t) {
            SpentIs(pool, c);
          }
        }
      }
    }
    if Coherent(all) {
      forall p | p in pool ensures p.id != t.id {
        var i :| 0 <= i < |pool| && pool[i] == p;
        assert all[i].id != all[|pool|].id;
      }
      forall c | c in t.inputs ensures c !in Spent(pool) {
        SpentIs(pool, c);
        forall p | p in pool ensures c !in p.inputs {
          var i :| 0 <= i < |pool| && pool[i] == p;
          assert Inputs(all[i]) !! Inputs(all[|pool|]) && c in Inputs(all[|pool|]);
        }
      }
    }
  }

  lemma {:induction false} KeepIn(pool: seq<Tx>, gone: set<Id>, t: Tx)
    ensures t in Keep(pool, gone) <==> t in pool && t.id !in gone
  {
    if pool != [] {
      KeepIn(pool[..|pool| - 1], gone, t);
      assert pool == pool[..|pool| - 1] + [pool[|pool| - 1]];
    }
  }

  lemma {:induction false} KeepCoherent(pool: seq<Tx>, gone: set<Id>)
    requires Coherent(pool)
    ensures Coherent(Keep(pool, gone)) && |Keep(pool, gone)| <= |pool|
  {
    if pool != [] {
      var init, last := pool[..|pool| - 1], pool[|pool| - 1];
      assert Coherent(init);
      KeepCoherent(init, gone);
      assert init + [last] == pool;
      if last.id !in gone {
        AcceptsIffCoherent(init, last);
        forall c | c in last.inputs ensures c !in Spent(Keep(init, gone)) {
          SpentIs(Keep(init, gone), c);
          SpentIs(init, c);
          if c in Spent(Keep(init, gone)) {
            var t :| t in Keep(init, gone) && c in t.inputs;
            KeepIn(init, gone, t);
          }
        }
        forall t | t in Keep(init, gone) ensures t.id != last.id {
          KeepIn(init, gone, t);
        }
        AcceptsIffCoherent(Keep(init, gone), last);
      }
    }
  }

  // In a coherent pool, dropping a unit frees its inputs and nothing else.
  lemma SpentWithout(pool: seq<Tx>, t: Tx)
    requires Coherent(pool) && t in pool
    ensures Spent(Keep(pool, {t.id})) == Spent(pool) - Inputs(t)
  {
    var k :| 0 <= k < |pool| && pool[k] == t;
    forall c
      ensures c in Spent(Keep(pool, {t.id})) <==> c in Spent(pool) - Inputs(t)
    {
      SpentIs(pool, c);
      SpentIs(Keep(pool, {t.id}), c);
      if c in Spent(Keep(pool, {t.id})) {
        var u :| u in Keep(pool, {t.id}) && c in u.inputs;
        KeepIn(pool, {t.id}, u);
        var i :| 0 <= i < |pool| && pool[i] == u;
        assert c in Inputs(pool[i]) && Inputs(pool[i]) !! Inputs(pool[k]);
      }
      if c in Spent(pool) - Inputs(t) {
        var u :| u in pool && c in u.inputs;
        var i :| 0 <= i < |pool| && pool[i] == u;
        assert i != k;
        KeepIn(pool, {t.id}, u);
      }
    }
  }

  lemma {:induction false} KeepTwice(pool: seq<Tx>, a: set<Id>, b: set<Id>)
    ensures Keep(Keep(pool, a), b) == Keep(pool, a + b)
  {
    if pool != [] {
      var init, last := pool[..|pool| - 1], pool[|pool| - 1];
      KeepTwice(init, a, b);
      if last.id !in a {
        assert (Keep(init, a) + [last])[..|Keep(init, a)|] == Keep(init, a);
      } else {
        assert Keep(init, a) + [] == Keep(init, a);
      }
    }
  }

  lemma {:induction false} KeepIsSurvivors(pool: seq<Tx>, coins: set<CoinId>, gone: set<Id>)
    requires forall t | t in pool :: t.id in gone <==> Shares(t, coins)
    ensures Keep(pool, gone) == Survivors(pool, coins)
  {
    if pool != [] {
      KeepIsSurvivors(pool[..|pool| - 1], coins, gone);
    }
  }

  lemma {:induction false} KeepNone(pool: seq<Tx>)
    ensures Keep(pool, {}) == pool
  {
    if pool != [] {
      KeepNone(pool[..|pool| - 1]);
    }
  }

  // Membership and order of the survivors, for any pool: they are the units sharing no input.
  lemma {:induction false} SurvivorsAre(pool: seq<Tx>, coins: set<CoinId>, t: Tx)
    ensures t in Survivors(pool, coins) <==> t in pool && Inputs(t) !! coins
  {
    if pool != [] {
      SurvivorsAre(pool[..|pool| - 1], coins, t);
      assert pool == pool[..|pool| - 1] + [pool[|pool| - 1]];
    }
  }

  // After a block none of its coins is spent in the pool, and a second look changes nothing.
  lemma BlockFreesItsCoins(pool: seq<Tx>, coins: set<CoinId>)
    ensures Spent(Survivors(pool, coins)) !! coins
  {
    forall c | c in coins ensures c !in Spent(Survivors(pool, coins)) {
      SpentIs(Survivors(pool, coins), c);
      forall t | t in Survivors(pool, coins) ensures c !in t.inputs {
        SurvivorsAre(pool, coins, t);
      }
    }
  }

  function AddAll(pool: seq<Tx>, ts: seq<Tx>, capacity: nat): seq<Tx> {
    if ts == [] then pool else Added(AddAll(pool, ts[..|ts| - 1], capacity), ts[|ts| - 1], capacity)
  }

  // However many units are accepted, the pool is the latest `capacity` of them, oldest first.
  lemma {:induction false} PoolIsLatest(pool: seq<Tx>, ts: seq<Tx>, capacity: nat)
    requires 1 <= capacity && |pool| <= capacity
    ensures var all := pool + ts;
            AddAll(pool, ts, capacity) == if |all| <= capacity then all else all[|all| - capacity..]
  {
    if ts == [] {
      assert pool + ts == pool;
    } else {
      var init, last := ts[..|ts| - 1], ts[|ts| - 1];
      PoolIsLatest(pool, init, capacity);
      assert pool + ts == (pool + init) + [last];
    }
  }

  // ---- the pool as stored --------------------------------------------------------------

  // Every ID queued is filed under itself.
  ghost predicate Filed(byID: map<Id, Tx>, order: seq<Id>) {
    forall i | 0 <= i < |order| :: order[i] in byID && byID[order[i]].id == order[i]
  }

  ghost function Listed(byID: map<Id, Tx>, order: seq<Id>): (p: seq<Tx>)
    requires Filed(byID, order)
    ensures |p| == |order| && forall i | 0 <= i < |p| :: p[i] == byID[order[i]] && p[i].id == order[i]
  {
    seq(|order|, i requires 0 <= i < |order| => byID[order[i]])
  }

  // The three collections describe one coherent pool.
  ghost predicate Consistent(byID: map<Id, Tx>, spent: set<CoinId>, order: seq<Id>) {
    Filed(byID, order) && (forall id | id in byID :: id in order)
    && Coherent(Listed(byID, order)) && spent == Spent(Listed(byID, order))
  }

  lemma FiledIsListed(byID: map<Id, Tx>, order: seq<Id>, id: Id)
    requires Filed(byID, order) && forall k | k in byID :: k in order
    ensures id in byID <==> exists t | t in Listed(byID, order) :: t.id == id
    ensures id in byID ==> byID[id] in Listed(byID, order)
  {
    if id in byID {
      var i :| 0 <= i < |order| && order[i] == id;
      assert Listed(byID, order)[i] == byID[id];
    }
  }

  lemma InsertConsistent(byID: map<Id, Tx>, spent: set<CoinId>, order: seq<Id>, t: Tx)
    requires Consistent(byID, spent, order) && Accepts(Listed(byID, order), t)
    ensures Consistent(byID[t.id := t], spent + Inputs(t), order + [t.id])
    ensures Listed(byID[t.id := t], order + [t.id]) == Listed(byID, order) + [t]
  {
    var pool := Listed(byID, order);
    AcceptsIffCoherent(pool, t);
    InsertFiled(byID, order, t);
    assert (pool + [t])[..|pool|] == pool;
  }

  lemma InsertFiled(byID: map<Id, Tx>, order: seq<Id>, t: Tx)
    requires Filed(byID, order) && (forall id | id in byID :: id in order)
    requires forall p | p in Listed(byID, order) :: p.id != t.id
    ensures var all := order + [t.id];
            Filed(byID[t.id := t], all) && (forall id | id in byID[t.id := t] :: id in all)
            && Listed(byID[t.id := t], all) == Listed(byID, order) + [t]
  {
    var all, filed := order + [t.id], byID[t.id := t];
    FiledIsListed(byID, order, t.id);
    forall i | 0 <= i < |all| ensures all[i] in filed && filed[all[i]].id == all[i] {
      if i < |order| {
        assert Listed(byID, order)[i].id != t.id;
      }
    }
    assert Listed(filed, all) == Listed(byID, order) + [t];
  }

  lemma EvictConsistent(byID: map<Id, Tx>, spent: set<CoinId>, order: seq<Id>, k: nat)
    requires Consistent(byID, spent, order) && k < |order|
    ensures var id, rest := order[k], order[..k] + order[k + 1..];
            Consistent(byID - {id}, spent - Inputs(byID[id]), rest)
            && Listed(byID - {id}, rest) == Keep(Listed(byID, order), {id})
  {
    var pool, id, rest := Listed(byID, order), order[k], order[..k] + order[k + 1..];
    SpentWithout(pool, pool[k]);
    KeepCoherent(pool, {id});
    KeepAllBut(pool, k);
    EvictFiled(byID, order, k);
    EvictListed(byID, order, byID - {id}, rest, k);
  }

  lemma EvictListed(byID: map<Id, Tx>, order: seq<Id>, left: map<Id, Tx>, rest: seq<Id>, k: nat)
    requires Filed(byID, order) && k < |order| && rest == order[..k] + order[k + 1..]
    requires Filed(left, rest) && forall id | id in left :: id in byID && left[id] == byID[id]
    ensures Listed(left, rest) == Listed(byID, order)[..k] + Listed(byID, order)[k + 1..]
  {
  }

  lemma EvictFiled(byID: map<Id, Tx>, order: seq<Id>, k: nat)
    requires Filed(byID, order) && (forall id | id in byID :: id in order)
    requires Coherent(Listed(byID, order)) && k < |order|
    ensures var rest := order[..k] + order[k + 1..];
            Filed(byID - {order[k]}, rest) && forall id | id in byID - {order[k]} :: id in rest
  {
    var pool, rest := Listed(byID, order), order[..k] + order[k + 1..];
    forall i | 0 <= i < |rest| ensures rest[i] != order[k] {
      var j := if i < k then i else i + 1;
      assert pool[j].id == rest[i] && pool[k].id == order[k];
    }
    forall id | id in byID && id != order[k] ensures id in rest {
      var j :| 0 <= j < |order| && order[j] == id;
      assert rest[if j < k then j else j - 1] == id;
    }
  }

  function Ids(ids: seq<Id>): (s: set<Id>)
    ensures forall id :: id in s <==> id in ids
  {
    if ids == [] then {} else Ids(ids[..|ids| - 1]) + {ids[|ids| - 1]}
  }

  class Pool {
    const capacity: nat
    var byID: map<Id, Tx>
    var spentInPool: set<CoinId>
    var order: seq<Id>

    // The pending units, oldest first.
    ghost function Contents(): seq<Tx>
      reads this
      requires Filed(byID, order)
    {
      Listed(byID, order)
    }

    ghost predicate Valid()
      reads this
    {
      Consistent(byID, spentInPool, order) && |order| <= capacity
    }

    constructor (capacity: nat)
      ensures Valid() && Contents() == [] && this.capacity == capacity
    {
      this.capacity := capacity;
      byID, spentInPool, order := map[], {}, [];
    }

    // With a capacity of 0 there is never an oldest unit to make room with.
    method Add(t: Tx) returns (ok: bool)
      requires Valid() && capacity >= 1
      modifies this`byID, this`spentInPool, this`order
      ensures Valid()
      ensures ok == Accepts(old(Contents()), t)
      ensures Contents() == if ok then Added(old(Contents()), t, capacity) else old(Contents())
    {
      ghost var pool := Contents();
      FiledIsListed(byID, order, t.id);
      if t.id in byID { return false; }
      for i := 0 to |t.inputs|
        invariant forall j | 0 <= j < i :: t.inputs[j] !in spentInPool
      {
        if t.inputs[i] in spentInPool { return false; }
      }
      AcceptsIffCoherent(pool, t);
      if |order| >= capacity {
        KeepAllButFirst(pool);
        Evict(order[0]);
        StillAccepts(pool, t);
      }
      Insert(t);
      return true;
    }

    method Insert(t: Tx)
      requires Valid() && |order| < capacity && Accepts(Contents(), t)
      modifies this`byID, this`spentInPool, this`order
      ensures Valid() && Contents() == old(Contents()) + [t]
    {
      InsertConsistent(byID, spentInPool, order, t);
      byID := byID[t.id := t];
      order := order + [t.id];
      spentInPool := spentInPool + Inputs(t);
    }

    method Remove(id: Id) returns (ok: bool)
      requires Valid()
      modifies this`byID, this`spentInPool, this`order
      ensures Valid()
      ensures ok == (exists t | t in old(Contents()) :: t.id == id)
      ensures Contents() == Keep(old(Contents()), {id})
    {
      FiledIsListed(byID, order, id);
      if id !in byID {
        KeepIsSame(Contents(), id);
        return false;
      }
      Evict(id);
      return true;
    }

    // The first `limit` pending units, oldest first.
    method GetPending(limit: nat) returns (result: seq<Tx>)
      requires Valid()
      ensures result == if limit <= |Contents()| then Contents()[..limit] else Contents()
    {
      result := [];
      for i := 0 to |order|
        invariant i <= limit && result == Contents()[..i]
      {
        if |result| >= limit { return; }
        if order[i] in byID {
          result := result + [byID[order[i]]];
        }
      }
    }

    // Evicts the units sharing an input with the block, visited in any order.
    method OnBlockAccepted(block: Tx)
      requires Valid()
      modifies this`byID, this`spentInPool, this`order
      ensures Valid()
      ensures Contents() == Survivors(old(Contents()), Inputs(block))
    {
      ghost var pool := Contents();
      var spentNow := block.inputs;
      var toRemove := Conflicts(spentNow);
      ghost var gone := Ids(toRemove);
      forall t | t in pool ensures t.id in gone <==> Shares(t, Inputs(block)) {
        assert t.id in byID && byID[t.id] == t;
      }
      KeepIsSurvivors(pool, Inputs(block), gone);
      EvictAll(toRemove);
    }

    // Where an ID first stands in the queue.
    method FirstAt(id: Id) returns (k: nat)
      requires id in order
      ensures k < |order| && order[k] == id && id !in order[..k]
    {
      k := 0;
      while order[k] != id
        invariant k < |order| && id !in order[..k]
        decreases |order| - k
      {
        assert id in order[k + 1..] by { assert order == order[..k] + [order[k]] + order[k + 1..]; }
        k := k + 1;
      }
    }

    method EvictAll(ids: seq<Id>)
      requires Valid()
      modifies this`byID, this`spentInPool, this`order
      ensures Valid()
      ensures Contents() == Keep(old(Contents()), Ids(ids))
    {
      ghost var pool := Contents();
      ghost var done: set<Id> := {};
      KeepNone(pool);
      for i := 0 to |ids|
        invariant Valid() && Contents() == Keep(pool, done) && done == Ids(ids[..i])
      {
        KeepTwice(pool, done, {ids[i]});
        assert ids[..i + 1][..i] == ids[..i];
        done := done + {ids[i]};
        Evict(ids[i]);
      }
      assert ids[..|ids|] == ids;
    }

    // The IDs of the pending units spending one of the coins, found in the map's own order.
    method Conflicts(coins: seq<CoinId>) returns (ids: seq<Id>)
      ensures forall id :: id in ids <==> id in byID && Shares(byID[id], set c | c in coins)
    {
      ids := [];
      var todo := byID.Keys;
      while todo != {}
        invariant todo <= byID.Keys
        invariant forall id :: id in ids <==> id in byID && id !in todo && Shares(byID[id], set c | c in coins)
        decreases |todo|
      {
        var id :| id in todo;
        todo := todo - {id};
        if exists c | c in byID[id].inputs :: c in coins {
          ids := ids + [id];
        }
      }
    }

    method Evict(id: Id)
      requires Valid()
      modifies this`byID, this`spentInPool, this`order
      ensures Valid()
      ensures Contents() == Keep(old(Contents()), {id})
    {
      ghost var pool := Contents();
      FiledIsListed(byID, order, id);
      if id !in byID {
        KeepIsSame(pool, id);
        return;
      }
      var k := FirstAt(id);
      EvictConsistent(byID, spentInPool, order, k);
      spentInPool := spentInPool - Inputs(byID[id]);
      byID := byID - {id};
      order := order[..k] + order[k + 1..];
    }
  }

  lemma {:induction false} KeepConcat(a: seq<Tx>, b: seq<Tx>, gone: set<Id>)
    ensures Keep(a + b, gone) == Keep(a, gone) + Keep(b, gone)
  {
    if b == [] {
      assert a + b == a;
    } else {
      assert (a + b)[..|a| + |b| - 1] == a + b[..|b| - 1];
      KeepConcat(a, b[..|b| - 1], gone);
    }
  }

  lemma {:induction false} KeepAbsent(pool: seq<Tx>, gone: set<Id>)
    requires forall t | t in pool :: t.id !in gone
    ensures Keep(pool, gone) == pool
  {
    if pool != [] {
      KeepAbsent(pool[..|pool| - 1], gone);
    }
  }

  lemma KeepIsSame(pool: seq<Tx>, id: Id)
    requires forall t | t in pool :: t.id != id
    ensures Keep(pool, {id}) == pool
  {
    KeepAbsent(pool, {id});
  }

  lemma KeepAllBut(pool: seq<Tx>, k: nat)
    requires Coherent(pool) && k < |pool|
    ensures Keep(pool, {pool[k].id}) == pool[..k] + pool[k + 1..]
  {
    var gone, a, b := {pool[k].id}, pool[..k], pool[k + 1..];
    assert pool == a + [pool[k]] + b;
    KeepConcat(a + [pool[k]], b, gone);
    KeepConcat(a, [pool[k]], gone);
    KeepAbsent(a, gone);
    KeepAbsent(b, gone);
    assert a + [] == a;
  }

  lemma KeepAllButFirst(pool: seq<Tx>)
    requires Coherent(pool) && pool != []
    ensures Keep(pool, {pool[0].id}) == pool[1..]
  {
    KeepAllBut(pool, 0);
  }

  lemma StillAccepts(pool: seq<Tx>, t: Tx)
    requires Accepts(pool, t) && pool != []
    ensures Accepts(pool[1..], t)
  {
    forall c | c in t.inputs ensures c !in Spent(pool[1..]) {
      SpentIs(pool, c);
      SpentIs(pool[1..], c);
    }
  }
}
