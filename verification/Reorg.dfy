/** ChainProcessor.reorg: undo one branch of the unspent-coin set, replay another. */
module Reorg {
  import opened Bytes

  type Id = seq<Byte>

  datatype Coin = Coin(id: Id, payload: seq<Byte>)

  // A block with its own hash, its superblock parent 0 and its transaction.
  datatype Block = Block(id: Digest, number: int, parent: Id, inputs: seq<Coin>, outputs: seq<Coin>)

  type Coins = map<Id, Coin>

  // Transaction::computeCoinID, kept abstract.
  type Derive = (Id, nat) -> Id

  // ---- what blocks do to the coins -----------------------------------------------------

  function Spend(u: Coins, cs: seq<Coin>): Coins
    decreases |cs|
  {
    if cs == [] then u else Spend(u - {cs[0].id}, cs[1..])
  }

  function Store(u: Coins, cs: seq<Coin>): Coins
    decreases |cs|
  {
    if cs == [] then u else Store(u[cs[0].id := cs[0]], cs[1..])
  }

  function Created(derive: Derive, b: Block, from: nat): seq<Coin>
    requires from <= |b.outputs|
    decreases |b.outputs| - from
  {
    if from == |b.outputs| then []
    else [b.outputs[from].(id := derive(b.id, from))] + Created(derive, b, from + 1)
  }

  function Apply(derive: Derive, u: Coins, b: Block): Coins {
    Store(Spend(u, b.inputs), Created(derive, b, 0))
  }

  function Undo(u: Coins, b: Block): Coins {
    Store(Spend(u, b.outputs), b.inputs)
  }

  // Branches are listed newest block first, as getAncestors returns them.
  function Replay(derive: Derive, u: Coins, branch: seq<Block>): Coins {
    if branch == [] then u else Apply(derive, Replay(derive, u, branch[1..]), branch[0])
  }

  function UndoAll(u: Coins, branch: seq<Block>): Coins
    decreases |branch|
  {
    if branch == [] then u else UndoAll(Undo(u, branch[0]), branch[1..])
  }

  ghost function Ids(cs: seq<Coin>): set<Id> {
    set i | 0 <= i < |cs| :: cs[i].id
  }

  lemma {:induction false} SpendKeys(u: Coins, cs: seq<Coin>)
    ensures Spend(u, cs) == u - Ids(cs)
  {
    if cs != [] {
      SpendKeys(u - {cs[0].id}, cs[1..]);
      IdsCons(cs);
    }
  }

  lemma IdsCons(cs: seq<Coin>)
    requires cs != []
    ensures Ids(cs) == {cs[0].id} + Ids(cs[1..])
  {
    var t := cs[1..];
    forall x | x in Ids(cs)
      ensures x in {cs[0].id} + Ids(t)
    {
      var i :| 0 <= i < |cs| && cs[i].id == x;
      assert i > 0 ==> t[i - 1].id == x;
    }
    forall x | x in Ids(t)
      ensures x in Ids(cs)
    {
      var i :| 0 <= i < |t| && t[i].id == x;
      assert cs[i + 1].id == x;
    }
  }

  // Coin i is the last of its ID: the one that stays when the list is stored.
  ghost predicate Last(cs: seq<Coin>, i: nat) {
    i < |cs| && cs[i].id !in Ids(cs[i + 1..])
  }

  lemma LaterHides(cs: seq<Coin>, i: nat, j: nat)
    requires j < |cs|
    ensures i < j && cs[i].id == cs[j].id ==> !Last(cs, i)
  {
    if i < j {
      assert cs[i + 1..][j - i - 1] == cs[j];
    }
  }

  lemma LastUnique(cs: seq<Coin>, i: nat, j: nat)
    requires Last(cs, i) && Last(cs, j) && cs[i].id == cs[j].id
    ensures i == j
  {
    LaterHides(cs, i, j);
    LaterHides(cs, j, i);
  }

  lemma {:induction false} StoreKeys(u: Coins, cs: seq<Coin>)
    ensures Store(u, cs).Keys == u.Keys + Ids(cs)
    ensures forall k :: k in Store(u, cs) && k !in Ids(cs) ==> Store(u, cs)[k] == u[k]
    ensures forall k :: k in Ids(cs) ==> exists i: nat :: Last(cs, i) && cs[i].id == k && Store(u, cs)[k] == cs[i]
    decreases |cs|
  {
    if cs != [] {
      var c, t := cs[0], cs[1..];
      StoreKeys(u[c.id := c], t);
      IdsCons(cs);
      forall k | k in Ids(cs)
        ensures exists i: nat :: Last(cs, i) && cs[i].id == k && Store(u, cs)[k] == cs[i]
      {
        if k in Ids(t) {
          var i: nat :| Last(t, i) && t[i].id == k && Store(u[c.id := c], t)[k] == t[i];
          assert cs[i + 1] == t[i] && cs[i + 2..] == t[i + 1..];
          assert Last(cs, i + 1);
        } else {
          assert Last(cs, 0) && cs[0].id == k && Store(u, cs)[k] == cs[0];
        }
      }
    }
  }

  lemma {:induction false} CreatedIds(derive: Derive, b: Block, from: nat)
    requires from <= |b.outputs|
    ensures Ids(Created(derive, b, from)) == set i | from <= i < |b.outputs| :: derive(b.id, i)
    decreases |b.outputs| - from
  {
    if from < |b.outputs| {
      CreatedIds(derive, b, from + 1);
      IdsCons(Created(derive, b, from));
      assert Created(derive, b, from)[1..] == Created(derive, b, from + 1);
    }
  }

  ghost function DerivedIds(derive: Derive, b: Block): set<Id> {
    set i | 0 <= i < |b.outputs| :: derive(b.id, i)
  }

  // ---- what one block leaves -----------------------------------------------------------

  // The block names this ID among its inputs, creates it as an output's derived ID, or writes it in one.
  predicate Spends(b: Block, k: Id) {
    exists i :: 0 <= i < |b.inputs| && b.inputs[i].id == k
  }

  predicate Creates(derive: Derive, b: Block, k: Id) {
    exists i :: 0 <= i < |b.outputs| && derive(b.id, i) == k
  }

  predicate Writes(b: Block, k: Id) {
    exists i :: 0 <= i < |b.outputs| && b.outputs[i].id == k
  }

  // Output i is the last to be stored under its derived ID.
  predicate CreatesLast(derive: Derive, b: Block, i: nat) {
    i < |b.outputs| && forall j :: i < j < |b.outputs| ==> derive(b.id, j) != derive(b.id, i)
  }

  // After the block: the coins it creates, and of those before it the ones it does not spend.
  ghost predicate Applied(derive: Derive, before: Coins, after: Coins, b: Block) {
    && (forall k :: k in after <==> Creates(derive, b, k) || (k in before && !Spends(b, k)))
    && (forall k :: k in after && !Creates(derive, b, k) ==> after[k] == before[k])
    && (forall i: nat :: CreatesLast(derive, b, i) ==>
          Creates(derive, b, derive(b.id, i)) && after[derive(b.id, i)] == b.outputs[i].(id := derive(b.id, i)))
  }

  // After undoing it: the coins its inputs write, and of those before the ones its outputs do not name.
  ghost predicate Undone(before: Coins, after: Coins, b: Block) {
    && (forall k :: k in after <==> Spends(b, k) || (k in before && !Writes(b, k)))
    && (forall k :: k in after && !Spends(b, k) ==> after[k] == before[k])
    && (forall i: nat :: Last(b.inputs, i) ==> Spends(b, b.inputs[i].id) && after[b.inputs[i].id] == b.inputs[i])
  }

  lemma {:induction false} CreatedAt(derive: Derive, b: Block, from: nat)
    requires from <= |b.outputs|
    ensures |Created(derive, b, from)| == |b.outputs| - from
    ensures forall i :: from <= i < |b.outputs| ==> Created(derive, b, from)[i - from] == b.outputs[i].(id := derive(b.id, i))
    decreases |b.outputs| - from
  {
    if from < |b.outputs| {
      CreatedAt(derive, b, from + 1);
    }
  }

  lemma CreatedLast(derive: Derive, b: Block, i: nat)
    requires CreatesLast(derive, b, i)
    ensures Last(Created(derive, b, 0), i) && Created(derive, b, 0)[i] == b.outputs[i].(id := derive(b.id, i))
  {
    CreatedAt(derive, b, 0);
    var rest := Created(derive, b, 0)[i + 1..];
    forall j | 0 <= j < |rest|
      ensures rest[j].id != derive(b.id, i)
    {
      assert rest[j].id == b.outputs[i + 1 + j].(id := derive(b.id, i + 1 + j)).id;
    }
  }

  // Storing keeps the last coin of each ID.
  lemma StoreLast(u: Coins, cs: seq<Coin>, i: nat)
    requires Last(cs, i)
    ensures cs[i].id in Store(u, cs) && Store(u, cs)[cs[i].id] == cs[i]
  {
    StoreKeys(u, cs);
    var j: nat :| Last(cs, j) && cs[j].id == cs[i].id && Store(u, cs)[cs[i].id] == cs[j];
    LastUnique(cs, i, j);
  }

  // Applying a block does that, for every set and block: spent IDs are gone unless created anew.
  lemma ApplyIsApplied(derive: Derive, u: Coins, b: Block)
    ensures Applied(derive, u, Apply(derive, u, b), b)
  {
    var spent, created, after := Spend(u, b.inputs), Created(derive, b, 0), Apply(derive, u, b);
    SpendKeys(u, b.inputs);
    CreatedIds(derive, b, 0);
    StoreKeys(spent, created);
    forall i: nat | CreatesLast(derive, b, i)
      ensures Creates(derive, b, derive(b.id, i)) && derive(b.id, i) in after
              && after[derive(b.id, i)] == b.outputs[i].(id := derive(b.id, i))
    {
      CreatedLast(derive, b, i);
      StoreLast(spent, created, i);
    }
  }

  lemma UndoIsUndone(u: Coins, b: Block)
    ensures Undone(u, Undo(u, b), b)
  {
    SpendKeys(u, b.outputs);
    StoreKeys(Spend(u, b.outputs), b.inputs);
    forall i: nat | Last(b.inputs, i)
      ensures Spends(b, b.inputs[i].id) && b.inputs[i].id in Undo(u, b) && Undo(u, b)[b.inputs[i].id] == b.inputs[i]
    {
      StoreLast(Spend(u, b.outputs), b.inputs, i);
    }
  }

  predicate Touches(derive: Derive, b: Block, k: Id) {
    Spends(b, k) || Creates(derive, b, k)
  }

  // Over a branch, listed newest first: an ID no block touches is as before, and any other is as the
  // newest block that touches it leaves it, absent if that block spends it without creating it anew.
  lemma {:induction false} ReplayedAt(derive: Derive, u: Coins, branch: seq<Block>, m: nat, k: Id)
    requires m <= |branch| && forall j :: 0 <= j < m ==> !Touches(derive, branch[j], k)
    requires m < |branch| ==> Touches(derive, branch[m], k)
    ensures k in Replay(derive, u, branch) <==> if m < |branch| then Creates(derive, branch[m], k) else k in u
    ensures m == |branch| && k in u ==> Replay(derive, u, branch)[k] == u[k]
    ensures forall i: nat :: m < |branch| && CreatesLast(derive, branch[m], i) && derive(branch[m].id, i) == k ==>
              Replay(derive, u, branch)[k] == branch[m].outputs[i].(id := k)
    decreases |branch|
  {
    if branch != [] {
      ApplyIsApplied(derive, Replay(derive, u, branch[1..]), branch[0]);
      if m > 0 {
        ReplayedAt(derive, u, branch[1..], m - 1, k);
      }
    }
  }

  // A coin spent by a block and created by neither that block nor a later one is not unspent.
  lemma SpentIsGone(derive: Derive, u: Coins, branch: seq<Block>, m: nat, k: Id)
    requires m < |branch| && Spends(branch[m], k) && forall j :: 0 <= j <= m ==> !Creates(derive, branch[j], k)
    ensures k !in Replay(derive, u, branch)
  {
    var n := 0;
    while !Touches(derive, branch[n], k)
      invariant n <= m && forall j :: 0 <= j < n ==> !Touches(derive, branch[j], k)
      decreases m - n
    {
      n := n + 1;
    }
    ReplayedAt(derive, u, branch, n, k);
  }

  // ---- undoing -------------------------------------------------------------------------

  // Storing the list would change nothing.
  ghost predicate Restores(u: Coins, cs: seq<Coin>) {
    forall i: nat :: Last(cs, i) ==> cs[i].id in u && u[cs[i].id] == cs[i]
  }

  lemma RestoresIds(u: Coins, cs: seq<Coin>)
    requires Restores(u, cs)
    ensures Ids(cs) <= u.Keys
  {
    StoreKeys(u, cs);
  }

  // Undoing removes outputs by the IDs written in the block, while applying stored them under derived
  // IDs; and it puts back the inputs as the block writes them. The block gives every coin back when
  // its inputs are the unspent coins of their IDs, its outputs name no unspent coin it does not spend,
  // and they name every coin it creates, unless that very coin was unspent before.
  ghost predicate Undoable(derive: Derive, u: Coins, b: Block) {
    && Restores(u, b.inputs)
    && Ids(b.outputs) !! (u.Keys - Ids(b.inputs))
    && var created := Created(derive, b, 0);
       forall i: nat :: Last(created, i) && created[i].id !in Ids(b.inputs) ==>
         created[i].id in Ids(b.outputs) || (created[i].id in u && u[created[i].id] == created[i])
  }

  // What an ID holds after a block is applied and undone.
  lemma UndoneAt(derive: Derive, u: Coins, b: Block, k: Id)
    ensures var (undone, created) := (Undo(Apply(derive, u, b), b), Created(derive, b, 0));
            if k in Ids(b.inputs) then
              exists i: nat :: Last(b.inputs, i) && b.inputs[i].id == k && k in undone && undone[k] == b.inputs[i]
            else if k in Ids(b.outputs) then k !in undone
            else if k in Ids(created) then
              exists i: nat :: Last(created, i) && created[i].id == k && k in undone && undone[k] == created[i]
            else (k in undone <==> k in u) && (k in u ==> undone[k] == u[k])
  {
    var spent, created, applied := Spend(u, b.inputs), Created(derive, b, 0), Apply(derive, u, b);
    SpendKeys(u, b.inputs);
    StoreKeys(spent, created);
    SpendKeys(applied, b.outputs);
    StoreKeys(Spend(applied, b.outputs), b.inputs);
  }

  // Undoing a block cancels applying it exactly when the block gives every coin back.
  lemma UndoCancelsApply(derive: Derive, u: Coins, b: Block)
    ensures Undo(Apply(derive, u, b), b) == u <==> Undoable(derive, u, b)
  {
    if Undoable(derive, u, b) {
      UndoableIsUndone(derive, u, b);
    }
    if Undo(Apply(derive, u, b), b) == u {
      UndoneIsUndoable(derive, u, b);
    }
  }

  lemma UndoableIsUndone(derive: Derive, u: Coins, b: Block)
    requires Undoable(derive, u, b)
    ensures Undo(Apply(derive, u, b), b) == u
  {
    var undone := Undo(Apply(derive, u, b), b);
    forall k: Id
      ensures (k in undone <==> k in u) && (k in u ==> undone[k] == u[k])
    {
      UndoneAt(derive, u, b, k);
    }
    assert undone.Keys == u.Keys;
  }

  lemma UndoneIsUndoable(derive: Derive, u: Coins, b: Block)
    requires Undo(Apply(derive, u, b), b) == u
    ensures Undoable(derive, u, b)
  {
    var ins, created := b.inputs, Created(derive, b, 0);
    forall i: nat | Last(ins, i)
      ensures ins[i].id in u && u[ins[i].id] == ins[i]
    {
      UndoneAt(derive, u, b, ins[i].id);
      var j: nat :| Last(ins, j) && ins[j].id == ins[i].id && u[ins[i].id] == ins[j];
      LastUnique(ins, i, j);
    }
    forall k | k in Ids(b.outputs) && k !in Ids(ins)
      ensures k !in u
    {
      UndoneAt(derive, u, b, k);
    }
    forall i: nat | Last(created, i) && created[i].id !in Ids(ins) && created[i].id !in Ids(b.outputs)
      ensures created[i].id in u && u[created[i].id] == created[i]
    {
      UndoneAt(derive, u, b, created[i].id);
      var j: nat :| Last(created, j) && created[j].id == created[i].id && u[created[i].id] == created[j];
      LastUnique(created, i, j);
    }
  }

  // Where the derived IDs are new, the written IDs have to cover them.
  lemma NewCoinsAreWritten(derive: Derive, u: Coins, b: Block)
    requires DerivedIds(derive, b) !! u.Keys
    ensures Undoable(derive, u, b)
       <==> Restores(u, b.inputs) && DerivedIds(derive, b) <= Ids(b.outputs) && Ids(b.outputs) !! (u.Keys - Ids(b.inputs))
  {
    var created := Created(derive, b, 0);
    CreatedIds(derive, b, 0);
    assert Ids(created) == DerivedIds(derive, b);
    StoreKeys(u, created);
    if Restores(u, b.inputs) {
      RestoresIds(u, b.inputs);
    }
  }

  ghost predicate UndoableBranch(derive: Derive, u: Coins, branch: seq<Block>) {
    branch != [] ==>
      && UndoableBranch(derive, u, branch[1..])
      && Undoable(derive, Replay(derive, u, branch[1..]), branch[0])
  }

  // Blocks that spend unspent coins and whose outputs all carry their derived IDs meet it.
  lemma DerivedOutputsUndoable(derive: Derive, u: Coins, b: Block)
    requires Restores(u, b.inputs)
    requires forall i :: 0 <= i < |b.outputs| ==> b.outputs[i].id == derive(b.id, i) && b.outputs[i].id !in u
    ensures Undoable(derive, u, b)
  {
    assert DerivedIds(derive, b) == Ids(b.outputs);
    NewCoinsAreWritten(derive, u, b);
  }

  // A validated block need not: validation lets an output carry an empty ID, and then undoing the
  // block leaves the coin stored under the derived ID behind.
  lemma FloatingOutputIsLeftBehind(derive: Derive, id: Digest, payload: seq<Byte>)
    requires derive(id, 0) != []
    ensures var b := Block(id, 1, [], [], [Coin([], payload)]);
            Restores(map[], b.inputs)
            && Undo(Apply(derive, map[], b), b) == map[derive(id, 0) := Coin(derive(id, 0), payload)]
  {
    var b := Block(id, 1, [], [], [Coin([], payload)]);
    var coin := Coin(derive(id, 0), payload);
    assert Created(derive, b, 0) == [coin] by { assert Created(derive, b, 1) == []; }
    assert Apply(derive, map[], b) == Store(map[], [coin]);
    assert [coin][1..] == [] && b.outputs[1..] == [];
    var u: Coins := map[coin.id := coin];
    assert Store(map[], [coin]) == u;
    assert Spend(u, b.outputs) == u - {[]} == u;
  }

  // Nor need its inputs be the unspent coins: validation looks coins up by ID alone, and undoing the
  // block stores the coin that the block wrote.
  lemma AlteredInputIsKept(derive: Derive, id: Digest, x: Id, was: seq<Byte>, written: seq<Byte>)
    ensures var b := Block(id, 1, [], [Coin(x, written)], []);
            DerivedIds(derive, b) == Ids(b.outputs) == {}
            && Undo(Apply(derive, map[x := Coin(x, was)], b), b) == map[x := Coin(x, written)]
  {
    var b := Block(id, 1, [], [Coin(x, written)], []);
    var u: Coins := map[x := Coin(x, was)];
    assert b.inputs[1..] == [];
    assert Apply(derive, u, b) == Spend(u, b.inputs) == map[];
    assert Undo(map[], b) == Store(map[], b.inputs);
  }

  lemma {:induction false} UndoAllCancelsReplay(derive: Derive, u: Coins, branch: seq<Block>)
    requires UndoableBranch(derive, u, branch)
    ensures UndoAll(Replay(derive, u, branch), branch) == u
  {
    if branch != [] {
      UndoCancelsApply(derive, Replay(derive, u, branch[1..]), branch[0]);
      UndoAllCancelsReplay(derive, u, branch[1..]);
    }
  }

  // Undoing the newest k blocks leaves the replay of the others.
  predicate UndoesTo(derive: Derive, u: Coins, branch: seq<Block>, k: nat)
    requires k <= |branch|
  {
    UndoAll(Replay(derive, u, branch), branch[..k]) == Replay(derive, u, branch[k..])
  }

  lemma UndoesToAbove(derive: Derive, u: Coins, branch: seq<Block>, k: nat)
    requires k < |branch|
    ensures UndoesTo(derive, u, branch, k + 1)
       <==> UndoAll(Undo(Replay(derive, u, branch), branch[0]), branch[1..][..k]) == Replay(derive, u, branch[1..][k..])
  {
    assert branch[..k + 1][0] == branch[0] && branch[..k + 1][1..] == branch[1..][..k] && branch[k + 1..] == branch[1..][k..];
  }

  // A branch can be undone down to each of its blocks exactly when each block gives every coin back.
  lemma {:induction false} UndoableIffUndoesToEach(derive: Derive, u: Coins, branch: seq<Block>)
    ensures UndoableBranch(derive, u, branch) <==> forall k: nat | k <= |branch| :: UndoesTo(derive, u, branch, k)
  {
    assert branch[..0] == [] && branch[0..] == branch;
    if branch != [] {
      var rest := branch[1..];
      UndoCancelsApply(derive, Replay(derive, u, rest), branch[0]);
      UndoableIffUndoesToEach(derive, u, rest);
      UndoesToAbove(derive, u, branch, 0);
      assert rest[..0] == [] && rest[0..] == rest;
      assert UndoesTo(derive, u, branch, 1) <==> Undoable(derive, Replay(derive, u, rest), branch[0]);
      if Undoable(derive, Replay(derive, u, rest), branch[0]) {
        forall k: nat | k <= |rest|
          ensures UndoesTo(derive, u, branch, k + 1) <==> UndoesTo(derive, u, rest, k)
        {
          UndoesToAbove(derive, u, branch, k);
        }
        UndoesToEachRest(derive, u, branch);
      }
    }
  }

  lemma UndoesToEachRest(derive: Derive, u: Coins, branch: seq<Block>)
    requires branch != [] && UndoesTo(derive, u, branch, 0)
    requires forall k: nat | k <= |branch[1..]| :: UndoesTo(derive, u, branch, k + 1) <==> UndoesTo(derive, u, branch[1..], k)
    ensures (forall k: nat | k <= |branch| :: UndoesTo(derive, u, branch, k))
       <==> (forall k: nat | k <= |branch[1..]| :: UndoesTo(derive, u, branch[1..], k))
  {
    if forall k: nat | k <= |branch| :: UndoesTo(derive, u, branch, k) {
      forall k: nat | k <= |branch[1..]|
        ensures UndoesTo(derive, u, branch[1..], k)
      {
        assert UndoesTo(derive, u, branch, k + 1);
      }
    }
    if forall k: nat | k <= |branch[1..]| :: UndoesTo(derive, u, branch[1..], k) {
      forall k: nat | 0 < k <= |branch|
        ensures UndoesTo(derive, u, branch, k)
      {
        assert UndoesTo(derive, u, branch[1..], k - 1);
        assert k == k - 1 + 1;
      }
    }
  }

  // ---- ancestors and the common ancestor -----------------------------------------------

  type Blocks = map<Id, Block>

  datatype Walk = Walk(complete: bool, chain: seq<Block>)

  function Ancestors(store: Blocks, id: Id, count: nat): Walk
    decreases count
  {
    if count == 0 then Walk(true, [])
    else if id !in store then Walk(false, [])
    else if store[id].number == 0 then Walk(true, [store[id]])
    else
      var rest := Ancestors(store, store[id].parent, count - 1);
      Walk(rest.complete, [store[id]] + rest.chain)
  }

  predicate Contains(chain: seq<Block>, id: Id) {
    exists k :: 0 <= k < |chain| && chain[k].id == id
  }

  // The first block of a chain that also stands in the other, or the whole length.
  function FirstCommon(chain: seq<Block>, other: seq<Block>): (i: nat)
    ensures i <= |chain|
    ensures forall k :: 0 <= k < i ==> !Contains(other, chain[k].id)
    ensures i < |chain| ==> Contains(other, chain[i].id)
  {
    if chain == [] || Contains(other, chain[0].id) then 0
    else
      var i := FirstCommon(chain[1..], other);
      assert forall k :: 0 < k < i + 1 ==> chain[k] == chain[1..][k - 1];
      i + 1
  }

  // Where the oldest block with this ID stands: replay starts just above it.
  function OldestIndex(chain: seq<Block>, id: Id): (k: nat)
    requires Contains(chain, id)
    ensures k < |chain| && chain[k].id == id
    ensures forall j :: k < j < |chain| ==> chain[j].id != id
  {
    var n := |chain| - 1;
    if chain[n].id == id then n
    else
      assert Contains(chain[..n], id) by {
        var k :| 0 <= k < |chain| && chain[k].id == id;
        assert chain[..n][k].id == id;
      }
      OldestIndex(chain[..n], id)
  }

  function Reorganised(derive: Derive, u: Coins, mainChain: seq<Block>, forkChain: seq<Block>): Coins {
    var i := FirstCommon(mainChain, forkChain);
    var base := UndoAll(u, mainChain[..i]);
    if i == |mainChain| then Replay(derive, base, forkChain)
    else Replay(derive, base, forkChain[..OldestIndex(forkChain, mainChain[i].id)])
  }

  // Blocks are stored under their own hash, and their parents precede them in some order: no block is
  // its own ancestor. A block names its parents' hashes in the header that it is the hash of.
  ghost predicate WellLinked(store: Blocks, rank: Id -> int) {
    && (forall id :: id in store ==> store[id].id == id)
    && (forall id :: id in store && store[id].number != 0 && store[id].parent in store ==>
          rank(store[id].parent) < rank(id))
  }

  // Numbers that grow from parent to child, which nothing checks, are such an order.
  lemma NumbersAreRanks(store: Blocks)
    requires forall id :: id in store ==> store[id].id == id
    requires forall id :: id in store && store[id].number != 0 && store[id].parent in store ==>
               store[store[id].parent].number < store[id].number
    ensures WellLinked(store, id => if id in store then store[id].number else 0)
  {
  }

  ghost predicate Falling(chain: seq<Block>, rank: Id -> int) {
    forall j, k :: 0 <= j < k < |chain| ==> rank(chain[k].id) < rank(chain[j].id)
  }

  ghost predicate DrawnFrom(store: Blocks, chain: seq<Block>) {
    forall k :: 0 <= k < |chain| ==> chain[k].id in store && chain[k] == store[chain[k].id]
  }

  lemma {:induction false} AncestorsChain(store: Blocks, rank: Id -> int, id: Id, count: nat)
    requires WellLinked(store, rank)
    ensures var c := Ancestors(store, id, count).chain;
            Falling(c, rank) && DrawnFrom(store, c) && (c != [] ==> id in store && c[0] == store[id])
    decreases count
  {
    if count > 0 && id in store && store[id].number != 0 {
      AncestorsChain(store, rank, store[id].parent, count - 1);
      var rest := Ancestors(store, store[id].parent, count - 1).chain;
      var c := Ancestors(store, id, count).chain;
      assert forall k :: 0 < k < |c| ==> c[k] == rest[k - 1];
    }
  }

  // The next block of a walk is the parent of the one before, which is not a genesis.
  predicate Next(b: Block, parent: Block) {
    b.number != 0 && parent.id == b.parent
  }

  // The walk goes from parent to parent and ends at a genesis, at the count, or, incomplete, at a parent that
  // is not stored.
  lemma {:induction false} AncestorsLinked(store: Blocks, id: Id, count: nat)
    requires forall x :: x in store ==> store[x].id == x
    ensures var c := Ancestors(store, id, count).chain;
            |c| <= count && (forall k :: 0 <= k < |c| - 1 ==> Next(c[k], c[k + 1])) && (c != [] ==> c[0].id == id)
    ensures var w := Ancestors(store, id, count);
            var c := w.chain;
            if w.complete then |c| == count || (c != [] && c[|c| - 1].number == 0)
            else |c| < count && (c != [] ==> c[|c| - 1].number != 0) && (if c == [] then id else c[|c| - 1].parent) !in store
    decreases count
  {
    if count > 0 && id in store && store[id].number != 0 {
      AncestorsLinked(store, store[id].parent, count - 1);
      var c, rest := Ancestors(store, id, count).chain, Ancestors(store, store[id].parent, count - 1).chain;
      assert c == [store[id]] + rest;
    }
  }

  // The first shared block seen from either end is the same block.
  lemma CommonIsMutual(store: Blocks, rank: Id -> int, x: seq<Block>, y: seq<Block>)
    requires DrawnFrom(store, x) && DrawnFrom(store, y) && Falling(x, rank) && Falling(y, rank)
    requires FirstCommon(x, y) < |x|
    ensures FirstCommon(y, x) < |y| && x[FirstCommon(x, y)] == y[FirstCommon(y, x)]
    ensures OldestIndex(y, x[FirstCommon(x, y)].id) == FirstCommon(y, x)
  {
    var i, j := FirstCommon(x, y), FirstCommon(y, x);
    var k := OldestIndex(y, x[i].id);
    assert Contains(x, y[k].id);
    assert j <= k;
    var l :| 0 <= l < |x| && x[l].id == y[j].id;
    assert Contains(y, x[l].id);
    assert i <= l;
    assert x[l] == y[j] && x[i] == y[k];
    assert j == k;
  }

  // Both walks reach one block below their branches, or neither meets the other.
  predicate SharedFrom(x: seq<Block>, y: seq<Block>) {
    var (i, j) := (FirstCommon(x, y), FirstCommon(y, x));
    (i < |x| <==> j < |y|) && (i < |x| ==> x[i] == y[j] && OldestIndex(y, x[i].id) == j)
  }

  lemma WalksShare(store: Blocks, rank: Id -> int, tip: Id, other: Id, depth: nat)
    requires WellLinked(store, rank)
    ensures SharedFrom(Ancestors(store, tip, depth).chain, Ancestors(store, other, depth).chain)
  {
    var (x, y) := (Ancestors(store, tip, depth).chain, Ancestors(store, other, depth).chain);
    AncestorsChain(store, rank, tip, depth);
    AncestorsChain(store, rank, other, depth);
    if FirstCommon(x, y) < |x| {
      CommonIsMutual(store, rank, x, y);
    } else if FirstCommon(y, x) < |y| {
      CommonIsMutual(store, rank, y, x);
    }
  }

  lemma BranchSwap(derive: Derive, base: Coins, x: seq<Block>, y: seq<Block>)
    requires SharedFrom(x, y) && UndoableBranch(derive, base, x[..FirstCommon(x, y)])
    ensures Reorganised(derive, Replay(derive, base, x[..FirstCommon(x, y)]), x, y)
         == Replay(derive, base, y[..FirstCommon(y, x)])
  {
    UndoAllCancelsReplay(derive, base, x[..FirstCommon(x, y)]);
    assert y[..|y|] == y;
  }

  // Main result: from the replay of what the main walk has above the fork walk, reorg reaches the replay
  // of what the fork walk has above the main walk, and reorg back restores the original set.
  lemma ReorgReplaysFork(derive: Derive, store: Blocks, rank: Id -> int, mainTip: Id, forkTip: Id, depth: nat, base: Coins)
    requires WellLinked(store, rank)
    requires var (x, y) := (Ancestors(store, mainTip, depth).chain, Ancestors(store, forkTip, depth).chain);
             && UndoableBranch(derive, base, x[..FirstCommon(x, y)])
             && UndoableBranch(derive, base, y[..FirstCommon(y, x)])
    ensures var (x, y) := (Ancestors(store, mainTip, depth).chain, Ancestors(store, forkTip, depth).chain);
            var onMain := Replay(derive, base, x[..FirstCommon(x, y)]);
            var onFork := Replay(derive, base, y[..FirstCommon(y, x)]);
            && SharedFrom(x, y)
            && Reorganised(derive, onMain, x, y) == onFork
            && Reorganised(derive, onFork, y, x) == onMain
  {
    var (x, y) := (Ancestors(store, mainTip, depth).chain, Ancestors(store, forkTip, depth).chain);
    WalksShare(store, rank, mainTip, forkTip, depth);
    WalksShare(store, rank, forkTip, mainTip, depth);
    BranchSwap(derive, base, x, y);
    BranchSwap(derive, base, y, x);
  }

  // ---- the depth of a reorganisation ---------------------------------------------------

  function Min(a: nat, b: nat): nat {
    if a < b then a else b
  }

  // A shorter walk is the start of a longer one.
  lemma {:induction false} AncestorsPrefix(store: Blocks, id: Id, depth: nat, full: nat)
    requires depth <= full
    ensures var c := Ancestors(store, id, full).chain; Ancestors(store, id, depth).chain == c[..Min(depth, |c|)]
    decreases depth
  {
    if depth > 0 && id in store && store[id].number != 0 {
      AncestorsPrefix(store, store[id].parent, depth - 1, full - 1);
    }
  }

  // Both full chains come to their first common block before the depth runs out.
  predicate WithinDepth(x: seq<Block>, y: seq<Block>, depth: nat) {
    FirstCommon(x, y) < Min(depth, |x|) && FirstCommon(y, x) < Min(depth, |y|)
  }

  lemma FirstCommonIs(x: seq<Block>, y: seq<Block>, i: nat)
    requires i <= |x| && (forall k :: 0 <= k < i ==> !Contains(y, x[k].id)) && (i < |x| ==> Contains(y, x[i].id))
    ensures FirstCommon(x, y) == i
  {
  }

  // One block for each ID in both chains.
  predicate SameBlocks(x: seq<Block>, y: seq<Block>) {
    forall k, l :: 0 <= k < |x| && 0 <= l < |y| && x[k].id == y[l].id ==> x[k] == y[l]
  }

  function Cut(x: seq<Block>, depth: nat): (c: seq<Block>)
    ensures |c| == Min(depth, |x|)
  {
    x[..Min(depth, |x|)]
  }

  // Cut to the depth, the chains meet where they did, or not at all.
  lemma CommonOfCut(x: seq<Block>, y: seq<Block>, depth: nat)
    requires SharedFrom(x, y) && SharedFrom(y, x) && SameBlocks(x, y)
    ensures FirstCommon(Cut(x, depth), Cut(y, depth)) == UndoneCount(x, y, depth)
    ensures Cut(x, depth)[..UndoneCount(x, y, depth)] == x[..UndoneCount(x, y, depth)]
  {
    var (a, b) := (Cut(x, depth), Cut(y, depth));
    var (i, j) := (FirstCommon(x, y), FirstCommon(y, x));
    forall k, l | 0 <= k < |a| && 0 <= l < |b| && a[k].id == b[l].id
      ensures i <= k && j <= l
    {
      assert Contains(y, x[k].id) && Contains(x, y[l].id);
    }
    if WithinDepth(x, y, depth) {
      assert b[j].id == a[i].id;
      FirstCommonIs(a, b, i);
    } else {
      FirstCommonIs(a, b, |a|);
    }
  }

  // How many blocks of the main chain are undone.
  function UndoneCount(x: seq<Block>, y: seq<Block>, depth: nat): (n: nat)
    ensures n <= Min(depth, |x|)
  {
    if WithinDepth(x, y, depth) then FirstCommon(x, y) else Min(depth, |x|)
  }

  lemma ReorgOfCut(derive: Derive, base: Coins, x: seq<Block>, y: seq<Block>, depth: nat)
    requires SharedFrom(x, y) && SharedFrom(y, x) && SameBlocks(x, y) && SharedFrom(Cut(x, depth), Cut(y, depth))
    requires UndoableBranch(derive, Replay(derive, base, x[UndoneCount(x, y, depth)..]), x[..UndoneCount(x, y, depth)])
    ensures Reorganised(derive, Replay(derive, base, x), Cut(x, depth), Cut(y, depth))
         == Replay(derive, Replay(derive, base, x[UndoneCount(x, y, depth)..]), y[..UndoneCount(y, x, depth)])
  {
    CommonOfCut(x, y, depth);
    CommonOfCut(y, x, depth);
    ReplayConcat(derive, base, x, UndoneCount(x, y, depth));
    BranchSwap(derive, Replay(derive, base, x[UndoneCount(x, y, depth)..]), Cut(x, depth), Cut(y, depth));
  }

  lemma WalksFit(store: Blocks, rank: Id -> int, tip: Id, other: Id, depth: nat)
    requires WellLinked(store, rank)
    ensures var (x, y) := (Ancestors(store, tip, depth).chain, Ancestors(store, other, depth).chain);
            SharedFrom(x, y) && SharedFrom(y, x) && SameBlocks(x, y)
  {
    AncestorsChain(store, rank, tip, depth);
    AncestorsChain(store, rank, other, depth);
    WalksShare(store, rank, tip, other, depth);
    WalksShare(store, rank, other, tip, depth);
  }

  // Main result, over the full chains: with their common block within the depth, reorg replays the fork's
  // branch over the coins there. Otherwise it undoes the main chain's last blocks up to the depth, whether
  // the fork shares them or not, and replays over what is left no more of the fork than its last blocks.
  lemma ReorgWithinDepth(derive: Derive, store: Blocks, rank: Id -> int, mainTip: Id, forkTip: Id, depth: nat, full: nat,
                         base: Coins)
    requires WellLinked(store, rank) && depth <= full
    requires var (x, y) := (Ancestors(store, mainTip, full).chain, Ancestors(store, forkTip, full).chain);
             UndoableBranch(derive, Replay(derive, base, x[UndoneCount(x, y, depth)..]), x[..UndoneCount(x, y, depth)])
    ensures var (x, y) := (Ancestors(store, mainTip, full).chain, Ancestors(store, forkTip, full).chain);
            var (a, b) := (Ancestors(store, mainTip, depth).chain, Ancestors(store, forkTip, depth).chain);
            var (k, l) := (if WithinDepth(x, y, depth) then (FirstCommon(x, y), FirstCommon(y, x)) else (|a|, |b|));
            && |a| == Min(depth, |x|) && |b| == Min(depth, |y|)
            && Reorganised(derive, Replay(derive, base, x), a, b) == Replay(derive, Replay(derive, base, x[k..]), y[..l])
  {
    var (x, y) := (Ancestors(store, mainTip, full).chain, Ancestors(store, forkTip, full).chain);
    AncestorsPrefix(store, mainTip, depth, full);
    AncestorsPrefix(store, forkTip, depth, full);
    WalksFit(store, rank, mainTip, forkTip, full);
    WalksShare(store, rank, mainTip, forkTip, depth);
    ReorgOfCut(derive, base, x, y, depth);
  }

  lemma {:induction false} ReplayConcat(derive: Derive, u: Coins, branch: seq<Block>, k: nat)
    requires k <= |branch|
    ensures Replay(derive, u, branch) == Replay(derive, Replay(derive, u, branch[k..]), branch[..k])
  {
    if k == 0 {
      assert branch[0..] == branch && branch[..0] == [];
    } else {
      ReplayConcat(derive, u, branch[1..], k - 1);
      assert branch[1..][k - 1..] == branch[k..] && branch[..k][1..] == branch[1..][..k - 1];
    }
  }

  // With depth 1, a fork of two blocks over genesis loses the coin that the first of them creates.
  lemma ShallowReorgLosesCoin(derive: Derive, g: Block, m: Block, f: Block, h: Block, coin: Coin)
    requires g.number == 0 && m.number == 1 && f.number == 1 && h.number == 2
    requires m.parent == f.parent == g.id && h.parent == f.id && |{g.id, m.id, f.id, h.id}| == 4
    requires g.inputs == m.inputs == f.inputs == h.inputs == g.outputs == m.outputs == h.outputs == []
    requires f.outputs == [coin]
    ensures var store := map[g.id := g, m.id := m, f.id := f, h.id := h];
            && Ancestors(store, m.id, 1) == Walk(true, [m]) && Ancestors(store, h.id, 1) == Walk(true, [h])
            && Ancestors(store, h.id, 3) == Walk(true, [h, f, g])
            && Replay(derive, map[], [m, g]) == map[] && Reorganised(derive, map[], [m], [h]) == map[]
            && derive(f.id, 0) in Replay(derive, map[], [h, f, g])
  {
    var store := map[g.id := g, m.id := m, f.id := f, h.id := h];
    FourIds(g.id, m.id, f.id, h.id);
    assert Ancestors(store, g.id, 1) == Walk(true, [g]);
    assert Ancestors(store, f.id, 2) == Walk(true, [f, g]);
    BlocksWithoutCoins(derive, [m, g]);
    BlocksWithoutCoins(derive, [m]);
    BlocksWithoutCoins(derive, [h]);
    assert FirstCommon([m], [h]) == 1 by {
      FirstCommonIs([m], [h], 1);
    }
    assert [m][..1] == [m];
    BlocksWithoutCoins(derive, [g]);
    assert [f, g][1..] == [g] && [h, f, g][1..] == [f, g];
    CreatedIds(derive, f, 0);
    assert derive(f.id, 0) in DerivedIds(derive, f);
    StoreKeys(Spend(map[], f.inputs), Created(derive, f, 0));
    assert derive(f.id, 0) in Replay(derive, map[], [f, g]);
    NoCoins(derive, Replay(derive, map[], [f, g]), h);
  }

  lemma FourIds(a: Id, b: Id, c: Id, d: Id)
    requires |{a, b, c, d}| == 4
    ensures a != b && a != c && a != d && b != c && b != d && c != d
  {
  }

  lemma NoCoins(derive: Derive, u: Coins, b: Block)
    requires b.inputs == b.outputs == []
    ensures Apply(derive, u, b) == u && Undo(u, b) == u
  {
  }

  lemma {:induction false} BlocksWithoutCoins(derive: Derive, branch: seq<Block>)
    requires forall b | b in branch :: b.inputs == b.outputs == []
    ensures Replay(derive, map[], branch) == map[] && UndoAll(map[], branch) == map[]
    decreases |branch|
  {
    if branch != [] {
      BlocksWithoutCoins(derive, branch[1..]);
      NoCoins(derive, map[], branch[0]);
    }
  }

  // ---- the classes ---------------------------------------------------------------------

  class UtxoSet {
    var coins: Coins

    constructor ()
      ensures coins == map[]
    {
      coins := map[];
    }

    method AddCoin(c: Coin)
      modifies this
      ensures coins == old(coins)[c.id := c]
    {
      coins := coins[c.id := c];
    }

    method SpendCoin(id: Id)
      modifies this
      ensures coins == old(coins) - {id}
    {
      coins := coins - {id};
    }
  }

  class BlockStore {
    var byHash: Blocks
    var byNumber: map<int, Id>

    constructor ()
      ensures byHash == map[] && byNumber == map[]
    {
      byHash, byNumber := map[], map[];
    }

    method Add(id: Id, block: Block)
      modifies this
      ensures byHash == old(byHash)[id := block] && byNumber == old(byNumber)[block.number := id]
    {
      byHash := byHash[id := block];
      byNumber := byNumber[block.number := id];
    }

    method GetAncestors(id: Id, count: nat) returns (complete: bool, chain: seq<Block>)
      ensures Walk(complete, chain) == Ancestors(byHash, id, count)
    {
      var cur := id;
      chain := [];
      for i := 0 to count
        invariant var rest := Ancestors(byHash, cur, count - i);
                  Ancestors(byHash, id, count) == Walk(rest.complete, chain + rest.chain)
      {
        if cur !in byHash {
          return false, chain;
        }
        var b := byHash[cur];
        ghost var rest := Ancestors(byHash, cur, count - i);
        chain := chain + [b];
        if b.number == 0 {
          return true, chain;
        }
        cur := b.parent;
        assert chain + rest.chain[1..] == chain[..|chain| - 1] + rest.chain;
      }
      complete := true;
    }
  }

  class ChainProcessor {
    const derive: Derive
    const store: BlockStore
    const utxo: UtxoSet
    var tip: Id
    var height: int

    ghost predicate Valid()
      reads this
    {
      utxo as object != store as object && utxo as object != this && store as object != this
    }

    constructor (derive: Derive)
      ensures Valid() && fresh(store) && fresh(utxo)
      ensures utxo.coins == map[] && store.byHash == map[] && height == 0
      ensures tip == seq(32, _ => 0) && this.derive == derive
    {
      this.derive := derive;
      store := new BlockStore();
      utxo := new UtxoSet();
      tip, height := seq(32, _ => 0), 0;
    }

    method ApplyCoins(b: Block)
      requires Valid()
      modifies utxo
      ensures utxo.coins == Apply(derive, old(utxo.coins), b) && Applied(derive, old(utxo.coins), utxo.coins, b)
    {
      ghost var before := utxo.coins;
      for i := 0 to |b.inputs|
        invariant Spend(utxo.coins, b.inputs[i..]) == Spend(old(utxo.coins), b.inputs)
      {
        assert b.inputs[i..][1..] == b.inputs[i + 1..];
        utxo.SpendCoin(b.inputs[i].id);
      }
      for i := 0 to |b.outputs|
        invariant Store(utxo.coins, Created(derive, b, i)) == Apply(derive, old(utxo.coins), b)
      {
        assert Created(derive, b, i)[1..] == Created(derive, b, i + 1);
        var coin := b.outputs[i].(id := derive(b.id, i));
        utxo.AddCoin(coin);
      }
      ApplyIsApplied(derive, before, b);
    }

    method ReplayBlock(b: Block)
      requires Valid()
      modifies utxo
      ensures utxo.coins == Apply(derive, old(utxo.coins), b)
    {
      ApplyCoins(b);
    }

    method UndoCoins(b: Block)
      requires Valid()
      modifies utxo
      ensures utxo.coins == Undo(old(utxo.coins), b) && Undone(old(utxo.coins), utxo.coins, b)
    {
      ghost var before := utxo.coins;
      for i := 0 to |b.outputs|
        invariant Spend(utxo.coins, b.outputs[i..]) == Spend(old(utxo.coins), b.outputs)
      {
        assert b.outputs[i..][1..] == b.outputs[i + 1..];
        utxo.SpendCoin(b.outputs[i].id);
      }
      for i := 0 to |b.inputs|
        invariant Store(utxo.coins, b.inputs[i..]) == Undo(old(utxo.coins), b)
      {
        assert b.inputs[i..][1..] == b.inputs[i + 1..];
        utxo.AddCoin(b.inputs[i]);
      }
      UndoIsUndone(before, b);
    }

    // processBlock: store, apply, move the tip to a block at least as high.
    method ProcessBlock(b: Block) returns (added: bool)
      requires Valid()
      modifies this, store, utxo
      ensures Valid()
      ensures added <==> b.id !in old(store.byHash)
      ensures store.byHash == if added then old(store.byHash)[b.id := b] else old(store.byHash)
      ensures utxo.coins == if added then Apply(derive, old(utxo.coins), b) else old(utxo.coins)
      ensures added ==> Applied(derive, old(utxo.coins), utxo.coins, b)
      ensures (tip, height) == if added && b.number >= old(height) then (b.id, b.number) else (old(tip), old(height))
    {
      if b.id in store.byHash {
        return false;
      }
      store.Add(b.id, b);
      ApplyCoins(b);
      if b.number >= height {
        tip, height := b.id, b.number;
      }
      added := true;
    }

    method Reorg(forkTip: Id, maxDepth: nat) returns (found: bool)
      requires Valid()
      modifies this, utxo
      ensures Valid()
      ensures found <==> Ancestors(store.byHash, forkTip, maxDepth).complete
      ensures !found ==> utxo.coins == old(utxo.coins) && tip == old(tip) && height == old(height)
      ensures found ==> tip == forkTip
      ensures found ==>
                var fork := Ancestors(store.byHash, forkTip, maxDepth).chain;
                var main := if old(tip) == [] then [] else Ancestors(store.byHash, old(tip), maxDepth).chain;
                && height == (if fork == [] then 0 else fork[0].number)
                && utxo.coins == Reorganised(derive, old(utxo.coins), main, fork)
    {
      var complete, forkChain := store.GetAncestors(forkTip, maxDepth);
      if !complete {
        return false;
      }
      var mainChain := [];
      if tip != [] {
        var _, chain := store.GetAncestors(tip, maxDepth);
        mainChain := chain;
      }
      var forkHeight := if forkChain == [] then 0 else forkChain[0].number;
      var commonAncestorID := UndoToCommon(mainChain, forkChain);
      ReplayFork(forkChain, commonAncestorID);
      tip, height := forkTip, forkHeight;
      found := true;
    }

    // Undo the main chain, newest block first, down to a block of the fork chain; [] if there is none.
    method UndoToCommon(mainChain: seq<Block>, forkChain: seq<Block>) returns (common: Id)
      requires Valid()
      modifies utxo
      ensures var i := FirstCommon(mainChain, forkChain);
              && utxo.coins == UndoAll(old(utxo.coins), mainChain[..i])
              && common == if i == |mainChain| then [] else mainChain[i].id
    {
      ghost var i := FirstCommon(mainChain, forkChain);
      common := [];
      for k := 0 to |mainChain|
        invariant k <= i
        invariant UndoAll(utxo.coins, mainChain[k..i]) == UndoAll(old(utxo.coins), mainChain[..i])
      {
        var isCommon := false;
        for f := 0 to |forkChain|
          invariant !isCommon && forall g :: 0 <= g < f ==> forkChain[g].id != mainChain[k].id
        {
          if forkChain[f].id == mainChain[k].id {
            isCommon := true;
            break;
          }
        }
        assert isCommon <==> Contains(forkChain, mainChain[k].id);
        if isCommon {
          common := mainChain[k].id;
          break;
        }
        assert mainChain[k..i][1..] == mainChain[k + 1..i];
        UndoCoins(mainChain[k]);
      }
    }

    // Apply the fork chain, oldest block first, skipping up to the common ancestor.
    method ReplayFork(forkChain: seq<Block>, common: Id)
      requires Valid()
      requires common != [] ==> Contains(forkChain, common)
      modifies utxo
      ensures utxo.coins == Replay(derive, old(utxo.coins),
                if common == [] then forkChain else forkChain[..OldestIndex(forkChain, common)])
    {
      ghost var k := if common == [] then |forkChain| else OldestIndex(forkChain, common);
      assert forkChain[..|forkChain|] == forkChain;
      var pastCommon := common == [];
      var i := |forkChain| - 1;
      while i >= 0
        invariant -1 <= i < |forkChain|
        invariant pastCommon <==> i < k
        invariant utxo.coins == if i < k then Replay(derive, old(utxo.coins), forkChain[i + 1..k]) else old(utxo.coins)
      {
        if !pastCommon {
          if forkChain[i].id == common {
            pastCommon := true;
            assert forkChain[i..k] == [];
          }
        } else {
          assert forkChain[i..k][1..] == forkChain[i + 1..k];
          ReplayBlock(forkChain[i]);
        }
        i := i - 1;
      }
    }
  }
}
