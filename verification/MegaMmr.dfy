/**
 * MegaMMR: every coin a leaf of one Merkle Mountain Range, an index from coin ID to leaf,
 * checkpoints for reorganisations, and the fast-sync packet that rebuilds the whole.
 */
module MegaMmr {
  import opened Bytes
  import opened MiniNumbers
  import opened MmrSpec
  import opened Mmr
  import opened Longs
  import opened SyncPacket

  datatype Coin = Coin(id: CoinId, address: seq<Byte>, amount: MiniNumber)

  // MiniNumber::toString, as bytes.
  type Show = MiniNumber -> seq<Byte>

  function CoinHash(hash: Hash, show: Show, c: Coin): Digest {
    hash(c.id.bytes + c.address + show(c.amount))
  }

  function CoinData(hash: Hash, show: Show, c: Coin): MmrData {
    MmrData(CoinHash(hash, show, c), c.amount, false)
  }

  // ---- what the structure is -----------------------------------------------------------

  datatype Core = Core(leaves: seq<MmrData>, index: map<CoinId, nat>)

  datatype State = State(core: Core, saved: map<int, Core>)

  const EMPTY := State(Core([], map[]), map[])

  datatype Op =
    | AddCoin(coin: Coin)
    | SpendCoin(id: CoinId)
    | Checkpoint(block: int)
    | Rollback(block: int)
    | Prune(current: int, depth: int)

  predicate Spendable(core: Core, id: CoinId) {
    id in core.index && core.index[id] < |core.leaves|
  }

  function Added(hash: Hash, show: Show, core: Core, coin: Coin): Core {
    Core(core.leaves + [CoinData(hash, show, coin)], core.index[coin.id := |core.leaves|])
  }

  function Spent(core: Core, id: CoinId): Core {
    if Spendable(core, id) then
      core.(leaves := core.leaves[core.index[id] := core.leaves[core.index[id]].(spent := true)])
    else core
  }

  function Pruned(saved: map<int, Core>, cutoff: int): map<int, Core> {
    map b | b in saved && b >= cutoff :: saved[b]
  }

  function Step(hash: Hash, show: Show, s: State, op: Op): State {
    match op
    case AddCoin(coin) => s.(core := Added(hash, show, s.core, coin))
    case SpendCoin(id) => s.(core := Spent(s.core, id))
    case Checkpoint(block) => s.(saved := s.saved[block := s.core])
    case Rollback(block) => if block in s.saved then s.(core := s.saved[block]) else s
    case Prune(current, depth) => s.(saved := Pruned(s.saved, current - depth))
  }

  function Run(hash: Hash, show: Show, s: State, ops: seq<Op>): State {
    if ops == [] then s else Step(hash, show, Run(hash, show, s, ops[..|ops| - 1]), ops[|ops| - 1])
  }

  // ---- checkpoints ---------------------------------------------------------------------

  // An operation neither retakes the checkpoint of a block nor prunes it.
  predicate Spares(op: Op, block: int) {
    op != Checkpoint(block) && (op.Prune? ==> op.current - op.depth <= block)
  }

  // Rolling back undoes whatever ran since the checkpoint, unless it was retaken or pruned away.
  lemma {:induction false} RollbackRestores(hash: Hash, show: Show, s: State, block: int, ops: seq<Op>)
    requires forall op | op in ops :: Spares(op, block)
    ensures var later := Run(hash, show, Step(hash, show, s, Checkpoint(block)), ops);
            block in later.saved && later.saved[block] == s.core
            && Step(hash, show, later, Rollback(block)).core == s.core
  {
    if ops != [] {
      var m := |ops| - 1;
      forall op | op in ops[..m] ensures Spares(op, block) {
        assert op in ops;
      }
      assert Spares(ops[m], block);
      RollbackRestores(hash, show, s, block, ops[..m]);
    }
  }

  // ---- the coins behind the leaves -----------------------------------------------------

  // The coins in the order they were added, along with those of each checkpoint: no spending.
  datatype Coins = Coins(now: seq<Coin>, saved: map<int, seq<Coin>>)

  function CoinStep(c: Coins, op: Op): Coins {
    match op
    case AddCoin(coin) => c.(now := c.now + [coin])
    case SpendCoin(_) => c
    case Checkpoint(block) => c.(saved := c.saved[block := c.now])
    case Rollback(block) => if block in c.saved then c.(now := c.saved[block]) else c
    case Prune(current, depth) => c.(saved := map b | b in c.saved && b >= current - depth :: c.saved[b])
  }

  function CoinRun(c: Coins, ops: seq<Op>): Coins {
    if ops == [] then c else CoinStep(CoinRun(c, ops[..|ops| - 1]), ops[|ops| - 1])
  }

  // Leaf i commits to coin i, and the index holds exactly the last leaf of every coin ID.
  ghost predicate Tracks(hash: Hash, show: Show, core: Core, coins: seq<Coin>) {
    LeavesOf(hash, show, core.leaves, coins) && IndexesLast(core.index, coins)
  }

  ghost predicate LeavesOf(hash: Hash, show: Show, leaves: seq<MmrData>, coins: seq<Coin>) {
    Commits(hash, show, leaves, coins) && forall i | 0 <= i < |coins| :: leaves[i].value == coins[i].amount
  }

  ghost predicate Commits(hash: Hash, show: Show, leaves: seq<MmrData>, coins: seq<Coin>) {
    |leaves| == |coins| && forall i | 0 <= i < |coins| :: leaves[i].data == CoinHash(hash, show, coins[i])
  }

  ghost predicate IndexesLast(index: map<CoinId, nat>, coins: seq<Coin>) {
    (forall i | 0 <= i < |coins| :: coins[i].id in index && i <= index[coins[i].id])
    && (forall id | id in index :: index[id] < |coins| && coins[index[id]].id == id)
  }

  ghost predicate TracksAll(hash: Hash, show: Show, s: State, c: Coins) {
    Tracks(hash, show, s.core, c.now)
    && (forall b :: b in s.saved <==> b in c.saved)
    && (forall b | b in s.saved :: Tracks(hash, show, s.saved[b], c.saved[b]))
  }

  lemma StepTracks(hash: Hash, show: Show, s: State, c: Coins, op: Op)
    requires TracksAll(hash, show, s, c)
    ensures TracksAll(hash, show, Step(hash, show, s, op), CoinStep(c, op))
  {
  }

  // Over every run from empty, spends, checkpoints and rollbacks included.
  lemma {:induction false} RunTracks(hash: Hash, show: Show, ops: seq<Op>)
    ensures TracksAll(hash, show, Run(hash, show, EMPTY, ops), CoinRun(Coins([], map[]), ops))
  {
    if ops != [] {
      var m := |ops| - 1;
      RunTracks(hash, show, ops[..m]);
      StepTracks(hash, show, Run(hash, show, EMPTY, ops[..m]), CoinRun(Coins([], map[]), ops[..m]), ops[m]);
    }
  }

  function WithoutSpends(ops: seq<Op>): seq<Op> {
    if ops == [] then []
    else WithoutSpends(ops[..|ops| - 1]) + (if ops[|ops| - 1].SpendCoin? then [] else [ops[|ops| - 1]])
  }

  lemma {:induction false} SpendsAddNoCoins(c: Coins, ops: seq<Op>)
    ensures CoinRun(c, WithoutSpends(ops)) == CoinRun(c, ops)
  {
    if ops != [] {
      var init, last := ops[..|ops| - 1], ops[|ops| - 1];
      SpendsAddNoCoins(c, init);
      if last.SpendCoin? {
        assert WithoutSpends(ops) == WithoutSpends(init);
      } else {
        assert WithoutSpends(ops)[..|WithoutSpends(init)|] == WithoutSpends(init);
      }
    }
  }

  // Main result: no spend, whenever it happens, has any effect on a later root hash.
  lemma SpendsDoNotMoveRoot(hash: Hash, show: Show, ops: seq<Op>)
    ensures Root(hash, Run(hash, show, EMPTY, ops).core.leaves).data
         == Root(hash, Run(hash, show, EMPTY, WithoutSpends(ops)).core.leaves).data
  {
    RunTracks(hash, show, ops);
    RunTracks(hash, show, WithoutSpends(ops));
    SpendsAddNoCoins(Coins([], map[]), ops);
    RootDataFromLeafData(hash, Run(hash, show, EMPTY, ops).core.leaves,
      Run(hash, show, EMPTY, WithoutSpends(ops)).core.leaves);
  }

  // ---- spent flags ---------------------------------------------------------------------

  // The additions and spends that no rollback took back, and those behind each checkpoint.
  datatype History = History(now: seq<Op>, saved: map<int, seq<Op>>)

  function HistoryStep(h: History, op: Op): History {
    match op
    case AddCoin(_) => h.(now := h.now + [op])
    case SpendCoin(_) => h.(now := h.now + [op])
    case Checkpoint(block) => h.(saved := h.saved[block := h.now])
    case Rollback(block) => if block in h.saved then h.(now := h.saved[block]) else h
    case Prune(current, depth) => h.(saved := map b | b in h.saved && b >= current - depth :: h.saved[b])
  }

  function HistoryRun(ops: seq<Op>): History {
    if ops == [] then History([], map[]) else HistoryStep(HistoryRun(ops[..|ops| - 1]), ops[|ops| - 1])
  }

  predicate OnlyCoins(h: seq<Op>) {
    forall op | op in h :: op.AddCoin? || op.SpendCoin?
  }

  ghost predicate Remembers(hash: Hash, show: Show, core: Core, h: seq<Op>) {
    OnlyCoins(h) && core == Run(hash, show, EMPTY, h).core
  }

  lemma RemembersNext(hash: Hash, show: Show, core: Core, h: seq<Op>, op: Op)
    requires Remembers(hash, show, core, h) && (op.AddCoin? || op.SpendCoin?)
    ensures Remembers(hash, show, if op.AddCoin? then Added(hash, show, core, op.coin) else Spent(core, op.id), h + [op])
  {
    assert (h + [op])[..|h|] == h;
  }

  // Every run ends as the additions and spends that were not rolled back would alone.
  lemma {:induction false} RunIsHistory(hash: Hash, show: Show, ops: seq<Op>)
    ensures var (s, h) := (Run(hash, show, EMPTY, ops), HistoryRun(ops));
            && Remembers(hash, show, s.core, h.now) && s.saved.Keys == h.saved.Keys
            && forall b | b in s.saved :: Remembers(hash, show, s.saved[b], h.saved[b])
  {
    if ops != [] {
      var m := |ops| - 1;
      RunIsHistory(hash, show, ops[..m]);
      if ops[m].AddCoin? || ops[m].SpendCoin? {
        RemembersNext(hash, show, Run(hash, show, EMPTY, ops[..m]).core, HistoryRun(ops[..m]).now, ops[m]);
      }
    }
  }

  function Adds(h: seq<Op>): nat {
    if h == [] then 0 else Adds(h[..|h| - 1]) + if h[|h| - 1].AddCoin? then 1 else 0
  }

  // Between a and j the coin that h[a] adds is not added again, so the index names its leaf.
  predicate Latest(h: seq<Op>, a: nat, j: nat)
    requires a < j <= |h| && h[a].AddCoin?
  {
    forall k | a < k < j :: h[k].AddCoin? ==> h[k].coin.id != h[a].coin.id
  }

  predicate SpendsAt(h: seq<Op>, a: nat, j: nat)
    requires a < |h| && h[a].AddCoin?
  {
    a < j < |h| && h[j] == Op.SpendCoin(h[a].coin.id) && Latest(h, a, j)
  }

  ghost predicate SpendCame(h: seq<Op>, a: nat)
    requires a < |h| && h[a].AddCoin?
  {
    exists j: nat :: SpendsAt(h, a, j)
  }

  lemma SpendCameBefore(h: seq<Op>, a: nat)
    requires a < |h| - 1 && h[a].AddCoin?
    ensures SpendCame(h, a) <==> SpendCame(h[..|h| - 1], a) || SpendsAt(h, a, |h| - 1)
    ensures Latest(h, a, |h| - 1) <==> Latest(h[..|h| - 1], a, |h| - 1)
  {
    var init := h[..|h| - 1];
    assert forall j: nat | j < |init| :: SpendsAt(h, a, j) <==> SpendsAt(init, a, j);
    if SpendCame(h, a) {
      var j: nat :| SpendsAt(h, a, j);
      assert j < |init| ==> SpendsAt(init, a, j);
    }
    if SpendCame(init, a) {
      var j: nat :| SpendsAt(init, a, j);
      assert SpendsAt(h, a, j);
    }
  }

  lemma {:induction false} AddsGrow(h: seq<Op>, a: nat)
    requires a < |h| && h[a].AddCoin?
    ensures Adds(h[..a]) < Adds(h)
  {
    var m := |h| - 1;
    if a < m {
      AddsGrow(h[..m], a);
      assert h[..m][..a] == h[..a];
    }
  }

  // What additions and spends alone make of the coin that h[a] adds.
  ghost predicate FlagKept(hash: Hash, show: Show, h: seq<Op>, a: nat)
    requires a < |h| && h[a].AddCoin?
  {
    var (core, i, id) := (Run(hash, show, EMPTY, h).core, Adds(h[..a]), h[a].coin.id);
    && |core.leaves| == Adds(h) && i < |core.leaves| && core.leaves[i].data == CoinHash(hash, show, h[a].coin)
    && (forall x | x in core.index && core.index[x] == i :: x == id)
    && id in core.index && (core.index[id] == i <==> Latest(h, a, |h|))
    && (core.leaves[i].spent <==> SpendCame(h, a))
  }

  lemma {:induction false} LeafCount(hash: Hash, show: Show, h: seq<Op>)
    requires OnlyCoins(h)
    ensures var core := Run(hash, show, EMPTY, h).core;
            |core.leaves| == Adds(h) && forall x | x in core.index :: core.index[x] < Adds(h)
  {
    if h != [] {
      assert OnlyCoins(h[..|h| - 1]) && h[|h| - 1] in h;
      LeafCount(hash, show, h[..|h| - 1]);
    }
  }

  lemma {:induction false} FlagLaw(hash: Hash, show: Show, h: seq<Op>, a: nat)
    requires OnlyCoins(h) && a < |h| && h[a].AddCoin?
    ensures FlagKept(hash, show, h, a)
  {
    var m := |h| - 1;
    assert OnlyCoins(h[..m]) && h[m] in h;
    LeafCount(hash, show, h[..m]);
    if a < m {
      FlagLaw(hash, show, h[..m], a);
      AddsGrow(h[..m], a);
      assert h[..m][..a] == h[..a];
      SpendCameBefore(h, a);
      if h[m].AddCoin? {
        FlagAfterAdd(hash, show, h, a);
      } else {
        FlagAfterSpend(hash, show, h, a);
      }
    }
  }

  lemma FlagAfterAdd(hash: Hash, show: Show, h: seq<Op>, a: nat)
    requires a < |h| - 1 && h[a].AddCoin? && h[|h| - 1].AddCoin?
    requires FlagKept(hash, show, h[..|h| - 1], a) && Adds(h[..|h| - 1][..a]) == Adds(h[..a]) < Adds(h[..|h| - 1])
    requires SpendCame(h, a) <==> SpendCame(h[..|h| - 1], a)
    requires Latest(h, a, |h| - 1) <==> Latest(h[..|h| - 1], a, |h| - 1)
    ensures FlagKept(hash, show, h, a)
  {
  }

  lemma FlagAfterSpend(hash: Hash, show: Show, h: seq<Op>, a: nat)
    requires a < |h| - 1 && h[a].AddCoin? && h[|h| - 1].SpendCoin?
    requires FlagKept(hash, show, h[..|h| - 1], a) && Adds(h[..|h| - 1][..a]) == Adds(h[..a])
    requires SpendCame(h, a) <==> SpendCame(h[..|h| - 1], a) || SpendsAt(h, a, |h| - 1)
    requires Latest(h, a, |h| - 1) <==> Latest(h[..|h| - 1], a, |h| - 1)
    ensures FlagKept(hash, show, h, a)
  {
  }

  // Main result: over every run a coin's leaf is spent exactly if a spend of its ID came while the index
  // named that leaf, neither the addition nor the spend having been rolled back.
  lemma SpentIffSpendCame(hash: Hash, show: Show, ops: seq<Op>, a: nat)
    requires a < |HistoryRun(ops).now| && HistoryRun(ops).now[a].AddCoin?
    ensures var (h, leaves) := (HistoryRun(ops).now, Run(hash, show, EMPTY, ops).core.leaves);
            var i := Adds(h[..a]);
            && i < |leaves| == Adds(h) && leaves[i].data == CoinHash(hash, show, h[a].coin)
            && (leaves[i].spent <==> SpendCame(h, a))
  {
    RunIsHistory(hash, show, ops);
    FlagLaw(hash, show, HistoryRun(ops).now, a);
  }

  // ---- coin proofs ---------------------------------------------------------------------

  lemma {:induction false} ClimbData(hash: Hash, a: MmrData, b: MmrData, entry: nat, siblings: seq<MmrData>)
    requires a.data == b.data
    ensures Climb(hash, a, entry, siblings).data == Climb(hash, b, entry, siblings).data
    decreases |siblings|
  {
    if siblings != [] {
      var x := if entry % 2 == 0 then Combine(hash, a, siblings[0]) else Combine(hash, siblings[0], a);
      var y := if entry % 2 == 0 then Combine(hash, b, siblings[0]) else Combine(hash, siblings[0], b);
      ClimbData(hash, x, y, entry / 2, siblings[1..]);
    }
  }

  // Replacing a proof's leaf by one with the same hash leaves the recomputed root hash alone.
  lemma SameLeafHashSameRoot(hash: Hash, proof: MmrProof, data: MmrData)
    requires proof.data.data == data.data
    ensures Recomputed(hash, proof.(data := data)).data == Recomputed(hash, proof).data
  {
    ClimbData(hash, proof.data, data, proof.entry, proof.siblings);
    var a := proof.leftPeaks + [Climb(hash, proof.data, proof.entry, proof.siblings)] + proof.rightPeaks;
    var b := proof.leftPeaks + [Climb(hash, data, proof.entry, proof.siblings)] + proof.rightPeaks;
    BagDataFromPeakData(hash, a, b);
  }

  // The proof the structure issues for a tracked coin verifies for that coin, spent or not, and also
  // where the leaves have lost the coins' amounts.
  lemma TrackedCoinVerifies(hash: Hash, show: Show, core: Core, coins: seq<Coin>, id: CoinId, proof: MmrProof)
    requires Commits(hash, show, core.leaves, coins) && IndexesLast(core.index, coins) && id in core.index
    requires proof.data == core.leaves[core.index[id]] && Recomputed(hash, proof) == Root(hash, core.leaves)
    ensures var coin := coins[core.index[id]];
            coin.id == id
            && Recomputed(hash, proof.(data := CoinData(hash, show, coin))).data == Root(hash, core.leaves).data
  {
    SameLeafHashSameRoot(hash, proof, CoinData(hash, show, coins[core.index[id]]));
  }

  // ---- fast sync -----------------------------------------------------------------------

  // The index in some order, each ID once.
  ghost predicate Lists(es: seq<Entry>, index: map<CoinId, nat>) {
    |es| == |index| && IndexOf(es) == index
  }

  ghost predicate Sendable(core: Core) {
    |core.leaves| < ULONG && |core.index| < ULONG
    && (forall l | l in core.leaves :: |l.data| <= MAX_DATA)
    && (forall id | id in core.index :: |id.bytes| <= MAX_DATA && core.index[id] < ULONG)
  }

  lemma {:induction false} ListedEntry(es: seq<Entry>, e: Entry)
    requires e in es && forall i, j | 0 <= i < j < |es| :: es[i].id != es[j].id
    ensures e.id in IndexOf(es) && IndexOf(es)[e.id] == e.leaf
  {
    var init, last := es[..|es| - 1], es[|es| - 1];
    if e != last {
      assert es == init + [last];
      ListedEntry(init, e);
      var i :| 0 <= i < |init| && init[i] == e;
      assert es[i] == e;
    }
  }

  lemma {:induction false} IndexSize(es: seq<Entry>)
    ensures |IndexOf(es)| <= |es|
    ensures |IndexOf(es)| == |es| ==> forall i, j | 0 <= i < j < |es| :: es[i].id != es[j].id
    ensures forall i | 0 <= i < |es| :: es[i].id in IndexOf(es)
  {
    if es != [] {
      var init, last := es[..|es| - 1], es[|es| - 1];
      IndexSize(init);
      assert IndexOf(es).Keys == IndexOf(init).Keys + {last.id};
      MapSize(IndexOf(init));
      MapSize(IndexOf(es));
      if |IndexOf(es)| == |es| {
        assert last.id !in IndexOf(init);
      }
    }
  }

  lemma MapSize(m: map<CoinId, nat>)
    ensures |m| == |m.Keys|
  {
  }

  lemma ListsSized(es: seq<Entry>, core: Core)
    requires Sendable(core) && Lists(es, core.index)
    ensures Sized(es)
  {
    IndexSize(es);
    forall e | e in es ensures |e.id.bytes| <= MAX_DATA && e.leaf < ULONG {
      ListedEntry(es, e);
    }
  }

  // Room for n more operations before a count outgrows 64 bits.
  ghost predicate Within(core: Core, n: nat) {
    |core.leaves| <= n && |core.index| <= n
    && (forall l | l in core.leaves :: |l.data| <= MAX_DATA)
    && (forall id | id in core.index :: |id.bytes| <= MAX_DATA && core.index[id] <= n)
  }

  lemma StepWithin(hash: Hash, show: Show, s: State, op: Op, n: nat)
    requires Within(s.core, n) && forall b | b in s.saved :: Within(s.saved[b], n)
    requires op.AddCoin? ==> |op.coin.id.bytes| <= MAX_DATA
    ensures var next := Step(hash, show, s, op);
            Within(next.core, n + 1) && forall b | b in next.saved :: Within(next.saved[b], n + 1)
  {
    if op.AddCoin? {
      var index, next := s.core.index, Added(hash, show, s.core, op.coin).index;
      assert next.Keys == index.Keys + {op.coin.id};
      MapSize(index);
      MapSize(next);
    }
  }

  // Every state reached from empty by fewer than 2^64 operations can be sent.
  lemma {:induction false} RunsAreSendable(hash: Hash, show: Show, ops: seq<Op>)
    requires forall op | op in ops :: op.AddCoin? ==> |op.coin.id.bytes| <= MAX_DATA
    ensures var s := Run(hash, show, EMPTY, ops);
            Within(s.core, |ops|) && forall b | b in s.saved :: Within(s.saved[b], |ops|)
    ensures |ops| < ULONG ==> Sendable(Run(hash, show, EMPTY, ops).core)
  {
    if ops != [] {
      var m := |ops| - 1;
      forall op | op in ops[..m] ensures op.AddCoin? ==> |op.coin.id.bytes| <= MAX_DATA {
        assert op in ops;
      }
      assert ops[m] in ops;
      RunsAreSendable(hash, show, ops[..m]);
      StepWithin(hash, show, Run(hash, show, EMPTY, ops[..m]), ops[m], m);
    }
  }

  // Main result: whatever order the index was written in, the packet rebuilds a structure with
  // the same leaf count, the same hash at every stored position, the same root hash, the same
  // spent flags and the same index; only the amounts are gone.
  lemma SyncRebuilds(hash: Hash, core: Core, es: seq<Entry>, rest: seq<Byte>)
    requires Sendable(core) && Lists(es, core.index)
    ensures TakePacket(Packet(core.leaves, es) + rest)
         == Some(Taken(Content(AllStripped(core.leaves), core.index), rest))
    ensures Root(hash, AllStripped(core.leaves)).data == Root(hash, core.leaves).data
    ensures forall p: Pos :: Stored(|core.leaves|, p) ==>
              NodeAt(hash, AllStripped(core.leaves), p).data == NodeAt(hash, core.leaves, p).data
  {
    ListsSized(es, core);
    TakePacketBytes(core.leaves, es, rest);
    RootDataFromLeafData(hash, AllStripped(core.leaves), core.leaves);
    forall p: Pos | Stored(|core.leaves|, p)
      ensures NodeAt(hash, AllStripped(core.leaves), p).data == NodeAt(hash, core.leaves, p).data
    {
      NodeDataFromLeafData(hash, AllStripped(core.leaves), core.leaves, p);
    }
  }

  // ---- after the sync ------------------------------------------------------------------

  // The structure a packet of this core rebuilds: no amounts, no checkpoints.
  function Synced(core: Core): State {
    State(Core(AllStripped(core.leaves), core.index), map[])
  }

  // The same index, leaf hashes and spent flags.
  ghost predicate Alike(a: Core, b: Core) {
    a.index == b.index && |a.leaves| == |b.leaves|
    && forall i | 0 <= i < |a.leaves| :: a.leaves[i].data == b.leaves[i].data && a.leaves[i].spent == b.leaves[i].spent
  }

  // t is alike to s, and so are the checkpoints it has.
  ghost predicate Follows(s: State, t: State) {
    Alike(s.core, t.core) && forall b | b in t.saved :: b in s.saved && Alike(s.saved[b], t.saved[b])
  }

  // s is not rolled back to a checkpoint that t does not have, unless that is alike to where t stands.
  ghost predicate KeepsUp(s: State, t: State, op: Op) {
    op.Rollback? && op.block in s.saved && op.block !in t.saved ==> Alike(s.saved[op.block], t.core)
  }

  lemma StepFollows(hash: Hash, show: Show, s: State, t: State, op: Op)
    requires Follows(s, t)
    ensures KeepsUp(s, t, op) <==> Alike(Step(hash, show, s, op).core, Step(hash, show, t, op).core)
    ensures KeepsUp(s, t, op) ==> Follows(Step(hash, show, s, op), Step(hash, show, t, op))
  {
  }

  ghost predicate AllKeepUp(hash: Hash, show: Show, s: State, t: State, ops: seq<Op>) {
    forall i | 0 <= i < |ops| :: KeepsUp(Run(hash, show, s, ops[..i]), Run(hash, show, t, ops[..i]), ops[i])
  }

  ghost predicate AlikeThroughout(hash: Hash, show: Show, s: State, t: State, ops: seq<Op>) {
    forall i | 0 <= i <= |ops| :: Alike(Run(hash, show, s, ops[..i]).core, Run(hash, show, t, ops[..i]).core)
  }

  lemma {:induction false} RunFollows(hash: Hash, show: Show, s: State, t: State, ops: seq<Op>)
    requires Follows(s, t)
    ensures AlikeThroughout(hash, show, s, t, ops) <==> AllKeepUp(hash, show, s, t, ops)
    ensures AllKeepUp(hash, show, s, t, ops) ==> Follows(Run(hash, show, s, ops), Run(hash, show, t, ops))
  {
    assert ops[..|ops|] == ops;
    if ops != [] {
      var m := |ops| - 1;
      assert forall i | 0 <= i < m :: ops[..m][i] == ops[i];
      assert forall i | 0 <= i <= m :: ops[..m][..i] == ops[..i];
      RunFollows(hash, show, s, t, ops[..m]);
      if AllKeepUp(hash, show, s, t, ops[..m]) {
        StepFollows(hash, show, Run(hash, show, s, ops[..m]), Run(hash, show, t, ops[..m]), ops[m]);
      }
    }
  }

  // Main result: a synced node that runs the same operations keeps the sender's leaf hashes, spent flags and
  // index at every step, and with them the root hash, exactly when the sender is not rolled back to another
  // state from before the sync.
  lemma SyncedNodeFollows(hash: Hash, show: Show, s: State, ops: seq<Op>)
    ensures AlikeThroughout(hash, show, s, Synced(s.core), ops) <==> AllKeepUp(hash, show, s, Synced(s.core), ops)
    ensures AllKeepUp(hash, show, s, Synced(s.core), ops) ==>
              var (a, b) := (Run(hash, show, s, ops).core, Run(hash, show, Synced(s.core), ops).core);
              Alike(a, b) && Root(hash, a.leaves).data == Root(hash, b.leaves).data
  {
    RunFollows(hash, show, s, Synced(s.core), ops);
    if AllKeepUp(hash, show, s, Synced(s.core), ops) {
      RootDataFromLeafData(hash, Run(hash, show, s, ops).core.leaves, Run(hash, show, Synced(s.core), ops).core.leaves);
    }
  }

  lemma AlikeCoinVerifies(hash: Hash, show: Show, a: Core, b: Core, coins: seq<Coin>, id: CoinId, proof: MmrProof)
    requires Tracks(hash, show, a, coins) && Alike(a, b) && Root(hash, a.leaves).data == Root(hash, b.leaves).data
    requires Spendable(b, id) && proof.data == b.leaves[b.index[id]] && Recomputed(hash, proof) == Root(hash, b.leaves)
    ensures id in a.index && a.index[id] < |coins| && coins[a.index[id]].id == id
    ensures Recomputed(hash, proof.(data := CoinData(hash, show, coins[a.index[id]]))).data == Root(hash, a.leaves).data
  {
    TrackedCoinVerifies(hash, show, b, coins, id, proof);
  }

  // The proof a synced node issues for a coin verifies for that coin under the sender's root.
  lemma SyncedCoinVerifies(hash: Hash, show: Show, before: seq<Op>, ops: seq<Op>, id: CoinId, proof: MmrProof)
    requires var s := Run(hash, show, EMPTY, before);
             var core := Run(hash, show, Synced(s.core), ops).core;
             && AllKeepUp(hash, show, s, Synced(s.core), ops)
             && Spendable(core, id) && proof.data == core.leaves[core.index[id]]
             && Recomputed(hash, proof) == Root(hash, core.leaves)
    ensures var (a, coins) := (Run(hash, show, EMPTY, before + ops).core, CoinRun(Coins([], map[]), before + ops).now);
            id in a.index && a.index[id] < |coins| && coins[a.index[id]].id == id
            && Recomputed(hash, proof.(data := CoinData(hash, show, coins[a.index[id]]))).data == Root(hash, a.leaves).data
  {
    var s := Run(hash, show, EMPTY, before);
    RunConcat(hash, show, EMPTY, before, ops);
    RunTracks(hash, show, before + ops);
    SyncedNodeFollows(hash, show, s, ops);
    AlikeCoinVerifies(hash, show, Run(hash, show, s, ops).core, Run(hash, show, Synced(s.core), ops).core,
      CoinRun(Coins([], map[]), before + ops).now, id, proof);
  }

  // ---- the structure as stored ---------------------------------------------------------

  datatype Snapshot = Snapshot(nodes: map<Pos, MmrData>, leafCount: nat, index: map<CoinId, nat>)

  ghost predicate Sound(hash: Hash, s: Snapshot) {
    (forall i | 0 <= i < s.leafCount :: Pos(0, i) in s.nodes) && Represents(hash, s.nodes, RowZero(s))
  }

  ghost function RowZero(s: Snapshot): (leaves: seq<MmrData>)
    requires forall i | 0 <= i < s.leafCount :: Pos(0, i) in s.nodes
    ensures |leaves| == s.leafCount && forall i | 0 <= i < |leaves| :: leaves[i] == s.nodes[Pos(0, i)]
  {
    seq(s.leafCount, i requires 0 <= i < s.leafCount => s.nodes[Pos(0, i)])
  }

  ghost function CoreOf(hash: Hash, s: Snapshot): Core
    requires Sound(hash, s)
  {
    Core(RowZero(s), s.index)
  }

  class MegaMmr {
    const hash: Hash
    const show: Show
    const mmr: MmrSet
    var index: map<CoinId, nat>
    var checkpoints: map<int, Snapshot>

    ghost predicate Valid()
      reads this, mmr
    {
      mmr.hash == hash && mmr.Valid() && forall b | b in checkpoints :: Sound(hash, checkpoints[b])
    }

    ghost function Model(): State
      reads this, mmr
      requires Valid()
    {
      State(Core(mmr.Leaves(), index), map b | b in checkpoints :: CoreOf(hash, checkpoints[b]))
    }

    constructor (hash: Hash, show: Show)
      ensures Valid() && Model() == EMPTY && fresh(mmr) && this.hash == hash && this.show == show
    {
      this.hash, this.show := hash, show;
      mmr := new MmrSet(hash);
      index, checkpoints := map[], map[];
    }

    method AddCoin(coin: Coin) returns (leaf: nat)
      requires Valid()
      modifies this`index, mmr
      ensures Valid() && Model() == Step(hash, show, old(Model()), Op.AddCoin(coin))
      ensures leaf == |old(mmr.Leaves())| && index == old(index)[coin.id := leaf]
      ensures mmr.Leaves() == old(mmr.Leaves()) + [MmrData(hash(coin.id.bytes + coin.address + show(coin.amount)), coin.amount, false)]
    {
      leaf := mmr.AddLeaf(CoinData(hash, show, coin));
      index := index[coin.id := leaf];
    }

    method SpendCoin(id: CoinId) returns (ok: bool)
      requires Valid()
      modifies mmr
      ensures Valid() && Model() == Step(hash, show, old(Model()), Op.SpendCoin(id))
      ensures ok <==> id in index && index[id] < |old(mmr.Leaves())|
      ensures mmr.Leaves() == if ok then old(mmr.Leaves())[index[id] := old(mmr.Leaves())[index[id]].(spent := true)] else old(mmr.Leaves())
    {
      if id !in index { return false; }
      var leaf := index[id];
      LeafStored(leaf);
      var d := mmr.GetNode(Pos(0, leaf));
      if d.None? { return false; }
      var done := mmr.UpdateLeaf(leaf, d.value.(spent := true));
      return true;
    }

    lemma LeafStored(leaf: nat)
      requires Valid()
      ensures Pos(0, leaf) in mmr.nodes <==> leaf < mmr.leafCount
    {
      assert Stored(mmr.leafCount, Pos(0, leaf)) <==> leaf < mmr.leafCount;
    }

    method ProcessBlock(spent: seq<CoinId>, coins: seq<Coin>)
      requires Valid()
      modifies this`index, mmr
      ensures Valid()
      ensures Model() == Run(hash, show, old(Model()), SpendOps(spent) + AddOps(coins))
    {
      ghost var start := Model();
      ghost var ops := SpendOps(spent);
      for i := 0 to |spent|
        invariant Valid() && Model() == Run(hash, show, start, ops[..i])
      {
        RunNext(hash, show, start, ops, i);
        var ok := SpendCoin(spent[i]);
      }
      assert ops[..|spent|] == ops;
      RunConcat(hash, show, start, ops, AddOps(coins));
      AddCoins(coins);
    }

    method AddCoins(coins: seq<Coin>)
      requires Valid()
      modifies this`index, mmr
      ensures Valid() && Model() == Run(hash, show, old(Model()), AddOps(coins))
    {
      ghost var start := Model();
      ghost var ops := AddOps(coins);
      for i := 0 to |coins|
        invariant Valid() && Model() == Run(hash, show, start, ops[..i])
      {
        RunNext(hash, show, start, ops, i);
        var leaf := AddCoin(coins[i]);
      }
      assert ops[..|coins|] == ops;
    }

    method TakeCheckpoint(block: int)
      requires Valid()
      modifies this`checkpoints
      ensures Valid() && Model() == Step(hash, show, old(Model()), Checkpoint(block))
      ensures Model().core == old(Model()).core && Model().saved == old(Model()).saved[block := old(Model()).core]
    {
      var s := Snapshot(mmr.nodes, mmr.leafCount, index);
      assert RowZero(s) == mmr.Leaves();
      checkpoints := checkpoints[block := s];
    }

    method RollBack(block: int) returns (ok: bool)
      requires Valid()
      modifies this`index, mmr
      ensures Valid() && Model() == Step(hash, show, old(Model()), Rollback(block))
      ensures ok == (block in old(Model()).saved) && Model().saved == old(Model()).saved
      ensures Model().core == if ok then old(Model()).saved[block] else old(Model()).core
    {
      if block !in checkpoints { return false; }
      var s := checkpoints[block];
      mmr.nodes := s.nodes;
      mmr.leafCount := s.leafCount;
      index := s.index;
      assert mmr.Leaves() == RowZero(s);
      return true;
    }

    method PruneCheckpoints(current: int, depth: int)
      requires Valid()
      modifies this`checkpoints
      ensures Valid() && Model() == Step(hash, show, old(Model()), Prune(current, depth))
      ensures forall b :: b in checkpoints <==> b in old(checkpoints) && b >= current - depth
      ensures forall b :: b in checkpoints ==> checkpoints[b] == old(checkpoints)[b]
    {
      checkpoints := map b | b in checkpoints && b >= current - depth :: checkpoints[b];
    }

    method VerifyRoot(expected: seq<Byte>) returns (ok: bool)
      requires Valid()
      ensures ok == (Root(hash, Model().core.leaves).data == expected)
    {
      var root := mmr.GetRoot();
      return root.data == expected;
    }

    // None for a coin that is not tracked; an error where the index names no leaf.
    method GetCoinProof(id: CoinId) returns (r: Option<Result<MmrProof>>)
      requires Valid()
      ensures r.Some? <==> id in index
      ensures r.Some? ==> (r.value.Ok? <==> Spendable(Model().core, id))
      ensures r.Some? && r.value.Ok? ==> var proof := r.value.value;
                proof.entry == index[id] && proof.data == Model().core.leaves[index[id]]
                && Recomputed(hash, proof) == Root(hash, Model().core.leaves)
    {
      if id !in index { return None; }
      var proof := mmr.GetProof(index[id]);
      return Some(proof);
    }

    method VerifyCoinProof(coin: Coin, proof: MmrProof) returns (ok: bool)
      requires Valid()
      ensures ok == (Recomputed(hash, proof.(data := CoinData(hash, show, coin))).data == Root(hash, Model().core.leaves).data)
    {
      var root := mmr.GetRoot();
      ok := VerifyProof(hash, proof.(data := CoinData(hash, show, coin)), root);
    }

    // The index is written in the map's own order.
    method GetSyncPacket() returns (packet: seq<Byte>)
      requires Valid()
      ensures exists es: seq<Entry> :: Lists(es, index) && packet == Packet(Model().core.leaves, es)
    {
      var leaves := LeavesToBytes();
      var es := ListIndex();
      var entries := EntriesToBytes(es);
      packet := NumberBytes(mmr.leafCount) + leaves + NumberBytes(|index|) + entries;
    }

    method LeavesToBytes() returns (b: seq<Byte>)
      requires Valid()
      ensures b == AllLeafBytes(mmr.Leaves())
    {
      b := [];
      ghost var leaves := mmr.Leaves();
      for i := 0 to mmr.leafCount
        invariant b == AllLeafBytes(leaves[..i])
      {
        LeafStored(i);
        assert leaves[..i + 1][..i] == leaves[..i];
        b := b + LeafBytes(mmr.nodes[Pos(0, i)]);
      }
      assert leaves[..|leaves|] == leaves;
    }

    method ListIndex() returns (es: seq<Entry>)
      ensures Lists(es, index)
    {
      es := [];
      var todo := index.Keys;
      while todo != {}
        invariant todo <= index.Keys
        invariant IndexOf(es) == map id | id in index && id !in todo :: index[id]
        invariant |es| + |todo| == |index.Keys|
        decreases |todo|
      {
        var id :| id in todo;
        todo := todo - {id};
        ghost var was := es;
        es := es + [Entry(id, index[id])];
        assert es[..|was|] == was;
      }
      MapSize(index);
    }
  }

  method EntriesToBytes(es: seq<Entry>) returns (b: seq<Byte>)
    ensures b == AllEntryBytes(es)
  {
    b := [];
    for i := 0 to |es|
      invariant b == AllEntryBytes(es[..i])
    {
      assert es[..i + 1][..i] == es[..i];
      b := b + EntryBytes(es[i]);
    }
    assert es[..|es|] == es;
  }

  function SpendOps(spent: seq<CoinId>): (ops: seq<Op>)
    ensures |ops| == |spent| && forall i | 0 <= i < |ops| :: ops[i] == Op.SpendCoin(spent[i])
  {
    seq(|spent|, i requires 0 <= i < |spent| => Op.SpendCoin(spent[i]))
  }

  function AddOps(coins: seq<Coin>): (ops: seq<Op>)
    ensures |ops| == |coins| && forall i | 0 <= i < |ops| :: ops[i] == Op.AddCoin(coins[i])
  {
    seq(|coins|, i requires 0 <= i < |coins| => Op.AddCoin(coins[i]))
  }

  lemma RunNext(hash: Hash, show: Show, s: State, ops: seq<Op>, i: nat)
    requires i < |ops|
    ensures Run(hash, show, s, ops[..i + 1]) == Step(hash, show, Run(hash, show, s, ops[..i]), ops[i])
  {
    assert ops[..i + 1][..i] == ops[..i];
  }

  lemma {:induction false} RunConcat(hash: Hash, show: Show, s: State, a: seq<Op>, b: seq<Op>)
    ensures Run(hash, show, s, a + b) == Run(hash, show, Run(hash, show, s, a), b)
  {
    if b == [] {
      assert a + b == a;
    } else {
      assert (a + b)[..|a| + |b| - 1] == a + b[..|b| - 1];
      RunConcat(hash, show, s, a, b[..|b| - 1]);
    }
  }

  // None where reading the packet throws, or would run past its end.
  method ApplySyncPacket(hash: Hash, show: Show, data: seq<Byte>) returns (r: Option<MegaMmr>, rest: seq<Byte>)
    ensures r.Some? <==> TakePacket(data).Some?
    ensures r.Some? ==> fresh(r.value) && fresh(r.value.mmr) && r.value.Valid()
    ensures r.Some? ==> r.value.Model() == State(Core(TakePacket(data).value.value.leaves, TakePacket(data).value.value.index), map[])
    ensures r.Some? ==> rest == TakePacket(data).value.rest
  {
    var mega := new MegaMmr(hash, show);
    rest := data;
    var n := TakeNumber(data);
    if n.None? { return None, rest; }
    var v := GetAsLong(n.value.value);
    var ok;
    ok, rest := ReadLeaves(mega.mmr, n.value.rest, AsUlong(v));
    if !ok { return None, rest; }
    var k := TakeNumber(rest);
    if k.None? { return None, rest; }
    v := GetAsLong(k.value.value);
    var index := ReadEntries(k.value.rest, AsUlong(v));
    if index.None? { return None, rest; }
    mega.index := index.value.value;
    return Some(mega), index.value.rest;
  }

  method ReadLeaves(mmr: MmrSet, b: seq<Byte>, n: nat) returns (ok: bool, rest: seq<Byte>)
    requires mmr.Valid() && mmr.Leaves() == []
    modifies mmr
    ensures mmr.Valid() && ok == TakeLeaves(b, n).Some?
    ensures ok ==> TakeLeaves(b, n) == Some(Taken(mmr.Leaves(), rest))
  {
    rest := b;
    for i := 0 to n
      invariant mmr.Valid() && TakeLeaves(b, i) == Some(Taken(mmr.Leaves(), rest))
    {
      var leaf := TakeLeaf(rest);
      if leaf.None? {
        TakeLeavesStops(b, i + 1, n);
        return false, rest;
      }
      var entry := mmr.AddLeaf(leaf.value.value);
      rest := leaf.value.rest;
    }
    return true, rest;
  }

  method ReadEntries(b: seq<Byte>, n: nat) returns (r: Option<Taken<map<CoinId, nat>>>)
    ensures r == TakeEntries(b, n)
  {
    var index: map<CoinId, nat>, rest := map[], b;
    for i := 0 to n
      invariant TakeEntries(b, i) == Some(Taken(index, rest))
    {
      var e := TakeEntry(rest);
      if e.None? {
        TakeEntriesStop(b, i + 1, n);
        return None;
      }
      index := index[e.value.value.id := e.value.value.leaf];
      rest := e.value.rest;
    }
    return Some(Taken(index, rest));
  }
}
