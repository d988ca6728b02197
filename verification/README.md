# Minima core: a verified model

Minima core is a blockchain node in C++. This project models the parts of it whose correctness rests
on unbounded state or arithmetic, and proves what each is for. `dafny verify dfyconfig.toml` checks
everything.

Where the code updates objects in place, the model is a class whose methods are proved equal to a
specification function; the properties are then lemmas about that function over every input or run.

| modules | part of the system |
|---|---|
| `MmrSpec`, `Mmr`, `MmrBinding` | Merkle Mountain Range: what it is, the stored map, proofs, and what an accepted proof is worth |
| `Bits`, `BitOrder`, `Longs`, `SyncPacket`, `MegaMmr` | coin index over one range, checkpoints, and the fast-sync packet down to its bytes |
| `Magnitudes`, `BigInts`, `Decimals`, `MiniNumbers` | base-256 arithmetic, two's complement, decimal text and 64-digit decimals, against integers and reals |
| `Reorg` | unspent coins, ancestors and chain reorganisation |
| `TreeSpec`, `TxPowTrees` | the block tree as a value, and as heap nodes with worklists |
| `Protocol`, `ProtocolLaws` | frames, the receive buffer and the handshake |
| `Ast`, `Grammar`, `Parsing`, `Precedence` | KISS VM expressions: grammar, printer, recursive-descent parser, and which operator binds tighter |
| `KissVm`, `Interpreting`, `KissVmLaws` | KISS VM programs: a limit-free meaning, the metered semantics, the interpreter, and the laws of operators and statements |
| `OneTime`, `Wots`, `Winternitz`, `Merkle`, `WotsTreeKey`, `WinternitzTreeKey` | hash-based signatures and key trees |
| `Bip39` | mnemonics |
| `Mempool` | pending transactions |

SHA-3 is a parameter, any total function from bytes to 32 bytes: no property here depends on which.
Built-in functions, literals and decimal operators of KISS VM, the tokenizer and statement parser that
EXEC calls, payload parsers and the word list are parameters too. Exceptions are `Result`, `Option` or outcome values.

Results that are conditions rather than promises, because the code does not do what its name says for
every input:

- Clamping to 44 decimal places, and dropping decimals in `getAsLong`, re-read an unsigned quotient as a
  signed number. Both are right if and only if the quotient's top bit is clear
  (`MiniNumbers.RequotientTruncates`, `Longs.WholeTruncates`); 1280 at scale 45 and 128.0 are examples
  (`MiniNumbers.ClampGoesWrong`, `Longs.WholeGoesWrong`).
- Undoing a block removes outputs by the IDs written in it, where applying stores them under derived IDs,
  and puts inputs back as written. The two cancel if and only if the block meets `Reorg.Undoable`
  (`Reorg.UndoCancelsApply`). Validation lets an output carry an empty ID and an input differ from the coin
  stored under its ID; such blocks fail it (`Reorg.FloatingOutputIsLeftBehind`, `Reorg.AlteredInputIsKept`).
- The base-8 digits keep 258 bits of a message, in whole groups of 3: 255 of the 256 bits of 32 bytes, where
  the header comment of `src/crypto/Winternitz.hpp` counts 256 / 3 digits rounded up, and none after the
  33rd byte of longer data, which signing accepts and cuts. Digit vectors are incomparable if and only if the kept
  bits differ (`Winternitz.IncomparableIffKeptBitsDiffer`, `Winternitz.IncomparableIffPrefixesDiffer`,
  `Winternitz.LastBitHasNoDigit`, `Winternitz.LongDataSharesSignature`).
- The grammar in `src/kissvm/Parser.hpp` has one argument or more in a call, separated by commas. The code
  also reads calls without arguments, a comma before the closing parenthesis, and arguments without commas
  (`Grammar.MissingCommaIsRead`). What it reads is in the documented grammar if and only if
  its tokens are separated, a condition on adjacent tokens (`Grammar.ReadDerivesIffSeparated`).
- A proof check counts no siblings or peaks and measures no hash, so a root proves itself as a leaf
  (`MmrBinding.RootProvesItself`) and two leaf hashes in one pass for a leaf (`MmrBinding.WideLeafIsAccepted`).
  An accepted proof with the range's steps carries the leaf's hash if and only if its own has the same length,
  or exhibits a collision (`MmrBinding.AcceptedProofIsLeaf`).
- Reorganisation looks back no further than its depth. With the common block beyond it on either chain, it
  undoes the main chain's last blocks up to the depth and replays only the fork's last blocks up to the depth
  (`Reorg.ReorgWithinDepth`, `Reorg.ShallowReorgLosesCoin`).

## Model

| member | source | states |
|---|---|---|
| MmrSpec.StoredIffComplete | src/mmr/MMRSet.cpp:139-152 | Being stored, decided by bit shifts, is arithmetic: node (row, entry) is stored exactly when (entry + 1) * 2^row <= leaf count |
| MmrSpec.SiblingIffParent | src/mmr/MMRSet.cpp:139-152 | Stopping when the sibling is missing stops exactly where the parent does not exist |
| MmrSpec.NodeLocal | src/mmr/MMRData.cpp:6-14 | A stored node depends on no leaf outside its own subtree |
| MmrSpec.NodeDataFromLeafData | src/mmr/MMRData.cpp:6-14 | Node hashes depend only on leaf hashes, not on amounts or spent flags |
| MmrSpec.PeaksSound | src/mmr/MMRSet.cpp:50-70 | The collected peaks are exactly the stored nodes without a stored parent, from the highest row down |
| MmrSpec.PeakPerSetBit | src/mmr/MMRSet.cpp:86-109 | There is one peak per set bit of the leaf count |
| MmrSpec.RootDataFromLeafData | src/mmr/MMRSet.cpp:83-118 | The root hash depends only on the leaf hashes |
| MmrSpec.RootOfTwo | src/mmr/MMRSet.cpp:83-118 | Two leaves have the hash of the left followed by the right as their root |
| MmrSpec.RootOfOneMore | src/mmr/MMRSet.cpp:83-118 | One more leaf over an even number is a peak of its own, hashed in last, after the old root; a single leaf is its own root |
| Mmr.CalculateLocalPeak | src/mmr/MMRProof.cpp:5-16 | The loop climbs from the leaf through all siblings, each on the side the entry parity says |
| Mmr.CalculateProof | src/mmr/MMRProof.cpp:18-51 | The root of a proof is its local peak bagged between the peaks on its left and on its right |
| Mmr.SiblingsClimb | src/mmr/MMRSet.cpp:38-50 | From any leaf, the siblings up to any stored ancestor recompute that ancestor |
| Mmr.RangeProofRecomputes | src/mmr/MMRSet.cpp:29-81 | The proof that the leaves determine (siblings, then the other peaks in bagging order) recomputes the root of any range, for any of its leaves |
| Mmr.VerifyProof | src/mmr/MMRProof.cpp:82-85 | Accepts exactly the proofs whose recomputed hash equals the root hash |
| Mmr.SortPeaks | src/mmr/MMRSet.cpp:65-68 | The same positions, from the highest row down |
| Mmr.PropagateOnce | src/mmr/MMRSet.cpp:139-152 | One turn of the loop makes the next ancestor correct and spoils nothing below it |
| Mmr.PropagateDone | src/mmr/MMRSet.cpp:139-152 | Where the sibling is missing nothing stored lies further up, so the whole map is correct |
| Mmr.MmrSet.Propagate | src/mmr/MMRSet.cpp:139-152 | Ends, also where the entry stays 0 while the row climbs, with the map equal to the range over the new leaves |
| Mmr.MmrSet.AddLeaf | src/mmr/MMRSet.cpp:9-14 | Keeps the invariant (stored map = Merkle Mountain Range of the leaves) and appends the leaf |
| Mmr.MmrSet.UpdateLeaf | src/mmr/MMRSet.cpp:16-21 | Keeps the invariant and replaces one leaf; fails exactly on entries that do not exist |
| Mmr.MmrSet.CollectPeaks | src/mmr/MMRSet.cpp:86-109 | Scanning the stored map and sorting finds the peaks of the leaf count, in bagging order |
| Mmr.MmrSet.GetRoot | src/mmr/MMRSet.cpp:83-118 | The root is the bagged peaks of the leaves |
| Mmr.MmrSet.CollectSiblings | src/mmr/MMRSet.cpp:38-50 | Reads from the stored map the siblings of the leaf up to its own peak |
| Mmr.MmrSet.SplitPeaks | src/mmr/MMRSet.cpp:71-79 | The other peaks split into those bagged before the own peak and those bagged after it |
| Mmr.MmrSet.GetProof | src/mmr/MMRSet.cpp:29-81 | Main result: for every reachable range and every leaf, the issued proof is the one the leaves determine, and recomputes exactly the root; fails exactly on entries that do not exist |
| MmrBinding.RecomputedIsWalk | src/mmr/MMRProof.cpp:18-51 | Recomputing any proof is a walk from its leaf hash, one hash a step: its siblings on the sides of the entry's parity, the bagged left peaks, each right peak |
| MmrBinding.AcceptedProofsAgree | src/mmr/MMRProof.cpp:18-51 | Two proofs of one shape (steps on the same sides) for one root, with leaf hashes of one length and anything of any length beside them, carry the same leaf hash, or two different inputs hashed in checking them collide |
| MmrBinding.AcceptedProofIsLeaf | src/mmr/MMRProof.cpp:82-85 | Main result: a proof accepted under a range's root, of the shape the range gives a leaf, carries that leaf's hash if and only if the two hashes have one length, or two different inputs hashed in checking it and the issued proof collide |
| MmrBinding.CountsGiveShape | src/mmr/MMRProof.cpp:18-51 | A proof with the range's entry, sibling count and right peak count, and with left peaks where the range has any, has that shape |
| MmrBinding.RootProvesItself | src/mmr/MMRProof.cpp:18-51 | The shape is needed: the bare root, without siblings or peaks, recomputes itself at every entry |
| MmrBinding.WideLeafIsAccepted | src/mmr/MMRProof.cpp:82-85 | The length is needed: over two leaves, both hashes in one are accepted in place of the first beside an empty sibling, with no collision |
| Magnitudes.CanonicalUnique | src/types/MiniNumber.cpp:14-18 | Two byte strings without leading zeros and of equal value are equal |
| Magnitudes.StripLeadingZeros | src/types/MiniNumber.cpp:14-18 | Same value, no leading zeros |
| Magnitudes.CompareAbsMag | src/types/MiniNumber.cpp:162-165 | The order of canonical magnitudes is the order of their values |
| Magnitudes.AddMag | src/types/MiniNumber.cpp:180-192 | The carry loop adds exactly |
| Magnitudes.SubMag | src/types/MiniNumber.cpp:194-203 | The borrow loop subtracts exactly |
| Magnitudes.MulMag | src/types/MiniNumber.cpp:205-217 | The schoolbook loops multiply exactly |
| Magnitudes.WordIsBigEndian | src/types/MiniData.cpp:137-142 | A 32-bit word is written as its number, most significant byte first |
| Magnitudes.ReadWordIsValue | src/types/MiniData.cpp:145-147 | And read back as the number its four bytes spell |
| BigInts.MinimalUnique | src/types/MiniNumber.cpp:87-96 | In minimal form, equal bytes are equal integers and conversely |
| BigInts.Normalise | src/types/MiniNumber.cpp:87-96 | Drops only redundant sign bytes: same value, minimal form |
| BigInts.Magnitude | src/types/MiniNumber.cpp:98-113 | The canonical bytes of the absolute value |
| BigInts.FromSignMag | src/types/MiniNumber.cpp:115-137 | The minimal two's-complement form of a sign and a magnitude; the inserted carry byte never occurs |
| BigInts.CompareTo | src/types/MiniNumber.cpp:171-176 | The order of BigInts is the order of the integers |
| BigInts.Add | src/types/MiniNumber.cpp:246-257 | Exact sum in minimal form |
| BigInts.Negate | src/types/MiniNumber.cpp:281-284 | Exact negation, minimal whenever the operand is minimal or non-zero |
| BigInts.Sub | src/types/MiniNumber.cpp:258-258 | Exact difference in minimal form |
| BigInts.Mul | src/types/MiniNumber.cpp:259-265 | Exact product in minimal form |
| BigInts.QuotientDigit | src/types/MiniNumber.cpp:226-235 | The binary search finds the largest base-256 digit that fits |
| BigInts.DivmodMag | src/types/MiniNumber.cpp:219-239 | a = q * b + r with 0 <= r < b, both canonical; for a zero divisor the remainder is the dividend and every quotient digit is 255 |
| BigInts.Div | src/types/MiniNumber.cpp:266-273 | Quotient truncated toward zero, in minimal form; for a zero divisor as many bytes 255 as the dividend has, under its sign |
| BigInts.Mod | src/types/MiniNumber.cpp:274-280 | Remainder with the sign of the dividend, in minimal form; the dividend for a zero divisor |
| Decimals.ToDecimalString | src/types/MiniNumber.cpp:139-160 | The decimal notation of the value: a minus sign if negative, no leading zero |
| Decimals.FromDecimal | src/types/MiniNumber.cpp:57-80 | The value its digits denote, after white space and one sign; fails exactly on other characters |
| Decimals.DecimalRoundTrip | src/types/MiniNumber.cpp:139-160 | Writing a minimal BigInt and reading it back gives the same bytes, whatever its length and sign |
| Decimals.DecimalOfNumber | src/types/MiniNumber.cpp:57-80 | A digit string without leading zeros is the notation of the number it denotes |
| MiniNumbers.KeepSignificant | src/types/MiniNumber.cpp:342-356 | Keeps the first 64 digits, raising the exponent by the digits dropped; zero loses its scale |
| MiniNumbers.TruncationIsTruncates | src/types/MiniNumber.cpp:342-356 | That is truncation toward zero to 64 significant digits: exact when the number can be written in 64 digits, off by less than one unit of the last digit otherwise, never zero |
| MiniNumbers.New | src/types/MiniNumber.cpp:342-368 | The stored number is that truncation when at most 44 decimal places remain; beyond, the unscaled value is the re-read quotient by the power of ten that brings it to 44 places |
| MiniNumbers.Clamp | src/types/MiniNumber.cpp:357-367 | Stores, at 44 places, the re-read quotient |
| MiniNumbers.RequotientTruncates | src/types/MiniNumber.cpp:357-367 | That is division truncated toward zero if and only if the quotient's top bit is clear |
| MiniNumbers.ClampGoesWrong | src/types/MiniNumber.cpp:357-367 | 1280 at scale 45 is clamped to -128 at scale 44 |
| MiniNumbers.RereadQuotient | src/types/MiniNumber.cpp:364-364 | An unsigned quotient re-read as two's complement keeps its value exactly when its top bit is clear |
| MiniNumbers.AlignScales | src/types/MiniNumber.cpp:370-377 | Both operands at the larger scale, values unchanged |
| MiniNumbers.AddNumbers | src/types/MiniNumber.cpp:383-387 | The exact sum truncated to 64 digits while that leaves at most 44 decimal places; beyond, its re-read quotient, at scale 44 |
| MiniNumbers.SubNumbers | src/types/MiniNumber.cpp:388-392 | The exact difference truncated to 64 digits while that leaves at most 44 decimal places; beyond, its re-read quotient, at scale 44 |
| MiniNumbers.MultNumbers | src/types/MiniNumber.cpp:393-395 | The product of the exact values truncated to 64 digits while at most 44 decimal places remain, also where scales beyond 44 are brought back by the cut; beyond, the re-read quotient of that product |
| MiniNumbers.RealProduct | src/types/MiniNumber.cpp:393-395 | Multiplying unscaled values and adding scales, of either sign, multiplies the numbers |
| MiniNumbers.CompareNumbers | src/types/MiniNumber.cpp:482-486 | At any scales, the order of the exact values |
| Longs.FromLong | src/types/MiniNumber.cpp:35-44 | A number built from a 64-bit integer holds its minimal bytes at scale 0 |
| Longs.GetAsLong | src/types/MiniNumber.cpp:488-504 | The integer value, 0 when it does not fit in 64 bits, decimals dropped through the re-read quotient |
| Longs.WholeTruncates | src/types/MiniNumber.cpp:497-503 | Dropping decimals truncates toward zero if and only if the quotient's top bit is clear |
| Longs.WholeGoesWrong | src/types/MiniNumber.cpp:497-503 | The number 128.0 held as 1280 at scale 1 reads as -128 |
| Reorg.ApplyIsApplied | minima-core-cpp/src/chain/ChainProcessor.hpp:167-182 | For every set, block and ID: after applying, an ID is unspent exactly if some output derives it or it was unspent and no input names it; what it holds is the last such output under that ID, or what it held before |
| Reorg.UndoIsUndone | minima-core-cpp/src/chain/ChainProcessor.hpp:137-141 | After undoing, an ID is unspent exactly if some input names it or it was unspent and no output is written with it; what it holds is the last such input, or what it held before |
| Reorg.ReplayedAt | minima-core-cpp/src/chain/ChainProcessor.hpp:144-158 | Over any branch an ID is as the newest block that spends or creates it leaves it: absent if that block spends it without creating it, as before if there is none |
| Reorg.SpentIsGone | minima-core-cpp/src/chain/ChainProcessor.hpp:167-182 | An ID spent by a block of a branch and created by neither that block nor a later one is not unspent after the branch |
| Reorg.UndoCancelsApply | minima-core-cpp/src/chain/ChainProcessor.hpp:114-143 | For every set and block, undoing cancels applying if and only if the inputs are the unspent coins of their IDs, the outputs name no other unspent coin, and they name every coin created that is not spent at once and was not unspent before |
| Reorg.NewCoinsAreWritten | minima-core-cpp/src/chain/ChainProcessor.hpp:114-143 | Where the derived IDs are new: if and only if the inputs are the unspent coins, and the written output IDs cover the derived ones and name no other unspent coin |
| Reorg.DerivedOutputsUndoable | minima-core-cpp/src/validation/TxPoWValidator.cpp:192-210 | A block whose outputs all carry the IDs that validation expects meets that condition |
| Reorg.FloatingOutputIsLeftBehind | minima-core-cpp/src/validation/TxPoWValidator.cpp:198-198 | A block with one output of empty ID, which validation lets pass, leaves its derived coin unspent after being undone |
| Reorg.AlteredInputIsKept | minima-core-cpp/src/validation/TxPoWValidator.cpp:90-108 | A block whose input differs from the unspent coin of its ID, which validation looks up by ID alone, leaves the input as written after being undone |
| Reorg.UndoAllCancelsReplay | minima-core-cpp/src/chain/ChainProcessor.hpp:114-143 | Undoing a branch newest first cancels replaying it oldest first, for every branch whose blocks meet the condition where they are applied |
| Reorg.UndoableIffUndoesToEach | minima-core-cpp/src/chain/ChainProcessor.hpp:114-143 | A branch can be undone exactly down to each of its blocks if and only if its blocks meet the condition |
| Reorg.AncestorsChain | minima-core-cpp/src/chain/BlockStore.hpp:56-66 | Where no block is its own ancestor, the walk back returns stored blocks, none twice, starting at the requested one |
| Reorg.AncestorsLinked | minima-core-cpp/src/chain/BlockStore.hpp:56-66 | The walk goes from each block that is no genesis to the parent it names, and is complete exactly if it ends at the count or at a genesis |
| Reorg.CommonIsMutual | minima-core-cpp/src/chain/ChainProcessor.hpp:122-136 | The first shared block is the same block from either side |
| Reorg.ReorgReplaysFork | minima-core-cpp/src/chain/ChainProcessor.hpp:105-158 | Main result: where the blocks undone meet the undo condition, reorg turns the replay of what the main walk has above the fork walk into the replay of what the fork walk has above the main walk, and reorg back restores the original set; block numbers play no part |
| Reorg.ReorgWithinDepth | minima-core-cpp/src/chain/ChainProcessor.hpp:105-158 | Main result, over the full chains: the fork's branch is replayed over the coins at the common block if that block stands within the depth on both chains; otherwise the last blocks of the main chain up to the depth are undone and only the last blocks of the fork up to the depth replayed |
| Reorg.ShallowReorgLosesCoin | minima-core-cpp/src/chain/ChainProcessor.hpp:105-158 | With depth 1, a fork of two blocks over genesis is reported reached and the coin its first block creates is missing |
| Reorg.UtxoSet.AddCoin | minima-core-cpp/src/chain/UTxOSet.hpp:21-23 | Stores a coin under its ID, leaving the others |
| Reorg.UtxoSet.SpendCoin | minima-core-cpp/src/chain/UTxOSet.hpp:25-27 | Removes one coin, leaving the others |
| Reorg.BlockStore.Add | minima-core-cpp/src/chain/BlockStore.hpp:34-38 | Files a block by hash |
| Reorg.BlockStore.GetAncestors | minima-core-cpp/src/chain/BlockStore.hpp:56-66 | Follows parents for at most the given count, stopping at genesis; incomplete where a parent is not stored |
| Reorg.ChainProcessor.ApplyCoins | minima-core-cpp/src/chain/ChainProcessor.hpp:167-182 | Every input is spent and every output is stored under its derived ID, other coins staying |
| Reorg.ChainProcessor.ProcessBlock | minima-core-cpp/src/chain/ChainProcessor.hpp:82-91 | Applies an unknown block, spending its inputs and storing its outputs, and moves the tip when its height is not below the current one |
| Reorg.ChainProcessor.Reorg | minima-core-cpp/src/chain/ChainProcessor.hpp:105-158 | Changes nothing when the fork is unknown; otherwise the fork tip is current and the coins are those of the specification |
| Reorg.ChainProcessor.UndoToCommon | minima-core-cpp/src/chain/ChainProcessor.hpp:114-143 | Undoes the main chain, newest first, up to the first block of the fork |
| Reorg.ChainProcessor.ReplayFork | minima-core-cpp/src/chain/ChainProcessor.hpp:144-158 | Replays the fork, oldest first, from after the common block |
| TreeSpec.AddKeepsValid | src/chain/TxPowTree.hpp:26-55 | Adding a block keeps one tree hanging by header parents whose tip no node outweighs |
| TreeSpec.WeightIsDepth | src/chain/TxPowTree.hpp:26-55 | Weight minus depth is the same for every node |
| TreeSpec.TrimKeepsValid | src/chain/TxPowTree.hpp:102-149 | Trimming keeps that invariant |
| TreeSpec.EveryRun | src/chain/TxPowTree.hpp:26-149 | Over every run of additions and trims: one tree under the root, links equal header parents, weight minus depth constant, the tip of maximal weight |
| TreeSpec.TrimmedChain | src/chain/TxPowTree.hpp:102-149 | After trimming to depth k the canonical chain is the last min(k + 1, length) nodes of the old one |
| TreeSpec.SubtreeChain | src/chain/TxPowTree.hpp:67-73 | In the kept subtree a chain is the old chain without the nodes above the new root |
| TreeSpec.SameTip | src/chain/TxPowTree.hpp:159-161 | Whatever blocks follow, a tree and its trimmed shadow have the same tip at every step if and only if the tree's tip never leaves the kept part |
| TreeSpec.TrimSelectsSameTip | src/chain/TxPowTree.hpp:102-149 | Main result: whatever blocks follow a trim, removed ones sent again with their own headers included, the tip is that of the untrimmed tree at every step if and only if the untrimmed tip never leaves the kept part |
| TreeSpec.InsideKeepsTip | src/chain/TxPowTree.hpp:102-149 | It never leaves it while the blocks neither are nor hang from removed ones |
| TxPowTrees.TreeNode.AddChild | src/chain/TxPoWTreeNode.hpp:31-35 | Links both ways and sets the child's depth |
| TxPowTrees.TreeNode.DetachParent | src/chain/TxPoWTreeNode.hpp:41-44 | Cuts the upward link and resets the depth |
| TxPowTrees.TxPowTree.AddTxPow | src/chain/TxPowTree.hpp:26-55 | On heap nodes, exactly the specification's addition; false exactly for orphans |
| TxPowTrees.TxPowTree.UpdateTip | src/chain/TxPowTree.hpp:159-161 | The tip moves only to a strictly heavier node |
| TxPowTrees.TxPowTree.CanonicalBlocks | src/chain/TxPowTree.hpp:67-73 | The nodes of the canonical chain, root first |
| TxPowTrees.TxPowTree.AncestorOfTip | src/chain/TxPowTree.hpp:104-112 | The k-th ancestor of the tip, or the root if the chain is shorter |
| TxPowTrees.TxPowTree.CollectSubtree | src/chain/TxPowTree.hpp:115-127 | The breadth-first worklist collects exactly the nodes below the new root |
| TxPowTrees.TxPowTree.Prune | src/chain/TxPowTree.hpp:128-137 | Keeps exactly the collected nodes, with no pointer left to a dropped one |
| TxPowTrees.TxPowTree.Renumber | src/chain/TxPowTree.hpp:138-149 | The second worklist gives every node its depth below the new root |
| TxPowTrees.TxPowTree.TrimTree | src/chain/TxPowTree.hpp:102-149 | On heap nodes, exactly the specification's trim |
| TxPowTrees.FrontierUnique | src/chain/TxPowTree.hpp:115-127 | Two finished breadth-first searches from one node visit the same nodes |
| Protocol.DecodeEncode | minima-core-cpp/src/network/NIOMessage.hpp:94-122 | A message is read back from its frame whatever bytes follow |
| Protocol.ProcessExtends | minima-core-cpp/src/network/NetworkProtocol.hpp:152-168 | More bytes only extend what was done with the first ones |
| Protocol.SplitIndependent | minima-core-cpp/src/network/NetworkProtocol.hpp:110-168 | Main result: for any split of any bytes, events, queued output, state and unread rest are those of the whole stream, including streams on which the connection closes part way |
| Protocol.FramesAreDelivered | minima-core-cpp/src/network/NetworkProtocol.hpp:152-168 | A stream of frames is handled message by message, in order |
| Protocol.SplitFramesAreDelivered | minima-core-cpp/src/network/NetworkProtocol.hpp:110-168 | However a stream of frames is cut into pieces, each message is handled once and in order |
| Protocol.EveryRunShakesHands | minima-core-cpp/src/network/NetworkProtocol.hpp:183-246 | Over every run: output is the greeting, then one request if the peer was ahead, then one pong per ping; connected is announced once, exactly when ready; only a connection waiting for a greeting closes |
| ProtocolLaws.FrameLayout | minima-core-cpp/src/network/NIOMessage.hpp:94-108 | A frame is the count of what follows in four bytes, most significant first, then the message number, then the payload |
| ProtocolLaws.ReadyChats | minima-core-cpp/src/network/NetworkProtocol.hpp:288-364 | Over any messages to a ready connection, or to one waiting for chain data until that comes: what the owner hears is, in order, what each message by its number gives; one pong a ping; the peer tip is that of the last readable pulse |
| ProtocolLaws.ChainDataCompletes | minima-core-cpp/src/network/NetworkProtocol.hpp:248-286 | The first message numbered 1 or 14 completes the handshake, readable or not |
| ProtocolLaws.GreetingDecides | minima-core-cpp/src/network/NetworkProtocol.hpp:183-246 | A fresh connection closes on anything but a readable greeting, asks a peer that is ahead for its chain with message 13, and is ready at once with any other |
| Protocol.HandleKeepsInvariant | minima-core-cpp/src/network/NetworkProtocol.hpp:170-181 | Every message keeps the handshake invariant in every state |
| Protocol.ProtocolConnection.Receive | minima-core-cpp/src/network/NetworkProtocol.hpp:110-114 | Appends the bytes and processes the buffer as the specification does |
| Protocol.ProtocolConnection.ProcessRecvBuf | minima-core-cpp/src/network/NetworkProtocol.hpp:152-168 | The loop over the buffer is the specification, also where 4 + length wraps around 32 bits |
| Protocol.ProtocolConnection.Dispatch | minima-core-cpp/src/network/NetworkProtocol.hpp:170-181 | One message in any state |
| Protocol.ProtocolConnection.HandleHandshakeGreeting | minima-core-cpp/src/network/NetworkProtocol.hpp:183-246 | The greeting step |
| Protocol.ProtocolConnection.HandleHandshakeIbd | minima-core-cpp/src/network/NetworkProtocol.hpp:248-286 | The chain-data step |
| Protocol.ProtocolConnection.HandleWhenReady | minima-core-cpp/src/network/NetworkProtocol.hpp:288-364 | Messages after the handshake |
| Grammar.ParseInvertsGrammar | src/kissvm/Parser.cpp:191-358 | Main result: any derivation, in the documented grammar or with empty calls as well, followed by a token that cannot continue it, is read as exactly that tree, stopping there |
| Grammar.PrintDerives | src/kissvm/Parser.hpp:17-28 | Printing with parentheses only where precedence or left associativity asks for them yields a derivation, in the documented grammar if every call has an argument |
| Grammar.ParseInvertsPrint | src/kissvm/Parser.cpp:191-358 | Printing any expression tree and parsing it gives the tree back |
| Grammar.Unambiguous | src/kissvm/Parser.hpp:17-28 | No token string derives two trees, with or without empty calls |
| Grammar.Completeness | src/kissvm/Parser.cpp:191-358 | At every level and position, a derivation is found in full |
| Grammar.Soundness | src/kissvm/Parser.cpp:191-358 | Whatever is read derives in the grammar with optional commas, and in the documented one if its tokens are separated |
| Grammar.DerivesSeparated | src/kissvm/Parser.hpp:17-28 | In every documented derivation no operand ends directly before another begins, a call's parenthesis apart, and neither a comma nor an opening parenthesis stands directly before a closing one |
| Grammar.ReadDerivesIffSeparated | src/kissvm/Parser.cpp:191-358 | Main result: what is read is in the documented grammar if and only if its tokens are separated in that sense; where they are not, no tree derives from them |
| Grammar.MissingCommaIsRead | src/kissvm/Parser.cpp:338-358 | f(1 1) is read as a call of two arguments and derives no tree |
| Precedence.TwoOperators | src/kissvm/Parser.cpp:191-268 | Main result: around any three operands, of two operators the tighter is the inner one on either side, and of two of one group the left; multiplicative, additive, comparing, conjoining, disjoining, listed by token kind |
| Precedence.PrefixesBind | src/kissvm/Parser.cpp:219-278 | NOT takes everything up to the next conjoining or disjoining operator and may follow one; a minus takes the next primary alone |
| Precedence.LeavesAreRead | src/kissvm/Parser.cpp:280-336 | Literals are themselves, TRUE and no other text true; an identifier is a variable of its name |
| Precedence.CallsAreRead | src/kissvm/Parser.cpp:338-358 | A call has its arguments in the order written, under its name in capitals |
| Precedence.CapitalsAre | src/kissvm/Parser.cpp:340-342 | Capitals: the letters a to z shifted by 32, every other character kept |
| Precedence.OnePlusTwoTimesThree | src/kissvm/Parser.cpp:244-268 | 1 + 2 * 3 is read as 1 + (2 * 3) |
| Parsing.Parser.ParseExpr | src/kissvm/Parser.cpp:191-191 | Ends on every token list and reads what the grammar functions read at the lowest level |
| Parsing.Parser.ParseOr | src/kissvm/Parser.cpp:193-204 | The cursor loop reads what the grammar functions read at this level, folding to the left |
| Parsing.Parser.ParseAnd | src/kissvm/Parser.cpp:206-217 | The cursor loop reads what the grammar functions read at this level, folding to the left |
| Parsing.Parser.ParseNot | src/kissvm/Parser.cpp:219-227 | The prefix rule reads what the grammar functions read at this level |
| Parsing.Parser.ParseCmp | src/kissvm/Parser.cpp:229-242 | The cursor loop reads what the grammar functions read at this level, folding to the left |
| Parsing.Parser.ParseAdd | src/kissvm/Parser.cpp:244-255 | The cursor loop reads what the grammar functions read at this level, folding to the left |
| Parsing.Parser.ParseMul | src/kissvm/Parser.cpp:257-268 | The cursor loop reads what the grammar functions read at this level, folding to the left |
| Parsing.Parser.ParseUnary | src/kissvm/Parser.cpp:270-278 | The prefix rule reads what the grammar functions read at this level |
| Parsing.Parser.ParsePrimary | src/kissvm/Parser.cpp:280-336 | Literals, variables, calls and parentheses, as the grammar functions read them, with the same failures |
| Parsing.Parser.ParseFuncall | src/kissvm/Parser.cpp:338-358 | Arguments up to the closing parenthesis, commas optional, as the grammar functions read them |
| KissVm.EvalIsMeaning | src/kissvm/Interpreter.cpp:63-78 | Counting ticks changes nothing about an expression but the point at which they run out |
| KissVm.ComputesOnce | src/kissvm/Interpreter.cpp:15-33 | A script has at most one result in the limit-free semantics |
| KissVm.RunIsMeaning | src/kissvm/Interpreter.cpp:15-39 | Main result: a run ends short of the instruction limit if and only if the script has a limit-free result costing at most 1024 ticks, and then value, variables and counter are those of that result |
| KissVm.TurnsNeverRunOut | src/kissvm/Interpreter.cpp:295-313 | The limit of 512 loop turns never stops a run: the instruction limit always comes first |
| KissVm.LargerLimitAgrees | src/kissvm/Interpreter.cpp:35-38 | Raising the instruction limit changes no run that ended below it |
| KissVm.FirstTrueArmRuns | src/kissvm/Interpreter.cpp:250-293 | From the flat children, an IF runs the block of its first true condition and no other; with none true, the ELSE block or nothing |
| KissVm.WhileAgrees | src/kissvm/Interpreter.cpp:295-313 | A loop agrees with its limit-free meaning because each turn costs at least two ticks |
| KissVm.ScriptAgrees | src/kissvm/Interpreter.cpp:326-339 | So does a script string run by EXEC or MAST in the same scope on the same counter |
| KissVmLaws.LogicLaw | src/kissvm/Interpreter.cpp:115-145 | On any operands, AND is true exactly if both are, OR if one is, NAND if one is not, NOR if neither is, XOR if the truths differ; a boolean is its own truth, a number unless zero, bytes and strings unless empty |
| KissVmLaws.SkipLaw | src/kissvm/Interpreter.cpp:118-134 | A left operand that decides gives the result and leaves the right one unvisited |
| KissVmLaws.NegationLaw | src/kissvm/Interpreter.cpp:118-134 | NAND and NOR negate AND and OR on the same operands, faults and skipped operands included |
| KissVmLaws.EqualityLaw | src/kissvm/Interpreter.cpp:148-157 | Booleans, bytes and strings are equal by content, numbers by the decimal comparison, values of two types by how they are shown |
| KissVmLaws.DecimalLaw | src/kissvm/Interpreter.cpp:165-211 | Comparisons and arithmetic reach the decimal operations with the operands in order, and fault on anything but two numbers |
| KissVmLaws.FaultLaw | src/kissvm/Interpreter.cpp:115-215 | An operand that faults makes the operator fault unless the left has decided |
| KissVmLaws.NoOtherOperator | src/kissvm/Interpreter.cpp:157-213 | Every other operator faults, inequality included |
| KissVmLaws.UnaryLaw | src/kissvm/Interpreter.cpp:217-229 | NOT negates the truth; a minus subtracts a number from zero and faults on anything else |
| KissVmLaws.CallLaw | src/kissvm/Interpreter.cpp:231-241 | A built-in gets the values of its arguments in the order written |
| KissVmLaws.LetLaw | src/kissvm/Interpreter.cpp:245-248 | After a LET the rest of the script runs with that variable holding the value, the others unchanged |
| KissVmLaws.ReadLaw | src/kissvm/Interpreter.cpp:106-113 | A variable read after its LET has the value assigned; one never assigned is zero |
| KissVmLaws.ReturnLaw | src/kissvm/Interpreter.cpp:315-318 | The value of a RETURN is the script's, whatever follows |
| KissVmLaws.AssertLaw | src/kissvm/Interpreter.cpp:320-324 | An ASSERT ends the script with a fault exactly on a false value and otherwise changes nothing |
| KissVmLaws.ValueLaw | src/kissvm/Interpreter.cpp:15-33 | A script of one expression has its value; an empty one is FALSE |
| KissVmLaws.WhileLaw | src/kissvm/Interpreter.cpp:295-313 | A WHILE whose condition is true runs its body as a block and then is there again; with the condition false the script goes on |
| KissVmLaws.BlockLaw | src/kissvm/Interpreter.cpp:53-55 | A block runs its statements one after the other and drops the values of bare expressions |
| KissVmLaws.ExecLaw | src/kissvm/Interpreter.cpp:326-339 | EXEC and MAST run the compiled string in the script's variables and go on with what it leaves there, dropping its value |
| KissVmLaws.FaultEnds | src/kissvm/Interpreter.cpp:245-248 | A statement whose expression faults ends the script with a fault, and so does EXEC or MAST of anything but a string that compiles |
| KissVmLaws.TrueAndFalse | src/kissvm/Interpreter.cpp:115-125 | TRUE AND FALSE is FALSE after four ticks |
| Interpreting.Interpreter.Tick | src/kissvm/Interpreter.cpp:35-38 | Counts one instruction and says whether the limit is passed |
| Interpreting.Interpreter.Execute | src/kissvm/Interpreter.cpp:15-33 | Ends for every program and does what the metered semantics says |
| Interpreting.Interpreter.ExecStatement | src/kissvm/Interpreter.cpp:42-59 | Dispatch over statement kinds, ending with the same outcome, variables and counter as the metered semantics |
| Interpreting.Interpreter.ExecIf | src/kissvm/Interpreter.cpp:250-293 | The index loop over flat children |
| Interpreting.Interpreter.ExecWhile | src/kissvm/Interpreter.cpp:295-313 | The loop with its turn counter |
| Interpreting.Interpreter.ExecExec | src/kissvm/Interpreter.cpp:326-339 | Runs the compiled string through a nested Execute |
| Interpreting.Interpreter.EvalNode | src/kissvm/Interpreter.cpp:63-78 | Expression dispatch |
| Interpreting.Interpreter.EvalBinary | src/kissvm/Interpreter.cpp:115-215 | Short-circuit operators evaluate the right side only when the left does not decide |
| Interpreting.Interpreter.EvalCall | src/kissvm/Interpreter.cpp:231-241 | Arguments left to right, then the built-in |
| OneTime.ChainComposes | minima-core-cpp/src/crypto/WOTS.hpp:55-65 | Walking a chain a steps and then b is walking it a + b steps |
| OneTime.ChainTrace | minima-core-cpp/src/crypto/WOTS.hpp:55-65 | A chain is its start hashed the given number of times, one hash after the other |
| OneTime.SecretsDiffer | minima-core-cpp/src/crypto/WOTS.hpp:72-90 | Two chain secrets that two leaves of one seed derive are equal only where two named inputs collide: those of the secrets, or those of the leaf seeds |
| OneTime.HashChain | minima-core-cpp/src/crypto/WOTS.hpp:55-65 | The loop walks the chain |
| OneTime.WalkedTwice | minima-core-cpp/src/crypto/WOTS.hpp:198-218 | Signing part of the way and verifying the rest reaches every chain's top |
| OneTime.CodedIncomparable | minima-core-cpp/src/crypto/WOTS.hpp:107-120 | Of two different digit strings with their checksums neither is everywhere at most the other |
| Wots.ThreeDigitsSuffice | minima-core-cpp/src/crypto/WOTS.hpp:110-120 | Three base-16 digits hold the checksum of every message |
| Wots.MessageDigitsInjective | minima-core-cpp/src/crypto/WOTS.hpp:104-108 | Different messages have different digits |
| Wots.DifferentMessagesIncomparable | minima-core-cpp/src/crypto/WOTS.hpp:97-123 | Main result: for any two different 32-byte messages each digit vector is strictly larger somewhere |
| Wots.MsgToDigits | minima-core-cpp/src/crypto/WOTS.hpp:97-123 | The digit loops; fails exactly when the message is not 32 bytes |
| Wots.GenerateKeyPair | minima-core-cpp/src/crypto/WOTS.hpp:142-163 | The private key of a seed and the public key its chains lead to; fails exactly when the seed is not 32 bytes |
| Wots.SignatureRecoversKey | minima-core-cpp/src/crypto/WOTS.hpp:198-218 | Every signature leads back to the public key of its private key, for every hash function |
| Wots.NibbleIsWalked | minima-core-cpp/src/crypto/WOTS.hpp:173-189 | Each message chain of a signature is as many hashes from its secret as the message's nibble says, high nibbles first |
| Wots.Sign | minima-core-cpp/src/crypto/WOTS.hpp:173-189 | The signature blob; fails exactly on a wrong key or message size |
| Wots.Verify | minima-core-cpp/src/crypto/WOTS.hpp:198-218 | False on wrong sizes, an exception on a wrong message size, otherwise whether the recovered key is the public key |
| Merkle.PathRebuildsRoot | src/crypto/TreeKey.hpp:175-185 | At any depth and for any hash function, the path of any node of a heap-indexed tree rebuilds node 1 |
| Merkle.RootIsOver | minima-core-cpp/src/crypto/TreeKey.hpp:103-116 | The root of a heap is the root by halves: the hash of the first half's root and the second half's, leaves from left to right |
| Merkle.BuildHeap | minima-core-cpp/src/crypto/TreeKey.hpp:103-116 | The downward loop fills every heap index with its node |
| Merkle.BuildAuthPath | minima-core-cpp/src/crypto/TreeKey.hpp:164-172 | The sibling loop reads the path of a leaf |
| WotsTreeKey.SignaturesAreAccepted | minima-core-cpp/src/crypto/TreeKey.hpp:203-262 | Main result: for every seed, message and leaf, the signature is accepted under the root |
| WotsTreeKey.TreeKey.constructor | minima-core-cpp/src/crypto/TreeKey.hpp:76-116 | The stored tree is the tree of the seed, the counter 0 |
| WotsTreeKey.Generate | minima-core-cpp/src/crypto/TreeKey.hpp:76-116 | A fresh key; fails exactly when the seed is not 32 bytes |
| WotsTreeKey.TreeKey.PublicKey | minima-core-cpp/src/crypto/TreeKey.hpp:121-121 | The public key is the root of the seed's tree |
| WotsTreeKey.TreeKey.Sign | minima-core-cpp/src/crypto/TreeKey.hpp:142-148 | Signs with the counter's leaf and moves on, also when the message is refused; fails exactly when no leaf is left or the message is not 32 bytes |
| WotsTreeKey.TreeKey.SignAt | minima-core-cpp/src/crypto/TreeKey.hpp:154-192 | Leaf index, one-time signature and path, in that layout |
| WotsTreeKey.Verify | minima-core-cpp/src/crypto/TreeKey.hpp:203-262 | Decides exactly acceptance; raises only for a message of the wrong size |
| WotsTreeKey.TreeKey.Serialise | minima-core-cpp/src/crypto/TreeKey.hpp:271-278 | Seed and counter as bytes |
| WotsTreeKey.Deserialise | minima-core-cpp/src/crypto/TreeKey.hpp:280-291 | The key of the stored seed with the stored counter as a signed 32-bit integer |
| WotsTreeKey.ReloadKeepsKey | minima-core-cpp/src/crypto/TreeKey.hpp:271-291 | Saving and loading keeps seed and counter |
| WotsTreeKey.LeavesNeverRepeat | minima-core-cpp/src/crypto/TreeKey.hpp:142-291 | Over every run of signing and reloading the leaves behind the signatures strictly increase |
| WotsTreeKey.ChainsDiffer | minima-core-cpp/src/crypto/TreeKey.hpp:302-309 | No two chains of a tree, in one leaf or in two, start at one secret unless two named inputs collide |
| WotsTreeKey.LeafKeysDiffer | minima-core-cpp/src/crypto/TreeKey.hpp:302-309 | The private keys of two leaves differ unless two named inputs collide |
| WotsTreeKey.KeysNeverRepeat | minima-core-cpp/src/crypto/TreeKey.hpp:142-291 | Main result: over every run of signing and reloading no two signatures are made with one key unless two named inputs collide |
| WotsTreeKey.SignedByLeaf | minima-core-cpp/src/crypto/TreeKey.hpp:154-192 | The signature by a leaf begins with the leaf, most significant byte first, and continues with a one-time signature by that leaf's key |
| Winternitz.MessageDigits | src/crypto/Winternitz.hpp:158-178 | The 32-bit buffer loop cuts the message into 3-bit digits, padded or stopped at 86 |
| Winternitz.AppendChecksum | src/crypto/Winternitz.hpp:185-197 | The four checksum digits |
| Winternitz.DigitsAreKeptBits | src/crypto/Winternitz.hpp:158-178 | For messages of any lengths, equal digits are equal kept bits: the whole 3-bit groups, cut or padded to 258 bits |
| Winternitz.IncomparableIffKeptBitsDiffer | src/crypto/Winternitz.hpp:158-197 | Main result: two messages of any lengths have incomparable digit vectors if and only if their kept bits differ |
| Winternitz.IncomparableIffPrefixesDiffer | src/crypto/Winternitz.hpp:158-197 | Two 32-byte messages have incomparable digit vectors if and only if their first 255 bits differ |
| Winternitz.LastBitHasNoDigit | src/crypto/Winternitz.hpp:158-178 | Every 32-byte message has a twin, differing in the last bit only, with the same digits and checksum |
| Winternitz.LongDataIsCut | src/crypto/Winternitz.hpp:158-178 | What follows the first 33 bytes of a message changes no digit |
| Winternitz.LongDataSharesSignature | src/crypto/Winternitz.hpp:68-87 | Data with the same first 33 bytes has the same signature |
| Winternitz.SignatureRecoversKey | src/crypto/Winternitz.hpp:95-113 | Every signature leads back to the public key of its seed |
| Winternitz.BitsAreWalked | src/crypto/Winternitz.hpp:68-87 | Each message chain of a signature is as many hashes from its secret as three kept bits spell |
| Winternitz.KeptBitIs | src/crypto/Winternitz.hpp:158-178 | The kept bits are those of the bytes in order, highest first |
| Winternitz.GeneratePublicKey | src/crypto/Winternitz.hpp:53-61 | The 90 chain tops |
| Winternitz.Sign | src/crypto/Winternitz.hpp:68-87 | The signature; fails exactly on messages shorter than 32 bytes |
| Winternitz.Recover | src/crypto/Winternitz.hpp:95-113 | The key a signature leads to; fails exactly on short signatures |
| Winternitz.Verify | src/crypto/Winternitz.hpp:115-120 | Whether the recovered key is the public key |
| WinternitzTreeKey.ProofsAreAccepted | src/crypto/TreeKey.hpp:106-138 | Main result: at every depth, every proof by every leaf is accepted under the root |
| WinternitzTreeKey.ChainsDiffer | src/crypto/TreeKey.hpp:187-197 | No two chains of a tree, in one leaf or in two, start at one secret unless two named inputs collide |
| WinternitzTreeKey.SignedByLeaf | src/crypto/TreeKey.hpp:76-97 | A leaf's signature and public key come from the hash of the master seed and the leaf's index |
| WinternitzTreeKey.TreeKey.constructor | src/crypto/TreeKey.hpp:150-173 | The stored tree is the tree of the master seed |
| WinternitzTreeKey.TreeKey.GetPublicKey | src/crypto/TreeKey.hpp:66-66 | The root of the seed's tree |
| WinternitzTreeKey.TreeKey.Sign | src/crypto/TreeKey.hpp:76-97 | Signs with the next leaf and spends it even when the data is refused |
| WinternitzTreeKey.Verify | src/crypto/TreeKey.hpp:106-138 | Decides exactly acceptance; raises only for a short signature |
| Bits.Regroup | src/crypto/BIP39.hpp:300-310 | The shift-buffer loop regroups bits exactly, even though stale high bits fall out of the fixed-width buffer |
| Bits.PackUnpackRest | src/crypto/BIP39.hpp:329-340 | Values unpacked to bits pack back, whatever bits follow |
| Bits.UnpackPack | src/crypto/BIP39.hpp:300-310 | Packed bits unpack back, up to the last whole group |
| BitOrder.BitAt | src/crypto/BIP39.hpp:300-310 | Unpacked bits are those of the values in order, highest first |
| Bip39.EntropyToMnemonic | src/crypto/BIP39.hpp:285-318 | The words of entropy and check bits; fails exactly on sizes other than 16 and 32 bytes |
| Bip39.MnemonicToEntropy | src/crypto/BIP39.hpp:321-346 | The leading bytes the words spell; fails exactly on a wrong word count or an unknown word |
| Bip39.SplitJoin | src/crypto/BIP39.hpp:394-400 | Words joined by spaces split back into the same words |
| Bip39.FindWord | src/crypto/BIP39.hpp:401-405 | The word's index, or -1 if it is not in the list |
| Bip39.DecodeEncode | src/crypto/BIP39.hpp:285-346 | Main result: every entropy of 16 or 32 bytes is read back from its mnemonic |
| Bip39.WordBit | src/crypto/BIP39.hpp:300-310 | The words spell the mnemonic's bits, eleven each, the highest first |
| Bip39.EntropyBit | src/crypto/BIP39.hpp:285-318 | These begin with the entropy's bits, eight a byte, the highest first |
| Bip39.CheckBit | src/crypto/BIP39.hpp:289-294 | And end with the highest bits of the first byte of its hash, one for every 32 |
| Bip39.ValidateMnemonic | src/crypto/BIP39.hpp:371-380 | True exactly for the texts that are the mnemonic of some entropy |
| Bip39.ValidIffCheckBitsMatch | src/crypto/BIP39.hpp:371-380 | For known words joined by single spaces: valid if and only if their bits are the decoded entropy followed by the leading bits of its hash |
| Mempool.AcceptsIffCoherent | src/mempool/Mempool.hpp:37-46 | A unit is turned away exactly when adding it would repeat an ID or spend a coin twice |
| Mempool.SpentWithout | src/mempool/Mempool.hpp:116-123 | In a coherent pool, dropping a unit frees its inputs and no others |
| Mempool.SurvivorsAre | src/mempool/Mempool.hpp:90-107 | A block leaves exactly the units that share no input with it |
| Mempool.BlockFreesItsCoins | src/mempool/Mempool.hpp:90-107 | After a block none of its coins is spent in the pool |
| Mempool.PoolIsLatest | src/mempool/Mempool.hpp:48-59 | However many units are accepted, the pool is the latest of them up to its capacity, oldest first |
| Mempool.Pool.constructor | src/mempool/Mempool.hpp:32-33 | Empty and consistent, for any capacity |
| Mempool.Pool.Add | src/mempool/Mempool.hpp:37-60 | Keeps map, spent set and queue consistent and within capacity; refuses exactly duplicates and double spends; appends, dropping the oldest when full |
| Mempool.Pool.Remove | src/mempool/Mempool.hpp:63-67 | Drops one unit, keeping the others in order |
| Mempool.Pool.GetPending | src/mempool/Mempool.hpp:77-86 | The oldest units up to the limit |
| Mempool.Pool.OnBlockAccepted | src/mempool/Mempool.hpp:90-107 | Drops exactly the units sharing an input with the block, whatever order the map is visited in, and keeps the rest in order |
| Mempool.Pool.Evict | src/mempool/Mempool.hpp:116-133 | Removes one unit from all three collections |
| SyncPacket.TakeNumberBytes | src/types/MiniNumber.cpp:529-547 | A 64-bit count is read back from its serialised number |
| SyncPacket.TakeDataBytes | src/types/MiniData.cpp:137-153 | Bytes up to the size limit are read back from their length-prefixed form |
| SyncPacket.TakePacketBytes | src/mmr/MegaMMR.hpp:215-268 | Reading a packet gives its leaves without amounts, its index and the bytes after it |
| SyncPacket.NumberLayout | src/types/MiniNumber.cpp:529-537 | A whole number is scale 0, its length and its two's complement |
| SyncPacket.DataLayout | src/types/MiniData.cpp:137-144 | Bytes are written after their length in four bytes, most significant first |
| SyncPacket.SpentCoinOnTheWire | src/mmr/MegaMMR.hpp:215-238 | The packet of one spent leaf under the ID 7, byte by byte |
| MegaMmr.RollbackRestores | src/mmr/MegaMMR.hpp:118-148 | Rolling back undoes whatever ran since the checkpoint, unless it was retaken or pruned |
| MegaMmr.RunTracks | src/mmr/MegaMMR.hpp:75-107 | Over every run leaf i commits to the i-th coin added and the index holds the last leaf of each coin ID |
| MegaMmr.SpendsDoNotMoveRoot | src/mmr/MegaMMR.hpp:88-97 | Main result: no spend in any run has an effect on a later root hash |
| MegaMmr.RunIsHistory | src/mmr/MegaMMR.hpp:75-148 | Every run ends with the leaves and the index of the additions and spends that no rollback took back |
| MegaMmr.SpentIffSpendCame | src/mmr/MegaMMR.hpp:88-97 | Main result: over every run a coin's leaf is spent if and only if a spend of its ID came while the index named that leaf, neither having been rolled back |
| MegaMmr.TrackedCoinVerifies | src/mmr/MegaMMR.hpp:184-197 | The proof issued for a tracked coin verifies for that coin, spent or not, also where the leaves have lost the amounts |
| MegaMmr.SyncRebuilds | src/mmr/MegaMMR.hpp:215-268 | Main result: in whatever order the index is written, the packet rebuilds the leaf count, every node hash, the root hash, the spent flags and the index |
| MegaMmr.SyncedNodeFollows | src/mmr/MegaMMR.hpp:75-148 | Main result: over every later run, a synced node keeps the sender's leaf hashes, flags and index at every step, and so the root hash, if and only if no rollback takes the sender to a different state from before the sync |
| MegaMmr.SyncedCoinVerifies | src/mmr/MegaMMR.hpp:184-197 | After any such run the proof a synced node issues for a coin verifies for it under the sender's root |
| MegaMmr.RunsAreSendable | src/mmr/MegaMMR.hpp:215-268 | Every state reached by fewer than 2^64 operations, adding coins whose IDs fit the packet's byte limit, meets the packet's size limits |
| MegaMmr.MegaMmr.AddCoin | src/mmr/MegaMMR.hpp:75-81 | Appends an unspent leaf with the hash of ID, address and amount text, and indexes it |
| MegaMmr.MegaMmr.SpendCoin | src/mmr/MegaMMR.hpp:88-97 | Marks the leaf the index names spent and changes nothing else; false, and nothing changed, exactly where it names none |
| MegaMmr.MegaMmr.ProcessBlock | src/mmr/MegaMMR.hpp:103-107 | All spends, then all additions |
| MegaMmr.MegaMmr.TakeCheckpoint | src/mmr/MegaMMR.hpp:118-120 | Saves nodes, leaf count and index |
| MegaMmr.MegaMmr.RollBack | src/mmr/MegaMMR.hpp:128-134 | Restores them if saved, otherwise changes nothing |
| MegaMmr.MegaMmr.PruneCheckpoints | src/mmr/MegaMMR.hpp:140-148 | Keeps exactly the checkpoints not below the cutoff |
| MegaMmr.MegaMmr.VerifyRoot | src/mmr/MegaMMR.hpp:165-167 | Compares with the root hash of the leaves |
| MegaMmr.MegaMmr.GetCoinProof | src/mmr/MegaMMR.hpp:184-188 | For a tracked coin, a proof that recomputes the root |
| MegaMmr.MegaMmr.VerifyCoinProof | src/mmr/MegaMMR.hpp:194-197 | Whether the proof with the coin's leaf recomputes the root hash |
| MegaMmr.MegaMmr.GetSyncPacket | src/mmr/MegaMMR.hpp:215-238 | The packet of the leaves and of the index in some order |
| MegaMmr.ApplySyncPacket | src/mmr/MegaMMR.hpp:244-268 | Rebuilds a valid structure holding exactly what the packet says; fails exactly where reading it does |

## Left out

- Integer widths: leaf counts, entries, scales, weights, depths and counters are unbounded, except where the width shows: 32-bit frame lengths and shift buffers, 64-bit packet counts, the signed key counter, signed scales on the wire.
- `BigInt` and `MiniNumber` objects are values: their methods return new values, so nothing about aliasing is said.
- The nested map of the range (row, then entry) is one map keyed by position; `std::sort` is an insertion sort; unordered maps are visited in an arbitrary order.
- `MMRSet::serialise`, `deserialise` and `getMaxRow`, `MMRProof` serialisation: field-by-field copying.
- `MiniNumber` `div`, `modulo`, `pow`, `sqrt`, `floor`, `ceil`, `toString` and parsing of exponents: compositions of the modelled parts, or resting on the re-read quotient.
- `ChainProcessor::process` validators, block bodies and mempool notification: a block is its ID, number, parent, inputs and outputs.
- `BlockStore::getByNumber` and balances: lookups only.
- `TxPowTree::pruneBelow`: documented as leaving pointers unrepaired. Freed memory is modelled as nodes no longer in the tree's set.
- Payload decoding of greetings, chain data, transactions and pulses: functions of the payload bytes. Sockets, queues and the calls to `send` outside the receive path are not modelled.
- The tokenizer and the statement parser: EXEC's compilation of a string is a parameter that yields a statement list or fails. The expectation of a keyword checks only its token type in the code, so a grammar of statements would not be met.
- The NEQ operator evaluates an empty node in the code, which is undefined behaviour; the model faults there. Child lists the parser never builds (an IF without a block, a WHILE without a condition) fault where the code would read past the list.
- Built-in functions that re-enter the interpreter, and the stack depth of recursion.
- Unforgeability of signatures and injectivity of the hash: no property of the hash function is assumed.
- `generateMnemonic`, `mnemonicToSeed` and `wordCount`; the 2048 words themselves are a parameter, required to be distinct, non-empty and free of white space.
- Reading past the end of a sync packet is undefined in the code and a failure in the model.
- Mempool.Pool.Add: asks for a capacity of at least 1; with 0 the code takes the front of an empty queue, which is undefined.
- Key trees deeper than 29 levels: the code's int cannot size their array.
- The coin hash of a leaf takes the amount's text from a parameter.
- `cascade/Cascade.hpp` is not part of this model.
