/** The byte formats of the fast-sync packet: length-prefixed numbers, byte strings and leaves. */
module SyncPacket {
  import opened Bytes
  import opened Magnitudes
  import opened BigInts
  import opened MiniNumbers
  import opened MmrSpec
  import opened Bits
  import opened Longs

  const MAX_DATA: nat := 536870912

  // ---- numbers -------------------------------------------------------------------------

  // A whole number as MiniNumber writes it: scale 0, length, bytes.
  function NumberBytes(n: nat): (b: seq<Byte>) {
    var s := SignedBytes(AsLong(n));
    LongIsShort(AsLong(n));
    [0, |s|] + s
  }

  datatype Taken<T> = Taken(value: T, rest: seq<Byte>)

  function AsScale(b: Byte): int {
    if b < 128 then b else b - 256
  }

  // None where the source throws or would read past the end.
  function TakeNumber(b: seq<Byte>): Option<Taken<MiniNumber>> {
    if |b| < 2 || b[1] > 32 || |b| < 2 + b[1] as int then None
    else
      var s := b[2..2 + b[1] as int];
      Some(Taken(MiniNumber(BigInt(if s == [] then [0] else s), AsScale(b[0])), b[2 + b[1] as int..]))
  }

  lemma TakeNumberBytes(n: nat, rest: seq<Byte>)
    requires n < ULONG
    ensures var t := TakeNumber(NumberBytes(n) + rest);
            t.Some? && t.value.rest == rest && AsUlong(LongOf(t.value.value)) == n
  {
    var v := AsLong(n);
    LongIsShort(v);
    LongOfLong(v);
    UlongOfLong(n);
    TakeCounted(0, SignedBytes(v), rest);
  }

  lemma TakeCounted(scale: Byte, s: seq<Byte>, rest: seq<Byte>)
    requires 0 < |s| <= 32
    ensures TakeNumber([scale, |s|] + s + rest) == Some(Taken(MiniNumber(BigInt(s), AsScale(scale)), rest))
  {
    var head: seq<Byte> := [scale, |s|];
    var b := head + s + rest;
    ConcatAssociates(head, s, rest);
    assert b[0] == scale && b[1] == |s|;
    assert b[2..2 + |s|] == s && b[2 + |s|..] == rest;
  }

  // ---- byte strings and leaves ---------------------------------------------------------

  function DataBytes(d: seq<Byte>): seq<Byte> {
    WordBytes(|d| % WORD) + d
  }

  // The length check compares as a 32-bit signed int.
  function TakeData(b: seq<Byte>): Option<Taken<seq<Byte>>> {
    if |b| < 4 then None
    else
      var n := ReadWord(b);
      if MAX_DATA < n < WORD / 2 || |b| < 4 + n then None
      else Some(Taken(b[4..4 + n], b[4 + n..]))
  }

  lemma TakeDataBytes(d: seq<Byte>, rest: seq<Byte>)
    requires |d| <= MAX_DATA
    ensures TakeData(DataBytes(d) + rest) == Some(Taken(d, rest))
  {
    var b := DataBytes(d) + rest;
    assert b == WordBytes(|d|) + (d + rest);
    ReadHeader(|d|, d + rest);
    assert b[4..4 + |d|] == d && b[4 + |d|..] == rest;
  }

  function LeafBytes(leaf: MmrData): seq<Byte> {
    [if leaf.spent then 1 else 0] + DataBytes(leaf.data)
  }

  // What a packet says of a leaf: its hash and flag, not its amount.
  function Stripped(leaf: MmrData): MmrData {
    MmrData(leaf.data, ZERO, leaf.spent)
  }

  function TakeLeaf(b: seq<Byte>): Option<Taken<MmrData>> {
    if b == [] then None
    else
      var d := TakeData(b[1..]);
      if d.None? then None else Some(Taken(MmrData(d.value.value, ZERO, b[0] != 0), d.value.rest))
  }

  lemma TakeLeafBytes(leaf: MmrData, rest: seq<Byte>)
    requires |leaf.data| <= MAX_DATA
    ensures TakeLeaf(LeafBytes(leaf) + rest) == Some(Taken(Stripped(leaf), rest))
  {
    var b := LeafBytes(leaf) + rest;
    assert b[1..] == DataBytes(leaf.data) + rest;
    TakeDataBytes(leaf.data, rest);
  }

  function AllLeafBytes(leaves: seq<MmrData>): seq<Byte> {
    if leaves == [] then [] else AllLeafBytes(leaves[..|leaves| - 1]) + LeafBytes(leaves[|leaves| - 1])
  }

  function AllStripped(leaves: seq<MmrData>): (s: seq<MmrData>)
    ensures |s| == |leaves| && forall i | 0 <= i < |s| :: s[i] == Stripped(leaves[i])
  {
    seq(|leaves|, i requires 0 <= i < |leaves| => Stripped(leaves[i]))
  }

  // The first n leaves of a byte string.
  function TakeLeaves(b: seq<Byte>, n: nat): (r: Option<Taken<seq<MmrData>>>)
    ensures r.Some? ==> |r.value.value| == n
  {
    if n == 0 then Some(Taken([], b))
    else
      var init := TakeLeaves(b, n - 1);
      if init.None? then None
      else
        var last := TakeLeaf(init.value.rest);
        if last.None? then None else Some(Taken(init.value.value + [last.value.value], last.value.rest))
  }

  lemma StrippedSnoc(init: seq<MmrData>, last: MmrData)
    ensures AllStripped(init + [last]) == AllStripped(init) + [Stripped(last)]
  {
  }

  lemma {:induction false} TakeAllLeafBytes(leaves: seq<MmrData>, rest: seq<Byte>)
    requires forall l | l in leaves :: |l.data| <= MAX_DATA
    ensures TakeLeaves(AllLeafBytes(leaves) + rest, |leaves|) == Some(Taken(AllStripped(leaves), rest))
  {
    if leaves == [] {
      assert AllLeafBytes(leaves) + rest == rest;
    } else {
      var init, last := leaves[..|leaves| - 1], leaves[|leaves| - 1];
      ConcatAssociates(AllLeafBytes(init), LeafBytes(last), rest);
      TakeAllLeafBytes(init, LeafBytes(last) + rest);
      TakeLeafBytes(last, rest);
      StrippedSnoc(init, last);
      assert leaves == init + [last];
    }
  }

  // ---- the coin index ------------------------------------------------------------------

  datatype Entry = Entry(id: CoinId, leaf: nat)

  function EntryBytes(e: Entry): seq<Byte> {
    DataBytes(e.id.bytes) + NumberBytes(e.leaf)
  }

  function AllEntryBytes(es: seq<Entry>): seq<Byte> {
    if es == [] then [] else AllEntryBytes(es[..|es| - 1]) + EntryBytes(es[|es| - 1])
  }

  function TakeEntry(b: seq<Byte>): Option<Taken<Entry>> {
    var id := TakeData(b);
    if id.None? then None
    else
      var leaf := TakeNumber(id.value.rest);
      if leaf.None? then None
      else Some(Taken(Entry(CoinId(id.value.value), AsUlong(LongOf(leaf.value.value))), leaf.value.rest))
  }

  function TakeEntries(b: seq<Byte>, n: nat): Option<Taken<map<CoinId, nat>>> {
    if n == 0 then Some(Taken(map[], b))
    else
      var init := TakeEntries(b, n - 1);
      if init.None? then None
      else
        var last := TakeEntry(init.value.rest);
        if last.None? then None
        else Some(Taken(init.value.value[last.value.value.id := last.value.value.leaf], last.value.rest))
  }

  function IndexOf(es: seq<Entry>): map<CoinId, nat> {
    if es == [] then map[] else IndexOf(es[..|es| - 1])[es[|es| - 1].id := es[|es| - 1].leaf]
  }

  ghost predicate Sized(es: seq<Entry>) {
    forall e | e in es :: |e.id.bytes| <= MAX_DATA && e.leaf < ULONG
  }

  lemma TakeEntryBytes(e: Entry, rest: seq<Byte>)
    requires |e.id.bytes| <= MAX_DATA && e.leaf < ULONG
    ensures TakeEntry(EntryBytes(e) + rest) == Some(Taken(e, rest))
  {
    ConcatAssociates(DataBytes(e.id.bytes), NumberBytes(e.leaf), rest);
    TakeDataBytes(e.id.bytes, NumberBytes(e.leaf) + rest);
    TakeNumberBytes(e.leaf, rest);
  }

  lemma {:induction false} TakeAllEntryBytes(es: seq<Entry>, rest: seq<Byte>)
    requires Sized(es)
    ensures TakeEntries(AllEntryBytes(es) + rest, |es|) == Some(Taken(IndexOf(es), rest))
  {
    if es == [] {
      assert AllEntryBytes(es) + rest == rest;
    } else {
      var init, last := es[..|es| - 1], es[|es| - 1];
      ConcatAssociates(AllEntryBytes(init), EntryBytes(last), rest);
      TakeAllEntryBytes(init, EntryBytes(last) + rest);
      TakeEntryBytes(last, rest);
    }
  }

  // ---- the packet ----------------------------------------------------------------------

  function Packet(leaves: seq<MmrData>, es: seq<Entry>): seq<Byte> {
    NumberBytes(|leaves|) + AllLeafBytes(leaves) + NumberBytes(|es|) + AllEntryBytes(es)
  }

  datatype Content = Content(leaves: seq<MmrData>, index: map<CoinId, nat>)

  function TakePacket(b: seq<Byte>): Option<Taken<Content>> {
    var leaves := TakeLeafSection(b);
    if leaves.None? then None
    else
      var index := TakeIndexSection(leaves.value.rest);
      if index.None? then None
      else Some(Taken(Content(leaves.value.value, index.value.value), index.value.rest))
  }

  function TakeLeafSection(b: seq<Byte>): Option<Taken<seq<MmrData>>> {
    var n := TakeNumber(b);
    if n.None? then None else TakeLeaves(n.value.rest, AsUlong(LongOf(n.value.value)))
  }

  function TakeIndexSection(b: seq<Byte>): Option<Taken<map<CoinId, nat>>> {
    var n := TakeNumber(b);
    if n.None? then None else TakeEntries(n.value.rest, AsUlong(LongOf(n.value.value)))
  }

  // Reading a packet gives back its leaves without their amounts, its index, and what follows it.
  lemma TakePacketBytes(leaves: seq<MmrData>, es: seq<Entry>, rest: seq<Byte>)
    requires |leaves| < ULONG && |es| < ULONG && Sized(es)
    requires forall l | l in leaves :: |l.data| <= MAX_DATA
    ensures TakePacket(Packet(leaves, es) + rest) == Some(Taken(Content(AllStripped(leaves), IndexOf(es)), rest))
  {
    PacketParts(leaves, es, rest);
    TakeLeafSectionBytes(leaves, NumberBytes(|es|) + AllEntryBytes(es) + rest);
    TakeIndexSectionBytes(es, rest);
  }

  lemma TakeLeafSectionBytes(leaves: seq<MmrData>, rest: seq<Byte>)
    requires |leaves| < ULONG && forall l | l in leaves :: |l.data| <= MAX_DATA
    ensures TakeLeafSection(NumberBytes(|leaves|) + (AllLeafBytes(leaves) + rest)) == Some(Taken(AllStripped(leaves), rest))
  {
    TakeNumberBytes(|leaves|, AllLeafBytes(leaves) + rest);
    TakeAllLeafBytes(leaves, rest);
  }

  lemma TakeIndexSectionBytes(es: seq<Entry>, rest: seq<Byte>)
    requires |es| < ULONG && Sized(es)
    ensures TakeIndexSection(NumberBytes(|es|) + AllEntryBytes(es) + rest) == Some(Taken(IndexOf(es), rest))
  {
    ConcatAssociates(NumberBytes(|es|), AllEntryBytes(es), rest);
    TakeNumberBytes(|es|, AllEntryBytes(es) + rest);
    TakeAllEntryBytes(es, rest);
  }

  lemma PacketParts(leaves: seq<MmrData>, es: seq<Entry>, rest: seq<Byte>)
    ensures Packet(leaves, es) + rest
         == NumberBytes(|leaves|) + (AllLeafBytes(leaves) + (NumberBytes(|es|) + AllEntryBytes(es) + rest))
  {
    var a, b, c, d := NumberBytes(|leaves|), AllLeafBytes(leaves), NumberBytes(|es|), AllEntryBytes(es);
    ConcatAssociates(a + b, c, d);
    ConcatAssociates(a + b, c + d, rest);
    ConcatAssociates(a, b, c + d + rest);
  }

  // ---- the layout on the wire ----------------------------------------------------------

  // A number: scale 0, its length, then its two's complement.
  lemma NumberLayout(n: nat)
    requires n < ULONG
    ensures var b := NumberBytes(n);
            |b| == 2 + b[1] as int && b[0] == 0 && SignedVal(b[2..]) == if n < ULONG / 2 then n else n - ULONG
  {
    var v := AsLong(n);
    AsLongIs(n, v);
    SignedBytesValue(v);
    LongIsShort(v);
    Counted(SignedBytes(v));
  }

  lemma AsLongIs(n: nat, v: int)
    requires n < ULONG && v == AsLong(n)
    ensures v == if n < ULONG / 2 then n else n - ULONG
  {
  }

  lemma Counted(s: seq<Byte>)
    requires |s| < 256
    ensures var b: seq<Byte> := [0, |s|] + s; |b| == 2 + b[1] as int && b[0] == 0 && b[2..] == s
  {
  }

  // Bytes: four that spell the length, most significant first, then the bytes.
  lemma DataLayout(d: seq<Byte>)
    requires |d| < WORD
    ensures Val(DataBytes(d)[..4]) == |d| && DataBytes(d)[4..] == d
  {
    var head := WordBytes(|d| % WORD);
    WordIsBigEndian(|d|);
    assert |d| % WORD == |d|;
    assert (head + d)[..4] == head && (head + d)[4..] == d;
  }

  // A spent leaf at place 0 of the index, under the ID 7.
  lemma SpentCoinOnTheWire(h: Digest, amount: MiniNumber)
    ensures Packet([MmrData(h, amount, true)], [Entry(CoinId([7]), 0)])
         == [0, 1, 1] + [1, 0, 0, 0, 32] + h + [0, 1, 1] + [0, 0, 0, 1, 7] + [0, 1, 0]
  {
    var leaf, e := MmrData(h, amount, true), Entry(CoinId([7]), 0);
    SmallNumber(1);
    OneLeaf(leaf);
    OneEntry(e, 7);
  }

  lemma OneLeaf(leaf: MmrData)
    requires leaf.spent && |leaf.data| == 32
    ensures AllLeafBytes([leaf]) == [1, 0, 0, 0, 32] + leaf.data
  {
    assert WordBytes(32) == [0, 0, 0, 32];
    assert [leaf][..0] == [] && AllLeafBytes([]) == [];
    assert AllLeafBytes([leaf]) == LeafBytes(leaf);
  }

  lemma OneEntry(e: Entry, x: Byte)
    requires e == Entry(CoinId([x]), 0)
    ensures AllEntryBytes([e]) == [0, 0, 0, 1, x] + [0, 1, 0]
  {
    SmallNumber(0);
    assert WordBytes(1) == [0, 0, 0, 1];
    assert [e][..0] == [] && AllEntryBytes([]) == [];
    assert AllEntryBytes([e]) == EntryBytes(e);
  }

  lemma SmallNumber(n: nat)
    requires n < 128
    ensures NumberBytes(n) == [0, 1, n]
  {
    assert SignedBytes(AsLong(n)) == [n];
  }

  // ---- reading that stops ----------------------------------------------------------------

  lemma {:induction false} TakeLeavesStops(b: seq<Byte>, i: nat, n: nat)
    requires i <= n && TakeLeaves(b, i).None?
    ensures TakeLeaves(b, n).None?
  {
    if i < n {
      TakeLeavesStops(b, i, n - 1);
    }
  }

  lemma {:induction false} TakeEntriesStop(b: seq<Byte>, i: nat, n: nat)
    requires i <= n && TakeEntries(b, i).None?
    ensures TakeEntries(b, n).None?
  {
    if i < n {
      TakeEntriesStop(b, i, n - 1);
    }
  }
}
