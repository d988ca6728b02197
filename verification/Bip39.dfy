/** BIP-39 mnemonics, with SHA3 for the checksum: 8-bit bytes regrouped as 11-bit words and back. */
module Bip39 {
  import opened Bytes
  import opened MmrSpec
  import opened Bits
  import opened BitOrder
  import D = Decimals

  const LIST_SIZE: nat := 2048

  // What the code relies on of its word list.
  ghost predicate GoodList(list: seq<string>) {
    |list| == LIST_SIZE
    && (forall i | 0 <= i < |list| :: IsWord(list[i]))
    && (forall i, j | 0 <= i < j < |list| :: list[i] != list[j])
  }

  predicate IsWord(w: string) {
    w != "" && forall i | 0 <= i < |w| :: !D.IsSpace(w[i])
  }

  // ---- words and text ------------------------------------------------------------------

  // Extraction from a string stream: maximal runs of non-space characters.
  function SplitWords(s: string, word: string := ""): seq<string>
    decreases |s|
  {
    var done := if word == "" then [] else [word];
    if s == "" then done
    else if D.IsSpace(s[0]) then done + SplitWords(s[1..], "")
    else SplitWords(s[1..], word + [s[0]])
  }

  function Join(words: seq<string>): string {
    if words == [] then "" else if |words| == 1 then words[0]
    else Join(words[..|words| - 1]) + " " + words[|words| - 1]
  }

  method JoinWords(words: seq<string>) returns (result: string)
    ensures result == Join(words)
  {
    result := "";
    for i := 0 to |words|
      invariant result == Join(words[..i])
    {
      assert words[..i + 1][..i] == words[..i];
      if i > 0 { result := result + " "; }
      result := result + words[i];
    }
    assert words[..|words|] == words;
  }

  lemma {:induction false} SplitSpell(w: string, word: string, rest: string)
    requires forall i | 0 <= i < |w| :: !D.IsSpace(w[i])
    ensures SplitWords(w + rest, word) == SplitWords(rest, word + w)
  {
    if w == "" {
      assert w + rest == rest && word + w == word;
    } else {
      assert (w + rest)[0] == w[0] && (w + rest)[1..] == w[1..] + rest;
      SplitSpell(w[1..], word + [w[0]], rest);
      assert word + [w[0]] + w[1..] == word + w;
    }
  }

  lemma {:induction false} SplitJoinRest(words: seq<string>, rest: string)
    requires words != [] && forall i | 0 <= i < |words| :: IsWord(words[i])
    requires rest == "" || D.IsSpace(rest[0])
    ensures SplitWords(Join(words) + rest) == words + SplitWords(rest)
  {
    var m := |words| - 1;
    var last := words[m];
    if m == 0 {
      SplitSpell(last, "", rest);
      assert "" + last == last && [last] == words;
    } else {
      var tail := " " + last + rest;
      ConcatAssociates(Join(words[..m]), " " + last, rest);
      ConcatAssociates(Join(words[..m]), " ", last);
      SplitJoinRest(words[..m], tail);
      assert tail[0] == ' ' && tail[1..] == last + rest;
      SplitSpell(last, "", rest);
      assert "" + last == last;
      ConcatAssociates(words[..m], [last], SplitWords(rest));
      assert words == words[..m] + [last];
    }
  }

  lemma SplitJoin(words: seq<string>)
    requires forall i | 0 <= i < |words| :: IsWord(words[i])
    ensures SplitWords(Join(words)) == words
  {
    if words != [] {
      SplitJoinRest(words, "");
      assert Join(words) + "" == Join(words) && words + [] == words;
    }
  }

  method FindWord(list: seq<string>, word: string) returns (idx: int)
    requires |list| == LIST_SIZE
    ensures if word in list then 0 <= idx < LIST_SIZE && list[idx] == word else idx == -1
  {
    for i := 0 to LIST_SIZE
      invariant forall j | 0 <= j < i :: list[j] != word
    {
      if word == list[i] { return i; }
    }
    return -1;
  }

  // ---- encoding ------------------------------------------------------------------------

  predicate GoodSize(entropy: seq<Byte>) {
    |entropy| == 16 || |entropy| == 32
  }

  function WordCount(entropyBytes: nat): nat {
    if entropyBytes == 16 then 12 else 24
  }

  // The bits a mnemonic spells: the entropy and the leading bits of its hash.
  function MnemonicBits(hash: Hash, entropy: seq<Byte>): (b: seq<bool>)
    requires GoodSize(entropy)
    ensures |b| == 11 * WordCount(|entropy|)
  {
    UnpackLength(entropy, 8);
    Unpack(entropy, 8) + BitsOf(hash(entropy)[0], 8)[..|entropy| / 4]
  }

  function Indices(hash: Hash, entropy: seq<Byte>): (idx: seq<nat>)
    requires GoodSize(entropy)
    ensures |idx| == WordCount(|entropy|) && (forall i | 0 <= i < |idx| :: idx[i] < LIST_SIZE)
    ensures Unpack(idx, 11) == MnemonicBits(hash, entropy)
  {
    WholeGroups(MnemonicBits(hash, entropy), 11, WordCount(|entropy|));
    assert Pow2(11) == LIST_SIZE;
    Pack(MnemonicBits(hash, entropy), 11)
  }

  function Mnemonic(hash: Hash, list: seq<string>, entropy: seq<Byte>): string
    requires |list| == LIST_SIZE && GoodSize(entropy)
  {
    Join(Spell(list, Indices(hash, entropy)))
  }

  function Spell(list: seq<string>, idx: seq<nat>): (words: seq<string>)
    requires |list| == LIST_SIZE && forall i | 0 <= i < |idx| :: idx[i] < LIST_SIZE
    ensures |words| == |idx| && forall i | 0 <= i < |idx| :: words[i] == list[idx[i]]
  {
    seq(|idx|, i requires 0 <= i < |idx| => list[idx[i]])
  }

  // n whole groups of w bits pack to n values that unpack to the same bits.
  lemma WholeGroups(b: seq<bool>, w: nat, n: nat)
    requires w > 0 && |b| == w * n
    ensures |Pack(b, w)| == n && Fits(Pack(b, w), w) && Unpack(Pack(b, w), w) == b
  {
    var p, rest := Pack(b, w), Leftover(b, w);
    PackFits(b, w);
    UnpackPack(b, w);
    UnpackLength(p, w);
    assert |p| * w + |rest| == w * n;
    GroupsAreWhole(|p|, n, w, |rest|);
    assert Unpack(p, w) + [] == Unpack(p, w);
  }

  lemma GroupsAreWhole(m: nat, n: nat, w: nat, rest: nat)
    requires rest < w && m * w + rest == w * n
    ensures m == n && rest == 0
  {
    DivModIs(w * n, w, m, rest);
    DivModIs(w * n, w, n, 0);
  }

  method EntropyToMnemonic(hash: Hash, list: seq<string>, entropy: seq<Byte>) returns (r: Result<string>)
    requires |list| == LIST_SIZE
    ensures r.Ok? <==> GoodSize(entropy)
    ensures r.Ok? ==> r.value == Mnemonic(hash, list, entropy)
  {
    if |entropy| != 16 && |entropy| != 32 { return Err("BIP39: entropy must be 16 or 32 bytes"); }
    var data := entropy + [hash(entropy)[0]];
    BytesFit(data);
    var idx := Regroup(data, 8, 11, 64, None);
    IndicesOfData(hash, entropy);
    var result := JoinWords(Spell(list, idx));
    return Ok(result);
  }

  // Packing entropy and check byte into words drops the check bits that do not fill a word.
  lemma IndicesOfData(hash: Hash, entropy: seq<Byte>)
    requires GoodSize(entropy)
    ensures Pack(Unpack(entropy + [hash(entropy)[0]], 8), 11) == Indices(hash, entropy)
  {
    var check, kept := hash(entropy)[0], |entropy| / 4;
    UnpackPush(entropy, check, 8);
    var bits := BitsOf(check, 8);
    assert bits == bits[..kept] + bits[kept..];
    var idx := Indices(hash, entropy);
    assert Unpack(entropy + [check], 8) == Unpack(idx, 11) + bits[kept..];
    assert Pow2(11) == LIST_SIZE;
    PackUnpackRest(idx, 11, bits[kept..]);
    assert idx + [] == idx;
  }

  // ---- decoding ------------------------------------------------------------------------

  // None where mnemonicToEntropy throws: a wrong word count or an unknown word.
  function Entropy(list: seq<string>, mnemonic: string): (r: Option<seq<Byte>>)
    requires |list| == LIST_SIZE
    ensures r.Some? ==> GoodSize(r.value)
  {
    var words := SplitWords(mnemonic);
    if |words| != 12 && |words| != 24 then None
    else if exists i | 0 <= i < |words| :: words[i] !in list then None
    else Some(EntropyOf(Lookup(list, words)))
  }

  function Lookup(list: seq<string>, words: seq<string>): (idx: seq<nat>)
    requires |list| == LIST_SIZE && forall i | 0 <= i < |words| :: words[i] in list
    ensures |idx| == |words| && (forall i | 0 <= i < |idx| :: idx[i] < LIST_SIZE && list[idx[i]] == words[i])
  {
    seq(|words|, i requires 0 <= i < |words| => FirstIndex(list, words[i]))
  }

  function FirstIndex(list: seq<string>, w: string): (i: nat)
    requires w in list
    ensures i < |list| && list[i] == w && w !in list[..i]
  {
    if list[0] == w then 0 else 1 + FirstIndex(list[1..], w)
  }

  function EntropyOf(idx: seq<nat>): (e: seq<Byte>)
    requires |idx| == 12 || |idx| == 24
    ensures |e| == if |idx| == 12 then 16 else 32
  {
    var bytes := Pack(Unpack(idx, 11), 8);
    PackFits(Unpack(idx, 11), 8);
    assert Pow2(8) == 256;
    RawLength(idx);
    seq(if |idx| == 12 then 16 else 32, i requires 0 <= i < (if |idx| == 12 then 16 else 32) => bytes[i])
  }

  lemma RawLength(idx: seq<nat>)
    requires |idx| == 12 || |idx| == 24
    ensures |Pack(Unpack(idx, 11), 8)| == if |idx| == 12 then 16 else 33
  {
    var b := Unpack(idx, 11);
    UnpackLength(idx, 11);
    UnpackPack(b, 8);
    UnpackLength(Pack(b, 8), 8);
  }

  method MnemonicToEntropy(list: seq<string>, mnemonic: string) returns (r: Result<seq<Byte>>)
    requires GoodList(list)
    ensures r.Ok? <==> Entropy(list, mnemonic).Some?
    ensures r.Ok? ==> Some(r.value) == Entropy(list, mnemonic)
  {
    var words := SplitWords(mnemonic);
    if |words| != 12 && |words| != 24 { return Err("BIP39: mnemonic must be 12 or 24 words"); }
    var idx := LookupAll(list, words);
    if idx.None? { return Err("BIP39: unknown word"); }
    var entropy := DecodeIndices(idx.value);
    return Ok(entropy);
  }

  method LookupAll(list: seq<string>, words: seq<string>) returns (r: Option<seq<nat>>)
    requires |list| == LIST_SIZE && forall i, j | 0 <= i < j < |list| :: list[i] != list[j]
    ensures r.Some? <==> forall i | 0 <= i < |words| :: words[i] in list
    ensures r.Some? ==> r.value == Lookup(list, words)
  {
    var idx: seq<nat> := [];
    for i := 0 to |words|
      invariant |idx| == i && forall j | 0 <= j < i :: words[j] in list && idx[j] == FirstIndex(list, words[j])
    {
      var k := FindWord(list, words[i]);
      if k < 0 { return None; }
      idx := idx + [k];
    }
    return Some(idx);
  }

  method DecodeIndices(idx: seq<nat>) returns (entropy: seq<Byte>)
    requires (|idx| == 12 || |idx| == 24) && forall i | 0 <= i < |idx| :: idx[i] < LIST_SIZE
    ensures entropy == EntropyOf(idx)
  {
    assert Pow2(11) == LIST_SIZE;
    var raw := Regroup(idx, 11, 8, 64, None);
    RawLength(idx);
    var bytes := if |idx| == 12 then 16 else 32;
    PackFits(Unpack(idx, 11), 8);
    assert Pow2(8) == 256;
    return seq(bytes, i requires 0 <= i < bytes => raw[i]);
  }

  // ---- round trip ----------------------------------------------------------------------

  // Indices whose bits start with those of some bytes decode to those bytes.
  lemma EntropyOfBits(idx: seq<nat>, entropy: seq<Byte>, rest: seq<bool>)
    requires |idx| == 12 || |idx| == 24
    requires |entropy| == if |idx| == 12 then 16 else 32
    requires Unpack(idx, 11) == Unpack(entropy, 8) + rest
    ensures EntropyOf(idx) == entropy
  {
    BytesFit(entropy);
    PackUnpackRest(entropy, 8, rest);
    RawLength(idx);
  }

  lemma LookupSpell(list: seq<string>, idx: seq<nat>)
    requires GoodList(list) && forall i | 0 <= i < |idx| :: idx[i] < LIST_SIZE
    ensures (forall i | 0 <= i < |idx| :: Spell(list, idx)[i] in list) && Lookup(list, Spell(list, idx)) == idx
  {
  }

  lemma EntropyOfSpelled(list: seq<string>, idx: seq<nat>)
    requires GoodList(list) && (|idx| == 12 || |idx| == 24) && forall i | 0 <= i < |idx| :: idx[i] < LIST_SIZE
    ensures Entropy(list, Join(Spell(list, idx))) == Some(EntropyOf(idx))
  {
    SplitJoin(Spell(list, idx));
    LookupSpell(list, idx);
  }

  lemma SpellingsDiffer(list: seq<string>, a: seq<nat>, b: seq<nat>)
    requires GoodList(list)
    requires (forall i | 0 <= i < |a| :: a[i] < LIST_SIZE) && (forall i | 0 <= i < |b| :: b[i] < LIST_SIZE)
    requires Join(Spell(list, a)) == Join(Spell(list, b))
    ensures a == b
  {
    SplitJoin(Spell(list, a));
    SplitJoin(Spell(list, b));
    LookupSpell(list, a);
    LookupSpell(list, b);
  }

  // Main result: every entropy of either size is read back from its mnemonic.
  lemma DecodeEncode(hash: Hash, list: seq<string>, entropy: seq<Byte>)
    requires GoodList(list) && GoodSize(entropy)
    ensures Entropy(list, Mnemonic(hash, list, entropy)) == Some(entropy)
  {
    var idx := Indices(hash, entropy);
    EntropyOfSpelled(list, idx);
    EntropyOfBits(idx, entropy, BitsOf(hash(entropy)[0], 8)[..|entropy| / 4]);
  }

  ghost predicate IsMnemonic(hash: Hash, list: seq<string>, text: string)
    requires |list| == LIST_SIZE
  {
    exists e: seq<Byte> :: GoodSize(e) && Mnemonic(hash, list, e) == text
  }

  lemma MnemonicIffReencodes(hash: Hash, list: seq<string>, text: string)
    requires GoodList(list)
    ensures IsMnemonic(hash, list, text)
            <==> Entropy(list, text).Some? && Mnemonic(hash, list, Entropy(list, text).value) == text
  {
    if IsMnemonic(hash, list, text) {
      var e: seq<Byte> :| GoodSize(e) && Mnemonic(hash, list, e) == text;
      DecodeEncode(hash, list, e);
    }
  }

  // validate answers exactly whether the text is the mnemonic of some entropy.
  method ValidateMnemonic(hash: Hash, list: seq<string>, mnemonic: string) returns (valid: bool)
    requires GoodList(list)
    ensures valid <==> IsMnemonic(hash, list, mnemonic)
  {
    MnemonicIffReencodes(hash, list, mnemonic);
    var words := SplitWords(mnemonic);
    if |words| != 12 && |words| != 24 { return false; }
    for i := 0 to |words|
    {
      var k := FindWord(list, words[i]);
      if k < 0 { return false; }
    }
    var entropy := MnemonicToEntropy(list, mnemonic);
    if entropy.Err? { return false; }
    var again := EntropyToMnemonic(hash, list, entropy.value);
    return again.Ok? && again.value == mnemonic;
  }

  // The meaning of validity for known words joined by single spaces: the bits after the entropy
  // are the leading bits of its hash.
  lemma ValidIffCheckBitsMatch(hash: Hash, list: seq<string>, idx: seq<nat>)
    requires GoodList(list) && (|idx| == 12 || |idx| == 24) && forall i | 0 <= i < |idx| :: idx[i] < LIST_SIZE
    ensures IsMnemonic(hash, list, Join(Spell(list, idx)))
            <==> Unpack(idx, 11) == MnemonicBits(hash, EntropyOf(idx))
  {
    var e := EntropyOf(idx);
    EntropyOfSpelled(list, idx);
    MnemonicIffReencodes(hash, list, Join(Spell(list, idx)));
    var known := Indices(hash, e);
    if Unpack(idx, 11) == Unpack(known, 11) {
      UnpackInjective(idx, known);
    }
    if Join(Spell(list, known)) == Join(Spell(list, idx)) {
      SpellingsDiffer(list, known, idx);
    }
  }

  lemma UnpackInjective(idx: seq<nat>, known: seq<nat>)
    requires (forall i | 0 <= i < |idx| :: idx[i] < LIST_SIZE) && (forall i | 0 <= i < |known| :: known[i] < LIST_SIZE)
    requires Unpack(idx, 11) == Unpack(known, 11)
    ensures idx == known
  {
    assert Pow2(11) == LIST_SIZE;
    PackUnpackRest(idx, 11, []);
    PackUnpackRest(known, 11, []);
    assert Unpack(idx, 11) + [] == Unpack(idx, 11) && Unpack(known, 11) + [] == Unpack(known, 11);
    assert idx + [] == idx && known + [] == known;
  }

  // ---- the bits of the words -----------------------------------------------------------

  // The words spell the mnemonic's bits, w = 11 each, the highest first.
  lemma WordBit(hash: Hash, entropy: seq<Byte>, w: nat, k: nat, b: nat, i: nat)
    requires GoodSize(entropy) && w == 11 && k < |Indices(hash, entropy)| && b < w && i == k * w + b
    ensures i < |MnemonicBits(hash, entropy)|
    ensures MnemonicBits(hash, entropy)[i] <==> Bit(Indices(hash, entropy)[k], w - 1 - b)
  {
    BitOfWord(Indices(hash, entropy), MnemonicBits(hash, entropy), w, k, b, i);
  }

  lemma BitOfWord(idx: seq<nat>, bits: seq<bool>, w: nat, k: nat, b: nat, i: nat)
    requires Unpack(idx, w) == bits && k < |idx| && b < w && i == k * w + b
    ensures i < |bits| && (bits[i] <==> Bit(idx[k], w - 1 - b))
  {
    BitAt(idx, w, k, b);
  }

  // These are the entropy's bits, eight a byte, the highest first.
  lemma EntropyBit(hash: Hash, entropy: seq<Byte>, j: nat, c: nat)
    requires GoodSize(entropy) && j < |entropy| && c < 8
    ensures MnemonicBits(hash, entropy)[j * 8 + c] <==> Bit(entropy[j], 7 - c)
  {
    BitAt(entropy, 8, j, c);
    StartsWith(Unpack(entropy, 8), BitsOf(hash(entropy)[0], 8)[..|entropy| / 4], j * 8 + c);
  }

  // And after them the highest of the first byte of the entropy's hash, one for every 32.
  lemma CheckBit(hash: Hash, entropy: seq<Byte>, c: nat)
    requires GoodSize(entropy) && c < |entropy| / 4
    ensures |MnemonicBits(hash, entropy)| == 8 * |entropy| + |entropy| / 4
    ensures MnemonicBits(hash, entropy)[8 * |entropy| + c] <==> Bit(hash(entropy)[0], 7 - c)
  {
    UnpackLength(entropy, 8);
    BitOf(hash(entropy)[0], 8, c);
  }

  lemma StartsWith(a: seq<bool>, b: seq<bool>, i: nat)
    requires i < |a|
    ensures (a + b)[i] == a[i]
  {
  }
}
