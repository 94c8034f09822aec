/** What is hashed, word by word: the blocks of a chunk, the two halves of a parent block, and the bytes
    of the output, in the numbers of sections 2.1 to 2.6 of the BLAKE3 specification. */
module HashLayout {
  import opened Statuses
  import opened HashTree
  import Hash

  /** The initial value. */
  predicate Initial(cv: Words8) {
    && cv.At(0) == 0x6A09E667 && cv.At(1) == 0xBB67AE85 && cv.At(2) == 0x3C6EF372 && cv.At(3) == 0xA54FF53A
    && cv.At(4) == 0x510E527F && cv.At(5) == 0x9B05688C && cv.At(6) == 0x1F83D9AB && cv.At(7) == 0x5BE0CD19
  }

  /** Word i of `o` is word i of what compressing `from` gives. */
  predicate ChainedFrom(compress: Compression, cv: Words8, from: Output) {
    forall i | 0 <= i < 8 :: cv.At(i) == compress(from).At(i)
  }

  // ---- Parents ------------------------------------------------------------------------------------

  /** The block of a parent holds the left child's value in words 0 to 7 and the right child's in
      words 8 to 15. */
  predicate Parent(compress: Compression, o: Output, left: Output, right: Output) {
    && (forall i | 0 <= i < 8 :: o.block.At(i) == compress(left).At(i))
    && (forall i | 0 <= i < 8 :: o.block.At(8 + i) == compress(right).At(i))
    && Initial(o.inputCv) && o.counter == 0 && o.blockLen == 64
    && o.flags.parent && !o.flags.chunkStart && !o.flags.chunkEnd && !o.flags.root
  }

  /** The root over more than one chunk is the parent of the subtree over the largest power of two of
      chunks and of that over the rest. */
  lemma {:induction false} RootIsParent(compress: Compression, leaves: seq<Output>)
    requires |leaves| > 1
    ensures var n := LeftSize(|leaves|);
            Parent(compress, Tree(compress, leaves), Tree(compress, leaves[..n]), Tree(compress, leaves[n..]))
  {
    TreeSplits(compress, leaves, LeftSize(|leaves|));
  }

  // ---- Chunks -------------------------------------------------------------------------------------

  /** Byte k of a block, or zero behind its end. */
  function Padded(bytes: seq<Byte>, k: nat): int {
    if k < |bytes| then bytes[k] else 0
  }

  /** The block holds at most 64 of these bytes from `from` on, as sixteen little-endian words. */
  predicate Holds(block: Words16, bytes: seq<Byte>, from: nat) {
    forall i | 0 <= i < 16 ::
      block.At(i) == Padded(bytes, from + 4 * i) + 256 * Padded(bytes, from + 4 * i + 1)
                     + 65536 * Padded(bytes, from + 4 * i + 2) + 16777216 * Padded(bytes, from + 4 * i + 3)
  }

  /** Block j of a chunk of n blocks, numbered `counter`. */
  predicate BlockOf(o: Output, bytes: seq<Byte>, counter: nat, j: nat, n: nat) {
    && o.counter == counter && 64 * j <= |bytes| && o.blockLen == Min(|bytes| - 64 * j, 64)
    && Holds(o.block, bytes, 64 * j)
    && (o.flags.chunkStart <==> j == 0) && (o.flags.chunkEnd <==> j == n - 1) && !o.flags.parent && !o.flags.root
  }

  /** The blocks of a chunk of n blocks, from block j on, each chained to the one before. */
  predicate Chain(compress: Compression, blocks: seq<Output>, bytes: seq<Byte>, counter: nat, j: nat, n: nat) {
    && |blocks| == n - j
    && (forall k | 0 <= k < |blocks| :: BlockOf(blocks[k], bytes, counter, j + k, n))
    && forall k | 1 <= k < |blocks| :: ChainedFrom(compress, blocks[k].inputCv, blocks[k - 1])
  }

  /** The blocks of a chunk: as many as it takes, and one for the empty chunk. */
  predicate Blocks(compress: Compression, blocks: seq<Output>, bytes: seq<Byte>, counter: nat) {
    && Chain(compress, blocks, bytes, counter, 0, if bytes == [] then 1 else (|bytes| + 63) / 64)
    && blocks != [] && Initial(blocks[0].inputCv)
  }

  lemma PaddedIs(bytes: seq<Byte>, from: nat, block: seq<Byte>, k: nat)
    requires from <= |bytes| && block == bytes[from..Min(from + 64, |bytes|)] && k < 64
    ensures ByteOrZero(block, k) == Padded(bytes, from + k)
  {
  }

  lemma WordAt(block: seq<Byte>, i: nat)
    requires i < 16
    ensures BlockWords(block).At(i) == LoadWord(block, 4 * i)
  {
    hide LoadWord;
  }

  lemma {:induction false} WordsHold(bytes: seq<Byte>, from: nat, block: seq<Byte>)
    requires from <= |bytes| && block == bytes[from..Min(from + 64, |bytes|)]
    ensures Holds(BlockWords(block), bytes, from)
  {
    hide BlockWords, ByteOrZero, Padded, Words16.At;
    forall i | 0 <= i < 16
      ensures BlockWords(block).At(i)
           == Padded(bytes, from + 4 * i) + 256 * Padded(bytes, from + 4 * i + 1)
              + 65536 * Padded(bytes, from + 4 * i + 2) + 16777216 * Padded(bytes, from + 4 * i + 3)
    {
      WordAt(block, i);
      PaddedIs(bytes, from, block, 4 * i);
      PaddedIs(bytes, from, block, 4 * i + 1);
      PaddedIs(bytes, from, block, 4 * i + 2);
      PaddedIs(bytes, from, block, 4 * i + 3);
    }
  }

  /** The bytes from block j on. */
  function From(bytes: seq<Byte>, j: nat): seq<Byte> {
    if 64 * j <= |bytes| then bytes[64 * j..] else []
  }

  function BlockCount(bytes: seq<Byte>): (n: nat)
    ensures n > 0
  {
    if bytes == [] then 1 else (|bytes| + 63) / 64
  }

  /** This is block j, and what the rest of the chunk gives follows from it. */
  predicate Begins(compress: Compression, first: Output, bytes: seq<Byte>, counter: nat, cv: Words8, j: nat) {
    && first.inputCv == cv && BlockOf(first, bytes, counter, j, BlockCount(bytes))
    && ChunkFrom(compress, From(bytes, j), counter, cv, j == 0)
       == if j == BlockCount(bytes) - 1 then first
          else ChunkFrom(compress, From(bytes, j + 1), counter, Cv(compress, first), false)
  }

  lemma {:induction false} FirstBlock(compress: Compression, bytes: seq<Byte>, counter: nat, cv: Words8, j: nat)
    returns (first: Output)
    requires j < BlockCount(bytes)
    ensures Begins(compress, first, bytes, counter, cv, j)
  {
    var rest := From(bytes, j);
    var block := rest[..Min(|rest|, 64)];
    WordsHold(bytes, 64 * j, block);
    hide BlockWords, Holds;
    var isEnd := |rest| <= 64;
    first := Output(cv, BlockWords(block), counter, |block|, Flags(j == 0, isEnd, false, false));
    if isEnd {
      assert block == rest;
    } else {
      assert rest[64..] == From(bytes, j + 1);
    }
  }

  lemma {:induction false} ChainMore(compress: Compression, first: Output, more: seq<Output>, bytes: seq<Byte>,
                                     counter: nat, j: nat, n: nat)
    requires BlockOf(first, bytes, counter, j, n) && Chain(compress, more, bytes, counter, j + 1, n) && more != []
    requires ChainedFrom(compress, more[0].inputCv, first)
    ensures Chain(compress, [first] + more, bytes, counter, j, n)
  {
    hide BlockOf, ChainedFrom;
    var blocks := [first] + more;
    forall k | 0 <= k < |blocks|
      ensures BlockOf(blocks[k], bytes, counter, j + k, n)
      ensures k >= 1 ==> ChainedFrom(compress, blocks[k].inputCv, blocks[k - 1])
    {
      if k >= 1 {
        assert BlockOf(more[k - 1], bytes, counter, j + 1 + (k - 1), n);
      }
    }
  }

  /** These are the blocks from block j on, where the value chained so far is `cv`. */
  predicate Made(compress: Compression, blocks: seq<Output>, bytes: seq<Byte>, counter: nat, cv: Words8, j: nat) {
    && Chain(compress, blocks, bytes, counter, j, BlockCount(bytes)) && blocks != [] && blocks[0].inputCv == cv
    && blocks[|blocks| - 1] == ChunkFrom(compress, From(bytes, j), counter, cv, j == 0)
  }

  lemma {:induction false} BlocksFrom(compress: Compression, bytes: seq<Byte>, counter: nat, cv: Words8, j: nat)
    returns (blocks: seq<Output>)
    requires j < BlockCount(bytes)
    ensures Made(compress, blocks, bytes, counter, cv, j)
    decreases BlockCount(bytes) - j
  {
    var first := FirstBlock(compress, bytes, counter, cv, j);
    hide *;
    if j == BlockCount(bytes) - 1 {
      MadeOne(compress, first, bytes, counter, cv, j);
      blocks := [first];
    } else {
      var more := BlocksFrom(compress, bytes, counter, Cv(compress, first), j + 1);
      MadeMore(compress, first, more, bytes, counter, cv, j);
      blocks := [first] + more;
    }
  }

  lemma {:induction false} MadeOne(compress: Compression, first: Output, bytes: seq<Byte>, counter: nat, cv: Words8,
                                   j: nat)
    requires Begins(compress, first, bytes, counter, cv, j) && j == BlockCount(bytes) - 1
    ensures Made(compress, [first], bytes, counter, cv, j)
  {
    hide ChunkFrom, BlockOf, BlockCount, From;
  }

  lemma {:induction false} MadeMore(compress: Compression, first: Output, more: seq<Output>, bytes: seq<Byte>,
                                    counter: nat, cv: Words8, j: nat)
    requires Begins(compress, first, bytes, counter, cv, j) && j != BlockCount(bytes) - 1
    requires Made(compress, more, bytes, counter, Cv(compress, first), j + 1)
    ensures Made(compress, [first] + more, bytes, counter, cv, j)
  {
    hide ChunkFrom, BlockOf, BlockCount, From;
    assert ChainedFrom(compress, more[0].inputCv, first);
    ChainMore(compress, first, more, bytes, counter, j, BlockCount(bytes));
    hide Chain;
  }

  /** The output of a chunk is its last block, uncompressed. */
  lemma {:induction false} ChunkIsBlocks(compress: Compression, bytes: seq<Byte>, counter: nat)
    returns (blocks: seq<Output>)
    ensures Blocks(compress, blocks, bytes, counter)
    ensures blocks[|blocks| - 1] == ChunkOutput(compress, bytes, counter)
  {
    blocks := BlocksFrom(compress, bytes, counter, IV, 0);
    assert From(bytes, 0) == bytes;
  }

  /** Leaf i is the chunk of up to 1024 bytes from byte 1024 * i on, numbered i; only the last one may be
      shorter, and it is empty only for the empty input. */
  lemma {:induction false} LeafIsChunk(compress: Compression, input: seq<Byte>, i: nat) returns (blocks: seq<Output>)
    requires i < |Leaves(compress, input)|
    ensures |Leaves(compress, input)| == (if input == [] then 1 else (|input| + 1023) / 1024)
    ensures 1024 * i <= |input|
    ensures Blocks(compress, blocks, input[1024 * i..Min(1024 * i + 1024, |input|)], i)
    ensures blocks[|blocks| - 1] == Leaves(compress, input)[i]
  {
    blocks := ChunkIsBlocks(compress, ChunkAt(input, i), i);
    hide Blocks, ChunkOutput;
  }

  // ---- The output ---------------------------------------------------------------------------------

  function Little(a: int, b: int, c: int, d: int): int {
    a + 256 * b + 65536 * c + 16777216 * d
  }

  lemma StoredWord(word: Word)
    ensures Little(StoreByte(word, 0), StoreByte(word, 1), StoreByte(word, 2), StoreByte(word, 3)) == word
  {
    var one, two, three := word / 256, word / 65536, word / 16777216;
    assert one / 256 == two && two / 256 == three;
    assert word == word % 256 + 256 * one && one == one % 256 + 256 * two && two == two % 256 + 256 * three;
  }

  lemma {:induction false} OutputByte(compress: Compression, root: Output, b: nat, w: nat, m: nat)
    requires w < 16 && m < 4
    ensures var again := Output(root.inputCv, root.block, b, root.blockLen,
                                Flags(root.flags.chunkStart, root.flags.chunkEnd, root.flags.parent, true));
            RootByte(compress, root, 64 * b + 4 * w + m) == StoreByte(compress(again).At(w), m)
  {
    hide StoreByte;
    PlaceOfByte(b, w, m);
  }

  lemma PlaceOfByte(b: nat, w: nat, m: nat)
    requires w < 16 && m < 4
    ensures var k := 64 * b + 4 * w + m; k / 64 == b && k % 64 / 4 == w && k % 4 == m
  {
    Div64(b, 4 * w + m);
    Div4(w, m);
    Div4(16 * b + w, m);
  }

  lemma Div64(q: nat, r: nat)
    requires r < 64
    ensures (64 * q + r) / 64 == q && (64 * q + r) % 64 == r
  {
  }

  lemma Div4(q: nat, r: nat)
    requires r < 4
    ensures (4 * q + r) / 4 == q && (4 * q + r) % 4 == r
  {
  }

  /** Four bytes of the output, little-endian, are word w of the root compressed as such with the number
      of the 64-byte block as its counter. */
  lemma {:induction false} OutputWords(compress: Compression, root: Output, n: nat, b: nat, w: nat)
    requires w < 16 && 64 * b + 4 * w + 4 <= n
    ensures var out := RootBytes(compress, root, n);
            var again := Output(root.inputCv, root.block, b, root.blockLen,
                                Flags(root.flags.chunkStart, root.flags.chunkEnd, root.flags.parent, true));
            var k := 64 * b + 4 * w;
            |out| == n && Little(out[k], out[k + 1], out[k + 2], out[k + 3]) == compress(again).At(w)
  {
    var again := Output(root.inputCv, root.block, b, root.blockLen,
                        Flags(root.flags.chunkStart, root.flags.chunkEnd, root.flags.parent, true));
    OutputByte(compress, root, b, w, 0);
    OutputByte(compress, root, b, w, 1);
    OutputByte(compress, root, b, w, 2);
    OutputByte(compress, root, b, w, 3);
    StoredWord(compress(again).At(w));
    hide Little, StoreByte, RootByte, Words16.At;
  }

  /** A shorter output is the beginning of a longer one. */
  lemma {:induction false} OutputPrefix(compress: Compression, root: Output, n: nat, m: nat)
    requires n <= m
    ensures RootBytes(compress, root, n) == RootBytes(compress, root, m)[..n]
  {
  }

  // ---- All of it ------------------------------------------------------------------------------------

  /** What the streaming hasher writes, however the input comes in pieces: the first bytes of the output
      of the root; the root is the only chunk, or the parent of its two subtrees. */
  method HashSpelledOut(compress: Compression, pieces: seq<seq<Byte>>, n: nat)
    returns (hash: seq<Byte>, ghost root: Output, ghost leaves: seq<Output>)
    requires n > 0 && |Hash.Concat(pieces)| < 18446744073709551616
    ensures |leaves| == (if Hash.Concat(pieces) == [] then 1 else (|Hash.Concat(pieces)| + 1023) / 1024)
    ensures hash == RootBytes(compress, root, n) && root == Tree(compress, leaves)
    ensures leaves == Leaves(compress, Hash.Concat(pieces))
    ensures |leaves| == 1 ==> root == leaves[0]
    ensures |leaves| > 1 ==> var m := LeftSize(|leaves|);
                             Parent(compress, root, Tree(compress, leaves[..m]), Tree(compress, leaves[m..]))
  {
    hash := Hash.HashInPieces(compress, pieces, n);
    leaves := Leaves(compress, Hash.Concat(pieces));
    root := Tree(compress, leaves);
    if |leaves| > 1 {
      RootIsParent(compress, leaves);
    }
  }
}
