/** The BLAKE3 tree hash as sections 2.1 and 2.4 to 2.6 of the BLAKE3 specification
    define it: blocks chained into chunk values, chunk values joined by a binary tree
    whose left side is as large a full power of two as possible, and a root output
    of any length. The compression function is a parameter: everything here holds
    for every function of its type. */
module HashTree {
  import opened Statuses

  const BLOCK_BYTES: nat := 64
  const CHUNK_BYTES: nat := 1024

  type Byte = b: int | 0 <= b < 256
  type Word = w: int | 0 <= w < 0x1_0000_0000

  /** Eight words: a chaining value, or half a block. */
  datatype Words8 = Words8(w0: Word, w1: Word, w2: Word, w3: Word, w4: Word, w5: Word, w6: Word, w7: Word) {
    function At(i: nat): Word
      requires i < 8
    {
      match i
      case 0 => w0
      case 1 => w1
      case 2 => w2
      case 3 => w3
      case 4 => w4
      case 5 => w5
      case 6 => w6
      case _ => w7
    }
  }

  /** Sixteen words: a message block, or what the compression function returns. */
  datatype Words16 = Words16(low: Words8, high: Words8) {
    function At(i: nat): Word
      requires i < 16
    {
      if i < 8 then low.At(i) else high.At(i - 8)
    }
  }

  const IV :=
    Words8(0x6A09E667, 0xBB67AE85, 0x3C6EF372, 0xA54FF53A, 0x510E527F, 0x9B05688C, 0x1F83D9AB, 0x5BE0CD19)

  /** The flag bits; no two uses overlap, so each bit is a field. */
  datatype Flags = Flags(chunkStart: bool, chunkEnd: bool, parent: bool, root: bool)

  /** The five arguments of the compression function; also what a node of the tree
      keeps until it is known whether the node is the root. */
  datatype Output = Output(inputCv: Words8, block: Words16, counter: nat, blockLen: nat, flags: Flags)

  type Compression = Output -> Words16

  function Cv(compress: Compression, o: Output): Words8 {
    compress(o).low
  }

  function ByteOrZero(block: seq<Byte>, k: nat): Byte {
    if k < |block| then block[k] else 0
  }

  function LoadWord(block: seq<Byte>, k: nat): Word {
    ByteOrZero(block, k) + 0x100 * ByteOrZero(block, k + 1)
    + 0x1_0000 * ByteOrZero(block, k + 2) + 0x100_0000 * ByteOrZero(block, k + 3)
  }

  function LoadWords8(block: seq<Byte>, k: nat): Words8 {
    Words8(LoadWord(block, k), LoadWord(block, k + 4), LoadWord(block, k + 8), LoadWord(block, k + 12),
           LoadWord(block, k + 16), LoadWord(block, k + 20), LoadWord(block, k + 24), LoadWord(block, k + 28))
  }

  /** A block as sixteen little-endian words, padded with zero bytes. */
  function BlockWords(block: seq<Byte>): Words16 {
    Words16(LoadWords8(block, 0), LoadWords8(block, 32))
  }

  function StoreByte(word: Word, k: nat): Byte
    requires k < 4
  {
    if k == 0 then word % 0x100
    else if k == 1 then word / 0x100 % 0x100
    else if k == 2 then word / 0x1_0000 % 0x100
    else word / 0x100_0000
  }

  /** The last block's output of a chunk, after chaining through the blocks before it. */
  function ChunkFrom(compress: Compression, bytes: seq<Byte>, counter: nat, cv: Words8, isStart: bool): Output
    decreases |bytes|
  {
    if |bytes| <= BLOCK_BYTES then
      Output(cv, BlockWords(bytes), counter, |bytes|, Flags(isStart, true, false, false))
    else
      var head := Output(cv, BlockWords(bytes[..BLOCK_BYTES]), counter, BLOCK_BYTES,
                         Flags(isStart, false, false, false));
      ChunkFrom(compress, bytes[BLOCK_BYTES..], counter, Cv(compress, head), false)
  }

  function ChunkOutput(compress: Compression, bytes: seq<Byte>, counter: nat): Output {
    ChunkFrom(compress, bytes, counter, IV, true)
  }

  function ParentOutput(left: Words8, right: Words8): Output {
    Output(IV, Words16(left, right), 0, BLOCK_BYTES, Flags(false, false, true, false))
  }

  function Join(compress: Compression, left: Output, right: Output): Output {
    ParentOutput(Cv(compress, left), Cv(compress, right))
  }

  /** How many chunks lie before the last one: the last chunk of a non-empty input is never empty. */
  function ChunksBeforeLast(n: nat): nat {
    if n == 0 then 0 else (n - 1) / CHUNK_BYTES
  }

  function ChunkAt(input: seq<Byte>, i: nat): seq<Byte>
    requires i <= ChunksBeforeLast(|input|)
  {
    input[CHUNK_BYTES * i..Min(CHUNK_BYTES * (i + 1), |input|)]
  }

  function Leaves(compress: Compression, input: seq<Byte>): (leaves: seq<Output>)
    ensures |leaves| == ChunksBeforeLast(|input|) + 1
  {
    seq(ChunksBeforeLast(|input|) + 1,
        i requires 0 <= i <= ChunksBeforeLast(|input|) => ChunkOutput(compress, ChunkAt(input, i), i))
  }

  predicate IsPowerOfTwo(n: nat) {
    n == 1 || (n > 0 && n % 2 == 0 && IsPowerOfTwo(n / 2))
  }

  /** The size of the left subtree over n leaves: the largest power of two below n. */
  function LeftSize(n: nat): (left: nat)
    requires n >= 2
    ensures IsPowerOfTwo(left) && left < n <= 2 * left
    ensures n > 2 ==> left % 2 == 0
  {
    if n == 2 then 1 else 2 * LeftSize((n + 1) / 2)
  }

  lemma {:induction false} LargestPowerBelow(n: nat, p: nat)
    requires n >= 2 && IsPowerOfTwo(p) && p < n
    ensures p <= LeftSize(n)
  {
    if p > 1 {
      LargestPowerBelow((n + 1) / 2, p / 2);
    }
  }

  /** The binary tree of section 2.1 over at least one leaf. */
  function Tree(compress: Compression, leaves: seq<Output>): Output
    requires |leaves| > 0
    decreases |leaves|
  {
    if |leaves| == 1 then leaves[0]
    else
      var left := LeftSize(|leaves|);
      Join(compress, Tree(compress, leaves[..left]), Tree(compress, leaves[left..]))
  }

  /** Byte k of the extendable output: the root is compressed again with block counter k / 64. */
  function RootByte(compress: Compression, root: Output, k: nat): Byte {
    StoreByte(compress(root.(counter := k / 64, flags := root.flags.(root := true))).At(k % 64 / 4), k % 4)
  }

  function RootBytes(compress: Compression, root: Output, n: nat): seq<Byte> {
    seq(n, k requires 0 <= k < n => RootByte(compress, root, k))
  }

  /** The BLAKE3 hash of `input`, `n` bytes long. */
  function Blake3(compress: Compression, input: seq<Byte>, n: nat): seq<Byte> {
    RootBytes(compress, Tree(compress, Leaves(compress, input)), n)
  }

  // ---- The tree one level at a time ------------------------------------------

  /** Join neighbours pairwise; a leaf without a partner moves up unchanged. */
  function Collapse(compress: Compression, leaves: seq<Output>): (up: seq<Output>)
    ensures |up| == (|leaves| + 1) / 2
    ensures forall i :: 0 <= i < |leaves| / 2 ==> up[i] == Join(compress, leaves[2 * i], leaves[2 * i + 1])
    ensures |leaves| % 2 == 1 ==> up[|leaves| / 2] == leaves[|leaves| - 1]
  {
    seq((|leaves| + 1) / 2, i requires 0 <= i < (|leaves| + 1) / 2 =>
      if 2 * i + 1 < |leaves| then Join(compress, leaves[2 * i], leaves[2 * i + 1]) else leaves[2 * i])
  }

  lemma {:induction false} CollapseSplits(compress: Compression, leaves: seq<Output>, left: nat)
    requires left <= |leaves| && left % 2 == 0
    ensures Collapse(compress, leaves)[..left / 2] == Collapse(compress, leaves[..left])
    ensures Collapse(compress, leaves)[left / 2..] == Collapse(compress, leaves[left..])
  {
  }

  lemma {:induction false} TreeSplits(compress: Compression, leaves: seq<Output>, left: nat)
    requires |leaves| >= 2 && left == LeftSize(|leaves|)
    ensures Tree(compress, leaves) == Join(compress, Tree(compress, leaves[..left]), Tree(compress, leaves[left..]))
  {
  }

  /** Building the tree level by level gives the tree the left-full recursion gives. */
  lemma {:induction false} TreeByLevels(compress: Compression, leaves: seq<Output>)
    requires |leaves| > 0
    ensures Tree(compress, leaves) == Tree(compress, Collapse(compress, leaves))
    decreases |leaves|
  {
    var left := if |leaves| > 1 then LeftSize(|leaves|) else 0;
    var up := Collapse(compress, leaves);
    if |leaves| == 1 {
      assert up == leaves;
    } else if |leaves| == 2 {
      assert leaves[..1] == [leaves[0]] && leaves[1..] == [leaves[1]];
    } else {
      assert LeftSize(|up|) == left / 2;
      hide Collapse, Tree, LeftSize;
      TreeSplits(compress, leaves, left);
      TreeSplits(compress, up, left / 2);
      CollapseSplits(compress, leaves, left);
      TreeByLevels(compress, leaves[..left]);
      TreeByLevels(compress, leaves[left..]);
    }
  }

  // ---- The stack of chaining values (section 5.1.2) -----------------------------

  function PairUp(compress: Compression, cvs: seq<Words8>): (up: seq<Words8>)
    ensures |up| == |cvs| / 2
    ensures forall i :: 0 <= i < |up| ==> up[i] == Cv(compress, ParentOutput(cvs[2 * i], cvs[2 * i + 1]))
  {
    seq(|cvs| / 2, i requires 0 <= i < |cvs| / 2 => Cv(compress, ParentOutput(cvs[2 * i], cvs[2 * i + 1])))
  }

  /** What the stack holds once the chunks with these chaining values are complete:
      one value per set bit of their number. */
  function Stack(compress: Compression, cvs: seq<Words8>): (stack: seq<Words8>)
    decreases |cvs|
  {
    if cvs == [] then []
    else Stack(compress, PairUp(compress, cvs)) + if |cvs| % 2 == 1 then [cvs[|cvs| - 1]] else []
  }

  function Cvs(compress: Compression, leaves: seq<Output>): (cvs: seq<Words8>)
    ensures |cvs| == |leaves|
  {
    seq(|leaves|, i requires 0 <= i < |leaves| => Cv(compress, leaves[i]))
  }

  /** The right-to-left merge that ends the hash: the newest output joins the top of the
      stack again and again. */
  function MergeDown(compress: Compression, stack: seq<Words8>, last: Output): Output {
    if stack == [] then last
    else MergeDown(compress, stack[..|stack| - 1], ParentOutput(stack[|stack| - 1], Cv(compress, last)))
  }

  lemma {:induction false} PairUpIsCollapse(compress: Compression, full: seq<Output>, last: Output, up: seq<Output>)
    requires up == Collapse(compress, full + [last])
    ensures PairUp(compress, Cvs(compress, full)) == Cvs(compress, up[..|up| - 1])
    ensures up[|up| - 1] == if |full| % 2 == 1 then Join(compress, full[|full| - 1], last) else last
  {
  }

  /** The stack is the stack one level up, and on top of it the value left without a partner. */
  lemma {:induction false} StackSplits(compress: Compression, cvs: seq<Words8>)
    requires cvs != []
    ensures var stack, above := Stack(compress, cvs), Stack(compress, PairUp(compress, cvs));
            if |cvs| % 2 == 0 then stack == above
            else stack != [] && stack[..|stack| - 1] == above && stack[|stack| - 1] == cvs[|cvs| - 1]
  {
  }

  lemma {:induction false} MergeOneLevel(compress: Compression, full: seq<Output>, last: Output, up: seq<Output>)
    requires full != [] && up == Collapse(compress, full + [last])
    ensures MergeDown(compress, Stack(compress, Cvs(compress, full)), last)
         == MergeDown(compress, Stack(compress, Cvs(compress, up[..|up| - 1])), up[|up| - 1])
  {
    PairUpIsCollapse(compress, full, last, up);
    StackSplits(compress, Cvs(compress, full));
  }

  /** Merging the stack with the last leaf yields the root of the whole tree. */
  lemma {:induction false} MergeGivesTree(compress: Compression, leaves: seq<Output>)
    requires |leaves| > 0
    ensures MergeDown(compress, Stack(compress, Cvs(compress, leaves[..|leaves| - 1])), leaves[|leaves| - 1])
         == Tree(compress, leaves)
    decreases |leaves|
  {
    if |leaves| > 1 {
      var full, last := leaves[..|leaves| - 1], leaves[|leaves| - 1];
      assert full + [last] == leaves;
      var up := Collapse(compress, leaves);
      MergeOneLevel(compress, full, last, up);
      TreeByLevels(compress, leaves);
      MergeGivesTree(compress, up);
    }
  }

  lemma {:induction false} PairUpAppend(compress: Compression, cvs: seq<Words8>, cv: Words8)
    ensures |cvs| % 2 == 0 ==> PairUp(compress, cvs + [cv]) == PairUp(compress, cvs)
    ensures |cvs| % 2 == 1 ==>
      PairUp(compress, cvs + [cv]) == PairUp(compress, cvs) + [Cv(compress, ParentOutput(cvs[|cvs| - 1], cv))]
  {
  }

  /** Adding a chaining value when the number of values is even only pushes it. */
  lemma {:induction false} PushOntoEven(compress: Compression, cvs: seq<Words8>, cv: Words8)
    requires |cvs| % 2 == 0
    ensures Stack(compress, cvs + [cv]) == Stack(compress, cvs) + [cv]
  {
    PairUpAppend(compress, cvs, cv);
    StackSplits(compress, cvs + [cv]);
    if cvs != [] {
      StackSplits(compress, cvs);
    }
  }

  /** When it is odd, the value joins the top of the stack and the same question is asked
      one level up. */
  lemma {:induction false} PushOntoOdd(compress: Compression, cvs: seq<Words8>, stack: seq<Words8>, cv: Words8)
    requires |cvs| % 2 == 1 && stack == Stack(compress, cvs)
    ensures stack != [] && stack[..|stack| - 1] == Stack(compress, PairUp(compress, cvs))
    ensures Stack(compress, cvs + [cv])
         == Stack(compress, PairUp(compress, cvs) + [Cv(compress, ParentOutput(stack[|stack| - 1], cv))])
  {
    PairUpAppend(compress, cvs, cv);
    StackSplits(compress, cvs + [cv]);
    StackSplits(compress, cvs);
  }

  function PopCount(n: nat): nat {
    if n == 0 then 0 else PopCount(n / 2) + n % 2
  }

  lemma {:induction false} StackLength(compress: Compression, cvs: seq<Words8>)
    ensures |Stack(compress, cvs)| == PopCount(|cvs|)
    decreases |cvs|
  {
    if cvs != [] {
      StackLength(compress, PairUp(compress, cvs));
    }
  }

  function Double(sizes: seq<nat>): seq<nat> {
    seq(|sizes|, i requires 0 <= i < |sizes| => 2 * sizes[i])
  }

  /** The set bits of k as powers of two, largest first. */
  function BitSizes(k: nat): (sizes: seq<nat>)
    ensures |sizes| == PopCount(k)
  {
    if k == 0 then [] else Double(BitSizes(k / 2)) + if k % 2 == 1 then [1] else []
  }

  function Sum(sizes: seq<nat>): nat {
    if sizes == [] then 0 else Sum(sizes[..|sizes| - 1]) + sizes[|sizes| - 1]
  }

  lemma {:induction false} SumDouble(sizes: seq<nat>)
    ensures Sum(Double(sizes)) == 2 * Sum(sizes)
  {
    if sizes != [] {
      assert Double(sizes)[..|sizes| - 1] == Double(sizes[..|sizes| - 1]);
      SumDouble(sizes[..|sizes| - 1]);
    }
  }

  /** The sizes are powers of two in strictly decreasing order that add up to k. */
  lemma {:induction false} BitSizesShape(k: nat)
    ensures forall i :: 0 <= i < |BitSizes(k)| ==> IsPowerOfTwo(BitSizes(k)[i])
    ensures forall i, j :: 0 <= i < j < |BitSizes(k)| ==> BitSizes(k)[i] > BitSizes(k)[j]
    ensures Sum(BitSizes(k)) == k
  {
    if k != 0 {
      var low, sizes := BitSizes(k / 2), BitSizes(k);
      BitSizesShape(k / 2);
      SumDouble(low);
      assert sizes == Double(low) + if k % 2 == 1 then [1] else [];
      hide BitSizes;
      forall i | 0 <= i < |low|
        ensures IsPowerOfTwo(sizes[i])
      {
        assert sizes[i] / 2 == low[i];
      }
      if k % 2 == 1 {
        assert sizes[..|low|] == Double(low);
      } else {
        assert sizes == Double(low);
      }
    }
  }

  /** `cv` is the chaining value of the tree over the `size` leaves from `start` on. */
  predicate HoldsSubtree(compress: Compression, leaves: seq<Output>, cv: Words8, start: nat, size: nat)
  {
    && 0 < size && start + size <= |leaves|
    && cv == Cv(compress, Tree(compress, leaves[start..start + size]))
  }

  lemma {:induction false} CollapseEven(compress: Compression, leaves: seq<Output>, up: seq<Output>)
    requires up == Collapse(compress, leaves[..|leaves| / 2 * 2])
    ensures PairUp(compress, Cvs(compress, leaves)) == Cvs(compress, up)
  {
  }

  lemma {:induction false} CollapseSlice(compress: Compression, leaves: seq<Output>, start: nat, size: nat)
    requires start + size <= |leaves| / 2
    ensures Collapse(compress, leaves[..|leaves| / 2 * 2])[start..start + size]
         == Collapse(compress, leaves[2 * start..2 * start + 2 * size])
  {
    var even, below := leaves[..|leaves| / 2 * 2], leaves[2 * start..2 * start + 2 * size];
    forall i | 0 <= i < size
      ensures Collapse(compress, even)[start + i] == Collapse(compress, below)[i]
    {
      assert even[2 * (start + i)] == below[2 * i] && even[2 * (start + i) + 1] == below[2 * i + 1];
    }
  }

  /** A full subtree one level up is a full subtree over twice as many leaves. */
  lemma {:induction false} SubtreeBelow(compress: Compression, leaves: seq<Output>, up: seq<Output>,
                                        cv: Words8, start: nat, size: nat, below: seq<Output>)
    requires up == Collapse(compress, leaves[..|leaves| / 2 * 2])
    requires start + size <= |leaves| / 2
    requires HoldsSubtree(compress, up, cv, start, size)
    requires below == leaves[2 * start..2 * start + 2 * size]
    ensures HoldsSubtree(compress, leaves, cv, 2 * start, 2 * size)
  {
    CollapseSlice(compress, leaves, start, size);
    TreeByLevels(compress, below);
  }

  lemma {:induction false} LastLeafAlone(compress: Compression, leaves: seq<Output>)
    requires leaves != []
    ensures HoldsSubtree(compress, leaves, Cvs(compress, leaves)[|leaves| - 1], |leaves| - 1, 1)
  {
    assert leaves[|leaves| - 1..|leaves|] == [leaves[|leaves| - 1]];
  }

  lemma {:induction false} BitSizesBelow(k: nat, i: nat)
    requires i < PopCount(k)
    ensures var sizes, low := BitSizes(k), BitSizes(k / 2);
            if i < |low| then sizes[i] == 2 * low[i] && Sum(sizes[..i]) == 2 * Sum(low[..i])
            else i == |low| && sizes[i] == 1 && Sum(sizes[..i]) == k - 1
  {
    var low := BitSizes(k / 2);
    if i < |low| {
      assert BitSizes(k)[..i] == Double(low[..i]);
      SumDouble(low[..i]);
    } else {
      assert BitSizes(k)[..i] == Double(low);
      SumDouble(low);
      BitSizesShape(k / 2);
    }
  }

  /** Where value i on the stack comes from: one level up, or the last leaf. */
  lemma {:induction false} StackEntry(compress: Compression, leaves: seq<Output>, up: seq<Output>, i: nat)
    requires up == Collapse(compress, leaves[..|leaves| / 2 * 2]) && i < PopCount(|leaves|)
    ensures |Stack(compress, Cvs(compress, leaves))| == PopCount(|leaves|) && |up| == |leaves| / 2
    ensures var value := Stack(compress, Cvs(compress, leaves))[i];
            if i < PopCount(|up|) then
              i < |Stack(compress, Cvs(compress, up))| && value == Stack(compress, Cvs(compress, up))[i]
            else leaves != [] && value == Cvs(compress, leaves)[|leaves| - 1]
  {
    var cvs := Cvs(compress, leaves);
    CollapseEven(compress, leaves, up);
    StackLength(compress, cvs);
    StackLength(compress, Cvs(compress, up));
    assert PopCount(|leaves|) == PopCount(|leaves| / 2) + |leaves| % 2;
    StackSplits(compress, cvs);
  }

  lemma SubtreeWithin(compress: Compression, leaves: seq<Output>, cv: Words8, start: nat, size: nat)
    requires HoldsSubtree(compress, leaves, cv, start, size)
    ensures start + size <= |leaves|
  {
  }

  /** Value i on the stack is the root of the full subtree over the next BitSizes[i] leaves. */
  lemma {:induction false} StackHoldsSubtrees(compress: Compression, leaves: seq<Output>, i: nat)
    requires i < PopCount(|leaves|)
    ensures |Stack(compress, Cvs(compress, leaves))| == PopCount(|leaves|)
    ensures HoldsSubtree(compress, leaves, Stack(compress, Cvs(compress, leaves))[i],
                         Sum(BitSizes(|leaves|)[..i]), BitSizes(|leaves|)[i])
    decreases |leaves|
  {
    var k, up := |leaves|, Collapse(compress, leaves[..|leaves| / 2 * 2]);
    StackEntry(compress, leaves, up, i);
    BitSizesBelow(k, i);
    hide *;
    if i < PopCount(k / 2) {
      StackHoldsSubtrees(compress, up, i);
      var start, size := Sum(BitSizes(k / 2)[..i]), BitSizes(k / 2)[i];
      SubtreeWithin(compress, up, Stack(compress, Cvs(compress, up))[i], start, size);
      SubtreeBelow(compress, leaves, up, Stack(compress, Cvs(compress, up))[i], start, size,
                   leaves[2 * start..2 * start + 2 * size]);
    } else {
      LastLeafAlone(compress, leaves);
    }
  }

  /** No number below 2^m - 1 has m set bits, and 2^m - 1 has exactly m. */
  function AllOnes(m: nat): nat {
    if m == 0 then 0 else 2 * AllOnes(m - 1) + 1
  }

  lemma {:induction false} PopCountBound(n: nat, m: nat)
    requires n <= AllOnes(m)
    ensures PopCount(n) <= m
    ensures PopCount(n) == m <==> n == AllOnes(m)
    decreases m
  {
    if m > 0 {
      PopCountBound(n / 2, m - 1);
    }
  }
}
