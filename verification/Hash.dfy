/** The incremental hasher of src/core/hash.c: a chunk buffer that is flushed only when
    more input follows, and a stack of chaining values that merges like a binary counter. */
module Hash {
  import opened Statuses
  import opened HashTree

  const MAX_DEPTH: nat := 54

  /** 2^55 - 1: the first number of flushed chunks with more than MAX_DEPTH set bits. */
  const MAX_CHUNKS: nat := 0x7F_FFFF_FFFF_FFFF

  /** Absorb a chunk block by block; the last block's output is returned uncompressed. */
  method ChunkOutputOf(compress: Compression, chunk: array<Byte>, chunkLen: nat, counter: nat) returns (output: Output)
    requires chunkLen <= chunk.Length
    ensures output == ChunkOutput(compress, chunk[..chunkLen], counter)
  {
    hide BlockWords;
    ghost var bytes, target := chunk[..chunkLen], ChunkOutput(compress, chunk[..chunkLen], counter);
    var cv := IV;
    output := Output(cv, BlockWords([]), counter, 0, Flags(true, true, false, false));
    var offset := 0;
    ghost var rest := bytes;
    while offset < chunkLen || (chunkLen == 0 && offset == 0)
      invariant 0 <= offset <= chunkLen && rest == bytes[offset..]
      invariant offset < chunkLen || chunkLen == 0 ==> ChunkFrom(compress, rest, counter, cv, offset == 0) == target
      invariant 0 < offset == chunkLen ==> output == target
      decreases chunkLen - offset
    {
      var blockLen := Min(chunkLen - offset, BLOCK_BYTES);
      var isEnd := offset + blockLen == chunkLen;
      var block := chunk[offset..offset + blockLen];
      assert block == rest[..blockLen] by {
        assert forall k :: 0 <= k < blockLen ==> block[k] == bytes[offset + k] == rest[k];
      }
      assert rest[blockLen..] == bytes[offset + blockLen..];
      output := Output(cv, BlockWords(block), counter, blockLen, Flags(offset == 0, isEnd, false, false));
      if !isEnd {
        cv := Cv(compress, output);
      } else {
        assert block == rest;
      }
      if chunkLen == 0 {
        break;
      }
      offset := offset + blockLen;
      rest := rest[blockLen..];
    }
  }

  /** Fill `out` from the root, compressing it once per 64 bytes. */
  method OutputRootBytes(compress: Compression, root: Output, out: array<Byte>)
    modifies out
    ensures out[..] == RootBytes(compress, root, out.Length)
  {
    hide StoreByte;
    var produced, block := 0, 0;
    while produced < out.Length
      invariant 0 <= produced <= out.Length
      invariant produced == 64 * block || produced == out.Length
      invariant forall k :: 0 <= k < produced ==> out[k] == RootByte(compress, root, k)
    {
      var words := compress(root.(counter := block, flags := root.flags.(root := true)));
      var take := Min(out.Length - produced, 64);
      forall k | 0 <= k < take {
        out[produced + k] := StoreByte(words.At(k / 4), k % 4);
      }
      forall k | produced <= k < produced + take
        ensures out[k] == RootByte(compress, root, k)
      {
        assert k == produced + (k - produced);
      }
      produced := produced + take;
      block := block + 1;
    }
  }

  class Hasher {
    const compress: Compression
    const cvStack: array<Words8>
    var cvStackLen: nat
    const chunk: array<Byte>
    var chunkLen: nat
    var chunkCounter: nat
    /** All bytes given to Update so far. */
    ghost var absorbed: seq<Byte>
    /** Chaining values of the chunks flushed so far. */
    ghost var cvs: seq<Words8>

    ghost predicate Sizes()
      reads this
    {
      && cvStack.Length == MAX_DEPTH && chunk.Length == CHUNK_BYTES
      && cvStackLen <= MAX_DEPTH && chunkLen <= CHUNK_BYTES && chunkCounter < MAX_CHUNKS
      && |absorbed| == CHUNK_BYTES * chunkCounter + chunkLen
    }

    ghost predicate Contents()
      requires Sizes()
      reads this, chunk, cvStack
    {
      && chunk[..chunkLen] == absorbed[CHUNK_BYTES * chunkCounter..]
      && cvs == ChunkCvs(compress, absorbed, chunkCounter)
      && StackIs(cvs)
    }

    /** What also holds right after a flush, while more input is known to follow. */
    ghost predicate Core()
      reads this, cvStack, chunk
    {
      Sizes() && Contents()
    }

    ghost predicate StackIs(cvs: seq<Words8>)
      requires cvStackLen <= cvStack.Length
      reads this`cvStackLen, cvStack
    {
      cvStack[..cvStackLen] == Stack(compress, cvs)
    }

    ghost predicate Valid()
      reads this, cvStack, chunk
    {
      // The buffer is empty only before the first byte.
      Core() && (chunkLen == 0 ==> absorbed == [])
    }

    constructor (compress: Compression)
      ensures Valid() && absorbed == [] && this.compress == compress
      ensures fresh(cvStack) && fresh(chunk)
    {
      this.compress := compress;
      cvStack := new Words8[MAX_DEPTH](_ => IV);
      chunk := new Byte[CHUNK_BYTES](_ => 0);
      cvStackLen, chunkLen, chunkCounter, absorbed, cvs := 0, 0, 0, [], [];
    }

    /** Push the value of the chunk just completed, joining finished subtrees first. */
    method PushCv(cvIn: Words8, totalChunks: nat) returns (status: Status)
      requires cvStack.Length == MAX_DEPTH && cvStackLen <= MAX_DEPTH && totalChunks > 0
      modifies this`cvStackLen, cvStack
      ensures cvStackLen <= MAX_DEPTH
      ensures Pushed(status, cvStack[..cvStackLen]) == Push(compress, old(cvStack[..cvStackLen]), cvIn, totalChunks)
    {
      var cv, total := cvIn, totalChunks;
      while total % 2 == 0
        invariant total > 0 && cvStackLen <= MAX_DEPTH
        invariant Push(compress, cvStack[..cvStackLen], cv, total)
               == Push(compress, old(cvStack[..cvStackLen]), cvIn, totalChunks)
        decreases total
      {
        if cvStackLen == 0 {
          return Internal;
        }
        ghost var stack := cvStack[..cvStackLen];
        cvStackLen := cvStackLen - 1;
        assert cvStack[..cvStackLen] == stack[..|stack| - 1];
        cv := Cv(compress, ParentOutput(cvStack[cvStackLen], cv));
        total := total / 2;
      }
      if cvStackLen >= MAX_DEPTH {
        return Limit;
      }
      cvStack[cvStackLen] := cv;
      cvStackLen := cvStackLen + 1;
      return Ok;
    }

    /** Turn the full buffer into a chaining value. */
    method FlushChunk() returns (status: Status)
      requires Core() && chunkLen == CHUNK_BYTES
      modifies this`chunkLen, this`chunkCounter, this`cvStackLen, this`cvs, cvStack
      ensures status == if old(chunkCounter) + 1 < MAX_CHUNKS then Ok else Limit
      ensures status == Ok ==> Core() && chunkLen == 0 && chunkCounter == old(chunkCounter) + 1
    {
      hide Stack, ChunkCvs, ChunkOutput;
      if chunkLen == 0 {
        return Ok;
      }
      ghost var k := chunkCounter;
      assert absorbed[CHUNK_BYTES * k..] == absorbed[CHUNK_BYTES * k..CHUNK_BYTES * (k + 1)];
      var output := ChunkOutputOf(compress, chunk, chunkLen, chunkCounter);
      var cv := Cv(compress, output);
      chunkCounter := chunkCounter + 1;
      chunkLen := 0;
      ChunkCvsNext(compress, absorbed, chunkCounter, cvs, cv);
      status := PushNext(cv, chunkCounter);
      DepthSuffices(chunkCounter);
    }

    /** PushCv on the stack of all flushed chunks. */
    method PushNext(cv: Words8, totalChunks: nat) returns (status: Status)
      requires cvStack.Length == MAX_DEPTH && cvStackLen <= MAX_DEPTH
      requires StackIs(cvs) && totalChunks == |cvs| + 1
      modifies this`cvStackLen, this`cvs, cvStack
      ensures cvStackLen <= MAX_DEPTH && cvs == old(cvs) + [cv]
      ensures status == if PopCount(totalChunks) <= MAX_DEPTH then Ok else Limit
      ensures status == Ok ==> StackIs(cvs)
    {
      PushIsStack(compress, cvs, cv, cvStack[..cvStackLen], Stack(compress, cvs + [cv]));
      status := PushCv(cv, totalChunks);
      cvs := cvs + [cv];
    }

    /** Absorb `data`. The buffer is flushed only when it is full and more input follows. */
    method Update(data: seq<Byte>) returns (status: Status)
      requires Valid()
      modifies this, cvStack, chunk
      ensures status == if ChunksBeforeLast(|old(absorbed)| + |data|) < 0x7F_FFFF_FFFF_FFFF then Ok else Limit
      ensures status == Ok ==> Valid() && absorbed == old(absorbed) + data
    {
      hide Stack, ChunkCvs;
      var offset := 0;
      ghost var start, total := absorbed, |absorbed| + |data|;
      while offset < |data|
        invariant 0 <= offset <= |data|
        invariant Core() && absorbed == start + data[..offset]
        invariant chunkLen == 0 ==> absorbed == [] || offset < |data|
        decreases |data| - offset, chunkLen
      {
        var take := Min(|data| - offset, CHUNK_BYTES - chunkLen);
        assert start + data[..offset] + data[offset..offset + take] == start + data[..offset + take];
        Absorb(data[offset..offset + take]);
        offset := offset + take;
        if chunkLen == CHUNK_BYTES && offset < |data| {
          FlushedFits(total, chunkCounter + 1);
          var flushed := FlushChunk();
          if flushed != Ok {
            return flushed;
          }
        }
      }
      assert data[..offset] == data;
      CounterFits(total, chunkCounter, chunkLen);
      return Ok;
    }

    /** Copy bytes that fit into the buffer. */
    method Absorb(bytes: seq<Byte>)
      requires Core() && |bytes| <= CHUNK_BYTES - chunkLen
      modifies this`chunkLen, this`absorbed, chunk
      ensures Core() && chunkLen == old(chunkLen) + |bytes| && absorbed == old(absorbed) + bytes
    {
      hide Stack, ChunkCvs;
      ghost var before := chunk[..chunkLen];
      forall k | 0 <= k < |bytes| {
        chunk[chunkLen + k] := bytes[k];
      }
      assert chunk[..chunkLen] == before;
      assert chunk[..chunkLen + |bytes|] == before + bytes;
      ChunkCvsPrefix(compress, absorbed, bytes, chunkCounter);
      chunkLen := chunkLen + |bytes|;
      absorbed := absorbed + bytes;
    }

    /** Merge the stack into the root and write the hash of everything absorbed. */
    method Final(out: array<Byte>) returns (status: Status)
      requires Valid() && out != chunk
      modifies this`cvStackLen, out
      ensures status == if out.Length == 0 then InvalidArg else Ok
      ensures status == Ok ==> out[..] == Blake3(compress, absorbed, out.Length)
    {
      hide Stack, ChunkCvs, ChunkOutput, Tree, Leaves, RootBytes;
      if out.Length == 0 {
        return InvalidArg;
      }
      var output := ChunkOutputOf(compress, chunk, chunkLen, chunkCounter);
      ghost var root := MergeDown(compress, cvStack[..cvStackLen], output);
      LastChunkAndStack(compress, absorbed, chunkCounter, chunkLen);
      while cvStackLen > 0
        invariant cvStackLen <= MAX_DEPTH && root == MergeDown(compress, cvStack[..cvStackLen], output)
        decreases cvStackLen
      {
        ghost var stack := cvStack[..cvStackLen];
        var right := Cv(compress, output);
        cvStackLen := cvStackLen - 1;
        assert cvStack[..cvStackLen] == stack[..|stack| - 1];
        output := ParentOutput(cvStack[cvStackLen], right);
      }
      OutputRootBytes(compress, output, out);
      return Ok;
    }
  }

  method HashBytes(compress: Compression, input: seq<Byte>, out: array<Byte>) returns (status: Status)
    modifies out
    ensures status == if out.Length == 0 then InvalidArg
                      else if ChunksBeforeLast(|input|) < MAX_CHUNKS then Ok else Limit
    ensures status == Ok ==> out[..] == Blake3(compress, input, out.Length)
  {
    if out.Length == 0 {
      return InvalidArg;
    }
    var state := new Hasher(compress);
    status := state.Update(input);
    assert [] + input == input;
    if status != Ok {
      return;
    }
    status := state.Final(out);
  }

  function Concat(pieces: seq<seq<Byte>>): seq<Byte> {
    if pieces == [] then [] else Concat(pieces[..|pieces| - 1]) + pieces[|pieces| - 1]
  }

  /** Any way of slicing an input below 2^64 bytes into updates, empty ones included, gives
      the tree hash of the whole. */
  method HashInPieces(compress: Compression, pieces: seq<seq<Byte>>, n: nat) returns (hash: seq<Byte>)
    requires n > 0 && |Concat(pieces)| < 0x1_0000_0000_0000_0000
    ensures hash == Blake3(compress, Concat(pieces), n)
  {
    hide Stack, ChunkCvs, Blake3;
    var state := new Hasher(compress);
    for i := 0 to |pieces|
      invariant state.Valid() && state.compress == compress && state.absorbed == Concat(pieces[..i])
      invariant fresh(state) && fresh(state.chunk) && fresh(state.cvStack)
    {
      assert pieces[..i + 1][..i] == pieces[..i];
      PrefixLength(pieces, i + 1);
      var status := state.Update(pieces[i]);
      assert status == Ok by {
        DepthSuffices(1);
      }
    }
    assert pieces[..|pieces|] == pieces;
    var out := new Byte[n](_ => 0);
    var status := state.Final(out);
    hash := out[..];
  }

  lemma {:induction false} PrefixLength(pieces: seq<seq<Byte>>, k: nat)
    requires k <= |pieces|
    ensures |Concat(pieces[..k])| <= |Concat(pieces)|
    decreases |pieces| - k
  {
    if k < |pieces| {
      assert pieces[..k + 1][..k] == pieces[..k];
      PrefixLength(pieces, k + 1);
    } else {
      assert pieces[..k] == pieces;
    }
  }

  lemma AllOnesOfDepth()
    ensures AllOnes(MAX_DEPTH + 1) == MAX_CHUNKS
  {
    assert AllOnes(14) == 0x3FFF;
    assert AllOnes(28) == 0xFFF_FFFF;
    assert AllOnes(42) == 0x3FF_FFFF_FFFF;
  }

  lemma FlushedFits(total: nat, chunks: nat)
    requires CHUNK_BYTES * chunks < total
    ensures chunks <= ChunksBeforeLast(total)
  {
  }

  lemma CounterFits(total: nat, counter: nat, chunkLen: nat)
    requires total == CHUNK_BYTES * counter + chunkLen && chunkLen <= CHUNK_BYTES
    requires chunkLen == 0 ==> total == 0
    ensures ChunksBeforeLast(total) == counter
  {
  }

  /** MAX_CHUNKS is where the stack runs out, and no 64-bit length reaches it. */
  lemma DepthSuffices(chunks: nat)
    requires 0 < chunks <= MAX_CHUNKS
    ensures PopCount(chunks) <= 54 <==> chunks < 0x7F_FFFF_FFFF_FFFF
    ensures PopCount(chunks) <= MAX_DEPTH <==> chunks < MAX_CHUNKS
    ensures forall n: nat :: n < 0x1_0000_0000_0000_0000 ==> ChunksBeforeLast(n) < MAX_CHUNKS
  {
    AllOnesOfDepth();
    PopCountBound(chunks, MAX_DEPTH + 1);
  }

  datatype Pushed = Pushed(status: Status, stack: seq<Words8>)

  /** What pushing a chaining value does to the stack of values. */
  function Push(compress: Compression, stack: seq<Words8>, cv: Words8, total: nat): Pushed
    requires total > 0
  {
    if total % 2 == 1 then
      if |stack| >= MAX_DEPTH then Pushed(Limit, stack) else Pushed(Ok, stack + [cv])
    else if stack == [] then Pushed(Internal, stack)
    else Push(compress, stack[..|stack| - 1], Cv(compress, ParentOutput(stack[|stack| - 1], cv)), total / 2)
  }

  /** Pushing one more value onto the stack of n values gives the stack of n + 1 values,
      or runs out of depth; the stack never runs empty. */
  lemma {:induction false} PushIsStack(compress: Compression, cvs: seq<Words8>, cv: Words8,
                                       stack: seq<Words8>, next: seq<Words8>)
    requires stack == Stack(compress, cvs) && next == Stack(compress, cvs + [cv])
    ensures |next| == PopCount(|cvs| + 1)
    ensures var p := Push(compress, stack, cv, |cvs| + 1);
            if |next| <= MAX_DEPTH then p == Pushed(Ok, next) else p.status == Limit
    decreases |cvs|
  {
    hide Stack, PairUp, PopCount, Cv, ParentOutput;
    StackLength(compress, cvs + [cv]);
    if |cvs| % 2 == 0 {
      PushOntoEven(compress, cvs, cv);
    } else {
      PushOntoOdd(compress, cvs, stack, cv);
      PushIsStack(compress, PairUp(compress, cvs), Cv(compress, ParentOutput(stack[|stack| - 1], cv)),
                  stack[..|stack| - 1], next);
    }
  }

  /** Chaining values of the first k chunks, all of them full. */
  ghost function ChunkCvs(compress: Compression, input: seq<Byte>, k: nat): (cvs: seq<Words8>)
    requires CHUNK_BYTES * k <= |input|
    ensures |cvs| == k
  {
    seq(k, i requires 0 <= i < k =>
      Cv(compress, ChunkOutput(compress, input[CHUNK_BYTES * i..CHUNK_BYTES * (i + 1)], i)))
  }

  lemma {:induction false} ChunkCvsNext(compress: Compression, input: seq<Byte>, k: nat, cvs: seq<Words8>, cv: Words8)
    requires 0 < k && CHUNK_BYTES * k <= |input| && cvs == ChunkCvs(compress, input, k - 1)
    requires cv == Cv(compress, ChunkOutput(compress, input[CHUNK_BYTES * (k - 1)..CHUNK_BYTES * k], k - 1))
    ensures ChunkCvs(compress, input, k) == cvs + [cv]
  {
  }

  lemma {:induction false} ChunkCvsPrefix(compress: Compression, input: seq<Byte>, more: seq<Byte>, k: nat)
    requires CHUNK_BYTES * k <= |input|
    ensures ChunkCvs(compress, input + more, k) == ChunkCvs(compress, input, k)
  {
    forall i | 0 <= i < k
      ensures ChunkCvs(compress, input + more, k)[i] == ChunkCvs(compress, input, k)[i]
    {
      assert (input + more)[CHUNK_BYTES * i..CHUNK_BYTES * (i + 1)] == input[CHUNK_BYTES * i..CHUNK_BYTES * (i + 1)];
    }
  }

  /** Merging the stack of all full chunks with the buffered chunk gives the tree's root. */
  lemma {:induction false} LastChunkAndStack(compress: Compression, input: seq<Byte>, counter: nat, chunkLen: nat)
    requires |input| == CHUNK_BYTES * counter + chunkLen && chunkLen <= CHUNK_BYTES
    requires chunkLen == 0 ==> input == []
    ensures MergeDown(compress, Stack(compress, ChunkCvs(compress, input, counter)),
                      ChunkOutput(compress, input[CHUNK_BYTES * counter..], counter))
         == Tree(compress, Leaves(compress, input))
  {
    var leaves := Leaves(compress, input);
    assert |leaves| == counter + 1;
    assert Cvs(compress, leaves[..counter]) == ChunkCvs(compress, input, counter);
    assert ChunkAt(input, counter) == input[CHUNK_BYTES * counter..];
    MergeGivesTree(compress, leaves);
  }
}
