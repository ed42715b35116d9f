/** Cutting a file into chunks: `FileDataReader` and the producer loop `FileDataTransferTask`. */
module Chunking {
  import opened Bytes
  import Modular

  /** What one read at position `pos` yields: a full chunk, a short last chunk, or nothing. */
  function NextChunk(file: seq<byte>, pos: nat, chunkSize: nat): seq<byte>
    requires pos <= |file|
  {
    file[pos .. if pos + chunkSize <= |file| then pos + chunkSize else |file|]
  }

  /** All the chunks from `pos` to the end of the file. */
  function Chunks(file: seq<byte>, pos: nat, chunkSize: nat): seq<seq<byte>>
    requires pos <= |file|
    decreases |file| - pos
  {
    var chunk := NextChunk(file, pos, chunkSize);
    if chunk == [] then [] else [chunk] + Chunks(file, pos + |chunk|, chunkSize)
  }

  lemma FirstChunk(file: seq<byte>, pos: nat, chunkSize: nat)
    requires pos <= |file|
    ensures var chunk := NextChunk(file, pos, chunkSize);
            Chunks(file, pos, chunkSize) == if chunk == [] then [] else [chunk] + Chunks(file, pos + |chunk|, chunkSize)
  {}

  /** Ceiling division: how many chunks a file of `size` bytes needs. */
  function ChunkCount(size: nat, chunkSize: nat): nat
    requires chunkSize > 0
  {
    (size + chunkSize - 1) / chunkSize
  }

  lemma {:induction false} ChunksConcatenateToFile(file: seq<byte>, pos: nat, chunkSize: nat)
    requires pos <= |file| && chunkSize > 0
    ensures Flatten(Chunks(file, pos, chunkSize)) == file[pos..]
    decreases |file| - pos
  {
    if pos == |file| {
    } else {
      var chunk := NextChunk(file, pos, chunkSize);
      ChunksConcatenateToFile(file, pos + |chunk|, chunkSize);
      assert chunk + file[pos + |chunk|..] == file[pos..];
    }
  }

  /** The chunks carry the whole file exactly when the chunk size is positive (or there is nothing to carry). */
  lemma ChunksLosslessIff(file: seq<byte>, chunkSize: nat)
    ensures Flatten(Chunks(file, 0, chunkSize)) == file <==> chunkSize > 0 || file == []
  {
    if chunkSize > 0 {
      ChunksConcatenateToFile(file, 0, chunkSize);
    }
  }

  /** There are ceil(size/chunkSize) chunks. */
  lemma {:induction false} CountChunks(file: seq<byte>, pos: nat, chunkSize: nat)
    requires pos <= |file| && chunkSize > 0
    ensures |Chunks(file, pos, chunkSize)| == ChunkCount(|file| - pos, chunkSize)
    decreases |file| - pos
  {
    hide ChunkCount;
    if |file| - pos == 0 {
      DivideNothing(chunkSize);
    } else {
      CountChunks(file, pos + |NextChunk(file, pos, chunkSize)|, chunkSize);
      if |file| - pos <= chunkSize {
        DivideNothing(chunkSize);
        DivideShort(|file| - pos, chunkSize);
      } else {
        DivideLong(|file| - pos, chunkSize);
      }
    }
  }

  /** Chunk `k` starts k chunk sizes further on. */
  lemma {:induction false} ChunkAt(file: seq<byte>, pos: nat, chunkSize: nat, k: nat, at: nat)
    requires pos <= |file| && chunkSize > 0 && k < |Chunks(file, pos, chunkSize)|
    requires at == pos + k * chunkSize
    ensures at < |file| && Chunks(file, pos, chunkSize)[k] == NextChunk(file, at, chunkSize)
    decreases k
  {
    if k == 0 {
    } else {
      var next := pos + |NextChunk(file, pos, chunkSize)|;
      assert Chunks(file, next, chunkSize) != [];
      assert k * chunkSize == chunkSize + (k - 1) * chunkSize;
      ChunkAt(file, next, chunkSize, k - 1, at);
    }
  }

  /** Chunk `k` covers bytes k*chunkSize up to (k+1)*chunkSize or the end of the file,
      so every chunk but the last is full, none is empty, and there are ceil(size/chunkSize). */
  lemma ChunkLayout(file: seq<byte>, pos: nat, chunkSize: nat)
    requires pos <= |file| && chunkSize > 0
    ensures |Chunks(file, pos, chunkSize)| == ChunkCount(|file| - pos, chunkSize)
    ensures forall k | 0 <= k < |Chunks(file, pos, chunkSize)| ::
              && pos + k * chunkSize < |file|
              && Chunks(file, pos, chunkSize)[k] == NextChunk(file, pos + k * chunkSize, chunkSize)
              && 0 < |Chunks(file, pos, chunkSize)[k]| <= chunkSize
              && (k < |Chunks(file, pos, chunkSize)| - 1 ==> |Chunks(file, pos, chunkSize)[k]| == chunkSize)
  {
    hide Chunks, ChunkCount;
    var all := Chunks(file, pos, chunkSize);
    CountChunks(file, pos, chunkSize);
    forall k | 0 <= k < |all|
      ensures pos + k * chunkSize < |file|
      ensures all[k] == NextChunk(file, pos + k * chunkSize, chunkSize)
      ensures 0 < |all[k]| <= chunkSize
      ensures k < |all| - 1 ==> |all[k]| == chunkSize
    {
      ChunkAt(file, pos, chunkSize, k, pos + k * chunkSize);
      if k < |all| - 1 {
        ChunkAt(file, pos, chunkSize, k + 1, pos + (k + 1) * chunkSize);
        assert (k + 1) * chunkSize == k * chunkSize + chunkSize;
      }
    }
  }

  lemma DivideNothing(chunkSize: nat)
    requires chunkSize > 0
    ensures ChunkCount(0, chunkSize) == 0
  {
    Modular.SmallMod(chunkSize - 1, chunkSize);
  }

  lemma DivideShort(size: nat, chunkSize: nat)
    requires 0 < size <= chunkSize
    ensures ChunkCount(size, chunkSize) == 1
  {}

  lemma DivideLong(size: nat, chunkSize: nat)
    requires 0 < chunkSize < size
    ensures ChunkCount(size, chunkSize) == 1 + ChunkCount(size - chunkSize, chunkSize)
  {
    Modular.AddOneTurn(size - 1, chunkSize);
  }

  /** A binary input stream together with the chunk buffer it is read into. */
  class FileDataReader {
    const file: seq<byte>         // what the stream was opened on
    var pos: nat                  // get position
    var good: bool                // false once a read came up short
    var chunkBuffer: seq<byte>    // its size is the amount the next read asks for
    ghost const chunkSize: nat

    ghost predicate Valid()
      reads this
    {
      && pos <= |file|
      && (good ==> |chunkBuffer| == chunkSize)
      && (!good ==> pos == |file|)
    }

    constructor (file: seq<byte>, chunkSize: nat)
      ensures Valid() && this.file == file && this.chunkSize == chunkSize && pos == 0
    {
      this.file := file;
      this.chunkSize := chunkSize;
      pos := 0;
      good := true;
      chunkBuffer := seq(chunkSize, _ => 0);
    }

    /** Shrinks the chunk buffer on a short read, and still never skips, repeats or invents a byte. */
    method Read() returns (r: seq<byte>)
      requires Valid()
      modifies this
      ensures Valid()
      ensures r == NextChunk(file, old(pos), chunkSize)
      ensures pos == old(pos) + |r|
    {
      var gcount := 0;
      if good {
        var want := |chunkBuffer|;
        gcount := if want <= |file| - pos then want else |file| - pos;
        chunkBuffer := file[pos .. pos + gcount] + chunkBuffer[gcount..];
        pos := pos + gcount;
        good := gcount == want;
      }
      if good || gcount > 0 {
        if gcount != 0 {
          chunkBuffer := chunkBuffer[..gcount];
        }
        return chunkBuffer;
      }
      return [];
    }
  }

  /** What is asked of an access, in the order it is asked. */
  datatype Call = Wrote(data: seq<byte>) | Stopped

  function Writes(pieces: seq<seq<byte>>): (calls: seq<Call>)
    ensures |calls| == |pieces|
  {
    seq(|pieces|, i requires 0 <= i < |pieces| => Wrote(pieces[i]))
  }

  /** Where a producer sends its chunks: records the calls. */
  class WriteAccess {
    var calls: seq<Call>

    constructor ()
      ensures calls == []
    {
      calls := [];
    }

    method Write(data: seq<byte>)
      modifies this
      ensures calls == old(calls) + [Wrote(data)]
    {
      calls := calls + [Wrote(data)];
    }

    method Stop()
      modifies this
      ensures calls == old(calls) + [Stopped]
    {
      calls := calls + [Stopped];
    }
  }

  /** The producer loop: ends, and hands over exactly the remaining chunks of the file, then stops, once. */
  method RunFileDataTransfer(reader: FileDataReader, access: WriteAccess)
    requires reader.Valid()
    modifies reader, access
    ensures reader.Valid()
    ensures access.calls
            == old(access.calls) + Writes(Chunks(reader.file, old(reader.pos), reader.chunkSize)) + [Stopped]
  {
    hide Writes;
    ghost var at := reader.pos;
    ghost var whole := access.calls + Writes(Chunks(reader.file, at, reader.chunkSize));
    var data := reader.Read();
    while data != []
      invariant reader.Valid() && at + |data| == reader.pos
      invariant data == NextChunk(reader.file, at, reader.chunkSize)
      invariant access.calls + Writes(Chunks(reader.file, at, reader.chunkSize)) == whole
      decreases |reader.file| - at
    {
      WriteFirst(access.calls, data, Chunks(reader.file, reader.pos, reader.chunkSize));
      access.Write(data);
      at := reader.pos;
      data := reader.Read();
    }
    access.Stop();
  }

  lemma WriteFirst(calls: seq<Call>, first: seq<byte>, rest: seq<seq<byte>>)
    ensures calls + Writes([first] + rest) == calls + [Wrote(first)] + Writes(rest)
  {
    assert Writes([first] + rest) == [Wrote(first)] + Writes(rest);
  }
}
