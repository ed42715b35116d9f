/** The circular buffer as one caller sees it: a queue bounded by capacity - 1, stored in place. */
module Ring {
  import opened Bytes
  import Modular

  /** A ring at one instant: its storage, its two indices and the two enable flags. */
  datatype RingState = RingState(data: seq<byte>, head: nat, tail: nat, writing: bool, reading: bool)

  ghost predicate WellFormed(r: RingState) {
    && |r.data| > 0
    && r.head < |r.data|
    && r.tail < |r.data|
  }

  /** `GetDataSize`. */
  function Size(r: RingState): nat
    requires WellFormed(r)
  {
    SizeFromIndices(r.head, r.tail, |r.data|)
  }

  function SizeFromIndices(head: nat, tail: nat, capacity: nat): nat
    requires head < capacity
  {
    if head <= tail then tail - head else capacity - head + tail
  }

  /** `operator[]`. */
  function At(r: RingState, index: nat): byte
    requires WellFormed(r)
  {
    r.data[index % |r.data|]
  }

  /** The queue the ring stands for: what lies from head to tail, across the wrap. */
  function Contents(r: RingState): seq<byte>
    requires WellFormed(r)
  {
    seq(Size(r), i requires 0 <= i < Size(r) => At(r, r.head + i))
  }

  ghost predicate Full(r: RingState)
    requires WellFormed(r)
  {
    Size(r) == |r.data| - 1
  }

  function Free(r: RingState): nat
    requires WellFormed(r)
  {
    |r.data| - 1 - Size(r)
  }

  /** `Write`: store the byte and enable reading, or disable writing when full. */
  function WriteByte(r: RingState, item: byte): (r': RingState)
    requires WellFormed(r)
    ensures WellFormed(r')
  {
    var nextTail := (r.tail + 1) % |r.data|;
    if nextTail == r.head then r.(writing := false)
    else r.(data := r.data[r.tail := item], tail := nextTail, reading := true)
  }

  /** `SetHead`: advance head, enable writing, and disable reading when nothing is left. */
  function AdvanceHead(r: RingState, value: nat): (r': RingState)
    requires WellFormed(r)
    ensures WellFormed(r')
  {
    var newHead := (r.head + value) % |r.data|;
    r.(head := newHead, writing := true, reading := r.reading && newHead != r.tail)
  }

  /** The absolute position of tail, counting from head without wrapping. */
  lemma TailFromHead(r: RingState)
    requires WellFormed(r)
    ensures Size(r) < |r.data|
    ensures (r.head + Size(r)) % |r.data| == r.tail
  {}

  lemma SizeFromEnd(r: RingState, size: nat)
    requires WellFormed(r)
    requires size < |r.data| && (r.head + size) % |r.data| == r.tail
    ensures Size(r) == size
  {}

  /** The code's full test says exactly that capacity - 1 bytes are stored. */
  lemma FullTest(r: RingState)
    requires WellFormed(r)
    ensures (r.tail + 1) % |r.data| == r.head <==> Full(r)
  {
    var c, n := |r.data|, Size(r);
    TailFromHead(r);
    Modular.AddMod(r.head + n, 1, c);
    Modular.SmallMod(r.head, c);
    if n == c - 1 {
      Modular.AddOneTurn(r.head, c);
    } else {
      Modular.DistinctSlots(r.head, r.head + n + 1, c);
    }
  }

  lemma ContentsAt(r: RingState, i: nat)
    requires WellFormed(r) && i < Size(r)
    ensures Contents(r)[i] == r.data[(r.head + i) % |r.data|]
  {}

  lemma FlagsDoNotMatter(r: RingState, r': RingState)
    requires WellFormed(r) && WellFormed(r')
    requires r.data == r'.data && r.head == r'.head && r.tail == r'.tail
    ensures Contents(r) == Contents(r')
  {
    forall i | 0 <= i < Size(r)
      ensures Contents(r)[i] == Contents(r')[i]
    {
      ContentsAt(r, i);
      ContentsAt(r', i);
    }
  }

  /** `Write` is a push on a queue bounded by capacity - 1: it appends, or leaves the queue alone when full. */
  lemma WriteIsBoundedPush(r: RingState, item: byte)
    requires WellFormed(r)
    ensures var r' := WriteByte(r, item);
            && Contents(r') == (if |Contents(r)| < |r.data| - 1 then Contents(r) + [item] else Contents(r))
            && |r'.data| == |r.data| && r'.head == r.head
            && r'.writing == (r.writing && |Contents(r)| < |r.data| - 1)
            && r'.reading == (r.reading || |Contents(r)| < |r.data| - 1)
  {
    FullTest(r);
    TailFromHead(r);
    if Full(r) {
      FlagsDoNotMatter(r, WriteByte(r, item));
    } else {
      StoreAppends(r, item);
    }
  }

  lemma StoreAppends(r: RingState, item: byte)
    requires WellFormed(r) && Size(r) < |r.data| - 1
    ensures Contents(WriteByte(r, item)) == Contents(r) + [item]
  {
    var c, n, r' := |r.data|, Size(r), WriteByte(r, item);
    FullTest(r);
    TailFromHead(r);
    Modular.AddMod(r.head + n, 1, c);
    SizeFromEnd(r', n + 1);
    forall i | 0 <= i < n
      ensures Contents(r')[i] == Contents(r)[i]
    {
      Modular.DistinctSlots(r.head + i, r.head + n, c);
      ContentsAt(r, i);
      ContentsAt(r', i);
    }
    ContentsAt(r', n);
  }

  /** Advancing head by at most the size drops that many bytes from the front, and nothing else. */
  lemma AdvanceIsDrop(r: RingState, value: nat)
    requires WellFormed(r) && value <= Size(r)
    ensures var r' := AdvanceHead(r, value);
            && Contents(r') == Contents(r)[value..]
            && r'.data == r.data && r'.tail == r.tail && r'.writing
            && r'.reading == (r.reading && value < Size(r))
  {
    var n, r' := Size(r), AdvanceHead(r, value);
    SizeAfterAdvance(r, value);
    forall i | 0 <= i < n - value
      ensures Contents(r')[i] == Contents(r)[value..][i]
    {
      Modular.AddMod(r.head + value, i, |r.data|);
      ContentsAt(r', i);
      ContentsAt(r, value + i);
    }
    TailFromHead(r');
  }

  lemma SizeAfterAdvance(r: RingState, value: nat)
    requires WellFormed(r) && value <= Size(r)
    ensures Size(AdvanceHead(r, value)) == Size(r) - value
  {
    TailFromHead(r);
    Modular.AddMod(r.head + value, Size(r) - value, |r.data|);
    SizeFromEnd(AdvanceHead(r, value), Size(r) - value);
  }

  /** Pushing a whole chunk, byte by byte, with nobody reading. */
  function WriteBytes(r: RingState, data: seq<byte>): (r': RingState)
    requires WellFormed(r)
    ensures WellFormed(r')
    decreases |data|
  {
    if data == [] then r else WriteByte(WriteBytes(r, data[..|data| - 1]), data[|data| - 1])
  }

  lemma QueueLength(r: RingState)
    requires WellFormed(r)
    ensures |Contents(r)| == Size(r)
  {}

  /** What fits is kept in order, what does not fit is dropped without a word, and only then is writing disabled. */
  lemma {:induction false} ChunkKeptUpToFreeSpace(r: RingState, data: seq<byte>)
    requires WellFormed(r)
    ensures var r', kept := WriteBytes(r, data), if |data| <= Free(r) then |data| else Free(r);
            && |r'.data| == |r.data| && r'.head == r.head
            && Contents(r') == Contents(r) + data[..kept]
            && r'.writing == (r.writing && |data| <= Free(r))
            && r'.reading == (r.reading || kept > 0)
    decreases |data|
  {
    hide Contents, WriteByte, Size;
    TailFromHead(r);
    QueueLength(r);
    if data == [] {
      assert Contents(r) + data[..0] == Contents(r);
    } else {
      var front, last := data[..|data| - 1], data[|data| - 1];
      var r1 := WriteBytes(r, front);
      ChunkKeptUpToFreeSpace(r, front);
      WriteIsBoundedPush(r1, last);
      if |data| <= Free(r) {
        assert Contents(r) + front + [last] == Contents(r) + data;
        assert front[..|front|] == front && data[..|data|] == data;
      } else {
        assert data[..Free(r)] == front[..Free(r)];
      }
    }
  }

  /** The two flags: `BufferStateSync` behind `BufferStateSetter`. */
  class BufferState {
    var writingEnabled: bool
    var readingEnabled: bool

    constructor ()
      ensures writingEnabled && !readingEnabled
    {
      writingEnabled := true;
      readingEnabled := false;
    }

    method EnableWriting()
      modifies `writingEnabled
      ensures writingEnabled
    {
      writingEnabled := true;
    }

    method EnableReading()
      modifies `readingEnabled
      ensures readingEnabled
    {
      readingEnabled := true;
    }

    method DisableWriting()
      modifies `writingEnabled
      ensures !writingEnabled
    {
      writingEnabled := false;
    }

    method DisableReading()
      modifies `readingEnabled
      ensures !readingEnabled
    {
      readingEnabled := false;
    }
  }

  class CircularBuffer {
    const data: array<byte>
    const capacity: nat
    const state: BufferState
    var head: nat
    var tail: nat

    ghost predicate Valid()
      reads this
    {
      && data.Length == capacity > 0
      && head < capacity
      && tail < capacity
    }

    ghost function Model(): (r: RingState)
      reads this, data, state
      requires Valid()
      ensures WellFormed(r)
    {
      RingState(data[..], head, tail, state.writingEnabled, state.readingEnabled)
    }

    ghost function Queue(): seq<byte>
      reads this, data, state
      requires Valid()
    {
      Contents(Model())
    }

    constructor (size: nat, state: BufferState)
      requires size > 0
      ensures Valid() && capacity == size && this.state == state && fresh(data)
      ensures Queue() == []
    {
      data := new byte[size](_ => 0);
      capacity := size;
      this.state := state;
      head := 0;
      tail := 0;
    }

    method Index(index: nat) returns (b: byte)
      requires Valid()
      ensures index >= head && index - head < |Queue()| ==> b == Queue()[index - head]
    {
      b := data[index % capacity];
      assert b == At(Model(), index);
    }

    method GetDataSize() returns (n: nat)
      requires Valid()
      ensures n == |Queue()|
    {
      n := if head <= tail then tail - head else capacity - head + tail;
    }

    /** Appends, or rejects when full. */
    method Write(item: byte)
      requires Valid()
      modifies `tail, data, state
      ensures Valid() && Model() == WriteByte(old(Model()), item)
      ensures Queue() == if |old(Queue())| < capacity - 1 then old(Queue()) + [item] else old(Queue())
    {
      ghost var before := Model();
      var nextTail := (tail + 1) % capacity;
      if nextTail == head {
        state.DisableWriting();
      } else {
        data[tail] := item;
        tail := nextTail;
        state.EnableReading();
      }
      WriteIsBoundedPush(before, item);
    }

    /** Advances head by `value`. */
    method SetHead(value: nat)
      requires Valid()
      modifies `head, state
      ensures Valid() && Model() == AdvanceHead(old(Model()), value)
      ensures value <= |old(Queue())| ==> Queue() == old(Queue())[value..]
    {
      ghost var before := Model();
      var newHead := (head + value) % capacity;
      head := newHead;
      state.EnableWriting();
      if newHead == tail {
        state.DisableReading();
      }
      if value <= Size(before) {
        AdvanceIsDrop(before, value);
      }
    }
  }

  class BufferWriter {
    const buffer: CircularBuffer

    constructor (buffer: CircularBuffer)
      ensures this.buffer == buffer
    {
      this.buffer := buffer;
    }

    /** Pushes every byte of the chunk, carrying on past the ones the ring rejects. */
    method Write(data: seq<byte>)
      requires buffer.Valid()
      modifies buffer`tail, buffer.data, buffer.state
      ensures buffer.Valid() && buffer.Model() == WriteBytes(old(buffer.Model()), data)
      ensures var room := old(Free(buffer.Model()));
              && buffer.Queue() == old(buffer.Queue()) + data[..if |data| <= room then |data| else room]
              && buffer.state.writingEnabled == (old(buffer.state.writingEnabled) && |data| <= room)
    {
      ghost var before := buffer.Model();
      for i := 0 to |data|
        invariant buffer.Valid() && buffer.Model() == WriteBytes(before, data[..i])
      {
        assert data[..i + 1][..i] == data[..i];
        buffer.Write(data[i]);
      }
      assert data[..|data|] == data;
      ChunkKeptUpToFreeSpace(before, data);
    }
  }

  class BufferReader {
    const buffer: CircularBuffer
    var chunk: array<byte>

    constructor (buffer: CircularBuffer)
      ensures this.buffer == buffer && fresh(chunk)
    {
      this.buffer := buffer;
      chunk := new byte[0];
    }

    /** Returns everything stored, oldest first across the wrap, and leaves the ring empty and open for writing. */
    method Read() returns (r: array<byte>)
      requires buffer.Valid()
      modifies `chunk, buffer`head, buffer.state
      ensures buffer.Valid() && fresh(r) && r == chunk
      ensures r[..] == old(buffer.Queue())
      ensures buffer.Queue() == []
      ensures buffer.Model() == AdvanceHead(old(buffer.Model()), |old(buffer.Queue())|)
      ensures buffer.state.writingEnabled && !buffer.state.readingEnabled
    {
      var dataSize := buffer.GetDataSize();
      chunk := new byte[dataSize](_ => 0);
      r := chunk;
      var head := buffer.head;
      ghost var before := buffer.Model();
      for i := 0 to dataSize
        invariant buffer.Valid() && buffer.Model() == before && buffer.Model() == old(buffer.Model())
        invariant chunk == r && r.Length == dataSize && fresh(r)
        invariant r[..i] == Contents(before)[..i]
      {
        var b := buffer.Index(head + i);
        r[i] := b;
        assert r[..i + 1] == r[..i] + [b];
      }
      assert r[..] == r[..dataSize];
      AdvanceIsDrop(before, dataSize);
      buffer.SetHead(dataSize);
    }
  }
}
