/** The slot itself: the shared-memory object that `SharedWriteDataHandler` resizes and overwrites, and of which
    `SharedReadDataHandler` returns a view. */
module SharedMemory {
  import opened Bytes

  /** Contents cut or filled up with zeros to a new size. */
  function Resized(contents: seq<byte>, size: nat): (r: seq<byte>)
    ensures |r| == size
  {
    seq(size, j requires 0 <= j < size => ByteAt(contents, j))
  }

  /** What a view shows at `j` while the object holds `contents`: zero beyond an end that has moved closer. */
  function ByteAt(contents: seq<byte>, j: nat): byte {
    if j < |contents| then contents[j] else 0
  }

  class SharedMemoryObject {
    var region: array<byte>

    constructor ()
      ensures region.Length == 0 && fresh(region)
    {
      region := new byte[0];
    }

    method Truncate(size: nat)
      modifies `region
      ensures region[..] == Resized(old(region[..]), size) && fresh(region)
    {
      var before := region;
      region := new byte[size](i requires 0 <= i < size reads before => if i < before.Length then before[i] else 0);
    }
  }

  /** The slot then holds the chunk and nothing else, whether what was there before was longer or shorter. */
  method WriteSlot(memory: SharedMemoryObject, data: seq<byte>)
    modifies memory
    ensures memory.region[..] == data
  {
    memory.Truncate(|data|);
    for i := 0 to |data|
      invariant memory.region.Length == |data| && fresh(memory.region)
      invariant memory.region[..i] == data[..i]
    {
      memory.region[i] := data[i];
    }
    assert memory.region[..] == memory.region[..|data|];
  }

  /** A span over the mapped object: it has the size found when it was taken, and no bytes of its own. */
  datatype View = View(memory: SharedMemoryObject, size: nat)

  method ReadSlot(memory: SharedMemoryObject) returns (view: View)
    ensures view == View(memory, memory.region.Length)
  {
    view := View(memory, memory.region.Length);
  }

  /** Writing a view out shows the object as it is by then, not as it was when the view was taken. */
  method WriteOut(view: View) returns (data: seq<byte>)
    ensures data == Resized(view.memory.region[..], view.size)
  {
    data := [];
    for j := 0 to view.size
      invariant data == Resized(view.memory.region[..], j)
    {
      data := data + [if j < view.memory.region.Length then view.memory.region[j] else 0];
    }
  }

  /** One turn of the reader: it takes its view, other chunks are written to the slot meanwhile, and it writes the
      view out. Undisturbed that gives what was in the slot at the read; otherwise the chunk written last, in the
      size of the first. */
  method ReadAndWriteOut(memory: SharedMemoryObject, meanwhile: seq<seq<byte>>) returns (data: seq<byte>)
    modifies memory
    ensures |data| == old(memory.region.Length)
    ensures meanwhile == [] ==> data == old(memory.region[..])
    ensures meanwhile != [] ==>
              forall j | 0 <= j < |data| :: data[j] == ByteAt(meanwhile[|meanwhile| - 1], j)
  {
    var view := ReadSlot(memory);
    for i := 0 to |meanwhile|
      invariant memory.region[..] == if i == 0 then old(memory.region[..]) else meanwhile[i - 1]
    {
      WriteSlot(memory, meanwhile[i]);
    }
    data := WriteOut(view);
  }
}
