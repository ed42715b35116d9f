/** The sending side over the network, and whole transfers from source files to received files. */
module Transfer {
  import opened Bytes
  import opened Ctr
  import opened Framing
  import opened Receiver
  import opened Chunking

  /** A client: the file's name and contents, and the IVs its encryptor happens to draw. */
  datatype Client = Client(name: seq<byte>, file: seq<byte>, chunkSize: nat, drawn: nat -> Block)

  /** A name there is, and lengths that fit a frame. */
  ghost predicate ClientValid(c: Client) {
    && 0 < |c.name| < WIDTH
    && 0 < c.chunkSize < WIDTH
  }

  /** Frame number `i`: the name first, then the chunks of the file. */
  function ClientFrame(cipher: BlockCipher, c: Client, i: nat): seq<byte>
    requires i <= |Chunks(c.file, 0, c.chunkSize)|
  {
    if i == 0 then Frame(cipher, FILE_NAME, c.drawn(0), c.name)
    else Frame(cipher, FILE_DATA, c.drawn(i), Chunks(c.file, 0, c.chunkSize)[i - 1])
  }

  function ClientFrames(cipher: BlockCipher, c: Client): (r: seq<seq<byte>>)
    ensures |r| == 1 + |Chunks(c.file, 0, c.chunkSize)|
  {
    var n := 1 + |Chunks(c.file, 0, c.chunkSize)|;
    seq(n, i requires 0 <= i < n => ClientFrame(cipher, c, i))
  }

  /** The first byte of a frame tells a name, 1, from data, 2. */
  lemma FrameTypes(cipher: BlockCipher, c: Client, i: nat)
    requires ClientValid(c) && i <= |Chunks(c.file, 0, c.chunkSize)|
    ensures var frame := ClientFrame(cipher, c, i);
            |frame| > 21 && frame[0] == if i == 0 then 1 else 2
  {
    hide Chunks, Frame;
    ChunkLayout(c.file, 0, c.chunkSize);
    if i == 0 {
      FrameLayout(cipher, FILE_NAME, c.drawn(0), c.name);
    } else {
      FrameLayout(cipher, FILE_DATA, c.drawn(i), Chunks(c.file, 0, c.chunkSize)[i - 1]);
    }
  }

  function ClientPath(env: Env, folder: string, c: Client): Path {
    Path(folder, env.fileName(c.name))
  }

  /** A whole frame is handled as its payload says. */
  lemma FrameArrives(env: Env, kind: byte, iv: Block, payload: seq<byte>)
    requires 0 < |payload| < WIDTH
    ensures Parse(env.cipher, Frame(env.cipher, kind, iv, payload)) == Whole(kind, payload)
  {
    RoundTripIff(env.cipher, kind, iv, payload, []);
    assert Frame(env.cipher, kind, iv, payload) + [] == Frame(env.cipher, kind, iv, payload);
  }

  /** A cut frame raises and leaves every file as it was. */
  lemma PartialFrameRefused(env: Env, folder: string, conn: Conn, files: Files,
                            kind: byte, iv: Block, payload: seq<byte>, cut: nat)
    requires ConnValid(folder, conn, files)
    requires 0 < |payload| < WIDTH && cut < |Frame(env.cipher, kind, iv, payload)|
    ensures var h := Handle(env, folder, conn, files, Frame(env.cipher, kind, iv, payload)[..cut]);
            h.reply == Raised && h.files == files && h.conn.open == conn.open
  {
    NoPartialFrameIff(env.cipher, kind, iv, payload);
  }

  /** Every front of a client's frames, one delivery each, is handled without fail, never meets a data frame
      without a writer, and leaves exactly the matching front of the file; whatever the connection did before,
      and whatever was in the file before, is gone, and every other file is as it was. */
  lemma {:induction false} FrontArrives(env: Env, folder: string, conn: Conn, files: Files, c: Client, n: nat)
    requires ClientValid(c) && n <= |ClientFrames(env.cipher, c)| && ConnValid(folder, conn, files)
    ensures var h := HandleAll(env, folder, conn, files, ClientFrames(env.cipher, c)[..n]);
            && h.reply == Done
            && (n > 0 ==>
                  && h.conn.open == Some(ClientPath(env, folder, c))
                  && h.files == files[ClientPath(env, folder, c) := Flatten(Chunks(c.file, 0, c.chunkSize)[..n - 1])])
    decreases n
  {
    hide Handle, HandleAll, Frame, Chunks;
    NothingArrives(env, folder, conn, files);
    if n == 0 {
    } else {
      var frames := ClientFrames(env.cipher, c);
      FrontArrives(env, folder, conn, files, c, n - 1);
      assert frames[..n] == frames[..n - 1] + [frames[n - 1]];
      HandleAllSnoc(env, folder, conn, files, frames[..n - 1], frames[n - 1]);
      if n == 1 {
        assert frames[..0] == [];
        NameArrives(env, folder, conn, files, c);
      } else {
        DataArrives(env, folder, c, n - 1, HandleAll(env, folder, conn, files, frames[..n - 1]), files);
      }
    }
  }

  lemma NothingArrives(env: Env, folder: string, conn: Conn, files: Files)
    requires ConnValid(folder, conn, files)
    ensures HandleAll(env, folder, conn, files, []) == Handled(conn, files, Done)
  {}

  lemma NameArrives(env: Env, folder: string, conn: Conn, files: Files, c: Client)
    requires ClientValid(c) && ConnValid(folder, conn, files)
    ensures var h, path := Handle(env, folder, conn, files, ClientFrame(env.cipher, c, 0)), ClientPath(env, folder, c);
            h.reply == Done && h.conn.open == Some(path) && h.files == files[path := []]
  {
    hide Parse, Frame;
    FrameArrives(env, FILE_NAME, c.drawn(0), c.name);
  }

  lemma DataArrives(env: Env, folder: string, c: Client, k: nat, h: Handled, files: Files)
    requires ClientValid(c) && 0 < k <= |Chunks(c.file, 0, c.chunkSize)|
    requires h.conn.open == Some(ClientPath(env, folder, c))
    requires h.files == files[ClientPath(env, folder, c) := Flatten(Chunks(c.file, 0, c.chunkSize)[..k - 1])]
    ensures var h' := Handle(env, folder, h.conn, h.files, ClientFrame(env.cipher, c, k));
            && h'.reply == Done && h'.conn.open == h.conn.open
            && h'.files == files[ClientPath(env, folder, c) := Flatten(Chunks(c.file, 0, c.chunkSize)[..k])]
  {
    hide Parse, Frame, Chunks, Flatten;
    var chunks := Chunks(c.file, 0, c.chunkSize);
    ChunkLayout(c.file, 0, c.chunkSize);
    FrameArrives(env, FILE_DATA, c.drawn(k), chunks[k - 1]);
    assert chunks[..k] == chunks[..k - 1] + [chunks[k - 1]];
    FlattenSnoc(chunks[..k - 1], chunks[k - 1]);
  }

  /** End to end: for every name, every file and every IV drawn, and whatever the connection did before, the
      frames delivered one by one leave the file with the source's contents, nothing is raised, and no other
      file changes. */
  lemma EndToEnd(env: Env, folder: string, conn: Conn, files: Files, c: Client)
    requires ClientValid(c) && ConnValid(folder, conn, files)
    ensures var h := HandleAll(env, folder, conn, files, ClientFrames(env.cipher, c));
            h.reply == Done && h.files == files[ClientPath(env, folder, c) := c.file]
  {
    hide Handle, HandleAll, Frame;
    var frames, chunks := ClientFrames(env.cipher, c), Chunks(c.file, 0, c.chunkSize);
    FrontArrives(env, folder, conn, files, c, |frames|);
    ChunksConcatenateToFile(c.file, 0, c.chunkSize);
    assert frames[..|frames|] == frames && chunks[..|chunks|] == chunks && c.file[0..] == c.file;
  }

  /** Every connection that receives anything is some client's, and has received a front of its frames. */
  ghost predicate FromClients(env: Env, clients: map<nat, Client>, deliveries: seq<Delivery>) {
    && (forall id | id in clients ::
          ClientValid(clients[id]) && FramesOf(deliveries, id) <= ClientFrames(env.cipher, clients[id]))
    && (forall d | d in deliveries :: d.id in clients)
  }

  lemma FromClientsBefore(env: Env, clients: map<nat, Client>, deliveries: seq<Delivery>)
    requires deliveries != [] && FromClients(env, clients, deliveries)
    ensures FromClients(env, clients, deliveries[..|deliveries| - 1])
  {}

  /** However the clients' frames interleave, no delivery ever fails. */
  lemma {:induction false} NothingFails(env: Env, clients: map<nat, Client>, deliveries: seq<Delivery>)
    requires FromClients(env, clients, deliveries)
    ensures Serve(env, deliveries).reply == Done
    decreases |deliveries|
  {
    hide Handle, HandleAll, ClientFrames, Folder, InFolder, Deliver;
    if deliveries == [] {
    } else {
      var before, d := deliveries[..|deliveries| - 1], deliveries[|deliveries| - 1];
      FromClientsBefore(env, clients, deliveries);
      NothingFails(env, clients, before);
      Isolation(env, before, d.id);
      IsolationStep(env, Serve(env, before), d, d.id);
      assert d in deliveries;
      var frames := FramesOf(before, d.id);
      HandleAllSnoc(env, Folder(d.id), FRESH, map[], frames, d.data);
      var all := ClientFrames(env.cipher, clients[d.id]);
      assert FramesOf(deliveries, d.id) == frames + [d.data] == all[..|frames| + 1];
      FrontArrives(env, Folder(d.id), FRESH, map[], clients[d.id], |frames| + 1);
    }
  }

  /** Any number of clients at once: whatever the interleaving of their frames, once a client's frames are all
      delivered, its folder holds exactly its file under its name, however far the others are. */
  lemma ConcurrentTransfers(env: Env, clients: map<nat, Client>, deliveries: seq<Delivery>, id: nat)
    requires FromClients(env, clients, deliveries)
    requires id in clients && FramesOf(deliveries, id) == ClientFrames(env.cipher, clients[id])
    ensures var s := Serve(env, deliveries);
            && s.reply == Done
            && InFolder(s.files, Folder(id)) == map[ClientPath(env, Folder(id), clients[id]) := clients[id].file]
  {
    hide Handle, HandleAll, ClientFrames, Folder, InFolder, Deliver;
    NothingFails(env, clients, deliveries);
    Isolation(env, deliveries, id);
    EndToEnd(env, Folder(id), FRESH, map[], clients[id]);
  }

  // ---- The sending tasks ----

  /** `FileDataSegmentReader`: packs whatever the file reader yields. */
  class FileDataSegmentReader {
    const reader: FileDataReader
    const serializer: Serializer

    ghost predicate Valid()
      reads this, reader, serializer
      reads serializer.encryptor, serializer.encryptor.encryptor, serializer.encryptor.decryptor
    {
      reader.Valid() && serializer.Valid() && serializer.kind == FILE_DATA
    }

    constructor (reader: FileDataReader, encryptor: Encryption)
      requires reader.Valid() && encryptor.Valid()
      ensures Valid() && this.reader == reader && serializer.encryptor == encryptor && fresh(serializer)
    {
      this.reader := reader;
      serializer := new Serializer(encryptor, FILE_DATA);
    }

    method Read(drawn: Block) returns (frame: seq<byte>)
      requires Valid()
      modifies reader, serializer`buffer, serializer.encryptor, serializer.encryptor.encryptor
      ensures Valid()
      ensures var chunk := NextChunk(reader.file, old(reader.pos), reader.chunkSize);
              && reader.pos == old(reader.pos) + |chunk|
              && frame == Frame(serializer.encryptor.cipher, FILE_DATA, drawn, chunk)
    {
      var chunk := reader.Read();
      frame := serializer.Pack(chunk, drawn);
    }
  }

  /** The data frames from position `pos` on; `k` numbers the draws. */
  function DataFrames(cipher: BlockCipher, file: seq<byte>, pos: nat, chunkSize: nat,
                      drawn: nat -> Block, k: nat): seq<seq<byte>>
    requires pos <= |file|
    decreases |file| - pos
  {
    var chunk := NextChunk(file, pos, chunkSize);
    if chunk == [] then []
    else [Frame(cipher, FILE_DATA, drawn(k), chunk)] + DataFrames(cipher, file, pos + |chunk|, chunkSize, drawn, k + 1)
  }

  lemma FramesFrom(cipher: BlockCipher, c: Client, k: nat)
    requires k < |Chunks(c.file, 0, c.chunkSize)|
    ensures var all, chunk := ClientFrames(cipher, c), Chunks(c.file, 0, c.chunkSize)[k];
            all[k + 1..] == [Frame(cipher, FILE_DATA, c.drawn(k + 1), chunk)] + all[k + 2..]
  {
    hide Frame, Chunks;
    var all := ClientFrames(cipher, c);
    assert all[k + 1..] == [all[k + 1]] + all[k + 2..];
  }

  lemma RestOfChunks(chunks: seq<seq<byte>>, k: nat, first: seq<byte>, rest: seq<seq<byte>>)
    requires k <= |chunks| && chunks[k..] == [first] + rest
    ensures k < |chunks| && chunks[k] == first && chunks[k + 1..] == rest
  {
    assert chunks[k + 1..] == chunks[k..][1..];
  }

  lemma {:induction false} DataFramesOfChunks(cipher: BlockCipher, c: Client, pos: nat, k: nat)
    requires pos <= |c.file| && k <= |Chunks(c.file, 0, c.chunkSize)|
    requires Chunks(c.file, 0, c.chunkSize)[k..] == Chunks(c.file, pos, c.chunkSize)
    ensures ClientFrames(cipher, c)[k + 1..] == DataFrames(cipher, c.file, pos, c.chunkSize, c.drawn, k + 1)
    decreases |c.file| - pos
  {
    hide ClientFrames, Frame, Chunks, DataFrames;
    var chunks, chunk := Chunks(c.file, 0, c.chunkSize), NextChunk(c.file, pos, c.chunkSize);
    FirstChunk(c.file, pos, c.chunkSize);
    NextDataFrame(cipher, c.file, pos, c.chunkSize, c.drawn, k + 1);
    if chunk == [] {
    } else {
      RestOfChunks(chunks, k, chunk, Chunks(c.file, pos + |chunk|, c.chunkSize));
      DataFramesOfChunks(cipher, c, pos + |chunk|, k + 1);
      FramesFrom(cipher, c, k);
    }
  }

  lemma PositionInFile(segments: FileDataSegmentReader)
    requires segments.Valid()
    ensures segments.reader.pos <= |segments.reader.file|
  {}

  /** `FileDataTransferTask::Run` over a segment reader. */
  method RunSegmentTransfer(segments: FileDataSegmentReader, access: WriteAccess, drawn: nat -> Block)
    requires segments.Valid()
    modifies segments.reader, segments.serializer`buffer, access
    modifies segments.serializer.encryptor, segments.serializer.encryptor.encryptor
    ensures segments.Valid()
    ensures access.calls == old(access.calls)
              + Writes(DataFrames(segments.serializer.encryptor.cipher, segments.reader.file, old(segments.reader.pos),
                                  segments.reader.chunkSize, drawn, 1))
              + [Stopped]
  {
    hide Writes, Frame, NextChunk, DataFrames, Chunks, FileDataSegmentReader.Valid;
    ghost var cipher, reader := segments.serializer.encryptor.cipher, segments.reader;
    ghost var at := reader.pos;
    PositionInFile(segments);
    ghost var whole := access.calls + Writes(DataFrames(cipher, reader.file, at, reader.chunkSize, drawn, 1));
    var k := 1;
    var data := segments.Read(drawn(k));
    while data != []
      invariant segments.Valid() && at <= |reader.file|
      invariant reader.pos == at + |NextChunk(reader.file, at, reader.chunkSize)|
      invariant data == Frame(cipher, FILE_DATA, drawn(k), NextChunk(reader.file, at, reader.chunkSize))
      invariant access.calls + Writes(DataFrames(cipher, reader.file, at, reader.chunkSize, drawn, k)) == whole
      decreases |reader.file| - at
    {
      NextDataFrame(cipher, reader.file, at, reader.chunkSize, drawn, k);
      ghost var rest := DataFrames(cipher, reader.file, reader.pos, reader.chunkSize, drawn, k + 1);
      WriteFirst(access.calls, data, rest);
      access.Write(data);
      at := reader.pos;
      k := k + 1;
      data := segments.Read(drawn(k));
    }
    NextDataFrame(cipher, reader.file, at, reader.chunkSize, drawn, k);
    NoWrites();
    access.Stop();
  }

  lemma NextDataFrame(cipher: BlockCipher, file: seq<byte>, pos: nat, chunkSize: nat, drawn: nat -> Block, k: nat)
    requires pos <= |file|
    ensures var chunk := NextChunk(file, pos, chunkSize);
            && pos + |chunk| <= |file|
            && DataFrames(cipher, file, pos, chunkSize, drawn, k) ==
               if chunk == [] then []
               else [Frame(cipher, FILE_DATA, drawn(k), chunk)]
                    + DataFrames(cipher, file, pos + |chunk|, chunkSize, drawn, k + 1)
  {}

  lemma NoWrites()
    ensures Writes([]) == []
  {}

  /** What a client sends: its frames, but for the name frame if there is no name. */
  function SentFrames(cipher: BlockCipher, c: Client): seq<seq<byte>> {
    if c.name == [] then ClientFrames(cipher, c)[1..] else ClientFrames(cipher, c)
  }

  /** `FileTransferTask::Run` for the network client: the name frame, if there is a name, then the producer loop over
      packed chunks, then stop. The draws of the random generator are `client.drawn`. */
  method RunFileTransfer(client: Client, encryptor: Encryption, access: WriteAccess)
    requires encryptor.Valid()
    modifies encryptor, encryptor.encryptor, access
    ensures encryptor.Valid()
    ensures access.calls == old(access.calls) + Writes(SentFrames(encryptor.cipher, client)) + [Stopped]
  {
    hide Writes, ClientFrames, Frame, DataFrames;
    var nameSerializer := new Serializer(encryptor, FILE_NAME);
    var nameFrame := nameSerializer.Pack(client.name, client.drawn(0));
    if nameFrame != [] {
      access.Write(nameFrame);
    }
    var reader := new FileDataReader(client.file, client.chunkSize);
    var segments := new FileDataSegmentReader(reader, encryptor);
    RunSegmentTransfer(segments, access, client.drawn);
    NameThenData(encryptor.cipher, client);
    ghost var dataFrames := DataFrames(encryptor.cipher, client.file, 0, client.chunkSize, client.drawn, 1);
    WriteFirst(old(access.calls), nameFrame, dataFrames);
  }

  lemma NameThenData(cipher: BlockCipher, c: Client)
    ensures ClientFrames(cipher, c) ==
            [Frame(cipher, FILE_NAME, c.drawn(0), c.name)] + DataFrames(cipher, c.file, 0, c.chunkSize, c.drawn, 1)
  {
    hide Frame;
    var all, chunks := ClientFrames(cipher, c), Chunks(c.file, 0, c.chunkSize);
    assert chunks[0..] == chunks;
    DataFramesOfChunks(cipher, c, 0, 0);
    assert all == [all[0]] + all[1..];
  }
}
