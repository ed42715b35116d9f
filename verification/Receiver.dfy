/** The receiving side: one `DataHandler` a connection, all of them sharing one decryptor and one file system. */
module Receiver {
  import opened Bytes
  import opened Ctr
  import opened Framing
  import Modular

  /** A file inside a connection's folder. */
  datatype Path = Path(folder: string, name: seq<byte>)

  type Files = map<Path, seq<byte>>

  datatype Option<T> = None | Some(value: T)

  /** Handled; an exception left the handler; or a data frame met no open writer. */
  datatype Reply = Done | Raised | NoWriter

  /** One connection: the serializer's present type and the file its writer has open. */
  datatype Conn = Conn(kind: byte, open: Option<Path>)

  const FRESH := Conn(0, None)

  /** What is fixed for the whole server: the block cipher under the shared key, and how a sent name becomes a
      plain file name. */
  datatype Env = Env(cipher: BlockCipher, fileName: seq<byte> -> seq<byte>)

  datatype Handled = Handled(conn: Conn, files: Files, reply: Reply)

  /** Only a file of this connection's folder is ever open, and it exists. */
  ghost predicate ConnValid(folder: string, conn: Conn, files: Files) {
    conn.open.Some? ==> conn.open.value.folder == folder && conn.open.value in files
  }

  /** `DataHandler::Write`. A name frame (re)creates and truncates its file; a data frame appends; other types
      are ignored. */
  function Handle(env: Env, folder: string, conn: Conn, files: Files, data: seq<byte>): (h: Handled)
    requires ConnValid(folder, conn, files)
    ensures ConnValid(folder, h.conn, h.files)
  {
    match Parse(env.cipher, data)
    case TooShort => Handled(conn, files, Raised)
    case Overlong(kind) => Handled(conn.(kind := kind), files, Raised)
    case Whole(kind, payload) =>
      var next := conn.(kind := kind);
      if payload == [] then Handled(next, files, Raised)
      else if kind == FILE_NAME then
        var path := Path(folder, env.fileName(payload));
        Handled(next.(open := Some(path)), files[path := []], Done)
      else if kind == FILE_DATA then
        match next.open
        case None => Handled(next, files, NoWriter)
        case Some(path) => Handled(next, files[path := files[path] + payload], Done)
      else Handled(next, files, Done)
  }

  /** A connection on its own, until something goes wrong. */
  function HandleAll(env: Env, folder: string, conn: Conn, files: Files, frames: seq<seq<byte>>): (h: Handled)
    requires ConnValid(folder, conn, files)
    ensures ConnValid(folder, h.conn, h.files)
    decreases |frames|
  {
    if frames == [] then Handled(conn, files, Done)
    else
      var h := HandleAll(env, folder, conn, files, frames[..|frames| - 1]);
      if h.reply == Done then Handle(env, folder, h.conn, h.files, frames[|frames| - 1]) else h
  }

  function InFolder(files: Files, folder: string): Files {
    map path | path in files && path.folder == folder :: files[path]
  }

  /** Exactly what is refused, and that a refusal leaves every file and the open writer alone. */
  lemma RefusalIff(env: Env, folder: string, conn: Conn, files: Files, data: seq<byte>)
    requires ConnValid(folder, conn, files)
    ensures var h := Handle(env, folder, conn, files, data);
            && (h.reply == Raised <==> !Accepted(env.cipher, data))
            && (h.reply == NoWriter <==> Accepted(env.cipher, data) && data[0] == FILE_DATA && conn.open == None)
            && (h.reply != Done || data[0] !in {FILE_NAME, FILE_DATA} ==> h.files == files && h.conn.open == conn.open)
  {}

  /** What an accepted message does: type 1 opens its file in the connection's folder, emptied; type 2 goes to the end
      of the open file; any other does nothing. The first byte is the type, and it is remembered. */
  lemma DispatchByType(env: Env, folder: string, conn: Conn, files: Files, data: seq<byte>)
    requires ConnValid(folder, conn, files) && Accepted(env.cipher, data)
    ensures var h, payload := Handle(env, folder, conn, files, data), Parse(env.cipher, data).payload;
            && h.conn.kind == data[0]
            && (data[0] == 1 ==>
                  var path := Path(folder, env.fileName(payload));
                  h == Handled(Conn(1, Some(path)), files[path := []], Done))
            && (data[0] == 2 && conn.open.Some? ==>
                  h == Handled(conn.(kind := 2), files[conn.open.value := files[conn.open.value] + payload], Done))
            && (data[0] !in {1, 2} ==> h == Handled(conn.(kind := data[0]), files, Done))
  {
    hide Crypt;
  }

  /** A handler sees and changes nothing outside its own folder. */
  lemma HandleIsLocal(env: Env, folder: string, conn: Conn, files: Files, data: seq<byte>, other: string)
    requires ConnValid(folder, conn, files)
    ensures ConnValid(folder, conn, InFolder(files, folder))
    ensures var h := Handle(env, folder, conn, files, data);
            && h == Handle(env, folder, conn, InFolder(files, folder), data).(files := h.files)
            && InFolder(h.files, folder) == Handle(env, folder, conn, InFolder(files, folder), data).files
            && (other != folder ==> InFolder(h.files, other) == InFolder(files, other))
  {}

  // ---- Connection numbers and folders ----

  const DIGITS := "0123456789"

  function Decimal(n: nat): string {
    if n < 10 then [DIGITS[n]] else Decimal(n / 10) + [DIGITS[n % 10]]
  }

  function Folder(id: nat): string {
    "client_" + Decimal(id)
  }

  /** A numeral's value, most significant digit first. */
  function Value(numeral: string): int {
    if numeral == "" then 0
    else Value(numeral[..|numeral| - 1]) * 10 + (numeral[|numeral| - 1] as int - '0' as int)
  }

  lemma DigitAt(d: nat)
    requires d < 10
    ensures DIGITS[d] as int - '0' as int == d
  {}

  /** The numeral of a number: decimal digits only, no zero in front, and the number for its value. */
  lemma {:induction false} DecimalDenotes(n: nat)
    ensures forall i | 0 <= i < |Decimal(n)| :: '0' <= Decimal(n)[i] <= '9'
    ensures |Decimal(n)| >= 1 && (Decimal(n)[0] == '0' <==> n == 0)
    ensures Value(Decimal(n)) == n
  {
    DigitAt(n % 10);
    if n < 10 {
      assert Decimal(n)[..0] == "";
    } else {
      DecimalDenotes(n / 10);
      assert Decimal(n)[..|Decimal(n)| - 1] == Decimal(n / 10);
    }
  }

  /** The folder of connection `n` is "client_" and its number in decimal. */
  lemma FolderName(n: nat)
    ensures |Folder(n)| > 7 && Folder(n)[..7] == "client_" && Value(Folder(n)[7..]) == n
    ensures forall i | 7 <= i < |Folder(n)| :: '0' <= Folder(n)[i] <= '9'
    ensures Folder(n)[7] == '0' <==> n == 0
  {
    DecimalDenotes(n);
    assert Folder(n)[7..] == Decimal(n);
    assert forall i | 7 <= i < |Folder(n)| :: Folder(n)[i] == Decimal(n)[i - 7];
  }

  /** Connections share a folder exactly when they share a number. */
  lemma FoldersDistinctIff(a: nat, b: nat)
    ensures Folder(a) == Folder(b) <==> a == b
  {
    FolderName(a);
    FolderName(b);
  }

  // ---- The server ----

  /** One socket read's worth of bytes, handed to the handler of a connection. */
  datatype Delivery = Delivery(id: nat, data: seq<byte>)

  /** `reply` is the last delivery's: an exception escapes to `NetworkTask::Run`, and anything but Done is taken
      to end the server. */
  datatype Server = Server(conns: map<nat, Conn>, files: Files, reply: Reply)

  function ConnOf(s: Server, id: nat): Conn {
    if id in s.conns then s.conns[id] else FRESH
  }

  ghost predicate ServerValid(s: Server) {
    forall id: nat :: ConnValid(Folder(id), ConnOf(s, id), s.files)
  }

  ghost function Deliver(env: Env, s: Server, d: Delivery): Server
    requires ServerValid(s)
  {
    var h := Handle(env, Folder(d.id), ConnOf(s, d.id), s.files, d.data);
    Server(s.conns[d.id := h.conn], h.files, h.reply)
  }

  lemma DeliverKeepsValid(env: Env, s: Server, d: Delivery)
    requires ServerValid(s)
    ensures ServerValid(Deliver(env, s, d))
  {}

  /** Any interleaving of deliveries, up to the first that goes wrong. */
  ghost function Serve(env: Env, deliveries: seq<Delivery>): (s: Server)
    ensures ServerValid(s)
    decreases |deliveries|
  {
    if deliveries == [] then Server(map[], map[], Done)
    else
      var s := Serve(env, deliveries[..|deliveries| - 1]);
      if s.reply != Done then s
      else
        DeliverKeepsValid(env, s, deliveries[|deliveries| - 1]);
        Deliver(env, s, deliveries[|deliveries| - 1])
  }

  lemma ServeSnoc(env: Env, deliveries: seq<Delivery>, d: Delivery)
    requires Serve(env, deliveries).reply == Done
    ensures Serve(env, deliveries + [d]) == Deliver(env, Serve(env, deliveries), d)
  {
    assert (deliveries + [d])[..|deliveries|] == deliveries;
  }

  /** The deliveries that were really made: all of them, or those up to and including the first failure. */
  ghost function Made(env: Env, deliveries: seq<Delivery>): seq<Delivery>
    decreases |deliveries|
  {
    if deliveries == [] then []
    else
      var before := deliveries[..|deliveries| - 1];
      if Serve(env, before).reply != Done then Made(env, before) else deliveries
  }

  /** One connection's share. */
  function FramesOf(deliveries: seq<Delivery>, id: nat): seq<seq<byte>>
    decreases |deliveries|
  {
    if deliveries == [] then []
    else
      var last := deliveries[|deliveries| - 1];
      FramesOf(deliveries[..|deliveries| - 1], id) + if last.id == id then [last.data] else []
  }

  lemma HandleAllSnoc(env: Env, folder: string, conn: Conn, files: Files, frames: seq<seq<byte>>, data: seq<byte>)
    requires ConnValid(folder, conn, files)
    ensures var h := HandleAll(env, folder, conn, files, frames);
            HandleAll(env, folder, conn, files, frames + [data]) ==
            if h.reply == Done then Handle(env, folder, h.conn, h.files, data) else h
  {}

  /** Isolation: whatever the interleaving, each connection stands exactly where its own frames, of the deliveries
      made, would have brought it alone with its own decryptor and its own disk. */
  lemma {:induction false} Isolation(env: Env, deliveries: seq<Delivery>, id: nat)
    ensures var s := Serve(env, deliveries);
            var alone := HandleAll(env, Folder(id), FRESH, map[], FramesOf(Made(env, deliveries), id));
            && ConnOf(s, id) == alone.conn
            && InFolder(s.files, Folder(id)) == alone.files
            && (s.reply == Done ==> Made(env, deliveries) == deliveries && alone.reply == Done)
    decreases |deliveries|
  {
    hide Handle, Deliver, Folder, InFolder, HandleAll, ConnOf;
    if deliveries == [] {
      NothingServed(env, id);
    } else {
      var before := deliveries[..|deliveries| - 1];
      var s := Serve(env, before);
      Isolation(env, before, id);
      if s.reply == Done {
        var last := deliveries[|deliveries| - 1];
        IsolationStep(env, s, last, id);
        var frames := FramesOf(before, id);
        HandleAllSnoc(env, Folder(id), FRESH, map[], frames, last.data);
        assert Made(env, deliveries) == deliveries;
        assert FramesOf(deliveries, id) == if last.id == id then frames + [last.data] else frames;
        assert Serve(env, deliveries) == Deliver(env, s, last);
      }
    }
  }

  lemma NothingServed(env: Env, id: nat)
    ensures ConnOf(Serve(env, []), id) == HandleAll(env, Folder(id), FRESH, map[], []).conn
    ensures InFolder(Serve(env, []).files, Folder(id)) == HandleAll(env, Folder(id), FRESH, map[], []).files
    ensures Serve(env, []).reply == HandleAll(env, Folder(id), FRESH, map[], []).reply == Done
  {}

  lemma IsolationStep(env: Env, s: Server, d: Delivery, id: nat)
    requires ServerValid(s)
    ensures var s' := Deliver(env, s, d);
            if d.id == id then
              && ConnValid(Folder(id), ConnOf(s, id), InFolder(s.files, Folder(id)))
              && var h := Handle(env, Folder(id), ConnOf(s, id), InFolder(s.files, Folder(id)), d.data);
                 ConnOf(s', id) == h.conn && InFolder(s'.files, Folder(id)) == h.files && s'.reply == h.reply
            else
              ConnOf(s', id) == ConnOf(s, id) && InFolder(s'.files, Folder(id)) == InFolder(s.files, Folder(id))
  {
    FoldersDistinctIff(d.id, id);
    assert ConnValid(Folder(d.id), ConnOf(s, d.id), s.files);
    HandleIsLocal(env, Folder(d.id), ConnOf(s, d.id), s.files, d.data, Folder(id));
  }

  // ---- The objects ----

  /** The files written so far. */
  class Disk {
    var files: Files

    constructor ()
      ensures files == map[]
    {
      files := map[];
    }
  }

  class DataHandler {
    const id: nat
    const env: Env
    const serializer: Serializer
    const disk: Disk
    var dataWriter: Option<Path>

    ghost predicate Valid()
      reads this, disk, serializer, serializer.encryptor, serializer.encryptor.encryptor, serializer.encryptor.decryptor
    {
      && serializer.Valid()
      && serializer.encryptor.cipher == env.cipher
      && ConnValid(Folder(id), State(), disk.files)
    }

    ghost function State(): Conn
      reads this, serializer
    {
      Conn(serializer.kind, dataWriter)
    }

    constructor (id: nat, env: Env, encryptor: Encryption, disk: Disk)
      requires encryptor.Valid() && encryptor.cipher == env.cipher
      ensures Valid() && this.id == id && this.env == env && this.disk == disk
      ensures serializer.encryptor == encryptor && fresh(serializer)
      ensures State() == FRESH
    {
      this.id := id;
      this.env := env;
      this.disk := disk;
      serializer := new Serializer(encryptor, 0);
      dataWriter := None;
    }

    /** What becomes of the connection and the disk depends on the bytes alone, not on what the shared
        decryptor did before. */
    method Write(data: seq<byte>) returns (reply: Reply)
      requires Valid()
      modifies `dataWriter, serializer`kind, serializer`buffer, serializer.encryptor.decryptor, disk
      ensures Valid()
      ensures Handled(State(), disk.files, reply) == Handle(env, Folder(id), old(State()), old(disk.files), data)
    {
      var recovered := serializer.Unpack(data);
      if recovered.Invalid? || recovered.value == [] {
        return Raised;
      }
      if serializer.kind == FILE_NAME {
        var path := Path(Folder(id), env.fileName(recovered.value));
        disk.files := disk.files[path := []];
        dataWriter := Some(path);
      } else if serializer.kind == FILE_DATA {
        match dataWriter {
          case None => return NoWriter;
          case Some(path) => disk.files := disk.files[path := disk.files[path] + recovered.value];
        }
      }
      return Done;
    }
  }

  const SIZE_T: nat := 0x1_0000_0000_0000_0000

  /** The 64-bit connection counter after `n` connections. */
  function ConnectionId(n: nat): nat {
    if n == 0 then 0 else (ConnectionId(n - 1) + 1) % SIZE_T
  }

  lemma {:induction false} ConnectionIdWraps(n: nat)
    ensures ConnectionId(n) == n % 0x1_0000_0000_0000_0000
  {
    if n == 0 {
    } else {
      ConnectionIdWraps(n - 1);
      Modular.AddMod(n - 1, 1, SIZE_T);
    }
  }

  /** Two connections of one server share a folder exactly when 2^64, or a multiple, were accepted between them. */
  lemma ConnectionFoldersIff(m: nat, n: nat)
    requires m <= n
    ensures Folder(ConnectionId(m)) == Folder(ConnectionId(n)) <==> (n - m) % 0x1_0000_0000_0000_0000 == 0
  {
    FoldersDistinctIff(ConnectionId(m), ConnectionId(n));
    ConnectionIdWraps(m);
    ConnectionIdWraps(n);
    SameRemainderIff(m, n);
  }

  lemma SameRemainderIff(m: nat, n: nat)
    requires m <= n
    ensures m % SIZE_T == n % SIZE_T <==> (n - m) % SIZE_T == 0
  {}

  /** What the event loop waits for: the next connection, or bytes on one of those accepted. */
  datatype Event = Connected | Arrived(delivery: Delivery)

  function Accepts(events: seq<Event>): nat {
    if events == [] then 0
    else Accepts(events[..|events| - 1]) + if events[|events| - 1].Connected? then 1 else 0
  }

  function Arrivals(events: seq<Event>): seq<Delivery> {
    if events == [] then []
    else
      var last := events[|events| - 1];
      Arrivals(events[..|events| - 1]) + if last.Arrived? then [last.delivery] else []
  }

  /** Bytes arrive on connections already accepted only. */
  ghost predicate Ordered(events: seq<Event>) {
    forall i | 0 <= i < |events| && events[i].Arrived? :: 1 <= events[i].delivery.id <= Accepts(events[..i])
  }

  lemma {:induction false} PrefixOfEvents(events: seq<Event>, n: nat)
    requires n <= |events|
    ensures Arrivals(events[..n]) <= Arrivals(events) && Accepts(events[..n]) <= Accepts(events)
    decreases |events|
  {
    if n == |events| {
      assert events[..n] == events;
    } else {
      assert events[..|events| - 1][..n] == events[..n];
      PrefixOfEvents(events[..|events| - 1], n);
    }
  }

  lemma NothingYet(env: Env)
    ensures Arrivals([]) == [] && Accepts([]) == 0
    ensures Serve(env, []) == Server(map[], map[], Done)
  {}

  lemma NextEvent(events: seq<Event>, i: nat)
    requires i < |events|
    ensures var before := Arrivals(events[..i]);
            Arrivals(events[..i + 1]) == if events[i].Arrived? then before + [events[i].delivery] else before
    ensures Accepts(events[..i + 1]) == Accepts(events[..i]) + if events[i].Connected? then 1 else 0
  {
    assert events[..i + 1][..i] == events[..i];
  }

  lemma FailureEndsRun(env: Env, events: seq<Event>, n: nat)
    requires n <= |events| && Serve(env, Arrivals(events[..n])).reply != Done
    ensures Serve(env, Arrivals(events)) == Serve(env, Arrivals(events[..n]))
  {
    hide Serve;
    PrefixOfEvents(events, n);
    assert Arrivals(events)[..|Arrivals(events[..n])|] == Arrivals(events[..n]);
    FailureEnds(env, Arrivals(events), |Arrivals(events[..n])|);
  }

  class TCPServer {
    const env: Env
    const encryptor: Encryption
    const disk: Disk
    var currentId: nat
    ghost var accepted: nat   // connections so far

    ghost predicate Valid()
      reads this, encryptor, encryptor.encryptor, encryptor.decryptor
    {
      encryptor.Valid() && encryptor.cipher == env.cipher && currentId == ConnectionId(accepted)
    }

    constructor (env: Env, initialIV: Block)
      ensures Valid() && this.env == env && accepted == 0 && disk.files == map[]
    {
      this.env := env;
      encryptor := new Encryption(env.cipher, initialIV);
      disk := new Disk();
      currentId := 0;
      accepted := 0;
    }

    /** The next connection gets the next number and a handler of its own on the shared decryptor and disk. */
    method Accept() returns (handler: DataHandler)
      requires Valid()
      modifies `currentId, `accepted
      ensures Valid() && accepted == old(accepted) + 1
      ensures handler.Valid() && fresh(handler) && fresh(handler.serializer) && handler.id == ConnectionId(accepted)
      ensures handler.env == env && handler.serializer.encryptor == encryptor && handler.disk == disk
      ensures handler.State() == FRESH
    {
      hide Folder, ConnValid;
      currentId := (currentId + 1) % SIZE_T;
      accepted := accepted + 1;
      handler := new DataHandler(currentId, env, encryptor, disk);
    }

    /** The handlers are this server's, one object with its own serializer for each number. */
    ghost predicate Serving(handlers: map<nat, DataHandler>)
      reads this, encryptor, encryptor.encryptor, encryptor.decryptor
      reads handlers.Values, set h | h in handlers.Values :: h.serializer
    {
      && Valid()
      && (forall id | id in handlers ::
            && handlers[id].id == id && handlers[id].env == env
            && handlers[id].disk == disk && handlers[id].serializer.encryptor == encryptor)
      && (forall i, j | i in handlers && j in handlers && i != j ::
            handlers[i] != handlers[j] && handlers[i].serializer != handlers[j].serializer)
    }

    /** The handlers and the disk stand where `s` says. */
    ghost predicate Mirrors(handlers: map<nat, DataHandler>, s: Server)
      reads disk, handlers.Values, set h | h in handlers.Values :: h.serializer
    {
      && disk.files == s.files
      && forall id | id in handlers :: handlers[id].State() == ConnOf(s, id)
    }

    /** One socket read reaches its handler; every other connection keeps its state. */
    method DispatchOne(handlers: map<nat, DataHandler>, d: Delivery, ghost s: Server) returns (reply: Reply)
      requires Serving(handlers) && d.id in handlers
      requires ServerValid(s) && Mirrors(handlers, s)
      modifies handlers.Values, set h | h in handlers.Values :: h.serializer
      modifies encryptor.decryptor, disk
      ensures Serving(handlers) && Mirrors(handlers, Deliver(env, s, d))
      ensures reply == Deliver(env, s, d).reply
    {
      hide Handle, Folder;
      assert ConnValid(Folder(d.id), ConnOf(s, d.id), s.files);
      reply := handlers[d.id].Write(d.data);
    }

    /** What ties the handlers to the event loop's past: one for each accepted connection, all made by this run. */
    ghost predicate Numbered(handlers: map<nat, DataHandler>, s: Server)
      reads this
    {
      && (forall id :: id in handlers <==> 1 <= id <= accepted)
      && (forall id | id in s.conns :: id in handlers)
    }

    lemma NobodyYet(s: Server)
      requires Valid() && accepted == 0 && s == Server(map[], map[], Done) && disk.files == map[]
      ensures Serving(map[]) && Mirrors(map[], s) && Numbered(map[], s)
    {}

    lemma StillNumbered(handlers: map<nat, DataHandler>, s: Server, d: Delivery)
      requires ServerValid(s) && Numbered(handlers, s) && d.id in handlers
      ensures Numbered(handlers, Deliver(env, s, d))
    {}

    lemma HaveHandlers(handlers: map<nat, DataHandler>, s: Server)
      requires Numbered(handlers, s)
      ensures forall id :: id in handlers <==> 1 <= id <= accepted
    {}

    /** Adds the handler of the connection just accepted. */
    method AcceptOne(handlers: map<nat, DataHandler>, ghost s: Server) returns (more: map<nat, DataHandler>)
      requires Serving(handlers) && Mirrors(handlers, s) && Numbered(handlers, s) && accepted + 1 < SIZE_T
      modifies `currentId, `accepted
      ensures Serving(more) && Mirrors(more, s) && Numbered(more, s) && accepted == old(accepted) + 1
      ensures forall id | id in more && id in handlers :: more[id] == handlers[id]
      ensures forall id | id in more && id !in handlers :: fresh(more[id]) && fresh(more[id].serializer)
    {
      hide Folder, ConnValid, ConnectionId, Encryption.Valid, CtrMode.Valid, ServerValid;
      var handler := Accept();
      ConnectionIdWraps(accepted);
      more := handlers[handler.id := handler];
    }

    /** The event loop from the start of the server: connections are accepted and socket reads handled in whatever
        order they come, until one of the reads fails. */
    method Run(events: seq<Event>) returns (handlers: map<nat, DataHandler>, reply: Reply)
      requires Valid() && accepted == 0 && disk.files == map[]
      requires Ordered(events) && Accepts(events) < SIZE_T
      modifies `currentId, `accepted, encryptor.decryptor, disk
      ensures Serving(handlers) && Mirrors(handlers, Serve(env, Arrivals(events)))
      ensures reply == Serve(env, Arrivals(events)).reply
      ensures reply == Done ==> forall id :: id in handlers <==> 1 <= id <= Accepts(events)
    {
      hide Serving, Mirrors, Deliver, Numbered, Serve, Accepts, Arrivals;
      handlers, reply := map[], Done;
      ghost var s := Serve(env, []);
      NothingYet(env);
      NobodyYet(s);
      assert events[..0] == [];
      for i := 0 to |events|
        invariant Serving(handlers) && Mirrors(handlers, s) && Numbered(handlers, s)
        invariant s == Serve(env, Arrivals(events[..i])) && s.reply == Done == reply
        invariant accepted == Accepts(events[..i])
        invariant forall id | id in handlers :: fresh(handlers[id]) && fresh(handlers[id].serializer)
      {
        NextEvent(events, i);
        PrefixOfEvents(events, i + 1);
        match events[i] {
          case Connected =>
            handlers := AcceptOne(handlers, s);
          case Arrived(d) =>
            HaveHandlers(handlers, s);
            StillNumbered(handlers, s, d);
            reply := DispatchOne(handlers, d, s);
            ServeSnoc(env, Arrivals(events[..i]), d);
            s := Deliver(env, s, d);
            if reply != Done {
              FailureEndsRun(env, events, i + 1);
              return;
            }
        }
      }
      assert events[..|events|] == events;
      HaveHandlers(handlers, s);
    }
  }

  /** What comes after a failure is not looked at. */
  lemma {:induction false} FailureEnds(env: Env, deliveries: seq<Delivery>, n: nat)
    requires n <= |deliveries| && Serve(env, deliveries[..n]).reply != Done
    ensures Serve(env, deliveries) == Serve(env, deliveries[..n])
    decreases |deliveries|
  {
    if n == |deliveries| {
      assert deliveries[..n] == deliveries;
    } else {
      var before := deliveries[..|deliveries| - 1];
      assert before[..n] == deliveries[..n];
      FailureEnds(env, before, n);
    }
  }
}
