/** How far the server gets: which deliveries it survives, and what a bad one does to the other connections. */
module Survival {
  import opened Bytes
  import opened Ctr
  import opened Framing
  import opened Receiver
  import opened Transfer
  import opened Chunking

  /** The connection has sent a name. */
  ghost predicate Named(cipher: BlockCipher, deliveries: seq<Delivery>, id: nat) {
    exists j :: 0 <= j < |deliveries| && Names(cipher, deliveries[j], id)
  }

  ghost predicate Names(cipher: BlockCipher, d: Delivery, id: nat) {
    d.id == id && Accepted(cipher, d.data) && d.data[0] == FILE_NAME
  }

  /** A whole frame that is not empty and, if it holds data, comes after a name on the same connection. */
  ghost predicate InOrder(cipher: BlockCipher, before: seq<Delivery>, d: Delivery) {
    Accepted(cipher, d.data) && (d.data[0] == FILE_DATA ==> Named(cipher, before, d.id))
  }

  ghost predicate AllInOrder(cipher: BlockCipher, deliveries: seq<Delivery>) {
    forall i | 0 <= i < |deliveries| :: InOrder(cipher, deliveries[..i], deliveries[i])
  }

  lemma AllInOrderSnoc(cipher: BlockCipher, before: seq<Delivery>, d: Delivery)
    ensures AllInOrder(cipher, before + [d]) <==> AllInOrder(cipher, before) && InOrder(cipher, before, d)
  {
    hide InOrder;
    var all, n := before + [d], |before|;
    assert all[..n] == before && all[n] == d;
    assert forall i | 0 <= i < n :: all[..i] == before[..i] && all[i] == before[i];
  }

  lemma NamedSnoc(cipher: BlockCipher, before: seq<Delivery>, d: Delivery, id: nat)
    ensures Named(cipher, before + [d], id) <==> Named(cipher, before, id) || Names(cipher, d, id)
  {
    hide Names;
    var all, n := before + [d], |before|;
    assert all[n] == d;
    assert forall j | 0 <= j < n :: all[j] == before[j];
  }

  /** Of one delivery: whether it goes well, and that only a name opens a writer. */
  lemma DeliverOpens(env: Env, s: Server, d: Delivery, id: nat)
    requires ServerValid(s)
    ensures var s' := Deliver(env, s, d);
            && (s'.reply == Done <==>
                  Accepted(env.cipher, d.data) && (d.data[0] == FILE_DATA ==> ConnOf(s, d.id).open.Some?))
            && (s'.reply == Done ==>
                  (ConnOf(s', id).open.Some? <==> ConnOf(s, id).open.Some? || Names(env.cipher, d, id)))
  {
    hide Folder;
    assert ConnValid(Folder(d.id), ConnOf(s, d.id), s.files);
    RefusalIff(env, Folder(d.id), ConnOf(s, d.id), s.files, d.data);
  }

  /** The server survives exactly those deliveries that are all whole frames with a name before any data, connection
      by connection; and then those connections have a file open that have sent a name. */
  lemma {:induction false} SurvivesIff(env: Env, deliveries: seq<Delivery>)
    ensures var s := Serve(env, deliveries);
            && (s.reply == Done <==> AllInOrder(env.cipher, deliveries))
            && (s.reply == Done ==> forall id: nat :: ConnOf(s, id).open.Some? <==> Named(env.cipher, deliveries, id))
    decreases |deliveries|
  {
    hide Deliver, InOrder, Named, Names, ConnOf, AllInOrder;
    if deliveries == [] {
      NobodyNamed(env);
    } else {
      var before, d := deliveries[..|deliveries| - 1], deliveries[|deliveries| - 1];
      assert deliveries == before + [d];
      SurvivesIff(env, before);
      AllInOrderSnoc(env.cipher, before, d);
      var s := Serve(env, before);
      if s.reply == Done {
        ServeSnoc(env, before, d);
        NextSurvives(env, before, d);
      }
    }
  }

  lemma NobodyNamed(env: Env)
    ensures Serve(env, []).reply == Done && AllInOrder(env.cipher, [])
    ensures forall id: nat :: ConnOf(Serve(env, []), id).open.None? && !Named(env.cipher, [], id)
  {}

  lemma NextSurvives(env: Env, before: seq<Delivery>, d: Delivery)
    requires forall id: nat :: ConnOf(Serve(env, before), id).open.Some? <==> Named(env.cipher, before, id)
    ensures var s' := Deliver(env, Serve(env, before), d);
            && (s'.reply == Done <==> InOrder(env.cipher, before, d))
            && (s'.reply == Done ==>
                  forall id: nat :: ConnOf(s', id).open.Some? <==> Named(env.cipher, before + [d], id))
  {
    hide Serve, Deliver, Named, Names, ConnOf;
    var s' := Deliver(env, Serve(env, before), d);
    DeliverOpens(env, Serve(env, before), d, d.id);
    forall id: nat
      ensures s'.reply == Done ==> (ConnOf(s', id).open.Some? <==> Named(env.cipher, before + [d], id))
    {
      DeliverOpens(env, Serve(env, before), d, id);
      NamedSnoc(env.cipher, before, d, id);
    }
  }

  /** Every connection on its own is left without a failure by the frames it sends. */
  ghost predicate FineAlone(env: Env, deliveries: seq<Delivery>, id: nat) {
    HandleAll(env, Folder(id), FRESH, map[], FramesOf(deliveries, id)).reply == Done
  }

  /** The server survives exactly if every connection would on a server of its own. */
  lemma SurvivesIffAllFineAlone(env: Env, deliveries: seq<Delivery>)
    ensures Serve(env, deliveries).reply == Done <==> forall id: nat :: FineAlone(env, deliveries, id)
  {
    if Serve(env, deliveries).reply == Done {
      forall id: nat
        ensures FineAlone(env, deliveries, id)
      {
        Isolation(env, deliveries, id);
      }
    } else {
      var id := WhoFails(env, deliveries);
      assert !FineAlone(env, deliveries, id);
    }
  }

  /** The connection whose delivery was the first to go wrong fails on its own as well. */
  lemma {:induction false} WhoFails(env: Env, deliveries: seq<Delivery>) returns (id: nat)
    requires Serve(env, deliveries).reply != Done
    ensures !FineAlone(env, deliveries, id)
    decreases |deliveries|
  {
    hide Handle, Deliver, Folder, InFolder, HandleAll, ConnOf;
    assert deliveries != [];
    var before, d := deliveries[..|deliveries| - 1], deliveries[|deliveries| - 1];
    id := d.id;
    if Serve(env, before).reply == Done {
      Isolation(env, before, id);
      IsolationStep(env, Serve(env, before), d, id);
    } else {
      id := WhoFails(env, before);
    }
    HandleAllSnoc(env, Folder(id), FRESH, map[], FramesOf(before, id), d.data);
    assert FramesOf(deliveries, id) == FramesOf(before, id) + if d.id == id then [d.data] else [];
    assert d.id != id ==> FramesOf(deliveries, id) == FramesOf(before, id);
  }

  /** So on deliveries that are in order, however they interleave, every connection stands where all of its own
      frames would have brought it alone. */
  lemma InOrderIsolation(env: Env, deliveries: seq<Delivery>, id: nat)
    requires AllInOrder(env.cipher, deliveries)
    ensures var s, alone := Serve(env, deliveries), HandleAll(env, Folder(id), FRESH, map[], FramesOf(deliveries, id));
            && s.reply == alone.reply == Done
            && ConnOf(s, id) == alone.conn
            && InFolder(s.files, Folder(id)) == alone.files
  {
    hide Handle, HandleAll, Folder, InFolder, ConnOf, Serve;
    SurvivesIff(env, deliveries);
    Isolation(env, deliveries, id);
  }

  /** Where the server stops: at the first delivery out of order, which changes no file and opens no writer, and
      after which nothing is looked at any more. */
  lemma StopsAtFirstOutOfOrder(env: Env, before: seq<Delivery>, d: Delivery, after: seq<Delivery>)
    requires AllInOrder(env.cipher, before) && !InOrder(env.cipher, before, d)
    ensures var s, s' := Serve(env, before), Serve(env, before + [d] + after);
            && s'.reply != Done && s'.files == s.files
            && forall id: nat :: ConnOf(s', id).open == ConnOf(s, id).open
  {
    hide Handle, Folder, Serve, InOrder;
    var s, all := Serve(env, before), before + [d] + after;
    SurvivesIff(env, before);
    SurvivesIff(env, before + [d]);
    AllInOrderSnoc(env.cipher, before, d);
    ServeSnoc(env, before, d);
    assert all[..|before| + 1] == before + [d];
    FailureEnds(env, all, |before| + 1);
    assert ConnValid(Folder(d.id), ConnOf(s, d.id), s.files);
    RefusalIff(env, Folder(d.id), ConnOf(s, d.id), s.files, d.data);
  }

  /** A client's frames, one delivery each. */
  function Sent(id: nat, frames: seq<seq<byte>>): (r: seq<Delivery>)
    ensures |r| == |frames|
  {
    seq(|frames|, i requires 0 <= i < |frames| => Delivery(id, frames[i]))
  }

  lemma {:induction false} FramesOfSent(first: Delivery, id: nat, frames: seq<seq<byte>>)
    requires first.id != id
    ensures FramesOf([first] + Sent(id, frames), id) == frames
    decreases |frames|
  {
    var all := [first] + Sent(id, frames);
    if frames == [] {
      assert all == [first] && all[..0] == [];
    } else {
      var n := |frames| - 1;
      assert all[..|all| - 1] == [first] + Sent(id, frames[..n]);
      FramesOfSent(first, id, frames[..n]);
      assert frames[..n] + [frames[n]] == frames;
    }
  }

  /** The input that shows it: one cut frame, or data without a name, and a client on another connection whose
      frames all arrive afterwards leaves no file, although alone they would have left it whole. */
  lemma OneStopsAnother(env: Env, bad: Delivery, id: nat, c: Client)
    requires bad.id != id && ClientValid(c) && !InOrder(env.cipher, [], bad)
    ensures var frames := ClientFrames(env.cipher, c);
            var deliveries := [bad] + Sent(id, frames);
            && FramesOf(deliveries, id) == frames
            && Serve(env, deliveries).files == map[]
            && HandleAll(env, Folder(id), FRESH, map[], frames).files == map[ClientPath(env, Folder(id), c) := c.file]
  {
    hide Handle, HandleAll, ClientFrames, Folder, Serve, InOrder;
    var frames := ClientFrames(env.cipher, c);
    FramesOfSent(bad, id, frames);
    StopsAtFirstOutOfOrder(env, [], bad, Sent(id, frames));
    NothingYet(env);
    assert [] + [bad] + Sent(id, frames) == [bad] + Sent(id, frames);
    EndToEnd(env, Folder(id), FRESH, map[], c);
  }

  /** Both kinds of bad delivery exist, for every key, IV and payload. */
  lemma BadDeliveries(cipher: BlockCipher, id: nat, kind: byte, iv: Block, payload: seq<byte>, cut: nat)
    requires 0 < |payload| < WIDTH && cut < |Frame(cipher, kind, iv, payload)|
    ensures !InOrder(cipher, [], Delivery(id, Frame(cipher, kind, iv, payload)[..cut]))
    ensures !InOrder(cipher, [], Delivery(id, Frame(cipher, FILE_DATA, iv, payload)))
  {
    hide Parse;
    NoPartialFrameIff(cipher, kind, iv, payload);
  }

  /** A client without a name sends its data all the same, and its first frame ends the server. */
  lemma NamelessClientEndsServer(env: Env, id: nat, c: Client)
    requires c.name == [] && c.file != [] && 0 < c.chunkSize < WIDTH
    ensures var s := Serve(env, Sent(id, SentFrames(env.cipher, c)));
            s.reply != Done && s.files == map[]
  {
    hide Serve, InOrder, ClientFrame, Frame, Chunks, Handle, Folder;
    var sent := SentFrames(env.cipher, c);
    var chunk := NextChunk(c.file, 0, c.chunkSize);
    FirstChunk(c.file, 0, c.chunkSize);
    FirstDataFrame(env.cipher, c);
    BadDeliveries(env.cipher, id, FILE_DATA, c.drawn(1), chunk, 0);
    var bad := Delivery(id, sent[0]);
    NothingYet(env);
    StopsAtFirstOutOfOrder(env, [], bad, Sent(id, sent[1..]));
    assert Sent(id, sent) == [] + [bad] + Sent(id, sent[1..]);
  }

  lemma FirstDataFrame(cipher: BlockCipher, c: Client)
    requires c.name == [] && c.file != [] && c.chunkSize > 0
    ensures var sent := SentFrames(cipher, c);
            sent != [] && sent[0] == Frame(cipher, FILE_DATA, c.drawn(1), NextChunk(c.file, 0, c.chunkSize))
  {
    hide Frame;
  }
}
