/** A frame from the sender's buffers to the receiver's, as the bytes that go over the socket. */
module FrameTransfer {
  import opened Options
  import opened DataChannels
  import opened DataConnection
  import opened DataTransfer
  import opened DataStream

  /** Nothing is left to announce or to write. */
  ghost predicate AllSent(s: Sender) {
    s.current.None? && forall c | 0 <= c < |s.unsent| :: s.unsent[c] == []
  }

  ghost predicate Arrived(l: Link, payload: seq<seq<byte>>) {
    |l.chans| == |payload| && forall c | 0 <= c < |payload| :: l.chans[c].stored == payload[c]
  }

  /** What is in flight once everything is sent, written out as header lines and bytes, completes every
      channel; the client is told if there was a byte to send. */
  lemma WireCompletes(payload: seq<seq<byte>>, run: seq<Action>, e: System, text: Printer, parse: Parser)
    returns (t: Stream)
    requires Reached(payload, run, e) && AllSent(e.sender) && Prints(text, parse)
    ensures Leads(Stream(e.link, []), Render(e.wire, text), t, parse)
    ensures t.line == [] && Arrived(t.link, payload)
    ensures (exists c :: 0 <= c < |payload| && payload[c] != []) ==> t.link.finished
  {
    var l := Fold(e.link, e.wire);
    t := Stream(l, []);
    RenderedItems(e.link, e.wire, text, parse);
    Conservation(payload, run, e);
    FoldKeepsChannels(e.link, e.wire);
    forall c | 0 <= c < |payload|
      ensures l.chans[c].stored == payload[c] && l.chans[c].size == |payload[c]|
    {
      FoldStores(e.link, e.link.active, e.wire, c);
      assert Pending(e.sender, c) == [];
    }
    if exists c :: 0 <= c < |payload| && payload[c] != [] {
      WireTells(payload, run, e);
    }
  }

  /** Once everything in flight is read, no channel lacks anything exactly when the client was told. */
  lemma WireTells(payload: seq<seq<byte>>, run: seq<Action>, e: System)
    requires Reached(payload, run, e) && exists c :: 0 <= c < |payload| && payload[c] != []
    ensures var l := Fold(e.link, e.wire);
            l.finished <==> forall c | 0 <= c < |l.chans| :: |l.chans[c].stored| == l.chans[c].size
  {
    var start, l := Initial(payload), Fold(e.link, e.wire);
    TotalRestBounds(start.link.chans);
    hide Initial, Fold;
    AfterTells(start, run, payload);
    FoldTells(e.link, e.wire);
    TotalRestBounds(l.chans);
  }

  /** The channels hold what the payload begins with. */
  ghost predicate Begun(l: Link, payload: seq<seq<byte>>) {
    |l.chans| == |payload| && forall c | 0 <= c < |payload| :: l.chans[c].stored <= payload[c]
  }

  /** A beginning of the stream brings a beginning of every payload, and the client is told only when that
      is the whole. */
  lemma PartOfWire(
      payload: seq<seq<byte>>, run: seq<Action>, e: System, text: Printer, parse: Parser, data: seq<byte>)
    returns (m: Stream)
    requires Reached(payload, run, e) && AllSent(e.sender) && Prints(text, parse)
    requires data <= Render(e.wire, text)
    ensures Leads(Stream(e.link, []), data, m, parse) && Begun(m.link, payload)
    ensures m.link.finished ==> Arrived(m.link, payload)
    ensures data == Render(e.wire, text) ==>
              && Arrived(m.link, payload)
              && ((exists c :: 0 <= c < |payload| && payload[c] != []) ==> m.link.finished)
  {
    var t := WireCompletes(payload, run, e, text, parse);
    Conservation(payload, run, e);
    hide Leads, Reached, Prints, AllSent, Render;
    m := OnTheWay(Stream(e.link, []), data, Render(e.wire, text), t, parse);
    FeedExtends(Stream(e.link, []), data, m, parse);
    TotalRestBounds(m.link.chans);
  }

  /** The answers are what successive reads of a legal stream may return. */
  ghost predicate Fragments(s: Stream, answers: seq<SocketRead>, parse: Parser)
    requires StreamOk(s)
  {
    TakesAll(s, Payload(answers), parse) ==> Readable(s, answers, parse)
  }

  /** End to end, on a new connection: whatever chunks the sender cuts the frame into, wherever the network
      cuts the stream of lines and bytes, and wherever the connection breaks, every channel holds the
      beginning of its payload, and the client is told only of the whole. If the stream came before the
      break, the frame is complete. */
  method ReceiveFrame(
      connection: Connection, answers: seq<SocketRead>,
      ghost payload: seq<seq<byte>>, ghost run: seq<Action>, ghost e: System, ghost text: Printer)
    requires connection.Valid() && connection.View() == Stream(Initial(payload).link, []) && !connection.broken
    requires Reached(payload, run, e) && e.link == Initial(payload).link && AllSent(e.sender)
    requires Prints(text, connection.parse) && Payload(answers) <= Render(e.wire, text)
    requires Fragments(connection.View(), answers, connection.parse)
    modifies connection, connection.channels.Footprint()
    ensures connection.Valid() && Begun(connection.View().link, payload)
    ensures connection.finished ==> Arrived(connection.View().link, payload)
    ensures Readable(old(connection.View()), answers, connection.parse)
    ensures var k := Unbroken(old(connection.View()), answers, connection.parse);
            && connection.broken == (k < |answers|)
            && (Payload(answers[..k]) == Render(e.wire, text) ==>
                  && Arrived(connection.View().link, payload)
                  && ((exists c :: 0 <= c < |payload| && payload[c] != []) ==> connection.finished))
  {
    ghost var s := connection.View();
    ghost var all := PartOfWire(payload, run, e, text, connection.parse, Payload(answers));
    ghost var k := Unbroken(s, answers, connection.parse);
    PayloadPrefix(answers, k);
    ghost var part := PartOfWire(payload, run, e, text, connection.parse, Payload(answers[..k]));
    var defined := connection.ReceiveAll(answers);
  }
}
