/** Reception of bytes: `processBuffer`, `receive` and `dataReceived` of lib/rts2/connection.cpp.

Outside a chunk the bytes are text, collected in the command buffer line by line; a line that
announces a chunk switches to data, and what the command buffer holds behind it is taken first. The
network cuts the stream anywhere, within a line or within a chunk. `Feed` consumes it byte by byte;
the code is proved to come to the same. */
module DataStream {
  import opened Options
  import opened DataChannels
  import opened DataConnection

  const NEWLINE: byte := 10
  const RETURN: byte := 13

  predicate IsSpace(b: byte) {
    b == 32 || 9 <= b <= 13
  }

  /** What a line says about this frame: the channel and size of a chunk, or nothing. */
  type Parser = seq<byte> -> Option<(nat, int)>

  /** `line` is the text of a line that is not complete. */
  datatype Stream = Stream(link: Link, line: seq<byte>)

  /** White space in front of a line does not belong to it, and a carriage return that is not followed by
      a newline makes what stands before it void. */
  function Grow(line: seq<byte>, b: byte): seq<byte> {
    if line == [] || line[|line| - 1] == RETURN then if IsSpace(b) then [] else [b]
    else line + [b]
  }

  /** A line without the carriage return at its end. */
  function Command(line: seq<byte>): seq<byte> {
    if line != [] && line[|line| - 1] == RETURN then line[..|line| - 1] else line
  }

  ghost predicate Partial(line: seq<byte>) {
    && (line != [] ==> !IsSpace(line[0]))
    && forall i | 0 <= i < |line| :: line[i] != NEWLINE && line[i] != 0 && (line[i] == RETURN ==> i == |line| - 1)
  }

  ghost predicate StreamOk(s: Stream) {
    LinkOk(s.link) && Partial(s.line) && (s.link.active.Some? ==> s.line == [])
  }

  predicate Completes(s: Stream, b: byte) {
    s.link.active.None? && b == NEWLINE && s.line != []
  }

  /** Data comes inside a chunk; text has no NUL, and a chunk that it announces is one the channel lacks. */
  predicate Takes(s: Stream, b: byte, parse: Parser) {
    if s.link.active.Some? then !s.link.finished
    else
      && b != 0
      && (Completes(s, b) && parse(Command(s.line)).Some? ==>
            var (c, n) := parse(Command(s.line)).value;
            n >= 0 && Accepts(s.link, Header(c, n)))
  }

  function StreamStep(s: Stream, b: byte, parse: Parser): (r: Stream)
    requires StreamOk(s) && Takes(s, b, parse)
    ensures StreamOk(r)
  {
    if s.link.active.Some? then Stream(Step(s.link, Byte(b)), [])
    else if Completes(s, b) then
      match parse(Command(s.line))
      case None => Stream(s.link, [])
      case Some((c, n)) => Stream(Step(s.link, Header(c, n)), [])
    else Stream(s.link, Grow(s.line, b))
  }

  ghost predicate TakesAll(s: Stream, data: seq<byte>, parse: Parser)
    requires StreamOk(s)
    decreases |data|
  {
    data == [] || (Takes(s, data[0], parse) && TakesAll(StreamStep(s, data[0], parse), data[1..], parse))
  }

  ghost function Feed(s: Stream, data: seq<byte>, parse: Parser): (r: Stream)
    requires StreamOk(s) && TakesAll(s, data, parse)
    ensures StreamOk(r)
    decreases |data|
  {
    if data == [] then s else Feed(StreamStep(s, data[0], parse), data[1..], parse)
  }

  lemma {:induction false} FeedConcat(s: Stream, a: seq<byte>, b: seq<byte>, parse: Parser)
    requires StreamOk(s)
    ensures TakesAll(s, a + b, parse) <==> TakesAll(s, a, parse) && TakesAll(Feed(s, a, parse), b, parse)
    ensures TakesAll(s, a + b, parse) ==> Feed(s, a + b, parse) == Feed(Feed(s, a, parse), b, parse)
    decreases |a|
  {
    if a == [] {
      assert a + b == b;
    } else {
      assert (a + b)[1..] == a[1..] + b;
      if Takes(s, a[0], parse) {
        FeedConcat(StreamStep(s, a[0], parse), a[1..], b, parse);
      }
    }
  }

  /** Reading `data` in state `s` comes to `t`. */
  ghost predicate Leads(s: Stream, data: seq<byte>, t: Stream, parse: Parser) {
    StreamOk(s) && TakesAll(s, data, parse) && Feed(s, data, parse) == t
  }

  /* ---- Text ---- */

  lemma SkipSpace(l: Link, data: seq<byte>, t: Stream, parse: Parser)
    requires data != [] && IsSpace(data[0]) && l.active.None?
    ensures Leads(Stream(l, []), data, t, parse) ==> Leads(Stream(l, []), data[1..], t, parse)
  {
  }

  lemma GrowText(l: Link, line: seq<byte>, data: seq<byte>, t: Stream, parse: Parser)
    requires data != [] && data[0] != NEWLINE && l.active.None?
    requires if line == [] then !IsSpace(data[0]) else line[|line| - 1] != RETURN
    ensures Leads(Stream(l, line), data, t, parse) ==> Leads(Stream(l, line + [data[0]]), data[1..], t, parse)
  {
    assert [] + [data[0]] == [data[0]];
    assert Leads(Stream(l, line), data, t, parse) ==>
        StreamStep(Stream(l, line), data[0], parse) == Stream(l, line + [data[0]]);
  }

  /** A carriage return that something else than a newline follows. */
  lemma LoneReturn(l: Link, line: seq<byte>, data: seq<byte>, t: Stream, parse: Parser)
    requires |data| > 1 && data[0] == RETURN && data[1] != NEWLINE && l.active.None?
    requires line != [] && line[|line| - 1] != RETURN
    ensures Leads(Stream(l, line), data, t, parse) ==> Leads(Stream(l, []), data, t, parse)
  {
    if Leads(Stream(l, line), data, t, parse) {
      GrowText(l, line, data, t, parse);
      var rest := data[1..];
      assert Leads(Stream(l, line + [RETURN]), rest, t, parse);
      assert Takes(Stream(l, []), rest[0], parse);
      assert StreamStep(Stream(l, line + [RETURN]), rest[0], parse) == StreamStep(Stream(l, []), rest[0], parse);
      assert Leads(Stream(l, []), rest, t, parse);
      assert Takes(Stream(l, []), data[0], parse) && StreamStep(Stream(l, []), data[0], parse) == Stream(l, []);
    }
  }

  /** A text without its last byte. */
  lemma PartialPrefix(line: seq<byte>)
    requires Partial(line) && line != []
    ensures Partial(line[..|line| - 1]) && Grow(line[..|line| - 1], line[|line| - 1]) == line
    ensures line[|line| - 1] != NEWLINE && line[|line| - 1] != 0
  {
    var n := |line| - 1;
    var init := line[..n];
    assert init + [line[n]] == line;
    assert forall i | 0 <= i < n :: init[i] == line[i];
    assert n > 0 ==> init[n - 1] != RETURN;
  }

  /** One byte that does not complete a line. */
  lemma OneByte(s: Stream, b: byte, parse: Parser)
    requires StreamOk(s) && s.link.active.None? && b != NEWLINE && b != 0
    ensures Leads(s, [b], Stream(s.link, Grow(s.line, b)), parse)
  {
    var t := StreamStep(s, b, parse);
    assert TakesAll(t, [], parse) && Feed(t, [], parse) == t;
  }

  /** The six characters of C's white space in front of a line are dropped; any other begins one. */
  lemma FirstCharacter(l: Link, b: byte, parse: Parser)
    requires LinkOk(l) && l.active.None? && b != 0
    ensures Leads(Stream(l, []), [b], Stream(l, if b == 32 || b == 9 || b == 10 || b == 11 || b == 12 || b == 13
                                                then [] else [b]), parse)
  {
    var s := Stream(l, []);
    var t := StreamStep(s, b, parse);
    assert !Completes(s, b) && Takes(s, b, parse) && t == Stream(l, Grow([], b));
    assert TakesAll(t, [b][1..], parse) && Feed(t, [b][1..], parse) == t;
  }

  /** A line that ends with a carriage return and a newline means what it means with the newline alone. */
  lemma ReturnIsDropped(l: Link, line: seq<byte>, rest: seq<byte>, t: Stream, parse: Parser)
    requires LinkOk(l) && l.active.None? && Partial(line) && line != [] && line[|line| - 1] != 13
    ensures Leads(Stream(l, line), [13, 10] + rest, t, parse) <==> Leads(Stream(l, line), [10] + rest, t, parse)
  {
    var s, r := Stream(l, line), Stream(l, line + [13]);
    assert ([13, 10] + rest)[1..] == [10] + rest && ([10] + rest)[1..] == rest;
    assert Partial(line + [13]) && StreamOk(r);
    assert Takes(s, 13, parse) && StreamStep(s, 13, parse) == r;
    assert Command(line + [13]) == line == Command(line);
    assert Leads(s, [13, 10] + rest, t, parse) <==> Leads(r, [10] + rest, t, parse);
    assert Takes(r, 10, parse) <==> Takes(s, 10, parse);
    if Takes(s, 10, parse) {
      assert StreamStep(r, 10, parse) == StreamStep(s, 10, parse);
      assert Leads(s, [10] + rest, t, parse) <==> Leads(StreamStep(s, 10, parse), rest, t, parse);
      assert Leads(r, [10] + rest, t, parse) <==> Leads(StreamStep(r, 10, parse), rest, t, parse);
    }
  }

  /** A line that is kept in the buffer can be read again. */
  lemma {:induction false} Again(l: Link, line: seq<byte>, parse: Parser)
    requires LinkOk(l) && l.active.None? && Partial(line)
    ensures Leads(Stream(l, []), line, Stream(l, line), parse)
    decreases |line|
  {
    if line != [] {
      var n := |line| - 1;
      PartialPrefix(line);
      Again(l, line[..n], parse);
      OneByte(Stream(l, line[..n]), line[n], parse);
      hide Partial, Grow, LinkOk;
      FeedConcat(Stream(l, []), line[..n], [line[n]], parse);
      assert line[..n] + [line[n]] == line;
    }
  }

  lemma Complete(l: Link, line: seq<byte>, data: seq<byte>, t: Stream, parse: Parser)
    requires data != [] && data[0] == NEWLINE && line != [] && l.active.None?
    ensures Leads(Stream(l, line), data, t, parse) ==>
              match parse(Command(line))
              case None => Leads(Stream(l, []), data[1..], t, parse)
              case Some((c, n)) =>
                n >= 0 && Accepts(l, Header(c, n)) && Leads(Stream(Step(l, Header(c, n)), []), data[1..], t, parse)
  {
  }

  /* ---- Data ---- */

  lemma {:induction false} DataIsFed(l: Link, data: seq<byte>, parse: Parser)
    requires LinkOk(l) && AcceptsAll(l, Wrap(data))
    ensures Leads(Stream(l, []), data, Stream(Fold(l, Wrap(data)), []), parse)
    decreases |data|
  {
    if data != [] {
      assert Wrap(data)[0] == Byte(data[0]) && Wrap(data)[1..] == Wrap(data[1..]);
      DataIsFed(Step(l, Byte(data[0])), data[1..], parse);
    }
  }

  /** A chunk and what is at hand for it, taken at once, are the header and the bytes one by one. */
  lemma TakeChunk(l: Link, c: nat, n: nat, data: seq<byte>, parse: Parser) returns (r: Link)
    requires LinkOk(l) && Accepts(l, Header(c, n)) && |data| <= n && c < |l.chans|
    ensures r == Reset(Put(Open(l, c, n), data)) && LinkOk(r)
    ensures Leads(Stream(Step(l, Header(c, n)), []), data, Stream(r, []), parse)
    ensures |data| == n ==> r.active.None?
  {
    var o := Open(l, c, n);
    TotalRestUpdate(l.chans, c, o.chans[c]);
    TotalRestBounds(l.chans);
    r := Reset(Put(o, data));
    if data == [] {
      assert o.chans[c].stored + [] == o.chans[c].stored;
      assert Store(o.chans[c], []) == o.chans[c];
      assert Put(o, []).chans == o.chans;
      assert Leads(Stream(Step(l, Header(c, n)), []), data, Stream(r, []), parse);
    } else {
      assert Reset(o) == o;
      DataIsAccepted(o, data);
      DataIsFed(o, data, parse);
    }
  }

  lemma OpenedIsOk(l: Link, c: nat, n: nat, data: seq<byte>)
    requires LinkOk(l) && Accepts(l, Header(c, n)) && |data| <= n && c < |l.chans|
    ensures LinkOk(Reset(Put(Open(l, c, n), data)))
  {
    var r := TakeChunk(l, c, n, data, _ => None);
  }

  /** Whatever follows, the rest of the stream leads where it did. */
  lemma LeadsOn(s: Stream, a: seq<byte>, b: seq<byte>, m: Stream, t: Stream, parse: Parser)
    requires Leads(s, a + b, t, parse) && Leads(s, a, m, parse)
    ensures Leads(m, b, t, parse)
  {
    FeedConcat(s, a, b, parse);
  }

  /** Inside a chunk, data up to its end are stored at once. */
  lemma Stored(l: Link, data: seq<byte>, parse: Parser)
    requires LinkOk(l) && !l.finished && l.active.Some? && |data| <= l.chans[l.active.value].chunk
    ensures Leads(Stream(l, []), data, Stream(Reset(Put(l, data)), []), parse)
  {
    if data == [] {
      ResetPut(l, []);
      PutPut(l, [], []);
    } else {
      DataIsAccepted(l, data);
      DataIsFed(l, data, parse);
    }
  }

  function Delivered(got: SocketRead): seq<byte> {
    if got.Read? then got.data else []
  }

  function Payload(answers: seq<SocketRead>): seq<byte> {
    if answers == [] then [] else Delivered(answers[0]) + Payload(answers[1..])
  }

  /* ---- Reads ---- */

  /** The read that fails, and the end of the stream unless a chunk is open, close the socket. */
  predicate Breaks(s: Stream, got: SocketRead) {
    got.Failed? || (s.link.active.None? && got == Read([]))
  }

  /** A connection that breaks forgets the chunk it was in. */
  function Cut(s: Stream): Stream {
    s.(link := s.link.(active := None))
  }

  /** The answers are what successive reads may return: inside a chunk no more than the rest of it. What
      they bring until the connection breaks is legal. */
  ghost predicate Readable(s: Stream, answers: seq<SocketRead>, parse: Parser)
    requires StreamOk(s)
    decreases |answers|
  {
    answers == [] || Breaks(s, answers[0]) || (
      && TakesAll(s, Delivered(answers[0]), parse)
      && (s.link.active.Some? ==> |Delivered(answers[0])| <= s.link.chans[s.link.active.value].chunk)
      && Readable(Feed(s, Delivered(answers[0]), parse), answers[1..], parse))
  }

  /** How many answers come before the one that breaks the connection. */
  ghost function Unbroken(s: Stream, answers: seq<SocketRead>, parse: Parser): (k: nat)
    requires StreamOk(s) && Readable(s, answers, parse)
    ensures k <= |answers|
    decreases |answers|
  {
    if answers == [] || Breaks(s, answers[0]) then 0
    else 1 + Unbroken(Feed(s, Delivered(answers[0]), parse), answers[1..], parse)
  }

  /** What is left of a connection, and whether the program was defined up to there. */
  datatype Ending = Ending(stream: Stream, broken: bool, defined: bool)

  ghost function EndOf(s: Stream, answers: seq<SocketRead>, parse: Parser): Ending
    requires StreamOk(s) && Readable(s, answers, parse)
    decreases |answers|
  {
    if answers == [] then Ending(s, false, true)
    else if Breaks(s, answers[0]) then Ending(Cut(s), true, s.link.active.None?)
    else EndOf(Feed(s, Delivered(answers[0]), parse), answers[1..], parse)
  }

  /** Where the connection ends depends on the bytes up to its break alone. */
  lemma {:induction false} EndIsFed(s: Stream, answers: seq<SocketRead>, parse: Parser)
    requires StreamOk(s) && Readable(s, answers, parse)
    ensures var k := Unbroken(s, answers, parse);
            var data := Payload(answers[..k]);
            && TakesAll(s, data, parse)
            && var t := Feed(s, data, parse);
               EndOf(s, answers, parse) == if k == |answers| then Ending(t, false, true)
                                           else Ending(Cut(t), true, t.link.active.None?)
    ensures var k := Unbroken(s, answers, parse);
            k < |answers| ==> Breaks(Feed(s, Payload(answers[..k]), parse), answers[k])
    decreases |answers|
  {
    var k := Unbroken(s, answers, parse);
    if k == 0 {
      assert answers[..0] == [];
    } else {
      var first, rest := Delivered(answers[0]), answers[1..];
      EndIsFed(Feed(s, first, parse), rest, parse);
      assert answers[..k][1..] == rest[..k - 1] && answers[..k][0] == answers[0];
      hide LinkOk, StreamOk, Breaks, TakesAll, Feed, Cut, Delivered;
      FeedConcat(s, first, Payload(rest[..k - 1]), parse);
    }
  }

  /** No answer before that is a failed read, or the end of the stream with no chunk open; it is one. */
  lemma {:induction false} StopsAtTheFirst(s: Stream, answers: seq<SocketRead>, parse: Parser, i: nat)
    requires StreamOk(s) && Readable(s, answers, parse) && i <= Unbroken(s, answers, parse)
    ensures TakesAll(s, Payload(answers[..i]), parse)
    ensures var open := Feed(s, Payload(answers[..i]), parse).link.active.Some?;
            if i < Unbroken(s, answers, parse) then !answers[i].Failed? && (open || answers[i] != Read([]))
            else i < |answers| ==> answers[i].Failed? || (!open && answers[i] == Read([]))
    decreases |answers|
  {
    if i == 0 {
      assert answers[..0] == [];
    } else {
      var first, rest := Delivered(answers[0]), answers[1..];
      StopsAtTheFirst(Feed(s, first, parse), rest, parse, i - 1);
      assert answers[..i][1..] == rest[..i - 1] && answers[..i][0] == answers[0] && answers[i..] == rest[i - 1..];
      assert i < |answers| ==> answers[i] == rest[i - 1];
      hide LinkOk, StreamOk, Breaks, TakesAll, Feed, Delivered;
      FeedConcat(s, first, Payload(rest[..i - 1]), parse);
    }
  }

  lemma {:induction false} PayloadPrefix(answers: seq<SocketRead>, k: nat)
    requires k <= |answers|
    ensures Payload(answers[..k]) <= Payload(answers)
  {
    if k > 0 {
      PayloadPrefix(answers[1..], k - 1);
      assert answers[..k][1..] == answers[1..][..k - 1];
    }
  }

  /** The channels of `m` hold what those of `l` hold, and maybe more behind it. */
  ghost predicate Extends(l: Link, m: Link) {
    && |l.chans| == |m.chans|
    && forall c | 0 <= c < |l.chans| ::
         m.chans[c].size == l.chans[c].size && l.chans[c].stored <= m.chans[c].stored
  }

  lemma StepExtends(l: Link, item: Item)
    requires LinkOk(l) && Accepts(l, item)
    ensures Extends(l, Step(l, item))
  {
  }

  /** Whatever comes, nothing that is stored is changed. */
  lemma {:induction false} FeedExtends(s: Stream, data: seq<byte>, t: Stream, parse: Parser)
    requires Leads(s, data, t, parse)
    ensures Extends(s.link, t.link)
    decreases |data|
  {
    if data != [] {
      var n := StreamStep(s, data[0], parse);
      assert Extends(s.link, n.link) by {
        if s.link.active.Some? {
          StepExtends(s.link, Byte(data[0]));
        } else if Completes(s, data[0]) && parse(Command(s.line)).Some? {
          var (c, size) := parse(Command(s.line)).value;
          StepExtends(s.link, Header(c, size));
        }
      }
      hide StreamStep, Step, Takes, LinkOk, StreamOk;
      FeedExtends(n, data[1..], t, parse);
    }
  }

  /** Where a beginning of the stream leads to. */
  lemma OnTheWay(s: Stream, part: seq<byte>, all: seq<byte>, t: Stream, parse: Parser) returns (m: Stream)
    requires Leads(s, all, t, parse) && part <= all
    ensures Leads(s, part, m, parse) && StreamOk(m) && Extends(m.link, t.link) && (part == all ==> m == t)
  {
    var rest := all[|part|..];
    assert all == part + rest;
    FeedConcat(s, part, rest, parse);
    m := Feed(s, part, parse);
    FeedExtends(m, rest, t, parse);
  }

  /* ---- From items to bytes and back ---- */

  /** The text of the line that announces a chunk. */
  type Printer = (nat, nat) -> seq<byte>

  function Render(items: seq<Item>, text: Printer): seq<byte> {
    if items == [] then []
    else
      (match items[0] {
       case Header(c, n) => text(c, n) + [NEWLINE]
       case Byte(b) => [b] })
      + Render(items[1..], text)
  }

  ghost predicate Prints(text: Printer, parse: Parser) {
    forall c: nat, n: nat ::
      && text(c, n) != [] && Partial(text(c, n)) && text(c, n)[|text(c, n)| - 1] != RETURN
      && parse(text(c, n)) == Some((c, n))
  }

  /** Written out as lines and bytes, what the sender puts on the wire leads where the items lead. */
  lemma {:induction false} RenderedItems(l: Link, items: seq<Item>, text: Printer, parse: Parser)
    requires LinkOk(l) && AcceptsAll(l, items) && Prints(text, parse)
    ensures Leads(Stream(l, []), Render(items, text), Stream(Fold(l, items), []), parse)
    decreases |items|
  {
    if items != [] {
      var rest := Render(items[1..], text);
      var t := Stream(Fold(l, items), []);
      RenderedItems(Step(l, items[0]), items[1..], text, parse);
      match items[0]
      case Byte(b) =>
        assert ([b] + rest)[1..] == rest;
      case Header(c, n) =>
        RenderedLine(l, c, n, rest, t, text, parse);
    }
  }

  lemma RenderedLine(l: Link, c: nat, n: nat, rest: seq<byte>, t: Stream, text: Printer, parse: Parser)
    requires LinkOk(l) && Accepts(l, Header(c, n)) && Prints(text, parse)
    requires Leads(Stream(Step(l, Header(c, n)), []), rest, t, parse)
    ensures Leads(Stream(l, []), text(c, n) + [NEWLINE] + rest, t, parse)
  {
    var line := text(c, n);
    var behind := [NEWLINE] + rest;
    Again(l, line, parse);
    assert behind[1..] == rest && Command(line) == line;
    assert Completes(Stream(l, line), NEWLINE) && Takes(Stream(l, line), NEWLINE, parse);
    assert StreamStep(Stream(l, line), NEWLINE, parse) == Stream(Step(l, Header(c, n)), []);
    assert Leads(Stream(l, line), behind, t, parse);
    FeedConcat(Stream(l, []), line, behind, parse);
    assert line + [NEWLINE] + rest == line + behind;
  }

  /** Having read the line `command`, what is behind it leads to `t`. */
  ghost predicate Behind(l: Link, command: seq<byte>, behind: seq<byte>, t: Stream, parse: Parser) {
    && LinkOk(l) && l.active.None?
    && match parse(command)
       case None => Leads(Stream(l, []), behind, t, parse)
       case Some((c, n)) =>
         n >= 0 && Accepts(l, Header(c, n)) && Leads(Stream(Step(l, Header(c, n)), []), behind, t, parse)
  }

  /** What of the buffer is left when a line was taken, with the bytes of its chunk. */
  ghost predicate Goes(l: Link, more: seq<byte>, t: Stream, parse: Parser) {
    && Leads(Stream(l, []), more, t, parse)
    && (more == [] ==> t == Stream(l, []))
    && (more != [] ==> l.active.None?)
  }

  /* ---- The code ---- */

  class Connection {
    const channels: Channels
    const parse: Parser
    var active: Option<nat>
    var finished: bool
    var broken: bool
    // what the command buffer keeps
    var line: seq<byte>

    ghost predicate Valid()
      reads this, channels.readers, channels.Footprint()
    {
      && this !in channels.Footprint()
      && channels.Valid()
      && StreamOk(Stream(Link(channels.View(), active, finished), line))
    }

    ghost function View(): (s: Stream)
      reads this, channels.readers, channels.Footprint()
      requires Valid()
      ensures StreamOk(s)
    {
      Stream(Link(channels.View(), active, finished), line)
    }

    constructor (sizes: seq<nat>, parse: Parser)
      ensures Valid() && fresh(channels.Footprint()) && this.parse == parse && !broken
      ensures View() == Stream(
                Link(seq(|sizes|, i requires 0 <= i < |sizes| => Reader(sizes[i], [], sizes[i], -1)), None, false), [])
    {
      channels := new Channels(sizes);
      this.parse := parse;
      active, finished, broken, line := None, false, false, [];
    }

    /** Tells the device client about new data and closes what is complete. The transfer is looked up by the
        open chunk; without one nothing is found, and what the program does then is not defined. */
    method DataReceived() returns (found: bool)
      requires this !in channels.Footprint() && channels.Valid()
      modifies this`active, this`finished
      ensures channels.View() == old(channels.View()) && found == old(active).Some?
      ensures Link(channels.View(), active, finished)
           == var l := Link(old(channels.View()), old(active), old(finished)); if found then Reset(l) else l
    {
      found := active.Some?;
      if !found {
        return;
      }
      var rest := channels.GetRestSize();
      if rest == 0 {
        active := None;
        finished := true;
      } else if active.value < |channels.readers| && channels.readers[active.value].chunk == 0 {
        active := None;
      }
    }

    ghost predicate Holds(l: Link)
      reads `active, `finished, channels.readers, channels.Footprint()
    {
      this !in channels.Footprint() && channels.Valid() && LinkOk(l) && l == Link(channels.View(), active, finished)
    }

    /** One complete line, and what the buffer holds behind it if that belongs to a chunk. */
    method ProcessLine(command: seq<byte>, behind: seq<byte>, ghost l: Link, ghost t: Stream)
      returns (used: nat, ghost r: Link)
      requires Holds(l) && Behind(l, command, behind, t, parse)
      modifies this`active, this`finished, channels.Footprint()
      ensures Holds(r) && used <= |behind| && Goes(r, behind[used..], t, parse)
    {
      used, r := 0, l;
      match parse(command)
      case None =>
        assert behind[0..] == behind;
      case Some((c, n)) =>
        used := OpenChunk(c, n, behind, l);
        r := TakeChunk(l, c, n, behind[..used], parse);
        Rest(behind, used, c, n, l, r, t, parse);
    }

    /** A chunk is announced: what is at hand for it goes to its channel. */
    method OpenChunk(c: nat, n: nat, behind: seq<byte>, ghost l: Link) returns (used: nat)
      requires Holds(l) && Accepts(l, Header(c, n))
      modifies this`active, this`finished, channels.Footprint()
      ensures used == (if n < |behind| then n else |behind|)
      ensures Holds(Reset(Put(Open(l, c, n), behind[..used])))
    {
      var ok := channels.ReadChannel(c, n);
      active := Some(c);
      var took := channels.AddData(c, behind);
      used := took.value;
      assert Link(channels.View(), active, finished).chans == Put(Open(l, c, n), behind[..used]).chans;
      var found := DataReceived();
      OpenedIsOk(l, c, n, behind[..used]);
    }

    /** The line that ends at `top`, without the end of line at `end`; `more` is what follows it, less what
        belongs to a chunk that it announces. */
    method TakeLine(data: seq<byte>, start: nat, end: nat, top: nat, ghost l: Link, ghost t: Stream)
      returns (more: seq<byte>, ghost r: Link)
      requires start < end <= top < |data| && top <= end + 1 && data[top] == NEWLINE
      requires forall k | start <= k < end :: data[k] != RETURN
      requires top == end + 1 ==> data[end] == RETURN
      requires Holds(l) && l.active.None? && Leads(Stream(l, data[start..top]), data[top..], t, parse)
      modifies this`active, this`finished, channels.Footprint()
      ensures Holds(r) && |more| < |data| && Goes(r, more, t, parse)
    {
      LineAt(data, start, end, top, l, t, parse);
      hide Leads, Goes, Behind, Holds;
      var used;
      used, r := ProcessLine(data[start..end], data[top + 1..], l, t);
      more := data[top + 1..][used..];
    }

    /** One pass over the buffer: up to the end of a line, a lone carriage return, or the end of the buffer.
        `more` is what comes behind, `left` the text to be kept if that is nothing. */
    method OneLine(data: seq<byte>, ghost l: Link, ghost t: Stream)
      returns (more: seq<byte>, left: seq<byte>, ghost r: Link)
      requires data != [] && Holds(l) && l.active.None? && Leads(Stream(l, []), data[0..], t, parse)
      modifies this`active, this`finished, channels.Footprint()
      ensures |more| < |data| && Holds(r)
      ensures more != [] ==> r.active.None? && Leads(Stream(r, []), more[0..], t, parse)
      ensures more == [] ==> t == Stream(r, left)
    {
      hide Leads, TakesAll, Feed, StreamOk, LinkOk, Accepts, Step, Command, Holds, IsSpace;
      var start := SkipSpaces(data, 0, parse, l, t);
      var end, top, found := NextLine(data, start, parse, l, t);
      if found {
        left := [];
        more, r := TakeLine(data, start, end, top, l, t);
      } else {
        more, left, r := data[top..], data[start..], l;
      }
      assert more[0..] == more;
    }

    /** Works off the command buffer with `piece` behind what it kept. */
    method ProcessBuffer(piece: seq<byte>)
      requires Valid() && active.None? && TakesAll(View(), piece, parse)
      modifies this`line, this`active, this`finished, channels.Footprint()
      ensures Valid() && View() == Feed(old(View()), piece, parse)
    {
      ghost var l, t := View().link, Feed(View(), piece, parse);
      FromTheStart(l, line, piece, t, parse);
      assert Holds(l);
      hide *;
      var more, left := line + piece, [];
      assert more[0..] == more;
      while more != []
        invariant Holds(l)
        invariant more != [] ==> l.active.None? && Leads(Stream(l, []), more[0..], t, parse)
        invariant more == [] ==> t == Stream(l, left)
        decreases |more|
      {
        more, left, l := OneLine(more, l, t);
      }
      line := left;
      Settled(l, t);
    }

    /** The socket is closed. */
    method ConnectionError()
      requires Valid()
      modifies this`active, this`broken
      ensures Valid() && broken && View() == Cut(old(View()))
    {
      active := None;
      broken := true;
    }

    /** Data of an open chunk go straight into the channel. Unless the read brought nothing, the transfer is
        looked up; it is found exactly when the read did not fail. */
    method ReceiveData(got: SocketRead) returns (looked: bool, found: bool)
      requires Valid() && active.Some? && |Delivered(got)| <= View().link.chans[active.value].chunk
      modifies this, channels.Footprint()
      ensures Valid() && broken == (old(broken) || got.Failed?)
      ensures if got.Failed? then View() == Cut(old(View())) else Leads(old(View()), Delivered(got), View(), parse)
      ensures looked == (got.Failed? || Delivered(got) != [])
      ensures looked ==> (found <==> !got.Failed?)
    {
      ghost var l := View().link;
      Stored(l, Delivered(got), parse);
      PutPut(l, [], []);
      hide Leads, TakesAll, Feed;
      looked, found := false, false;
      var size := channels.GetData(active.value, got);
      assert Link(channels.View(), active, finished).chans == Put(l, Delivered(got)).chans;
      if size == Some(-1) {
        ConnectionError();
      }
      if size == Some(0) {
        ResetPut(l, []);
        return;
      }
      looked := true;
      found := DataReceived();
    }

    /** One readiness of the socket; `got` is the answer to the read that the code issues, which is into the
        open chunk, or else behind what the command buffer keeps. A closed socket is not read. */
    method Receive(got: SocketRead) returns (defined: bool)
      requires Valid()
      requires !broken && !Breaks(View(), got) ==>
                 && TakesAll(View(), Delivered(got), parse)
                 && (active.Some? ==> |Delivered(got)| <= View().link.chans[active.value].chunk)
      modifies this, channels.Footprint()
      ensures Valid() && broken == (old(broken) || got.Failed? || (old(active).None? && got == Read([])))
      ensures !old(broken) && broken ==>
                active.None? && line == old(line) && finished == old(finished) && channels.View() == old(channels.View())
      ensures View() == if old(broken) then old(View())
                        else if broken then Cut(old(View()))
                        else Feed(old(View()), Delivered(got), parse)
      ensures defined <==> old(broken) || old(active).None? || !got.Failed?
    {
      defined := true;
      if broken {
        return;
      }
      if active.Some? {
        var looked, found := ReceiveData(got);
        return !looked || found;
      }
      match got
      case Interrupted =>
      case Failed =>
        ConnectionError();
      case Read(data) =>
        if data == [] {
          ConnectionError();
          return;
        }
        ProcessBuffer(data);
    }

    /** Any sequence of readinesses: what ends up in the channels depends on the bytes up to the break of the
        connection alone, not on where they are cut, within a line or within a chunk, nor on reads that bring
        nothing. */
    method ReceiveAll(answers: seq<SocketRead>) returns (defined: bool)
      requires Valid() && (!broken ==> Readable(View(), answers, parse))
      modifies this, channels.Footprint()
      ensures Valid()
      ensures Ending(View(), broken, defined)
           == if old(broken) then Ending(old(View()), true, true) else EndOf(old(View()), answers, parse)
      ensures !old(broken) ==>
                var k := Unbroken(old(View()), answers, parse);
                var data := Payload(answers[..k]);
                && broken == (k < |answers|)
                && TakesAll(old(View()), data, parse)
                && var t := Feed(old(View()), data, parse);
                   && View() == (if broken then Cut(t) else t)
                   && (defined <==> !broken || t.link.active.None?)
      ensures !old(broken) ==>
                forall i | 0 <= i <= Unbroken(old(View()), answers, parse) ::
                  && TakesAll(old(View()), Payload(answers[..i]), parse)
                  && var open := Feed(old(View()), Payload(answers[..i]), parse).link.active.Some?;
                     if i < Unbroken(old(View()), answers, parse)
                     then !answers[i].Failed? && (open || answers[i] != Read([]))
                     else i < |answers| ==> answers[i].Failed? || (!open && answers[i] == Read([]))
    {
      if !broken {
        EndIsFed(View(), answers, parse);
        forall i | 0 <= i <= Unbroken(View(), answers, parse) {
          StopsAtTheFirst(View(), answers, parse, i);
        }
      }
      defined := true;
      var more := answers;
      while more != []
        invariant Valid() && (!broken ==> Readable(View(), more, parse) && !old(broken) && defined)
        invariant (if broken then Ending(View(), true, defined) else EndOf(View(), more, parse))
               == if old(broken) then Ending(old(View()), true, true) else EndOf(old(View()), answers, parse)
        decreases |more|
      {
        var ok := Receive(more[0]);
        defined := defined && ok;
        more := more[1..];
      }
    }

    lemma Settled(l: Link, t: Stream)
      requires Holds(l) && t == Stream(l, line) && StreamOk(t)
      ensures Valid() && View() == t
    {
    }
  }

  lemma FromTheStart(l: Link, line: seq<byte>, piece: seq<byte>, t: Stream, parse: Parser)
    requires Leads(Stream(l, line), piece, t, parse) && l.active.None?
    ensures Leads(Stream(l, []), line + piece, t, parse)
    ensures line + piece == [] ==> t == Stream(l, [])
  {
    Again(l, line, parse);
    FeedConcat(Stream(l, []), line, piece, parse);
  }

  /** From a character that is not white space: the end of its line, or of the buffer, or a carriage return
      on its own. */
  method NextLine(data: seq<byte>, start: nat, parse: Parser, ghost l: Link, ghost t: Stream)
    returns (end: nat, top: nat, found: bool)
    requires start <= |data| && l.active.None? && Leads(Stream(l, []), data[start..], t, parse)
    requires start < |data| ==> !IsSpace(data[start])
    ensures found ==>
              && start < end <= top < |data| && top <= end + 1 && data[top] == NEWLINE
              && (forall k | start <= k < end :: data[k] != RETURN) && (top == end + 1 ==> data[end] == RETURN)
              && Leads(Stream(l, data[start..top]), data[top..], t, parse)
    ensures !found ==> start <= top <= |data|
    ensures !found && top == |data| ==> t == Stream(l, data[start..])
    ensures !found && top < |data| ==> start < top && Leads(Stream(l, []), data[top..], t, parse)
  {
    hide Leads;
    top := FindEnd(data, start, parse, l, t);
    end := top;
    found := false;
    if top + 1 < |data| && data[top] == RETURN && data[top + 1] == NEWLINE {
      GrowAt(data, start, top, parse, l, t);
      top := top + 1;
    }
    // the newline may come with the next read
    if top + 1 == |data| && data[top] == RETURN {
      GrowAt(data, start, top, parse, l, t);
      top := top + 1;
      AtEnd(data, start, l, t, parse);
    } else if top < |data| && data[top] == NEWLINE {
      found := true;
    } else if top < |data| {
      LoneReturn(l, data[start..top], data[top..], t, parse);
    } else {
      AtEnd(data, start, l, t, parse);
    }
  }

  lemma GrowAt(data: seq<byte>, start: nat, top: nat, parse: Parser, l: Link, t: Stream)
    requires start <= top < |data| && data[top] != NEWLINE && l.active.None?
    requires if start == top then !IsSpace(data[top]) else data[top - 1] != RETURN
    requires Leads(Stream(l, data[start..top]), data[top..], t, parse)
    ensures Leads(Stream(l, data[start..top + 1]), data[top + 1..], t, parse)
  {
    GrowText(l, data[start..top], data[top..], t, parse);
    assert data[start..top] + [data[top]] == data[start..top + 1] && data[top..][1..] == data[top + 1..];
  }

  lemma AtEnd(data: seq<byte>, start: nat, l: Link, t: Stream, parse: Parser)
    requires start <= |data| && Leads(Stream(l, data[start..|data|]), data[|data|..], t, parse)
    ensures t == Stream(l, data[start..])
  {
  }

  lemma CommandIs(data: seq<byte>, start: nat, end: nat, top: nat)
    requires start < end <= top <= |data| && top <= end + 1
    requires forall k | start <= k < end :: data[k] != RETURN
    requires top == end + 1 ==> data[end] == RETURN
    ensures Command(data[start..top]) == data[start..end]
  {
  }

  lemma LineAt(data: seq<byte>, start: nat, end: nat, top: nat, l: Link, t: Stream, parse: Parser)
    requires start < end <= top < |data| && top <= end + 1 && data[top] == NEWLINE
    requires forall k | start <= k < end :: data[k] != RETURN
    requires top == end + 1 ==> data[end] == RETURN
    requires LinkOk(l) && l.active.None? && Leads(Stream(l, data[start..top]), data[top..], t, parse)
    ensures Behind(l, data[start..end], data[top + 1..], t, parse)
  {
    hide Leads, Command, Step, Accepts, LinkOk;
    CommandIs(data, start, end, top);
    Complete(l, data[start..top], data[top..], t, parse);
    assert data[top..][1..] == data[top + 1..];
  }

  /** Behind a header, the rest of the buffer without what went to the chunk. */
  lemma Rest(behind: seq<byte>, used: nat, c: nat, n: nat, before: Link, after: Link, t: Stream, parse: Parser)
    requires used <= |behind| && (after.active.Some? ==> used == |behind|)
    requires LinkOk(before) && Accepts(before, Header(c, n))
    requires Leads(Stream(Step(before, Header(c, n)), []), behind, t, parse)
    requires Leads(Stream(Step(before, Header(c, n)), []), behind[..used], Stream(after, []), parse)
    ensures Goes(after, behind[used..], t, parse)
  {
    assert behind[..used] + behind[used..] == behind;
    LeadsOn(Stream(Step(before, Header(c, n)), []), behind[..used], behind[used..], Stream(after, []), t, parse);
  }

  method SkipSpaces(data: seq<byte>, from: nat, parse: Parser, ghost l: Link, ghost t: Stream) returns (top: nat)
    requires from <= |data| && l.active.None? && Leads(Stream(l, []), data[from..], t, parse)
    ensures from <= top <= |data| && Leads(Stream(l, []), data[top..], t, parse)
    ensures top < |data| ==> !IsSpace(data[top])
  {
    top := from;
    while top < |data| && IsSpace(data[top])
      invariant from <= top <= |data| && Leads(Stream(l, []), data[top..], t, parse)
    {
      SkipSpace(l, data[top..], t, parse);
      assert data[top..][1..] == data[top + 1..];
      top := top + 1;
    }
  }

  method FindEnd(data: seq<byte>, start: nat, parse: Parser, ghost l: Link, ghost t: Stream) returns (top: nat)
    requires start <= |data| && l.active.None? && Leads(Stream(l, []), data[start..], t, parse)
    requires start < |data| ==> !IsSpace(data[start])
    ensures start <= top <= |data| && Leads(Stream(l, data[start..top]), data[top..], t, parse)
    ensures forall k | start <= k < top :: data[k] != NEWLINE && data[k] != RETURN
    ensures top < |data| ==> start < top && (data[top] == NEWLINE || data[top] == RETURN)
  {
    top := start;
    assert data[start..start] == [];
    hide Leads;
    while top < |data| && data[top] != NEWLINE && data[top] != RETURN
      invariant start <= top <= |data| && Leads(Stream(l, data[start..top]), data[top..], t, parse)
      invariant forall k | start <= k < top :: data[k] != NEWLINE && data[k] != RETURN
    {
      GrowAt(data, start, top, parse, l, t);
      top := top + 1;
    }
  }
}
