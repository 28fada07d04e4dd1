/** A frame on a connection, item by item: the reference for the parts of lib/rts2/connection.cpp that
move binary data from the stream into the channels.

The stream is a sequence of items: a whole header line, or one byte of data. `Step` consumes one
item. What the code does, with the bytes of the lines and the fragments they come in, is in
`DataStream`. */
module DataConnection {
  import opened Options
  import opened DataChannels

  datatype Item = Header(chan: nat, size: nat) | Byte(b: byte)

  /** `active` is the channel whose chunk is open. `finished` is set when the frame is complete and
      has been handed to the device client. */
  datatype Link = Link(chans: seq<Reader>, active: Option<nat>, finished: bool)

  function Reset(l: Link): Link {
    if TotalRest(l.chans) == 0 then l.(active := None, finished := true)
    else if l.active.Some? && l.active.value < |l.chans| && l.chans[l.active.value].chunk == 0 then l.(active := None)
    else l
  }

  /** A chunk starts between chunks, on a channel of the frame and within what it lacks; data comes
      inside a chunk. */
  predicate Accepts(l: Link, item: Item) {
    && !l.finished
    && match item
       case Header(c, n) => l.active.None? && c < |l.chans| && n <= l.chans[c].rest
       case Byte(_) => l.active.Some?
  }

  ghost predicate LinkOk(l: Link) {
    && (forall c | 0 <= c < |l.chans| :: Consistent(l.chans[c]))
    && (l.active.Some? ==>
          && l.active.value < |l.chans|
          && Started(l.chans[l.active.value])
          && l.chans[l.active.value].chunk > 0)
    && (l.finished ==> l.active.None? && TotalRest(l.chans) == 0)
  }

  function Open(l: Link, c: nat, n: nat): Link
    requires c < |l.chans|
  {
    l.(active := Some(c), chans := l.chans[c := l.chans[c].(chunk := n)])
  }

  function Put(l: Link, data: seq<byte>): Link
    requires l.active.Some? && l.active.value < |l.chans|
    requires Started(l.chans[l.active.value]) && |data| <= l.chans[l.active.value].chunk
  {
    var c := l.active.value;
    l.(chans := l.chans[c := Store(l.chans[c], data)])
  }

  function Step(l: Link, item: Item): (r: Link)
    requires LinkOk(l) && Accepts(l, item)
    ensures LinkOk(r)
  {
    match item
    case Header(c, n) =>
      TotalRestUpdate(l.chans, c, l.chans[c].(chunk := n));
      TotalRestBounds(l.chans);
      Reset(Open(l, c, n))
    case Byte(b) => Reset(Put(l, [b]))
  }

  ghost predicate AcceptsAll(l: Link, items: seq<Item>)
    requires LinkOk(l)
    decreases |items|
  {
    items == [] || (Accepts(l, items[0]) && AcceptsAll(Step(l, items[0]), items[1..]))
  }

  ghost function Fold(l: Link, items: seq<Item>): (r: Link)
    requires LinkOk(l) && AcceptsAll(l, items)
    ensures LinkOk(r)
    decreases |items|
  {
    if items == [] then l else Fold(Step(l, items[0]), items[1..])
  }

  lemma {:induction false} FoldConcat(l: Link, a: seq<Item>, b: seq<Item>)
    requires LinkOk(l)
    ensures AcceptsAll(l, a + b) <==> AcceptsAll(l, a) && AcceptsAll(Fold(l, a), b)
    ensures AcceptsAll(l, a + b) ==> Fold(l, a + b) == Fold(Fold(l, a), b)
    decreases |a|
  {
    if a == [] {
      assert a + b == b;
    } else {
      assert (a + b)[1..] == a[1..] + b;
      if Accepts(l, a[0]) {
        FoldConcat(Step(l, a[0]), a[1..], b);
      }
    }
  }

  /** The bytes of a stretch of the stream; a header counts as the byte 0, which never matters. */
  function Bytes(items: seq<Item>): seq<byte> {
    seq(|items|, i requires 0 <= i < |items| => if items[i].Byte? then items[i].b else 0)
  }

  function Wrap(data: seq<byte>): seq<Item> {
    seq(|data|, i requires 0 <= i < |data| => Byte(data[i]))
  }

  lemma ResetPut(l: Link, data: seq<byte>)
    requires LinkOk(l) && l.active.Some? && |data| <= l.chans[l.active.value].chunk
    ensures LinkOk(Reset(Put(l, data)))
    ensures |data| < l.chans[l.active.value].chunk ==> Reset(Put(l, data)) == Put(l, data)
  {
    var c := l.active.value;
    TotalRestUpdate(l.chans, c, Store(l.chans[c], data));
    TotalRestBounds(Put(l, data).chans);
    assert Put(l, data).chans[c].rest == l.chans[c].rest - |data|;
  }

  lemma PutPut(l: Link, a: seq<byte>, b: seq<byte>)
    requires LinkOk(l) && l.active.Some? && |a| + |b| <= l.chans[l.active.value].chunk
    ensures Put(Put(l, a), b) == Put(l, a + b)
    ensures Put(l, []) == l
  {
    var c := l.active.value;
    assert l.chans[c].stored + a + b == l.chans[c].stored + (a + b);
    assert l.chans[c].stored + [] == l.chans[c].stored;
    assert Put(Put(l, a), b).chans == Put(l, a + b).chans;
    assert Put(l, []).chans == l.chans;
  }

  lemma FirstByte(l: Link, items: seq<Item>)
    requires LinkOk(l) && l.active.Some? && AcceptsAll(l, items) && items != []
    ensures items[0].Byte?
    ensures var r := Reset(Put(l, [items[0].b]));
      LinkOk(r) && AcceptsAll(r, items[1..]) && Fold(r, items[1..]) == Fold(l, items)
    ensures var c := l.active.value;
      l.chans[c].chunk > 1 ==>
        var p := Put(l, [items[0].b]);
        p == Reset(p) && p.active == l.active && c < |p.chans| && p.chans[c].chunk == l.chans[c].chunk - 1
  {
    ResetPut(l, [items[0].b]);
  }

  lemma BytesFromFirst(items: seq<Item>, k: nat)
    requires 0 < k <= |items| && items[0].Byte?
    ensures Bytes(items[..k]) == [items[0].b] + Bytes(items[1..][..k - 1])
    ensures items[1..][k - 1..] == items[k..]
  {
  }

  /** The first byte of a stretch, and then the others. */
  lemma FirstOfMany(l: Link, items: seq<Item>, k: nat) returns (p: Link)
    requires LinkOk(l) && l.active.Some? && AcceptsAll(l, items)
    requires 1 < k <= |items| && k <= l.chans[l.active.value].chunk
    ensures LinkOk(p) && p.active == l.active && k - 1 <= p.chans[l.active.value].chunk
    ensures AcceptsAll(p, items[1..]) && Fold(p, items[1..]) == Fold(l, items)
    ensures Put(p, Bytes(items[1..][..k - 1])) == Put(l, Bytes(items[..k])) && items[1..][k - 1..] == items[k..]
  {
    FirstByte(l, items);
    BytesFromFirst(items, k);
    p := Put(l, [items[0].b]);
    PutPut(l, [items[0].b], Bytes(items[1..][..k - 1]));
  }

  /** Storing up to a chunk at once is the same as storing it byte by byte. */
  lemma {:induction false} BulkIsStepwise(l: Link, items: seq<Item>, k: nat)
    requires LinkOk(l) && l.active.Some? && AcceptsAll(l, items)
    requires k <= |items| && k <= l.chans[l.active.value].chunk
    ensures var r := Reset(Put(l, Bytes(items[..k])));
      && LinkOk(r)
      && AcceptsAll(r, items[k..])
      && Fold(r, items[k..]) == Fold(l, items)
    decreases k
  {
    if k == 0 {
      ResetPut(l, []);
      PutPut(l, [], []);
      assert items[0..] == items && Bytes(items[..0]) == [];
    } else if k == 1 {
      FirstByte(l, items);
      assert Bytes(items[..1]) == [items[0].b];
    } else {
      var p := FirstOfMany(l, items, k);
      hide *;
      BulkIsStepwise(p, items[1..], k - 1);
    }
  }

  /** Inside a chunk every stretch of data up to the end of the chunk is accepted. */
  lemma {:induction false} DataIsAccepted(l: Link, data: seq<byte>)
    requires LinkOk(l) && !l.finished && l.active.Some?
    requires 0 < |data| <= l.chans[l.active.value].chunk
    ensures AcceptsAll(l, Wrap(data)) && Fold(l, Wrap(data)) == Reset(Put(l, data))
    decreases |data|
  {
    var items := Wrap(data);
    assert items[0] == Byte(data[0]) && items[1..] == Wrap(data[1..]);
    ResetPut(l, [data[0]]);
    if |data| > 1 {
      DataIsAccepted(Put(l, [data[0]]), data[1..]);
    }
    BulkIsStepwise(l, items, |data|);
    assert Bytes(items[..|data|]) == data && items[|data|..] == [];
  }
}
