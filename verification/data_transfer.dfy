/** A whole transfer: the sender of lib/rts2/connection.cpp with its `DataWrite` counters
(include/data.h), the bytes in flight, and the receiving connection.

A run is any interleaving of announcing a chunk on some channel, writing a part of the announced
chunk to the socket, and receiving some of what is in flight. */
module DataTransfer {
  import opened Options
  import opened DataChannels
  import opened DataConnection

  function Sum(sizes: seq<int>): int {
    if sizes == [] then 0 else sizes[0] + Sum(sizes[1..])
  }

  lemma {:induction false} SumUpdate(sizes: seq<int>, c: nat, v: int)
    requires c < |sizes|
    ensures Sum(sizes[c := v]) == Sum(sizes) - sizes[c] + v
  {
    if c == 0 {
      assert sizes[0 := v][1..] == sizes[1..];
    } else {
      assert sizes[c := v][1..] == sizes[1..][c - 1 := v];
      SumUpdate(sizes[1..], c - 1, v);
    }
  }

  lemma {:induction false} SumPrefix(sizes: seq<int>, k: nat)
    requires k < |sizes|
    ensures Sum(sizes[..k + 1]) == Sum(sizes[..k]) + sizes[k]
  {
    if k == 0 {
      assert sizes[..1][1..] == [];
    } else {
      assert sizes[..k + 1][1..] == sizes[1..][..k] && sizes[..k][1..] == sizes[1..][..k - 1];
      SumPrefix(sizes[1..], k - 1);
    }
  }

  lemma {:induction false} SumIsZero(sizes: seq<int>)
    requires forall c | 0 <= c < |sizes| :: sizes[c] >= 0
    ensures Sum(sizes) >= 0
    ensures Sum(sizes) == 0 <==> forall c | 0 <= c < |sizes| :: sizes[c] == 0
  {
    if sizes != [] {
      SumIsZero(sizes[1..]);
      assert forall c | 0 < c < |sizes| :: sizes[c] == sizes[1..][c - 1];
    }
  }

  /** Counts down what has to be written on every channel. */
  class DataWrite {
    const sizes: array<int>

    constructor (chansizes: seq<int>)
      ensures fresh(sizes) && sizes[..] == chansizes
    {
      sizes := new int[|chansizes|];
      new;
      for i := 0 to |chansizes|
        invariant sizes[..i] == chansizes[..i]
      {
        sizes[i] := chansizes[i];
      }
    }

    method DataWritten(chan: nat, size: int)
      requires chan < sizes.Length
      modifies sizes
      ensures sizes[..] == old(sizes[..])[chan := old(sizes[chan]) - size]
    {
      sizes[chan] := sizes[chan] - size;
    }

    method GetDataSize() returns (total: int)
      ensures total == Sum(sizes[..])
    {
      total := 0;
      for i := 0 to sizes.Length
        invariant total == Sum(sizes[..i])
      {
        SumPrefix(sizes[..], i);
        assert sizes[..][..i + 1] == sizes[..i + 1] && sizes[..][..i] == sizes[..i];
        total := total + sizes[i];
      }
      assert sizes[..sizes.Length] == sizes[..];
    }
  }

  /** `unsent` holds the bytes of every channel that no chunk has been announced for, `current` the
      open chunk and what is not written of it, `counters` is the `DataWrite`. */
  datatype Sender = Sender(unsent: seq<seq<byte>>, current: Option<(nat, seq<byte>)>, counters: seq<int>)

  datatype System = System(sender: Sender, wire: seq<Item>, link: Link)

  datatype Action = Announce(c: nat, n: nat) | Write(k: nat) | Deliver(k: nat)

  function Initial(payload: seq<seq<byte>>): System {
    var sizes := seq(|payload|, c requires 0 <= c < |payload| => |payload[c]|);
    var readers := seq(|payload|, c requires 0 <= c < |payload| => Reader(|payload[c]|, [], |payload[c]|, -1));
    System(Sender(payload, None, sizes), [], Link(readers, None, false))
  }

  /** A chunk is announced while the transfer is registered, that is while its counters are not used
      up; a read returns what is in flight, and inside a chunk no more than the chunk wants. */
  predicate Enabled(s: System, a: Action) {
    match a
    case Announce(c, n) =>
      s.sender.current.None? && c < |s.sender.unsent| && n <= |s.sender.unsent[c]| && Sum(s.sender.counters) > 0
    case Write(k) =>
      && s.sender.current.Some? && 0 < k <= |s.sender.current.value.1|
      && s.sender.current.value.0 < |s.sender.counters|
    case Deliver(k) =>
      && 0 < k <= |s.wire|
      && (s.link.active.Some? ==>
            s.link.active.value < |s.link.chans| && k <= s.link.chans[s.link.active.value].chunk)
  }

  function Rest(c: nat, data: seq<byte>): Option<(nat, seq<byte>)> {
    if data == [] then None else Some((c, data))
  }

  /** What the sender still has for a channel. */
  function Pending(s: Sender, c: nat): seq<byte>
    requires c < |s.unsent|
  {
    (if s.current.Some? && s.current.value.0 == c then s.current.value.1 else []) + s.unsent[c]
  }

  /** The bytes of channel `c` in flight; `active` is the channel whose chunk the stream is in. */
  function InFlight(active: Option<nat>, wire: seq<Item>, c: nat): seq<byte>
    decreases |wire|
  {
    if wire == [] then []
    else match wire[0]
         case Header(d, _) => InFlight(Some(d), wire[1..], c)
         case Byte(b) => (if active == Some(c) then [b] else []) + InFlight(active, wire[1..], c)
  }

  /** The state agrees with the receiver that would have consumed everything in flight. */
  ghost predicate Inv(s: System, payload: seq<seq<byte>>) {
    && LinkOk(s.link) && AcceptsAll(s.link, s.wire)
    && var v := Fold(s.link, s.wire);
       && |v.chans| == |s.sender.unsent| == |s.sender.counters| == |payload|
       && (forall c | 0 <= c < |payload| ::
             && v.chans[c].size == |payload[c]|
             && v.chans[c].stored + Pending(s.sender, c) == payload[c]
             && s.sender.counters[c] == |Pending(s.sender, c)|)
       && match s.sender.current
          case None => v.active.None?
          case Some((c, data)) =>
            data != [] && c < |payload| && v.active == Some(c) && v.chans[c].chunk == |data| && !v.finished
  }

  ghost function Apply(s: System, a: Action): System
    requires Enabled(s, a)
    requires a.Deliver? ==> LinkOk(s.link) && AcceptsAll(s.link, s.wire[..a.k])
  {
    match a
    case Announce(c, n) =>
      var u := s.sender.unsent[c];
      s.(wire := s.wire + [Header(c, n)],
         sender := s.sender.(current := Rest(c, u[..n]), unsent := s.sender.unsent[c := u[n..]]))
    case Write(k) =>
      var (c, data) := s.sender.current.value;
      s.(wire := s.wire + Wrap(data[..k]),
         sender := s.sender.(current := Rest(c, data[k..]), counters := s.sender.counters[c := s.sender.counters[c] - k]))
    case Deliver(k) => s.(wire := s.wire[k..], link := Fold(s.link, s.wire[..k]))
  }

  /** The receiver lacks exactly what the sender still has to write. */
  lemma {:induction false} CountersMatch(chans: seq<Reader>, counters: seq<int>)
    requires |chans| == |counters|
    requires forall c | 0 <= c < |chans| :: chans[c].rest == counters[c]
    ensures TotalRest(chans) == Sum(counters)
  {
    if chans != [] {
      CountersMatch(chans[1..], counters[1..]);
    }
  }

  lemma AnnounceFolds(s: System, c: nat, n: nat, payload: seq<seq<byte>>)
    requires Inv(s, payload) && Enabled(s, Announce(c, n))
    ensures var v, wire := Fold(s.link, s.wire), s.wire + [Header(c, n)];
      && AcceptsAll(s.link, wire) && c < |v.chans| && !v.finished && n <= v.chans[c].rest
      && var l := Fold(s.link, wire);
         && l.chans == Open(v, c, n).chans && !l.finished
         && l.active == if n == 0 then None else Some(c)
  {
    var v := Fold(s.link, s.wire);
    CountersMatch(v.chans, s.sender.counters);
    FoldConcat(s.link, s.wire, [Header(c, n)]);
    assert Accepts(v, Header(c, n));
    TotalRestUpdate(v.chans, c, v.chans[c].(chunk := n));
    assert Fold(v, [Header(c, n)]) == Step(v, Header(c, n));
  }

  lemma AnnounceStep(s: System, a: Action, payload: seq<seq<byte>>)
    requires Inv(s, payload) && a.Announce? && Enabled(s, a)
    ensures Inv(Apply(s, a), payload)
  {
    var Announce(c, n) := a;
    AnnounceFolds(s, c, n, payload);
    var s', u := Apply(s, a), s.sender.unsent[c];
    assert u == u[..n] + u[n..];
    hide Sum, TotalRest, Fold, AcceptsAll;
    forall d | 0 <= d < |payload| ensures Pending(s'.sender, d) == Pending(s.sender, d) {
    }
  }

  lemma WriteFolds(s: System, k: nat, payload: seq<seq<byte>>)
    requires Inv(s, payload) && Enabled(s, Write(k))
    ensures var data, v, wire := s.sender.current.value.1, Fold(s.link, s.wire), Apply(s, Write(k)).wire;
      AcceptsAll(s.link, wire) && Fold(s.link, wire) == Reset(Put(v, data[..k]))
  {
    var data := s.sender.current.value.1;
    FoldConcat(s.link, s.wire, Wrap(data[..k]));
    DataIsAccepted(Fold(s.link, s.wire), data[..k]);
  }

  lemma WriteMoves(s: System, k: nat, payload: seq<seq<byte>>, d: nat)
    requires Inv(s, payload) && Enabled(s, Write(k)) && d < |payload|
    ensures var w, s' := Put(Fold(s.link, s.wire), s.sender.current.value.1[..k]), Apply(s, Write(k)).sender;
      && w.chans[d].stored + Pending(s', d) == payload[d]
      && w.chans[d].size == |payload[d]|
      && s'.counters[d] == |Pending(s', d)|
  {
    var (c, data) := s.sender.current.value;
    var v := Fold(s.link, s.wire);
    assert data == data[..k] + data[k..];
    if d == c {
      assert (v.chans[c].stored + data[..k]) + (data[k..] + s.sender.unsent[c])
          == v.chans[c].stored + ((data[..k] + data[k..]) + s.sender.unsent[c]);
    }
  }

  lemma WriteStep(s: System, a: Action, payload: seq<seq<byte>>)
    requires Inv(s, payload) && a.Write? && Enabled(s, a)
    ensures Inv(Apply(s, a), payload)
  {
    WriteFolds(s, a.k, payload);
    ResetPut(Fold(s.link, s.wire), s.sender.current.value.1[..a.k]);
    forall d | 0 <= d < |payload| {
      WriteMoves(s, a.k, payload, d);
    }
  }

  lemma DeliverStep(s: System, a: Action, payload: seq<seq<byte>>)
    requires Inv(s, payload) && a.Deliver? && Enabled(s, a)
    ensures AcceptsAll(s.link, s.wire[..a.k]) && Inv(Apply(s, a), payload)
  {
    assert s.wire[..a.k] + s.wire[a.k..] == s.wire;
    FoldConcat(s.link, s.wire[..a.k], s.wire[a.k..]);
  }

  /* ---- Runs ---- */

  ghost predicate IsRun(s: System, run: seq<Action>, payload: seq<seq<byte>>)
    requires Inv(s, payload)
    decreases |run|
  {
    run == [] || (Enabled(s, run[0]) && IsRun(Next(s, run[0], payload), run[1..], payload))
  }

  ghost function Next(s: System, a: Action, payload: seq<seq<byte>>): (r: System)
    requires Inv(s, payload) && Enabled(s, a)
    ensures Inv(r, payload)
  {
    match a
    case Announce(_, _) => AnnounceStep(s, a, payload); Apply(s, a)
    case Write(_) => WriteStep(s, a, payload); Apply(s, a)
    case Deliver(_) => DeliverStep(s, a, payload); Apply(s, a)
  }

  ghost function After(s: System, run: seq<Action>, payload: seq<seq<byte>>): (r: System)
    requires Inv(s, payload) && IsRun(s, run, payload)
    ensures Inv(r, payload)
    decreases |run|
  {
    if run == [] then s else After(Next(s, run[0], payload), run[1..], payload)
  }

  /** `e` is what some run from the beginning leads to. */
  ghost predicate Reached(payload: seq<seq<byte>>, run: seq<Action>, e: System) {
    assert Inv(Initial(payload), payload);
    IsRun(Initial(payload), run, payload) && e == After(Initial(payload), run, payload)
  }

  lemma StepStores(l: Link, item: Item, c: nat)
    requires LinkOk(l) && Accepts(l, item) && c < |l.chans|
    ensures var r := Step(l, item);
      && |r.chans| == |l.chans|
      && r.chans[c].size == l.chans[c].size
      && r.chans[c].stored == l.chans[c].stored + (if item.Byte? && l.active == Some(c) then [item.b] else [])
      && (item.Header? ==> r.active.Some? ==> r.active == Some(item.chan))
      && (item.Byte? ==> r.active.Some? ==> r.active == l.active)
  {
  }

  /** The channel that the stream is in behind an item, and what the item brings to channel `c`. */
  function Into(active: Option<nat>, item: Item): Option<nat> {
    if item.Header? then Some(item.chan) else active
  }

  function Brought(active: Option<nat>, item: Item, c: nat): seq<byte> {
    if item.Byte? && active == Some(c) then [item.b] else []
  }

  lemma InFlightOn(active: Option<nat>, wire: seq<Item>, c: nat)
    requires wire != []
    ensures InFlight(active, wire, c) == Brought(active, wire[0], c) + InFlight(Into(active, wire[0]), wire[1..], c)
  {
  }

  lemma StepBrings(l: Link, active: Option<nat>, item: Item, c: nat)
    requires LinkOk(l) && Accepts(l, item) && c < |l.chans| && (l.active.Some? ==> active == l.active)
    ensures var r := Step(l, item);
      && |r.chans| == |l.chans| && r.chans[c].size == l.chans[c].size
      && r.chans[c].stored == l.chans[c].stored + Brought(active, item, c)
      && (r.active.Some? ==> Into(active, item) == r.active)
  {
    StepStores(l, item, c);
  }

  /** Reading on only appends the bytes in flight, each to its own channel. */
  lemma {:induction false} FoldStores(l: Link, active: Option<nat>, wire: seq<Item>, c: nat)
    requires LinkOk(l) && AcceptsAll(l, wire) && c < |l.chans|
    requires l.active.Some? ==> active == l.active
    ensures var v := Fold(l, wire);
      && |v.chans| == |l.chans| && v.chans[c].size == l.chans[c].size
      && v.chans[c].stored == l.chans[c].stored + InFlight(active, wire, c)
    decreases |wire|
  {
    hide Step, Accepts, LinkOk, Into, Brought, InFlight;
    if wire == [] {
      NothingInFlight(active, c);
    } else {
      StepBrings(l, active, wire[0], c);
      InFlightOn(active, wire, c);
      FoldStores(Step(l, wire[0]), Into(active, wire[0]), wire[1..], c);
    }
  }

  lemma NothingInFlight(active: Option<nat>, c: nat)
    ensures InFlight(active, [], c) == []
  {
  }

  lemma {:induction false} FoldKeepsChannels(l: Link, wire: seq<Item>)
    requires LinkOk(l) && AcceptsAll(l, wire)
    ensures |Fold(l, wire).chans| == |l.chans|
    decreases |wire|
  {
    if wire != [] {
      FoldKeepsChannels(Step(l, wire[0]), wire[1..]);
    }
  }

  /** Conservation, channel by channel and byte by byte, in every reachable state: what is stored, what
      is in flight and what the sender still has are together the payload of the channel. */
  lemma Conservation(payload: seq<seq<byte>>, run: seq<Action>, e: System)
    requires Reached(payload, run, e)
    ensures |e.link.chans| == |e.sender.unsent| == |e.sender.counters| == |payload|
    ensures forall c | 0 <= c < |payload| ::
      && e.link.chans[c].stored + InFlight(e.link.active, e.wire, c) + Pending(e.sender, c) == payload[c]
      && e.link.chans[c].rest == |InFlight(e.link.active, e.wire, c)| + e.sender.counters[c]
      && e.link.chans[c].size == |payload[c]|
  {
    FoldKeepsChannels(e.link, e.wire);
    forall c | 0 <= c < |payload| {
      FoldStores(e.link, e.link.active, e.wire, c);
    }
  }

  /** The device client is told that the frame is there only when every channel is complete and
      correct. */
  lemma FinishedMeansComplete(payload: seq<seq<byte>>, run: seq<Action>, e: System)
    requires Reached(payload, run, e) && e.link.finished
    ensures |e.link.chans| == |payload|
    ensures forall c | 0 <= c < |payload| :: e.link.chans[c].stored == payload[c]
  {
    Conservation(payload, run, e);
    TotalRestBounds(e.link.chans);
  }

  ghost predicate Told(l: Link) {
    TotalRest(l.chans) == 0 ==> l.finished
  }

  lemma {:induction false} FoldTells(l: Link, wire: seq<Item>)
    requires LinkOk(l) && AcceptsAll(l, wire) && Told(l)
    ensures Told(Fold(l, wire))
    decreases |wire|
  {
    if wire != [] {
      FoldTells(Step(l, wire[0]), wire[1..]);
    }
  }

  lemma {:induction false} AfterTells(s: System, run: seq<Action>, payload: seq<seq<byte>>)
    requires Inv(s, payload) && IsRun(s, run, payload) && Told(s.link)
    ensures Told(After(s, run, payload).link)
    decreases |run|
  {
    if run != [] {
      var n := Next(s, run[0], payload);
      if run[0].Deliver? {
        DeliverStep(s, run[0], payload);
        FoldTells(s.link, s.wire[..run[0].k]);
      }
      AfterTells(n, run[1..], payload);
    }
  }

  /** A frame with at least one byte gets through: as long as the client has not been told, one of
      the three actions is possible. */
  lemma NeverStuck(payload: seq<seq<byte>>, run: seq<Action>, e: System) returns (a: Action)
    requires Reached(payload, run, e)
    requires exists c :: 0 <= c < |payload| && payload[c] != []
    requires !e.link.finished
    ensures Enabled(e, a)
    ensures a.Announce? ==> a.n > 0
  {
    if e.wire != [] {
      return Deliver(1);
    }
    if e.sender.current.Some? {
      return Write(1);
    }
    Conservation(payload, run, e);
    var start := Initial(payload);
    TotalRestBounds(start.link.chans);
    AfterTells(start, run, payload);
    TotalRestBounds(e.link.chans);
    var c :| 0 <= c < |payload| && e.link.chans[c].rest != 0;
    SumIsZero(e.sender.counters);
    assert e.sender.counters[c] > 0;
    a := Announce(c, 1);
  }

  /* ---- Every transfer ends ---- */

  function Length(unsent: seq<seq<byte>>): nat {
    if unsent == [] then 0 else |unsent[0]| + Length(unsent[1..])
  }

  lemma {:induction false} LengthUpdate(unsent: seq<seq<byte>>, c: nat, u: seq<byte>)
    requires c < |unsent|
    ensures Length(unsent[c := u]) == Length(unsent) - |unsent[c]| + |u|
  {
    if c == 0 {
      assert unsent[0 := u][1..] == unsent[1..];
    } else {
      assert unsent[c := u][1..] == unsent[1..][c - 1 := u];
      LengthUpdate(unsent[1..], c - 1, u);
    }
  }

  /** Every byte has three moves before it, and every chunk a header of one item. */
  function ToDo(s: System): nat {
    4 * Length(s.sender.unsent) + 2 * (if s.sender.current.Some? then |s.sender.current.value.1| else 0) + |s.wire|
  }

  /** Chunks that are announced are not empty. */
  predicate Moves(a: Action) {
    a.Announce? ==> a.n > 0
  }

  lemma EveryActionMoves(s: System, a: Action, payload: seq<seq<byte>>)
    requires Inv(s, payload) && Enabled(s, a) && Moves(a)
    ensures ToDo(Next(s, a, payload)) < ToDo(s)
  {
    match a
    case Announce(c, n) =>
      var u := s.sender.unsent[c];
      LengthUpdate(s.sender.unsent, c, u[n..]);
    case Write(_) =>
    case Deliver(_) =>
      DeliverStep(s, a, payload);
  }

  ghost predicate AllMove(run: seq<Action>) {
    forall i :: 0 <= i < |run| ==> Moves(run[i])
  }

  lemma {:induction false} RunsEnd(s: System, run: seq<Action>, payload: seq<seq<byte>>)
    requires Inv(s, payload) && IsRun(s, run, payload) && AllMove(run)
    ensures |run| + ToDo(After(s, run, payload)) <= ToDo(s)
    decreases |run|
  {
    if run != [] {
      EveryActionMoves(s, run[0], payload);
      RunsEnd(Next(s, run[0], payload), run[1..], payload);
    }
  }

  lemma TransferIsBounded(payload: seq<seq<byte>>, run: seq<Action>, e: System)
    requires Reached(payload, run, e) && AllMove(run)
    ensures |run| + ToDo(e) <= 4 * Length(payload)
  {
    RunsEnd(Initial(payload), run, payload);
  }

  /** No transfer goes on for ever, however sender, network and receiver take turns: with chunks that are
      not empty it has at most four actions for a byte, and where it cannot go on the client was told. */
  lemma EveryTransferEnds(payload: seq<seq<byte>>, run: seq<Action>, e: System)
    requires Reached(payload, run, e) && AllMove(run)
    requires exists c :: 0 <= c < |payload| && payload[c] != []
    ensures |run| + ToDo(e) <= 4 * Length(payload)
    ensures e.link.finished || exists a :: Enabled(e, a) && Moves(a)
  {
    hide Reached, Enabled, AllMove, ToDo, Length;
    TransferIsBounded(payload, run, e);
    if !e.link.finished {
      var a := NeverStuck(payload, run, e);
      assert Enabled(e, a) && Moves(a);
    }
  }
}
