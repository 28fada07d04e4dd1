/** Writers and readers of the shared segments: `DataAbstractShared`, `DataSharedWrite` and
`DataSharedRead` of include/data.h and lib/rts2/data.cpp, and the allocation for one image in
lib/rts2/camd.cpp. A pointer into the shared memory is a reference to a segment object. */
module SharedData {
  import opened ChannelSums
  import opened SharedSegments

  class SharedDataSegment {
    var clientIds: seq<int>
    var size: nat
    var bytesSoFar: nat
    var offset: nat

    constructor (size: nat, offset: nat)
      ensures View() == Seg(seq(MAX_SHARED_CLIENTS, _ => 0), size, 0, offset)
    {
      clientIds := seq(MAX_SHARED_CLIENTS, _ => 0);
      this.size, bytesSoFar, this.offset := size, 0, offset;
    }

    ghost function View(): Seg
      reads this
    {
      Seg(clientIds, size, bytesSoFar, offset)
    }

    /** The place of the first positive client number, or the number of places. */
    method FirstClient() returns (s: nat)
      requires |clientIds| == MAX_SHARED_CLIENTS
      ensures s <= MAX_SHARED_CLIENTS && (s == MAX_SHARED_CLIENTS <==> !View().Held())
    {
      s := 0;
      while s < MAX_SHARED_CLIENTS && clientIds[s] <= 0
        invariant s <= MAX_SHARED_CLIENTS
        invariant forall p :: 0 <= p < s ==> clientIds[p] <= 0
      {
        s := s + 1;
      }
    }
  }

  /** The mapped memory: its segment headers. */
  class SharedMemory {
    const segments: seq<SharedDataSegment>

    ghost predicate Valid()
      reads segments
    {
      && (forall i, j :: 0 <= i < j < |segments| ==> segments[i] != segments[j])
      && (forall i :: 0 <= i < |segments| ==> |segments[i].clientIds| == MAX_SHARED_CLIENTS)
    }

    ghost function View(): (v: Table)
      requires Valid()
      reads segments
      ensures |v| == |segments| && forall i :: 0 <= i < |v| ==> v[i] == segments[i].View()
    {
      Views(segments)
    }

    constructor (segments: seq<SharedDataSegment>)
      ensures this.segments == segments
    {
      this.segments := segments;
    }

    method RemoveClient(segnum: nat, clientId: int) returns (ret: int)
      requires Valid() && segnum < |segments|
      modifies segments[segnum]
      ensures Valid() && View() == Removed(old(View()), segnum, clientId)
      ensures ret == if clientId in old(segments[segnum].clientIds) then 0 else -1
      ensures ret == 0 ==>
                exists p :: 0 <= p < MAX_SHARED_CLIENTS
                            && old(segments[segnum].clientIds)[p] == clientId
                            && (forall q :: 0 <= q < p ==> old(segments[segnum].clientIds)[q] != clientId)
                            && segments[segnum].clientIds == old(segments[segnum].clientIds)[p := 0]
      ensures ret != 0 ==> segments[segnum].clientIds == old(segments[segnum].clientIds)
      ensures segments[segnum].size == old(segments[segnum].size)
      ensures segments[segnum].bytesSoFar == old(segments[segnum].bytesSoFar)
      ensures segments[segnum].offset == old(segments[segnum].offset)
    {
      var sseg := segments[segnum];
      for s := 0 to MAX_SHARED_CLIENTS
        invariant Valid() && View() == old(View())
        invariant clientId !in sseg.clientIds[..s]
      {
        if sseg.clientIds[s] == clientId {
          PlaceAt(sseg.clientIds, clientId, s);
          assert forall q :: 0 <= q < s ==> sseg.clientIds[q] in sseg.clientIds[..s];
          sseg.clientIds := sseg.clientIds[s := 0];
          assert View()[segnum] == sseg.View();
          return 0;
        }
      }
      PlaceAt(sseg.clientIds, clientId, MAX_SHARED_CLIENTS);
      return -1;
    }

    /** The loop of `addClient` that looks for a segment. */
    method FindFree() returns (i: nat)
      requires Valid()
      ensures i == FirstFree(View())
    {
      i := 0;
      while i < |segments|
        invariant i <= |segments|
        invariant forall j :: 0 <= j < i ==> View()[j].Held()
      {
        var s := segments[i].FirstClient();
        if s == MAX_SHARED_CLIENTS {
          break;
        }
        i := i + 1;
      }
      FirstFreeAt(View(), i);
    }

    /** The part of `addClient` that fills the header of the segment it found. */
    method Take(segnum: nat, segsize: nat, client: int)
      requires Valid() && segnum < |segments|
      modifies segments[segnum]
      ensures Valid() && View() == old(View())[segnum := Taken(old(View())[segnum], segsize, client)]
      ensures segments[segnum].clientIds == old(segments[segnum].clientIds)[0 := client]
      ensures segments[segnum].size == segsize && segments[segnum].bytesSoFar == 0
      ensures segments[segnum].offset == old(segments[segnum].offset)
    {
      var sseg := segments[segnum];
      sseg.bytesSoFar := 0;
      sseg.size := segsize;
      sseg.clientIds := sseg.clientIds[0 := client];
      assert View()[segnum] == sseg.View();
    }

    method ConfirmClient(segnum: nat, clientId: int) returns (ret: int)
      requires Valid() && segnum < |segments|
      ensures ret == if clientId in View()[segnum].clients then 0 else -1
    {
      var sseg := segments[segnum];
      for s := 0 to MAX_SHARED_CLIENTS
        invariant clientId !in sseg.clientIds[..s]
      {
        if sseg.clientIds[s] == clientId {
          return 0;
        }
      }
      return -1;
    }
  }

  lemma FirstFreeAt(v: seq<Seg>, i: nat)
    requires i <= |v| && (forall j :: 0 <= j < i ==> v[j].Held()) && (i < |v| ==> !v[i].Held())
    ensures FirstFree(v) == i
  {
  }

  lemma PlaceAt(clients: seq<int>, client: int, s: nat)
    requires s <= |clients| && client !in clients[..s] && (s < |clients| ==> clients[s] == client)
    ensures Place(clients, client) == s
  {
    assert forall p :: 0 <= p < s ==> clients[p] in clients[..s];
  }

  ghost function Views(segments: seq<SharedDataSegment>): (v: seq<Seg>)
    reads segments
    ensures |v| == |segments| && forall i :: 0 <= i < |v| ==> v[i] == segments[i].View()
  {
    if segments == [] then [] else [segments[0].View()] + Views(segments[1..])
  }

  /** What `create` makes of fresh memory; `base` is where the headers end. */
  method Create(numseg: nat, segsize: nat, base: nat) returns (memory: SharedMemory)
    ensures fresh(memory) && memory.Valid() && |memory.segments| == numseg && fresh(memory.segments)
    ensures forall i :: 0 <= i < numseg ==>
              !memory.View()[i].Held() && memory.View()[i].size == segsize && memory.View()[i].written == 0
    ensures Placed(memory.View(), base, segsize) && Apart(memory.View(), base, segsize)
  {
    var segments: seq<SharedDataSegment> := [];
    for i := 0 to numseg
      invariant |segments| == i && fresh(segments)
      invariant forall j, k :: 0 <= j < k < i ==> segments[j] != segments[k]
      invariant forall j :: 0 <= j < i ==>
                  segments[j].View() == Seg(seq(MAX_SHARED_CLIENTS, _ => 0), segsize, 0, Start(base, segsize, j))
    {
      var segment := new SharedDataSegment(segsize, Start(base, segsize, i));
      segments := segments + [segment];
    }
    memory := new SharedMemory(segments);
    forall i | 0 <= i < numseg
      ensures Start(base, segsize, i) + segsize <= Start(base, segsize, i + 1)
    {
      StartGrows(base, segsize, i, i);
    }
  }

  class DataSharedRead {
    const data: SharedMemory
    const segment: nat
    const activeSegment: SharedDataSegment

    constructor (data: SharedMemory, segment: nat)
      requires segment < |data.segments|
      ensures this.data == data && this.segment == segment && activeSegment == data.segments[segment]
    {
      this.data, this.segment, activeSegment := data, segment, data.segments[segment];
    }

    function GetRestSize(): (rest: nat)
      reads activeSegment
      ensures rest == activeSegment.View().Rest()
    {
      (activeSegment.size - activeSegment.bytesSoFar) % SIZE_T
    }

    function GetDataTop(): (top: nat)
      reads activeSegment
      ensures top == activeSegment.View().Top()
    {
      activeSegment.offset + activeSegment.bytesSoFar
    }
  }

  class DataSharedWrite {
    const data: SharedMemory
    var chan2seg: map<int, SharedDataSegment>

    ghost predicate Valid()
      reads this, data.segments
    {
      data.Valid() && forall c :: c in chan2seg ==> chan2seg[c] in data.segments
    }

    constructor (data: SharedMemory)
      ensures this.data == data && chan2seg == map[]
    {
      this.data, chan2seg := data, map[];
    }

    /** The map is copied, the segments are shared. */
    constructor Copy(d: DataSharedWrite)
      ensures data == d.data && chan2seg == d.chan2seg
    {
      data, chan2seg := d.data, d.chan2seg;
    }

    function GetChannelSize(chan: int): (rest: nat)
      requires chan in chan2seg
      reads this, chan2seg[chan]
      ensures rest == chan2seg[chan].View().Rest()
    {
      (chan2seg[chan].size - chan2seg[chan].bytesSoFar) % SIZE_T
    }

    method DataWritten(chan: int, size: nat)
      requires chan in chan2seg
      modifies chan2seg[chan]
      ensures chan2seg[chan].View() == old(chan2seg[chan].View()).(written := old(chan2seg[chan].bytesSoFar) + size)
    {
      chan2seg[chan].bytesSoFar := chan2seg[chan].bytesSoFar + size;
    }

    method AddClient(segsize: nat, chan: int, client: int) returns (segnum: int)
      requires Valid()
      modifies this, data.segments
      ensures Valid() && data.View() == Added(old(data.View()), segsize, client)
      ensures var i := FirstFree(old(data.View()));
              if i < |data.segments|
              then
                && segnum == i && chan2seg == old(chan2seg)[chan := data.segments[i]]
                && var sseg := data.segments[i];
                   && sseg.clientIds == old(sseg.clientIds)[0 := client] && sseg.offset == old(sseg.offset)
                   && sseg.size == segsize && sseg.bytesSoFar == 0
              else segnum == -1 && chan2seg == old(chan2seg)
      ensures forall s :: s in data.segments && (segnum < 0 || s != data.segments[segnum]) ==> s.View() == old(s.View())
    {
      var i := data.FindFree();
      if i == |data.segments| {
        return -1;
      }
      data.Take(i, segsize, client);
      chan2seg := chan2seg[chan := data.segments[i]];
      return i;
    }

    /** Marks everything as written. */
    method EndChannels()
      modifies chan2seg.Values
      ensures chan2seg == old(chan2seg)
      ensures forall c :: c in chan2seg ==>
                && chan2seg[c].View() == Ended(old(chan2seg[c].View())) && GetChannelSize(c) == 0
                && chan2seg[c].bytesSoFar == chan2seg[c].size == old(chan2seg[c].size)
    {
      var left := chan2seg.Keys;
      while left != {}
        invariant left <= chan2seg.Keys && chan2seg == old(chan2seg)
        invariant forall c :: c in chan2seg ==>
                    || chan2seg[c].View() == Ended(old(chan2seg[c].View()))
                    || (c in left && chan2seg[c].View() == old(chan2seg[c].View()))
      {
        ghost var _ := Member(left);
        var chan :| chan in left;
        chan2seg[chan].bytesSoFar := chan2seg[chan].size;
        left := left - {chan};
      }
    }

    ghost function Rests(): (m: map<int, nat>)
      reads this, chan2seg.Values
    {
      map c | c in chan2seg :: chan2seg[c].View().Rest()
    }

    method GetDataSize() returns (size: nat)
      ensures size == SumOf(Rests()) && (chan2seg == map[] ==> size == 0)
    {
      var left := chan2seg.Keys;
      ghost var rests := Rests();
      ghost var open := rests;
      size := 0;
      while left != {}
        invariant open.Keys == left <= chan2seg.Keys
        invariant forall c :: c in left ==> open[c] == rests[c]
        invariant size + SumOf(open) == SumOf(rests)
      {
        var chan :| chan in left;
        SumWithout(open, chan);
        size := size + GetChannelSize(chan);
        left := left - {chan};
        open := open - {chan};
      }
    }
  }

  ghost function Ended(s: Seg): Seg {
    s.(written := s.size)
  }

  /* ---- Writing through any number of copies ---- */

  datatype Write = Write(writer: DataSharedWrite, chan: int, size: nat)

  /** How much of the writes lands in `segment`, whoever does them. */
  ghost function Landed(writes: seq<Write>, segment: SharedDataSegment): nat
    requires forall i :: 0 <= i < |writes| ==> writes[i].chan in writes[i].writer.chan2seg
    reads set i | 0 <= i < |writes| :: writes[i].writer
  {
    if writes == [] then 0
    else
      var last := writes[|writes| - 1];
      Landed(writes[..|writes| - 1], segment)
      + if last.writer.chan2seg[last.chan] == segment then last.size else 0
  }

  lemma RestShrinks(s: Seg, n: nat)
    requires s.written + n <= s.size < SIZE_T
    ensures s.(written := s.written + n).Rest() == s.Rest() - n == s.size - s.written - n
  {
  }

  ghost predicate Writable(writes: seq<Write>)
    reads set i | 0 <= i < |writes| :: writes[i].writer
  {
    forall i :: 0 <= i < |writes| ==> writes[i].chan in writes[i].writer.chan2seg
  }

  /** The writes one after the other, and what they do to a segment. */
  method WriteAll(writes: seq<Write>, ghost segment: SharedDataSegment)
    requires Writable(writes)
    modifies set i | 0 <= i < |writes| :: writes[i].writer.chan2seg[writes[i].chan]
    ensures Writable(writes) && Landed(writes, segment) == old(Landed(writes, segment))
    ensures segment.View() == old(segment.View()).(written := old(segment.bytesSoFar) + Landed(writes, segment))
  {
    ghost var was := segment.View();
    for i := 0 to |writes|
      invariant Writable(writes) && segment.View() == was.(written := was.written + Landed(writes[..i], segment))
      invariant forall k :: 0 <= k < |writes| ==> writes[k].writer.chan2seg == old(writes[k].writer.chan2seg)
    {
      assert writes[..i + 1][..i] == writes[..i];
      writes[i].writer.DataWritten(writes[i].chan, writes[i].size);
    }
    assert writes[..|writes|] == writes;
  }

  /** Whatever copies do the writing, both ends of a segment see it: what the writers have left is what
  the reader waits for, and the end of the data is where it was plus what was written. */
  method Perform(reader: DataSharedRead, writes: seq<Write>)
    requires Writable(writes)
    requires reader.activeSegment.bytesSoFar + Landed(writes, reader.activeSegment) <= reader.activeSegment.size < SIZE_T
    modifies set i | 0 <= i < |writes| :: writes[i].writer.chan2seg[writes[i].chan]
    ensures Writable(writes)
    ensures reader.GetRestSize() == old(reader.GetRestSize()) - Landed(writes, reader.activeSegment)
    ensures reader.GetDataTop() == old(reader.GetDataTop()) + Landed(writes, reader.activeSegment)
    ensures var s := reader.activeSegment;
            reader.GetDataTop() == s.offset + s.bytesSoFar && reader.GetRestSize() == s.size - s.bytesSoFar
    ensures forall i :: 0 <= i < |writes| && writes[i].writer.chan2seg[writes[i].chan] == reader.activeSegment ==>
                          writes[i].writer.GetChannelSize(writes[i].chan) == reader.GetRestSize()
  {
    ghost var was := reader.activeSegment.View();
    WriteAll(writes, reader.activeSegment);
    hide Landed, Writable;
    RestShrinks(was, Landed(writes, reader.activeSegment));
  }

  /* ---- All channels of one image ---- */

  ghost predicate AllHeldAsBefore(v: Table, u: Table) {
    |v| == |u| && forall i :: 0 <= i < |v| ==>
      u[i].offset == v[i].offset && (u[i].Held() <==> v[i].Held()) && (v[i].Held() ==> u[i] == v[i])
  }

  /** The segments given to the channels so far, and the table they were taken from. */
  ghost predicate Given(v: Table, u: Table, sizes: seq<nat>, segments: seq<nat>, client: int) {
    && |v| == |u| && |segments| <= |sizes|
    && (forall k :: 0 <= k < |segments| ==> segments[k] < |v|)
    && (forall k, l :: 0 <= k < l < |segments| ==> segments[k] != segments[l])
    && (forall k :: 0 <= k < |segments| ==>
          !v[segments[k]].Held() && u[segments[k]] == Taken(v[segments[k]], sizes[k], client))
    && (forall i :: 0 <= i < |v| && i !in segments ==> u[i] == v[i])
  }

  lemma TakenIsHeld(s: Seg, size: nat, client: int)
    requires s.clients != [] && client > 0
    ensures Taken(s, size, client).Held()
  {
    assert Taken(s, size, client).clients[0] > 0;
  }

  lemma GivenOneMore(v: Table, u: Table, sizes: seq<nat>, segments: seq<nat>, client: int, i: nat)
    requires Given(v, u, sizes, segments, client) && |segments| < |sizes| && client > 0
    requires i < |u| && !u[i].Held()
    ensures Given(v, u[i := Taken(u[i], sizes[|segments|], client)], sizes, segments + [i], client)
  {
    forall k | 0 <= k < |segments|
      ensures segments[k] != i
    {
      TakenIsHeld(v[segments[k]], sizes[k], client);
    }
    assert i !in segments;
    assert forall j :: j !in segments + [i] ==> j !in segments;
  }

  /** Taking a client out of the segment it was just put into leaves it free. */
  lemma LeftIsFree(s: Seg, size: nat, client: int)
    requires s.clients != [] && !s.Held()
    ensures !Left(Taken(s, size, client), client).Held()
    ensures Left(Taken(s, size, client), client).offset == s.offset
  {
    var t := Taken(s, size, client);
    assert t.clients[0] == client;
    assert forall p :: 0 < p < |t.clients| ==> t.clients[p] == s.clients[p];
    assert Place(t.clients, client) == 0;
  }

  /** The first `j` of the given segments have been taken back. */
  ghost predicate TakenBack(v: Table, u: Table, sizes: seq<nat>, segments: seq<nat>, client: int, j: nat) {
    && |v| == |u| && j <= |segments| <= |sizes|
    && (forall k :: 0 <= k < |segments| ==> segments[k] < |v| && !v[segments[k]].Held())
    && (forall k, l :: 0 <= k < l < |segments| ==> segments[k] != segments[l])
    && (forall k :: 0 <= k < j ==> !u[segments[k]].Held() && u[segments[k]].offset == v[segments[k]].offset)
    && (forall k :: j <= k < |segments| ==> u[segments[k]] == Taken(v[segments[k]], sizes[k], client))
    && (forall i :: 0 <= i < |v| && i !in segments ==> u[i] == v[i])
  }

  lemma TakeBackOneMore(v: Table, u: Table, sizes: seq<nat>, segments: seq<nat>, client: int, j: nat)
    requires TakenBack(v, u, sizes, segments, client, j) && j < |segments|
    ensures TakenBack(v, Removed(u, segments[j], client), sizes, segments, client, j + 1)
  {
    LeftIsFree(v[segments[j]], sizes[j], client);
  }

  lemma AllTakenBack(v: Table, u: Table, sizes: seq<nat>, segments: seq<nat>, client: int)
    requires TakenBack(v, u, sizes, segments, client, |segments|)
    ensures AllHeldAsBefore(v, u)
  {
    forall i | 0 <= i < |v|
      ensures u[i].offset == v[i].offset && (u[i].Held() <==> v[i].Held()) && (v[i].Held() ==> u[i] == v[i])
    {
      if i in segments {
        var k :| 0 <= k < |segments| && segments[k] == i;
      }
    }
  }

  lemma GivenIsNotTakenBack(v: Table, u: Table, sizes: seq<nat>, segments: seq<nat>, client: int)
    requires Given(v, u, sizes, segments, client)
    ensures TakenBack(v, u, sizes, segments, client, 0)
  {
  }

  method GiveBack(memory: SharedMemory, segments: seq<nat>, client: int, ghost v: Table, ghost sizes: seq<nat>)
    requires memory.Valid()
    requires if client > 0 then Given(v, memory.View(), sizes, segments, client) else segments == [] && memory.View() == v
    modifies memory.segments
    ensures memory.Valid() && AllHeldAsBefore(v, memory.View())
  {
    if client > 0 {
      GivenIsNotTakenBack(v, memory.View(), sizes, segments, client);
    }
    assert forall k :: 0 <= k < |segments| ==> segments[k] < |memory.segments|;
    hide TakenBack, Given, Removed;
    for j := 0 to |segments|
      invariant memory.Valid()
      invariant TakenBack(v, memory.View(), sizes, segments, client, j)
    {
      TakeBackOneMore(v, memory.View(), sizes, segments, client, j);
      var _ := memory.RemoveClient(segments[j], client);
    }
    AllTakenBack(v, memory.View(), sizes, segments, client);
  }

  /** Channel `c` goes to the segment whose number stands at `c`. */
  ghost function Channels(objects: seq<SharedDataSegment>, segments: seq<nat>): (m: map<int, SharedDataSegment>)
    requires forall k :: 0 <= k < |segments| ==> segments[k] < |objects|
    ensures forall c :: c in m <==> 0 <= c < |segments|
    ensures forall c :: 0 <= c < |segments| ==> m[c] == objects[segments[c]]
  {
    if segments == [] then map[]
    else
      var n := |segments| - 1;
      Channels(objects, segments[..n])[n := objects[segments[n]]]
  }

  /** What a client without a positive number gets: the first free segment stays free, so every channel
  gets that one, and it has the size of the last of them. */
  ghost predicate Overlaid(v: Table, u: Table, sizes: seq<nat>, segments: seq<nat>, client: int) {
    && (segments != [] ==> FirstFree(v) < |v|)
    && (forall k :: 0 <= k < |segments| ==> segments[k] == FirstFree(v))
    && 0 <= |segments| <= |sizes|
    && u == if segments == [] then v else v[FirstFree(v) := Taken(v[FirstFree(v)], sizes[|segments| - 1], client)]
  }

  ghost predicate Handed(v: Table, u: Table, sizes: seq<nat>, segments: seq<nat>, client: int) {
    if client > 0
    then Given(v, u, sizes, segments, client) && FreeCount(u) == FreeCount(v) - |segments|
    else Overlaid(v, u, sizes, segments, client)
  }

  /** Where the allocation stands: what was given, to which channels, and how much is left. */
  ghost predicate Progress(
      v: Table, u: Table, sizes: seq<nat>, segments: seq<nat>, client: int,
      objects: seq<SharedDataSegment>, chan2seg: map<int, SharedDataSegment>)
  {
    && |objects| == |v| && |segments| <= |sizes|
    && (forall k :: 0 <= k < |segments| ==> segments[k] < |objects|)
    && chan2seg == Channels(objects, segments)
    && Handed(v, u, sizes, segments, client)
  }

  lemma NoProgress(v: Table, sizes: seq<nat>, client: int, objects: seq<SharedDataSegment>)
    requires |objects| == |v|
    ensures Progress(v, v, sizes, [], client, objects, map[])
  {
  }

  lemma ChannelsOneMore(objects: seq<SharedDataSegment>, segments: seq<nat>, i: nat)
    requires i < |objects| && forall k :: 0 <= k < |segments| ==> segments[k] < |objects|
    ensures forall k :: 0 <= k < |segments + [i]| ==> (segments + [i])[k] < |objects|
    ensures Channels(objects, segments + [i]) == Channels(objects, segments)[|segments| := objects[i]]
  {
    assert (segments + [i])[..|segments|] == segments;
  }

  lemma StillFree(s: Seg, size: nat, client: int)
    requires s.clients != [] && !s.Held() && client <= 0
    ensures !Taken(s, size, client).Held()
  {
    assert forall p :: 0 < p < |s.clients| ==> Taken(s, size, client).clients[p] == s.clients[p];
  }

  lemma TakenAgain(s: Seg, size: nat, again: nat, client: int)
    requires s.clients != []
    ensures Taken(Taken(s, size, client), again, client) == Taken(s, again, client)
  {
    assert s.clients[0 := client][0 := client] == s.clients[0 := client];
  }

  lemma OverlaidOneMore(v: Table, u: Table, sizes: seq<nat>, segments: seq<nat>, client: int)
    requires Overlaid(v, u, sizes, segments, client) && client <= 0 && |segments| < |sizes|
    ensures FirstFree(u) == FirstFree(v) && |u| == |v|
    ensures FirstFree(v) < |v| ==>
              Overlaid(v, Added(u, sizes[|segments|], client), sizes, segments + [FirstFree(v)], client)
    ensures FirstFree(v) == |v| ==> segments == [] && FreeCount(v) == 0
  {
    var i, n := FirstFree(v), |segments|;
    NoneFreeIff(v);
    if i < |v| {
      if n > 0 {
        StillFree(v[i], sizes[n - 1], client);
        TakenAgain(v[i], sizes[n - 1], sizes[n], client);
      }
      FirstFreeAt(u, i);
      hide FirstFree, Taken, FreeCount;
      assert u[i := Taken(v[i], sizes[n], client)] == v[i := Taken(v[i], sizes[n], client)];
    }
  }

  /** For two channels and more the segments are different ones exactly when the client's number is
  positive. */
  lemma DistinctIff(
      v: Table, u: Table, sizes: seq<nat>, segments: seq<nat>, client: int,
      objects: seq<SharedDataSegment>, chan2seg: map<int, SharedDataSegment>)
    requires Progress(v, u, sizes, segments, client, objects, chan2seg) && |segments| >= 2
    ensures (forall k, l :: 0 <= k < l < |segments| ==> segments[k] != segments[l]) <==> client > 0
  {
    if client <= 0 {
      assert segments[0] == segments[1];
    }
  }

  lemma HandedOneMore(v: Table, u: Table, sizes: seq<nat>, segments: seq<nat>, client: int)
    requires Handed(v, u, sizes, segments, client) && |segments| < |sizes| && |u| == |v|
    ensures var i, n := FirstFree(u), |segments|;
            if i < |u|
            then Handed(v, Added(u, sizes[n], client), sizes, segments + [i], client)
            else FreeCount(v) == n && (client <= 0 ==> n == 0)
  {
    var i, n := FirstFree(u), |segments|;
    if client > 0 {
      AddTakesOne(u, sizes[n], client);
      if i < |u| {
        GivenOneMore(v, u, sizes, segments, client, i);
      }
    } else {
      OverlaidOneMore(v, u, sizes, segments, client);
    }
  }

  lemma OneMore(
      v: Table, u: Table, sizes: seq<nat>, segments: seq<nat>, client: int,
      objects: seq<SharedDataSegment>, chan2seg: map<int, SharedDataSegment>)
    requires Progress(v, u, sizes, segments, client, objects, chan2seg) && |segments| < |sizes| && |u| == |v|
    ensures var i, n := FirstFree(u), |segments|;
            if i < |u|
            then Progress(v, Added(u, sizes[n], client), sizes, segments + [i], client, objects, chan2seg[n := objects[i]])
            else FreeCount(v) == n && Added(u, sizes[n], client) == u && (client <= 0 ==> n == 0)
  {
    HandedOneMore(v, u, sizes, segments, client);
    hide Handed, FreeCount, Channels, Taken;
    if FirstFree(u) < |u| {
      ChannelsOneMore(objects, segments, FirstFree(u));
    }
  }

  method GiveOne(writer: DataSharedWrite, sizes: seq<nat>, segments: seq<nat>, client: int, ghost v: Table)
    returns (segment: int)
    requires writer.Valid() && |segments| < |sizes|
    requires Progress(v, writer.data.View(), sizes, segments, client, writer.data.segments, writer.chan2seg)
    modifies writer, writer.data.segments
    ensures writer.Valid()
    ensures segment < 0 ==>
              && FreeCount(v) == |segments| && (client <= 0 ==> segments == [])
              && Progress(v, writer.data.View(), sizes, segments, client, writer.data.segments, writer.chan2seg)
    ensures segment >= 0 ==>
              Progress(v, writer.data.View(), sizes, segments + [segment], client, writer.data.segments, writer.chan2seg)
  {
    ghost var u := writer.data.View();
    OneMore(v, u, sizes, segments, client, writer.data.segments, writer.chan2seg);
    hide Progress, Added;
    segment := writer.AddClient(sizes[|segments|], |segments|, client);
  }

  /** The loop over the channels; it ends early when no segment is free. */
  method GiveAll(writer: DataSharedWrite, sizes: seq<nat>, client: int) returns (shared: bool, segments: seq<nat>)
    requires writer.Valid()
    modifies writer, writer.data.segments
    ensures writer.Valid() && |segments| <= |sizes|
    ensures Progress(old(writer.data.View()), writer.data.View(), sizes, segments, client,
                     writer.data.segments, writer.chan2seg)
    ensures shared ==> |segments| == |sizes|
    ensures !shared ==> FreeCount(old(writer.data.View())) == |segments| < |sizes| && (client <= 0 ==> segments == [])
  {
    hide Progress;
    ghost var v := writer.data.View();
    writer.chan2seg := map[];
    segments := [];
    NoProgress(v, sizes, client, writer.data.segments);
    while |segments| < |sizes|
      invariant writer.Valid() && |segments| <= |sizes|
      invariant Progress(v, writer.data.View(), sizes, segments, client, writer.data.segments, writer.chan2seg)
    {
      var segment := GiveOne(writer, sizes, segments, client, v);
      if segment < 0 {
        return false, segments;
      }
      segments := segments + [segment];
    }
    shared := true;
  }

  /** Every channel has an empty segment of its size that the client holds. */
  ghost predicate AreReady(writer: DataSharedWrite, sizes: seq<nat>, client: int)
    reads writer, writer.chan2seg.Values
  {
    && (forall c :: c in writer.chan2seg <==> 0 <= c < |sizes|)
    && forall c :: 0 <= c < |sizes| ==>
         var s := writer.chan2seg[c]; s.size == sizes[c] && s.bytesSoFar == 0 && client in s.clientIds
  }

  lemma WasGiven(
      v: Table, u: Table, sizes: seq<nat>, segments: seq<nat>, client: int,
      objects: seq<SharedDataSegment>, chan2seg: map<int, SharedDataSegment>)
    requires Progress(v, u, sizes, segments, client, objects, chan2seg)
    ensures client > 0 ==> Given(v, u, sizes, segments, client) && |segments| <= FreeCount(v)
    ensures client <= 0 ==> if segments == [] then u == v else FreeCount(v) > 0
    ensures forall k :: 0 <= k < |segments| ==> segments[k] < |objects|
  {
    NoneFreeIff(v);
  }

  lemma AllReady(writer: DataSharedWrite, v: Table, sizes: seq<nat>, segments: seq<nat>, client: int)
    requires writer.Valid() && |segments| == |sizes| && client > 0
    requires Progress(v, writer.data.View(), sizes, segments, client, writer.data.segments, writer.chan2seg)
    ensures AreReady(writer, sizes, client)
  {
    var u := writer.data.View();
    forall c | 0 <= c < |sizes|
      ensures writer.chan2seg[c].View() == Taken(v[segments[c]], sizes[c], client)
      ensures client in writer.chan2seg[c].clientIds
    {
      assert writer.chan2seg[c] == writer.data.segments[segments[c]];
      assert u[segments[c]] == writer.data.segments[segments[c]].View();
      assert Taken(v[segments[c]], sizes[c], client).clients[0] == client;
    }
  }

  /** Gives every channel of an image its segment, or none: when the segments do not suffice those taken
  are given back and the caller sends over TCP. That happens exactly when fewer are free than there are
  channels. A client whose number is not positive, as it is before the central server gave it one, needs
  one free segment only, and all its channels share that. */
  method StartSharedImage(writer: DataSharedWrite, sizes: seq<nat>, client: int)
    returns (shared: bool, segments: seq<nat>)
    requires writer.Valid()
    modifies writer, writer.data.segments
    ensures writer.Valid()
    ensures var free := FreeCount(old(writer.data.View()));
            shared <==> if client > 0 then |sizes| <= free else sizes == [] || free > 0
    ensures shared && |sizes| >= 2 ==>
              ((forall k, l :: 0 <= k < l < |segments| ==> segments[k] != segments[l]) <==> client > 0)
    ensures shared ==>
              && |segments| == |sizes|
              && Progress(old(writer.data.View()), writer.data.View(), sizes, segments, client,
                          writer.data.segments, writer.chan2seg)
    ensures shared && client > 0 ==> |segments| == |sizes| && AreReady(writer, sizes, client)
    ensures !shared ==> AllHeldAsBefore(old(writer.data.View()), writer.data.View()) && writer.chan2seg == map[]
  {
    hide Progress, AreReady, Given, AllHeldAsBefore, Channels, Taken, FreeCount;
    ghost var v := writer.data.View();
    shared, segments := GiveAll(writer, sizes, client);
    WasGiven(v, writer.data.View(), sizes, segments, client, writer.data.segments, writer.chan2seg);
    if shared && client > 0 {
      AllReady(writer, v, sizes, segments, client);
    }
    if shared && |sizes| >= 2 {
      DistinctIff(v, writer.data.View(), sizes, segments, client, writer.data.segments, writer.chan2seg);
    }
    if !shared {
      GiveBack(writer.data, segments, client, v, sizes);
      writer.chan2seg := map[];
    }
  }
}
