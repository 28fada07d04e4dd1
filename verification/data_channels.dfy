/** Binary data channels: include/data.h, lib/rts2/data.cpp and the reception of binary data in
lib/rts2/connection.cpp.

A frame has one buffer per channel. On the socket every chunk is announced by a header line with
its channel and size; the bytes follow, cut into fragments wherever the network pleases. Bytes that
arrive together with a header are taken out of the command buffer (`AddData`), the others are read
straight from the socket (`GetData`). */
module DataChannels {
  import opened Options

  newtype byte = x: int | 0 <= x < 256

  /** What a reader is, as a value: the capacity of its buffer, the bytes stored so far, and the two
      counters of bytes still to come, for the whole channel and for the chunk being read. */
  datatype Reader = Reader(size: nat, stored: seq<byte>, rest: int, chunk: int)

  predicate Consistent(r: Reader) {
    0 <= r.rest && |r.stored| + r.rest == r.size
  }

  predicate Started(r: Reader) {
    Consistent(r) && 0 <= r.chunk <= r.rest
  }

  function Store(r: Reader, data: seq<byte>): (s: Reader)
    requires Consistent(r) && |data| <= r.rest
    ensures Consistent(s) && (Started(r) && |data| <= r.chunk ==> Started(s))
  {
    r.(stored := r.stored + data, rest := r.rest - |data|, chunk := r.chunk - |data|)
  }

  /* ---- Where the copies end ---- */

  const SIZE_T: int := 0x1_0000_0000_0000_0000
  const SSIZE_MAX: int := 0x7fff_ffff_ffff_ffff

  /** A number that ssize_t holds, as size_t. */
  function ToSize(n: int): nat
    requires -SSIZE_MAX - 1 <= n <= SSIZE_MAX
  {
    if n < 0 then SIZE_T + n else n
  }

  /** How many bytes memcpy is told to copy when `n` bytes are at hand. */
  function Extent(chunk: int, n: nat): nat
    requires -SSIZE_MAX - 1 <= chunk <= SSIZE_MAX && n <= SSIZE_MAX
  {
    ToSize(if n > chunk then chunk else n)
  }

  /** `n` bytes at hand are taken without leaving the buffer. */
  predicate StaysInside(r: Reader, n: nat) {
    0 <= r.chunk && (n <= r.rest || r.chunk <= r.rest)
  }

  lemma StaysInsideIff(r: Reader, n: nat)
    requires Consistent(r) && r.rest < SSIZE_MAX && -SSIZE_MAX - 1 <= r.chunk <= SSIZE_MAX && n <= SSIZE_MAX
    ensures StaysInside(r, n) <==> Extent(r.chunk, n) <= r.rest
  {
  }

  /** Whatever number the header carried: what is taken from the command buffer stays inside the channel's
      buffer, for all data, exactly when the number is neither negative nor more than the channel lacks. */
  lemma CopyStaysInsideIff(r: Reader)
    requires Consistent(r) && r.rest < SSIZE_MAX && -SSIZE_MAX - 1 <= r.chunk <= SSIZE_MAX
    ensures (forall n: nat | n <= SSIZE_MAX :: Extent(r.chunk, n) <= r.rest) <==> Started(r)
  {
    if !Started(r) {
      var n := if r.chunk < 0 then 0 else r.chunk;
      assert Extent(r.chunk, n) > r.rest;
    }
  }

  /** read (2) may deliver `n` bytes when it is told the chunk as its size_t count. */
  predicate MayDeliver(chunk: int, n: nat)
    requires -SSIZE_MAX - 1 <= chunk <= SSIZE_MAX
  {
    n <= ToSize(chunk) && n <= SSIZE_MAX
  }

  /** The same for what is read from the socket. */
  lemma ReadStaysInsideIff(r: Reader)
    requires Consistent(r) && r.rest < SSIZE_MAX && -SSIZE_MAX - 1 <= r.chunk <= SSIZE_MAX
    ensures (forall n: nat | MayDeliver(r.chunk, n) :: n <= r.rest) <==> Started(r)
  {
    if !Started(r) {
      assert MayDeliver(r.chunk, r.rest + 1);
    }
  }

  /** A channel of four bytes whose header says -1, and one whose header says 5. */
  lemma BadHeaders()
    ensures Extent(-1, 0) == 0xffff_ffff_ffff_ffff > 4 && Extent(5, 5) == 5 > 4
  {
  }

  /** Result of read (2) on the socket. */
  datatype SocketRead = Read(data: seq<byte>) | Interrupted | Failed

  class DataRead {
    const buff: array<byte>
    var top: nat
    var rest: int
    var chunk: int

    ghost predicate Valid()
      reads this
    {
      0 <= rest && top + rest == buff.Length
    }

    ghost function View(): (r: Reader)
      reads this, buff
      requires Valid()
      ensures Consistent(r)
    {
      Reader(buff.Length, buff[..top], rest, chunk)
    }

    constructor (size: nat)
      ensures Valid() && fresh(buff)
      ensures View() == Reader(size, [], size, -1)
    {
      buff := new byte[size](_ => 0);
      top := 0;
      rest := size;
      chunk := -1;
    }

    method ReadDataSize(announced: int)
      requires Valid()
      modifies this`chunk
      ensures Valid() && View() == old(View()).(chunk := announced)
    {
      chunk := announced;
    }

    method SetChunkSizeFromData()
      requires Valid()
      modifies this`chunk
      ensures Valid() && View() == old(View()).(chunk := rest) && Started(View())
    {
      chunk := rest;
    }

    /** Takes at most the rest of the chunk and tells how much it took. */
    method AddData(data: seq<byte>) returns (taken: nat)
      requires Valid() && StaysInside(View(), |data|)
      modifies this`top, this`rest, this`chunk, buff
      ensures taken == if |data| <= old(chunk) then |data| else old(chunk)
      ensures Valid() && View() == Store(old(View()), data[..taken])
      ensures top == old(top) + taken && rest == old(rest) - taken && chunk == old(chunk) - taken
      ensures buff[..top] == old(buff[..top]) + data[..taken]
      ensures buff[top..] == old(buff[..])[top..]
    {
      taken := if |data| > chunk then chunk else |data|;
      Copy(data[..taken]);
      top := top + taken;
      rest := rest - taken;
      chunk := chunk - taken;
    }

    /** `got` is what the operating system answers; read (2) returns at most the bytes asked for, and writes
        them, so they have to be inside the buffer. */
    method GetData(got: SocketRead) returns (size: int)
      requires Valid()
      requires got.Read? ==> |got.data| <= rest && (0 <= chunk ==> |got.data| <= chunk)
      modifies this`top, this`rest, this`chunk, buff
      ensures size == match got { case Read(data) => |data| case Interrupted => 0 case Failed => -1 }
      ensures Valid() && View() == if got.Read? then Store(old(View()), got.data) else old(View())
      ensures var n := if got.Read? then |got.data| else 0;
              && top == old(top) + n && rest == old(rest) - n && chunk == old(chunk) - n
              && buff[..top] == old(buff[..top]) + if got.Read? then got.data else []
      ensures buff[top..] == old(buff[..])[top..]
    {
      match got
      case Interrupted => return 0;
      case Failed => return -1;
      case Read(data) =>
        Copy(data);
        size := |data|;
        rest := rest - size;
        chunk := chunk - size;
        top := top + size;
    }

    /** memcpy to the top of the buffer. */
    method Copy(data: seq<byte>)
      requires top + |data| <= buff.Length
      modifies buff
      ensures buff[..] == old(buff[..top]) + data + old(buff[top + |data|..])
    {
      for i := 0 to |data|
        invariant buff[..top + i] == old(buff[..top]) + data[..i]
        invariant buff[top + i..] == old(buff[top + i..])
      {
        buff[top + i] := data[i];
      }
    }
  }

  /* ---- All channels of a frame ---- */

  function TotalRest(chans: seq<Reader>): int {
    if chans == [] then 0 else chans[0].rest + TotalRest(chans[1..])
  }

  lemma {:induction false} TotalRestUpdate(chans: seq<Reader>, c: nat, r: Reader)
    requires c < |chans|
    ensures TotalRest(chans[c := r]) == TotalRest(chans) - chans[c].rest + r.rest
  {
    if c == 0 {
      assert chans[0 := r][1..] == chans[1..];
    } else {
      assert chans[c := r][1..] == chans[1..][c - 1 := r];
      TotalRestUpdate(chans[1..], c - 1, r);
    }
  }

  lemma {:induction false} TotalRestBounds(chans: seq<Reader>)
    requires forall c | 0 <= c < |chans| :: Consistent(chans[c])
    ensures TotalRest(chans) >= 0
    ensures TotalRest(chans) == 0 <==> forall c | 0 <= c < |chans| :: |chans[c].stored| == chans[c].size
    ensures forall c | 0 <= c < |chans| :: chans[c].rest <= TotalRest(chans)
  {
    if chans != [] {
      TotalRestBounds(chans[1..]);
      assert forall c | 0 < c < |chans| :: chans[c] == chans[1..][c - 1];
    }
  }

  lemma {:induction false} TotalRestAppend(chans: seq<Reader>, r: Reader)
    ensures TotalRest(chans + [r]) == TotalRest(chans) + r.rest
  {
    if chans != [] {
      assert (chans + [r])[1..] == chans[1..] + [r];
      TotalRestAppend(chans[1..], r);
    }
  }

  class Channels {
    const readers: seq<DataRead>

    ghost predicate Valid()
      reads readers
    {
      && (forall i | 0 <= i < |readers| :: readers[i].Valid())
      && (forall i, j | 0 <= i < j < |readers| :: readers[i] != readers[j] && readers[i].buff != readers[j].buff)
    }

    ghost function Footprint(): set<object> {
      (set r: object | r in readers) + (set r: DataRead | r in readers :: r.buff as object)
    }

    ghost function View(): (v: seq<Reader>)
      reads readers, Footprint()
      requires Valid()
      ensures |v| == |readers| && forall i | 0 <= i < |v| :: v[i] == readers[i].View() && Consistent(v[i])
    {
      seq(|readers|, i requires 0 <= i < |readers| && Valid() reads readers, Footprint() => readers[i].View())
    }

    constructor (sizes: seq<nat>)
      ensures Valid() && fresh(Footprint())
      ensures View() == seq(|sizes|, i requires 0 <= i < |sizes| => Reader(sizes[i], [], sizes[i], -1))
    {
      var all: seq<DataRead> := [];
      for i := 0 to |sizes|
        invariant |all| == i
        invariant forall k | 0 <= k < i :: fresh(all[k]) && fresh(all[k].buff) && all[k].Valid()
        invariant forall k | 0 <= k < i :: all[k].View() == Reader(sizes[k], [], sizes[k], -1)
        invariant forall k, l | 0 <= k < l < i :: all[k] != all[l] && all[k].buff != all[l].buff
      {
        var r := new DataRead(sizes[i]);
        all := all + [r];
      }
      readers := all;
    }

    /** A channel that does not exist is an out_of_range exception. */
    method ReadChannel(chan: nat, announced: int) returns (ok: bool)
      requires Valid()
      modifies readers
      ensures Valid() && ok == (chan < |readers|)
      ensures View() == if ok then old(View())[chan := old(View()[chan]).(chunk := announced)] else old(View())
    {
      ok := chan < |readers|;
      if ok {
        readers[chan].ReadDataSize(announced);
      }
    }

    method AddData(chan: nat, data: seq<byte>) returns (taken: Option<nat>)
      requires Valid() && (chan < |readers| ==> StaysInside(View()[chan], |data|))
      modifies Footprint()
      ensures Valid()
      ensures chan >= |readers| ==> taken == None && View() == old(View())
      ensures chan < |readers| ==>
                var r := old(View()[chan]);
                && taken == Some(if |data| <= r.chunk then |data| else r.chunk)
                && View() == old(View())[chan := Store(r, data[..taken.value])]
    {
      if chan >= |readers| {
        return None;
      }
      var n := readers[chan].AddData(data);
      taken := Some(n);
    }

    method GetData(chan: nat, got: SocketRead) returns (size: Option<int>)
      requires Valid()
      requires chan < |readers| && got.Read? ==>
                 && |got.data| <= View()[chan].rest
                 && (0 <= View()[chan].chunk ==> |got.data| <= View()[chan].chunk)
      modifies Footprint()
      ensures Valid()
      ensures chan >= |readers| ==> size == None && View() == old(View())
      ensures chan < |readers| ==>
                && size == Some(match got { case Read(data) => |data| case Interrupted => 0 case Failed => -1 })
                && View() == if got.Read? then old(View())[chan := Store(old(View()[chan]), got.data)] else old(View())
    {
      if chan >= |readers| {
        return None;
      }
      var n := readers[chan].GetData(got);
      size := Some(n);
    }

    method GetRestSize() returns (rest: int)
      requires Valid()
      ensures rest == TotalRest(View())
    {
      rest := 0;
      for i := 0 to |readers|
        invariant rest == TotalRest(View()[..i])
      {
        rest := rest + readers[i].rest;
        assert View()[..i + 1] == View()[..i] + [View()[i]];
        TotalRestAppend(View()[..i], View()[i]);
      }
      assert View()[..|readers|] == View();
    }
  }
}
