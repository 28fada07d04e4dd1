/** The loop of `sendBinaryData` in lib/rts2/connection.cpp, which writes a block to the socket.

When more is asked for than all channels of the transfer have left, the loop cuts down what it hands to
send (2), and not the place where it wants to get to. */
module BinarySend {
  import opened Options
  import opened DataTransfer

  /** What send (2) answers. */
  datatype Answer = Sent(n: nat) | TryAgain | Failed

  /** `left` bytes are not written, the next call asks for `size`, and all channels have `rest` left. */
  datatype Place = Loop(left: nat, size: nat, rest: nat)

  type Loop = s: Place | s.size <= s.left witness Loop(0, 0, 0)

  function Asked(s: Loop): nat {
    if s.size > s.rest then s.rest else s.size
  }

  predicate Fits(s: Loop, got: Answer) {
    got.Sent? ==> got.n <= Asked(s)
  }

  function Turn(s: Loop, got: Answer): Loop
    requires Fits(s, got)
  {
    match got
    case Sent(n) => Loop(s.left - n, Asked(s) - n, s.rest - n)
    case _ => s.(size := Asked(s))
  }

  /** send (2) writes at most what it is asked for. */
  predicate MaySend(s: Loop, answers: seq<Answer>)
    decreases |answers|
  {
    answers == [] || answers[0].Failed? || (Fits(s, answers[0]) && MaySend(Turn(s, answers[0]), answers[1..]))
  }

  /** 0 when everything is written, -1 when a call failed, and nothing while the loop goes on. */
  function Outcome(s: Loop, answers: seq<Answer>): Option<int>
    requires MaySend(s, answers)
    decreases |answers|
  {
    if s.left == 0 then Some(0)
    else if answers == [] then None
    else if answers[0].Failed? then Some(-1)
    else Outcome(Turn(s, answers[0]), answers[1..])
  }

  /** More to write than can be asked for: that stays so, and the loop does not end by itself. */
  lemma {:induction false} NeverDone(s: Loop, answers: seq<Answer>)
    requires MaySend(s, answers) && s.left > Asked(s)
    ensures Outcome(s, answers) != Some(0)
    ensures Outcome(s, answers) == None <==> forall i :: 0 <= i < |answers| ==> !answers[i].Failed?
    decreases |answers|
  {
    if answers != [] {
      if answers[0].Failed? {
        assert answers[0].Failed?;
      } else {
        NeverDone(Turn(s, answers[0]), answers[1..]);
        assert forall i :: 0 < i < |answers| ==> answers[i] == answers[1..][i - 1];
      }
    }
  }

  /** Within what the channels have left, every call that writes something brings the end nearer. */
  lemma {:induction false} DoneInTime(s: Loop, answers: seq<Answer>)
    requires MaySend(s, answers) && s.left == s.size <= s.rest
    requires |answers| >= s.left && forall i :: 0 <= i < |answers| ==> answers[i].Sent? && answers[i].n > 0
    ensures Outcome(s, answers) == Some(0)
    decreases |answers|
  {
    if s.left > 0 {
      assert answers[0].Sent?;
      DoneInTime(Turn(s, answers[0]), answers[1..]);
    }
  }

  ghost predicate CanEnd(s: Loop) {
    exists answers :: MaySend(s, answers) && Outcome(s, answers) == Some(0)
  }

  lemma OneCall(s: Loop)
    requires s.left == s.size <= s.rest
    ensures CanEnd(s)
  {
    var answers := seq(if s.left == 0 then 0 else 1, _ => Sent(s.left));
    if s.left > 0 {
      assert answers[0] == Sent(s.left) && Turn(s, answers[0]).left == 0;
      assert Outcome(Turn(s, answers[0]), answers[1..]) == Some(0);
    }
    assert MaySend(s, answers);
    assert Outcome(s, answers) == Some(0);
  }

  /** The loop can come to its end exactly when no more is sent than all channels have left. */
  lemma EndsIff(size: nat, rest: nat)
    ensures CanEnd(Loop(size, size, rest)) <==> size <= rest
  {
    var s := Loop(size, size, rest);
    if size <= rest {
      OneCall(s);
    } else {
      forall answers | MaySend(s, answers)
        ensures Outcome(s, answers) != Some(0)
      {
        NeverDone(s, answers);
      }
    }
  }

  class Transfer {
    // none once everything is written
    var data: DataWrite?

    ghost predicate Valid()
      reads this, data, if data != null then {data.sizes} else {}
    {
      data != null ==> Sum(data.sizes[..]) >= 0
    }

    ghost function Left(): nat
      reads this, data, if data != null then {data.sizes} else {}
      requires Valid()
    {
      if data == null then 0 else Sum(data.sizes[..])
    }

    method GetWriteBinaryDataSize() returns (size: nat)
      requires Valid()
      ensures size == Left()
    {
      if data == null {
        return 0;
      }
      size := data.GetDataSize();
    }

    /** Counts what was written, and drops the transfer when it is over. */
    method Count(chan: nat, n: nat)
      requires Valid() && n <= Left() && (data != null ==> chan < data.sizes.Length)
      modifies this, if data != null then {data.sizes} else {}
      ensures Valid() && Left() == old(Left()) - n && (data == null || data == old(data))
      ensures old(data) != null ==>
                old(data).sizes[..] == old(data.sizes[..])[chan := old(data.sizes[chan]) - n]
    {
      if data != null {
        SumUpdate(data.sizes[..], chan, data.sizes[chan] - n);
        data.DataWritten(chan, n);
        var total := data.GetDataSize();
        if total <= 0 {
          data := null;
        }
      }
    }

    /** Writes a block, as far as the answers go. */
    method SendBinaryData(chan: nat, dataSize: nat, answers: seq<Answer>) returns (ret: Option<int>)
      requires Valid() && (data != null ==> chan < data.sizes.Length)
      requires MaySend(Loop(dataSize, dataSize, Left()), answers)
      modifies this, if data != null then {data.sizes} else {}
      ensures Valid() && ret == Outcome(Loop(dataSize, dataSize, old(Left())), answers)
      ensures ret == Some(0) ==> Left() == old(Left()) - dataSize
      ensures ret == Some(-1) ==> exists i :: 0 <= i < |answers| && answers[i].Failed?
      ensures ret.Some? ==> ret.value == 0 || ret.value == -1
      ensures data == null || data == old(data)
    {
      hide Sum;
      ghost var s := Loop(dataSize, dataSize, Left());
      var left, size, i := dataSize, dataSize, 0;
      while left > 0 && i < |answers|
        invariant Valid() && (data == null || data == old(data)) && i <= |answers|
        invariant 0 <= size <= left <= dataSize && Left() == old(Left()) - (dataSize - left)
        invariant MaySend(Loop(left, size, Left()), answers[i..])
        invariant Outcome(Loop(left, size, Left()), answers[i..]) == Outcome(s, answers)
      {
        var rest := GetWriteBinaryDataSize();
        if size > rest {
          size := rest;
        }
        assert answers[i..][0] == answers[i] && answers[i..][1..] == answers[i + 1..];
        match answers[i] {
          case Failed =>
            return Some(-1);
          case TryAgain =>
          case Sent(n) =>
            left := left - n;
            size := size - n;
            Count(chan, n);
        }
        i := i + 1;
      }
      ret := if left == 0 then Some(0) else None;
    }
  }
}
