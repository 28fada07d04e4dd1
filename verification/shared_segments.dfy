/** Image data in shared memory: the segments of include/data.h and lib/rts2/data.cpp as values, and
what every run of their operations keeps.

A segment is free as long as no client number in it is positive. Every segment has a semaphore of its
own, so what is done to one segment is one step; `addClient` locks one segment after the other and is
as many steps as segments it looks at, with anything in between. */
module SharedSegments {
  import opened Options

  const MAX_SHARED_CLIENTS: nat := 10
  const SIZE_T: nat := 0x1_0000_0000_0000_0000

  datatype Seg = Seg(clients: seq<int>, size: nat, written: nat, offset: nat) {
    ghost predicate Held() {
      exists s :: 0 <= s < |clients| && clients[s] > 0
    }

    /** What both ends take for the number of bytes to come, in 64-bit arithmetic. */
    function Rest(): nat {
      (size - written) % SIZE_T
    }

    /** Where the next byte goes. */
    function Top(): nat {
      offset + written
    }
  }

  type Table = v: seq<Seg> | forall i :: 0 <= i < |v| ==> |v[i].clients| == MAX_SHARED_CLIENTS

  /** The first free segment, or the number of segments. */
  ghost function FirstFree(v: seq<Seg>): (i: nat)
    ensures i <= |v| && (i < |v| ==> !v[i].Held())
    ensures forall j :: 0 <= j < i ==> v[j].Held()
  {
    if v == [] || !v[0].Held() then 0 else 1 + FirstFree(v[1..])
  }

  /** Where `client` stands first, or the number of places. */
  ghost function Place(clients: seq<int>, client: int): (s: nat)
    ensures s <= |clients| && (s < |clients| ==> clients[s] == client)
    ensures forall j :: 0 <= j < s ==> clients[j] != client
  {
    if clients == [] || clients[0] == client then 0 else 1 + Place(clients[1..], client)
  }

  ghost function Taken(s: Seg, size: nat, client: int): Seg
    requires s.clients != []
  {
    Seg(s.clients[0 := client], size, 0, s.offset)
  }

  ghost function Left(s: Seg, client: int): Seg {
    var p := Place(s.clients, client);
    if p < |s.clients| then s.(clients := s.clients[p := 0]) else s
  }

  /** What `addClient` does to segment `i` while it has its semaphore. */
  ghost function Looked(v: Table, i: nat, size: nat, client: int): (u: Table)
    requires i < |v|
    ensures |u| == |v|
  {
    if v[i].Held() then v else v[i := Taken(v[i], size, client)]
  }

  /** The whole of `addClient` when nobody comes in between. */
  ghost function Added(v: Table, size: nat, client: int): (u: Table)
    ensures |u| == |v|
  {
    var i := FirstFree(v);
    if i < |v| then v[i := Taken(v[i], size, client)] else v
  }

  ghost function Removed(v: Table, i: nat, client: int): (u: Table)
    requires i < |v|
    ensures |u| == |v|
  {
    v[i := Left(v[i], client)]
  }

  /* ---- Runs ---- */

  datatype Op =
    | Look(i: nat, size: nat, client: int)
    | Remove(i: nat, client: int)
    | Write(i: nat, count: nat)
    | End(i: nat)

  ghost predicate Enabled(v: Table, op: Op) {
    match op
    case Look(i, _, _) => i < |v|
    case Remove(i, _) => i < |v|
    case Write(i, n) => i < |v|
    case End(i) => i < |v|
  }

  ghost function Step(v: Table, op: Op): (u: Table)
    requires Enabled(v, op)
    ensures |u| == |v|
  {
    match op
    case Look(i, size, client) => Looked(v, i, size, client)
    case Remove(i, client) => Removed(v, i, client)
    case Write(i, n) => v[i := v[i].(written := v[i].written + n)]
    case End(i) => v[i := v[i].(written := v[i].size)]
  }

  ghost predicate IsRun(v: Table, ops: seq<Op>)
    decreases |ops|
  {
    ops == [] || (Enabled(v, ops[0]) && IsRun(Step(v, ops[0]), ops[1..]))
  }

  ghost function After(v: Table, ops: seq<Op>): (u: Table)
    requires IsRun(v, ops)
    ensures |u| == |v|
    decreases |ops|
  {
    if ops == [] then v else After(Step(v, ops[0]), ops[1..])
  }

  /** Some client holds segment `i` before every operation of the run. */
  ghost predicate HeldThroughout(v: Table, ops: seq<Op>, i: nat)
    requires IsRun(v, ops) && i < |v|
    decreases |ops|
  {
    ops == [] || (v[i].Held() && HeldThroughout(Step(v, ops[0]), ops[1..], i))
  }

  ghost predicate InRange(v: Table, op: Op)
    requires Enabled(v, op)
  {
    op.Write? ==> v[op.i].written + op.count <= v[op.i].size
  }

  ghost predicate WritesInRange(v: Table, ops: seq<Op>)
    requires IsRun(v, ops)
    decreases |ops|
  {
    ops == [] || (InRange(v, ops[0]) && WritesInRange(Step(v, ops[0]), ops[1..]))
  }

  ghost predicate WithinSize(v: Table) {
    forall i :: 0 <= i < |v| ==> v[i].written <= v[i].size
  }

  lemma {:induction false} WritesStayWithin(v: Table, ops: seq<Op>)
    requires IsRun(v, ops) && WritesInRange(v, ops) && WithinSize(v)
    ensures WithinSize(After(v, ops))
    decreases |ops|
  {
    if ops != [] {
      WritesStayWithin(Step(v, ops[0]), ops[1..]);
    }
  }

  /** While it is held a segment is not given away: its size and place stay, and the end of its data
  never moves back. */
  lemma {:induction false} HeldSegmentAdvances(v: Table, ops: seq<Op>, i: nat)
    requires IsRun(v, ops) && WritesInRange(v, ops) && WithinSize(v) && i < |v|
    requires HeldThroughout(v, ops, i)
    ensures var s, t := v[i], After(v, ops)[i];
            t.size == s.size && t.offset == s.offset && t.written >= s.written && t.Top() >= s.Top()
            && t.size - t.written <= s.size - s.written
    decreases |ops|
  {
    if ops != [] {
      HeldSegmentAdvances(Step(v, ops[0]), ops[1..], i);
    }
  }

  /** What a run writes to segment `i`. */
  function WrittenTo(ops: seq<Op>, i: nat): nat {
    if ops == [] then 0
    else (if ops[0].Write? && ops[0].i == i then ops[0].count else 0) + WrittenTo(ops[1..], i)
  }

  /** The end of the data of a held segment moves by exactly what is written to it, whatever is done to the
  others, until it is marked as complete. */
  lemma {:induction false} WritesAddUp(v: Table, ops: seq<Op>, i: nat)
    requires IsRun(v, ops) && i < |v| && HeldThroughout(v, ops, i) && End(i) !in ops
    ensures After(v, ops)[i].written == v[i].written + WrittenTo(ops, i)
    decreases |ops|
  {
    if ops != [] {
      assert ops[0] in ops;
      WritesAddUp(Step(v, ops[0]), ops[1..], i);
    }
  }

  /** Marked as complete, a segment has all its bytes. */
  lemma EndCompletes(v: Table, i: nat)
    requires i < |v|
    ensures var s := Step(v, End(i))[i]; s.written == v[i].size == s.size && s.Rest() == 0
  {
  }

  /** A client that is in a segment is there until it is removed from it, whatever else happens and whoever
  else is removed. */
  lemma {:induction false} ClientStays(v: Table, ops: seq<Op>, i: nat, client: int)
    requires IsRun(v, ops) && i < |v| && client > 0 && client in v[i].clients
    requires Remove(i, client) !in ops
    ensures client in After(v, ops)[i].clients
    decreases |ops|
  {
    if ops != [] {
      var op := ops[0];
      var p :| 0 <= p < |v[i].clients| && v[i].clients[p] == client;
      assert v[i].Held();
      assert op in ops && op != Remove(i, client);
      var u := Step(v, op);
      assert u[i].clients[p] == client;
      ClientStays(u, ops[1..], i, client);
    }
  }

  /** One removal takes one place of that client, and no other client's. */
  lemma RemovalTakesOne(v: Table, i: nat, client: int, other: int)
    requires i < |v| && client != 0 && other != 0
    ensures var was, now := multiset(v[i].clients), multiset(Removed(v, i, client)[i].clients);
            now[other] == if other == client && was[other] > 0 then was[other] - 1 else was[other]
  {
    var c := v[i].clients;
    PlaceCleared(c, client);
    assert Removed(v, i, client)[i].clients == var p := Place(c, client); if p < |c| then c[p := 0] else c;
    hide Place, Left;
  }

  lemma PlaceCleared(c: seq<int>, client: int)
    ensures var p := Place(c, client);
            && (p < |c| ==> multiset(c[p := 0]) == multiset(c) - multiset{client} + multiset{0})
            && (p == |c| ==> multiset(c)[client] == 0)
  {
    var p := Place(c, client);
    assert p == |c| ==> client !in c;
  }

  /** How many segments nobody holds. */
  ghost function FreeCount(v: seq<Seg>): nat {
    if v == [] then 0 else (if v[0].Held() then 0 else 1) + FreeCount(v[1..])
  }

  lemma {:induction false} FreeCountUpdate(v: seq<Seg>, i: nat, s: Seg)
    requires i < |v|
    ensures FreeCount(v[i := s]) + (if v[i].Held() then 0 else 1) == FreeCount(v) + (if s.Held() then 0 else 1)
  {
    if i > 0 {
      FreeCountUpdate(v[1..], i - 1, s);
      assert v[i := s][1..] == v[1..][i - 1 := s];
    } else {
      assert v[i := s][1..] == v[1..];
    }
  }

  lemma {:induction false} NoneFreeIff(v: seq<Seg>)
    ensures FreeCount(v) == 0 <==> FirstFree(v) == |v|
  {
    if v != [] {
      NoneFreeIff(v[1..]);
    }
  }

  /** A client with a positive number takes a segment that nobody held; one without leaves it free for
  the next. */
  lemma AddTakesOne(v: Table, size: nat, client: int)
    ensures FirstFree(v) < |v| <==> FreeCount(v) > 0
    ensures FirstFree(v) < |v| ==>
              var i := FirstFree(v);
              && !v[i].Held() && (Added(v, size, client)[i].Held() <==> client > 0)
              && FreeCount(Added(v, size, client)) == FreeCount(v) - (if client > 0 then 1 else 0)
  {
    NoneFreeIff(v);
    var i := FirstFree(v);
    if i < |v| {
      var t := Taken(v[i], size, client);
      assert t.clients[0] == client;
      assert forall s :: 0 < s < |t.clients| ==> t.clients[s] == v[i].clients[s];
      FreeCountUpdate(v, i, t);
    }
  }

  /* ---- The areas of the segments ---- */

  /** Where `create` puts the area of segment `i`. */
  function Start(base: nat, capacity: nat, i: nat): nat {
    base + i * capacity
  }

  /** From the start of the area to the top are the bytes that are written, and behind it, to the end of the
  area, those that are missing. */
  lemma TopParts(s: Seg, base: nat, capacity: nat, i: nat)
    requires s.offset == Start(base, capacity, i) && s.written <= s.size < SIZE_T
    ensures s.Top() - (base + i * capacity) == s.written && s.Top() + s.Rest() == base + i * capacity + s.size
  {
  }

  ghost predicate Placed(v: seq<Seg>, base: nat, capacity: nat) {
    forall i :: 0 <= i < |v| ==> v[i].offset == Start(base, capacity, i)
  }

  /** Every area ends where the next slot begins at the latest. */
  ghost predicate Apart(v: seq<Seg>, base: nat, capacity: nat) {
    forall i :: 0 <= i < |v| ==> v[i].offset + v[i].size <= Start(base, capacity, i + 1)
  }

  lemma StartGrows(base: nat, capacity: nat, i: nat, j: nat)
    requires i <= j
    ensures Start(base, capacity, i) <= Start(base, capacity, j)
    ensures Start(base, capacity, i + 1) == Start(base, capacity, i) + capacity
  {
    assert j * capacity == i * capacity + (j - i) * capacity;
    assert (i + 1) * capacity == i * capacity + capacity;
  }

  /* ---- Scans ---- */

  /** `addClient` on its own is a run: it looks at the segments in turn and stops at the first free one. */
  lemma {:induction false} ScanIsRun(v: Table, i: nat, size: nat, client: int) returns (ops: seq<Op>)
    requires i <= FirstFree(v)
    ensures |ops| == (if FirstFree(v) < |v| then FirstFree(v) + 1 else |v|) - i
    ensures forall k :: 0 <= k < |ops| ==> ops[k] == Look(i + k, size, client)
    ensures IsRun(v, ops) && After(v, ops) == Added(v, size, client)
    decreases |v| - i
  {
    if i == |v| {
      ops := [];
    } else if i == FirstFree(v) {
      ops := [Look(i, size, client)];
      assert IsRun(Step(v, ops[0]), ops[1..]) && After(Step(v, ops[0]), ops[1..]) == Step(v, ops[0]);
    } else {
      var more := ScanIsRun(v, i + 1, size, client);
      ops := [Look(i, size, client)] + more;
      assert ops[1..] == more && Step(v, ops[0]) == v;
    }
  }

  /** With somebody in between a scan can find nothing although a segment is free: the client of the
  first one leaves when the scan has passed it. */
  lemma ScanCanMiss(size: nat, client: int)
    ensures var one, two := Seg([1] + seq(9, _ => 0), 8, 0, 0), Seg([2] + seq(9, _ => 0), 8, 0, 8);
            var ops := [Look(0, size, client), Remove(0, 1), Look(1, size, client)];
            && IsRun([one, two], ops)
            && After([one, two], ops) == [one.(clients := seq(10, _ => 0)), two]
            && !one.(clients := seq(10, _ => 0)).Held() && two.Held()
  {
    var one, two := Seg([1] + seq(9, _ => 0), 8, 0, 0), Seg([2] + seq(9, _ => 0), 8, 0, 8);
    var v: Table := [one, two];
    assert one.clients[0] > 0 && two.clients[0] > 0;
    assert Place(one.clients, 1) == 0 && one.clients[0 := 0] == seq(10, _ => 0);
    var u: Table := [one.(clients := seq(10, _ => 0)), two];
    assert Step(v, Look(0, size, client)) == v;
    assert Step(v, Remove(0, 1)) == u;
    assert Step(u, Look(1, size, client)) == u;
    Prepend(u, Look(1, size, client), []);
    Prepend(v, Remove(0, 1), [Look(1, size, client)]);
    Prepend(v, Look(0, size, client), [Remove(0, 1), Look(1, size, client)]);
  }

  lemma Prepend(v: Table, op: Op, ops: seq<Op>)
    requires Enabled(v, op) && IsRun(Step(v, op), ops)
    ensures IsRun(v, [op] + ops) && After(v, [op] + ops) == After(Step(v, op), ops)
  {
    assert ([op] + ops)[1..] == ops;
  }

  lemma {:induction false} RunsConcat(v: Table, a: seq<Op>, b: seq<Op>)
    requires IsRun(v, a) && IsRun(After(v, a), b)
    ensures IsRun(v, a + b) && After(v, a + b) == After(After(v, a), b)
    decreases |a|
  {
    if a == [] {
      assert a + b == b;
    } else {
      assert (a + b)[1..] == a[1..] + b;
      RunsConcat(Step(v, a[0]), a[1..], b);
    }
  }

  /** What others do before each look of a scan. */
  ghost predicate AreRuns(v: Table, between: seq<seq<Op>>)
    decreases |between|
  {
    between == [] || (IsRun(v, between[0]) && AreRuns(After(v, between[0]), between[1..]))
  }

  /** The segments after the first `n` of these runs, as if there was no scan. */
  ghost function Meanwhile(v: Table, between: seq<seq<Op>>, n: nat): (u: Table)
    requires AreRuns(v, between) && n <= |between|
    ensures |u| == |v|
    decreases n
  {
    if n == 0 then v else Meanwhile(After(v, between[0]), between[1..], n - 1)
  }

  /** The run of a scan from segment `k` on, with others in between: it stops behind the first look at a
  segment that nobody holds then. */
  ghost function Interleaved(v: Table, k: nat, between: seq<seq<Op>>, size: nat, client: int): seq<Op>
    requires AreRuns(v, between) && k + |between| == |v|
    decreases |between|
  {
    if between == [] then []
    else
      var u := After(v, between[0]);
      between[0] + ([Look(k, size, client)]
                    + if u[k].Held() then Interleaved(u, k + 1, between[1..], size, client) else [])
  }

  /** What the scan finds. */
  ghost function Found(v: Table, k: nat, between: seq<seq<Op>>): Option<nat>
    requires AreRuns(v, between) && k + |between| == |v|
    decreases |between|
  {
    if between == [] then None
    else
      var u := After(v, between[0]);
      if u[k].Held() then Found(u, k + 1, between[1..]) else Some(k)
  }

  /** Somebody holds segment `k + n` when a scan that began with `k` gets to it. */
  ghost predicate HeldAt(v: Table, k: nat, between: seq<seq<Op>>, n: nat)
    requires AreRuns(v, between) && k + |between| == |v| && n < |between|
  {
    Meanwhile(v, between, n + 1)[k + n].Held()
  }

  lemma HeldLater(v: Table, k: nat, between: seq<seq<Op>>, n: nat)
    requires AreRuns(v, between) && k + |between| == |v| && n < |between|
    ensures n == 0 ==> (HeldAt(v, k, between, n) <==> After(v, between[0])[k].Held())
    ensures n > 0 ==> (HeldAt(v, k, between, n) <==> HeldAt(After(v, between[0]), k + 1, between[1..], n - 1))
  {
    assert Meanwhile(v, between, n + 1) == Meanwhile(After(v, between[0]), between[1..], n);
  }

  /** Whatever others do meanwhile: the scan finds the first segment that is free when the scan gets to it,
  and nothing exactly when every segment is held at that time. */
  lemma {:induction false} ScanFindsIff(v: Table, k: nat, between: seq<seq<Op>>)
    requires AreRuns(v, between) && k + |between| == |v|
    ensures match Found(v, k, between)
            case None => forall n :: 0 <= n < |between| ==> HeldAt(v, k, between, n)
            case Some(i) =>
              k <= i < |v| && !HeldAt(v, k, between, i - k) && forall n :: 0 <= n < i - k ==> HeldAt(v, k, between, n)
    decreases |between|
  {
    if between != [] {
      var u := After(v, between[0]);
      HeldLater(v, k, between, 0);
      if u[k].Held() {
        ScanFindsIff(u, k + 1, between[1..]);
        forall n | 0 < n < |between|
          ensures HeldAt(v, k, between, n) <==> HeldAt(u, k + 1, between[1..], n - 1)
        {
          HeldLater(v, k, between, n);
        }
        hide HeldAt;
      }
    }
  }

  /** So a segment that is free when its turn comes is found, unless one before it was. */
  lemma FreeIsFound(v: Table, between: seq<seq<Op>>, j: nat)
    requires AreRuns(v, between) && |between| == |v| && j < |v| && !HeldAt(v, 0, between, j)
    ensures Found(v, 0, between).Some? && Found(v, 0, between).value <= j
  {
    ScanFindsIff(v, 0, between);
  }

  /** What the others leave when the scan has found `found`, with that taken. */
  ghost function TakenBy(
      v: Table, k: nat, between: seq<seq<Op>>, found: Option<nat>, size: nat, client: int): (u: Table)
    requires AreRuns(v, between) && k + |between| == |v| && (found.Some? ==> k <= found.value < |v|)
    ensures |u| == |v|
  {
    match found
    case None => Meanwhile(v, between, |between|)
    case Some(i) => Looked(Meanwhile(v, between, i - k + 1), i, size, client)
  }

  /** A run from `v` on that leads to that. */
  ghost predicate Takes(
      v: Table, k: nat, between: seq<seq<Op>>, ops: seq<Op>, found: Option<nat>, size: nat, client: int)
    requires AreRuns(v, between) && k + |between| == |v|
  {
    && IsRun(v, ops) && (found.Some? ==> k <= found.value < |v|)
    && After(v, ops) == TakenBy(v, k, between, found, size, client)
  }

  /** The scan with the others in between is a run; it changes what the others left by the one segment that
  it takes, which nobody held. */
  lemma {:induction false} ScanTakesFound(v: Table, k: nat, between: seq<seq<Op>>, size: nat, client: int)
    requires AreRuns(v, between) && k + |between| == |v|
    ensures Takes(v, k, between, Interleaved(v, k, between, size, client), Found(v, k, between), size, client)
    decreases |between|
  {
    if between != [] {
      var u := After(v, between[0]);
      if u[k].Held() {
        ScanTakesFound(u, k + 1, between[1..], size, client);
        ScanGoesOn(v, k, between, size, client);
      } else {
        ScanStops(v, k, between, size, client);
      }
      hide Takes;
    }
  }

  lemma ScanGoesOn(v: Table, k: nat, between: seq<seq<Op>>, size: nat, client: int)
    requires AreRuns(v, between) && k + |between| == |v| && between != [] && After(v, between[0])[k].Held()
    requires var u, rest := After(v, between[0]), between[1..];
             Takes(u, k + 1, rest, Interleaved(u, k + 1, rest, size, client), Found(u, k + 1, rest), size, client)
    ensures Takes(v, k, between, Interleaved(v, k, between, size, client), Found(v, k, between), size, client)
  {
    var u, rest := After(v, between[0]), between[1..];
    var found, more := Found(u, k + 1, rest), Interleaved(u, k + 1, rest, size, client);
    assert Found(v, k, between) == found;
    assert Interleaved(v, k, between, size, client) == between[0] + ([Look(k, size, client)] + more);
    assert Looked(u, k, size, client) == u;
    hide *;
    TakesLater(v, k, between, more, found, size, client);
  }

  lemma FirstRun(v: Table, between: seq<seq<Op>>)
    requires AreRuns(v, between) && between != []
    ensures IsRun(v, between[0]) && AreRuns(After(v, between[0]), between[1..]) && |After(v, between[0])| == |v|
  {
  }

  lemma TakesLater(
      v: Table, k: nat, between: seq<seq<Op>>, more: seq<Op>, found: Option<nat>, size: nat, client: int)
    requires AreRuns(v, between) && k + |between| == |v| && between != []
    requires Takes(After(v, between[0]), k + 1, between[1..], more, found, size, client)
    requires Looked(After(v, between[0]), k, size, client) == After(v, between[0])
    ensures Takes(v, k, between, between[0] + ([Look(k, size, client)] + more), found, size, client)
  {
    hide IsRun, After, Looked, Meanwhile, AreRuns, TakenBy;
    FirstRun(v, between);
    LookMoves(v, k, between[0], more, size, client);
    TakenByLater(v, k, between, found, size, client);
  }

  lemma TakenByLater(v: Table, k: nat, between: seq<seq<Op>>, found: Option<nat>, size: nat, client: int)
    requires AreRuns(v, between) && k + |between| == |v| && between != []
    requires AreRuns(After(v, between[0]), between[1..]) && (found.Some? ==> k < found.value < |v|)
    ensures TakenBy(v, k, between, found, size, client)
         == TakenBy(After(v, between[0]), k + 1, between[1..], found, size, client)
  {
    hide IsRun, After, Looked, Meanwhile, AreRuns;
    MeanwhileMoves(v, between, if found.Some? then found.value - k else |between| - 1);
  }

  lemma ScanStops(v: Table, k: nat, between: seq<seq<Op>>, size: nat, client: int)
    requires AreRuns(v, between) && k + |between| == |v| && between != [] && !After(v, between[0])[k].Held()
    ensures Takes(v, k, between, Interleaved(v, k, between, size, client), Found(v, k, between), size, client)
  {
    var w := Looked(After(v, between[0]), k, size, client);
    assert IsRun(w, []) && After(w, []) == w;
    LookMoves(v, k, between[0], [], size, client);
    MeanwhileMoves(v, between, 0);
  }

  lemma LookMoves(v: Table, k: nat, before: seq<Op>, more: seq<Op>, size: nat, client: int)
    requires k < |v| && IsRun(v, before)
    requires IsRun(Looked(After(v, before), k, size, client), more)
    ensures var ops := before + ([Look(k, size, client)] + more);
            && IsRun(v, ops)
            && After(v, ops) == After(Looked(After(v, before), k, size, client), more)
  {
    var u := After(v, before);
    assert Step(u, Look(k, size, client)) == Looked(u, k, size, client);
    hide Step, Looked;
    Prepend(u, Look(k, size, client), more);
    RunsConcat(v, before, [Look(k, size, client)] + more);
  }

  lemma MeanwhileMoves(v: Table, between: seq<seq<Op>>, n: nat)
    requires AreRuns(v, between) && n < |between|
    ensures Meanwhile(v, between, n + 1) == Meanwhile(After(v, between[0]), between[1..], n)
    ensures n == 0 ==> Meanwhile(v, between, n + 1) == After(v, between[0])
  {
  }

  /* ---- Bytes ---- */

  /** How many bytes of a segment are somebody's. */
  ghost function Used(s: Seg): nat {
    if s.Held() then s.size else 0
  }

  /** Byte `a` of the shared memory is in the area of a segment that somebody holds. */
  ghost predicate Contains(s: Seg, a: int) {
    s.offset <= a < s.offset + Used(s)
  }

  /** No byte belongs to two held segments, and none of a held one lies behind the end of the memory. */
  ghost predicate NoSharedByte(v: seq<Seg>, end: nat) {
    && (forall i, j, a :: 0 <= i < j < |v| ==> !(Contains(v[i], a) && Contains(v[j], a)))
    && (forall i, a :: 0 <= i < |v| && Contains(v[i], a) ==> a < end)
  }

  ghost predicate Ordered(v: seq<Seg>, end: nat) {
    && (forall i, j :: 0 <= i < j < |v| ==> v[i].offset <= v[j].offset)
    && (forall i :: 0 <= i < |v| ==> v[i].offset <= end)
  }

  ghost predicate Clear(s: Seg, t: Seg) {
    Used(s) == 0 || Used(t) == 0 || s.offset + Used(s) <= t.offset
  }

  ghost predicate Ends(s: Seg, end: nat) {
    Used(s) == 0 || s.offset + Used(s) <= end
  }

  lemma NoSharedByteIff(v: seq<Seg>, end: nat)
    requires Ordered(v, end)
    ensures NoSharedByte(v, end) <==>
            (forall i, j :: 0 <= i < j < |v| ==> Clear(v[i], v[j])) && (forall i :: 0 <= i < |v| ==> Ends(v[i], end))
  {
    if NoSharedByte(v, end) {
      forall i, j | 0 <= i < j < |v|
        ensures Clear(v[i], v[j])
      {
        assert !(Contains(v[i], v[j].offset) && Contains(v[j], v[j].offset));
      }
      forall i | 0 <= i < |v|
        ensures Ends(v[i], end)
      {
        assert Contains(v[i], v[i].offset + Used(v[i]) - 1) ==> v[i].offset + Used(v[i]) - 1 < end;
      }
    }
  }

  lemma PlacedIsOrdered(v: seq<Seg>, base: nat, capacity: nat)
    requires Placed(v, base, capacity)
    ensures Ordered(v, Start(base, capacity, |v|))
  {
    forall i, j | 0 <= i <= j <= |v|
      ensures Start(base, capacity, i) <= Start(base, capacity, j)
    {
      StartGrows(base, capacity, i, j);
    }
  }

  /** Where the first held segment from `k` on that has bytes begins, or the end of the memory. */
  ghost function NextStart(v: seq<Seg>, k: nat, end: nat): nat
    decreases |v| - k
  {
    if k >= |v| then end else if Used(v[k]) > 0 then v[k].offset else NextStart(v, k + 1, end)
  }

  lemma {:induction false} NextStartIsNext(v: seq<Seg>, k: nat, end: nat)
    requires Ordered(v, end)
    ensures NextStart(v, k, end) <= end
    ensures forall j :: k <= j < |v| && Used(v[j]) > 0 ==> NextStart(v, k, end) <= v[j].offset
    ensures NextStart(v, k, end) == end ||
            exists j :: k <= j < |v| && Used(v[j]) > 0 && NextStart(v, k, end) == v[j].offset
    decreases |v| - k
  {
    if k < |v| {
      NextStartIsNext(v, k + 1, end);
      if Used(v[k]) == 0 && NextStart(v, k, end) != end {
        var j :| k + 1 <= j < |v| && Used(v[j]) > 0 && NextStart(v, k, end) == v[j].offset;
      }
    }
  }

  /** The area of an earlier segment that is held reaches over the start of segment `i`. */
  ghost predicate Covered(v: seq<Seg>, i: nat)
    requires i < |v|
  {
    exists j :: 0 <= j < i && Used(v[j]) > 0 && v[j].offset + Used(v[j]) > v[i].offset
  }

  /** How many bytes segment `i` can have: none under an earlier area, else those up to the next one. */
  ghost function Room(v: seq<Seg>, i: nat, end: nat): int
    requires i < |v|
  {
    if Covered(v, i) then 0 else NextStart(v, i + 1, end) - v[i].offset
  }

  /** `addClient` does not look at the size it is asked for. The areas of the held segments stay disjoint and
  inside the memory exactly when it is no more than the segment's room, or the client's number is not positive
  so that nobody holds the segment. */
  lemma BytesStayApartIff(v: Table, i: nat, size: nat, client: int, base: nat, capacity: nat)
    requires i < |v| && !v[i].Held() && Placed(v, base, capacity)
    requires NoSharedByte(v, Start(base, capacity, |v|))
    ensures var end, u := Start(base, capacity, |v|), Looked(v, i, size, client);
            Placed(u, base, capacity) && (NoSharedByte(u, end) <==> client <= 0 || size <= Room(v, i, end))
  {
    hide NoSharedByte, Placed, Start, Looked, Room, Clear, Ends, Used, Ordered, Seg.Held;
    var end, u := Start(base, capacity, |v|), Looked(v, i, size, client);
    LookedPlaces(v, i, size, client, base, capacity);
    PlacedIsOrdered(v, base, capacity);
    PlacedIsOrdered(u, base, capacity);
    NoSharedByteIff(v, end);
    NoSharedByteIff(u, end);
    ClearIffRoom(v, u, i, end);
  }

  lemma LookedPlaces(v: Table, i: nat, size: nat, client: int, base: nat, capacity: nat)
    requires i < |v| && !v[i].Held() && Placed(v, base, capacity)
    ensures var u := Looked(v, i, size, client);
            && |u| == |v| && Placed(u, base, capacity) && Used(u[i]) == (if client > 0 then size else 0)
            && forall k :: 0 <= k < |v| ==> u[k].offset == v[k].offset && (k != i ==> u[k] == v[k])
  {
    TakenIsHeldIff(v[i], size, client);
  }

  lemma TakenIsHeldIff(s: Seg, size: nat, client: int)
    requires s.clients != [] && !s.Held()
    ensures Used(Taken(s, size, client)) == if client > 0 then size else 0
  {
    var t := Taken(s, size, client);
    assert t.clients[0] == client;
    assert forall p :: 0 < p < |t.clients| ==> t.clients[p] == s.clients[p];
  }

  lemma ClearIffRoom(v: seq<Seg>, u: seq<Seg>, i: nat, end: nat)
    requires i < |v| == |u| && Ordered(v, end)
    requires forall k :: 0 <= k < |v| ==> u[k].offset == v[k].offset && (k != i ==> u[k] == v[k])
    requires forall k, j :: 0 <= k < j < |v| ==> Clear(v[k], v[j])
    requires forall k :: 0 <= k < |v| ==> Ends(v[k], end)
    ensures (forall k, j :: 0 <= k < j < |u| ==> Clear(u[k], u[j])) && (forall k :: 0 <= k < |u| ==> Ends(u[k], end))
            <==> Used(u[i]) <= Room(v, i, end)
    ensures Room(v, i, end) >= 0
  {
    var next, size := NextStart(v, i + 1, end), Used(u[i]);
    NextStartIsNext(v, i + 1, end);
    if size > 0 {
      if size <= Room(v, i, end) {
        forall k, j | 0 <= k < j < |u|
          ensures Clear(u[k], u[j])
        {
          assert Clear(v[k], v[j]);
        }
      } else if Covered(v, i) {
        var k :| 0 <= k < i && Used(v[k]) > 0 && v[k].offset + Used(v[k]) > v[i].offset;
        assert !Clear(u[k], u[i]);
      } else if next == end {
        assert !Ends(u[i], end);
      } else {
        var j :| i + 1 <= j < |v| && Used(v[j]) > 0 && next == v[j].offset;
        assert !Clear(u[i], u[j]);
      }
    } else {
      assert Room(v, i, end) >= 0 by {
        assert v[i].offset <= next;
      }
      forall k, j | 0 <= k < j < |u|
        ensures Clear(u[k], u[j])
      {
        assert Clear(v[k], v[j]);
      }
    }
  }

  /** Every look by which a client gets a segment asks for no more than its room at that time. */
  ghost predicate RunHasRoom(v: Table, ops: seq<Op>, end: nat)
    requires IsRun(v, ops)
    decreases |ops|
  {
    ops == [] || (
      (ops[0].Look? && !v[ops[0].i].Held() && ops[0].client > 0 ==> ops[0].size <= Room(v, ops[0].i, end))
      && RunHasRoom(Step(v, ops[0]), ops[1..], end))
  }

  ghost predicate NeverShared(v: Table, ops: seq<Op>, end: nat)
    requires IsRun(v, ops)
    decreases |ops|
  {
    NoSharedByte(v, end) && (ops == [] || NeverShared(Step(v, ops[0]), ops[1..], end))
  }

  /** What is not given away does not grow. */
  lemma OtherStepsKeepAreas(v: Table, op: Op)
    requires Enabled(v, op) && (op.Look? ==> v[op.i].Held())
    ensures forall k :: 0 <= k < |v| ==> Step(v, op)[k].offset == v[k].offset && Used(Step(v, op)[k]) <= Used(v[k])
  {
    if op.Remove? {
      var s, t := v[op.i], Left(v[op.i], op.client);
      assert forall p :: 0 <= p < |t.clients| && t.clients[p] > 0 ==> s.clients[p] > 0;
    }
  }

  /** Over every run: no byte is ever in two areas or behind the end exactly when every size fits. */
  lemma {:induction false} NeverSharedIff(v: Table, ops: seq<Op>, base: nat, capacity: nat)
    requires IsRun(v, ops) && Placed(v, base, capacity) && NoSharedByte(v, Start(base, capacity, |v|))
    ensures var end := Start(base, capacity, |v|); NeverShared(v, ops, end) <==> RunHasRoom(v, ops, end)
    decreases |ops|
  {
    if ops != [] {
      var op, end := ops[0], Start(base, capacity, |v|);
      var u := Step(v, op);
      if op.Look? && !v[op.i].Held() {
        BytesStayApartIff(v, op.i, op.size, op.client, base, capacity);
      } else {
        OtherStepsKeepAreas(v, op);
        assert forall k, a :: 0 <= k < |v| ==> (Contains(u[k], a) ==> Contains(v[k], a));
      }
      if NoSharedByte(u, end) {
        NeverSharedIff(u, ops[1..], base, capacity);
      }
    }
  }

  ghost predicate LooksFit(ops: seq<Op>, capacity: nat) {
    forall k :: 0 <= k < |ops| && ops[k].Look? ==> ops[k].size <= capacity
  }

  /** Sizes up to the one the memory was made for always fit. */
  lemma {:induction false} CapacityFits(v: Table, ops: seq<Op>, base: nat, capacity: nat)
    requires IsRun(v, ops) && LooksFit(ops, capacity)
    requires Placed(v, base, capacity) && Apart(v, base, capacity)
    ensures NeverShared(v, ops, Start(base, capacity, |v|))
    decreases |ops|
  {
    ApartIsUnshared(v, base, capacity);
    if ops != [] {
      LookKeepsSlots(v, ops[0], base, capacity);
      CapacityFits(Step(v, ops[0]), ops[1..], base, capacity);
    }
  }

  lemma AreaEnds(v: Table, base: nat, capacity: nat, i: nat, j: nat)
    requires Placed(v, base, capacity) && Apart(v, base, capacity) && i < j <= |v|
    ensures v[i].offset + Used(v[i]) <= Start(base, capacity, j)
    ensures j < |v| ==> v[j].offset == Start(base, capacity, j)
  {
    StartGrows(base, capacity, i + 1, j);
  }

  lemma ApartIsUnshared(v: Table, base: nat, capacity: nat)
    requires Placed(v, base, capacity) && Apart(v, base, capacity)
    ensures NoSharedByte(v, Start(base, capacity, |v|))
  {
    var end := Start(base, capacity, |v|);
    PlacedIsOrdered(v, base, capacity);
    NoSharedByteIff(v, end);
    hide NoSharedByte, Ordered, Placed, Apart, Start, Used;
    forall i, j | 0 <= i < j < |v|
      ensures Clear(v[i], v[j])
    {
      AreaEnds(v, base, capacity, i, j);
    }
    forall i | 0 <= i < |v|
      ensures Ends(v[i], end)
    {
      AreaEnds(v, base, capacity, i, |v|);
    }
  }

  lemma LookKeepsSlots(v: Table, op: Op, base: nat, capacity: nat)
    requires Enabled(v, op) && (op.Look? ==> op.size <= capacity)
    requires Placed(v, base, capacity) && Apart(v, base, capacity)
    ensures Placed(Step(v, op), base, capacity) && Apart(Step(v, op), base, capacity)
  {
    if op.Look? {
      StartGrows(base, capacity, op.i, op.i);
    }
  }

  /** A client asks for more than the slot of a segment while another holds the next one. */
  lemma TooLargeIsShared(client: int)
    requires client > 0
    ensures var none := seq(MAX_SHARED_CLIENTS, _ => 0);
            var v := [Seg(none, 10, 0, 0), Seg(none[0 := 2], 10, 0, 10)];
            && Placed(v, 0, 10) && NoSharedByte(v, 20) && v[1].Held()
            && Looked(v, 0, 15, client)[0].Held() && !NoSharedByte(Looked(v, 0, 15, client), 20)
  {
    var none := seq(MAX_SHARED_CLIENTS, _ => 0);
    var v: Table := [Seg(none, 10, 0, 0), Seg(none[0 := 2], 10, 0, 10)];
    var u := Looked(v, 0, 15, client);
    TakenIsHeldIff(v[0], 15, client);
    assert v[1].clients[0] == 2;
    assert !v[0].Held() && v[1].Held();
    assert Contains(u[0], 12) && Contains(u[1], 12);
  }
}
