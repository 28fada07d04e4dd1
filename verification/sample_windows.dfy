/** Bounded lists of measurements: the `addValue` calls of include/valuestat.h.

A limit of zero means none, which is also what the call without a limit does. */
module SampleWindows {
  /** One bounded call: what does not fit in front of the new sample is dropped from the front. */
  function Push<T>(list: seq<T>, x: T, limit: nat): seq<T> {
    (if limit > 0 && |list| >= limit then list[|list| - limit + 1..] else list) + [x]
  }

  datatype Call<T> = Call(sample: T, limit: nat)

  function PushAll<T>(list: seq<T>, calls: seq<Call<T>>): seq<T> {
    if calls == [] then list
    else
      var last := calls[|calls| - 1];
      Push(PushAll(list, calls[..|calls| - 1]), last.sample, last.limit)
  }

  function Samples<T>(calls: seq<Call<T>>): seq<T> {
    seq(|calls|, i requires 0 <= i < |calls| => calls[i].sample)
  }

  /** The last `n` of a sequence. */
  function Last<T>(s: seq<T>, n: nat): seq<T>
    requires n <= |s|
  {
    s[|s| - n..]
  }

  /** How long the list is after the calls. */
  ghost function Kept<T>(first: nat, calls: seq<Call<T>>): nat {
    if calls == [] then first
    else
      var before, limit := Kept(first, calls[..|calls| - 1]), calls[|calls| - 1].limit;
      if limit > 0 && before >= limit then limit else before + 1
  }

  lemma PushKeepsLast<T>(all: seq<T>, n: nat, x: T, limit: nat)
    requires n <= |all|
    ensures Push(Last(all, n), x, limit) == Last(all + [x], if limit > 0 && n >= limit then limit else n + 1)
  {
  }

  /** Whatever the limits were, the list holds the most recent of all samples ever given. */
  lemma {:induction false} KeepsTheMostRecent<T>(list: seq<T>, calls: seq<Call<T>>)
    ensures Kept(|list|, calls) <= |list| + |calls|
    ensures PushAll(list, calls) == Last(list + Samples(calls), Kept(|list|, calls))
  {
    if calls != [] {
      var init, last := calls[..|calls| - 1], calls[|calls| - 1];
      KeepsTheMostRecent(list, init);
      assert Samples(calls) == Samples(init) + [last.sample];
      PushKeepsLast(list + Samples(init), Kept(|list|, init), last.sample, last.limit);
      assert list + Samples(calls) == list + Samples(init) + [last.sample];
    } else {
      assert list + Samples(calls) == list;
    }
  }

  /** The length is the smallest that any one limit allows: each call adds one to what was kept, and a
  limit cuts it down once. */
  lemma {:induction false} KeptIsTightest<T>(first: nat, calls: seq<Call<T>>)
    ensures Kept(first, calls) <= first + |calls|
    ensures forall i :: 0 <= i < |calls| && calls[i].limit > 0
                        ==> Kept(first, calls) <= calls[i].limit + (|calls| - 1 - i)
    ensures Kept(first, calls) == first + |calls|
            || exists i :: 0 <= i < |calls| && calls[i].limit > 0
                           && Kept(first, calls) == calls[i].limit + (|calls| - 1 - i)
  {
    if calls != [] {
      var init := calls[..|calls| - 1];
      KeptIsTightest(first, init);
      if Kept(first, calls) != first + |calls| {
        if Kept(first, calls) == Kept(first, init) + 1 {
          var i :| 0 <= i < |init| && init[i].limit > 0 && Kept(first, init) == init[i].limit + (|init| - 1 - i);
          assert calls[i] == init[i];
        } else {
          assert calls[|calls| - 1].limit > 0;
        }
      }
      forall i | 0 <= i < |calls| && calls[i].limit > 0
        ensures Kept(first, calls) <= calls[i].limit + (|calls| - 1 - i)
      {
        if i < |init| {
          assert init[i] == calls[i];
        }
      }
    }
  }

  ghost predicate FixedLimit<T>(calls: seq<Call<T>>, n: nat) {
    forall i :: 0 <= i < |calls| ==> calls[i].limit == n
  }

  /** With one fixed limit the list, empty at first, is exactly the last samples up to that many. */
  lemma FixedWindow<T>(calls: seq<Call<T>>, n: nat)
    requires n > 0 && FixedLimit(calls, n)
    ensures PushAll([], calls) == Last(Samples(calls), if |calls| < n then |calls| else n)
  {
    KeepsTheMostRecent([], calls);
    KeptIsTightest(0, calls);
    assert [] + Samples(calls) == Samples(calls);
    if |calls| > 0 {
      assert calls[|calls| - 1].limit == n;
    }
  }
}
