/** Sums over the channels of a connection, which are kept in a map. */
module ChannelSums {
  ghost function Member(s: set<int>): (c: int)
    requires s != {}
    ensures c in s
  {
    assert (forall c :: c !in s) ==> s == {};
    var c :| c in s;
    c
  }

  ghost function SumOf(m: map<int, nat>): nat
    decreases |m|
  {
    if m.Keys == {} then 0 else
      var c := Member(m.Keys);
      m[c] + SumOf(m - {c})
  }

  lemma {:induction false} SumWithout(m: map<int, nat>, c: int)
    requires c in m
    ensures SumOf(m) == m[c] + SumOf(m - {c})
    decreases |m|
  {
    var d := Member(m.Keys);
    if c != d {
      SumWithout(m - {d}, c);
      SumWithout(m - {c}, d);
      assert m - {c} - {d} == m - {d} - {c};
    }
  }
}
