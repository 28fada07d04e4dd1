/** The tokenizer of include/strtok.h. */
module StringTokens {
  /** strchr also finds the terminating NUL of the list, so NUL always separates. */
  predicate IsWs(c: char, ws: string) {
    c == '\0' || c in ws
  }

  /** First position from `i` on that is not (or, with `in`, that is) a separator. */
  function SkipWs(s: string, ws: string, i: nat): (j: nat)
    requires i <= |s|
    ensures i <= j <= |s| && (j < |s| ==> !IsWs(s[j], ws))
    decreases |s| - i
  {
    if i < |s| && IsWs(s[i], ws) then SkipWs(s, ws, i + 1) else i
  }

  function SkipWord(s: string, ws: string, i: nat): (j: nat)
    requires i <= |s|
    ensures i <= j <= |s| && (j < |s| ==> IsWs(s[j], ws))
    decreases |s| - i
  {
    if i < |s| && !IsWs(s[i], ws) then SkipWord(s, ws, i + 1) else i
  }

  lemma {:induction false} SkippedWs(s: string, ws: string, i: nat)
    requires i <= |s|
    ensures forall k | i <= k < SkipWs(s, ws, i) :: IsWs(s[k], ws)
    decreases |s| - i
  {
    if i < |s| && IsWs(s[i], ws) {
      SkippedWs(s, ws, i + 1);
    }
  }

  lemma {:induction false} SkippedWord(s: string, ws: string, i: nat)
    requires i <= |s|
    ensures forall k | i <= k < SkipWord(s, ws, i) :: !IsWs(s[k], ws)
    decreases |s| - i
  {
    if i < |s| && !IsWs(s[i], ws) {
      SkippedWord(s, ws, i + 1);
    }
  }

  /** A non-empty run without separators that cannot be extended. */
  predicate MaximalRun(s: string, ws: string, i: int, j: int) {
    && 0 <= i < j <= |s|
    && (forall k | i <= k < j :: s[k] != '\0' && s[k] !in ws)
    && (i == 0 || s[i - 1] == '\0' || s[i - 1] in ws)
    && (j == |s| || s[j] == '\0' || s[j] in ws)
  }

  /** Start and end of every word from position `i` on. */
  function Spans(s: string, ws: string, i: nat): seq<(nat, nat)>
    requires i <= |s|
    decreases |s| - i
  {
    var a := SkipWs(s, ws, i);
    if a == |s| then []
    else
      var b := SkipWord(s, ws, a);
      [(a, b)] + Spans(s, ws, b)
  }

  function Tokens(s: string, ws: string, i: nat): seq<string>
    requires i <= |s|
    decreases |s| - i
  {
    var a := SkipWs(s, ws, i);
    if a == |s| then []
    else
      var b := SkipWord(s, ws, a);
      [s[a..b]] + Tokens(s, ws, b)
  }

  /** The loop of the code, which also steps over the separator behind a word. */
  method Stringtok(l: seq<string>, s: string, ws: string) returns (r: seq<string>)
    ensures r == l + Tokens(s, ws, 0)
  {
    hide IsWs;
    r := l;
    var i := 0;
    ghost var rest := Tokens(s, ws, 0);
    ghost var all := l + rest;
    while i < |s|
      invariant 0 <= i
      invariant i < |s| ==> rest == Tokens(s, ws, i)
      invariant i >= |s| ==> rest == []
      invariant all == r + rest
    {
      while i < |s| && IsWs(s[i], ws)
        invariant i <= |s| && rest == Tokens(s, ws, i)
      {
        NextSeparator(s, ws, i);
        i := i + 1;
      }
      if i == |s| {
        return;
      }
      ghost var later := NextWord(s, ws, i);
      var j := i + 1;
      while j < |s| && !IsWs(s[j], ws)
        invariant i < j <= |s| && SkipWord(s, ws, j) == SkipWord(s, ws, i)
      {
        j := j + 1;
      }
      assert r + ([s[i..j]] + later) == (r + [s[i..j]]) + later;
      r := r + [s[i..j]];
      rest := later;
      i := j + 1;
    }
  }

  lemma NextSeparator(s: string, ws: string, i: nat)
    requires i < |s| && IsWs(s[i], ws)
    ensures Tokens(s, ws, i) == Tokens(s, ws, i + 1)
  {
  }

  lemma NextWord(s: string, ws: string, i: nat) returns (later: seq<string>)
    requires i < |s| && !IsWs(s[i], ws)
    ensures var j := SkipWord(s, ws, i);
      && j == SkipWord(s, ws, i + 1)
      && Tokens(s, ws, i) == [s[i..j]] + later
      && (j + 1 < |s| ==> later == Tokens(s, ws, j + 1))
      && (j + 1 >= |s| ==> later == [])
  {
    var j := SkipWord(s, ws, i);
    later := Tokens(s, ws, j);
    if j < |s| {
      NextSeparator(s, ws, j);
    }
  }

  /** The words are cut out at the spans. */
  lemma {:induction false} TokensAreSpans(s: string, ws: string, i: nat)
    requires i <= |s|
    ensures |Tokens(s, ws, i)| == |Spans(s, ws, i)|
    ensures forall k | 0 <= k < |Spans(s, ws, i)| ::
              var (a, b) := Spans(s, ws, i)[k]; a < b <= |s| && Tokens(s, ws, i)[k] == s[a..b]
    decreases |s| - i
  {
    var a := SkipWs(s, ws, i);
    if a < |s| {
      TokensAreSpans(s, ws, SkipWord(s, ws, a));
    }
  }

  /** The spans are in order and apart. */
  lemma {:induction false} SpansAreOrdered(s: string, ws: string, i: nat)
    requires i <= |s|
    ensures forall k | 0 <= k < |Spans(s, ws, i)| :: i <= Spans(s, ws, i)[k].0
    ensures forall k, l | 0 <= k < l < |Spans(s, ws, i)| :: Spans(s, ws, i)[k].1 < Spans(s, ws, i)[l].0
    decreases |s| - i
  {
    var a := SkipWs(s, ws, i);
    if a < |s| {
      var b := SkipWord(s, ws, a);
      SpansAreOrdered(s, ws, b);
      var rest := Spans(s, ws, b);
      assert b < |s| ==> IsWs(s[b], ws);
      forall k | 0 <= k < |rest| ensures b < rest[k].0 {
        SpanIsRun(s, ws, b, rest[k]);
      }
    }
  }

  lemma {:induction false} SpanIsRun(s: string, ws: string, i: nat, p: (nat, nat))
    requires i <= |s| && (i == 0 || i == |s| || IsWs(s[i], ws))
    requires p in Spans(s, ws, i)
    ensures i <= p.0 && MaximalRun(s, ws, p.0, p.1)
    decreases |s| - i
  {
    var a := SkipWs(s, ws, i);
    var b := SkipWord(s, ws, a);
    if p != (a, b) {
      SpanIsRun(s, ws, b, p);
    } else {
      SkippedWs(s, ws, i);
      SkippedWord(s, ws, a);
    }
  }

  lemma {:induction false} RunIsSpan(s: string, ws: string, i: nat, p: (nat, nat))
    requires i <= p.0 && MaximalRun(s, ws, p.0, p.1)
    ensures p in Spans(s, ws, i)
    decreases |s| - i
  {
    var a := SkipWs(s, ws, i);
    SkippedWs(s, ws, i);
    assert !IsWs(s[p.0], ws);
    var b := SkipWord(s, ws, a);
    SkippedWord(s, ws, a);
    if b <= p.0 {
      RunIsSpan(s, ws, b, p);
    }
  }

  /** The tokenizer finds the maximal runs: all of them and nothing else. */
  lemma SpansAreMaximalRuns(s: string, ws: string, i: nat, j: nat)
    ensures (i, j) in Spans(s, ws, 0) <==> MaximalRun(s, ws, i, j)
  {
    if (i, j) in Spans(s, ws, 0) {
      SpanIsRun(s, ws, 0, (i, j));
    }
    if MaximalRun(s, ws, i, j) {
      RunIsSpan(s, ws, 0, (i, j));
    }
  }

  /* ---- Round trip ---- */

  function Concat(words: seq<string>): string {
    if words == [] then "" else words[0] + Concat(words[1..])
  }

  function WithoutWs(s: string, ws: string): string {
    if s == "" then "" else (if IsWs(s[0], ws) then "" else [s[0]]) + WithoutWs(s[1..], ws)
  }

  lemma {:induction false} DropWs(s: string, ws: string, i: nat)
    requires i <= |s|
    ensures WithoutWs(s[i..], ws) == WithoutWs(s[SkipWs(s, ws, i)..], ws)
    decreases |s| - i
  {
    if i < |s| && IsWs(s[i], ws) {
      assert s[i..][1..] == s[i + 1..];
      DropWs(s, ws, i + 1);
    }
  }

  lemma {:induction false} KeepWord(s: string, ws: string, i: nat)
    requires i <= |s|
    ensures var j := SkipWord(s, ws, i); WithoutWs(s[i..], ws) == s[i..j] + WithoutWs(s[j..], ws)
    decreases |s| - i
  {
    var j := SkipWord(s, ws, i);
    if i < |s| && !IsWs(s[i], ws) {
      assert s[i..][1..] == s[i + 1..];
      KeepWord(s, ws, i + 1);
      assert s[i..j] == [s[i]] + s[i + 1..j];
    } else {
      assert s[i..j] == "";
    }
  }

  /** Tokenizing loses the separators and nothing else. */
  lemma {:induction false} TokensKeepTheRest(s: string, ws: string, i: nat)
    requires i <= |s|
    ensures Concat(Tokens(s, ws, i)) == WithoutWs(s[i..], ws)
    decreases |s| - i
  {
    var a := SkipWs(s, ws, i);
    DropWs(s, ws, i);
    if a < |s| {
      var b := SkipWord(s, ws, a);
      KeepWord(s, ws, a);
      TokensKeepTheRest(s, ws, b);
      assert Tokens(s, ws, i) == [s[a..b]] + Tokens(s, ws, b);
    } else {
      assert s[a..] == "";
    }
  }

  /** The words with separators before, between and behind them. */
  function Join(seps: seq<string>, words: seq<string>): string
    requires |seps| == |words| + 1
    decreases |words|
  {
    if words == [] then seps[0] else seps[0] + words[0] + Join(seps[1..], words[1..])
  }

  predicate AllWs(s: string, ws: string) {
    forall k | 0 <= k < |s| :: IsWs(s[k], ws)
  }

  predicate NoWs(s: string, ws: string) {
    forall k | 0 <= k < |s| :: !IsWs(s[k], ws)
  }

  lemma {:induction false} ShiftWs(pre: string, s: string, ws: string, i: nat)
    requires i <= |s|
    ensures SkipWs(pre + s, ws, |pre| + i) == |pre| + SkipWs(s, ws, i)
    decreases |s| - i
  {
    if i < |s| {
      ShiftWs(pre, s, ws, i + 1);
    }
  }

  lemma {:induction false} ShiftWord(pre: string, s: string, ws: string, i: nat)
    requires i <= |s|
    ensures SkipWord(pre + s, ws, |pre| + i) == |pre| + SkipWord(s, ws, i)
    decreases |s| - i
  {
    if i < |s| {
      ShiftWord(pre, s, ws, i + 1);
    }
  }

  lemma SameSlice(pre: string, s: string, a: nat, b: nat)
    requires a <= b <= |s|
    ensures (pre + s)[|pre| + a..|pre| + b] == s[a..b]
  {
  }

  lemma {:induction false} Shift(pre: string, s: string, ws: string, i: nat)
    requires i <= |s|
    ensures Tokens(pre + s, ws, |pre| + i) == Tokens(s, ws, i)
    decreases |s| - i
  {
    var a := SkipWs(s, ws, i);
    ShiftWs(pre, s, ws, i);
    if a < |s| {
      var b := SkipWord(s, ws, a);
      ShiftWord(pre, s, ws, a);
      SameSlice(pre, s, a, b);
      hide SkipWs, SkipWord;
      Shift(pre, s, ws, b);
    }
  }

  lemma {:induction false} LeadingWs(sep: string, s: string, ws: string)
    requires AllWs(sep, ws)
    ensures Tokens(sep + s, ws, 0) == Tokens(s, ws, 0)
  {
    if sep == "" {
      assert sep + s == s;
    } else {
      var t := sep[1..] + s;
      assert [sep[0]] + t == sep + s;
      LeadingWs(sep[1..], s, ws);
      NextSeparator(sep + s, ws, 0);
      Shift([sep[0]], t, ws, 0);
    }
  }

  lemma {:induction false} WordEnd(word: string, s: string, ws: string, i: nat)
    requires NoWs(word, ws) && (s != "" ==> IsWs(s[0], ws)) && i <= |word|
    ensures SkipWord(word + s, ws, i) == |word|
    decreases |word| - i
  {
    if i < |word| {
      WordEnd(word, s, ws, i + 1);
    }
  }

  lemma LeadingWord(word: string, s: string, ws: string)
    requires word != "" && NoWs(word, ws) && (s != "" ==> IsWs(s[0], ws))
    ensures Tokens(word + s, ws, 0) == [word] + Tokens(s, ws, 0)
  {
    WordEnd(word, s, ws, 0);
    Shift(word, s, ws, 0);
    assert (word + s)[0..|word|] == word;
  }

  lemma JoinStart(seps: seq<string>, words: seq<string>, ws: string)
    requires |seps| == |words| + 1 && AllWs(seps[0], ws) && (words != [] ==> seps[0] != "")
    ensures var s := Join(seps, words); s != "" ==> IsWs(s[0], ws)
  {
    if seps[0] != "" {
      assert Join(seps, words)[0] == seps[0][0];
    }
  }

  /** Tokenizing a joined list gives the list back: for words without separators, at least one
      separator between two of them, and any number in front and behind. */
  lemma {:induction false} JoinRoundTrip(seps: seq<string>, words: seq<string>, ws: string)
    requires |seps| == |words| + 1
    requires forall k | 0 <= k < |words| :: words[k] != "" && NoWs(words[k], ws)
    requires forall k | 0 <= k < |seps| :: AllWs(seps[k], ws)
    requires forall k | 0 < k < |words| :: seps[k] != ""
    ensures Tokens(Join(seps, words), ws, 0) == words
    decreases |words|
  {
    if words == [] {
      LeadingWs(seps[0], "", ws);
      assert seps[0] + "" == seps[0];
    } else {
      var rest := Join(seps[1..], words[1..]);
      JoinRoundTrip(seps[1..], words[1..], ws);
      JoinStart(seps[1..], words[1..], ws);
      LeadingWord(words[0], rest, ws);
      LeadingWs(seps[0], words[0] + rest, ws);
      assert seps[0] + words[0] + rest == seps[0] + (words[0] + rest);
    }
  }
}
