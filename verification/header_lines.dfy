/** The line that announces a chunk: how `sendBinaryData` writes it, and how `processLine` and the
`paramNext` functions of lib/rts2/connection.cpp read it. */
module HeaderLines {
  import opened Options
  import opened DataChannels
  import opened DataStream

  const COMMAND: byte := 68
  const BLANK: byte := 32
  const COMMA: byte := 44
  const QUOTE: byte := 34
  const MINUS: byte := 45
  const PLUS: byte := 43

  predicate IsDigit(b: byte) {
    48 <= b <= 57
  }

  /* ---- Writing ---- */

  function Decimal(n: nat): (d: seq<byte>)
    ensures d != [] && forall i :: 0 <= i < |d| ==> IsDigit(d[i])
  {
    var last := (48 + n % 10) as byte;
    if n < 10 then [last] else Decimal(n / 10) + [last]
  }

  /** The header of a chunk of transfer `conn`. */
  function Text(conn: nat, c: nat, n: nat): seq<byte> {
    [COMMAND, BLANK] + Decimal(conn) + [BLANK] + Decimal(c) + [BLANK] + Decimal(n)
  }

  /* ---- Reading ---- */

  function DropSpaces(s: seq<byte>): (r: seq<byte>)
    ensures |r| <= |s|
  {
    if s != [] && IsSpace(s[0]) then DropSpaces(s[1..]) else s
  }

  /** What ends a word: white space, or a comma if there may be one; a quoted word ends at its quote. */
  predicate Ends(b: byte, comma: bool, quoted: bool) {
    if quoted then b == QUOTE else IsSpace(b) || (comma && b == COMMA)
  }

  function WordEnd(s: seq<byte>, comma: bool, quoted: bool): (k: nat)
    ensures k <= |s|
  {
    if s == [] || Ends(s[0], comma, quoted) then 0 else 1 + WordEnd(s[1..], comma, quoted)
  }

  /** A word and what follows the character that ends it. */
  function Split(s: seq<byte>, comma: bool, quoted: bool): (seq<byte>, seq<byte>) {
    var k := WordEnd(s, comma, quoted);
    (s[..k], if k < |s| then s[k + 1..] else [])
  }

  function NextWord(s: seq<byte>, comma: bool): Option<(seq<byte>, seq<byte>)> {
    var t := DropSpaces(s);
    if t == [] then None
    else if t[0] == QUOTE then Some(Split(t[1..], comma, true))
    else Some(Split(t, comma, false))
  }

  function Value(digits: seq<byte>): nat
    requires forall i :: 0 <= i < |digits| ==> IsDigit(digits[i])
  {
    if digits == [] then 0
    else
      var last := digits[|digits| - 1];
      assert IsDigit(last);
      10 * Value(digits[..|digits| - 1]) + (last as int - 48)
  }

  predicate AllDigits(s: seq<byte>) {
    forall i :: 0 <= i < |s| ==> IsDigit(s[i])
  }

  /** strtol on a word that has to be a number to its end; the empty word is 0. */
  function Number(word: seq<byte>): Option<int> {
    var t := DropSpaces(word);
    var signed := t != [] && (t[0] == MINUS || t[0] == PLUS);
    var digits := if signed then t[1..] else t;
    if word == [] then Some(0)
    else if digits == [] || !AllDigits(digits) then None
    else Some(if signed && t[0] == MINUS then 0 - Value(digits) else Value(digits))
  }

  function NextNumber(s: seq<byte>, comma: bool): Option<(int, seq<byte>)> {
    match NextWord(s, comma)
    case None => None
    case Some((word, rest)) =>
      match Number(word)
      case None => None
      case Some(n) => Some((n, rest))
  }

  /** The parameters of a header of transfer `conn`. */
  function Parameters(conn: nat, s: seq<byte>): Option<(nat, int)> {
    match NextNumber(s, true)
    case None => None
    case Some((d, behind)) =>
      match NextNumber(behind, true)
      case None => None
      case Some((c, last)) =>
        match NextNumber(last, false)
        case None => None
        case Some((n, end)) => if d == conn && c >= 0 && DropSpaces(end) == [] then Some((c, n)) else None
  }

  /** The chunk that a line announces to transfer `conn`, if it is such a line. */
  function Announced(conn: nat, line: seq<byte>): Option<(nat, int)> {
    var (command, rest) := Split(line, false, false);
    if command == [COMMAND] then Parameters(conn, rest) else None
  }

  /* ---- Reading what was written ---- */

  lemma {:induction false} ValueOfDecimal(n: nat)
    ensures AllDigits(Decimal(n)) && Value(Decimal(n)) == n
  {
    if n >= 10 {
      ValueOfDecimal(n / 10);
      assert Decimal(n)[..|Decimal(n)| - 1] == Decimal(n / 10);
    }
  }

  /** Nothing in front of `rest` ends the word. */
  lemma {:induction false} WholeWord(word: seq<byte>, rest: seq<byte>, comma: bool, quoted: bool)
    requires AllDigits(word) && (rest != [] ==> Ends(rest[0], comma, quoted))
    ensures WordEnd(word + rest, comma, quoted) == |word|
  {
    if word != [] {
      assert IsDigit(word[0]) && (word + rest)[1..] == word[1..] + rest;
      WholeWord(word[1..], rest, comma, quoted);
    } else {
      assert word + rest == rest;
    }
  }

  lemma NumberIsRead(n: nat, rest: seq<byte>, comma: bool)
    requires rest != [] ==> rest[0] == BLANK
    ensures NextNumber(Decimal(n) + rest, comma) == Some((n, if rest == [] then [] else rest[1..]))
  {
    var word := Decimal(n);
    ValueOfDecimal(n);
    WholeWord(word, rest, comma, false);
    var s := word + rest;
    assert IsDigit(s[0]) && IsDigit(word[0]) && DropSpaces(s) == s && DropSpaces(word) == word;
    assert s[..|word|] == word && (rest != [] ==> s[|word| + 1..] == rest[1..]);
    assert NextWord(s, comma) == Some((word, if rest == [] then [] else rest[1..]));
    assert Number(word) == Some(n);
  }

  lemma NumberOfDecimal(n: nat)
    ensures Number(Decimal(n)) == Some(n)
  {
    ValueOfDecimal(n);
    assert IsDigit(Decimal(n)[0]) && DropSpaces(Decimal(n)) == Decimal(n);
  }

  /** A number and the character that ends it are cut off. */
  lemma NumberIsCut(n: nat, stop: byte, rest: seq<byte>, comma: bool, quoted: bool)
    requires Ends(stop, comma, quoted)
    ensures Split(Decimal(n) + ([stop] + rest), comma, quoted) == (Decimal(n), rest)
  {
    var word, s := Decimal(n), Decimal(n) + ([stop] + rest);
    WholeWord(word, [stop] + rest, comma, quoted);
    assert s[..|word|] == word && s[|word| + 1..] == rest;
  }

  /** A comma may end a number in the place of the blank, where commas are allowed. */
  lemma CommaIsRead(n: nat, rest: seq<byte>)
    ensures NextNumber(Decimal(n) + ([44] + rest), true) == Some((n, rest))
  {
    var s := Decimal(n) + ([44] + rest);
    assert IsDigit(Decimal(n)[0]) && s[0] == Decimal(n)[0] && DropSpaces(s) == s;
    NumberIsCut(n, 44, rest, true, false);
    NumberOfDecimal(n);
    hide Decimal, Number, Split, DropSpaces;
  }

  /** A number may stand in quotes. */
  lemma QuotedIsRead(n: nat, rest: seq<byte>, comma: bool)
    ensures NextNumber([34] + (Decimal(n) + ([34] + rest)), comma) == Some((n, rest))
  {
    hide Decimal, Number, Split, WordEnd, Value, AllDigits;
    var t := Decimal(n) + ([34] + rest);
    var s := [34] + t;
    assert s[0] == QUOTE && s[1..] == t;
    NumberIsCut(n, 34, rest, comma, true);
    NumberOfDecimal(n);
    assert DropSpaces(s) == s;
    hide DropSpaces;
  }

  /** A number may have a sign; where there is nothing it is 0. */
  lemma SignIsRead(n: nat)
    ensures Number([45] + Decimal(n)) == Some(0 - n) && Number([43] + Decimal(n)) == Some(n) && Number([]) == Some(0)
  {
    ValueOfDecimal(n);
    assert ([45] + Decimal(n))[1..] == Decimal(n) == ([43] + Decimal(n))[1..];
  }

  lemma ParametersAreRead(conn: nat, c: nat, n: nat)
    ensures Parameters(conn, Decimal(conn) + ([BLANK] + (Decimal(c) + ([BLANK] + Decimal(n))))) == Some((c, n))
  {
    hide NextNumber, Decimal;
    var last := Decimal(n);
    var behind := Decimal(c) + ([BLANK] + last);
    assert ([BLANK] + behind)[1..] == behind && ([BLANK] + last)[1..] == last && last + [] == last;
    NumberIsRead(conn, [BLANK] + behind, true);
    NumberIsRead(c, [BLANK] + last, true);
    NumberIsRead(n, [], false);
  }

  lemma CommandIsCut(rest: seq<byte>)
    ensures Split([COMMAND] + ([BLANK] + rest), false, false) == ([COMMAND], rest)
  {
    var line := [COMMAND] + ([BLANK] + rest);
    assert line[1..][0] == BLANK && WordEnd(line[1..], false, false) == 0;
    assert WordEnd(line, false, false) == 1;
    assert line[..1] == [COMMAND] && line[2..] == rest;
  }

  /** What is written is read back, for every transfer, channel and size. */
  lemma TextIsRead(conn: nat, c: nat, n: nat)
    ensures Announced(conn, Text(conn, c, n)) == Some((c, n))
  {
    hide Parameters, Split, Decimal;
    var rest := Decimal(conn) + ([BLANK] + (Decimal(c) + ([BLANK] + Decimal(n))));
    assert Text(conn, c, n) == [COMMAND] + ([BLANK] + rest);
    CommandIsCut(rest);
    ParametersAreRead(conn, c, n);
  }

  /** The letter, the transfer, the channel and the size, in that order, in decimal. */
  lemma HeaderOfTwelve()
    ensures Text(3, 1, 1207) == [68, 32, 51, 32, 49, 32, 49, 50, 48, 55]
    ensures Announced(3, [68, 32, 51, 32, 49, 32, 49, 50, 48, 55]) == Some((1, 1207))
  {
    hide Decimal, Announced;
    NextDigit(0, 3);
    NextDigit(0, 1);
    NextDigit(1, 2);
    NextDigit(12, 0);
    NextDigit(120, 7);
    assert Decimal(3) == [51] && Decimal(1) == [49] && Decimal(1207) == [49, 50, 48, 55];
    TextIsRead(3, 1, 1207);
  }

  lemma NextDigit(n: nat, digit: nat)
    requires digit < 10
    ensures Decimal(10 * n + digit) == (if n == 0 then [] else Decimal(n)) + [(48 + digit) as byte]
  {
  }

  lemma TextIsLine(conn: nat, c: nat, n: nat)
    ensures var line := Text(conn, c, n); line != [] && Partial(line) && line[|line| - 1] != RETURN
  {
    var line := Text(conn, c, n);
    assert line[|line| - 1] == Decimal(n)[|Decimal(n)| - 1];
    forall i | 0 <= i < |line| ensures line[i] == COMMAND || line[i] == BLANK || IsDigit(line[i]) {
    }
    assert line[0] == COMMAND;
  }

  /** So the two are a printer and a parser of headers. */
  lemma HeadersAreRead(conn: nat)
    ensures Prints((c: nat, n: nat) => Text(conn, c, n), line => Announced(conn, line))
  {
    forall c: nat, n: nat
      ensures var line := Text(conn, c, n);
              line != [] && Partial(line) && line[|line| - 1] != RETURN && Announced(conn, line) == Some((c, n))
    {
      TextIsRead(conn, c, n);
      TextIsLine(conn, c, n);
    }
  }
}
