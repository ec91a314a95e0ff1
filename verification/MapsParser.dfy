/** The parser of /proc/<pid>/maps.  It works in place on one buffer: it finds
    the start of a line by going back from its end, and ends the name with a
    NUL for as long as the name is in use. */
module MapsParser {
  import opened Common
  import opened Pagemap
  import Hex

  // ------------------------------------------------------------- the format

  /** One line: the two bounds in hex, four fields each followed by a space,
      any number of further spaces, and the name. */
  datatype MapsLine = MapsLine(low: string, high: string, fields: seq<string>, pad: nat, name: string)

  /** What keeps the parts of a line apart. */
  predicate Shaped(l: MapsLine) {
    && Hex.IsNumeral(l.low, 'a') && Hex.IsNumeral(l.high, 'a')
    && |l.fields| == 4
    && (forall f | 0 <= f < 4 :: ' ' !in l.fields[f] && '\n' !in l.fields[f])
    && '\n' !in l.name && '\0' !in l.name
    && (l.name != "" ==> l.name[0] != ' ')
  }

  /** A line the parser reads: a bound may even be empty, which counts as zero. */
  predicate WellFormed(l: MapsLine) {
    && Shaped(l) && |l.low| <= 16 && |l.high| <= 16
    && NoWrap(Hex.Value(l.low, 'a'), Hex.Value(l.high, 'a'))
  }

  function Spaces(n: nat): string {
    if n == 0 then "" else " " + Spaces(n - 1)
  }

  function Words(fields: seq<string>, rest: string): string {
    if fields == [] then rest else fields[0] + (" " + Words(fields[1..], rest))
  }

  function NameText(l: MapsLine): string { l.name + "\n" }

  function PadText(l: MapsLine): string { Spaces(l.pad) + NameText(l) }

  function FieldsText(l: MapsLine): string { " " + Words(l.fields, PadText(l)) }

  function HighText(l: MapsLine): string { l.high + FieldsText(l) }

  function Text(l: MapsLine): string { l.low + ("-" + HighText(l)) }

  function TextOf(ls: seq<MapsLine>): string {
    if ls == [] then "" else TextOf(ls[..|ls| - 1]) + Text(ls[|ls| - 1])
  }

  // ------------------------------------------------------ steps of the parser

  /** Goes back from the newline at `i` to the start `b` of its line. */
  method LineStart(buffer: array<char>, i: nat, ghost b: nat) returns (x: nat)
    requires b < i < buffer.Length
    requires forall t | b <= t < i :: buffer[t] != '\n'
    requires b == 0 || buffer[b - 1] == '\n'
    ensures x == b
  {
    x := i - 1;
    while x != 0 && buffer[x] != '\n'
      invariant b - 1 <= x < i
      decreases x
    {
      x := x - 1;
    }
    if buffer[x] == '\n' {
      x := x + 1;
    }
  }

  /** Accumulates hex digits up to `stop` in 64-bit arithmetic. */
  method ParseHex(buffer: array<char>, x0: nat, stop: char, ghost digits: string, ghost rest: string, ghost e: nat)
    returns (v: int, x: nat)
    requires x0 <= e <= buffer.Length && buffer[x0..e] == digits + ([stop] + rest)
    requires Hex.IsNumeral(digits, 'a') && |digits| <= 16 && !Hex.IsDigit(stop, 'a') && rest != ""
    ensures v == Hex.Value(digits, 'a') && IsWord(v)
    ensures x == x0 + |digits| && buffer[x..e] == [stop] + rest
  {
    v, x := 0, x0;
    ghost var j := 0;
    Pieces(buffer[..], x0, e, digits, [stop] + rest);
    assert forall t | x0 <= t < x0 + |digits| :: buffer[t] == digits[t - x0] && Hex.IsDigit(buffer[t], 'a');
    while buffer[x] != stop && x + 1 < buffer.Length
      invariant 0 <= j <= |digits| && x == x0 + j
      invariant v == Hex.Value(digits[..j], 'a')
      decreases buffer.Length - x
    {
      OneMoreDigit(digits, j);
      var c := buffer[x];
      x := x + 1;
      v := v * 16 % WORD;
      if '0' <= c <= '9' {
        v := (v + (c as int - '0' as int)) % WORD;
      } else if 'a' <= c <= 'f' {
        v := (v + (c as int - 'a' as int + 10)) % WORD;
      } else {
        break;
      }
      j := j + 1;
    }
    assert digits[..|digits|] == digits;
    NoOverflow(digits);
  }

  /** Two texts one after the other in a buffer. */
  lemma Pieces(s: seq<char>, x: nat, e: nat, a: string, b: string)
    requires x <= e <= |s| && s[x..e] == a + b
    ensures e == x + |a| + |b| && s[x + |a|..e] == b
    ensures forall t | 0 <= t < |a| :: s[x + t] == a[t]
    ensures b != "" ==> s[x + |a|] == b[0]
  {
    assert forall t | 0 <= t < e - x :: s[x + t] == (a + b)[t];
  }

  lemma NoOverflow(digits: string)
    requires Hex.IsNumeral(digits, 'a') && |digits| <= 16
    ensures IsWord(Hex.Value(digits, 'a'))
  {
    Hex.Pow16Word();
    Hex.ValueBound(digits, 'a');
    Hex.Pow16Monotonic(|digits|, 16);
  }

  /** Up to sixteen digits, neither the shift nor the sum wraps. */
  lemma OneMoreDigit(digits: string, j: nat)
    requires Hex.IsNumeral(digits, 'a') && |digits| <= 16 && j < |digits|
    ensures (Hex.Value(digits[..j], 'a') * 16 % WORD + Hex.DigitValue(digits[j], 'a')) % WORD
            == Hex.Value(digits[..j + 1], 'a')
  {
    assert digits[..j + 1][..j] == digits[..j];
    NoOverflow(digits[..j + 1]);
    NoOverflow(digits[..j]);
    assert Hex.IsDigit(digits[j], 'a');
  }

  /** Advances to the next `c`, or to the last cell of the buffer. */
  method SkipTo(buffer: array<char>, x0: nat, c: char) returns (x: nat)
    requires x0 < buffer.Length
    ensures x0 <= x < buffer.Length && forall t | x0 <= t < x :: buffer[t] != c
    ensures buffer[x] == c || x + 1 == buffer.Length
  {
    x := x0;
    while buffer[x] != c && x + 1 < buffer.Length
      invariant x0 <= x < buffer.Length && forall t | x0 <= t < x :: buffer[t] != c
      decreases buffer.Length - x
    {
      x := x + 1;
    }
  }

  /** Skips one space and the field behind it. */
  method SkipField(buffer: array<char>, x0: nat, ghost word: string, ghost rest: string, ghost e: nat)
    returns (x: nat)
    requires x0 <= e <= buffer.Length && buffer[x0..e] == " " + (word + (" " + rest))
    requires ' ' !in word && rest != ""
    ensures x <= e && buffer[x..e] == " " + rest
  {
    x := SkipTo(buffer, x0 + 1, ' ');
    ghost var stop := x0 + 1 + |word|;
    assert forall t | x0 <= t < e :: buffer[t] == buffer[x0..e][t - x0];
    assert buffer[stop] == ' ';
    assert x == stop;
    assert buffer[x..e] == buffer[x0..e][1 + |word|..];
  }

  method SkipFields(buffer: array<char>, x0: nat, ghost fields: seq<string>, ghost rest: string, ghost e: nat)
    returns (x: nat)
    requires |fields| == 4 && forall f | 0 <= f < 4 :: ' ' !in fields[f]
    requires x0 <= e <= buffer.Length && buffer[x0..e] == " " + Words(fields, rest) && rest != ""
    ensures x <= e && buffer[x..e] == " " + rest
  {
    x := x0;
    for field := 0 to 4
      invariant x <= e && buffer[x..e] == " " + Words(fields[field..], rest)
    {
      WordsNonEmpty(fields[field + 1..], rest);
      assert fields[field..][0] == fields[field] && fields[field..][1..] == fields[field + 1..];
      x := SkipField(buffer, x, fields[field], Words(fields[field + 1..], rest), e);
    }
  }

  lemma WordsNonEmpty(fields: seq<string>, rest: string)
    requires rest != ""
    ensures Words(fields, rest) != ""
  {
  }

  method SkipSpaces(buffer: array<char>, x0: nat, ghost pad: nat, ghost rest: string, ghost e: nat)
    returns (x: nat)
    requires x0 <= e <= buffer.Length && buffer[x0..e] == " " + (Spaces(pad) + rest)
    requires rest != "" && rest[0] != ' '
    ensures x <= e && buffer[x..e] == rest
  {
    x := x0;
    assert buffer[x..e] == Spaces(pad + 1) + rest;
    ghost var n := pad + 1;
    while buffer[x] == ' ' && x + 1 < buffer.Length
      invariant n >= 0 && x < e && buffer[x..e] == Spaces(n) + rest
      decreases e - x
    {
      FirstChar(n, rest);
      assert buffer[x] == buffer[x..e][0];
      SpacesRest(n, rest);
      assert buffer[x + 1..e] == buffer[x..e][1..];
      n := n - 1;
      x := x + 1;
    }
    FirstChar(n, rest);
    assert buffer[x] == buffer[x..e][0];
  }

  lemma FirstChar(n: nat, rest: string)
    requires rest != "" && rest[0] != ' '
    ensures (Spaces(n) + rest)[0] == ' ' <==> n > 0
    ensures n == 0 ==> Spaces(n) + rest == rest
  {
  }

  lemma SpacesRest(n: nat, rest: string)
    requires n > 0 && rest != ""
    ensures (Spaces(n) + rest)[1..] == Spaces(n - 1) + rest && Spaces(n - 1) + rest != ""
  {
  }

  method LineEnd(buffer: array<char>, x: nat, ghost name: string, ghost e: nat) returns (y: nat)
    requires x < e <= buffer.Length && buffer[x..e] == name + "\n" && '\n' !in name
    ensures y == x + |name| == e - 1
  {
    y := SkipTo(buffer, x, '\n');
    assert forall t | x <= t < e :: buffer[t] == buffer[x..e][t - x];
    assert buffer[x + |name|] == '\n';
  }

  /** The C string that begins at `x`. */
  function CString(s: seq<char>, x: nat): string
    requires x <= |s|
    decreases |s| - x
  {
    if x == |s| || s[x] == '\0' then "" else [s[x]] + CString(s, x + 1)
  }

  lemma {:induction false} CStringIs(s: seq<char>, x: nat, name: string)
    requires x + |name| < |s| && s[x..x + |name|] == name && s[x + |name|] == '\0' && '\0' !in name
    ensures CString(s, x) == name
    decreases |name|
  {
    if name != "" {
      assert s[x] == name[0];
      CStringIs(s, x + 1, name[1..]);
    }
  }

  // ------------------------------------------------------- one whole line

  datatype Report = Report(low: int, high: int, name: string)

  /** What a line says. */
  function ReportOf(l: MapsLine): Report {
    Report(Hex.Value(l.low, 'a'), Hex.Value(l.high, 'a'), l.name)
  }

  /** What is done for a line once it is read. */
  datatype Outcome = Outcome(reports: seq<Report>, requests: seq<int>, lines: seq<PageLine>) {
    function Plus(o: Outcome): Outcome {
      Outcome(reports + o.reports, requests + o.requests, lines + o.lines)
    }
  }

  function LineOutcome(l: MapsLine, pread: Pread): Outcome {
    var r := ReportOf(l);
    Outcome([r], Requests(r.low, r.high, pread), Lines(r.low, r.high, r.name, pread))
  }

  /** A text fills the buffer from `b` to `e`, at the start of a line. */
  ghost predicate TextAt(buffer: seq<char>, b: nat, e: nat, text: string) {
    && b <= e <= |buffer| && buffer[b..e] == text
    && (b == 0 || buffer[b - 1] == '\n')
  }

  ghost predicate LineAt(buffer: seq<char>, b: nat, e: nat, l: MapsLine) {
    TextAt(buffer, b, e, Text(l))
  }

  lemma TextAtLonger(s: seq<char>, length: nat, b: nat, e: nat, text: string)
    requires length <= |s| && TextAt(s[..length], b, e, text)
    ensures TextAt(s, b, e, text)
  {
    assert s[b..e] == s[..length][b..e];
    assert b > 0 ==> s[b - 1] == s[..length][b - 1];
  }

  lemma TextAtEnd(s: seq<char>, b: nat, text: string)
    requires b <= |s| && s[b..] == text && (b == 0 || s[b - 1] == '\n')
    ensures TextAt(s, b, |s|, text)
  {
  }

  /** A line has one newline, its last character, and does not begin with it. */
  lemma OneNewline(l: MapsLine)
    requires WellFormed(l)
    ensures |Text(l)| >= 2 && Text(l)[|Text(l)| - 1] == '\n'
    ensures forall t | 0 <= t < |Text(l)| - 1 :: Text(l)[t] != '\n'
  {
    SpacesOnly(l.pad);
    NoNewline(l.fields, Spaces(l.pad) + l.name);
    WordsAppend(l.fields, Spaces(l.pad) + l.name, "\n");
    assert PadText(l) == (Spaces(l.pad) + l.name) + "\n";
    var front := l.low + ("-" + (l.high + (" " + Words(l.fields, Spaces(l.pad) + l.name))));
    assert Text(l) == front + "\n";
    assert '\n' !in front;
  }

  lemma {:induction false} SpacesOnly(n: nat)
    ensures '\n' !in Spaces(n)
  {
    if n > 0 {
      SpacesOnly(n - 1);
    }
  }

  lemma {:induction false} NoNewline(fields: seq<string>, rest: string)
    requires (forall f | 0 <= f < |fields| :: '\n' !in fields[f]) && '\n' !in rest
    ensures '\n' !in Words(fields, rest)
  {
    if fields != [] {
      NoNewline(fields[1..], rest);
    }
  }

  lemma {:induction false} WordsAppend(fields: seq<string>, rest: string, more: string)
    ensures Words(fields, rest + more) == Words(fields, rest) + more
  {
    if fields != [] {
      WordsAppend(fields[1..], rest, more);
    }
  }

  /** Reads `low`, the dash, and `high`. */
  method ParseBounds(buffer: array<char>, b: nat, ghost l: MapsLine, ghost e: nat)
    returns (low: int, high: int, x: nat)
    requires WellFormed(l) && b <= e <= buffer.Length && buffer[b..e] == Text(l)
    ensures low == ReportOf(l).low && high == ReportOf(l).high && IsWord(low) && IsWord(high)
    ensures x <= e && buffer[x..e] == FieldsText(l)
  {
    low, x := ParseHex(buffer, b, '-', l.low, HighText(l), e);
    assert buffer[x] == buffer[x..e][0];
    x := SkipTo(buffer, x, '-');
    if buffer[x] == '-' {
      assert buffer[x + 1..e] == buffer[x..e][1..];
      x := x + 1;
    }
    assert FieldsText(l) == [' '] + Words(l.fields, PadText(l));
    WordsNonEmpty(l.fields, PadText(l));
    high, x := ParseHex(buffer, x, ' ', l.high, Words(l.fields, PadText(l)), e);
  }

  /** Reads the bounds and finds the name of the line. */
  method ParseLine(buffer: array<char>, i: nat, ghost b: nat, ghost l: MapsLine)
    returns (low: int, high: int, x: nat)
    requires i < buffer.Length && WellFormed(l) && LineAt(buffer[..], b, i + 1, l)
    ensures low == ReportOf(l).low && high == ReportOf(l).high && IsWord(low) && IsWord(high)
    ensures x <= i && buffer[x..i + 1] == NameText(l)
  {
    ghost var e := i + 1;
    OneNewline(l);
    assert buffer[b..e] == Text(l);
    assert forall t | b <= t < i :: buffer[t] == buffer[b..e][t - b];
    x := LineStart(buffer, i, b);
    low, high, x := ParseBounds(buffer, x, l, e);
    x := SkipFields(buffer, x, l.fields, PadText(l), e);
    x := SkipSpaces(buffer, x, l.pad, NameText(l), e);
  }

  /** Handles the line that ends at `i`.  The buffer is as before afterwards,
      which the search for the next line start relies on. */
  method ReportLine(buffer: array<char>, i: nat, pread: Pread, ghost b: nat, ghost l: MapsLine)
    returns (o: Outcome)
    requires i < buffer.Length && WellFormed(l) && LineAt(buffer[..], b, i + 1, l)
    modifies buffer
    ensures buffer[..] == old(buffer[..])
    ensures o == LineOutcome(l, pread)
    ensures o.reports == [ReportOf(l)]
    ensures RangeDone(ReportOf(l).low, ReportOf(l).high, l.name, pread, o.requests, o.lines)
  {
    var low, high, x := ParseLine(buffer, i, b, l);
    var y := LineEnd(buffer, x, l.name, i + 1);
    assert buffer[x..y] == l.name by {
      assert buffer[x..y] == buffer[x..i + 1][..|l.name|];
    }
    ghost var was := buffer[..];
    assert was[y] == '\n' by {
      assert was[y] == buffer[x..i + 1][y - x];
    }
    buffer[y] := '\0';
    assert buffer[x..y] == l.name;
    CStringIs(buffer[..], x, l.name);
    var name := CString(buffer[..], x);
    var requests, lines := HandleVirtualRange(pread, low, high, name);
    buffer[y] := '\n';
    assert buffer[..] == was;
    o := Outcome([Report(low, high, name)], requests, lines);
    PagesInOrder(low, high, name, pread);
  }

  // -------------------------------------------------------- the whole file

  ghost predicate AllWellFormed(ls: seq<MapsLine>) {
    forall k | 0 <= k < |ls| :: WellFormed(ls[k])
  }

  /** What is done for a list of lines, in order. */
  function OutcomeOf(ls: seq<MapsLine>, pread: Pread): Outcome {
    if ls == [] then Outcome([], [], [])
    else OutcomeOf(ls[..|ls| - 1], pread).Plus(LineOutcome(ls[|ls| - 1], pread))
  }

  lemma {:induction false} TextPrefix(ls: seq<MapsLine>, k: nat)
    requires k <= |ls|
    ensures TextOf(ls[..k]) <= TextOf(ls)
    decreases |ls|
  {
    if k < |ls| {
      TextPrefix(ls[..|ls| - 1], k);
      assert ls[..|ls| - 1][..k] == ls[..k];
    } else {
      assert ls[..k] == ls;
    }
  }

  /** Where line `k` is in the text, and what stands before it. */
  lemma Locate(ls: seq<MapsLine>, k: nat)
    requires k < |ls| && AllWellFormed(ls)
    ensures TextOf(ls[..k + 1]) == TextOf(ls[..k]) + Text(ls[k])
    ensures |TextOf(ls[..k + 1])| <= |TextOf(ls)|
    ensures LineAt(TextOf(ls), |TextOf(ls[..k])|, |TextOf(ls[..k + 1])|, ls[k])
  {
    var text, upTo := TextOf(ls), TextOf(ls[..k + 1]);
    assert ls[..k + 1][..k] == ls[..k];
    TextPrefix(ls, k + 1);
    if k > 0 {
      OneNewline(ls[k - 1]);
      assert ls[..k][..k - 1] == ls[..k - 1];
    }
    TextAtEnd(upTo, |TextOf(ls[..k])|, Text(ls[k]));
    assert text[..|upTo|] == upTo;
    TextAtLonger(text, |upTo|, |TextOf(ls[..k])|, |upTo|, Text(ls[k]));
  }

  /** Where line `k` begins. */
  ghost function Start(ls: seq<MapsLine>, k: nat): nat
    requires k <= |ls|
  {
    |TextOf(ls[..k])|
  }

  /** A line that ends at `e` has its only newline there. */
  lemma NewlineOfLine(s: seq<char>, b: nat, e: nat, l: MapsLine)
    requires WellFormed(l) && LineAt(s, b, e, l)
    ensures b + 1 < e && forall i | b <= i < e :: s[i] == '\n' <==> i == e - 1
  {
    OneNewline(l);
    assert forall i | b <= i < e :: s[i] == s[b..e][i - b];
  }

  /** Line `k` in a buffer that begins with the text. */
  lemma LineIn(s: seq<char>, length: nat, ls: seq<MapsLine>, k: nat)
    requires length <= |s| && AllWellFormed(ls) && s[..length] == TextOf(ls)
    requires k < |ls|
    ensures Start(ls, k + 1) <= length && LineAt(s, Start(ls, k), Start(ls, k + 1), ls[k])
  {
    Locate(ls, k);
    TextAtLonger(s, length, Start(ls, k), Start(ls, k + 1), Text(ls[k]));
  }

  lemma StartEnds(ls: seq<MapsLine>)
    ensures Start(ls, 0) == 0 && Start(ls, |ls|) == |TextOf(ls)|
  {
    assert ls[..0] == [] && ls[..|ls|] == ls;
  }

  lemma LineNotEmpty(ls: seq<MapsLine>, k: nat)
    requires AllWellFormed(ls)
    ensures k < |ls| ==> Start(ls, k) + 1 < Start(ls, k + 1)
  {
    if k < |ls| {
      Locate(ls, k);
      OneNewline(ls[k]);
    }
  }

  lemma OutcomeStep(ls: seq<MapsLine>, k: nat, pread: Pread)
    requires k < |ls|
    ensures OutcomeOf(ls[..k + 1], pread) == OutcomeOf(ls[..k], pread).Plus(LineOutcome(ls[k], pread))
  {
    assert ls[..k + 1][..k] == ls[..k];
  }

  /** A text made of two parts, seen in a buffer that begins with it. */
  lemma TwoParts(s: seq<char>, length: nat, front: string, tail: string)
    requires length <= |s| && s[..length] == front + tail && '\n' !in tail
    ensures |front| <= length && s[..|front|] == front
    ensures forall i | |front| <= i < length :: s[i] != '\n'
  {
    assert s[..|front|] == s[..length][..|front|];
    forall i | |front| <= i < length
      ensures s[i] == tail[i - |front|]
    {
      assert s[i] == s[..length][i];
    }
  }

  /** The scan is inside line `k`, or behind the last line. */
  ghost predicate Scanning(ls: seq<MapsLine>, k: nat, i: nat) {
    k <= |ls| && Start(ls, k) <= i && (k < |ls| ==> i < Start(ls, k + 1))
  }

  /** Whole lines, then text without a newline. */
  ghost predicate Holds(s: seq<char>, length: nat, ls: seq<MapsLine>) {
    && |TextOf(ls)| <= length <= |s| && s[..|TextOf(ls)|] == TextOf(ls) && AllWellFormed(ls)
    && forall i | |TextOf(ls)| <= i < length :: s[i] != '\n'
  }

  /** Where the scan stands: the bounds of line `k` and its only newline. */
  lemma InsideLine(s: seq<char>, length: nat, ls: seq<MapsLine>, k: nat, i: nat)
    requires Holds(s, length, ls) && i < length && Scanning(ls, k, i)
    ensures k < |ls| ==>
      && LineAt(s, Start(ls, k), Start(ls, k + 1), ls[k])
      && (s[i] == '\n' <==> i == Start(ls, k + 1) - 1) && Start(ls, k) + 1 < Start(ls, k + 1)
    ensures k == |ls| ==> s[i] != '\n'
  {
    StartEnds(ls);
    if k < |ls| {
      LineIn(s, |TextOf(ls)|, ls, k);
      NewlineOfLine(s, Start(ls, k), Start(ls, k + 1), ls[k]);
    }
  }

  /** A newline ends line `k`; any other character does not. */
  lemma AtNewline(s: seq<char>, length: nat, ls: seq<MapsLine>, k: nat, i: nat)
    requires Holds(s, length, ls) && i < length && Scanning(ls, k, i)
    ensures s[i] == '\n' && i > 0 ==>
      k < |ls| && LineAt(s, Start(ls, k), i + 1, ls[k]) && Scanning(ls, k + 1, i + 1)
    ensures s[i] != '\n' || i == 0 ==> Scanning(ls, k, i + 1)
  {
    InsideLine(s, length, ls, k, i);
    LineNotEmpty(ls, k + 1);
  }

  /** Finds and handles all the lines of one read.  Text behind the last
      newline is passed over. */
  method ScanChunk(buffer: array<char>, length: nat, pread: Pread, ghost ls: seq<MapsLine>, ghost tail: string)
    returns (o: Outcome)
    requires length <= buffer.Length && buffer[..length] == TextOf(ls) + tail
    requires AllWellFormed(ls) && '\n' !in tail
    modifies buffer
    ensures buffer[..] == old(buffer[..])
    ensures o == OutcomeOf(ls, pread)
  {
    o := Outcome([], [], []);
    ghost var k, s := 0, buffer[..];
    StartEnds(ls);
    LineNotEmpty(ls, 0);
    assert s[..length] == buffer[..length];
    TwoParts(s, length, TextOf(ls), tail);
    for i := 0 to length
      invariant buffer[..] == s && Scanning(ls, k, i)
      invariant o == OutcomeOf(ls[..k], pread)
    {
      AtNewline(s, length, ls, k, i);
      if buffer[i] == '\n' && i > 0 {
        var more := ReportLine(buffer, i, pread, Start(ls, k), ls[k]);
        o := o.Plus(more);
        OutcomeStep(ls, k, pread);
        k := k + 1;
      }
    }
    ScanEnds(s, length, ls, k);
    assert ls[..|ls|] == ls;
  }

  lemma ScanEnds(s: seq<char>, length: nat, ls: seq<MapsLine>, k: nat)
    requires Holds(s, length, ls) && Scanning(ls, k, length)
    ensures k == |ls|
  {
    if k < |ls| {
      LineIn(s, |TextOf(ls)|, ls, k);
      assert false;
    }
  }

  /** What one read brings: whole lines, and perhaps part of one more. */
  datatype Chunk = Chunk(lines: seq<MapsLine>, tail: string)

  ghost predicate Brings(text: string, c: Chunk) {
    text == TextOf(c.lines) + c.tail && AllWellFormed(c.lines) && '\n' !in c.tail
  }

  function LinesOf(chunks: seq<Chunk>): seq<MapsLine> {
    if chunks == [] then [] else LinesOf(chunks[..|chunks| - 1]) + chunks[|chunks| - 1].lines
  }

  lemma {:induction false} OutcomeAppend(a: seq<MapsLine>, b: seq<MapsLine>, pread: Pread)
    ensures OutcomeOf(a + b, pread) == OutcomeOf(a, pread).Plus(OutcomeOf(b, pread))
    decreases |b|
  {
    if b == [] {
      assert a + b == a;
    } else {
      var init := b[..|b| - 1];
      assert (a + b)[..|a + b| - 1] == a + init;
      OutcomeAppend(a, init, pread);
      PlusAssociative(OutcomeOf(a, pread), OutcomeOf(init, pread), LineOutcome(b[|b| - 1], pread));
    }
  }

  lemma PlusAssociative(a: Outcome, b: Outcome, c: Outcome)
    ensures a.Plus(b).Plus(c) == a.Plus(b.Plus(c))
  {
    Associative(a.reports, b.reports, c.reports);
    Associative(a.requests, b.requests, c.requests);
    Associative(a.lines, b.lines, c.lines);
  }

  /** Each line has its own part in what is done, in order: the pages of its
      range are gone through under its name. */
  ghost predicate LinesDone(ls: seq<MapsLine>, pread: Pread, o: Outcome, rs: seq<seq<int>>, pss: seq<seq<PageLine>>) {
    && |rs| == |pss| == |o.reports| == |ls| && o.requests == Flat(rs) && o.lines == Flat(pss)
    && forall k | 0 <= k < |ls| :: LineDone(ls[k], pread, o.reports[k], rs[k], pss[k])
  }

  ghost predicate LineDone(l: MapsLine, pread: Pread, report: Report, requests: seq<int>, lines: seq<PageLine>) {
    && report == Report(Hex.Value(l.low, 'a'), Hex.Value(l.high, 'a'), l.name)
    && RangeDone(report.low, report.high, l.name, pread, requests, lines)
  }

  lemma {:induction false} OutcomePages(ls: seq<MapsLine>, pread: Pread)
    returns (rs: seq<seq<int>>, pss: seq<seq<PageLine>>)
    ensures LinesDone(ls, pread, OutcomeOf(ls, pread), rs, pss)
  {
    rs, pss := [], [];
    if ls != [] {
      var n := |ls| - 1;
      rs, pss := OutcomePages(ls[..n], pread);
      var last := LineOutcome(ls[n], pread);
      OneLineDone(ls[n], pread);
      LinesDoneMore(ls[..n], ls[n], pread, OutcomeOf(ls[..n], pread), last, rs, pss);
      assert ls[..n] + [ls[n]] == ls;
      rs, pss := rs + [last.requests], pss + [last.lines];
    }
  }

  lemma OneLineDone(l: MapsLine, pread: Pread)
    ensures var o := LineOutcome(l, pread);
      |o.reports| == 1 && LineDone(l, pread, o.reports[0], o.requests, o.lines)
  {
    PagesInOrder(ReportOf(l).low, ReportOf(l).high, l.name, pread);
  }

  lemma LinesDoneMore(ls: seq<MapsLine>, l: MapsLine, pread: Pread, o: Outcome, last: Outcome,
                      rs: seq<seq<int>>, pss: seq<seq<PageLine>>)
    requires LinesDone(ls, pread, o, rs, pss)
    requires |last.reports| == 1 && LineDone(l, pread, last.reports[0], last.requests, last.lines)
    ensures LinesDone(ls + [l], pread, o.Plus(last), rs + [last.requests], pss + [last.lines])
  {
    FlatMore(rs, last.requests);
    FlatMore(pss, last.lines);
    var all := o.Plus(last);
    forall k | 0 <= k < |ls| + 1
      ensures LineDone((ls + [l])[k], pread, all.reports[k], (rs + [last.requests])[k], (pss + [last.lines])[k])
    {
      if k < |ls| {
        assert LineDone(ls[k], pread, o.reports[k], rs[k], pss[k]);
      }
    }
  }

  lemma {:induction false} TextAppend(a: seq<MapsLine>, b: seq<MapsLine>)
    ensures TextOf(a + b) == TextOf(a) + TextOf(b)
    decreases |b|
  {
    if b == [] {
      assert a + b == a;
    } else {
      var init := b[..|b| - 1];
      assert (a + b)[..|a + b| - 1] == a + init;
      TextAppend(a, init);
      Associative(TextOf(a), TextOf(init), Text(b[|b| - 1]));
    }
  }

  /** read() into the front of the buffer; what is behind stays. */
  method Read(buffer: array<char>, text: string)
    requires |text| <= buffer.Length
    modifies buffer
    ensures buffer[..|text|] == text && buffer[|text|..] == old(buffer[|text|..])
  {
    for i := 0 to |text|
      invariant buffer[..i] == text[..i]
      invariant buffer[|text|..] == old(buffer[|text|..])
    {
      buffer[i] := text[i];
    }
    assert text[..|text|] == text;
  }

  /** The whole parser: `inputs` are the results of the successive reads, up to
      the first empty one, which ends the file. */
  method ParseMaps(buffer: array<char>, inputs: seq<string>, pread: Pread, ghost chunks: seq<Chunk>)
    returns (o: Outcome, ghost rs: seq<seq<int>>, ghost pss: seq<seq<PageLine>>)
    requires |inputs| == |chunks|
    requires forall r | 0 <= r < |inputs| :: 0 < |inputs[r]| <= buffer.Length && Brings(inputs[r], chunks[r])
    modifies buffer
    ensures o == OutcomeOf(LinesOf(chunks), pread)
    ensures LinesDone(LinesOf(chunks), pread, o, rs, pss)
  {
    o := Outcome([], [], []);
    assert chunks[..0] == [];
    for r := 0 to |inputs|
      invariant o == OutcomeOf(LinesOf(chunks[..r]), pread)
    {
      assert Brings(inputs[r], chunks[r]);
      Read(buffer, inputs[r]);
      var more := ScanChunk(buffer, |inputs[r]|, pread, chunks[r].lines, chunks[r].tail);
      OutcomeAppend(LinesOf(chunks[..r]), chunks[r].lines, pread);
      assert chunks[..r + 1][..r] == chunks[..r];
      o := o.Plus(more);
    }
    assert chunks[..|chunks|] == chunks;
    rs, pss := OutcomePages(LinesOf(chunks), pread);
  }

  // ------------------------------------------------------------- theorems

  /** The lines come out in order, each once, whatever the reads. */
  lemma {:induction false} ReportsInOrder(ls: seq<MapsLine>, pread: Pread)
    ensures |OutcomeOf(ls, pread).reports| == |ls|
    ensures forall k | 0 <= k < |ls| :: OutcomeOf(ls, pread).reports[k] == ReportOf(ls[k])
  {
    if ls != [] {
      ReportsInOrder(ls[..|ls| - 1], pread);
    }
  }

  /** A mapping as the system has it. */
  datatype Mapping = Mapping(low: int, high: int, fields: seq<string>, name: string)

  /** A mapping, and the number of digits and spaces it is printed with. */
  datatype Printed = Printed(m: Mapping, lowWidth: nat, highWidth: nat, pad: nat)

  ghost predicate Printable(p: Printed) {
    && p.lowWidth <= 16 && 0 <= p.m.low < Hex.Pow16(p.lowWidth)
    && p.highWidth <= 16 && 0 <= p.m.high < Hex.Pow16(p.highWidth)
    && Aligned(p.m.low) && Aligned(p.m.high)
    && |p.m.fields| == 4 && (forall f | 0 <= f < 4 :: ' ' !in p.m.fields[f] && '\n' !in p.m.fields[f])
    && '\n' !in p.m.name && '\0' !in p.m.name && (p.m.name != "" ==> p.m.name[0] != ' ')
  }

  /** The line printed for a mapping. */
  ghost function Line(p: Printed): MapsLine
    requires Printable(p)
  {
    MapsLine(Hex.Numeral(p.m.low, p.lowWidth, 'a'), Hex.Numeral(p.m.high, p.highWidth, 'a'), p.m.fields, p.pad, p.m.name)
  }

  /** Round trip: what is printed for a mapping is parsed to the mapping. */
  lemma RoundTrip(p: Printed)
    requires Printable(p)
    ensures WellFormed(Line(p)) && ReportOf(Line(p)) == Report(p.m.low, p.m.high, p.m.name)
  {
    Hex.NumeralValue(p.m.low, p.lowWidth, 'a');
    Hex.NumeralValue(p.m.high, p.highWidth, 'a');
    Hex.Pow16Word();
    Hex.Pow16Monotonic(p.lowWidth, 16);
    Hex.Pow16Monotonic(p.highWidth, 16);
    AlignedNoWrap(p.m.low, p.m.high);
  }

  lemma FourWords(a: string, b: string, c: string, d: string, rest: string)
    ensures Words([a, b, c, d], rest) == a + (" " + (b + (" " + (c + (" " + (d + (" " + rest)))))))
  {
    assert Words([], rest) == rest;
    assert Words([d], rest) == d + (" " + rest);
    assert Words([c, d], rest) == c + (" " + Words([d], rest));
    assert Words([b, c, d], rest) == b + (" " + Words([c, d], rest));
    assert [a, b, c, d][1..] == [b, c, d];
  }

  /** A line as the system prints it. */
  lemma SampleLine()
    ensures var l := MapsLine("1000", "2f00", ["r--p", "0", "08:01", "7"], 2, "/lib");
      Text(l) == "1000-2f00" + (" r--p 0 08:01 7 " + "  /lib\n") && ReportOf(l) == Report(0x1000, 0x2f00, "/lib")
  {
    var l := MapsLine("1000", "2f00", ["r--p", "0", "08:01", "7"], 2, "/lib");
    assert PadText(l) == "  /lib\n" by {
      assert Spaces(2) == "  ";
    }
    FourWords("r--p", "0", "08:01", "7", PadText(l));
    SampleFields(PadText(l));
    SampleBounds(" r--p 0 08:01 7 " + PadText(l));
    Hex.FourDigits("1000", 'a');
    Hex.FourDigits("2f00", 'a');
  }

  lemma SampleFields(rest: string)
    ensures " " + ("r--p" + (" " + ("0" + (" " + ("08:01" + (" " + ("7" + (" " + rest)))))))) == " r--p 0 08:01 7 " + rest
  {
  }

  lemma SampleBounds(rest: string)
    ensures "1000" + ("-" + ("2f00" + rest)) == "1000-2f00" + rest
  {
  }
}
