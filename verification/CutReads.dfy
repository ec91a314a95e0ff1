/** What becomes of a line that is cut by the end of a read.  The next read
    overwrites the part that is there, so the rest is parsed as a line. */
module CutReads {
  import opened Common
  import opened MapsParser
  import opened Pagemap
  import Hex

  // -------------------------------------------- a text has one list of lines

  /** Texts with the same separator, which is not in the first parts. */
  lemma SplitAt(a: string, r: string, b: string, s: string, c: char)
    requires a + ([c] + r) == b + ([c] + s) && c !in a && c !in b
    ensures a == b && r == s
  {
    var left, right := a + ([c] + r), b + ([c] + s);
    assert forall i | 0 <= i < |a| :: left[i] == a[i] && a[i] in a;
    assert forall i | 0 <= i < |b| :: right[i] == b[i] && b[i] in b;
    assert left[|a|] == c && right[|b|] == c;
    assert |a| == |b|;
    assert left[..|a|] == a && right[..|b|] == b;
    assert left[|a| + 1..] == r && right[|b| + 1..] == s;
  }

  lemma {:induction false} SameWords(f: seq<string>, r: string, g: seq<string>, s: string)
    requires Words(f, r) == Words(g, s) && |f| == |g|
    requires forall i | 0 <= i < |f| :: ' ' !in f[i] && ' ' !in g[i]
    ensures f == g && r == s
  {
    if f != [] {
      SplitAt(f[0], Words(f[1..], r), g[0], Words(g[1..], s), ' ');
      SameWords(f[1..], r, g[1..], s);
      assert f == [f[0]] + f[1..] && g == [g[0]] + g[1..];
    }
  }

  lemma {:induction false} SamePad(m: nat, r: string, n: nat, s: string)
    requires Spaces(m) + r == Spaces(n) + s
    requires r != "" && r[0] != ' ' && s != "" && s[0] != ' '
    ensures m == n && r == s
  {
    FirstChar(m, r);
    FirstChar(n, s);
    if m > 0 {
      assert (Spaces(m) + r)[1..] == Spaces(m - 1) + r && (Spaces(n) + s)[1..] == Spaces(n - 1) + s;
      SamePad(m - 1, r, n - 1, s);
    }
  }

  lemma NotInNumeral(s: string)
    requires Hex.IsNumeral(s, 'a')
    ensures '-' !in s && ' ' !in s && '\n' !in s
  {
    forall i | 0 <= i < |s|
      ensures s[i] != '-' && s[i] != ' ' && s[i] != '\n'
    {
      assert Hex.IsDigit(s[i], 'a');
    }
  }

  /** A line can be printed in one way only. */
  lemma SameLine(l: MapsLine, m: MapsLine)
    requires Shaped(l) && Shaped(m) && Text(l) == Text(m)
    ensures l == m
  {
    NotInNumeral(l.low);
    NotInNumeral(m.low);
    SplitAt(l.low, HighText(l), m.low, HighText(m), '-');
    NotInNumeral(l.high);
    NotInNumeral(m.high);
    SplitAt(l.high, Words(l.fields, PadText(l)), m.high, Words(m.fields, PadText(m)), ' ');
    SameWords(l.fields, PadText(l), m.fields, PadText(m));
    SamePad(l.pad, NameText(l), m.pad, NameText(m));
    assert NameText(l)[..|l.name|] == l.name && NameText(m)[..|m.name|] == m.name;
  }

  /** The text of a line without its newline. */
  function Front(l: MapsLine): string {
    l.low + ("-" + (l.high + (" " + Words(l.fields, Spaces(l.pad) + l.name))))
  }

  lemma FrontIs(l: MapsLine)
    requires Shaped(l)
    ensures Text(l) == Front(l) + "\n" && '\n' !in Front(l)
  {
    NotInNumeral(l.low);
    NotInNumeral(l.high);
    SpacesOnly(l.pad);
    NoNewline(l.fields, Spaces(l.pad) + l.name);
    WordsAppend(l.fields, Spaces(l.pad) + l.name, "\n");
    assert PadText(l) == (Spaces(l.pad) + l.name) + "\n";
  }

  ghost predicate AllShaped(ls: seq<MapsLine>) {
    forall k | 0 <= k < |ls| :: Shaped(ls[k])
  }

  lemma FirstLine(ls: seq<MapsLine>)
    requires ls != []
    ensures TextOf(ls) == Text(ls[0]) + TextOf(ls[1..])
  {
    assert ls == [ls[0]] + ls[1..];
    TextAppend([ls[0]], ls[1..]);
    assert [ls[0]][..0] == [];
    assert TextOf([ls[0]]) == Text(ls[0]);
  }

  lemma HasNewline(ls: seq<MapsLine>)
    requires AllShaped(ls)
    ensures '\n' in TextOf(ls) <==> ls != []
  {
    if ls != [] {
      FirstLine(ls);
      FrontIs(ls[0]);
    }
  }

  /** A text has one list of lines only. */
  lemma {:induction false} SameLines(a: seq<MapsLine>, tail: string, b: seq<MapsLine>)
    requires AllShaped(a) && AllShaped(b) && TextOf(a) + tail == TextOf(b) && '\n' !in tail
    ensures a == b && tail == ""
    decreases |a|
  {
    HasNewline(a);
    HasNewline(b);
    if a == [] {
      assert TextOf(a) + tail == tail;
    } else {
      assert '\n' in TextOf(a) + tail;
      SameFirst(a, tail, b);
      SameLines(a[1..], tail, b[1..]);
      SameList(a, b);
    }
  }

  lemma SameList(a: seq<MapsLine>, b: seq<MapsLine>)
    requires a != [] && b != [] && a[0] == b[0] && a[1..] == b[1..]
    ensures a == b
  {
    assert a == [a[0]] + a[1..] && b == [b[0]] + b[1..];
  }

  lemma SameFirst(a: seq<MapsLine>, tail: string, b: seq<MapsLine>)
    requires a != [] && b != [] && Shaped(a[0]) && Shaped(b[0]) && TextOf(a) + tail == TextOf(b)
    ensures a[0] == b[0] && TextOf(a[1..]) + tail == TextOf(b[1..])
  {
    FirstLine(a);
    FirstLine(b);
    FrontIs(a[0]);
    FrontIs(b[0]);
    Peel(Front(a[0]), TextOf(a[1..]), tail, Front(b[0]), TextOf(b[1..]));
    SameLine(a[0], b[0]);
  }

  lemma Peel(f: string, r: string, tail: string, g: string, s: string)
    requires ((f + "\n") + r) + tail == (g + "\n") + s && '\n' !in f && '\n' !in g
    ensures f == g && r + tail == s
  {
    assert ((f + "\n") + r) + tail == f + ("\n" + (r + tail));
    assert (g + "\n") + s == g + ("\n" + s);
    SplitAt(f, r + tail, g, s, '\n');
  }

  // ---------------------------------------------------- a cut in a low bound

  /** What is parsed of a line whose first `j` characters are lost. */
  function Cut(l: MapsLine, j: nat): MapsLine
    requires j <= |l.low|
  {
    l.(low := l.low[j..])
  }

  /** A cut inside the low bound does no harm exactly when nothing but leading
      zeros is lost. */
  lemma CutInLow(l: MapsLine, j: nat)
    requires Shaped(l) && j <= |l.low|
    ensures Text(l) == l.low[..j] + Text(Cut(l, j))
    ensures ReportOf(Cut(l, j)) == ReportOf(l) <==> Hex.AllZero(l.low[..j])
  {
    var lost, kept := l.low[..j], l.low[j..];
    assert l.low == lost + kept;
    Associative(lost, kept, "-" + HighText(l));
    Hex.LeadingZeros(lost, kept, 'a');
  }

  /** The rest of a line with page-aligned bounds is again a line that the
      parser reads: what is left of the low bound is aligned too. */
  lemma CutWellFormed(l: MapsLine, j: nat)
    requires WellFormed(l) && j <= |l.low|
    requires Aligned(Hex.Value(l.low, 'a')) && Aligned(Hex.Value(l.high, 'a'))
    ensures WellFormed(Cut(l, j)) && Aligned(Hex.Value(Cut(l, j).low, 'a'))
  {
    var lost, kept := l.low[..j], l.low[j..];
    assert l.low == lost + kept;
    Hex.ValueAppend(lost, kept, 'a');
    Hex.ValueBound(kept, 'a');
    KeptAligned(Hex.Value(lost, 'a'), Hex.Pow16(|kept|), |kept|, Hex.Value(kept, 'a'));
    NoOverflow(kept);
    NoOverflow(l.high);
    AlignedNoWrap(Hex.Value(kept, 'a'), Hex.Value(l.high, 'a'));
  }

  lemma PowShape(n: nat) returns (q: int)
    ensures if n >= 3 then Hex.Pow16(n) == PAGE * q else Hex.Pow16(n) in {1, 16, 256}
  {
    if n >= 3 {
      q := Hex.Pow16(n - 3);
      assert Hex.Pow16(n) == 16 * Hex.Pow16(n - 1) && Hex.Pow16(n - 1) == 16 * Hex.Pow16(n - 2);
    } else {
      q := 0;
      assert Hex.Pow16(0) == 1 && Hex.Pow16(1) == 16 && Hex.Pow16(2) == 256;
    }
  }

  lemma KeptAligned(v: int, p: int, n: nat, rest: int)
    requires p == Hex.Pow16(n) && Aligned(v * p + rest) && 0 <= rest < p
    ensures Aligned(rest)
  {
    var q := PowShape(n);
    if n >= 3 {
      Multiple(v, p, q, rest);
    } else {
      FewDigits(v, p, rest);
    }
  }

  lemma FewDigits(v: int, p: int, rest: int)
    requires p == 1 || p == 16 || p == 256
    requires Aligned(v * p + rest) && 0 <= rest < p
    ensures rest == 0
  {
    if p == 16 {
      var pages := (v * 16 + rest) / PAGE;
      assert rest == 16 * (256 * pages - v);
    } else if p == 256 {
      var pages := (v * 256 + rest) / PAGE;
      assert rest == 256 * (16 * pages - v);
    }
  }

  lemma Multiple(v: int, p: int, q: int, rest: int)
    requires p == PAGE * q
    ensures (v * p + rest) % PAGE == rest % PAGE
  {
    assert v * p == PAGE * (v * q);
    SamePhase(rest, v * q);
  }

  // --------------------------------------------- the reads of a whole file

  /** What each read brings. */
  ghost predicate BringsAll(inputs: seq<string>, chunks: seq<Chunk>) {
    |inputs| == |chunks| && forall r | 0 <= r < |inputs| :: Brings(inputs[r], chunks[r])
  }

  /** The lines of the file, put together again from what the reads bring. */
  datatype Joined = Joined(lines: seq<MapsLine>, carry: string)

  function Join(j: Joined, c: Chunk): Joined {
    if c.lines == [] then Joined(j.lines, j.carry + c.tail)
    else Joined(j.lines + ([Mend(j.carry, c.lines[0])] + c.lines[1..]), c.tail)
  }

  function Mend(carry: string, l: MapsLine): MapsLine {
    l.(low := carry + l.low)
  }

  function Rejoin(chunks: seq<Chunk>): Joined {
    if chunks == [] then Joined([], "") else Join(Rejoin(chunks[..|chunks| - 1]), chunks[|chunks| - 1])
  }

  /** No read ends in a line other than inside its low bound. */
  ghost predicate CutsInLow(chunks: seq<Chunk>) {
    forall r | 0 <= r < |chunks| :: Hex.IsNumeral(chunks[r].tail, 'a')
  }

  ghost predicate OnlyZeros(chunks: seq<Chunk>) {
    forall r | 0 <= r < |chunks| :: Hex.AllZero(chunks[r].tail)
  }

  lemma JoinText(j: Joined, c: Chunk, text: string)
    requires Brings(text, c)
    ensures TextOf(Join(j, c).lines) + Join(j, c).carry == (TextOf(j.lines) + j.carry) + text
  {
    if c.lines == [] {
      Associative(TextOf(j.lines), j.carry, c.tail);
      assert text == c.tail;
    } else {
      var first, rest := c.lines[0], c.lines[1..];
      var mended := [Mend(j.carry, first)] + rest;
      FirstLine(c.lines);
      FirstLine(mended);
      assert mended[1..] == rest;
      TextAppend(j.lines, mended);
      Associative(j.carry, first.low, "-" + HighText(first));
      assert Text(Mend(j.carry, first)) == j.carry + Text(first);
      Rearrange(TextOf(j.lines), j.carry, Text(first), TextOf(rest), c.tail);
    }
  }

  lemma Rearrange(a: string, b: string, c: string, d: string, e: string)
    ensures (a + ((b + c) + d)) + e == (a + b) + ((c + d) + e)
  {
  }

  /** Nothing of the file is lost in putting it together. */
  lemma {:induction false} RejoinText(inputs: seq<string>, chunks: seq<Chunk>)
    requires BringsAll(inputs, chunks)
    ensures Flat(inputs) == TextOf(Rejoin(chunks).lines) + Rejoin(chunks).carry
    decreases |inputs|
  {
    if inputs != [] {
      var n := |inputs| - 1;
      RejoinText(inputs[..n], chunks[..n]);
      assert Brings(inputs[n], chunks[n]);
      JoinText(Rejoin(chunks[..n]), chunks[n], inputs[n]);
    }
  }

  /** The lines put together are lines again. */
  lemma {:induction false} RejoinShaped(inputs: seq<string>, chunks: seq<Chunk>)
    requires BringsAll(inputs, chunks) && CutsInLow(chunks)
    ensures AllShaped(Rejoin(chunks).lines) && Hex.IsNumeral(Rejoin(chunks).carry, 'a')
    decreases |inputs|
  {
    if inputs != [] {
      var n := |inputs| - 1;
      RejoinShaped(inputs[..n], chunks[..n]);
      assert Brings(inputs[n], chunks[n]);
      JoinShaped(Rejoin(chunks[..n]), chunks[n]);
    }
  }

  lemma JoinShaped(j: Joined, c: Chunk)
    requires AllShaped(j.lines) && Hex.IsNumeral(j.carry, 'a')
    requires AllWellFormed(c.lines) && Hex.IsNumeral(c.tail, 'a')
    ensures AllShaped(Join(j, c).lines) && Hex.IsNumeral(Join(j, c).carry, 'a')
  {
    if c.lines != [] {
      assert WellFormed(c.lines[0]);
      assert Shaped(Mend(j.carry, c.lines[0]));
    }
  }

  /** The lists agree on what the parser reports. */
  ghost predicate SameReports(a: seq<MapsLine>, b: seq<MapsLine>) {
    |a| == |b| && forall k | 0 <= k < |a| :: ReportOf(a[k]) == ReportOf(b[k])
  }

  lemma SameReportsAppend(a: seq<MapsLine>, b: seq<MapsLine>, c: seq<MapsLine>, d: seq<MapsLine>)
    requires |a| == |b| && |c| == |d|
    ensures SameReports(a + c, b + d) <==> SameReports(a, b) && SameReports(c, d)
  {
    if SameReports(a + c, b + d) {
      forall k | 0 <= k < |a|
        ensures ReportOf(a[k]) == ReportOf(b[k])
      {
        assert (a + c)[k] == a[k] && (b + d)[k] == b[k];
      }
      forall k | 0 <= k < |c|
        ensures ReportOf(c[k]) == ReportOf(d[k])
      {
        assert (a + c)[|a| + k] == c[k] && (b + d)[|a| + k] == d[k];
      }
    }
  }

  /** Each read parses the lines of the file exactly when what the reads before
      it left unfinished is nothing but zeros. */
  lemma {:induction false} RejoinReports(inputs: seq<string>, chunks: seq<Chunk>)
    requires BringsAll(inputs, chunks) && CutsInLow(chunks)
    ensures |Rejoin(chunks).lines| == |LinesOf(chunks)|
    ensures SameReports(Rejoin(chunks).lines, LinesOf(chunks)) && Hex.AllZero(Rejoin(chunks).carry)
            <==> OnlyZeros(chunks)
    decreases |inputs|
  {
    if inputs != [] {
      var n := |inputs| - 1;
      BringsInit(inputs, chunks, n);
      RejoinReports(inputs[..n], chunks[..n]);
      RejoinShaped(inputs[..n], chunks[..n]);
      RejoinLast(chunks, n);
      OnlyZerosLast(chunks, n);
    }
  }

  lemma BringsInit(inputs: seq<string>, chunks: seq<Chunk>, n: nat)
    requires BringsAll(inputs, chunks) && CutsInLow(chunks) && |inputs| == n + 1
    ensures BringsAll(inputs[..n], chunks[..n]) && CutsInLow(chunks[..n])
    ensures AllWellFormed(chunks[n].lines)
  {
    assert Brings(inputs[n], chunks[n]);
  }

  lemma RejoinLast(chunks: seq<Chunk>, n: nat)
    requires |chunks| == n + 1 && |Rejoin(chunks[..n]).lines| == |LinesOf(chunks[..n])|
    requires Hex.IsNumeral(Rejoin(chunks[..n]).carry, 'a') && AllWellFormed(chunks[n].lines)
    ensures |Rejoin(chunks).lines| == |LinesOf(chunks)|
    ensures SameReports(Rejoin(chunks).lines, LinesOf(chunks)) && Hex.AllZero(Rejoin(chunks).carry)
            <==> SameReports(Rejoin(chunks[..n]).lines, LinesOf(chunks[..n]))
                 && Hex.AllZero(Rejoin(chunks[..n]).carry) && Hex.AllZero(chunks[n].tail)
  {
    JoinReports(Rejoin(chunks[..n]), chunks[n], LinesOf(chunks[..n]));
  }

  lemma OnlyZerosLast(chunks: seq<Chunk>, n: nat)
    requires |chunks| == n + 1
    ensures OnlyZeros(chunks) <==> OnlyZeros(chunks[..n]) && Hex.AllZero(chunks[n].tail)
  {
    assert forall r | 0 <= r < n :: chunks[..n][r] == chunks[r];
  }

  lemma JoinReports(j: Joined, c: Chunk, ls: seq<MapsLine>)
    requires |j.lines| == |ls| && Hex.IsNumeral(j.carry, 'a') && AllWellFormed(c.lines)
    ensures |Join(j, c).lines| == |ls + c.lines|
    ensures SameReports(Join(j, c).lines, ls + c.lines) && Hex.AllZero(Join(j, c).carry)
            <==> SameReports(j.lines, ls) && Hex.AllZero(j.carry) && Hex.AllZero(c.tail)
  {
    if c.lines == [] {
      assert ls + c.lines == ls;
      assert Hex.AllZero(j.carry + c.tail) <==> Hex.AllZero(j.carry) && Hex.AllZero(c.tail) by {
        ZeroAppend(j.carry, c.tail);
      }
    } else {
      var first, rest := c.lines[0], c.lines[1..];
      var mended := Mend(j.carry, first);
      assert c.lines == [first] + rest;
      assert WellFormed(first);
      assert Cut(mended, |j.carry|) == first && mended.low[..|j.carry|] == j.carry;
      CutInLow(mended, |j.carry|);
      SameReportsAppend([mended], [first], rest, rest);
      SameReportsAppend(j.lines, ls, [mended] + rest, c.lines);
      assert SameReports([mended], [first]) <==> ReportOf(mended) == ReportOf(first) by {
        assert [mended][0] == mended && [first][0] == first;
      }
    }
  }

  lemma ZeroAppend(a: string, b: string)
    ensures Hex.AllZero(a + b) <==> Hex.AllZero(a) && Hex.AllZero(b)
  {
    if Hex.AllZero(a + b) {
      assert forall i | 0 <= i < |a| :: a[i] == (a + b)[i];
      assert forall i | 0 <= i < |b| :: b[i] == (a + b)[|a| + i];
    }
  }

  /** What is done for a line depends on its report only. */
  lemma {:induction false} OutcomeSame(a: seq<MapsLine>, b: seq<MapsLine>, pread: Pread)
    requires SameReports(a, b)
    ensures OutcomeOf(a, pread) == OutcomeOf(b, pread)
    decreases |a|
  {
    if a != [] {
      var n := |a| - 1;
      OutcomeSame(a[..n], b[..n], pread);
      assert ReportOf(a[n]) == ReportOf(b[n]);
    }
  }

  lemma OutcomeTells(a: seq<MapsLine>, b: seq<MapsLine>, pread: Pread)
    requires OutcomeOf(a, pread) == OutcomeOf(b, pread)
    ensures SameReports(a, b)
  {
    ReportsInOrder(a, pread);
    ReportsInOrder(b, pread);
    forall k | 0 <= k < |a|
      ensures ReportOf(a[k]) == ReportOf(b[k])
    {
      assert ReportOf(a[k]) == OutcomeOf(a, pread).reports[k];
    }
  }

  // ------------------------------------------------------------- theorems

  /** A file read in pieces that end at line ends or inside low bounds: all that
      is done is what is to be done for the file's lines, exactly when only
      zeros are cut off. */
  lemma CutFile(inputs: seq<string>, chunks: seq<Chunk>, ls: seq<MapsLine>, pread: Pread)
    requires BringsAll(inputs, chunks) && CutsInLow(chunks)
    requires AllWellFormed(ls) && Flat(inputs) == TextOf(ls)
    ensures OutcomeOf(LinesOf(chunks), pread) == OutcomeOf(ls, pread) <==> OnlyZeros(chunks)
  {
    RejoinText(inputs, chunks);
    RejoinShaped(inputs, chunks);
    RejoinReports(inputs, chunks);
    var joined := Rejoin(chunks);
    NotInNumeral(joined.carry);
    assert AllShaped(ls) by {
      assert forall k | 0 <= k < |ls| :: WellFormed(ls[k]) ==> Shaped(ls[k]);
    }
    SameLines(joined.lines, joined.carry, ls);
    if OnlyZeros(chunks) {
      OutcomeSame(ls, LinesOf(chunks), pread);
    }
    if OutcomeOf(LinesOf(chunks), pread) == OutcomeOf(ls, pread) {
      OutcomeTells(ls, LinesOf(chunks), pread);
    }
  }

  /** When no read ends inside a line, the lines handled are those of the file,
      however it was cut. */
  lemma WholeLines(inputs: seq<string>, chunks: seq<Chunk>, ls: seq<MapsLine>)
    requires BringsAll(inputs, chunks) && forall r | 0 <= r < |chunks| :: chunks[r].tail == ""
    requires AllWellFormed(ls) && Flat(inputs) == TextOf(ls)
    ensures LinesOf(chunks) == ls
  {
    WholeText(inputs, chunks);
    assert TextOf(LinesOf(chunks)) + "" == TextOf(ls);
    SameLines(LinesOf(chunks), "", ls);
  }

  lemma {:induction false} WholeText(inputs: seq<string>, chunks: seq<Chunk>)
    requires BringsAll(inputs, chunks) && forall r | 0 <= r < |chunks| :: chunks[r].tail == ""
    ensures Flat(inputs) == TextOf(LinesOf(chunks)) && AllShaped(LinesOf(chunks))
  {
    if inputs != [] {
      var n := |inputs| - 1;
      assert BringsAll(inputs[..n], chunks[..n]);
      WholeText(inputs[..n], chunks[..n]);
      WholeLast(inputs, chunks, n);
    }
  }

  lemma WholeLast(inputs: seq<string>, chunks: seq<Chunk>, n: nat)
    requires |inputs| == |chunks| == n + 1 && Brings(inputs[n], chunks[n]) && chunks[n].tail == ""
    requires Flat(inputs[..n]) == TextOf(LinesOf(chunks[..n])) && AllShaped(LinesOf(chunks[..n]))
    ensures Flat(inputs) == TextOf(LinesOf(chunks)) && AllShaped(LinesOf(chunks))
  {
    MoreLines(LinesOf(chunks[..n]), chunks[n], inputs[n]);
  }

  lemma MoreLines(ls: seq<MapsLine>, c: Chunk, text: string)
    requires AllShaped(ls) && Brings(text, c) && c.tail == ""
    ensures TextOf(ls + c.lines) == TextOf(ls) + text && AllShaped(ls + c.lines)
  {
    TextAppend(ls, c.lines);
    assert text == TextOf(c.lines);
    forall k | 0 <= k < |c.lines|
      ensures Shaped(c.lines[k])
    {
      assert WellFormed(c.lines[k]);
    }
  }

  /** The printed lines of a list of mappings. */
  ghost function Listing(ps: seq<Printed>): seq<MapsLine>
    requires forall k | 0 <= k < |ps| :: Printable(ps[k])
  {
    seq(|ps|, k requires 0 <= k < |ps| => Line(ps[k]))
  }

  /** The mappings as they are to be reported. */
  function Reports(ps: seq<Printed>): seq<Report> {
    seq(|ps|, k requires 0 <= k < |ps| => Report(ps[k].m.low, ps[k].m.high, ps[k].m.name))
  }

  lemma ListingReports(ps: seq<Printed>, ls: seq<MapsLine>, pread: Pread)
    requires forall k | 0 <= k < |ps| :: Printable(ps[k])
    ensures AllWellFormed(Listing(ps))
    ensures OutcomeOf(ls, pread).reports == Reports(ps) <==> SameReports(ls, Listing(ps))
  {
    forall k | 0 <= k < |ps|
      ensures WellFormed(Listing(ps)[k]) && ReportOf(Listing(ps)[k]) == Reports(ps)[k]
    {
      RoundTrip(ps[k]);
    }
    ReportsInOrder(ls, pread);
    if OutcomeOf(ls, pread).reports == Reports(ps) {
      assert forall k | 0 <= k < |ls| :: ReportOf(ls[k]) == OutcomeOf(ls, pread).reports[k];
    }
  }

  /** A mapping has been gone through: reported, and its pages looked up and
      printed in order up to the first read that fails, which without failing
      reads is each page once. */
  ghost predicate MappingDone(m: Mapping, pread: Pread, report: Report, requests: seq<int>, lines: seq<PageLine>) {
    && report == Report(m.low, m.high, m.name)
    && RangeDone(m.low, m.high, m.name, pread, requests, lines)
    && (AllFull(pread) ==> AllPages(m.low, m.high, requests, lines))
  }

  /** The mappings have been gone through, one after the other. */
  ghost predicate ListingDone(ps: seq<Printed>, pread: Pread, o: Outcome, rs: seq<seq<int>>, pss: seq<seq<PageLine>>) {
    && |rs| == |pss| == |o.reports| == |ps| && o.requests == Flat(rs) && o.lines == Flat(pss)
    && forall k | 0 <= k < |ps| :: MappingDone(ps[k].m, pread, o.reports[k], rs[k], pss[k])
  }

  lemma DoneListing(ps: seq<Printed>, pread: Pread, o: Outcome, rs: seq<seq<int>>, pss: seq<seq<PageLine>>)
    requires (forall k | 0 <= k < |ps| :: Printable(ps[k])) && LinesDone(Listing(ps), pread, o, rs, pss)
    ensures ListingDone(ps, pread, o, rs, pss)
  {
    forall k | 0 <= k < |ps|
      ensures MappingDone(ps[k].m, pread, o.reports[k], rs[k], pss[k])
    {
      assert LineDone(Listing(ps)[k], pread, o.reports[k], rs[k], pss[k]);
      RoundTrip(ps[k]);
      if AllFull(pread) {
        FullRange(ps[k].m.low, ps[k].m.high, ps[k].m.name, pread, rs[k], pss[k]);
      }
    }
  }

  /** From the mappings of a process to the output.  If, and only if, the reads
      cut off nothing but leading zeros of a low bound, the program reports
      exactly these mappings, in order; and then it looks up and prints the
      pages of each, in order. */
  method ParseListing(buffer: array<char>, inputs: seq<string>, pread: Pread, ghost chunks: seq<Chunk>,
                      ghost ps: seq<Printed>)
    returns (o: Outcome, ghost rs: seq<seq<int>>, ghost pss: seq<seq<PageLine>>)
    requires forall k | 0 <= k < |ps| :: Printable(ps[k])
    requires BringsAll(inputs, chunks) && CutsInLow(chunks) && Flat(inputs) == TextOf(Listing(ps))
    requires forall r | 0 <= r < |inputs| :: 0 < |inputs[r]| <= buffer.Length
    modifies buffer
    ensures o.reports == Reports(ps) <==> OnlyZeros(chunks)
    ensures OnlyZeros(chunks) ==> ListingDone(ps, pread, o, rs, pss)
  {
    o, rs, pss := ParseMaps(buffer, inputs, pread, chunks);
    ListingReports(ps, LinesOf(chunks), pread);
    CutFile(inputs, chunks, Listing(ps), pread);
    if o.reports == Reports(ps) {
      OutcomeSame(LinesOf(chunks), Listing(ps), pread);
    }
    if OnlyZeros(chunks) {
      OutcomeTells(LinesOf(chunks), Listing(ps), pread);
      rs, pss := OutcomePages(Listing(ps), pread);
      DoneListing(ps, pread, o, rs, pss);
    }
  }

  lemma ShortNumerals(a: char, b: char)
    ensures Hex.Value([b], 'a') == Hex.DigitValue(b, 'a')
    ensures Hex.Value([a, b], 'a') == 16 * Hex.DigitValue(a, 'a') + Hex.DigitValue(b, 'a')
  {
    assert [b][..0] == "" && [a, b][..1] == [a] && [a][..0] == "";
  }

  /** A read that ends inside a line spoils it: `offset` never moves, so the
      next read overwrites the first part.  Here 10-20 is taken for 0-20. */
  lemma CutLine(pread: Pread, rest: MapsLine)
    requires rest.low == "0" && rest.high == "20" && WellFormed(rest)
    ensures var whole := rest.(low := "10");
      && WellFormed(whole) && Text(whole) == "1" + Text(rest)
      && Brings("1", Chunk([], "1")) && Brings(Text(rest), Chunk([rest], ""))
      && ReportOf(whole) == Report(0x10, 0x20, rest.name)
      && LinesOf([Chunk([], "1"), Chunk([rest], "")]) == [rest]
      && ReportOf(rest) == Report(0, 0x20, rest.name)
  {
    ShortNumerals('1', '0');
    ShortNumerals('2', '0');
    assert "10" == ['1', '0'] && "20" == ['2', '0'];
    var cut := [Chunk([], "1"), Chunk([rest], "")];
    assert cut[..1] == [cut[0]] && cut[..1][..0] == [];
    assert LinesOf(cut[..1]) == [];
  }
}
