/** Walking over the pages of one mapping of a process. */
module Pagemap {
  import opened Common

  const WORD: int := 0x1_0000_0000_0000_0000  // 64-bit arithmetic wraps here
  const PAGE: int := 0x1000
  const ENTRY: int := 8  // bytes of one pagemap entry

  predicate IsWord(v: int) { 0 <= v < WORD }

  /** What pread() of eight bytes at an offset yields: the entry, or less. */
  type Pread = int -> Option<int>

  datatype PageLine = PageLine(address: int, data: int, name: string)

  /** The first address at or past `end` that the loop counter takes. */
  function Stop(start: int, end: int): int {
    if start >= end then start else start + PAGE * ((end - start + PAGE - 1) / PAGE)
  }

  /** The counter gets past `end` before it wraps around. */
  predicate NoWrap(start: int, end: int) {
    Stop(start, end) < WORD
  }

  /** The offsets asked for, up to and including the first that fails. */
  function Requests(start: int, end: int, pread: Pread): seq<int>
    decreases end - start
  {
    if start >= end then []
    else
      var index := start / PAGE * ENTRY;
      [index] + if pread(index).None? then [] else Requests(start + PAGE, end, pread)
  }

  /** The lines printed, one for each entry before the first that fails. */
  function Lines(start: int, end: int, name: string, pread: Pread): seq<PageLine>
    decreases end - start
  {
    if start >= end then []
    else
      match pread(start / PAGE * ENTRY)
      case None => []
      case Some(data) => [PageLine(start, data, name)] + Lines(start + PAGE, end, name, pread)
  }

  method HandleVirtualRange(pread: Pread, start: int, end: int, name: string)
    returns (requests: seq<int>, lines: seq<PageLine>)
    requires IsWord(start) && IsWord(end) && NoWrap(start, end)
    ensures requests == Requests(start, end, pread)
    ensures lines == Lines(start, end, name, pread)
  {
    requests, lines := [], [];
    var i := start;
    while i < end
      invariant IsWord(i) && NoWrap(i, end)
      invariant requests + Requests(i, end, pread) == Requests(start, end, pread)
      invariant lines + Lines(i, end, name, pread) == Lines(start, end, name, pread)
      decreases end - i
    {
      Advance(i, end);
      Unroll(requests, lines, i, end, name, pread);
      var index := i / PAGE * ENTRY;
      requests := requests + [index];
      var entry := pread(index);
      if entry.None? {
        return;
      }
      lines := lines + [PageLine(i, entry.value, name)];
      i := (i + PAGE) % WORD;
    }
  }

  /** One round of the loop, taken from what is to come to what is done. */
  lemma Unroll(requests: seq<int>, lines: seq<PageLine>, i: int, end: int, name: string, pread: Pread)
    requires i < end
    ensures var index := i / PAGE * ENTRY;
      match pread(index)
      case None =>
        && requests + Requests(i, end, pread) == requests + [index]
        && lines + Lines(i, end, name, pread) == lines
      case Some(data) =>
        && requests + Requests(i, end, pread) == (requests + [index]) + Requests(i + PAGE, end, pread)
        && lines + Lines(i, end, name, pread)
           == (lines + [PageLine(i, data, name)]) + Lines(i + PAGE, end, name, pread)
  {
    var index := i / PAGE * ENTRY;
    if pread(index).Some? {
      Associative(requests, [index], Requests(i + PAGE, end, pread));
      Associative(lines, [PageLine(i, pread(index).value, name)], Lines(i + PAGE, end, name, pread));
    }
  }

  lemma Advance(i: int, end: int)
    requires IsWord(i) && i < end && NoWrap(i, end)
    ensures (i + PAGE) % WORD == i + PAGE && NoWrap(i + PAGE, end)
  {
    assert Stop(i + PAGE, end) == Stop(i, end) >= i + PAGE;
  }

  /** The counter after `k` rounds. */
  function Counter(start: int, k: nat): int {
    (start + PAGE * k) % WORD
  }

  /** With all reads full, the loop ends exactly when its counter does not
      wrap: otherwise no value it takes ever reaches `end`. */
  lemma EndsIffNoWrap(start: int, end: int)
    requires IsWord(start) && IsWord(end) && start < end
    ensures NoWrap(start, end) <==> exists k: nat :: Counter(start, k) >= end
  {
    if NoWrap(start, end) {
      var k := (end - start + PAGE - 1) / PAGE;
      assert Counter(start, k) == Stop(start, end) >= end;
    } else {
      forall k: nat
        ensures Counter(start, k) < end
      {
        CounterBelow(start, end, k);
      }
    }
  }

  lemma CounterBelow(start: int, end: int, k: nat)
    requires IsWord(start) && IsWord(end) && start < end && !NoWrap(start, end)
    ensures Counter(start, k) < end
  {
    CounterPhase(start, k);
    StopPhase(start, end);
    LastPhase(Counter(start, k), Stop(start, end));
  }

  lemma StopPhase(start: int, end: int)
    requires start < end
    ensures Stop(start, end) % PAGE == start % PAGE && Stop(start, end) - PAGE < end
  {
  }

  /** The last word with a given offset in its page is less than a page below
      any value past the words with that offset. */
  lemma LastPhase(c: int, stop: int)
    requires 0 <= c < WORD <= stop && c % PAGE == stop % PAGE
    ensures c <= stop - PAGE
  {
  }

  /** A counter keeps its offset within the page, even when it wraps. */
  lemma CounterPhase(start: int, k: nat)
    ensures Counter(start, k) % PAGE == start % PAGE
  {
    var v := start + PAGE * k;
    var q, m := v / WORD, 0x10_0000_0000_0000;
    assert v == WORD * q + Counter(start, k);
    assert Counter(start, k) == start + PAGE * (k - m * q);
    SamePhase(start, k - m * q);
  }

  lemma SamePhase(start: int, pages: int)
    ensures (start + PAGE * pages) % PAGE == start % PAGE
  {
  }

  /** From address 1 to the last word the loop never ends: its counter steps
      over the end, wraps to 1, and goes round again. */
  lemma NeverEnds()
    ensures !NoWrap(1, 0xFFFF_FFFF_FFFF_FFFF)
    ensures forall k: nat :: Counter(1, k) < 0xFFFF_FFFF_FFFF_FFFF
    ensures Counter(1, 0x10_0000_0000_0000) == Counter(1, 0) == 1
  {
    EndsIffNoWrap(1, WORD - 1);
  }

  ghost predicate LineIs(line: PageLine, address: int, end: int, name: string, pread: Pread) {
    && address < end
    && pread(address / 0x1000 * 8) == Some(line.data) && line.address == address && line.name == name
  }

  /** The pages of 4096 bytes are gone through one by one from the start.  For
      each the eight bytes of its entry are asked for, and the entry is printed
      with the address.  It ends at the first page past the end, or at the first
      read that fails, which is asked for but not printed. */
  ghost predicate RangeDone(start: int, end: int, name: string, pread: Pread, requests: seq<int>, lines: seq<PageLine>) {
    var next := start + 0x1000 * |lines|;
    && (forall k | 0 <= k < |lines| :: LineIs(lines[k], start + 0x1000 * k, end, name, pread))
    && (next < end ==> pread(next / 0x1000 * 8).None?)
    && |requests| == |lines| + (if next < end then 1 else 0)
    && forall k | 0 <= k < |requests| :: requests[k] == (start + 0x1000 * k) / 0x1000 * 8
  }

  lemma {:induction false} PagesInOrder(start: int, end: int, name: string, pread: Pread)
    ensures RangeDone(start, end, name, pread, Requests(start, end, pread), Lines(start, end, name, pread))
    decreases end - start
  {
    if start < end && pread(start / PAGE * ENTRY).Some? {
      PagesInOrder(start + PAGE, end, name, pread);
      OneMorePage(start, end, name, pread, Requests(start + PAGE, end, pread), Lines(start + PAGE, end, name, pread));
    }
  }

  lemma OneMorePage(start: int, end: int, name: string, pread: Pread, requests: seq<int>, lines: seq<PageLine>)
    requires start < end && pread(start / 0x1000 * 8).Some?
    requires RangeDone(start + 0x1000, end, name, pread, requests, lines)
    ensures var data := pread(start / 0x1000 * 8).value;
      RangeDone(start, end, name, pread, [start / 0x1000 * 8] + requests, [PageLine(start, data, name)] + lines)
  {
    var all := [PageLine(start, pread(start / 0x1000 * 8).value, name)] + lines;
    forall k | 0 <= k < |all|
      ensures LineIs(all[k], start + 0x1000 * k, end, name, pread)
    {
      if k > 0 {
        assert LineIs(lines[k - 1], start + 0x1000 + 0x1000 * (k - 1), end, name, pread);
      }
    }
    var asked := [start / 0x1000 * 8] + requests;
    forall k | 0 <= k < |asked|
      ensures asked[k] == (start + 0x1000 * k) / 0x1000 * 8
    {
      if k > 0 {
        assert requests[k - 1] == (start + 0x1000 + 0x1000 * (k - 1)) / 0x1000 * 8;
      }
    }
  }

  /** The whole range is gone through: the entries asked for are the eight bytes
      at 8p for its pages p, and each page gets a line. */
  ghost predicate AllPages(start: int, end: int, requests: seq<int>, lines: seq<PageLine>) {
    && |requests| == |lines| == (if start <= end then end / 0x1000 - start / 0x1000 else 0)
    && (forall k | 0 <= k < |requests| :: requests[k] == 8 * (start / 0x1000 + k))
    && forall k | 0 <= k < |lines| :: lines[k].address == start + 0x1000 * k
  }

  /** With aligned bounds and full reads nothing of the range is left out. */
  lemma FullRange(start: int, end: int, name: string, pread: Pread, requests: seq<int>, lines: seq<PageLine>)
    requires RangeDone(start, end, name, pread, requests, lines) && AllFull(pread)
    requires Aligned(start) && Aligned(end)
    ensures AllPages(start, end, requests, lines)
  {
    if lines != [] {
      assert LineIs(lines[|lines| - 1], start + 0x1000 * (|lines| - 1), end, name, pread);
    }
    var first, last := start / 0x1000, end / 0x1000;
    assert start == 0x1000 * first && end == 0x1000 * last;
    PageCount(first, last, |lines|);
    forall k | 0 <= k < |lines|
      ensures lines[k].address == start + 0x1000 * k
    {
      assert LineIs(lines[k], start + 0x1000 * k, end, name, pread);
    }
  }

  lemma PageCount(first: int, last: int, n: nat)
    requires 0x1000 * first + 0x1000 * n >= 0x1000 * last
    requires n > 0 ==> 0x1000 * first + 0x1000 * (n - 1) < 0x1000 * last
    ensures n == if first <= last then last - first else 0
  {
  }

  predicate Aligned(v: int) { v % PAGE == 0 }

  /** Mappings begin and end at page borders, and then the counter is safe. */
  lemma AlignedNoWrap(start: int, end: int)
    requires IsWord(start) && IsWord(end) && Aligned(start) && Aligned(end)
    ensures NoWrap(start, end)
    ensures start <= end ==> Stop(start, end) == end
  {
  }

  ghost predicate AllFull(pread: Pread) {
    forall offset :: pread(offset).Some?
  }

  function Offsets(first: int, last: int): (r: seq<int>)
    ensures |r| == if first <= last then last - first else 0
    ensures forall p | 0 <= p < |r| :: r[p] == 8 * (first + p)
  {
    seq(if first <= last then last - first else 0, p => 8 * (first + p))
  }

  /** The entries asked for are those of the pages of the mapping, in order and
      once each. */
  lemma {:induction false} EveryPageOnce(start: int, end: int, pread: Pread)
    requires Aligned(start) && Aligned(end) && start <= end && AllFull(pread)
    ensures Requests(start, end, pread) == Offsets(start / 0x1000, end / 0x1000)
    decreases end - start
  {
    if start < end {
      EveryPageOnce(start + PAGE, end, pread);
      assert (start + PAGE) / PAGE == start / PAGE + 1;
      assert Offsets(start / PAGE, end / PAGE) == [start / PAGE * ENTRY] + Offsets(start / PAGE + 1, end / PAGE);
    }
  }

  datatype Range = Range(low: int, high: int)

  /** Mappings as they are listed: page-aligned, ascending, not overlapping. */
  predicate Ascending(ranges: seq<Range>) {
    && (forall r | 0 <= r < |ranges| ::
          Aligned(ranges[r].low) && Aligned(ranges[r].high) && ranges[r].low <= ranges[r].high)
    && (forall r, s | 0 <= r < s < |ranges| :: ranges[r].high <= ranges[s].low)
  }

  function AllRequests(ranges: seq<Range>, pread: Pread): seq<int> {
    if ranges == [] then []
    else
      var last := ranges[|ranges| - 1];
      AllRequests(ranges[..|ranges| - 1], pread) + Requests(last.low, last.high, pread)
  }

  predicate Increasing(s: seq<int>) {
    forall i, j | 0 <= i < j < |s| :: s[i] < s[j]
  }

  /** Over a whole list of mappings no page is looked up twice. */
  lemma {:induction false} NoPageTwice(ranges: seq<Range>, pread: Pread)
    requires Ascending(ranges) && AllFull(pread)
    ensures Increasing(AllRequests(ranges, pread))
    ensures ranges != [] ==>
      forall i | 0 <= i < |AllRequests(ranges, pread)| ::
        AllRequests(ranges, pread)[i] < 8 * (ranges[|ranges| - 1].high / 0x1000)
  {
    if ranges != [] {
      var init, last := ranges[..|ranges| - 1], ranges[|ranges| - 1];
      NoPageTwice(init, pread);
      EveryPageOnce(last.low, last.high, pread);
      if init != [] {
        assert init[|init| - 1].high <= last.low;
      }
    }
  }
}
