/** Counting the physical memory byte by byte, and showing the count on the
    text screen as eight hex digits. */
module MemoryProbe {
  import Hex

  const SIGNATURE: int := 0xAE
  const FIRST: int := 0x10_0001  // the first megabyte and one byte are skipped
  const ROUNDS: int := 0xFFEF_FFFE
  const MEGABYTE: int := 0x10_0000
  const WORD32: int := 0x1_0000_0000

  /** Memory as the processor sees it: RAM, and addresses behind it where
      writes are lost and reads give something of the bus's own. */
  class Bus {
    const ram: array<int>
    const floating: int -> int

    constructor (ram: array<int>, floating: int -> int)
      ensures this.ram == ram && this.floating == floating
    {
      this.ram, this.floating := ram, floating;
    }

    function Read(address: nat): int
      reads ram
    {
      if address < ram.Length then ram[address] else floating(address)
    }

    method Write(address: nat, v: int)
      modifies ram
      ensures ram[..] == if address < ram.Length then old(ram[..])[address := v] else old(ram[..])
    {
      if address < ram.Length {
        ram[address] := v;
      }
    }

    /** Nothing behind the RAM reads back as the signature. */
    ghost predicate Honest()
    {
      ram.Length <= WORD32 && forall a | a >= ram.Length :: floating(a) != SIGNATURE
    }
  }

  /** Where the probe stops, for any size of RAM. */
  function Probed(size: nat): nat {
    if size < FIRST then FIRST else if size >= WORD32 then WORD32 - 1 else size
  }

  /** Tries address after address: save the byte, write the signature, compare,
      restore.  Afterwards every byte of RAM has its old value. */
  method CountMemory(bus: Bus) returns (ebx: nat)
    requires bus.Honest()
    modifies bus.ram
    ensures ebx == Probed(bus.ram.Length)
    ensures bus.ram[..] == old(bus.ram[..])
  {
    ebx := FIRST;
    var ecx := ROUNDS;
    ghost var was := bus.ram[..];
    var found := true;
    while found && ecx != 0
      invariant ebx + ecx == WORD32 - 1 && 0 <= ecx <= ROUNDS
      invariant ebx == FIRST || ebx <= bus.ram.Length
      invariant !found ==> ebx >= bus.ram.Length
      invariant bus.ram[..] == was
      decreases found, ecx
    {
      var dh := bus.Read(ebx);
      bus.Write(ebx, SIGNATURE);
      found := bus.Read(ebx) == SIGNATURE;
      if found {
        bus.Write(ebx, dh);
        ebx := (ebx + 1) % WORD32;
        ecx := ecx - 1;
      }
    }
  }

  /** The probe is exact for these sizes, and the number of megabytes that it
      leads to for one size more. */
  lemma ProbeExact(size: nat)
    requires size <= WORD32
    ensures Probed(size) == size <==> 0x10_0001 <= size < 0x1_0000_0000
    ensures Probed(size) / 0x10_0000 == size / 0x10_0000 <==> 0x10_0000 <= size < 0x1_0000_0000
    ensures size <= 0x10_0000 ==> Probed(size) == 0x10_0001
    ensures size == 0x1_0000_0000 ==> Probed(size) == 0xFFFF_FFFF
  {
  }

  // ------------------------------------------------------------ hex printer

  /** ror eax, 4 */
  function Ror4(eax: int): int {
    eax / 16 + eax % 16 * 0x1000_0000
  }

  lemma Shift(d: int, p: int, v: int)
    ensures (d * p + v) * 16 == d * (16 * p) + v * 16
  {
  }

  lemma {:induction false} ValuePrepend(c: char, s: string)
    ensures Hex.Value([c] + s, 'A') == Hex.DigitValue(c, 'A') * Hex.Pow16(|s|) + Hex.Value(s, 'A')
    decreases |s|
  {
    if s == "" {
      assert [c] + s == [c] && [c][..0] == "";
    } else {
      var init := s[..|s| - 1];
      assert ([c] + s)[..|s|] == [c] + init;
      ValuePrepend(c, init);
      Shift(Hex.DigitValue(c, 'A'), Hex.Pow16(|init|), Hex.Value(init, 'A'));
    }
  }

  lemma SevenDigits()
    ensures Hex.Pow16(7) == 0x1000_0000
  {
    assert Hex.Pow16(3) == 0x1000;
    assert Hex.Pow16(5) == 0x10_0000;
  }

  lemma LastFourBits(v: int, d: int)
    requires 0 <= d < 16
    ensures (v * 16 + d) % 16 == d && Ror4(v * 16 + d) == v + d * 0x1000_0000
  {
  }

  /** Rotating the number by four bits moves its last digit to the front. */
  lemma RotateNumeral(s: string)
    requires |s| == 8 && Hex.IsNumeral(s, 'A')
    ensures Ror4(Hex.Value(s, 'A')) == Hex.Value([s[7]] + s[..7], 'A')
    ensures Hex.Value(s, 'A') % 16 == Hex.DigitValue(s[7], 'A')
  {
    ValuePrepend(s[7], s[..7]);
    SevenDigits();
    var v, d := Hex.Value(s[..7], 'A'), Hex.DigitValue(s[7], 'A');
    assert Hex.IsDigit(s[7], 'A');
    assert Hex.Value(s, 'A') == v * 16 + d;
    LastFourBits(v, d);
  }

  /** The numeral after `k` rotations. */
  function Rotated(s: string, k: nat): string
    requires k <= |s|
  {
    s[|s| - k..] + s[..|s| - k]
  }

  lemma RotatedOnce(s: string, k: nat)
    requires |s| == 8 && k < 8
    ensures Rotated(s, k)[7] == s[7 - k]
    ensures [Rotated(s, k)[7]] + Rotated(s, k)[..7] == Rotated(s, k + 1)
  {
    var r := Rotated(s, k);
    assert r[..7] == s[8 - k..] + s[..7 - k];
    assert [s[7 - k]] + s[8 - k..] == s[7 - k..];
  }

  lemma RotateStep(s: string, k: nat)
    requires |s| == 8 && Hex.IsNumeral(s, 'A') && k < 8
    ensures Ror4(Hex.Value(Rotated(s, k), 'A')) == Hex.Value(Rotated(s, k + 1), 'A')
    ensures Hex.Value(Rotated(s, k), 'A') % 16 == Hex.DigitValue(s[7 - k], 'A')
  {
    RotatedOnce(s, k);
    RotateNumeral(Rotated(s, k));
  }

  const PARAM: int := 0x1E  // attribute of every cell

  /** A cell on the screen: a character and its attribute. */
  ghost predicate CellIs(screen: seq<int>, a: nat, c: char) {
    a + 1 < |screen| && screen[a] == c as int && screen[a + 1] == PARAM
  }

  /** The part of a text from its `k`th character on is on the screen. */
  ghost predicate ShowsFrom(screen: seq<int>, at: nat, text: string, k: nat) {
    forall j | k <= j < |text| :: CellIs(screen, at + 2 * j, text[j])
  }

  ghost predicate Shows(screen: seq<int>, at: nat, text: string) {
    ShowsFrom(screen, at, text, 0)
  }

  /** The screen differs at most from `at` on, for `n` cells. */
  ghost predicate OnlyCells(was: seq<int>, now: seq<int>, at: nat, n: nat) {
    |now| == |was| && forall a | 0 <= a < |was| && !(at <= a < at + 2 * n) :: now[a] == was[a]
  }

  /** mov es:[ebx], dx */
  method Store(screen: array<int>, ebx: nat, dl: int, dh: int)
    requires ebx + 1 < screen.Length
    modifies screen
    ensures screen[..] == old(screen[..])[ebx := dl][ebx + 1 := dh]
  {
    screen[ebx] := dl;
    screen[ebx + 1] := dh;
  }

  lemma StoreShows(screen: seq<int>, at: nat, text: string, k: nat)
    requires k < |text| && at + 2 * |text| <= |screen| && ShowsFrom(screen, at, text, k + 1)
    ensures ShowsFrom(screen[at + 2 * k := text[k] as int][at + 2 * k + 1 := PARAM], at, text, k)
  {
    var now := screen[at + 2 * k := text[k] as int][at + 2 * k + 1 := PARAM];
    forall j | k <= j < |text|
      ensures CellIs(now, at + 2 * j, text[j])
    {
      assert j > k ==> CellIs(screen, at + 2 * j, text[j]);
    }
  }

  /** Puts character `k` of a text where it belongs. */
  method StoreCell(screen: array<int>, at: nat, ghost text: string, ghost k: nat, ebx: nat, dl: int, ghost was: seq<int>)
    requires k < |text| && at + 2 * |text| <= screen.Length && ebx == at + 2 * k && dl == text[k] as int
    requires ShowsFrom(screen[..], at, text, k + 1) && OnlyCells(was, screen[..], at, |text|)
    modifies screen
    ensures ShowsFrom(screen[..], at, text, k) && OnlyCells(was, screen[..], at, |text|)
  {
    StoreShows(screen[..], at, text, k);
    Store(screen, ebx, dl, PARAM);
  }

  /** The digit under the last four bits, compared with 10 as the code does. */
  method LastDigit(eax: int, ghost c: char) returns (dl: int)
    requires eax % 16 == Hex.DigitValue(c, 'A') && Hex.IsDigit(c, 'A')
    ensures dl == c as int
  {
    dl := eax % 16;
    if dl < 10 {
      dl := dl + '0' as int;
    } else {
      dl := dl - 10 + 'A' as int;
    }
  }

  /** Prints a 32-bit number leftwards from the cell at `last`: the uppercase
      numeral of eight digits, on eight cells and no other.  After the eight
      rotations eax is what it was. */
  method PrintCount(screen: array<int>, number: int, last: nat) returns (eax: int)
    requires 0 <= number < WORD32 && 14 <= last && last + 1 < screen.Length
    modifies screen
    ensures eax == number
    ensures Shows(screen[..], last - 14, Hex.Numeral(number, 8, 'A'))
    ensures OnlyCells(old(screen[..]), screen[..], last - 14, 8)
  {
    ghost var s := Hex.Numeral(number, 8, 'A');
    Hex.Pow16Word();
    Hex.NumeralValue(number, 8, 'A');
    assert Rotated(s, 0) == s;
    eax := number;
    var ebx: int := last;
    for k := 0 to 8
      invariant ebx == last - 2 * k
      invariant eax == Hex.Value(Rotated(s, k), 'A')
      invariant ShowsFrom(screen[..], last - 14, s, 8 - k)
      invariant OnlyCells(old(screen[..]), screen[..], last - 14, 8)
    {
      RotateStep(s, k);
      var dl := LastDigit(eax, s[7 - k]);
      StoreCell(screen, last - 14, s, 7 - k, ebx, dl, old(screen[..]));
      eax := Ror4(eax);
      ebx := ebx - 2;
    }
    assert Rotated(s, 8) == s;
  }

  const MEM_POS: nat := 0
  const MEM_VALUE_POS: nat := 14 + 16
  const MB_POS: nat := 30 + 2

  /** Prints a text rightwards from the cell at `at`. */
  method PrintText(screen: array<int>, at: nat, text: string)
    requires at + 2 * |text| <= screen.Length
    modifies screen
    ensures Shows(screen[..], at, text)
    ensures OnlyCells(old(screen[..]), screen[..], at, |text|)
  {
    for j := 0 to |text|
      invariant forall i | 0 <= i < j :: CellIs(screen[..], at + 2 * i, text[i])
      invariant OnlyCells(old(screen[..]), screen[..], at, |text|)
    {
      ghost var before := screen[..];
      Store(screen, at + 2 * j, text[j] as int, PARAM);
      forall i | 0 <= i < j + 1
        ensures CellIs(screen[..], at + 2 * i, text[i])
      {
        assert i < j ==> CellIs(before, at + 2 * i, text[i]);
      }
    }
  }

  lemma StillShows(was: seq<int>, now: seq<int>, at: nat, text: string, from: nat, n: nat)
    requires Shows(was, at, text) && OnlyCells(was, now, from, n)
    requires at + 2 * |text| <= from || from + 2 * n <= at
    ensures Shows(now, at, text)
  {
    forall j | 0 <= j < |text|
      ensures CellIs(now, at + 2 * j, text[j])
    {
      assert CellIs(was, at + 2 * j, text[j]);
    }
  }

  lemma Cells(screen: seq<int>, at: nat, text: string)
    requires Shows(screen, at, text)
    ensures forall j | 0 <= j < |text| ::
      at + 2 * j + 1 < |screen| && screen[at + 2 * j] == text[j] as int && screen[at + 2 * j + 1] == 0x1E
  {
    forall j | 0 <= j < |text|
      ensures at + 2 * j + 1 < |screen| && screen[at + 2 * j] == text[j] as int && screen[at + 2 * j + 1] == 0x1E
    {
      assert CellIs(screen, at + 2 * j, text[j]);
    }
  }

  /** The label, the probe, the number and the unit.  They stand side by side
      on the screen and touch nothing else, the number is the size of the RAM
      in megabytes, and the RAM is as before. */
  method ShowMemory(bus: Bus, screen: array<int>)
    requires bus.Honest() && bus.ram != screen && screen.Length == 4000
    modifies bus.ram, screen
    ensures bus.ram[..] == old(bus.ram[..])
    ensures Shows(screen[..], MEM_POS, "Memory: ")
    ensures Shows(screen[..], 16, Hex.Numeral(Probed(bus.ram.Length) / MEGABYTE, 8, 'A'))
    ensures Shows(screen[..], MB_POS, "Mb")
    ensures OnlyCells(old(screen[..]), screen[..], 0, 18)
    ensures forall j | 0 <= j < 8 :: screen[2 * j] == "Memory: "[j] as int && screen[2 * j + 1] == 0x1E
    ensures forall j | 0 <= j < 8 ::
      && screen[16 + 2 * j] == Hex.Numeral(Probed(bus.ram.Length) / 0x10_0000, 8, 'A')[j] as int
      && screen[16 + 2 * j + 1] == 0x1E
    ensures screen[32] == 'M' as int && screen[34] == 'b' as int && screen[33] == screen[35] == 0x1E
  {
    PrintText(screen, MEM_POS, "Memory: ");
    ghost var labelled := screen[..];
    var ebx := CountMemory(bus);
    assert screen[..] == labelled;
    var eax := ebx / MEGABYTE;
    eax := PrintCount(screen, eax, MEM_VALUE_POS);
    ghost var numbered := screen[..];
    StillShows(labelled, numbered, MEM_POS, "Memory: ", 16, 8);
    PrintText(screen, MB_POS, "Mb");
    StillShows(numbered, screen[..], MEM_POS, "Memory: ", MB_POS, 2);
    StillShows(numbered, screen[..], 16, Hex.Numeral(Probed(bus.ram.Length) / MEGABYTE, 8, 'A'), MB_POS, 2);
    Cells(screen[..], 0, "Memory: ");
    Cells(screen[..], 16, Hex.Numeral(Probed(bus.ram.Length) / MEGABYTE, 8, 'A'));
    Cells(screen[..], 32, "Mb");
    assert "Mb"[0] == 'M' && "Mb"[1] == 'b';
  }
}
