/** NOR flash and the log format on it: an append-only data area, and a journal of begin/end words at
    the end of the partition.  A disk is consistent when it is what a power loss may leave behind. */
module FlashDisk {
  import opened Bytes

  const ITEMS: nat := 32
  const JOURNAL_SIZE: nat := 256
  const ERASED_WORD: seq<Byte> := [255, 255, 255, 255]
  const SAMPLE_STEP: nat := 128

  /** The bytes of a partition, and how often each was programmed since it was erased. */
  datatype Disk = Disk(bytes: seq<Byte>, programs: seq<nat>)
  {
    predicate Sized() {
      |bytes| == |programs| && JOURNAL_SIZE <= |bytes| < 0x1_0000_0000
    }

    function DataSize(): nat
      requires Sized()
    {
      |bytes| - JOURNAL_SIZE
    }
  }

  // ----- Raw writes -----

  datatype Raw = Raw(addr: nat, data: seq<Byte>)

  /** Programming can only clear bits; a write that does not fit the partition is refused. */
  function Program(d: Disk, w: Raw): (d': Disk)
    requires d.Sized()
    ensures d'.Sized() && |d'.bytes| == |d.bytes|
  {
    if w.addr + |w.data| > |d.bytes| then d
    else Disk(
      seq(|d.bytes|, x requires 0 <= x < |d.bytes| =>
        if w.addr <= x < w.addr + |w.data| then And(d.bytes[x], w.data[x - w.addr]) else d.bytes[x]),
      seq(|d.bytes|, x requires 0 <= x < |d.bytes| =>
        if w.addr <= x < w.addr + |w.data| then d.programs[x] + 1 else d.programs[x]))
  }

  function ProgramAll(d: Disk, ws: seq<Raw>): (d': Disk)
    requires d.Sized()
    ensures d'.Sized() && |d'.bytes| == |d.bytes|
  {
    if ws == [] then d else Program(ProgramAll(d, ws[..|ws| - 1]), ws[|ws| - 1])
  }

  function Blank(size: nat): Disk {
    Disk(seq(size, _ => 255), seq(size, _ => 0))
  }

  /** Writing erased cells stores exactly the data. */
  lemma ProgramErased(d: Disk, w: Raw)
    requires d.Sized() && w.addr + |w.data| <= |d.bytes|
    requires forall x :: w.addr <= x < w.addr + |w.data| ==> d.bytes[x] == 255
    ensures Program(d, w).bytes == d.bytes[..w.addr] + w.data + d.bytes[w.addr + |w.data|..]
  {
    hide And;
    forall x | w.addr <= x < w.addr + |w.data| ensures Program(d, w).bytes[x] == w.data[x - w.addr] {
      AndWithErased(w.data[x - w.addr]);
    }
  }

  // ----- 32-bit words -----

  function LE4(n: nat): (r: seq<Byte>)
    ensures |r| == 4
  {
    [n % 256, (n / 256) % 256, (n / 65536) % 256, (n / 16777216) % 256]
  }

  function Word4(s: seq<Byte>): nat
    requires |s| == 4
  {
    var b0: nat, b1: nat, b2: nat, b3: nat := s[0], s[1], s[2], s[3];
    b0 + 256 * b1 + 65536 * b2 + 16777216 * b3
  }

  lemma WordRoundTrip(n: nat)
    requires n < 0x1_0000_0000
    ensures Word4(LE4(n)) == n
    ensures n != 0xFFFF_FFFF ==> LE4(n) != ERASED_WORD
  {
    assert n / 65536 == n / 256 / 256 && n / 16777216 == n / 256 / 256 / 256;
    assert Word4(ERASED_WORD) == 0xFFFF_FFFF;
  }

  // ----- The log format -----

  /** Where log `i` begins: at the end of the one before. */
  function Begin(ends: seq<nat>, i: nat): nat
    requires i <= |ends|
  {
    if i == 0 then 0 else ends[i - 1]
  }

  function JournalAddress(d: Disk, i: nat, end: bool): nat
    requires d.Sized()
  {
    d.DataSize() + 8 * i + (if end then 4 else 0)
  }

  function JournalWord(d: Disk, i: nat, end: bool): seq<Byte>
    requires d.Sized() && i < ITEMS
  {
    var at := JournalAddress(d, i, end);
    d.bytes[at..at + 4]
  }

  /** What the journal must hold: `|ends|` closed logs, then perhaps the begin of an open one. */
  function ExpectedWord(ends: seq<nat>, open: bool, i: nat, end: bool): seq<Byte> {
    if i < |ends| then LE4(if end then ends[i] else Begin(ends, i))
    else if i == |ends| && open && !end then LE4(Begin(ends, i))
    else ERASED_WORD
  }

  predicate Ordered(ends: seq<nat>, limit: nat) {
    (forall i :: 0 <= i < |ends| ==> Begin(ends, i) <= ends[i] <= limit)
  }

  /** The disk holds the closed logs `ends`, perhaps an open one, with data up to `a`; logs tile the
      data area, the open log is programmed up to `a`, everything behind `a` is erased, and nothing
      was programmed twice. */
  ghost predicate OnDisk(d: Disk, ends: seq<nat>, open: bool, a: nat) {
    d.Sized() && |ends| <= ITEMS && (open ==> |ends| < ITEMS) &&
    Ordered(ends, d.DataSize()) && Begin(ends, |ends|) <= a <= d.DataSize() &&
    (!open ==> a == Begin(ends, |ends|)) &&
    (forall x :: 0 <= x < |d.bytes| ==> d.programs[x] <= 1) &&
    (forall x :: Begin(ends, |ends|) <= x < a ==> d.programs[x] == 1) &&
    (forall x :: a <= x < d.DataSize() ==> d.programs[x] == 0 && d.bytes[x] == 255) &&
    JournalHolds(d, ends, open)
  }

  ghost predicate JournalHolds(d: Disk, ends: seq<nat>, open: bool)
    requires d.Sized()
  {
    (forall i, end :: 0 <= i < ITEMS ==> JournalWord(d, i, end) == ExpectedWord(ends, open, i, end)) &&
    (forall i, end, x :: 0 <= i < ITEMS && WordFree(ends, open, i, end) && InWord(d, i, end, x) ==> d.programs[x] == 0)
  }

  predicate WordFree(ends: seq<nat>, open: bool, i: nat, end: bool) {
    i > |ends| || (i == |ends| && (end || !open))
  }

  predicate InWord(d: Disk, i: nat, end: bool, x: int)
    requires d.Sized()
  {
    JournalAddress(d, i, end) <= x < JournalAddress(d, i, end) + 4 && i < ITEMS
  }

  lemma OnDiskFacts(d: Disk, ends: seq<nat>, open: bool, a: nat)
    requires OnDisk(d, ends, open, a)
    ensures d.Sized() && |ends| <= ITEMS && (open ==> |ends| < ITEMS)
    ensures Ordered(ends, d.DataSize()) && Begin(ends, |ends|) <= a <= d.DataSize()
    ensures !open ==> a == Begin(ends, |ends|)
  {}

  /** The number in four bytes, the lowest first. */
  function NumberAt(d: Disk, at: nat): nat
    requires at + 4 <= |d.bytes|
  {
    var b0: nat, b1: nat, b2: nat, b3: nat := d.bytes[at], d.bytes[at + 1], d.bytes[at + 2], d.bytes[at + 3];
    b0 + 0x100 * b1 + 0x1_0000 * b2 + 0x100_0000 * b3
  }

  /** The journal byte by byte: 32 entries of two numbers in the last 256 bytes, the begin and the end of
      each log; what has not been recorded reads as all ones. */
  lemma JournalOnFlash(d: Disk, ends: seq<nat>, open: bool, a: nat, i: nat)
    requires OnDisk(d, ends, open, a) && i < 32
    ensures var at := |d.bytes| - 256 + 8 * i;
            at + 8 <= |d.bytes| && |ends| <= 32 &&
            NumberAt(d, at) == (if i < |ends| || (i == |ends| && open) then (if i == 0 then 0 else ends[i - 1]) else 0xFFFF_FFFF) &&
            NumberAt(d, at + 4) == (if i < |ends| then ends[i] else 0xFFFF_FFFF)
  {
    hide LE4, OnDisk, Word4, NumberAt;
    OnDiskFacts(d, ends, open, a);
    WordsAsExpected(d, ends, open, a, i);
    ErasedNumber();
    WordIsNumber(d, JournalAddress(d, i, false));
    WordIsNumber(d, JournalAddress(d, i, true));
    if i <= |ends| {
      WordRoundTrip(Begin(ends, i));
      if i < |ends| { WordRoundTrip(ends[i]); }
    }
  }

  lemma WordsAsExpected(d: Disk, ends: seq<nat>, open: bool, a: nat, i: nat)
    requires OnDisk(d, ends, open, a) && i < ITEMS
    ensures d.Sized()
    ensures JournalWord(d, i, false) == ExpectedWord(ends, open, i, false)
    ensures JournalWord(d, i, true) == ExpectedWord(ends, open, i, true)
  {}

  lemma ErasedNumber()
    ensures Word4(ERASED_WORD) == 0xFFFF_FFFF
  {}

  lemma WordIsNumber(d: Disk, at: nat)
    requires at + 4 <= |d.bytes|
    ensures Word4(d.bytes[at..at + 4]) == NumberAt(d, at)
  {}

  // ----- The three kinds of raw write -----

  function BeginRecord(d: Disk, ends: seq<nat>): Raw
    requires d.Sized()
  {
    Raw(JournalAddress(d, |ends|, false), LE4(Begin(ends, |ends|)))
  }

  function EndRecord(d: Disk, ends: seq<nat>, a: nat): Raw
    requires d.Sized()
  {
    Raw(JournalAddress(d, |ends|, true), LE4(a))
  }

  /** What a write to erased cells leaves: the data there, everything else as it was. */
  lemma Written(d: Disk, w: Raw)
    requires d.Sized() && w.addr + |w.data| <= |d.bytes|
    requires forall x :: w.addr <= x < w.addr + |w.data| ==> d.bytes[x] == 255
    ensures var d' := Program(d, w);
            d'.bytes[w.addr..w.addr + |w.data|] == w.data &&
            (forall x :: 0 <= x < |d.bytes| && !(w.addr <= x < w.addr + |w.data|) ==>
              d'.bytes[x] == d.bytes[x] && d'.programs[x] == d.programs[x]) &&
            (forall x :: w.addr <= x < w.addr + |w.data| ==> d'.programs[x] == d.programs[x] + 1)
  {
    hide And;
    ProgramErased(d, w);
  }

  /** A write outside a journal word leaves the word. */
  lemma WordStays(d: Disk, d': Disk, lo: nat, hi: nat, j: nat, e: bool)
    requires d.Sized() && d'.Sized() && |d'.bytes| == |d.bytes| && j < ITEMS
    requires forall x :: 0 <= x < |d.bytes| && !(lo <= x < hi) ==> d'.bytes[x] == d.bytes[x]
    requires hi <= JournalAddress(d, j, e) || JournalAddress(d, j, e) + 4 <= lo
    ensures JournalWord(d', j, e) == JournalWord(d, j, e)
  {}

  /** An erased journal word takes a record; the data area and every other word stay. */
  lemma RecordWritten(d: Disk, i: nat, end: bool, word: seq<Byte>)
    requires d.Sized() && i < ITEMS && |word| == 4 && JournalWord(d, i, end) == ERASED_WORD
    ensures var d' := Program(d, Raw(JournalAddress(d, i, end), word));
            d'.bytes[..d.DataSize()] == d.bytes[..d.DataSize()] &&
            JournalWord(d', i, end) == word &&
            (forall j, e :: 0 <= j < ITEMS && (j != i || e != end) ==> JournalWord(d', j, e) == JournalWord(d, j, e)) &&
            (forall x :: 0 <= x < |d.bytes| ==> d'.programs[x] == d.programs[x] + (if InWord(d, i, end, x) then 1 else 0))
  {
    hide Program;
    var at := JournalAddress(d, i, end);
    forall x | at <= x < at + 4 ensures d.bytes[x] == 255 {
      assert d.bytes[x] == JournalWord(d, i, end)[x - at];
    }
    var d' := Program(d, Raw(at, word));
    Written(d, Raw(at, word));
    forall j, e | 0 <= j < ITEMS && (j != i || e != end) ensures JournalWord(d', j, e) == JournalWord(d, j, e) {
      WordStays(d, d', at, at + 4, j, e);
    }
  }

  /** Recording a word keeps the journal, for the log list that expects it. */
  lemma JournalTakes(d: Disk, ends: seq<nat>, open: bool, ends': seq<nat>, open': bool, i: nat, end: bool, word: seq<Byte>)
    requires d.Sized() && i < ITEMS && |word| == 4 && JournalHolds(d, ends, open)
    requires forall x :: 0 <= x < |d.bytes| ==> d.programs[x] <= 1
    requires WordFree(ends, open, i, end) && ExpectedWord(ends', open', i, end) == word
    requires forall j, e :: 0 <= j < ITEMS && (j != i || e != end) ==>
      ExpectedWord(ends', open', j, e) == ExpectedWord(ends, open, j, e) &&
      (WordFree(ends', open', j, e) ==> WordFree(ends, open, j, e))
    requires !WordFree(ends', open', i, end)
    ensures var d' := Program(d, Raw(JournalAddress(d, i, end), word));
            JournalHolds(d', ends', open') &&
            d'.bytes[..d.DataSize()] == d.bytes[..d.DataSize()] &&
            (forall x :: 0 <= x < |d.bytes| ==> d'.programs[x] <= 1) &&
            (forall x :: 0 <= x < d.DataSize() ==> d'.programs[x] == d.programs[x])
  {
    hide Program;
    assert ExpectedWord(ends, open, i, end) == ERASED_WORD;
    RecordWritten(d, i, end, word);
    var d' := Program(d, Raw(JournalAddress(d, i, end), word));
    forall x | 0 <= x < |d.bytes| ensures d'.programs[x] <= 1 {
      if InWord(d, i, end, x) { assert d.programs[x] == 0; }
    }
    forall j, e, x | 0 <= j < ITEMS && WordFree(ends', open', j, e) && InWord(d', j, e, x) ensures d'.programs[x] == 0 {
      assert j != i || e != end;
      assert InWord(d, j, e, x) && d.programs[x] == 0;
    }
  }

  lemma BeginKeeps(d: Disk, ends: seq<nat>)
    requires OnDisk(d, ends, false, Begin(ends, |ends|)) && |ends| < ITEMS
    ensures var d' := Program(d, BeginRecord(d, ends));
            OnDisk(d', ends, true, Begin(ends, |ends|)) && d'.bytes[..d.DataSize()] == d.bytes[..d.DataSize()]
  {
    hide Program, JournalHolds, LE4;
    JournalTakes(d, ends, false, ends, true, |ends|, false, LE4(Begin(ends, |ends|)));
    var d' := Program(d, BeginRecord(d, ends));
    forall x | 0 <= x < d.DataSize() ensures d'.bytes[x] == d.bytes[x] {
      assert d'.bytes[..d.DataSize()][x] == d.bytes[..d.DataSize()][x];
    }
  }

  /** Closing an open log at any end at or behind its data. */
  lemma EndAnywhere(d: Disk, ends: seq<nat>, a: nat, e: nat)
    requires OnDisk(d, ends, true, a) && a <= e <= d.DataSize()
    ensures OnDisk(Program(d, EndRecord(d, ends, e)), ends + [e], false, e)
    ensures Program(d, EndRecord(d, ends, e)).bytes[..d.DataSize()] == d.bytes[..d.DataSize()]
  {
    hide Program, JournalHolds, LE4;
    EndJournal(d, ends, a, e);
    var d' := Program(d, EndRecord(d, ends, e));
    forall x | 0 <= x < d.DataSize() ensures d'.bytes[x] == d.bytes[x] {
      assert d'.bytes[..d.DataSize()][x] == d.bytes[..d.DataSize()][x];
    }
  }

  lemma EndJournal(d: Disk, ends: seq<nat>, a: nat, e: nat)
    requires OnDisk(d, ends, true, a)
    ensures var d' := Program(d, EndRecord(d, ends, e));
            JournalHolds(d', ends + [e], false) &&
            d'.bytes[..d.DataSize()] == d.bytes[..d.DataSize()] &&
            (forall x :: 0 <= x < |d.bytes| ==> d'.programs[x] <= 1) &&
            (forall x :: 0 <= x < d.DataSize() ==> d'.programs[x] == d.programs[x])
  {
    hide Program, JournalHolds, LE4;
    forall j, h | 0 <= j < ITEMS && (j != |ends| || !h)
      ensures ExpectedWord(ends + [e], false, j, h) == ExpectedWord(ends, true, j, h)
      ensures WordFree(ends + [e], false, j, h) ==> WordFree(ends, true, j, h)
    {}
    JournalTakes(d, ends, true, ends + [e], false, |ends|, true, LE4(e));
  }

  lemma DataKeeps(d: Disk, ends: seq<nat>, a: nat, data: seq<Byte>)
    requires OnDisk(d, ends, true, a) && a + |data| <= d.DataSize()
    ensures var d' := Program(d, Raw(a, data));
            OnDisk(d', ends, true, a + |data|) &&
            d'.bytes[..a] == d.bytes[..a] && d'.bytes[a..a + |data|] == data
  {
    hide Program, LE4;
    var d' := Program(d, Raw(a, data));
    Written(d, Raw(a, data));
    forall j, e | 0 <= j < ITEMS ensures JournalWord(d', j, e) == JournalWord(d, j, e) {
      WordStays(d, d', a, a + |data|, j, e);
    }
    forall j, e, x | 0 <= j < ITEMS && WordFree(ends, true, j, e) && InWord(d', j, e, x) ensures d'.programs[x] == 0 {
      assert InWord(d, j, e, x);
    }
  }

  /** A blank partition is consistent and empty. */
  lemma BlankOnDisk(size: nat)
    requires JOURNAL_SIZE <= size < 0x1_0000_0000
    ensures OnDisk(Blank(size), [], false, 0)
  {}
}
