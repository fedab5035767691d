/** The blackbox log store (Blackbox/BlackboxFlashfs.cpp): a ring buffer in front of append-only flash,
    with a journal.  Outside it is a list of closed logs and one open session; inside, every raw
    write is recorded, with what the disk then holds. */
module FlashLog {
  import opened Bytes
  import opened FlashCuts
  import opened FlashDisk
  import opened FlashRecovery
  import opened Options
  import opened RingBuffer

  const WRITE_BUFFER_SIZE: nat := 128
  const FLUSH_BUFFER_SIZE: nat := 64
  const SECTOR_SIZE: nat := 4096
  const ERASED: nat := 0xFFFF_FFFF

  datatype Item = Item(logBegin: nat, logEnd: nat)

  // ----- The store as a value -----

  datatype Store = Store(disk: Disk, journal: seq<Item>, journalIdx: nat, address: nat, queue: seq<Byte>)
  {
    predicate Sized() { disk.Sized() && |journal| == ITEMS && journalIdx <= ITEMS }
  }

  function EndsIn(s: Store): seq<nat>
    requires s.Sized()
  {
    seq(s.journalIdx, i requires 0 <= i < s.journalIdx => s.journal[i].logEnd)
  }

  predicate OpenIn(s: Store)
    requires s.Sized()
  {
    s.journalIdx < ITEMS && s.journal[s.journalIdx].logBegin != ERASED
  }

  /** What the disk of a store holds. */
  ghost function CutOf(s: Store): Cut
    requires s.Sized()
  {
    Cut(EndsIn(s), OpenIn(s), s.address)
  }

  /** The RAM copy of the journal says what the disk says. */
  ghost predicate Matches(s: Store, ends: seq<nat>, open: bool)
    requires s.Sized()
  {
    s.journalIdx == |ends| &&
    forall i :: 0 <= i < ITEMS ==>
      s.journal[i].logBegin == (if i < |ends| || (i == |ends| && open) then Begin(ends, i) else ERASED) &&
      s.journal[i].logEnd == (if i < |ends| then ends[i] else ERASED)
  }

  /** What holds between any two statements that touch the disk. */
  ghost predicate Running(s: Store, ends: seq<nat>, open: bool) {
    s.Sized() && Matches(s, ends, open) && OnDisk(s.disk, ends, open, s.address) &&
    s.address + |s.queue| <= s.disk.DataSize() && (s.queue != [] ==> s.journalIdx < ITEMS)
  }

  /** What holds between calls: the queue is less than a flush, and room is left behind it. */
  ghost predicate Settled(s: Store) {
    s.Sized() && Running(s, EndsIn(s), OpenIn(s)) && |s.queue| < FLUSH_BUFFER_SIZE &&
    (s.queue != [] ==> s.address + |s.queue| < s.disk.DataSize())
  }

  lemma EndsOf(s: Store, ends: seq<nat>, open: bool)
    requires Running(s, ends, open)
    ensures s.Sized() && EndsIn(s) == ends && OpenIn(s) == open && s.journalIdx == |ends| <= ITEMS
    ensures CutOf(s) == Cut(ends, open, s.address)
    ensures Ordered(ends, s.disk.DataSize())
    ensures Begin(ends, |ends|) <= s.address && s.address + |s.queue| <= s.disk.DataSize()
    ensures !open ==> s.address == Begin(ends, |ends|)
    ensures open ==> |ends| < ITEMS
    ensures s.queue != [] ==> s.journalIdx < ITEMS
  {}

  lemma RunningIsSettled(s: Store, ends: seq<nat>, open: bool)
    requires Running(s, ends, open) && |s.queue| < FLUSH_BUFFER_SIZE
    requires s.queue != [] ==> s.address + |s.queue| < s.disk.DataSize()
    ensures Settled(s) && CutOf(s) == Cut(ends, open, s.address)
  {
    EndsOf(s, ends, open);
  }

  /** Stored bytes stay, and what was queued is now stored or still queued, in order. */
  ghost predicate Extends(s: Store, s': Store) {
    |s'.disk.bytes| == |s.disk.bytes| && s.address <= s'.address <= |s.disk.bytes| &&
    s'.disk.bytes[..s.address] == s.disk.bytes[..s.address] &&
    s'.disk.bytes[s.address..s'.address] + s'.queue == s.queue
  }

  lemma ExtendsTrans(s: Store, t: Store, u: Store)
    requires Extends(s, t) && Extends(t, u)
    ensures Extends(s, u)
  {}

  // ----- The three raw writes -----

  ghost function Began(s: Store, ends: seq<nat>): Store
    requires s.Sized() && s.journalIdx < ITEMS
  {
    s.(disk := Program(s.disk, BeginRecord(s.disk, ends)),
       journal := s.journal[s.journalIdx := s.journal[s.journalIdx].(logBegin := s.address)])
  }

  lemma BeginStore(s: Store, ends: seq<nat>)
    requires Running(s, ends, false) && s.journalIdx < ITEMS
    ensures Running(Began(s, ends), ends, true) && Extends(s, Began(s, ends))
    ensures Holds(Began(s, ends).disk, Cut(ends, true, s.address))
    ensures BeginRecord(s.disk, ends) == Raw(|s.disk.bytes| - JOURNAL_SIZE + 8 * s.journalIdx, LE4(s.address))
  {
    hide Program, LE4, JournalHolds;
    BeginKeeps(s.disk, ends);
    SameData(s, Began(s, ends));
  }

  ghost function Ended(s: Store, ends: seq<nat>): Store
    requires s.Sized() && s.journalIdx < ITEMS
  {
    s.(disk := Program(s.disk, EndRecord(s.disk, ends, s.address)),
       journal := s.journal[s.journalIdx := s.journal[s.journalIdx].(logEnd := s.address)],
       journalIdx := s.journalIdx + 1)
  }

  lemma EndStore(s: Store, ends: seq<nat>)
    requires Running(s, ends, true) && s.queue == []
    ensures s.journalIdx < ITEMS && Running(Ended(s, ends), ends + [s.address], false) && Extends(s, Ended(s, ends))
    ensures Holds(Ended(s, ends).disk, Cut(ends + [s.address], false, s.address))
    ensures EndRecord(s.disk, ends, s.address) == Raw(|s.disk.bytes| - JOURNAL_SIZE + 8 * s.journalIdx + 4, LE4(s.address))
  {
    hide Program, LE4, JournalHolds;
    EndAnywhere(s.disk, ends, s.address, s.address);
    SameData(s, Ended(s, ends));
    forall i | 0 <= i <= |ends| ensures Begin(ends + [s.address], i) == Begin(ends, i) {}
  }

  ghost function Stored(s: Store, tmp: seq<Byte>, rest: seq<Byte>): Store
    requires s.Sized()
  {
    s.(disk := Program(s.disk, Raw(s.address, tmp)), address := s.address + |tmp|, queue := rest)
  }

  lemma CutInTwo(queue: seq<Byte>, len: nat, front: seq<Byte>, rest: seq<Byte>)
    requires var n := if len <= |queue| then len else |queue|; front == queue[..n] && rest == queue[n..]
    ensures queue == front + rest && |rest| == if |queue| <= len then 0 else |queue| - len
  {}

  lemma ChunkStore(s: Store, ends: seq<nat>, tmp: seq<Byte>, rest: seq<Byte>)
    requires Running(s, ends, true) && s.queue == tmp + rest
    ensures Running(Stored(s, tmp, rest), ends, true) && Extends(s, Stored(s, tmp, rest))
    ensures Holds(Stored(s, tmp, rest).disk, Cut(ends, true, s.address + |tmp|))
  {
    hide Program, JournalHolds;
    DataKeeps(s.disk, ends, s.address, tmp);
  }

  // ----- What it means -----

  /** The contents of the closed logs. */
  ghost function LogsOf(bytes: seq<Byte>, ends: seq<nat>): seq<seq<Byte>>
    requires Ordered(ends, |bytes|)
  {
    seq(|ends|, i requires 0 <= i < |ends| => bytes[Begin(ends, i)..ends[i]])
  }

  /** Logs live below the data end, so a change above it does not touch them. */
  lemma LogsStay(bytes: seq<Byte>, bytes': seq<Byte>, ends: seq<nat>, a: nat)
    requires Ordered(ends, |bytes|) && Begin(ends, |ends|) <= a <= |bytes| <= |bytes'|
    requires bytes'[..a] == bytes[..a]
    ensures Ordered(ends, |bytes'|) && LogsOf(bytes', ends) == LogsOf(bytes, ends)
    ensures bytes'[Begin(ends, |ends|)..a] == bytes[Begin(ends, |ends|)..a]
  {
    forall i | 0 <= i < |ends| ensures ends[i] <= a && bytes'[Begin(ends, i)..ends[i]] == bytes[Begin(ends, i)..ends[i]] {
      EndsGrow(ends, i, |bytes|);
      SliceOfPrefix(bytes, bytes', a, Begin(ends, i), ends[i]);
    }
    SliceOfPrefix(bytes, bytes', a, Begin(ends, |ends|), a);
  }

  lemma SliceOfPrefix(s: seq<Byte>, t: seq<Byte>, a: nat, lo: nat, hi: nat)
    requires lo <= hi <= a <= |s| && a <= |t| && t[..a] == s[..a]
    ensures t[lo..hi] == s[lo..hi]
  {
    assert t[lo..hi] == t[..a][lo..hi] && s[lo..hi] == s[..a][lo..hi];
  }

  lemma {:induction false} EndsGrow(ends: seq<nat>, i: nat, limit: nat)
    requires Ordered(ends, limit) && i < |ends|
    ensures ends[i] <= Begin(ends, |ends|)
    decreases |ends| - i
  {
    if i + 1 < |ends| {
      EndsGrow(ends, i + 1, limit);
      assert Begin(ends, i + 1) <= ends[i + 1];
    }
  }

  /** Closing adds the open log to the closed ones. */
  lemma LogsGrow(bytes: seq<Byte>, ends: seq<nat>, a: nat)
    requires Ordered(ends, |bytes|) && Begin(ends, |ends|) <= a <= |bytes|
    ensures Ordered(ends + [a], |bytes|)
    ensures LogsOf(bytes, ends + [a]) == LogsOf(bytes, ends) + [bytes[Begin(ends, |ends|)..a]]
    ensures Begin(ends + [a], |ends + [a]|) == a
  {}

  ghost function Logs(s: Store): seq<seq<Byte>>
    requires Settled(s)
  {
    EndsOf(s, EndsIn(s), OpenIn(s));
    LogsOf(s.disk.bytes, EndsIn(s))
  }

  ghost function Session(s: Store): seq<Byte>
    requires Settled(s)
  {
    EndsOf(s, EndsIn(s), OpenIn(s));
    s.disk.bytes[Begin(EndsIn(s), s.journalIdx)..s.address] + s.queue
  }

  /** Moving queued bytes to flash changes neither the logs nor the session. */
  lemma FlushMeans(s: Store, s': Store, ends: seq<nat>, open: bool, open': bool)
    requires Running(s, ends, open) && Running(s', ends, open') && Extends(s, s')
    ensures Ordered(ends, |s.disk.bytes|) && Ordered(ends, |s'.disk.bytes|)
    ensures LogsOf(s'.disk.bytes, ends) == LogsOf(s.disk.bytes, ends)
    ensures var b := Begin(ends, |ends|);
            b <= s.address <= |s.disk.bytes| && b <= s'.address <= |s'.disk.bytes| &&
            s'.disk.bytes[b..s'.address] + s'.queue == s.disk.bytes[b..s.address] + s.queue
  {
    hide LogsOf, Running, Ordered, EndsIn, OpenIn, CutOf;
    EndsOf(s, ends, open);
    EndsOf(s', ends, open');
    LogsStay(s.disk.bytes, s'.disk.bytes, ends, s.address);
    var b := Begin(ends, |ends|);
    assert s'.disk.bytes[b..s'.address] == s'.disk.bytes[b..s.address] + s'.disk.bytes[s.address..s'.address];
  }

  /** Closing turns the session into the last closed log. */
  lemma CloseMeans(s: Store, s': Store, ends: seq<nat>, open: bool)
    requires Running(s, ends, open) && Extends(s, s') && s'.queue == []
    requires Running(s', ends + [s'.address], false)
    ensures Ordered(ends, |s.disk.bytes|) && Ordered(ends + [s'.address], |s'.disk.bytes|)
    ensures var b := Begin(ends, |ends|);
            b <= s.address <= |s.disk.bytes| &&
            LogsOf(s'.disk.bytes, ends + [s'.address]) == LogsOf(s.disk.bytes, ends) + [s.disk.bytes[b..s.address] + s.queue]
    ensures Begin(ends + [s'.address], |ends| + 1) == s'.address
  {
    hide LogsOf, OnDisk, Matches;
    EndsOf(s, ends, open);
    EndsOf(s', ends + [s'.address], false);
    LogsStay(s.disk.bytes, s'.disk.bytes, ends, s.address);
    LogsGrow(s'.disk.bytes, ends, s'.address);
    var b := Begin(ends, |ends|);
    assert s'.disk.bytes[b..s'.address] == s'.disk.bytes[b..s.address] + s'.disk.bytes[s.address..s'.address];
    assert s'.disk.bytes[s.address..s'.address] == s.queue;
  }

  // ----- Steps of the record -----

  /** A step that keeps the data keeps what the disk held; a log may be closed at the write address. */
  lemma ExtendsPrecedes(s: Store, s': Store, c: Cut, c': Cut)
    requires Extends(s, s') && c.a == s.address && c'.a == s'.address
    requires c'.ends == c.ends || c'.ends == c.ends + [s.address]
    ensures Precedes(s.disk, c, s'.disk, c')
  {}

  // ----- The store in place -----

  class Flashfs {
    const flash: array<Byte>
    ghost var programs: seq<nat>
    ghost var trace: seq<Raw>
    ghost var cuts: seq<Cut>
    const journal: array<Item>
    var journalIdx: nat
    var address: nat
    const buff: RingBuf

    constructor (size: nat)
      requires JOURNAL_SIZE <= size < 0x1_0000_0000
      ensures Valid() && flash.Length == size && Logs(View()) == [] && Session(View()) == []
      ensures trace == [] && buff.size == 128
      ensures fresh(flash) && fresh(journal) && fresh(buff) && fresh(buff.slots)
    {
      flash := new Byte[size](_ => 255);
      journal := new Item[ITEMS](_ => Item(ERASED, ERASED));
      programs := seq(size, _ => 0);
      trace, cuts := [], [Cut([], false, 0)];
      journalIdx, address := 0, 0;
      buff := new RingBuf(WRITE_BUFFER_SIZE);
      new;
      BlankOnDisk(size);
      BlankHistory(size);
      assert flash[..] == Blank(size).bytes;
      assert View().disk == Blank(size);
      assert Running(View(), [], false);
      EndsOf(View(), [], false);
    }

    /** A store at power-up, in front of the flash that was found; what is recorded of it stays recorded. */
    constructor PowerUp(bytes: seq<Byte>, ghost found: Disk, ghost record: seq<Raw>, ghost marks: seq<Cut>)
      requires JOURNAL_SIZE <= |bytes| < 0x1_0000_0000 && found.bytes == bytes
      requires History(|bytes|, record, marks) && DiskAt(|bytes|, record, |record|) == found
      ensures Shape() && Traced(marks[|record|]) && View().disk == found && buff.Contents() == []
      ensures trace == record && cuts == marks && flash.Length == |bytes|
      ensures fresh(flash) && fresh(journal) && fresh(buff) && fresh(buff.slots)
    {
      flash := new Byte[|bytes|](i requires 0 <= i < |bytes| => bytes[i]);
      journal := new Item[ITEMS](_ => Item(ERASED, ERASED));
      programs := found.programs;
      trace, cuts := record, marks;
      journalIdx, address := 0, 0;
      buff := new RingBuf(WRITE_BUFFER_SIZE);
      new;
      assert flash[..] == bytes;
    }

    ghost predicate Shape()
      reads this, journal, buff
    {
      flash.Length == |programs| && JOURNAL_SIZE <= flash.Length < 0x1_0000_0000 &&
      journal.Length == ITEMS && journalIdx <= ITEMS &&
      buff.Valid() && buff.size == WRITE_BUFFER_SIZE && buff.slots != flash
    }

    ghost function View(): Store
      requires Shape()
      reads this, flash, journal, buff, buff.slots
    {
      Store(Disk(flash[..], programs), journal[..], journalIdx, address, buff.Contents())
    }

    /** The disk is what the recorded raw writes made of a blank partition; `cuts` says what it holds
        wherever the record is cut, and `c` what it holds now. */
    ghost predicate Traced(c: Cut)
      reads this`programs, this`trace, this`cuts, flash
    {
      JOURNAL_SIZE <= flash.Length < 0x1_0000_0000 && History(flash.Length, trace, cuts) &&
      DiskAt(flash.Length, trace, |trace|) == Disk(flash[..], programs) && cuts[|trace|] == c
    }

    ghost predicate Valid()
      reads this, flash, journal, buff, buff.slots
    {
      Shape() && Settled(View()) && Traced(CutOf(View()))
    }

    lemma ValidFacts()
      requires Valid()
      ensures var s := View();
              s.Sized() && Running(s, EndsIn(s), OpenIn(s)) && Traced(Cut(EndsIn(s), OpenIn(s), address)) &&
              |s.queue| < FLUSH_BUFFER_SIZE && (s.queue != [] ==> s.address + |s.queue| < s.disk.DataSize())
    {
      hide Running, Traced;
    }

    // ----- Raw access -----

    /** Programming can only clear bits. */
    method ProgramCells(at: nat, data: seq<Byte>)
      requires at + |data| <= flash.Length
      modifies flash
      ensures forall x :: 0 <= x < flash.Length ==>
        flash[x] == if at <= x < at + |data| then And(old(flash[x]), data[x - at]) else old(flash[x])
    {
      hide And;
      for i := 0 to |data|
        invariant forall x :: 0 <= x < flash.Length ==>
          flash[x] == if at <= x < at + i then And(old(flash[x]), data[x - at]) else old(flash[x])
      {
        flash[at + i] := And(flash[at + i], data[i]);
      }
    }

    /** `flashfsWriteAbs`: one raw write, atomic against power loss. */
    method WriteRaw(at: nat, data: seq<Byte>)
      requires Shape()
      modifies this`programs, this`trace, flash
      ensures Shape() && trace == old(trace) + [Raw(at, data)]
      ensures View() == old(View()).(disk := Program(old(View().disk), Raw(at, data)))
    {
      hide And;
      ghost var d := View().disk;
      ghost var w := Raw(at, data);
      if at + |data| <= flash.Length {
        ProgramCells(at, data);
        programs := Program(d, w).programs;
        assert flash[..] == Program(d, w).bytes;
      }
      trace := trace + [w];
    }

    /** A raw write that leaves the disk in order and keeps what it held. */
    method WriteAbs(at: nat, data: seq<Byte>, ghost was: Cut, ghost c: Cut)
      requires Shape() && Traced(was)
      requires Holds(Program(View().disk, Raw(at, data)), c)
      requires Precedes(View().disk, was, Program(View().disk, Raw(at, data)), c)
      modifies this`programs, this`trace, this`cuts, flash
      ensures Shape() && Traced(c) && old(trace) <= trace && old(cuts) <= cuts
      ensures View() == old(View()).(disk := Program(old(View().disk), Raw(at, data)))
    {
      hide Holds, History, DiskAt, Program, Precedes;
      HistoryGrows(flash.Length, trace, cuts, Raw(at, data), c);
      DiskAtGrows(flash.Length, trace, Raw(at, data));
      WriteRaw(at, data);
      cuts := cuts + [c];
    }

    predicate LogStarted()
      requires journal.Length == ITEMS
      reads this, journal
    {
      if journalIdx >= ITEMS then false else journal[journalIdx].logBegin != ERASED
    }

    /** Records where the next log begins, unless the journal is full. */
    method LogBegin(ghost ends: seq<nat>)
      requires Shape() && Traced(Cut(ends, false, address)) && Running(View(), ends, false)
      modifies this`programs, this`trace, this`cuts, flash, journal
      ensures Shape() && Traced(Cut(ends, |ends| < ITEMS, address)) && Running(View(), ends, |ends| < ITEMS)
      ensures Extends(old(View()), View()) && address == old(address)
      ensures old(trace) <= trace && old(cuts) <= cuts
    {
      hide Program, Running, LE4, Traced, Extends, Precedes, Holds, EndsIn, OpenIn, CutOf;
      ghost var s := View();
      EndsOf(s, ends, false);
      ExtendsItself(s);
      if journalIdx >= ITEMS {
        return;
      }
      BeginStore(s, ends);
      ghost var was, c := Cut(ends, false, address), Cut(ends, true, address);
      ExtendsPrecedes(s, Began(s, ends), was, c);
      journal[journalIdx] := journal[journalIdx].(logBegin := address);
      WriteAbs(flash.Length - JOURNAL_SIZE + 8 * journalIdx, LE4(address), was, c);
      assert View() == Began(s, ends);
    }

    /** Records where the open log ends and moves on to the next journal entry. */
    method LogEnd(ghost ends: seq<nat>)
      requires Shape() && Traced(Cut(ends, |ends| < ITEMS, address)) && Running(View(), ends, |ends| < ITEMS)
      requires View().queue == []
      modifies this`programs, this`trace, this`cuts, this`journalIdx, flash, journal
      ensures var after := if |ends| < ITEMS then ends + [address] else ends;
              Shape() && Traced(Cut(after, false, address)) && Running(View(), after, false)
      ensures Extends(old(View()), View()) && address == old(address)
      ensures old(trace) <= trace && old(cuts) <= cuts
    {
      hide Program, Running, LE4, Traced, Extends, Precedes, Holds, EndsIn, OpenIn, CutOf;
      ghost var s := View();
      EndsOf(s, ends, |ends| < ITEMS);
      ExtendsItself(s);
      if journalIdx >= ITEMS {
        return;
      }
      EndStore(s, ends);
      ghost var was, c := Cut(ends, true, address), Cut(ends + [address], false, address);
      ExtendsPrecedes(s, Ended(s, ends), was, c);
      var idx := journalIdx;
      journal[idx] := journal[idx].(logEnd := address);
      journalIdx := journalIdx + 1;
      WriteAbs(flash.Length - JOURNAL_SIZE + 8 * idx + 4, LE4(address), was, c);
      assert View() == Ended(s, ends);
    }

    /** The next chunk leaves the buffer. */
    method TakeChunk() returns (tmp: seq<Byte>)
      requires Shape()
      modifies buff`head
      ensures Shape() && old(View().queue) == tmp + View().queue
      ensures View() == old(View()).(queue := View().queue)
      ensures var n := old(|View().queue|);
              |View().queue| == if n <= FLUSH_BUFFER_SIZE then 0 else n - FLUSH_BUFFER_SIZE
    {
      ghost var queue := buff.Contents();
      tmp := buff.Pop(FLUSH_BUFFER_SIZE);
      CutInTwo(queue, FLUSH_BUFFER_SIZE, tmp, buff.Contents());
    }

    /** One chunk from the buffer to the end of the data. */
    method FlushChunk(ghost ends: seq<nat>)
      requires Shape() && Traced(Cut(ends, true, address)) && Running(View(), ends, true)
      modifies this`programs, this`trace, this`cuts, this`address, flash, buff`head
      ensures Shape() && Traced(Cut(ends, true, address)) && Running(View(), ends, true)
      ensures Extends(old(View()), View()) && old(trace) <= trace && old(cuts) <= cuts
      ensures var n := old(|View().queue|);
              |View().queue| == if n <= FLUSH_BUFFER_SIZE then 0 else n - FLUSH_BUFFER_SIZE
    {
      hide Program, Running, Traced, Extends, Stored, RingBuf.Contents;
      ghost var s := View();
      var tmp := TakeChunk();
      StoreChunk(tmp, ends, s);
    }

    /** The chunk goes behind the data. */
    method StoreChunk(tmp: seq<Byte>, ghost ends: seq<nat>, ghost s: Store)
      requires Shape() && Traced(Cut(ends, true, address)) && Running(s, ends, true)
      requires View() == s.(queue := View().queue) && s.queue == tmp + View().queue
      modifies this`programs, this`trace, this`cuts, this`address, flash
      ensures Shape() && Traced(Cut(ends, true, address)) && Running(View(), ends, true)
      ensures Extends(s, View()) && old(trace) <= trace && old(cuts) <= cuts && View().queue == old(View().queue)
    {
      hide Program, Running, Traced, Extends, Precedes, Holds, EndsIn, OpenIn, CutOf, RingBuf.Contents;
      ghost var rest := View().queue;
      EndsOf(s, ends, true);
      ChunkStore(s, ends, tmp, rest);
      ghost var was, c := Cut(ends, true, address), Cut(ends, true, address + |tmp|);
      ExtendsPrecedes(s, Stored(s, tmp, rest), was, c);
      WriteAbs(address, tmp, was, c);
      address := address + |tmp|;
      assert View() == Stored(s, tmp, rest);
    }

    /** Moves everything queued to flash, in chunks, after beginning a log if none is open. */
    method FlushAsync(ghost ends: seq<nat>, ghost open: bool) returns (wrote: bool)
      requires Shape() && Traced(Cut(ends, open, address)) && Running(View(), ends, open)
      modifies this`programs, this`trace, this`cuts, this`address, flash, journal, buff`head
      ensures Shape() && Traced(Cut(ends, |ends| < ITEMS, address)) && Running(View(), ends, |ends| < ITEMS)
      ensures Extends(old(View()), View()) && View().queue == []
      ensures old(trace) <= trace && old(cuts) <= cuts
      ensures wrote <==> old(View().queue) != []
    {
      hide Running, Traced, Extends;
      ghost var s := View();
      EndsOf(s, ends, open);
      ExtendsItself(s);
      var started := LogStarted();
      if !started {
        LogBegin(ends);
      }
      EndsOf(View(), ends, |ends| < ITEMS);
      ghost var t := View();
      assert t.queue == s.queue by { QueueStays(s, t); }
      var size := buff.Size();
      if size > 0 {
        var chunks := size / FLUSH_BUFFER_SIZE + 1;
        while chunks > 0
          invariant Shape() && Traced(Cut(ends, true, address)) && Running(View(), ends, true)
          invariant Extends(s, View()) && old(trace) <= trace && old(cuts) <= cuts
          invariant |View().queue| <= chunks * FLUSH_BUFFER_SIZE
        {
          chunks := chunks - 1;
          ghost var u := View();
          FlushChunk(ends);
          ExtendsTrans(s, u, View());
        }
        return true;
      }
      return false;
    }

    /** `flashfsClose`: everything queued goes to flash and the log's end is recorded; the medium's
        last byte closes the log in the same way. */
    method CloseRunning(ghost ends: seq<nat>, ghost open: bool)
      requires Shape() && Traced(Cut(ends, open, address)) && Running(View(), ends, open)
      modifies this`programs, this`trace, this`cuts, this`address, this`journalIdx, flash, journal, buff`head
      ensures var after := if |ends| < ITEMS then ends + [address] else ends;
              Shape() && Traced(Cut(after, false, address)) && Running(View(), after, false)
      ensures Extends(old(View()), View()) && View().queue == []
      ensures old(trace) <= trace && old(cuts) <= cuts
    {
      hide Running, Traced, Extends;
      ghost var s := View();
      var wrote := FlushAsync(ends, open);
      ghost var t := View();
      LogEnd(ends);
      ExtendsTrans(s, t, View());
      QueueStays(t, View());
    }

    /** `flashfsClose`, called between writes: the session becomes the last closed log. */
    method Close()
      requires Valid()
      modifies this`programs, this`trace, this`cuts, this`address, this`journalIdx, flash, journal, buff`head
      ensures Valid() && old(trace) <= trace && old(cuts) <= cuts
      ensures if old(journalIdx) < ITEMS
              then Logs(View()) == old(Logs(View())) + [old(Session(View()))] && Session(View()) == []
              else Logs(View()) == old(Logs(View())) && Session(View()) == old(Session(View()))
    {
      hide Running, Settled, Traced, Extends, LogsOf, CutOf, EndsIn, OpenIn;
      ValidFacts();
      ghost var s := View();
      ghost var ends, open := EndsIn(s), OpenIn(s);
      EndsOf(s, ends, open);
      CloseRunning(ends, open);
      AfterClose(s, View(), ends, open);
    }

    /** `flashfsFlushAsync`, called between writes: invisible from outside. */
    method Flush() returns (wrote: bool)
      requires Valid()
      modifies this`programs, this`trace, this`cuts, this`address, flash, journal, buff`head
      ensures Valid() && View().queue == [] && old(trace) <= trace && old(cuts) <= cuts
      ensures Logs(View()) == old(Logs(View())) && Session(View()) == old(Session(View()))
    {
      hide Running, Settled, Traced, Extends, LogsOf, CutOf, EndsIn, OpenIn;
      ValidFacts();
      ghost var s := View();
      ghost var ends, open := EndsIn(s), OpenIn(s);
      EndsOf(s, ends, open);
      wrote := FlushAsync(ends, open);
      AfterFlush(s, View(), ends, open);
    }

    /** End of the medium: journal or data area used up. */
    predicate IsEOF()
      requires JOURNAL_SIZE <= flash.Length
      reads this
    {
      journalIdx >= ITEMS || address >= flash.Length - JOURNAL_SIZE
    }

    /** Accepts a byte into the session, unless the medium is full; the byte that fills the data area
        also closes the log. */
    method WriteByte(b: Byte)
      requires Valid()
      modifies this`programs, this`trace, this`cuts, this`address, this`journalIdx, flash, journal, buff, buff.slots
      ensures Valid() && old(trace) <= trace && old(cuts) <= cuts
      ensures var total := old(address + |View().queue|) + 1;
              if old(journalIdx) >= 32 || old(address) >= flash.Length - 256 then View() == old(View())
              else if total >= flash.Length - 256 then
                Logs(View()) == old(Logs(View())) + [old(Session(View())) + [b]] && Session(View()) == [] && View().queue == []
              else
                Logs(View()) == old(Logs(View())) && Session(View()) == old(Session(View())) + [b] &&
                View().queue == (if total % 4096 == 0 || old(|View().queue|) >= 63 then [] else old(View().queue) + [b])
    {
      hide Running, Settled, Traced, Extends, LogsOf, CutOf, EndsIn, OpenIn, RingBuf.Contents;
      ValidFacts();
      ghost var s := View();
      ghost var ends, open := EndsIn(s), OpenIn(s);
      EndsOf(s, ends, open);
      if IsEOF() {
        return;
      }
      var pushed := buff.Push(b);
      ghost var t := View();
      assert t == s.(queue := s.queue + [b]);
      Pushed(s, ends, open, b);
      var size := buff.Size();
      if address + size >= flash.Length - JOURNAL_SIZE {
        CloseRunning(ends, open);
        AfterClose(t, View(), ends, open);
        return;
      }
      if (address + size) % SECTOR_SIZE == 0 {
        var wrote := FlushAsync(ends, open);
        AfterFlush(t, View(), ends, open);
        return;
      }
      if size >= FLUSH_BUFFER_SIZE {
        var wrote := FlushAsync(ends, open);
        AfterFlush(t, View(), ends, open);
      } else {
        AfterPush(t, ends, open);
      }
    }

    // ----- Power-up -----

    /** `flashfsJournalLoad`: the journal words of the disk become the RAM journal. */
    method JournalLoad()
      requires Shape()
      modifies journal
      ensures Shape()
      ensures forall i :: 0 <= i < ITEMS ==>
        journal[i] == Item(Word4(JournalWord(View().disk, i, false)), Word4(JournalWord(View().disk, i, true)))
    {
      hide Word4;
      var base := flash.Length - JOURNAL_SIZE;
      for i := 0 to ITEMS
        invariant forall k :: 0 <= k < i ==>
          journal[k] == Item(Word4(flash[base + 8 * k..base + 8 * k + 4]), Word4(flash[base + 8 * k + 4..base + 8 * k + 8]))
      {
        journal[i] := Item(Word4(flash[base + 8 * i..base + 8 * i + 4]), Word4(flash[base + 8 * i + 4..base + 8 * i + 8]));
      }
      forall i | 0 <= i < ITEMS
        ensures JournalWord(View().disk, i, false) == flash[base + 8 * i..base + 8 * i + 4]
        ensures JournalWord(View().disk, i, true) == flash[base + 8 * i + 4..base + 8 * i + 8]
      {}
    }

    /** The sampling loop of `flashfsJournalFix`. */
    method ScanForEnd(begin: nat) returns (found: bool, addr: nat)
      requires Shape()
      ensures FirstErased(View().disk, begin) == if found then Some(addr) else None
    {
      addr := begin;
      var end := flash.Length - JOURNAL_SIZE;
      found := false;
      while addr < end
        invariant FirstErased(View().disk, begin) == FirstErased(View().disk, addr)
        decreases end - addr
      {
        var word := flash[addr..addr + 4];
        if word == ERASED_WORD {
          return true, addr;
        }
        addr := addr + SAMPLE_STEP;
      }
    }

    /** `flashfsInit` on whatever consistent disk the last power loss left, with an empty buffer: the
        store is as `Recover` says, and ready for use exactly if the disk is recoverable. */
    method Init(ghost ends: seq<nat>, ghost open: bool, ghost a: nat)
      requires Shape() && Traced(Cut(ends, open, a)) && buff.Contents() == []
      modifies this`programs, this`trace, this`cuts, this`address, this`journalIdx, flash, journal
      ensures Shape()
      ensures var r := Recover(old(View().disk), ends, open);
              View().disk == r.disk && address == r.address && Matches(View(), r.ends, r.open)
      ensures Valid() <==> Recoverable(old(View().disk), ends, open, a)
      ensures old(trace) <= trace && old(cuts) <= cuts
    {
      hide OnDisk, Program, DiskAt, History, FirstErased, Recoverable, Settled, Matches, Precedes, EndsIn, OpenIn, CutOf;
      ghost var d, before := View().disk, trace;
      TracedFacts(Cut(ends, open, a));
      CountClosed(ends, open, a);
      JournalFix(ends, open, a);
      RecoveryExact(d, ends, open, a);
      OnDiskFacts(d, ends, open, a);
      RecoveredInOrder(d, ends, open, a);
      ghost var r := Recover(d, ends, open);
      ReadyIfOnDisk(View(), r.ends, r.open);
      if Recoverable(d, ends, open, a) {
        RecoveryPrecedes(d, ends, open, a);
        if r.ends != ends {
          HistoryGrows(flash.Length, before, cuts, EndRecord(d, ends, r.address), CutOf(View()));
          DiskAtGrows(flash.Length, before, EndRecord(d, ends, r.address));
          cuts := cuts + [CutOf(View())];
        }
      }
    }

    lemma TracedFacts(c: Cut)
      requires Shape() && Traced(c)
      ensures View().disk == DiskAt(flash.Length, trace, |trace|) && Holds(View().disk, c)
      ensures History(flash.Length, trace, cuts) && |cuts| == |trace| + 1 && cuts[|trace|] == c
    {
      hide OnDisk, DiskAt, Precedes;
    }

    /** The loop of `flashfsInit` that skips the closed logs. */
    method CountClosed(ghost ends: seq<nat>, ghost open: bool, ghost a: nat)
      requires Shape() && OnDisk(View().disk, ends, open, a)
      modifies this`address, this`journalIdx, journal
      ensures Shape() && journalIdx == |ends| && address == Begin(ends, |ends|)
      ensures Matches(View(), ends, open)
    {
      hide OnDisk, Word4, Matches, JournalWord, Ordered, RingBuf.Contents;
      ghost var d := View().disk;
      OnDiskFacts(d, ends, open, a);
      journalIdx := 0;
      address := 0;
      JournalLoad();
      ghost var js := journal[..];
      JournalDecodes(d, js, ends, open, a);
      for i := 0 to ITEMS
        modifies this`journalIdx, this`address
        invariant journalIdx == i <= |ends| && address == Begin(ends, i) && journal[..] == js
      {
        assert journal[i] == js[i];
        if journal[i].logEnd == ERASED {
          break;
        }
        address := journal[i].logEnd;
        journalIdx := journalIdx + 1;
      }
      JournalMatches(View(), ends, open);
    }

    /** `flashfsJournalFix`: the first entry with a begin and no end is closed where the scan says. */
    method JournalFix(ghost ends: seq<nat>, ghost open: bool, ghost a: nat)
      requires Shape() && Matches(View(), ends, open) && address == Begin(ends, |ends|)
      requires OnDisk(View().disk, ends, open, a)
      modifies this`programs, this`trace, this`address, this`journalIdx, flash, journal
      ensures Shape()
      ensures var r := Recover(old(View().disk), ends, open);
              View().disk == r.disk && address == r.address && Matches(View(), r.ends, r.open) &&
              (if r.ends == ends then trace == old(trace) && r.disk == old(View().disk)
               else trace == old(trace) + [EndRecord(old(View().disk), ends, r.address)] &&
                    r.disk == Program(old(View().disk), EndRecord(old(View().disk), ends, r.address)))
    {
      hide OnDisk, Program, LE4, FirstErased, Matches;
      ghost var s := View();
      OnDiskFacts(s.disk, ends, open, a);
      FirstOpenEntry(s, ends, open);
      var i := 0;
      while i < ITEMS && !(journal[i].logBegin != ERASED && journal[i].logEnd == ERASED)
        invariant open ==> i <= |ends|
        invariant View() == s
      {
        i := i + 1;
      }
      if i < ITEMS {
        var found, addr := ScanForEnd(journal[i].logBegin);
        if found {
          CloseAt(ends, addr);
          ClosedMatches(s, ends, addr);
        }
      }
    }

    method CloseAt(ghost ends: seq<nat>, addr: nat)
      requires Shape() && journalIdx < ITEMS && journalIdx == |ends|
      modifies this`programs, this`trace, this`address, this`journalIdx, flash, journal
      ensures Shape()
      ensures View() == Ended(old(View()).(address := addr), ends)
      ensures trace == old(trace) + [EndRecord(old(View().disk), ends, addr)]
    {
      hide Program, LE4;
      ghost var s := View();
      address := addr;
      var idx := journalIdx;
      journal[idx] := journal[idx].(logEnd := address);
      journalIdx := journalIdx + 1;
      WriteRaw(flash.Length - JOURNAL_SIZE + 8 * idx + 4, LE4(address));
      assert View().journal == s.journal[idx := s.journal[idx].(logEnd := addr)];
    }
  }

  lemma FirstOpenEntry(s: Store, ends: seq<nat>, open: bool)
    requires s.Sized() && Matches(s, ends, open) && Ordered(ends, s.disk.DataSize())
    ensures forall i :: 0 <= i < ITEMS ==>
      (s.journal[i].logBegin != ERASED && s.journal[i].logEnd == ERASED <==> i == |ends| && open)
    ensures open && |ends| < ITEMS ==> s.journal[|ends|].logBegin == Begin(ends, |ends|)
    ensures s.journalIdx == |ends|
  {}

  lemma ClosedMatches(s: Store, ends: seq<nat>, addr: nat)
    requires s.Sized() && Matches(s, ends, true) && s.journalIdx < ITEMS
    ensures Matches(Ended(s.(address := addr), ends), ends + [addr], false)
  {}

  lemma RecoveredInOrder(d: Disk, ends: seq<nat>, open: bool, a: nat)
    requires OnDisk(d, ends, open, a)
    ensures var r := Recover(d, ends, open);
            |r.ends| <= ITEMS && (r.open ==> |r.ends| < ITEMS) && Ordered(r.ends, d.DataSize()) && r.address <= d.DataSize() &&
            r.disk.Sized() && |r.disk.bytes| == |d.bytes|
  {
    hide Program, FirstErased;
    if open && FirstErased(d, Begin(ends, |ends|)).Some? {
      ScanFindsEnd(d, ends, a);
      var e := FirstErased(d, Begin(ends, |ends|)).value;
      forall k | 0 <= k <= |ends| ensures Begin(ends + [e], k) == Begin(ends, k) {}
    }
  }

  /** Recovery of a recoverable disk keeps what it held. */
  lemma RecoveryPrecedes(d: Disk, ends: seq<nat>, open: bool, a: nat)
    requires OnDisk(d, ends, open, a) && Recoverable(d, ends, open, a)
    ensures var r := Recover(d, ends, open);
            (r.ends == ends ==> r == Recovered(d, ends, open, a)) &&
            Precedes(d, Cut(ends, open, a), r.disk, Cut(r.ends, r.open, r.address)) &&
            (r.ends != ends ==> r.ends == ends + [r.address] && r.disk == Program(d, EndRecord(d, ends, r.address)))
  {
    hide Program, FirstErased, OnDisk;
    RecoveryExact(d, ends, open, a);
    RecoveryKeeps(d, ends, open, a);
    OnDiskFacts(d, ends, open, a);
    var r := Recover(d, ends, open);
    OnDiskFacts(r.disk, r.ends, r.open, r.address);
    SliceOfPrefix(d.bytes, r.disk.bytes, d.DataSize(), 0, a);
  }

  /** The loaded journal is the one the disk was written with. */
  lemma JournalDecodes(d: Disk, journal: seq<Item>, ends: seq<nat>, open: bool, a: nat)
    requires |journal| == ITEMS && OnDisk(d, ends, open, a)
    requires forall i :: 0 <= i < ITEMS ==>
      journal[i] == Item(Word4(JournalWord(d, i, false)), Word4(JournalWord(d, i, true)))
    ensures forall i :: 0 <= i < ITEMS ==>
      journal[i].logBegin == (if i < |ends| || (i == |ends| && open) then Begin(ends, i) else ERASED) &&
      journal[i].logEnd == (if i < |ends| then ends[i] else ERASED)
    ensures forall i :: 0 <= i < |ends| ==> ends[i] != ERASED
  {
    hide Word4, LE4;
    ErasedWordIsErased();
    forall i | 0 <= i < ITEMS
      ensures journal[i].logBegin == (if i < |ends| || (i == |ends| && open) then Begin(ends, i) else ERASED)
      ensures journal[i].logEnd == (if i < |ends| then ends[i] else ERASED)
    {
      assert JournalWord(d, i, false) == ExpectedWord(ends, open, i, false);
      assert JournalWord(d, i, true) == ExpectedWord(ends, open, i, true);
      if i <= |ends| {
        WordRoundTrip(Begin(ends, i));
        if i < |ends| { WordRoundTrip(ends[i]); }
      }
    }
  }

  lemma JournalMatches(s: Store, ends: seq<nat>, open: bool)
    requires s.Sized() && s.journalIdx == |ends|
    requires forall i :: 0 <= i < ITEMS ==>
      s.journal[i].logBegin == (if i < |ends| || (i == |ends| && open) then Begin(ends, i) else ERASED) &&
      s.journal[i].logEnd == (if i < |ends| then ends[i] else ERASED)
    ensures Matches(s, ends, open)
  {}

  lemma ErasedWordIsErased()
    ensures Word4(ERASED_WORD) == ERASED
  {}

  /** A store with an empty queue is ready exactly if its disk is in order up to the write address. */
  lemma ReadyIfOnDisk(s: Store, ends: seq<nat>, open: bool)
    requires s.Sized() && Matches(s, ends, open) && s.queue == []
    requires |ends| <= ITEMS && (open ==> |ends| < ITEMS) && Ordered(ends, s.disk.DataSize())
    requires s.address <= s.disk.DataSize()
    ensures Settled(s) <==> OnDisk(s.disk, ends, open, s.address)
    ensures CutOf(s) == Cut(ends, open, s.address)
  {
    hide OnDisk;
    assert EndsIn(s) == ends;
    assert OpenIn(s) == open;
  }

  lemma SameData(s: Store, s': Store)
    requires s.disk.Sized() && s'.disk.Sized() && |s'.disk.bytes| == |s.disk.bytes| && s.address <= s.disk.DataSize()
    requires s'.disk.bytes[..s.disk.DataSize()] == s.disk.bytes[..s.disk.DataSize()]
    requires s'.address == s.address && s'.queue == s.queue
    ensures Extends(s, s')
  {}

  lemma ExtendsItself(s: Store)
    requires s.address <= |s.disk.bytes|
    ensures Extends(s, s)
  {}

  lemma QueueStays(s: Store, s': Store)
    requires Extends(s, s') && s'.address == s.address
    ensures s'.queue == s.queue
  {}

  /** The session of a store in mid-call, whose queue may be a whole flush. */
  ghost function SessionOf(s: Store, ends: seq<nat>): seq<Byte>
    requires |ends| == s.journalIdx && Begin(ends, s.journalIdx) <= s.address <= |s.disk.bytes|
  {
    s.disk.bytes[Begin(ends, s.journalIdx)..s.address] + s.queue
  }

  lemma Pushed(s: Store, ends: seq<nat>, open: bool, b: Byte)
    requires Running(s, ends, open) && s.journalIdx < ITEMS && s.address + |s.queue| < s.disk.DataSize()
    ensures var t := s.(queue := s.queue + [b]);
            Running(t, ends, open) && |ends| == s.journalIdx && Begin(ends, |ends|) <= s.address <= |s.disk.bytes| &&
            SessionOf(t, ends) == SessionOf(s, ends) + [b]
  {}

  lemma AfterPush(t: Store, ends: seq<nat>, open: bool)
    requires Running(t, ends, open) && |t.queue| < FLUSH_BUFFER_SIZE
    requires t.queue != [] ==> t.address + |t.queue| < t.disk.DataSize()
    ensures Settled(t) && Ordered(ends, |t.disk.bytes|) && Logs(t) == LogsOf(t.disk.bytes, ends)
    ensures CutOf(t) == Cut(ends, open, t.address)
    ensures |ends| == t.journalIdx && Begin(ends, |ends|) <= t.address <= |t.disk.bytes| && Session(t) == SessionOf(t, ends)
  {
    hide Running, LogsOf;
    EndsOf(t, ends, open);
    RunningIsSettled(t, ends, open);
  }

  lemma AfterFlush(s: Store, s': Store, ends: seq<nat>, open: bool)
    requires Running(s, ends, open) && Running(s', ends, |ends| < ITEMS) && Extends(s, s') && s'.queue == []
    ensures Settled(s') && Ordered(ends, |s.disk.bytes|) && Logs(s') == LogsOf(s.disk.bytes, ends)
    ensures CutOf(s') == Cut(ends, |ends| < ITEMS, s'.address)
    ensures |ends| == s.journalIdx && Begin(ends, |ends|) <= s.address <= |s.disk.bytes| && Session(s') == SessionOf(s, ends)
  {
    hide Running, Extends, LogsOf;
    EndsOf(s, ends, open);
    EndsOf(s', ends, |ends| < ITEMS);
    RunningIsSettled(s', ends, |ends| < ITEMS);
    FlushMeans(s, s', ends, open, |ends| < ITEMS);
  }

  lemma AfterClose(s: Store, s': Store, ends: seq<nat>, open: bool)
    requires Running(s, ends, open) && Extends(s, s') && s'.queue == []
    requires Running(s', if |ends| < ITEMS then ends + [s'.address] else ends, false)
    ensures Settled(s') && Ordered(ends, |s.disk.bytes|)
    ensures CutOf(s') == Cut(if |ends| < ITEMS then ends + [s'.address] else ends, false, s'.address)
    ensures |ends| == s.journalIdx && Begin(ends, |ends|) <= s.address <= |s.disk.bytes|
    ensures if |ends| < ITEMS then Logs(s') == LogsOf(s.disk.bytes, ends) + [SessionOf(s, ends)] && Session(s') == []
            else Logs(s') == LogsOf(s.disk.bytes, ends) && Session(s') == SessionOf(s, ends)
  {
    hide Running, Extends, LogsOf;
    EndsOf(s, ends, open);
    var ends' := if |ends| < ITEMS then ends + [s'.address] else ends;
    EndsOf(s', ends', false);
    RunningIsSettled(s', ends', false);
    if |ends| < ITEMS {
      CloseMeans(s, s', ends, open);
    } else {
      FlushMeans(s, s', ends, open, false);
    }
  }
}
