/** The log store seen by its users: a book of closed logs and one open session.  The store refines it,
    and a power loss between calls costs the queued bytes only. */
module FlashBook {
  import opened Bytes
  import opened FlashCuts
  import opened FlashDisk
  import opened FlashRecovery
  import opened FlashLog
  import opened Options

  datatype Book = Book(logs: seq<seq<Byte>>, session: seq<Byte>)

  const EMPTY_BOOK: Book := Book([], [])

  datatype Op = Write(b: Byte) | Flush | Close

  function Flat(logs: seq<seq<Byte>>): seq<Byte> {
    if logs == [] then [] else Flat(logs[..|logs| - 1]) + logs[|logs| - 1]
  }

  /** Every byte in the book, oldest first. */
  function AllOf(b: Book): seq<Byte> { Flat(b.logs) + b.session }

  predicate Full(b: Book, capacity: nat) { |b.logs| >= 32 || |AllOf(b)| >= capacity }

  function Closed(b: Book): Book { Book(b.logs + [b.session], []) }

  /** What a user expects of one call: the byte that fills the medium closes the log. */
  function Do(b: Book, capacity: nat, op: Op): Book {
    match op
    case Write(x) =>
      var more := b.(session := b.session + [x]);
      if Full(b, capacity) then b else if |AllOf(b)| + 1 >= capacity then Closed(more) else more
    case Flush => b
    case Close => if |b.logs| < 32 then Closed(b) else b
  }

  function DoAll(b: Book, capacity: nat, ops: seq<Op>): Book {
    if ops == [] then b else Do(DoAll(b, capacity, ops[..|ops| - 1]), capacity, ops[|ops| - 1])
  }

  function Written(ops: seq<Op>): seq<Byte> {
    if ops == [] then []
    else Written(ops[..|ops| - 1]) + (if ops[|ops| - 1].Write? then [ops[|ops| - 1].b] else [])
  }

  // ----- The book loses nothing -----

  lemma ClosingKeepsAll(b: Book)
    ensures AllOf(Closed(b)) == AllOf(b)
  {
    assert (b.logs + [b.session])[..|b.logs|] == b.logs;
  }

  lemma DoKeeps(b: Book, capacity: nat, op: Op)
    ensures var d := Do(b, capacity, op);
            AllOf(d) == (if op.Write? && !Full(b, capacity) then AllOf(b) + [op.b] else AllOf(b)) &&
            |d.logs| >= |b.logs|
  {
    hide Flat;
    match op
    case Write(x) =>
      var more := b.(session := b.session + [x]);
      ClosingKeepsAll(more);
      assert Flat(b.logs) + (b.session + [x]) == Flat(b.logs) + b.session + [x];
    case Close => ClosingKeepsAll(b);
    case Flush =>
  }

  /** Whatever is written, flushed and closed: the bytes in the logs and the session are exactly the
      bytes written, in order, up to the moment at which the medium is full. */
  lemma {:induction false} NothingIsLost(capacity: nat, ops: seq<Op>)
    ensures var d := DoAll(EMPTY_BOOK, capacity, ops);
            AllOf(d) <= Written(ops) && |AllOf(d)| <= capacity &&
            (AllOf(d) == Written(ops) || Full(d, capacity))
  {
    hide AllOf, Do;
    if ops == [] {
      NothingYet();
    } else {
      var before, op := ops[..|ops| - 1], ops[|ops| - 1];
      NothingIsLost(capacity, before);
      DoKeeps(DoAll(EMPTY_BOOK, capacity, before), capacity, op);
    }
  }

  lemma NothingYet()
    ensures AllOf(EMPTY_BOOK) == []
  {}

  // ----- The store refines the book -----

  ghost function BookOf(s: Store): Book
    requires Settled(s)
  {
    Book(Logs(s), Session(s))
  }

  /** Closed logs tile the data area from its start. */
  lemma {:induction false} LogsTile(bytes: seq<Byte>, ends: seq<nat>)
    requires Ordered(ends, |bytes|)
    ensures Begin(ends, |ends|) <= |bytes| && Flat(LogsOf(bytes, ends)) == bytes[..Begin(ends, |ends|)]
  {
    hide LogsOf, Ordered, Flat;
    LogsMatchEnds(bytes, ends);
    if ends == [] {
      FlatOfNone(LogsOf(bytes, ends));
    } else {
      var rest, a := ends[..|ends| - 1], ends[|ends| - 1];
      assert ends == rest + [a];
      RestIsOrdered(ends, |bytes|);
      LogsTile(bytes, rest);
      LogsGrow(bytes, rest, a);
      var b := Begin(rest, |rest|);
      FlatGrows(LogsOf(bytes, rest), bytes[b..a]);
      assert bytes[..b] + bytes[b..a] == bytes[..a];
    }
  }

  lemma {:induction false} FlatOfNone(logs: seq<seq<Byte>>)
    requires |logs| == 0
    ensures Flat(logs) == []
  {}

  lemma {:induction false} FlatGrows(logs: seq<seq<Byte>>, l: seq<Byte>)
    ensures Flat(logs + [l]) == Flat(logs) + l
  {
    assert (logs + [l])[..|logs|] == logs;
  }

  lemma RestIsOrdered(ends: seq<nat>, limit: nat)
    requires Ordered(ends, limit) && ends != []
    ensures var rest, a := ends[..|ends| - 1], ends[|ends| - 1];
            Ordered(rest, limit) && Begin(rest, |rest|) <= a <= limit
  {
    var rest := ends[..|ends| - 1];
    forall i | 0 <= i < |rest| ensures Begin(rest, i) <= rest[i] <= limit {
      assert Begin(ends, i) <= ends[i] <= limit;
    }
  }

  lemma OrderedBelow(ends: seq<nat>, limit: nat, more: nat)
    requires Ordered(ends, limit) && limit <= more
    ensures Ordered(ends, more)
  {}

  lemma LogsMatchEnds(bytes: seq<Byte>, ends: seq<nat>)
    requires Ordered(ends, |bytes|)
    ensures |LogsOf(bytes, ends)| == |ends|
  {}

  lemma SettledFacts(s: Store)
    requires Settled(s)
    ensures s.Sized() && Running(s, EndsIn(s), OpenIn(s)) && |s.queue| < 64
    ensures OnDisk(s.disk, EndsIn(s), OpenIn(s), s.address)
    ensures s.queue != [] ==> s.address + |s.queue| < s.disk.DataSize()
  {
    hide OnDisk, Matches;
  }

  /** The flash up to the write address, then the queue, are all the bytes of the book. */
  lemma FlashHoldsBook(s: Store)
    requires Settled(s)
    ensures s.address <= |s.disk.bytes| && AllOf(BookOf(s)) == s.disk.bytes[..s.address] + s.queue
    ensures |BookOf(s).logs| == s.journalIdx && s.address + |s.queue| <= s.disk.DataSize()
    ensures s.queue != [] ==> s.address + |s.queue| < s.disk.DataSize()
  {
    hide Running, LogsOf, Flat, Settled, Ordered, EndsIn, OpenIn, OnDisk;
    SettledFacts(s);
    var ends := EndsIn(s);
    EndsOf(s, ends, OpenIn(s));
    OrderedBelow(ends, s.disk.DataSize(), |s.disk.bytes|);
    LogsTile(s.disk.bytes, ends);
    LogsMatchEnds(s.disk.bytes, ends);
    var b := Begin(ends, |ends|);
    assert s.disk.bytes[..b] + (s.disk.bytes[b..s.address] + s.queue) == s.disk.bytes[..s.address] + s.queue;
  }

  // ----- What a cut leaves of the book -----

  /** The book on a disk: what the flash itself says. */
  ghost function BookAt(d: Disk, c: Cut): Book
    requires Holds(d, c)
  {
    HoldsFacts(d, c);
    OrderedBelow(c.ends, d.DataSize(), |d.bytes|);
    Book(LogsOf(d.bytes, c.ends), d.bytes[Begin(c.ends, |c.ends|)..c.a])
  }

  /** The later book has every closed log of the earlier one, and its session as the begin of the next
      log or of the session. */
  ghost predicate Grew(b: Book, b': Book) {
    b.logs <= b'.logs &&
    b.session <= (if |b.logs| < |b'.logs| then b'.logs[|b.logs|] else b'.session)
  }

  lemma FewerLogs(bytes: seq<Byte>, ends: seq<nat>, more: seq<nat>)
    requires Ordered(ends, |bytes|) && Ordered(more, |bytes|) && ends <= more
    ensures LogsOf(bytes, ends) <= LogsOf(bytes, more)
  {
    forall i | 0 <= i < |ends| ensures LogsOf(bytes, ends)[i] == LogsOf(bytes, more)[i] {
      assert Begin(ends, i) == Begin(more, i);
    }
  }

  lemma LogAt(bytes: seq<Byte>, ends: seq<nat>, i: nat)
    requires Ordered(ends, |bytes|) && i < |ends|
    ensures |LogsOf(bytes, ends)| == |ends| && Begin(ends, i) <= ends[i] <= |bytes|
    ensures LogsOf(bytes, ends)[i] == bytes[Begin(ends, i)..ends[i]]
  {}

  lemma PartOfSlice(s: seq<Byte>, t: seq<Byte>, lo: nat, a: nat, hi: nat)
    requires lo <= a <= hi <= |t| && a <= |s| && t[..a] == s[..a]
    ensures s[lo..a] <= t[lo..hi]
  {
    SliceOfPrefix(s, t, a, lo, a);
    assert t[lo..hi][..a - lo] == t[lo..a];
  }

  lemma PrecedesGrew(d: Disk, c: Cut, d': Disk, c': Cut)
    requires Holds(d, c) && Holds(d', c') && Precedes(d, c, d', c')
    ensures Grew(BookAt(d, c), BookAt(d', c'))
  {
    hide Holds, LogsOf, Ordered, Begin;
    HoldsFacts(d, c);
    HoldsFacts(d', c');
    OrderedBelow(c.ends, d.DataSize(), |d.bytes|);
    OrderedBelow(c'.ends, d'.DataSize(), |d'.bytes|);
    LogsStay(d.bytes, d'.bytes, c.ends, c.a);
    FewerLogs(d'.bytes, c.ends, c'.ends);
    LogsMatchEnds(d.bytes, c.ends);
    LogsMatchEnds(d'.bytes, c'.ends);
    var k := |c.ends|;
    assert Begin(c'.ends, k) == Begin(c.ends, k) by { SameBegin(c.ends, c'.ends, k); }
    if k < |c'.ends| {
      LogAt(d'.bytes, c'.ends, k);
      PartOfSlice(d.bytes, d'.bytes, Begin(c.ends, k), c.a, c'.ends[k]);
    } else {
      PartOfSlice(d.bytes, d'.bytes, Begin(c.ends, k), c.a, c'.a);
    }
  }

  lemma SameBegin(ends: seq<nat>, more: seq<nat>, i: nat)
    requires ends <= more && i <= |ends|
    ensures Begin(more, i) == Begin(ends, i)
  {}

  /** Between calls the flash holds the book but for the queued bytes. */
  lemma QueueIsMissing(s: Store)
    requires Settled(s)
    ensures s.Sized() && s.address <= s.disk.DataSize() && Holds(s.disk, CutOf(s))
    ensures BookOf(s) == Book(BookAt(s.disk, CutOf(s)).logs, BookAt(s.disk, CutOf(s)).session + s.queue)
  {
    hide Running, LogsOf, OnDisk;
    SettledFacts(s);
    EndsOf(s, EndsIn(s), OpenIn(s));
  }

  lemma GrewWith(b: Book, b': Book, more: seq<Byte>)
    requires Grew(b, b')
    ensures Grew(b, Book(b'.logs, b'.session + more))
  {}

  /** The disk is in order, with nothing programmed twice; it holds at least what the flash of `s` held,
      every closed log among it; and all it holds is in the book of `s'`, log for log, with its open log
      the begin of the next log or of the session. */
  ghost predicate Between(s: Store, d: Disk, c: Cut, s': Store)
    requires Settled(s) && Settled(s')
  {
    Holds(d, c) && Holds(s.disk, CutOf(s)) &&
    Grew(BookAt(s.disk, CutOf(s)), BookAt(d, c)) && Grew(BookAt(d, c), BookOf(s'))
  }

  /** Power lost after any raw write before a moment between calls: the flash holds nothing but what the
      book then has. */
  lemma OnlyWritten(size: nat, trace: seq<Raw>, cuts: seq<Cut>, n: nat, s: Store)
    requires 256 <= size < 0x1_0000_0000 && History(size, trace, cuts) && n <= |trace| == |cuts| - 1
    requires Settled(s) && s.disk == DiskAt(size, trace, |trace|) && CutOf(s) == cuts[|trace|]
    ensures var d := DiskAt(size, trace, n);
            Holds(d, cuts[n]) && Grew(BookAt(d, cuts[n]), BookOf(s))
  {
    hide Settled, Holds, Precedes, DiskAt, Grew, BookAt, BookOf, CutOf;
    var d := DiskAt(size, trace, n);
    QueueIsMissing(s);
    assert Holds(d, cuts[n]);
    PrecedesGrew(d, cuts[n], s.disk, CutOf(s));
    GrewWith(BookAt(d, cuts[n]), BookAt(s.disk, CutOf(s)), s.queue);
  }

  /** Power lost after any raw write between two moments, inside a call or not. */
  lemma PowerLoss(size: nat, trace: seq<Raw>, cuts: seq<Cut>, m: nat, n: nat, s: Store, s': Store)
    requires 256 <= size < 0x1_0000_0000 && History(size, trace, cuts) && m <= n <= |trace| == |cuts| - 1
    requires Settled(s) && s.disk == DiskAt(size, trace, m) && CutOf(s) == cuts[m]
    requires Settled(s') && s'.disk == DiskAt(size, trace, |trace|) && CutOf(s') == cuts[|trace|]
    ensures Between(s, DiskAt(size, trace, n), cuts[n], s')
  {
    hide Settled, Holds, Precedes, DiskAt, Grew, BookAt, BookOf, CutOf;
    QueueIsMissing(s);
    OnlyWritten(size, trace, cuts, n, s');
    PrecedesGrew(s.disk, CutOf(s), DiskAt(size, trace, n), cuts[n]);
  }

  /** What recovery finds: the closed logs, and an open log followed by fewer than 128 erased bytes. */
  lemma RecoveryFinds(d: Disk, c: Cut) returns (erased: seq<Byte>)
    requires Holds(d, c) && Recoverable(d, c.ends, c.open, c.a)
    ensures var r := Recover(d, c.ends, c.open);
            var b := BookAt(d, c);
            Ordered(r.ends, |r.disk.bytes|) && |erased| < 128 && (forall x :: x in erased ==> x == 255) &&
            LogsOf(r.disk.bytes, r.ends) == (if r.ends == c.ends then b.logs else b.logs + [b.session + erased]) &&
            (r.ends == c.ends ==> b.session == [])
  {
    hide LogsOf, Ordered, OnDisk, Recover, Recoverable, FirstErased;
    erased := [];
    var ends, a := c.ends, c.a;
    HoldsFacts(d, c);
    OrderedBelow(ends, d.DataSize(), |d.bytes|);
    RecoveryKeeps(d, ends, c.open, a);
    RecoveryEnds(d, ends, c.open, a);
    var r := Recover(d, ends, c.open);
    var b := Begin(ends, |ends|);
    if r.ends == ends {
      SameUpTo(d.bytes, r.disk.bytes, b, d.DataSize());
      LogsStay(d.bytes, r.disk.bytes, ends, b);
    } else {
      erased := r.disk.bytes[a..r.address];
      ClosedBehind(d, r.disk, ends, a, r.address);
    }
  }

  /** Power lost between calls costs the queued bytes only, of which there are fewer than 64. */
  lemma LossBetweenCalls(s: Store) returns (erased: seq<Byte>)
    requires Settled(s)
    ensures var ends, open := EndsIn(s), OpenIn(s);
            OnDisk(s.disk, ends, open, s.address) && |s.queue| < 64 &&
            |s.queue| <= |Session(s)| && Session(s)[|Session(s)| - |s.queue|..] == s.queue &&
            (Recoverable(s.disk, ends, open, s.address) ==>
              var r := Recover(s.disk, ends, open);
              var kept := Session(s)[..|Session(s)| - |s.queue|];
              Ordered(r.ends, |r.disk.bytes|) && |erased| < 128 && (forall x :: x in erased ==> x == 255) &&
              LogsOf(r.disk.bytes, r.ends) == if r.ends == ends then Logs(s) else Logs(s) + [kept + erased])
            && (Recoverable(s.disk, ends, open, s.address) && Recover(s.disk, ends, open).ends == ends ==>
              Session(s) == s.queue)
  {
    hide Running, LogsOf, Settled, Ordered, EndsIn, OpenIn, OnDisk, Recover, Recoverable, FirstErased, BookAt, Logs, Session;
    SettledFacts(s);
    QueueIsMissing(s);
    erased := [];
    var c := CutOf(s);
    if Recoverable(s.disk, c.ends, c.open, c.a) {
      erased := RecoveryFinds(s.disk, CutOf(s));
    }
  }

  // ----- Calls -----

  /** One call on the store is one call on the book; wherever power is lost during the call, the flash
      holds what it held before, and nothing but what the call leaves in the book. */
  method Perform(f: Flashfs, op: Op)
    requires f.Valid()
    modifies f, f.flash, f.journal, f.buff, f.buff.slots
    ensures f.Valid() && old(f.trace) <= f.trace && old(f.cuts) <= f.cuts
    ensures BookOf(f.View()) == Do(old(BookOf(f.View())), f.flash.Length - 256, op)
    ensures 256 <= f.flash.Length < 0x1_0000_0000 && |f.cuts| == |f.trace| + 1
    ensures forall n :: |old(f.trace)| <= n <= |f.trace| ==>
      Between(old(f.View()), DiskAt(f.flash.Length, f.trace, n), f.cuts[n], f.View())
  {
    hide *;
    Recorded(f);
    FlashHoldsBook(f.View());
    ghost var s, m, size := f.View(), |f.trace|, f.flash.Length;
    ghost var trace, cuts := f.trace, f.cuts;
    Call(f, op);
    Recorded(f);
    SameDiskAt(size, trace, f.trace, m);
    assert f.cuts[m] == cuts[m];
    forall n | m <= n <= |f.trace| ensures Between(s, DiskAt(size, f.trace, n), f.cuts[n], f.View()) {
      PowerLoss(size, f.trace, f.cuts, m, n, s, f.View());
    }
  }

  method Call(f: Flashfs, op: Op)
    requires f.Valid()
    modifies f, f.flash, f.journal, f.buff, f.buff.slots
    ensures f.Valid() && old(f.trace) <= f.trace && old(f.cuts) <= f.cuts
    ensures BookOf(f.View()) == Do(old(BookOf(f.View())), f.flash.Length - 256, op)
  {
    hide Settled, AllOf, Flat, Running, LogsOf, OnDisk, History, DiskAt;
    FlashHoldsBook(f.View());
    match op
    case Write(x) => f.WriteByte(x);
    case Flush => var _ := f.Flush();
    case Close => f.Close();
  }

  lemma Recorded(f: Flashfs)
    requires f.Valid()
    ensures 256 <= f.flash.Length < 0x1_0000_0000 && History(f.flash.Length, f.trace, f.cuts)
    ensures f.Shape() && f.View().Sized()
    ensures |f.cuts| == |f.trace| + 1 && f.cuts[|f.trace|] == CutOf(f.View())
    ensures f.View().disk == DiskAt(f.flash.Length, f.trace, |f.trace|) && Settled(f.View())
  {
    hide History, DiskAt, Settled, CutOf;
    f.TracedFacts(CutOf(f.View()));
  }

  lemma SameDiskAt(size: nat, trace: seq<Raw>, more: seq<Raw>, n: nat)
    requires 256 <= size < 0x1_0000_0000 && trace <= more && n <= |trace|
    ensures DiskAt(size, more, n) == DiskAt(size, trace, n)
  {
    assert more[..n] == trace[..n];
  }

  ghost predicate Shows(f: Flashfs, b: Book)
    reads f, f.flash, f.journal, f.buff, f.buff.slots
  {
    f.Valid() && BookOf(f.View()) == b
  }

  method Begun(size: nat) returns (f: Flashfs)
    requires 256 <= size < 0x1_0000_0000
    ensures f.flash.Length == size && Shows(f, EMPTY_BOOK)
    ensures fresh(f) && fresh(f.flash) && fresh(f.journal) && fresh(f.buff) && fresh(f.buff.slots)
  {
    hide Settled, History, DiskAt;
    f := new Flashfs(size);
  }

  method OneMore(f: Flashfs, op: Op, ghost b: Book)
    requires Shows(f, b)
    modifies f, f.flash, f.journal, f.buff, f.buff.slots
    ensures 256 <= f.flash.Length && Shows(f, Do(b, f.flash.Length - 256, op))
    ensures old(f.trace) <= f.trace && old(f.cuts) <= f.cuts
  {
    hide Settled, History, DiskAt, Do, BookOf, Between;
    Perform(f, op);
  }

  /** Any sequence of calls on a new store gives the book of that sequence; wherever power is lost on the
      way, the flash holds a begin of that book. */
  method PerformAll(size: nat, ops: seq<Op>) returns (f: Flashfs)
    requires 256 <= size < 0x1_0000_0000
    ensures f.Valid() && BookOf(f.View()) == DoAll(EMPTY_BOOK, size - 256, ops)
    ensures f.flash.Length == size && |f.cuts| == |f.trace| + 1
    ensures forall n :: 0 <= n <= |f.trace| ==>
      Holds(DiskAt(size, f.trace, n), f.cuts[n]) &&
      Grew(BookAt(DiskAt(size, f.trace, n), f.cuts[n]), DoAll(EMPTY_BOOK, size - 256, ops))
  {
    hide Do, Shows;
    f := Begun(size);
    for i := 0 to |ops|
      invariant f.flash.Length == size && Shows(f, DoAll(EMPTY_BOOK, size - 256, ops[..i]))
      invariant fresh(f) && fresh(f.flash) && fresh(f.journal) && fresh(f.buff) && fresh(f.buff.slots)
    {
      assert ops[..i + 1][..i] == ops[..i];
      OneMore(f, ops[i], DoAll(EMPTY_BOOK, size - 256, ops[..i]));
    }
    assert ops[..|ops|] == ops;
    AnyCut(f, DoAll(EMPTY_BOOK, size - 256, ops));
  }

  lemma AnyCut(f: Flashfs, b: Book)
    requires Shows(f, b)
    ensures 256 <= f.flash.Length < 0x1_0000_0000 && |f.cuts| == |f.trace| + 1
    ensures f.Valid() && BookOf(f.View()) == b
    ensures forall n :: 0 <= n <= |f.trace| ==>
      Holds(DiskAt(f.flash.Length, f.trace, n), f.cuts[n]) &&
      Grew(BookAt(DiskAt(f.flash.Length, f.trace, n), f.cuts[n]), b)
  {
    hide Settled, Holds, DiskAt, Grew, BookAt, BookOf, History, CutOf;
    Recorded(f);
    forall n | 0 <= n <= |f.trace|
      ensures Holds(DiskAt(f.flash.Length, f.trace, n), f.cuts[n])
      ensures Grew(BookAt(DiskAt(f.flash.Length, f.trace, n), f.cuts[n]), b)
    {
      OnlyWritten(f.flash.Length, f.trace, f.cuts, n, f.View());
    }
  }

  lemma {:induction false} RecoveryEnds(d: Disk, ends: seq<nat>, open: bool, a: nat)
    requires OnDisk(d, ends, open, a) && Recoverable(d, ends, open, a)
    ensures var r := Recover(d, ends, open);
            r.disk.Sized() && |r.disk.bytes| == |d.bytes| && r.address <= d.DataSize() &&
            (r.ends == ends ==> a == Begin(ends, |ends|)) &&
            (r.ends != ends ==> open && FirstErased(d, Begin(ends, |ends|)).Some?)
  {
    hide JournalHolds, Program, FirstErased, OnDisk;
    OnDiskFacts(d, ends, open, a);
    RecoveryExact(d, ends, open, a);
    var r := Recover(d, ends, open);
    OnDiskFacts(r.disk, r.ends, r.open, r.address);
  }

  lemma ClosedBehind(d: Disk, d': Disk, ends: seq<nat>, a: nat, e: nat)
    requires d.Sized() && d'.Sized() && |d'.bytes| == |d.bytes| && d'.bytes[..d.DataSize()] == d.bytes[..d.DataSize()]
    requires Ordered(ends, |d.bytes|) && Begin(ends, |ends|) <= a <= e <= d.DataSize()
    ensures Ordered(ends, |d'.bytes|) && Ordered(ends + [e], |d'.bytes|)
    ensures LogsOf(d'.bytes, ends + [e]) ==
            LogsOf(d.bytes, ends) + [d.bytes[Begin(ends, |ends|)..a] + d'.bytes[a..e]]
  {
    hide LogsOf;
    var b := Begin(ends, |ends|);
    LogsStay(d.bytes, d'.bytes, ends, e) by { SameUpTo(d.bytes, d'.bytes, e, d.DataSize()); }
    LogsGrow(d'.bytes, ends, e);
    SliceOfPrefix(d.bytes, d'.bytes, d.DataSize(), b, a);
    assert d'.bytes[b..e] == d'.bytes[b..a] + d'.bytes[a..e];
  }

  lemma SameUpTo(s: seq<Byte>, t: seq<Byte>, a: nat, n: nat)
    requires a <= n <= |s| && n <= |t| && t[..n] == s[..n]
    ensures t[..a] == s[..a]
  {
    assert t[..a] == t[..n][..a] && s[..a] == s[..n][..a];
  }
}
