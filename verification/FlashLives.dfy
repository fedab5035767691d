/** Many lives of one partition: calls, a power loss anywhere, recovery, calls again. */
module FlashLives {
  import opened Bytes
  import opened FlashDisk
  import opened FlashCuts
  import opened FlashRecovery
  import opened FlashLog
  import opened FlashBook
  import opened Options

  /** The record of the raw writes up to a life's end, of which the first `n` reached the flash. */
  datatype Life = Life(trace: seq<Raw>, cuts: seq<Cut>, n: nat)

  ghost predicate Lived(size: nat, l: Life)
    requires 256 <= size < 0x1_0000_0000
  {
    History(size, l.trace, l.cuts) && l.n <= |l.trace| && |l.cuts| == |l.trace| + 1
  }

  /** The flash that a life leaves, and the book on it. */
  ghost function Flash(size: nat, l: Life): Disk
    requires 256 <= size < 0x1_0000_0000 && Lived(size, l)
  {
    DiskAt(size, l.trace, l.n)
  }

  ghost function Left(size: nat, l: Life): Book
    requires 256 <= size < 0x1_0000_0000 && Lived(size, l)
  {
    BookAt(Flash(size, l), l.cuts[l.n])
  }

  /** The next life goes on from the flash that the last one left. */
  ghost predicate Follows(l: Life, next: Life) {
    l.n <= next.n && l.n <= |l.trace| && l.n < |l.cuts| && l.trace[..l.n] <= next.trace && l.cuts[..l.n + 1] <= next.cuts
  }

  lemma GrewTrans(a: Book, b: Book, c: Book)
    requires Grew(a, b) && Grew(b, c)
    ensures Grew(a, c)
  {}

  lemma GrewItself(b: Book)
    ensures Grew(b, b)
  {}

  lemma SameFlash(size: nat, l: Life, next: Life)
    requires 256 <= size < 0x1_0000_0000 && Lived(size, l) && Lived(size, next) && Follows(l, next)
    ensures DiskAt(size, next.trace, l.n) == Flash(size, l) && next.cuts[l.n] == l.cuts[l.n]
  {
    assert next.trace[..l.n] == l.trace[..l.n];
    assert l.cuts[..l.n + 1][l.n] == l.cuts[l.n];
  }

  lemma NextLifeGrows(size: nat, l: Life, next: Life)
    requires 256 <= size < 0x1_0000_0000 && Lived(size, l) && Lived(size, next) && Follows(l, next)
    ensures Grew(Left(size, l), Left(size, next))
  {
    hide DiskAt, Holds, Precedes, BookAt, Grew;
    SameFlash(size, l, next);
    PrecedesGrew(DiskAt(size, next.trace, l.n), next.cuts[l.n], DiskAt(size, next.trace, next.n), next.cuts[next.n]);
  }

  /** However many lives a partition has had: what one left is in the book of every later one, log for log. */
  lemma {:induction false} LivesGrow(size: nat, lives: seq<Life>, i: nat, j: nat)
    requires 256 <= size < 0x1_0000_0000 && i <= j < |lives|
    requires forall k :: 0 <= k < |lives| ==> Lived(size, lives[k])
    requires forall k :: 0 < k < |lives| ==> Follows(lives[k - 1], lives[k])
    ensures Grew(Left(size, lives[i]), Left(size, lives[j]))
  {
    hide Lived, Left, Grew, Follows;
    if i == j {
      GrewItself(Left(size, lives[i]));
    } else {
      LivesGrow(size, lives, i, j - 1);
      assert Follows(lives[j - 1], lives[j]);
      NextLifeGrows(size, lives[j - 1], lives[j]);
      GrewTrans(Left(size, lives[i]), Left(size, lives[j - 1]), Left(size, lives[j]));
    }
  }

  // ----- A life in place -----

  /** What recovery makes of a book: its logs, and its session, if there was one, as one more log that ends
      in fewer than 128 erased bytes. */
  ghost predicate RecoveredFrom(b: Book, r: Book) {
    r.session == [] &&
    ((r.logs == b.logs && b.session == []) ||
     exists erased: seq<Byte> {:trigger b.session + erased} ::
       |erased| < 128 && (forall x :: x in erased ==> x == 255) && r.logs == b.logs + [b.session + erased])
  }

  lemma RecoveredBook(d: Disk, c: Cut, s: Store)
    requires Holds(d, c) && Recoverable(d, c.ends, c.open, c.a)
    requires Settled(s) && s.queue == []
    requires var r := Recover(d, c.ends, c.open); s.disk == r.disk && CutOf(s) == Cut(r.ends, r.open, r.address)
    ensures RecoveredFrom(BookAt(d, c), BookOf(s))
  {
    hide LogsOf, Ordered, OnDisk, Recover, Recoverable, FirstErased, Running, BookAt;
    HoldsFacts(d, c);
    var erased := RecoveryFinds(d, c);
    SettledFacts(s);
    EndsOf(s, EndsIn(s), OpenIn(s));
    RecoveryClosed(d, c);
    var r := Recover(d, c.ends, c.open);
    if r.ends != c.ends { assert BookOf(s).logs == BookAt(d, c).logs + [BookAt(d, c).session + erased]; }
  }

  /** After recovery of a recoverable disk the write address is where the next log begins. */
  lemma RecoveryClosed(d: Disk, c: Cut)
    requires Holds(d, c) && Recoverable(d, c.ends, c.open, c.a)
    ensures var r := Recover(d, c.ends, c.open); r.address == Begin(r.ends, |r.ends|)
  {
    hide OnDisk, Program;
    HoldsFacts(d, c);
    RecoveryEnds(d, c.ends, c.open, c.a);
  }

  /** Power-up on the flash that a life left, recovery, and any calls.  The book is the recovered one with
      those calls done, it holds all that was left, and whenever this life ends, it follows the last. */
  method Relive(size: nat, bytes: seq<Byte>, ghost l: Life, ops: seq<Op>) returns (f: Flashfs, ghost start: Book)
    requires 256 <= size < 0x1_0000_0000 && Lived(size, l) && bytes == Flash(size, l).bytes
    requires Recoverable(Flash(size, l), l.cuts[l.n].ends, l.cuts[l.n].open, l.cuts[l.n].a)
    ensures f.Valid() && RecoveredFrom(Left(size, l), start)
    ensures BookOf(f.View()) == DoAll(start, size - 256, ops)
    ensures Grew(Left(size, l), BookOf(f.View()))
    ensures forall n :: l.n <= n <= |f.trace| ==>
      Lived(size, Life(f.trace, f.cuts, n)) && Follows(l, Life(f.trace, f.cuts, n))
  {
    hide Lived, Flash, Left, RecoveredFrom, Shows, Do, Grew, Recoverable;
    f, start := Revive(size, bytes, l);
    for i := 0 to |ops|
      invariant f.flash.Length == size && Shows(f, DoAll(start, size - 256, ops[..i]))
      invariant fresh(f) && fresh(f.flash) && fresh(f.journal) && fresh(f.buff) && fresh(f.buff.slots)
      invariant Recalls(f, l)
    {
      assert ops[..i + 1][..i] == ops[..i];
      OneMore(f, ops[i], DoAll(start, size - 256, ops[..i]));
    }
    assert ops[..|ops|] == ops;
    AnyLater(f, size, l, DoAll(start, size - 256, ops));
  }

  /** The store's record begins with what the life left. */
  ghost predicate Recalls(f: Flashfs, l: Life)
    reads f
  {
    l.n <= |l.trace| && l.n < |l.cuts| && l.trace[..l.n] <= f.trace && l.cuts[..l.n + 1] <= f.cuts
  }

  method Revive(size: nat, bytes: seq<Byte>, ghost l: Life) returns (f: Flashfs, ghost start: Book)
    requires 256 <= size < 0x1_0000_0000 && Lived(size, l) && bytes == Flash(size, l).bytes
    requires Recoverable(Flash(size, l), l.cuts[l.n].ends, l.cuts[l.n].open, l.cuts[l.n].a)
    ensures f.flash.Length == size && Shows(f, start) && RecoveredFrom(Left(size, l), start) && Recalls(f, l)
    ensures fresh(f) && fresh(f.flash) && fresh(f.journal) && fresh(f.buff) && fresh(f.buff.slots)
  {
    hide DiskAt, History, OnDisk, Recoverable, RecoveredFrom, Settled, Recover, BookAt, BookOf;
    ghost var c, d := l.cuts[l.n], Flash(size, l);
    CutRecord(size, l);
    f := new Flashfs.PowerUp(bytes, d, l.trace[..l.n], l.cuts[..l.n + 1]);
    f.Init(c.ends, c.open, c.a);
    Recorded(f);
    InitCut(f, d, c);
    RecoveredBook(d, c, f.View());
    start := BookOf(f.View());
  }

  /** What a life left is itself a record. */
  lemma CutRecord(size: nat, l: Life)
    requires 256 <= size < 0x1_0000_0000 && Lived(size, l)
    ensures History(size, l.trace[..l.n], l.cuts[..l.n + 1])
    ensures DiskAt(size, l.trace[..l.n], |l.trace[..l.n]|) == Flash(size, l)
    ensures Holds(Flash(size, l), l.cuts[l.n]) && |Flash(size, l).bytes| == size
  {
    hide Holds, Precedes;
    var t := l.trace[..l.n];
    forall n | 0 <= n <= l.n ensures DiskAt(size, t, n) == DiskAt(size, l.trace, n) { assert t[..n] == l.trace[..n]; }
  }

  lemma InitCut(f: Flashfs, d: Disk, c: Cut)
    requires Holds(d, c) && d.Sized() && f.Shape() && f.View().queue == []
    requires var r := Recover(d, c.ends, c.open);
             f.View().disk == r.disk && f.address == r.address && Matches(f.View(), r.ends, r.open)
    ensures f.View().Sized()
    ensures var r := Recover(d, c.ends, c.open); CutOf(f.View()) == Cut(r.ends, r.open, r.address)
  {
    hide OnDisk, Recover, Matches;
    var r := Recover(d, c.ends, c.open);
    RecoveredInOrder(d, c.ends, c.open, c.a);
    ReadyIfOnDisk(f.View(), r.ends, r.open);
  }

  lemma AnyLater(f: Flashfs, size: nat, l: Life, b: Book)
    requires 256 <= size < 0x1_0000_0000 && Lived(size, l)
    requires f.flash.Length == size && Shows(f, b) && Recalls(f, l)
    ensures f.Valid() && BookOf(f.View()) == b && Grew(Left(size, l), b)
    ensures forall n :: l.n <= n <= |f.trace| ==>
      Lived(size, Life(f.trace, f.cuts, n)) && Follows(l, Life(f.trace, f.cuts, n))
  {
    hide Settled, History, DiskAt, Grew, BookAt, BookOf, CutOf, Holds;
    Recorded(f);
    var now := Life(f.trace, f.cuts, |f.trace|);
    SameFlash(size, l, now);
    OnlyWritten(size, f.trace, f.cuts, l.n, f.View());
  }
}
