/** Power loss: what the disk holds wherever the record of raw writes is cut, and that what it holds
    only grows along the record. */
module FlashCuts {
  import opened Bytes
  import opened FlashDisk

  /** What a disk holds: closed logs, perhaps an open one, and data up to `a`. */
  datatype Cut = Cut(ends: seq<nat>, open: bool, a: nat)

  ghost predicate Holds(d: Disk, c: Cut) { OnDisk(d, c.ends, c.open, c.a) }

  /** A later disk has the same closed logs and perhaps more, and the same data and perhaps more; the
      log that was open, if it is closed later, ends behind the data it had. */
  ghost predicate Precedes(d: Disk, c: Cut, d': Disk, c': Cut) {
    |d'.bytes| == |d.bytes| && c.ends <= c'.ends && c.a <= c'.a && c.a <= |d.bytes| &&
    d'.bytes[..c.a] == d.bytes[..c.a] &&
    (|c.ends| < |c'.ends| ==> c.a <= c'.ends[|c.ends|])
  }

  lemma PrecedesTrans(d: Disk, c: Cut, d1: Disk, c1: Cut, d2: Disk, c2: Cut)
    requires Precedes(d, c, d1, c1) && Precedes(d1, c1, d2, c2)
    ensures Precedes(d, c, d2, c2)
  {
    assert d2.bytes[..c.a] == d2.bytes[..c1.a][..c.a] == d1.bytes[..c1.a][..c.a] == d1.bytes[..c.a];
  }

  lemma HoldsFacts(d: Disk, c: Cut)
    requires Holds(d, c)
    ensures d.Sized() && Ordered(c.ends, d.DataSize()) && Begin(c.ends, |c.ends|) <= c.a <= d.DataSize()
    ensures Precedes(d, c, d, c)
  {}

  /** The disk after the first `n` raw writes to a blank partition. */
  function DiskAt(size: nat, trace: seq<Raw>, n: nat): (d: Disk)
    requires 256 <= size < 0x1_0000_0000 && n <= |trace|
    ensures d.Sized() && |d.bytes| == size
  {
    ProgramAll(Blank(size), trace[..n])
  }

  /** Wherever the record is cut the disk is in order, and holds at least what any earlier cut held. */
  ghost predicate History(size: nat, trace: seq<Raw>, cuts: seq<Cut>)
    requires 256 <= size < 0x1_0000_0000
  {
    |cuts| == |trace| + 1 &&
    (forall n :: 0 <= n <= |trace| ==> Holds(DiskAt(size, trace, n), cuts[n])) &&
    (forall m, n :: 0 <= m <= n <= |trace| ==>
      Precedes(DiskAt(size, trace, m), cuts[m], DiskAt(size, trace, n), cuts[n]))
  }

  lemma BlankHistory(size: nat)
    requires 256 <= size < 0x1_0000_0000
    ensures DiskAt(size, [], 0) == Blank(size) && History(size, [], [Cut([], false, 0)])
  {
    hide OnDisk;
    BlankOnDisk(size);
    HoldsFacts(Blank(size), Cut([], false, 0));
  }

  lemma DiskAtGrows(size: nat, trace: seq<Raw>, w: Raw)
    requires 256 <= size < 0x1_0000_0000
    ensures forall n :: 0 <= n <= |trace| ==> DiskAt(size, trace + [w], n) == DiskAt(size, trace, n)
    ensures DiskAt(size, trace + [w], |trace| + 1) == Program(DiskAt(size, trace, |trace|), w)
  {
    hide Program;
    var all := trace + [w];
    assert all[..|all|] == all && all[..|all| - 1] == trace == trace[..|trace|];
    forall n | 0 <= n <= |trace| ensures DiskAt(size, all, n) == DiskAt(size, trace, n) {
      assert all[..n] == trace[..n];
    }
  }

  /** One more raw write that leaves the disk in order and keeps what it held. */
  lemma HistoryGrows(size: nat, trace: seq<Raw>, cuts: seq<Cut>, w: Raw, c: Cut)
    requires 256 <= size < 0x1_0000_0000 && History(size, trace, cuts)
    requires var d := DiskAt(size, trace, |trace|);
             Holds(Program(d, w), c) && Precedes(d, cuts[|trace|], Program(d, w), c)
    ensures History(size, trace + [w], cuts + [c]) && |cuts| == |trace| + 1
  {
    hide Program, Holds, Precedes, DiskAt;
    var all, marks, k := trace + [w], cuts + [c], |trace|;
    DiskAtGrows(size, trace, w);
    forall m, n | 0 <= m <= n <= k + 1
      ensures Precedes(DiskAt(size, all, m), marks[m], DiskAt(size, all, n), marks[n])
    {
      if m == k + 1 {
        HoldsFacts(DiskAt(size, all, k + 1), c);
      } else if n == k + 1 {
        PrecedesTrans(DiskAt(size, trace, m), cuts[m], DiskAt(size, trace, k), cuts[k], DiskAt(size, all, n), c);
      }
    }
  }
}
