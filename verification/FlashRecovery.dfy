/** What `flashfsInit` makes of a disk that a power loss left behind. */
module FlashRecovery {
  import opened Bytes
  import opened FlashDisk
  import opened Options

  /** The word at an address of the data area reads as erased. */
  predicate ErasedAt(d: Disk, at: nat)
    requires d.Sized() && at < d.DataSize()
  {
    d.bytes[at..at + 4] == ERASED_WORD
  }

  /** The recovery scan: the first sampled word from `at` on that is all ones. */
  function FirstErased(d: Disk, at: nat): Option<nat>
    requires d.Sized()
    decreases |d.bytes| - at
  {
    if at >= d.DataSize() then None
    else if ErasedAt(d, at) then Some(at)
    else FirstErased(d, at + SAMPLE_STEP)
  }

  predicate Sampled(from: nat, at: nat) {
    from <= at && (at - from) % 128 == 0
  }

  /** The scan's own meaning: the least sampled address that reads as erased, if any. */
  lemma {:induction false} ScanFindsLeast(d: Disk, from: nat)
    requires d.Sized()
    ensures match FirstErased(d, from)
            case Some(e) =>
              Sampled(from, e) && e < d.DataSize() && ErasedAt(d, e) &&
              (forall s: nat :: Sampled(from, s) && s < e ==> s < d.DataSize() && !ErasedAt(d, s))
            case None => forall s: nat :: Sampled(from, s) && s < d.DataSize() ==> !ErasedAt(d, s)
    decreases |d.bytes| - from
  {
    if from < d.DataSize() && !ErasedAt(d, from) {
      ScanFindsLeast(d, from + 128);
      forall s: nat | Sampled(from, s) ensures s == from || Sampled(from + 128, s) {
        NextSample(from, s);
      }
    }
  }

  lemma NextSample(from: nat, s: nat)
    requires Sampled(from, s)
    ensures s == from || (Sampled(from + 128, s) && s >= from + 128)
  {}

  /** The first sampled address at or behind `a`. */
  lemma SampleBehind(from: nat, a: nat) returns (s: nat)
    requires from <= a
    ensures Sampled(from, s) && a <= s < a + 128
  {
    s := from + (a - from + 127) / 128 * 128;
  }

  /** The samples of the data below `a` all show data. */
  ghost predicate DataShows(d: Disk, from: nat, a: nat)
    requires d.Sized() && a <= d.DataSize()
  {
    forall s: nat :: Sampled(from, s) && s < a ==> !ErasedAt(d, s)
  }

  /** When the scan finds an end: it is at or behind the true one exactly if every sample of the data
      shows data, and then it is less than one sampling step too far. */
  lemma {:induction false} ScanFindsEnd(d: Disk, ends: seq<nat>, a: nat)
    requires OnDisk(d, ends, true, a)
    requires FirstErased(d, Begin(ends, |ends|)).Some?
    ensures var e := FirstErased(d, Begin(ends, |ends|)).value;
            Begin(ends, |ends|) <= e < d.DataSize() &&
            (a <= e <==> DataShows(d, Begin(ends, |ends|), a)) &&
            (a <= e ==> e < a + 128)
  {
    hide OnDisk, FirstErased, ErasedAt;
    OnDiskFacts(d, ends, true, a);
    var from := Begin(ends, |ends|);
    ScanFindsLeast(d, from);
    var e := FirstErased(d, from).value;
    if a <= e {
      var s := SampleBehind(from, a);
      if s < e { NoSampleBefore(d, ends, a, e, s); }
    }
  }

  /** A sample behind the data and before another sample does not reach into the journal. */
  lemma NoSampleBefore(d: Disk, ends: seq<nat>, a: nat, e: nat, s: nat)
    requires OnDisk(d, ends, true, a) && a <= s < e < d.DataSize()
    requires Sampled(Begin(ends, |ends|), s) && Sampled(Begin(ends, |ends|), e)
    ensures ErasedAt(d, s)
  {
    hide OnDisk, ErasedAt;
    ErasedBehind(d, ends, a, s);
    SamplesApart(Begin(ends, |ends|), s, e);
  }

  lemma SamplesApart(from: nat, s: nat, t: nat)
    requires Sampled(from, s) && Sampled(from, t) && s < t
    ensures s + 128 <= t
  {}

  /** The journal's first word is the number 0 once a log has begun, so it never reads as erased. */
  lemma FirstWordWritten(d: Disk, ends: seq<nat>, a: nat)
    requires OnDisk(d, ends, true, a)
    ensures d.bytes[d.DataSize()] == 0
  {
    assert JournalWord(d, 0, false) == ExpectedWord(ends, true, 0, false);
    assert d.bytes[d.DataSize()] == JournalWord(d, 0, false)[0];
    assert LE4(0)[0] == 0;
  }

  /** Behind the data a word reads as erased unless it reaches into the journal. */
  lemma ErasedBehind(d: Disk, ends: seq<nat>, a: nat, s: nat)
    requires OnDisk(d, ends, true, a) && a <= s < d.DataSize()
    ensures ErasedAt(d, s) <==> s + 4 <= d.DataSize()
  {
    if s + 4 <= d.DataSize() {
      assert d.bytes[s..s + 4] == ERASED_WORD;
    } else {
      FirstWordWritten(d, ends, a);
      assert d.bytes[s..s + 4][d.DataSize() - s] == 0;
    }
  }

  // ----- The state after recovery -----

  datatype Recovered = Recovered(disk: Disk, ends: seq<nat>, open: bool, address: nat)

  /** A disk with an open log: the scan closes it, or leaves it open with the write address at its begin. */
  function Recover(d: Disk, ends: seq<nat>, open: bool): Recovered
    requires d.Sized()
  {
    var from := Begin(ends, |ends|);
    if open && FirstErased(d, from).Some? then
      var e := FirstErased(d, from).value;
      Recovered(Program(d, EndRecord(d, ends, e)), ends + [e], false, e)
    else Recovered(d, ends, open, from)
  }

  /** No log is open, or an erased sample exists and none lies below the data end `a`, or no sample is
      erased and the open log has no data.  The disk does not record `a`: the writer can check this at
      every moment, a reader of the disk alone cannot. */
  ghost predicate Recoverable(d: Disk, ends: seq<nat>, open: bool, a: nat)
    requires d.Sized() && a <= d.DataSize()
  {
    var from := Begin(ends, |ends|);
    !open ||
    (if FirstErased(d, from).Some? then DataShows(d, from, a) else a == from)
  }

  /** Recovery leads back to an append-safe disk exactly if the disk is recoverable. */
  lemma RecoveryExact(d: Disk, ends: seq<nat>, open: bool, a: nat)
    requires OnDisk(d, ends, open, a)
    ensures var r := Recover(d, ends, open);
            OnDisk(r.disk, r.ends, r.open, r.address) <==> Recoverable(d, ends, open, a)
  {
    hide Program, FirstErased, JournalHolds;
    var r := Recover(d, ends, open);
    var from := Begin(ends, |ends|);
    if open && FirstErased(d, from).Some? {
      ScanFindsEnd(d, ends, a);
      var e := FirstErased(d, from).value;
      if a <= e {
        EndAnywhere(d, ends, a, e);
      } else {
        ClosedTooEarly(d, ends, a, e);
        assert r.disk.programs[e] == 1;
      }
    } else if open && from < a {
      assert d.programs[from] == 1;
    }
  }

  lemma ClosedTooEarly(d: Disk, ends: seq<nat>, a: nat, e: nat)
    requires OnDisk(d, ends, true, a) && Begin(ends, |ends|) <= e < a
    ensures Program(d, EndRecord(d, ends, e)).programs[e] == 1
  {}

  /** Recovery keeps every closed log and every data byte; an open log that shows its data is closed
      less than one sampling step behind its true end, with nothing but erased bytes in between. */
  lemma {:induction false} RecoveryKeeps(d: Disk, ends: seq<nat>, open: bool, a: nat)
    requires OnDisk(d, ends, open, a)
    ensures var r := Recover(d, ends, open);
            ends <= r.ends && r.disk.bytes[..d.DataSize()] == d.bytes[..d.DataSize()] &&
            (!open ==> r == Recovered(d, ends, false, a)) &&
            (open && Recoverable(d, ends, open, a) && FirstErased(d, Begin(ends, |ends|)).Some? ==>
              r.ends == ends + [r.address] && a <= r.address < a + 128 &&
              forall x :: a <= x < r.address ==> r.disk.bytes[x] == 255)
  {
    hide Program, FirstErased, JournalHolds;
    var from := Begin(ends, |ends|);
    if open && FirstErased(d, from).Some? {
      ScanFindsEnd(d, ends, a);
      var e := FirstErased(d, from).value;
      EndJournal(d, ends, a, e);
      var d' := Program(d, EndRecord(d, ends, e));
      forall x | 0 <= x < d.DataSize() ensures d'.bytes[x] == d.bytes[x] {
        assert d'.bytes[..d.DataSize()][x] == d.bytes[..d.DataSize()][x];
      }
    }
  }

  /** Where a log that was open ends after recovery: at the first address, in steps of 128 bytes from its
      begin, at which four bytes read 255; behind the data and less than 128 bytes behind it. */
  lemma RecoveredEnd(d: Disk, ends: seq<nat>, a: nat) returns (k: nat)
    requires OnDisk(d, ends, true, a) && Recoverable(d, ends, true, a)
    requires FirstErased(d, Begin(ends, |ends|)).Some?
    ensures var begin := if ends == [] then 0 else ends[|ends| - 1];
            var r := Recover(d, ends, true);
            r.address == begin + 128 * k && r.ends == ends + [r.address] && !r.open &&
            a <= r.address < a + 128 && r.address + 256 < |d.bytes| &&
            d.bytes[r.address..r.address + 4] == [255, 255, 255, 255] &&
            forall j: nat :: j < k ==> SomeData(d, begin + 128 * j)
  {
    hide OnDisk, FirstErased, Program;
    OnDiskFacts(d, ends, true, a);
    var from := Begin(ends, |ends|);
    ScanFindsLeast(d, from);
    ScanFindsEnd(d, ends, a);
    var e := FirstErased(d, from).value;
    k := (e - from) / 128;
    forall j: nat | j < k ensures SomeData(d, from + 128 * j) {
      assert Sampled(from, from + 128 * j) by { StepsAreSamples(from, j); }
    }
  }

  /** The four bytes at an address do not all read 255. */
  predicate SomeData(d: Disk, at: nat) {
    at + 4 <= |d.bytes| && d.bytes[at..at + 4] != [255, 255, 255, 255]
  }

  lemma StepsAreSamples(from: nat, j: nat)
    ensures Sampled(from, from + 128 * j)
  {}

  /** Otherwise the very next data byte is programmed over an old one. */
  lemma UnrecoverableOverwrites(d: Disk, ends: seq<nat>, open: bool, a: nat, b: Byte)
    requires OnDisk(d, ends, open, a) && !Recoverable(d, ends, open, a)
    ensures var r := Recover(d, ends, open);
            r.address < d.DataSize() && Program(r.disk, Raw(r.address, [b])).programs[r.address] == 2
  {
    hide FirstErased, JournalHolds, And;
    var from := Begin(ends, |ends|);
    if FirstErased(d, from).Some? {
      ScanFindsEnd(d, ends, a);
      ClosedTooEarly(d, ends, a, FirstErased(d, from).value);
    }
  }

  /** Unrecoverable disks exist: a log of four bytes of data that fills its partition, cut off before
      its end was recorded, has no erased sample; the scan leaves the write address at its begin. */
  lemma FullLogIsForgotten() returns (d: Disk)
    ensures OnDisk(d, [], true, 4) && !Recoverable(d, [], true, 4)
    ensures Recover(d, [], true).address == 0
  {
    hide Program;
    var d0 := Blank(260);
    BlankOnDisk(260);
    BeginKeeps(d0, []);
    var d1 := Program(d0, BeginRecord(d0, []));
    DataKeeps(d1, [], 0, [1, 2, 3, 4]);
    d := Program(d1, Raw(0, [1, 2, 3, 4]));
    assert d.bytes[0..4] == [1, 2, 3, 4];
    assert !ErasedAt(d, 0);
    assert FirstErased(d, 128).None?;
  }
}
