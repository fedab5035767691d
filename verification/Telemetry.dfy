/** Bidirectional DShot telemetry: run lengths on the wire to bits, bits to the GCR word, the word to
    its value (EscDriverBase.cpp).  Bit sequences are written first bit first. */
module Telemetry {
  import opened Arithmetic
  import opened Bytes
  import opened Options

  type Bit = x: int | 0 <= x < 2

  const WORD32: nat := 0x1_0000_0000
  const FRAME_BITS: nat := 21
  const INVALID: nat := 0xFFFF

  // ----- Numbers and bits -----

  function ValueOf(bits: seq<Bit>): nat {
    if bits == [] then 0 else 2 * ValueOf(bits[..|bits| - 1]) + bits[|bits| - 1]
  }

  lemma {:induction false} ValueBound(bits: seq<Bit>)
    ensures ValueOf(bits) < Pow2(|bits|)
  {
    hide ValueOf;
    if bits == [] {
      ValueOfNone();
    } else {
      ValueUnfolds(bits);
      ValueBound(bits[..|bits| - 1]);
    }
  }

  lemma ValueOfNone()
    ensures ValueOf([]) == 0
  {}

  lemma {:induction false} ValueUnfolds(bits: seq<Bit>)
    requires bits != []
    ensures ValueOf(bits) == 2 * ValueOf(bits[..|bits| - 1]) + bits[|bits| - 1]
  {}

  lemma {:induction false} ValueAppends(bits: seq<Bit>, b: Bit)
    ensures ValueOf(bits + [b]) == 2 * ValueOf(bits) + b
  {
    hide ValueOf;
    ValueUnfolds(bits + [b]);
    assert (bits + [b])[..|bits|] == bits;
  }

  function Repeat(b: Bit, n: nat): seq<Bit> { seq(n, _ => b) }

  // ----- Run lengths -----

  /** A level held for a duration. */
  datatype Run = Run(duration: nat, level: Bit)

  /** `durationToBitLen`: the nearest number of bits. */
  function BitLen(duration: nat, len: nat): nat {
    if len == 0 then 0 else (duration + len / 2) / len
  }

  /** The nearest count, and no other; halves are rounded up. */
  lemma NearestBits(duration: nat, n: nat, len: nat)
    ensures len > 0 ==> (BitLen(duration, len) == n <==> -(len as int) <= 2 * (duration - n * len) < len)
    ensures len == 0 ==> BitLen(duration, len) == 0
  {
    if len == 0 { return; }
    var x, p := duration + len / 2, n * len;
    assert x == (x / len) * len + x % len;
    if p <= x < p + len { QuotientIs(x, n, x - p, len); }
    HalfOff(duration, p, len, x);
  }

  lemma HalfOff(duration: nat, p: nat, len: nat, x: nat)
    requires len > 0 && x == duration + len / 2
    ensures p <= x < p + len <==> -(len as int) <= 2 * (duration - p) < len
  {}

  /** The bits that a run list stands for. */
  function Bits(runs: seq<Run>, bitLen: nat): seq<Bit> {
    if runs == [] then []
    else
      var r := runs[|runs| - 1];
      Bits(runs[..|runs| - 1], bitLen) + Repeat(r.level, BitLen(r.duration, bitLen))
  }

  /** Missing bits are ones: the line idles high. */
  function Padded(bits: seq<Bit>): seq<Bit> {
    if |bits| < FRAME_BITS then bits + Repeat(1, FRAME_BITS - |bits|) else bits
  }

  /** The fields of a captured item: two durations of 15 bits, two levels. */
  function First(item: nat): Run { Run(item % 32768, (item / 32768) % 2) }

  function Second(item: nat): Run { Run((item / 65536) % 32768, (item / 2147483648) % 2) }

  /** The run list of a capture, up to the first zero duration. */
  function RunsOf(data: seq<nat>): seq<Run>
    decreases |data|
  {
    if data == [] then []
    else if First(data[0]).duration == 0 then []
    else if Second(data[0]).duration == 0 then [First(data[0])]
    else [First(data[0]), Second(data[0])] + RunsOf(data[1..])
  }

  /** `pushBits` shifts a 32-bit word. */
  method PushBits(value: nat, bitVal: Bit, bitLen: nat, ghost bits: seq<Bit>) returns (r: nat)
    requires value == ValueOf(bits) % WORD32
    ensures r == ValueOf(bits + Repeat(bitVal, bitLen)) % WORD32
  {
    hide ValueOf;
    r := value;
    assert bits + Repeat(bitVal, 0) == bits;
    for i := 0 to bitLen
      invariant r == ValueOf(bits + Repeat(bitVal, i)) % WORD32
    {
      ghost var now := bits + Repeat(bitVal, i);
      assert bits + Repeat(bitVal, i + 1) == now + [bitVal];
      ValueAppends(now, bitVal);
      ShiftIn(ValueOf(now), bitVal);
      r := (2 * r) % WORD32 + bitVal;
    }
  }

  lemma ShiftIn(v: nat, b: Bit)
    ensures (2 * (v % WORD32)) % WORD32 + b == (2 * v + b) % WORD32
  {
    var q, m := v / WORD32, v % WORD32;
    var carry := if 2 * m < WORD32 then 0 else 1;
    QuotientIs(2 * m, carry, 2 * m - carry * WORD32, WORD32);
    QuotientIs(2 * v + b, 2 * q + carry, 2 * m - carry * WORD32 + b, WORD32);
  }

  /** The word that a capture stands for: the bits of its runs, missing ones filled with ones. */
  function CapturedWord(data: seq<nat>, bitLen: nat): nat {
    if data == [] || bitLen == 0 then 0
    else ValueOf(Padded(Bits(RunsOf(data), bitLen))) % WORD32
  }

  /** What one captured item adds to the run list. */
  lemma {:induction false} RunsStep(data: seq<nat>, i: nat, runs: seq<Run>)
    requires i < |data| && RunsOf(data) == runs + RunsOf(data[i..])
    ensures var r0, r1 := First(data[i]), Second(data[i]);
            RunsOf(data) == if r0.duration == 0 then runs
                            else if r1.duration == 0 then runs + [r0]
                            else runs + [r0] + [r1] + RunsOf(data[i + 1..])
  {
    hide First, Second, RunsOf;
    var r0, r1, rest := First(data[i]), Second(data[i]), RunsOf(data[i + 1..]);
    RunsUnfold(data[i..]);
    assert data[i..][0] == data[i] && data[i..][1..] == data[i + 1..];
    if r0.duration == 0 {
      assert runs + [] == runs;
    } else if r1.duration != 0 {
      Regroup(runs, r0, r1, rest);
    }
  }

  lemma Regroup(runs: seq<Run>, r0: Run, r1: Run, rest: seq<Run>)
    ensures runs + ([r0, r1] + rest) == runs + [r0] + [r1] + rest
  {}

  lemma {:induction false} RunsUnfold(data: seq<nat>)
    requires data != []
    ensures var r0, r1 := First(data[0]), Second(data[0]);
            RunsOf(data) == if r0.duration == 0 then [] else if r1.duration == 0 then [r0] else [r0, r1] + RunsOf(data[1..])
  {}

  /** `extractTelemetryGcr` */
  method ExtractTelemetryGcr(data: seq<nat>, bitLen: nat) returns (value: nat)
    ensures value == CapturedWord(data, bitLen)
  {
    if data == [] || bitLen == 0 {
      return 0;
    }
    hide Bits, ValueOf, First, Second, RunsOf;
    NoRuns(bitLen);
    var bitCount := 0;
    value := 0;
    ghost var runs: seq<Run> := [];
    var i := 0;
    assert data[0..] == data && [] + RunsOf(data) == RunsOf(data);
    while i < |data|
      invariant i <= |data| && RunsOf(data) == runs + RunsOf(data[i..])
      invariant value == ValueOf(Bits(runs, bitLen)) % WORD32 && bitCount == |Bits(runs, bitLen)|
      decreases |data| - i
    {
      RunsStep(data, i, runs);
      var r0 := First(data[i]);
      if r0.duration == 0 { break; }
      value, bitCount := PushRun(value, bitCount, r0, bitLen, runs);
      runs := runs + [r0];
      var r1 := Second(data[i]);
      if r1.duration == 0 { break; }
      value, bitCount := PushRun(value, bitCount, r1, bitLen, runs);
      runs := runs + [r1];
      i := i + 1;
    }
    if i == |data| { NoMoreRuns(data, runs); }
    if bitCount < FRAME_BITS {
      value := PushBits(value, 1, FRAME_BITS - bitCount, Bits(runs, bitLen));
    }
  }

  lemma {:induction false} NoRuns(bitLen: nat)
    ensures Bits([], bitLen) == [] && ValueOf([]) == 0
  {}

  lemma {:induction false} NoMoreRuns(data: seq<nat>, runs: seq<Run>)
    requires RunsOf(data) == runs + RunsOf(data[|data|..])
    ensures RunsOf(data) == runs
  {}

  method PushRun(value: nat, bitCount: nat, r: Run, bitLen: nat, ghost runs: seq<Run>) returns (value': nat, bitCount': nat)
    requires value == ValueOf(Bits(runs, bitLen)) % WORD32 && bitCount == |Bits(runs, bitLen)|
    ensures value' == ValueOf(Bits(runs + [r], bitLen)) % WORD32 && bitCount' == |Bits(runs + [r], bitLen)|
  {
    assert (runs + [r])[..|runs|] == runs;
    value', bitCount' := value, bitCount;
    var n := BitLen(r.duration, bitLen);
    assert Bits(runs + [r], bitLen) == Bits(runs, bitLen) + Repeat(r.level, n);
    assert Bits(runs, bitLen) + Repeat(r.level, 0) == Bits(runs, bitLen);
    if n != 0 {
      value' := PushBits(value, r.level, n, Bits(runs, bitLen));
      bitCount' := bitCount + n;
    }
  }

  /** A run list that holds each level for about the given number of bits. */
  ghost predicate About(runs: seq<Run>, counts: seq<nat>, bitLen: nat) {
    |runs| == |counts| &&
    forall i :: 0 <= i < |runs| ==> -(bitLen as int) < 2 * (runs[i].duration - counts[i] * bitLen) < bitLen
  }

  ghost function Spelled(runs: seq<Run>, counts: seq<nat>): seq<Bit>
    requires |runs| == |counts|
  {
    if runs == [] then []
    else Spelled(runs[..|runs| - 1], counts[..|runs| - 1]) + Repeat(runs[|runs| - 1].level, counts[|runs| - 1])
  }

  /** Jitter below half a bit does not change the bits. */
  lemma {:induction false} JitterIsRounded(runs: seq<Run>, counts: seq<nat>, bitLen: nat)
    requires bitLen > 0 && About(runs, counts, bitLen)
    ensures Bits(runs, bitLen) == Spelled(runs, counts)
  {
    if runs != [] {
      var n := |runs| - 1;
      JitterIsRounded(runs[..n], counts[..n], bitLen);
      NearestBits(runs[n].duration, counts[n], bitLen);
    }
  }

  // ----- GCR -----

  /** The decode table: nibbles of the valid quintets. */
  function Decode5(q: nat): Option<nat> {
    match q
    case 9 => Some(9) case 10 => Some(10) case 11 => Some(11)
    case 13 => Some(13) case 14 => Some(14) case 15 => Some(15)
    case 18 => Some(2) case 19 => Some(3)
    case 21 => Some(5) case 22 => Some(6) case 23 => Some(7)
    case 25 => Some(0) case 26 => Some(8) case 27 => Some(1)
    case 29 => Some(4) case 30 => Some(12)
    case _ => None
  }

  /** Its inverse, the five bits of a nibble. */
  function Encode5(n: nat): seq<Bit>
    requires n < 16
  {
    match n
    case 0 => [1, 1, 0, 0, 1] case 1 => [1, 1, 0, 1, 1] case 2 => [1, 0, 0, 1, 0] case 3 => [1, 0, 0, 1, 1]
    case 4 => [1, 1, 1, 0, 1] case 5 => [1, 0, 1, 0, 1] case 6 => [1, 0, 1, 1, 0] case 7 => [1, 0, 1, 1, 1]
    case 8 => [1, 1, 0, 1, 0] case 9 => [0, 1, 0, 0, 1] case 10 => [0, 1, 0, 1, 0] case 11 => [0, 1, 0, 1, 1]
    case 12 => [1, 1, 1, 1, 0] case 13 => [0, 1, 1, 0, 1] case 14 => [0, 1, 1, 1, 0] case _ => [0, 1, 1, 1, 1]
  }

  /** The four nibbles of a 16-bit word, most significant first. */
  function Nibble(w: nat, i: nat): nat
    requires i < 4
  {
    (match i case 0 => w / 4096 case 1 => w / 256 case 2 => w / 16 case _ => w) % 16
  }

  function Xor4(a: nat, b: nat): (x: nat)
    ensures x < 16
  {
    assert Pow2(4) == 16;
    XorBits(a, b, 4)
  }

  /** The nibbles of a good word add up, without carry, to all ones. */
  predicate ChecksumOk(w: nat) {
    Xor4(Xor4(Nibble(w, 0), Nibble(w, 2)), Xor4(Nibble(w, 1), Nibble(w, 3))) == 15
  }

  /** `gcrToRawValue`: undo the transition coding, decode four quintets, check, and drop the checksum. */
  function GcrToRawValue(value: nat): nat {
    var gcr := XorBits(value, value / 2, 32) % 0x100000;
    var d0, d1, d2, d3 := Decode5(gcr % 32), Decode5((gcr / 32) % 32), Decode5((gcr / 1024) % 32), Decode5((gcr / 32768) % 32);
    if d0.None? || d1.None? || d2.None? || d3.None? then INVALID
    else
      var w := d0.value + 16 * d1.value + 256 * d2.value + 4096 * d3.value;
      if ChecksumOk(w) then w / 16 else INVALID
  }

  /** The 20 bits that a sender encodes a word in. */
  function GcrBits(w: nat): seq<Bit> {
    Encode5(Nibble(w, 0)) + Encode5(Nibble(w, 1)) + Encode5(Nibble(w, 2)) + Encode5(Nibble(w, 3))
  }

  function Flip(a: Bit, b: Bit): Bit { if a == b then 0 else 1 }

  /** Transition coding: a one changes the level, a zero keeps it.  The first bit is the start level. */
  function Transitions(start: Bit, g: seq<Bit>): seq<Bit> {
    if g == [] then [start]
    else
      var r := Transitions(start, g[..|g| - 1]);
      r + [Flip(r[|r| - 1], g[|g| - 1])]
  }

  lemma {:induction false} TransitionsLength(start: Bit, g: seq<Bit>)
    ensures |Transitions(start, g)| == |g| + 1
  {
    if g != [] { TransitionsLength(start, g[..|g| - 1]); }
  }

  /** What the transition decoder computes: each bit against the one before, the first against zero. */
  function Differences(b: seq<Bit>): seq<Bit> {
    if b == [] then []
    else
      var n := |b| - 1;
      Differences(b[..n]) + [Flip(if n == 0 then 0 else b[n - 1], b[n])]
  }

  lemma {:induction false} XorOfZero(n: nat)
    ensures XorBits(0, 0, n) == 0
  {
    if n > 0 { XorOfZero(n - 1); }
  }

  /** The bit before the last one, or zero. */
  function Previous(t: seq<Bit>): Bit { if t == [] then 0 else t[|t| - 1] }

  lemma {:induction false} LastBit(b: seq<Bit>)
    ensures ValueOf(b) % 2 == Previous(b)
    ensures b != [] ==> ValueOf(b) / 2 == ValueOf(b[..|b| - 1])
  {
    hide ValueOf;
    if b == [] { ValueOfNone(); } else { ValueUnfolds(b); }
  }

  lemma XorStep(x: nat, y: nat, n: nat)
    requires n > 0
    ensures XorBits(x, y, n) == (if x % 2 == y % 2 then 0 else 1) + 2 * XorBits(x / 2, y / 2, n - 1)
  {}

  lemma {:induction false} DifferencesUnfold(b: seq<Bit>)
    requires b != []
    ensures Differences(b) == Differences(b[..|b| - 1]) + [Flip(Previous(b[..|b| - 1]), b[|b| - 1])]
  {
    var n := |b| - 1;
    assert n > 0 ==> b[..n][n - 1] == b[n - 1];
  }

  lemma {:induction false} DifferencesStep(b: seq<Bit>)
    requires b != []
    ensures ValueOf(Differences(b)) == 2 * ValueOf(Differences(b[..|b| - 1])) + Flip(Previous(b[..|b| - 1]), b[|b| - 1])
  {
    hide ValueOf, Differences;
    DifferencesUnfold(b);
    ValueAppends(Differences(b[..|b| - 1]), Flip(Previous(b[..|b| - 1]), b[|b| - 1]));
  }

  /** `value ^ (value >> 1)` takes differences. */
  lemma {:induction false} XorTakesDifferences(b: seq<Bit>, n: nat)
    requires |b| <= n
    ensures XorBits(ValueOf(b), ValueOf(b) / 2, n) == ValueOf(Differences(b))
  {
    if b == [] {
      XorOfZero(n);
    } else {
      hide ValueOf, XorBits, Differences;
      var t := b[..|b| - 1];
      XorTakesDifferences(t, n - 1);
      LastBit(b);
      LastBit(t);
      XorStep(ValueOf(b), ValueOf(t), n);
      DifferencesStep(b);
    }
  }

  lemma {:induction false} DifferencesUndoTransitions(start: Bit, g: seq<Bit>)
    ensures Differences(Transitions(start, g)) == [start] + g
  {
    var r := Transitions(start, g);
    TransitionsLength(start, g);
    if g == [] {
      assert r[..0] == [] && Differences([start]) == [] + [Flip(0, start)];
    } else {
      var h := g[..|g| - 1];
      DifferencesUndoTransitions(start, h);
      TransitionsLength(start, h);
      assert r[..|r| - 1] == Transitions(start, h);
      assert Differences(r) == Differences(r[..|r| - 1]) + [Flip(r[|r| - 2], r[|r| - 1])];
      assert [start] + h + [g[|g| - 1]] == [start] + g;
    }
  }

  lemma {:induction false} ValueOfConcat(a: seq<Bit>, b: seq<Bit>)
    ensures ValueOf(a + b) == ValueOf(a) * Pow2(|b|) + ValueOf(b)
  {
    hide ValueOf;
    if b == [] {
      assert a + b == a;
      ValueOfNone();
    } else {
      var t, x := b[..|b| - 1], b[|b| - 1];
      assert a + b == (a + t) + [x];
      ValueOfConcat(a, t);
      ValueAppends(a + t, x);
      ValueUnfolds(b);
      Double(ValueOf(a), Pow2(|t|));
    }
  }

  lemma Double(x: nat, y: nat)
    ensures 2 * (x * y) == x * (2 * y)
  {}

  lemma Powers()
    ensures Pow2(5) == 32 && Pow2(20) == 0x100000 && Pow2(21) < WORD32
  {
    assert Pow2(10) == 1024;
    assert Pow2(15) == 32 * Pow2(10);
    assert Pow2(20) == 32 * Pow2(15);
  }

  /** Four quintets, first one first, and the number they spell. */
  lemma {:induction false} QuintetsOf(a: seq<Bit>, b: seq<Bit>, c: seq<Bit>, d: seq<Bit>)
    requires |a| == |b| == |c| == |d| == 5
    ensures var v := ValueOf(a + b + c + d);
            v < 0x100000 && v % 32 == ValueOf(d) && (v / 32) % 32 == ValueOf(c) &&
            (v / 1024) % 32 == ValueOf(b) && (v / 32768) % 32 == ValueOf(a)
  {
    hide ValueOf, Pow2;
    Powers();
    ValueOfConcat(a + b + c, d);
    ValueOfConcat(a + b, c);
    ValueOfConcat(a, b);
    ValueBound(a); ValueBound(b); ValueBound(c); ValueBound(d);
    BaseDigits(ValueOf(a), ValueOf(b), ValueOf(c), ValueOf(d));
  }

  lemma BaseDigits(a: nat, b: nat, c: nat, d: nat)
    requires a < 32 && b < 32 && c < 32 && d < 32
    ensures var v := ((a * 32 + b) * 32 + c) * 32 + d;
            v < 0x100000 && v % 32 == d && (v / 32) % 32 == c && (v / 1024) % 32 == b && (v / 32768) % 32 == a
  {}

  /** The receiver's first step turns the sent levels back into the twenty coded bits. */
  lemma {:induction false} TransitionsDecode(start: Bit, g: seq<Bit>)
    requires |g| == 20
    ensures var v := ValueOf(Transitions(start, g));
            v < WORD32 && XorBits(v, v / 2, 32) % 0x100000 == ValueOf(g)
  {
    hide ValueOf, Pow2, XorBits, Transitions, Differences;
    var r := Transitions(start, g);
    TransitionsLength(start, g);
    ValueBound(r);
    Powers();
    XorTakesDifferences(r, 32);
    DifferencesUndoTransitions(start, g);
    ValueOfConcat([start], g);
    ValueBound(g);
    ModDrops(ValueOf([start]), ValueOf(g));
  }

  lemma ModDrops(a: nat, b: nat)
    requires b < 0x100000
    ensures (a * 0x100000 + b) % 0x100000 == b
  {}

  lemma TableRoundTrip(n: nat)
    requires n < 16
    ensures |Encode5(n)| == 5 && Decode5(ValueOf(Encode5(n))) == Some(n)
  {
    var e := Encode5(n);
    FiveBits(e);
    hide ValueOf;
  }

  lemma {:induction false} FiveBits(e: seq<Bit>)
    requires |e| == 5
    ensures ValueOf(e) == 16 * (e[0] as int) + 8 * (e[1] as int) + 4 * (e[2] as int) + 2 * (e[3] as int) + e[4]
  {
    ValueStep(e, 4); ValueStep(e, 3); ValueStep(e, 2); ValueStep(e, 1); ValueStep(e, 0);
    hide ValueOf;
    assert e[..5] == e;
    assert e[..0] == [];
    ValueOfNone();
  }

  lemma ValueStep(e: seq<Bit>, i: nat)
    requires i < |e|
    ensures ValueOf(e[..i + 1]) == 2 * ValueOf(e[..i]) + e[i]
  {
    assert e[..i + 1][..i] == e[..i];
  }

  lemma WordOfNibbles(w: nat)
    requires w < 65536
    ensures w == Nibble(w, 3) + 16 * Nibble(w, 2) + 256 * Nibble(w, 1) + 4096 * Nibble(w, 0)
    ensures forall i :: 0 <= i < 4 ==> Nibble(w, i) < 16
  {
    assert w / 256 == w / 16 / 16 && w / 4096 == w / 16 / 16 / 16;
  }

  /** In every bit position, an odd number of the four nibbles have the bit. */
  predicate GoodChecksum(w: nat) {
    forall k :: 0 <= k < 4 ==> (NibbleBit(w, k) + NibbleBit(w / 16, k) + NibbleBit(w / 256, k) + NibbleBit(w / 4096, k)) % 2 == 1
  }

  /** The `k`-th bit of the lowest nibble. */
  function NibbleBit(w: nat, k: nat): nat { Bytes.Bit(w % 16, k) }

  lemma ChecksumByBits(w: nat)
    ensures ChecksumOk(w) <==> GoodChecksum(w)
  {
    hide XorBits, Bytes.Bit, Xor4, Nibble;
    var x := Xor4(Xor4(Nibble(w, 0), Nibble(w, 2)), Xor4(Nibble(w, 1), Nibble(w, 3)));
    forall k | 0 <= k < 4 ensures Bytes.Bit(x, k) ==
      (NibbleBit(w, k) + NibbleBit(w / 16, k) + NibbleBit(w / 256, k) + NibbleBit(w / 4096, k)) % 2
    {
      BitOfFour(Nibble(w, 0), Nibble(w, 2), Nibble(w, 1), Nibble(w, 3), k);
      NibblesAre(w);
    }
    BitsOfFifteen();
    if GoodChecksum(w) { FourBits(x); }
  }

  lemma NibblesAre(w: nat)
    ensures Nibble(w, 0) == w / 4096 % 16 && Nibble(w, 1) == w / 256 % 16 && Nibble(w, 2) == w / 16 % 16 && Nibble(w, 3) == w % 16
  {}

  /** The bits of four nibbles add up without carry. */
  lemma {:induction false} BitOfFour(a: nat, b: nat, c: nat, d: nat, k: nat)
    requires k < 4
    ensures Bytes.Bit(Xor4(Xor4(a, b), Xor4(c, d)), k) ==
            (Bytes.Bit(d, k) + Bytes.Bit(b, k) + Bytes.Bit(c, k) + Bytes.Bit(a, k)) % 2
  {
    hide XorBits, Bytes.Bit;
    XorBitAt(a, b, 4, k);
    XorBitAt(c, d, 4, k);
    XorBitAt(Xor4(a, b), Xor4(c, d), 4, k);
  }

  lemma FourBits(x: nat)
    requires x < 16 && forall k :: 0 <= k < 4 ==> Bytes.Bit(x, k) == 1
    ensures x == 15
  {
    hide Bytes.Bit;
    BitsOfFifteen();
    assert Pow2(4) == 16;
    SameBits(x, 15, 4);
  }

  lemma BitsOfFifteen()
    ensures forall k :: 0 <= k < 4 ==> Bytes.Bit(15, k) == 1
  {
    assert Bytes.Bit(15, 0) == 1;
    assert Bytes.Bit(15, 1) == Bytes.Bit(7, 0);
    assert Bytes.Bit(15, 2) == Bytes.Bit(7, 1) == Bytes.Bit(3, 0);
    assert Bytes.Bit(15, 3) == Bytes.Bit(7, 2) == Bytes.Bit(3, 1) == Bytes.Bit(1, 0);
  }

  // ----- The code, in numbers -----

  /** The quintet of each nibble. */
  const QUINTETS: seq<nat> := [25, 27, 18, 19, 29, 21, 22, 23, 26, 9, 10, 11, 30, 13, 14, 15]

  lemma CodeTable(n: nat)
    requires n < 16
    ensures |Encode5(n)| == 5 && ValueOf(Encode5(n)) == QUINTETS[n]
  {
    var e := Encode5(n);
    FiveBits(e);
    hide ValueOf;
  }

  /** A quintet is decoded if and only if it is in that table, to its place in it. */
  lemma DecodeTable(q: nat, n: nat)
    ensures Decode5(q) == Some(n) <==> n < 16 && QUINTETS[n] == q
  {}

  /** No quintet begins or ends with two zeros or has three in a row, so that a coded word never holds a level
      for more than three bits. */
  lemma NeverThreeZeros(w: nat, i: nat)
    requires w < 65536 && i + 2 < 20
    ensures |GcrBits(w)| == 20
    ensures GcrBits(w)[i] == 1 || GcrBits(w)[i + 1] == 1 || GcrBits(w)[i + 2] == 1
  {
    GcrLength(w);
    WordOfNibbles(w);
    hide Encode5, Nibble;
    var a, b, c, d := Encode5(Nibble(w, 0)), Encode5(Nibble(w, 1)), Encode5(Nibble(w, 2)), Encode5(Nibble(w, 3));
    QuintetIsDense(Nibble(w, 0)); QuintetIsDense(Nibble(w, 1)); QuintetIsDense(Nibble(w, 2)); QuintetIsDense(Nibble(w, 3));
    DenseJoins(a, b);
    DenseJoins(a + b, c);
    DenseJoins(a + b + c, d);
  }

  /** A one in every three bits, and among the first and the last two. */
  predicate Dense(s: seq<Bit>) {
    |s| >= 3 && (s[0] == 1 || s[1] == 1) && (s[|s| - 2] == 1 || s[|s| - 1] == 1) &&
    forall i :: 0 <= i < |s| - 2 ==> s[i] == 1 || s[i + 1] == 1 || s[i + 2] == 1
  }

  lemma QuintetIsDense(n: nat)
    requires n < 16
    ensures Dense(Encode5(n))
  {}

  lemma DenseJoins(s: seq<Bit>, t: seq<Bit>)
    requires Dense(s) && Dense(t)
    ensures Dense(s + t)
  {}

  // ----- The capture, in numbers -----

  /** The fields of an item: duration in 15 bits, level in one, twice. */
  lemma ItemFields(d0: nat, l0: Bit, d1: nat, l1: Bit)
    requires d0 < 0x8000 && d1 < 0x8000
    ensures var item := d0 + 0x8000 * l0 + 0x1_0000 * d1 + 0x8000_0000 * l1;
            First(item) == Run(d0, l0) && Second(item) == Run(d1, l1)
  {
    var item, upper := d0 + 0x8000 * l0 + 0x1_0000 * d1 + 0x8000_0000 * l1, d1 + 0x8000 * l1;
    QuotientIs(item, l0 + 2 * upper, d0, 0x8000);
    QuotientIs(l0 + 2 * upper, upper, l0, 2);
    QuotientIs(item, upper, d0 + 0x8000 * l0, 0x1_0000);
    QuotientIs(upper, l1, d1, 0x8000);
    QuotientIs(item, l1, d0 + 0x8000 * l0 + 0x1_0000 * d1, 0x8000_0000);
  }

  /** A capture is filled up with ones to 21 bits, and a longer one left as it is. */
  lemma PaddedIs(bits: seq<Bit>)
    ensures var p := Padded(bits);
            bits <= p && |p| == (if |bits| < 21 then 21 else |bits|) && forall i :: |bits| <= i < |p| ==> p[i] == 1
  {}

  /** Decoding inverts the coding of every 16-bit word whose checksum is right, and rejects the others. */
  lemma {:induction false} GcrRoundTrip(start: Bit, w: nat)
    requires w < 65536
    ensures GcrToRawValue(ValueOf(Transitions(start, GcrBits(w)))) == if GoodChecksum(w) then w / 16 else 0xFFFF
  {
    ChecksumByBits(w);
    hide GoodChecksum, ValueOf, XorBits, Transitions, ChecksumOk, Encode5, Decode5, Nibble;
    WordOfNibbles(w);
    TableRoundTrip(Nibble(w, 0)); TableRoundTrip(Nibble(w, 1));
    TableRoundTrip(Nibble(w, 2)); TableRoundTrip(Nibble(w, 3));
    QuintetsOf(Encode5(Nibble(w, 0)), Encode5(Nibble(w, 1)), Encode5(Nibble(w, 2)), Encode5(Nibble(w, 3)));
    TransitionsDecode(start, GcrBits(w));
  }

  /** Any twenty bits are accepted exactly if every quintet is in the table and the word's checksum is right. */
  lemma {:induction false} GcrAcceptsExactly(start: Bit, a: seq<Bit>, b: seq<Bit>, c: seq<Bit>, d: seq<Bit>)
    requires |a| == |b| == |c| == |d| == 5
    ensures var r := GcrToRawValue(ValueOf(Transitions(start, a + b + c + d)));
            r != 0xFFFF <==> exists w: nat :: w < 65536 && GoodChecksum(w) && a + b + c + d == GcrBits(w)
  {
    hide GoodChecksum, ValueOf, XorBits, Transitions, ChecksumOk, Encode5, Decode5, Nibble, Pow2;
    TransitionsDecode(start, a + b + c + d);
    QuintetsOf(a, b, c, d);
    var r := GcrToRawValue(ValueOf(Transitions(start, a + b + c + d)));
    if r != INVALID {
      QuintetDecodes(a); QuintetDecodes(b); QuintetDecodes(c); QuintetDecodes(d);
      var w := Decode5(ValueOf(d)).value + 16 * Decode5(ValueOf(c)).value +
               256 * Decode5(ValueOf(b)).value + 4096 * Decode5(ValueOf(a)).value;
      NibblesOfWord(Decode5(ValueOf(a)).value, Decode5(ValueOf(b)).value, Decode5(ValueOf(c)).value, Decode5(ValueOf(d)).value);
      ChecksumByBits(w);
      assert w < 65536 && GoodChecksum(w) && a + b + c + d == GcrBits(w);
    }
    forall w: nat | w < 65536 && GoodChecksum(w) && a + b + c + d == GcrBits(w) ensures r != INVALID {
      GcrRoundTrip(start, w);
    }
  }

  lemma NibblesOfWord(a: nat, b: nat, c: nat, d: nat)
    requires a < 16 && b < 16 && c < 16 && d < 16
    ensures var w := d + 16 * c + 256 * b + 4096 * a;
            w < 65536 && Nibble(w, 0) == a && Nibble(w, 1) == b && Nibble(w, 2) == c && Nibble(w, 3) == d
  {
    var w := d + 16 * c + 256 * b + 4096 * a;
    assert w / 16 == c + 16 * b + 256 * a;
    assert w / 256 == b + 16 * a;
    assert w / 4096 == a;
  }

  /** A quintet that decodes is the coding of what it decodes to. */
  lemma {:induction false} QuintetDecodes(q: seq<Bit>)
    requires |q| == 5 && Decode5(ValueOf(q)).Some?
    ensures Decode5(ValueOf(q)).value < 16 && Encode5(Decode5(ValueOf(q)).value) == q
  {
    var n := Decode5(ValueOf(q)).value;
    TableRoundTrip(n);
    TableInjective(q, Encode5(n), n);
  }

  lemma {:induction false} TableInjective(q: seq<Bit>, e: seq<Bit>, n: nat)
    requires |q| == 5 == |e| && Decode5(ValueOf(q)) == Some(n) == Decode5(ValueOf(e))
    ensures q == e
  {
    ValueInjective(q, e);
  }

  lemma {:induction false} ValueInjective(a: seq<Bit>, b: seq<Bit>)
    requires |a| == |b| && ValueOf(a) == ValueOf(b)
    ensures a == b
  {
    if a != [] {
      var n := |a| - 1;
      ValueInjective(a[..n], b[..n]);
      assert a == a[..n] + [a[n]] && b == b[..n] + [b[n]];
    }
  }

  // ----- From the wire to the value -----

  lemma GcrLength(w: nat)
    requires w < 65536
    ensures |GcrBits(w)| == 20
  {
    WordOfNibbles(w);
    hide Nibble;
  }

  /** A capture whose levels last about as long as the bits of a coded word, with the trailing ones
      possibly missing, decodes to that word. */
  lemma {:induction false} TelemetryRoundTrip(data: seq<nat>, counts: seq<nat>, bitLen: nat, start: Bit, w: nat)
    requires data != [] && bitLen > 0 && w < 65536
    requires About(RunsOf(data), counts, bitLen)
    requires Padded(Spelled(RunsOf(data), counts)) == Transitions(start, GcrBits(w))
    ensures GcrToRawValue(CapturedWord(data, bitLen)) == if GoodChecksum(w) then w / 16 else 0xFFFF
  {
    hide ValueOf, GcrToRawValue, Transitions, RunsOf, Spelled, Bits, GcrBits, Padded, GoodChecksum, XorBits, About;
    JitterIsRounded(RunsOf(data), counts, bitLen);
    GcrLength(w);
    TransitionsDecode(start, GcrBits(w));
    GcrRoundTrip(start, w);
  }
}
