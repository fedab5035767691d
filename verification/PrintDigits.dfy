/** Numbers as text (printf.c): digits into a 12-byte buffer, and numbers out of a C string, which is
    the sequence of its bytes before the terminator. */
module PrintDigits {
  import opened Arithmetic

  const NUL: char := '\0'
  const UINT_RANGE: nat := 0x1_0000_0000
  const INT_RANGE: nat := 0x8000_0000

  // ----- Digits -----

  /** `a2d` */
  function DigitOf(c: char): int {
    if '0' <= c <= '9' then c as int - '0' as int
    else if 'a' <= c <= 'f' then c as int - 'a' as int + 10
    else if 'A' <= c <= 'F' then c as int - 'A' as int + 10
    else -1
  }

  function DigitChar(d: nat, uc: bool): char
    requires d < 16
  {
    if d < 10 then ('0' as int + d) as char else ((if uc then 'A' else 'a') as int - 10 + d) as char
  }

  /** The number that digits spell, most significant first. */
  function NumberOf(s: seq<char>, base: nat): int {
    if s == [] then 0 else NumberOf(s[..|s| - 1], base) * base + DigitOf(s[|s| - 1])
  }

  /** The digits of a number. */
  function Digits(n: nat, base: nat, uc: bool): seq<char>
    requires 2 <= base <= 16
  {
    if n < base then [DigitChar(n, uc)] else Digits(n / base, base, uc) + [DigitChar(n % base, uc)]
  }

  /** A digit of the base in one letter case. */
  predicate IsDigit(c: char, base: nat, uc: bool) {
    0 <= DigitOf(c) < base && DigitOf(c) < 16 && c == DigitChar(DigitOf(c), uc)
  }

  /** Digits without leading zeros. */
  predicate Canonical(s: seq<char>, base: nat, uc: bool) {
    s != [] && (|s| > 1 ==> s[0] != '0') && forall i :: 0 <= i < |s| ==> IsDigit(s[i], base, uc)
  }

  lemma {:induction false} Appended(s: seq<char>, c: char, base: nat)
    ensures NumberOf(s + [c], base) == NumberOf(s, base) * base + DigitOf(c)
  {}

  lemma {:induction false} NoDigits(base: nat)
    ensures NumberOf([], base) == 0
  {}

  lemma {:induction false} OneDigit(c: char, base: nat)
    ensures NumberOf([c], base) == DigitOf(c)
  {}

  lemma DigitIs(n: nat, base: nat, uc: bool)
    requires n < base <= 16
    ensures IsDigit(DigitChar(n, uc), base, uc) && DigitOf(DigitChar(n, uc)) == n
    ensures n > 0 <==> DigitChar(n, uc) != '0'
  {}

  lemma {:induction false} DigitsAreCanonical(n: nat, base: nat, uc: bool)
    requires 2 <= base <= 16
    ensures Canonical(Digits(n, base, uc), base, uc) && NumberOf(Digits(n, base, uc), base) == n
    ensures n > 0 ==> Digits(n, base, uc)[0] != '0'
  {
    hide DigitOf, DigitChar, IsDigit, NumberOf, Digits, Canonical;
    if n < base {
      DigitIs(n, base, uc);
      ShortDigits(n, base, uc);
      OneDigit(DigitChar(n, uc), base);
      OneIsCanonical(DigitChar(n, uc), base, uc);
    } else {
      var q, r := LastDigit(n, base, uc);
      var t, c := Digits(q, base, uc), DigitChar(r, uc);
      DigitIs(r, base, uc);
      DigitsAreCanonical(q, base, uc);
      Appended(t, c, base);
      CanonicalGrows(t, c, base, uc);
    }
  }

  lemma LastDigit(n: nat, base: nat, uc: bool) returns (q: nat, r: nat)
    requires 2 <= base <= 16 && base <= n
    ensures 0 < q < n && r < base && n == q * base + r
    ensures Digits(n, base, uc) == Digits(q, base, uc) + [DigitChar(r, uc)]
  {
    q, r := n / base, n % base;
    Quotient(n, base);
    Multiples(2, base, q);
  }

  lemma OneIsCanonical(c: char, base: nat, uc: bool)
    requires IsDigit(c, base, uc)
    ensures Canonical([c], base, uc) && [c][0] == c
  {}

  lemma CanonicalGrows(t: seq<char>, c: char, base: nat, uc: bool)
    requires Canonical(t, base, uc) && t[0] != '0' && IsDigit(c, base, uc)
    ensures Canonical(t + [c], base, uc) && (t + [c])[0] != '0'
  {}

  lemma Quotient(n: nat, base: nat)
    requires 0 < base <= n
    ensures n / base > 0 && n / base * base + n % base == n
  {}

  /** Only one canonical text spells a number. */
  lemma {:induction false} CanonicalIsDigits(s: seq<char>, base: nat, uc: bool)
    requires 2 <= base <= 16 && Canonical(s, base, uc)
    ensures NumberOf(s, base) >= 0 && s == Digits(NumberOf(s, base), base, uc)
    ensures s[0] != '0' ==> NumberOf(s, base) > 0
  {
    hide DigitChar, DigitOf, NumberOf, IsDigit, Digits;
    var n := |s| - 1;
    var t, c := s[..n], s[n];
    assert s == t + [c];
    DigitOfIs(c, base, uc);
    Appended(t, c, base);
    if n == 0 {
      assert t == [];
      OneDigit(c, base);
      ShortDigits(DigitOf(c), base, uc);
    } else {
      CanonicalIsDigits(t, base, uc);
      LongDigits(NumberOf(t, base), DigitOf(c), base, uc);
    }
  }

  lemma DigitOfIs(c: char, base: nat, uc: bool)
    requires IsDigit(c, base, uc)
    ensures 0 <= DigitOf(c) < base && DigitOf(c) < 16 && c == DigitChar(DigitOf(c), uc)
    ensures c != '0' ==> DigitOf(c) > 0
  {}

  lemma {:induction false} ShortDigits(n: nat, base: nat, uc: bool)
    requires n < base && 2 <= base <= 16
    ensures Digits(n, base, uc) == [DigitChar(n, uc)]
  {}

  lemma LongDigits(m: nat, r: nat, base: nat, uc: bool)
    requires m > 0 && r < base && 2 <= base <= 16
    ensures m * base + r > 0 && Digits(m * base + r, base, uc) == Digits(m, base, uc) + [DigitChar(r, uc)]
  {
    QuotientIs(m * base + r, m, r, base);
  }

  // ----- ui2a -----

  function Pow(b: nat, k: nat): nat { if k == 0 then 1 else b * Pow(b, k - 1) }

  lemma {:induction false} PowPositive(b: nat, k: nat)
    requires b > 0
    ensures Pow(b, k) > 0
  {
    if k > 0 { PowPositive(b, k - 1); }
  }

  lemma {:induction false} PowGrows(b: nat, j: nat, k: nat)
    requires b > 0 && j <= k
    ensures Pow(b, j) <= Pow(b, k)
  {
    if j < k {
      PowGrows(b, j, k - 1);
      Multiples(1, b, Pow(b, k - 1));
    }
  }

  lemma PowersOfTen()
    ensures Pow(10, 10) >= UINT_RANGE && Pow(16, 8) >= UINT_RANGE
  {
    assert Pow(10, 5) == 100000;
    assert Pow(10, 10) == 10 * 10 * 10 * 10 * 10 * Pow(10, 5);
    assert Pow(16, 4) == 65536;
    assert Pow(16, 8) == 16 * 16 * 16 * 16 * Pow(16, 4);
  }

  /** A 32-bit number has at most ten digits. */
  lemma {:induction false} AtMostTen(base: nat, k: nat, num: nat)
    requires base in {10, 16} && num < UINT_RANGE && Pow(base, k) <= num
    ensures k <= 9
  {
    hide Pow;
    PowersOfTen();
    if k > 9 { PowGrows(base, if base == 10 then 10 else 8, k); }
  }

  /** The largest power of the base that does not exceed the number. */
  method TopPower(num: nat, base: nat) returns (d: nat, ghost k: nat)
    requires num < UINT_RANGE && base in {10, 16}
    ensures d == Pow(base, k) && num < Pow(base, k + 1) && (k > 0 ==> d <= num) && k <= 9
  {
    d, k := 1, 0;
    while num / d >= base
      invariant d > 0 && d == Pow(base, k) && (k > 0 ==> d <= num)
      decreases num - d
    {
      Room(num, d, base);
      d, k := d * base, k + 1;
    }
    Falls(num, d, base);
    if k > 0 { AtMostTen(base, k, num); }
  }

  lemma Room(num: nat, d: nat, base: nat)
    requires d > 0 && base > 1 && num / d >= base
    ensures d < d * base <= num
  {}

  lemma Falls(num: nat, d: nat, base: nat)
    requires d > 0 && num / d < base
    ensures num < base * d
  {
    assert num == num / d * d + num % d;
    Multiples(num / d + 1, base, d);
  }

  lemma DivisionBound(num: nat, d: nat, base: nat)
    requires d > 0 && num < base * d
    ensures num / d < base && num == num / d * d + num % d
  {
    if num / d >= base { Multiples(base, num / d, d); }
  }

  /** One digit off the front. */
  lemma FrontDigit(num: nat, base: nat, k: nat, d: nat)
    requires base > 0 && num < Pow(base, k + 1) && d == Pow(base, k)
    ensures 0 < d && num / d < base && num % d < d && num == num / d * d + num % d
    ensures num >= d ==> num / d > 0
  {
    PowPositive(base, k);
    DivisionBound(num, d, base);
  }

  lemma Shifted(v: int, q: int, d: int, base: int, r: int, num0: int)
    requires v * (base * d) + (q * d + r) == num0
    ensures (v * base + q) * d + r == num0
  {}

  lemma NextPower(base: nat, k: nat, d: nat)
    requires base > 0 && k > 0 && d == Pow(base, k)
    ensures d / base == Pow(base, k - 1)
  {
    QuotientIs(d, Pow(base, k - 1), 0, base);
  }

  /** Some digits are written; `k` more are to come from what is left of the number. */
  ghost predicate Emitting(text: seq<char>, k: nat, num: nat, num0: nat, top: nat, base: nat, uc: bool) {
    k <= top + 1 && |text| == top + 1 - k && top <= 9 &&
    (top > 0 ==> Pow(base, top) <= num0) && (text == [] ==> num == num0) &&
    num < Pow(base, k) && NumberOf(text, base) * Pow(base, k) + num == num0 &&
    (text == [] || Canonical(text, base, uc)) &&
    (text != [] && top > 0 ==> text[0] != '0')
  }

  lemma EmitStart(num: nat, top: nat, base: nat, uc: bool)
    requires num < Pow(base, top + 1) && (top > 0 ==> Pow(base, top) <= num) && top <= 9
    ensures Emitting([], top + 1, num, num, top, base, uc)
  {}

  lemma {:induction false} EmitStep(text: seq<char>, k: nat, num: nat, num0: nat, top: nat, base: nat, uc: bool, q: nat, r: nat, d: nat)
    requires base in {10, 16} && k > 0 && Emitting(text, k, num, num0, top, base, uc)
    requires d == Pow(base, k - 1) && num == q * d + r && r < d && q < base && (num >= d ==> q > 0)
    ensures text != [] || q > 0 || k == 1
    ensures Emitting(text + [DigitChar(q, uc)], k - 1, r, num0, top, base, uc)
  {
    hide DigitChar, DigitOf, NumberOf, Pow, IsDigit, Canonical;
    var c := DigitChar(q, uc);
    DigitIs(q, base, uc);
    Appended(text, c, base);
    PowStep(base, k);
    Shifted(NumberOf(text, base), q, d, base, r, num0);
    if text == [] {
      assert [] + [c] == [c];
      OneIsCanonical(c, base, uc);
    } else if top > 0 {
      CanonicalGrows(text, c, base, uc);
    }
  }

  lemma {:induction false} EmitEnd(text: seq<char>, num: nat, num0: nat, top: nat, base: nat, uc: bool)
    requires base in {10, 16} && Emitting(text, 0, num, num0, top, base, uc)
    ensures text == Digits(num0, base, uc)
  {
    hide Pow, NumberOf, Canonical, Digits;
    PowZero(base);
    assert NumberOf(text, base) * 1 == NumberOf(text, base);
    CanonicalIsDigits(text, base, uc);
  }

  /** The divisor that goes with `k` digits to come. */
  ghost function Divisor(base: nat, k: nat): nat { if k == 0 then 0 else Pow(base, k - 1) }

  lemma {:induction false} DivisorIs(base: nat, top: nat)
    ensures Divisor(base, top + 1) == Pow(base, top)
  {}

  lemma DivisorZero(base: nat, k: nat)
    requires base > 0
    ensures Divisor(base, k) == 0 <==> k == 0
  {
    if k > 0 { PowPositive(base, k - 1); }
  }

  lemma NextDivisor(base: nat, k: nat, d: nat)
    requires base > 1 && k > 0 && d == Divisor(base, k)
    ensures d / base == Divisor(base, k - 1) && (Divisor(base, k - 1) == 0 <==> k == 1)
  {
    if k == 1 { PowZero(base); } else { NextPower(base, k - 1, d); PowPositive(base, k - 2); }
  }

  /** The divisions of one round. */
  method TakeDigit(num: nat, d: nat, base: nat, uc: bool, ghost text: seq<char>, ghost k: nat, ghost num0: nat, ghost top: nat)
    returns (dgt: nat, num': nat, d': nat)
    requires base in {10, 16} && k > 0 && d == Divisor(base, k) && Emitting(text, k, num, num0, top, base, uc)
    ensures dgt < base && (text != [] || dgt > 0 || d' == 0) && d' == Divisor(base, k - 1)
    ensures Emitting(text + [DigitChar(dgt, uc)], k - 1, num', num0, top, base, uc)
  {
    DivisorIs(base, k - 1);
    PrefixBound(text, k, num, num0, top, base, uc);
    hide Emitting, DigitChar, Pow, Divisor;
    dgt, num' := DivideBy(num, base, k - 1, d);
    EmitStep(text, k, num, num0, top, base, uc, dgt, num', d);
    NextDivisor(base, k, d);
    d' := d / base;
  }

  method DivideBy(num: nat, base: nat, ghost k: nat, d: nat) returns (q: nat, r: nat)
    requires base > 0 && num < Pow(base, k + 1) && d == Pow(base, k)
    ensures num == q * d + r && r < d && q < base && (num >= d ==> q > 0)
  {
    FrontDigit(num, base, k, d);
    q, r := num / d, num % d;
  }

  lemma {:induction false} PrefixBound(text: seq<char>, k: nat, num: nat, num0: nat, top: nat, base: nat, uc: bool)
    requires Emitting(text, k, num, num0, top, base, uc)
    ensures num < Pow(base, k)
  {}

  method PutDigit(bf: array<char>, at: nat, end: nat, c: char, ghost text: seq<char>)
    requires at <= end < bf.Length && bf[at..end] == text
    modifies bf
    ensures bf[at..end + 1] == text + [c] && forall i :: 0 <= i < at ==> bf[i] == old(bf[i])
  {
    bf[end] := c;
    assert bf[at..end + 1] == bf[at..end] + [c];
  }

  /** `ui2a` into a 12-byte buffer, from its start or behind a sign: the digits, then the terminator. */
  method Ui2a(num0: nat, base: nat, uc: bool, bf: array<char>, at: nat) returns (end: nat)
    requires num0 < UINT_RANGE && base in {10, 16} && at <= 1 && bf.Length == 12
    modifies bf
    ensures at < end < bf.Length && (forall i :: 0 <= i < at ==> bf[i] == old(bf[i]))
    ensures bf[at..end] == Digits(num0, base, uc) && bf[end] == NUL
  {
    hide DigitChar, DigitOf, NumberOf, Pow, Digits, Emitting, Divisor;
    var num: nat := num0;
    var d, top := TopPower(num, base);
    ghost var k := top + 1;
    ghost var text: seq<char> := [];
    EmitStart(num, top, base, uc);
    assert d == Divisor(base, k) by { DivisorIs(base, top); }
    end := at;
    while d != 0
      invariant k <= top + 1 && end == at + (top + 1 - k) && |text| == top + 1 - k && d == Divisor(base, k)
      invariant Emitting(text, k, num, num0, top, base, uc)
      invariant (forall i :: 0 <= i < at ==> bf[i] == old(bf[i])) && bf[at..end] == text
      decreases k
    {
      DivisorZero(base, k);
      var dgt: nat;
      dgt, num, d := TakeDigit(num, d, base, uc, text, k, num0, top);
      k := k - 1;
      if end > at || dgt > 0 || d == 0 {
        PutDigit(bf, at, end, DigitChar(dgt, uc), text);
        text := text + [DigitChar(dgt, uc)];
        end := end + 1;
      }
    }
    DivisorZero(base, k);
    PutDigit(bf, at, end, NUL, text);
    assert bf[end] == bf[at..end + 1][end - at] && bf[at..end] == bf[at..end + 1][..end - at];
    EmitEnd(text, num, num0, top, base, uc);
  }

  lemma {:induction false} PowZero(base: nat)
    requires base > 1
    ensures Pow(base, 0) == 1 && 1 / base == 0
  {}

  lemma PowStep(base: nat, k: nat)
    requires k > 0
    ensures Pow(base, k) == base * Pow(base, k - 1)
  {}

  // ----- i2a -----

  /** Decimal text of a signed number. */
  function IntText(n: int): seq<char> {
    if n < 0 then ['-'] + Digits(-n, 10, false) else Digits(n, 10, false)
  }

  /** `i2a`; the smallest int has no negation. */
  method I2a(num: int, bf: array<char>) returns (end: nat)
    requires -(INT_RANGE as int) < num < INT_RANGE && bf.Length == 12
    modifies bf
    ensures end < bf.Length && bf[..end] == IntText(num) && bf[end] == NUL
  {
    hide Digits;
    if num < 0 {
      bf[0] := '-';
      end := Ui2a(-num, 10, false, bf, 1);
      assert bf[..end] == [bf[0]] + bf[1..end];
    } else {
      end := Ui2a(num, 10, false, bf, 0);
      assert bf[..end] == bf[0..end];
    }
  }

  // ----- a2i -----

  /** The byte at a position of a C string. */
  function At(f: seq<char>, p: nat): char { if p < |f| then f[p] else NUL }

  /** `a2i` takes a digit up to and including the base. */
  predicate Taken(c: char, base: nat) { 0 <= DigitOf(c) <= base }

  /** Where reading stops. */
  function ScanEnd(f: seq<char>, p: nat, base: nat): (e: nat)
    ensures p <= |f| ==> p <= e <= |f|
    decreases |f| - p
  {
    if p < |f| && Taken(f[p], base) then ScanEnd(f, p + 1, base) else p
  }

  /** What a 32-bit `int` holds of a number: its value modulo 2^32, between INT_MIN and INT_MAX.  The C
      language leaves the overflow open; two's complement arithmetic wraps. */
  function Int(x: int): (r: int)
    ensures -(INT_RANGE as int) <= r < INT_RANGE
  {
    (x + INT_RANGE) % UINT_RANGE - INT_RANGE
  }

  lemma IntKeepsExactly(x: int)
    ensures Int(x) == x <==> -(INT_RANGE as int) <= x < INT_RANGE
  {}

  /** Wrapping at every digit is wrapping once. */
  lemma IntStep(x: int, base: nat, d: int)
    ensures Int(Int(x) * base + d) == Int(x * base + d)
  {
    var k := (x + INT_RANGE) / UINT_RANGE;
    assert Int(x) == x - k * UINT_RANGE;
    assert (x - k * UINT_RANGE) * base == x * base - (k * base) * UINT_RANGE;
    IntShift(x * base + d, k * base);
  }

  lemma IntShift(x: int, k: int)
    ensures Int(x - k * UINT_RANGE) == Int(x)
  {
    ModShift(x + INT_RANGE, k);
  }

  lemma ModShift(x: int, k: int)
    ensures (x - k * UINT_RANGE) % UINT_RANGE == x % UINT_RANGE
  {}

  /** What `a2i` reads from a position on. */
  function ReadInt(f: seq<char>, start: nat, base: nat): int
    requires start <= |f|
  {
    Int(NumberOf(f[start..ScanEnd(f, start, base)], base))
  }

  /** `a2i` for the byte `ch` at position `start`, with the next position as its source pointer. */
  method A2i(ch0: char, f: seq<char>, start: nat, base: nat) returns (ch: char, p: nat, num: int)
    requires start <= |f| && ch0 == At(f, start)
    ensures p == ScanEnd(f, start, base) + 1 && ch == At(f, p - 1) && num == ReadInt(f, start, base)
  {
    hide NumberOf, DigitOf, Int;
    NoDigits(base);
    StopsAtEnd(base);
    ch, p, num := ch0, start + 1, 0;
    assert f[start..p - 1] == [];
    IntOfZero();
    while DigitOf(ch) >= 0
      invariant start < p <= |f| + 1 && ch == At(f, p - 1)
      invariant ScanEnd(f, start, base) == ScanEnd(f, p - 1, base)
      invariant num == Int(NumberOf(f[start..p - 1], base))
      decreases |f| + 1 - p
    {
      if DigitOf(ch) > base { break; }
      Appended(f[start..p - 1], ch, base);
      assert f[start..p] == f[start..p - 1] + [ch];
      IntStep(NumberOf(f[start..p - 1], base), base, DigitOf(ch));
      num := Int(num * base + DigitOf(ch));
      ch, p := At(f, p), p + 1;
    }
  }

  lemma IntOfZero()
    ensures Int(0) == 0
  {}

  lemma StopsAtEnd(base: nat)
    ensures DigitOf(NUL) < 0 && !Taken(NUL, base)
  {}

  lemma {:induction false} ScanOver(f: seq<char>, p: nat, q: nat, base: nat)
    requires p <= q <= |f| && forall i :: p <= i < q ==> Taken(f[i], base)
    ensures ScanEnd(f, p, base) == ScanEnd(f, q, base)
    decreases q - p
  {
    if p < q { ScanOver(f, p + 1, q, base); }
  }

  /** In base 10 the digit ten is taken too. */
  lemma TakenIs(c: char)
    ensures Taken(c, 10) <==> ('0' <= c <= '9') || c in {'a', 'A'}
  {}

  /** A printed decimal number is read back, and no more than it, if and only if it is at most INT_MAX and
      the text goes on with none of 0-9, a and A. */
  lemma {:induction false} ReadsBackExactly(n: nat, tail: seq<char>)
    ensures var text := Digits(n, 10, false);
            ScanEnd(text + tail, 0, 10) == |text| && ReadInt(text + tail, 0, 10) == n <==>
            n < 2147483648 && (tail == [] || !(('0' <= tail[0] <= '9') || tail[0] in {'a', 'A'}))
  {
    hide DigitOf, DigitChar, NumberOf, Digits, Int;
    if tail != [] { TakenIs(tail[0]); }
    var text := Digits(n, 10, false);
    var f := text + tail;
    ScansDigits(n, tail);
    DigitsAreCanonical(n, 10, false);
    assert f[0..|text|] == text;
    IntKeepsExactly(n);
  }

  /** Reading runs over printed digits, and stops behind them unless another digit follows. */
  lemma {:induction false} ScansDigits(n: nat, tail: seq<char>)
    ensures var text := Digits(n, 10, false);
            |text| <= ScanEnd(text + tail, 0, 10) &&
            (ScanEnd(text + tail, 0, 10) == |text| <==> tail == [] || !Taken(tail[0], 10))
  {
    hide DigitOf, DigitChar, NumberOf, Digits;
    var text := Digits(n, 10, false);
    var f := text + tail;
    DigitsAreCanonical(n, 10, false);
    forall i | 0 <= i < |text| ensures Taken(f[i], 10) {
      assert IsDigit(text[i], 10, false);
    }
    ScanOver(f, 0, |text|, 10);
  }

  /** The first number that is printed but not read back. */
  lemma TooBigToRead()
    ensures ReadInt(Digits(2147483648, 10, false), 0, 10) == -2147483648
  {
    hide Digits, NumberOf, ScanEnd;
    var text := Digits(INT_RANGE, 10, false);
    DigitsAreCanonical(INT_RANGE, 10, false);
    ScansDigits(INT_RANGE, []);
    assert text + [] == text && text[0..|text|] == text;
  }

}
