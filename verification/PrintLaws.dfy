/** What printf.c prints, letter by letter. */
module PrintLaws {
  import opened Arithmetic
  import opened PrintDigits
  import opened PrintFormat

  // ----- Digits -----

  /** The sixteen digits in both cases, and nothing else is a digit. */
  lemma DigitLetters(d: nat, c: char)
    requires d < 16
    ensures DigitChar(d, false) == "0123456789abcdef"[d] && DigitChar(d, true) == "0123456789ABCDEF"[d]
    ensures DigitOf(c) == d <==> c == "0123456789abcdef"[d] || c == "0123456789ABCDEF"[d]
    ensures DigitOf(c) == -1 <==> c !in "0123456789abcdefABCDEF"
  {
    DigitsListed(c);
    DigitAt(d, false);
    DigitAt(d, true);
  }

  lemma DigitAt(d: nat, uc: bool)
    requires d < 16
    ensures DigitChar(d, uc) == (if uc then "0123456789ABCDEF" else "0123456789abcdef")[d]
    ensures DigitOf(DigitChar(d, uc)) == d
  {}

  lemma DigitsListed(c: char)
    ensures DigitOf(c) == -1 <==> c !in "0123456789abcdefABCDEF"
    ensures forall d: nat :: d < 16 ==> (DigitOf(c) == d <==> c == "0123456789abcdef"[d] || c == "0123456789ABCDEF"[d])
  {
    if DigitOf(c) >= 0 {
      var d := DigitOf(c);
      DigitAt(d, false);
      DigitAt(d, true);
      assert c == DigitChar(d, false) || c == DigitChar(d, true);
      assert c in "0123456789abcdefABCDEF";
    }
    forall d: nat | d < 16
      ensures DigitOf(c) == d <==> c == "0123456789abcdef"[d] || c == "0123456789ABCDEF"[d]
    {
      DigitAt(d, false);
      DigitAt(d, true);
    }
    if c in "0123456789abcdefABCDEF" { LettersAreDigits(c); }
  }

  lemma LettersAreDigits(c: char)
    requires c in "0123456789abcdefABCDEF"
    ensures DigitOf(c) >= 0
  {}

  /** A digit more is ten (or sixteen) times as much and the digit. */
  lemma {:induction false} PlaceValue(s: seq<char>, c: char, base: nat)
    ensures NumberOf(s + [c], base) == base * NumberOf(s, base) + DigitOf(c) && NumberOf([], base) == 0
  {
    Appended(s, c, base);
  }

  /** A 32-bit int holds a number less a multiple of 2^32. */
  lemma IntWraps(x: int) returns (k: int)
    ensures Int(x) == x - 4294967296 * k && -2147483648 <= Int(x) <= 2147483647
  {
    k := (x + 2147483648) / 4294967296;
  }

  /** A negative number is a minus sign and the digits of its size. */
  lemma SignedText(n: int)
    ensures IntText(n) == if n >= 0 then Digits(n, 10, false) else "-" + Digits(-n, 10, false)
    ensures Signed(0) == 0 && Signed(2147483647) == 2147483647 && Signed(2147483648) == -2147483648 && Signed(4294967295) == -1
  {}

  // ----- Fields -----

  /** A field is the text behind enough zeros or blanks for the width. */
  lemma FieldIs(n: int, z: bool, s: seq<char>)
    ensures var f := Field(n, z, s);
            |f| == (if n > |s| then n else |s|) && f[|f| - |s|..] == s &&
            forall i :: 0 <= i < |f| - |s| ==> f[i] == if z then '0' else ' '
  {}

  // ----- Formats -----

  /** What `a2i` reads behind a prefix. */
  lemma {:induction false} ScanShifts(pre: seq<char>, s: seq<char>, p: nat, base: nat)
    requires p <= |s|
    ensures ScanEnd(pre + s, |pre| + p, base) == |pre| + ScanEnd(s, p, base)
    decreases |s| - p
  {
    if p < |s| {
      assert (pre + s)[|pre| + p] == s[p];
      if Taken(s[p], base) { ScanShifts(pre, s, p + 1, base); }
    }
  }

  lemma ReadShifts(pre: seq<char>, s: seq<char>, base: nat)
    ensures ReadInt(pre + s, |pre|, base) == ReadInt(s, 0, base)
  {
    ScanShifts(pre, s, 0, base);
    var e := ScanEnd(s, 0, base);
    assert (pre + s)[|pre|..|pre| + e] == s[0..e];
  }

  /** The letters between a percent sign and its conversion: a zero for zeros, and the width, if any. */
  function Spec(zero: bool, width: nat): seq<char> {
    (if zero then "0" else "") + (if width > 0 then Digits(width, 10, false) else "")
  }

  /** Every directive with a width up to INT_MAX and a conversion that is no digit is read as written. */
  lemma DirectiveIsRead(zero: bool, width: nat, c: char)
    requires width < 2147483648 && c !in "0123456789aA" && c != NUL
    ensures ParseDirective("%" + Spec(zero, width) + [c], 1) ==
            Directive(zero, width, c, |Spec(zero, width)| + 2)
  {
    hide Digits, ReadInt, ScanEnd;
    var f := "%" + Spec(zero, width) + [c];
    var pre := "%" + (if zero then "0" else "");
    var w := if width > 0 then Digits(width, 10, false) else "";
    assert f == pre + (w + [c]);
    assert !('0' <= c <= '9') by { NoDecimal(c); }
    if width > 0 {
      DigitsAreCanonical(width, 10, false);
      FirstDigit(width);
      assert w[0] == f[|pre|];
      ReadsBackExactly(width, [c]);
      assert w + [c] == Digits(width, 10, false) + [c];
      ScanShifts(pre, w + [c], 0, 10);
      ReadShifts(pre, w + [c], 10);
      assert f[|pre| + |w|] == c;
    } else {
      assert w + [c] == [c] && f[|pre|] == c;
    }
  }

  lemma NoDecimal(c: char)
    requires c !in "0123456789aA"
    ensures !('0' <= c <= '9')
  {
  }

  /** The first digit of a positive number is one of 1 to 9. */
  lemma {:induction false} FirstDigit(n: nat)
    requires n > 0
    ensures Digits(n, 10, false) != [] && '1' <= Digits(n, 10, false)[0] <= '9'
  {
    hide Digits, NumberOf;
    DigitsAreCanonical(n, 10, false);
    var s := Digits(n, 10, false);
    assert IsDigit(s[0], 10, false);
    OneDigit(s[0], 10);
    assert |s| == 1 ==> s == [s[0]];
  }

  /** What one directive prints of its argument. */
  lemma OneDirective(zero: bool, width: nat, c: char, a: Arg)
    requires width < 2147483648 && c in {'u', 'd', 'x', 'X', 'c', 's'} && Fits(c, a)
    ensures Walk("%" + Spec(zero, width) + [c], 0, [a], NOTHING) == Printed(
      if c == 'u' then Field(width, zero, Digits(a.u, 10, false))
      else if c == 'd' then Field(width, zero, IntText(if a.u < 2147483648 then a.u else a.u - 4294967296))
      else if c == 'x' then Field(width, zero, Digits(a.u, 16, false))
      else if c == 'X' then Field(width, zero, Digits(a.u, 16, true))
      else if c == 's' then Field(width, false, a.s)
      else [(a.u % 256) as char], [], true)
  {
    hide Digits, ParseDirective, Spec, Field, IntText;
    var f := "%" + Spec(zero, width) + [c];
    DirectiveIsRead(zero, width, c);
    var d := ParseDirective(f, 1);
    var t := Taking(NOTHING, d, a);
    assert [a][1..] == [];
    WalkEnd(f, d.next, [], t);
    assert f[0] == '%';
    assert Walk(f, 0, [a], NOTHING) == Walk(f, d.next, [], t);
    assert [] + Converted(d, a) == Converted(d, a);
  }

  /** Arguments of the right kind: a 32-bit word, a C string, a place; INT_MIN has no digits. */
  lemma FitsIs(c: char, a: Arg)
    requires c in {'u', 'd', 'x', 'X', 'c', 's', 'n'}
    ensures TakesArg(c)
    ensures Fits(c, a) <==>
            match a
            case Word(u) => c !in {'s', 'n'} && u <= 4294967295 && !(c == 'd' && u == 2147483648)
            case Text(s) => c == 's' && '\0' !in s
            case Place => c == 'n'
  {}

  /** Letters without a percent sign print themselves. */
  lemma {:induction false} PlainText(f: seq<char>, p: nat, args: seq<Arg>, t: Printed)
    requires p <= |f| && '%' !in f
    ensures Walk(f, p, args, t) == t.(text := t.text + f[p..])
    decreases |f| - p
  {
    if p < |f| {
      assert f[p] in f;
      var u := t.(text := t.text + [f[p]]);
      WalkPlain(f, p, args, t);
      PlainText(f, p + 1, args, u);
      assert t.text + [f[p]] + f[p + 1..] == t.text + f[p..];
    } else {
      WalkEnd(f, p, args, t);
      assert t.text + f[p..] == t.text;
    }
  }

  /** Two percent signs print one. */
  lemma {:induction false} PercentPrints(t: Printed)
    ensures Walk("%%", 0, [], t) == t.(text := t.text + "%")
  {
    hide ParseDirective;
    Bare('%', "%%");
    WalkEnd("%%", 2, [], t.(text := t.text + ['%']));
  }

  /** An unknown letter prints nothing. */
  lemma {:induction false} UnknownPrintsNothing(t: Printed, f: seq<char>, c: char)
    requires f == "%" + [c] && c !in "0123456789aA" && c !in {'u', 'd', 'x', 'X', 'c', 's', 'n', '%'} && c != NUL
    ensures Walk(f, 0, [], t) == t
  {
    hide ParseDirective;
    Bare(c, f);
    assert f[0] == '%' && |f| == 2;
    WalkEnd(f, 2, [], t);
  }

  /** `%n` stores how many letters there are so far. */
  lemma {:induction false} CountIsStored(t: Printed)
    ensures Walk("%n", 0, [Place], t) == t.(counts := t.counts + [|t.text|])
  {
    hide ParseDirective;
    Bare('n', "%n");
    var d := ParseDirective("%n", 1);
    assert [Place][1..] == [];
    assert t.text + [] == t.text;
    WalkEnd("%n", 2, [], Taking(t, d, Place));
  }

  lemma Bare(c: char, f: seq<char>)
    requires c !in "0123456789aA" && c != NUL && f == "%" + [c]
    ensures ParseDirective(f, 1) == Directive(false, 0, c, 2)
  {
    DirectiveIsRead(false, 0, c);
    assert Spec(false, 0) == "";
    assert "%" + Spec(false, 0) + [c] == f;
  }
}
