/** Padded fields and the format walk of printf.c. */
module PrintFormat {
  import opened PrintDigits

  // ----- putchw -----

  function Fill(z: bool, n: nat): seq<char> {
    var fc := if z then '0' else ' ';
    seq(n, _ => fc)
  }

  /** A text in a field of the given width; a negative width pads nothing. */
  function Field(n: int, z: bool, s: seq<char>): seq<char> {
    (if n > |s| then Fill(z, n - |s|) else []) + s
  }

  lemma EndsAtLength(s: seq<char>)
    requires NUL !in s
    ensures forall p: nat :: At(s, p) == NUL <==> p >= |s|
  {}

  // ----- tfp_format -----

  /** What the variable arguments hold: a 32-bit word, a string, or the place for a count. */
  datatype Arg = Word(u: nat) | Text(s: seq<char>) | Place

  function Signed(u: nat): int { if u < INT_RANGE then u else u - UINT_RANGE }

  /** What follows a percent sign, up to its conversion letter. */
  datatype Directive = Directive(zero: bool, width: int, conv: char, next: nat)

  function ParseDirective(f: seq<char>, p: nat): (d: Directive)
    requires p <= |f|
    ensures p < d.next && (d.conv != NUL ==> d.next <= |f|)
  {
    var zero := At(f, p) == '0';
    var q := if zero then p + 1 else p;
    var c := At(f, q);
    if '0' <= c <= '9' then
      var e := ScanEnd(f, q, 10);
      Directive(zero, ReadInt(f, q, 10), At(f, e), e + 1)
    else Directive(zero, 0, c, q + 1)
  }

  predicate TakesArg(conv: char) { conv in {'u', 'd', 'x', 'X', 'c', 's', 'n'} }

  /** An argument of the kind that the conversion reads. */
  predicate Fits(conv: char, a: Arg) {
    if conv == 's' then a.Text? && NUL !in a.s
    else if conv == 'n' then a.Place?
    else a.Word? && a.u < UINT_RANGE && (conv == 'd' ==> a.u != INT_RANGE)
  }

  /** The text of a conversion. */
  function Converted(d: Directive, a: Arg): seq<char>
    requires TakesArg(d.conv) && Fits(d.conv, a)
  {
    if d.conv == 'u' then Field(d.width, d.zero, Digits(a.u, 10, false))
    else if d.conv == 'd' then Field(d.width, d.zero, IntText(Signed(a.u)))
    else if d.conv == 'x' || d.conv == 'X' then Field(d.width, d.zero, Digits(a.u, 16, d.conv == 'X'))
    else if d.conv == 'c' then [(a.u % 256) as char]
    else if d.conv == 's' then Field(d.width, false, a.s)
    else []
  }

  /** Printed text, stored counts, and whether the arguments fitted the format so far. */
  datatype Printed = Printed(text: seq<char>, counts: seq<nat>, ok: bool)

  /** What the rest of a format prints behind what is printed already. */
  function Walk(f: seq<char>, p: nat, args: seq<Arg>, t: Printed): Printed
    decreases |f| - p
  {
    if p >= |f| then t
    else if f[p] != '%' then Walk(f, p + 1, args, t.(text := t.text + [f[p]]))
    else
      var d := ParseDirective(f, p + 1);
      if d.conv == NUL then t
      else if d.conv == '%' then Walk(f, d.next, args, t.(text := t.text + ['%']))
      else if !TakesArg(d.conv) then Walk(f, d.next, args, t)
      else if args == [] || !Fits(d.conv, args[0]) then t.(ok := false)
      else Walk(f, d.next, args[1..], Taking(t, d, args[0]))
  }

  function Taking(t: Printed, d: Directive, a: Arg): Printed
    requires TakesArg(d.conv) && Fits(d.conv, a)
  {
    t.(text := t.text + Converted(d, a), counts := if d.conv == 'n' then t.counts + [|t.text|] else t.counts)
  }

  const NOTHING: Printed := Printed([], [], true)

  lemma {:induction false} WalkEnd(f: seq<char>, p: nat, args: seq<Arg>, t: Printed)
    requires p >= |f|
    ensures Walk(f, p, args, t) == t
  {}

  lemma WalkPlain(f: seq<char>, p: nat, args: seq<Arg>, t: Printed)
    requires p < |f| && f[p] != '%'
    ensures Walk(f, p, args, t) == Walk(f, p + 1, args, t.(text := t.text + [f[p]]))
  {}

  lemma WalkDirective(f: seq<char>, p: nat, args: seq<Arg>, t: Printed)
    requires p < |f| && f[p] == '%' && Walk(f, p, args, t).ok
    ensures var d := ParseDirective(f, p + 1);
            if d.conv == NUL then Walk(f, p, args, t) == t
            else if d.conv == '%' then Walk(f, p, args, t) == Walk(f, d.next, args, t.(text := t.text + ['%']))
            else if !TakesArg(d.conv) then Walk(f, p, args, t) == Walk(f, d.next, args, t)
            else args != [] && Fits(d.conv, args[0]) && Walk(f, p, args, t) == Walk(f, d.next, args[1..], Taking(t, d, args[0]))
  {}

  /** Printing only ever adds: what is on the line stays, and so do the counts stored already. */
  lemma {:induction false} WalkExtends(f: seq<char>, p: nat, args: seq<Arg>, t: Printed)
    ensures t.text <= Walk(f, p, args, t).text && t.counts <= Walk(f, p, args, t).counts
    decreases |f| - p
  {
    hide ParseDirective, Converted, Fits;
    if p < |f| {
      if f[p] != '%' {
        WalkExtends(f, p + 1, args, t.(text := t.text + [f[p]]));
      } else {
        var d := ParseDirective(f, p + 1);
        if d.conv == '%' {
          WalkExtends(f, d.next, args, t.(text := t.text + ['%']));
        } else if d.conv != NUL && !TakesArg(d.conv) {
          WalkExtends(f, d.next, args, t);
        } else if d.conv != NUL && args != [] && Fits(d.conv, args[0]) {
          WalkExtends(f, d.next, args[1..], Taking(t, d, args[0]));
        }
      }
    }
  }

  /** What `%u` prints of a 32-bit number, `a2i` reads back if and only if it is at most INT_MAX. */
  lemma PrintThenRead(n: nat)
    requires n < UINT_RANGE
    ensures var t := Walk("%u", 0, [Word(n)], NOTHING);
            t.ok && (ScanEnd(t.text, 0, 10) == |t.text| && ReadInt(t.text, 0, 10) == n <==> n <= 2147483647)
  {
    hide Digits, ReadInt, ScanEnd;
    PrintsDigits(n);
    ReadsBackExactly(n, []);
    assert Digits(n, 10, false) + [] == Digits(n, 10, false);
  }

  lemma {:induction false} PrintsDigits(n: nat)
    requires n < UINT_RANGE
    ensures Walk("%u", 0, [Word(n)], NOTHING) == Printed(Digits(n, 10, false), [], true)
  {
    hide Digits, ScanEnd, ReadInt;
    var f, a := "%u", Word(n);
    var d := ParseDirective(f, 1);
    assert d == Directive(false, 0, 'u', 2);
    var t := Taking(NOTHING, d, a);
    assert Converted(d, a) == Digits(n, 10, false);
    WalkEnd(f, 2, [], t);
    assert [a][1..] == [];
  }

  lemma {:induction false} NoTerminator(n: nat, base: nat, uc: bool)
    requires 2 <= base <= 16
    ensures NUL !in Digits(n, base, uc)
  {
    hide Digits, NumberOf;
    DigitsAreCanonical(n, base, uc);
    var s := Digits(n, base, uc);
    forall i | 0 <= i < |s| ensures s[i] != NUL {
      assert IsDigit(s[i], base, uc);
    }
  }

  lemma NoTerminatorInt(n: int)
    ensures NUL !in IntText(n)
  {
    hide Digits;
    NoTerminator(if n < 0 then -n else n, 10, false);
  }

  lemma ParsedIsAhead(f: seq<char>, p: nat)
    requires p <= |f|
    ensures p < ParseDirective(f, p).next && (ParseDirective(f, p).conv != NUL ==> ParseDirective(f, p).next <= |f|)
  {}

  lemma TakingAdds(t: Printed, d: Directive, a: Arg)
    requires TakesArg(d.conv) && Fits(d.conv, a)
    ensures Taking(t, d, a).text == t.text + Converted(d, a)
    ensures Taking(t, d, a).counts == if d.conv == 'n' then t.counts + [|t.text|] else t.counts
  {}

  /** The format's directive syntax, as the walk reads it off the string. */
  method ReadDirective(f: seq<char>, p: nat) returns (d: Directive)
    requires p <= |f|
    ensures d == ParseDirective(f, p)
  {
    hide ReadInt;
    var zero, w, q := false, 0, p;
    var ch := At(f, q);
    q := q + 1;
    if ch == '0' {
      ch := At(f, q);
      q := q + 1;
      zero := true;
    }
    if '0' <= ch <= '9' {
      ch, q, w := A2i(ch, f, q - 1, 10);
    }
    d := Directive(zero, w, ch, q);
  }

  class Printer {
    var out: seq<char>
    var counts: seq<nat>

    constructor ()
      ensures out == [] && counts == []
    {
      out, counts := [], [];
    }

    method Putf(c: char)
      modifies this`out
      ensures out == old(out) + [c]
    {
      out := out + [c];
    }

    /** `putchw` prints a field and tells how many characters it printed. */
    method Putchw(n0: int, z: bool, s: seq<char>) returns (written: nat)
      requires NUL !in s
      modifies this`out
      ensures out == old(out) + Field(n0, z, s)
      ensures written == |Field(n0, z, s)| == if n0 > |s| then n0 else |s|
    {
      EndsAtLength(s);
      var fc := if z then '0' else ' ';
      var n, p: nat := n0, 0;
      while At(s, p) != NUL && n > 0
        invariant p <= |s| && n == n0 - p && (p > 0 ==> n >= 0)
        decreases |s| - p
      {
        p, n := p + 1, n - 1;
      }
      var padding := PutPadding(n, fc);
      assert if n0 > |s| then padding == n0 - |s| else padding == 0;
      var characters := PutString(s);
      written := padding + characters;
    }

    /** The loop over the missing width. */
    method PutPadding(n0: int, fc: char) returns (written: nat)
      modifies this`out
      ensures written == (if n0 > 0 then n0 else 0) && out == old(out) + seq(written, _ => fc)
    {
      written := 0;
      var n := n0;
      assert out == old(out) + seq(0, _ => fc);
      while n > 0
        invariant n0 > 0 ==> n >= 0 && written == n0 - n
        invariant n0 <= 0 ==> n == n0 && written == 0
        invariant out == old(out) + seq(written, _ => fc)
      {
        n := n - 1;
        Putf(fc);
        written := written + 1;
        assert seq(written, _ => fc) == seq(written - 1, _ => fc) + [fc];
      }
    }

    /** The loop over the text. */
    method PutString(s: seq<char>) returns (written: nat)
      requires NUL !in s
      modifies this`out
      ensures written == |s| && out == old(out) + s
    {
      EndsAtLength(s);
      written := 0;
      while At(s, written) != NUL
        invariant written <= |s| && out == old(out) + s[..written]
        decreases |s| - written
      {
        Putf(At(s, written));
        written := written + 1;
        assert s[..written] == s[..written - 1] + [s[written - 1]];
      }
      assert s[..written] == s;
    }

    /** One conversion of `tfp_format`; numbers go through the 12-byte buffer. */
    method PrintArg(d: Directive, a: Arg, bf: array<char>, soFar: nat) returns (written: nat)
      requires TakesArg(d.conv) && Fits(d.conv, a) && bf.Length == 12
      modifies this, bf
      ensures out == old(out) + Converted(d, a) && written == |Converted(d, a)|
      ensures counts == if d.conv == 'n' then old(counts) + [soFar] else old(counts)
    {
      hide Field, Digits;
      written := 0;
      match d.conv
      case 'u' => written := PrintNumber(d, a.u, 10, false, bf);
      case 'd' =>
        var end := I2a(Signed(a.u), bf);
        NoTerminatorInt(Signed(a.u));
        written := Putchw(d.width, d.zero, bf[..end]);
      case 'x' => written := PrintNumber(d, a.u, 16, false, bf);
      case 'X' => written := PrintNumber(d, a.u, 16, true, bf);
      case 'c' =>
        Putf((a.u % 256) as char);
        written := 1;
      case 's' => written := Putchw(d.width, false, a.s);
      case _ => counts := counts + [soFar];
    }

    method PrintNumber(d: Directive, u: nat, base: nat, uc: bool, bf: array<char>) returns (written: nat)
      requires u < UINT_RANGE && base in {10, 16} && bf.Length == 12
      modifies this`out, bf
      ensures out == old(out) + Field(d.width, d.zero, Digits(u, base, uc))
      ensures written == |Field(d.width, d.zero, Digits(u, base, uc))|
    {
      hide Field, Digits;
      var end := Ui2a(u, base, uc, bf, 0);
      NoTerminator(u, base, uc);
      assert bf[0..end] == bf[..end];
      written := Putchw(d.width, d.zero, bf[..end]);
    }

    /** What follows a percent sign: nothing at the end of the format, a percent sign, or a conversion. */
    method PrintDirective(fmt: seq<char>, p: nat, args: seq<Arg>, bf: array<char>, soFar: nat, ghost t: Printed)
      returns (done: bool, p': nat, args': seq<Arg>, written: nat, ghost t': Printed)
      requires 1 <= p <= |fmt| && fmt[p - 1] == '%' && Walk(fmt, p - 1, args, t).ok && bf.Length == 12 && soFar == |t.text|
      modifies this, bf
      ensures Walk(fmt, p - 1, args, t) == if done then t' else Walk(fmt, p', args', t')
      ensures p < p' && (done || p' <= |fmt|) && |t'.text| == soFar + written
      ensures t.text <= t'.text && t.counts <= t'.counts
      ensures out == old(out) + t'.text[|t.text|..] && counts == old(counts) + t'.counts[|t.counts|..]
    {
      hide Walk, ParseDirective, Fits, TakesArg, Taking, Converted;
      WalkDirective(fmt, p - 1, args, t);
      var d := ReadDirective(fmt, p);
      ParsedIsAhead(fmt, p);
      done, p', args', written, t' := d.conv == NUL, d.next, args, 0, t;
      if d.conv == '%' {
        Putf('%');
        written, t' := 1, t.(text := t.text + ['%']);
      } else if !done && TakesArg(d.conv) {
        t' := Taking(t, d, args[0]);
        TakingAdds(t, d, args[0]);
        written := PrintArg(d, args[0], bf, soFar);
        args' := args[1..];
      }
    }

    /** `tfp_format`: prints what the walk says and returns the number of characters it printed; every
        index into the format and the buffer is in bounds, and `%n` stores the count so far. */
    method TfpFormat(fmt: seq<char>, args0: seq<Arg>) returns (written: nat)
      requires NUL !in fmt && Walk(fmt, 0, args0, NOTHING).ok
      modifies this
      ensures out == old(out) + Walk(fmt, 0, args0, NOTHING).text
      ensures counts == old(counts) + Walk(fmt, 0, args0, NOTHING).counts
      ensures written == |out| - |old(out)|
    {
      hide Walk;
      var bf := new char[12];
      EndsAtLength(fmt);
      written := 0;
      var p, args := 0, args0;
      ghost var t := NOTHING;
      while At(fmt, p) != NUL
        invariant p <= |fmt| && out == old(out) + t.text && counts == old(counts) + t.counts && written == |t.text|
        invariant Walk(fmt, p, args, t) == Walk(fmt, 0, args0, NOTHING)
        decreases |fmt| - p
      {
        var ch := At(fmt, p);
        p := p + 1;
        if ch != '%' {
          WalkPlain(fmt, p - 1, args, t);
          Putf(ch);
          written := written + 1;
          t := t.(text := t.text + [ch]);
          continue;
        }
        var done, w;
        ghost var next;
        done, p, args, w, next := PrintDirective(fmt, p, args, bf, written, t);
        written := written + w;
        t := next;
        if done { return; }
      }
      WalkEnd(fmt, p, args, t);
    }
  }
}
