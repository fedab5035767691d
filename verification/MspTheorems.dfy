/** What the MSP recogniser promises: round trips, soundness, corruption detection. */
module MspTheorems {
  import opened Bytes
  import opened MspProtocol

  predicate Accepted(kind: Byte, errors: bool) {
    kind == COMMAND || kind == REPLY || (errors && kind == FAILURE)
  }

  // ----- Round trip -----

  lemma {:induction false} FeedStep(p: Parser, s: seq<Byte>, errors: bool)
    requires WellFormed(p) && !p.Received? && s != []
    requires WellFormed(Step(p, s[0], errors)) && !Step(p, s[0], errors).Received?
    ensures Feed(p, s, errors) == Feed(Step(p, s[0], errors), s[1..], errors)
  {
    hide Step;
    StepHolds(p, s[0], errors);
    var (rest, end) := Feed(Step(p, s[0], errors), s[1..], errors);
    assert [] + rest == rest;
  }

  lemma {:induction false} PreambleFeeds(f: Frame, t: seq<Byte>, errors: bool)
    requires Accepted(f.kind, errors)
    ensures Feed(Idle, [DOLLAR, Letter(f.version), f.kind] + t, errors) == Feed(Head(f.version, f.kind, [], 0), t, errors)
  {
    var s := [DOLLAR, Letter(f.version), f.kind] + t;
    assert s[1..] == [Letter(f.version), f.kind] + t;
    assert s[1..][1..] == [f.kind] + t;
    assert s[1..][1..][1..] == t;
    FeedStep(Idle, s, errors);
    FeedStep(Start, s[1..], errors);
    FeedStep(Type(f.version), s[1..][1..], errors);
  }

  /** Feeding the rest `h` of a header, of which `done` has been read. */
  lemma {:induction false} HeadFeeds(v: Version, kind: Byte, done: seq<Byte>, h: seq<Byte>, t: seq<Byte>, errors: bool)
    requires h != [] && |done| + |h| == HeaderSize(v) && HeadLength(v, done + h) <= MSP_BUF_SIZE
    ensures WellFormed(AfterHead(v, kind, done + h, Sum(v, 0, done + h)))
    ensures Feed(Head(v, kind, done, Sum(v, 0, done)), h + t, errors)
         == Feed(AfterHead(v, kind, done + h, Sum(v, 0, done + h)), t, errors)
    decreases |h|
  {
    hide SumStep;
    var p := Head(v, kind, done, Sum(v, 0, done));
    var c := h[0];
    SumOne(v, 0, done, c);
    HeadHolds(p, c, errors);
    assert (h + t)[1..] == h[1..] + t && (h + t)[0] == c;
    assert done + [c] + h[1..] == done + h;
    if |h| == 1 {
      assert done + [c] == done + h && h[1..] + t == t;
    } else {
      HeadFeeds(v, kind, done + [c], h[1..], t, errors);
    }
    FeedStep(p, h + t, errors);
  }

  lemma {:induction false} BodyFeeds(f: Frame, done: seq<Byte>, rest: seq<Byte>, t: seq<Byte>, errors: bool)
    requires f.Fits() && rest != [] && done + rest == f.payload
    ensures var sum := Sum(f.version, 0, Header(f) + done);
            var p := Body(f.version, f.kind, f.flags, f.cmd, |f.payload|, done, sum);
            var q := Check(f.version, f.kind, f.flags, f.cmd, f.payload, Sum(f.version, 0, Header(f) + f.payload));
            WellFormed(p) && WellFormed(q) && Feed(p, rest + t, errors) == Feed(q, t, errors)
    decreases |rest|
  {
    hide SumStep;
    var p := Body(f.version, f.kind, f.flags, f.cmd, |f.payload|, done, Sum(f.version, 0, Header(f) + done));
    var c := rest[0];
    assert Header(f.(payload := seq(|f.payload|, _ => 0))) == Header(f);
    SumOne(f.version, 0, Header(f) + done, c);
    assert Header(f) + done + [c] == Header(f) + (done + [c]);
    BodyHolds(p, c, errors);
    assert (rest + t)[1..] == rest[1..] + t && (rest + t)[0] == c;
    if |rest| == 1 {
      assert done + [c] == f.payload && rest[1..] + t == t;
    } else {
      assert done + [c] + rest[1..] == f.payload;
      BodyFeeds(f, done + [c], rest[1..], t, errors);
    }
    FeedStep(p, rest + t, errors);
  }

  lemma HeaderDecodes(f: Frame)
    requires f.Fits()
    ensures var h := Header(f);
            |h| == HeaderSize(f.version) && h != [] &&
            HeadLength(f.version, h) == |f.payload| && HeadCmd(f.version, h) == f.cmd &&
            HeadFlags(f.version, h) == f.flags
  {
    hide Low, High, Word;
    WordOfHalves(|f.payload|);
    LowOfByte(|f.payload|);
    if f.version == V2 { WordOfHalves(f.cmd); } else { LowOfByte(f.cmd); }
  }

  /** All of a frame but its checksum leads to the state that expects just that checksum. */
  lemma {:induction false} FrameOpens(f: Frame, t: seq<Byte>, errors: bool)
    requires f.Fits() && Accepted(f.kind, errors)
    ensures var q := Check(f.version, f.kind, f.flags, f.cmd, f.payload, Sum(f.version, 0, Header(f) + f.payload));
            WellFormed(q) &&
            Feed(Idle, [DOLLAR, Letter(f.version), f.kind] + (Header(f) + (f.payload + t)), errors) == Feed(q, t, errors)
  {
    hide SumStep, Sum, Header, HeadLength, HeadCmd, HeadFlags, Feed;
    PreambleFeeds(f, Header(f) + (f.payload + t), errors);
    HeaderDecodes(f);
    SumOfNothing(f.version);
    assert [] + Header(f) == Header(f);
    HeadFeeds(f.version, f.kind, [], Header(f), f.payload + t, errors);
    assert Header(f) + [] == Header(f);
    if f.payload == [] {
      assert f.payload + t == t;
    } else {
      BodyFeeds(f, [], f.payload, t, errors);
    }
  }

  /** Whatever the frame's last byte is, it decides: the right checksum yields exactly the frame,
      any other yields nothing; either way the recogniser is ready for the next frame. */
  lemma {:induction false} LastByteDecides(f: Frame, c: Byte, errors: bool)
    requires f.Fits() && Accepted(f.kind, errors)
    ensures Feed(Idle, [DOLLAR, Letter(f.version), f.kind] + (Header(f) + (f.payload + [c])), errors)
         == (if c == Sum(f.version, 0, Header(f) + f.payload) then [f] else [], Idle)
  {
    hide SumStep;
    FrameOpens(f, [c], errors);
    var q := Check(f.version, f.kind, f.flags, f.cmd, f.payload, Sum(f.version, 0, Header(f) + f.payload));
    StepHolds(q, c, errors);
    var (out, r) := Take(Step(q, c, errors));
    assert [c][1..] == [];
    assert Feed(r, [c][1..], errors) == ([], r);
    assert out + [] == out;
  }

  lemma {:induction false} RoundTrip(f: Frame, errors: bool)
    requires f.Fits() && Accepted(f.kind, errors)
    ensures Feed(Idle, Encode(f), errors) == ([f], Idle)
  {
    var sum := Sum(f.version, 0, Header(f) + f.payload);
    assert Encode(f) == [DOLLAR, Letter(f.version), f.kind] + (Header(f) + (f.payload + [sum]));
    LastByteDecides(f, sum, errors);
  }

  ghost function EncodeAll(fs: seq<Frame>): seq<Byte> {
    if fs == [] then [] else Encode(fs[0]) + EncodeAll(fs[1..])
  }

  /** Any sequence of frames, sent back to back, is received as exactly that sequence. */
  lemma {:induction false} StreamRoundTrip(fs: seq<Frame>, errors: bool)
    requires forall f :: f in fs ==> f.Fits() && Accepted(f.kind, errors)
    ensures Feed(Idle, EncodeAll(fs), errors) == (fs, Idle)
  {
    if fs != [] {
      var f := fs[0];
      assert f in fs && f.Fits() && Accepted(f.kind, errors);
      assert forall g :: g in fs[1..] ==> g in fs;
      RoundTrip(f, errors);
      StreamRoundTrip(fs[1..], errors);
      FeedAppends(Idle, Encode(f), EncodeAll(fs[1..]), errors);
      assert [f] + fs[1..] == fs;
    }
  }

  // ----- Soundness -----

  /** The stream carries the encodings of these frames, complete, in order and without overlap. */
  ghost predicate Carries(stream: seq<Byte>, fs: seq<Frame>)
    decreases |fs|
  {
    fs == [] ||
    exists a, b {:trigger a + Encode(fs[0]) + b} :: stream == a + Encode(fs[0]) + b && Carries(b, fs[1..])
  }

  lemma {:induction false} CarriesLater(x: seq<Byte>, stream: seq<Byte>, fs: seq<Frame>)
    requires Carries(stream, fs)
    ensures Carries(x + stream, fs)
  {
    hide Encode;
    if fs != [] {
      var a, b :| stream == a + Encode(fs[0]) + b && Carries(b, fs[1..]);
      assert x + stream == (x + a) + Encode(fs[0]) + b;
    }
  }

  /** What a recogniser may hold or hand over. */
  ghost predicate Expected(f: Frame, errors: bool) {
    f.Fits() && Accepted(f.kind, errors)
  }

  ghost predicate KindAccepted(p: Parser, errors: bool) {
    match p
    case Head(_, kind, _, _) => Accepted(kind, errors)
    case Body(_, kind, _, _, _, _, _) => Accepted(kind, errors)
    case Check(_, kind, _, _, _, _) => Accepted(kind, errors)
    case Received(f) => Accepted(f.kind, errors)
    case _ => true
  }

  lemma StepKind(p: Parser, c: Byte, errors: bool)
    requires KindAccepted(p, errors)
    ensures KindAccepted(Step(p, c, errors), errors)
  {}

  /** Whatever the stream, only complete, well-formed frames that it carries are handed over. */
  lemma {:induction false} OnlySentFramesAreReceived(p: Parser, s: seq<Byte>, errors: bool)
    requires WellFormed(p) && !p.Received? && KindAccepted(p, errors)
    ensures var out := Feed(p, s, errors).0;
            Carries(Held(p) + s, out) && forall f :: f in out ==> Expected(f, errors)
    decreases |s|
  {
    hide Step, Encode, KindAccepted, Expected, WellFormed, Held, Carries;
    if s == [] {
      NothingIsCarried(Held(p) + s);
    } else {
      var c, t := s[0], s[1..];
      assert Held(p) + s == Held(p) + [c] + t;
      StepHolds(p, c, errors);
      StepKind(p, c, errors);
      IdleIsFresh(errors);
      var q := Step(p, c, errors);
      if q.Received? {
        ReceivedIsExpected(q, errors);
        OnlySentFramesAreReceived(Idle, t, errors);
        assert [] + t == t;
        CarriesFirst(q.frame, t, Feed(Idle, t, errors).0);
      } else {
        OnlySentFramesAreReceived(q, t, errors);
        var out := Feed(q, t, errors).0;
        assert [] + out == out;
        if q.Idle? {
          assert [] + t == t;
          CarriesLater(Held(p) + [c], t, out);
        }
      }
    }
  }

  lemma {:induction false} NothingIsCarried(stream: seq<Byte>)
    ensures Carries(stream, [])
  {}

  lemma {:induction false} CarriesFirst(f: Frame, t: seq<Byte>, fs: seq<Frame>)
    requires Carries(t, fs)
    ensures Carries(Encode(f) + t, [f] + fs)
  {
    hide Encode;
    assert Encode(f) + t == [] + Encode(f) + t;
    assert ([f] + fs)[0] == f && ([f] + fs)[1..] == fs;
  }

  lemma ReceivedIsExpected(q: Parser, errors: bool)
    requires WellFormed(q) && q.Received? && KindAccepted(q, errors)
    ensures Expected(q.frame, errors) && Held(q) == Encode(q.frame)
  {}

  lemma IdleIsFresh(errors: bool)
    ensures KindAccepted(Idle, errors) && WellFormed(Idle) && Held(Idle) == []
  {}

  /** The round trip holds exactly for the frames that fit and whose kind is accepted. */
  lemma {:induction false} RoundTripExactly(f: Frame, errors: bool)
    ensures Feed(Idle, Encode(f), errors) == ([f], Idle) <==>
              |f.payload| <= 192 && (if f.version == V1 then f.flags == 0 && f.cmd < 256 else f.cmd < 65536) &&
              (f.kind == 60 || f.kind == 62 || (errors && f.kind == 33))
  {
    OnlySentFramesAreReceived(Idle, Encode(f), errors);
    assert Feed(Idle, Encode(f), errors).0 == [f] ==> f in Feed(Idle, Encode(f), errors).0;
    if f.Fits() && Accepted(f.kind, errors) {
      RoundTrip(f, errors);
    }
  }

  // ----- The two recognisers -----

  /** At some point the stream offers an error frame to a recogniser that expects a frame type. */
  ghost predicate OffersError(p: Parser, s: seq<Byte>)
    requires WellFormed(p) && !p.Received?
    decreases |s|
  {
    s != [] &&
    ((p.Type? && s[0] == FAILURE) ||
     (StepHolds(p, s[0], true); OffersError(Take(Step(p, s[0], true)).1, s[1..])))
  }

  /** Firmware and script receive the same frames from every stream that offers no error frame. */
  lemma {:induction false} TwinsAgree(p: Parser, s: seq<Byte>)
    requires WellFormed(p) && !p.Received? && !OffersError(p, s)
    ensures Feed(p, s, false) == Feed(p, s, true)
    decreases |s|
  {
    hide SumStep, AfterHead;
    if s != [] {
      assert Step(p, s[0], false) == Step(p, s[0], true);
      StepHolds(p, s[0], true);
      TwinsAgree(Take(Step(p, s[0], true)).1, s[1..]);
    }
  }

  // ----- Bytes that are not for the recogniser -----

  /** The bytes after which the recogniser is idle: the serial manager gives them to the command line. */
  ghost function Passed(p: Parser, s: seq<Byte>, errors: bool): seq<Byte>
    requires WellFormed(p) && !p.Received?
    decreases |s|
  {
    if s == [] then []
    else
      StepHolds(p, s[0], errors);
      var q := Step(p, s[0], errors);
      (if q.Idle? then [s[0]] else []) + Passed(Take(q).1, s[1..], errors)
  }

  lemma {:induction false} PassedOneMore(p: Parser, s: seq<Byte>, c: Byte, errors: bool)
    requires WellFormed(p) && !p.Received?
    ensures Passed(p, s + [c], errors) ==
            Passed(p, s, errors) + (if Step(Feed(p, s, errors).1, c, errors).Idle? then [c] else [])
    decreases |s|
  {
    hide Step, WellFormed;
    if s == [] {
      assert s + [c] == [c] && [c][1..] == [];
      PassedUnfolds(p, [c], errors);
    } else {
      assert (s + [c])[0] == s[0] && (s + [c])[1..] == s[1..] + [c];
      StepHolds(p, s[0], errors);
      PassedUnfolds(p, s + [c], errors);
      PassedUnfolds(p, s, errors);
      PassedOneMore(Take(Step(p, s[0], errors)).1, s[1..], c, errors);
    }
  }

  lemma {:induction false} PassedUnfolds(p: Parser, s: seq<Byte>, errors: bool)
    requires WellFormed(p) && !p.Received? && s != []
    ensures WellFormed(Take(Step(p, s[0], errors)).1)
    ensures Passed(p, s, errors) ==
            (if Step(p, s[0], errors).Idle? then [s[0]] else []) + Passed(Take(Step(p, s[0], errors)).1, s[1..], errors)
  {
    hide Step;
    StepHolds(p, s[0], errors);
  }

  /** Every byte is spent at most once: on a frame, on what is still held, or on the command line. */
  lemma {:induction false} BytesAreSpentOnce(p: Parser, s: seq<Byte>, errors: bool)
    requires WellFormed(p) && !p.Received?
    ensures var (out, q) := Feed(p, s, errors);
            |EncodeAll(out)| + |Held(q)| + |Passed(p, s, errors)| <= |Held(p)| + |s|
    decreases |s|
  {
    hide Step, Encode, WellFormed, Held;
    if s == [] {
      assert EncodeAll([]) == [];
    } else {
      var q := Step(p, s[0], errors);
      StepHolds(p, s[0], errors);
      IdleIsFresh(errors);
      var r := Take(q).1;
      PassedUnfolds(p, s, errors);
      BytesAreSpentOnce(r, s[1..], errors);
      var rest := Feed(r, s[1..], errors).0;
      if q.Received? {
        HeldIsEncoded(q);
        assert ([q.frame] + rest)[1..] == rest;
      } else {
        assert [] + rest == rest;
      }
    }
  }

  lemma HeldIsEncoded(q: Parser)
    requires WellFormed(q) && q.Received?
    ensures Held(q) == Encode(q.frame)
  {}

  /** A stream of fitting frames leaves nothing for the command line. */
  lemma {:induction false} FramesPassNothing(fs: seq<Frame>, errors: bool)
    requires forall f :: f in fs ==> f.Fits() && Accepted(f.kind, errors)
    ensures Passed(Idle, EncodeAll(fs), errors) == []
  {
    StreamRoundTrip(fs, errors);
    BytesAreSpentOnce(Idle, EncodeAll(fs), errors);
  }

  /** Text without a dollar sign goes to the command line untouched, and leaves the recogniser idle. */
  lemma {:induction false} TextPasses(s: seq<Byte>, errors: bool)
    requires DOLLAR !in s
    ensures Passed(Idle, s, errors) == s && Feed(Idle, s, errors) == ([], Idle)
    decreases |s|
  {
    if s != [] {
      assert s == [s[0]] + s[1..] && s[0] in s;
      TextPasses(s[1..], errors);
      FeedStep(Idle, s, errors);
    }
  }

  // ----- Corruption -----

  /** Changing one byte of a sequence changes its checksum, whatever comes after. */
  lemma {:induction false} OneByteChangesSum(v: Version, c: Byte, c': Byte, s: seq<Byte>)
    requires c != c'
    ensures Sum(v, c, s) != Sum(v, c', s)
    decreases |s|
  {
    if s != [] {
      var d, d' := SumStep(v, c, s[0]), SumStep(v, c', s[0]);
      if d == d' { SumStepInjective(v, c, c', s[0], s[0]); }
      hide SumStep;
      OneByteChangesSum(v, d, d', s[1..]);
    }
  }

  lemma SumStepInjective(v: Version, c: Byte, c': Byte, a: Byte, a': Byte)
    requires SumStep(v, c, a) == SumStep(v, c', a')
    ensures c == c' <==> a == a'
  {
    if v == V1 { XorInjective(c, c', a, a'); } else { CrcInjective(c, c', a, a'); }
  }

  lemma {:induction false} ChangedByteChangesSum(v: Version, s: seq<Byte>, b: Byte, b': Byte, t: seq<Byte>)
    requires b != b'
    ensures Sum(v, 0, s + [b] + t) != Sum(v, 0, s + [b'] + t)
  {
    var c := Sum(v, 0, s);
    SumOne(v, 0, s, b);
    SumOne(v, 0, s, b');
    SumAppends(v, 0, s + [b], t);
    SumAppends(v, 0, s + [b'], t);
    if SumStep(v, c, b) == SumStep(v, c, b') { SumStepInjective(v, c, c, b, b'); }
    hide SumStep;
    OneByteChangesSum(v, SumStep(v, c, b), SumStep(v, c, b'), t);
  }

  /** A frame in which one payload byte was changed yields nothing. */
  lemma {:induction false} PayloadCorruptionDetected(f: Frame, i: nat, b: Byte, errors: bool)
    requires f.Fits() && Accepted(f.kind, errors)
    requires i < |f.payload| && b != f.payload[i]
    ensures var at := 3 + HeaderSize(f.version) + i;
            Encode(f)[at] == f.payload[i] && Feed(Idle, Encode(f)[at := b], errors) == ([], Idle)
  {
    hide Sum, Feed, Header;
    var g := f.(payload := f.payload[i := b]);
    var sum := Sum(f.version, 0, Header(f) + f.payload);
    SameHeader(f, g);
    ChangedPayloadChangesSum(f, g, i, b);
    LastByteDecides(g, sum, errors);
    ChangedPayloadEncodes(f, i, b);
  }

  lemma SameHeader(f: Frame, g: Frame)
    requires g == f.(payload := g.payload) && |g.payload| == |f.payload|
    ensures Header(g) == Header(f)
  {}

  lemma ChangedPayloadChangesSum(f: Frame, g: Frame, i: nat, b: Byte)
    requires i < |f.payload| && g == f.(payload := f.payload[i := b]) && b != f.payload[i]
    ensures Sum(f.version, 0, Header(f) + f.payload) != Sum(g.version, 0, Header(f) + g.payload)
  {
    hide Sum, Header;
    var s, t := Header(f) + f.payload[..i], f.payload[i + 1..];
    assert Header(f) + f.payload == s + [f.payload[i]] + t;
    assert Header(f) + g.payload == s + [b] + t;
    ChangedByteChangesSum(f.version, s, f.payload[i], b, t);
  }

  lemma ChangedPayloadEncodes(f: Frame, i: nat, b: Byte)
    requires f.Fits() && i < |f.payload|
    ensures |Header(f)| == HeaderSize(f.version)
    ensures var at, sum := 3 + HeaderSize(f.version) + i, Sum(f.version, 0, Header(f) + f.payload);
            at < |Encode(f)| && Encode(f)[at] == f.payload[i] &&
            Encode(f)[at := b] == [DOLLAR, Letter(f.version), f.kind] + (Header(f) + (f.payload[i := b] + [sum]))
  {
    hide Sum;
    assert |Header(f)| == HeaderSize(f.version);
    hide Header;
  }

  /** A frame whose checksum byte was changed yields nothing. */
  lemma {:induction false} ChecksumCorruptionDetected(f: Frame, b: Byte, errors: bool)
    requires f.Fits() && Accepted(f.kind, errors)
    requires b != Encode(f)[|Encode(f)| - 1]
    ensures Feed(Idle, Encode(f)[|Encode(f)| - 1 := b], errors) == ([], Idle)
  {
    hide SumStep;
    LastByteDecides(f, b, errors);
    assert Encode(f)[|Encode(f)| - 1 := b] == [DOLLAR, Letter(f.version), f.kind] + (Header(f) + (f.payload + [b]));
  }
}
