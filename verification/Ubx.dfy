/** UBX frames: their encoding with the 8-bit Fletcher sum, and the byte-driven parser of the GPS driver. */
module Ubx {
  import opened Bytes

  const SYNC0: Byte := 0xB5
  const SYNC1: Byte := 0x62
  const MAX_LENGTH: nat := 511

  // ----- Fletcher sum -----

  datatype Fletcher = Fletcher(a: Byte, b: Byte)

  const ZERO := Fletcher(0, 0)

  /** `ubxChecksum` of one byte. */
  function Add(f: Fletcher, v: Byte): Fletcher {
    var a := (f.a + v) % 256;
    Fletcher(a, (f.b + a) % 256)
  }

  function Fold(f: Fletcher, s: seq<Byte>): Fletcher
    decreases |s|
  {
    if s == [] then f else Fold(Add(f, s[0]), s[1..])
  }

  /** The plain sum of the bytes. */
  function Total(s: seq<Byte>): nat
    decreases |s|
  {
    if s == [] then 0 else s[0] + Total(s[1..])
  }

  /** The sum in which each byte counts as often as it is followed by bytes, itself included. */
  function Weighted(s: seq<Byte>): nat
    decreases |s|
  {
    if s == [] then 0 else |s| * s[0] + Weighted(s[1..])
  }

  lemma ModAbsorbs(u: int, n: int, v: int)
    ensures (u + n * (v % 256)) % 256 == (u + n * v) % 256
  {
    var q := v / 256;
    assert v == 256 * q + v % 256;
    assert n * v == 256 * (n * q) + n * (v % 256);
    ModShift(u + n * (v % 256), n * q);
  }

  lemma ModShift(u: int, k: int)
    ensures (u + 256 * k) % 256 == u % 256
  {}

  /** One byte's share of the second sum, when `n` bytes of weight `w` follow. */
  lemma SecondSumStep(f: Fletcher, x: Byte, n: nat, w: nat)
    ensures var g := Add(f, x);
            (g.b + n * g.a + w) % 256 == (f.b + (n + 1) * f.a + ((n + 1) * x + w)) % 256
  {
    var g := Add(f, x);
    var v := f.a + x;
    var p, q := n * g.a, (n + 1) * g.a;
    Distribute(n, 1, g.a);
    assert (g.b + p + w) % 256 == (f.b + w + q) % 256 by { ModAbsorbs(p + w, 1, f.b + g.a); }
    ModAbsorbs(f.b + w, n + 1, v);
    Distribute(f.a, x, n + 1);
  }

  lemma Distribute(a: int, b: int, c: int)
    ensures (a + b) * c == a * c + b * c && c * (a + b) == c * a + c * b
  {}

  /** The closed form of the Fletcher sum. */
  lemma {:induction false} FletcherClosedForm(f: Fletcher, s: seq<Byte>)
    ensures Fold(f, s).a == (f.a + Total(s)) % 256
    ensures Fold(f, s).b == (f.b + |s| * f.a + Weighted(s)) % 256
    decreases |s|
  {
    if s != [] {
      var t, x := s[1..], s[0];
      FletcherClosedForm(Add(f, x), t);
      ModAbsorbs(Total(t), 1, f.a + x);
      SecondSumStep(f, x, |t|, Weighted(t));
    }
  }

  lemma {:induction false} FoldAppends(f: Fletcher, s: seq<Byte>, t: seq<Byte>)
    ensures Fold(f, s + t) == Fold(Fold(f, s), t)
    decreases |s|
  {
    if s == [] {
      assert s + t == t;
    } else {
      assert (s + t)[0] == s[0] && (s + t)[1..] == s[1..] + t;
      FoldAppends(Add(f, s[0]), s[1..], t);
    }
  }

  lemma {:induction false} FoldOne(f: Fletcher, s: seq<Byte>, x: Byte)
    ensures Fold(f, s + [x]) == Add(Fold(f, s), x)
  {
    FoldAppends(f, s, [x]);
    assert Fold(Fold(f, s), [x]) == Fold(Add(Fold(f, s), x), []);
  }

  // ----- Frames -----

  datatype Message = Message(id: nat, payload: seq<Byte>)
  {
    predicate Fits() { id < 65536 && |payload| < MAX_LENGTH }
  }

  function Covered(m: Message): seq<Byte> {
    [Low(m.id), High(m.id), Low(|m.payload|), High(|m.payload|)] + m.payload
  }

  function Encode(m: Message): seq<Byte> {
    var f := Fold(ZERO, Covered(m));
    [SYNC0, SYNC1] + Covered(m) + [f.a, f.b]
  }

  /** A frame byte by byte: two sync bytes, id and length with the low byte first, payload, and the two sums
      over all but the sync bytes, plain and weighted by position. */
  lemma MessageBytes(m: Message) returns (a: Byte, b: Byte)
    requires m.id < 65536 && |m.payload| < 65536
    ensures var head := [m.id % 256, m.id / 256, |m.payload| % 256, |m.payload| / 256];
            Encode(m) == [0xB5, 0x62] + head + m.payload + [a, b] &&
            a == Total(head + m.payload) % 256 && b == Weighted(head + m.payload) % 256
  {
    hide Fold, Total, Weighted;
    FletcherClosedForm(ZERO, Covered(m));
    var f := Fold(ZERO, Covered(m));
    a, b := f.a, f.b;
    assert Covered(m) == [m.id % 256, m.id / 256, |m.payload| % 256, |m.payload| / 256] + m.payload;
  }

  /** The poll for the receiver's version (class 0x0A, id 0x04), as the protocol has it. */
  lemma VersionPoll()
    ensures Encode(Message(0x040A, [])) == [0xB5, 0x62, 0x0A, 0x04, 0x00, 0x00, 0x0E, 0x34]
  {
    hide Total, Weighted, Encode;
    var a, b := MessageBytes(Message(0x040A, []));
    var s: seq<Byte> := [0x0A, 0x04, 0x00, 0x00];
    assert s + [] == s == [0x0A, 0x04] + [0x00, 0x00] && [0x00, 0x00] + [] == [0x00, 0x00];
    PairWeight(0x0A, 0x04, [0x00, 0x00]);
    PairWeight(0x00, 0x00, []);
    NoWeight();
  }

  lemma NoWeight()
    ensures Total([]) == 0 && Weighted([]) == 0
  {}

  // ----- Parsing -----

  datatype Parser =
    | Idle
    | Sync
    | Class
    | Id(lo: Byte)
    | Len0(id: nat)
    | Len1(id: nat, lo: Byte)
    | Payload(id: nat, length: nat, body: seq<Byte>)
    | Crc0(id: nat, body: seq<Byte>)
    | Crc1(id: nat, body: seq<Byte>, a: Byte)
    | Ready(msg: Message)

  /** One byte; a ready message is overwritten by the next one without any reset. */
  function Step(p: Parser, c: Byte): Parser {
    match p
    case Idle => if c == SYNC0 then Sync else Idle
    case Ready(_) => if c == SYNC0 then Sync else Idle
    case Sync => if c == SYNC1 then Class else Idle
    case Class => Id(c)
    case Id(lo) => Len0(Word(lo, c))
    case Len0(id) => Len1(id, c)
    case Len1(id, lo) =>
      var n := Word(lo, c);
      if n == 0 then Crc0(id, []) else if n >= MAX_LENGTH then Idle else Payload(id, n, [])
    case Payload(id, length, body) =>
      var b := body + [c];
      if |b| == length then Crc0(id, b) else Payload(id, length, b)
    case Crc0(id, body) => Crc1(id, body, c)
    case Crc1(id, body, a) =>
      if Fold(ZERO, Covered(Message(id, body))) == Fletcher(a, c) then Ready(Message(id, body)) else Idle
  }

  ghost predicate WellFormed(p: Parser) {
    match p
    case Len0(id) => id < 65536
    case Len1(id, _) => id < 65536
    case Payload(id, length, body) => id < 65536 && |body| < length < MAX_LENGTH
    case Crc0(id, body) => Message(id, body).Fits()
    case Crc1(id, body, _) => Message(id, body).Fits()
    case Ready(msg) => msg.Fits()
    case _ => true
  }

  lemma StepWellFormed(p: Parser, c: Byte)
    requires WellFormed(p)
    ensures WellFormed(Step(p, c))
  {}

  // ----- Streams -----

  function Ready1(p: Parser): seq<Message> {
    if p.Ready? then [p.msg] else []
  }

  /** The messages that become ready while the stream is parsed, and the parser afterwards. */
  function Feed(p: Parser, s: seq<Byte>): (seq<Message>, Parser)
    decreases |s|
  {
    if s == [] then ([], p)
    else
      var q := Step(p, s[0]);
      var (rest, end) := Feed(q, s[1..]);
      (Ready1(q) + rest, end)
  }

  lemma {:induction false} FeedAppends(p: Parser, s: seq<Byte>, t: seq<Byte>)
    ensures var (out, q) := Feed(p, s);
            var (more, q') := Feed(q, t);
            Feed(p, s + t) == (out + more, q')
    decreases |s|
  {
    hide Step;
    if s == [] {
      assert s + t == t && [] + Feed(p, t).0 == Feed(p, t).0;
    } else {
      assert (s + t)[0] == s[0] && (s + t)[1..] == s[1..] + t;
      var q := Step(p, s[0]);
      FeedAppends(q, s[1..], t);
      var (a, q1) := Feed(q, s[1..]);
      var (b, q2) := Feed(q1, t);
      assert Ready1(q) + (a + b) == Ready1(q) + a + b;
    }
  }

  lemma {:induction false} FeedStep(p: Parser, s: seq<Byte>)
    requires s != [] && !Step(p, s[0]).Ready?
    ensures Feed(p, s) == Feed(Step(p, s[0]), s[1..])
  {
    hide Step;
    var rest := Feed(Step(p, s[0]), s[1..]).0;
    assert [] + rest == rest;
  }

  lemma {:induction false} FeedFirst(p: Parser, c: Byte, s: seq<Byte>)
    requires !Step(p, c).Ready?
    ensures Feed(p, [c] + s) == Feed(Step(p, c), s)
  {
    hide Step, Feed;
    assert ([c] + s)[0] == c && ([c] + s)[1..] == s;
    FeedStep(p, [c] + s);
  }

  lemma {:induction false} PayloadFeeds(m: Message, done: seq<Byte>, rest: seq<Byte>, t: seq<Byte>)
    requires rest != [] && done + rest == m.payload
    ensures Feed(Payload(m.id, |m.payload|, done), rest + t) == Feed(Crc0(m.id, m.payload), t)
    decreases |rest|
  {
    var p := Payload(m.id, |m.payload|, done);
    assert (rest + t)[0] == rest[0] && (rest + t)[1..] == rest[1..] + t;
    if |rest| == 1 {
      assert done + [rest[0]] == m.payload && rest[1..] + t == t;
    } else {
      assert done + [rest[0]] + rest[1..] == m.payload;
      PayloadFeeds(m, done + [rest[0]], rest[1..], t);
    }
    FeedStep(p, rest + t);
  }

  predicate AtRest(p: Parser) { p.Idle? || p.Ready? }

  lemma {:induction false} HeaderFeeds(p: Parser, m: Message, t: seq<Byte>)
    requires AtRest(p) && m.Fits()
    ensures Feed(p, [SYNC0, SYNC1] + (Covered(m) + t)) == Feed(Crc0(m.id, m.payload), t)
  {
    hide Low, High, Word, Feed, Fold;
    WordOfHalves(m.id);
    WordOfHalves(|m.payload|);
    var id0, id1, n0, n1 := Low(m.id), High(m.id), Low(|m.payload|), High(|m.payload|);
    var u := m.payload + t;
    var s5 := [n1] + u;
    var s4 := [n0] + s5;
    var s3 := [id1] + s4;
    var s2 := [id0] + s3;
    var s1 := [SYNC1] + s2;
    assert [SYNC0, SYNC1] + (Covered(m) + t) == [SYNC0] + s1;
    FeedFirst(p, SYNC0, s1);
    FeedFirst(Sync, SYNC1, s2);
    FeedFirst(Class, id0, s3);
    FeedFirst(Id(id0), id1, s4);
    FeedFirst(Len0(m.id), n0, s5);
    FeedFirst(Len1(m.id, n0), n1, u);
    if m.payload == [] {
      assert u == t;
    } else {
      PayloadFeeds(m, [], m.payload, t);
    }
  }

  /** The last two bytes decide: the right sum yields the message, any other yields nothing. */
  lemma {:induction false} ChecksumDecides(p: Parser, m: Message, a: Byte, b: Byte)
    requires AtRest(p) && m.Fits()
    ensures Feed(p, [SYNC0, SYNC1] + (Covered(m) + [a, b])) ==
            if Fold(ZERO, Covered(m)) == Fletcher(a, b) then ([m], Ready(m)) else ([], Idle)
  {
    hide Covered, Fold;
    HeaderFeeds(p, m, [a, b]);
    assert [a, b][1..] == [b] && [b][1..] == [];
    FeedStep(Crc0(m.id, m.payload), [a, b]);
    var q := Step(Crc1(m.id, m.payload, a), b);
    assert Feed(q, []) == ([], q);
    assert Ready1(q) + [] == Ready1(q);
    assert Feed(Crc1(m.id, m.payload, a), [b]) == (Ready1(q), q);
  }

  /** The round trip, from a parser at rest or with an earlier message still ready. */
  lemma {:induction false} RoundTrip(p: Parser, m: Message)
    requires AtRest(p) && m.Fits()
    ensures Feed(p, Encode(m)) == ([m], Ready(m))
  {
    hide Covered, Fold;
    var f := Fold(ZERO, Covered(m));
    assert Encode(m) == [SYNC0, SYNC1] + (Covered(m) + [f.a, f.b]);
    ChecksumDecides(p, m, f.a, f.b);
  }

  lemma {:induction false} FeedNothing(p: Parser)
    ensures Feed(p, []) == ([], p)
  {}

  function EncodeAll(ms: seq<Message>): seq<Byte> {
    if ms == [] then [] else Encode(ms[0]) + EncodeAll(ms[1..])
  }

  /** Messages sent back to back become ready one after the other, with no reset in between. */
  lemma {:induction false} StreamRoundTrip(p: Parser, ms: seq<Message>)
    requires AtRest(p) && forall m :: m in ms ==> m.Fits()
    ensures Feed(p, EncodeAll(ms)).0 == ms
    ensures Feed(p, EncodeAll(ms)).1 == if ms == [] then p else Ready(ms[|ms| - 1])
    decreases |ms|
  {
    hide Encode, Step, Feed, Message.Fits;
    FeedNothing(p);
    if ms != [] {
      var m := ms[0];
      assert m in ms;
      RoundTrip(p, m);
      StreamRoundTrip(Ready(m), ms[1..]);
      FeedAppends(p, Encode(m), EncodeAll(ms[1..]));
      assert [m] + ms[1..] == ms;
    }
  }

  // ----- Only sent messages -----

  function Prefix(id: nat, length: nat): seq<Byte> {
    [SYNC0, SYNC1, Low(id), High(id), Low(length), High(length)]
  }

  /** The bytes of the message that the parser is in; a ready message has let go of its bytes. */
  ghost function Held(p: Parser): seq<Byte> {
    match p
    case Idle => []
    case Ready(_) => []
    case Sync => [SYNC0]
    case Class => [SYNC0, SYNC1]
    case Id(lo) => [SYNC0, SYNC1, lo]
    case Len0(id) => [SYNC0, SYNC1, Low(id), High(id)]
    case Len1(id, lo) => [SYNC0, SYNC1, Low(id), High(id), lo]
    case Payload(id, length, body) => Prefix(id, length) + body
    case Crc0(id, body) => Prefix(id, |body|) + body
    case Crc1(id, body, a) => Prefix(id, |body|) + body + [a]
  }

  lemma HeaderHolds(p: Parser, c: Byte)
    requires WellFormed(p) && (p.Id? || p.Len0? || p.Len1?)
    ensures var q := Step(p, c); q.Idle? || Held(q) == Held(p) + [c]
  {
    hide Low, High, Word;
    match p
    case Id(lo) => HalvesOfWord(lo, c);
    case Len0(_) =>
    case Len1(_, lo) => HalvesOfWord(lo, c);
  }

  lemma PayloadHolds(p: Parser, c: Byte)
    requires WellFormed(p) && (p.Payload? || p.Crc0?)
    ensures Held(Step(p, c)) == Held(p) + [c]
  {
    hide Prefix;
    if p.Payload? {
      assert Prefix(p.id, p.length) + p.body + [c] == Prefix(p.id, p.length) + (p.body + [c]);
    }
  }

  lemma ReadyIsEncoded(p: Parser, c: Byte)
    requires p.Crc1? && Step(p, c).Ready?
    ensures Held(p) + [c] == Encode(Step(p, c).msg)
  {
    hide Low, High, Fold;
  }

  /** A step holds one byte more, lets go of everything, or has the encoding of the ready message. */
  lemma StepHolds(p: Parser, c: Byte)
    requires WellFormed(p)
    ensures var q := Step(p, c);
            if q.Ready? then Held(p) + [c] == Encode(q.msg) else q.Idle? || Held(q) == Held(p) + [c]
  {
    hide Low, High, Word, Fold, Prefix, Encode;
    match p
    case Id(_) => HeaderHolds(p, c);
    case Len0(_) => HeaderHolds(p, c);
    case Len1(_, _) => HeaderHolds(p, c);
    case Payload(_, _, _) => PayloadHolds(p, c);
    case Crc0(_, _) => PayloadHolds(p, c);
    case Crc1(_, _, _) => if Step(p, c).Ready? { ReadyIsEncoded(p, c); }
    case _ =>
  }

  /** The stream holds the encodings of these messages one behind the other, with anything in between. */
  ghost predicate Carries(stream: seq<Byte>, ms: seq<Message>)
    decreases |ms|
  {
    ms == [] ||
    exists a, b {:trigger a + Encode(ms[0]) + b} :: stream == a + Encode(ms[0]) + b && Carries(b, ms[1..])
  }

  lemma {:induction false} CarriesLater(x: seq<Byte>, stream: seq<Byte>, ms: seq<Message>)
    requires Carries(stream, ms)
    ensures Carries(x + stream, ms)
  {
    hide Encode;
    if ms != [] {
      var a, b :| stream == a + Encode(ms[0]) + b && Carries(b, ms[1..]);
      assert x + stream == (x + a) + Encode(ms[0]) + b;
    }
  }

  lemma {:induction false} CarriesFirst(m: Message, t: seq<Byte>, ms: seq<Message>)
    requires Carries(t, ms)
    ensures Carries(Encode(m) + t, [m] + ms)
  {
    hide Encode;
    assert Encode(m) + t == [] + Encode(m) + t;
    assert ([m] + ms)[0] == m && ([m] + ms)[1..] == ms;
  }

  lemma {:induction false} NothingIsCarried(stream: seq<Byte>)
    ensures Carries(stream, [])
  {}

  lemma ReadyFits(p: Parser)
    requires WellFormed(p)
    ensures p.Ready? ==> p.msg.Fits() && Held(p) == []
    ensures p.Idle? ==> Held(p) == []
  {}

  /** Whatever the stream, only messages that fit and that it carries become ready, in their order. */
  lemma {:induction false} OnlySentMessagesBecomeReady(p: Parser, s: seq<Byte>)
    requires WellFormed(p)
    ensures var out := Feed(p, s).0;
            Carries(Held(p) + s, out) && forall m :: m in out ==> m.Fits()
    decreases |s|
  {
    hide Step, Encode, WellFormed, Held, Carries;
    if s == [] {
      NothingIsCarried(Held(p) + s);
    } else {
      var c, t := s[0], s[1..];
      assert Held(p) + s == Held(p) + [c] + t;
      StepHolds(p, c);
      StepWellFormed(p, c);
      var q := Step(p, c);
      ReadyFits(q);
      OnlySentMessagesBecomeReady(q, t);
      var out := Feed(q, t).0;
      assert [] + out == out && [] + t == t;
      if q.Ready? {
        CarriesFirst(q.msg, t, out);
      } else if q.Idle? {
        CarriesLater(Held(p) + [c], t, out);
      }
    }
  }

  /** The round trip holds exactly for the messages that fit. */
  lemma RoundTripExactly(m: Message)
    ensures Feed(Idle, Encode(m)) == ([m], Ready(m)) <==> m.id < 65536 && |m.payload| < 511
  {
    OnlySentMessagesBecomeReady(Idle, Encode(m));
    assert Feed(Idle, Encode(m)).0 == [m] ==> m in Feed(Idle, Encode(m)).0;
    if m.Fits() { RoundTrip(Idle, m); }
  }

  // ----- Corruption -----

  lemma {:induction false} TotalAppends(s: seq<Byte>, t: seq<Byte>)
    ensures Total(s + t) == Total(s) + Total(t)
    decreases |s|
  {
    if s == [] {
      assert s + t == t;
    } else {
      assert (s + t)[0] == s[0] && (s + t)[1..] == s[1..] + t;
      TotalAppends(s[1..], t);
    }
  }

  lemma {:induction false} WeightedAppends(s: seq<Byte>, t: seq<Byte>)
    ensures Weighted(s + t) == Weighted(s) + |t| * Total(s) + Weighted(t)
    decreases |s|
  {
    if s == [] {
      assert s + t == t;
    } else {
      assert (s + t)[0] == s[0] && (s + t)[1..] == s[1..] + t;
      WeightedAppends(s[1..], t);
      Distribute(|s|, |t|, s[0]);
      Distribute(s[0], Total(s[1..]), |t|);
    }
  }

  /** A frame in which one payload byte was changed yields nothing. */
  lemma {:induction false} PayloadCorruptionDetected(p: Parser, m: Message, i: nat, x: Byte)
    requires AtRest(p) && m.Fits() && i < |m.payload| && x != m.payload[i]
    ensures Encode(m)[6 + i] == m.payload[i] && Feed(p, Encode(m)[6 + i := x]) == ([], Idle)
  {
    hide Fold, Total, Weighted;
    var g := Message(m.id, m.payload[i := x]);
    var f := Fold(ZERO, Covered(m));
    var s, t := Covered(m)[..4 + i], m.payload[i + 1..];
    assert Covered(m) == s + ([m.payload[i]] + t);
    assert Covered(g) == s + ([x] + t);
    TotalsDiffer(s, m.payload[i], x, t);
    FletcherClosedForm(ZERO, Covered(m));
    FletcherClosedForm(ZERO, Covered(g));
    ChecksumDecides(p, g, f.a, f.b);
    assert Encode(m)[6 + i := x] == [SYNC0, SYNC1] + (Covered(g) + [f.a, f.b]);
  }

  lemma {:induction false} TotalsDiffer(s: seq<Byte>, x: Byte, y: Byte, t: seq<Byte>)
    requires x != y
    ensures Total(s + ([x] + t)) % 256 != Total(s + ([y] + t)) % 256
  {
    TotalAppends(s, [x] + t);
    TotalAppends(s, [y] + t);
    HeadWeight(x, t);
    HeadWeight(y, t);
  }

  /** A frame with a changed checksum byte yields nothing. */
  lemma {:induction false} ChecksumCorruptionDetected(p: Parser, m: Message, a: Byte, b: Byte)
    requires AtRest(p) && m.Fits() && Fletcher(a, b) != Fold(ZERO, Covered(m))
    ensures var n := |Encode(m)|;
            Feed(p, Encode(m)[n - 2 := a][n - 1 := b]) == ([], Idle)
  {
    hide Fold, Covered;
    ChecksumDecides(p, m, a, b);
    var n := |Encode(m)|;
    assert Encode(m)[n - 2 := a][n - 1 := b] == [SYNC0, SYNC1] + (Covered(m) + [a, b]);
  }

  lemma {:induction false} HeadWeight(x: Byte, t: seq<Byte>)
    ensures Weighted([x] + t) == (|t| + 1) * x + Weighted(t)
    ensures Total([x] + t) == x + Total(t)
  {}

  lemma {:induction false} PairWeight(x: Byte, y: Byte, t: seq<Byte>)
    ensures Weighted([x, y] + t) == (|t| + 2) * x + (|t| + 1) * y + Weighted(t)
    ensures Total([x, y] + t) == x + y + Total(t)
  {}

  /** Exchanging neighbours moves the weighted sum by their difference, which is no multiple of 256. */
  lemma {:induction false} SwapChangesWeight(s: seq<Byte>, x: Byte, y: Byte, t: seq<Byte>)
    requires x != y
    ensures Weighted(s + ([x, y] + t)) % 256 != Weighted(s + ([y, x] + t)) % 256
  {
    hide Total, Weighted;
    PairAfter(s, x, y, t);
    PairAfter(s, y, x, t);
    Regroup(|t|, x, y, (|t| + 2) * x + (|t| + 1) * y, (|t| + 2) * y + (|t| + 1) * x);
    DifferentRests(Weighted(s + ([x, y] + t)), Weighted(s + ([y, x] + t)), x, y);
  }

  lemma {:induction false} PairAfter(s: seq<Byte>, x: Byte, y: Byte, t: seq<Byte>)
    ensures Weighted(s + ([x, y] + t)) ==
            Weighted(s) + (|t| + 2) * Total(s) + ((|t| + 2) * x + (|t| + 1) * y) + Weighted(t)
  {
    hide Total, Weighted;
    WeightedAppends(s, [x, y] + t);
    PairWeight(x, y, t);
  }

  lemma Regroup(n: nat, x: int, y: int, v: int, w: int)
    requires v == (n + 2) * x + (n + 1) * y && w == (n + 2) * y + (n + 1) * x
    ensures v == w + (x - y)
  {
    Distribute(n + 1, 1, x);
    Distribute(n + 1, 1, y);
  }

  lemma DifferentRests(v: nat, w: nat, x: Byte, y: Byte)
    requires v == w + (x - y) && x != y
    ensures v % 256 != w % 256
  {}

  /** A frame in which two adjacent, unequal payload bytes were exchanged yields nothing. */
  lemma {:induction false} ExchangeDetected(p: Parser, m: Message, i: nat)
    requires AtRest(p) && m.Fits() && i + 1 < |m.payload| && m.payload[i] != m.payload[i + 1]
    ensures Feed(p, Encode(m)[6 + i := m.payload[i + 1]][7 + i := m.payload[i]]) == ([], Idle)
  {
    hide Fold, Total, Weighted;
    var x, y := m.payload[i], m.payload[i + 1];
    var g := Message(m.id, m.payload[i := y][i + 1 := x]);
    var f := Fold(ZERO, Covered(m));
    var s, t := Covered(m)[..4 + i], m.payload[i + 2..];
    assert Covered(m) == s + ([x, y] + t);
    assert Covered(g) == s + ([y, x] + t);
    SwapChangesWeight(s, x, y, t);
    FletcherClosedForm(ZERO, Covered(m));
    FletcherClosedForm(ZERO, Covered(g));
    ChecksumDecides(p, g, f.a, f.b);
    assert Encode(m)[6 + i := y][7 + i := x] == [SYNC0, SYNC1] + (Covered(g) + [f.a, f.b]);
  }
}
