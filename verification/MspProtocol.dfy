/** MSP v1 and v2 frames: their encoding, and the byte-driven recogniser that the firmware
    (Connect/MspParser.cpp) and the debug script (bin/msp.py) both implement. */
module MspProtocol {
  import opened Bytes

  const MSP_BUF_SIZE: nat := 192

  const DOLLAR: Byte := 36
  const LETTER_M: Byte := 77
  const LETTER_X: Byte := 88
  const COMMAND: Byte := 60   // '<'
  const REPLY: Byte := 62     // '>'
  const FAILURE: Byte := 33   // '!'

  datatype Version = V1 | V2

  /** A frame as it is exchanged; v1 frames carry no flags. */
  datatype Frame = Frame(version: Version, kind: Byte, flags: Byte, cmd: nat, payload: seq<Byte>)
  {
    /** What both recognisers can take in. */
    predicate Fits() {
      |payload| <= MSP_BUF_SIZE &&
      (if version == V1 then flags == 0 && cmd < 256 else cmd < 65536)
    }
  }

  // ----- Encoding -----

  function SumStep(v: Version, sum: Byte, b: Byte): Byte {
    if v == V1 then Xor(sum, b) else Crc(sum, b)
  }

  /** The checksum of a byte sequence, from a starting value. */
  function Sum(v: Version, sum: Byte, s: seq<Byte>): Byte
    decreases |s|
  {
    if s == [] then sum else Sum(v, SumStep(v, sum, s[0]), s[1..])
  }

  /** Lengths and commands are cut to the width of their header fields. */
  function Header(f: Frame): seq<Byte> {
    if f.version == V1 then [Low(|f.payload|), Low(f.cmd)]
    else [f.flags, Low(f.cmd), High(f.cmd), Low(|f.payload|), High(|f.payload|)]
  }

  function HeaderSize(v: Version): nat { if v == V1 then 2 else 5 }

  function Letter(v: Version): Byte { if v == V1 then LETTER_M else LETTER_X }

  function Encode(f: Frame): seq<Byte> {
    var body := Header(f) + f.payload;
    [DOLLAR, Letter(f.version), f.kind] + body + [Sum(f.version, 0, body)]
  }

  // ----- Recognising -----

  /** The state numbers that the firmware and the script share. */
  datatype State =
    | StIdle | HeaderStart
    | HeaderM | HeaderV1 | PayloadV1 | ChecksumV1
    | HeaderX | HeaderV2 | PayloadV2 | ChecksumV2
    | StReceived

  datatype Parser =
    | Idle
    | Start
    | Type(version: Version)
    | Head(version: Version, kind: Byte, head: seq<Byte>, sum: Byte)
    | Body(version: Version, kind: Byte, flags: Byte, cmd: nat, expected: nat, body: seq<Byte>, sum: Byte)
    | Check(version: Version, kind: Byte, flags: Byte, cmd: nat, body: seq<Byte>, sum: Byte)
    | Received(frame: Frame)

  function HeadCmd(v: Version, h: seq<Byte>): nat
    requires |h| == HeaderSize(v)
  {
    if v == V1 then h[1] else Word(h[1], h[2])
  }

  function HeadLength(v: Version, h: seq<Byte>): nat
    requires |h| == HeaderSize(v)
  {
    if v == V1 then h[0] else Word(h[3], h[4])
  }

  function HeadFlags(v: Version, h: seq<Byte>): Byte
    requires |h| == HeaderSize(v)
  {
    if v == V1 then 0 else h[0]
  }

  /** The state after a complete header: too long a payload is refused, an empty one is skipped. */
  function AfterHead(v: Version, kind: Byte, h: seq<Byte>, sum: Byte): Parser
    requires |h| == HeaderSize(v)
  {
    var n := HeadLength(v, h);
    if n > MSP_BUF_SIZE then Idle
    else if n > 0 then Body(v, kind, HeadFlags(v, h), HeadCmd(v, h), n, [], sum)
    else Check(v, kind, HeadFlags(v, h), HeadCmd(v, h), [], sum)
  }

  /** One byte.  Only the script takes error frames (`errors`); a received frame waits to be taken away. */
  function Step(p: Parser, c: Byte, errors: bool): Parser
  {
    match p
    case Idle => if c == DOLLAR then Start else Idle
    case Start => if c == LETTER_M then Type(V1) else if c == LETTER_X then Type(V2) else Idle
    case Type(v) =>
      if c == REPLY || c == COMMAND || (errors && c == FAILURE) then Head(v, c, [], 0) else Idle
    case Head(v, kind, head, sum) =>
      var h, s := head + [c], SumStep(v, sum, c);
      if |h| == HeaderSize(v) then AfterHead(v, kind, h, s) else Head(v, kind, h, s)
    case Body(v, kind, flags, cmd, expected, body, sum) =>
      var b, s := body + [c], SumStep(v, sum, c);
      if |b| == expected then Check(v, kind, flags, cmd, b, s)
      else Body(v, kind, flags, cmd, expected, b, s)
    case Check(v, kind, flags, cmd, body, sum) =>
      if sum == c then Received(Frame(v, kind, flags, cmd, body)) else Idle
    case Received(_) => p
  }

  /** The checksum covers what has been read, and the lengths agree with the header. */
  ghost predicate WellFormed(p: Parser) {
    match p
    case Head(v, _, head, sum) => |head| < HeaderSize(v) && sum == Sum(v, 0, head)
    case Body(v, kind, flags, cmd, expected, body, sum) =>
      var f := Frame(v, kind, flags, cmd, seq(expected, _ => 0));
      |body| < expected && f.Fits() && sum == Sum(v, 0, Header(f) + body)
    case Check(v, kind, flags, cmd, body, sum) =>
      var f := Frame(v, kind, flags, cmd, body);
      f.Fits() && sum == Sum(v, 0, Header(f) + body)
    case Received(f) => f.Fits()
    case _ => true
  }

  /** The bytes that the recogniser is holding on to. */
  ghost function Held(p: Parser): seq<Byte>
    requires WellFormed(p)
  {
    match p
    case Idle => []
    case Start => [DOLLAR]
    case Type(v) => [DOLLAR, Letter(v)]
    case Head(v, kind, head, _) => [DOLLAR, Letter(v), kind] + head
    case Body(v, kind, flags, cmd, expected, body, _) =>
      [DOLLAR, Letter(v), kind] + (Header(Frame(v, kind, flags, cmd, seq(expected, _ => 0))) + body)
    case Check(v, kind, flags, cmd, body, _) =>
      [DOLLAR, Letter(v), kind] + (Header(Frame(v, kind, flags, cmd, body)) + body)
    case Received(f) => Encode(f)
  }

  lemma {:induction false} SumAppends(v: Version, sum: Byte, s: seq<Byte>, t: seq<Byte>)
    ensures Sum(v, sum, s + t) == Sum(v, Sum(v, sum, s), t)
    decreases |s|
  {
    hide SumStep;
    if s == [] {
      assert s + t == t;
    } else {
      assert (s + t)[0] == s[0] && (s + t)[1..] == s[1..] + t;
      SumAppends(v, SumStep(v, sum, s[0]), s[1..], t);
    }
  }

  lemma {:induction false} SumOfNothing(v: Version)
    ensures Sum(v, 0, []) == 0
  {}

  lemma {:induction false} SumOne(v: Version, sum: Byte, s: seq<Byte>, b: Byte)
    ensures Sum(v, sum, s + [b]) == SumStep(v, Sum(v, sum, s), b)
  {
    hide SumStep;
    SumAppends(v, sum, s, [b]);
    assert Sum(v, Sum(v, sum, s), [b]) == Sum(v, SumStep(v, Sum(v, sum, s), b), []);
  }

  /** A complete header says exactly what the encoder would have written. */
  lemma HeadIsHeader(v: Version, kind: Byte, h: seq<Byte>)
    requires |h| == HeaderSize(v) && HeadLength(v, h) <= MSP_BUF_SIZE
    ensures var f := Frame(v, kind, HeadFlags(v, h), HeadCmd(v, h), seq(HeadLength(v, h), _ => 0));
            f.Fits() && Header(f) == h
  {
    hide Low, High, Word;
    LowOfByte(h[0]);
    LowOfByte(h[1]);
    if v == V2 {
      HalvesOfWord(h[1], h[2]);
      HalvesOfWord(h[3], h[4]);
    }
  }

  lemma HeadHolds(p: Parser, c: Byte, errors: bool)
    requires WellFormed(p) && p.Head?
    ensures var q := Step(p, c, errors);
            WellFormed(q) && (q.Idle? || Held(q) == Held(p) + [c])
  {
    hide SumStep, Header, HeadLength, HeadCmd, HeadFlags, Sum;
    var v, h := p.version, p.head + [c];
    SumOne(v, 0, p.head, c);
    if |h| == HeaderSize(v) && HeadLength(v, h) <= MSP_BUF_SIZE {
      HeadIsHeader(v, p.kind, h);
      assert h + [] == h;
      if HeadLength(v, h) == 0 { assert seq(0, _ => 0) == []; }
    }
  }

  lemma BodyHolds(p: Parser, c: Byte, errors: bool)
    requires WellFormed(p) && p.Body?
    ensures var q := Step(p, c, errors);
            WellFormed(q) && Held(q) == Held(p) + [c]
  {
    hide SumStep, Low, High;
    var f := Frame(p.version, p.kind, p.flags, p.cmd, seq(p.expected, _ => 0));
    SumOne(p.version, 0, Header(f) + p.body, c);
    assert Header(f) + p.body + [c] == Header(f) + (p.body + [c]);
    if |p.body + [c]| == p.expected {
      assert Header(f.(payload := p.body + [c])) == Header(f);
    }
  }

  /** Every step either holds one byte more, or lets go of everything. */
  lemma StepHolds(p: Parser, c: Byte, errors: bool)
    requires WellFormed(p) && !p.Received?
    ensures var q := Step(p, c, errors);
            WellFormed(q) && (q.Idle? || Held(q) == Held(p) + [c])
  {
    match p
    case Head(_, _, _, _) => HeadHolds(p, c, errors);
    case Body(_, _, _, _, _, _, _) => BodyHolds(p, c, errors);
    case _ =>
  }

  /** There is always room for the byte that a header or payload still expects. */
  lemma RoomForByte(p: Parser)
    requires WellFormed(p)
    ensures p.Head? ==> |p.head| < HeaderSize(p.version)
    ensures p.Body? ==> |p.body| < p.expected <= MSP_BUF_SIZE
  {}

  // ----- Streams -----

  /** What taking in a byte yields: a frame is handed over at once and the recogniser starts anew. */
  function Take(p: Parser): (seq<Frame>, Parser) {
    if p.Received? then ([p.frame], Idle) else ([], p)
  }

  ghost function Feed(p: Parser, s: seq<Byte>, errors: bool): (r: (seq<Frame>, Parser))
    requires WellFormed(p) && !p.Received?
    ensures WellFormed(r.1) && !r.1.Received?
    decreases |s|
  {
    if s == [] then ([], p)
    else
      StepHolds(p, s[0], errors);
      var (out, q) := Take(Step(p, s[0], errors));
      var (rest, end) := Feed(q, s[1..], errors);
      (out + rest, end)
  }

  lemma {:induction false} FeedAppends(p: Parser, s: seq<Byte>, t: seq<Byte>, errors: bool)
    requires WellFormed(p) && !p.Received?
    ensures var (out, q) := Feed(p, s, errors);
            var (out', q') := Feed(q, t, errors);
            Feed(p, s + t, errors) == (out + out', q')
    decreases |s|
  {
    hide Step;
    if s == [] {
      assert s + t == t;
      assert [] + Feed(p, t, errors).0 == Feed(p, t, errors).0;
    } else {
      assert (s + t)[0] == s[0] && (s + t)[1..] == s[1..] + t;
      StepHolds(p, s[0], errors);
      var (out, q) := Take(Step(p, s[0], errors));
      FeedAppends(q, s[1..], t, errors);
      var (a, q1) := Feed(q, s[1..], errors);
      var (b, q2) := Feed(q1, t, errors);
      assert out + (a + b) == out + a + b;
    }
  }

  /** One more byte at the end of a stream. */
  lemma {:induction false} FeedOneMore(p: Parser, s: seq<Byte>, c: Byte, errors: bool)
    requires WellFormed(p) && !p.Received?
    ensures var (out, q) := Feed(p, s, errors);
            var (more, q') := Take(Step(q, c, errors));
            Feed(p, s + [c], errors) == (out + more, q')
  {
    hide Step, WellFormed;
    var q := Feed(p, s, errors).1;
    StepHolds(q, c, errors);
    FeedAppends(p, s, [c], errors);
    var (more, q') := Take(Step(q, c, errors));
    assert [c][1..] == [] && more + [] == more;
    WellFormedTake(q, c, errors);
    assert Feed(q', [], errors) == ([], q');
    assert Feed(q, [c], errors) == (more, q');
  }

  lemma WellFormedTake(p: Parser, c: Byte, errors: bool)
    requires WellFormed(p) && !p.Received?
    ensures WellFormed(Take(Step(p, c, errors)).1) && !Take(Step(p, c, errors)).1.Received?
  {
    StepHolds(p, c, errors);
  }
}
