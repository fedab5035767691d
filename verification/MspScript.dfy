/** The debug script's side of MSP (bin/msp.py): a parser that also takes error frames and keeps the
    raw bytes, and the request builder. */
module MspScript {
  import opened Bytes
  import opened MspProtocol
  import MspTheorems
  import opened Options

  datatype ParsedFrame = ParsedFrame(frame: Frame, raw: seq<Byte>)

  class MspParser {
    var state: State
    var version: Version
    var frameType: Byte
    var flags: Byte
    var cmd: nat
    var expected: nat
    var received: nat
    var checksum: Byte
    var checksum2: Byte
    var buffer: seq<Byte>
    var raw: seq<Byte>

    constructor ()
      ensures Valid() && View() == Idle
    {
      state, version, frameType, flags, cmd := StIdle, V1, 0, 0, 0;
      expected, received, checksum, checksum2 := 0, 0, 0, 0;
      buffer, raw := [], [];
    }

    ghost predicate Valid()
      reads this
    {
      state != StReceived && received == |buffer| &&
      (state in {HeaderM, HeaderV1, PayloadV1, ChecksumV1} ==> version == V1) &&
      (state in {HeaderX, HeaderV2, PayloadV2, ChecksumV2} ==> version == V2) &&
      (state in {HeaderM, HeaderX} ==> buffer == [] && checksum == 0 && checksum2 == 0) &&
      WellFormed(View()) && raw == Held(View())
    }

    ghost function View(): Parser
      reads this
    {
      match state
      case HeaderStart => Start
      case HeaderM => Type(V1)
      case HeaderX => Type(V2)
      case HeaderV1 => Head(V1, frameType, buffer, checksum)
      case HeaderV2 => Head(V2, frameType, buffer, checksum2)
      case PayloadV1 => Body(V1, frameType, 0, cmd, expected, buffer, checksum)
      case PayloadV2 => Body(V2, frameType, flags, cmd, expected, buffer, checksum2)
      case ChecksumV1 => Check(V1, frameType, 0, cmd, buffer, checksum)
      case ChecksumV2 => Check(V2, frameType, flags, cmd, buffer, checksum2)
      case _ => Idle
    }

    method Reset()
      modifies this
      ensures Valid() && View() == Idle
    {
      state, version, frameType, flags, cmd := StIdle, V1, 0, 0, 0;
      expected, received, checksum, checksum2 := 0, 0, 0, 0;
      buffer, raw := [], [];
    }

    /** What feeding one byte must do: a received frame is returned with its raw bytes, which are
        exactly its encoding, and the parser starts anew. */
    ghost predicate Fed(p: Parser, c: Byte, r: Option<ParsedFrame>)
      reads this
    {
      var (out, q) := Take(Step(p, c, true));
      Valid() && View() == q &&
      (if out == [] then r == None else r.Some? && r.value.frame == out[0] && r.value.raw == Encode(out[0]))
    }

    method Feed(c: Byte) returns (r: Option<ParsedFrame>)
      requires Valid()
      modifies this
      ensures Fed(old(View()), c, r)
    {
      hide SumStep, Sum, Header, WellFormed, Held, AfterHead;
      r := None;
      StepHolds(View(), c, true);
      match state
      case StIdle =>
        HeldAtStart();
        if c == DOLLAR {
          raw := [c];
          state := HeaderStart;
        }
      case HeaderStart => FeedLetter(c);
      case HeaderM => FeedType(c, HeaderV1);
      case HeaderX => FeedType(c, HeaderV2);
      case HeaderV1 => FeedHeaderV1(c);
      case HeaderV2 => FeedHeaderV2(c);
      case PayloadV1 => FeedPayload(c, ChecksumV1);
      case PayloadV2 => FeedPayload(c, ChecksumV2);
      case ChecksumV1 => r := FeedChecksum(c, checksum, 0);
      case ChecksumV2 => r := FeedChecksum(c, checksum2, flags);
    }

    static lemma HeldAtStart()
      ensures WellFormed(Start) && Held(Start) == [DOLLAR]
    {}

    method FeedLetter(c: Byte)
      requires Valid() && state == HeaderStart
      modifies this
      ensures Fed(old(View()), c, None)
    {
      hide Sum;
      received, checksum, checksum2 := 0, 0, 0;
      buffer := [];
      raw := raw + [c];
      if c == LETTER_M {
        version, state := V1, HeaderM;
      } else if c == LETTER_X {
        version, state := V2, HeaderX;
      } else {
        Reset();
      }
    }

    method FeedType(c: Byte, next: State)
      requires Valid() && ((state == HeaderM && next == HeaderV1) || (state == HeaderX && next == HeaderV2))
      modifies this
      ensures Fed(old(View()), c, None)
    {
      hide WellFormed, Held;
      ghost var p := View();
      StepHolds(p, c, true);
      raw := raw + [c];
      if c == REPLY || c == COMMAND || c == FAILURE {
        frameType, state := c, next;
        assert View() == Step(p, c, true);
      } else {
        Reset();
      }
    }

    method FeedHeaderV1(c: Byte)
      requires Valid() && state == HeaderV1
      modifies this
      ensures Fed(old(View()), c, None)
    {
      hide Xor, Sum, WellFormed, Held;
      ghost var p := View();
      RoomForByte(p);
      StepHolds(p, c, true);
      buffer := buffer + [c];
      raw := raw + [c];
      received := received + 1;
      checksum := Xor(checksum, c);
      if received == 2 {
        var size := buffer[0];
        if size > MSP_BUF_SIZE {
          Reset();
          return;
        }
        expected := size;
        cmd := buffer[1];
        received := 0;
        buffer := [];
        state := if expected > 0 then PayloadV1 else ChecksumV1;
      }
      assert View() == Step(p, c, true);
    }

    /** The recogniser's step inside a version 2 header. */
    static lemma HeaderStep(kind: Byte, h: seq<Byte>, sum: Byte, c: Byte)
      requires |h| < 5
      ensures Step(Head(V2, kind, h, sum), c, true) ==
                if |h| < 4 then Head(V2, kind, h + [c], Crc(sum, c))
                else if Word(h[3], c) > MSP_BUF_SIZE then Idle
                else if Word(h[3], c) > 0 then Body(V2, kind, h[0], Word(h[1], h[2]), Word(h[3], c), [], Crc(sum, c))
                else Check(V2, kind, h[0], Word(h[1], h[2]), [], Crc(sum, c))
    {
      hide Word, Crc;
    }

    /** The five header bytes are in: set up the payload, unless it is too long. */
    method BeginPayloadV2()
      requires state == HeaderV2 && |buffer| == 5
      modifies this
      ensures var h, size := old(buffer), Word(old(buffer[3]), old(buffer[4]));
              if size > MSP_BUF_SIZE then Valid() && View() == Idle
              else state == (if size > 0 then PayloadV2 else ChecksumV2) && buffer == [] && received == 0 &&
                   flags == h[0] && cmd == Word(h[1], h[2]) && expected == size && version == old(version) &&
                   frameType == old(frameType) && checksum2 == old(checksum2) && raw == old(raw)
    {
      hide Word, Sum;
      var size := Word(buffer[3], buffer[4]);
      if size > MSP_BUF_SIZE {
        Reset();
        return;
      }
      flags := buffer[0];
      cmd := Word(buffer[1], buffer[2]);
      expected := size;
      received := 0;
      buffer := [];
      state := if expected > 0 then PayloadV2 else ChecksumV2;
    }

    method FeedHeaderV2(c: Byte)
      requires Valid() && state == HeaderV2
      modifies this
      ensures Fed(old(View()), c, None)
    {
      hide Crc, Sum, WellFormed, Held, Word, Step;
      ghost var p := View();
      RoomForByte(p);
      StepHolds(p, c, true);
      HeaderStep(frameType, buffer, checksum2, c);
      buffer := buffer + [c];
      raw := raw + [c];
      received := received + 1;
      checksum2 := Crc8DvbS2(checksum2, c);
      if received == 5 {
        BeginPayloadV2();
      }
      assert View() == Step(p, c, true);
    }

    method FeedPayload(c: Byte, next: State)
      requires Valid() && ((state == PayloadV1 && next == ChecksumV1) || (state == PayloadV2 && next == ChecksumV2))
      modifies this
      ensures Fed(old(View()), c, None)
    {
      hide Xor, Crc, Sum, WellFormed, Held, Header, Encode, AfterHead, Low, High, Word;
      ghost var p := View();
      RoomForByte(p);
      StepHolds(p, c, true);
      buffer := buffer + [c];
      raw := raw + [c];
      received := received + 1;
      if version == V1 {
        checksum := Xor(checksum, c);
      } else {
        checksum2 := Crc8DvbS2(checksum2, c);
      }
      if received == expected {
        state := next;
      }
      assert View() == Step(p, c, true);
    }

    method FeedChecksum(c: Byte, sum: Byte, f: Byte) returns (r: Option<ParsedFrame>)
      requires Valid()
      requires (state == ChecksumV1 && sum == checksum && f == 0) || (state == ChecksumV2 && sum == checksum2 && f == flags)
      modifies this
      ensures Fed(old(View()), c, r)
    {
      hide SumStep, Sum, Header, WellFormed;
      ghost var p := View();
      StepHolds(p, c, true);
      raw := raw + [c];
      if sum != c {
        Reset();
        return None;
      }
      r := Some(ParsedFrame(Frame(version, frameType, f, cmd, buffer), raw));
      Reset();
    }
  }

  /** `build_request`: an empty v1 frame for one-byte commands, an empty v2 frame otherwise. */
  function BuildRequest(cmd: nat): seq<Byte>
    requires cmd < 65536
  {
    if cmd <= 0xFF then
      var header := [DOLLAR, LETTER_M, COMMAND, 0, cmd];
      header + [Xor(Xor(0, header[3]), header[4])]
    else
      var header := [DOLLAR, LETTER_X, COMMAND, 0, Low(cmd), High(cmd), 0, 0];
      header + [Sum(V2, 0, header[3..8])]
  }

  /** Both sides read a built request as that command with no payload. */
  lemma {:induction false} RequestIsUnderstood(cmd: nat, errors: bool)
    requires cmd < 65536
    ensures Feed(Idle, BuildRequest(cmd), errors) ==
            ([Frame(if cmd <= 0xFF then V1 else V2, COMMAND, 0, cmd, [])], Idle)
  {
    hide Encode, BuildRequest, Feed;
    if cmd <= 0xFF { ShortRequest(cmd); } else { LongRequest(cmd); }
    MspTheorems.RoundTrip(Frame(if cmd <= 0xFF then V1 else V2, COMMAND, 0, cmd, []), errors);
  }

  lemma ShortRequest(cmd: nat)
    requires cmd <= 0xFF
    ensures BuildRequest(cmd) == Encode(Frame(V1, COMMAND, 0, cmd, []))
  {
    hide Xor, Crc;
    var f := Frame(V1, COMMAND, 0, cmd, []);
    assert Header(f) + [] == Header(f) == [0, cmd];
    assert [0, cmd] == [] + [0] + [cmd];
    SumOfNothing(V1);
    SumOne(V1, 0, [], 0);
    SumOne(V1, 0, [] + [0], cmd);
  }

  lemma LongRequest(cmd: nat)
    requires 0xFF < cmd < 65536
    ensures BuildRequest(cmd) == Encode(Frame(V2, COMMAND, 0, cmd, []))
  {
    hide Xor, Crc, Sum;
    var f := Frame(V2, COMMAND, 0, cmd, []);
    assert Header(f) + [] == Header(f);
    assert [DOLLAR, LETTER_X, COMMAND, 0, Low(cmd), High(cmd), 0, 0][3..8] == Header(f);
  }
}
