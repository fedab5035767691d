/** The firmware's side of MSP: the parser that fills a message in place, the serializer that fills
    a byte buffer, and the receive loop around them. */
module MspFirmware {
  import opened Bytes
  import opened MspProtocol
  import MspTheorems

  const MSP_BUF_OUT_SIZE: nat := 240

  /** The message's flags field after one more byte. */
  function FlagsAfter(p: Parser, flags: Byte, c: Byte): Byte {
    if p.Head? && p.version == V2 && |p.head| == 4 && Word(p.head[3], c) <= MSP_BUF_SIZE then p.head[0] else flags
  }

  class MspMessage {
    var state: State
    var isReply: bool
    var version: Version
    var flags: Byte
    var cmd: nat
    var expected: nat
    var received: nat
    var checksum: Byte
    var checksum2: Byte
    const buffer: array<Byte>

    constructor ()
      ensures Valid() && fresh(buffer) && View() == Idle
    {
      state, isReply, version := StIdle, false, V1;
      flags, cmd, expected, received, checksum, checksum2 := 0, 0, 0, 0, 0, 0;
      buffer := new Byte[MSP_BUF_SIZE](_ => 0);
    }

    ghost predicate Shape()
      reads this
    {
      buffer.Length == MSP_BUF_SIZE && received <= MSP_BUF_SIZE &&
      (state in {HeaderM, HeaderV1, PayloadV1, ChecksumV1} ==> version == V1) &&
      (state in {HeaderX, HeaderV2, PayloadV2, ChecksumV2} ==> version == V2) &&
      (state in {HeaderM, HeaderX} ==> received == 0 && checksum == 0 && checksum2 == 0)
    }

    ghost predicate Valid()
      reads this, buffer
    {
      Shape() && WellFormed(View())
    }

    function Kind(): Byte
      reads this
    {
      if isReply then REPLY else COMMAND
    }

    /** The recogniser state that this message stands for. */
    ghost function View(): Parser
      requires Shape()
      reads this, buffer
    {
      var body := buffer[..received];
      match state
      case StIdle => Idle
      case HeaderStart => Start
      case HeaderM => Type(V1)
      case HeaderX => Type(V2)
      case HeaderV1 => Head(V1, Kind(), body, checksum)
      case HeaderV2 => Head(V2, Kind(), body, checksum2)
      case PayloadV1 => Body(V1, Kind(), 0, cmd, expected, body, checksum)
      case PayloadV2 => Body(V2, Kind(), flags, cmd, expected, body, checksum2)
      case ChecksumV1 => Check(V1, Kind(), 0, cmd, body, checksum)
      case ChecksumV2 => Check(V2, Kind(), flags, cmd, body, checksum2)
      case StReceived => Parser.Received(Frame(version, Kind(), if version == V1 then 0 else flags, cmd, body))
    }

    /** `MspParser::parse`: one byte moves the message as one step of the recogniser.  The flags change
        with a complete version 2 header only; a version 1 message leaves them as they are. */
    method Parse(c: Byte)
      requires Valid()
      modifies this, buffer
      ensures Valid() && View() == Step(old(View()), c, false)
      ensures flags == FlagsAfter(old(View()), old(flags), c)
      ensures var p := old(View());
              var complete := p.Head? && p.version == V2 && |p.head| == 4 && p.head[3] + 256 * c <= 192;
              flags == if complete then p.head[0] else old(flags)
    {
      hide Xor, Crc, Sum, Header, Held;
      ghost var p := View();
      if !p.Received? { StepHolds(p, c, false); }
      match state
      case StIdle =>
        if c == DOLLAR { state := HeaderStart; }
      case HeaderStart =>
        received, checksum, checksum2 := 0, 0, 0;
        if c == LETTER_M {
          version, state := V1, HeaderM;
        } else if c == LETTER_X {
          version, state := V2, HeaderX;
        } else {
          state := StIdle;
        }
      case HeaderM => ParseType(c, HeaderV1);
      case HeaderX => ParseType(c, HeaderV2);
      case HeaderV1 => ParseHeaderV1(c);
      case HeaderV2 => ParseHeaderV2(c);
      case PayloadV1 => ParsePayload(c, ChecksumV1);
      case PayloadV2 => ParsePayload(c, ChecksumV2);
      case ChecksumV1 => state := if checksum == c then StReceived else StIdle;
      case ChecksumV2 => state := if checksum2 == c then StReceived else StIdle;
      case StReceived =>
    }

    method ParseType(c: Byte, next: State)
      requires Valid() && ((state == HeaderM && next == HeaderV1) || (state == HeaderX && next == HeaderV2))
      modifies this
      ensures Valid() && View() == Step(old(View()), c, false)
      ensures flags == old(flags)
    {
      ghost var p := View();
      StepHolds(p, c, false);
      assert buffer[..0] == [];
      if c == REPLY {
        isReply, state := true, next;
      } else if c == COMMAND {
        isReply, state := false, next;
      } else {
        state := StIdle;
      }
    }

    /** `buffer[received++] = c` */
    method Push(c: Byte)
      requires buffer.Length == MSP_BUF_SIZE && received < MSP_BUF_SIZE
      modifies this`received, buffer
      ensures received == old(received) + 1 && buffer[..received] == old(buffer[..received]) + [c]
    {
      buffer[received] := c;
      received := received + 1;
    }

    method ParseHeaderV1(c: Byte)
      requires Valid() && state == HeaderV1
      modifies this, buffer
      ensures Valid() && View() == Step(old(View()), c, false)
      ensures flags == old(flags)
    {
      hide Xor, Sum, WellFormed, Held;
      ghost var p := View();
      RoomForByte(p);
      StepHolds(p, c, false);
      Push(c);
      checksum := Xor(checksum, c);
      if received == 2 {
        assert buffer[..0] == [];
        if buffer[0] > MSP_BUF_SIZE {
          state := StIdle;
        } else {
          expected := buffer[0];
          cmd := buffer[1];
          received := 0;
          state := if expected > 0 then PayloadV1 else ChecksumV1;
        }
      }
    }

    method ParseHeaderV2(c: Byte)
      requires Valid() && state == HeaderV2
      modifies this, buffer
      ensures Valid() && View() == Step(old(View()), c, false)
      ensures flags == FlagsAfter(old(View()), old(flags), c)
    {
      hide Crc, Sum, WellFormed, Held, Header, Encode, Low, High, Word;
      ghost var p := View();
      RoomForByte(p);
      StepHolds(p, c, false);
      Push(c);
      checksum2 := Crc8DvbS2(checksum2, c);
      if received == 5 {
        assert buffer[..0] == [];
        var size := Word(buffer[3], buffer[4]);
        if size > MSP_BUF_SIZE {
          state := StIdle;
        } else {
          flags := buffer[0];
          cmd := Word(buffer[1], buffer[2]);
          expected := size;
          received := 0;
          state := if expected > 0 then PayloadV2 else ChecksumV2;
        }
      }
    }

    method ParsePayload(c: Byte, next: State)
      requires Valid() && ((state == PayloadV1 && next == ChecksumV1) || (state == PayloadV2 && next == ChecksumV2))
      modifies this, buffer
      ensures Valid() && View() == Step(old(View()), c, false)
      ensures flags == old(flags)
    {
      hide Xor, Crc, Sum, WellFormed, Held;
      ghost var p := View();
      RoomForByte(p);
      StepHolds(p, c, false);
      Push(c);
      if version == V1 {
        checksum := Xor(checksum, c);
      } else {
        checksum2 := Crc8DvbS2(checksum2, c);
      }
      if received == expected {
        state := next;
      }
    }

    /** `ss.mspRequest = {}` */
    method Reset()
      modifies this
      ensures state == StIdle && (buffer.Length == MSP_BUF_SIZE ==> Valid())
    {
      state, isReply, version := StIdle, false, V1;
      flags, cmd, expected, received, checksum, checksum2 := 0, 0, 0, 0, 0, 0;
    }
  }

  /** The receive loop of the serial manager: every ready message is taken away and the parser reset;
      a byte that leaves the parser idle goes to the command line. */
  method Receive(m: MspMessage, s: seq<Byte>) returns (frames: seq<Frame>, cli: seq<Byte>)
    requires m.Valid() && !m.View().Received?
    modifies m, m.buffer
    ensures m.Valid() && !m.View().Received?
    ensures (frames, m.View()) == Feed(old(m.View()), s, false)
    ensures cli == MspTheorems.Passed(old(m.View()), s, false)
  {
    hide Step, Feed, WellFormed, MspTheorems.Passed, FlagsAfter;
    frames, cli := [], [];
    ghost var start := m.View();
    FeedNothing(start);
    assert s[..0] == [];
    for i := 0 to |s|
      invariant m.Valid() && !m.View().Received?
      invariant Feed(start, s[..i], false) == (frames, m.View())
      invariant cli == MspTheorems.Passed(start, s[..i], false)
    {
      FeedOneMore(start, s[..i], s[i], false);
      MspTheorems.PassedOneMore(start, s[..i], s[i], false);
      assert s[..i + 1] == s[..i] + [s[i]];
      var ready, f := ReceiveByte(m, s[i]);
      if m.state == StIdle && !ready {
        cli := cli + [s[i]];
      }
      if ready {
        frames := frames + [f];
      } else {
        assert frames + [] == frames;
      }
    }
    assert s[..|s|] == s;
  }

  /** One byte of the receive loop. */
  method ReceiveByte(m: MspMessage, c: Byte) returns (ready: bool, f: Frame)
    requires m.Valid() && !m.View().Received?
    modifies m, m.buffer
    ensures m.Valid() && !m.View().Received?
    ensures var q := Step(old(m.View()), c, false);
            ready == q.Received? && m.View() == (if ready then Idle else q) && (ready ==> f == q.frame) &&
            (m.state == StIdle && !ready <==> q.Idle?)
  {
    hide Step, WellFormed, FlagsAfter;
    m.Parse(c);
    ready := m.state == StReceived;
    f := Frame(m.version, m.Kind(), if m.version == V1 then 0 else m.flags, m.cmd, m.buffer[..m.received]);
    if ready {
      m.Reset();
    }
  }

  lemma {:induction false} FeedNothing(p: Parser)
    requires WellFormed(p) && !p.Received?
    ensures Feed(p, [], false) == ([], p) && MspTheorems.Passed(p, [], false) == []
  {}

  class MspResponse {
    var version: Version
    var cmd: nat
    var result: int
    var len: nat
    const data: array<Byte>

    ghost predicate Valid()
      reads this
    {
      data.Length == MSP_BUF_OUT_SIZE && len <= MSP_BUF_OUT_SIZE && cmd < 65536
    }

    /** The frame that this response is sent as. */
    ghost function Sent(): Frame
      requires Valid()
      reads this, data
    {
      Frame(version, if result == -1 then FAILURE else REPLY, 0, cmd, data[..len])
    }

    constructor (version: Version, cmd: nat)
      requires cmd < 65536
      ensures Valid() && fresh(data) && Sent() == Frame(version, REPLY, 0, cmd, [])
    {
      this.version, this.cmd, this.result, this.len := version, cmd, 0, 0;
      data := new Byte[MSP_BUF_OUT_SIZE](_ => 0);
    }

    /** Bytes beyond the capacity are dropped. */
    method WriteU8(v: Byte)
      requires Valid()
      modifies this`len, data
      ensures Valid()
      ensures Sent() == old(Sent()).(payload :=
        if old(len) < 240 then old(Sent().payload) + [v] else old(Sent().payload))
    {
      if len >= MSP_BUF_OUT_SIZE {
        return;
      }
      data[len] := v;
      len := len + 1;
    }

    method SerializeV1(buff: array<Byte>) returns (n: nat)
      requires Valid() && version == V1 && buff != data
      modifies buff
      ensures n == if len + 6 > buff.Length then 0 else len + 6
      ensures n > 0 ==> buff[..n] == Encode(Sent()) && buff[2] == if result == -1 then 33 else 62
      ensures n == 0 ==> buff[..] == old(buff[..])
    {
      hide Sum, Header;
      if len + 6 > buff.Length {
        return 0;
      }
      var sum := WriteHeaderV1(buff);
      n := CopyPayload(buff, 5, V1, sum, Header(Sent()));
    }

    method WriteHeaderV1(buff: array<Byte>) returns (sum: Byte)
      requires Valid() && version == V1 && buff != data && buff.Length >= 5
      modifies buff
      ensures buff[..5] == [DOLLAR, LETTER_M, Sent().kind] + Header(Sent()) && sum == Sum(V1, 0, Header(Sent()))
    {
      hide Xor, Sum, Low;
      buff[0] := DOLLAR;
      buff[1] := LETTER_M;
      buff[2] := if result == -1 then FAILURE else REPLY;
      buff[3] := Low(len);
      buff[4] := Low(cmd);
      SumOfTwo(buff[3], buff[4]);
      sum := Xor(Xor(0, buff[3]), buff[4]);
    }

    static lemma SumOfTwo(a: Byte, b: Byte)
      ensures Sum(V1, 0, [a, b]) == Xor(Xor(0, a), b)
    {
      hide Xor, Sum;
      SumOfNothing(V1);
      SumOne(V1, 0, [], a);
      assert [] + [a] == [a] && [a] + [b] == [a, b];
      SumOne(V1, 0, [a], b);
    }

    method SerializeV2(buff: array<Byte>) returns (n: nat)
      requires Valid() && version == V2 && buff != data
      modifies buff
      ensures n == if len + 9 > buff.Length then 0 else len + 9
      ensures n > 0 ==> buff[..n] == Encode(Sent()) && buff[2] == if result == -1 then 33 else 62
      ensures n == 0 ==> buff[..] == old(buff[..])
    {
      hide Sum, Header;
      if len + 9 > buff.Length {
        return 0;
      }
      WriteHeaderV2(buff);
      var sum := SumHeaderV2(buff, Header(Sent()));
      n := CopyPayload(buff, 8, V2, sum, Header(Sent()));
    }

    method WriteHeaderV2(buff: array<Byte>)
      requires Valid() && version == V2 && buff != data && buff.Length >= 8
      modifies buff
      ensures buff[..8] == [DOLLAR, LETTER_X, Sent().kind] + Header(Sent()) && |Header(Sent())| == 5
    {
      hide Low, High;
      buff[0] := DOLLAR;
      buff[1] := LETTER_X;
      buff[2] := if result == -1 then FAILURE else REPLY;
      buff[3] := 0;
      buff[4] := Low(cmd);
      buff[5] := High(cmd);
      buff[6] := Low(len);
      buff[7] := High(len);
    }

    /** The checksum loop over the five header bytes. */
    static method SumHeaderV2(buff: array<Byte>, ghost body: seq<Byte>) returns (sum: Byte)
      requires buff.Length >= 8 && |body| == 5 && buff[3..8] == body
      ensures sum == Sum(V2, 0, body)
    {
      hide Crc, Sum;
      sum := 0;
      SumOfNothing(V2);
      assert body[..0] == [];
      for i := 0 to 5
        invariant sum == Sum(V2, 0, body[..i])
      {
        assert buff[3..8][i] == body[i];
        assert body[..i + 1] == body[..i] + [body[i]];
        SumOne(V2, 0, body[..i], body[i]);
        sum := Crc8DvbS2(sum, buff[3 + i]);
      }
      assert body[..5] == body;
    }

    /** The loop that copies the payload, sums it and appends the checksum. */
    method CopyPayload(buff: array<Byte>, start: nat, v: Version, sum0: Byte, ghost body: seq<Byte>) returns (n: nat)
      requires Valid() && buff != data && start + len + 1 <= buff.Length
      requires sum0 == Sum(v, 0, body)
      modifies buff
      ensures n == start + len + 1
      ensures buff[..n] == old(buff[..start]) + data[..len] + [Sum(v, 0, body + data[..len])]
    {
      hide Xor, Crc, Sum;
      var i, sum := start, sum0;
      assert body + data[..0] == body;
      for j := 0 to len
        invariant i == start + j
        invariant buff[..i] == old(buff[..start]) + data[..j]
        invariant sum == Sum(v, 0, body + data[..j])
      {
        assert body + data[..j + 1] == body + data[..j] + [data[j]];
        SumOne(v, 0, body + data[..j], data[j]);
        if v == V1 {
          sum := Xor(sum, data[j]);
        } else {
          sum := Crc8DvbS2(sum, data[j]);
        }
        buff[i] := data[j];
        i := i + 1;
      }
      buff[i] := sum;
      return i + 1;
    }
  }
}
