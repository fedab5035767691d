/** The GPS driver's UBX code in place: the parser that fills a message byte by byte, and the request
    builder and framer for messages of variable length. */
module UbxFirmware {
  import opened Bytes
  import opened Ubx

  const PAYLOAD_SIZE: nat := 512
  const REQUEST_SIZE: nat := 72
  const FRAME_DATA_SIZE: nat := 80

  datatype Status = StIdle | StSync | StClass | StId | StLen0 | StLen1 | StPayload | StCrc0 | StCrc1 | StReady

  class UbxMessage {
    var msgId: nat
    var length: nat
    const payload: array<Byte>
    var crc: nat
    var status: Status
    var written: nat

    constructor ()
      ensures Valid() && fresh(payload) && View() == Idle
    {
      msgId, length, crc, written, status := 0, 0, 0, 0, StIdle;
      payload := new Byte[PAYLOAD_SIZE](_ => 0);
    }

    ghost predicate Shape()
      reads this
    {
      payload.Length == PAYLOAD_SIZE && written <= MAX_LENGTH && msgId < 65536 && length < 65536 &&
      (status in {StId, StLen1} ==> (if status == StId then msgId else length) < 256) &&
      (status in {StCrc0, StCrc1, StReady} ==> length == written) &&
      (status in {StSync, StClass, StId, StLen0, StLen1} ==> written == 0) &&
      (status == StCrc1 ==> crc < 256)
    }

    ghost predicate Valid()
      reads this, payload
    {
      Shape() && WellFormed(View())
    }

    /** The parser state that this message stands for. */
    ghost function View(): Parser
      requires Shape()
      reads this, payload
    {
      var body := payload[..written];
      match status
      case StIdle => Idle
      case StSync => Sync
      case StClass => Class
      case StId => Id(msgId)
      case StLen0 => Len0(msgId)
      case StLen1 => Len1(msgId, length)
      case StPayload => Payload(msgId, length, body)
      case StCrc0 => Crc0(msgId, body)
      case StCrc1 => Crc1(msgId, body, crc)
      case StReady => Ready(Message(msgId, body))
    }

    /** `UbxMessage::checksum`: header fields first, then the payload in a loop. */
    method Checksum() returns (f: Fletcher)
      requires Shape() && length <= PAYLOAD_SIZE
      ensures f == Fold(ZERO, Covered(Message(msgId, payload[..length])))
    {
      hide Add, Fold;
      ghost var head := [Low(msgId), High(msgId), Low(length), High(length)];
      f := SumHeader(msgId, length);
      assert head + payload[..0] == head;
      for i := 0 to length
        invariant f == Fold(ZERO, head + payload[..i])
      {
        FoldOne(ZERO, head + payload[..i], payload[i]);
        assert head + payload[..i + 1] == head + payload[..i] + [payload[i]];
        f := Add(f, payload[i]);
      }
    }

    /** `UbxParser::parse`: one byte moves the message as one step of the parser; the payload index
        stays in bounds for every stream. */
    method Parse(c: Byte)
      requires Valid()
      modifies this, payload
      ensures Valid() && View() == Step(old(View()), c)
    {
      hide Step, WellFormed;
      match status
      case StReady => Begin(c);
      case StIdle => Begin(c);
      case StPayload => ParsePayload(c);
      case StCrc0 => ParseChecksum(c);
      case StCrc1 => ParseChecksum(c);
      case _ => ParseHeader(c);
    }

    method ParseHeader(c: Byte)
      requires Valid() && status in {StSync, StClass, StId, StLen0, StLen1}
      modifies this
      ensures Valid() && View() == Step(old(View()), c)
    {
      hide Low, High, Fold;
      assert payload[..0] == [];
      match status
      case StSync => status := if c == SYNC1 then StClass else StIdle;
      case StClass => msgId, status := c, StId;
      case StId => msgId, status := msgId + 256 * c, StLen0;
      case StLen0 => length, status := c, StLen1;
      case StLen1 =>
        length := length + 256 * c;
        status := if length == 0 then StCrc0 else if length >= 511 then StIdle else StPayload;
    }

    method ParseChecksum(c: Byte)
      requires Valid() && status in {StCrc0, StCrc1}
      modifies this
      ensures Valid() && View() == Step(old(View()), c)
    {
      hide Low, High, Fold, Covered;
      if status == StCrc0 {
        crc, status := c, StCrc1;
      } else {
        var sum := Checksum();
        status := if crc == sum.a && c == sum.b then StReady else StIdle;
        crc := crc + 256 * c;
      }
    }

    method Begin(c: Byte)
      requires Valid() && (status == StReady || status == StIdle)
      modifies this
      ensures Valid() && View() == Step(old(View()), c)
    {
      if c == SYNC0 {
        msgId, length, written, crc := 0, 0, 0, 0;
        status := StSync;
      } else {
        status := StIdle;
      }
    }

    method ParsePayload(c: Byte)
      requires Valid() && status == StPayload
      modifies this, payload
      ensures Valid() && View() == Step(old(View()), c)
    {
      if written < 511 {
        payload[written] := c;
        written := written + 1;
      }
      assert payload[..written] == old(payload[..written]) + [c];
      if written == length {
        status := StCrc0;
      }
    }
  }

  /** The sum over id and length, low bytes first. */
  method SumHeader(id: nat, length: nat) returns (f: Fletcher)
    ensures f == Fold(ZERO, [Low(id), High(id), Low(length), High(length)])
  {
    hide Add, Low, High;
    f := Add(Add(Add(Add(ZERO, Low(id)), High(id)), Low(length)), High(length));
    assert [Low(id), High(id), Low(length), High(length)] == [] + [Low(id)] + [High(id)] + [Low(length)] + [High(length)];
    FoldOne(ZERO, [], Low(id));
    FoldOne(ZERO, [] + [Low(id)], High(id));
    FoldOne(ZERO, [] + [Low(id)] + [High(id)], Low(length));
    FoldOne(ZERO, [] + [Low(id)] + [High(id)] + [Low(length)], High(length));
  }

  /** `ubxChecksum` over `len` bytes of a buffer. */
  method SumBytes(data: array<Byte>, start: nat, len: nat) returns (f: Fletcher)
    requires start + len <= data.Length
    ensures f == Fold(ZERO, data[start..start + len])
  {
    hide Add;
    f := ZERO;
    assert data[start..start] == [];
    for i := 0 to len
      invariant f == Fold(ZERO, data[start..start + i])
    {
      assert data[start..start + i + 1] == data[start..start + i] + [data[start + i]];
      FoldOne(ZERO, data[start..start + i], data[start + i]);
      f := Add(f, data[start + i]);
    }
  }

  class UbxRequest {
    const msgId: nat
    var length: nat
    const payload: array<Byte>

    ghost predicate Valid()
      reads this
    {
      payload.Length == REQUEST_SIZE && length <= REQUEST_SIZE - 2 && msgId < 65536
    }

    ghost function Contents(): Message
      requires Valid()
      reads this, payload
    {
      Message(msgId, payload[..length])
    }

    constructor (msgId: nat)
      requires msgId < 65536
      ensures Valid() && fresh(payload) && Contents() == Message(msgId, [])
    {
      this.msgId := msgId;
      length := 0;
      payload := new Byte[REQUEST_SIZE](_ => 0);
    }

    /** Appends all of `buff`, or nothing when it does not fit. */
    method Write(buff: seq<Byte>) returns (n: nat)
      requires Valid()
      modifies this`length, payload
      ensures Valid()
      ensures n == if old(length) + |buff| > 70 then 0 else |buff|
      ensures Contents().payload == old(Contents().payload) + buff[..n]
    {
      if length + |buff| > REQUEST_SIZE - 2 {
        return 0;
      }
      forall i | 0 <= i < |buff| {
        payload[length + i] := buff[i];
      }
      length := length + |buff|;
      return |buff|;
    }
  }

  /** Sync bytes, id and length. */
  method FillHeader(id: nat, length: nat, data: array<Byte>)
    requires data.Length == FRAME_DATA_SIZE + 2
    modifies data
    ensures data[..6] == [SYNC0, SYNC1] + [Low(id), High(id), Low(length), High(length)]
  {
    hide Low, High;
    data[0], data[1] := SYNC0, SYNC1;
    data[2], data[3] := Low(id), High(id);
    data[4], data[5] := Low(length), High(length);
  }

  /** Sync bytes, id, length and payload of a request. */
  method FillFrame(m: UbxRequest, data: array<Byte>)
    requires m.Valid() && data.Length == FRAME_DATA_SIZE + 2 && data != m.payload
    modifies data
    ensures m.length + 8 <= data.Length
    ensures data[..m.length + 6] == [SYNC0, SYNC1] + Covered(m.Contents())
  {
    hide Low, High;
    FillHeader(m.msgId, m.length, data);
    ghost var head := data[..6];
    for i := 0 to m.length
      invariant data[..6] == head
      invariant data[6..6 + i] == m.payload[..i]
    {
      data[6 + i] := m.payload[i];
      assert data[6..6 + i + 1] == data[6..6 + i] + [data[6 + i]];
    }
    assert data[..m.length + 6] == head + data[6..6 + m.length];
  }

  /** `UbxFrame<UbxRequest>`: the bytes that are sent for a request, in a buffer that always has room. */
  method FrameRequest(m: UbxRequest) returns (data: array<Byte>, size: nat)
    requires m.Valid()
    ensures fresh(data) && data.Length == 82 && size == |m.Contents().payload| + 8 <= data.Length
    ensures data[..size] == Encode(m.Contents())
    ensures m.Contents().Fits()
  {
    hide Fold, Covered;
    data := new Byte[FRAME_DATA_SIZE + 2](_ => 0);
    FillFrame(m, data);
    var n := m.length + 6;
    ghost var filled := data[..n];
    var f := SumBytes(data, 2, m.length + 4);
    assert data[2..n] == filled[2..] == Covered(m.Contents());
    data[n] := f.a;
    data[n + 1] := f.b;
    size := n + 2;
    assert data[..n] == filled;
    assert data[..size] == filled + [f.a, f.b];
  }
}
