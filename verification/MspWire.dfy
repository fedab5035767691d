/** MSP frames byte by byte. */
module MspWire {
  import opened Bytes
  import opened MspProtocol
  import MspTheorems

  /** How many bytes have the `k`-th bit. */
  function Ones(s: seq<Byte>, k: nat): nat {
    if s == [] then 0 else Ones(s[..|s| - 1], k) + Bit(s[|s| - 1], k)
  }

  /** The version 1 checksum has even parity with all it covers, in every bit. */
  lemma {:induction false} ChecksumParity(s: seq<Byte>, k: nat)
    requires k < 8
    ensures Bit(Sum(V1, 0, s), k) == Ones(s, k) % 2
    decreases |s|
  {
    hide Xor, Bit, Sum;
    if s == [] {
      SumOfNothing(V1);
      NoBits(k);
    } else {
      var t, b := s[..|s| - 1], s[|s| - 1];
      assert s == t + [b];
      ChecksumParity(t, k);
      SumOne(V1, 0, t, b);
      BitOfXor(Sum(V1, 0, t), b, k);
    }
  }

  lemma {:induction false} BitOfXor(a: Byte, b: Byte, k: nat)
    requires k < 8
    ensures Bit(Xor(a, b), k) == (Bit(a, k) + Bit(b, k)) % 2
  {
    XorBitAt(a, b, 8, k);
  }

  lemma {:induction false} NoBits(k: nat)
    ensures Bit(0, k) == 0
  {
    if k > 0 { NoBits(k - 1); }
  }

  /** A version 1 frame: `$M`, kind, length, command, payload, and a byte that makes every bit even. */
  lemma V1Bytes(f: Frame) returns (sum: Byte)
    requires f.version == V1 && |f.payload| < 256 && f.cmd < 256
    ensures Encode(f) == [36, 77, f.kind, |f.payload|, f.cmd] + f.payload + [sum]
    ensures forall k :: 0 <= k < 8 ==> Bit(sum, k) == Ones([|f.payload|, f.cmd] + f.payload, k) % 2
  {
    hide Sum, Ones, Bit;
    var body := [|f.payload|, f.cmd] + f.payload;
    sum := Sum(V1, 0, body);
    assert Header(f) + f.payload == body;
    forall k | 0 <= k < 8 ensures Bit(sum, k) == Ones(body, k) % 2 { ChecksumParity(body, k); }
  }

  /** A version 2 frame: `$X`, kind, flags, command and length with the low byte first, payload, CRC. */
  lemma V2Bytes(f: Frame) returns (crc: Byte)
    requires f.version == V2 && |f.payload| < 65536 && f.cmd < 65536
    ensures Encode(f) == [36, 88, f.kind, f.flags, f.cmd % 256, f.cmd / 256, |f.payload| % 256, |f.payload| / 256] +
                         f.payload + [crc]
    ensures CrcOver(crc, [f.flags, f.cmd % 256, f.cmd / 256, |f.payload| % 256, |f.payload| / 256] + f.payload)
  {
    hide Sum;
    var body := [f.flags, f.cmd % 256, f.cmd / 256, |f.payload| % 256, |f.payload| / 256] + f.payload;
    crc := Sum(V2, 0, body);
    assert Header(f) + f.payload == body;
    CrcChain(body);
  }

  /** The CRC that starts at zero and takes in one byte after the other. */
  ghost predicate CrcOver(crc: Byte, s: seq<Byte>)
    decreases |s|
  {
    if s == [] then crc == 0
    else exists before: Byte {:trigger Crc(before, s[|s| - 1])} ::
      CrcOver(before, s[..|s| - 1]) && crc == Crc(before, s[|s| - 1])
  }

  lemma {:induction false} CrcChain(s: seq<Byte>)
    ensures CrcOver(Sum(V2, 0, s), s)
    decreases |s|
  {
    hide Crc, Sum;
    if s == [] {
      SumOfNothing(V2);
    } else {
      var t, b := s[..|s| - 1], s[|s| - 1];
      assert s == t + [b];
      CrcChain(t);
      SumOne(V2, 0, t, b);
      CrcOneMore(Sum(V2, 0, t), t, b);
    }
  }

  lemma {:induction false} CrcOneMore(crc: Byte, s: seq<Byte>, b: Byte)
    requires CrcOver(crc, s)
    ensures CrcOver(Crc(crc, b), s + [b])
  {
    hide Crc;
    var all := s + [b];
    assert all[..|all| - 1] == s && all[|all| - 1] == b;
    assert CrcOver(crc, all[..|all| - 1]) && Crc(crc, b) == Crc(crc, all[|all| - 1]);
  }

  /** The request for the name of the firmware variant, in both versions, as any MSP tool sends it. */
  lemma VariantRequest()
    ensures Encode(Frame(V1, 60, 0, 2, [])) == [0x24, 0x4D, 0x3C, 0x00, 0x02, 0x02]
  {
    hide Xor;
    var f := Frame(V1, 60, 0, 2, []);
    assert Header(f) + f.payload == [0, 2] == [] + [0] + [2];
    SumOfNothing(V1);
    SumOne(V1, 0, [], 0);
    SumOne(V1, 0, [] + [0], 2);
    XorIsGroup(0, 0, 0);
    XorIsGroup(2, 0, 0);
  }
}
