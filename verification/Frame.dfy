/** Frames to the display boards: DLE STX, the payload with every DLE doubled, DLE ETX. */
module Frame {
  import opened GaloisField
  import opened Crc16

  const DLE: Byte := 0x10
  const STX: Byte := 0x02
  const ETX: Byte := 0x03

  /** The payload with every DLE doubled. */
  function Stuffed(payload: seq<Byte>): seq<Byte>
  {
    if payload == [] then []
    else Stuffed(payload[..|payload| - 1]) + StuffedByte(payload[|payload| - 1])
  }

  function StuffedByte(b: Byte): seq<Byte> { if b == DLE then [DLE, DLE] else [b] }

  function Framed(payload: seq<Byte>): seq<Byte> { [DLE, STX] + Stuffed(payload) + [DLE, ETX] }

  /** `uint8_t(1 << (id - 1))`: boards beyond the eighth have no bit left. */
  function DstMask(id: nat): Byte
    requires 1 <= id <= 32
  {
    match id
    case 1 => 0x01
    case 2 => 0x02
    case 3 => 0x04
    case 4 => 0x08
    case 5 => 0x10
    case 6 => 0x20
    case 7 => 0x40
    case 8 => 0x80
    case _ => 0x00
  }

  /** Builds a frame. The board number is one a shift is defined for. */
  method EncodeFrame(id: nat, command: Byte, extra: seq<Byte>) returns (frame: seq<Byte>)
    requires 1 <= id <= 32
    ensures frame == Framed(WithCrc([DstMask(id), command] + extra))
  {
    hide Crc, High, Low, DstMask, StuffedByte;
    var payload := [DstMask(id), command] + extra;
    var crc := ComputeCrc(payload);
    payload := payload + [High(crc)];
    payload := payload + [Low(crc)];
    assert payload == WithCrc([DstMask(id), command] + extra);
    frame := [DLE, STX];
    for k := 0 to |payload|
      invariant frame == [DLE, STX] + Stuffed(payload[..k])
    {
      assert payload[..k + 1][..k] == payload[..k];
      frame := frame + StuffedByte(payload[k]);
    }
    assert payload[..|payload|] == payload;
    frame := frame + [DLE];
    frame := frame + [ETX];
  }

  function CountDle(payload: seq<Byte>): nat
  {
    if payload == [] then 0
    else CountDle(payload[..|payload| - 1]) + (if payload[|payload| - 1] == DLE then 1 else 0)
  }

  /** A frame has four bytes more than its payload, and one more for each DLE in it. */
  lemma {:induction false} FrameLength(payload: seq<Byte>)
    ensures |Framed(payload)| == |payload| + CountDle(payload) + 4
  {
    StuffedLength(payload);
  }

  lemma {:induction false} StuffedLength(payload: seq<Byte>)
    ensures |Stuffed(payload)| == |payload| + CountDle(payload)
  {
    if payload != [] { StuffedLength(payload[..|payload| - 1]); }
  }

  // ---------- A receiver that removes the stuffing ----------

  datatype Parsed = Parsed(payload: seq<Byte>, rest: seq<Byte>) | Malformed

  function Prepend(b: Byte, p: Parsed): Parsed
  {
    match p
    case Parsed(payload, rest) => Parsed([b] + payload, rest)
    case Malformed => Malformed
  }

  /** The payload up to the DLE ETX that ends it, and the bytes after that. */
  function ParseBody(s: seq<Byte>): Parsed
  {
    if s == [] then Malformed
    else if s[0] != DLE then Prepend(s[0], ParseBody(s[1..]))
    else if |s| < 2 then Malformed
    else if s[1] == DLE then Prepend(DLE, ParseBody(s[2..]))
    else if s[1] == ETX then Parsed([], s[2..])
    else Malformed
  }

  function Parse(s: seq<Byte>): Parsed
  {
    if |s| >= 2 && s[0] == DLE && s[1] == STX then ParseBody(s[2..]) else Malformed
  }

  lemma {:induction false} StuffedLast(payload: seq<Byte>)
    requires payload != []
    ensures Stuffed(payload) == Stuffed(payload[..|payload| - 1]) + StuffedByte(payload[|payload| - 1])
  {
    hide StuffedByte;
  }

  lemma {:induction false} StuffedOne(b: Byte, tail: seq<Byte>)
    ensures Stuffed([b] + tail) == StuffedByte(b) + Stuffed(tail)
    decreases |tail|
  {
    hide Stuffed, StuffedByte;
    StuffedLast([b] + tail);
    StuffedNothing();
    if tail == [] {
      assert ([b] + tail)[..0] == [];
    } else {
      var n := |tail| - 1;
      StuffedOne(b, tail[..n]);
      StuffedLast(tail);
      assert ([b] + tail)[..n + 1] == [b] + tail[..n];
    }
  }

  lemma {:induction false} StuffedNothing()
    ensures Stuffed([]) == []
  {}

  lemma {:induction false} Regroup(x: seq<Byte>, a: seq<Byte>, b: seq<Byte>, c: seq<Byte>)
    ensures (x + a) + b + c == x + (a + b + c)
  {}

  /** What the body parser does with the bytes of one payload byte. */
  lemma {:induction false} ParseOne(b: Byte, t: seq<Byte>)
    ensures ParseBody(StuffedByte(b) + t) == Prepend(b, ParseBody(t))
  {
    var s := StuffedByte(b) + t;
    assert s[|StuffedByte(b)|..] == t;
    hide Prepend;
  }

  lemma {:induction false} ParseStuffed(payload: seq<Byte>, rest: seq<Byte>)
    ensures ParseBody(Stuffed(payload) + [DLE, ETX] + rest) == Parsed(payload, rest)
    decreases |payload|
  {
    hide Stuffed, StuffedByte, ParseBody;
    if payload == [] {
      StuffedNothing();
      assert [] + [DLE, ETX] + rest == [DLE, ETX] + rest;
      ParseEnd(rest);
    } else {
      var b, tail := payload[0], payload[1..];
      assert payload == [b] + tail;
      ParseStuffed(tail, rest);
      StuffedOne(b, tail);
      Regroup(StuffedByte(b), Stuffed(tail), [DLE, ETX], rest);
      ParseOne(b, Stuffed(tail) + [DLE, ETX] + rest);
    }
  }

  lemma {:induction false} ParseEnd(rest: seq<Byte>)
    ensures ParseBody([DLE, ETX] + rest) == Parsed([], rest)
  {
    assert ([DLE, ETX] + rest)[2..] == rest;
  }

  /** A frame is recognised in front of any bytes, and gives back its payload. */
  lemma {:induction false} ParseFramed(payload: seq<Byte>, rest: seq<Byte>)
    ensures Parse(Framed(payload) + rest) == Parsed(payload, rest)
  {
    hide Stuffed, ParseBody;
    ParseStuffed(payload, rest);
    assert (Framed(payload) + rest)[2..] == Stuffed(payload) + [DLE, ETX] + rest;
  }

  lemma {:induction false} ParseBodySound(s: seq<Byte>)
    requires ParseBody(s).Parsed?
    ensures s == Stuffed(ParseBody(s).payload) + [DLE, ETX] + ParseBody(s).rest
    decreases |s|, 1
  {
    hide Stuffed, StuffedByte;
    if s[0] != DLE {
      ParseStepSound(s[0], s[1..]);
      assert s == [s[0]] + s[1..];
    } else if s[1] == DLE {
      ParseStepSound(DLE, s[2..]);
      assert s == [s[0], s[1]] + s[2..];
    } else {
      StuffedNothing();
      assert s == [] + [DLE, ETX] + s[2..];
    }
  }

  lemma {:induction false} ParseStepSound(b: Byte, t: seq<Byte>)
    requires ParseBody(t).Parsed?
    ensures ParseBody(t).Parsed? && StuffedByte(b) == if b == DLE then [DLE, DLE] else [b]
    ensures var p := ParseBody(t);
            Stuffed([b] + p.payload) + [DLE, ETX] + p.rest == StuffedByte(b) + t
    decreases |t|, 2
  {
    hide Stuffed, ParseBody;
    ParseBodySound(t);
    var p := ParseBody(t);
    StuffedOne(b, p.payload);
    hide StuffedByte;
    Regroup(StuffedByte(b), Stuffed(p.payload), [DLE, ETX], p.rest);
  }

  /** The receiver accepts nothing but frames. */
  lemma {:induction false} ParseSound(s: seq<Byte>)
    requires Parse(s).Parsed?
    ensures s == Framed(Parse(s).payload) + Parse(s).rest
  {
    hide Stuffed, ParseBody;
    ParseBodySound(s[2..]);
    assert s == [s[0], s[1]] + s[2..];
  }

  /** No frame is the beginning of another: equal streams hold equal payloads and equal remainders. */
  lemma {:induction false} PrefixFree(p: seq<Byte>, r: seq<Byte>, q: seq<Byte>, s: seq<Byte>)
    requires Framed(p) + r == Framed(q) + s
    ensures p == q && r == s
  {
    hide Framed, Parse;
    ParseFramed(p, r);
    ParseFramed(q, s);
  }

  // ---------- Messages ----------

  datatype Message = Message(mask: Byte, command: Byte, extra: seq<Byte>) | Rejected

  /** The message of a payload whose last two bytes are the checksum of the others. */
  function Decode(payload: seq<Byte>): Message
  {
    var n := |payload| - 2;
    if n >= 2 && payload == WithCrc(payload[..n]) then Message(payload[0], payload[1], payload[2..n]) else Rejected
  }

  /** What is encoded for a board is received with its mask, command and extra data. */
  lemma {:induction false} FrameRoundTrip(id: nat, command: Byte, extra: seq<Byte>, rest: seq<Byte>)
    requires 1 <= id <= 32
    ensures var p := Parse(Framed(WithCrc([DstMask(id), command] + extra)) + rest);
            p.Parsed? && p.rest == rest && Decode(p.payload) == Message(DstMask(id), command, extra)
  {
    hide Framed, Parse, Crc, High, Low, DstMask;
    var data := [DstMask(id), command] + extra;
    ParseFramed(WithCrc(data), rest);
    assert WithCrc(data)[..|data|] == data;
    assert WithCrc(data)[2..|data|] == extra;
  }

  /** Different boards up to the eighth have different masks with one bit each. */
  lemma {:induction false} MasksDistinct(i: nat, j: nat)
    requires 1 <= i <= 8 && 1 <= j <= 8 && i != j
    ensures DstMask(i) != 0 && DstMask(i) & DstMask(j) == 0
  {
    match i
    case 1 => case 2 => case 3 => case 4 => case 5 => case 6 => case 7 => case 8 =>
  }

  /** The mask of the first board is 1, and each board has the bit after that of the board before. */
  lemma {:induction false} MaskShifts(id: nat)
    requires 1 <= id < 32
    ensures DstMask(1) == 1 && DstMask(id + 1) == DstMask(id) << 1
  {
    match id
    case 1 => case 2 => case 3 => case 4 => case 5 => case 6 => case 7 => case 8 => case _ =>
  }

  lemma {:induction false} MaskBit(id: nat, i: nat)
    requires 1 <= id <= 32 && 1 <= i <= 8
    ensures Bit(DstMask(id), i - 1) <==> i == id
  {
    match id
    case 1 => case 2 => case 3 => case 4 => case 5 => case 6 => case 7 => case 8 => case _ =>
  }

  /** A board that looks at its own bit of the first byte received is addressed exactly if the frame was
      encoded for it; beyond the eighth no board is. */
  lemma {:induction false} OnlyBoardAddressed(id: nat, command: Byte, extra: seq<Byte>, rest: seq<Byte>, i: nat)
    requires 1 <= id <= 32 && 1 <= i <= 8
    ensures var p := Parse(Framed(WithCrc([DstMask(id), command] + extra)) + rest);
            p.Parsed? && |p.payload| == 4 + |extra| && (Bit(p.payload[0], i - 1) <==> i == id)
  {
    hide Framed, Parse, Crc, High, Low, DstMask, Bit;
    ParseFramed(WithCrc([DstMask(id), command] + extra), rest);
    MaskBit(id, i);
  }
}
