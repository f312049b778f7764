/** Sending a command and waiting for the board's answer: the receiving state machine, the time budget
    of an attempt, and the attempts. */
module Receiver {
  import opened GaloisField
  import opened Crc16
  import opened Frame

  const ACK: Byte := 0xAA
  const NACK: Byte := 0x55

  datatype Option<T> = None | Some(value: T)

  // ---------- The state machine ----------

  datatype State = WaitDle | WaitStx | InFrame | WaitEtx

  /** What is kept between bytes; `Done` is the return with success. */
  datatype Rx = Rx(state: State, payload: seq<Byte>) | Done

  /** `(payload[1] << 8) | payload[2]`. */
  function Joint(hi: Byte, lo: Byte): bv16 { ((hi as bv16) << 8) | (lo as bv16) }

  /** A complete answer with a matching checksum. */
  predicate Answers(payload: seq<Byte>, code: Byte)
  {
    |payload| == 3 && payload[0] == code && Joint(payload[1], payload[2]) == Crc([code])
  }

  /** One byte. A negative answer leaves the machine where it is, with its payload. */
  function Advance(rx: Rx, b: Byte): Rx
    requires rx.Rx?
  {
    match rx.state
    case WaitDle => if b == DLE then Rx(WaitStx, rx.payload) else rx
    case WaitStx => if b == STX then Rx(InFrame, []) else if b != DLE then Rx(WaitDle, rx.payload) else rx
    case InFrame => if b == DLE then Rx(WaitEtx, rx.payload) else Rx(InFrame, rx.payload + [b])
    case WaitEtx =>
      if b == ETX && Answers(rx.payload, ACK) then Done
      else if b == ETX && Answers(rx.payload, NACK) then rx
      else Rx(WaitDle, [])
  }

  /** The machine after the bytes of an attempt; bytes after success are not read. */
  function Fed(bytes: seq<Byte>): Rx
  {
    if bytes == [] then Rx(WaitDle, [])
    else
      var rx := Fed(bytes[..|bytes| - 1]);
      if rx.Done? then Done else Advance(rx, bytes[|bytes| - 1])
  }

  // ---------- What is accepted ----------

  const ACK_FRAME: seq<Byte> := [0x10, 0x02, 0xAA, 0x7F, 0x80, 0x10, 0x03]

  predicate EndsIn(bytes: seq<Byte>, tail: seq<Byte>)
  {
    |tail| <= |bytes| && bytes[|bytes| - |tail|..] == tail
  }

  /** What the bytes so far look like in each state. After a negative answer the machine may still be
      in `WaitEtx`, with the negative payload. */
  ghost predicate Remembers(rx: Rx, bytes: seq<Byte>)
  {
    match rx
    case Done => EndsIn(bytes, ACK_FRAME)
    case Rx(state, payload) =>
      match state
      case WaitDle => true
      case WaitStx => EndsIn(bytes, [DLE])
      case InFrame => EndsIn(bytes, [DLE, STX] + payload)
      case WaitEtx => EndsIn(bytes, [DLE, STX] + payload + [DLE]) || Answers(payload, NACK)
  }

  lemma {:induction false} AckChecksum(hi: Byte, lo: Byte)
    ensures Joint(hi, lo) == Crc([ACK]) <==> hi == 0x7F && lo == 0x80
  {
    hide Crc, Joint;
    CrcIsArc([ACK]);
    ArcOfAck();
    JointHalves(hi, lo);
  }

  lemma {:induction false} JointHalves(hi: Byte, lo: Byte)
    ensures Joint(hi, lo) == 0x7F80 <==> hi == 0x7F && lo == 0x80
  {}

  lemma {:induction false} ArcOfAck()
    ensures Arc([ACK]) == 0x7F80
  {
    assert [ACK][..0] == [];
    var c := Xor(Arc([]), ACK as bv16);
    assert Arc([ACK]) == ArcSteps(c, 8);
    hide Arc;
    assert ArcSteps(c, 1) == 0x55;
    assert ArcSteps(c, 2) == 0xA02B;
    assert ArcSteps(c, 3) == 0xF014;
    assert ArcSteps(c, 4) == 0x780A;
    assert ArcSteps(c, 5) == 0x3C05;
    assert ArcSteps(c, 6) == 0xBE03;
    assert ArcSteps(c, 7) == 0xFF00;
    assert ArcSteps(c, 8) == 0x7F80;
  }

  lemma {:induction false} AckBytes()
    ensures High(0x7F80) == 0x7F && Low(0x7F80) == 0x80
  {}

  /** The frame waited for is the one the sender's format gives the single byte AA. */
  lemma {:induction false} AckIsFramed()
    ensures Framed(WithCrc([ACK])) == ACK_FRAME
  {
    hide Crc, High, Low, Arc, Stuffed;
    CrcIsArc([ACK]);
    ArcOfAck();
    AckBytes();
    StuffedNothing();
    var lo: seq<Byte> := [0x80];
    var both: seq<Byte> := [0x7F, 0x80];
    StuffedOne(0x80, []);
    assert lo == [0x80] + [];
    StuffedOne(0x7F, lo);
    assert both == [0x7F] + lo;
    StuffedOne(ACK, both);
    assert WithCrc([ACK]) == [ACK] + both;
    assert Stuffed([ACK] + both) == [ACK, 0x7F, 0x80];
  }

  lemma {:induction false} EndsInMore(bytes: seq<Byte>, tail: seq<Byte>, b: Byte)
    requires EndsIn(bytes, tail)
    ensures EndsIn(bytes + [b], tail + [b])
  {}

  /** The bytes of a positive answer are the acknowledgement frame. */
  lemma {:induction false} AnswerIsFrame(payload: seq<Byte>)
    requires Answers(payload, ACK)
    ensures [DLE, STX] + payload + [DLE] + [ETX] == ACK_FRAME
  {
    hide Crc, Joint;
    AckChecksum(payload[1], payload[2]);
  }

  lemma {:induction false} AdvanceRemembers(rx: Rx, bytes: seq<Byte>, b: Byte)
    requires rx.Rx? && Remembers(rx, bytes)
    ensures Remembers(Advance(rx, b), bytes + [b])
  {
    hide Crc, Joint, EndsIn;
    match rx.state
    case WaitDle =>
      JustByte(bytes, b);
    case WaitStx =>
      EndsInMore(bytes, [DLE], b);
      JustByte(bytes, b);
      assert [DLE, STX] + [] == [DLE] + [STX];
    case InFrame =>
      EndsInMore(bytes, [DLE, STX] + rx.payload, b);
      assert [DLE, STX] + rx.payload + [b] == [DLE, STX] + (rx.payload + [b]);
    case WaitEtx =>
      if b == ETX && Answers(rx.payload, ACK) {
        AnswerIsFrame(rx.payload);
        EndsInMore(bytes, [DLE, STX] + rx.payload + [DLE], b);
      }
  }

  lemma {:induction false} JustByte(bytes: seq<Byte>, b: Byte)
    ensures EndsIn(bytes + [b], [b])
  {}

  /** Success is returned only right after the acknowledgement frame, whatever came before. */
  lemma {:induction false} FedRemembers(bytes: seq<Byte>)
    ensures Remembers(Fed(bytes), bytes) || (|bytes| > 0 && Fed(bytes[..|bytes| - 1]).Done?)
  {
    hide Advance, Remembers;
    if bytes == [] {
      StartRemembers();
    } else {
      var front, b := bytes[..|bytes| - 1], bytes[|bytes| - 1];
      if !Fed(front).Done? {
        FedRemembers(front);
        DoneStays(front);
        AdvanceRemembers(Fed(front), front, b);
        assert bytes == front + [b];
      }
    }
  }

  lemma {:induction false} StartRemembers()
    ensures Remembers(Rx(WaitDle, []), [])
  {}

  lemma {:induction false} DoneStays(bytes: seq<Byte>)
    requires !Fed(bytes).Done?
    ensures |bytes| > 0 ==> !Fed(bytes[..|bytes| - 1]).Done?
  {}

  predicate Listening(rx: Rx) { rx.Rx? && (rx.state == WaitDle || rx.state == WaitStx) }

  lemma {:induction false} FedOne(bytes: seq<Byte>, b: Byte)
    ensures Fed(bytes + [b]) == if Fed(bytes).Done? then Done else Advance(Fed(bytes), b)
  {
    hide Advance;
    assert (bytes + [b])[..|bytes|] == bytes;
  }

  /** The acknowledgement frame is accepted exactly when the machine is between frames; inside a frame
      it is taken for the end of that frame and lost. */
  lemma {:induction false} AckAccepted(u: seq<Byte>)
    requires Fed(u).Rx?
    ensures Fed(u + ACK_FRAME).Done? <==> Listening(Fed(u))
  {
    hide Fed, Crc, Joint;
    AckChecksum(0x7F, 0x80);
    var u1 := u + [DLE];
    var u2 := u1 + [STX];
    var u3 := u2 + [ACK];
    var u4 := u3 + [0x7F];
    var u5 := u4 + [0x80];
    var u6 := u5 + [DLE];
    FedOne(u, DLE);
    FedOne(u1, STX);
    FedOne(u2, ACK);
    FedOne(u3, 0x7F);
    FedOne(u4, 0x80);
    FedOne(u5, DLE);
    FedOne(u6, ETX);
    assert u + ACK_FRAME == u6 + [ETX];
  }

  // ---------- After a negative answer ----------

  const NACK_FRAME: seq<Byte> := [0x10, 0x02, 0x55, 0x3F, 0xC0, 0x10, 0x03]

  lemma {:induction false} ArcOfNack()
    ensures Arc([NACK]) == 0x3FC0
  {
    assert [NACK][..0] == [];
    var c := Xor(Arc([]), NACK as bv16);
    assert Arc([NACK]) == ArcSteps(c, 8);
    hide Arc;
    assert ArcSteps(c, 1) == 0xA02B;
    assert ArcSteps(c, 2) == 0xF014;
    assert ArcSteps(c, 3) == 0x780A;
    assert ArcSteps(c, 4) == 0x3C05;
    assert ArcSteps(c, 5) == 0xBE03;
    assert ArcSteps(c, 6) == 0xFF00;
    assert ArcSteps(c, 7) == 0x7F80;
    assert ArcSteps(c, 8) == 0x3FC0;
  }

  lemma {:induction false} NackJoint()
    ensures Joint(0x3F, 0xC0) == 0x3FC0
  {}

  lemma {:induction false} NackAnswers()
    ensures Answers([NACK, 0x3F, 0xC0], NACK) && !Answers([NACK, 0x3F, 0xC0], ACK)
  {
    hide Crc, Joint, Arc;
    CrcIsArc([NACK]);
    ArcOfNack();
    NackJoint();
  }

  /** A negative answer that arrives between frames leaves the machine waiting for ETX, with the
      negative payload. */
  lemma {:induction false} AfterNack(u: seq<Byte>)
    requires Listening(Fed(u))
    ensures Fed(u + NACK_FRAME) == Rx(WaitEtx, [NACK, 0x3F, 0xC0])
  {
    hide Fed, Answers;
    NackAnswers();
    var u1 := u + [DLE];
    var u2 := u1 + [STX];
    var u3 := u2 + [NACK];
    var u4 := u3 + [0x3F];
    var u5 := u4 + [0xC0];
    var u6 := u5 + [DLE];
    FedOne(u, DLE);
    FedOne(u1, STX);
    FedOne(u2, NACK);
    FedOne(u3, 0x3F);
    FedOne(u4, 0xC0);
    var payload: seq<Byte> := [NACK, 0x3F, 0xC0];
    assert Fed(u5) == Rx(InFrame, payload);
    FedOne(u5, DLE);
    FedOne(u6, ETX);
    assert u + NACK_FRAME == u6 + [ETX];
  }

  /** Inside a frame the acknowledgement ends that frame instead, and the machine waits for the next one. */
  lemma {:induction false} AckLost(u: seq<Byte>)
    requires Fed(u).Rx? && !Listening(Fed(u))
    ensures Fed(u + ACK_FRAME) == Rx(WaitDle, [])
  {
    hide Fed, Answers;
    var u1 := u + [DLE];
    var u2 := u1 + [STX];
    var u3 := u2 + [ACK];
    var u4 := u3 + [0x7F];
    var u5 := u4 + [0x80];
    var u6 := u5 + [DLE];
    FedOne(u, DLE);
    FedOne(u1, STX);
    FedOne(u2, ACK);
    FedOne(u3, 0x7F);
    FedOne(u4, 0x80);
    FedOne(u5, DLE);
    FedOne(u6, ETX);
    assert u + ACK_FRAME == u6 + [ETX];
  }

  /** An acknowledgement right after a negative answer is lost; only a second one is accepted. */
  lemma {:induction false} AckAfterNackLost(u: seq<Byte>)
    requires Listening(Fed(u))
    ensures !Fed(u + NACK_FRAME + ACK_FRAME).Done?
    ensures Fed(u + NACK_FRAME + ACK_FRAME + ACK_FRAME).Done?
  {
    hide Fed;
    AfterNack(u);
    AckLost(u + NACK_FRAME);
    AckAccepted(u + NACK_FRAME + ACK_FRAME);
  }

  /** A stray DLE STX in front of the acknowledgement is enough to lose it. */
  lemma {:induction false} AckAfterStrayStart()
    ensures !Fed([DLE, STX] + ACK_FRAME).Done?
  {
    hide Fed, Answers;
    FedNothing();
    FedOne([], DLE);
    FedOne([DLE], STX);
    var start: seq<Byte> := [DLE, STX];
    assert [] + [DLE] == [DLE] && [DLE] + [STX] == start;
    AckAccepted(start);
  }

  // ---------- Attempts ----------

  /** What the serial line delivers: at most one byte for each attempt and step. */
  type Line = (nat, nat) -> Option<Byte>

  /** The bytes read in the first `k` steps of an attempt. */
  function Bytes(line: Line, attempt: nat, k: nat): seq<Byte>
  {
    if k == 0 then []
    else
      var before := Bytes(line, attempt, k - 1);
      match line(attempt, k - 1)
      case None => before
      case Some(b) => before + [b]
  }

  /** How many steps of 10 ms begin before the time is over. */
  function StepsIn(timeoutMs: int): nat { if timeoutMs <= 0 then 0 else (timeoutMs + 9) / 10 }

  predicate Accepts(line: Line, attempt: nat, steps: nat) { Fed(Bytes(line, attempt, steps)).Done? }

  lemma {:induction false} DoneLater(line: Line, attempt: nat, k: nat, steps: nat)
    requires k <= steps && Accepts(line, attempt, k)
    ensures Accepts(line, attempt, steps)
    decreases steps - k
  {
    if k < steps {
      match line(attempt, k) {
        case None =>
        case Some(b) => FedOne(Bytes(line, attempt, k), b);
      }
      DoneLater(line, attempt, k + 1, steps);
    }
  }

  /** The frames written: one for each attempt up to the first that is acknowledged. */
  ghost predicate Outcome(line: Line, retries: int, steps: nat, ok: bool, attempts: nat)
  {
    && (retries <= 0 ==> attempts == 0 && !ok)
    && (retries > 0 ==> attempts <= retries)
    && (ok ==> attempts > 0 && Accepts(line, attempts - 1, steps))
    && (!ok && retries > 0 ==> attempts == retries)
    && forall a :: 0 <= a < attempts - (if ok then 1 else 0) ==> !Accepts(line, a, steps)
  }

  method SendFrameWithAck(id: nat, command: Byte, retries: int, timeoutMs: int, line: Line)
    returns (ok: bool, sent: seq<seq<Byte>>)
    requires 1 <= id <= 32
    ensures forall k :: 0 <= k < |sent| ==> sent[k] == Framed(WithCrc([DstMask(id), command] + []))
    ensures Outcome(line, retries, StepsIn(timeoutMs), ok, |sent|)
  {
    hide Fed, Framed, WithCrc, Crc, Joint;
    var frame := EncodeFrame(id, command, []);
    sent := [];
    var attempt := 0;
    while attempt < retries
      invariant 0 <= attempt && (retries > 0 ==> attempt <= retries) && (retries <= 0 ==> attempt == 0)
      invariant |sent| == attempt
      invariant forall k :: 0 <= k < |sent| ==> sent[k] == frame
      invariant forall a :: 0 <= a < attempt ==> !Accepts(line, a, StepsIn(timeoutMs))
    {
      sent := sent + [frame];
      var state := WaitDle;
      var payload: seq<Byte> := [];
      var waited := 0;
      ghost var k := 0;
      FedNothing();
      while waited < timeoutMs
        invariant waited == 10 * k && k >= 0
        invariant k <= StepsIn(timeoutMs)
        invariant Fed(Bytes(line, attempt, k)) == Rx(state, payload)
      {
        match line(attempt, waited / 10) {
          case None =>
          case Some(rx) =>
            FedOne(Bytes(line, attempt, k), rx);
            match state {
              case WaitDle =>
                if rx == DLE {
                  state := WaitStx;
                }
              case WaitStx =>
                if rx == STX {
                  payload := [];
                  state := InFrame;
                } else if rx != DLE {
                  state := WaitDle;
                }
              case InFrame =>
                if rx == DLE {
                  state := WaitEtx;
                } else {
                  payload := payload + [rx];
                }
              case WaitEtx =>
                var stay := false;
                if rx == ETX && |payload| == 3 {
                  var respCmd := payload[0];
                  var recvCrc := Joint(payload[1], payload[2]);
                  var calcCrc := ComputeCrc([respCmd]);
                  if recvCrc == calcCrc {
                    if respCmd == ACK {
                      DoneLater(line, attempt, k + 1, StepsIn(timeoutMs));
                      return true, sent;
                    }
                    if respCmd == NACK {
                      stay := true;
                    }
                  }
                }
                if !stay {
                  state := WaitDle;
                  payload := [];
                }
            }
        }
        waited := waited + 10;
        k := k + 1;
      }
      assert k == StepsIn(timeoutMs);
      attempt := attempt + 1;
    }
    ok := false;
  }

  lemma {:induction false} FedNothing()
    ensures Fed([]) == Rx(WaitDle, [])
  {}

  /** Step `k` is where the attempt first succeeds, and the bytes read so far end in the frame. */
  ghost predicate AckReadAt(line: Line, attempt: nat, k: nat)
  {
    && 0 < k && !Accepts(line, attempt, k - 1) && Accepts(line, attempt, k)
    && EndsIn(Bytes(line, attempt, k), ACK_FRAME)
  }

  lemma {:induction false} FirstAcceptance(line: Line, attempt: nat, steps: nat) returns (k: nat)
    requires Accepts(line, attempt, steps)
    ensures k <= steps && AckReadAt(line, attempt, k)
  {
    hide EndsIn, Advance;
    FedNothing();
    if Accepts(line, attempt, steps - 1) {
      k := FirstAcceptance(line, attempt, steps - 1);
    } else {
      k := steps;
      var bytes := Bytes(line, attempt, k);
      FedRemembers(bytes);
      match line(attempt, k - 1) {
        case None =>
        case Some(b) => assert bytes[..|bytes| - 1] == Bytes(line, attempt, k - 1);
      }
    }
  }

  /** Success means that the last attempt made read the acknowledgement frame in its time, and stopped
      right after it. */
  lemma {:induction false} SuccessMeansAck(line: Line, retries: int, steps: nat, attempts: nat) returns (k: nat)
    requires Outcome(line, retries, steps, true, attempts)
    ensures k <= steps && AckReadAt(line, attempts - 1, k)
  {
    hide AckReadAt, Fed;
    k := FirstAcceptance(line, attempts - 1, steps);
  }

  /** An acknowledgement frame that arrives between frames, within the time of one of the attempts,
      makes the call succeed. */
  lemma {:induction false} AckMeansSuccess(line: Line, retries: int, steps: nat, ok: bool, attempts: nat, attempt: nat, k: nat, u: seq<Byte>)
    requires Outcome(line, retries, steps, ok, attempts)
    requires attempt < retries && k <= steps && Bytes(line, attempt, k) == u + ACK_FRAME && Listening(Fed(u))
    ensures ok && attempts <= attempt + 1
  {
    hide Fed, Bytes;
    AckAccepted(u);
    DoneLater(line, attempt, k, steps);
  }

  lemma {:induction false} DonePrefix(bytes: seq<Byte>, n: nat)
    requires n <= |bytes| && Fed(bytes[..n]).Done?
    ensures Fed(bytes).Done?
    decreases |bytes|
  {
    if n == |bytes| {
      assert bytes[..n] == bytes;
    } else {
      assert bytes[..|bytes| - 1][..n] == bytes[..n];
      DonePrefix(bytes[..|bytes| - 1], n);
    }
  }

  /** In the first `k` steps the attempt reads the acknowledgement frame after `u`, between frames. */
  ghost predicate AckHeard(line: Line, attempt: nat, k: nat, u: seq<Byte>)
  {
    Bytes(line, attempt, k) == u + ACK_FRAME && Listening(Fed(u))
  }

  lemma {:induction false} AckReadWasHeard(line: Line, attempt: nat, k: nat) returns (u: seq<Byte>)
    requires AckReadAt(line, attempt, k)
    ensures AckHeard(line, attempt, k, u)
  {
    hide Fed;
    var bytes := Bytes(line, attempt, k);
    u := bytes[..|bytes| - |ACK_FRAME|];
    assert bytes == u + ACK_FRAME;
    if Fed(u).Done? {
      var before := Bytes(line, attempt, k - 1);
      assert before[..|u|] == u;
      DonePrefix(before, |u|);
    }
    AckAccepted(u);
  }

  /** The call succeeds if and only if one of its attempts reads the acknowledgement frame between
      frames in its time. */
  lemma {:induction false} SuccessIff(line: Line, retries: int, steps: nat, ok: bool, attempts: nat)
    requires Outcome(line, retries, steps, ok, attempts)
    ensures ok <==> exists a: nat, k: nat, u :: a < retries && k <= steps && AckHeard(line, a, k, u)
  {
    hide Fed, Bytes;
    if ok {
      var k := SuccessMeansAck(line, retries, steps, attempts);
      var a := attempts - 1;
      var u := AckReadWasHeard(line, a, k);
      assert a < retries && AckHeard(line, a, k, u);
    } else {
      forall a: nat, k: nat, u | a < retries && k <= steps && AckHeard(line, a, k, u) ensures false {
        AckMeansSuccess(line, retries, steps, ok, attempts, a, k, u);
      }
    }
  }
}
