/**
 The gateway access protocol of one connection: the framing mode chosen by the first frame,
 the command/response scheme of the escaping mode, and what leads to a close.

 The two callbacks of the source are the last thing the calling branch does, so they are
 modelled as a result, `Upcall`, that the handler acts on at once. The frame endpoint is
 represented by whether it is open and by the octets it has written.
 */
module AccessProtocol {
  import opened Octets
  import opened FrameStream
  import E = EscapedFraming
  import L = LengthFraming

  datatype Mode = Unknown | Escaping | Length

  datatype Upcall = Nothing | Deliver(payload: seq<byte>) | Closed

  datatype Proto = Proto(mode: Mode, open: bool, sent: seq<WireFrame>)

  const NEW := Proto(Unknown, true, [])

  const ACK_0101: WireFrame := EscapedFrame([0x01, 0x01, 0x00, 0x00])
  const ACK_0111: WireFrame := EscapedFrame([0x01, 0x11, 0x00, 0x00])
  const ACK_0301: WireFrame := EscapedFrame([0x03, 0x01, 0x00, 0x00])

  function FormatOf(f: Frame): Mode {
    if f.EscapedFrame? then Escaping else Length
  }

  /** Frames given to a closed endpoint go nowhere. */
  function Transmit(s: Proto, fs: seq<WireFrame>): Proto {
    if s.open then s.(sent := s.sent + fs) else s
  }

  // ------------------------------------------------------------------ sending

  /** The size limit asserted when a frame is created. */
  predicate Sendable(mode: Mode, payload: seq<byte>) {
    match mode
    case Unknown => true
    case Escaping => |payload| + 2 < 4096
    case Length => |payload| < 4096
  }

  /** A higher-layer payload as a frame of the given mode; an 0302 data frame when escaping. */
  function Encapsulate(mode: Mode, payload: seq<byte>): seq<WireFrame>
    requires Sendable(mode, payload)
  {
    match mode
    case Unknown => []
    case Escaping => [EscapedFrame([0x03, 0x02] + payload)]
    case Length => [LengthFrame(payload)]
  }

  function AfterSend(s: Proto, payload: seq<byte>): Proto
    requires Sendable(s.mode, payload)
  {
    Transmit(s, Encapsulate(s.mode, payload))
  }

  // ---------------------------------------------------------------- receiving

  /** Escaping frames are read for a two-octet request id, if the mode admits them at all. */
  predicate Readable(mode: Mode, f: WireFrame) {
    f.EscapedFrame? && mode != Length ==> |f.payload| >= 2
  }

  function RequestId(f: WireFrame): u16
    requires |f.payload| >= 2
  {
    Join(f.payload[0], f.payload[1])
  }

  /** The answer owed to a command: 0100 -> 0101, 0110 -> 0111, 0300 -> 0301. */
  function Response(f: WireFrame): seq<WireFrame> {
    if f.LengthFrame? || |f.payload| < 2 then []
    else match RequestId(f)
      case 0x0100 => [ACK_0101]
      case 0x0110 => [ACK_0111]
      case 0x0300 => [ACK_0301]
      case _ => []
  }

  function AfterFrame(s: Proto, f: WireFrame): (Proto, Upcall)
    requires Readable(s.mode, f)
  {
    if s.mode != Unknown && s.mode != FormatOf(f) then
      (s.(open := false), Closed)
    else
      var s' := s.(mode := FormatOf(f));
      if f.LengthFrame? then (s', Deliver(f.payload))
      else if Response(f) == [] then (s'.(open := false), Closed)
      else (Transmit(s', Response(f)), if RequestId(f) == 0x0300 then Deliver(f.payload[2..]) else Nothing)
  }

  // ------------------------------------------------------------ on the wire

  /** The commands of the escaping mode, by their first two octets. */
  predicate IsCommand(f: WireFrame) {
    && f.EscapedFrame? && |f.payload| >= 2
    && ( || (f.payload[0] == 0x01 && f.payload[1] == 0x00)
         || (f.payload[0] == 0x01 && f.payload[1] == 0x10)
         || (f.payload[0] == 0x03 && f.payload[1] == 0x00))
  }

  /** What answers a command: its two octets, the second one raised by one, and two zeros. */
  function AnswerDue(f: WireFrame): seq<WireFrame> {
    if IsCommand(f) then [EscapedFrame([f.payload[0], f.payload[1] + 1, 0x00, 0x00])] else []
  }

  /** Data frames, as opposed to answers. */
  predicate IsData(f: WireFrame) {
    f.LengthFrame? || (|f.payload| >= 2 && f.payload[0] == 0x03 && f.payload[1] == 0x02)
  }

  lemma ResponseIsDue(f: WireFrame)
    ensures Response(f) == AnswerDue(f)
  {
    if f.EscapedFrame? && |f.payload| >= 2 {
      var hi: int, lo: int := f.payload[0], f.payload[1];
      assert RequestId(f) == hi * 0x100 + lo;
    }
  }

  /**
   The escaping mode, octet by octet: 01 00 is answered by 01 01 00 00, 01 10 by 01 11 00 00, and 03 00 by
   03 01 00 00, of which the last has its remaining octets delivered; any other frame closes the connection.
   */
  lemma CommandsAreAnswered(s: Proto, f: WireFrame)
    requires s.open && s.mode != Length && f.EscapedFrame? && |f.payload| >= 2
    ensures var (t, up) := AfterFrame(s, f);
            var (hi, lo) := (f.payload[0], f.payload[1]);
            && t.mode == Escaping
            && (if hi == 0x01 && lo == 0x00 then
                  t.open && up == Nothing && t.sent == s.sent + [EscapedFrame([0x01, 0x01, 0x00, 0x00])]
                else if hi == 0x01 && lo == 0x10 then
                  t.open && up == Nothing && t.sent == s.sent + [EscapedFrame([0x01, 0x11, 0x00, 0x00])]
                else if hi == 0x03 && lo == 0x00 then
                  && t.open && up == Deliver(f.payload[2..])
                  && t.sent == s.sent + [EscapedFrame([0x03, 0x01, 0x00, 0x00])]
                else
                  !t.open && up == Closed && t.sent == s.sent)
  {
    var hi: int, lo: int := f.payload[0], f.payload[1];
    assert RequestId(f) == hi * 0x100 + lo;
  }

  /** The length mode delivers what it receives and answers nothing; in either mode the other format closes. */
  lemma OtherFrames(s: Proto, f: WireFrame)
    requires s.open && Readable(s.mode, f) && (f.LengthFrame? || s.mode == Length)
    ensures var (t, up) := AfterFrame(s, f);
            && t.sent == s.sent
            && (if f.LengthFrame? && s.mode != Escaping then
                  t.mode == Length && t.open && up == Deliver(f.payload)
                else
                  t.mode == s.mode && !t.open && up == Closed)
  {
    assert s.sent + [] == s.sent;
  }

  /**
   What a data frame carries, by mode: nothing is sent without one or on a closed connection; an escaping
   frame has the payload behind the octets 03 02; a length frame has the payload and nothing else.
   */
  lemma DataFramesCarry(s: Proto, payload: seq<byte>)
    requires Sendable(s.mode, payload)
    ensures var t := AfterSend(s, payload);
            && t.mode == s.mode && t.open == s.open
            && (s.mode == Unknown || !s.open ==> t.sent == s.sent)
            && (s.mode != Unknown && s.open ==>
                  && |t.sent| == |s.sent| + 1 && s.sent <= t.sent
                  && var f := t.sent[|s.sent|];
                     if s.mode == Escaping then
                       && f.EscapedFrame? && |f.payload| == |payload| + 2
                       && f.payload[0] == 0x03 && f.payload[1] == 0x02 && f.payload[2..] == payload
                     else
                       f.LengthFrame? && f.payload == payload)
  {
    assert s.sent + [] == s.sent;
  }

  // ------------------------------------------------------------------- traces

  datatype ProtoEvent = Received(f: WireFrame) | Sending(payload: seq<byte>) | Closing

  predicate Enabled(s: Proto, e: ProtoEvent) {
    match e
    case Received(f) => s.open && Readable(s.mode, f)
    case Sending(p) => Sendable(s.mode, p)
    case Closing => true
  }

  function ProtoStep(s: Proto, e: ProtoEvent): Proto
    requires Enabled(s, e)
  {
    match e
    case Received(f) => AfterFrame(s, f).0
    case Sending(p) => AfterSend(s, p)
    case Closing => s.(open := false)
  }

  predicate Possible(tr: seq<ProtoEvent>)
    decreases |tr|, 0
  {
    tr == [] || (Possible(tr[..|tr| - 1]) && Enabled(ProtoRun(tr[..|tr| - 1]), tr[|tr| - 1]))
  }

  /** A connection after a history of events. */
  function ProtoRun(tr: seq<ProtoEvent>): Proto
    requires Possible(tr)
    decreases |tr|, 1
  {
    if tr == [] then NEW else ProtoStep(ProtoRun(tr[..|tr| - 1]), tr[|tr| - 1])
  }

  function ReceivedOf(tr: seq<ProtoEvent>): seq<WireFrame> {
    if tr == [] then []
    else ReceivedOf(tr[..|tr| - 1]) + Heard(tr[|tr| - 1])
  }

  /** The frames of a log that answer commands, as opposed to data. */
  function Acks(fs: seq<WireFrame>): seq<WireFrame> {
    if fs == [] then []
    else
      var f := fs[|fs| - 1];
      Acks(fs[..|fs| - 1]) + (if IsData(f) then [] else [f])
  }

  /** The data frames of a log. */
  function DataOf(fs: seq<WireFrame>): seq<WireFrame> {
    if fs == [] then []
    else
      var f := fs[|fs| - 1];
      DataOf(fs[..|fs| - 1]) + (if IsData(f) then [f] else [])
  }

  /** What answers the commands among the frames received. */
  function AnswersDue(fs: seq<WireFrame>): seq<WireFrame> {
    if fs == [] then [] else AnswersDue(fs[..|fs| - 1]) + AnswerDue(fs[|fs| - 1])
  }

  lemma SnocAcks(fs: seq<WireFrame>, f: WireFrame)
    ensures Acks(fs + [f]) == Acks(fs) + (if IsData(f) then [] else [f])
  {
    assert (fs + [f])[..|fs|] == fs;
  }

  lemma SnocData(fs: seq<WireFrame>, f: WireFrame)
    ensures DataOf(fs + [f]) == DataOf(fs) + (if IsData(f) then [f] else [])
  {
    assert (fs + [f])[..|fs|] == fs;
  }

  lemma SnocAnswers(fs: seq<WireFrame>, f: WireFrame)
    ensures AnswersDue(fs + [f]) == AnswersDue(fs) + AnswerDue(f)
  {
    assert (fs + [f])[..|fs|] == fs;
  }

  function Heard(e: ProtoEvent): seq<WireFrame> {
    if e.Received? then [e.f] else []
  }

  /** How the state of a connection depends on the frames it has received. */
  ghost predicate Latched(s: Proto, rcv: seq<WireFrame>) {
    && s.mode == (if rcv == [] then Unknown else FormatOf(rcv[0]))
    && (rcv == [] ==> s.sent == [])
    && (forall f :: f in s.sent ==> FormatOf(f) == s.mode)
    && (forall i :: 0 <= i < |rcv| && FormatOf(rcv[i]) != s.mode ==> i == |rcv| - 1 && !s.open)
  }

  lemma LatchStep(s: Proto, rcv: seq<WireFrame>, e: ProtoEvent)
    requires Latched(s, rcv) && Enabled(s, e)
    ensures Latched(ProtoStep(s, e), rcv + Heard(e))
  {
    assert rcv + [] == rcv;
    match e {
      case Received(f) =>
        LatchReceived(s, rcv, f);
      case Sending(p) =>
      case Closing =>
    }
  }

  lemma LatchReceived(s: Proto, rcv: seq<WireFrame>, f: WireFrame)
    requires Latched(s, rcv) && s.open && Readable(s.mode, f)
    ensures Latched(AfterFrame(s, f).0, rcv + [f])
  {
    var all := rcv + [f];
    assert all[0] == if rcv == [] then f else rcv[0];
    assert forall i :: 0 <= i < |rcv| ==> FormatOf(rcv[i]) == s.mode && all[i] == rcv[i];
    assert forall g :: g in Response(f) ==> g.EscapedFrame? && f.EscapedFrame?;
  }

  /**
   The framing-mode latch, over every trace: the mode is the format of the first frame received, so it
   leaves Unknown once and never changes again; nothing is sent before that frame, and nothing in
   another format after it; a frame of the other format can only be the last one received, because it
   closes the connection.
   */
  lemma {:induction false} ModeLatch(tr: seq<ProtoEvent>)
    requires Possible(tr)
    ensures var (s, rcv) := (ProtoRun(tr), ReceivedOf(tr));
            && s.mode == (if rcv == [] then Unknown else FormatOf(rcv[0]))
            && (rcv == [] ==> s.sent == [])
            && (forall f :: f in s.sent ==> FormatOf(f) == s.mode)
            && (forall i :: 0 <= i < |rcv| && FormatOf(rcv[i]) != s.mode ==> i == |rcv| - 1 && !s.open)
  {
    LatchedAlong(tr);
  }

  lemma {:induction false} LatchedAlong(tr: seq<ProtoEvent>)
    requires Possible(tr)
    ensures Latched(ProtoRun(tr), ReceivedOf(tr))
  {
    if tr != [] {
      LatchedAlong(tr[..|tr| - 1]);
      LatchStep(ProtoRun(tr[..|tr| - 1]), ReceivedOf(tr[..|tr| - 1]), tr[|tr| - 1]);
    }
  }

  ghost predicate Answered(s: Proto, rcv: seq<WireFrame>) {
    Acks(s.sent) == if s.mode == Escaping then AnswersDue(rcv) else []
  }

  lemma AnswerStep(s: Proto, rcv: seq<WireFrame>, e: ProtoEvent)
    requires Latched(s, rcv) && Answered(s, rcv) && Enabled(s, e)
    ensures Answered(ProtoStep(s, e), rcv + Heard(e))
  {
    assert rcv + [] == rcv && s.sent + [] == s.sent;
    match e {
      case Received(f) =>
        AnswerReceived(s, rcv, f);
      case Sending(p) =>
        if s.mode != Unknown {
          var d := Encapsulate(s.mode, p)[0];
          SnocAcks(s.sent, d);
          assert IsData(d);
          assert Acks(s.sent) + [] == Acks(s.sent);
        }
      case Closing =>
    }
  }

  lemma AnswerReceived(s: Proto, rcv: seq<WireFrame>, f: WireFrame)
    requires Latched(s, rcv) && Answered(s, rcv) && s.open && Readable(s.mode, f)
    ensures Answered(AfterFrame(s, f).0, rcv + [f])
  {
    var s' := AfterFrame(s, f).0;
    ResponseIsDue(f);
    assert Acks(s.sent) == AnswersDue(rcv) || s.mode == Length by {
      assert s.mode == Unknown ==> rcv == [] && s.sent == [];
    }
    if s.mode == Length || f.LengthFrame? {
      AnswerOutsideEscaping(s, rcv, f);
    } else if Response(f) == [] {
      SnocAnswers(rcv, f);
      assert AnswersDue(rcv) + [] == AnswersDue(rcv);
      assert s'.sent == s.sent;
    } else {
      SnocAnswers(rcv, f);
      var r := Response(f)[0];
      assert Response(f) == [r] && !IsData(r) && s'.sent == s.sent + [r];
      SnocAcks(s.sent, r);
    }
  }

  lemma AnswerOutsideEscaping(s: Proto, rcv: seq<WireFrame>, f: WireFrame)
    requires Latched(s, rcv) && Answered(s, rcv) && s.open && Readable(s.mode, f)
    requires s.mode == Length || f.LengthFrame?
    ensures Answered(AfterFrame(s, f).0, rcv + [f])
  {
    var s' := AfterFrame(s, f).0;
    assert s'.sent == s.sent;
    if s'.mode == Escaping {
      SnocAnswers(rcv, f);
      assert AnswersDue(rcv) + [] == AnswersDue(rcv);
    }
  }

  /**
   Conservation of commands: with the data frames removed, a connection in escaping mode has sent exactly
   the answers due to the commands received, in order; a connection in length mode has sent no answers at all.
   */
  lemma {:induction false} AcksMatchCommands(tr: seq<ProtoEvent>)
    requires Possible(tr)
    ensures Acks(ProtoRun(tr).sent) == if ProtoRun(tr).mode == Escaping then AnswersDue(ReceivedOf(tr)) else []
  {
    if tr != [] {
      var before := tr[..|tr| - 1];
      AcksMatchCommands(before);
      LatchedAlong(before);
      AnswerStep(ProtoRun(before), ReceivedOf(before), tr[|tr| - 1]);
    }
  }

  // -------------------------------------------------------------------- class

  /** Octets that a peer decodes to complete frames. */
  type FrameOctets = w: seq<byte> | Listen(Idle, w).0 == Idle witness []

  lemma WriteFrame(w: FrameOctets, f: WireFrame)
    ensures Listen(Idle, w + Encode(f)) == (Idle, Listen(Idle, w).1 + [f])
  {
    ListenConcat(Idle, w, Encode(f));
    ListenFrame(f, []);
    assert Encode(f) + [] == Encode(f);
    assert Listen(Idle, []) == (Idle, []) && [f] + [] == [f];
  }

  class GatewayAccessProtocol {
    var mode: Mode
    /** The frame endpoint: whether it is open, and what it has written to the socket. */
    var open: bool
    var wire: FrameOctets
    /** The number of the handler this belongs to; it keeps the objects of different handlers apart. */
    ghost const tag: nat

    /** The frames sent are those that a peer decodes from what was written. */
    function View(): Proto
      reads this
    {
      Proto(mode, open, Listen(Idle, wire).1)
    }

    constructor (ghost tag: nat)
      ensures View() == NEW && this.tag == tag
    {
      mode, open, wire := Unknown, true, [];
      this.tag := tag;
    }

    /** Of the frame endpoint: frames are serialised to the socket in order, unless it is closed. */
    method SendFrame(f: WireFrame) returns (ok: bool)
      modifies this
      ensures View() == Transmit(old(View()), [f])
      ensures ok == open
    {
      if open {
        var octets := SerializeFrame(f);
        WriteFrame(wire, f);
        wire := wire + octets;
      }
      ok := open;
    }

    method SerializeFrame(f: WireFrame) returns (octets: seq<byte>)
      ensures octets == Encode(f)
    {
      if f.EscapedFrame? {
        var frame := new E.GatewayAccessFrameEscaped.Create(f.payload);
        var stuffed, reserved := frame.Serialize();
        octets := stuffed;
      } else {
        var frame := new L.GatewayAccessFrameLength.Create(f.payload);
        octets := frame.Serialize();
      }
    }

    method Send(payload: seq<byte>) returns (ok: bool)
      requires Sendable(mode, payload)
      modifies this
      ensures View() == AfterSend(old(View()), payload)
      ensures ok == (mode == Unknown || open)
    {
      ok := false;
      if mode == Unknown {
        ok := true;
        var sent := Listen(Idle, wire).1;
        assert sent + [] == sent;
      } else if mode == Escaping {
        ok := SendFrame(EscapedFrame([0x03, 0x02] + payload));
      } else if mode == Length {
        ok := SendFrame(LengthFrame(payload));
      }
    }

    method Close() returns (up: Upcall)
      modifies this
      ensures View() == old(View()).(open := false) && up == Closed
    {
      open := false;
      up := Closed;
    }

    method OnFrame(f: WireFrame) returns (up: Upcall)
      requires Readable(mode, f)
      modifies this
      ensures (View(), up) == AfterFrame(old(View()), f)
    {
      up := Nothing;
      match f {
        case EscapedFrame(payload) =>
          if mode == Escaping || mode == Unknown {
            mode := Escaping;
            var hi: int, lo: int := payload[0], payload[1];
            var requestId := hi * 0x100 + lo;
            if requestId == 0x0100 {
              var ok := SendFrame(EscapedFrame([0x01, 0x01, 0x00, 0x00]));
            } else if requestId == 0x0110 {
              var ok := SendFrame(EscapedFrame([0x01, 0x11, 0x00, 0x00]));
            } else if requestId == 0x0300 {
              var ok := SendFrame(EscapedFrame([0x03, 0x01, 0x00, 0x00]));
              up := Deliver(payload[2..]);
            } else {
              up := Close();
            }
          } else {
            up := Close();
          }
        case LengthFrame(payload) =>
          if mode == Length || mode == Unknown {
            mode := Length;
            up := Deliver(payload);
          } else {
            up := Close();
          }
      }
    }
  }
}
