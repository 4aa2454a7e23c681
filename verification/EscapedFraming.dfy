/**
 The escaping-based frame: octet stuffing as in section 4.2 of RFC 1662, with
 0x7E delimiting every frame on both sides and 0x7D as the escape octet.

 `Encode` is the reference definition of a frame on the wire, `Next` is one step
 of the reference decoder. The class holds the source's loops and its in-place
 decoder, each proved against those two; the lemmas say what the two promise.
 */
module EscapedFraming {
  import opened Octets

  const FLAG: byte := 0x7E
  const ESCAPE: byte := 0x7D
  const MTU: nat := 4095

  // ---------------------------------------------------------------- encoding

  predicate Special(b: byte) {
    b == ESCAPE || b == FLAG
  }

  /** Complements the bit of value 0x20, the transparency rule of RFC 1662. */
  function Complement(b: byte): byte {
    if (b / 0x20) % 2 == 1 then b - 0x20 else b + 0x20
  }

  function StuffByte(b: byte): seq<byte> {
    if Special(b) then [ESCAPE, Complement(b)] else [b]
  }

  function Stuff(p: seq<byte>): seq<byte> {
    if p == [] then [] else StuffByte(p[0]) + Stuff(p[1..])
  }

  function Encode(p: seq<byte>): seq<byte> {
    [FLAG] + Stuff(p) + [FLAG]
  }

  function CountSpecial(p: seq<byte>): nat {
    if p == [] then 0 else (if Special(p[0]) then 1 else 0) + CountSpecial(p[1..])
  }

  lemma {:induction false} StuffAppend(p: seq<byte>, b: byte)
    ensures Stuff(p + [b]) == Stuff(p) + StuffByte(b)
    ensures CountSpecial(p + [b]) == CountSpecial(p) + (if Special(b) then 1 else 0)
  {
    if p == [] {
      assert [b][1..] == [];
    } else {
      assert (p + [b])[1..] == p[1..] + [b];
      StuffAppend(p[1..], b);
    }
  }

  lemma StuffNext(p: seq<byte>, i: nat)
    requires i < |p|
    ensures Stuff(p[..i + 1]) == Stuff(p[..i]) + StuffByte(p[i])
    ensures CountSpecial(p[..i + 1]) == CountSpecial(p[..i]) + (if Special(p[i]) then 1 else 0)
  {
    assert p[..i + 1] == p[..i] + [p[i]];
    StuffAppend(p[..i], p[i]);
  }

  /**
   The encoding, octet by octet: an empty frame is two delimiters, and every further octet goes before the
   last one: 7D as 7D 5D, 7E as 7D 5E, and any other as it is.
   */
  lemma StuffingOnTheWire(p: seq<byte>, b: byte)
    ensures Encode([]) == [0x7E, 0x7E]
    ensures var before := Encode(p)[..|Encode(p)| - 1];
            Encode(p + [b]) ==
            before + (if b == 0x7D then [0x7D, 0x5D] else if b == 0x7E then [0x7D, 0x5E] else [b]) + [0x7E]
  {
    StuffAppend(p, b);
    Concat([FLAG], Stuff(p), StuffByte(b));
  }

  /** The counting loop's arithmetic: two delimiters, plus one octet for each escaped one. */
  lemma {:induction false} EncodedSize(p: seq<byte>)
    ensures |Encode(p)| == |p| + 2 + CountSpecial(p)
    ensures |p| + 2 <= |Encode(p)| <= 2 * |p| + 2
  {
    if p != [] {
      EncodedSize(p[1..]);
    }
  }

  lemma {:induction false} StuffedHasNoFlag(p: seq<byte>)
    ensures FLAG !in Stuff(p)
  {
    if p != [] {
      StuffedHasNoFlag(p[1..]);
    }
  }

  /** 0x7E occurs in an encoded frame as its first and its last octet, and nowhere else. */
  lemma FlagsDelimitOnly(p: seq<byte>, i: nat)
    requires i < |Encode(p)|
    ensures Encode(p)[i] == FLAG <==> i == 0 || i == |Encode(p)| - 1
  {
    StuffedHasNoFlag(p);
    if 0 < i < |Encode(p)| - 1 {
      assert Encode(p)[i] == Stuff(p)[i - 1];
    }
  }

  // ---------------------------------------------------------------- decoding

  datatype Phase = Error | FrameStart | Unescaped | Escaped | Full

  datatype Decoder = Decoder(phase: Phase, remaining: nat, buffer: seq<byte>) {
    predicate Done() {
      phase == Full || phase == Error
    }

    /** What holds of a decoder that still waits for octets. */
    predicate Waiting() {
      && !Done()
      && remaining == 1
      && |buffer| <= MTU
      && (phase == FrameStart ==> buffer == [])
    }
  }

  const START := Decoder(FrameStart, 1, [])

  /** One received octet. */
  function Next(d: Decoder, b: byte): Decoder
    requires !d.Done()
  {
    match d.phase
    case FrameStart =>
      if b == FLAG then Decoder(Unescaped, 1, d.buffer) else Decoder(Error, 0, d.buffer + [b])
    case Unescaped =>
      if b == FLAG then Decoder(Full, 0, d.buffer)
      else if b == ESCAPE then Decoder(Escaped, 1, d.buffer)
      else if |d.buffer| < MTU then Decoder(Unescaped, 1, d.buffer + [b])
      else Decoder(Error, 0, d.buffer + [b])
    case Escaped =>
      if !Special(Complement(b)) then Decoder(Error, 0, d.buffer + [b])
      else if |d.buffer| < MTU then Decoder(Unescaped, 1, d.buffer + [Complement(b)])
      else Decoder(Error, 1, d.buffer + [Complement(b)])
  }

  /**
   Behind 7D the decoder takes 5D for 7D and 5E for 7E, as long as the payload is below the MTU; it refuses
   any other octet.
   */
  lemma EscapesOnTheWire(d: Decoder, b: byte)
    requires d.Waiting() && d.phase == Unescaped
    ensures !Next(d, 0x7D).Done()
    ensures var n := Next(Next(d, 0x7D), b);
            if (b == 0x5D || b == 0x5E) && |d.buffer| < 4095 then
              n == Decoder(Unescaped, 1, d.buffer + [if b == 0x5D then 0x7D else 0x7E])
            else
              n.phase == Error
  {
  }

  /** Feeds octets until the decoder is done; the second result is what it left unread. */
  function Feed(d: Decoder, w: seq<byte>): (Decoder, seq<byte>)
    decreases |w|
  {
    if w == [] || d.Done() then (d, w) else Feed(Next(d, w[0]), w[1..])
  }

  lemma {:induction false} FeedConcat(d: Decoder, v: seq<byte>, w: seq<byte>)
    ensures Feed(d, v).0.Done() ==> Feed(d, v + w) == (Feed(d, v).0, Feed(d, v).1 + w)
    ensures !Feed(d, v).0.Done() ==> Feed(d, v).1 == [] && Feed(d, v + w) == Feed(Feed(d, v).0, w)
    decreases |v|
  {
    if v == [] {
      assert v + w == w;
    } else if !d.Done() {
      assert (v + w)[1..] == v[1..] + w;
      FeedConcat(Next(d, v[0]), v[1..], w);
    }
  }

  /** A stuffed octet is stored as it was. */
  lemma FeedByte(pre: seq<byte>, b: byte, tail: seq<byte>)
    requires |pre| < MTU
    ensures Feed(Decoder(Unescaped, 1, pre), StuffByte(b) + tail) == Feed(Decoder(Unescaped, 1, pre + [b]), tail)
  {
    var d, w := Decoder(Unescaped, 1, pre), StuffByte(b) + tail;
    if Special(b) {
      assert w[1..] == [Complement(b)] + tail && w[1..][1..] == tail;
      assert Complement(Complement(b)) == b;
      assert Feed(d, w) == Feed(Decoder(Escaped, 1, pre), w[1..]);
    } else {
      assert w[1..] == tail;
    }
  }

  /** Inside a frame, stuffed octets come out as they went in. */
  lemma {:induction false} FeedStuffed(pre: seq<byte>, p: seq<byte>, rest: seq<byte>)
    requires |pre| + |p| <= MTU
    ensures Feed(Decoder(Unescaped, 1, pre), Stuff(p) + rest) == Feed(Decoder(Unescaped, 1, pre + p), rest)
    decreases |p|
  {
    if p == [] {
      assert Stuff(p) + rest == rest && pre + p == pre;
    } else {
      var tail := Stuff(p[1..]) + rest;
      FeedByte(pre, p[0], tail);
      FeedStuffed(pre + [p[0]], p[1..], rest);
      Concat(StuffByte(p[0]), Stuff(p[1..]), rest);
      Concat(pre, [p[0]], p[1..]);
      assert [p[0]] + p[1..] == p;
    }
  }

  /**
   Round trip, up to and including the MTU: the decoder returns the payload, stops at the
   closing delimiter and leaves what follows the frame untouched.
   */
  lemma RoundTrip(p: seq<byte>, rest: seq<byte>)
    requires |p| <= MTU
    ensures Feed(START, Encode(p) + rest) == (Decoder(Full, 0, p), rest)
  {
    var w := Encode(p) + rest;
    var tail := [FLAG] + rest;
    assert w[1..] == Stuff(p) + tail;
    assert Feed(START, w) == Feed(Decoder(Unescaped, 1, []), w[1..]);
    FeedStuffed([], p, tail);
    assert [] + p == p && tail[1..] == rest;
  }

  /** The octets that take a decoder from its start to `d`: every phase but Error determines them. */
  function HasRead(d: Decoder): seq<byte> {
    match d.phase
    case Unescaped => [FLAG] + Stuff(d.buffer)
    case Escaped => [FLAG] + Stuff(d.buffer) + [ESCAPE]
    case Full => Encode(d.buffer)
    case _ => []
  }

  lemma StepReads(d: Decoder, b: byte)
    requires d.Waiting()
    ensures var n := Next(d, b);
            || n.phase == Error
            || (HasRead(n) == HasRead(d) + [b] && (n.Waiting() || n.phase == Full) && |n.buffer| <= MTU)
  {
    if d.phase == Unescaped && !Special(b) {
      StuffAppend(d.buffer, b);
      assert [FLAG] + (Stuff(d.buffer) + [b]) == [FLAG] + Stuff(d.buffer) + [b];
    } else if d.phase == Escaped && Special(Complement(b)) {
      EscapedReads(d.buffer, b);
    }
  }

  lemma EscapedReads(p: seq<byte>, b: byte)
    requires Special(Complement(b))
    ensures [FLAG] + Stuff(p + [Complement(b)]) == [FLAG] + Stuff(p) + [ESCAPE] + [b]
  {
    StuffAppend(p, Complement(b));
    assert StuffByte(Complement(b)) == [ESCAPE] + [b];
    Concat(Stuff(p), [ESCAPE], [b]);
    Concat([FLAG], Stuff(p) + [ESCAPE], [b]);
    Concat([FLAG], Stuff(p), [ESCAPE]);
  }

  lemma {:induction false} FeedReads(d: Decoder, w: seq<byte>)
    requires d.Waiting() || (d.phase == Full && |d.buffer| <= MTU)
    ensures var (r, rest) := Feed(d, w);
            r.phase == Error ||
            (HasRead(r) + rest == HasRead(d) + w && (r.Waiting() || r.phase == Full) && |r.buffer| <= MTU)
    decreases |w|
  {
    if w != [] && !d.Done() {
      StepReads(d, w[0]);
      var n := Next(d, w[0]);
      if n.phase != Error {
        FeedReads(n, w[1..]);
        assert HasRead(d) + [w[0]] + w[1..] == HasRead(d) + w;
      }
    }
  }

  /** What the decoder has read from the beginning of a stream. */
  lemma FeedFromStart(w: seq<byte>)
    ensures var (r, rest) := Feed(START, w);
            && (r.phase == Full ==> |r.buffer| <= MTU && w == Encode(r.buffer) + rest)
            && (!r.Done() ==> r.Waiting() && rest == [] && w == HasRead(r))
  {
    FeedReads(START, w);
    FeedConcat(START, w, []);
    assert HasRead(Feed(START, w).0) + [] == HasRead(Feed(START, w).0);
    assert HasRead(START) + w == w;
  }

  /**
   Exactness: the decoder completes a frame on exactly those byte sequences that begin with the
   encoding of a payload within the MTU, and re-encoding what it decoded restores what it consumed.
   */
  lemma DecodingIsExact(w: seq<byte>)
    ensures var (r, rest) := Feed(START, w);
            && (r.phase == Full <==> exists p, t :: |p| <= MTU && w == Encode(p) + t)
            && (r.phase == Full ==> |r.buffer| <= MTU && Encode(r.buffer) + rest == w)
            && (r.phase == Full && rest == [] <==> exists p :: |p| <= MTU && w == Encode(p))
  {
    var (r, rest) := Feed(START, w);
    FeedFromStart(w);
    if r.phase == Full {
      assert |r.buffer| <= MTU && w == Encode(r.buffer) + rest;
      if rest == [] {
        assert w == Encode(r.buffer);
      }
    }
    forall p, t | |p| <= MTU && w == Encode(p) + t
      ensures r.phase == Full && rest == t
    {
      RoundTrip(p, t);
    }
    forall p | |p| <= MTU && w == Encode(p)
      ensures r.phase == Full && rest == []
    {
      assert w == Encode(p) + [];
    }
  }

  /** No encoding is a prefix of another one: frames delimit themselves. */
  lemma PrefixFree(p: seq<byte>, q: seq<byte>, s: seq<byte>, t: seq<byte>)
    requires |p| <= MTU && |q| <= MTU
    requires Encode(p) + s == Encode(q) + t
    ensures p == q && s == t
  {
    RoundTrip(p, s);
    RoundTrip(q, t);
  }

  ghost predicate Completable(w: seq<byte>) {
    exists p, t :: |p| <= MTU && w + t == Encode(p)
  }

  /** A decoder that has read an escape octet behind a payload that fills the MTU. */
  predicate Doomed(d: Decoder) {
    d.phase == Escaped && |d.buffer| == MTU
  }

  /** Any other waiting decoder can complete a frame at once. */
  lemma Completion(d: Decoder) returns (p: seq<byte>, t: seq<byte>)
    requires d.Waiting() && !Doomed(d)
    ensures |p| <= MTU && HasRead(d) + t == Encode(p)
  {
    match d.phase {
      case FrameStart =>
        p, t := [], Encode([]);
      case Unescaped =>
        p, t := d.buffer, [FLAG];
      case Escaped =>
        p, t := d.buffer + [FLAG], [Complement(FLAG), FLAG];
        StuffAppend(d.buffer, FLAG);
        assert HasRead(d) + t == [FLAG] + (Stuff(d.buffer) + StuffByte(FLAG)) + [FLAG];
    }
  }

  /**
   What a decoder that has read all of `w` without finishing can still hope for: a frame that
   begins with `w` exists, except when an escape octet follows a payload that fills the MTU.
   The decoder reports that one case only after the next octet.
   */
  lemma WaitingIsCompletable(w: seq<byte>)
    requires !Feed(START, w).0.Done()
    ensures var r := Feed(START, w).0;
            Completable(w) <==> !(r.phase == Escaped && |r.buffer| == MTU)
  {
    var r := Feed(START, w).0;
    FeedFromStart(w);
    if Doomed(r) {
      forall q, t | |q| <= MTU && w + t == Encode(q)
        ensures false
      {
        assert w + t == Encode(q) + [];
        RoundTrip(q, []);
        FeedConcat(START, w, t);
        EscapedAtMtuFails(r, t);
      }
    } else {
      var p, t := Completion(r);
      assert w + t == Encode(p);
    }
  }

  lemma EscapedAtMtuFails(d: Decoder, t: seq<byte>)
    requires d.phase == Escaped && |d.buffer| == MTU
    ensures Feed(d, t).0.phase != Full
  {
    if t != [] {
      assert Next(d, t[0]).phase == Error;
    }
  }

  /** The decoder gives up only on octets that no frame begins with. */
  lemma ErrorsAreHopeless(w: seq<byte>)
    requires Feed(START, w).0.phase == Error
    ensures !Completable(w)
  {
    forall p, t | |p| <= MTU && w + t == Encode(p)
      ensures false
    {
      assert w + t == Encode(p) + [];
      RoundTrip(p, []);
      FeedConcat(START, w, t);
    }
  }

  // ------------------------------------------------------------- termination

  /** How many octets the decoder can still take. */
  function Measure(d: Decoder): nat {
    match d.phase
    case FrameStart => 2 * (MTU + 1) + 1
    case Unescaped => if |d.buffer| <= MTU then 2 * (MTU + 1 - |d.buffer|) else 0
    case Escaped => if |d.buffer| <= MTU then 2 * (MTU + 1 - |d.buffer|) - 1 else 0
    case _ => 0
  }

  /** Every octet moves a waiting decoder strictly closer to its end, and it asks for one octet at a time. */
  lemma StepProgress(d: Decoder, b: byte)
    requires d.Waiting()
    ensures Measure(Next(d, b)) < Measure(d)
    ensures Next(d, b).Done() || Next(d, b).Waiting()
    ensures Next(d, b).phase == Full ==> |Next(d, b).buffer| <= MTU
  {
  }

  lemma {:induction false} FeedConsumesAtMost(d: Decoder, w: seq<byte>)
    requires d.Waiting() || d.Done()
    ensures |w| - |Feed(d, w).1| <= Measure(d)
    ensures Feed(d, w).0.Done() || |w| < Measure(d)
    decreases |w|
  {
    if w != [] && !d.Done() {
      StepProgress(d, w[0]);
      FeedConsumesAtMost(Next(d, w[0]), w[1..]);
    }
  }

  /** Whatever arrives, a frame or an error is found within 8193 octets ... */
  lemma DecoderTerminates(w: seq<byte>)
    ensures |w| - |Feed(START, w).1| <= 8193
    ensures |w| >= 8193 ==> Feed(START, w).0.Done()
    ensures Feed(START, w).0.Done() || Feed(START, w).0.Waiting()
  {
    FeedConsumesAtMost(START, w);
    FeedFromStart(w);
  }

  /** ... and no smaller bound holds: after this stream of 8192 octets the decoder still waits. */
  lemma TerminationBoundIsTight() returns (w: seq<byte>)
    ensures |w| == 8192 && !Feed(START, w).0.Done()
  {
    var p := seq(MTU, i => ESCAPE);
    AllSpecial(p);
    EncodedSize(p);
    w := [FLAG] + Stuff(p) + [ESCAPE];
    assert w[1..] == Stuff(p) + [ESCAPE];
    FeedStuffed([], p, [ESCAPE]);
    assert [] + p == p;
    var d := Decoder(Unescaped, 1, p);
    assert Feed(d, [ESCAPE]) == Feed(Next(d, ESCAPE), []);
  }

  lemma {:induction false} AllSpecial(p: seq<byte>)
    requires forall i :: 0 <= i < |p| ==> p[i] == ESCAPE
    ensures CountSpecial(p) == |p|
  {
    if p != [] {
      AllSpecial(p[1..]);
    }
  }

  // ------------------------------------------------------------------- class

  /** One escaping-based frame, to be sent or being received. */
  class GatewayAccessFrameEscaped {
    var phase: Phase
    var remaining: nat
    var buffer: seq<byte>

    function View(): Decoder
      reads this
    {
      Decoder(phase, remaining, buffer)
    }

    /** An outgoing frame. */
    constructor Create(payload: seq<byte>)
      requires |payload| < 4096
      ensures View() == Decoder(Full, 0, payload)
    {
      phase, remaining, buffer := Full, 0, payload;
    }

    /** A frame about to be received; it asks for the opening delimiter. */
    constructor CreateDeserializedFrame()
      ensures View() == START
    {
      phase, remaining, buffer := FrameStart, 1, [];
    }

    method GetPayload() returns (payload: seq<byte>)
      requires phase == Full
      ensures payload == buffer
    {
      payload := buffer;
    }

    /** The frame's octets; `reserved` is the capacity computed by the first loop. */
    method Serialize() returns (out: seq<byte>, reserved: nat)
      requires phase == Full
      ensures out == Encode(buffer)
      ensures reserved == |out|
    {
      var escapes := CountEscapes();
      reserved := |buffer| + escapes;
      out := AppendEscaped();
      EncodedSize(buffer);
    }

    method CountEscapes() returns (escapes: nat)
      ensures escapes == 2 + CountSpecial(buffer)
    {
      escapes := 2;
      for i := 0 to |buffer|
        invariant escapes == 2 + CountSpecial(buffer[..i])
      {
        if buffer[i] == 0x7D || buffer[i] == 0x7E {
          escapes := escapes + 1;
        }
        StuffNext(buffer, i);
      }
      assert buffer[..|buffer|] == buffer;
    }

    method AppendEscaped() returns (out: seq<byte>)
      ensures out == Encode(buffer)
    {
      out := [0x7E];
      for i := 0 to |buffer|
        invariant out == [FLAG] + Stuff(buffer[..i])
      {
        StuffNext(buffer, i);
        if buffer[i] == 0x7D {
          out := out + [0x7D];
          out := out + [0x5D];
        } else if buffer[i] == 0x7E {
          out := out + [0x7D];
          out := out + [0x5E];
        } else {
          out := out + [buffer[i]];
        }
      }
      assert buffer[..|buffer|] == buffer;
      out := out + [0x7E];
    }

    /** Consumes the last octet of the buffer, where the receiver has just stored it. */
    method Deserialize() returns (ok: bool)
      requires phase != Full && phase != Error
      requires remaining == 0 && buffer != []
      modifies this
      ensures View() == Next(Decoder(old(phase), 1, old(buffer[..|buffer| - 1])), old(buffer[|buffer| - 1]))
      ensures ok <==> phase != Error
    {
      var n := |buffer|;
      var last := buffer[n - 1];
      match phase {
        case FrameStart =>
          if last != 0x7E {
            phase := Error;
            return false;
          } else {
            phase := Unescaped;
            remaining := 1;
            buffer := buffer[..n - 1];
          }
        case Unescaped =>
          if last == 0x7E {
            phase := Full;
            buffer := buffer[..n - 1];
          } else if last == 0x7D {
            phase := Escaped;
            remaining := 1;
            buffer := buffer[..n - 1];
          } else {
            if n < 4096 {
              remaining := 1;
            } else {
              phase := Error;
              return false;
            }
          }
        case Escaped =>
          if last == 0x5E {
            buffer := buffer[n - 1 := 0x7E];
            remaining := 1;
          } else if last == 0x5D {
            buffer := buffer[n - 1 := 0x7D];
            remaining := 1;
          } else {
            phase := Error;
            return false;
          }
          if |buffer| >= 4096 {
            phase := Error;
            return false;
          }
          phase := Unescaped;
      }
      return true;
    }
  }
}
