/**
 Frames of both formats on one byte stream. The upper nibble of the first octet of each
 frame selects the decoder; whatever no decoder accepts takes the connection down.
 */
module FrameStream {
  import opened Octets
  import E = EscapedFraming
  import L = LengthFraming

  datatype Frame = EscapedFrame(payload: seq<byte>) | LengthFrame(payload: seq<byte>) {
    predicate Fits() {
      |payload| <= 4095
    }
  }

  /** A frame that can be sent, and what reception can produce. */
  type WireFrame = f: Frame | f.Fits() witness EscapedFrame([])

  function Encode(f: WireFrame): seq<byte> {
    match f
    case EscapedFrame(p) => E.Encode(p)
    case LengthFrame(p) => L.Encode(p)
  }

  function EncodeAll(fs: seq<WireFrame>): seq<byte> {
    if fs == [] then [] else Encode(fs[0]) + EncodeAll(fs[1..])
  }

  // --------------------------------------------------------------- reception

  datatype LinkState = Idle | InEscaped(e: E.Decoder) | InLength(l: L.Decoder) | Down {
    predicate Valid() {
      && (InEscaped? ==> e.Waiting())
      && (InLength? ==> l.Waiting())
    }
  }

  /** The receiving side of a connection between two octets. */
  type Link = k: LinkState | k.Valid() witness Idle

  function AfterEscaped(d: E.Decoder): (Link, Option<WireFrame>)
    requires d.Waiting() || d.phase == E.Error || (d.phase == E.Full && |d.buffer| <= 4095)
  {
    match d.phase
    case Full => (Idle, Some(EscapedFrame(d.buffer)))
    case Error => (Down, None)
    case _ => (InEscaped(d), None)
  }

  function AfterLength(d: L.Decoder): (Link, Option<WireFrame>)
    requires d.Waiting() || d.phase == L.Error || (d.phase == L.Full && |d.buffer| <= 4095)
  {
    match d.phase
    case Full => (Idle, Some(LengthFrame(d.buffer)))
    case Error => (Down, None)
    case _ => (InLength(d), None)
  }

  /** One received octet, and the frame it completes if it does. */
  function Receive(k: Link, b: byte): (Link, Option<WireFrame>) {
    match k
    case Idle =>
      if b / 0x10 == 0x7E / 0x10 then AfterEscaped(E.Next(E.START, b))
      else if b / 0x10 == 0x80 / 0x10 then AfterLength(L.Next(L.START, b))
      else (Down, None)
    case InEscaped(d) => E.StepProgress(d, b); AfterEscaped(E.Next(d, b))
    case InLength(d) => L.StepKeepsWaiting(d, b); AfterLength(L.Next(d, b))
    case Down => (Down, None)
  }

  function Listed(o: Option<WireFrame>): seq<WireFrame> {
    if o.Some? then [o.value] else []
  }

  /** Prepends frames to what a connection delivers. */
  function Then(fs: seq<WireFrame>, r: (Link, seq<WireFrame>)): (Link, seq<WireFrame>) {
    (r.0, fs + r.1)
  }

  function Listen(k: Link, w: seq<byte>): (Link, seq<WireFrame>)
    decreases |w|
  {
    if w == [] then (k, [])
    else
      var (k', o) := Receive(k, w[0]);
      if o.None? then Listen(k', w[1..]) else Then([o.value], Listen(k', w[1..]))
  }

  lemma ThenThen(fs: seq<WireFrame>, gs: seq<WireFrame>, r: (Link, seq<WireFrame>))
    ensures Then(fs, Then(gs, r)) == Then(fs + gs, r)
    ensures Then([], r) == r
  {
    assert fs + (gs + r.1) == (fs + gs) + r.1;
    assert [] + r.1 == r.1;
  }

  /** The partition of the stream into reads of the socket does not matter. */
  lemma {:induction false} ListenConcat(k: Link, v: seq<byte>, w: seq<byte>)
    ensures Listen(k, v + w) == Then(Listen(k, v).1, Listen(Listen(k, v).0, w))
    decreases |v|
  {
    if v == [] {
      assert v + w == w;
      ThenThen([], [], Listen(k, w));
    } else {
      var (k', o) := Receive(k, v[0]);
      assert (v + w)[1..] == v[1..] + w;
      ListenConcat(k', v[1..], w);
      ThenThen(Listed(o), Listen(k', v[1..]).1, Listen(Listen(k', v[1..]).0, w));
    }
  }

  lemma {:induction false} ListenDown(w: seq<byte>)
    ensures Listen(Down, w) == (Down, [])
    decreases |w|
  {
    if w != [] {
      ListenDown(w[1..]);
    }
  }

  lemma {:induction false} ListenEscaped(d: E.Decoder, w: seq<byte>)
    requires d.Waiting()
    ensures var (r, rest) := E.Feed(d, w);
            match r.phase
            case Full =>
              |r.buffer| <= 4095 && Listen(InEscaped(d), w) == Then([EscapedFrame(r.buffer)], Listen(Idle, rest))
            case Error => Listen(InEscaped(d), w) == (Down, [])
            case _ => r.Waiting() && Listen(InEscaped(d), w) == (InEscaped(r), [])
    decreases |w|
  {
    if w != [] {
      E.StepProgress(d, w[0]);
      var n := E.Next(d, w[0]);
      if n.phase == E.Error {
        ListenDown(w[1..]);
      } else if n.phase != E.Full {
        ListenEscaped(n, w[1..]);
      }
    }
  }

  lemma {:induction false} ListenLength(d: L.Decoder, w: seq<byte>)
    requires d.Waiting()
    ensures var (r, rest) := L.Feed(d, w);
            match r.phase
            case Full =>
              |r.buffer| <= 4095 && Listen(InLength(d), w) == Then([LengthFrame(r.buffer)], Listen(Idle, rest))
            case Error => Listen(InLength(d), w) == (Down, [])
            case _ => r.Waiting() && Listen(InLength(d), w) == (InLength(r), [])
    decreases |w|
  {
    if w != [] {
      L.StepKeepsWaiting(d, w[0]);
      var n := L.Next(d, w[0]);
      if n.phase == L.Error {
        ListenDown(w[1..]);
      } else if n.phase != L.Full {
        ListenLength(n, w[1..]);
      }
    }
  }

  /** The first octet of a frame chooses the decoder that then reads it from its start. */
  lemma Dispatch(w: seq<byte>)
    requires w != []
    ensures w[0] / 0x10 == 7 ==> Listen(Idle, w) == Listen(InEscaped(E.START), w)
    ensures w[0] / 0x10 == 8 ==> Listen(Idle, w) == Listen(InLength(L.START), w)
    ensures w[0] / 0x10 != 7 && w[0] / 0x10 != 8 ==> Listen(Idle, w) == (Down, [])
  {
    ListenDown(w[1..]);
  }

  /** One frame at the front of a stream is delivered as it was sent, and the rest is left to the next one. */
  lemma ListenFrame(f: WireFrame, rest: seq<byte>)
    ensures Listen(Idle, Encode(f) + rest) == Then([f], Listen(Idle, rest))
  {
    var w := Encode(f) + rest;
    Dispatch(w);
    match f {
      case EscapedFrame(p) =>
        E.RoundTrip(p, rest);
        ListenEscaped(E.START, w);
      case LengthFrame(p) =>
        L.SplitAndJoin(L.TAG, |p|);
        L.RoundTrip(p, rest);
        ListenLength(L.START, w);
    }
  }

  /**
   Unique decoding: any sequence of frames in either format, written back to back, is received as
   exactly that sequence; every octet is consumed and none beyond the last frame is needed.
   */
  lemma {:induction false} UniqueDecoding(fs: seq<WireFrame>, rest: seq<byte>)
    ensures Listen(Idle, EncodeAll(fs)) == (Idle, fs)
    ensures Listen(Idle, EncodeAll(fs) + rest) == Then(fs, Listen(Idle, rest))
  {
    if fs == [] {
      assert EncodeAll(fs) + rest == rest;
      ThenThen([], [], Listen(Idle, rest));
    } else {
      var tail := EncodeAll(fs[1..]);
      UniqueDecoding(fs[1..], rest);
      ListenFrame(fs[0], tail);
      ListenFrame(fs[0], tail + rest);
      assert EncodeAll(fs) + rest == Encode(fs[0]) + (tail + rest);
      assert fs == [fs[0]] + fs[1..];
      ThenThen([fs[0]], fs[1..], Listen(Idle, rest));
    }
  }

  /** The octets of a frame that has begun but is not complete. */
  function Begun(k: Link): seq<byte> {
    match k
    case InEscaped(d) => E.HasRead(d)
    case InLength(d) => L.HasRead(L.TAG, d)
    case _ => []
  }

  predicate HasTag(k: Link) {
    k.InLength? ==> L.SawTag(L.TAG, k.l)
  }

  /** A connection that is up has received precisely the frames it delivered and the one it is in. */
  lemma {:induction false} ListenMeans(w: seq<byte>)
    ensures var (k, fs) := Listen(Idle, w);
            k == Down || (w == EncodeAll(fs) + Begun(k) && HasTag(k))
    decreases |w|
  {
    if w != [] {
      Dispatch(w);
      if w[0] / 0x10 == 7 {
        ListenEscaped(E.START, w);
        E.FeedFromStart(w);
        var (r, rest) := E.Feed(E.START, w);
        if r.phase == E.Full {
          FrameThenRest(EscapedFrame(r.buffer), w, rest);
        } else if r.phase != E.Error {
          assert EncodeAll([]) + E.HasRead(r) == E.HasRead(r);
        }
      } else if w[0] / 0x10 == 8 {
        ListenLength(L.START, w);
        L.FeedFromStart(L.TAG, w);
        var (r, rest) := L.Feed(L.START, w);
        if r.phase == L.Full {
          FrameThenRest(LengthFrame(r.buffer), w, rest);
        } else {
          assert EncodeAll([]) + L.HasRead(L.TAG, r) == L.HasRead(L.TAG, r);
        }
      }
    }
  }

  lemma {:induction false} FrameThenRest(f: WireFrame, w: seq<byte>, rest: seq<byte>)
    requires w == Encode(f) + rest && |rest| < |w|
    requires Listen(Idle, w) == Then([f], Listen(Idle, rest))
    ensures var (k, fs) := Listen(Idle, w);
            k == Down || (w == EncodeAll(fs) + Begun(k) && HasTag(k))
    decreases |w|, 0
  {
    ListenMeans(rest);
    var (k, gs) := Listen(Idle, rest);
    assert ([f] + gs)[1..] == gs;
    if k != Down {
      assert Encode(f) + (EncodeAll(gs) + Begun(k)) == (Encode(f) + EncodeAll(gs)) + Begun(k);
    }
  }

  lemma {:induction false} EncodeAllAppend(fs: seq<WireFrame>, f: WireFrame)
    ensures EncodeAll(fs + [f]) == EncodeAll(fs) + Encode(f)
  {
    if fs == [] {
      assert [f][1..] == [] && Encode(f) + [] == Encode(f);
    } else {
      assert (fs + [f])[1..] == fs[1..] + [f];
      EncodeAllAppend(fs[1..], f);
    }
  }

  /** The streams that can still become an encoding of frames. */
  ghost predicate Continues(w: seq<byte>) {
    exists fs: seq<WireFrame>, t :: w + t == EncodeAll(fs)
  }

  /** A connection that nothing more can be received on: it is down, or will be with the next octet. */
  predicate Hopeless(k: Link) {
    k.Down? || (k.InEscaped? && E.Doomed(k.e))
  }

  lemma HopelessHearsNothing(k: Link, t: seq<byte>)
    requires Hopeless(k)
    ensures Listen(k, t).0 != Idle
  {
    if t != [] {
      assert Receive(k, t[0]) == (Down, None);
      ListenDown(t[1..]);
    }
  }

  lemma Completed(k: Link) returns (f: WireFrame, t: seq<byte>)
    requires (k.InEscaped? || k.InLength?) && !Hopeless(k) && HasTag(k)
    ensures Begun(k) + t == Encode(f)
  {
    match k {
      case InEscaped(d) =>
        var p, s := E.Completion(d);
        f, t := EscapedFrame(p), s;
      case InLength(d) =>
        var p, s := L.Completion(L.TAG, d);
        f, t := LengthFrame(p), s;
    }
  }

  lemma HopelessDoesNotContinue(w: seq<byte>, gs: seq<WireFrame>, t: seq<byte>)
    requires Hopeless(Listen(Idle, w).0)
    ensures w + t != EncodeAll(gs)
  {
    if w + t == EncodeAll(gs) {
      UniqueDecoding(gs, []);
      ListenConcat(Idle, w, t);
      HopelessHearsNothing(Listen(Idle, w).0, t);
    }
  }

  lemma Continuation(w: seq<byte>) returns (gs: seq<WireFrame>, t: seq<byte>)
    requires !Hopeless(Listen(Idle, w).0)
    ensures w + t == EncodeAll(gs)
  {
    var (k, fs) := Listen(Idle, w);
    ListenMeans(w);
    if k == Idle {
      gs, t := fs, [];
      Concat(EncodeAll(fs), [], []);
    } else {
      var f, s := Completed(k);
      gs, t := fs + [f], s;
      EncodeAllAppend(fs, f);
      Concat(EncodeAll(fs), Begun(k), t);
    }
  }

  /**
   The accepted streams are exactly the encodings of frame sequences: a stream leaves the connection
   between two frames if and only if it is such an encoding, and re-encoding what was received gives
   the stream back. A stream is the beginning of some such encoding if and only if it neither took the
   connection down nor left it with an escape octet behind a payload that fills the MTU.
   */
  lemma StreamsAreFrameSequences(w: seq<byte>)
    ensures var (k, fs) := Listen(Idle, w);
            && (k == Idle <==> exists gs: seq<WireFrame> :: w == EncodeAll(gs))
            && (k == Idle ==> EncodeAll(fs) == w)
            && (Continues(w) <==> !(k == Down || (k.InEscaped? && k.e.phase == E.Escaped && |k.e.buffer| == 4095)))
  {
    var (k, fs) := Listen(Idle, w);
    ListenMeans(w);
    if k == Idle {
      assert EncodeAll(fs) + [] == EncodeAll(fs);
    }
    forall gs: seq<WireFrame> | w == EncodeAll(gs)
      ensures k == Idle
    {
      UniqueDecoding(gs, []);
    }
    if Hopeless(k) {
      forall gs: seq<WireFrame>, t: seq<byte>
        ensures w + t != EncodeAll(gs)
      {
        HopelessDoesNotContinue(w, gs, t);
      }
    } else {
      var gs, t := Continuation(w);
    }
  }

  // ------------------------------------------------------------------- class

  /** Storing several octets at once, short of what the frame asked for, only fills its buffer. */
  lemma {:induction false} StoreSome(d: L.Decoder, v: seq<byte>, rest: seq<byte>)
    requires d.Waiting() && |v| < d.remaining
    ensures var n := L.Decoder(d.phase, d.remaining - |v|, d.buffer + v);
            n.Waiting() && Listen(InLength(d), v + rest) == Listen(InLength(n), rest)
    decreases |v|
  {
    if v == [] {
      assert v + rest == rest && d.buffer + v == d.buffer;
    } else {
      var n := L.Next(d, v[0]);
      assert n == L.Decoder(d.phase, d.remaining - 1, d.buffer + [v[0]]);
      StoreSome(n, v[1..], rest);
      assert (v + rest)[1..] == v[1..] + rest;
      assert d.buffer + [v[0]] + v[1..] == d.buffer + v;
    }
  }

  /** Storing all of them and then running the decoder once is the same as octet by octet. */
  lemma StoreAll(d: L.Decoder, v: seq<byte>, rest: seq<byte>)
    requires d.Waiting() && |v| == d.remaining
    ensures var n := L.Decoder(d.phase, 1, d.buffer + v[..|v| - 1]);
            n.Waiting() && Listen(InLength(d), v + rest) == Listen(InLength(n), [v[|v| - 1]] + rest)
  {
    var front, last := v[..|v| - 1], [v[|v| - 1]];
    assert v + rest == front + (last + rest);
    StoreSome(d, front, last + rest);
  }

  /** The last octet asked for runs the decoder. */
  lemma ListenLast(d: L.Decoder, last: byte, rest: seq<byte>)
    requires d.Waiting()
    ensures var n := L.Next(d, last);
            && (n.Waiting() || n.phase == L.Error || (n.phase == L.Full && |n.buffer| <= 4095))
            && Listen(InLength(d), [last] + rest) == Then(Listed(AfterLength(n).1), Listen(AfterLength(n).0, rest))
  {
    L.StepKeepsWaiting(d, last);
    assert ([last] + rest)[1..] == rest;
    ThenThen([], [], Listen(AfterLength(L.Next(d, last)).0, rest));
  }

  /** The receiving half of the frame endpoint: it owns the frame that is being read, if any. */
  class FrameReceiver {
    var escaped: E.GatewayAccessFrameEscaped?
    var length: L.GatewayAccessFrameLength?
    var down: bool

    function State(): LinkState
      reads this, escaped, length
    {
      if down then Down
      else if escaped != null then InEscaped(escaped.View())
      else if length != null then InLength(length.View())
      else Idle
    }

    ghost predicate Valid()
      reads this, escaped, length
    {
      && State().Valid()
      && (escaped == null || length == null)
      && (down ==> escaped == null && length == null)
    }

    constructor ()
      ensures Valid() && State() == Idle
    {
      escaped, length, down := null, null, false;
    }

    /** One read of the socket: the frames it completes, however the stream was cut into reads. */
    method ReceiveChunk(chunk: seq<byte>) returns (frames: seq<WireFrame>)
      requires Valid()
      modifies this, escaped, length
      ensures Valid() && Owned(old(escaped), old(length))
      ensures (State(), frames) == Listen(old(State()), chunk)
    {
      frames := [];
      var rest := chunk;
      ghost var goal := Listen(State(), chunk);
      ThenThen([], [], goal);
      while rest != [] && !down
        invariant Valid() && Owned(old(escaped), old(length))
        invariant goal == Then(frames, Listen(State(), rest))
        decreases |rest|, !down
      {
        var got, rest' := Advance(rest);
        ThenThen(frames, got, Listen(State(), rest'));
        frames, rest := frames + got, rest';
      }
      ListenDown(rest);
      assert frames + [] == frames;
    }

    /** The frame being read is the one given, or none, or one allocated since. */
    twostate predicate Owned(e: E.GatewayAccessFrameEscaped?, l: L.GatewayAccessFrameLength?)
      reads this
    {
      && (escaped == e || escaped == null || fresh(escaped))
      && (length == l || length == null || fresh(length))
    }

    /** As many octets as the frame being read has asked for, or as there are. */
    method Advance(w: seq<byte>) returns (got: seq<WireFrame>, rest: seq<byte>)
      requires Valid() && !down && w != []
      modifies this, escaped, length
      ensures Valid() && Owned(old(escaped), old(length))
      ensures Listen(old(State()), w) == Then(got, Listen(State(), rest))
      ensures |rest| < |w| || (rest == w && down)
    {
      if escaped == null && length == null {
        StartFrame(w[0], w);
      }
      if escaped != null {
        assert w == [w[0]] + w[1..];
        rest := w[1..];
        got := ReceiveEscaped(w[0], rest);
      } else if length != null {
        var n := if length.remaining <= |w| then length.remaining else |w|;
        assert w == w[..n] + w[n..];
        rest := w[n..];
        got := ReceiveLength(w[..n], rest);
      } else {
        got, rest := [], w;
        ThenThen([], [], Listen(State(), w));
      }
    }

    /** The first octet of a frame chooses the decoder; it is not consumed yet. */
    method StartFrame(first: byte, ghost w: seq<byte>)
      requires Valid() && State() == Idle
      requires w != [] && w[0] == first
      modifies this
      ensures Valid() && State() != Idle
      ensures escaped == null || fresh(escaped)
      ensures length == null || fresh(length)
      ensures Listen(State(), w) == Listen(Idle, w)
    {
      Dispatch(w);
      ListenDown(w);
      if first / 0x10 == 0x7E / 0x10 {
        escaped := new E.GatewayAccessFrameEscaped.CreateDeserializedFrame();
      } else if first / 0x10 == 0x80 / 0x10 {
        length := new L.GatewayAccessFrameLength.CreateDeserializedFrame();
      } else {
        down := true;
      }
    }

    method ReceiveEscaped(b: byte, ghost rest: seq<byte>) returns (got: seq<WireFrame>)
      requires Valid() && escaped != null
      modifies this, escaped
      ensures Valid() && length == null && (escaped == old(escaped) || escaped == null)
      ensures State() == Receive(old(State()), b).0 && got == Listed(Receive(old(State()), b).1)
      ensures Listen(old(State()), [b] + rest) == Then(got, Listen(State(), rest))
    {
      assert ([b] + rest)[1..] == rest;
      got := [];
      ghost var d := escaped.View();
      E.StepProgress(d, b);
      escaped.buffer := escaped.buffer + [b];
      escaped.remaining := escaped.remaining - 1;
      assert escaped.buffer[..|escaped.buffer| - 1] == d.buffer;
      var ok := escaped.Deserialize();
      if !ok {
        escaped, down := null, true;
      } else if escaped.phase == E.Full {
        var payload := escaped.GetPayload();
        got := [EscapedFrame(payload)];
        escaped := null;
      }
      ThenThen([], [], Listen(State(), rest));
    }

    method ReceiveLength(v: seq<byte>, ghost rest: seq<byte>) returns (got: seq<WireFrame>)
      requires Valid() && length != null && 0 < |v| <= length.remaining
      modifies this, length
      ensures Valid() && escaped == null && (length == old(length) || length == null)
      ensures Listen(old(State()), v + rest) == Then(got, Listen(State(), rest))
    {
      got := [];
      ghost var d := length.View();
      length.buffer := length.buffer + v;
      length.remaining := length.remaining - |v|;
      if length.remaining > 0 {
        StoreSome(d, v, rest);
        ThenThen([], [], Listen(State(), rest));
      } else {
        StoreAll(d, v, rest);
        ghost var last := v[|v| - 1];
        assert length.buffer == d.buffer + v[..|v| - 1] + [last];
        got := FinishLength(L.Decoder(d.phase, 1, d.buffer + v[..|v| - 1]), last, rest);
      }
    }

    /** All octets asked for have been stored. */
    method FinishLength(ghost d: L.Decoder, ghost last: byte, ghost rest: seq<byte>) returns (got: seq<WireFrame>)
      requires length != null && escaped == null && !down
      requires d.Waiting() && d.remaining == 1
      requires length.View() == L.Decoder(d.phase, 0, d.buffer + [last])
      modifies this, length
      ensures Valid() && escaped == null && (length == old(length) || length == null)
      ensures Listen(InLength(d), [last] + rest) == Then(got, Listen(State(), rest))
    {
      L.StepKeepsWaiting(d, last);
      ListenLast(d, last, rest);
      var ok := DecodeLength(d, last);
      got := DeliverLength(L.Next(d, last), ok);
    }

    method DecodeLength(ghost d: L.Decoder, ghost last: byte) returns (ok: bool)
      requires length != null && d.Waiting() && d.remaining == 1
      requires length.View() == L.Decoder(d.phase, 0, d.buffer + [last])
      modifies length
      ensures length.View() == L.Next(d, last) && ok == (length.phase != L.Error)
    {
      ok := length.Deserialize();
    }

    /** What becomes of a frame that the decoder has returned from. */
    method DeliverLength(ghost n: L.Decoder, ok: bool) returns (got: seq<WireFrame>)
      requires length != null && escaped == null && !down
      requires length.View() == n && ok == (n.phase != L.Error)
      requires n.Waiting() || n.phase == L.Error || (n.phase == L.Full && |n.buffer| <= 4095)
      modifies this
      ensures Valid() && escaped == null && (length == old(length) || length == null)
      ensures (State(), got) == (AfterLength(n).0, Listed(AfterLength(n).1))
    {
      got := [];
      if !ok {
        length, down := null, true;
      } else if length.phase == L.Full {
        var payload := length.GetPayload();
        got := [LengthFrame(payload)];
        length := null;
      }
    }
  }
}
