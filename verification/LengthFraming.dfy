/**
 The length-based frame: a two-octet header holding a tag nibble and a twelve-bit
 payload size, followed by the payload.
 */
module LengthFraming {
  import opened Octets

  const MTU: nat := 4095
  const TAG: int := 8

  // ---------------------------------------------------------------- encoding

  /** The tag of a frame is the upper nibble of its first octet; bit 7 is set in all of them. */
  type tag = t: int | 8 <= t < 16 witness 8

  function Header(t: tag, n: nat): seq<byte>
    requires n <= MTU
  {
    [t * 0x10 + n / 0x100, n % 0x100]
  }

  /** A frame with arbitrary values in the reserved bits 6..4; the gateway only ever writes `TAG`. */
  function Tagged(t: tag, p: seq<byte>): seq<byte>
    requires |p| <= MTU
  {
    Header(t, |p|) + p
  }

  function Encode(p: seq<byte>): seq<byte>
    requires |p| <= MTU
  {
    Tagged(TAG, p)
  }

  /**
   The octets of a frame: the tag in the upper nibble of the first one, the size in big-endian order in the
   lower nibble and the second one, then the payload.
   */
  lemma HeaderOnTheWire(t: tag, p: seq<byte>)
    requires |p| <= MTU
    ensures var w := Tagged(t, p);
            && |w| == |p| + 2 && w[2..] == p
            && t * 0x10 <= w[0] < (t + 1) * 0x10
            && (w[0] - t * 0x10) * 0x100 + w[1] == |p|
    ensures Encode(p)[0] / 0x10 == 8
  {
    var n := |p|;
    assert 0 <= n / 0x100 < 0x10;
  }

  // ---------------------------------------------------------------- decoding

  datatype Phase = Error | AtHeader | AtData | Full

  datatype Decoder = Decoder(phase: Phase, remaining: nat, buffer: seq<byte>) {
    predicate Done() {
      phase == Full || phase == Error
    }

    predicate Waiting() {
      && !Done()
      && remaining > 0
      && (phase == AtHeader ==> |buffer| + remaining == 2)
      && (phase == AtData ==> |buffer| + remaining <= MTU)
    }
  }

  const START := Decoder(AtHeader, 2, [])

  function Size(hi: byte, lo: byte): (n: nat)
    ensures n <= MTU
  {
    (hi % 0x10) * 0x100 + lo
  }

  /** One received octet. */
  function Next(d: Decoder, b: byte): Decoder
    requires d.Waiting()
  {
    if d.phase == AtData then
      Decoder(if d.remaining == 1 then Full else AtData, d.remaining - 1, d.buffer + [b])
    else if d.remaining == 2 then
      Decoder(AtHeader, 1, [b])
    else if d.buffer[0] < 0x80 then
      Decoder(Error, 0, d.buffer + [b])
    else
      var n := Size(d.buffer[0], b);
      Decoder(if n == 0 then Full else AtData, n, [])
  }

  lemma StepKeepsWaiting(d: Decoder, b: byte)
    requires d.Waiting()
    ensures Next(d, b).Done() || Next(d, b).Waiting()
    ensures Next(d, b).phase == Full ==> |Next(d, b).buffer| <= MTU && Next(d, b).remaining == 0
  {
  }

  /** Feeds octets until the decoder is done; the second result is what it left unread. */
  function Feed(d: Decoder, w: seq<byte>): (Decoder, seq<byte>)
    requires d.Done() || d.Waiting()
    decreases |w|
  {
    if w == [] || d.Done() then (d, w) else Feed(Next(d, w[0]), w[1..])
  }

  /** Splitting a size into two header fields and joining them again is exact, whatever the tag. */
  lemma SplitAndJoin(t: tag, n: nat)
    requires n <= MTU
    ensures Size(Header(t, n)[0], Header(t, n)[1]) == n
    ensures Header(t, n)[0] >= 0x80 && Header(t, n)[0] / 0x10 == t
  {
    assert n / 0x100 < 0x10;
  }

  /** Joining two header octets and splitting the size again restores the octets. */
  lemma JoinAndSplit(hi: byte, lo: byte)
    requires hi >= 0x80
    ensures Header(hi / 0x10, Size(hi, lo)) == [hi, lo]
  {
  }

  /** Collecting the payload of a frame whose header has been read. */
  lemma {:induction false} FeedData(pre: seq<byte>, p: seq<byte>, rest: seq<byte>)
    requires p != [] && |pre| + |p| <= MTU
    ensures Feed(Decoder(AtData, |p|, pre), p + rest) == (Decoder(Full, 0, pre + p), rest)
    decreases |p|
  {
    var d := Decoder(AtData, |p|, pre);
    var w := p + rest;
    assert w[1..] == p[1..] + rest;
    if |p| == 1 {
      assert p == [p[0]];
      assert Feed(d, w) == Feed(Decoder(Full, 0, pre + p), rest);
    } else {
      FeedData(pre + [p[0]], p[1..], rest);
      assert pre + [p[0]] + p[1..] == pre + p;
    }
  }

  /** A frame with any reserved bits is decoded to its payload, and nothing behind it is read. */
  lemma TaggedRoundTrip(t: tag, p: seq<byte>, rest: seq<byte>)
    requires |p| <= MTU
    ensures Feed(START, Tagged(t, p) + rest) == (Decoder(Full, 0, p), rest)
  {
    var w := Tagged(t, p) + rest;
    SplitAndJoin(t, |p|);
    assert w[1..][1..] == p + rest;
    var h := Header(t, |p|);
    assert w[0] == h[0] && w[1..][0] == h[1];
    var d := Next(Next(START, w[0]), w[1..][0]);
    assert Feed(START, w) == Feed(Next(START, w[0]), w[1..]) == Feed(d, w[1..][1..]);
    if p == [] {
      assert p + rest == rest;
    } else {
      FeedData([], p, rest);
      assert [] + p == p;
    }
  }

  /** Round trip for every payload of at most 4095 octets, the empty one included. */
  lemma RoundTrip(p: seq<byte>, rest: seq<byte>)
    requires |p| <= MTU
    ensures Feed(START, Encode(p) + rest) == (Decoder(Full, 0, p), rest)
    ensures |Encode(p)| == |p| + 2
  {
    TaggedRoundTrip(TAG, p, rest);
  }

  /** The octets that take a decoder from its start to `d`, given the tag it has seen. */
  function HasRead(t: tag, d: Decoder): seq<byte> {
    match d.phase
    case AtHeader => d.buffer
    case AtData => if |d.buffer| + d.remaining <= MTU then Header(t, |d.buffer| + d.remaining) + d.buffer else []
    case Full => if |d.buffer| <= MTU then Tagged(t, d.buffer) else []
    case Error => []
  }

  predicate SawTag(t: tag, d: Decoder) {
    d.phase == AtHeader && d.buffer != [] ==> d.buffer[0] / 0x10 == t
  }

  lemma StepReads(t: tag, d: Decoder, b: byte)
    requires d.Waiting() && SawTag(t, d)
    requires d == START ==> b / 0x10 == t
    ensures var n := Next(d, b);
            SawTag(t, n) && n.phase != Error && HasRead(t, n) == HasRead(t, d) + [b]
  {
    if d.phase == AtData {
      DataReads(t, d, b);
    } else if d.remaining == 1 {
      HeaderReads(t, d.buffer[0], b);
      assert d.buffer == [d.buffer[0]];
    }
  }

  lemma DataReads(t: tag, d: Decoder, b: byte)
    requires d.Waiting() && d.phase == AtData
    ensures Next(d, b).phase != Error && Next(d, b).phase != AtHeader
    ensures HasRead(t, Next(d, b)) == HasRead(t, d) + [b]
  {
    Concat(Header(t, |d.buffer| + d.remaining), d.buffer, [b]);
  }

  lemma HeaderReads(t: tag, hi: byte, lo: byte)
    requires hi / 0x10 == t
    ensures var n := Next(Decoder(AtHeader, 1, [hi]), lo);
            n.phase != Error && n.phase != AtHeader && HasRead(t, n) == [hi] + [lo]
  {
    JoinAndSplit(hi, lo);
    Concat(Header(t, Size(hi, lo)), [], []);
  }

  lemma FirstThenRest(u: seq<byte>, w: seq<byte>)
    requires w != []
    ensures (u + [w[0]]) + w[1..] == u + w
  {
  }

  lemma {:induction false} FeedReads(t: tag, d: Decoder, w: seq<byte>)
    requires d.Waiting() || (d.phase == Full && |d.buffer| <= MTU)
    requires SawTag(t, d)
    requires d == START && w != [] ==> w[0] / 0x10 == t
    ensures var (r, rest) := Feed(d, w);
            && r.phase != Error
            && HasRead(t, r) + rest == HasRead(t, d) + w
            && (r.Waiting() || (r.phase == Full && |r.buffer| <= MTU))
            && (r.Waiting() ==> rest == [] && SawTag(t, r))
    decreases |w|
  {
    if w != [] && !d.Done() {
      StepReads(t, d, w[0]);
      StepKeepsWaiting(d, w[0]);
      FeedReads(t, Next(d, w[0]), w[1..]);
      FirstThenRest(HasRead(t, d), w);
    }
  }

  /** What the decoder has read of a stream whose first octet has the tag `t`. */
  lemma FeedFromStart(t: tag, w: seq<byte>)
    requires w != [] ==> w[0] / 0x10 == t
    ensures var (r, rest) := Feed(START, w);
            && r.phase != Error
            && (r.phase == Full ==> |r.buffer| <= MTU && w == Tagged(t, r.buffer) + rest)
            && (!r.Done() ==> r.Waiting() && rest == [] && w == HasRead(t, r) && SawTag(t, r))
  {
    FeedReads(t, START, w);
    var r := Feed(START, w).0;
    assert HasRead(t, r) + [] == HasRead(t, r);
    assert HasRead(t, START) + w == w;
  }

  /** A waiting decoder can always complete a frame: with as many zeros as it still asks for. */
  lemma Completion(t: tag, d: Decoder) returns (p: seq<byte>, s: seq<byte>)
    requires d.Waiting() && SawTag(t, d)
    ensures |p| <= MTU && HasRead(t, d) + s == Tagged(t, p)
  {
    if d.phase == AtData {
      s := seq(d.remaining, _ => 0);
      p := d.buffer + s;
    } else if d.buffer == [] {
      p, s := [], Tagged(t, []);
    } else {
      JoinAndSplit(d.buffer[0], 0);
      p := seq(Size(d.buffer[0], 0), _ => 0);
      s := [0] + p;
    }
  }

  /** A header without bit 7 is an error as soon as it is complete, and no frame begins with it. */
  lemma Untagged(w: seq<byte>)
    requires w != [] && w[0] < 0x80
    ensures Feed(START, w).0.phase == (if |w| >= 2 then Error else AtHeader)
    ensures forall t: tag, p, s :: |p| <= MTU ==> w != Tagged(t, p) + s
  {
    var d := Next(START, w[0]);
    assert Feed(START, w) == Feed(d, w[1..]);
    if |w| >= 2 {
      assert Feed(d, w[1..]) == Feed(Next(d, w[1..][0]), w[1..][1..]);
    }
    forall t: tag, p | |p| <= MTU
      ensures Tagged(t, p)[0] >= 0x80
    {
      SplitAndJoin(t, |p|);
    }
  }

  /** Re-encoding what was decoded restores the octets if and only if the tag was the one the gateway writes. */
  lemma Reencoding(t: tag, p: seq<byte>, rest: seq<byte>)
    requires |p| <= MTU
    ensures Encode(p) + rest == Tagged(t, p) + rest <==> t == TAG
    ensures (Tagged(t, p) + rest)[0] / 0x10 == t
  {
    SplitAndJoin(t, |p|);
    SplitAndJoin(TAG, |p|);
    assert (Tagged(t, p) + rest)[0] == Header(t, |p|)[0] && (Encode(p) + rest)[0] == Header(TAG, |p|)[0];
  }

  lemma DecodedFromTag(t: tag, w: seq<byte>)
    requires w != [] && w[0] / 0x10 == t
    ensures var (r, rest) := Feed(START, w);
            && r.phase != Error
            && (r.phase == Full ==> |r.buffer| <= MTU && w == Tagged(t, r.buffer) + rest)
            && (r.phase == Full ==> (Encode(r.buffer) + rest == w <==> t == TAG))
  {
    FeedFromStart(t, w);
    var (r, rest) := Feed(START, w);
    if r.phase == Full {
      Reencoding(t, r.buffer, rest);
    }
  }

  /**
   Exactness. The decoder completes a frame on exactly the sequences that begin with a frame of some
   tag, it consumes size + 2 octets, and re-encoding the payload restores them if and only if the
   upper nibble of the first octet was 8.
   */
  lemma DecodingIsExact(w: seq<byte>)
    ensures var (r, rest) := Feed(START, w);
            && (r.phase == Full <==> exists t: tag, p, s :: |p| <= MTU && w == Tagged(t, p) + s)
            && (r.phase == Full ==> |r.buffer| <= MTU && |w| == |r.buffer| + 2 + |rest|)
            && (r.phase == Full ==> (Encode(r.buffer) + rest == w <==> w[0] / 0x10 == 8))
            && (r.phase == Error <==> |w| >= 2 && w[0] < 0x80)
  {
    var (r, rest) := Feed(START, w);
    if w != [] && w[0] < 0x80 {
      Untagged(w);
    } else if w != [] {
      DecodedFromTag(w[0] / 0x10, w);
      forall t: tag, p, s | |p| <= MTU && w == Tagged(t, p) + s
        ensures r.phase == Full
      {
        TaggedRoundTrip(t, p, s);
      }
    }
  }

  // ------------------------------------------------------------------- class

  /** One length-based frame, to be sent or being received. */
  class GatewayAccessFrameLength {
    var phase: Phase
    var remaining: nat
    var buffer: seq<byte>

    function View(): Decoder
      reads this
    {
      Decoder(phase, remaining, buffer)
    }

    constructor Create(payload: seq<byte>)
      requires |payload| < 4096
      ensures View() == Decoder(Full, 0, payload)
    {
      phase, remaining, buffer := Full, 0, payload;
    }

    /** A frame about to be received; it asks for the two header octets. */
    constructor CreateDeserializedFrame()
      ensures View() == START
    {
      phase, remaining, buffer := AtHeader, 2, [];
    }

    method GetPayload() returns (payload: seq<byte>)
      requires phase == Full
      ensures payload == buffer
    {
      payload := buffer;
    }

    /** The size is held in 16 bits and its upper part masked to the nibble beside the tag. */
    method Serialize() returns (out: seq<byte>)
      requires phase == Full && |buffer| <= MTU
      ensures out == Encode(buffer)
    {
      var nbrOfBytes: u16 := |buffer| % 0x1_0000;
      out := [0x80 + (nbrOfBytes / 0x100) % 0x10];
      out := out + [nbrOfBytes % 0x100];
      out := out + buffer;
    }

    /** All requested octets are in the buffer: first the header, later the whole payload. */
    method Deserialize() returns (ok: bool)
      requires phase == AtHeader || phase == AtData
      requires remaining == 0 && buffer != []
      requires phase == AtHeader ==> |buffer| == 2
      requires phase == AtData ==> |buffer| <= MTU
      modifies this
      ensures View() == Next(Decoder(old(phase), 1, old(buffer[..|buffer| - 1])), old(buffer[|buffer| - 1]))
      ensures ok <==> phase != Error
    {
      match phase {
        case AtHeader =>
          if (buffer[0] / 0x80) % 2 != 1 {
            phase := Error;
            return false;
          } else {
            var hi: int, lo: int := buffer[0], buffer[1];
            remaining := (hi % 0x10) * 0x100 + lo;
            buffer := [];
            phase := AtData;
            if remaining == 0 {
              phase := Full;
            }
          }
        case AtData =>
          phase := Full;
      }
      return true;
    }
  }
}
