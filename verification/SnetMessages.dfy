/**
 S-net service messages, kept abstract: the record the gateway inspects, and a codec between
 messages and octets that is a parameter of everything that parses or serialises.
 */
module SnetMessages {
  import opened Octets

  datatype Message = Message(
    srcService: byte,
    dstService: byte,
    token: u16,
    srcSSA: u16,
    dstSSA: u16,
    onAirARQ: bool,
    payload: seq<byte>)

  /** What the services answer when they have nothing to say; no service has this source id. */
  const NO_MESSAGE := Message(0, 0, 0, 0, 0, false, [])

  datatype Codec = Codec(parse: seq<byte> -> Option<Message>, serialize: Message -> seq<byte>)
}
