/** The address assignment service: a client asks for the address it has been assigned. */
module AddressService {
  import opened Octets
  import opened SnetMessages

  predicate IsRequest(m: Message) {
    && m.srcSSA == 0x3FFF
    && m.dstSSA == 0x3FFC
    && m.srcService == 0xAF
    && m.dstService == 0xAE
    && m.token == 0x10
  }

  /** The reply to `m` for a client holding the lease on `address`. */
  function ProcessRequest(m: Message, address: u16): Message
    requires IsRequest(m) ==> |m.payload| >= 6
  {
    if IsRequest(m) then
      var head := [0x05] + m.payload[|m.payload| - 6..];
      var status := head + [0x00];
      var payload := status + [(address / 0x100) % 0x100, address % 0x100];
      Message(0xAE, 0xAF, 0x20, 0x4000, 0x3FF8, false, payload)
    else
      NO_MESSAGE
  }

  /**
   Requests, and nothing else, are answered: messages from 3FFF for 3FFC between the services AF and AE with
   token 10. The ten octets of an answer carry the UUID of the request and, in the last two, the address of
   the asking client.
   */
  lemma ReplyCarriesAddress(m: Message, address: u16)
    requires IsRequest(m) ==> |m.payload| >= 6
    ensures var r := ProcessRequest(m, address);
            if
              && m.srcSSA == 0x3FFF && m.dstSSA == 0x3FFC
              && m.srcService == 0xAF && m.dstService == 0xAE && m.token == 0x10
            then
              && |m.payload| >= 6
              && r.srcService == 0xAE && r.dstService == 0xAF && r.token == 0x20 && !r.onAirARQ
              && r.srcSSA == 0x4000 && r.dstSSA == 0x3FF8
              && |r.payload| == 10
              && r.payload[0] == 0x05 && r.payload[1..7] == m.payload[|m.payload| - 6..] && r.payload[7] == 0x00
              && var hi: int, lo: int := r.payload[8], r.payload[9]; hi * 0x100 + lo == address
            else
              r.srcService != 0xAE
  {
  }

  /** The exchange given in the documentation, for the first address of all. */
  lemma DocumentedExchange()
    ensures ProcessRequest(Message(0xAF, 0xAE, 0x10, 0x3FFF, 0x3FFC, false, [0x25, 0, 0, 0, 0, 0, 0]), 0x4001) ==
            Message(0xAE, 0xAF, 0x20, 0x4000, 0x3FF8, false, [0x05, 0, 0, 0, 0, 0, 0, 0, 0x40, 0x01])
  {
    var p: seq<byte> := [0x25, 0, 0, 0, 0, 0, 0];
    assert p[|p| - 6..] == [0, 0, 0, 0, 0, 0];
  }
}
