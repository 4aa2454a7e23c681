/** The publish / subscribe service of one client: the service ids it wants to hear from. */
module PublishSubscribe {
  import opened Octets
  import opened SnetMessages

  const SUBSCRIBE_REQUEST: u16 := 0x10
  const SUBSCRIBE_REPLY: u16 := 0x11
  const UNSUBSCRIBE_REQUEST: u16 := 0x20
  const UNSUBSCRIBE_REPLY: u16 := 0x21
  const WILDCARD: byte := 0xFF

  const ALL_IDS: set<byte> := set b: byte | 0 <= b < 0x100

  predicate Addressed(m: Message) {
    m.dstSSA == 0x4000 && m.dstService == 0xB0 && |m.payload| == 1
  }

  predicate Valid(m: Message) {
    Addressed(m) && (m.token == SUBSCRIBE_REQUEST || m.token == UNSUBSCRIBE_REQUEST)
  }

  /** The new subscriptions and the reply to a client that holds `address`. */
  function Process(ids: set<byte>, m: Message, address: u16): (set<byte>, Message) {
    if !Valid(m) then
      (ids, NO_MESSAGE)
    else
      var id := m.payload[0];
      var named := if id == WILDCARD then ALL_IDS else {id};
      var subscribe := m.token == SUBSCRIBE_REQUEST;
      (if subscribe then ids + named else ids - named,
       Message(0xB0, 0xB0, if subscribe then SUBSCRIBE_REPLY else UNSUBSCRIBE_REPLY, 0x4000, address, false, [id, 0]))
  }

  /** The subscriptions after a history of requests, in a client that began without any. */
  function After(requests: seq<Message>): set<byte> {
    if requests == [] then {}
    else
      var last := |requests| - 1;
      Process(After(requests[..last]), requests[last], 0).0
  }

  /** Requests with token 10 or 20 name the id in their only payload octet; FF names all of them at once. */
  predicate Names(m: Message, id: byte) {
    && m.dstSSA == 0x4000 && m.dstService == 0xB0 && (m.token == 0x10 || m.token == 0x20)
    && (m.payload == [id] || m.payload == [0xFF])
  }

  /** The last request that names an id decides, and it is a subscription. */
  ghost predicate LastNamedBySubscribe(requests: seq<Message>, id: byte) {
    exists i :: 0 <= i < |requests| && Names(requests[i], id) && requests[i].token == 0x10
                && forall j :: i < j < |requests| ==> !Names(requests[j], id)
  }

  /**
   The subscription state refines the request history: an id is subscribed if and only if the last
   valid request naming it, or the wildcard, was a subscribe request.
   */
  lemma {:induction false} SubscriptionsAreHistory(requests: seq<Message>, id: byte)
    ensures id in After(requests) <==> LastNamedBySubscribe(requests, id)
  {
    if requests != [] {
      var last := |requests| - 1;
      var before, m := requests[..last], requests[last];
      SubscriptionsAreHistory(before, id);
      assert m.token != SUBSCRIBE_REQUEST || m.token != UNSUBSCRIBE_REQUEST;
      if Names(m, id) {
        if m.token == SUBSCRIBE_REQUEST {
          assert requests[last] == m;
        }
      } else {
        if LastNamedBySubscribe(before, id) {
          var i :| 0 <= i < last && Names(before[i], id) && before[i].token == SUBSCRIBE_REQUEST
                   && forall j :: i < j < last ==> !Names(before[j], id);
          assert requests[i] == before[i];
          forall j | i < j < |requests|
            ensures !Names(requests[j], id)
          {
            assert j < last ==> requests[j] == before[j];
          }
        }
        if LastNamedBySubscribe(requests, id) {
          var i :| 0 <= i < |requests| && Names(requests[i], id) && requests[i].token == SUBSCRIBE_REQUEST
                   && forall j :: i < j < |requests| ==> !Names(requests[j], id);
          assert before[i] == requests[i];
          assert forall j :: i < j < last ==> before[j] == requests[j];
        }
      }
    }
  }

  /**
   What a message does to the subscription of an id and what is replied, in octets: token 10 subscribes and
   is answered by 11, token 20 unsubscribes and is answered by 21, payload FF stands for all ids, and any
   other message changes nothing.
   */
  lemma RequestsOnTheWire(ids: set<byte>, m: Message, address: u16, id: byte)
    ensures var (ids', r) := Process(ids, m, address);
            if
              && m.dstSSA == 0x4000 && m.dstService == 0xB0
              && |m.payload| == 1 && (m.token == 0x10 || m.token == 0x20)
            then
              && (id in ids' <==>
                    if m.token == 0x10 then id in ids || m.payload == [id] || m.payload == [0xFF]
                    else id in ids && m.payload != [id] && m.payload != [0xFF])
              && r.srcService == 0xB0 && r.dstService == 0xB0 && r.token == (if m.token == 0x10 then 0x11 else 0x21)
              && r.srcSSA == 0x4000 && r.dstSSA == address && !r.onAirARQ && r.payload == [m.payload[0], 0x00]
            else
              ids' == ids && r.srcService != 0xB0
  {
    if |m.payload| == 1 {
      assert m.payload == [m.payload[0]];
    }
  }

  /** The reply is sent exactly for valid requests and goes to the asking client; the address is not in the state. */
  lemma RepliesAnswerRequests(ids: set<byte>, m: Message, address: u16)
    ensures var (ids', r) := Process(ids, m, address);
            && (r.srcService == 0xB0 <==> Valid(m))
            && (Valid(m) ==>
                  && r.dstSSA == address && r.srcSSA == m.dstSSA
                  && r.token == m.token + 1 && r.payload == m.payload + [0])
            && (!Valid(m) ==> ids' == ids)
            && ids' == Process(ids, m, 0).0
  {
  }

  class PublishSubscribeService {
    var subscribed: set<byte>
    /** The number of the handler this belongs to; it keeps the objects of different handlers apart. */
    ghost const tag: nat

    constructor (ghost tag: nat)
      ensures subscribed == {} && this.tag == tag
    {
      subscribed := {};
      this.tag := tag;
    }

    method ProcessRequest(m: Message, address: u16) returns (reply: Message)
      modifies this
      ensures (subscribed, reply) == Process(old(subscribed), m, address)
    {
      reply := NO_MESSAGE;
      if m.dstSSA == 0x4000 && m.dstService == 0xB0 && |m.payload| == 1 {
        var id := m.payload[0];
        if m.token == SUBSCRIBE_REQUEST {
          reply := Message(0xB0, 0xB0, SUBSCRIBE_REPLY, 0x4000, address, false, []);
          reply := reply.(payload := [id, 0]);
          if id == 0xFF {
            subscribed := ALL_IDS;
          } else {
            subscribed := subscribed + {id};
          }
        } else if m.token == UNSUBSCRIBE_REQUEST {
          reply := Message(0xB0, 0xB0, UNSUBSCRIBE_REPLY, 0x4000, address, false, []);
          reply := reply.(payload := [id, 0]);
          if id == 0xFF {
            subscribed := {};
          } else {
            subscribed := subscribed - {id};
          }
        }
      }
      assert old(subscribed) + ALL_IDS == ALL_IDS && old(subscribed) - ALL_IDS == {};
    }

    predicate IsServiceIdForMe(id: byte)
      reads this
    {
      id in subscribed
    }
  }
}
