/** IPv4 endpoints and the conversations between them. */
module Conversations {

  datatype Quad = Quad(a: nat, b: nat, c: nat, d: nat)

  datatype Protocol = Tcp | Udp | Icmp | Other

  // A packet between two IPv4 endpoints.
  datatype Addressed = Addressed(proto: Protocol, src: Quad, srcPort: nat, dst: Quad, dstPort: nat)

  // The same protocol between the same two endpoints, in either direction.
  predicate SameConversation(a: Addressed, b: Addressed) {
    && a.proto == b.proto
    && ((a.src == b.src && a.srcPort == b.srcPort && a.dst == b.dst && a.dstPort == b.dstPort)
        || (a.src == b.dst && a.srcPort == b.dstPort && a.dst == b.src && a.dstPort == b.srcPort))
  }
}
