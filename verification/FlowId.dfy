/** The direction-independent identifier of a conversation. */
module FlowId {
  import opened Conversations
  import opened Text

  // An endpoint as the parsed packet holds it: address text and port.
  datatype Peer = Peer(ip: string, port: nat)

  datatype View = View(proto: string, src: Peer, dst: Peer)

  // The endpoint that is written first: smaller address text, then smaller port.
  predicate Swapped(src: Peer, dst: Peer) {
    Less(dst.ip, src.ip) || (src.ip == dst.ip && src.port > dst.port)
  }

  function PeerText(p: Peer): string {
    p.ip + [':'] + Decimal(p.port)
  }

  function Flow(v: View): string {
    var lo, hi := if Swapped(v.src, v.dst) then v.dst else v.src, if Swapped(v.src, v.dst) then v.src else v.dst;
    v.proto + ['|'] + (PeerText(lo) + ['-'] + PeerText(hi))
  }

  method BuildFlow(v: View) returns (flow: string)
    requires v.src.port < 0x1_0000 && v.dst.port < 0x1_0000
    ensures flow == Flow(v)
  {
    var lo, hi := v.src, v.dst;
    if Less(hi.ip, lo.ip) || (lo.ip == hi.ip && lo.port > hi.port) {
      lo, hi := hi, lo;
    }
    flow := v.proto + ['|'];
    ghost var head := flow;
    var port := WriteUint(lo.port);
    flow := flow + lo.ip + [':'] + port;
    Appended(head, lo, port);
    flow := flow + ['-'];
    ghost var middle := flow;
    port := WriteUint(hi.port);
    flow := flow + hi.ip + [':'] + port;
    Appended(middle, hi, port);
    Regrouped(head, PeerText(lo), ['-'], PeerText(hi));
  }

  lemma Appended(text: string, p: Peer, port: string)
    requires port == Decimal(p.port)
    ensures text + p.ip + [':'] + port == text + PeerText(p)
  {
  }

  lemma Regrouped(a: string, b: string, c: string, d: string)
    ensures a + b + c + d == a + (b + c + d)
  {
  }

  ghost predicate Plain(p: Peer) {
    Free(p.ip, ':') && Free(p.ip, '-')
  }

  lemma PeerTextUnique(p: Peer, q: Peer)
    requires Plain(p) && Plain(q) && PeerText(p) == PeerText(q)
    ensures p == q
  {
    SplitUnique(p.ip, q.ip, ':', Decimal(p.port), Decimal(q.port));
    DecimalInjective(p.port, q.port);
  }

  ghost predicate SameEnds(v: View, w: View) {
    v.proto == w.proto && ((v.src == w.src && v.dst == w.dst) || (v.src == w.dst && v.dst == w.src))
  }

  lemma FlowIdentifiesPlain(v: View, w: View)
    requires Free(v.proto, '|') && Free(w.proto, '|')
    requires Plain(v.src) && Plain(v.dst) && Plain(w.src) && Plain(w.dst)
    ensures Flow(v) == Flow(w) <==> SameEnds(v, w)
  {
    LessIsStrictTotal(v.src.ip, v.dst.ip);
    LessIsStrictTotal(v.dst.ip, v.src.ip);
    if Flow(v) == Flow(w) {
      var vLo, vHi := if Swapped(v.src, v.dst) then v.dst else v.src, if Swapped(v.src, v.dst) then v.src else v.dst;
      var wLo, wHi := if Swapped(w.src, w.dst) then w.dst else w.src, if Swapped(w.src, w.dst) then w.src else w.dst;
      SplitUnique(v.proto, w.proto, '|', PeerText(vLo) + ['-'] + PeerText(vHi), PeerText(wLo) + ['-'] + PeerText(wHi));
      assert Free(PeerText(vLo), '-') && Free(PeerText(wLo), '-');
      SplitUnique(PeerText(vLo), PeerText(wLo), '-', PeerText(vHi), PeerText(wHi));
      PeerTextUnique(vLo, wLo);
      PeerTextUnique(vHi, wHi);
    }
  }

  function ProtocolText(p: Protocol): string {
    match p
    case Tcp => "tcp"
    case Udp => "udp"
    case Icmp => "icmp"
    case Other => "other"
  }

  function Rendered(a: Addressed): View {
    View(ProtocolText(a.proto), Peer(Dotted(a.src), a.srcPort), Peer(Dotted(a.dst), a.dstPort))
  }

  // The conversation a packet is filed under.
  function FlowOf(a: Addressed): string {
    Flow(Rendered(a))
  }

  lemma ProtocolTexts(p: Protocol, q: Protocol)
    ensures Free(ProtocolText(p), '|') && (ProtocolText(p) == ProtocolText(q) ==> p == q)
  {
    assert ProtocolText(p)[0] == ProtocolText(q)[0] ==> p == q;
  }

  /** Two packets get the same identifier exactly when they belong to the same conversation. */
  lemma FlowIdentifiesConversation(a: Addressed, b: Addressed)
    ensures FlowOf(a) == FlowOf(b) <==> SameConversation(a, b)
  {
    ProtocolTexts(a.proto, b.proto);
    ProtocolTexts(b.proto, a.proto);
    forall q | q in {a.src, a.dst, b.src, b.dst} ensures Free(Dotted(q), ':') && Free(Dotted(q), '-') {
      DottedFree(q, ':');
      DottedFree(q, '-');
    }
    FlowIdentifiesPlain(Rendered(a), Rendered(b));
    forall p, q | p in {a.src, a.dst} && q in {b.src, b.dst} && Dotted(p) == Dotted(q) ensures p == q {
      DottedInjective(p, q);
    }
  }
}
