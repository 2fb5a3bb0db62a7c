/** The value types exchanged between nodes (src/peer.rs): a peer's contact
    record, a chat message, and the four-variant wire envelope. All three are
    plain values, so a registry entry is an independent copy of what was
    received. */
module Peer {

  /** Rust `u8`. */
  type Octet = x: int | 0 <= x < 0x100
  /** Rust `u16`: ports and IPv6 segments. */
  type U16 = x: int | 0 <= x < 0x1_0000
  /** Rust `u64`: a chat message's unix timestamp in seconds. */
  type U64 = x: int | 0 <= x < 0x1_0000_0000_0000_0000

  type Port = U16

  /** An IPv6 address as its eight 16-bit segments, most significant first. */
  type Segments = s: seq<U16> | |s| == 8 witness [0, 0, 0, 0, 0, 0, 0, 0]

  /** Rust `std::net::IpAddr`. */
  datatype IpAddr =
    | V4(a: Octet, b: Octet, c: Octet, d: Octet)
    | V6(segments: Segments)

  /** `IpAddr::is_loopback`: 127.0.0.0/8 for IPv4 (section 3.2.1.3 of
      RFC 1122), exactly `::1` for IPv6 (section 2.5.3 of RFC 4291). */
  predicate IsLoopback(ip: IpAddr) {
    match ip
    case V4(a, _, _, _) => a == 127
    case V6(s) => s == [0, 0, 0, 0, 0, 0, 0, 1]
  }

  /** `IpAddr::is_multicast`: 224.0.0.0/4 for IPv4 (RFC 5771), ff00::/8 for
      IPv6 (section 2.7 of RFC 4291), i.e. a first segment whose high byte is
      0xff. */
  predicate IsMulticast(ip: IpAddr) {
    match ip
    case V4(a, _, _, _) => 224 <= a <= 239
    case V6(s) => s[0] >= 0xff00
  }

  /** The two address checks never overlap; the mDNS group address
      (224.0.0.251 and ff02::fb, section 3 of RFC 6762) is multicast, and the
      usual loopback addresses are loopback. */
  lemma UnroutableRanges()
    ensures forall ip: IpAddr :: !(IsLoopback(ip) && IsMulticast(ip))
    ensures IsLoopback(V4(127, 0, 0, 1)) && IsLoopback(V6([0, 0, 0, 0, 0, 0, 0, 1]))
    ensures IsMulticast(V4(224, 0, 0, 251)) && IsMulticast(V6([0xff02, 0, 0, 0, 0, 0, 0, 0xfb]))
    ensures !IsLoopback(V4(192, 168, 1, 10)) && !IsMulticast(V4(192, 168, 1, 10))
    ensures !IsLoopback(V6([0, 0, 0, 0, 0, 0, 0, 0])) && !IsMulticast(V6([0xfe80, 0, 0, 0, 0, 0, 0, 1]))
  {
  }

  datatype PeerInfo = PeerInfo(id: string, name: string, ip: IpAddr, port: Port)

  datatype Message = Message(fromId: string, fromName: string, content: string, timestamp: U64)

  /** The wire envelope: a closed sum of exactly four variants; `Heartbeat`
      and `Exit` carry only a peer id. */
  datatype NetworkMessage =
    | Discovery(info: PeerInfo)
    | Chat(message: Message)
    | Heartbeat(heartbeatId: string)
    | Exit(exitId: string)

  /** Every envelope is exactly one of the four variants. */
  lemma EnvelopeIsClosed(m: NetworkMessage)
    ensures m.Discovery? || m.Chat? || m.Heartbeat? || m.Exit?
    ensures m.Discovery? ==> !m.Chat? && !m.Heartbeat? && !m.Exit?
    ensures m.Chat? ==> !m.Heartbeat? && !m.Exit?
    ensures m.Heartbeat? ==> !m.Exit?
  {
  }

  /** The registry: peer id to the last record received for it. */
  type Peers = map<string, PeerInfo>

  /** A line the node prints about the registry. */
  datatype Notice =
    | DiscoveredNewPeer(name: string, ip: IpAddr)
    | DiscoveredViaMdns(name: string, ip: IpAddr, port: Port)
    | PeerExited(peerId: string)
}
