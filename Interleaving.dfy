/** The registry under concurrently running handlers. Every handler takes
    the registry's lock for one step, so whatever the scheduling, the
    registry evolves by a sequence of whole handler steps. The current
    node's `start` (src/walkie_talkie/mod.rs) runs the mDNS resolver beside
    the TCP handler; the older node's `start` (src/walkie_talkie.rs) runs
    the UDP listener beside it. The lemmas below cover any interleaving of
    all three kinds of step, and so each node's interleavings as a special
    case. */
module Interleaving {
  import opened RustStr
  import opened Peer
  import opened Node
  import opened UdpDiscovery
  import opened Tcp
  import opened Mdns

  /** One locked step of one handler. */
  datatype Event =
    | UdpDatagram(d: Datagram)
    | MdnsResponse(records: seq<RecordKind>)
    | TcpChunk(decoded: Option<NetworkMessage>)

  /** The registry after one event. */
  function Apply(me: Identity, isValid: PeerInfo -> bool, peers: Peers, e: Event): Peers {
    match e
    case UdpDatagram(d) => ListenerStep(me.peerId, peers, d).peers
    case MdnsResponse(records) => ApplyResponse(me, isValid, peers, records).peers
    case TcpChunk(decoded) => ChunkEffect(Session(peers, [], []), decoded).peers
  }

  /** The registry after the events of `events`, in order. */
  function Evolve(me: Identity, isValid: PeerInfo -> bool, peers: Peers, events: seq<Event>): Peers
    decreases |events|
  {
    if events == [] then peers
    else Apply(me, isValid, Evolve(me, isValid, peers, events[..|events| - 1]), events[|events| - 1])
  }

  /** Self-exclusion holds for every handler at once: starting from the
      empty registry of a new node, the node's own id is never a key,
      whatever the interleaving. */
  lemma {:induction false} NeverStoresSelf(me: Identity, isValid: PeerInfo -> bool, events: seq<Event>)
    ensures me.peerId !in Evolve(me, isValid, map[], events)
    decreases |events|
  {
    if events != [] {
      NeverStoresSelf(me, isValid, events[..|events| - 1]);
    }
  }

  /** Every entry stays stored under its own record's id: the listener and
      the resolver insert a record under its id, and the TCP handler only
      removes. */
  lemma {:induction false} StaysKeyedById(me: Identity, isValid: PeerInfo -> bool, peers: Peers,
                                          events: seq<Event>)
    requires KeyedById(peers)
    ensures KeyedById(Evolve(me, isValid, peers, events))
    decreases |events|
  {
    if events != [] {
      StaysKeyedById(me, isValid, peers, events[..|events| - 1]);
      var before := Evolve(me, isValid, peers, events[..|events| - 1]);
      match events[|events| - 1]
      case UdpDatagram(d) =>
      case MdnsResponse(records) =>
        var sc := Screen(me.peerId, isValid, Extract(records, me.port));
        assert sc.Candidate? ==> Admit(me, isValid, before, sc).peers in {before, Upserted(before, sc.info)};
      case TcpChunk(decoded) =>
    }
  }

  /** An Exit for a peer removes it whichever handler receives it: the UDP
      listener and the TCP handler agree on the registry. */
  lemma ExitAgrees(me: Identity, isValid: PeerInfo -> bool, peers: Peers, id: string)
    ensures Apply(me, isValid, peers, UdpDatagram(Received(Some(Exit(id)))))
         == Apply(me, isValid, peers, TcpChunk(Some(Exit(id))))
         == Without(peers, id)
  {
    assert ListenerStep(me.peerId, peers, Received(Some(Exit(id)))).peers == Without(peers, id);
    assert ChunkEffect(Session(peers, [], []), Some(Exit(id))).peers == Without(peers, id);
  }
}
