/** UDP broadcast discovery (src/walkie_talkie/net/discovery.rs): the record
    the node announces about itself, and the listener that applies every
    received datagram to the registry. Decoding is an oracle: a datagram is
    either a receive error or the result of decoding its bytes. */
module UdpDiscovery {
  import opened RustStr
  import opened Peer
  import opened Node

  const DISCOVERY_PORT: Port := 9999

  /** One `recv_from` on the discovery socket. */
  datatype Datagram =
    | RecvError
    | Received(decoded: Option<NetworkMessage>)

  /** The registry after a step, and the notice printed during it. */
  datatype Step = Step(peers: Peers, notice: Option<Notice>)

  /** The listener's effect for one datagram. */
  function ListenerStep(ownId: string, peers: Peers, d: Datagram): (r: Step)
    // self-exclusion: our own announcement never enters the registry
    ensures ownId !in peers ==> ownId !in r.peers
    ensures match d
      case Received(Some(Discovery(info))) =>
        if info.id == ownId then r == Step(peers, None)
        else
          && r.peers.Keys == peers.Keys + {info.id}
          && r.peers[info.id] == info
          && (forall k :: k in peers && k != info.id ==> r.peers[k] == peers[k])
          && (r.notice.Some? <==> info.id !in peers)
          && (r.notice.Some? ==> r.notice.value == DiscoveredNewPeer(info.name, info.ip))
      case Received(Some(Exit(id))) =>
        && r.peers.Keys == peers.Keys - {id}
        && (forall k :: k in r.peers ==> r.peers[k] == peers[k])
        && (r.notice.Some? <==> id in peers)
        && (r.notice.Some? ==> r.notice.value == PeerExited(id))
      // Heartbeat, Chat, an undecodable datagram, a receive error
      case _ => r == Step(peers, None)
  {
    match d
    case Received(Some(Discovery(info))) =>
      if info.id == ownId then Step(peers, None)
      else
        var notice := if info.id in peers then None else Some(DiscoveredNewPeer(info.name, info.ip));
        Step(Upserted(peers, info), notice)
    case Received(Some(Exit(id))) =>
      Step(Without(peers, id), if id in peers then Some(PeerExited(id)) else None)
    case _ => Step(peers, None)
  }

  /** One iteration of the receive loop of `start_discovery_listener`,
      applied in place to the registry. */
  method HandleDatagram(wt: WalkieTalkie, d: Datagram) returns (notice: Option<Notice>)
    modifies wt.registry
    ensures Step(wt.registry.peers, notice) == ListenerStep(wt.peerId, old(wt.registry.peers), d)
  {
    notice := None;
    if d.Received? && d.decoded.Some? {
      match d.decoded.value {
        case Discovery(info) =>
          if info.id != wt.peerId {
            var known := wt.registry.ContainsKey(info.id);
            if !known {
              notice := Some(DiscoveredNewPeer(info.name, info.ip));
            }
            var _ := wt.registry.Insert(info);
          }
        case Heartbeat(id) =>
          // the peer is looked up and nothing is done with the answer
          var _ := wt.registry.ContainsKey(id);
        case Exit(id) =>
          var removed := wt.registry.Remove(id);
          if removed.Some? {
            notice := Some(PeerExited(id));
          }
        case Chat(_) =>
      }
    }
  }

  /** The registry and the notices after the listener has received every
      datagram of `ds`, in order. */
  function ListenerRun(ownId: string, peers: Peers, ds: seq<Datagram>): (r: (Peers, seq<Notice>))
    ensures ownId !in peers ==> ownId !in r.0
    ensures |r.1| <= |ds|
    decreases |ds|
  {
    if ds == [] then (peers, [])
    else
      var before := ListenerRun(ownId, peers, ds[..|ds| - 1]);
      var s := ListenerStep(ownId, before.0, ds[|ds| - 1]);
      (s.peers, before.1 + if s.notice.Some? then [s.notice.value] else [])
  }

  /** `start_discovery_listener` over a finite prefix of what the socket
      delivers: no datagram, undecodable or not, stops the loop. */
  method RunListener(wt: WalkieTalkie, ds: seq<Datagram>) returns (notices: seq<Notice>)
    modifies wt.registry
    ensures (wt.registry.peers, notices) == ListenerRun(wt.peerId, old(wt.registry.peers), ds)
  {
    notices := [];
    var i := 0;
    while i < |ds|
      invariant 0 <= i <= |ds|
      invariant (wt.registry.peers, notices) == ListenerRun(wt.peerId, old(wt.registry.peers), ds[..i])
    {
      ghost var prev := ListenerRun(wt.peerId, old(wt.registry.peers), ds[..i]);
      assert ds[..i + 1][..i] == ds[..i] && ds[..i + 1][i] == ds[i];
      var notice := HandleDatagram(wt, ds[i]);
      if notice.Some? {
        notices := notices + [notice.value];
      }
      assert ListenerRun(wt.peerId, old(wt.registry.peers), ds[..i + 1])
          == (wt.registry.peers, prev.1 + if notice.Some? then [notice.value] else []);
      assert notices == prev.1 + if notice.Some? then [notice.value] else [];
      i := i + 1;
    }
    assert ds[..i] == ds;
  }

  /** Every entry the listener stores is stored under its record's id. */
  lemma {:induction false} ListenerKeepsKeyedById(ownId: string, peers: Peers, ds: seq<Datagram>)
    requires KeyedById(peers)
    ensures KeyedById(ListenerRun(ownId, peers, ds).0)
    decreases |ds|
  {
    if ds != [] {
      ListenerKeepsKeyedById(ownId, peers, ds[..|ds| - 1]);
    }
  }

  /** Receiving an Exit for a peer twice prints one notice: the second is a
      no-op. */
  lemma ExitTwiceNotifiesOnce(ownId: string, peers: Peers, id: string)
    requires id in peers
    ensures var exit := Received(Some(Exit(id)));
            ListenerRun(ownId, peers, [exit, exit]) == (Without(peers, id), [PeerExited(id)])
  {
    var exit := Received(Some(Exit(id)));
    var once := Without(peers, id);
    assert [exit, exit][..1] == [exit];
    assert [exit][..0] == [];
    assert ListenerRun(ownId, peers, [exit]).1 == [] + [PeerExited(id)] == [PeerExited(id)];
    assert ListenerStep(ownId, once, exit) == Step(once, None);
    assert [PeerExited(id)] + [] == [PeerExited(id)];
  }

  /** The registry scenario: insert "p1", re-announce it with a new port,
      then receive its Exit. The registry ends empty, the stored port
      followed the latest announcement, and exactly one discovery notice and
      one exit notice were printed. */
  lemma AnnounceReannounceExit(ownId: string, a: PeerInfo, port2: Port)
    requires a.id == "p1" && ownId != "p1"
    ensures var a2 := a.(port := port2);
            var s1 := ListenerStep(ownId, map[], Received(Some(Discovery(a))));
            var s2 := ListenerStep(ownId, s1.peers, Received(Some(Discovery(a2))));
            var s3 := ListenerStep(ownId, s2.peers, Received(Some(Exit("p1"))));
            && |s1.peers| == 1 && s1.notice == Some(DiscoveredNewPeer(a.name, a.ip))
            && |s2.peers| == 1 && s2.peers["p1"].port == port2 && s2.notice == None
            && s3.peers == map[] && s3.notice == Some(PeerExited("p1"))
  {
    var s1 := ListenerStep(ownId, map[], Received(Some(Discovery(a))));
    assert s1.peers.Keys == {"p1"};
  }
}
