/** The older single-file node (src/walkie_talkie.rs). It shares the
    registry and the UDP listener's behaviour with the current node, but its
    constructor stores name and port as given, its command line has no
    length limit, and neither its `/list` nor its broadcast consults
    `is_valid`. */
module Legacy {
  import opened RustStr
  import opened Peer
  import opened Node
  import opened UdpDiscovery
  import opened Broadcast
  import opened Cli

  class LegacyWalkieTalkie {
    const peerId: string
    const name: string
    const port: Port
    const registry: Registry

    function Me(): Identity {
      Identity(peerId, name, port)
    }

    /** `WalkieTalkie::new` of the older node: no normalisation. */
    constructor(name: string, port: Port, peerId: string)
      ensures this.peerId == peerId && this.name == name && this.port == port
      ensures fresh(registry) && registry.peers == map[]
    {
      this.peerId := peerId;
      this.name := name;
      this.port := port;
      this.registry := new Registry();
    }

    /** One iteration of its `start_discovery_listener`: the same dispatch
        as the current listener. */
    method HandleDatagram(d: Datagram) returns (notice: Option<Notice>)
      modifies registry
      ensures Step(registry.peers, notice) == ListenerStep(peerId, old(registry.peers), d)
    {
      notice := None;
      if d.Received? && d.decoded.Some? {
        match d.decoded.value {
          case Discovery(info) =>
            if info.id != peerId {
              var known := registry.ContainsKey(info.id);
              if !known {
                notice := Some(DiscoveredNewPeer(info.name, info.ip));
              }
              var _ := registry.Insert(info);
            }
          case Heartbeat(id) =>
            var _ := registry.ContainsKey(id);
          case Exit(id) =>
            var removed := registry.Remove(id);
            if removed.Some? {
              notice := Some(PeerExited(id));
            }
          case _ =>
        }
      }
    }

    /** Its `broadcast_message`: every peer in the registry is tried. */
    method BroadcastMessage(content: string, clock: Option<U64>, outcome: PeerInfo -> SendOutcome)
      returns (r: Option<Sent>)
      ensures r.None? <==> clock.None?
      ensures r.Some? ==> IsBroadcastOf(Me(), registry.peers, AdmitAll, content, clock.value, outcome, r.value)
    {
      r := Broadcast.BroadcastMessage(Me(), registry.peers, AdmitAll, content, clock, outcome);
    }

    /** Its `start_cli_handler`: the same loop over `LegacyClassify`, with
        `/list` printing every peer unlabelled and chat lines sent to every
        peer; its `/quit` fan-out is `broadcast_exit`'s. */
    method StartCliHandler(lines: seq<string>, end: InputEnd, clock: nat -> Option<U64>,
                           outcome: nat -> PeerInfo -> SendOutcome)
      returns (actions: seq<Action>, result: CliResult)
      ensures |actions| <= |lines|
      ensures forall i :: 0 <= i < |actions| ==>
                Answers(Me(), registry.peers, AdmitAll, clock(i), outcome(i), LegacyClassify(lines[i]), actions[i])
      ensures forall i :: 0 <= i < |actions| - 1 ==> LegacyClassify(lines[i]) != Quit
      ensures result == Exited <==> 0 < |actions| && LegacyClassify(lines[|actions| - 1]) == Quit
      ensures result != Exited ==> |actions| == |lines|
      ensures result == CliOk <==> |actions| == |lines| && end == EndOfFile
                                   && forall i :: 0 <= i < |lines| ==> LegacyClassify(lines[i]) != Quit
    {
      actions, result := RunCli(Me(), registry, LegacyClassify, AdmitAll, lines, end, clock, outcome);
    }
  }

  /** The older node's classification: as `Classify`, with no length
      limit. */
  function LegacyClassify(line: string): (c: Command)
    ensures c != TooLong
    ensures c == Blank <==> AllWhitespace(line)
    ensures c == Quit <==> Trim(line) == QUIT
    ensures c == List <==> Trim(line) == LIST
    ensures c.Say? <==> !AllWhitespace(line) && Trim(line) != QUIT && Trim(line) != LIST
    ensures c.Say? ==> c.content == Content(Trim(line)) && c.content != []
  {
    var input := Trim(line);
    if input == [] then Blank
    else if input == QUIT then Quit
    else if input == LIST then List
    else
      ContentOfTrimmed(line);
      Say(Content(input))
  }

  /** The two handlers classify every line of at most 512 bytes after
      trimming alike; a longer line is rejected by the current handler and
      sent whole (less any `/msg `) by the older one. */
  lemma ClassifyAgreesWithLegacy(line: string)
    ensures Utf8Len(Trim(line)) <= MAX_INPUT_BYTES ==> Classify(line) == LegacyClassify(line)
    ensures Utf8Len(Trim(line)) > MAX_INPUT_BYTES ==>
              Classify(line) == TooLong && LegacyClassify(line) == Say(Content(Trim(line)))
  {
    CommandWidths();
  }

  /** The older constructor stores exactly what the current one stores
      precisely when the name is already trimmed, non-empty and at most 64
      bytes, and the port is not 0. */
  lemma LegacyNewAgrees(name: string, port: Port)
    ensures NormalizeName(name) == name <==>
              name != [] && Trim(name) == name && Utf8Len(name) <= MAX_NAME_BYTES
    ensures NormalizePort(port) == port <==> port != 0
  {
  }

  /** Without a filter every peer is contacted: an older broadcast tries
      each registered id once. */
  lemma EveryPeerTried(me: Identity, peers: Peers, content: string, now: U64,
                       outcome: PeerInfo -> SendOutcome, s: Sent)
    requires IsBroadcastOf(me, peers, AdmitAll, content, now, outcome, s)
    ensures forall k :: k in s.attempts <==> k in peers
    ensures |s.attempts| == |peers|
  {
    assert Eligible(peers, AdmitAll) == peers.Keys;
  }

  /** The older `/list` prints every peer without the "Invalid peer"
      label. */
  lemma LegacyListingUnlabelled(peers: Peers, order: seq<string>, l: Listing)
    requires IsListingOf(peers, AdmitAll, order, l)
    ensures l.Listed? ==> forall i :: 0 <= i < |l.entries| ==> l.entries[i] == ValidPeer(peers[order[i]])
  {
  }
}
