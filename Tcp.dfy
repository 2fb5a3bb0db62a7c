/** The inbound connection handler (src/network.rs): reads chunks of at most
    1024 bytes, decodes each chunk on its own, publishes chat lines to the
    message bus and applies Exit notices to the registry. Decoding is an
    oracle function on the bytes of one chunk. */
module Tcp {
  import opened RustStr
  import opened Peer
  import opened Node

  const BUF_SIZE := 1024

  type Byte = x: int | 0 <= x < 0x100
  /** What one `try_read` into the 1024-byte buffer can hand back. */
  type Chunk = s: seq<Byte> | |s| <= BUF_SIZE

  /** One round of the read loop: `readable()` failing, `try_read`
      returning bytes (none: the peer closed), would-block, or another
      error. */
  datatype ReadOutcome =
    | NotReadable
    | Bytes(chunk: Chunk)
    | WouldBlock
    | ReadFailed

  /** Whether the round ends the handler. */
  predicate Ends(r: ReadOutcome) {
    r.NotReadable? || r.ReadFailed? || (r.Bytes? && r.chunk == [])
  }

  /** The line published on the message bus for a chat message. */
  function Says(m: Message): (line: string)
    ensures |line| == |m.fromName| + |" says: "| + |m.content|
    ensures line[..|m.fromName|] == m.fromName
    ensures line[|line| - |m.content|..] == m.content
    ensures line[|m.fromName|..|line| - |m.content|] == " says: "
  {
    m.fromName + " says: " + m.content
  }

  /** What the handler has done so far: the registry, the lines published
      on the bus and the notices printed. */
  datatype Session = Session(peers: Peers, published: seq<string>, notices: seq<Notice>)

  /** The effect of one decoded (or undecodable) chunk. */
  function ChunkEffect(s: Session, decoded: Option<NetworkMessage>): (r: Session)
    ensures r.peers.Keys <= s.peers.Keys
    ensures forall k :: k in r.peers ==> r.peers[k] == s.peers[k]
    ensures match decoded
      case Some(Chat(m)) => r == s.(published := s.published + [Says(m)])
      case Some(Exit(id)) =>
        && r.peers.Keys == s.peers.Keys - {id}
        && r.published == s.published
        && r.notices == s.notices + if id in s.peers then [PeerExited(id)] else []
      // Discovery, Heartbeat and undecodable chunks are ignored
      case _ => r == s
  {
    match decoded
    case Some(Chat(m)) => s.(published := s.published + [Says(m)])
    case Some(Exit(id)) =>
      s.(peers := Without(s.peers, id),
         notices := s.notices + if id in s.peers then [PeerExited(id)] else [])
    case _ => s
  }

  /** The session after the rounds of `rounds`, in order; a round that ends
      the handler or would block changes nothing. */
  function Replay(start: Session, rounds: seq<ReadOutcome>, decode: seq<Byte> -> Option<NetworkMessage>): (r: Session)
    ensures r.peers.Keys <= start.peers.Keys
    ensures forall k :: k in r.peers ==> r.peers[k] == start.peers[k]
    ensures |r.published| <= |start.published| + |rounds|
    decreases |rounds|
  {
    if rounds == [] then start
    else
      var prev := Replay(start, rounds[..|rounds| - 1], decode);
      var last := rounds[|rounds| - 1];
      if last.Bytes? && last.chunk != [] then ChunkEffect(prev, decode(last.chunk)) else prev
  }

  /** `handle_tcp_connection` over the rounds the connection offers.
      `consumed` rounds are taken: up to and including the first one that
      ends the handler, or all of them. The handler always returns `Ok`. */
  method HandleTcpConnection(registry: Registry, rounds: seq<ReadOutcome>,
                             decode: seq<Byte> -> Option<NetworkMessage>)
    returns (published: seq<string>, notices: seq<Notice>, consumed: nat)
    modifies registry
    ensures consumed <= |rounds|
    ensures forall j :: 0 <= j < consumed - 1 ==> !Ends(rounds[j])
    ensures consumed == |rounds| || (0 < consumed && Ends(rounds[consumed - 1]))
    ensures Session(registry.peers, published, notices)
         == Replay(Session(old(registry.peers), [], []), rounds[..consumed], decode)
  {
    published, notices, consumed := [], [], 0;
    ghost var start := Session(old(registry.peers), [], []);
    while consumed < |rounds|
      invariant consumed <= |rounds|
      invariant forall j :: 0 <= j < consumed ==> !Ends(rounds[j])
      invariant Session(registry.peers, published, notices) == Replay(start, rounds[..consumed], decode)
    {
      var r := rounds[consumed];
      assert rounds[..consumed + 1][..consumed] == rounds[..consumed];
      consumed := consumed + 1;
      if r.NotReadable? || r.ReadFailed? {
        break;
      }
      if r.WouldBlock? {
        continue;
      }
      if r.chunk == [] {
        break;   // connection closed
      }
      match decode(r.chunk) {
        case Some(Chat(m)) =>
          published := published + [Says(m)];
        case Some(Exit(id)) =>
          var removed := registry.Remove(id);
          if removed.Some? {
            notices := notices + [PeerExited(id)];
          }
        case _ =>
      }
    }
  }

  /** A chunk that decodes to nothing, or to a Discovery or Heartbeat,
      leaves the session as it was, and so does a would-block round. */
  lemma IgnoredRoundsChangeNothing(start: Session, rounds: seq<ReadOutcome>,
                                   decode: seq<Byte> -> Option<NetworkMessage>)
    requires forall j :: 0 <= j < |rounds| ==>
               rounds[j].WouldBlock? ||
               (rounds[j].Bytes? && rounds[j].chunk != [] &&
                (decode(rounds[j].chunk).None? || decode(rounds[j].chunk).value.Discovery?
                 || decode(rounds[j].chunk).value.Heartbeat?))
    ensures Replay(start, rounds, decode) == start
    decreases |rounds|
  {
    if rounds != [] {
      IgnoredRoundsChangeNothing(start, rounds[..|rounds| - 1], decode);
    }
  }
}
