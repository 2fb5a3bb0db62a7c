/** The node (src/walkie_talkie/mod.rs): its immutable identity, the shared
    peer registry it owns, and the construction-time normalisation of the
    display name and listening port. */
module Node {
  import opened RustStr
  import opened Peer

  const MAX_NAME_BYTES := 64
  const DEFAULT_NAME := "Anonymous"
  const DEFAULT_PORT: Port := 8080

  /** What every handler knows about the node it runs in. */
  datatype Identity = Identity(peerId: string, name: string, port: Port)

  /** The stored display name: the trimmed name when it is non-empty and at
      most 64 UTF-8 bytes long, `"Anonymous"` otherwise. */
  function NormalizeName(name: string): (r: string)
    ensures Trim(name) != [] && Utf8Len(Trim(name)) <= MAX_NAME_BYTES ==> r == Trim(name)
    ensures Trim(name) == [] || Utf8Len(Trim(name)) > MAX_NAME_BYTES ==> r == DEFAULT_NAME
    ensures r != [] && Utf8Len(r) <= MAX_NAME_BYTES && Trim(r) == r
  {
    var t := Trim(name);
    if t == [] || Utf8Len(t) > MAX_NAME_BYTES then
      Utf8LenAscii(DEFAULT_NAME);
      TrimOfTrimmed(DEFAULT_NAME);
      DEFAULT_NAME
    else
      TrimIdempotent(name);
      t
  }

  /** The stored port: 0 becomes 8080, any other port is kept. */
  function NormalizePort(port: Port): (r: Port)
    ensures r > 0
    ensures port != 0 ==> r == port
    ensures port == 0 ==> r == DEFAULT_PORT
  {
    if port == 0 then DEFAULT_PORT else port
  }

  /** Normalisation is a fixed point on what it stores: building a node from
      another node's stored name and port changes nothing. */
  lemma NormalizeIdempotent(name: string, port: Port)
    ensures NormalizeName(NormalizeName(name)) == NormalizeName(name)
    ensures NormalizePort(NormalizePort(port)) == NormalizePort(port)
  {
    var r := NormalizeName(name);
    assert Trim(r) == r && r != [] && Utf8Len(r) <= MAX_NAME_BYTES;
  }

  /** The construction the test suite checks: ("Tester", 9000) is stored as
      given. */
  lemma TesterKeptAsGiven()
    ensures NormalizeName("Tester") == "Tester"
    ensures NormalizePort(9000) == 9000
  {
    TrimOfTrimmed("Tester");
    Utf8LenAscii("Tester");
  }

  /** The node's own record with the given address: what
      `start_discovery_broadcast` announces every 5 seconds (with the
      operating system's local address) and what the mDNS resolver sends to
      a newly found peer (with that peer's address). */
  function OwnRecord(me: Identity, ip: IpAddr): (r: PeerInfo)
    ensures r.id == me.peerId && r.name == me.name && r.port == me.port && r.ip == ip
  {
    PeerInfo(me.peerId, me.name, ip, me.port)
  }

  /** `HashMap::insert` keyed by the record's id: last writer wins. */
  function Upserted(peers: Peers, info: PeerInfo): (r: Peers)
    ensures r.Keys == peers.Keys + {info.id}
    ensures r[info.id] == info
    ensures forall k :: k in peers && k != info.id ==> r[k] == peers[k]
  {
    peers[info.id := info]
  }

  /** `HashMap::remove`: the map without `id`, whether or not it was there. */
  function Without(peers: Peers, id: string): (r: Peers)
    ensures r.Keys == peers.Keys - {id}
    ensures forall k :: k in r ==> r[k] == peers[k]
    ensures |r| == if id in peers then |peers| - 1 else |peers|
  {
    var r := map k | k in peers && k != id :: peers[k];
    assert r.Keys == peers.Keys - {id};
    r
  }

  /** Every entry is stored under its own record's id. */
  ghost predicate KeyedById(peers: Peers) {
    forall k :: k in peers ==> peers[k].id == k
  }

  /** The registry shared by every handler: one map from peer id to the last
      record received for it, changed in place. */
  class Registry {
    var peers: Peers

    constructor()
      ensures peers == map[]
    {
      peers := map[];
    }

    method ContainsKey(id: string) returns (present: bool)
      ensures present == (id in peers)
    {
      present := id in peers;
    }

    /** Insert or overwrite; returns the record it replaced, if any. */
    method Insert(info: PeerInfo) returns (previous: Option<PeerInfo>)
      modifies this
      ensures peers == Upserted(old(peers), info)
      ensures previous == if info.id in old(peers) then Some(old(peers)[info.id]) else None
    {
      previous := if info.id in peers then Some(peers[info.id]) else None;
      peers := Upserted(peers, info);
    }

    /** Remove `id`; returns the record removed, `None` when it was absent. */
    method Remove(id: string) returns (removed: Option<PeerInfo>)
      modifies this
      ensures peers == Without(old(peers), id)
      ensures removed == if id in old(peers) then Some(old(peers)[id]) else None
    {
      removed := if id in peers then Some(peers[id]) else None;
      peers := Without(peers, id);
    }
  }

  /** `WalkieTalkie`: the node's identity and its registry. The identity is
      fixed for the process lifetime; only the registry changes. */
  class WalkieTalkie {
    const peerId: string
    const name: string
    const port: Port
    const registry: Registry

    function Me(): Identity {
      Identity(peerId, name, port)
    }

    /** `WalkieTalkie::new`: the peer id is the freshly generated UUID,
        passed in. */
    constructor(name: string, port: Port, peerId: string)
      ensures this.peerId == peerId
      ensures this.name == NormalizeName(name) && this.port == NormalizePort(port)
      ensures fresh(registry) && registry.peers == map[]
    {
      this.peerId := peerId;
      this.name := NormalizeName(name);
      this.port := NormalizePort(port);
      this.registry := new Registry();
    }
  }
}
