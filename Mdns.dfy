/** Service discovery over multicast DNS (src/chat/net/discovery.rs): the
    advertisement the node publishes about itself, and the resolver that
    turns each response into a peer record, screens it, introduces the node
    to first-seen peers and stores the record. DNS-SD conventions follow
    RFC 6763 over RFC 6762; a TXT entry is a `key=value` string (section 6.3
    of RFC 6763). A response is the sequence of its records' kinds. */
module Mdns {
  import opened RustStr
  import opened Peer
  import opened Node

  const SERVICE_TYPE := "_chat._udp"
  const SERVICE_NAME := "_chat._udp.local"
  const PEER_ID_KEY := "peer_id="
  const UNKNOWN_NAME := "unknown"
  const MAX_MDNS_NAME_BYTES := 128

  /** The record kinds a response can carry (`mdns::RecordKind`). */
  datatype RecordKind =
    | A(a: Octet, b: Octet, c: Octet, d: Octet)
    | Aaaa(segments: Segments)
    | CName(alias: string)
    | Mx(preference: U16, exchange: string)
    | Ns(host: string)
    | Srv(priority: U16, weight: U16, srvPort: Port, target: string)
    | Txt(entries: seq<string>)
    | Ptr(ptrName: string)
    | Unimplemented(raw: seq<Octet>)

  // ---------------------------------------------------------------- advertisement

  /** The instance name registered for this node: `<name>-<peer_id>`. */
  function InstanceName(me: Identity): (r: string)
    ensures |r| == |me.name| + 1 + |me.peerId|
    ensures r[..|me.name|] == me.name && r[|me.name|] == '-' && r[|me.name| + 1..] == me.peerId
  {
    me.name + "-" + me.peerId
  }

  /** The single TXT entry registered for this node: `peer_id=<peer_id>`. */
  function AdvertisedTxt(me: Identity): (r: seq<string>)
    ensures |r| == 1 && StripPrefix(r[0], PEER_ID_KEY) == Some(me.peerId)
  {
    StripPrefixOfConcat(PEER_ID_KEY, me.peerId);
    [PEER_ID_KEY + me.peerId]
  }

  // ---------------------------------------------------------------- extraction

  /** `to_ip_addr`: only A and AAAA records yield an address. */
  function ToIpAddr(k: RecordKind): (r: Option<IpAddr>)
    ensures r.Some? <==> (k.A? || k.Aaaa?)
    ensures k.A? ==> r == Some(V4(k.a, k.b, k.c, k.d))
    ensures k.Aaaa? ==> r == Some(V6(k.segments))
  {
    match k
    case A(a, b, c, d) => Some(V4(a, b, c, d))
    case Aaaa(s) => Some(V6(s))
    case _ => None
  }

  function PtrTarget(k: RecordKind): Option<string> {
    if k.Ptr? then Some(k.ptrName) else None
  }

  function PeerIdEntry(entry: string): Option<string> {
    StripPrefix(entry, PEER_ID_KEY)
  }

  /** The id in a TXT record: its first entry starting with `peer_id=`,
      prefix removed. */
  function TxtPeerId(k: RecordKind): Option<string> {
    if k.Txt? then FindMap(k.entries, PeerIdEntry) else None
  }

  function SrvPort(k: RecordKind): Option<Port> {
    if k.Srv? then Some(k.srvPort) else None
  }

  /** What the resolver reads out of one response before any check. */
  datatype Fields = Fields(addr: Option<IpAddr>, name: string, id: string, port: Port)

  /** What the resolver reads out of one response, each field on its own:
      the first A/AAAA address, the first PTR target (else "unknown"), the
      first TXT `peer_id=` value (else the name) and the first SRV port (else
      our own port). `ExtractFallbacks` states what each field is. */
  function Extract(records: seq<RecordKind>, ownPort: Port): Fields {
    var name := FindMap(records, PtrTarget).GetOr(UNKNOWN_NAME);
    Fields(FindMap(records, ToIpAddr), name, FindMap(records, TxtPeerId).GetOr(name),
           FindMap(records, SrvPort).GetOr(ownPort))
  }

  /** Each field of `Extract` is taken from the first record that carries
      it, and falls back when no record does. */
  lemma ExtractFallbacks(records: seq<RecordKind>, ownPort: Port)
    ensures var f := Extract(records, ownPort);
            && (f.addr.Some? <==> exists i :: 0 <= i < |records| && (records[i].A? || records[i].Aaaa?))
            && (f.addr.Some? ==> exists i :: 0 <= i < |records| && ToIpAddr(records[i]) == f.addr
                                   && forall j :: 0 <= j < i ==> !records[j].A? && !records[j].Aaaa?)
            && ((forall i :: 0 <= i < |records| ==> !records[i].Ptr?) ==> f.name == UNKNOWN_NAME)
            && ((exists i :: 0 <= i < |records| && records[i].Ptr?) ==>
                  exists i :: 0 <= i < |records| && records[i] == Ptr(f.name)
                    && forall j :: 0 <= j < i ==> !records[j].Ptr?)
            && ((forall i :: 0 <= i < |records| ==> TxtPeerId(records[i]).None?) ==> f.id == f.name)
            && ((exists i :: 0 <= i < |records| && TxtPeerId(records[i]).Some?) ==>
                  exists i :: 0 <= i < |records| && TxtPeerId(records[i]) == Some(f.id)
                    && forall j :: 0 <= j < i ==> TxtPeerId(records[j]).None?)
            && ((forall i :: 0 <= i < |records| ==> !records[i].Srv?) ==> f.port == ownPort)
            && ((exists i :: 0 <= i < |records| && records[i].Srv?) ==>
                  exists i :: 0 <= i < |records| && records[i].Srv? && records[i].srvPort == f.port
                    && forall j :: 0 <= j < i ==> !records[j].Srv?)
  {
    assert forall i :: 0 <= i < |records| ==> (ToIpAddr(records[i]).Some? <==> (records[i].A? || records[i].Aaaa?));
    assert forall i :: 0 <= i < |records| ==> (PtrTarget(records[i]).Some? <==> records[i].Ptr?);
    assert forall i :: 0 <= i < |records| ==> (SrvPort(records[i]).Some? <==> records[i].Srv?);
  }

  // ---------------------------------------------------------------- screening

  datatype SkipReason =
    | InvalidIdOrPort
    | InvalidName
    | NoAddress
    | OwnResponse
    | UnroutableAddress
    | InvalidPeerInfo

  datatype Screened = Skip(reason: SkipReason) | Candidate(info: PeerInfo)

  predicate BadIdOrPort(f: Fields) { f.id == [] || f.port == 0 }

  predicate BadName(f: Fields) { Trim(f.name) == [] || Utf8Len(f.name) > MAX_MDNS_NAME_BYTES }

  predicate Unroutable(ip: IpAddr) { IsLoopback(ip) || IsMulticast(ip) }

  /** Every check a stored mDNS record has passed. */
  ghost predicate Admitted(ownId: string, isValid: PeerInfo -> bool, info: PeerInfo) {
    && info.id != [] && info.port != 0
    && Trim(info.name) != [] && Utf8Len(info.name) <= MAX_MDNS_NAME_BYTES
    && info.id != ownId
    && !Unroutable(info.ip)
    && isValid(info)
  }

  ghost predicate AllAdmitted(ownId: string, isValid: PeerInfo -> bool, peers: Peers) {
    forall k :: k in peers ==> Admitted(ownId, isValid, peers[k])
  }

  /** The chain of skips, in source order: id and port, name, address
      present, self, loopback or multicast, `is_valid`. A response is skipped
      for the first check it fails. */
  function Screen(ownId: string, isValid: PeerInfo -> bool, f: Fields): (r: Screened)
    ensures r == Skip(InvalidIdOrPort) <==> BadIdOrPort(f)
    ensures r == Skip(InvalidName) <==> !BadIdOrPort(f) && BadName(f)
    ensures r == Skip(NoAddress) <==> !BadIdOrPort(f) && !BadName(f) && f.addr.None?
    ensures r == Skip(OwnResponse) <==>
              !BadIdOrPort(f) && !BadName(f) && f.addr.Some? && f.id == ownId
    ensures r == Skip(UnroutableAddress) <==>
              !BadIdOrPort(f) && !BadName(f) && f.addr.Some? && f.id != ownId && Unroutable(f.addr.value)
    ensures r.Candidate? ==> f.addr.Some? && r.info == PeerInfo(f.id, f.name, f.addr.value, f.port)
    ensures r.Candidate? <==> f.addr.Some? && Admitted(ownId, isValid, PeerInfo(f.id, f.name, f.addr.value, f.port))
  {
    if BadIdOrPort(f) then Skip(InvalidIdOrPort)
    else if BadName(f) then Skip(InvalidName)
    else if f.addr.None? then Skip(NoAddress)
    else if f.id == ownId then Skip(OwnResponse)
    else if Unroutable(f.addr.value) then Skip(UnroutableAddress)
    else
      var info := PeerInfo(f.id, f.name, f.addr.value, f.port);
      if !isValid(info) then Skip(InvalidPeerInfo) else Candidate(info)
  }

  // ---------------------------------------------------------------- registry step

  /** A direct message the resolver sends: `(ip, port)` and the envelope. */
  datatype Outbound = Outbound(ip: IpAddr, port: Port, message: NetworkMessage)

  /** The registry after a response, the introduction sent and the
      "Discovered peer via mDNS" line printed, if any. */
  datatype MdnsStep = MdnsStep(peers: Peers, send: Option<Outbound>, notice: Option<Notice>)

  /** The registry step for a screened response: a candidate seen for the
      first time is announced with its name, address and port, then
      introduced to (one `Discovery` carrying our record, our port and its
      address) and stored, unless our own record fails `is_valid`, in which
      case it is announced but neither introduced to nor stored; a known
      candidate is overwritten silently. */
  function Admit(me: Identity, isValid: PeerInfo -> bool, peers: Peers, sc: Screened): (r: MdnsStep)
    ensures sc.Skip? ==> r == MdnsStep(peers, None, None)
    ensures r.notice.Some? <==> sc.Candidate? && sc.info.id !in peers
    ensures r.notice.Some? ==> r.notice.value == DiscoveredViaMdns(sc.info.name, sc.info.ip, sc.info.port)
    ensures r.send.Some? <==> sc.Candidate? && sc.info.id !in peers && isValid(OwnRecord(me, sc.info.ip))
    ensures r.send.Some? ==>
              r.send.value == Outbound(sc.info.ip, sc.info.port, Discovery(OwnRecord(me, sc.info.ip)))
    ensures sc.Candidate? && (sc.info.id in peers || r.send.Some?) ==> r.peers == Upserted(peers, sc.info)
    ensures !(sc.Candidate? && (sc.info.id in peers || r.send.Some?)) ==> r.peers == peers
  {
    match sc
    case Skip(_) => MdnsStep(peers, None, None)
    case Candidate(info) =>
      if info.id in peers then MdnsStep(Upserted(peers, info), None, None)
      else
        var notice := Some(DiscoveredViaMdns(info.name, info.ip, info.port));
        var mine := OwnRecord(me, info.ip);
        if !isValid(mine) then MdnsStep(peers, None, notice)
        else MdnsStep(Upserted(peers, info), Some(Outbound(info.ip, info.port, Discovery(mine))), notice)
  }

  /** The effect of one response on the registry, and the introduction it
      sends and the line it prints, if any. */
  function ApplyResponse(me: Identity, isValid: PeerInfo -> bool, peers: Peers,
                         records: seq<RecordKind>): (r: MdnsStep)
    ensures me.peerId !in peers ==> me.peerId !in r.peers
  {
    Admit(me, isValid, peers, Screen(me.peerId, isValid, Extract(records, me.port)))
  }

  /** One iteration of the resolver loop of `start_mdns`, applied in place:
      the `continue`s of the source are early returns. */
  method HandleResponse(wt: WalkieTalkie, isValid: PeerInfo -> bool, records: seq<RecordKind>)
    returns (send: Option<Outbound>, notice: Option<Notice>)
    modifies wt.registry
    ensures MdnsStep(wt.registry.peers, send, notice)
              == ApplyResponse(wt.Me(), isValid, old(wt.registry.peers), records)
  {
    send, notice := None, None;
    var f := Extract(records, wt.port);
    if f.id == [] || f.port == 0 {
      return;
    }
    if Trim(f.name) == [] || Utf8Len(f.name) > MAX_MDNS_NAME_BYTES {
      return;
    }
    if f.addr.None? {
      return;
    }
    var ip := f.addr.value;
    if f.id == wt.peerId {
      return;
    }
    if IsLoopback(ip) || IsMulticast(ip) {
      return;
    }
    var info := PeerInfo(f.id, f.name, ip, f.port);
    if !isValid(info) {
      return;
    }
    var known := wt.registry.ContainsKey(info.id);
    if !known {
      notice := Some(DiscoveredViaMdns(f.name, ip, f.port));
      var mine := OwnRecord(wt.Me(), ip);
      if !isValid(mine) {
        return;
      }
      send := Some(Outbound(ip, f.port, Discovery(mine)));
    }
    var _ := wt.registry.Insert(info);
  }

  /** One item of the discovery stream. */
  datatype StreamItem = Response(records: seq<RecordKind>) | StreamError

  /** What the resolver has done: the registry, the introductions sent and
      the lines printed. */
  datatype ResolverLog = ResolverLog(peers: Peers, sends: seq<Outbound>, notices: seq<Notice>)

  /** The log after the responses of `items`, in order (the loop never
      reaches an item after an error). */
  function ResolverRun(me: Identity, isValid: PeerInfo -> bool, peers: Peers,
                       items: seq<StreamItem>): (r: ResolverLog)
    ensures me.peerId !in peers ==> me.peerId !in r.peers
    ensures |r.sends| <= |r.notices| <= |items|
    decreases |items|
  {
    if items == [] then ResolverLog(peers, [], [])
    else ResolverItem(me, isValid, ResolverRun(me, isValid, peers, items[..|items| - 1]), items[|items| - 1])
  }

  /** One item of the stream applied to the log so far. */
  function ResolverItem(me: Identity, isValid: PeerInfo -> bool, acc: ResolverLog,
                        item: StreamItem): (r: ResolverLog)
    ensures me.peerId !in acc.peers ==> me.peerId !in r.peers
    ensures |r.sends| - |acc.sends| <= |r.notices| - |acc.notices| <= 1
    ensures |acc.sends| <= |r.sends| && |acc.notices| <= |r.notices|
  {
    match item
    case StreamError => acc
    case Response(records) =>
      var step := ApplyResponse(me, isValid, acc.peers, records);
      Logged(acc, step)
  }

  /** The log extended by one step. */
  function Logged(acc: ResolverLog, step: MdnsStep): ResolverLog {
    ResolverLog(step.peers, acc.sends + (if step.send.Some? then [step.send.value] else []),
                acc.notices + (if step.notice.Some? then [step.notice.value] else []))
  }

  /** Unfolding `ResolverRun` by one more response of the stream. */
  lemma ResolverRunStep(me: Identity, isValid: PeerInfo -> bool, peers: Peers,
                        stream: seq<StreamItem>, n: nat, step: MdnsStep)
    requires n < |stream| && stream[n].Response?
    requires step == ApplyResponse(me, isValid, ResolverRun(me, isValid, peers, stream[..n]).peers, stream[n].records)
    ensures ResolverRun(me, isValid, peers, stream[..n + 1]) == Logged(ResolverRun(me, isValid, peers, stream[..n]), step)
  {
    assert stream[..n + 1][..n] == stream[..n];
  }

  /** The resolver loop of `start_mdns`: `while let Some(Ok(response))`
      handles responses until the stream ends or yields an error. */
  method RunResolver(wt: WalkieTalkie, isValid: PeerInfo -> bool, stream: seq<StreamItem>)
    returns (sends: seq<Outbound>, notices: seq<Notice>, handled: nat)
    modifies wt.registry
    ensures handled <= |stream|
    ensures StreamError !in stream[..handled]
    ensures handled == |stream| || stream[handled].StreamError?
    ensures ResolverLog(wt.registry.peers, sends, notices)
              == ResolverRun(wt.Me(), isValid, old(wt.registry.peers), stream[..handled])
  {
    sends, notices, handled := [], [], 0;
    ghost var me, start := wt.Me(), wt.registry.peers;
    while handled < |stream| && stream[handled].Response?
      invariant handled <= |stream|
      invariant StreamError !in stream[..handled]
      invariant ResolverLog(wt.registry.peers, sends, notices) == ResolverRun(me, isValid, start, stream[..handled])
    {
      assert stream[..handled + 1] == stream[..handled] + [stream[handled]];
      assert StreamError !in stream[..handled + 1];
      ghost var step := ApplyResponse(me, isValid, wt.registry.peers, stream[handled].records);
      ResolverRunStep(me, isValid, start, stream, handled, step);
      sends, notices := ResolveOne(wt, isValid, stream[handled].records, sends, notices);
      handled := handled + 1;
    }
  }

  /** One response of the resolver loop, with the introduction and the
      announcement it produces appended to the logs. */
  method ResolveOne(wt: WalkieTalkie, isValid: PeerInfo -> bool, records: seq<RecordKind>,
                    sends: seq<Outbound>, notices: seq<Notice>)
    returns (sends': seq<Outbound>, notices': seq<Notice>)
    modifies wt.registry
    ensures ResolverLog(wt.registry.peers, sends', notices')
              == Logged(ResolverLog(old(wt.registry.peers), sends, notices),
                        ApplyResponse(wt.Me(), isValid, old(wt.registry.peers), records))
  {
    var send, notice := HandleResponse(wt, isValid, records);
    sends' := sends + if send.Some? then [send.value] else [];
    notices' := notices + if notice.Some? then [notice.value] else [];
  }

  /** Every record the resolver stores has passed all of its checks: a
      registry whose entries are all admitted stays so. */
  lemma {:induction false} ResolverKeepsAdmitted(me: Identity, isValid: PeerInfo -> bool, peers: Peers,
                                                 items: seq<StreamItem>)
    requires AllAdmitted(me.peerId, isValid, peers)
    ensures AllAdmitted(me.peerId, isValid, ResolverRun(me, isValid, peers, items).peers)
    decreases |items|
  {
    if items != [] {
      ResolverKeepsAdmitted(me, isValid, peers, items[..|items| - 1]);
      var prev := ResolverRun(me, isValid, peers, items[..|items| - 1]);
      if items[|items| - 1].Response? {
        ResponseKeepsAdmitted(me, isValid, prev.peers, items[|items| - 1].records);
      }
    }
  }

  lemma ResponseKeepsAdmitted(me: Identity, isValid: PeerInfo -> bool, peers: Peers, records: seq<RecordKind>)
    requires AllAdmitted(me.peerId, isValid, peers)
    ensures AllAdmitted(me.peerId, isValid, ApplyResponse(me, isValid, peers, records).peers)
  {
    var sc := Screen(me.peerId, isValid, Extract(records, me.port));
    var after := Admit(me, isValid, peers, sc).peers;
    if after != peers {
      assert sc.Candidate? && after == Upserted(peers, sc.info);
      assert Admitted(me.peerId, isValid, sc.info);
    }
  }

  /** Our own advertisement read back: its TXT entry yields our id. */
  lemma AdvertisedIdReadBack(me: Identity)
    ensures TxtPeerId(Txt(AdvertisedTxt(me))) == Some(me.peerId)
  {
    var entries := AdvertisedTxt(me);
    assert PeerIdEntry(entries[0]) == Some(me.peerId);
  }

  /** A response that leads with our own advertised TXT record never
      changes the registry and never triggers an introduction, whatever else
      it carries. */
  lemma OwnAdvertisementIgnored(me: Identity, isValid: PeerInfo -> bool, peers: Peers,
                                rest: seq<RecordKind>)
    ensures ApplyResponse(me, isValid, peers, [Txt(AdvertisedTxt(me))] + rest) == MdnsStep(peers, None, None)
  {
    var records := [Txt(AdvertisedTxt(me))] + rest;
    AdvertisedIdReadBack(me);
    assert TxtPeerId(records[0]).Some?;
    assert FindMap(records, TxtPeerId) == Some(me.peerId);
    assert Extract(records, me.port).id == me.peerId;
  }

  /** A first-seen candidate is announced even when our own record fails
      `is_valid`; it is then not stored, so every later response from it is
      announced again, while nothing is sent and the registry stays as it
      was. */
  lemma AbandonedCandidateAnnouncedAgain(me: Identity, isValid: PeerInfo -> bool, peers: Peers, sc: Screened)
    requires sc.Candidate? && sc.info.id !in peers && !isValid(OwnRecord(me, sc.info.ip))
    ensures var r := Admit(me, isValid, peers, sc);
            && r.peers == peers && r.send.None?
            && r.notice == Some(DiscoveredViaMdns(sc.info.name, sc.info.ip, sc.info.port))
            && Admit(me, isValid, r.peers, sc) == r
  {
  }
}
