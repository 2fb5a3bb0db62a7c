# Peer registry of a LAN peer-to-peer walkie-talkie, in Dafny

Every node of the LAN chat keeps a registry: a map from peer id to the peer's
last known contact record (`PeerInfo`: id, display name, IP address, port).
This project models that registry and the handlers that change or read it:

- UDP broadcast discovery (`Discovery`, `Heartbeat` and `Exit` datagrams);
- multicast-DNS service discovery (field extraction from a response, the
  chain of skip checks, the introduction sent to first-seen peers);
- the inbound TCP connection handler (chat lines, `Exit`);
- the outbound fan-outs: `broadcast_message` and `broadcast_exit`;
- the command line (`/list`, `/quit`, `/msg`, blank and over-long input);
- the node constructor, which normalises the name and the port;
- the older single-file node, `src/walkie_talkie.rs`.

The registry is a `class Registry` whose `peers: map<string, PeerInfo>` is
changed in place by `Insert` and `Remove`, as `HashMap::insert` and
`HashMap::remove` do. Each handler's loop body is a method on that object.
The method is proved equal to a pure step function (`ListenerStep`,
`ChunkEffect`, `ApplyResponse`), and the loops are proved equal to left folds of
these steps (`ListenerRun`, `Replay`, `ResolverRun`). The properties the code
promises are stated about the step functions: self-exclusion, last writer
wins, remove-iff-present notices, the skip conditions, the fallbacks, the
counts, and invariants preserved by every run.

Rust's string operations are modelled with their own semantics (`RustStr`):

- `trim` strips Unicode White_Space from both ends;
- `len` counts UTF-8 bytes;
- `strip_prefix` and `find_map` keep their standard meaning.

IP addresses carry `is_loopback` and `is_multicast` as defined in section
3.2.1.3 of RFC 1122, RFC 5771, and sections 2.5.3 and 2.7 of RFC 4291.

Inputs the program gets from outside are parameters:

- what a socket delivered, after JSON decoding;
- the records of an mDNS response;
- the lines of standard input;
- the clock's reading while each command line is handled;
- whether a connection and its write succeed, which the command line
  asks afresh for every line it handles;
- `PeerInfo::is_valid`, whose body is not part of this model.

Sends and printed notices are returned as logs.

The model follows the code, including where it is looser than a registry
that validates every record:

- The UDP discovery listener stores any `Discovery` record other than the
  node's own without calling `is_valid`. Only the mDNS resolver applies
  the validity checks before storing.
- When our own record fails `is_valid`, the mDNS resolver still prints
  "Discovered peer via mDNS" for a first-seen peer. It then neither sends
  to the peer nor stores it, so every later response from that peer is
  announced again.
- `broadcast_exit` contacts every peer, with no `is_valid` filter.

## Model

| member | source | states |
|---|---|---|
| `RustStr.Utf8Len` | src/walkie_talkie/mod.rs:41 | `str::len` in bytes: between one and four per character, zero exactly for the empty string |
| `RustStr.Utf8LenConcat` | src/walkie_talkie/display/cli.rs:51 | the byte length of a concatenation is the sum of the byte lengths |
| `RustStr.Utf8LenAscii` | src/walkie_talkie/mod.rs:41-42 | an ASCII string has one byte per character (so "Anonymous" is 9 bytes) |
| `RustStr.Trim` | src/walkie_talkie/mod.rs:40 | `str::trim`: the slice between the leading and the trailing whitespace runs; both ends of a non-empty result are non-whitespace; empty exactly when the input is all whitespace |
| `RustStr.TrimOfTrimmed` | src/walkie_talkie/mod.rs:40 | a string with non-whitespace ends is its own trim |
| `RustStr.TrimIdempotent` | src/walkie_talkie/mod.rs:40 | trimming twice is trimming once |
| `RustStr.StripPrefix` | src/walkie_talkie/display/cli.rs:82-86 | `str::strip_prefix`: `Some` exactly when the string starts with the prefix, and then prefix + rest is the string |
| `RustStr.StripPrefixOfConcat` | src/chat/net/discovery.rs:53 | stripping a prefix from prefix + rest gives back rest |
| `RustStr.FindMap` | src/chat/net/discovery.rs:41-47 | `Iterator::find_map`: `None` exactly when every element maps to `None`; otherwise the value of the first element that maps to `Some` |
| `Peer.IsLoopback` | src/chat/net/discovery.rs:87 | `IpAddr::is_loopback`: 127.0.0.0/8 for IPv4, exactly `::1` for IPv6 |
| `Peer.IsMulticast` | src/chat/net/discovery.rs:87 | `IpAddr::is_multicast`: 224.0.0.0/4 for IPv4, ff00::/8 for IPv6 |
| `Peer.UnroutableRanges` | src/chat/net/discovery.rs:87 | no address is both loopback and multicast; 127.0.0.1 and ::1 are loopback, the mDNS group addresses 224.0.0.251 and ff02::fb are multicast, 192.168.1.10, :: and fe80::1 are neither |
| `Peer.EnvelopeIsClosed` | src/peer.rs:11-33 | the wire envelope is exactly one of `Discovery` (a `PeerInfo` of id, name, address and `u16` port), `Chat` (a `Message` of sender id, sender name, content and `u64` timestamp), `Heartbeat` (an id) and `Exit` (an id) |
| `Node.NormalizeName` | src/walkie_talkie/mod.rs:40-45 | the trimmed name when it is non-empty and at most 64 bytes, "Anonymous" otherwise; the stored name is always non-empty, at most 64 bytes and trimmed |
| `Node.NormalizePort` | src/walkie_talkie/mod.rs:46 | port 0 becomes 8080, any other port is kept; the stored port is never 0 |
| `Node.NormalizeIdempotent` | src/walkie_talkie/mod.rs:40-46 | normalising a stored name or port again changes nothing |
| `Node.TesterKeptAsGiven` | tests/network.rs:21-25 | ("Tester", 9000) is stored as given |
| `Node.OwnRecord` | src/walkie_talkie/net/discovery.rs:17-22 | the announced record carries the node's own id, name and port, and the given address |
| `Node.Upserted` | src/walkie_talkie/net/discovery.rs:60 | `HashMap::insert`: the key set gains the id, the id maps to the new record, every other entry is unchanged |
| `Node.Without` | src/walkie_talkie/net/discovery.rs:71 | `HashMap::remove`: the key set loses the id, every other entry is unchanged, the size drops by one exactly when the id was present |
| `Node.Registry.constructor` | src/walkie_talkie/mod.rs:53 | a new registry is empty |
| `Node.Registry.ContainsKey` | src/walkie_talkie/net/discovery.rs:50 | answers whether the id is a key |
| `Node.Registry.Insert` | src/walkie_talkie/net/discovery.rs:60 | the map becomes `Upserted` of the old map; returns the replaced record, if any |
| `Node.Registry.Remove` | src/walkie_talkie/net/discovery.rs:71 | the map becomes `Without` the id; returns the removed record, `None` when the id was absent |
| `Node.WalkieTalkie.constructor` | src/walkie_talkie/mod.rs:38-56 | stores the normalised name and port and the given id, with a fresh empty registry |
| `UdpDiscovery.ListenerStep` | src/walkie_talkie/net/discovery.rs:43-87 | own `Discovery`: nothing changes; another `Discovery`: upserted with no `is_valid` check, notice exactly when the id was new; `Exit`: removed, notice exactly when present; `Heartbeat`, `Chat`, undecodable or failed receive: nothing changes; the own id is never added |
| `UdpDiscovery.HandleDatagram` | src/walkie_talkie/net/discovery.rs:43-87 | one receive-loop iteration changes the registry and prints exactly as `ListenerStep` says |
| `UdpDiscovery.ListenerRun` | src/walkie_talkie/net/discovery.rs:42-89 | over any sequence of datagrams the own id is never added and at most one notice is printed per datagram |
| `UdpDiscovery.RunListener` | src/walkie_talkie/net/discovery.rs:42-89 | the receive loop, continuing after every kind of datagram, ends in the registry and notices of `ListenerRun` |
| `UdpDiscovery.ListenerKeepsKeyedById` | src/walkie_talkie/net/discovery.rs:47-80 | every stored record stays stored under its own id |
| `UdpDiscovery.ExitTwiceNotifiesOnce` | src/walkie_talkie/net/discovery.rs:69-80 | a repeated `Exit` removes the peer once and prints one notice |
| `UdpDiscovery.AnnounceReannounceExit` | src/walkie_talkie/net/discovery.rs:47-80 | announce, re-announce with a new port, then exit: one entry that follows the latest port, one discovery notice, one exit notice, empty at the end |
| `Tcp.Says` | src/network.rs:26-27 | the published line is the sender's name, " says: ", then the content |
| `Tcp.ChunkEffect` | src/network.rs:22-45 | `Chat` publishes one line and leaves the registry alone; `Exit` removes the id with a notice exactly when present; anything else, or an undecodable chunk, changes nothing; no entry is ever added or altered |
| `Tcp.Replay` | src/network.rs:19-54 | over any rounds the registry only loses entries, the remaining ones unchanged, and at most one line is published per round |
| `Tcp.HandleTcpConnection` | src/network.rs:11-57 | the read loop takes rounds up to the first one that ends it (not readable, zero bytes, a read error other than would-block) and its effect is `Replay` of those rounds, each chunk decoded alone |
| `Tcp.IgnoredRoundsChangeNothing` | src/network.rs:23-48 | would-block rounds and chunks that decode to nothing, `Discovery` or `Heartbeat` leave the session unchanged |
| `Mdns.InstanceName` | src/chat/net/discovery.rs:25 | the advertised instance name is the name, "-", then the peer id |
| `Mdns.AdvertisedTxt` | src/chat/net/discovery.rs:27 | one TXT entry, from which stripping "peer_id=" gives back our id |
| `Mdns.ToIpAddr` | src/chat/net/discovery.rs:138-144 | only A and AAAA records yield an address, the one they carry |
| `Mdns.ExtractFallbacks` | src/chat/net/discovery.rs:40-70 | the address is that of the first A/AAAA record and exists exactly when one does; the name is the first PTR target, else "unknown"; the id is the first `peer_id=` value of the first TXT record that has one, else the name; the port is the first SRV port, else our own |
| `Mdns.Screen` | src/chat/net/discovery.rs:72-103 | a response is skipped for the first failing check in source order (empty id or port 0, blank or over-128-byte name, no address, own id, loopback or multicast, `is_valid`); a candidate passes all of them |
| `Mdns.Admit` | src/chat/net/discovery.rs:104-132 | a skip changes nothing; a known candidate is overwritten silently and without a send; a new candidate is announced ("Discovered peer via mDNS" with its name, address and port), then gets one `Discovery` of our record at its address and port and is stored, unless our record fails `is_valid`, when it is announced but neither sent to nor stored |
| `Mdns.ApplyResponse` | src/chat/net/discovery.rs:40-133 | one response never stores our own id |
| `Mdns.HandleResponse` | src/chat/net/discovery.rs:40-133 | one iteration of the resolver loop, with its `continue`s, changes the registry, sends and prints as `ApplyResponse` says |
| `Mdns.ResolverRun` | src/chat/net/discovery.rs:39-134 | over any responses our own id is never stored, at most one announcement is printed per response, and there are never more introductions than announcements |
| `Mdns.ResolverItem` | src/chat/net/discovery.rs:39-133 | one stream item never stores our own id, prints at most one announcement and sends an introduction only with an announcement |
| `Mdns.RunResolver` | src/chat/net/discovery.rs:39-135 | the `while let Some(Ok(..))` loop handles responses up to the stream's end or first error, ending in the registry, introductions and announcements of `ResolverRun` of them |
| `Mdns.ResolveOne` | src/chat/net/discovery.rs:40-133 | one handled response leaves the registry as `ApplyResponse` says and appends its introduction and its announcement, if any, to the logs |
| `Mdns.ResponseKeepsAdmitted` | src/chat/net/discovery.rs:72-132 | if every stored record passed all the checks, so does every record after one response |
| `Mdns.ResolverKeepsAdmitted` | src/chat/net/discovery.rs:39-134 | the same over any sequence of stream items |
| `Mdns.AdvertisedIdReadBack` | src/chat/net/discovery.rs:48-61 | the id read from our own TXT record is our id |
| `Mdns.AbandonedCandidateAnnouncedAgain` | src/chat/net/discovery.rs:105-122 | a first-seen screened candidate dropped because our own record fails `is_valid` is announced with its name, address and port, not stored and sent nothing, so the same response announces it again |
| `Mdns.OwnAdvertisementIgnored` | src/chat/net/discovery.rs:83-85 | a response that carries our own TXT record first changes nothing and sends nothing |
| `Broadcast.FanOut` | src/walkie_talkie/net/broadcast.rs:21-32 | each admitted peer is tried exactly once and no other; the connected set and the success count are those of the admitted peers whose connect, and connect plus write, succeed |
| `Broadcast.Visit` | src/walkie_talkie/net/broadcast.rs:23-31 | one loop iteration: a peer failing the filter is skipped, an admitted one is tried, and it is counted when both connect and write succeed; starting from the attempts, connections and count of the ids already handled, it yields those of the handled ids plus the new one |
| `Broadcast.BroadcastMessage` | src/walkie_talkie/net/broadcast.rs:8-39 | fails exactly when the clock is before the epoch; otherwise sends `Chat` with our id, our name, the unchanged content and the time, to exactly the `is_valid` peers, and reports the delivery count or "no peers available" |
| `Broadcast.DeliveriesBounded` | src/walkie_talkie/net/broadcast.rs:22-32 | deliveries ≤ connections ≤ admitted peers ≤ registry size |
| `Broadcast.NoPeersAvailableExactly` | src/walkie_talkie/net/broadcast.rs:33-38 | "no peers available" exactly when no admitted peer took the whole message; an empty or all-invalid registry tries nobody |
| `Cli.Content` | src/walkie_talkie/display/cli.rs:82-86 | a leading "/msg " is removed, otherwise the input is kept |
| `Cli.ContentOfTrimmed` | src/walkie_talkie/display/cli.rs:46-86 | the content of trimmed non-blank input is never empty and never longer than the input |
| `Cli.Classify` | src/walkie_talkie/display/cli.rs:46-90 | blank exactly for all-whitespace input; rejected exactly when the trimmed input exceeds 512 bytes; `/quit` and `/list` exactly on those words; otherwise a chat line whose content is the trimmed input less "/msg ", non-empty and within 512 bytes |
| `Cli.ChatLineRoundTrip` | src/walkie_talkie/display/cli.rs:82-86 | "/msg " followed by a trimmed message sends exactly that message, and so does the bare message unless it is a command or starts with "/msg " |
| `Cli.Label` | src/walkie_talkie/display/cli.rs:69-77 | a peer is listed normally exactly when it passes `is_valid`, and the line shows its record |
| `Cli.Labels` | src/walkie_talkie/display/cli.rs:69-78 | one labelled line per id, in order |
| `Cli.ListPeers` | src/walkie_talkie/display/cli.rs:63-80 | "No peers discovered yet." exactly for an empty registry; otherwise one labelled line per peer, each peer once |
| `Cli.BroadcastExit` | src/walkie_talkie/display/cli.rs:15-26 | `Exit(our id)` is tried with every peer, with no filter; "Quit broadcasted" for exactly the peers that accepted the connection |
| `Cli.RunCli` | src/walkie_talkie/display/cli.rs:28-94 | every line up to the first `/quit` gets the answer its command calls for; `/quit` exits the process after the exit fan-out; otherwise the handler returns `Ok` at end of file and the error after a failed read; the connection outcomes may differ from line to line |
| `Cli.StartCliHandler` | src/walkie_talkie/display/cli.rs:28-94 | the current command loop is `RunCli` with `Classify` and the `is_valid` filter: every line answered as its classification calls for, and a chat line is sent only when its trimmed text is non-blank and at most 512 bytes |
| `Legacy.LegacyWalkieTalkie.constructor` | src/walkie_talkie.rs:23-34 | stores name and port exactly as given, with an empty registry |
| `Legacy.LegacyWalkieTalkie.HandleDatagram` | src/walkie_talkie.rs:148-195 | the older listener's iteration has exactly `ListenerStep`'s effect |
| `Legacy.LegacyWalkieTalkie.BroadcastMessage` | src/walkie_talkie.rs:306-342 | the older broadcast is `broadcast_message` with every peer admitted |
| `Legacy.LegacyWalkieTalkie.StartCliHandler` | src/walkie_talkie.rs:215-284 | the older command loop: the same answers, with `LegacyClassify`, unlabelled listing and an unfiltered broadcast; the connection outcomes may differ from line to line |
| `Legacy.LegacyClassify` | src/walkie_talkie.rs:235-275 | the same classification with no length limit: nothing is ever rejected as too long |
| `Legacy.ClassifyAgreesWithLegacy` | src/walkie_talkie.rs:235-238 | both handlers agree on every line of at most 512 trimmed bytes; a longer one is rejected by the current handler and sent by the older one |
| `Legacy.LegacyNewAgrees` | src/walkie_talkie.rs:23-34 | the older constructor stores what the current one does exactly for trimmed, non-empty names of at most 64 bytes and non-zero ports |
| `Legacy.EveryPeerTried` | src/walkie_talkie.rs:319-333 | the older broadcast tries every registered peer once |
| `Legacy.LegacyListingUnlabelled` | src/walkie_talkie.rs:255-267 | the older `/list` prints every peer without the "Invalid peer" label |
| `Interleaving.NeverStoresSelf` | src/walkie_talkie/mod.rs:69-107 | from a new node's empty registry, no interleaving of UDP listener, mDNS resolver and TCP steps ever stores the node's own id; the current `start` runs the resolver and the TCP handler, the older one (src/walkie_talkie.rs:48-54) the listener and the TCP handler, so both are covered |
| `Interleaving.StaysKeyedById` | src/walkie_talkie.rs:48-54 | every interleaving of the three kinds of step, and so each node's, keeps each record stored under its own id |
| `Interleaving.ExitAgrees` | src/network.rs:30-41 | an `Exit` has the same effect on the registry over UDP and over TCP |

## Left out

- Concurrency: tokio tasks, `tokio::select!` and the `Mutex`. Each locked section is one atomic step. `Interleaving` covers any order of such steps, and the command line sees the registry as fixed during a run.
- Sockets: binding, sending, receiving, connecting, accepting, `local_ip()` and the sleeps. src/walkie_talkie/net/heartbeat.rs and src/walkie_talkie/net/listener.rs are not part of this model. Their effects are oracle parameters and output logs.
- The periodic loop of `start_discovery_broadcast`: only the record it announces (`OwnRecord`) is modelled.
- The legacy node's `start`, `start_tcp_listener`, `start_discovery_broadcast`, `start_heartbeat` and `start_message_display`: the same I/O and concurrency.
- JSON encoding and decoding (serde_json): a decoded envelope, or its absence, is an input. Encoding is assumed never to fail.
- The mDNS crates: the responder thread and the multicast query. A response is the sequence of its record kinds. A failure to start the query (the early `Err` of `start_mdns`) is not modelled.
- `PeerInfo::is_valid`, whose body is not part of this model: it is a parameter.
- The UUID generator, colours, the printed timestamps and the exact wording of messages. The clock is a parameter.
- The message bus behind `message_sender`: published lines are a log. src/walkie_talkie/display/message_display.rs, with its lag handling, is not part of this model.
- src/gui.rs, src/signal.rs, src/main.rs, src/lib.rs and src/error.rs: not part of this model.
- The wiring between modules, which does not fit together as written: each handler is modelled on its own against the shared registry.
- `Mdns.RunResolver`, `Tcp.HandleTcpConnection`, `UdpDiscovery.RunListener` and `Cli.RunCli`: each runs over a finite prefix of what its source delivers.
- `Cli.RunCli` reads the registry once per run rather than at each command.
