/** The command-line handler (src/walkie_talkie/display/cli.rs): each line
    read from standard input is trimmed and classified; `/list` prints the
    registry, `/quit` tells every peer we are leaving and exits, anything
    else is broadcast as a chat message. Standard input is the sequence of
    its lines followed by how reading ended. */
module Cli {
  import opened RustStr
  import opened Peer
  import opened Node
  import opened Broadcast

  const MAX_INPUT_BYTES := 512
  const QUIT := "/quit"
  const LIST := "/list"
  const MSG_PREFIX := "/msg "

  /** The command words are ASCII: each is as many bytes as characters. */
  lemma CommandWidths()
    ensures Utf8Len(QUIT) == 5 && Utf8Len(LIST) == 5 && Utf8Len(MSG_PREFIX) == 5
  {
    Utf8LenAscii(QUIT);
    Utf8LenAscii(LIST);
    Utf8LenAscii(MSG_PREFIX);
  }

  /** What one line asks for. */
  datatype Command =
    | Blank
    | TooLong
    | Quit
    | List
    | Say(content: string)

  /** The message content of a line: without its leading `/msg `, if any. */
  function Content(input: string): (c: string)
    ensures StartsWith(input, MSG_PREFIX) ==> input == MSG_PREFIX + c
    ensures !StartsWith(input, MSG_PREFIX) ==> c == input
  {
    if StartsWith(input, MSG_PREFIX) then StripPrefix(input, MSG_PREFIX).value else input
  }

  /** A chat line taken from trimmed input is never empty (a bare `/msg `
      loses its space to the trim) and is no longer than the input. */
  lemma ContentOfTrimmed(line: string)
    requires Trim(line) != []
    ensures Content(Trim(line)) != []
    ensures Utf8Len(Content(Trim(line))) <= Utf8Len(Trim(line))
  {
    var input := Trim(line);
    if StartsWith(input, MSG_PREFIX) {
      var c := Content(input);
      Utf8LenConcat(MSG_PREFIX, c);
    }
  }

  /** The classification of one line by the current handler: blank input
      does nothing, trimmed input over 512 UTF-8 bytes is rejected, exactly
      `/quit` and `/list` are commands, and anything else is a chat line. */
  function Classify(line: string): (c: Command)
    ensures c == Blank <==> AllWhitespace(line)
    ensures c == TooLong <==> !AllWhitespace(line) && Utf8Len(Trim(line)) > MAX_INPUT_BYTES
    ensures c == Quit <==> Trim(line) == QUIT
    ensures c == List <==> Trim(line) == LIST
    ensures c.Say? <==> !AllWhitespace(line) && Utf8Len(Trim(line)) <= MAX_INPUT_BYTES
                        && Trim(line) != QUIT && Trim(line) != LIST
    ensures c.Say? ==> c.content == Content(Trim(line)) && c.content != []
                       && Utf8Len(c.content) <= MAX_INPUT_BYTES
  {
    CommandWidths();
    var input := Trim(line);
    if input == [] then Blank
    else if Utf8Len(input) > MAX_INPUT_BYTES then TooLong
    else if input == QUIT then Quit
    else if input == LIST then List
    else
      ContentOfTrimmed(line);
      Say(Content(input))
  }

  /** Typing `/msg ` before a trimmed message sends exactly that message,
      and so does typing the message alone unless it is itself a command or
      starts with `/msg `. */
  lemma ChatLineRoundTrip(m: string)
    requires Trim(m) == m && m != []
    requires Utf8Len(m) + |MSG_PREFIX| <= MAX_INPUT_BYTES
    ensures Classify(MSG_PREFIX + m) == Say(m)
    ensures m != QUIT && m != LIST && !StartsWith(m, MSG_PREFIX) ==> Classify(m) == Say(m)
  {
    PrefixedLine(m);
    if m != QUIT && m != LIST && !StartsWith(m, MSG_PREFIX) {
      BareLine(m);
    }
  }

  lemma PrefixedLine(m: string)
    requires Trim(m) == m && m != []
    requires Utf8Len(m) + |MSG_PREFIX| <= MAX_INPUT_BYTES
    ensures Classify(MSG_PREFIX + m) == Say(m)
  {
    var line := MSG_PREFIX + m;
    assert line[0] == '/' && line[|line| - 1] == m[|m| - 1];
    TrimOfTrimmed(line);
    assert !AllWhitespace(line);
    CommandWidths();
    Utf8LenConcat(MSG_PREFIX, m);
    assert Utf8Len(Trim(line)) <= MAX_INPUT_BYTES;
    StripPrefixOfConcat(MSG_PREFIX, m);
    assert Content(Trim(line)) == m;
    assert |line| > |QUIT| && |line| > |LIST|;
  }

  lemma BareLine(m: string)
    requires Trim(m) == m && m != []
    requires Utf8Len(m) + |MSG_PREFIX| <= MAX_INPUT_BYTES
    requires m != QUIT && m != LIST && !StartsWith(m, MSG_PREFIX)
    ensures Classify(m) == Say(m)
  {
    assert !AllWhitespace(m);
    assert Content(Trim(m)) == m;
  }

  // ---------------------------------------------------------------- /list

  /** One printed line of `/list`: a peer printed normally, or labelled
      "Invalid peer" when it fails `is_valid`. */
  datatype Entry = ValidPeer(info: PeerInfo) | InvalidPeer(info: PeerInfo)

  datatype Listing = NoPeersYet | Listed(entries: seq<Entry>)

  function Label(isValid: PeerInfo -> bool, info: PeerInfo): (e: Entry)
    ensures e.info == info && (e.ValidPeer? <==> isValid(info))
  {
    if isValid(info) then ValidPeer(info) else InvalidPeer(info)
  }

  /** The labelled line of each id of `order`, in that order. */
  function Labels(peers: Peers, isValid: PeerInfo -> bool, order: seq<string>): (r: seq<Entry>)
    requires forall k :: k in order ==> k in peers
    ensures |r| == |order|
    ensures forall i :: 0 <= i < |order| ==> r[i] == Label(isValid, peers[order[i]])
    decreases |order|
  {
    if order == [] then []
    else Labels(peers, isValid, order[..|order| - 1]) + [Label(isValid, peers[order[|order| - 1]])]
  }

  /** `order` enumerates the registry's keys once each, and the listing
      prints "No peers discovered yet." for an empty registry and otherwise
      one labelled line per peer in that order. */
  ghost predicate IsListingOf(peers: Peers, isValid: PeerInfo -> bool, order: seq<string>, l: Listing) {
    && Distinct(order)
    && (forall k :: k in order <==> k in peers)
    && |order| == |peers|
    && (l == NoPeersYet <==> peers == map[])
    && (l.Listed? ==> l.entries == Labels(peers, isValid, order))
  }

  /** The `/list` branch, over the registry's values in iteration order. */
  method ListPeers(peers: Peers, isValid: PeerInfo -> bool) returns (order: seq<string>, l: Listing)
    ensures IsListingOf(peers, isValid, order, l)
  {
    if |peers| == 0 {
      return [], NoPeersYet;
    }
    var entries: seq<Entry> := [];
    order := [];
    var remaining := peers.Keys;
    ghost var done: set<string> := {};
    while remaining != {}
      invariant done !! remaining && done + remaining == peers.Keys
      invariant Distinct(order)
      invariant forall k :: k in order <==> k in done
      invariant entries == Labels(peers, isValid, order)
      decreases |remaining|
    {
      var k :| k in remaining;
      DistinctSnoc(order, k);
      entries := entries + [Label(isValid, peers[k])];
      assert (order + [k])[..|order|] == order;
      order := order + [k];
      remaining, done := remaining - {k}, done + {k};
    }
    DistinctCardinality(order, peers.Keys);
    l := Listed(entries);
  }

  // ---------------------------------------------------------------- /quit

  /** The filter of a fan-out that contacts every peer. */
  function AdmitAll(p: PeerInfo): bool {
    true
  }

  /** What `broadcast_exit` did: the envelope written, the ids tried and
      the ids for which "Quit broadcasted" was printed (a connection was
      made; whether the write succeeded is ignored). */
  datatype ExitSent = ExitSent(envelope: NetworkMessage, attempts: seq<string>, announced: set<string>)

  ghost predicate IsExitOf(me: Identity, peers: Peers, outcome: PeerInfo -> SendOutcome, e: ExitSent) {
    && e.envelope == Exit(me.peerId)
    && Distinct(e.attempts)
    && (forall k :: k in e.attempts <==> k in peers)
    && (forall k :: k in e.announced <==> k in peers && outcome(peers[k]) != ConnectFailed)
  }

  /** `broadcast_exit`: `Exit(our id)` to every peer, with no `is_valid`
      filter; the registry is only read and the call always succeeds. */
  method BroadcastExit(me: Identity, peers: Peers, outcome: PeerInfo -> SendOutcome) returns (e: ExitSent)
    ensures IsExitOf(me, peers, outcome, e)
  {
    var attempts, connected, _ := FanOut(peers, AdmitAll, outcome);
    forall k | k in peers
      ensures k in Eligible(peers, AdmitAll)
    {
      assert AdmitAll(peers[k]);
    }
    e := ExitSent(Exit(me.peerId), attempts, connected);
  }

  // ---------------------------------------------------------------- the loop

  /** How reading standard input ended after its last line. */
  datatype InputEnd = EndOfFile | ReadError

  /** How the handler ended: `Ok(())`, the read error propagated by `?`, or
      `process::exit(0)` after `/quit`. */
  datatype CliResult = CliOk | CliErr | Exited

  /** What the handler did for one line. */
  datatype Action =
    | Ignored
    | RejectedTooLong
    | Printed(order: seq<string>, listing: Listing)
    | Said(sent: Option<Sent>)
    | Quitted(exit: ExitSent)

  /** `a` is what the handler may do for command `c`, with `now` the clock
      reading at that moment (`None` before the epoch). */
  ghost predicate Answers(me: Identity, peers: Peers, isValid: PeerInfo -> bool, now: Option<U64>,
                          outcome: PeerInfo -> SendOutcome, c: Command, a: Action) {
    match c
    case Blank => a == Ignored
    case TooLong => a == RejectedTooLong
    case List => a.Printed? && IsListingOf(peers, isValid, a.order, a.listing)
    case Say(content) =>
      && a.Said?
      && (a.sent.None? <==> now.None?)
      && (a.sent.Some? ==> IsBroadcastOf(me, peers, isValid, content, now.value, outcome, a.sent.value))
    case Quit => a.Quitted? && IsExitOf(me, peers, outcome, a.exit)
  }

  /** `start_cli_handler` over the lines of standard input, classified by
      `classify`. Every line up to the first `/quit` is acted on; `/quit`
      ends the process, otherwise the handler returns `Ok` at end of file and
      the error after a failed read. The registry is only read. `clock(i)` is
      the clock reading while line `i` is handled, and `outcome(i)` says how
      each peer's connection and write fare for the fresh connections that
      line opens. */
  method RunCli(me: Identity, registry: Registry, classify: string -> Command, isValid: PeerInfo -> bool,
                lines: seq<string>, end: InputEnd, clock: nat -> Option<U64>,
                outcome: nat -> PeerInfo -> SendOutcome)
    returns (actions: seq<Action>, result: CliResult)
    ensures |actions| <= |lines|
    ensures forall i :: 0 <= i < |actions| ==>
              Answers(me, registry.peers, isValid, clock(i), outcome(i), classify(lines[i]), actions[i])
    ensures forall i :: 0 <= i < |actions| - 1 ==> classify(lines[i]) != Quit
    ensures result == Exited <==> 0 < |actions| && classify(lines[|actions| - 1]) == Quit
    ensures result != Exited ==> |actions| == |lines|
    ensures result == CliOk <==> |actions| == |lines| && end == EndOfFile
                                 && forall i :: 0 <= i < |lines| ==> classify(lines[i]) != Quit
  {
    actions, result := [], CliOk;
    var i := 0;
    while i < |lines|
      invariant i <= |lines| && |actions| == i
      invariant forall j :: 0 <= j < i ==>
                  Answers(me, registry.peers, isValid, clock(j), outcome(j), classify(lines[j]), actions[j])
      invariant forall j :: 0 <= j < i ==> classify(lines[j]) != Quit
    {
      var c := classify(lines[i]);
      var a: Action;
      match c {
        case Blank =>
          a := Ignored;
        case TooLong =>
          a := RejectedTooLong;
        case Quit =>
          var e := BroadcastExit(me, registry.peers, outcome(i));
          return actions + [Quitted(e)], Exited;
        case List =>
          var order, l := ListPeers(registry.peers, isValid);
          a := Printed(order, l);
        case Say(content) =>
          var sent := BroadcastMessage(me, registry.peers, isValid, content, clock(i), outcome(i));
          a := Said(sent);
      }
      actions := actions + [a];
      i := i + 1;
    }
    result := if end == EndOfFile then CliOk else CliErr;
  }

  /** `start_cli_handler` of the current node: the loop over `Classify`,
      so every chat line it sends is at most 512 bytes, with `/list` and chat
      lines filtered by `is_valid`. */
  method StartCliHandler(wt: WalkieTalkie, isValid: PeerInfo -> bool, lines: seq<string>, end: InputEnd,
                         clock: nat -> Option<U64>, outcome: nat -> PeerInfo -> SendOutcome)
    returns (actions: seq<Action>, result: CliResult)
    ensures |actions| <= |lines|
    ensures forall i :: 0 <= i < |actions| ==>
              Answers(wt.Me(), wt.registry.peers, isValid, clock(i), outcome(i), Classify(lines[i]), actions[i])
    ensures forall i :: 0 <= i < |actions| ==>
              actions[i].Said? ==> !AllWhitespace(lines[i]) && Utf8Len(Trim(lines[i])) <= MAX_INPUT_BYTES
    ensures forall i :: 0 <= i < |actions| - 1 ==> Classify(lines[i]) != Quit
    ensures result == Exited <==> 0 < |actions| && Classify(lines[|actions| - 1]) == Quit
    ensures result != Exited ==> |actions| == |lines|
    ensures result == CliOk <==> |actions| == |lines| && end == EndOfFile
                                 && forall i :: 0 <= i < |lines| ==> Classify(lines[i]) != Quit
  {
    actions, result := RunCli(wt.Me(), wt.registry, Classify, isValid, lines, end, clock, outcome);
  }
}
