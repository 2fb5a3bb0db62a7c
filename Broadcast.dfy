/** Outbound fan-out (src/walkie_talkie/net/broadcast.rs): a chat message is
    built from the node's identity, then one TCP connection is attempted to
    every peer the filter admits, in the registry's (arbitrary) iteration
    order. Whether a connection and its write succeed is an oracle on the
    peer's record. The registry is only read. */
module Broadcast {
  import opened RustStr
  import opened Peer
  import opened Node

  /** What happened to one attempt: `connect` failed, `connect` succeeded but
      `write_all` failed, or both succeeded. */
  datatype SendOutcome = ConnectFailed | WriteFailed | Delivered

  /** The ids among `ks` whose record the filter admits: the peers that are
      contacted. */
  function EligibleIn(peers: Peers, admit: PeerInfo -> bool, ks: set<string>): set<string>
  {
    set k | k in ks && k in peers && admit(peers[k])
  }

  /** The contacted ids among `ks` whose connection succeeded. */
  function ConnectedIn(peers: Peers, admit: PeerInfo -> bool, outcome: PeerInfo -> SendOutcome,
                       ks: set<string>): set<string>
  {
    set k | k in EligibleIn(peers, admit, ks) && outcome(peers[k]) != ConnectFailed
  }

  /** The contacted ids among `ks` whose message was written. */
  function DeliveredIn(peers: Peers, admit: PeerInfo -> bool, outcome: PeerInfo -> SendOutcome,
                       ks: set<string>): set<string>
  {
    set k | k in EligibleIn(peers, admit, ks) && outcome(peers[k]) == Delivered
  }

  function Eligible(peers: Peers, admit: PeerInfo -> bool): set<string> {
    EligibleIn(peers, admit, peers.Keys)
  }

  function Connected(peers: Peers, admit: PeerInfo -> bool, outcome: PeerInfo -> SendOutcome): set<string> {
    ConnectedIn(peers, admit, outcome, peers.Keys)
  }

  function DeliveredTo(peers: Peers, admit: PeerInfo -> bool, outcome: PeerInfo -> SendOutcome): set<string> {
    DeliveredIn(peers, admit, outcome, peers.Keys)
  }

  predicate Distinct(ids: seq<string>) {
    forall i, j :: 0 <= i < j < |ids| ==> ids[i] != ids[j]
  }

  /** The `for peer in peers.values()` loop shared by `broadcast_message`
      and `broadcast_exit`: `attempts` are the ids whose record was tried, in
      order (attempt `i` connects to `peers[attempts[i]].ip` and `.port`),
      `connected` those where `connect` succeeded and `successes` the number
      where the write succeeded as well. A peer the filter rejects is skipped
      without a connection. */
  method FanOut(peers: Peers, admit: PeerInfo -> bool, outcome: PeerInfo -> SendOutcome)
    returns (attempts: seq<string>, connected: set<string>, successes: nat)
    ensures Distinct(attempts)
    ensures forall k :: k in attempts <==> k in Eligible(peers, admit)
    ensures |attempts| == |Eligible(peers, admit)|
    ensures connected == Connected(peers, admit, outcome)
    ensures successes == |DeliveredTo(peers, admit, outcome)|
  {
    attempts, connected, successes := [], {}, 0;
    var remaining := peers.Keys;
    ghost var done: set<string> := {};
    while remaining != {}
      invariant done !! remaining && done + remaining == peers.Keys
      invariant FannedOut(peers, admit, outcome, done, attempts, connected, successes)
      decreases |remaining|
    {
      var k :| k in remaining;
      attempts, connected, successes := Visit(peers, admit, outcome, k, done, attempts, connected, successes);
      remaining, done := remaining - {k}, done + {k};
    }
    DistinctCardinality(attempts, Eligible(peers, admit));
  }

  /** One iteration of the fan-out loop, for the peer stored under `k`: a
      peer the filter rejects is skipped, otherwise it is tried, and counted
      when both the connection and the write succeed. */
  method Visit(peers: Peers, admit: PeerInfo -> bool, outcome: PeerInfo -> SendOutcome, k: string,
               ghost done: set<string>, attempts: seq<string>, connected: set<string>, successes: nat)
    returns (attempts': seq<string>, connected': set<string>, successes': nat)
    requires k in peers && k !in done
    requires FannedOut(peers, admit, outcome, done, attempts, connected, successes)
    ensures FannedOut(peers, admit, outcome, done + {k}, attempts', connected', successes')
  {
    var peer := peers[k];
    FanOutStep(peers, admit, outcome, done, k, attempts, connected, successes);
    attempts', connected', successes' := attempts, connected, successes;
    if !admit(peer) {
      return;
    }
    attempts' := attempts + [k];
    var o := outcome(peer);
    if o != ConnectFailed {
      connected' := connected + {k};
      if o == Delivered {
        successes' := successes + 1;
      }
    }
  }

  /** What the loop has done once the ids of `done` are handled. */
  ghost predicate FannedOut(peers: Peers, admit: PeerInfo -> bool, outcome: PeerInfo -> SendOutcome,
                            done: set<string>, attempts: seq<string>, connected: set<string>, successes: nat) {
    && Distinct(attempts)
    && (forall k :: k in attempts <==> k in EligibleIn(peers, admit, done))
    && connected == ConnectedIn(peers, admit, outcome, done)
    && successes == |DeliveredIn(peers, admit, outcome, done)|
  }

  lemma DistinctSnoc(ids: seq<string>, k: string)
    requires Distinct(ids) && k !in ids
    ensures Distinct(ids + [k])
  {
  }

  /** A sequence without repetitions has as many elements as the set it
      enumerates. */
  lemma {:induction false} DistinctCardinality(ids: seq<string>, s: set<string>)
    requires Distinct(ids)
    requires forall k :: k in ids <==> k in s
    ensures |ids| == |s|
    decreases |ids|
  {
    if ids != [] {
      var last := ids[|ids| - 1];
      var front := ids[..|ids| - 1];
      assert ids == front + [last];
      assert last !in front;
      DistinctCardinality(front, s - {last});
    } else {
      assert s == {};
    }
  }

  /** How the sets grow when the loop handles one more id `k`. */
  lemma EligibleStep(peers: Peers, admit: PeerInfo -> bool, done: set<string>, k: string)
    requires k in peers && k !in done
    ensures var e, e' := EligibleIn(peers, admit, done), EligibleIn(peers, admit, done + {k});
            e' == if admit(peers[k]) then e + {k} else e
  {
  }

  lemma ConnectedStep(peers: Peers, admit: PeerInfo -> bool, outcome: PeerInfo -> SendOutcome,
                      done: set<string>, k: string)
    requires k in peers && k !in done
    ensures var c, c' := ConnectedIn(peers, admit, outcome, done), ConnectedIn(peers, admit, outcome, done + {k});
            c' == if admit(peers[k]) && outcome(peers[k]) != ConnectFailed then c + {k} else c
  {
    EligibleStep(peers, admit, done, k);
  }

  lemma DeliveredStep(peers: Peers, admit: PeerInfo -> bool, outcome: PeerInfo -> SendOutcome,
                      done: set<string>, k: string)
    requires k in peers && k !in done
    ensures var d, d' := DeliveredIn(peers, admit, outcome, done), DeliveredIn(peers, admit, outcome, done + {k});
            d' == if admit(peers[k]) && outcome(peers[k]) == Delivered then d + {k} else d
  {
    EligibleStep(peers, admit, done, k);
  }

  /** One iteration of the fan-out loop keeps `FannedOut`. */
  lemma FanOutStep(peers: Peers, admit: PeerInfo -> bool, outcome: PeerInfo -> SendOutcome,
                   done: set<string>, k: string, attempts: seq<string>, connected: set<string>, successes: nat)
    requires k in peers && k !in done
    requires FannedOut(peers, admit, outcome, done, attempts, connected, successes)
    ensures var tried, o := admit(peers[k]), outcome(peers[k]);
            FannedOut(peers, admit, outcome, done + {k},
                      if tried then attempts + [k] else attempts,
                      if tried && o != ConnectFailed then connected + {k} else connected,
                      if tried && o == Delivered then successes + 1 else successes)
  {
    EligibleStep(peers, admit, done, k);
    ConnectedStep(peers, admit, outcome, done, k);
    DeliveredStep(peers, admit, outcome, done, k);
    if admit(peers[k]) {
      assert k !in EligibleIn(peers, admit, done);
      DistinctSnoc(attempts, k);
    }
  }

  /** The line printed at the end of a broadcast. */
  datatype Report = SentTo(count: nat) | NoPeersAvailable

  /** A completed broadcast: the envelope written to every connection, the
      ids tried and the report printed. */
  datatype Sent = Sent(envelope: NetworkMessage, attempts: seq<string>, report: Report)

  /** What a broadcast of `content` by `me` over `peers` may have done: the
      envelope is a chat message carrying our id, our name, the content
      unchanged and the clock reading; exactly the admitted peers are tried,
      once each; the report counts the deliveries and says "no peers
      available" when there were none. */
  ghost predicate IsBroadcastOf(me: Identity, peers: Peers, admit: PeerInfo -> bool, content: string,
                                now: U64, outcome: PeerInfo -> SendOutcome, s: Sent) {
    && s.envelope == Chat(Message(me.peerId, me.name, content, now))
    && Distinct(s.attempts)
    && (forall k :: k in s.attempts <==> k in Eligible(peers, admit))
    && |s.attempts| == |Eligible(peers, admit)|
    && var n := |DeliveredTo(peers, admit, outcome)|;
       s.report == if n > 0 then SentTo(n) else NoPeersAvailable
  }

  /** `broadcast_message`. `clock` is the system clock's reading in whole
      seconds since the Unix epoch, `None` when the clock is before the
      epoch: then the call fails (the `Unknown` error) before anything is
      sent. `admit` is `is_valid`. */
  method BroadcastMessage(me: Identity, peers: Peers, admit: PeerInfo -> bool, content: string,
                          clock: Option<U64>, outcome: PeerInfo -> SendOutcome)
    returns (r: Option<Sent>)
    ensures r.None? <==> clock.None?
    ensures r.Some? ==> IsBroadcastOf(me, peers, admit, content, clock.value, outcome, r.value)
  {
    if clock.None? {
      return None;
    }
    var envelope := Chat(Message(me.peerId, me.name, content, clock.value));
    var attempts, _, successes := FanOut(peers, admit, outcome);
    var report := if successes > 0 then SentTo(successes) else NoPeersAvailable;
    r := Some(Sent(envelope, attempts, report));
  }

  /** Finite-set cardinality is monotone. */
  lemma {:induction false} SubsetCardinality(a: set<string>, b: set<string>)
    requires a <= b
    ensures |a| <= |b|
    decreases |b|
  {
    if b != {} {
      var x :| x in b;
      SubsetCardinality(a - {x}, b - {x});
      if x in a {
        assert a == (a - {x}) + {x};
      } else {
        assert a - {x} == a;
      }
    }
  }

  /** The success count never exceeds the number of admitted peers, which
      never exceeds the size of the registry. */
  lemma DeliveriesBounded(peers: Peers, admit: PeerInfo -> bool, outcome: PeerInfo -> SendOutcome)
    ensures |DeliveredTo(peers, admit, outcome)| <= |Connected(peers, admit, outcome)|
            <= |Eligible(peers, admit)| <= |peers|
  {
    SubsetCardinality(DeliveredTo(peers, admit, outcome), Connected(peers, admit, outcome));
    SubsetCardinality(Connected(peers, admit, outcome), Eligible(peers, admit));
    SubsetCardinality(Eligible(peers, admit), peers.Keys);
  }

  /** "No peers available" is printed exactly when no admitted peer took the
      whole message; in particular for an empty registry, and when every
      peer fails the filter. */
  lemma NoPeersAvailableExactly(me: Identity, peers: Peers, admit: PeerInfo -> bool, content: string,
                                now: U64, outcome: PeerInfo -> SendOutcome, s: Sent)
    requires IsBroadcastOf(me, peers, admit, content, now, outcome, s)
    ensures s.report == NoPeersAvailable <==>
              forall k :: k in peers && admit(peers[k]) ==> outcome(peers[k]) != Delivered
    ensures (forall k :: k in peers ==> !admit(peers[k])) ==> s.attempts == [] && s.report == NoPeersAvailable
  {
    var d := DeliveredTo(peers, admit, outcome);
    if s.report != NoPeersAvailable {
      assert |d| > 0;
      var k :| k in d;
      assert k in peers && admit(peers[k]) && outcome(peers[k]) == Delivered;
    } else {
      assert d == {};
      forall k | k in peers && admit(peers[k])
        ensures outcome(peers[k]) != Delivered
      {
        assert k !in d;
      }
    }
    if forall k :: k in peers ==> !admit(peers[k]) {
      assert Eligible(peers, admit) == {};
      assert d == {};
    }
  }
}
