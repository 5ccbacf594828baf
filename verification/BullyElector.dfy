/**
 One node's bully elector: the rank comparison on the sorted list, the rule for accepting
 a coordinator, the election run and the two message loops.
 */
module BullyElector {
  import opened Sorting
  import opened Ranking

  datatype Kind = Election | Alive | Select

  datatype Message = Message(kind: Kind, from: Peer, to: Peer)

  /** Which way round the Alive filter compares: as the code has it, or as its comment describes it. */
  datatype AliveFilter = AsWritten | AsCommented

  /** What the comparison loop leaves in its index variable: the last match, and 0 when there is none. */
  function ScanIndex(peers: seq<Peer>, p: Peer): (i: nat)
    ensures i < |peers| || i == 0
  {
    if peers == [] then 0
    else if peers[|peers| - 1] == p then |peers| - 1
    else ScanIndex(peers[..|peers| - 1], p)
  }

  predicate Higher(peers: seq<Peer>, p1: Peer, p2: Peer) {
    ScanIndex(peers, p1) < ScanIndex(peers, p2)
  }

  /** The coordinator a node holds after it is told of `id`. */
  function Chosen(peers: seq<Peer>, host: Peer, current: Peer, id: Peer): Peer {
    if Higher(peers, id, current) || id == host then id else current
  }

  predicate AcceptsAlive(filter: AliveFilter, peers: seq<Peer>, host: Peer, from: Peer) {
    match filter
    case AsWritten => Higher(peers, host, from)
    case AsCommented => Higher(peers, from, host)
  }

  /** A broadcast to one peer; the transport never sends to the sender itself. */
  function Send(kind: Kind, from: Peer, to: Peer): seq<Message> {
    if from == to then [] else [Message(kind, from, to)]
  }

  function SendAll(kind: Kind, from: Peer, to: seq<Peer>): seq<Message> {
    if to == [] then [] else SendAll(kind, from, to[..|to| - 1]) + Send(kind, from, to[|to| - 1])
  }

  function Above(peers: seq<Peer>, host: Peer): Peer -> bool {
    p => Higher(peers, p, host)
  }

  /** What a node holds after a turn of its main loop, and what it has sent in it. */
  datatype Turn = Turn(coordinator: Peer, alivePending: bool, sent: seq<Message>)

  /** One election: every higher peer is challenged; on a timeout the host takes the lead and tells everybody,
      otherwise a pending Alive is used up. */
  function AfterElection(peers: seq<Peer>, host: Peer, coordinator: Peer, alivePending: bool, timedOut: bool): Turn {
    Turn(if timedOut then host else coordinator,
         alivePending && timedOut,
         SendAll(Election, host, Filter(Above(peers, host), peers))
         + if timedOut then SendAll(Select, host, peers) else [])
  }

  /** One message of the main loop; `timedOut` is the outcome of the election it may cause. */
  function AfterMessage(
    peers: seq<Peer>, host: Peer, coordinator: Peer, alivePending: bool, m: Message, timedOut: bool): Turn
  {
    match m.kind
    case Election =>
      if Higher(peers, m.from, host) then Turn(coordinator, alivePending, [])
      else
        var election := AfterElection(peers, host, coordinator, alivePending, timedOut);
        election.(sent := Send(Alive, host, m.from) + election.sent)
    case Select => Turn(Chosen(peers, host, coordinator, m.from), alivePending, [])
    case Alive => Turn(coordinator, alivePending, [])
  }

  // ---------- the comparison is the strict order of positions ----------

  lemma {:induction false} ScanIndexIsPosition(peers: seq<Peer>, p: Peer)
    ensures p in peers ==> ScanIndex(peers, p) < |peers| && peers[ScanIndex(peers, p)] == p
    ensures p !in peers ==> ScanIndex(peers, p) == 0
    ensures Distinct(peers) ==> forall i | 0 <= i < |peers| && peers[i] == p :: ScanIndex(peers, p) == i
  {
    if peers != [] {
      var last := |peers| - 1;
      assert peers == peers[..last] + [peers[last]];
      ScanIndexIsPosition(peers[..last], p);
    }
  }

  lemma PositionOf(peers: seq<Peer>, i: nat)
    requires Distinct(peers) && i < |peers|
    ensures ScanIndex(peers, peers[i]) == i
  {
    ScanIndexIsPosition(peers, peers[i]);
  }

  /** For members of a duplicate-free list the comparison loop is the strict total order of positions. */
  lemma HigherIsPositionOrder(peers: seq<Peer>, i: nat, j: nat)
    requires Distinct(peers) && i < |peers| && j < |peers|
    ensures Higher(peers, peers[i], peers[j]) <==> i < j
  {
    PositionOf(peers, i);
    PositionOf(peers, j);
  }

  lemma HigherStrictOrder(peers: seq<Peer>, a: Peer, b: Peer)
    requires a in peers && b in peers
    ensures a != b <==> Higher(peers, a, b) || Higher(peers, b, a)
  {
    ScanIndexIsPosition(peers, a);
    ScanIndexIsPosition(peers, b);
  }

  /** Outside the list the loop has no position to report and answers as for the top one: a Select from a peer
      that is not listed replaces the coordinator exactly when that is neither the top peer nor itself unlisted. */
  lemma UnlistedSelect(peers: seq<Peer>, host: Peer, current: Peer, id: Peer)
    requires Distinct(peers) && id !in peers && id != host && id != current
    ensures Chosen(peers, host, current, id) == id <==> current in peers && current != peers[0]
  {
    ScanIndexIsPosition(peers, id);
    ScanIndexIsPosition(peers, current);
  }

  lemma {:induction false} SendAllMembers(kind: Kind, from: Peer, to: seq<Peer>)
    ensures forall m :: m in SendAll(kind, from, to) <==> m.kind == kind && m.from == from && m.to in to && m.to != from
  {
    if to != [] {
      assert to == to[..|to| - 1] + [to[|to| - 1]];
      SendAllMembers(kind, from, to[..|to| - 1]);
    }
  }

  lemma SendAllSnoc(kind: Kind, from: Peer, to: seq<Peer>, p: Peer)
    ensures SendAll(kind, from, to + [p]) == SendAll(kind, from, to) + Send(kind, from, p)
  {
    assert (to + [p])[..|to|] == to;
  }

  lemma ChallengeStep(peers: seq<Peer>, host: Peer, i: nat)
    requires i < |peers|
    ensures SendAll(Election, host, Filter(Above(peers, host), peers[..i + 1]))
         == SendAll(Election, host, Filter(Above(peers, host), peers[..i]))
            + if Higher(peers, peers[i], host) then Send(Election, host, peers[i]) else []
  {
    var above := Above(peers, host);
    var before := Filter(above, peers[..i]);
    assert peers[..i + 1] == peers[..i] + [peers[i]];
    FilterAppend(above, peers[..i], [peers[i]]);
    if Higher(peers, peers[i], host) {
      assert Filter(above, [peers[i]]) == [peers[i]];
      SendAllSnoc(Election, host, before, peers[i]);
    } else {
      assert Filter(above, [peers[i]]) == [];
      assert before + [] == before;
    }
  }

  lemma Regroup(a: seq<Message>, b: seq<Message>, c: seq<Message>)
    ensures a + (b + c) == a + b + c
    ensures b + [] == b
  {
  }

  class Elector {
    const hostID: Peer
    const sessionID: string
    const hash: Hash
    const filter: AliveFilter
    var coordinator: Peer
    var sortedPeers: seq<Peer>
    var alivePending: bool      // the one slot of the election channel
    var outbox: seq<Message>    // everything handed to the transport, in order

    constructor (hash: Hash, sessionID: string, host: Peer, filter: AliveFilter)
      ensures this.hash == hash && this.sessionID == sessionID && this.filter == filter
      ensures hostID == host && coordinator == host
      ensures sortedPeers == [] && !alivePending && outbox == []
    {
      this.hash, this.sessionID, hostID, this.filter := hash, sessionID, host, filter;
      coordinator, sortedPeers, alivePending, outbox := host, [], false, [];
    }

    /** Fixes the ranking the elector works with before the message loops start. */
    method RankPeers(peers: seq<Peer>)
      modifies this`sortedPeers
      ensures Permutation(sortedPeers, peers)
      ensures DistinctRanks(hash, sessionID, Elements(peers)) ==>
                sortedPeers == SessionOrder(hash, sessionID, peers)
    {
      var sorted := SortPeersForSession(hash, peers, sessionID);
      sortedPeers := GetPeerIDs(sorted);
    }

    method IsPeerIDHigher(p1: Peer, p2: Peer) returns (higher: bool)
      ensures higher == Higher(sortedPeers, p1, p2)
    {
      var i1, i2 := 0, 0;
      for i := 0 to |sortedPeers|
        invariant i1 == ScanIndex(sortedPeers[..i], p1)
        invariant i2 == ScanIndex(sortedPeers[..i], p2)
      {
        assert sortedPeers[..i + 1][..i] == sortedPeers[..i];
        if p1 == sortedPeers[i] { i1 := i; }
        if p2 == sortedPeers[i] { i2 := i; }
      }
      assert sortedPeers[..|sortedPeers|] == sortedPeers;
      return i1 < i2;
    }

    method SetCoordinator(id: Peer)
      modifies this`coordinator
      ensures coordinator == Chosen(sortedPeers, hostID, old(coordinator), id)
    {
      var higher := IsPeerIDHigher(id, coordinator);
      if higher || id == hostID {
        coordinator := id;
      }
    }

    /** The sending loop at the start of an election. */
    method ChallengeHigher()
      modifies this`outbox
      ensures outbox == old(outbox) + SendAll(Election, hostID, Filter(Above(sortedPeers, hostID), sortedPeers))
    {
      ghost var above := Above(sortedPeers, hostID);
      ghost var sent := [];
      for i := 0 to |sortedPeers|
        invariant outbox == old(outbox) + sent
        invariant sent == SendAll(Election, hostID, Filter(above, sortedPeers[..i]))
      {
        var p := sortedPeers[i];
        ChallengeStep(sortedPeers, hostID, i);
        var higher := IsPeerIDHigher(p, hostID);
        if higher {
          sent := sent + Send(Election, hostID, p);
          outbox := outbox + Send(Election, hostID, p);
        }
      }
      assert sortedPeers[..|sortedPeers|] == sortedPeers;
    }

    /** One election: challenge every higher peer, then bow out on a pending Alive or claim the lead.
        `timedOut` is the outcome of the race between the channel and the timer. */
    method Elect(timedOut: bool)
      requires !timedOut ==> alivePending
      modifies this`coordinator, this`alivePending, this`outbox
      ensures var turn := AfterElection(sortedPeers, hostID, old(coordinator), old(alivePending), timedOut);
              coordinator == turn.coordinator && alivePending == turn.alivePending && outbox == old(outbox) + turn.sent
    {
      ghost var challenges := SendAll(Election, hostID, Filter(Above(sortedPeers, hostID), sortedPeers));
      ChallengeHigher();
      if timedOut {
        SetCoordinator(hostID);
        Regroup(old(outbox), challenges, SendAll(Select, hostID, sortedPeers));
        outbox := outbox + SendAll(Select, hostID, sortedPeers);
      } else {
        Regroup(old(outbox), challenges, []);
        alivePending := false;
      }
    }

    /** One turn of the receive loop; `timedOut` is the outcome of the election it may run. */
    method Receive(msg: Message, timedOut: bool)
      requires !timedOut ==> alivePending
      modifies this`coordinator, this`alivePending, this`outbox
      ensures var turn := AfterMessage(sortedPeers, hostID, old(coordinator), old(alivePending), msg, timedOut);
              coordinator == turn.coordinator && alivePending == turn.alivePending && outbox == old(outbox) + turn.sent
    {
      var higher := IsPeerIDHigher(msg.from, hostID);
      if msg.kind == Election && !higher {
        Regroup(outbox, Send(Alive, hostID, msg.from),
                AfterElection(sortedPeers, hostID, coordinator, alivePending, timedOut).sent);
        outbox := outbox + Send(Alive, hostID, msg.from);
        Elect(timedOut);
      } else if msg.kind == Select {
        SetCoordinator(msg.from);
      }
    }

    /** The listening loop's treatment of an Alive message: the comparison direction is the filter's. */
    method ListenAlive(from: Peer)
      modifies this`alivePending
      ensures alivePending == (old(alivePending) || AcceptsAlive(filter, sortedPeers, hostID, from))
    {
      var accepted: bool;
      match filter {
        case AsWritten => accepted := IsPeerIDHigher(hostID, from);
        case AsCommented => accepted := IsPeerIDHigher(from, hostID);
      }
      if accepted {
        alivePending := true;
      }
    }
  }
}
