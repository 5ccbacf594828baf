/**
 Why the election settles: once the highest live peer and another node have both started, either that
 node already follows the highest peer and is idle, or an announcement to it is still owed.
 */
module BullyConvergence {
  import Transitions
  import opened Sorting
  import opened Ranking
  import opened BullyElector
  import opened BullyProtocol

  ghost predicate Settled(s: State, h: Peer, v: Peer)
    requires v in s.nodes
  {
    s.nodes[v].phase == Idle && s.nodes[v].coordinator == h
  }

  /** The leader still has an announcement to make to v. */
  ghost predicate LeaderOwes(n: Node, v: Peer) {
    match n.phase
    case Idle => false
    case Scanning(_) => true
    case Waiting => true
    case Announcing(todo) => v in todo
  }

  ghost predicate StillToChallenge(c: Config, n: Node, h: Peer) {
    n.phase.Scanning? && n.phase.next <= ScanIndex(c.peers, h)
  }

  ghost predicate Owed(c: Config, s: State, h: Peer, v: Peer)
    requires v in s.nodes && h in s.nodes
  {
    || Message(Election, v, h) in s.net
    || Message(Select, h, v) in s.net
    || StillToChallenge(c, s.nodes[v], h)
    || LeaderOwes(s.nodes[h], v)
  }

  ghost predicate Follows(c: Config, s: State, h: Peer, v: Peer)
    requires v in s.nodes && h in s.nodes
  {
    s.nodes[h].started && s.nodes[v].started ==> Settled(s, h, v) || Owed(c, s, h, v)
  }

  ghost predicate Converging(c: Config, s: State, h: Peer)
    requires s.nodes.Keys == c.live && h in c.live
  {
    forall v | v in c.live && v != h :: Follows(c, s, h, v)
  }

  lemma LeaderNeverPending(c: Config, s: State, h: Peer)
    requires ValidConfig(c) && Inv(c, s) && IsLeader(c, h)
    ensures !s.nodes[h].alivePending && s.nodes[h].coordinator == h
  {
    assert NodeOk(c, h, s.nodes[h]);
    forall q | q in c.live ensures !Higher(c.peers, q, h) {
      if q != h { assert Higher(c.peers, h, q); }
    }
  }

  lemma LeaderBeatsAll(c: Config, h: Peer, q: Peer)
    requires ValidConfig(c) && IsLeader(c, h) && q in c.live
    ensures !Higher(c.peers, q, h)
  {
    if q != h { assert Higher(c.peers, h, q); }
  }

  /** A message handled at v leaves v following h or being owed an announcement. */
  lemma FollowsAtReceiver(c: Config, s: State, h: Peer, v: Peer, i: nat)
    requires ValidConfig(c) && Inv(c, s) && IsLeader(c, h) && Converging(c, s, h)
    requires Enabled(c, s, Deliver(i)) && s.net[i].to == v && v != h
    ensures Follows(c, Next(c, s, Deliver(i)), h, v)
  {
    var m := s.net[i];
    var (n, replies) := Handle(c, s.nodes[v], m);
    var t := Next(c, s, Deliver(i));
    assert m in s.net && MessageOk(c, s, m);
    assert Follows(c, s, h, v);
    assert NodeOk(c, v, s.nodes[v]);
    NetMembers(s.net, i, replies);
    LeaderBeatsAll(c, h, m.from);
    if m.kind == Select {
      LeaderBeatsAll(c, h, s.nodes[v].coordinator);
      if s.nodes[v].coordinator != h && s.nodes[v].coordinator in c.live {
        assert Higher(c.peers, h, s.nodes[v].coordinator);
      }
      LiveIsListed(c, v);
    }
  }

  /** A message handled elsewhere takes nothing away from v, except a challenge that puts the leader to work. */
  lemma FollowsElsewhere(c: Config, s: State, h: Peer, v: Peer, i: nat)
    requires ValidConfig(c) && Inv(c, s) && IsLeader(c, h) && Converging(c, s, h)
    requires Enabled(c, s, Deliver(i)) && s.net[i].to != v && v in c.live && v != h
    ensures Follows(c, Next(c, s, Deliver(i)), h, v)
  {
    var m := s.net[i];
    var (n, replies) := Handle(c, s.nodes[m.to], m);
    assert m in s.net && MessageOk(c, s, m);
    assert Follows(c, s, h, v);
    NetMembers(s.net, i, replies);
    LeaderBeatsAll(c, h, m.from);
  }

  lemma ScanReachesLeader(c: Config, s: State, h: Peer, v: Peer)
    requires ValidConfig(c) && Inv(c, s) && IsLeader(c, h) && Converging(c, s, h)
    requires Enabled(c, s, Scan(v)) && v != h
    ensures Follows(c, Next(c, s, Scan(v)), h, v)
  {
    assert Follows(c, s, h, v);
    LiveIsListed(c, h);
    LiveIsListed(c, v);
    var k := s.nodes[v].phase.next;
    if k == ScanIndex(c.peers, h) {
      assert c.peers[k] == h;
    }
  }

  lemma FollowsLocalStep(c: Config, s: State, h: Peer, v: Peer, a: Action)
    requires ValidConfig(c) && Inv(c, s) && IsLeader(c, h) && Converging(c, s, h)
    requires Enabled(c, s, a) && (a.Start? || a.Timeout? || a.BowOut? || a.Announce?)
    requires v in c.live && v != h
    ensures Follows(c, Next(c, s, a), h, v)
  {
    LeaderNeverPending(c, s, h);
    assert Follows(c, s, h, v);
    LiveIsListed(c, v);
    if a == Timeout(h) {
      assert v in Elements(c.peers) - {h};
    }
  }

  lemma ConvergingStep(c: Config, s: State, h: Peer, a: Action)
    requires ValidConfig(c) && Inv(c, s) && IsLeader(c, h) && Converging(c, s, h)
    requires Enabled(c, s, a)
    ensures Next(c, s, a).nodes.Keys == c.live && Converging(c, Next(c, s, a), h)
  {
    var t := Next(c, s, a);
    InvStep(c, s, a);
    forall v | v in c.live && v != h ensures Follows(c, t, h, v) {
      match a {
        case Deliver(i) =>
          if s.net[i].to == v { FollowsAtReceiver(c, s, h, v, i); } else { FollowsElsewhere(c, s, h, v, i); }
        case Lose(i) =>
          assert Follows(c, s, h, v);
          NetMembers(s.net, i, []);
          assert Without(s.net, i) + [] == t.net;
        case Scan(p) =>
          assert Follows(c, s, h, v);
          if p == v { ScanReachesLeader(c, s, h, v); }
        case _ => FollowsLocalStep(c, s, h, v, a);
      }
    }
  }

  lemma {:induction false} ConvergingRun(c: Config, s: State, h: Peer, acts: seq<Action>, t: State)
    requires ValidConfig(c) && Inv(c, s) && IsLeader(c, h) && Converging(c, s, h)
    requires Run(c, s, acts, t)
    ensures Inv(c, t) && Converging(c, t, h)
    decreases |acts|
  {
    if acts != [] {
      InvStep(c, s, acts[0]);
      ConvergingStep(c, s, h, acts[0]);
      ConvergingRun(c, Next(c, s, acts[0]), h, acts[1..], t);
    }
  }

  /** Convergence: whatever the interleaving, whoever is dead and whichever way the Alive filter compares, when
      all live nodes have started and nothing is left to do, every live node follows the highest live peer. */
  lemma QuiescentMeansAgreed(c: Config, s: State, h: Peer)
    requires ValidConfig(c) && Reachable(c, s) && Quiescent(c, s) && IsLeader(c, h)
    ensures forall v | v in c.live :: v in s.nodes && s.nodes[v].coordinator == h
  {
    var acts :| Transitions.Run(Step(c), Init(c), acts, s);
    InvInit(c);
    ConvergingRun(c, Init(c), h, acts, s);
    LeaderNeverPending(c, s, h);
    forall v | v in c.live ensures s.nodes[v].coordinator == h {
      if v != h { assert Follows(c, s, h, v); }
    }
  }

  /** No deadlock: in a reachable state that is not quiescent some step is possible. */
  lemma NeverStuck(c: Config, s: State)
    requires ValidConfig(c) && Reachable(c, s) && !Quiescent(c, s)
    ensures exists a :: Enabled(c, s, a)
  {
    ReachableInv(c, s);
    if p :| p in c.live && !(s.nodes[p].started && s.nodes[p].phase == Idle) {
      assert NodeOk(c, p, s.nodes[p]);
      if !s.nodes[p].started {
        assert Enabled(c, s, Start(p));
      } else {
        match s.nodes[p].phase {
          case Scanning(_) => assert Enabled(c, s, Scan(p));
          case Waiting => assert Enabled(c, s, Timeout(p));
          case Announcing(todo) =>
            var to :| to in todo;
            assert Enabled(c, s, Announce(p, to));
        }
      }
    } else {
      if Running(c, s, s.net[0].to) {
        assert Enabled(c, s, Deliver(0));
      } else {
        assert Enabled(c, s, Lose(0));
      }
    }
  }

  /** Every election that is run to its end elects the highest live peer at every live node. */
  lemma ElectionElectsTheHighest(c: Config, acts: seq<Action>, s: State)
    requires ValidConfig(c) && Run(c, Init(c), acts, s)
    requires forall a :: !Enabled(c, s, a)
    ensures Quiescent(c, s)
    ensures c.live != {} ==>
              exists h :: IsLeader(c, h) && forall v | v in c.live :: v in s.nodes && s.nodes[v].coordinator == h
  {
    assert Transitions.Run(Step(c), Init(c), acts, s);
    assert Reachable(c, s);
    if !Quiescent(c, s) { NeverStuck(c, s); }
    if c.live != {} {
      var h := LeaderExists(c);
      QuiescentMeansAgreed(c, s, h);
    }
  }

  lemma OneHighest(c: Config, g: Peer, h: Peer)
    requires IsLeader(c, g) && IsLeader(c, h)
    ensures g == h
  {
    assert g != h ==> Higher(c.peers, g, h) && Higher(c.peers, h, g);
  }

  /** The election of a retry: it ranks the peers that were not excluded. */
  function RetryConfig(
    hash: Hash, sessionID: string, peers: seq<Peer>, excluded: seq<Peer>, live: set<Peer>, filter: AliveFilter): Config
  {
    Config(SessionOrder(hash, sessionID, Filter(Excluding(excluded), peers)), live, filter)
  }

  /** The peer at position k of the static order is the first one that is alive. */
  ghost predicate FirstLive(order: seq<Peer>, live: set<Peer>, k: nat) {
    k < |order| && order[k] in live && forall i | 0 <= i < k :: order[i] !in live
  }

  lemma RetryConfigIsValid(
    hash: Hash, sessionID: string, peers: seq<Peer>, excluded: seq<Peer>, live: set<Peer>, filter: AliveFilter)
    requires Distinct(peers) && live <= Elements(Filter(Excluding(excluded), peers))
    ensures ValidConfig(RetryConfig(hash, sessionID, peers, excluded, live, filter))
  {
    FilterDistinct(Excluding(excluded), peers);
    SessionOrderPermutes(hash, sessionID, Filter(Excluding(excluded), peers));
  }

  lemma FirstLiveLeads(
    hash: Hash, sessionID: string, peers: seq<Peer>, excluded: seq<Peer>, live: set<Peer>, filter: AliveFilter, k: nat)
    requires Distinct(peers) && DistinctRanks(hash, sessionID, Elements(peers))
    requires live <= Elements(Filter(Excluding(excluded), peers))
    requires FirstLive(SessionOrder(hash, sessionID, peers), live, k)
    ensures IsLeader(RetryConfig(hash, sessionID, peers, excluded, live, filter),
                     SessionOrder(hash, sessionID, peers)[k])
  {
    var order := SessionOrder(hash, sessionID, peers);
    var c := RetryConfig(hash, sessionID, peers, excluded, live, filter);
    RetryConfigIsValid(hash, sessionID, peers, excluded, live, filter);
    SessionOrderPermutes(hash, sessionID, peers);
    ExclusionCommutesWithRanking(hash, sessionID, peers, excluded);
    FilterMembers(Excluding(excluded), order);
    LiveIsListed(c, order[k]);
    forall q | q in live && q != order[k] ensures Higher(c.peers, order[k], q) {
      LiveIsListed(c, q);
      var j :| 0 <= j < |order| && order[j] == q;
      FilterKeepsOrder(Excluding(excluded), order, k, j);
    }
  }

  /** The election of a retry ends with the first peer of the static order that is neither excluded nor dead. */
  lemma RetryElectsFirstUsablePeer(
    hash: Hash, sessionID: string, peers: seq<Peer>, excluded: seq<Peer>, live: set<Peer>,
    filter: AliveFilter, acts: seq<Action>, s: State, k: nat)
    requires Distinct(peers) && DistinctRanks(hash, sessionID, Elements(peers))
    requires live <= Elements(Filter(Excluding(excluded), peers))
    requires FirstLive(SessionOrder(hash, sessionID, peers), live, k)
    requires var c := RetryConfig(hash, sessionID, peers, excluded, live, filter);
             Run(c, Init(c), acts, s) && forall a :: !Enabled(c, s, a)
    ensures forall v | v in live :: v in s.nodes
              && s.nodes[v].coordinator == SessionOrder(hash, sessionID, peers)[k]
  {
    var c := RetryConfig(hash, sessionID, peers, excluded, live, filter);
    var h := SessionOrder(hash, sessionID, peers)[k];
    RetryConfigIsValid(hash, sessionID, peers, excluded, live, filter);
    FirstLiveLeads(hash, sessionID, peers, excluded, live, filter, k);
    ElectionElectsTheHighest(c, acts, s);
    var g :| IsLeader(c, g) && forall v | v in c.live :: v in s.nodes && s.nodes[v].coordinator == g;
    OneHighest(c, g, h);
  }

  lemma {:induction false} FilterKeepsOrder(keep: Peer -> bool, s: seq<Peer>, i: nat, j: nat)
    requires i < j < |s| && keep(s[i]) && keep(s[j]) && Distinct(s)
    ensures Higher(Filter(keep, s), s[i], s[j])
  {
    var before, after := s[..j], s[j..];
    assert s == before + after;
    FilterAppend(keep, before, after);
    FilterMembers(keep, before);
    assert s[i] == before[i] && s[i] in Filter(keep, before);
    assert Filter(keep, after)[0] == s[j];
    FilterDistinct(keep, s);
    var x :| 0 <= x < |Filter(keep, before)| && Filter(keep, before)[x] == s[i];
    PositionOf(Filter(keep, s), x);
    PositionOf(Filter(keep, s), |Filter(keep, before)|);
  }
}
