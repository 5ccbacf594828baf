/**
 All electors of a session together: every live node, the messages in flight, and the steps they
 can take in any interleaving. An election is not atomic: each send of its challenge loop and each
 send of its announcement is a step of its own.
 */
module BullyProtocol {
  import Transitions
  import opened Options
  import opened Sorting
  import opened Ranking
  import opened BullyElector

  /** Where a node's main loop stands. */
  datatype Phase =
    | Idle                          // waiting on the receive channel
    | Scanning(next: nat)           // in the challenge loop, about to look at peers[next]
    | Waiting                       // challenges sent, racing the election channel against the timer
    | Announcing(todo: set<Peer>)   // has claimed the lead, these peers are still to be told

  datatype Node = Node(started: bool, coordinator: Peer, phase: Phase, alivePending: bool)

  /** `peers` is the sorted list all nodes share; the peers outside `live` are dead from the start. */
  datatype Config = Config(peers: seq<Peer>, live: set<Peer>, filter: AliveFilter)

  /** `net` is a bag kept as a list: any index can be taken next. */
  datatype State = State(nodes: map<Peer, Node>, net: seq<Message>)

  datatype Action =
    | Start(p: Peer)
    | Scan(p: Peer)
    | Timeout(p: Peer)
    | BowOut(p: Peer)
    | Announce(p: Peer, to: Peer)
    | Deliver(i: nat)
    | Lose(i: nat)

  ghost predicate ValidConfig(c: Config) {
    Distinct(c.peers) && c.live <= Elements(c.peers)
  }

  function Init(c: Config): State {
    State(map p | p in c.live :: Node(false, p, Idle, false), [])
  }

  predicate Running(c: Config, s: State, p: Peer) {
    p in c.live && p in s.nodes && s.nodes[p].started
  }

  function Without(net: seq<Message>, i: nat): seq<Message>
    requires i < |net|
  {
    net[..i] + net[i + 1..]
  }

  /** A message reaches a node that has subscribed; the main loop takes Election and Select only between elections. */
  predicate Deliverable(c: Config, s: State, m: Message) {
    && Running(c, s, m.to)
    && (m.kind == Alive || s.nodes[m.to].phase == Idle)
  }

  predicate Enabled(c: Config, s: State, a: Action) {
    match a
    case Start(p) => p in c.live && p in s.nodes && !s.nodes[p].started
    case Scan(p) => Running(c, s, p) && s.nodes[p].phase.Scanning? && s.nodes[p].phase.next < |c.peers|
    case Timeout(p) => Running(c, s, p) && s.nodes[p].phase == Waiting
    case BowOut(p) => Running(c, s, p) && s.nodes[p].phase == Waiting && s.nodes[p].alivePending
    case Announce(p, to) => Running(c, s, p) && s.nodes[p].phase.Announcing? && to in s.nodes[p].phase.todo
    case Deliver(i) => i < |s.net| && Deliverable(c, s, s.net[i])
    case Lose(i) => i < |s.net| && !Running(c, s, s.net[i].to)
  }

  function AfterScan(c: Config, k: nat): Phase {
    if k + 1 < |c.peers| then Scanning(k + 1) else Waiting
  }

  function AfterAnnounce(todo: set<Peer>): Phase {
    if todo == {} then Idle else Announcing(todo)
  }

  /** The node after a message, and what it sends back. */
  function Handle(c: Config, n: Node, m: Message): (Node, seq<Message>) {
    match m.kind
    case Election =>
      if Higher(c.peers, m.from, m.to) then (n, [])
      else (n.(phase := Scanning(0)), Send(Alive, m.to, m.from))
    case Select => (n.(coordinator := Chosen(c.peers, m.to, n.coordinator, m.from)), [])
    case Alive => (n.(alivePending := n.alivePending || AcceptsAlive(c.filter, c.peers, m.to, m.from)), [])
  }

  function Next(c: Config, s: State, a: Action): State
    requires Enabled(c, s, a)
  {
    match a
    case Start(p) => s.(nodes := s.nodes[p := s.nodes[p].(started := true, phase := Scanning(0))])
    case Scan(p) =>
      var k := s.nodes[p].phase.next;
      State(s.nodes[p := s.nodes[p].(phase := AfterScan(c, k))],
            s.net + if Higher(c.peers, c.peers[k], p) then Send(Election, p, c.peers[k]) else [])
    case Timeout(p) =>
      var n := s.nodes[p];
      s.(nodes := s.nodes[p := n.(coordinator := Chosen(c.peers, p, n.coordinator, p),
                                  phase := AfterAnnounce(Elements(c.peers) - {p}))])
    case BowOut(p) => s.(nodes := s.nodes[p := s.nodes[p].(phase := Idle, alivePending := false)])
    case Announce(p, to) =>
      State(s.nodes[p := s.nodes[p].(phase := AfterAnnounce(s.nodes[p].phase.todo - {to}))],
            s.net + Send(Select, p, to))
    case Deliver(i) =>
      var m := s.net[i];
      var (n, replies) := Handle(c, s.nodes[m.to], m);
      State(s.nodes[m.to := n], Without(s.net, i) + replies)
    case Lose(i) => s.(net := Without(s.net, i))
  }

  function Step(c: Config): (State, Action) -> Option<State> {
    (s, a) => if Enabled(c, s, a) then Some(Next(c, s, a)) else None
  }

  ghost predicate Run(c: Config, s: State, acts: seq<Action>, t: State) {
    Transitions.Run(Step(c), s, acts, t)
  }

  ghost predicate Reachable(c: Config, s: State) {
    Transitions.Reachable(Step(c), Init(c), s)
  }

  /** Nothing in flight, nobody electing, every live node started. */
  ghost predicate Quiescent(c: Config, s: State) {
    && s.net == []
    && s.nodes.Keys == c.live
    && forall p | p in c.live :: s.nodes[p].started && s.nodes[p].phase == Idle
  }

  ghost predicate IsLeader(c: Config, h: Peer) {
    && h in c.live && h in c.peers
    && forall q | q in c.live && q != h :: Higher(c.peers, h, q)
  }

  lemma {:induction false} LeaderExists(c: Config) returns (h: Peer)
    requires ValidConfig(c) && c.live != {}
    ensures IsLeader(c, h)
  {
    var p :| p in c.live;
    LiveIsListed(c, p);
    var i := 0;
    while c.peers[i] !in c.live
      invariant i <= ScanIndex(c.peers, p) < |c.peers| && c.peers[ScanIndex(c.peers, p)] == p
      invariant forall j | 0 <= j < i :: c.peers[j] !in c.live
      decreases |c.peers| - i
    {
      ScanIndexIsPosition(c.peers, p);
      i := i + 1;
    }
    h := c.peers[i];
    forall q | q in c.live && q != h ensures Higher(c.peers, h, q) {
      assert q in Elements(c.peers);
      ScanIndexIsPosition(c.peers, q);
      PositionOf(c.peers, i);
    }
  }

  // ---------- the state invariant ----------

  ghost predicate NodeOk(c: Config, p: Peer, n: Node) {
    && (n.phase.Scanning? ==> n.phase.next < |c.peers|)
    && (n.phase.Announcing? ==> n.phase.todo != {} && n.phase.todo <= Elements(c.peers) - {p})
    && (!n.started ==> n == Node(false, p, Idle, false))
    && (n.coordinator == p || (n.coordinator in c.live && Higher(c.peers, n.coordinator, p)))
    && (n.alivePending ==> c.filter == AsCommented && exists q :: q in c.live && Higher(c.peers, q, p))
  }

  ghost predicate MessageOk(c: Config, s: State, m: Message) {
    && Running(c, s, m.from)
    && m.to in c.peers && m.from != m.to
    && (m.kind == Election ==> Higher(c.peers, m.to, m.from))
    && (m.kind == Alive ==> Higher(c.peers, m.from, m.to))
  }

  ghost predicate Inv(c: Config, s: State) {
    && s.nodes.Keys == c.live
    && (forall p | p in c.live :: NodeOk(c, p, s.nodes[p]))
    && (forall m | m in s.net :: MessageOk(c, s, m))
  }

  lemma LiveIsListed(c: Config, p: Peer)
    requires ValidConfig(c) && p in c.live
    ensures p in c.peers && ScanIndex(c.peers, p) < |c.peers| && c.peers[ScanIndex(c.peers, p)] == p
  {
    assert p in Elements(c.peers);
    ScanIndexIsPosition(c.peers, p);
  }

  /** How the bag changes: something leaves, something joins. */
  lemma NetMembers(net: seq<Message>, i: nat, extra: seq<Message>)
    requires i < |net|
    ensures forall m | m in Without(net, i) + extra :: m in net || m in extra
    ensures forall m | m in net && m != net[i] :: m in Without(net, i) + extra
    ensures forall m | m in extra :: m in Without(net, i) + extra
  {
    assert net == net[..i] + [net[i]] + net[i + 1..];
  }

  lemma InvInit(c: Config)
    requires ValidConfig(c)
    ensures Inv(c, Init(c))
  {
  }

  lemma InvDeliver(c: Config, s: State, i: nat)
    requires ValidConfig(c) && Inv(c, s) && Enabled(c, s, Deliver(i))
    ensures Inv(c, Next(c, s, Deliver(i)))
  {
    var m := s.net[i];
    var (n, replies) := Handle(c, s.nodes[m.to], m);
    var t := Next(c, s, Deliver(i));
    NetMembers(s.net, i, replies);
    assert m in s.net && MessageOk(c, s, m);
    LiveIsListed(c, m.from);
    assert NodeOk(c, m.to, n);
    forall x | x in t.net ensures MessageOk(c, t, x) {
      if x in s.net {
        assert MessageOk(c, s, x);
      } else {
        assert x == Message(Alive, m.to, m.from);
      }
    }
  }

  /** Changing one running node, and sending more from it, keeps the invariant when both are in order. */
  lemma InvOneNode(c: Config, s: State, p: Peer, node: Node, more: seq<Message>)
    requires ValidConfig(c) && Inv(c, s) && p in c.live && node.started && NodeOk(c, p, node)
    requires forall m | m in more :: MessageOk(c, State(s.nodes[p := node], s.net + more), m)
    ensures Inv(c, State(s.nodes[p := node], s.net + more))
  {
    var t := State(s.nodes[p := node], s.net + more);
    forall x | x in t.net ensures MessageOk(c, t, x) {
      assert x in s.net ==> MessageOk(c, s, x);
    }
  }

  lemma InvLose(c: Config, s: State, i: nat)
    requires ValidConfig(c) && Inv(c, s) && Enabled(c, s, Lose(i))
    ensures Inv(c, Next(c, s, Lose(i)))
  {
    var t := Next(c, s, Lose(i));
    NetMembers(s.net, i, []);
    assert Without(s.net, i) + [] == t.net;
    forall x | x in t.net ensures MessageOk(c, t, x) { assert MessageOk(c, s, x); }
  }

  lemma InvStep(c: Config, s: State, a: Action)
    requires ValidConfig(c) && Inv(c, s) && Enabled(c, s, a)
    ensures Inv(c, Next(c, s, a))
  {
    var t := Next(c, s, a);
    match a {
      case Deliver(i) => InvDeliver(c, s, i);
      case Lose(i) => InvLose(c, s, i);
      case Announce(p, to) =>
        assert NodeOk(c, p, s.nodes[p]);
        assert to in Elements(c.peers);
        InvOneNode(c, s, p, t.nodes[p], Send(Select, p, to));
      case Scan(p) =>
        assert NodeOk(c, p, s.nodes[p]);
        var q := c.peers[s.nodes[p].phase.next];
        InvOneNode(c, s, p, t.nodes[p], if Higher(c.peers, q, p) then Send(Election, p, q) else []);
      case _ =>
        assert NodeOk(c, a.p, s.nodes[a.p]);
        LiveIsListed(c, a.p);
        assert s.net + [] == s.net;
        InvOneNode(c, s, a.p, t.nodes[a.p], []);
    }
  }

  lemma {:induction false} InvRun(c: Config, s: State, acts: seq<Action>, t: State)
    requires ValidConfig(c) && Inv(c, s) && Run(c, s, acts, t)
    ensures Inv(c, t)
    decreases |acts|
  {
    if acts != [] {
      InvStep(c, s, acts[0]);
      InvRun(c, Next(c, s, acts[0]), acts[1..], t);
    }
  }

  lemma ReachableInv(c: Config, s: State)
    requires ValidConfig(c) && Reachable(c, s)
    ensures Inv(c, s)
  {
    var acts :| Transitions.Run(Step(c), Init(c), acts, s);
    InvInit(c);
    InvRun(c, Init(c), acts, s);
  }

  /** In every reachable state a node's coordinator is itself or a live peer ranked above it. */
  lemma CoordinatorIsSelfOrLiveAbove(c: Config, s: State, p: Peer)
    requires ValidConfig(c) && Reachable(c, s) && p in c.live
    ensures p in s.nodes
    ensures s.nodes[p].coordinator == p
         || (s.nodes[p].coordinator in c.live && Higher(c.peers, s.nodes[p].coordinator, p))
  {
    ReachableInv(c, s);
    assert NodeOk(c, p, s.nodes[p]);
  }

  lemma DeliveryMovesUp(c: Config, s: State, i: nat)
    requires ValidConfig(c) && Inv(c, s) && Enabled(c, s, Deliver(i))
    ensures var n := s.nodes[s.net[i].to];
            var later := Handle(c, n, s.net[i]).0.coordinator;
            later == n.coordinator || Higher(c.peers, later, n.coordinator)
  {
    assert s.net[i] in s.net && MessageOk(c, s, s.net[i]);
  }

  /** A step of p's other than claiming the lead, or any step of another node. */
  lemma StepMovesUp(c: Config, s: State, a: Action, p: Peer)
    requires ValidConfig(c) && Inv(c, s) && Enabled(c, s, a) && p in c.live && a != Timeout(p)
    ensures var now, later := s.nodes[p].coordinator, Next(c, s, a).nodes[p].coordinator;
            later == now || Higher(c.peers, later, now)
  {
    if a.Deliver? {
      DeliveryMovesUp(c, s, a.i);
    }
  }

  lemma {:induction false} RunMovesUp(c: Config, s: State, acts: seq<Action>, t: State, p: Peer)
    requires ValidConfig(c) && Inv(c, s) && Run(c, s, acts, t) && p in c.live && Timeout(p) !in acts
    ensures p in t.nodes
    ensures t.nodes[p].coordinator == s.nodes[p].coordinator
         || Higher(c.peers, t.nodes[p].coordinator, s.nodes[p].coordinator)
    decreases |acts|
  {
    if acts != [] {
      StepMovesUp(c, s, acts[0], p);
      InvStep(c, s, acts[0]);
      RunMovesUp(c, Next(c, s, acts[0]), acts[1..], t, p);
    }
  }

  /** Over any stretch of a run in which a node does not elect itself, its recorded coordinator only moves up. */
  lemma CoordinatorOnlyMovesUp(c: Config, s: State, acts: seq<Action>, t: State, p: Peer)
    requires ValidConfig(c) && Reachable(c, s) && Run(c, s, acts, t)
    requires p in c.live && Timeout(p) !in acts
    ensures p in s.nodes && p in t.nodes
    ensures t.nodes[p].coordinator == s.nodes[p].coordinator
         || Higher(c.peers, t.nodes[p].coordinator, s.nodes[p].coordinator)
  {
    ReachableInv(c, s);
    RunMovesUp(c, s, acts, t, p);
  }

  // ---------- the steps, taken without interruption, are the elector's own loops ----------

  function ScanPhase(c: Config, k: nat): Phase {
    if k < |c.peers| then Scanning(k) else Waiting
  }

  function AfterScans(c: Config, s: State, p: Peer, k: nat): State
    requires p in s.nodes && k <= |c.peers|
  {
    State(s.nodes[p := s.nodes[p].(phase := ScanPhase(c, k))],
          s.net + SendAll(Election, p, Filter(Above(c.peers, p), c.peers[..k])))
  }

  lemma ScanNextNet(c: Config, s: State, p: Peer, k: nat)
    requires Running(c, s, p) && k < |c.peers|
    ensures AfterScans(c, s, p, k + 1).net == AfterScans(c, s, p, k).net
              + if Higher(c.peers, c.peers[k], p) then Send(Election, p, c.peers[k]) else []
  {
    ChallengeStep(c.peers, p, k);
  }

  lemma ScanNext(c: Config, s: State, p: Peer, k: nat)
    requires Running(c, s, p) && k < |c.peers|
    ensures Enabled(c, AfterScans(c, s, p, k), Scan(p))
    ensures Next(c, AfterScans(c, s, p, k), Scan(p)) == AfterScans(c, s, p, k + 1)
  {
    var t := AfterScans(c, s, p, k);
    ScanNextNet(c, s, p, k);
    assert t.nodes[p := t.nodes[p].(phase := AfterScan(c, k))] == AfterScans(c, s, p, k + 1).nodes;
  }

  lemma {:induction false} ScanRun(c: Config, s: State, p: Peer, k: nat) returns (acts: seq<Action>)
    requires Running(c, s, p) && s.nodes[p].phase == Scanning(0) && c.peers != []
    requires k <= |c.peers|
    ensures Run(c, s, acts, AfterScans(c, s, p, k))
  {
    if k == 0 {
      acts := [];
      assert s.nodes[p := s.nodes[p].(phase := ScanPhase(c, 0))] == s.nodes;
      assert s.net + [] == s.net;
      assert AfterScans(c, s, p, 0) == s;
    } else {
      acts := ScanRun(c, s, p, k - 1);
      ScanNext(c, s, p, k - 1);
      Transitions.RunSnoc(Step(c), s, acts, AfterScans(c, s, p, k - 1), Scan(p), AfterScans(c, s, p, k));
      acts := acts + [Scan(p)];
    }
  }

  /** Told so far: the first k positions of the list. */
  function AfterAnnouncing(c: Config, s: State, p: Peer, k: nat): State
    requires p in s.nodes && k <= |c.peers|
  {
    State(s.nodes[p := s.nodes[p].(phase := AfterAnnounce(Elements(c.peers[k..]) - {p}))],
          s.net + SendAll(Select, p, c.peers[..k]))
  }

  lemma SuffixElements(peers: seq<Peer>, k: nat)
    requires Distinct(peers) && k < |peers|
    ensures Elements(peers[k..]) == {peers[k]} + Elements(peers[k + 1..])
    ensures peers[k] !in Elements(peers[k + 1..])
  {
    assert peers[k..] == [peers[k]] + peers[k + 1..];
  }

  lemma AnnounceSkip(c: Config, s: State, p: Peer, k: nat)
    requires Running(c, s, p) && Distinct(c.peers) && k < |c.peers| && c.peers[k] == p
    ensures AfterAnnouncing(c, s, p, k + 1) == AfterAnnouncing(c, s, p, k)
  {
    SuffixElements(c.peers, k);
    assert c.peers[..k + 1] == c.peers[..k] + [p];
    SendAllSnoc(Select, p, c.peers[..k], p);
    assert SendAll(Select, p, c.peers[..k]) + [] == SendAll(Select, p, c.peers[..k]);
    assert Elements(c.peers[k..]) - {p} == Elements(c.peers[k + 1..]) - {p};
  }

  lemma AnnounceNextNet(c: Config, s: State, p: Peer, k: nat)
    requires Running(c, s, p) && k < |c.peers|
    ensures AfterAnnouncing(c, s, p, k + 1).net == AfterAnnouncing(c, s, p, k).net + Send(Select, p, c.peers[k])
  {
    assert c.peers[..k + 1] == c.peers[..k] + [c.peers[k]];
    SendAllSnoc(Select, p, c.peers[..k], c.peers[k]);
  }

  lemma AnnounceNextPhase(c: Config, p: Peer, k: nat)
    requires Distinct(c.peers) && k < |c.peers| && c.peers[k] != p
    ensures c.peers[k] in Elements(c.peers[k..]) - {p}
    ensures Elements(c.peers[k..]) - {p} - {c.peers[k]} == Elements(c.peers[k + 1..]) - {p}
  {
    SuffixElements(c.peers, k);
  }

  lemma AnnounceNext(c: Config, s: State, p: Peer, k: nat)
    requires Running(c, s, p) && Distinct(c.peers) && k < |c.peers| && c.peers[k] != p
    ensures Enabled(c, AfterAnnouncing(c, s, p, k), Announce(p, c.peers[k]))
    ensures Next(c, AfterAnnouncing(c, s, p, k), Announce(p, c.peers[k])) == AfterAnnouncing(c, s, p, k + 1)
  {
    var q, t := c.peers[k], AfterAnnouncing(c, s, p, k);
    AnnounceNextPhase(c, p, k);
    AnnounceNextNet(c, s, p, k);
    var todo := Elements(c.peers[k..]) - {p};
    assert t.nodes[p].phase == Announcing(todo);
    assert t.nodes[p := t.nodes[p].(phase := AfterAnnounce(todo - {q}))] == AfterAnnouncing(c, s, p, k + 1).nodes;
  }

  lemma {:induction false} AnnounceRun(c: Config, s: State, p: Peer, k: nat) returns (acts: seq<Action>)
    requires Running(c, s, p) && Distinct(c.peers) && k <= |c.peers|
    requires s.nodes[p].phase == AfterAnnounce(Elements(c.peers) - {p})
    ensures Run(c, s, acts, AfterAnnouncing(c, s, p, k))
  {
    if k == 0 {
      acts := [];
      assert c.peers[0..] == c.peers;
      assert s.nodes[p := s.nodes[p].(phase := AfterAnnounce(Elements(c.peers) - {p}))] == s.nodes;
      assert s.net + [] == s.net;
      assert AfterAnnouncing(c, s, p, 0) == s;
    } else {
      acts := AnnounceRun(c, s, p, k - 1);
      if c.peers[k - 1] == p {
        AnnounceSkip(c, s, p, k - 1);
      } else {
        AnnounceNext(c, s, p, k - 1);
        Transitions.RunSnoc(Step(c), s, acts, AfterAnnouncing(c, s, p, k - 1), Announce(p, c.peers[k - 1]),
                            AfterAnnouncing(c, s, p, k));
        acts := acts + [Announce(p, c.peers[k - 1])];
      }
    }
  }

  /** The whole challenge loop. */
  lemma Challenge(c: Config, s: State, p: Peer) returns (acts: seq<Action>)
    requires ValidConfig(c) && Running(c, s, p) && s.nodes[p].phase == Scanning(0)
    ensures Run(c, s, acts,
              State(s.nodes[p := s.nodes[p].(phase := Waiting)],
                    s.net + SendAll(Election, p, Filter(Above(c.peers, p), c.peers))))
  {
    LiveIsListed(c, p);
    assert c.peers[..|c.peers|] == c.peers;
    acts := ScanRun(c, s, p, |c.peers|);
  }

  /** Claiming the lead, and telling everybody. */
  lemma ClaimAndAnnounce(c: Config, s: State, p: Peer) returns (acts: seq<Action>)
    requires ValidConfig(c) && Running(c, s, p) && s.nodes[p].phase == Waiting
    ensures Run(c, s, acts,
              State(s.nodes[p := s.nodes[p].(coordinator := p, phase := Idle)], s.net + SendAll(Select, p, c.peers)))
  {
    var t := Next(c, s, Timeout(p));
    Transitions.RunOne(Step(c), s, Timeout(p), t);
    acts := AnnounceAll(c, t, p);
    assert t.nodes[p := t.nodes[p].(phase := Idle)] == s.nodes[p := s.nodes[p].(coordinator := p, phase := Idle)];
    Transitions.RunConcat(Step(c), s, [Timeout(p)], t, acts,
      State(s.nodes[p := s.nodes[p].(coordinator := p, phase := Idle)], s.net + SendAll(Select, p, c.peers)));
    acts := [Timeout(p)] + acts;
  }

  lemma AnnounceAll(c: Config, s: State, p: Peer) returns (acts: seq<Action>)
    requires ValidConfig(c) && Running(c, s, p) && s.nodes[p].phase == AfterAnnounce(Elements(c.peers) - {p})
    ensures Run(c, s, acts, State(s.nodes[p := s.nodes[p].(phase := Idle)], s.net + SendAll(Select, p, c.peers)))
  {
    var n := |c.peers|;
    assert c.peers[..n] == c.peers;
    acts := AnnounceRun(c, s, p, n);
    assert c.peers[n..] == [];
    assert Elements(c.peers[n..]) - {p} == {};
    assert AfterAnnouncing(c, s, p, n) ==
      State(s.nodes[p := s.nodes[p].(phase := Idle)], s.net + SendAll(Select, p, c.peers));
  }

  /** The state in which one node has completed a turn of its main loop. */
  function AfterTurn(s: State, p: Peer, turn: Turn): State
    requires p in s.nodes
  {
    State(s.nodes[p := s.nodes[p].(coordinator := turn.coordinator, phase := Idle, alivePending := turn.alivePending)],
          s.net + turn.sent)
  }

  /** A node that is left alone sends exactly what its elector's election sends, in the same order, and ends as
      that election does, whether it claims the lead or bows out. */
  lemma UninterruptedElection(c: Config, s: State, p: Peer, timedOut: bool) returns (acts: seq<Action>)
    requires ValidConfig(c) && Running(c, s, p) && s.nodes[p].phase == Scanning(0)
    requires !timedOut ==> s.nodes[p].alivePending
    ensures Run(c, s, acts,
              AfterTurn(s, p, AfterElection(c.peers, p, s.nodes[p].coordinator, s.nodes[p].alivePending, timedOut)))
  {
    var challenges := SendAll(Election, p, Filter(Above(c.peers, p), c.peers));
    var first := Challenge(c, s, p);
    var t := State(s.nodes[p := s.nodes[p].(phase := Waiting)], s.net + challenges);
    var end := AfterTurn(s, p, AfterElection(c.peers, p, s.nodes[p].coordinator, s.nodes[p].alivePending, timedOut));
    var last: seq<Action>;
    if timedOut {
      last := ClaimAndAnnounce(c, t, p);
      Regroup(s.net, challenges, SendAll(Select, p, c.peers));
      assert end ==
        State(t.nodes[p := t.nodes[p].(coordinator := p, phase := Idle)], t.net + SendAll(Select, p, c.peers));
    } else {
      last := [BowOut(p)];
      Regroup(s.net, challenges, []);
      assert end.nodes == Next(c, t, BowOut(p)).nodes;
      Transitions.RunOne(Step(c), t, BowOut(p), end);
    }
    Transitions.RunConcat(Step(c), s, first, t, last, end);
    acts := first + last;
  }

  /** The state after the main loop has taken message i and has done all it does about it. */
  function AfterReceive(c: Config, s: State, i: nat, timedOut: bool): State
    requires i < |s.net| && Deliverable(c, s, s.net[i])
  {
    var m, n := s.net[i], s.nodes[s.net[i].to];
    AfterTurn(s.(net := Without(s.net, i)), m.to,
              AfterMessage(c.peers, m.to, n.coordinator, n.alivePending, m, timedOut))
  }

  /** A challenge that is answered: the Alive goes out first, then the election runs. */
  lemma AnswerThenElect(c: Config, s: State, i: nat, timedOut: bool)
    requires i < |s.net| && Deliverable(c, s, s.net[i])
    requires s.net[i].kind == Election && !Higher(c.peers, s.net[i].from, s.net[i].to)
    ensures var t, p := Next(c, s, Deliver(i)), s.net[i].to;
            && p in t.nodes && t.nodes[p] == s.nodes[p].(phase := Scanning(0))
            && AfterTurn(t, p, AfterElection(c.peers, p, t.nodes[p].coordinator, t.nodes[p].alivePending, timedOut))
               == AfterReceive(c, s, i, timedOut)
  {
    var m, p, t := s.net[i], s.net[i].to, Next(c, s, Deliver(i));
    var election := AfterElection(c.peers, p, s.nodes[p].coordinator, s.nodes[p].alivePending, timedOut);
    Regroup(Without(s.net, i), Send(Alive, p, m.from), election.sent);
    assert AfterTurn(t, p, election).nodes == AfterReceive(c, s, i, timedOut).nodes;
  }

  lemma UninterruptedAnswer(c: Config, s: State, i: nat, timedOut: bool) returns (acts: seq<Action>)
    requires ValidConfig(c) && i < |s.net| && Deliverable(c, s, s.net[i])
    requires s.net[i].kind == Election && !Higher(c.peers, s.net[i].from, s.net[i].to)
    requires !timedOut ==> s.nodes[s.net[i].to].alivePending
    ensures Run(c, s, acts, AfterReceive(c, s, i, timedOut))
  {
    var t := Next(c, s, Deliver(i));
    AnswerThenElect(c, s, i, timedOut);
    Transitions.RunOne(Step(c), s, Deliver(i), t);
    acts := UninterruptedElection(c, t, s.net[i].to, timedOut);
    Transitions.RunConcat(Step(c), s, [Deliver(i)], t, acts, AfterReceive(c, s, i, timedOut));
    acts := [Deliver(i)] + acts;
  }

  /** Delivering a message to an idle node, and the steps of the election it may cause, are together one turn of
      the elector's receive loop. */
  lemma UninterruptedTurn(c: Config, s: State, i: nat, timedOut: bool) returns (acts: seq<Action>)
    requires ValidConfig(c) && i < |s.net| && Deliverable(c, s, s.net[i]) && s.net[i].kind != Alive
    requires !timedOut ==> s.nodes[s.net[i].to].alivePending
    ensures Run(c, s, acts, AfterReceive(c, s, i, timedOut))
  {
    if s.net[i].kind == Election && !Higher(c.peers, s.net[i].from, s.net[i].to) {
      acts := UninterruptedAnswer(c, s, i, timedOut);
    } else {
      acts := [Deliver(i)];
      assert Next(c, s, Deliver(i)).nodes == AfterReceive(c, s, i, timedOut).nodes;
      Transitions.RunOne(Step(c), s, Deliver(i), AfterReceive(c, s, i, timedOut));
    }
  }

  // ---------- who can bow out ----------

  /** A challenge that the challenged peer answers while the challenger waits. */
  lemma AnswerArrives(c: Config, s: State, p: Peer, q: Peer)
    requires Reachable(c, s) && Running(c, s, p) && Running(c, s, q) && p != q
    requires s.nodes[p].phase == Waiting && s.nodes[q].phase == Idle && Message(Election, p, q) in s.net
    requires c.filter == AsCommented && Higher(c.peers, q, p)
    ensures exists t :: Reachable(c, t) && Enabled(c, t, BowOut(p))
  {
    var i :| 0 <= i < |s.net| && s.net[i] == Message(Election, p, q);
    var t := Next(c, s, Deliver(i));
    Transitions.ReachableStep(Step(c), Init(c), s, Deliver(i), Next(c, s, Deliver(i)));
    assert t.nodes[p] == s.nodes[p];
    assert t.net == Without(s.net, i) + [Message(Alive, q, p)];
    var j := |t.net| - 1;
    assert t.net[j] == Message(Alive, q, p);
    var u := Next(c, t, Deliver(j));
    Transitions.ReachableStep(Step(c), Init(c), t, Deliver(j), Next(c, t, Deliver(j)));
    assert u.nodes[p].alivePending;
    assert Reachable(c, u) && Enabled(c, u, BowOut(p));
  }

  /** A peer that starts first can complete an election while all others are still off. */
  lemma FirstElectionOver(c: Config, q: Peer) returns (s: State)
    requires ValidConfig(c) && q in c.live
    ensures Reachable(c, s) && s.nodes.Keys == c.live && Running(c, s, q) && s.nodes[q].phase == Idle
    ensures forall p | p in c.live && p != q :: s.nodes[p] == Node(false, p, Idle, false)
  {
    var s0 := Init(c);
    assert Run(c, s0, [], s0);
    var s1 := Next(c, s0, Start(q));
    Transitions.ReachableStep(Step(c), s0, s0, Start(q), s1);
    var election := UninterruptedElection(c, s1, q, true);
    s := AfterTurn(s1, q, AfterElection(c.peers, q, q, false, true));
    Transitions.ReachableRun(Step(c), s0, s1, election, s);
  }

  lemma ChallengeIsSent(c: Config, p: Peer, q: Peer)
    requires ValidConfig(c) && q in c.live && p != q && Higher(c.peers, q, p)
    ensures Message(Election, p, q) in SendAll(Election, p, Filter(Above(c.peers, p), c.peers))
  {
    LiveIsListed(c, q);
    FilterMembers(Above(c.peers, p), c.peers);
    SendAllMembers(Election, p, Filter(Above(c.peers, p), c.peers));
  }

  /** The higher peer completes an election of its own before the lower one has challenged it. */
  lemma ChallengePending(c: Config, p: Peer, q: Peer) returns (s: State)
    requires ValidConfig(c) && p in c.live && q in c.live && Higher(c.peers, q, p)
    ensures Reachable(c, s) && Running(c, s, p) && Running(c, s, q)
    ensures s.nodes[p].phase == Waiting && s.nodes[q].phase == Idle && Message(Election, p, q) in s.net
  {
    var t := FirstElectionOver(c, q);
    var u := Next(c, t, Start(p));
    Transitions.ReachableStep(Step(c), Init(c), t, Start(p), u);
    var acts := Challenge(c, u, p);
    s := State(u.nodes[p := u.nodes[p].(phase := Waiting)],
               u.net + SendAll(Election, p, Filter(Above(c.peers, p), c.peers)));
    Transitions.ReachableRun(Step(c), Init(c), u, acts, s);
    ChallengeIsSent(c, p, q);
  }

  /** An election can bow out exactly at a live peer that has a live peer above it, and only under the comparison
      the filter's comment describes. */
  lemma WhoCanBowOut(c: Config, p: Peer)
    requires ValidConfig(c)
    ensures (exists s :: Reachable(c, s) && Enabled(c, s, BowOut(p))) <==>
            c.filter == AsCommented && p in c.live && exists q :: q in c.live && Higher(c.peers, q, p)
  {
    if s :| Reachable(c, s) && Enabled(c, s, BowOut(p)) {
      ReachableInv(c, s);
      assert NodeOk(c, p, s.nodes[p]);
    }
    if c.filter == AsCommented && p in c.live && exists q :: q in c.live && Higher(c.peers, q, p) {
      var q :| q in c.live && Higher(c.peers, q, p);
      var s := ChallengePending(c, p, q);
      AnswerArrives(c, s, p, q);
    }
  }

  /** With the filter as the code has it no Alive is ever accepted, so no election bows out:
      every election that starts ends with the node naming itself coordinator. */
  lemma NobodyBowsOutAsWritten(c: Config, s: State, p: Peer)
    requires ValidConfig(c) && Reachable(c, s) && c.filter == AsWritten
    ensures !Enabled(c, s, BowOut(p))
  {
    WhoCanBowOut(c, p);
  }
}
