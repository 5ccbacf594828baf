/**
 How much work an election can cause. Every step is given a price, every node and every message a weight
 that covers the price of all it can still trigger; no step can spend more than it takes away.
 */
module BullyStorm {
  import opened Sorting
  import opened Ranking
  import opened BullyElector
  import opened BullyProtocol

  /** `run(r)` is paid when the peer at rank r begins an election, `send` for each Election message sent,
      `step` for every step taken. */
  datatype Prices = Prices(run: nat -> nat, send: nat, step: nat)

  // ---------- weights ----------

  function WaitingWeight(k: Prices, n: nat): nat
    requires n > 0
  {
    k.step + (n - 1) * (2 * k.step)
  }

  /** All that an election at rank v can cause, from its first step on. */
  function ElectionWeight(k: Prices, n: nat, v: nat): nat
    requires v < n
    decreases v, n + 1
  {
    k.run(v) + ScanWeight(k, n, v, 0)
  }

  /** What is left of it when the challenge loop at rank v is about to look at position j. */
  function ScanWeight(k: Prices, n: nat, v: nat, j: nat): nat
    requires v < n && j <= n
    decreases v, n - j
  {
    if j == n then WaitingWeight(k, n)
    else k.step + (if j < v then k.send + ChallengeWeight(k, n, j) else 0) + ScanWeight(k, n, v, j + 1)
  }

  /** A challenge in flight to rank j: its delivery, the Alive it is answered with, the election it starts. */
  function ChallengeWeight(k: Prices, n: nat, j: nat): nat
    requires j < n
    decreases j, n + 2
  {
    2 * k.step + ElectionWeight(k, n, j)
  }

  function MessageWeight(k: Prices, c: Config, m: Message): nat {
    var j := ScanIndex(c.peers, m.to);
    if m.kind == Election && j < |c.peers| then ChallengeWeight(k, |c.peers|, j) else k.step
  }

  function NetWeight(k: Prices, c: Config, net: seq<Message>): nat {
    if net == [] then 0 else MessageWeight(k, c, net[0]) + NetWeight(k, c, net[1..])
  }

  function NodeWeight(k: Prices, n: nat, v: nat, node: Node): nat
    requires v < n
  {
    if !node.started then k.step + ElectionWeight(k, n, v)
    else match node.phase
      case Idle => 0
      case Scanning(j) => if j <= n then ScanWeight(k, n, v, j) else 0
      case Waiting => WaitingWeight(k, n)
      case Announcing(todo) => |todo| * (2 * k.step)
  }

  /** The nodes at the first `upTo` positions. */
  function NodesWeight(k: Prices, c: Config, nodes: map<Peer, Node>, upTo: nat): nat
    requires upTo <= |c.peers|
  {
    if upTo == 0 then 0
    else
      var p := c.peers[upTo - 1];
      NodesWeight(k, c, nodes, upTo - 1) + if p in nodes then NodeWeight(k, |c.peers|, upTo - 1, nodes[p]) else 0
  }

  function Weight(k: Prices, c: Config, s: State): nat {
    NodesWeight(k, c, s.nodes, |c.peers|) + NetWeight(k, c, s.net)
  }

  // ---------- prices ----------

  /** Whether a step begins an election at p. */
  predicate Begins(c: Config, s: State, a: Action, p: Peer) {
    match a
    case Start(q) => p == q
    case Deliver(i) => i < |s.net| && s.net[i].kind == Election && s.net[i].to == p
                       && !Higher(c.peers, s.net[i].from, p)
    case _ => false
  }

  /** Whether a step sends an Election message. */
  predicate Challenges(c: Config, s: State, a: Action) {
    a.Scan? && Enabled(c, s, a) && Higher(c.peers, c.peers[s.nodes[a.p].phase.next], a.p)
  }

  /** The rank of the peer that begins an election in this step, if one does. */
  function BeginsAt(c: Config, s: State, a: Action): (r: int)
    ensures r == -1 || 0 <= r
  {
    if a.Start? then ScanIndex(c.peers, a.p)
    else if a.Deliver? && a.i < |s.net| && Begins(c, s, a, s.net[a.i].to) then ScanIndex(c.peers, s.net[a.i].to)
    else -1
  }

  function Price(k: Prices, c: Config, s: State, a: Action): nat {
    k.step
    + (if BeginsAt(c, s, a) >= 0 then k.run(BeginsAt(c, s, a)) else 0)
    + (if Challenges(c, s, a) then k.send else 0)
  }

  /** The price of a whole run. */
  ghost function Total(k: Prices, c: Config, s: State, acts: seq<Action>): nat
    decreases |acts|
  {
    if acts == [] then 0
    else Price(k, c, s, acts[0])
         + if Enabled(c, s, acts[0]) then Total(k, c, Next(c, s, acts[0]), acts[1..]) else 0
  }

  // ---------- no step spends more than it takes away ----------

  lemma {:induction false} NetWeightAppend(k: Prices, c: Config, a: seq<Message>, b: seq<Message>)
    ensures NetWeight(k, c, a + b) == NetWeight(k, c, a) + NetWeight(k, c, b)
  {
    if a == [] {
      assert a + b == b;
    } else {
      assert (a + b)[1..] == a[1..] + b;
      NetWeightAppend(k, c, a[1..], b);
    }
  }

  lemma NetWeightWithout(k: Prices, c: Config, net: seq<Message>, i: nat)
    requires i < |net|
    ensures NetWeight(k, c, net) == NetWeight(k, c, Without(net, i)) + MessageWeight(k, c, net[i])
  {
    assert net == net[..i] + ([net[i]] + net[i + 1..]);
    NetWeightAppend(k, c, net[..i], [net[i]] + net[i + 1..]);
    NetWeightAppend(k, c, net[..i], net[i + 1..]);
  }

  lemma {:induction false} NodesWeightUpdate(k: Prices, c: Config, nodes: map<Peer, Node>, v: nat, node: Node, upTo: nat)
    requires Distinct(c.peers) && v < |c.peers| && c.peers[v] in nodes && upTo <= |c.peers|
    ensures NodesWeight(k, c, nodes[c.peers[v] := node], upTo)
              + (if v < upTo then NodeWeight(k, |c.peers|, v, nodes[c.peers[v]]) else 0)
         == NodesWeight(k, c, nodes, upTo)
              + (if v < upTo then NodeWeight(k, |c.peers|, v, node) else 0)
  {
    if upTo != 0 {
      NodesWeightUpdate(k, c, nodes, v, node, upTo - 1);
      assert c.peers[upTo - 1] == c.peers[v] <==> upTo - 1 == v;
    }
  }

  /** A step that changes one node and appends messages, in terms of the weights of the parts. */
  lemma WeightOfUpdate(k: Prices, c: Config, s: State, p: Peer, node: Node, extra: seq<Message>)
    requires ValidConfig(c) && Inv(c, s) && p in c.live
    ensures ScanIndex(c.peers, p) < |c.peers|
    ensures Weight(k, c, State(s.nodes[p := node], s.net + extra))
              + NodeWeight(k, |c.peers|, ScanIndex(c.peers, p), s.nodes[p])
         == Weight(k, c, s)
              + NodeWeight(k, |c.peers|, ScanIndex(c.peers, p), node) + NetWeight(k, c, extra)
  {
    LiveIsListed(c, p);
    NodesWeightUpdate(k, c, s.nodes, ScanIndex(c.peers, p), node, |c.peers|);
    NetWeightAppend(k, c, s.net, extra);
  }

  lemma OneLess(x: nat, n: nat)
    requires n > 0
    ensures n * x == (n - 1) * x + x
  {
  }

  lemma PayScan(k: Prices, c: Config, s: State, p: Peer)
    requires ValidConfig(c) && Inv(c, s) && Enabled(c, s, Scan(p))
    ensures Price(k, c, s, Scan(p)) + Weight(k, c, Next(c, s, Scan(p))) <= Weight(k, c, s)
  {
    LiveIsListed(c, p);
    var v, n, j := ScanIndex(c.peers, p), |c.peers|, s.nodes[p].phase.next;
    HigherIsPositionOrder(c.peers, j, v);
    PositionOf(c.peers, j);
    var extra := if Higher(c.peers, c.peers[j], p) then Send(Election, p, c.peers[j]) else [];
    var node := s.nodes[p].(phase := AfterScan(c, j));
    assert extra == if j < v then [Message(Election, p, c.peers[j])] else [];
    assert NetWeight(k, c, extra) == if j < v then ChallengeWeight(k, n, j) else 0 by {
      assert j < v ==> MessageWeight(k, c, extra[0]) == ChallengeWeight(k, n, j) && extra[1..] == [];
    }
    assert NodeWeight(k, n, v, node) == ScanWeight(k, n, v, j + 1);
    WeightOfUpdate(k, c, s, p, node, extra);
    assert Next(c, s, Scan(p)) == State(s.nodes[p := node], s.net + extra);
  }

  lemma PayTimeout(k: Prices, c: Config, s: State, p: Peer)
    requires ValidConfig(c) && Inv(c, s) && Enabled(c, s, Timeout(p))
    ensures Price(k, c, s, Timeout(p)) + Weight(k, c, Next(c, s, Timeout(p))) <= Weight(k, c, s)
  {
    LiveIsListed(c, p);
    var todo := Elements(c.peers) - {p};
    DistinctIffCardinality(c.peers);
    assert |todo| == |c.peers| - 1;
    var t := Next(c, s, Timeout(p));
    assert s.net + [] == s.net;
    WeightOfUpdate(k, c, s, p, t.nodes[p], []);
    assert t == State(s.nodes[p := t.nodes[p]], s.net);
    assert todo == {} ==> |todo| * (2 * k.step) == 0;
    assert NodeWeight(k, |c.peers|, ScanIndex(c.peers, p), t.nodes[p]) == |todo| * (2 * k.step);
  }

  lemma PayAnnounce(k: Prices, c: Config, s: State, p: Peer, to: Peer)
    requires ValidConfig(c) && Inv(c, s) && Enabled(c, s, Announce(p, to))
    ensures Price(k, c, s, Announce(p, to)) + Weight(k, c, Next(c, s, Announce(p, to))) <= Weight(k, c, s)
  {
    var todo := s.nodes[p].phase.todo;
    assert NodeOk(c, p, s.nodes[p]);
    var node := s.nodes[p].(phase := AfterAnnounce(todo - {to}));
    WeightOfUpdate(k, c, s, p, node, Send(Select, p, to));
    OneLess(2 * k.step, |todo|);
    assert |todo - {to}| == |todo| - 1;
    assert Send(Select, p, to) == [Message(Select, p, to)];
    assert NetWeight(k, c, Send(Select, p, to)) == k.step;
    assert todo - {to} == {} ==> |todo - {to}| * (2 * k.step) == 0;
    assert NodeWeight(k, |c.peers|, ScanIndex(c.peers, p), node) == |todo - {to}| * (2 * k.step);
  }

  /** Taking a message out and changing its receiver, in terms of the weights of the parts. */
  lemma WeightOfDelivery(k: Prices, c: Config, s: State, i: nat, node: Node, replies: seq<Message>)
    requires ValidConfig(c) && Inv(c, s) && i < |s.net| && s.net[i].to in c.live
    ensures ScanIndex(c.peers, s.net[i].to) < |c.peers|
    ensures Weight(k, c, State(s.nodes[s.net[i].to := node], Without(s.net, i) + replies))
              + NodeWeight(k, |c.peers|, ScanIndex(c.peers, s.net[i].to), s.nodes[s.net[i].to])
              + MessageWeight(k, c, s.net[i])
         == Weight(k, c, s)
              + NodeWeight(k, |c.peers|, ScanIndex(c.peers, s.net[i].to), node) + NetWeight(k, c, replies)
  {
    NetWeightWithout(k, c, s.net, i);
    var rest := State(s.nodes, Without(s.net, i));
    NetMembers(s.net, i, []);
    assert Without(s.net, i) + [] == rest.net;
    assert Inv(c, rest) by {
      forall x | x in rest.net ensures MessageOk(c, rest, x) { assert MessageOk(c, s, x); }
    }
    WeightOfUpdate(k, c, rest, s.net[i].to, node, replies);
  }

  lemma PayChallenge(k: Prices, c: Config, s: State, i: nat)
    requires ValidConfig(c) && Inv(c, s) && Enabled(c, s, Deliver(i)) && s.net[i].kind == Election
    ensures Price(k, c, s, Deliver(i)) + Weight(k, c, Next(c, s, Deliver(i))) <= Weight(k, c, s)
  {
    var m := s.net[i];
    var node := s.nodes[m.to].(phase := Scanning(0));
    assert m in s.net && MessageOk(c, s, m);
    LiveIsListed(c, m.to);
    LiveIsListed(c, m.from);
    var v, n := ScanIndex(c.peers, m.to), |c.peers|;
    var replies := [Message(Alive, m.to, m.from)];
    assert NetWeight(k, c, replies) == k.step by { assert replies[1..] == []; }
    assert NodeWeight(k, n, v, node) == ScanWeight(k, n, v, 0);
    assert NodeWeight(k, n, v, s.nodes[m.to]) == 0;
    ChallengeUnfold(k, n, v);
    assert MessageWeight(k, c, m) == ChallengeWeight(k, n, v);
    WeightOfDelivery(k, c, s, i, node, replies);
    assert Next(c, s, Deliver(i)) == State(s.nodes[m.to := node], Without(s.net, i) + replies);
  }

  lemma PayNotice(k: Prices, c: Config, s: State, i: nat)
    requires ValidConfig(c) && Inv(c, s) && Enabled(c, s, Deliver(i)) && s.net[i].kind != Election
    ensures Price(k, c, s, Deliver(i)) + Weight(k, c, Next(c, s, Deliver(i))) <= Weight(k, c, s)
  {
    var m := s.net[i];
    var (node, replies) := Handle(c, s.nodes[m.to], m);
    assert m in s.net && MessageOk(c, s, m);
    LiveIsListed(c, m.to);
    assert NetWeight(k, c, replies) == 0;
    assert NodeWeight(k, |c.peers|, ScanIndex(c.peers, m.to), node)
        == NodeWeight(k, |c.peers|, ScanIndex(c.peers, m.to), s.nodes[m.to]);
    WeightOfDelivery(k, c, s, i, node, replies);
  }

  lemma PayStart(k: Prices, c: Config, s: State, p: Peer)
    requires ValidConfig(c) && Inv(c, s) && Enabled(c, s, Start(p))
    ensures Price(k, c, s, Start(p)) + Weight(k, c, Next(c, s, Start(p))) <= Weight(k, c, s)
  {
    LiveIsListed(c, p);
    assert s.net + [] == s.net;
    var v, n := ScanIndex(c.peers, p), |c.peers|;
    var node := s.nodes[p].(started := true, phase := Scanning(0));
    assert NodeWeight(k, n, v, node) == ScanWeight(k, n, v, 0);
    assert NodeWeight(k, n, v, s.nodes[p]) == k.step + k.run(v) + ScanWeight(k, n, v, 0);
    WeightOfUpdate(k, c, s, p, node, []);
  }

  lemma ChallengeUnfold(k: Prices, n: nat, j: nat)
    requires j < n
    ensures ChallengeWeight(k, n, j) == 2 * k.step + k.run(j) + ScanWeight(k, n, j, 0)
  {
    assert ElectionWeight(k, n, j) == k.run(j) + ScanWeight(k, n, j, 0);
  }

  lemma WaitingCoversStep(k: Prices, n: nat)
    requires n > 0
    ensures WaitingWeight(k, n) >= k.step
  {
  }

  lemma PayBowOut(k: Prices, c: Config, s: State, p: Peer)
    requires ValidConfig(c) && Inv(c, s) && Enabled(c, s, BowOut(p))
    ensures Price(k, c, s, BowOut(p)) + Weight(k, c, Next(c, s, BowOut(p))) <= Weight(k, c, s)
  {
    LiveIsListed(c, p);
    assert s.net + [] == s.net;
    var node := s.nodes[p].(phase := Idle, alivePending := false);
    WaitingCoversStep(k, |c.peers|);
    assert Price(k, c, s, BowOut(p)) == k.step;
    assert NodeWeight(k, |c.peers|, ScanIndex(c.peers, p), node) == 0;
    WeightOfUpdate(k, c, s, p, node, []);
    assert Next(c, s, BowOut(p)) == State(s.nodes[p := node], s.net);
  }

  lemma PayLose(k: Prices, c: Config, s: State, i: nat)
    requires ValidConfig(c) && Inv(c, s) && Enabled(c, s, Lose(i))
    ensures Price(k, c, s, Lose(i)) + Weight(k, c, Next(c, s, Lose(i))) <= Weight(k, c, s)
  {
    NetWeightWithout(k, c, s.net, i);
  }

  lemma PayStep(k: Prices, c: Config, s: State, a: Action)
    requires ValidConfig(c) && Inv(c, s) && Enabled(c, s, a)
    ensures Price(k, c, s, a) + Weight(k, c, Next(c, s, a)) <= Weight(k, c, s)
  {
    match a {
      case Scan(p) => PayScan(k, c, s, p);
      case Timeout(p) => PayTimeout(k, c, s, p);
      case Announce(p, to) => PayAnnounce(k, c, s, p, to);
      case Deliver(i) =>
        if s.net[i].kind == Election { PayChallenge(k, c, s, i); } else { PayNotice(k, c, s, i); }
      case Lose(i) => PayLose(k, c, s, i);
      case Start(p) => PayStart(k, c, s, p);
      case BowOut(p) => PayBowOut(k, c, s, p);
    }
  }

  /** Conservation: what a run has spent and what its last state still weighs never exceed the initial weight. */
  lemma {:induction false} PayRun(k: Prices, c: Config, s: State, acts: seq<Action>, t: State)
    requires ValidConfig(c) && Inv(c, s) && Run(c, s, acts, t)
    ensures Total(k, c, s, acts) + Weight(k, c, t) <= Weight(k, c, s)
    decreases |acts|
  {
    if acts != [] {
      InvStep(c, s, acts[0]);
      PayStep(k, c, s, acts[0]);
      PayRun(k, c, Next(c, s, acts[0]), acts[1..], t);
    }
  }

  // ---------- closed forms ----------

  function Pow2(n: nat): (r: nat)
    ensures r >= 1
  {
    if n == 0 then 1 else 2 * Pow2(n - 1)
  }

  function PriceOfRun(): Prices {
    Prices((r: nat) => 1, 0, 0)
  }

  function PriceOfRunAt(rank: nat): Prices {
    Prices((r: nat) => if r == rank then 1 else 0, 0, 0)
  }

  function PriceOfElectionMessage(): Prices {
    Prices((r: nat) => 0, 1, 0)
  }

  function PriceOfStep(): Prices {
    Prices((r: nat) => 0, 0, 1)
  }

  /** Number of elections begun at a given rank, elections begun, Election messages sent and steps taken. */
  ghost function RunsAt(c: Config, acts: seq<Action>, rank: nat): nat {
    Total(PriceOfRunAt(rank), c, Init(c), acts)
  }

  ghost function Runs(c: Config, acts: seq<Action>): nat {
    Total(PriceOfRun(), c, Init(c), acts)
  }

  ghost function ElectionMessages(c: Config, acts: seq<Action>): nat {
    Total(PriceOfElectionMessage(), c, Init(c), acts)
  }

  /** The steps of a run are its length. */
  lemma {:induction false} StepsCounted(c: Config, s: State, acts: seq<Action>, t: State)
    requires Run(c, s, acts, t)
    ensures Total(PriceOfStep(), c, s, acts) == |acts|
    decreases |acts|
  {
    if acts != [] {
      StepsCounted(c, Next(c, s, acts[0]), acts[1..], t);
    }
  }

  /** What the nodes at the first `upTo` positions weigh before they start. */
  function FreshWeight(k: Prices, n: nat, upTo: nat): nat
    requires upTo <= n
  {
    if upTo == 0 then 0 else FreshWeight(k, n, upTo - 1) + k.step + ElectionWeight(k, n, upTo - 1)
  }

  lemma {:induction false} InitialNodesWeight(k: Prices, c: Config, upTo: nat)
    requires upTo <= |c.peers|
    ensures NodesWeight(k, c, Init(c).nodes, upTo) <= FreshWeight(k, |c.peers|, upTo)
  {
    if upTo != 0 {
      InitialNodesWeight(k, c, upTo - 1);
    }
  }

  lemma SpentFromInit(k: Prices, c: Config, acts: seq<Action>, t: State)
    requires ValidConfig(c) && Run(c, Init(c), acts, t)
    ensures Total(k, c, Init(c), acts) <= FreshWeight(k, |c.peers|, |c.peers|)
  {
    InvInit(c);
    PayRun(k, c, Init(c), acts, t);
    InitialNodesWeight(k, c, |c.peers|);
  }

  lemma ScanUnfold(k: Prices, n: nat, v: nat, j: nat)
    requires v < n && j < n
    ensures ScanWeight(k, n, v, j) == k.step + ScanWeight(k, n, v, j + 1)
              + if j < v then 2 * k.step + k.send + k.run(j) + ScanWeight(k, n, j, 0) else 0
  {
    ChallengeUnfold(k, n, j);
  }

  lemma {:induction false} RunWeight(n: nat, v: nat, j: nat)
    requires v < n && j <= n
    ensures ScanWeight(PriceOfRun(), n, v, j) == if j <= v then Pow2(v) - Pow2(j) else 0
    decreases v, n - j
  {
    if j < n {
      ScanUnfold(PriceOfRun(), n, v, j);
      RunWeight(n, v, j + 1);
      if j < v { RunWeight(n, j, 0); }
    }
  }

  lemma {:induction false} MessagesWeight(n: nat, v: nat, j: nat)
    requires v < n && j <= n
    ensures ScanWeight(PriceOfElectionMessage(), n, v, j) == if j <= v then Pow2(v) - Pow2(j) else 0
    decreases v, n - j
  {
    if j < n {
      ScanUnfold(PriceOfElectionMessage(), n, v, j);
      MessagesWeight(n, v, j + 1);
      if j < v { MessagesWeight(n, j, 0); }
    }
  }

  /** Elections at rank r still ahead of a challenge loop at rank v that has reached position j. */
  function AheadAt(r: nat, v: nat, j: nat): nat {
    if v <= r || j > v then 0
    else if j <= r then Pow2(v - r - 1)
    else if Pow2(v - r - 1) >= Pow2(j - r - 1) then Pow2(v - r - 1) - Pow2(j - r - 1) else 0
  }

  lemma {:induction false} Pow2Grows(a: nat, b: nat)
    requires a <= b
    ensures Pow2(a) <= Pow2(b)
    decreases b
  {
    if a < b { Pow2Grows(a, b - 1); }
  }

  lemma {:induction false} RunAtWeight(r: nat, n: nat, v: nat, j: nat)
    requires v < n && j <= n
    ensures ScanWeight(PriceOfRunAt(r), n, v, j) == AheadAt(r, v, j)
    decreases v, n - j
  {
    if j < n {
      ScanUnfold(PriceOfRunAt(r), n, v, j);
      RunAtWeight(r, n, v, j + 1);
      if j < v {
        RunAtWeight(r, n, j, 0);
        if j > r {
          Pow2Grows(j - r - 1, v - r - 1);
          Pow2Grows(j - r, v - r - 1);
        }
      }
    }
  }

  lemma Distribute(a: int, x: int, y: int)
    ensures a * (x + y) == a * x + a * y
    ensures a * (x - y) == a * x - a * y
  {
  }

  /** The part of a step-priced election that its challenges cause. */
  function Caused(n: nat, v: nat, j: nat): int {
    if j <= v then (3 * n + 1) * (Pow2(v) - Pow2(j)) else 0
  }

  lemma CausedUnfold(n: nat, v: nat, j: nat)
    requires j < v
    ensures Caused(n, v, j) == Caused(n, v, j + 1) + Caused(n, j, 0) + (3 * n + 1)
  {
    Distribute(3 * n + 1, Pow2(v) - Pow2(j + 1), Pow2(j));
    Distribute(3 * n + 1, Pow2(j), 1);
  }

  lemma {:induction false} StepWeight(n: nat, v: nat, j: nat)
    requires v < n && j <= n
    ensures ScanWeight(PriceOfStep(), n, v, j) == (n - j) + (2 * n - 1) + Caused(n, v, j)
    decreases v, n - j
  {
    if j < n {
      ScanUnfold(PriceOfStep(), n, v, j);
      StepWeight(n, v, j + 1);
      if j < v {
        StepWeight(n, j, 0);
        CausedUnfold(n, v, j);
      } else {
        assert Caused(n, v, j) == 0 == Caused(n, v, j + 1);
      }
    } else {
      assert Caused(n, v, j) == 0;
    }
  }

  lemma {:induction false} FreshSteps(n: nat, upTo: nat)
    requires upTo <= n
    ensures FreshWeight(PriceOfStep(), n, upTo) == (3 * n + 1) * (Pow2(upTo) - 1) - upTo
  {
    if upTo != 0 {
      FreshSteps(n, upTo - 1);
      StepWeight(n, upTo - 1, 0);
      assert ElectionWeight(PriceOfStep(), n, upTo - 1) == ScanWeight(PriceOfStep(), n, upTo - 1, 0);
      var x := Pow2(upTo - 1) - 1;
      Distribute(3 * n + 1, x, x + 1);
      Distribute(3 * n + 1, x, 1);
    }
  }

  lemma {:induction false} FreshRuns(n: nat, upTo: nat)
    requires upTo <= n
    ensures FreshWeight(PriceOfRun(), n, upTo) == Pow2(upTo) - 1
    ensures FreshWeight(PriceOfElectionMessage(), n, upTo) == Pow2(upTo) - upTo - 1
  {
    if upTo != 0 {
      FreshRuns(n, upTo - 1);
      RunWeight(n, upTo - 1, 0);
      MessagesWeight(n, upTo - 1, 0);
    }
  }

  lemma {:induction false} FreshRunsAt(r: nat, n: nat, upTo: nat)
    requires upTo <= n
    ensures FreshWeight(PriceOfRunAt(r), n, upTo) == if upTo <= r then 0 else Pow2(upTo - 1 - r)
  {
    if upTo != 0 {
      FreshRunsAt(r, n, upTo - 1);
      RunAtWeight(r, n, upTo - 1, 0);
    }
  }

  // ---------- what is counted ----------

  /** The step makes the peer at rank r begin an election: its challenge loop is at the first position now. */
  ghost predicate EntersElection(c: Config, s: State, t: State, r: int) {
    && 0 <= r < |c.peers| && c.peers[r] in s.nodes && c.peers[r] in t.nodes
    && t.nodes[c.peers[r]].phase == Scanning(0) && s.nodes[c.peers[r]].phase != Scanning(0)
  }

  /** The step puts an Election message on the net. */
  ghost predicate SendsElection(s: State, t: State) {
    |t.net| == |s.net| + 1 && t.net[..|s.net|] == s.net && t.net[|s.net|].kind == Election
  }

  lemma RankOf(c: Config, p: Peer, r: int)
    requires ValidConfig(c) && p in c.live
    ensures 0 <= r < |c.peers| && c.peers[r] == p <==> r == ScanIndex(c.peers, p)
  {
    LiveIsListed(c, p);
    if 0 <= r < |c.peers| && c.peers[r] == p { PositionOf(c.peers, r); }
  }

  /** A step that changes one node only makes that one enter an election, if any. */
  lemma OneNodeEnters(c: Config, s: State, t: State, p: Peer, node: Node, r: int)
    requires ValidConfig(c) && p in c.live && p in s.nodes && t.nodes == s.nodes[p := node]
    ensures EntersElection(c, s, t, r) <==>
            r == ScanIndex(c.peers, p) && node.phase == Scanning(0) && s.nodes[p].phase != Scanning(0)
  {
    RankOf(c, p, r);
  }

  lemma BeginsAtIsEntering(c: Config, s: State, a: Action, r: nat)
    requires ValidConfig(c) && Inv(c, s) && Enabled(c, s, a)
    ensures BeginsAt(c, s, a) == r <==> EntersElection(c, s, Next(c, s, a), r)
  {
    var t := Next(c, s, a);
    match a {
      case Deliver(i) => OneNodeEnters(c, s, t, s.net[i].to, t.nodes[s.net[i].to], r);
      case Lose(i) =>
      case Start(p) =>
        assert NodeOk(c, p, s.nodes[p]);
        OneNodeEnters(c, s, t, p, t.nodes[p], r);
      case _ => OneNodeEnters(c, s, t, a.p, t.nodes[a.p], r);
    }
  }

  lemma ChallengesIsSending(c: Config, s: State, a: Action)
    requires Enabled(c, s, a)
    ensures Challenges(c, s, a) <==> SendsElection(s, Next(c, s, a))
  {
  }

  lemma {:induction false} TotalSnoc(k: Prices, c: Config, s: State, acts: seq<Action>, t: State, a: Action)
    requires Run(c, s, acts, t)
    ensures Total(k, c, s, acts + [a]) == Total(k, c, s, acts) + Price(k, c, t, a)
    decreases |acts|
  {
    if acts == [] {
      assert [a][1..] == [];
      assert acts + [a] == [a];
    } else {
      assert (acts + [a])[1..] == acts[1..] + [a];
      TotalSnoc(k, c, Next(c, s, acts[0]), acts[1..], t, a);
    }
  }

  /** What the bounds below are about: one more step counts as an election at rank r exactly when it makes the peer
      there begin one, and as an Election message exactly when it sends one. */
  lemma CountsFollowTheRun(c: Config, acts: seq<Action>, t: State, a: Action, r: nat)
    requires ValidConfig(c) && Run(c, Init(c), acts, t) && Enabled(c, t, a)
    ensures RunsAt(c, acts + [a], r) == RunsAt(c, acts, r) + if EntersElection(c, t, Next(c, t, a), r) then 1 else 0
    ensures Runs(c, acts + [a])
         == Runs(c, acts) + if exists q :: EntersElection(c, t, Next(c, t, a), q) then 1 else 0
    ensures ElectionMessages(c, acts + [a])
         == ElectionMessages(c, acts) + if SendsElection(t, Next(c, t, a)) then 1 else 0
    ensures RunsAt(c, [], r) == 0 && Runs(c, []) == 0 && ElectionMessages(c, []) == 0
  {
    InvInit(c);
    InvRun(c, Init(c), acts, t);
    TotalSnoc(PriceOfRunAt(r), c, Init(c), acts, t, a);
    TotalSnoc(PriceOfRun(), c, Init(c), acts, t, a);
    TotalSnoc(PriceOfElectionMessage(), c, Init(c), acts, t, a);
    BeginsAtIsEntering(c, t, a, r);
    ChallengesIsSending(c, t, a);
    if BeginsAt(c, t, a) >= 0 {
      BeginsAtIsEntering(c, t, a, BeginsAt(c, t, a));
    }
    if q :| EntersElection(c, t, Next(c, t, a), q) {
      BeginsAtIsEntering(c, t, a, q);
    }
  }

  // ---------- the bounds ----------

  /** The election storm is bounded: with n peers, the one at rank r (0 is the highest) runs at most
      2^(n-1-r) elections, all of them together at most 2^n - 1, sending at most 2^n - n - 1 Election
      messages. */
  lemma StormBound(c: Config, acts: seq<Action>, t: State, r: nat)
    requires ValidConfig(c) && Run(c, Init(c), acts, t) && r < |c.peers|
    ensures RunsAt(c, acts, r) <= Pow2(|c.peers| - 1 - r)
    ensures Runs(c, acts) <= Pow2(|c.peers|) - 1
    ensures ElectionMessages(c, acts) <= Pow2(|c.peers|) - |c.peers| - 1
  {
    SpentFromInit(PriceOfRunAt(r), c, acts, t);
    SpentFromInit(PriceOfRun(), c, acts, t);
    SpentFromInit(PriceOfElectionMessage(), c, acts, t);
    FreshRuns(|c.peers|, |c.peers|);
    FreshRunsAt(r, |c.peers|, |c.peers|);
  }

  /** Every step, of whatever kind, takes something away from the weight. */
  lemma WeightFalls(c: Config, s: State, a: Action)
    requires ValidConfig(c) && Reachable(c, s) && Enabled(c, s, a)
    ensures Weight(PriceOfStep(), c, Next(c, s, a)) < Weight(PriceOfStep(), c, s)
  {
    ReachableInv(c, s);
    PayStep(PriceOfStep(), c, s, a);
  }

  /** So an election always comes to rest, and no run of n peers is longer than (3n+1)(2^n - 1) - n steps. */
  lemma EveryElectionTerminates(c: Config, acts: seq<Action>, t: State)
    requires ValidConfig(c) && Run(c, Init(c), acts, t)
    ensures |acts| <= (3 * |c.peers| + 1) * (Pow2(|c.peers|) - 1) - |c.peers|
  {
    StepsCounted(c, Init(c), acts, t);
    SpentFromInit(PriceOfStep(), c, acts, t);
    FreshSteps(|c.peers|, |c.peers|);
  }
}
