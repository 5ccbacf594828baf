/**
 The first round of a signing session across all nodes. Messages once sent may be delivered late, several
 times, in any order or never, so the network is the set of everything sent so far.
 */
module Round {
  import Transitions
  import opened Options
  import opened Sorting
  import opened Ranking
  import opened Signing
  import C = Coordinator

  datatype RoundMessage =
    | Initiate(from: Peer, to: Peer)
    | Ready(from: Peer, to: Peer)
    | Start(from: Peer, to: Peer, subset: seq<Peer>)

  datatype Stage =
    | NotBegun
    | Collecting(ready: seq<Peer>)
    | Waiting
    | InRun(subset: seq<Peer>)
    | GaveUp

  /** Each node holds its own copy of the key's peer list, in its own order, and its own peerstore. */
  datatype Setup = Setup(
    hash: Hash, sessionID: string, threshold: int,
    nodes: set<Peer>, keyPeers: map<Peer, seq<Peer>>, peerstore: map<Peer, set<Peer>>)

  datatype State = State(stage: map<Peer, Stage>, sent: set<RoundMessage>)

  datatype Action =
    | Begin(v: Peer)
    | Tick(v: Peer)
    | HearInitiate(v: Peer, from: Peer)
    | HearReady(v: Peer, from: Peer)
    | HearStart(v: Peer, from: Peer, subset: seq<Peer>)
    | GiveUp(v: Peer)

  /** All nodes hold the same key peers, as lists in any order, and no two of them collide in the session. */
  ghost predicate ValidSetup(c: Setup, key: seq<Peer>) {
    && c.keyPeers.Keys == c.nodes && c.peerstore.Keys == c.nodes && "" !in c.nodes
    && (forall v | v in c.nodes :: Permutation(key, c.keyPeers[v]))
    && DistinctRanks(c.hash, c.sessionID, c.nodes + Elements(key))
  }

  function Init(c: Setup): State {
    State(map v | v in c.nodes :: NotBegun, {})
  }

  function LeaderAt(c: Setup, v: Peer): Peer
    requires v in c.keyPeers
  {
    StaticCoordinator(c.hash, c.sessionID, c.keyPeers[v])
  }

  function Initiates(c: Setup, v: Peer): set<RoundMessage>
    requires v in c.peerstore
  {
    set to | to in c.peerstore[v] && to != v :: Initiate(v, to)
  }

  function Starts(c: Setup, v: Peer, subset: seq<Peer>): set<RoundMessage>
    requires v in c.peerstore
  {
    set to | to in c.peerstore[v] && to != v :: Start(v, to, subset)
  }

  predicate Known(c: Setup, s: State, v: Peer) {
    v in c.nodes && v in s.stage && v in c.keyPeers && v in c.peerstore
  }

  predicate Enabled(c: Setup, s: State, a: Action) {
    && Known(c, s, a.v)
    && match a
       case Begin(v) => s.stage[v] == NotBegun
       case Tick(v) => s.stage[v].Collecting?
       case HearInitiate(v, from) => s.stage[v] == Waiting && Initiate(from, v) in s.sent
       case HearReady(v, from) => s.stage[v].Collecting? && Ready(from, v) in s.sent
       case HearStart(v, from, subset) => s.stage[v] == Waiting && Start(from, v, subset) in s.sent
       case GiveUp(v) => s.stage[v] == Waiting || s.stage[v].Collecting?
  }

  /** Whether the ready message of `from` makes the readiness test of a collecting node succeed. */
  predicate Starting(c: Setup, s: State, v: Peer, from: Peer)
    requires Known(c, s, v) && s.stage[v].Collecting?
  {
    C.Ready(C.SigningProcess(c.keyPeers[v], c.threshold), C.AddReady([], s.stage[v].ready, from), []) == C.Answer(true)
  }

  function Next(c: Setup, s: State, a: Action): State
    requires Enabled(c, s, a)
  {
    match a
    case Begin(v) =>
      if LeaderAt(c, v) == v then State(s.stage[v := Collecting([v])], s.sent + Initiates(c, v))
      else s.(stage := s.stage[v := Waiting])
    case Tick(v) => s.(sent := s.sent + Initiates(c, v))
    case HearInitiate(v, from) =>
      if C.Answers(LeaderAt(c, v), C.Initiated(from)) then s.(sent := s.sent + {Ready(v, from)}) else s
    case HearReady(v, from) =>
      var ready := C.AddReady([], s.stage[v].ready, from);
      if Starting(c, s, v, from) then
        var subset := Committee(c.hash, c.sessionID, c.keyPeers[v], c.threshold, ready);
        State(s.stage[v := InRun(subset)], s.sent + Starts(c, v, subset))
      else s.(stage := s.stage[v := Collecting(ready)])
    case HearStart(v, from, subset) =>
      if C.Ends(LeaderAt(c, v), C.Started(from, true, subset)) == C.Entering(from, subset)
      then s.(stage := s.stage[v := InRun(subset)]) else s
    case GiveUp(v) => s.(stage := s.stage[v := GaveUp])
  }

  function Step(c: Setup): (State, Action) -> Option<State> {
    (s, a) => if Enabled(c, s, a) then Some(Next(c, s, a)) else None
  }

  ghost predicate Run(c: Setup, s: State, acts: seq<Action>, t: State) {
    Transitions.Run(Step(c), s, acts, t)
  }

  ghost predicate Reachable(c: Setup, s: State) {
    Transitions.Reachable(Step(c), Init(c), s)
  }

  // ---------- the invariant ----------

  /** A committee the coordinator may announce: exactly threshold + 1 distinct key holders, itself among them,
      and every other member has sent it a ready message. */
  ghost predicate GoodCommittee(c: Setup, key: seq<Peer>, s: State, leader: Peer, subset: seq<Peer>) {
    && |subset| == c.threshold + 1
    && Distinct(subset)
    && leader in subset
    && (forall p | p in subset :: p in key)
    && (forall p | p in subset && p != leader :: Ready(p, leader) in s.sent)
  }

  ghost predicate NodeOk(c: Setup, key: seq<Peer>, s: State, leader: Peer, v: Peer)
    requires v in s.stage
  {
    match s.stage[v]
    case NotBegun => true
    case GaveUp => true
    case Waiting => v != leader
    case Collecting(ready) =>
      && v == leader && Distinct(ready) && ready != [] && ready[0] == v
      && (forall p | p in ready && p != v :: p in c.nodes && Ready(p, v) in s.sent)
    case InRun(subset) =>
      if v == leader then GoodCommittee(c, key, s, leader, subset)
      else leader in s.stage && s.stage[leader] == InRun(subset)
  }

  ghost predicate MessageOk(c: Setup, s: State, leader: Peer, m: RoundMessage) {
    && (m.Start? ==> m.from == leader && leader in s.stage && s.stage[leader] == InRun(m.subset))
    && (m.Initiate? ==> m.from == leader)
    && (m.Ready? ==> m.from in c.nodes)
  }

  ghost predicate Inv(c: Setup, key: seq<Peer>, s: State) {
    var leader := StaticCoordinator(c.hash, c.sessionID, key);
    && s.stage.Keys == c.nodes
    && (forall v | v in c.nodes :: NodeOk(c, key, s, leader, v))
    && (forall m | m in s.sent :: MessageOk(c, s, leader, m))
  }

  /** Every node computes the same static coordinator, and it holds a share. */
  lemma OneLeader(c: Setup, key: seq<Peer>, v: Peer)
    requires ValidSetup(c, key) && v in c.nodes
    ensures LeaderAt(c, v) == StaticCoordinator(c.hash, c.sessionID, key)
    ensures LeaderAt(c, v) != "" ==> LeaderAt(c, v) in key
    ensures LeaderAt(c, v) == "" ==> key == [] || "" in key
  {
    RankingIndependent(c.hash, c.sessionID, key, c.keyPeers[v]);
    SessionOrderPermutes(c.hash, c.sessionID, key);
    PermutationElements(SessionOrder(c.hash, c.sessionID, key), key);
  }

  lemma OneMoreReady(ready: seq<Peer>, from: Peer)
    requires Distinct(ready)
    ensures Distinct(C.AddReady([], ready, from)) && ready <= C.AddReady([], ready, from)
    ensures forall p | p in C.AddReady([], ready, from) :: p in ready || p == from
  {
  }

  /** A collecting node is the leader, and has heard from everyone it lists. */
  lemma CollectingNode(c: Setup, key: seq<Peer>, s: State, v: Peer)
    requires ValidSetup(c, key) && Inv(c, key, s) && Known(c, s, v) && s.stage[v].Collecting?
    ensures v == StaticCoordinator(c.hash, c.sessionID, key) && v in c.keyPeers[v]
    ensures var ready := s.stage[v].ready;
            && Distinct(ready) && ready != [] && ready[0] == v
            && forall p | p in ready && p != v :: p in c.nodes && Ready(p, v) in s.sent
  {
    OneLeader(c, key, v);
    assert NodeOk(c, key, s, StaticCoordinator(c.hash, c.sessionID, key), v);
    PermutationElements(key, c.keyPeers[v]);
  }

  /** What a collecting node holds after one more ready message. */
  lemma CollectedShape(c: Setup, key: seq<Peer>, s: State, v: Peer, from: Peer)
    requires ValidSetup(c, key) && Inv(c, key, s) && Enabled(c, s, HearReady(v, from))
    ensures var ready := C.AddReady([], s.stage[v].ready, from);
            && Distinct(ready) && v in ready && Elements(ready) <= c.nodes
            && v == StaticCoordinator(c.hash, c.sessionID, key) && v in c.keyPeers[v]
            && forall p | p in ready && p != v :: Ready(p, v) in s.sent
  {
    CollectingNode(c, key, s, v);
    OneMoreReady(s.stage[v].ready, from);
    assert MessageOk(c, s, v, Ready(from, v));
    assert v == s.stage[v].ready[0];
  }

  lemma CollectedStartIsGood(c: Setup, key: seq<Peer>, s: State, v: Peer, from: Peer)
    requires ValidSetup(c, key) && Inv(c, key, s) && Enabled(c, s, HearReady(v, from))
    requires Starting(c, s, v, from)
    ensures var ready := C.AddReady([], s.stage[v].ready, from);
            GoodCommittee(c, key, s, v, Committee(c.hash, c.sessionID, c.keyPeers[v], c.threshold, ready))
  {
    var ready := C.AddReady([], s.stage[v].ready, from);
    var subset := Committee(c.hash, c.sessionID, c.keyPeers[v], c.threshold, ready);
    var holders := Holders(c.keyPeers[v], ready);
    CollectedShape(c, key, s, v, from);
    StartTakesEveryReadyHolder(c.hash, c.sessionID, c.keyPeers[v], c.threshold, ready, v);
    HoldersAreReady(c.keyPeers[v], ready);
    PermutationElements(subset, holders);
    PermutationDistinct(holders, subset);
    PermutationElements(key, c.keyPeers[v]);
    forall p | p in subset ensures p in key && (p != v ==> Ready(p, v) in s.sent) {
      assert p in Elements(holders);
    }
  }

  /** Moving one node that is not in Run, and sending more, keeps the invariant when the node and the new
      messages are in order. */
  lemma InvOneNode(c: Setup, key: seq<Peer>, s: State, v: Peer, stage: Stage, more: set<RoundMessage>)
    requires Inv(c, key, s) && v in c.nodes && !s.stage[v].InRun? && !stage.InRun?
    requires var t := State(s.stage[v := stage], s.sent + more);
             NodeOk(c, key, t, StaticCoordinator(c.hash, c.sessionID, key), v)
    requires var t := State(s.stage[v := stage], s.sent + more);
             forall m | m in more :: MessageOk(c, t, StaticCoordinator(c.hash, c.sessionID, key), m)
    ensures Inv(c, key, State(s.stage[v := stage], s.sent + more))
  {
    var t := State(s.stage[v := stage], s.sent + more);
    var leader := StaticCoordinator(c.hash, c.sessionID, key);
    forall u | u in c.nodes ensures NodeOk(c, key, t, leader, u) {
      assert NodeOk(c, key, s, leader, u);
    }
    forall m | m in t.sent ensures MessageOk(c, t, leader, m) {
      assert m in s.sent ==> MessageOk(c, s, leader, m);
    }
  }

  /** The leader enters Run: nobody else has entered before, since that would take a start message. */
  lemma InvLeaderEnters(c: Setup, key: seq<Peer>, s: State, v: Peer, from: Peer)
    requires ValidSetup(c, key) && Inv(c, key, s) && Enabled(c, s, HearReady(v, from))
    requires Starting(c, s, v, from)
    ensures Inv(c, key, Next(c, s, HearReady(v, from)))
  {
    var t := Next(c, s, HearReady(v, from));
    var leader := StaticCoordinator(c.hash, c.sessionID, key);
    CollectedStartIsGood(c, key, s, v, from);
    assert NodeOk(c, key, s, leader, v);
    forall u | u in c.nodes ensures NodeOk(c, key, t, leader, u) {
      assert NodeOk(c, key, s, leader, u);
    }
    forall m | m in t.sent ensures MessageOk(c, t, leader, m) {
      assert m in s.sent ==> MessageOk(c, s, leader, m);
    }
  }

  lemma InvHearReady(c: Setup, key: seq<Peer>, s: State, v: Peer, from: Peer)
    requires ValidSetup(c, key) && Inv(c, key, s) && Enabled(c, s, HearReady(v, from))
    ensures Inv(c, key, Next(c, s, HearReady(v, from)))
  {
    if Starting(c, s, v, from) {
      InvLeaderEnters(c, key, s, v, from);
    } else {
      var leader := StaticCoordinator(c.hash, c.sessionID, key);
      assert NodeOk(c, key, s, leader, v);
      assert MessageOk(c, s, leader, Ready(from, v));
      assert s.sent + {} == s.sent;
      InvOneNode(c, key, s, v, Collecting(C.AddReady([], s.stage[v].ready, from)), {});
    }
  }

  lemma InvBegin(c: Setup, key: seq<Peer>, s: State, v: Peer)
    requires ValidSetup(c, key) && Inv(c, key, s) && Enabled(c, s, Begin(v))
    ensures Inv(c, key, Next(c, s, Begin(v)))
  {
    OneLeader(c, key, v);
    assert s.sent + {} == s.sent;
    if LeaderAt(c, v) == v {
      InvOneNode(c, key, s, v, Collecting([v]), Initiates(c, v));
    } else {
      InvOneNode(c, key, s, v, Waiting, {});
    }
  }

  lemma InvTick(c: Setup, key: seq<Peer>, s: State, v: Peer)
    requires ValidSetup(c, key) && Inv(c, key, s) && Enabled(c, s, Tick(v))
    ensures Inv(c, key, Next(c, s, Tick(v)))
  {
    assert NodeOk(c, key, s, StaticCoordinator(c.hash, c.sessionID, key), v);
    assert s.stage[v := s.stage[v]] == s.stage;
    InvOneNode(c, key, s, v, s.stage[v], Initiates(c, v));
  }

  lemma InvHearInitiate(c: Setup, key: seq<Peer>, s: State, v: Peer, from: Peer)
    requires ValidSetup(c, key) && Inv(c, key, s) && Enabled(c, s, HearInitiate(v, from))
    ensures Inv(c, key, Next(c, s, HearInitiate(v, from)))
  {
    assert NodeOk(c, key, s, StaticCoordinator(c.hash, c.sessionID, key), v);
    assert s.stage[v := s.stage[v]] == s.stage;
    InvOneNode(c, key, s, v, s.stage[v], {Ready(v, from)});
  }

  lemma InvGiveUp(c: Setup, key: seq<Peer>, s: State, v: Peer)
    requires ValidSetup(c, key) && Inv(c, key, s) && Enabled(c, s, GiveUp(v))
    ensures Inv(c, key, Next(c, s, GiveUp(v)))
  {
    assert s.sent + {} == s.sent;
    InvOneNode(c, key, s, v, GaveUp, {});
  }

  lemma InvHearStart(c: Setup, key: seq<Peer>, s: State, v: Peer, from: Peer, subset: seq<Peer>)
    requires ValidSetup(c, key) && Inv(c, key, s) && Enabled(c, s, HearStart(v, from, subset))
    ensures Inv(c, key, Next(c, s, HearStart(v, from, subset)))
  {
    var t := Next(c, s, HearStart(v, from, subset));
    var leader := StaticCoordinator(c.hash, c.sessionID, key);
    assert NodeOk(c, key, s, leader, v);
    assert MessageOk(c, s, leader, Start(from, v, subset));
    forall u | u in c.nodes ensures NodeOk(c, key, t, leader, u) {
      assert NodeOk(c, key, s, leader, u);
    }
    forall m | m in t.sent ensures MessageOk(c, t, leader, m) {
      assert MessageOk(c, s, leader, m);
    }
  }

  lemma InvStep(c: Setup, key: seq<Peer>, s: State, a: Action)
    requires ValidSetup(c, key) && Inv(c, key, s) && Enabled(c, s, a)
    ensures Inv(c, key, Next(c, s, a))
  {
    match a {
      case HearReady(v, from) => InvHearReady(c, key, s, v, from);
      case HearStart(v, from, subset) => InvHearStart(c, key, s, v, from, subset);
      case Begin(v) => InvBegin(c, key, s, v);
      case Tick(v) => InvTick(c, key, s, v);
      case HearInitiate(v, from) => InvHearInitiate(c, key, s, v, from);
      case GiveUp(v) => InvGiveUp(c, key, s, v);
    }
  }

  lemma {:induction false} InvRun(c: Setup, key: seq<Peer>, s: State, acts: seq<Action>, t: State)
    requires ValidSetup(c, key) && Inv(c, key, s) && Run(c, s, acts, t)
    ensures Inv(c, key, t)
    decreases |acts|
  {
    if acts != [] {
      InvStep(c, key, s, acts[0]);
      InvRun(c, key, Next(c, s, acts[0]), acts[1..], t);
    }
  }

  lemma ReachableInv(c: Setup, key: seq<Peer>, s: State)
    requires ValidSetup(c, key) && Reachable(c, s)
    ensures Inv(c, key, s)
  {
    var acts :| Transitions.Run(Step(c), Init(c), acts, s);
    InvRun(c, key, Init(c), acts, s);
  }

  // ---------- who is heard ----------

  /** On beginning and on every tick the collecting node has an initiate message out to every peer it knows. */
  lemma EveryoneIsInvited(c: Setup, s: State, a: Action)
    requires Enabled(c, s, a) && (a.Begin? || a.Tick?)
    requires a.Begin? ==> LeaderAt(c, a.v) == a.v
    ensures forall to | to in c.peerstore[a.v] && to != a.v :: Initiate(a.v, to) in Next(c, s, a).sent
  {
    forall to | to in c.peerstore[a.v] && to != a.v ensures Initiate(a.v, to) in Next(c, s, a).sent {
      assert Initiate(a.v, to) in Initiates(c, a.v);
    }
  }

  /** A waiting node answers and follows its coordinator only: what strangers send it changes nothing. */
  lemma StrangersAreIgnored(c: Setup, s: State, a: Action)
    requires Enabled(c, s, a) && (a.HearInitiate? || a.HearStart?)
    requires LeaderAt(c, a.v) != "" && a.from != LeaderAt(c, a.v)
    ensures Next(c, s, a) == s
  {
  }

  lemma {:induction false} FinalStage(c: Setup, s: State, v: Peer, acts: seq<Action>, t: State)
    requires Run(c, s, acts, t) && v in s.stage && (s.stage[v] == GaveUp || s.stage[v].InRun?)
    ensures v in t.stage && t.stage[v] == s.stage[v]
    decreases |acts|
  {
    if acts != [] {
      FinalStage(c, Next(c, s, acts[0]), v, acts[1..], t);
    }
  }

  /** A node whose timer fires or whose context ends while it waits or collects takes no further part in the round,
      whatever arrives later; and a node that has entered Run keeps its committee. */
  lemma LeavingIsFinal(c: Setup, s: State, v: Peer, acts: seq<Action>, t: State)
    ensures Enabled(c, s, GiveUp(v)) && Run(c, Next(c, s, GiveUp(v)), acts, t) ==> v in t.stage && t.stage[v] == GaveUp
    ensures v in s.stage && s.stage[v].InRun? && Run(c, s, acts, t) ==> v in t.stage && t.stage[v] == s.stage[v]
  {
    if Enabled(c, s, GiveUp(v)) && Run(c, Next(c, s, GiveUp(v)), acts, t) {
      FinalStage(c, Next(c, s, GiveUp(v)), v, acts, t);
    }
    if v in s.stage && s.stage[v].InRun? && Run(c, s, acts, t) {
      FinalStage(c, s, v, acts, t);
    }
  }

  // ---------- agreement ----------

  ghost predicate Entered(s: State, v: Peer, subset: seq<Peer>) {
    v in s.stage && s.stage[v] == InRun(subset)
  }

  /** In every interleaving of the first round, with messages lost, delayed or duplicated, all nodes that enter
      Run have the same committee: exactly threshold + 1 distinct key holders, the coordinator among them, and
      every other member has sent the coordinator a ready message. */
  lemma CommitteeAgreement(c: Setup, key: seq<Peer>, s: State, u: Peer, v: Peer, a: seq<Peer>, b: seq<Peer>)
    requires ValidSetup(c, key) && Reachable(c, s)
    requires Entered(s, u, a) && Entered(s, v, b)
    ensures a == b
    ensures GoodCommittee(c, key, s, StaticCoordinator(c.hash, c.sessionID, key), a)
  {
    ReachableInv(c, key, s);
    var leader := StaticCoordinator(c.hash, c.sessionID, key);
    assert NodeOk(c, key, s, leader, u) && NodeOk(c, key, s, leader, v);
    assert leader in c.nodes ==> NodeOk(c, key, s, leader, leader);
  }

  /** Only the static coordinator ever collects ready messages. */
  lemma OnlyTheLeaderCollects(c: Setup, key: seq<Peer>, s: State, v: Peer)
    requires ValidSetup(c, key) && Reachable(c, s)
    requires v in s.stage && s.stage[v].Collecting?
    ensures v == StaticCoordinator(c.hash, c.sessionID, key)
  {
    ReachableInv(c, key, s);
    assert NodeOk(c, key, s, StaticCoordinator(c.hash, c.sessionID, key), v);
  }

  /** Every start message comes from the static coordinator and carries the committee it has itself entered with. */
  lemma OnlyTheLeaderStarts(c: Setup, key: seq<Peer>, s: State, m: RoundMessage)
    requires ValidSetup(c, key) && Reachable(c, s)
    requires m in s.sent && m.Start?
    ensures m.from == StaticCoordinator(c.hash, c.sessionID, key)
    ensures Entered(s, m.from, m.subset)
  {
    ReachableInv(c, key, s);
    assert MessageOk(c, s, StaticCoordinator(c.hash, c.sessionID, key), m);
  }
}
