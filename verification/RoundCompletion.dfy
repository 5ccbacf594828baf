/**
 The first round is not only safe: whenever the leader and threshold further key holders are up and reachable,
 there is a run in which all of them enter with the committee they form.
 */
module RoundCompletion {
  import Transitions
  import opened Sorting
  import opened Ranking
  import opened Signing
  import opened Round
  import C = Coordinator

  /** The leader and `threshold` other key holders, all of them among the nodes and known to the leader. */
  ghost predicate Assembly(c: Setup, key: seq<Peer>, leader: Peer, others: seq<Peer>) {
    && leader == StaticCoordinator(c.hash, c.sessionID, key) && leader in c.nodes && leader in key && leader in c.peerstore
    && Distinct([leader] + others) && |others| == c.threshold
    && (forall p | p in others :: p in c.nodes && p in key && p in c.peerstore[leader])
  }

  lemma OthersDiffer(leader: Peer, others: seq<Peer>, k: nat)
    requires Distinct([leader] + others) && k < |others|
    ensures others[k] != leader
    ensures forall i | 0 <= i < |others| && i != k :: others[i] != others[k]
  {
    var all := [leader] + others;
    assert all[0] != all[k + 1];
    forall i | 0 <= i < |others| && i != k ensures others[i] != others[k] {
      assert all[i + 1] != all[k + 1];
    }
  }

  lemma ReachableStep(c: Setup, s: State, a: Action)
    requires Reachable(c, s) && Enabled(c, s, a)
    ensures Reachable(c, Next(c, s, a))
  {
    Transitions.ReachableStep(Step(c), Init(c), s, a, Next(c, s, a));
  }

  /** The leader collects, the first k of the others wait and have answered, the rest have not begun. */
  ghost predicate Gathered(c: Setup, s: State, leader: Peer, others: seq<Peer>, k: nat) {
    && s.stage.Keys == c.nodes && leader in s.stage && leader in c.peerstore
    && s.stage[leader] == Collecting([leader])
    && Initiates(c, leader) <= s.sent
    && (forall i | 0 <= i < |others| :: others[i] in s.stage && others[i] != leader)
    && (forall i | 0 <= i < |others| && i < k :: s.stage[others[i]] == Waiting && Ready(others[i], leader) in s.sent)
    && (forall i | k <= i < |others| :: s.stage[others[i]] == NotBegun)
  }

  lemma {:induction false} Gather(c: Setup, key: seq<Peer>, leader: Peer, others: seq<Peer>, k: nat) returns (s: State)
    requires ValidSetup(c, key) && Assembly(c, key, leader, others) && k <= |others|
    ensures Reachable(c, s) && Gathered(c, s, leader, others, k)
  {
    OneLeader(c, key, leader);
    forall i | 0 <= i < |others| ensures others[i] in c.nodes && others[i] != leader {
      OthersDiffer(leader, others, i);
      assert others[i] in others;
    }
    if k == 0 {
      var s0 := Init(c);
      assert Run(c, s0, [], s0);
      ReachableStep(c, s0, Begin(leader));
      s := Next(c, s0, Begin(leader));
    } else {
      var t := Gather(c, key, leader, others, k - 1);
      s := GatherOne(c, key, leader, others, k - 1, t);
    }
  }

  lemma GatherOne(c: Setup, key: seq<Peer>, leader: Peer, others: seq<Peer>, k: nat, t: State) returns (s: State)
    requires ValidSetup(c, key) && Assembly(c, key, leader, others) && k < |others|
    requires Reachable(c, t) && Gathered(c, t, leader, others, k)
    ensures Reachable(c, s) && Gathered(c, s, leader, others, k + 1)
  {
    var o := others[k];
    assert o in others;
    OneLeader(c, key, o);
    OthersDiffer(leader, others, k);
    ReachableStep(c, t, Begin(o));
    var u := Next(c, t, Begin(o));
    assert u == t.(stage := t.stage[o := Waiting]);
    assert Initiate(leader, o) in Initiates(c, leader);
    ReachableStep(c, u, HearInitiate(o, leader));
    s := Next(c, u, HearInitiate(o, leader));
    assert s == State(t.stage[o := Waiting], t.sent + {Ready(o, leader)});
    GatheredOneMore(c, leader, others, k, t, s);
  }

  lemma GatheredOneMore(c: Setup, leader: Peer, others: seq<Peer>, k: nat, t: State, s: State)
    requires Distinct([leader] + others) && k < |others| && Gathered(c, t, leader, others, k)
    requires s == State(t.stage[others[k] := Waiting], t.sent + {Ready(others[k], leader)})
    ensures Gathered(c, s, leader, others, k + 1)
  {
    OthersDiffer(leader, others, k);
  }

  /** The leader has collected the first j of the others, who all wait. */
  ghost predicate HasCollected(c: Setup, s: State, leader: Peer, others: seq<Peer>, j: nat) {
    && j <= |others| && s.stage.Keys == c.nodes && leader in s.stage
    && s.stage[leader] == Collecting([leader] + others[..j])
    && (forall i | 0 <= i < |others| :: others[i] in s.stage && others[i] != leader)
    && (forall i | 0 <= i < |others| :: s.stage[others[i]] == Waiting && Ready(others[i], leader) in s.sent)
  }

  /** What the leader's list becomes, and how many holders it then counts. */
  lemma NextReady(c: Setup, key: seq<Peer>, leader: Peer, others: seq<Peer>, j: nat)
    requires ValidSetup(c, key) && Assembly(c, key, leader, others) && j < |others|
    ensures C.AddReady([], [leader] + others[..j], others[j]) == [leader] + others[..j + 1]
    ensures Holders(c.keyPeers[leader], [leader] + others[..j + 1]) == [leader] + others[..j + 1]
  {
    var ready := [leader] + others[..j];
    assert ready + [others[j]] == [leader] + others[..j + 1];
    assert others[j] !in ready by {
      forall i | 0 <= i < |ready| ensures ready[i] != others[j] {
        assert ready[i] == ([leader] + others)[i] && others[j] == ([leader] + others)[j + 1];
      }
    }
    PermutationElements(key, c.keyPeers[leader]);
    var all := [leader] + others[..j + 1];
    forall p | p in all ensures p in c.keyPeers[leader] {
      assert p == leader || p in others;
    }
    KeepsAll(Among(c.keyPeers[leader]), all);
  }

  lemma {:induction false} KeepsAll(keep: Peer -> bool, s: seq<Peer>)
    requires forall p | p in s :: keep(p)
    ensures Filter(keep, s) == s
  {
    if s != [] {
      assert s[0] in s;
      KeepsAll(keep, s[1..]);
    }
  }

  lemma CollectOne(c: Setup, key: seq<Peer>, leader: Peer, others: seq<Peer>, j: nat, t: State) returns (s: State)
    requires ValidSetup(c, key) && Assembly(c, key, leader, others) && j + 1 < |others|
    requires Reachable(c, t) && HasCollected(c, t, leader, others, j)
    ensures Reachable(c, s) && HasCollected(c, s, leader, others, j + 1)
  {
    NextReady(c, key, leader, others, j);
    ReachableStep(c, t, HearReady(leader, others[j]));
    s := Next(c, t, HearReady(leader, others[j]));
    assert s == t.(stage := t.stage[leader := Collecting([leader] + others[..j + 1])]);
  }

  lemma {:induction false} Collect(c: Setup, key: seq<Peer>, leader: Peer, others: seq<Peer>, j: nat) returns (s: State)
    requires ValidSetup(c, key) && Assembly(c, key, leader, others) && j < |others|
    ensures Reachable(c, s) && HasCollected(c, s, leader, others, j)
  {
    if j == 0 {
      s := Gather(c, key, leader, others, |others|);
      assert [leader] + others[..0] == [leader];
    } else {
      var t := Collect(c, key, leader, others, j - 1);
      s := CollectOne(c, key, leader, others, j - 1, t);
    }
  }

  /** The leader is in Run; the first k of the others are too. */
  ghost predicate HasStarted(c: Setup, s: State, leader: Peer, others: seq<Peer>, subset: seq<Peer>, k: nat) {
    && s.stage.Keys == c.nodes && leader in s.stage && leader in c.peerstore
    && s.stage[leader] == InRun(subset)
    && Starts(c, leader, subset) <= s.sent
    && (forall i | 0 <= i < |others| :: others[i] in s.stage && others[i] != leader)
    && (forall i | 0 <= i < |others| && i < k :: s.stage[others[i]] == InRun(subset))
    && (forall i | k <= i < |others| :: s.stage[others[i]] == Waiting)
  }

  lemma Launch(c: Setup, key: seq<Peer>, leader: Peer, others: seq<Peer>) returns (s: State)
    requires ValidSetup(c, key) && Assembly(c, key, leader, others) && others != []
    ensures Reachable(c, s)
    ensures HasStarted(c, s, leader, others,
              Committee(c.hash, c.sessionID, c.keyPeers[leader], c.threshold, [leader] + others), 0)
  {
    var n := |others|;
    var t := Collect(c, key, leader, others, n - 1);
    NextReady(c, key, leader, others, n - 1);
    assert others[..n] == others;
    ReachableStep(c, t, HearReady(leader, others[n - 1]));
    s := Next(c, t, HearReady(leader, others[n - 1]));
  }

  lemma {:induction false} EnterAll(c: Setup, key: seq<Peer>, leader: Peer, others: seq<Peer>, k: nat) returns (s: State)
    requires ValidSetup(c, key) && Assembly(c, key, leader, others) && others != [] && k <= |others|
    ensures Reachable(c, s)
    ensures HasStarted(c, s, leader, others,
              Committee(c.hash, c.sessionID, c.keyPeers[leader], c.threshold, [leader] + others), k)
  {
    var subset := Committee(c.hash, c.sessionID, c.keyPeers[leader], c.threshold, [leader] + others);
    if k == 0 {
      s := Launch(c, key, leader, others);
    } else {
      var t := EnterAll(c, key, leader, others, k - 1);
      var o := others[k - 1];
      assert o in others;
      OneLeader(c, key, o);
      assert Start(leader, o, subset) in Starts(c, leader, subset);
      ReachableStep(c, t, HearStart(o, leader, subset));
      s := Next(c, t, HearStart(o, leader, subset));
      OthersDiffer(leader, others, k - 1);
    }
  }

  /** The committee of the leader and the others is just them. */
  lemma CommitteeOfAssembly(c: Setup, key: seq<Peer>, leader: Peer, others: seq<Peer>)
    requires ValidSetup(c, key) && Assembly(c, key, leader, others) && others != []
    ensures Permutation(Committee(c.hash, c.sessionID, c.keyPeers[leader], c.threshold, [leader] + others), [leader] + others)
  {
    var n := |others|;
    var all := [leader] + others;
    NextReady(c, key, leader, others, n - 1);
    assert others[..n] == others;
    forall p | p in all ensures p in c.nodes {
      assert p == leader || p in others;
    }
    assert Elements(all) <= c.nodes;
    assert DistinctRanks(c.hash, c.sessionID, Elements(all));
    StartTakesEveryReadyHolder(c.hash, c.sessionID, c.keyPeers[leader], c.threshold, all, leader);
  }

  /** With a positive threshold, any threshold key holders the leader can reach complete the round with it: some
      run brings all of them into Run with the committee they form. */
  lemma RoundCanComplete(c: Setup, key: seq<Peer>, leader: Peer, others: seq<Peer>)
    requires ValidSetup(c, key) && Assembly(c, key, leader, others) && c.threshold >= 1
    ensures exists s, subset :: Reachable(c, s) && Permutation(subset, [leader] + others)
              && forall p | p in [leader] + others :: p in s.stage && s.stage[p] == InRun(subset)
  {
    var subset := Committee(c.hash, c.sessionID, c.keyPeers[leader], c.threshold, [leader] + others);
    var s := EnterAll(c, key, leader, others, |others|);
    CommitteeOfAssembly(c, key, leader, others);
    AllStarted(c, s, leader, others, subset);
  }

  lemma AllStarted(c: Setup, s: State, leader: Peer, others: seq<Peer>, subset: seq<Peer>)
    requires HasStarted(c, s, leader, others, subset, |others|)
    ensures forall p | p in [leader] + others :: p in s.stage && s.stage[p] == InRun(subset)
  {
    forall p | p in [leader] + others ensures p in s.stage && s.stage[p] == InRun(subset) {
      if p != leader {
        assert p in others;
        var i :| 0 <= i < |others| && others[i] == p;
      }
    }
  }
}
