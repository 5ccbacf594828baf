/**
 Peers, the per-session hash order on them, and the list arithmetic every process uses.
 A peer is named by its printable form; the first eight bytes of the Keccak-256 digest
 are an arbitrary function of the hashed string.
 */
module Ranking {
  import opened Sorting

  type Peer = string

  newtype Uint64 = x: int | 0 <= x < 0x1_0000_0000_0000_0000

  type Hash = string -> Uint64

  datatype PeerMsg = PeerMsg(id: Peer, sessionID: string)

  function Rank(hash: Hash, p: PeerMsg): Uint64 {
    hash(p.id + p.sessionID)
  }

  /** `Less` of the sortable slice: a larger digest comes first. */
  predicate Less(hash: Hash, a: PeerMsg, b: PeerMsg) {
    Rank(hash, a) > Rank(hash, b)
  }

  function MsgOrder(hash: Hash): (PeerMsg, PeerMsg) -> bool {
    (a, b) => !Less(hash, b, a)
  }

  function PeerOrder(hash: Hash, sessionID: string): (Peer, Peer) -> bool {
    (a, b) => !Less(hash, PeerMsg(b, sessionID), PeerMsg(a, sessionID))
  }

  /** No two of the given peers collide in the session. */
  ghost predicate DistinctRanks(hash: Hash, sessionID: string, peers: set<Peer>) {
    forall p, q | p in peers && q in peers && hash(p + sessionID) == hash(q + sessionID) :: p == q
  }

  /** The session order of a peer list: the specification of sorting for a session. */
  function SessionOrder(hash: Hash, sessionID: string, peers: seq<Peer>): seq<Peer> {
    Sort(PeerOrder(hash, sessionID), peers)
  }

  function IdOf(): PeerMsg -> Peer {
    (p: PeerMsg) => p.id
  }

  lemma PeerOrderTotal(hash: Hash, sessionID: string, peers: set<Peer>)
    ensures TotalOn(PeerOrder(hash, sessionID), peers)
    ensures DistinctRanks(hash, sessionID, peers) ==> LinearOn(PeerOrder(hash, sessionID), peers)
  {
    forall a, b | a in peers && b in peers && PeerOrder(hash, sessionID)(a, b) && PeerOrder(hash, sessionID)(b, a)
      ensures hash(a + sessionID) == hash(b + sessionID)
    {}
  }

  /** The sorted slice holds exactly the given peers, highest digest first; with distinct digests it is the
      session order, although the sort underneath promises nothing about ties. */
  method SortPeersForSession(hash: Hash, peers: seq<Peer>, sessionID: string) returns (sorted: seq<PeerMsg>)
    ensures forall i | 0 <= i < |sorted| :: sorted[i].sessionID == sessionID
    ensures Permutation(Map(IdOf(), sorted), peers)
    ensures forall i, j | 0 <= i < j < |sorted| :: !Less(hash, sorted[j], sorted[i])
    ensures DistinctRanks(hash, sessionID, Elements(peers)) ==>
              Map(IdOf(), sorted) == SessionOrder(hash, sessionID, peers)
  {
    var slice := new PeerMsg[|peers|];
    for i := 0 to |peers|
      invariant forall k | 0 <= k < i :: slice[k] == PeerMsg(peers[k], sessionID)
    {
      slice[i] := PeerMsg(peers[i], sessionID);
    }
    ghost var filled := slice[..];
    SortInPlace(MsgOrder(hash), slice);
    sorted := slice[..];
    SortedSlice(hash, sessionID, peers, filled, sorted);
  }

  lemma SortedSlice(hash: Hash, sessionID: string, peers: seq<Peer>, filled: seq<PeerMsg>, sorted: seq<PeerMsg>)
    requires Tagged(sessionID, peers, filled)
    requires Permutation(sorted, filled) && Sorted(MsgOrder(hash), sorted)
    ensures forall i | 0 <= i < |sorted| :: sorted[i].sessionID == sessionID
    ensures Permutation(Map(IdOf(), sorted), peers)
    ensures forall i, j | 0 <= i < j < |sorted| :: !Less(hash, sorted[j], sorted[i])
    ensures DistinctRanks(hash, sessionID, Elements(peers)) ==>
              Map(IdOf(), sorted) == SessionOrder(hash, sessionID, peers)
  {
    TaggedIds(sessionID, peers, filled, sorted);
    TaggedSessions(sessionID, peers, filled, sorted);
    NoInversions(hash, sorted);
    SortedIds(hash, sessionID, peers, sorted);
  }

  ghost predicate Tagged(sessionID: string, peers: seq<Peer>, slice: seq<PeerMsg>) {
    |slice| == |peers| && forall i | 0 <= i < |peers| :: slice[i] == PeerMsg(peers[i], sessionID)
  }

  lemma TaggedIds(sessionID: string, peers: seq<Peer>, filled: seq<PeerMsg>, sorted: seq<PeerMsg>)
    requires Tagged(sessionID, peers, filled) && Permutation(sorted, filled)
    ensures Permutation(Map(IdOf(), sorted), peers)
  {
    assert Map(IdOf(), filled) == peers;
    PermutationMap(IdOf(), sorted, filled);
  }

  lemma TaggedSessions(sessionID: string, peers: seq<Peer>, filled: seq<PeerMsg>, sorted: seq<PeerMsg>)
    requires Tagged(sessionID, peers, filled) && Permutation(sorted, filled)
    ensures forall i | 0 <= i < |sorted| :: sorted[i].sessionID == sessionID
  {
    PermutationElements(sorted, filled);
    forall i | 0 <= i < |sorted| ensures sorted[i].sessionID == sessionID {
      assert sorted[i] in filled;
    }
  }

  lemma NoInversions(hash: Hash, sorted: seq<PeerMsg>)
    requires Sorted(MsgOrder(hash), sorted)
    ensures forall i, j | 0 <= i < j < |sorted| :: !Less(hash, sorted[j], sorted[i])
  {
    forall i, j | 0 <= i < j < |sorted| ensures !Less(hash, sorted[j], sorted[i]) {
      assert MsgOrder(hash)(sorted[i], sorted[j]);
    }
  }

  lemma SortedIds(hash: Hash, sessionID: string, peers: seq<Peer>, sorted: seq<PeerMsg>)
    requires forall i | 0 <= i < |sorted| :: sorted[i].sessionID == sessionID
    requires forall i, j | 0 <= i < j < |sorted| :: !Less(hash, sorted[j], sorted[i])
    requires Permutation(Map(IdOf(), sorted), peers)
    ensures DistinctRanks(hash, sessionID, Elements(peers)) ==>
              Map(IdOf(), sorted) == SessionOrder(hash, sessionID, peers)
  {
    var ids := Map(IdOf(), sorted);
    PeerOrderTotal(hash, sessionID, Elements(peers));
    assert Sorted(PeerOrder(hash, sessionID), ids) by {
      forall i, j | 0 <= i < j < |ids| ensures PeerOrder(hash, sessionID)(ids[i], ids[j]) {
        assert ids[i] == sorted[i].id && ids[j] == sorted[j].id;
        assert !Less(hash, sorted[j], sorted[i]);
      }
    }
    if DistinctRanks(hash, sessionID, Elements(peers)) {
      SortCanonical(PeerOrder(hash, sessionID), Elements(peers), peers, ids);
    }
  }

  method GetPeerIDs(sorted: seq<PeerMsg>) returns (ids: seq<Peer>)
    ensures ids == Map(IdOf(), sorted)
  {
    ids := [];
    for i := 0 to |sorted|
      invariant ids == Map(IdOf(), sorted[..i])
    {
      assert sorted[..i + 1] == sorted[..i] + [sorted[i]];
      MapConcat(IdOf(), sorted[..i], [sorted[i]]);
      ids := ids + [sorted[i].id];
    }
    assert sorted[..|sorted|] == sorted;
  }

  /** Whether a peer is listed. */
  method IsParticipant(peer: Peer, peers: seq<Peer>) returns (found: bool)
    ensures found <==> peer in peers
  {
    for i := 0 to |peers|
      invariant peer !in peers[..i]
    {
      if peers[i] == peer { return true; }
    }
    return false;
  }

  /** The static coordinator: the head of the session order, or no peer for an empty list. */
  function StaticCoordinator(hash: Hash, sessionID: string, peers: seq<Peer>): Peer {
    var sorted := SessionOrder(hash, sessionID, peers);
    if |sorted| == 0 then "" else sorted[0]
  }

  /** The elector sorts twice; both sorts give the same head when digests are distinct. */
  method Coordinator(hash: Hash, sessionID: string, peers: seq<Peer>) returns (leader: Peer)
    ensures peers == [] ==> leader == ""
    ensures peers != [] ==> leader in peers
    ensures forall p | p in peers :: hash(leader + sessionID) >= hash(p + sessionID)
    ensures DistinctRanks(hash, sessionID, Elements(peers)) ==>
              leader == StaticCoordinator(hash, sessionID, peers)
  {
    var first := SortPeersForSession(hash, peers, sessionID);
    PermutationElements(Map(IdOf(), first), peers);
    if |first| == 0 {
      SortPermutes(PeerOrder(hash, sessionID), peers);
      return "";
    }
    var second := SortPeersForSession(hash, peers, sessionID);
    PermutationElements(Map(IdOf(), second), peers);
    leader := second[0].id;
    assert leader == Map(IdOf(), second)[0];
    forall p | p in peers ensures hash(leader + sessionID) >= hash(p + sessionID) {
      var i :| 0 <= i < |second| && Map(IdOf(), second)[i] == p;
      assert i == 0 || !Less(hash, second[i], second[0]);
    }
  }

  /** The list without the excluded peers, and the list restricted to the given ones. */
  function Excluding(excluded: seq<Peer>): Peer -> bool {
    p => p !in excluded
  }

  function Among(others: seq<Peer>): Peer -> bool {
    p => p in others
  }

  method ExcludePeers(peers: seq<Peer>, excluded: seq<Peer>) returns (included: seq<Peer>)
    ensures included == Filter(Excluding(excluded), peers)
  {
    included := [];
    for i := 0 to |peers|
      invariant included == Filter(Excluding(excluded), peers[..i])
    {
      assert peers[..i + 1] == peers[..i] + [peers[i]];
      FilterAppend(Excluding(excluded), peers[..i], [peers[i]]);
      if peers[i] in excluded { continue; }
      included := included + [peers[i]];
    }
    assert peers[..|peers|] == peers;
  }

  method PeersIntersection(oldPeers: seq<Peer>, newPeers: seq<Peer>) returns (included: seq<Peer>)
    ensures included == Filter(Among(newPeers), oldPeers)
  {
    included := [];
    for i := 0 to |oldPeers|
      invariant included == Filter(Among(newPeers), oldPeers[..i])
    {
      assert oldPeers[..i + 1] == oldPeers[..i] + [oldPeers[i]];
      FilterAppend(Among(newPeers), oldPeers[..i], [oldPeers[i]]);
      if oldPeers[i] !in newPeers { continue; }
      included := included + [oldPeers[i]];
    }
    assert oldPeers[..|oldPeers|] == oldPeers;
  }

  // ---------- what the order is for ----------

  /** Nodes that hold the same peers in different list orders rank them identically and pick the same leader. */
  lemma RankingIndependent(hash: Hash, sessionID: string, a: seq<Peer>, b: seq<Peer>)
    requires Permutation(a, b) && DistinctRanks(hash, sessionID, Elements(a))
    ensures SessionOrder(hash, sessionID, a) == SessionOrder(hash, sessionID, b)
    ensures StaticCoordinator(hash, sessionID, a) == StaticCoordinator(hash, sessionID, b)
  {
    PeerOrderTotal(hash, sessionID, Elements(a));
    SortCanonical(PeerOrder(hash, sessionID), Elements(a), a, b);
  }

  /** Distinct digests are exactly what makes the outcome of the sort independent of the sorting algorithm:
      they hold if and only if the list has a single arrangement without inversions. */
  lemma SessionOrderUniqueIff(hash: Hash, sessionID: string, peers: seq<Peer>)
    ensures DistinctRanks(hash, sessionID, Elements(peers)) <==>
            forall b | Permutation(peers, b) && Sorted(PeerOrder(hash, sessionID), b) ::
              b == SessionOrder(hash, sessionID, peers)
  {
    var leq := PeerOrder(hash, sessionID);
    PeerOrderTotal(hash, sessionID, Elements(peers));
    SortIsSorted(leq, Elements(peers), peers);
    var s := Sort(leq, peers);
    if DistinctRanks(hash, sessionID, Elements(peers)) {
      forall b | Permutation(peers, b) && Sorted(leq, b) ensures b == s {
        SortCanonical(leq, Elements(peers), peers, b);
      }
    } else {
      var p, q :| p in peers && q in peers && hash(p + sessionID) == hash(q + sessionID) && p != q;
      PermutationElements(s, peers);
      var i :| 0 <= i < |s| && s[i] == p;
      var j :| 0 <= j < |s| && s[j] == q;
      var b := ExchangeTied(hash, sessionID, s, i, j);
      assert Permutation(peers, b) && Sorted(leq, b) && b != s;
    }
  }

  lemma ExchangeTied(hash: Hash, sessionID: string, s: seq<Peer>, i: nat, j: nat) returns (b: seq<Peer>)
    requires i < |s| && j < |s| && s[i] != s[j] && hash(s[i] + sessionID) == hash(s[j] + sessionID)
    requires Sorted(PeerOrder(hash, sessionID), s)
    ensures Permutation(s, b) && b != s
    ensures Sorted(PeerOrder(hash, sessionID), b)
  {
    var leq := PeerOrder(hash, sessionID);
    b := s[i := s[j]][j := s[i]];
    forall x, y | 0 <= x < y < |b| ensures leq(b[x], b[y]) {
      assert leq(s[x], s[y]);
      assert hash(b[x] + sessionID) == hash(s[x] + sessionID);
      assert hash(b[y] + sessionID) == hash(s[y] + sessionID);
    }
  }

  lemma SessionOrderPermutes(hash: Hash, sessionID: string, peers: seq<Peer>)
    ensures Permutation(SessionOrder(hash, sessionID, peers), peers)
    ensures Sorted(PeerOrder(hash, sessionID), SessionOrder(hash, sessionID, peers))
    ensures Elements(SessionOrder(hash, sessionID, peers)) == Elements(peers)
    ensures |SessionOrder(hash, sessionID, peers)| == |peers|
    ensures Distinct(peers) ==> Distinct(SessionOrder(hash, sessionID, peers))
  {
    PeerOrderTotal(hash, sessionID, Elements(peers));
    SortIsSorted(PeerOrder(hash, sessionID), Elements(peers), peers);
    PermutationElements(SessionOrder(hash, sessionID, peers), peers);
    if Distinct(peers) {
      PermutationDistinct(peers, SessionOrder(hash, sessionID, peers));
    }
  }

  /** Dropping peers before ranking or after ranking is the same thing, so a retry keeps the relative
      order of the peers that remain. */
  lemma ExclusionCommutesWithRanking(hash: Hash, sessionID: string, peers: seq<Peer>, excluded: seq<Peer>)
    requires DistinctRanks(hash, sessionID, Elements(peers))
    ensures SessionOrder(hash, sessionID, Filter(Excluding(excluded), peers))
         == Filter(Excluding(excluded), SessionOrder(hash, sessionID, peers))
  {
    PeerOrderTotal(hash, sessionID, Elements(peers));
    SortFilterCommute(PeerOrder(hash, sessionID), Elements(peers), Excluding(excluded), peers);
  }

  /** The leader after an exclusion is the first peer of the static order that is not excluded. */
  lemma RetryLeader(hash: Hash, sessionID: string, peers: seq<Peer>, excluded: seq<Peer>)
    requires DistinctRanks(hash, sessionID, Elements(peers))
    ensures var order := SessionOrder(hash, sessionID, peers);
            var leader := StaticCoordinator(hash, sessionID, Filter(Excluding(excluded), peers));
            if forall p | p in peers :: p in excluded then leader == ""
            else exists k | 0 <= k < |order| ::
                   leader == order[k] && leader !in excluded && forall i | 0 <= i < k :: order[i] in excluded
  {
    var order := SessionOrder(hash, sessionID, peers);
    ExclusionCommutesWithRanking(hash, sessionID, peers, excluded);
    SessionOrderPermutes(hash, sessionID, peers);
    PermutationElements(order, peers);
    FirstKept(Excluding(excluded), order);
  }

  lemma {:induction false} FirstKept(keep: Peer -> bool, s: seq<Peer>)
    ensures if forall x | x in s :: !keep(x) then Filter(keep, s) == []
            else Filter(keep, s) != [] && exists k | 0 <= k < |s| ::
                   Filter(keep, s)[0] == s[k] && keep(s[k]) && forall i | 0 <= i < k :: !keep(s[i])
  {
    if s != [] && !keep(s[0]) {
      FirstKept(keep, s[1..]);
      if exists x | x in s :: keep(x) {
        var x :| x in s && keep(x);
        assert x in s[1..];
        var k :| 0 <= k < |s[1..]| && Filter(keep, s[1..])[0] == s[1..][k] && keep(s[1..][k])
                 && forall i | 0 <= i < k :: !keep(s[1..][i]);
        assert forall i | 0 <= i < k + 1 :: !keep(s[i]) by {
          forall i | 0 <= i < k + 1 ensures !keep(s[i]) {
            assert i == 0 || s[i] == s[1..][i - 1];
          }
        }
        assert Filter(keep, s)[0] == s[k + 1];
      }
    }
  }
}
