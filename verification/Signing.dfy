/**
 The signing process as the coordination layer sees it: when enough key holders are ready,
 which of them form the committee, and who takes part once the start message arrives.
 The start parameters are the committee itself; their JSON encoding is not modelled.
 */
module Signing {
  import opened Sorting
  import opened Ranking

  datatype RunResult = Entered | SubsetError(peer: Peer)

  /** The ready peers that hold a key share. */
  function Holders(keyPeers: seq<Peer>, ready: seq<Peer>): seq<Peer> {
    Filter(Among(keyPeers), ready)
  }

  predicate EnoughReady(keyPeers: seq<Peer>, threshold: int, ready: seq<Peer>) {
    |Holders(keyPeers, ready)| == threshold + 1
  }

  /** What a loop keeps that stops on reaching exactly `limit` elements. */
  function CutAt(s: seq<Peer>, limit: int): seq<Peer> {
    if 0 < limit <= |s| then s[..limit] else s
  }

  function Committee(hash: Hash, sessionID: string, keyPeers: seq<Peer>, threshold: int, ready: seq<Peer>): seq<Peer> {
    CutAt(SessionOrder(hash, sessionID, Holders(keyPeers, ready)), threshold + 1)
  }

  class Signing {
    const hash: Hash
    const host: Peer
    const sessionID: string
    const keyPeers: seq<Peer>
    const threshold: int
    var coordinator: bool
    var peers: seq<Peer>

    constructor (hash: Hash, host: Peer, sessionID: string, keyPeers: seq<Peer>, threshold: int)
      ensures this.hash == hash && this.host == host && this.sessionID == sessionID
      ensures this.keyPeers == keyPeers && this.threshold == threshold
      ensures peers == keyPeers && !coordinator
    {
      this.hash, this.host, this.sessionID := hash, host, sessionID;
      this.keyPeers, this.threshold := keyPeers, threshold;
      peers, coordinator := keyPeers, false;
    }

    method ReadyParticipants(ready: seq<Peer>) returns (participants: seq<Peer>)
      ensures participants == Holders(keyPeers, ready)
    {
      participants := [];
      for i := 0 to |ready|
        invariant participants == Holders(keyPeers, ready[..i])
      {
        assert ready[..i + 1] == ready[..i] + [ready[i]];
        FilterAppend(Among(keyPeers), ready[..i], [ready[i]]);
        if ready[i] !in keyPeers { continue; }
        participants := participants + [ready[i]];
      }
      assert ready[..|ready|] == ready;
    }

    method Ready(ready: seq<Peer>) returns (enough: bool)
      ensures enough <==> EnoughReady(keyPeers, threshold, ready)
    {
      var participants := ReadyParticipants(ready);
      return |participants| == threshold + 1;
    }

    /** The committee to announce; digest collisions among the ready peers would leave the choice to the sort. */
    method StartParams(ready: seq<Peer>) returns (subset: seq<Peer>)
      ensures |subset| == |Committee(hash, sessionID, keyPeers, threshold, ready)|
      ensures forall p | p in subset :: p in ready && p in keyPeers
      ensures DistinctRanks(hash, sessionID, Elements(ready)) ==>
                subset == Committee(hash, sessionID, keyPeers, threshold, ready)
    {
      var participants := ReadyParticipants(ready);
      HoldersAreReady(keyPeers, ready);
      var sorted := SortPeersForSession(hash, participants, sessionID);
      subset := FirstPeers(sorted);
      PermutationElements(Map(IdOf(), sorted), participants);
      SessionOrderPermutes(hash, sessionID, participants);
      forall p | p in subset ensures p in ready && p in keyPeers {
        assert p in Map(IdOf(), sorted) && p in Elements(participants);
      }
    }

    /** The selection loop: appends until the committee is complete. */
    method FirstPeers(sorted: seq<PeerMsg>) returns (subset: seq<Peer>)
      ensures subset == CutAt(Map(IdOf(), sorted), threshold + 1)
    {
      ghost var order := Map(IdOf(), sorted);
      subset := [];
      for i := 0 to |sorted|
        invariant subset == order[..i]
        invariant !(0 < threshold + 1 <= i)
      {
        subset := subset + [sorted[i].id];
        assert order[..i + 1] == order[..i] + [order[i]];
        if |subset| == threshold + 1 { return; }
      }
      assert order[..|sorted|] == order;
    }

    /** The participant check at the top of Run: a node outside the committee does not take part. */
    method Run(coordinator: bool, subset: seq<Peer>) returns (result: RunResult)
      modifies this
      ensures this.coordinator == coordinator
      ensures result == if host in subset then Entered else SubsetError(host)
      ensures peers == if host in subset then subset else old(peers)
    {
      this.coordinator := coordinator;
      var takesPart := IsParticipant(host, subset);
      if !takesPart {
        return SubsetError(host);
      }
      peers := subset;
      return Entered;
    }
  }

  lemma HoldersAreReady(keyPeers: seq<Peer>, ready: seq<Peer>)
    ensures Elements(Holders(keyPeers, ready)) <= Elements(ready)
    ensures Elements(Holders(keyPeers, ready)) <= Elements(keyPeers)
    ensures forall p | p in ready && p in keyPeers :: p in Holders(keyPeers, ready)
    ensures Distinct(ready) ==> Distinct(Holders(keyPeers, ready))
  {
    FilterMembers(Among(keyPeers), ready);
    forall p | p in Elements(Holders(keyPeers, ready)) ensures p in ready && p in keyPeers {
      assert p in Holders(keyPeers, ready);
    }
    if Distinct(ready) { FilterDistinct(Among(keyPeers), ready); }
  }

  lemma RankedStrictly(hash: Hash, sessionID: string, holders: seq<Peer>)
    requires Distinct(holders) && DistinctRanks(hash, sessionID, Elements(holders))
    ensures var order := SessionOrder(hash, sessionID, holders);
            forall i, j | 0 <= i < j < |order| :: hash(order[i] + sessionID) > hash(order[j] + sessionID)
  {
    var order := SessionOrder(hash, sessionID, holders);
    SessionOrderPermutes(hash, sessionID, holders);
    forall i, j | 0 <= i < j < |order| ensures hash(order[i] + sessionID) > hash(order[j] + sessionID) {
      assert order[i] in Elements(order) && order[j] in Elements(order);
      assert PeerOrder(hash, sessionID)(order[i], order[j]);
    }
  }

  /** Who is cut off ranks below everyone who is kept. */
  lemma KeptBeatCutOff(hash: Hash, sessionID: string, order: seq<Peer>, n: nat, p: Peer, q: Peer)
    requires n <= |order| && p in order[..n] && q in order && q !in order[..n]
    requires forall i, j | 0 <= i < j < |order| :: hash(order[i] + sessionID) > hash(order[j] + sessionID)
    ensures hash(p + sessionID) > hash(q + sessionID)
  {
    var i :| 0 <= i < n && order[i] == p;
    var j :| 0 <= j < |order| && order[j] == q;
    forall x | 0 <= x < n ensures order[x] != q {
      assert order[..n][x] in order[..n];
    }
    assert n <= j;
  }

  /** The committee is the min(threshold+1, k) highest-ranked of the k ready key holders, in session order; a negative
      threshold never stops the selection, so all k are taken. */
  lemma CommitteeIsTopRanked(hash: Hash, sessionID: string, keyPeers: seq<Peer>, threshold: int, ready: seq<Peer>)
    requires Distinct(ready) && DistinctRanks(hash, sessionID, Elements(ready))
    ensures var committee := Committee(hash, sessionID, keyPeers, threshold, ready);
            && |committee| == (if 0 <= threshold < |Holders(keyPeers, ready)| then threshold + 1
                               else |Holders(keyPeers, ready)|)
            && Distinct(committee)
            && (forall p | p in committee :: p in ready && p in keyPeers)
            && (forall i, j | 0 <= i < j < |committee| ::
                  hash(committee[i] + sessionID) > hash(committee[j] + sessionID))
            && (forall p, q | p in committee && q in ready && q in keyPeers && q !in committee ::
                  hash(p + sessionID) > hash(q + sessionID))
  {
    var holders := Holders(keyPeers, ready);
    var order := SessionOrder(hash, sessionID, holders);
    var committee := Committee(hash, sessionID, keyPeers, threshold, ready);
    HoldersAreReady(keyPeers, ready);
    SessionOrderPermutes(hash, sessionID, holders);
    RankedStrictly(hash, sessionID, holders);
    assert committee == order[..|committee|];
    forall p | p in committee ensures p in ready && p in keyPeers {
      assert p in order && p in Elements(order);
    }
    forall p, q | p in committee && q in ready && q in keyPeers && q !in committee
      ensures hash(p + sessionID) > hash(q + sessionID)
    {
      assert q in Elements(holders) && q in order;
      KeptBeatCutOff(hash, sessionID, order, |committee|, p, q);
    }
  }

  /** It does not depend on the order in which the peers became ready, nor on the order of the key's peer list. */
  lemma CommitteeIgnoresListOrder(
    hash: Hash, sessionID: string, threshold: int,
    keyPeers: seq<Peer>, keyPeers': seq<Peer>, ready: seq<Peer>, ready': seq<Peer>)
    requires Permutation(keyPeers, keyPeers') && Permutation(ready, ready')
    requires DistinctRanks(hash, sessionID, Elements(ready))
    ensures Committee(hash, sessionID, keyPeers, threshold, ready)
         == Committee(hash, sessionID, keyPeers', threshold, ready')
  {
    PermutationElements(keyPeers, keyPeers');
    SameFilter(Among(keyPeers), Among(keyPeers'), ready');
    FilterPermutation(Among(keyPeers), ready, ready');
    HoldersAreReady(keyPeers, ready);
    RankingIndependent(hash, sessionID, Holders(keyPeers, ready), Holders(keyPeers', ready'));
  }

  /** At the moment of starting, nobody who is ready and holds a share is left out; in particular a
      key-holding coordinator is a member of the committee it announces. */
  lemma StartTakesEveryReadyHolder(
    hash: Hash, sessionID: string, keyPeers: seq<Peer>, threshold: int, ready: seq<Peer>, host: Peer)
    requires EnoughReady(keyPeers, threshold, ready) && DistinctRanks(hash, sessionID, Elements(ready))
    ensures Permutation(Committee(hash, sessionID, keyPeers, threshold, ready), Holders(keyPeers, ready))
    ensures host in ready && host in keyPeers ==> host in Committee(hash, sessionID, keyPeers, threshold, ready)
  {
    var holders := Holders(keyPeers, ready);
    HoldersAreReady(keyPeers, ready);
    SessionOrderPermutes(hash, sessionID, holders);
    PermutationElements(SessionOrder(hash, sessionID, holders), holders);
    assert Committee(hash, sessionID, keyPeers, threshold, ready) == SessionOrder(hash, sessionID, holders);
  }
}
