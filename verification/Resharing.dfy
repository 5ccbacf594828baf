/**
 Resharing: the party list handed to the threshold library, built in place over shared party objects,
 and the checks a node makes on the leader's start parameters.
 */
module Resharing {
  import opened Options
  import opened Sorting
  import opened Ranking

  // ---------- party keys ----------

  /** The key of a party: the bytes of its printable id read as one big-endian number. */
  function PartyKey(id: Peer): nat {
    if id == "" then 0 else PartyKey(id[..|id| - 1]) * 256 + (id[|id| - 1] as int) % 256
  }

  /** Printable ids are made of single non-zero bytes. */
  ghost predicate Printable(id: Peer) {
    forall i | 0 <= i < |id| :: 0 < id[i] as int < 256
  }

  ghost predicate AllPrintable(ids: seq<Peer>) {
    forall p | p in ids :: Printable(p)
  }

  /** How the library reads a printed id back; it may refuse a string. */
  type Decoder = string -> Option<Peer>

  /** These ids were printed from peers, so reading one back gives the peer itself. */
  ghost predicate Decodes(decode: Decoder, ids: seq<Peer>) {
    forall p | p in ids :: decode(p) == Some(p)
  }

  function PartyOrder(): (Peer, Peer) -> bool {
    (a, b) => PartyKey(a) <= PartyKey(b)
  }

  lemma {:induction false} PartyKeyInjective(a: Peer, b: Peer)
    requires Printable(a) && Printable(b) && PartyKey(a) == PartyKey(b)
    ensures a == b
    decreases |a| + |b|
  {
    if a == "" || b == "" {
      LastDigit(a);
      LastDigit(b);
    } else {
      var a', b' := a[..|a| - 1], b[..|b| - 1];
      LastDigit(a);
      LastDigit(b);
      OneDigit(PartyKey(a'), a[|a| - 1] as int, PartyKey(b'), b[|b| - 1] as int);
      PartyKeyInjective(a', b');
      assert a == a' + [a[|a| - 1]] && b == b' + [b[|b| - 1]];
    }
  }

  lemma LastDigit(a: Peer)
    requires Printable(a)
    ensures a != "" ==> 0 < a[|a| - 1] as int < 256 && PartyKey(a) == PartyKey(a[..|a| - 1]) * 256 + a[|a| - 1] as int
    ensures PartyKey(a) == 0 <==> a == ""
  {
  }

  lemma OneDigit(p: nat, x: int, q: nat, y: int)
    requires 0 <= x < 256 && 0 <= y < 256 && p * 256 + x == q * 256 + y
    ensures p == q && x == y
  {
  }

  /** Shorter ids come first, and ids of one length compare at the first place where they differ. */
  ghost predicate ComesBefore(a: Peer, b: Peer) {
    |a| < |b| || (|a| == |b| && exists i :: DiffersFirstAt(a, b, i) && a[i] < b[i])
  }

  ghost predicate DiffersFirstAt(a: Peer, b: Peer, i: int) {
    0 <= i < |a| && i < |b| && a[..i] == b[..i] && a[i] != b[i]
  }

  lemma {:induction false} LongerIsLarger(a: Peer, b: Peer)
    requires Printable(a) && Printable(b) && |a| < |b|
    ensures PartyKey(a) < PartyKey(b)
    decreases |a|
  {
    LastDigit(a);
    LastDigit(b);
    if a != "" {
      LongerIsLarger(a[..|a| - 1], b[..|b| - 1]);
    }
  }

  lemma {:induction false} FirstDifferenceDecides(a: Peer, b: Peer, i: nat)
    requires Printable(a) && Printable(b) && |a| == |b| && DiffersFirstAt(a, b, i) && a[i] < b[i]
    ensures PartyKey(a) < PartyKey(b)
    decreases |a|
  {
    LastDigit(a);
    LastDigit(b);
    var n := |a| - 1;
    if i < n {
      assert a[..n][..i] == a[..i] && b[..n][..i] == b[..i];
      FirstDifferenceDecides(a[..n], b[..n], i);
    } else {
      assert a[..n] == b[..n];
    }
  }

  lemma EqualBefore(a: Peer, b: Peer, i: int)
    requires DiffersFirstAt(a, b, i)
    ensures forall j | 0 <= j < i :: a[j] == b[j]
  {
    forall j | 0 <= j < i ensures a[j] == b[j] {
      assert a[j] == a[..i][j] && b[j] == b[..i][j];
    }
  }

  lemma {:induction false} FirstDifference(a: Peer, b: Peer) returns (i: nat)
    requires |a| == |b| && a != b
    ensures DiffersFirstAt(a, b, i)
  {
    if a[0] != b[0] {
      i := 0;
    } else {
      assert a == [a[0]] + a[1..] && b == [b[0]] + b[1..];
      var j := FirstDifference(a[1..], b[1..]);
      i := j + 1;
      assert a[..i] == [a[0]] + a[1..][..j] && b[..i] == [b[0]] + b[1..][..j];
    }
  }

  /** Reading the bytes big-endian makes the key order the order by length and then by the first difference. */
  lemma PartyOrderIsByLengthThenBytes(a: Peer, b: Peer)
    requires Printable(a) && Printable(b)
    ensures PartyKey(a) < PartyKey(b) <==> ComesBefore(a, b)
    ensures PartyOrder()(a, b) <==> a == b || ComesBefore(a, b)
  {
    if |a| < |b| {
      LongerIsLarger(a, b);
    } else if |b| < |a| {
      LongerIsLarger(b, a);
    } else if a != b {
      var i := FirstDifference(a, b);
      if a[i] < b[i] {
        FirstDifferenceDecides(a, b, i);
      } else {
        FirstDifferenceDecides(b, a, i);
        EqualBefore(a, b, i);
        forall j: int | DiffersFirstAt(a, b, j) ensures j == i {
          EqualBefore(a, b, j);
        }
      }
    }
  }

  lemma PartyOrderLinear(ids: set<Peer>)
    requires forall p | p in ids :: Printable(p)
    ensures LinearOn(PartyOrder(), ids)
  {
    forall a, b | a in ids && b in ids && PartyOrder()(a, b) && PartyOrder()(b, a) ensures a == b {
      PartyKeyInjective(a, b);
    }
  }

  ghost predicate InKeyOrder(ids: seq<Peer>) {
    forall i, j | 0 <= i < j < |ids| :: PartyKey(ids[i]) <= PartyKey(ids[j])
  }

  /** The first n ids are in key order, and so are those behind them. */
  ghost predicate InKeyOrderUpTo(ids: seq<Peer>, n: nat) {
    n <= |ids| && InKeyOrder(ids[..n]) && InKeyOrder(ids[n..])
  }

  lemma SortedIsInKeyOrder(ids: seq<Peer>)
    requires Sorted(PartyOrder(), ids)
    ensures InKeyOrder(ids)
  {
    forall i, j | 0 <= i < j < |ids| ensures PartyKey(ids[i]) <= PartyKey(ids[j]) {
      assert PartyOrder()(ids[i], ids[j]);
    }
  }

  // ---------- party objects ----------

  class Party {
    const id: Peer
    var index: int

    constructor (id: Peer)
      ensures this.id == id && index == -1
    {
      this.id, this.index := id, -1;
    }
  }

  ghost function IdsOf(parties: seq<Party>): (ids: seq<Peer>)
    ensures |ids| == |parties|
    ensures forall i | 0 <= i < |parties| :: ids[i] == parties[i].id
  {
    if parties == [] then [] else [parties[0].id] + IdsOf(parties[1..])
  }

  ghost predicate Separate(parties: seq<Party>) {
    forall i, j | 0 <= i < j < |parties| :: parties[i] != parties[j]
  }

  ghost predicate Indexed(parties: seq<Party>)
    reads parties
  {
    forall i | 0 <= i < |parties| :: parties[i].index == i
  }

  /** Fresh party objects for the peers, in key order, each carrying its own position. Creating and then sorting
      the parties is modelled as sorting the ids and then creating the parties. */
  method PartiesFromPeers(peers: seq<Peer>) returns (parties: seq<Party>)
    requires AllPrintable(peers)
    ensures IdsOf(parties) == Sort(PartyOrder(), peers)
    ensures InKeyOrder(IdsOf(parties))
    ensures Separate(parties) && Indexed(parties)
    ensures fresh(parties)
  {
    var ids := SortPartyIds(peers);
    parties := [];
    for i := 0 to |ids|
      invariant |parties| == i && Separate(parties) && fresh(parties)
      invariant forall k | 0 <= k < i :: parties[k].id == ids[k] && parties[k].index == k
    {
      var party := new Party(ids[i]);
      party.index := i;
      parties := parties + [party];
    }
    assert IdsOf(parties) == ids;
  }

  method SortPartyIds(peers: seq<Peer>) returns (sorted: seq<Peer>)
    requires AllPrintable(peers)
    ensures sorted == Sort(PartyOrder(), peers)
    ensures InKeyOrder(sorted)
  {
    var ids := new Peer[|peers|];
    for i := 0 to |peers|
      invariant ids[..i] == peers[..i]
    {
      ids[i] := peers[i];
    }
    assert ids[..] == peers;
    PartyOrderLinear(Elements(peers));
    SortInPlace(PartyOrder(), ids);
    SortedIsInKeyOrder(ids[..]);
    SortCanonical(PartyOrder(), Elements(peers), peers, ids[..]);
    return ids[..];
  }

  // ---------- sortParties ----------

  /** The ids of a peer list in party order. */
  function InPartyOrder(peers: seq<Peer>): seq<Peer> {
    Sort(PartyOrder(), peers)
  }

  /** Ids of the new parties that are not old ones. */
  function Joining(oldPeers: seq<Peer>): Peer -> bool {
    p => p !in oldPeers
  }

  /** The order sortParties is meant to produce: the old parties first, then the joining ones. */
  function ResharingOrder(parties: seq<Peer>, oldPeers: seq<Peer>): seq<Peer> {
    oldPeers + Filter(Joining(oldPeers), parties)
  }

  /** Whether the running index stays inside the new array. */
  predicate Fits(parties: seq<Peer>, oldPeers: seq<Peer>) {
    var joining := Filter(Joining(oldPeers), parties);
    joining == [] || |oldPeers| + |joining| <= |parties|
  }

  lemma FilterSnoc(keep: Peer -> bool, s: seq<Peer>, i: nat)
    requires i < |s|
    ensures Filter(keep, s[..i + 1]) == Filter(keep, s[..i]) + if keep(s[i]) then [s[i]] else []
    ensures |Filter(keep, s[..i + 1])| <= |Filter(keep, s)|
    ensures keep(s[i]) ==> Filter(keep, s) != []
  {
    assert s[..i + 1] == s[..i] + [s[i]];
    assert s == s[..i + 1] + s[i + 1..];
    FilterAppend(keep, s[..i], [s[i]]);
    FilterAppend(keep, s[..i + 1], s[i + 1..]);
  }

  ghost predicate Carries(parties: seq<Party?>, ids: seq<Peer>) {
    |parties| == |ids| && forall i | 0 <= i < |ids| :: parties[i] != null && parties[i].id == ids[i]
  }

  /** Slot by slot: as many of the old objects as there is room for, then the joining ones, then nothing. */
  ghost predicate Filled(oldParties: seq<Party>, joining: seq<Party>, newParties: seq<Party?>) {
    forall i | 0 <= i < |newParties| ::
      newParties[i] == if i < |oldParties| then oldParties[i]
                       else if i < |oldParties| + |joining| then joining[i - |oldParties|] else null
  }

  /** `copy` of the old parties into a new array: as many as both sides allow. */
  method CopyParties(length: nat, oldParties: seq<Party>) returns (slots: array<Party?>)
    ensures fresh(slots) && slots.Length == length
    ensures Filled(oldParties, [], slots[..])
  {
    slots := new Party?[length](_ => null);
    for i := 0 to if |oldParties| <= length then |oldParties| else length
      invariant forall k | 0 <= k < length :: slots[k] == if k < i then oldParties[k] else null
    {
      slots[i] := oldParties[i];
    }
  }

  /** The objects of the joining parties, in list order. */
  ghost function JoiningParties(parties: seq<Party>, oldPeers: seq<Peer>): (joining: seq<Party>)
    ensures forall p | p in joining :: p in parties
  {
    if parties == [] then []
    else
      var last := parties[|parties| - 1];
      JoiningParties(parties[..|parties| - 1], oldPeers) + if last.id in oldPeers then [] else [last]
  }

  lemma {:induction false} JoiningPartiesIds(parties: seq<Party>, oldPeers: seq<Peer>)
    ensures IdsOf(JoiningParties(parties, oldPeers)) == Filter(Joining(oldPeers), IdsOf(parties))
    ensures |JoiningParties(parties, oldPeers)| == |Filter(Joining(oldPeers), IdsOf(parties))|
  {
    if parties != [] {
      var n := |parties| - 1;
      JoiningPartiesIds(parties[..n], oldPeers);
      FilterSnoc(Joining(oldPeers), IdsOf(parties), n);
      assert IdsOf(parties)[..n + 1] == IdsOf(parties) && IdsOf(parties)[..n] == IdsOf(parties[..n]);
      IdsSnoc(JoiningParties(parties[..n], oldPeers), parties[n]);
    }
  }

  lemma {:induction false} JoiningPrefix(parties: seq<Party>, oldPeers: seq<Peer>, i: nat)
    requires i < |parties|
    ensures parties[i].id in oldPeers ==>
              JoiningParties(parties[..i + 1], oldPeers) == JoiningParties(parties[..i], oldPeers)
    ensures parties[i].id !in oldPeers ==>
              JoiningParties(parties[..i + 1], oldPeers) == JoiningParties(parties[..i], oldPeers) + [parties[i]]
    ensures |JoiningParties(parties[..i + 1], oldPeers)| <= |JoiningParties(parties, oldPeers)|
    decreases |parties|
  {
    assert parties[..i + 1][..i] == parties[..i];
    assert JoiningParties(parties[..i], oldPeers) + [] == JoiningParties(parties[..i], oldPeers);
    if i + 1 < |parties| {
      var shorter := parties[..|parties| - 1];
      assert shorter[..i + 1] == parties[..i + 1] && shorter[..i] == parties[..i];
      JoiningPrefix(shorter, oldPeers, i);
    } else {
      assert parties[..i + 1] == parties;
    }
  }

  lemma IdsSnoc(parties: seq<Party>, p: Party)
    ensures IdsOf(parties + [p]) == IdsOf(parties) + [p.id]
  {
  }

  /** What is left of a decoding whose error is ignored. */
  function DecodedOrEmpty(decode: Decoder, id: string): Peer {
    match decode(id)
    case Some(peer) => peer
    case None => ""
  }

  ghost predicate ReadBack(decode: Decoder, parties: seq<Party>) {
    forall i | 0 <= i < |parties| :: DecodedOrEmpty(decode, parties[i].id) == parties[i].id
  }

  lemma IdsReadBack(decode: Decoder, parties: seq<Party>)
    requires Decodes(decode, IdsOf(parties))
    ensures ReadBack(decode, parties)
  {
    forall i | 0 <= i < |parties| ensures DecodedOrEmpty(decode, parties[i].id) == parties[i].id {
      assert IdsOf(parties)[i] in IdsOf(parties);
    }
  }

  /** The peers whose printed ids the parties carry; one id that cannot be read spoils the whole list. */
  method PeersFromParties(decode: Decoder, parties: seq<Party>) returns (peers: Option<seq<Peer>>)
    ensures peers.Some? <==> forall p | p in parties :: decode(p.id).Some?
    ensures peers.Some? ==> |peers.value| == |parties|
                            && forall i | 0 <= i < |parties| :: decode(parties[i].id) == Some(peers.value[i])
    ensures Decodes(decode, IdsOf(parties)) ==> peers == Some(IdsOf(parties))
  {
    var read: seq<Peer> := [];
    for i := 0 to |parties|
      invariant |read| == i && forall k | 0 <= k < i :: decode(parties[k].id) == Some(read[k])
    {
      assert IdsOf(parties)[i] == parties[i].id;
      match decode(parties[i].id) {
        case None => return None;
        case Some(peer) => read := read + [peer];
      }
    }
    assert Decodes(decode, IdsOf(parties)) ==> read == IdsOf(parties) by {
      if Decodes(decode, IdsOf(parties)) {
        forall k | 0 <= k < |parties| ensures read[k] == IdsOf(parties)[k] {
          assert IdsOf(parties)[k] in IdsOf(parties);
        }
      }
    }
    return Some(read);
  }

  /** The joining parties stand behind each other from position `base` on, and carry their positions. */
  ghost predicate Placed(slots: seq<Party?>, joining: seq<Party>, base: nat)
    reads joining
  {
    && (joining != [] ==> base + |joining| <= |slots|)
    && forall k | base <= k < base + |joining| :: slots[k] == joining[k - base] && joining[k - base].index == k
  }

  /** The joining parties have taken the slots from `base` on, and all other slots are as they were. */
  ghost predicate Laid(before: seq<Party?>, after: seq<Party?>, joining: seq<Party>, base: nat) {
    |after| == |before| && forall k | 0 <= k < |after| ::
      after[k] == if base <= k < base + |joining| then joining[k - base] else before[k]
  }

  lemma LaidFills(oldParties: seq<Party>, joining: seq<Party>, copied: seq<Party?>, newParties: seq<Party?>)
    requires Filled(oldParties, [], copied) && Laid(copied, newParties, joining, |oldParties|)
    ensures Filled(oldParties, joining, newParties)
  {
  }

  /** The placing loop: joining parties go to `slots` from position `base` on, and are told their position. */
  method PlaceJoining(
    decode: Decoder, parties: seq<Party>, oldPeers: seq<Peer>, slots: array<Party?>, base: nat, ghost repr: set<Party>)
    returns (ok: bool)
    requires ReadBack(decode, parties)
    requires Separate(parties) && slots.Length == |parties| && repr == set p | p in parties
    modifies slots, repr
    ensures ok <==> (JoiningParties(parties, oldPeers) == [] || base + |JoiningParties(parties, oldPeers)| <= |parties|)
    ensures ok ==> Placed(slots[..], JoiningParties(parties, oldPeers), base)
    ensures ok ==> Laid(old(slots[..]), slots[..], JoiningParties(parties, oldPeers), base)
    ensures forall p | p in repr && p.id in oldPeers :: p.index == old(p.index)
  {
    var index := base;
    ghost var joined: seq<Party> := [];
    for i := 0 to |parties|
      invariant joined == JoiningParties(parties[..i], oldPeers)
      invariant index == base + |joined| && (index > base ==> index <= |parties|)
      invariant forall k | base <= k < index :: slots[k] == joined[k - base] && slots[k].index == k
      invariant forall k | 0 <= k < base && k < slots.Length :: slots[k] == old(slots[k])
      invariant forall k | index <= k < slots.Length :: slots[k] == old(slots[k])
      invariant forall p | p in repr && p.id in oldPeers :: p.index == old(p.index)
    {
      JoiningPrefix(parties, oldPeers, i);
      if DecodedOrEmpty(decode, parties[i].id) !in oldPeers {
        if index >= slots.Length { return false; }
        NotYetPlaced(parties, oldPeers, i);
        slots[index] := parties[i];
        parties[i].index := index;
        joined := joined + [parties[i]];
        index := index + 1;
      }
    }
    assert parties[..|parties|] == parties;
    assert joined == JoiningParties(parties, oldPeers);
    forall k | base <= k < base + |joined| ensures slots[..][k] == joined[k - base] && joined[k - base].index == k {
      assert slots[k] == joined[k - base];
    }
    assert Laid(old(slots[..]), slots[..], joined, base);
    return true;
  }

  lemma NotYetPlaced(parties: seq<Party>, oldPeers: seq<Peer>, i: nat)
    requires Separate(parties) && i < |parties|
    ensures forall k | 0 <= k < |JoiningParties(parties[..i], oldPeers)| ::
              JoiningParties(parties[..i], oldPeers)[k] != parties[i]
  {
    forall k | 0 <= k < |JoiningParties(parties[..i], oldPeers)|
      ensures JoiningParties(parties[..i], oldPeers)[k] != parties[i]
    {
      assert JoiningParties(parties[..i], oldPeers)[k] in parties[..i];
    }
  }

  /** The finished list: the old objects first, then the joining ones, each of which carries its position;
      the ids are those of the resharing order. */
  ghost predicate Arranged(parties: seq<Party>, oldParties: seq<Party>, newParties: seq<Party?>)
    reads parties
  {
    && Carries(newParties, ResharingOrder(IdsOf(parties), IdsOf(oldParties)))
    && (forall i | 0 <= i < |oldParties| :: newParties[i] == oldParties[i])
    && (forall i | |oldParties| <= i < |newParties| :: newParties[i] in parties && newParties[i].index == i)
  }

  lemma AssembledIds(parties: seq<Party>, oldParties: seq<Party>, newParties: seq<Party?>)
    requires |newParties| == |oldParties| + |JoiningParties(parties, IdsOf(oldParties))|
    requires forall i | 0 <= i < |oldParties| :: newParties[i] == oldParties[i]
    requires Placed(newParties, JoiningParties(parties, IdsOf(oldParties)), |oldParties|)
    ensures Carries(newParties, ResharingOrder(IdsOf(parties), IdsOf(oldParties)))
  {
    var n, joining := |oldParties|, JoiningParties(parties, IdsOf(oldParties));
    var order := ResharingOrder(IdsOf(parties), IdsOf(oldParties));
    JoiningPartiesIds(parties, IdsOf(oldParties));
    assert order == IdsOf(oldParties) + IdsOf(joining);
    forall i | 0 <= i < |newParties| ensures newParties[i] != null && newParties[i].id == order[i] {
      if i < n {
        assert order[i] == IdsOf(oldParties)[i];
      } else {
        assert newParties[i] == joining[i - n];
        assert order[i] == IdsOf(joining)[i - n];
      }
    }
  }

  lemma Assembled(parties: seq<Party>, oldParties: seq<Party>, newParties: seq<Party?>)
    requires |newParties| == |oldParties| + |JoiningParties(parties, IdsOf(oldParties))|
    requires forall i | 0 <= i < |oldParties| :: newParties[i] == oldParties[i]
    requires Placed(newParties, JoiningParties(parties, IdsOf(oldParties)), |oldParties|)
    ensures Arranged(parties, oldParties, newParties)
  {
    var n, joining := |oldParties|, JoiningParties(parties, IdsOf(oldParties));
    AssembledIds(parties, oldParties, newParties);
    forall i | n <= i < |newParties| ensures newParties[i] in parties && newParties[i].index == i {
      assert newParties[i] == joining[i - n] && joining[i - n] in joining;
    }
  }

  /** Builds the party list over the given objects, writing the position of each joining party into the object
      itself. `ok` is false when the Go code would write past the end of its array; when the old and the joining
      parties together fill the array it holds the arranged list. */
  method SortParties(decode: Decoder, parties: seq<Party>, oldParties: seq<Party>, ghost repr: set<Party>)
    returns (ok: bool, newParties: seq<Party?>)
    requires Decodes(decode, IdsOf(parties)) && Decodes(decode, IdsOf(oldParties))
    requires Separate(parties) && Separate(oldParties) && repr == set p | p in parties
    modifies repr
    ensures ok <==> Fits(IdsOf(parties), IdsOf(oldParties))
    ensures forall p | p in repr && p.id in IdsOf(oldParties) :: p.index == old(p.index)
    ensures ok ==> |newParties| == |parties|
    ensures ok ==> Filled(oldParties, JoiningParties(parties, IdsOf(oldParties)), newParties)
    ensures ok && |ResharingOrder(IdsOf(parties), IdsOf(oldParties))| == |parties| ==>
              Arranged(parties, oldParties, newParties)
  {
    var read := PeersFromParties(decode, oldParties);
    var oldPeers := if read.Some? then read.value else [];
    JoiningPartiesIds(parties, oldPeers);
    IdsReadBack(decode, parties);
    var slots := CopyParties(|parties|, oldParties);
    ghost var copied := slots[..];
    ok := PlaceJoining(decode, parties, oldPeers, slots, |oldParties|, repr);
    newParties := slots[..];
    if ok {
      LaidFills(oldParties, JoiningParties(parties, oldPeers), copied, newParties);
    }
    if ok && |oldParties| + |JoiningParties(parties, oldPeers)| == |parties| {
      Assembled(parties, oldParties, newParties);
    }
  }

  lemma SortedDecodes(decode: Decoder, peers: seq<Peer>)
    requires Decodes(decode, peers)
    ensures Decodes(decode, InPartyOrder(peers))
    ensures |InPartyOrder(peers)| == |peers|
  {
    SortedPeers(peers);
    PermutationElements(InPartyOrder(peers), peers);
  }

  /** The objects of the list have the given ids, and each carries its own position. */
  ghost predicate InPlace(parties: seq<Party?>, ids: seq<Peer>)
    reads parties
  {
    && |parties| == |ids|
    && forall i | 0 <= i < |ids| :: parties[i] != null && parties[i].id == ids[i] && parties[i].index == i
  }

  lemma ArrangedIsInPlace(parties: seq<Party>, oldParties: seq<Party>, newParties: seq<Party?>)
    requires Arranged(parties, oldParties, newParties) && Indexed(oldParties)
    ensures InPlace(newParties, ResharingOrder(IdsOf(parties), IdsOf(oldParties)))
  {
    forall i | 0 <= i < |newParties| ensures newParties[i] != null && newParties[i].index == i {
      if i < |oldParties| { assert newParties[i] == oldParties[i]; }
    }
  }

  /** Sorting the party objects of a resharing leaves those of the old parties alone. */
  method SortApart(decode: Decoder, allParties: seq<Party>, oldParties: seq<Party>)
    returns (ok: bool, parties: seq<Party?>)
    requires Decodes(decode, IdsOf(allParties)) && Decodes(decode, IdsOf(oldParties))
    requires Separate(allParties) && Separate(oldParties) && Indexed(oldParties)
    requires forall p | p in oldParties :: p !in allParties
    modifies set p | p in allParties
    ensures ok <==> Fits(IdsOf(allParties), IdsOf(oldParties))
    ensures ok && |ResharingOrder(IdsOf(allParties), IdsOf(oldParties))| == |allParties| ==>
              InPlace(parties, ResharingOrder(IdsOf(allParties), IdsOf(oldParties)))
  {
    ok, parties := SortParties(decode, allParties, oldParties, set p | p in allParties);
    if ok && |ResharingOrder(IdsOf(allParties), IdsOf(oldParties))| == |allParties| {
      ArrangedIsInPlace(allParties, oldParties, parties);
    }
  }

  /** The party list of a resharing, from the start parameters' subset and the peerstore. For a duplicate-free
      subset of the peerstore it is a permutation of all parties with the old ones first, in key order, and
      every object carries its own position. */
  method ReshareParties(decode: Decoder, oldSubset: seq<Peer>, peerstore: seq<Peer>)
    returns (ok: bool, parties: seq<Party?>)
    requires AllPrintable(oldSubset) && AllPrintable(peerstore)
    requires Decodes(decode, oldSubset) && Decodes(decode, peerstore)
    ensures ok <==> Fits(InPartyOrder(peerstore), InPartyOrder(oldSubset))
    ensures Distinct(oldSubset) && Distinct(peerstore) && Elements(oldSubset) <= Elements(peerstore) ==>
              && ok && |parties| == |peerstore|
              && InPlace(parties, ResharingOrder(InPartyOrder(peerstore), InPartyOrder(oldSubset)))
  {
    var oldParties := PartiesFromPeers(oldSubset);
    var allParties := PartiesFromPeers(peerstore);
    SortedDecodes(decode, oldSubset);
    SortedDecodes(decode, peerstore);
    ok, parties := SortApart(decode, allParties, oldParties);
    if Distinct(oldSubset) && Distinct(peerstore) && Elements(oldSubset) <= Elements(peerstore) {
      OldAndJoiningFill(peerstore, oldSubset);
      FitsSorted(peerstore, oldSubset);
    }
  }

  // ---------- what the party order guarantees ----------

  lemma SortedPeers(peers: seq<Peer>)
    ensures Permutation(InPartyOrder(peers), peers)
    ensures Elements(InPartyOrder(peers)) == Elements(peers) && |InPartyOrder(peers)| == |peers|
    ensures Distinct(peers) ==> Distinct(InPartyOrder(peers))
  {
    SortPermutes(PartyOrder(), peers);
    PermutationElements(InPartyOrder(peers), peers);
    if Distinct(peers) { PermutationDistinct(peers, InPartyOrder(peers)); }
  }

  lemma ResharingOrderMembers(parties: seq<Peer>, oldPeers: seq<Peer>)
    requires Distinct(parties) && Distinct(oldPeers)
    ensures Distinct(ResharingOrder(parties, oldPeers))
    ensures Elements(ResharingOrder(parties, oldPeers)) == Elements(oldPeers) + Elements(parties)
  {
    var joining := Filter(Joining(oldPeers), parties);
    FilterMembers(Joining(oldPeers), parties);
    FilterDistinct(Joining(oldPeers), parties);
    var order := ResharingOrder(parties, oldPeers);
    forall p ensures p in Elements(order) <==> p in Elements(oldPeers) + Elements(parties) {
      assert p in order <==> p in oldPeers || p in joining;
    }
    forall i, j | 0 <= i < j < |order| ensures order[i] != order[j] {
      if i < |oldPeers| <= j {
        assert order[j] in joining && order[i] in oldPeers;
      }
    }
  }

  /** How many parties join: those of the duplicate-free list that are not old. */
  lemma JoiningCount(parties: seq<Peer>, oldPeers: seq<Peer>)
    requires Distinct(parties) && Distinct(oldPeers)
    ensures |oldPeers| + |Filter(Joining(oldPeers), parties)| == |Elements(oldPeers) + Elements(parties)|
    ensures Elements(oldPeers) <= Elements(parties) ==> |oldPeers| + |Filter(Joining(oldPeers), parties)| == |parties|
  {
    ResharingOrderMembers(parties, oldPeers);
    DistinctIffCardinality(ResharingOrder(parties, oldPeers));
    DistinctIffCardinality(parties);
    if Elements(oldPeers) <= Elements(parties) {
      assert Elements(oldPeers) + Elements(parties) == Elements(parties);
    }
  }

  /** The parties are the joining ones and those that are old; of the latter there are no more than old peers, and
      as many only if the old peers are all different and all among the parties. */
  lemma OldParties(parties: seq<Peer>, oldPeers: seq<Peer>)
    requires Distinct(parties)
    ensures |oldPeers| + |Filter(Joining(oldPeers), parties)| <= |parties|
       <==> Distinct(oldPeers) && Elements(oldPeers) <= Elements(parties)
  {
    var staying := Filter(Among(oldPeers), parties);
    FilterSplits(oldPeers, parties);
    FilterMembers(Among(oldPeers), parties);
    FilterDistinct(Among(oldPeers), parties);
    DistinctIffCardinality(staying);
    assert Elements(staying) == Elements(oldPeers) * Elements(parties) by {
      forall p ensures p in Elements(staying) <==> p in Elements(oldPeers) && p in Elements(parties) {
        assert p in staying <==> p in oldPeers && p in parties;
      }
    }
    DistinctIffCardinality(oldPeers);
    assert Elements(staying) <= Elements(oldPeers);
    SubsetCardinality(Elements(staying), Elements(oldPeers));
    if Elements(oldPeers) <= Elements(parties) {
      assert Elements(staying) == Elements(oldPeers);
    }
  }

  lemma {:induction false} FilterSplits(oldPeers: seq<Peer>, parties: seq<Peer>)
    ensures |Filter(Joining(oldPeers), parties)| + |Filter(Among(oldPeers), parties)| == |parties|
  {
    if parties != [] { FilterSplits(oldPeers, parties[1..]); }
  }

  /** Nobody joins, or the old peers are different members of the new list. */
  ghost predicate Nested(parties: seq<Peer>, oldPeers: seq<Peer>) {
    || Elements(parties) <= Elements(oldPeers)
    || (Distinct(oldPeers) && Elements(oldPeers) <= Elements(parties))
  }

  /** For a peerstore without duplicates the index stays in bounds exactly when nobody joins, or the old peers are
      different members of the peerstore. */
  lemma FitsIffNested(parties: seq<Peer>, oldPeers: seq<Peer>)
    requires Distinct(parties)
    ensures Fits(parties, oldPeers) <==> Nested(parties, oldPeers)
  {
    OldParties(parties, oldPeers);
    FilterMembers(Joining(oldPeers), parties);
    var joining := Filter(Joining(oldPeers), parties);
    if joining != [] {
      assert joining[0] in joining && joining[0] in Elements(parties);
    }
    if p :| p in Elements(parties) && p !in Elements(oldPeers) {
      assert p in joining;
    }
  }

  lemma FitsSorted(peerstore: seq<Peer>, oldSubset: seq<Peer>)
    requires Distinct(peerstore)
    ensures Fits(InPartyOrder(peerstore), InPartyOrder(oldSubset)) <==> Nested(peerstore, oldSubset)
  {
    SortedPeers(peerstore);
    SortedPeers(oldSubset);
    if Distinct(InPartyOrder(oldSubset)) { PermutationDistinct(InPartyOrder(oldSubset), oldSubset); }
    FitsIffNested(InPartyOrder(peerstore), InPartyOrder(oldSubset));
  }

  lemma OldAndJoiningFill(peerstore: seq<Peer>, oldSubset: seq<Peer>)
    requires Distinct(oldSubset) && Distinct(peerstore) && Elements(oldSubset) <= Elements(peerstore)
    ensures |ResharingOrder(InPartyOrder(peerstore), InPartyOrder(oldSubset))| == |peerstore|
  {
    SortedPeers(peerstore);
    SortedPeers(oldSubset);
    JoiningCount(InPartyOrder(peerstore), InPartyOrder(oldSubset));
  }

  lemma PartyOrderTotal(ids: set<Peer>)
    ensures TotalOn(PartyOrder(), ids)
  {
  }

  lemma EachPartInOrder(peerstore: seq<Peer>, oldSubset: seq<Peer>)
    ensures InKeyOrderUpTo(ResharingOrder(InPartyOrder(peerstore), InPartyOrder(oldSubset)), |oldSubset|)
  {
    var joining := Filter(Joining(InPartyOrder(oldSubset)), InPartyOrder(peerstore));
    var order := ResharingOrder(InPartyOrder(peerstore), InPartyOrder(oldSubset));
    SortedPeers(oldSubset);
    PartyOrderTotal(Elements(oldSubset));
    PartyOrderTotal(Elements(peerstore));
    SortIsSorted(PartyOrder(), Elements(oldSubset), oldSubset);
    SortIsSorted(PartyOrder(), Elements(peerstore), peerstore);
    FilterSorted(PartyOrder(), Joining(InPartyOrder(oldSubset)), InPartyOrder(peerstore));
    SortedIsInKeyOrder(InPartyOrder(oldSubset));
    SortedIsInKeyOrder(joining);
    assert order[..|oldSubset|] == InPartyOrder(oldSubset) && order[|oldSubset|..] == joining;
  }

  /** The party list is a permutation of the new peers with the old ones as a prefix. */
  lemma ResharingOrderPermutes(peerstore: seq<Peer>, oldSubset: seq<Peer>)
    requires Distinct(oldSubset) && Distinct(peerstore) && Elements(oldSubset) <= Elements(peerstore)
    ensures Permutation(ResharingOrder(InPartyOrder(peerstore), InPartyOrder(oldSubset)), peerstore)
    ensures InPartyOrder(oldSubset) <= ResharingOrder(InPartyOrder(peerstore), InPartyOrder(oldSubset))
    ensures InKeyOrderUpTo(ResharingOrder(InPartyOrder(peerstore), InPartyOrder(oldSubset)), |oldSubset|)
  {
    EachPartInOrder(peerstore, oldSubset);
    SortedPeers(peerstore);
    SortedPeers(oldSubset);
    ResharingOrderMembers(InPartyOrder(peerstore), InPartyOrder(oldSubset));
    assert Elements(oldSubset) + Elements(peerstore) == Elements(peerstore);
    SameMembersPermutation(ResharingOrder(InPartyOrder(peerstore), InPartyOrder(oldSubset)), peerstore);
  }

  /** It does not depend on the order in which either peer list was given, so all nodes index parties alike. */
  lemma ResharingOrderIndependent(
    peerstore: seq<Peer>, peerstore': seq<Peer>, oldSubset: seq<Peer>, oldSubset': seq<Peer>)
    requires AllPrintable(oldSubset) && AllPrintable(peerstore)
    requires Permutation(peerstore, peerstore') && Permutation(oldSubset, oldSubset')
    ensures ResharingOrder(InPartyOrder(peerstore), InPartyOrder(oldSubset))
         == ResharingOrder(InPartyOrder(peerstore'), InPartyOrder(oldSubset'))
  {
    PartyOrderLinear(Elements(peerstore));
    PartyOrderLinear(Elements(oldSubset));
    SortCanonical(PartyOrder(), Elements(peerstore), peerstore, peerstore');
    SortCanonical(PartyOrder(), Elements(oldSubset), oldSubset, oldSubset');
  }

  // ---------- start parameters ----------

  datatype Params = Params(oldThreshold: int, oldSubset: seq<Peer>)

  datatype Verdict = Accepted | ThresholdTooSmall | ThresholdBiggerThanSubset | InvalidSubset

  /** What a node accepts, on lists in any order. */
  function Judge(params: Params, keyPeers: seq<Peer>, peerstore: seq<Peer>): Verdict {
    if params.oldThreshold <= 0 then ThresholdTooSmall
    else if |params.oldSubset| < params.oldThreshold then ThresholdBiggerThanSubset
    else if keyPeers != [] && multiset(params.oldSubset) != multiset(Filter(Among(peerstore), keyPeers)) then
      InvalidSubset
    else Accepted
  }

  /** Every verdict in terms of the peers alone: a node with a key accepts a subset exactly when it holds each key
      peer of the peerstore as often as the key does, and nobody else. */
  lemma VerdictExactly(params: Params, keyPeers: seq<Peer>, peerstore: seq<Peer>)
    ensures Judge(params, keyPeers, peerstore) == ThresholdTooSmall <==> params.oldThreshold <= 0
    ensures Judge(params, keyPeers, peerstore) == ThresholdBiggerThanSubset <==>
            params.oldThreshold > 0 && params.oldThreshold > |params.oldSubset|
    ensures Judge(params, keyPeers, peerstore) == Accepted <==>
            && 0 < params.oldThreshold <= |params.oldSubset|
            && (keyPeers == [] || forall p ::
                  multiset(params.oldSubset)[p] == if p in peerstore then multiset(keyPeers)[p] else 0)
  {
    FilterMembers(Among(peerstore), keyPeers);
    var kept := Filter(Among(peerstore), keyPeers);
    if forall p :: multiset(params.oldSubset)[p] == if p in peerstore then multiset(keyPeers)[p] else 0 {
      assert multiset(params.oldSubset) == multiset(kept);
    }
  }

  /** With a duplicate-free key: accepted are the subsets that name exactly the key peers of the peerstore, each
      once; leaving one out is as invalid as adding one. */
  lemma AcceptedNamesExactly(params: Params, keyPeers: seq<Peer>, peerstore: seq<Peer>)
    requires keyPeers != [] && Distinct(keyPeers) && 0 < params.oldThreshold <= |params.oldSubset|
    ensures Judge(params, keyPeers, peerstore) ==
            if Distinct(params.oldSubset) && forall p :: p in params.oldSubset <==> p in keyPeers && p in peerstore
            then Accepted else InvalidSubset
  {
    var kept := Filter(Among(peerstore), keyPeers);
    FilterMembers(Among(peerstore), keyPeers);
    FilterDistinct(Among(peerstore), keyPeers);
    if multiset(params.oldSubset) == multiset(kept) {
      PermutationElements(params.oldSubset, kept);
      PermutationDistinct(kept, params.oldSubset);
    } else if Distinct(params.oldSubset) && forall p :: p in params.oldSubset <==> p in keyPeers && p in peerstore {
      forall p ensures p in Elements(params.oldSubset) <==> p in Elements(kept) {
        assert p in params.oldSubset <==> p in kept;
      }
      SameMembersPermutation(params.oldSubset, kept);
      assert false;
    }
  }

  /** Sorts both lists in place before comparing them; `order` is Go's order on raw peer ids, any linear order. */
  method ValidateStartParams(
    order: (Peer, Peer) -> bool, threshold: int, subset: array<Peer>, keyPeers: array<Peer>, peerstore: seq<Peer>)
    returns (verdict: Verdict)
    requires subset != keyPeers
    requires LinearOn(order, Elements(subset[..]) + Elements(keyPeers[..]))
    modifies subset, keyPeers
    ensures verdict == Judge(Params(threshold, old(subset[..])), old(keyPeers[..]), peerstore)
    ensures verdict in {ThresholdTooSmall, ThresholdBiggerThanSubset} ==>
              subset[..] == old(subset[..]) && keyPeers[..] == old(keyPeers[..])
    ensures verdict in {Accepted, InvalidSubset} ==>
              && Permutation(subset[..], old(subset[..])) && Sorted(order, subset[..])
              && Permutation(keyPeers[..], old(keyPeers[..])) && Sorted(order, keyPeers[..])
  {
    if threshold <= 0 { return ThresholdTooSmall; }
    if subset.Length < threshold { return ThresholdBiggerThanSubset; }
    ghost var dom := Elements(subset[..]) + Elements(keyPeers[..]);
    SortInPlace(order, subset);
    SortInPlace(order, keyPeers);
    PermutationElements(keyPeers[..], old(keyPeers[..]));
    PermutationElements(subset[..], old(subset[..]));
    if keyPeers.Length != 0 {
      var expected := PeersIntersection(keyPeers[..], peerstore);
      FilterPermutation(Among(peerstore), keyPeers[..], old(keyPeers[..]));
      FilterSorted(order, Among(peerstore), keyPeers[..]);
      if subset[..] != expected {
        if multiset(subset[..]) == multiset(expected) {
          SortedUnique(order, dom, subset[..], expected);
          assert false;
        }
        return InvalidSubset;
      }
    }
    return Accepted;
  }

  /** What an honest leader announces: the threshold of its key, and the key peers in its peerstore. */
  function Announced(keyThreshold: int, keyPeers: seq<Peer>, peerstore: seq<Peer>): Params {
    Params(keyThreshold, Filter(Among(peerstore), keyPeers))
  }

  method StartParams(keyThreshold: int, keyPeers: seq<Peer>, peerstore: seq<Peer>) returns (params: Params)
    ensures params == Announced(keyThreshold, keyPeers, peerstore)
  {
    var oldSubset := PeersIntersection(keyPeers, peerstore);
    return Params(keyThreshold, oldSubset);
  }

  /** An honest leader's parameters are judged by their thresholds alone at every node that holds the same key
      peers and the same peerstore, in whatever order, and at every node without a key. */
  lemma HonestLeaderAccepted(
    threshold: int, leaderKey: seq<Peer>, leaderStore: seq<Peer>, nodeKey: seq<Peer>, nodeStore: seq<Peer>)
    requires nodeKey == [] || (Permutation(leaderKey, nodeKey) && Elements(leaderStore) == Elements(nodeStore))
    ensures var params := Announced(threshold, leaderKey, leaderStore);
            Judge(params, nodeKey, nodeStore) == Accepted <==> 0 < threshold <= |params.oldSubset|
  {
    if nodeKey != [] {
      forall p ensures p in leaderStore <==> p in nodeStore {
        assert p in Elements(leaderStore) <==> p in Elements(nodeStore);
      }
      SameFilter(Among(leaderStore), Among(nodeStore), leaderKey);
      FilterPermutation(Among(nodeStore), leaderKey, nodeKey);
    }
  }

  // ---------- which accepted parameters give a party list ----------

  /** Whether the party list of the announced subset is built inside its array. */
  predicate Builds(params: Params, peerstore: seq<Peer>) {
    Fits(InPartyOrder(peerstore), InPartyOrder(params.oldSubset))
  }

  /** At a node that holds a key, parameters that pass the checks name different members of the peerstore, so
      the party list that follows stays inside its array and covers the whole peerstore. */
  lemma AcceptedBuilds(params: Params, keyPeers: seq<Peer>, peerstore: seq<Peer>)
    requires Distinct(keyPeers) && Distinct(peerstore)
    requires keyPeers != [] && Judge(params, keyPeers, peerstore) == Accepted
    ensures Distinct(params.oldSubset) && Elements(params.oldSubset) <= Elements(peerstore)
    ensures Builds(params, peerstore)
  {
    var kept := Filter(Among(peerstore), keyPeers);
    FilterMembers(Among(peerstore), keyPeers);
    FilterDistinct(Among(peerstore), keyPeers);
    PermutationDistinct(kept, params.oldSubset);
    PermutationElements(kept, params.oldSubset);
    forall p | p in Elements(params.oldSubset) ensures p in Elements(peerstore) {
      assert p in kept;
    }
    FitsSorted(peerstore, params.oldSubset);
  }

  /** A node without a key checks the thresholds only. What it accepts makes the party list overrun its array
      exactly when somebody in its peerstore joins and the subset repeats a peer or names an unknown one. */
  lemma KeylessOverrun(params: Params, peerstore: seq<Peer>)
    requires Distinct(peerstore)
    ensures Judge(params, [], peerstore) == Accepted && !Builds(params, peerstore) <==>
            && 0 < params.oldThreshold <= |params.oldSubset|
            && !Nested(peerstore, params.oldSubset)
  {
    FitsSorted(peerstore, params.oldSubset);
  }

  /** The smallest such case: the leader names one peer the keyless node does not know. */
  lemma KeylessOverrunExample(known: Peer, unknown: Peer)
    requires known != unknown
    ensures Judge(Params(1, [unknown]), [], [known]) == Accepted
    ensures !Builds(Params(1, [unknown]), [known])
  {
    assert known in [known] && unknown in [unknown];
    assert known in Elements([known]) && unknown in Elements([unknown]);
    KeylessOverrun(Params(1, [unknown]), [known]);
  }

  /** The peers that may lead a resharing: those of the peerstore that hold a share. */
  method ValidCoordinators(keyPeers: seq<Peer>, peerstore: seq<Peer>) returns (valid: seq<Peer>)
    ensures valid == Filter(Among(keyPeers), peerstore)
  {
    valid := [];
    for i := 0 to |peerstore|
      invariant valid == Filter(Among(keyPeers), peerstore[..i])
    {
      FilterSnoc(Among(keyPeers), peerstore, i);
      ghost var before := valid;
      for j := 0 to |keyPeers|
        invariant valid == before && peerstore[i] !in keyPeers[..j]
      {
        if keyPeers[j] == peerstore[i] {
          valid := valid + [peerstore[i]];
          break;
        }
      }
    }
    assert peerstore[..|peerstore|] == peerstore;
  }

  /** All nodes that share key peers and peerstore as sets agree on who leads a resharing. */
  lemma OneReshareLeader(
    hash: Hash, sessionID: string, keyA: seq<Peer>, storeA: seq<Peer>, keyB: seq<Peer>, storeB: seq<Peer>)
    requires Elements(keyA) == Elements(keyB) && Elements(storeA) == Elements(storeB)
    requires Distinct(storeA) && Distinct(storeB) && DistinctRanks(hash, sessionID, Elements(storeA))
    ensures StaticCoordinator(hash, sessionID, Filter(Among(keyA), storeA))
         == StaticCoordinator(hash, sessionID, Filter(Among(keyB), storeB))
  {
    forall p ensures p in keyA <==> p in keyB {
      assert p in Elements(keyA) <==> p in Elements(keyB);
    }
    SameFilter(Among(keyA), Among(keyB), storeA);
    SameMembersPermutation(storeA, storeB);
    FilterPermutation(Among(keyB), storeA, storeB);
    FilterMembers(Among(keyA), storeA);
    assert Elements(Filter(Among(keyA), storeA)) <= Elements(storeA) by {
      forall p | p in Elements(Filter(Among(keyA), storeA)) ensures p in Elements(storeA) {
        assert p in Filter(Among(keyA), storeA);
      }
    }
    RankingIndependent(hash, sessionID, Filter(Among(keyA), storeA), Filter(Among(keyB), storeB));
  }
}
