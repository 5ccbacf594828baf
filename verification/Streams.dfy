/**
 The stream manager: open streams by session and peer, closed together when their session is released.
 */
module Streams {
  import opened Sorting
  import opened Ranking

  /** The table the nested map stands for. */
  type Table<S> = map<(string, Peer), S>

  function Added<S>(table: Table<S>, sessionID: string, peer: Peer, stream: S): Table<S> {
    if (sessionID, peer) in table then table else table[(sessionID, peer) := stream]
  }

  function Released<S>(table: Table<S>, sessionID: string): Table<S> {
    map k | k in table && k.0 != sessionID :: table[k]
  }

  class Stream {
    var closes: nat

    constructor ()
      ensures closes == 0
    {
      closes := 0;
    }

    method Close()
      modifies this
      ensures closes == old(closes) + 1
    {
      closes := closes + 1;
    }
  }

  datatype Fetched = NoStream | Found(stream: Stream)

  ghost function TableOf<S>(m: map<string, map<Peer, S>>): (table: Table<S>)
    ensures forall s, p :: (s, p) in table <==> s in m && p in m[s]
    ensures forall s, p | (s, p) in table :: table[(s, p)] == m[s][p]
  {
    map k | k in (set s, p | s in m && p in m[s] :: (s, p)) :: m[k.0][k.1]
  }

  function OfSession<S>(m: map<string, map<Peer, S>>, s: string): map<Peer, S> {
    if s in m then m[s] else map[]
  }

  lemma TableOfAdded<S>(m: map<string, map<Peer, S>>, s: string, p: Peer, stream: S)
    requires s in m ==> p !in m[s]
    ensures TableOf(m[s := OfSession(m, s)[p := stream]]) == Added(TableOf(m), s, p, stream)
  {
    var m' := m[s := OfSession(m, s)[p := stream]];
    forall k ensures k in TableOf(m') <==> k in Added(TableOf(m), s, p, stream) {
      assert k == (k.0, k.1);
    }
  }

  lemma TableOfReleased<S>(m: map<string, map<Peer, S>>, s: string)
    ensures TableOf(m - {s}) == Released(TableOf(m), s)
  {
    forall k ensures k in TableOf(m - {s}) <==> k in Released(TableOf(m), s) {
      assert k == (k.0, k.1);
    }
  }

  /** The entries of a session that hold the stream: how often a release of the session closes it. */
  ghost function EntriesOf<S>(table: Table<S>, sessionID: string, x: S): set<(string, Peer)> {
    set k | k in table && k.0 == sessionID && table[k] == x
  }

  ghost predicate OneSlotEach<S>(table: Table<S>) {
    forall j, k | j in table && k in table && j != k :: table[j] != table[k]
  }

  lemma OneEntry<S>(table: Table<S>, k: (string, Peer), sessionID: string)
    requires OneSlotEach(table) && k in table
    ensures |EntriesOf(table, sessionID, table[k])| == if k.0 == sessionID then 1 else 0
  {
    assert EntriesOf(table, sessionID, table[k]) == if k.0 == sessionID then {k} else {};
  }

  lemma StaysUnclosed<S>(table: Table<S>, sessionID: string)
    requires OneSlotEach(table)
    ensures OneSlotEach(Released(table, sessionID))
    ensures forall k | k in Released(table, sessionID) :: |EntriesOf(table, sessionID, table[k])| == 0
  {
    forall k | k in Released(table, sessionID) ensures |EntriesOf(table, sessionID, table[k])| == 0 {
      OneEntry(table, k, sessionID);
    }
  }

  /** Every stream of the table is open and sits in one slot only. */
  ghost predicate Tidy(table: Table<Stream>)
    reads set k | k in table :: table[k]
  {
    OneSlotEach(table) && forall k | k in table :: table[k].closes == 0
  }

  lemma AddedIsTidy(table: Table<Stream>, stored: set<Stream>, sessionID: string, peer: Peer, stream: Stream)
    requires forall k | k in table :: table[k] in stored
    ensures forall k | k in Added(table, sessionID, peer, stream) ::
              Added(table, sessionID, peer, stream)[k] in stored + {stream}
    ensures Tidy(table) && stream.closes == 0 && stream !in stored ==> Tidy(Added(table, sessionID, peer, stream))
  {
  }

  class StreamManager {
    var streamsBySessionID: map<string, map<Peer, Stream>>
    ghost var stored: set<Stream>

    ghost function Contents(): (table: Table<Stream>)
      reads this
    {
      TableOf(streamsBySessionID)
    }

    ghost predicate Valid()
      reads this
    {
      forall k | k in Contents() :: Contents()[k] in stored
    }

    constructor ()
      ensures Valid() && Contents() == map[] && stored == {}
    {
      streamsBySessionID, stored := map[], {};
    }

    /** A stream for a slot that is taken is neither stored nor closed. */
    method AddStream(sessionID: string, peer: Peer, stream: Stream)
      requires Valid()
      modifies this
      ensures Valid() && stored <= old(stored) + {stream}
      ensures Contents() == Added(old(Contents()), sessionID, peer, stream)
      ensures old(Tidy(Contents())) && stream.closes == 0 && stream !in old(stored) ==> Tidy(Contents())
    {
      if sessionID in streamsBySessionID && peer in streamsBySessionID[sessionID] {
        assert (sessionID, peer) in Contents();
        return;
      }
      AddedIsTidy(Contents(), stored, sessionID, peer, stream);
      Put(sessionID, peer, stream);
      stored := stored + {stream};
    }

    /** Stores a stream in a free slot, creating the session's map if need be. */
    method Put(sessionID: string, peer: Peer, stream: Stream)
      requires sessionID in streamsBySessionID ==> peer !in streamsBySessionID[sessionID]
      modifies this`streamsBySessionID
      ensures Contents() == Added(old(Contents()), sessionID, peer, stream)
    {
      TableOfAdded(streamsBySessionID, sessionID, peer, stream);
      streamsBySessionID := streamsBySessionID[sessionID := OfSession(streamsBySessionID, sessionID)[peer := stream]];
    }

    method Fetch(sessionID: string, peer: Peer) returns (result: Fetched)
      ensures result == if (sessionID, peer) in Contents() then Found(Contents()[(sessionID, peer)]) else NoStream
      ensures Tidy(Contents()) && result.Found? ==> result.stream.closes == 0
    {
      if sessionID !in streamsBySessionID || peer !in streamsBySessionID[sessionID] { return NoStream; }
      assert (sessionID, peer) in Contents();
      return Found(streamsBySessionID[sessionID][peer]);
    }

    /** Closes every stream of the session once for each slot it sits in, and forgets them; no other stream is
        closed. In a tidy table that is once, and what stays is open. */
    method ReleaseStreams(sessionID: string)
      requires Valid()
      modifies this, stored
      ensures Valid() && stored == old(stored)
      ensures Contents() == Released(old(Contents()), sessionID)
      ensures forall x | x in stored :: x.closes == old(x.closes) + |EntriesOf(old(Contents()), sessionID, x)|
      ensures old(Tidy(Contents())) ==> Tidy(Contents())
    {
      ghost var table := Contents();
      CloseSession(sessionID);
      if old(Tidy(Contents())) {
        StaysUnclosed(table, sessionID);
      }
      TableOfReleased(streamsBySessionID, sessionID);
      streamsBySessionID := streamsBySessionID - {sessionID};
    }

    method CloseSession(sessionID: string)
      requires Valid()
      modifies stored
      ensures forall x | x in stored :: x.closes == old(x.closes) + |EntriesOf(Contents(), sessionID, x)|
    {
      if sessionID in streamsBySessionID {
        CloseAll(sessionID);
      } else {
        ghost var table := Contents();
        forall x | x in stored ensures EntriesOf(table, sessionID, x) == {} { NoEntries(table, sessionID, x); }
      }
    }

    /** The closing loop. */
    method CloseAll(sessionID: string)
      requires Valid() && sessionID in streamsBySessionID
      modifies stored
      ensures forall x | x in stored :: x.closes == old(x.closes) + |EntriesOf(Contents(), sessionID, x)|
    {
      ghost var table := Contents();
      ghost var order, closed := CloseEach(streamsBySessionID[sessionID], stored);
      forall x | x in stored ensures multiset(closed)[x] == |EntriesOf(table, sessionID, x)| {
        ClosedInOrder(table, sessionID, order, closed, x);
        AllClosed(table, sessionID, Elements(order), x);
      }
    }
  }

  /** Closes the streams of a session's map, in whatever order the map yields its peers. */
  method CloseEach(streams: map<Peer, Stream>, ghost stored: set<Stream>)
    returns (ghost order: seq<Peer>, ghost closed: seq<Stream>)
    requires forall p | p in streams :: streams[p] in stored
    modifies stored
    ensures InOrder(streams, streams.Keys, order, closed)
    ensures forall x | x in stored :: x.closes == old(x.closes) + multiset(closed)[x]
  {
    order, closed := [], [];
    var todo := streams.Keys;
    while todo != {}
      invariant todo <= streams.Keys && InOrder(streams, streams.Keys - todo, order, closed)
      invariant forall x | x in stored :: x.closes == old(x.closes) + multiset(closed)[x]
      decreases |todo|
    {
      var peer :| peer in todo;
      NextInOrder(streams, todo, order, closed, peer);
      order, closed := order + [peer], closed + [streams[peer]];
      streams[peer].Close();
      todo := todo - {peer};
    }
    assert streams.Keys - todo == streams.Keys;
  }

  /** The peers visited so far, each once, and their streams. */
  ghost predicate InOrder(streams: map<Peer, Stream>, done: set<Peer>, order: seq<Peer>, closed: seq<Stream>) {
    && Distinct(order) && Elements(order) == done && |closed| == |order|
    && forall i | 0 <= i < |order| :: order[i] in streams && closed[i] == streams[order[i]]
  }

  lemma NextInOrder(streams: map<Peer, Stream>, todo: set<Peer>, order: seq<Peer>, closed: seq<Stream>, peer: Peer)
    requires todo <= streams.Keys && peer in todo && InOrder(streams, streams.Keys - todo, order, closed)
    ensures InOrder(streams, streams.Keys - (todo - {peer}), order + [peer], closed + [streams[peer]])
    ensures multiset(closed + [streams[peer]]) == multiset(closed) + multiset{streams[peer]}
  {
    assert peer !in Elements(order);
    assert Elements(order + [peer]) == Elements(order) + {peer};
  }

  /** The entries of a session that hold the stream, for some of its peers. */
  ghost function EntriesAt<S>(table: Table<S>, sessionID: string, peers: set<Peer>, x: S): set<(string, Peer)> {
    set k | k in EntriesOf(table, sessionID, x) && k.1 in peers
  }

  lemma OneMoreEntry(table: Table<Stream>, sessionID: string, done: set<Peer>, peer: Peer, x: Stream)
    requires (sessionID, peer) in table && peer !in done
    ensures |EntriesAt(table, sessionID, done + {peer}, x)|
         == |EntriesAt(table, sessionID, done, x)| + if table[(sessionID, peer)] == x then 1 else 0
  {
    var before, after := EntriesAt(table, sessionID, done, x), EntriesAt(table, sessionID, done + {peer}, x);
    forall k: (string, Peer) | k in after && k.1 == peer ensures k == (sessionID, peer) {}
    assert (sessionID, peer) !in before;
    assert after == if table[(sessionID, peer)] == x then before + {(sessionID, peer)} else before;
  }

  lemma {:induction false} ClosedInOrder(
    table: Table<Stream>, sessionID: string, order: seq<Peer>, closed: seq<Stream>, x: Stream)
    requires Distinct(order) && |closed| == |order|
    requires forall i | 0 <= i < |order| :: (sessionID, order[i]) in table && closed[i] == table[(sessionID, order[i])]
    ensures multiset(closed)[x] == |EntriesAt(table, sessionID, Elements(order), x)|
  {
    if order == [] {
      assert EntriesAt(table, sessionID, {}, x) == {};
    } else {
      var n := |order| - 1;
      assert order == order[..n] + [order[n]] && closed == closed[..n] + [closed[n]];
      ClosedInOrder(table, sessionID, order[..n], closed[..n], x);
      assert Elements(order) == Elements(order[..n]) + {order[n]};
      OneMoreEntry(table, sessionID, Elements(order[..n]), order[n], x);
    }
  }

  lemma AllClosed(table: Table<Stream>, sessionID: string, done: set<Peer>, x: Stream)
    requires forall p | (sessionID, p) in table :: p in done
    ensures EntriesAt(table, sessionID, done, x) == EntriesOf(table, sessionID, x)
  {
    forall k | k in EntriesOf(table, sessionID, x) ensures k.1 in done {
      assert k == (sessionID, k.1);
    }
  }

  lemma NoEntries(table: Table<Stream>, sessionID: string, x: Stream)
    requires forall p :: (sessionID, p) !in table
    ensures EntriesOf(table, sessionID, x) == {}
  {
    forall k | k in table ensures k.0 != sessionID {
      assert k == (k.0, k.1);
    }
  }

  // ---------- whole histories ----------

  datatype Operation =
    | Add(sessionID: string, peer: Peer, stream: nat)
    | Get(sessionID: string, peer: Peer)
    | Release(sessionID: string)

  function TableAfter(ops: seq<Operation>): Table<nat> {
    if ops == [] then map[]
    else
      var before := TableAfter(ops[..|ops| - 1]);
      match ops[|ops| - 1]
      case Add(s, p, x) => Added(before, s, p, x)
      case Get(_, _) => before
      case Release(s) => Released(before, s)
  }

  ghost function Closes(ops: seq<Operation>, x: nat): nat {
    if ops == [] then 0
    else
      var rest, op := ops[..|ops| - 1], ops[|ops| - 1];
      Closes(rest, x) + if op.Release? then |EntriesOf(TableAfter(rest), op.sessionID, x)| else 0
  }

  /** The life of one stream: it is held by the first free slot it is offered to, until its own session is released. */
  datatype Status = Unseen | Held(sessionID: string, peer: Peer) | Dropped | Closed

  function StatusAfter(ops: seq<Operation>, x: nat): Status {
    if ops == [] then Unseen
    else
      var rest, op := ops[..|ops| - 1], ops[|ops| - 1];
      var before := StatusAfter(rest, x);
      if before == Unseen && op.Add? && op.stream == x then
        if (op.sessionID, op.peer) in TableAfter(rest) then Dropped else Held(op.sessionID, op.peer)
      else if before.Held? && op == Release(before.sessionID) then Closed
      else before
  }

  ghost predicate FreshStreams(ops: seq<Operation>) {
    forall i, j | 0 <= i < j < |ops| && ops[i].Add? && ops[j].Add? :: ops[i].stream != ops[j].stream
  }

  /** Over any history with fresh streams, a slot holds a stream exactly while the stream's status says so, and a
      stream has been closed once if its status is closed and never otherwise. */
  lemma {:induction false} LifeCycle(ops: seq<Operation>, x: nat)
    requires FreshStreams(ops)
    ensures forall k :: k in TableAfter(ops) && TableAfter(ops)[k] == x <==> StatusAfter(ops, x) == Held(k.0, k.1)
    ensures Closes(ops, x) == if StatusAfter(ops, x) == Closed then 1 else 0
    ensures StatusAfter(ops, x) == Unseen <==> forall i | 0 <= i < |ops| :: !(ops[i].Add? && ops[i].stream == x)
  {
    if ops != [] {
      var n := |ops| - 1;
      var rest, op := ops[..n], ops[n];
      assert ops == rest + [op];
      LifeCycle(rest, x);
      var table, status := TableAfter(rest), StatusAfter(rest, x);
      if op.Add? && op.stream == x {
        assert status == Unseen;
      }
      if op.Release? {
        HeldEntries(table, status, op.sessionID, x);
      }
    }
  }

  lemma HeldEntries(table: Table<nat>, status: Status, sessionID: string, x: nat)
    requires forall k :: k in table && table[k] == x <==> status == Held(k.0, k.1)
    ensures |EntriesOf(table, sessionID, x)| == if status.Held? && status.sessionID == sessionID then 1 else 0
  {
    if status.Held? && status.sessionID == sessionID {
      assert EntriesOf(table, sessionID, x) == {(sessionID, status.peer)};
    } else {
      assert EntriesOf(table, sessionID, x) == {};
    }
  }

  /** A fetch never returns a closed stream. */
  lemma FetchedIsOpen(ops: seq<Operation>, sessionID: string, peer: Peer)
    requires FreshStreams(ops) && (sessionID, peer) in TableAfter(ops)
    ensures Closes(ops, TableAfter(ops)[(sessionID, peer)]) == 0
  {
    LifeCycle(ops, TableAfter(ops)[(sessionID, peer)]);
  }

  /** The first stream stored for a slot stays until its session is released; other sessions are untouched. */
  lemma {:induction false} FirstStreamStays(ops: seq<Operation>, more: seq<Operation>, sessionID: string, peer: Peer)
    requires (sessionID, peer) in TableAfter(ops)
    requires forall i | 0 <= i < |more| :: more[i] != Release(sessionID)
    ensures (sessionID, peer) in TableAfter(ops + more)
    ensures TableAfter(ops + more)[(sessionID, peer)] == TableAfter(ops)[(sessionID, peer)]
  {
    if more == [] {
      assert ops + more == ops;
    } else {
      var n := |more| - 1;
      FirstStreamStays(ops, more[..n], sessionID, peer);
      assert (ops + more)[..|ops + more| - 1] == ops + more[..n];
      assert (ops + more)[|ops + more| - 1] == more[n];
    }
  }
}
