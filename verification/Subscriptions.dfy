/**
 The subscription manager: three levels of maps that behave as one flat table keyed by session,
 message type and identifier.
 */
module Subscriptions {
  import opened SubscriptionId

  type Channel = nat

  datatype Key = Key(sessionID: string, msgType: MessageType, identifier: string)

  type Nested = map<string, map<MessageType, map<string, Channel>>>

  type Table = map<Key, Channel>

  ghost predicate Has(m: Nested, k: Key) {
    k.sessionID in m && k.msgType in m[k.sessionID] && k.identifier in m[k.sessionID][k.msgType]
  }

  ghost function KeysOf(m: Nested): (keys: set<Key>)
    ensures forall k :: k in keys <==> Has(m, k)
  {
    set s, t, i | s in m && t in m[s] && i in m[s][t] :: Key(s, t, i)
  }

  ghost function At(m: Nested, k: Key): Channel
    requires Has(m, k)
  {
    m[k.sessionID][k.msgType][k.identifier]
  }

  /** The table the nested maps stand for. */
  ghost function Flat(m: Nested): (table: Table)
    ensures table.Keys == KeysOf(m)
    ensures forall k | k in table :: Has(m, k) && table[k] == At(m, k)
  {
    map k | k in KeysOf(m) :: At(m, k)
  }

  function ByType(m: Nested, s: string): map<MessageType, map<string, Channel>> {
    if s in m then m[s] else map[]
  }

  function ById(m: Nested, s: string, t: MessageType): map<string, Channel> {
    if t in ByType(m, s) then m[s][t] else map[]
  }

  /** Creating the missing maps first and then storing is the same as storing into the maps as they should be. */
  lemma PutInSteps(start: Nested, m: Nested, k: Key, c: Channel)
    requires var withSession := if k.sessionID in start then start else start[k.sessionID := map[]];
             m == if k.msgType in withSession[k.sessionID] then withSession
                  else withSession[k.sessionID := withSession[k.sessionID][k.msgType := map[]]]
    ensures k.sessionID in m && k.msgType in m[k.sessionID]
    ensures m[k.sessionID := m[k.sessionID][k.msgType := m[k.sessionID][k.msgType][k.identifier := c]]]
         == start[k.sessionID := ByType(start, k.sessionID)
                  [k.msgType := ById(start, k.sessionID, k.msgType)[k.identifier := c]]]
  {
    var byId := ById(start, k.sessionID, k.msgType)[k.identifier := c];
    assert m[k.sessionID][k.msgType][k.identifier := c] == byId;
    assert m[k.sessionID][k.msgType := byId] == ByType(start, k.sessionID)[k.msgType := byId];
  }

  lemma FlatPut(m: Nested, k: Key, c: Channel)
    ensures Flat(m[k.sessionID := ByType(m, k.sessionID)
                 [k.msgType := ById(m, k.sessionID, k.msgType)[k.identifier := c]]]) == Flat(m)[k := c]
  {
    var m' := m[k.sessionID := ByType(m, k.sessionID)
              [k.msgType := ById(m, k.sessionID, k.msgType)[k.identifier := c]]];
    forall x ensures Has(m', x) <==> Has(m, x) || x == k {}
    forall x | Has(m', x) ensures At(m', x) == if x == k then c else At(m, x) {}
  }

  lemma FlatDelete(m: Nested, k: Key)
    requires Has(m, k)
    ensures Flat(m[k.sessionID := m[k.sessionID][k.msgType := m[k.sessionID][k.msgType] - {k.identifier}]])
         == Flat(m) - {k}
  {
    var m' := m[k.sessionID := m[k.sessionID][k.msgType := m[k.sessionID][k.msgType] - {k.identifier}]];
    forall x ensures Has(m', x) <==> Has(m, x) && x != k {}
    forall x | Has(m', x) ensures At(m', x) == At(m, x) {}
  }

  /** The key a new subscription is stored under: its identifier is read back from the printed id. */
  function KeyFor(sessionID: string, msgType: MessageType, now: int): Key {
    Key(sessionID, msgType, SubscriptionIdentifier(NewSubscriptionID(sessionID, msgType, now)))
  }

  function Subscribed(table: Table, sessionID: string, msgType: MessageType, channel: Channel, now: int): Table {
    table[KeyFor(sessionID, msgType, now) := channel]
  }

  function Unsubscribed(table: Table, id: string): Table {
    match Unwrap(id)
    case BadID => table
    case Parts(s, t, i) => table - {Key(s, t, i)}
  }

  /** The keys of the subscribers of a message type that listen on a given channel. */
  ghost function Listening(table: Table, sessionID: string, msgType: MessageType, c: Channel): set<Key> {
    set k | k in table && k.sessionID == sessionID && k.msgType == msgType && table[k] == c
  }

  class SessionSubscriptionManager {
    var subscribersMap: Nested

    constructor ()
      ensures Flat(subscribersMap) == map[]
    {
      subscribersMap := map[];
    }

    method SubscribeTo(sessionID: string, msgType: MessageType, channel: Channel, now: int) returns (id: string)
      modifies this
      ensures id == NewSubscriptionID(sessionID, msgType, now)
      ensures Flat(subscribersMap) == Subscribed(Flat(old(subscribersMap)), sessionID, msgType, channel, now)
    {
      ghost var start := subscribersMap;
      if sessionID !in subscribersMap {
        subscribersMap := subscribersMap[sessionID := map[]];
      }
      if msgType !in subscribersMap[sessionID] {
        subscribersMap := subscribersMap[sessionID := subscribersMap[sessionID][msgType := map[]]];
      }
      id := NewSubscriptionID(sessionID, msgType, now);
      FlatPut(start, KeyFor(sessionID, msgType, now), channel);
      PutInSteps(start, subscribersMap, KeyFor(sessionID, msgType, now), channel);
      var byType := subscribersMap[sessionID];
      var byId := byType[msgType][SubscriptionIdentifier(id) := channel];
      subscribersMap := subscribersMap[sessionID := byType[msgType := byId]];
    }

    method UnSubscribeFrom(id: string)
      modifies this
      ensures Flat(subscribersMap) == Unsubscribed(Flat(old(subscribersMap)), id)
    {
      match Unwrap(id) {
        case BadID => return;
        case Parts(s, t, i) =>
          if s !in subscribersMap || t !in subscribersMap[s] || i !in subscribersMap[s][t] {
            assert !Has(subscribersMap, Key(s, t, i));
            return;
          }
          FlatDelete(subscribersMap, Key(s, t, i));
          var byType := subscribersMap[s];
          subscribersMap := subscribersMap[s := byType[t := byType[t] - {i}]];
      }
    }

    /** The channels subscribed to a message type, each as often as it is subscribed, in any order. */
    method GetSubscribers(sessionID: string, msgType: MessageType) returns (subs: seq<Channel>)
      ensures forall c :: multiset(subs)[c] == |Listening(Flat(subscribersMap), sessionID, msgType, c)|
    {
      subs := [];
      ghost var table := Flat(subscribersMap);
      if sessionID !in subscribersMap || msgType !in subscribersMap[sessionID] {
        forall c ensures Listening(table, sessionID, msgType, c) == {} {}
        return;
      }
      var byId := subscribersMap[sessionID][msgType];
      var todo := byId.Keys;
      while todo != {}
        invariant todo <= byId.Keys
        invariant forall c :: multiset(subs)[c] == |Picked(byId, byId.Keys - todo, c)|
        decreases |todo|
      {
        var i :| i in todo;
        ghost var before := subs;
        PickedMore(byId, byId.Keys - todo, i);
        assert byId.Keys - (todo - {i}) == byId.Keys - todo + {i};
        subs := subs + [byId[i]];
        todo := todo - {i};
        assert forall c :: multiset(subs)[c] == multiset(before)[c] + if c == byId[i] then 1 else 0;
      }
      forall c ensures multiset(subs)[c] == |Listening(table, sessionID, msgType, c)| {
        assert byId.Keys - todo == byId.Keys;
        ListeningIsPicked(subscribersMap, sessionID, msgType, c);
      }
    }
  }

  ghost function Picked(byId: map<string, Channel>, ids: set<string>, c: Channel): set<string>
    requires ids <= byId.Keys
  {
    set i | i in ids && byId[i] == c
  }

  lemma PickedMore(byId: map<string, Channel>, ids: set<string>, i: string)
    requires ids <= byId.Keys && i in byId && i !in ids
    ensures forall c :: |Picked(byId, ids + {i}, c)| == |Picked(byId, ids, c)| + if c == byId[i] then 1 else 0
  {
    forall c ensures |Picked(byId, ids + {i}, c)| == |Picked(byId, ids, c)| + if c == byId[i] then 1 else 0 {
      assert Picked(byId, ids + {i}, c) == Picked(byId, ids, c) + if c == byId[i] then {i} else {};
    }
  }

  lemma ListeningIsPicked(m: Nested, s: string, t: MessageType, c: Channel)
    requires s in m && t in m[s]
    ensures |Listening(Flat(m), s, t, c)| == |Picked(m[s][t], m[s][t].Keys, c)|
  {
    KeyedCardinality(s, t, Picked(m[s][t], m[s][t].Keys, c));
    assert Listening(Flat(m), s, t, c) == Keyed(s, t, Picked(m[s][t], m[s][t].Keys, c));
  }

  ghost function Keyed(s: string, t: MessageType, ids: set<string>): set<Key> {
    set i | i in ids :: Key(s, t, i)
  }

  lemma {:induction false} KeyedCardinality(s: string, t: MessageType, ids: set<string>)
    ensures |Keyed(s, t, ids)| == |ids|
  {
    if ids != {} {
      var i :| i in ids;
      KeyedCardinality(s, t, ids - {i});
      assert Keyed(s, t, ids) == Keyed(s, t, ids - {i}) + {Key(s, t, i)};
    }
  }

  // ---------- what the table guarantees ----------

  /** Unsubscribing with the id that a subscription returned undoes exactly that subscription, provided its
      identifier was fresh, if and only if the session id has no dash and the message type is defined. */
  lemma UnsubscribeUndoes(table: Table, sessionID: string, msgType: MessageType, channel: Channel, now: int)
    requires KeyFor(sessionID, msgType, now) !in table
    ensures Unsubscribed(Subscribed(table, sessionID, msgType, channel, now), NewSubscriptionID(sessionID, msgType, now)) == table
       <==> '-' !in sessionID && msgType <= UNKNOWN
  {
    UnwrapPrinted(sessionID, msgType, now);
    var k := KeyFor(sessionID, msgType, now);
    var after := Subscribed(table, sessionID, msgType, channel, now);
    assert k in after;
    assert after - {k} == table;
  }

  /** A session id with a dash leaves all its subscriptions of a type under one key: the later one replaces the
      earlier one, and the id of neither unsubscribes anything. */
  lemma DashedSessionsCollide(table: Table, sessionID: string, msgType: MessageType, a: Channel, b: Channel, now: int, later: int)
    requires '-' in sessionID
    ensures Subscribed(Subscribed(table, sessionID, msgType, a, now), sessionID, msgType, b, later)
         == Subscribed(table, sessionID, msgType, b, later)
    ensures Unsubscribed(table, NewSubscriptionID(sessionID, msgType, now)) == table
  {
    UnwrapPrinted(sessionID, msgType, now);
    UnwrapPrinted(sessionID, msgType, later);
  }

  /** Where a subscription is stored: under its session and type, and under the last 32 bits of its clock reading
      unless its printed id cannot be read back; then the identifier is empty. */
  lemma KeyForExactly(sessionID: string, msgType: MessageType, now: int)
    ensures KeyFor(sessionID, msgType, now) ==
            Key(sessionID, msgType, if '-' !in sessionID && msgType <= 13 then IdentifierAt(now) else "")
  {
    UnwrapPrinted(sessionID, msgType, now);
  }

  /** Two subscriptions of a dash-free session and a defined type at clock readings that differ in their last 32
      bits get different ids and sit side by side: both channels are in the table, and neither unsubscription
      touches the other. */
  lemma SubscriptionsCoexist(
    table: Table, sessionID: string, msgType: MessageType, a: Channel, b: Channel, now: int, later: int)
    requires '-' !in sessionID && msgType <= UNKNOWN && now % 0x1_0000_0000 != later % 0x1_0000_0000
    ensures NewSubscriptionID(sessionID, msgType, now) != NewSubscriptionID(sessionID, msgType, later)
    ensures var first := Key(sessionID, msgType, IdentifierAt(now));
            var second := Key(sessionID, msgType, IdentifierAt(later));
            var both := Subscribed(Subscribed(table, sessionID, msgType, a, now), sessionID, msgType, b, later);
            && first != second
            && first in both && both[first] == a && second in both && both[second] == b
            && Unsubscribed(both, NewSubscriptionID(sessionID, msgType, now)) == both - {first}
            && Unsubscribed(both, NewSubscriptionID(sessionID, msgType, later)) == both - {second}
  {
    KeyForExactly(sessionID, msgType, now);
    KeyForExactly(sessionID, msgType, later);
    SameIdentifierIff(now, later);
    PrintedIdsDiffer(sessionID, msgType, now, sessionID, msgType, later);
    UnwrapPrinted(sessionID, msgType, now);
    UnwrapPrinted(sessionID, msgType, later);
  }

  // ---------- whole histories ----------

  datatype Operation =
    | Subscribe(sessionID: string, msgType: MessageType, channel: Channel, now: int)
    | UnSubscribe(id: string)

  function Apply(table: Table, op: Operation): Table {
    match op
    case Subscribe(s, t, c, now) => Subscribed(table, s, t, c, now)
    case UnSubscribe(id) => Unsubscribed(table, id)
  }

  function After(ops: seq<Operation>): Table {
    if ops == [] then map[] else Apply(After(ops[..|ops| - 1]), ops[|ops| - 1])
  }

  ghost predicate Registers(op: Operation, k: Key, c: Channel) {
    op.Subscribe? && op.channel == c && KeyFor(op.sessionID, op.msgType, op.now) == k
  }

  ghost predicate Cancels(op: Operation, k: Key) {
    op.UnSubscribe? && Unwrap(op.id) == Parts(k.sessionID, k.msgType, k.identifier)
  }

  ghost predicate Replaces(op: Operation, k: Key) {
    op.Subscribe? && KeyFor(op.sessionID, op.msgType, op.now) == k
  }

  /** The last subscription under the key is for this channel and has not been cancelled since. */
  ghost predicate Live(ops: seq<Operation>, k: Key, c: Channel) {
    exists i :: LiveFrom(ops, k, c, i)
  }

  ghost predicate LiveFrom(ops: seq<Operation>, k: Key, c: Channel, i: int) {
    && 0 <= i < |ops|
    && Registers(ops[i], k, c)
    && forall j | i < j < |ops| :: !Cancels(ops[j], k) && !Replaces(ops[j], k)
  }

  lemma LiveAfterOneMore(ops: seq<Operation>, op: Operation, k: Key, c: Channel)
    ensures Live(ops + [op], k, c) <==> Registers(op, k, c) || (Live(ops, k, c) && !Cancels(op, k) && !Replaces(op, k))
  {
    var all := ops + [op];
    if Registers(op, k, c) {
      assert LiveFrom(all, k, c, |ops|);
    }
    if Live(ops, k, c) && !Cancels(op, k) && !Replaces(op, k) {
      var i :| LiveFrom(ops, k, c, i);
      assert LiveFrom(all, k, c, i);
    }
    if Live(all, k, c) {
      var i :| LiveFrom(all, k, c, i);
      assert all[|ops|] == op;
      if i < |ops| {
        assert !Cancels(all[|ops|], k) && !Replaces(all[|ops|], k);
        forall j | i <= j < |ops| ensures all[j] == ops[j] {}
        assert LiveFrom(ops, k, c, i);
      }
    }
  }

  /** After any history the table holds exactly the live subscriptions. */
  lemma {:induction false} TableHoldsTheLive(ops: seq<Operation>, k: Key, c: Channel)
    ensures k in After(ops) && After(ops)[k] == c <==> Live(ops, k, c)
  {
    if ops != [] {
      var n := |ops| - 1;
      assert ops == ops[..n] + [ops[n]];
      TableHoldsTheLive(ops[..n], k, c);
      LiveAfterOneMore(ops[..n], ops[n], k, c);
    }
  }
}
