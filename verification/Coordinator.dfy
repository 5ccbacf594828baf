/**
 The two sides of a round: the coordinator's loop that collects ready peers until its process
 says start, and the waiting loop that answers initiate messages and enters on a start message.
 The channel a loop reads is a sequence of events; timers firing are events like any other.
 */
module Coordinator {
  import opened Sorting
  import opened Ranking
  import opened Signing

  /** The processes by what their Ready looks at: the key of a signing, the peerstore of a key generation or resharing. */
  datatype Process =
    | SigningProcess(keyPeers: seq<Peer>, threshold: int)
    | KeygenProcess(peerstore: seq<Peer>)
    | ResharingProcess(peerstore: seq<Peer>)

  datatype ReadyAnswer = Answer(enough: bool) | ReadyError

  function Ready(process: Process, ready: seq<Peer>, excluded: seq<Peer>): ReadyAnswer {
    match process
    case SigningProcess(keyPeers, threshold) => Answer(EnoughReady(keyPeers, threshold, ready))
    case KeygenProcess(peerstore) => if |excluded| > 0 then ReadyError else Answer(|ready| == |peerstore|)
    case ResharingProcess(peerstore) => Answer(|ready| == |peerstore|)
  }

  // ---------- the collecting side ----------

  /** How a collection ends: `Starts` after `used` ready messages, `Fails` on a process error,
      `Collects` when the messages run out first. */
  datatype Collected =
    | Starts(used: nat, ready: seq<Peer>)
    | Fails
    | Collects(ready: seq<Peer>)

  function AddReady(excluded: seq<Peer>, ready: seq<Peer>, from: Peer): seq<Peer> {
    if from !in excluded && from !in ready then ready + [from] else ready
  }

  function AddAll(excluded: seq<Peer>, ready: seq<Peer>, senders: seq<Peer>): seq<Peer>
    decreases |senders|
  {
    if senders == [] then ready else AddAll(excluded, AddReady(excluded, ready, senders[0]), senders[1..])
  }

  function Later(c: Collected): Collected {
    match c
    case Starts(used, ready) => Starts(used + 1, ready)
    case Fails => Fails
    case Collects(ready) => Collects(ready)
  }

  /** Collection for any readiness test. */
  function CollectWith(check: seq<Peer> -> ReadyAnswer, excluded: seq<Peer>, ready: seq<Peer>, senders: seq<Peer>): Collected
    decreases |senders|
  {
    if senders == [] then Collects(ready)
    else
      var ready' := AddReady(excluded, ready, senders[0]);
      match check(ready')
      case ReadyError => Fails
      case Answer(enough) =>
        if enough then Starts(1, ready') else Later(CollectWith(check, excluded, ready', senders[1..]))
  }

  function Test(process: Process, excluded: seq<Peer>): seq<Peer> -> ReadyAnswer {
    ready => Ready(process, ready, excluded)
  }

  /** The collecting loop; the senders of the ready messages arrive in any order, with repetitions. */
  method Initiate(host: Peer, process: Process, excluded: seq<Peer>, senders: seq<Peer>) returns (result: Collected)
    ensures result == CollectWith(Test(process, excluded), excluded, [host], senders)
  {
    var ready := [host];
    ghost var check := Test(process, excluded);
    for i := 0 to |senders|
      invariant CollectWith(check, excluded, [host], senders)
             == Delay(i, CollectWith(check, excluded, ready, senders[i..]))
    {
      assert senders[i..][0] == senders[i] && senders[i..][1..] == senders[i + 1..];
      if senders[i] !in excluded && senders[i] !in ready {
        ready := ready + [senders[i]];
      }
      match Ready(process, ready, excluded) {
        case ReadyError => return Fails;
        case Answer(enough) => if enough { return Starts(i + 1, ready); }
      }
    }
    return Collects(ready);
  }

  ghost function Delay(n: nat, c: Collected): Collected {
    if c.Starts? then Starts(c.used + n, c.ready) else c
  }

  // ---------- what collection guarantees ----------

  /** The collected list never holds a peer twice, starts with the host, and holds otherwise only senders
      that are not excluded. */
  lemma {:induction false} ReadyPeersShape(excluded: seq<Peer>, ready: seq<Peer>, senders: seq<Peer>)
    requires Distinct(ready) && ready != []
    ensures var all := AddAll(excluded, ready, senders);
            && Distinct(all) && ready <= all
            && (forall p | p in all :: p in ready || (p in senders && p !in excluded))
            && (forall p | p in senders && p !in excluded :: p in all)
    decreases |senders|
  {
    if senders != [] {
      var ready' := AddReady(excluded, ready, senders[0]);
      var all := AddAll(excluded, ready', senders[1..]);
      ReadyPeersShape(excluded, ready', senders[1..]);
      assert senders == [senders[0]] + senders[1..];
      assert all == ready' + all[|ready'|..];
    }
  }

  /** What a collection has gathered is determined by the messages it used. */
  lemma {:induction false} CollectedIsAddAll(
    check: seq<Peer> -> ReadyAnswer, excluded: seq<Peer>, ready: seq<Peer>, senders: seq<Peer>)
    ensures var c := CollectWith(check, excluded, ready, senders);
            && (c.Starts? ==>
                  && 0 < c.used <= |senders|
                  && c.ready == AddAll(excluded, ready, senders[..c.used])
                  && check(c.ready) == Answer(true)
                  && forall i | 0 < i < c.used :: check(AddAll(excluded, ready, senders[..i])) == Answer(false))
            && (c.Collects? ==>
                  && c.ready == AddAll(excluded, ready, senders)
                  && forall i | 0 < i <= |senders| :: check(AddAll(excluded, ready, senders[..i])) == Answer(false))
            && (c.Fails? ==>
                  exists i | 0 < i <= |senders| :: check(AddAll(excluded, ready, senders[..i])) == ReadyError)
    decreases |senders|
  {
    if senders != [] {
      var ready' := AddReady(excluded, ready, senders[0]);
      CollectedIsAddAll(check, excluded, ready', senders[1..]);
      forall i | 0 < i <= |senders|
        ensures AddAll(excluded, ready, senders[..i]) == AddAll(excluded, ready', senders[1..][..i - 1])
      {
        assert senders[..i][1..] == senders[1..][..i - 1];
      }
      assert senders[1..][..|senders| - 1] == senders[1..];
      assert senders[..|senders|] == senders;
      if CollectWith(check, excluded, ready, senders).Fails? {
        var i := FailingMessage(check, excluded, ready, senders);
      }
    }
  }

  lemma {:induction false} FailingMessage(
    check: seq<Peer> -> ReadyAnswer, excluded: seq<Peer>, ready: seq<Peer>, senders: seq<Peer>) returns (i: nat)
    requires CollectWith(check, excluded, ready, senders).Fails?
    ensures 0 < i <= |senders| && check(AddAll(excluded, ready, senders[..i])) == ReadyError
    decreases |senders|
  {
    var ready' := AddReady(excluded, ready, senders[0]);
    if check(ready') == ReadyError {
      i := 1;
      assert senders[..1][1..] == [];
      assert AddAll(excluded, ready, senders[..1]) == AddAll(excluded, ready', senders[..1][1..]);
    } else {
      var j := FailingMessage(check, excluded, ready', senders[1..]);
      i := j + 1;
      assert senders[..i][1..] == senders[1..][..j];
    }
  }

  function HolderCount(keyPeers: seq<Peer>, ready: seq<Peer>): nat {
    |Holders(keyPeers, ready)|
  }

  function EqualityTest(keyPeers: seq<Peer>, threshold: int): seq<Peer> -> ReadyAnswer {
    ready => Answer(HolderCount(keyPeers, ready) == threshold + 1)
  }

  function AtLeastTest(keyPeers: seq<Peer>, threshold: int): seq<Peer> -> ReadyAnswer {
    ready => Answer(HolderCount(keyPeers, ready) >= threshold + 1)
  }

  lemma HolderCountGrowsByOne(keyPeers: seq<Peer>, excluded: seq<Peer>, ready: seq<Peer>, from: Peer)
    ensures HolderCount(keyPeers, AddReady(excluded, ready, from))
         == HolderCount(keyPeers, ready)
              + if from !in excluded && from !in ready && from in keyPeers then 1 else 0
  {
    FilterAppend(Among(keyPeers), ready, [from]);
    assert Filter(Among(keyPeers), [from]) == if from in keyPeers then [from] else [];
  }

  lemma {:induction false} EqualityKeepsUp(
    keyPeers: seq<Peer>, threshold: int, excluded: seq<Peer>, ready: seq<Peer>, senders: seq<Peer>)
    requires HolderCount(keyPeers, ready) <= threshold
    ensures CollectWith(EqualityTest(keyPeers, threshold), excluded, ready, senders)
         == CollectWith(AtLeastTest(keyPeers, threshold), excluded, ready, senders)
    decreases |senders|
  {
    if senders != [] {
      var ready' := AddReady(excluded, ready, senders[0]);
      HolderCountGrowsByOne(keyPeers, excluded, ready, senders[0]);
      if HolderCount(keyPeers, ready') <= threshold {
        EqualityKeepsUp(keyPeers, threshold, excluded, ready', senders[1..]);
      }
    }
  }

  /** When no further holder can be collected both tests see the same count for ever. */
  lemma {:induction false} EqualityIdles(
    keyPeers: seq<Peer>, threshold: int, excluded: seq<Peer>, ready: seq<Peer>, senders: seq<Peer>)
    requires HolderCount(keyPeers, ready) <= threshold + 1
    requires forall p | p in keyPeers :: p in ready || p in excluded
    ensures CollectWith(EqualityTest(keyPeers, threshold), excluded, ready, senders)
         == CollectWith(AtLeastTest(keyPeers, threshold), excluded, ready, senders)
    decreases |senders|
  {
    if senders != [] {
      HolderCountGrowsByOne(keyPeers, excluded, ready, senders[0]);
      EqualityIdles(keyPeers, threshold, excluded, AddReady(excluded, ready, senders[0]), senders[1..]);
    }
  }

  /** The process compares the holder count with ==. For every stream of ready messages this starts at the same
      message, with the same peers, as comparing with >= would, exactly when the threshold is positive, or the
      host holds no share, or every other holder is excluded. */
  lemma EqualityIsAtLeast(host: Peer, keyPeers: seq<Peer>, threshold: nat, excluded: seq<Peer>)
    ensures (forall senders :: CollectWith(EqualityTest(keyPeers, threshold), excluded, [host], senders)
                            == CollectWith(AtLeastTest(keyPeers, threshold), excluded, [host], senders))
       <==> (threshold >= 1 || host !in keyPeers || forall p | p in keyPeers && p != host :: p in excluded)
  {
    assert Filter(Among(keyPeers), [host]) == if host in keyPeers then [host] else [];
    if HolderCount(keyPeers, [host]) <= threshold {
      forall senders ensures CollectWith(EqualityTest(keyPeers, threshold), excluded, [host], senders)
                          == CollectWith(AtLeastTest(keyPeers, threshold), excluded, [host], senders) {
        EqualityKeepsUp(keyPeers, threshold, excluded, [host], senders);
      }
    } else if forall p | p in keyPeers && p != host :: p in excluded {
      forall senders ensures CollectWith(EqualityTest(keyPeers, threshold), excluded, [host], senders)
                          == CollectWith(AtLeastTest(keyPeers, threshold), excluded, [host], senders) {
        EqualityIdles(keyPeers, threshold, excluded, [host], senders);
      }
    } else {
      var p :| p in keyPeers && p != host && p !in excluded;
      OvershotStart(host, p, keyPeers, excluded);
    }
  }

  /** The failing family: threshold 0, a host with a share, and the first ready message from another usable
      holder. The count is then 2 and the equality never holds again. */
  lemma OvershotStart(host: Peer, p: Peer, keyPeers: seq<Peer>, excluded: seq<Peer>)
    requires host in keyPeers && p in keyPeers && p != host && p !in excluded
    ensures CollectWith(EqualityTest(keyPeers, 0), excluded, [host], [p]) == Collects([host, p])
    ensures CollectWith(AtLeastTest(keyPeers, 0), excluded, [host], [p]) == Starts(1, [host, p])
    ensures forall more :: !CollectWith(EqualityTest(keyPeers, 0), excluded, [host, p], more).Starts?
  {
    assert Filter(Among(keyPeers), [p]) == [p];
    assert Filter(Among(keyPeers), [host]) == [host];
    assert [host] + [p] == [host, p];
    FilterAppend(Among(keyPeers), [host], [p]);
    assert [p][1..] == [];
    forall more ensures !CollectWith(EqualityTest(keyPeers, 0), excluded, [host, p], more).Starts? {
      OvershotForGood(keyPeers, excluded, [host, p], more);
    }
  }

  lemma {:induction false} OvershotForGood(keyPeers: seq<Peer>, excluded: seq<Peer>, ready: seq<Peer>, more: seq<Peer>)
    requires HolderCount(keyPeers, ready) >= 2
    ensures !CollectWith(EqualityTest(keyPeers, 0), excluded, ready, more).Starts?
    decreases |more|
  {
    if more != [] {
      HolderCountGrowsByOne(keyPeers, excluded, ready, more[0]);
      OvershotForGood(keyPeers, excluded, AddReady(excluded, ready, more[0]), more[1..]);
    }
  }

  /** The collection of a signing's coordinator. */
  function SigningRun(host: Peer, keyPeers: seq<Peer>, threshold: nat, excluded: seq<Peer>, senders: seq<Peer>): Collected {
    CollectWith(Test(SigningProcess(keyPeers, threshold), excluded), excluded, [host], senders)
  }

  lemma SigningRunIsAtLeast(host: Peer, keyPeers: seq<Peer>, threshold: nat, excluded: seq<Peer>, senders: seq<Peer>)
    requires threshold >= 1 || host !in keyPeers
    ensures SigningRun(host, keyPeers, threshold, excluded, senders)
         == CollectWith(AtLeastTest(keyPeers, threshold), excluded, [host], senders)
    ensures !SigningRun(host, keyPeers, threshold, excluded, senders).Fails?
  {
    assert Filter(Among(keyPeers), [host]) == if host in keyPeers then [host] else [];
    SameCheck(Test(SigningProcess(keyPeers, threshold), excluded), EqualityTest(keyPeers, threshold), excluded, [host], senders);
    EqualityKeepsUp(keyPeers, threshold, excluded, [host], senders);
    NoErrors(keyPeers, threshold, excluded, [host], senders);
  }

  /** A signing starts at the very message with which the holder count first reaches threshold + 1. */
  lemma SigningStartsOnTime(
    host: Peer, keyPeers: seq<Peer>, threshold: nat, excluded: seq<Peer>, senders: seq<Peer>, used: nat, ready: seq<Peer>)
    requires threshold >= 1 || host !in keyPeers
    requires SigningRun(host, keyPeers, threshold, excluded, senders) == Starts(used, ready)
    ensures 0 < used <= |senders| && ready == AddAll(excluded, [host], senders[..used])
    ensures HolderCount(keyPeers, ready) == threshold + 1
    ensures forall i | 0 < i < used :: HolderCount(keyPeers, AddAll(excluded, [host], senders[..i])) < threshold + 1
  {
    var atLeast := AtLeastTest(keyPeers, threshold);
    SigningRunIsAtLeast(host, keyPeers, threshold, excluded, senders);
    CollectedIsAddAll(Test(SigningProcess(keyPeers, threshold), excluded), excluded, [host], senders);
    CollectedIsAddAll(atLeast, excluded, [host], senders);
    forall i | 0 < i < used
      ensures HolderCount(keyPeers, AddAll(excluded, [host], senders[..i])) < threshold + 1
    {
      assert atLeast(AddAll(excluded, [host], senders[..i])) == Answer(false);
    }
  }

  /** As long as it has not started, it has not collected enough holders. */
  lemma SigningWaitsOnlyForHolders(
    host: Peer, keyPeers: seq<Peer>, threshold: nat, excluded: seq<Peer>, senders: seq<Peer>)
    requires threshold >= 1 || host !in keyPeers
    requires !SigningRun(host, keyPeers, threshold, excluded, senders).Starts?
    ensures HolderCount(keyPeers, AddAll(excluded, [host], senders)) < threshold + 1
  {
    var atLeast := AtLeastTest(keyPeers, threshold);
    SigningRunIsAtLeast(host, keyPeers, threshold, excluded, senders);
    CollectedIsAddAll(atLeast, excluded, [host], senders);
    assert Filter(Among(keyPeers), [host]) == if host in keyPeers then [host] else [];
    if senders != [] {
      assert senders[..|senders|] == senders;
      assert atLeast(AddAll(excluded, [host], senders)) == Answer(false);
    }
  }

  lemma {:induction false} NoErrors(keyPeers: seq<Peer>, threshold: int, excluded: seq<Peer>, ready: seq<Peer>, senders: seq<Peer>)
    ensures !CollectWith(AtLeastTest(keyPeers, threshold), excluded, ready, senders).Fails?
    decreases |senders|
  {
    if senders != [] {
      NoErrors(keyPeers, threshold, excluded, AddReady(excluded, ready, senders[0]), senders[1..]);
    }
  }

  lemma {:induction false} SameCheck(
    f: seq<Peer> -> ReadyAnswer, g: seq<Peer> -> ReadyAnswer, excluded: seq<Peer>, ready: seq<Peer>, senders: seq<Peer>)
    requires forall r :: f(r) == g(r)
    ensures CollectWith(f, excluded, ready, senders) == CollectWith(g, excluded, ready, senders)
    decreases |senders|
  {
    if senders != [] {
      SameCheck(f, g, excluded, AddReady(excluded, ready, senders[0]), senders[1..]);
    }
  }

  /** Key generation compares lengths only, yet it starts with everyone: provided the collected peers come from
      the peerstore, they are the whole of it. That proviso is also necessary. */
  lemma KeygenStartsWithEveryone(host: Peer, peerstore: seq<Peer>, excluded: seq<Peer>, senders: seq<Peer>)
    requires Distinct(peerstore)
    ensures var c := CollectWith(Test(KeygenProcess(peerstore), excluded), excluded, [host], senders);
            && (c.Starts? ==> excluded == []
                              && (Elements(c.ready) == Elements(peerstore) <==> forall p | p in c.ready :: p in peerstore))
            && (excluded != [] && senders != [] ==> c.Fails?)
  {
    var check := Test(KeygenProcess(peerstore), excluded);
    var c := CollectWith(check, excluded, [host], senders);
    CollectedIsAddAll(check, excluded, [host], senders);
    if c.Starts? {
      ReadyPeersShape(excluded, [host], senders[..c.used]);
      assert check(c.ready) == Answer(true);
      if forall p | p in c.ready :: p in peerstore {
        FullHouse(c.ready, peerstore);
      } else {
        var p :| p in c.ready && p !in peerstore;
        assert p in Elements(c.ready) && p !in Elements(peerstore);
      }
    }
  }

  /** Pigeonhole: as many distinct members as the list has is all of them. */
  lemma FullHouse(some: seq<Peer>, all: seq<Peer>)
    requires Distinct(some) && Distinct(all) && |some| == |all|
    requires forall p | p in some :: p in all
    ensures Elements(some) == Elements(all)
  {
    DistinctIffCardinality(some);
    DistinctIffCardinality(all);
    assert Elements(some) <= Elements(all);
    assert |Elements(all) - Elements(some)| == 0;
  }

  /** The host has been joined by every other peer of the peerstore that is not excluded; nobody is missing. */
  ghost predicate EveryoneReady(host: Peer, peerstore: seq<Peer>, excluded: seq<Peer>, senders: seq<Peer>) {
    forall p | p in peerstore :: p == host || (p in senders && p !in excluded)
  }

  /** For messages from the peerstore, as many collected peers as the peerstore has means everyone. */
  lemma FullCountMeansEveryone(host: Peer, peerstore: seq<Peer>, excluded: seq<Peer>, senders: seq<Peer>)
    requires Distinct(peerstore) && host in peerstore && forall p | p in senders :: p in peerstore
    ensures var ready := AddAll(excluded, [host], senders);
            && (|ready| == |peerstore| <==> EveryoneReady(host, peerstore, excluded, senders))
            && (|ready| == |peerstore| ==> Elements(ready) == Elements(peerstore))
  {
    var ready := AddAll(excluded, [host], senders);
    ReadyPeersShape(excluded, [host], senders);
    assert ready[0] == host && host in ready;
    if |ready| == |peerstore| {
      FullHouse(ready, peerstore);
      forall p | p in peerstore ensures p == host || (p in senders && p !in excluded) {
        assert p in Elements(ready);
      }
    }
    if EveryoneReady(host, peerstore, excluded, senders) {
      forall p ensures p in Elements(ready) <==> p in Elements(peerstore) {
        assert p in ready <==> p in peerstore;
      }
      assert Elements(ready) == Elements(peerstore);
      DistinctIffCardinality(ready);
      DistinctIffCardinality(peerstore);
    }
  }

  /** A resharing, and a key generation without exclusions, whose messages come from the peerstore never fails and
      starts at the very message with which the last missing peer of the peerstore becomes ready. */
  lemma StartsOnceEveryoneIsReady(
    process: Process, host: Peer, peerstore: seq<Peer>, excluded: seq<Peer>, senders: seq<Peer>)
    requires process == ResharingProcess(peerstore) || (process == KeygenProcess(peerstore) && excluded == [])
    requires Distinct(peerstore) && host in peerstore && forall p | p in senders :: p in peerstore
    ensures var c := CollectWith(Test(process, excluded), excluded, [host], senders);
            && !c.Fails?
            && (c.Starts? ==>
                  && 0 < c.used <= |senders| && Elements(c.ready) == Elements(peerstore)
                  && EveryoneReady(host, peerstore, excluded, senders[..c.used])
                  && forall i | 0 < i < c.used :: !EveryoneReady(host, peerstore, excluded, senders[..i]))
            && (c.Collects? ==>
                  forall i | 0 < i <= |senders| :: !EveryoneReady(host, peerstore, excluded, senders[..i]))
  {
    CollectedIsAddAll(Test(process, excluded), excluded, [host], senders);
    forall i | 0 < i <= |senders|
      ensures |AddAll(excluded, [host], senders[..i])| == |peerstore|
         <==> EveryoneReady(host, peerstore, excluded, senders[..i])
      ensures Test(process, excluded)(AddAll(excluded, [host], senders[..i]))
           == Answer(EveryoneReady(host, peerstore, excluded, senders[..i]))
    {
      FullCountMeansEveryone(host, peerstore, excluded, senders[..i]);
    }
    var c := CollectWith(Test(process, excluded), excluded, [host], senders);
    if c.Starts? {
      FullCountMeansEveryone(host, peerstore, excluded, senders[..c.used]);
    }
  }

  /** Only a key generation can fail while it collects, and it does so at the first message after an exclusion. */
  lemma OnlyKeygenFails(process: Process, host: Peer, excluded: seq<Peer>, senders: seq<Peer>)
    ensures CollectWith(Test(process, excluded), excluded, [host], senders).Fails? <==>
            process.KeygenProcess? && excluded != [] && senders != []
  {
    if CollectWith(Test(process, excluded), excluded, [host], senders).Fails? {
      var i := FailingMessage(Test(process, excluded), excluded, [host], senders);
    }
  }

  // ---------- the waiting side ----------

  /** A start message whose payload does not decode carries no subset. */
  datatype WaitEvent =
    | Initiated(from: Peer)
    | Started(from: Peer, decodes: bool, subset: seq<Peer>)
    | TimerFired
    | Cancelled

  datatype Waited =
    | Entering(from: Peer, subset: seq<Peer>)
    | BadStart
    | CoordinatorError(peer: Peer)
    | Stopped
    | StillWaiting

  /** Whether the waiting loop listens to this peer; an empty coordinator means anyone. */
  predicate Heeds(coordinator: Peer, from: Peer) {
    coordinator == "" || from == coordinator
  }

  /** The event that ends the wait, if it is one. */
  function Ends(coordinator: Peer, e: WaitEvent): Waited {
    match e
    case Initiated(_) => StillWaiting
    case Started(from, decodes, subset) =>
      if !Heeds(coordinator, from) then StillWaiting else if decodes then Entering(from, subset) else BadStart
    case TimerFired => CoordinatorError(coordinator)
    case Cancelled => Stopped
  }

  predicate Answers(coordinator: Peer, e: WaitEvent) {
    e.Initiated? && Heeds(coordinator, e.from)
  }

  /** Every initiate message of the coordinator, or of anyone when there is none, is answered, and no other. */
  ghost predicate AnswersTo(coordinator: Peer, events: seq<WaitEvent>, readySent: seq<Peer>) {
    forall p :: multiset(readySent)[p] ==
      if coordinator == "" || p == coordinator then multiset(events)[Initiated(p)] else 0
  }

  /** The waiting loop. It passes over initiate messages and start messages of strangers, ends with the first other
      event, and up to then has sent one ready message for every initiate message of the coordinator, or of anyone
      when there is none, and to nobody else. */
  method WaitForStart(coordinator: Peer, events: seq<WaitEvent>)
    returns (result: Waited, used: nat, readySent: seq<Peer>)
    ensures used <= |events| && if result == StillWaiting then used == |events| else used > 0
    ensures forall i | 0 <= i < used && (i < used - 1 || result == StillWaiting) ::
              events[i].Initiated? || (events[i].Started? && coordinator != "" && events[i].from != coordinator)
    ensures result != StillWaiting ==>
              var last := events[used - 1];
              && (last == TimerFired ==> result == CoordinatorError(coordinator))
              && (last == Cancelled ==> result == Stopped)
              && (last.Started? ==> (coordinator == "" || last.from == coordinator)
                                    && result == if last.decodes then Entering(last.from, last.subset) else BadStart)
              && !last.Initiated? && result == Ends(coordinator, last)
    ensures readySent == Answered(coordinator, events[..used])
    ensures AnswersTo(coordinator, events[..used], readySent)
  {
    result, used, readySent := StillWaiting, 0, [];
    while used < |events| && result == StillWaiting
      invariant used <= |events| && (result != StillWaiting ==> used > 0 && result == Ends(coordinator, events[used - 1]))
      invariant forall i | 0 <= i < used && (i < used - 1 || result == StillWaiting) ::
                  Ends(coordinator, events[i]) == StillWaiting
      invariant readySent == Answered(coordinator, events[..used])
    {
      AnsweredSoFar(coordinator, events, used);
      var e := events[used];
      used := used + 1;
      match e {
        case Initiated(from) =>
          if coordinator != "" && from != coordinator { continue; }
          readySent := readySent + [from];
        case Started(from, decodes, subset) =>
          if coordinator != "" && from != coordinator { continue; }
          result := if decodes then Entering(from, subset) else BadStart;
        case TimerFired => result := CoordinatorError(coordinator);
        case Cancelled => result := Stopped;
      }
    }
    AnsweredCount(coordinator, events[..used]);
  }

  /** Whom a ready message goes to: the senders of the heeded initiate messages, in order. */
  function Answered(coordinator: Peer, events: seq<WaitEvent>): seq<Peer> {
    Map(Sender(), Filter(Answering(coordinator), events))
  }

  lemma AnsweredSoFar(coordinator: Peer, events: seq<WaitEvent>, i: nat)
    requires i < |events|
    ensures Answers(coordinator, events[i]) ==>
              Answered(coordinator, events[..i + 1]) == Answered(coordinator, events[..i]) + [events[i].from]
    ensures !Answers(coordinator, events[i]) ==>
              Answered(coordinator, events[..i + 1]) == Answered(coordinator, events[..i])
  {
    assert events[..i + 1] == events[..i] + [events[i]];
    FilterAppend(Answering(coordinator), events[..i], [events[i]]);
    if Answers(coordinator, events[i]) {
      assert Filter(Answering(coordinator), [events[i]]) == [events[i]];
      MapConcat(Sender(), Filter(Answering(coordinator), events[..i]), [events[i]]);
      assert Map(Sender(), [events[i]]) == [events[i].from];
    } else {
      assert Filter(Answering(coordinator), [events[i]]) == [];
    }
  }

  /** The answers follow the order of the messages. */
  lemma AnsweredInOrder(coordinator: Peer, earlier: seq<WaitEvent>, later: seq<WaitEvent>)
    ensures Answered(coordinator, earlier + later) == Answered(coordinator, earlier) + Answered(coordinator, later)
  {
    FilterAppend(Answering(coordinator), earlier, later);
    MapConcat(Sender(), Filter(Answering(coordinator), earlier), Filter(Answering(coordinator), later));
  }

  lemma AnswerToOne(coordinator: Peer, e: WaitEvent, p: Peer)
    ensures multiset(Answered(coordinator, [e]))[p] ==
            if e == Initiated(p) && (coordinator == "" || p == coordinator) then 1 else 0
  {
    AnsweredSoFar(coordinator, [e], 0);
    assert [e][..1] == [e] && Answered(coordinator, [e][..0]) == [];
    assert Answered(coordinator, [e]) == if Answers(coordinator, e) then [e.from] else [];
  }

  lemma {:induction false} AnswersToEach(coordinator: Peer, events: seq<WaitEvent>, p: Peer)
    ensures multiset(Answered(coordinator, events))[p] ==
            if coordinator == "" || p == coordinator then multiset(events)[Initiated(p)] else 0
  {
    if events != [] {
      var n := |events| - 1;
      var before, last := events[..n], events[n];
      assert events == before + [last];
      AnswersToEach(coordinator, before, p);
      AnswerToOne(coordinator, last, p);
      AnsweredInOrder(coordinator, before, [last]);
      assert multiset(events)[Initiated(p)] == multiset(before)[Initiated(p)] + if last == Initiated(p) then 1 else 0;
    }
  }

  lemma AnsweredCount(coordinator: Peer, events: seq<WaitEvent>)
    ensures AnswersTo(coordinator, events, Answered(coordinator, events))
  {
    forall p ensures multiset(Answered(coordinator, events))[p] ==
                     if coordinator == "" || p == coordinator then multiset(events)[Initiated(p)] else 0 {
      AnswersToEach(coordinator, events, p);
    }
  }

  function Answering(coordinator: Peer): WaitEvent -> bool {
    e => Answers(coordinator, e)
  }

  function Sender(): WaitEvent -> Peer {
    (e: WaitEvent) => if e.Initiated? || e.Started? then e.from else ""
  }
}
