/**
 Subscription ids: session, message type and a 32-bit identifier, joined by dashes and taken apart again.
 */
module SubscriptionId {
  import opened Options
  import opened Text

  /** A message type is one byte; `UNKNOWN` is the last one that is defined. */
  newtype MessageType = t: int | 0 <= t < 256

  const UNKNOWN: MessageType := 13

  datatype Unwrapped = Parts(sessionID: string, msgType: MessageType, identifier: string) | BadID

  /** The identifier is the clock reading cut down to 32 bits. */
  function IdentifierAt(now: int): string {
    Decimal(now % 0x1_0000_0000)
  }

  function NewSubscriptionID(sessionID: string, msgType: MessageType, now: int): string {
    sessionID + "-" + Decimal(msgType as nat) + "-" + IdentifierAt(now)
  }

  predicate AllDigits(s: string) {
    forall i | 0 <= i < |s| :: IsDigit(s[i])
  }

  /** strconv.ParseInt in base 10 for 8 bits. */
  function ParseInt8(s: string): Option<int> {
    var signed := s != "" && (s[0] == '+' || s[0] == '-');
    var digits := if signed then s[1..] else s;
    if digits == "" || !AllDigits(digits) then None
    else
      var magnitude: int := Value(digits);
      if signed && s[0] == '-' then (if magnitude <= 128 then Some(-magnitude) else None)
      else if magnitude < 128 then Some(magnitude) else None
  }

  function Unwrap(id: string): Unwrapped {
    var parts := Split(id, '-');
    if |parts| != 3 then BadID
    else
      match ParseInt8(parts[1])
      case None => BadID
      case Some(t) => if t > UNKNOWN as int then BadID else Parts(parts[0], (t % 256) as MessageType, parts[2])
  }

  function SubscriptionIdentifier(id: string): string {
    match Unwrap(id)
    case Parts(_, _, identifier) => identifier
    case BadID => ""
  }

  lemma DigitsHaveNoDash(s: string)
    requires AllDigits(s)
    ensures '-' !in s
  {
    forall i | 0 <= i < |s| ensures s[i] != '-' {
      assert IsDigit(s[i]);
    }
  }

  lemma ParseDecimal(n: nat)
    ensures ParseInt8(Decimal(n)) == if n < 128 then Some(n) else None
  {
    DecimalValue(n);
    assert IsDigit(Decimal(n)[0]);
  }

  lemma ParseAfterSign(sign: char, digits: string)
    requires (sign == '+' || sign == '-') && digits != "" && AllDigits(digits)
    ensures ParseInt8([sign] + digits) ==
            if sign == '-' then (if Value(digits) <= 128 then Some(0 - Value(digits)) else None)
            else if Value(digits) < 128 then Some(Value(digits)) else None
  {
    assert ([sign] + digits)[1..] == digits;
  }

  /** A sign in front is read as well. */
  lemma ParseSigned(n: nat)
    ensures ParseInt8(['+'] + Decimal(n)) == if n < 128 then Some(n) else None
    ensures ParseInt8(['-'] + Decimal(n)).Some? <==> n <= 128
    ensures n <= 128 ==> ParseInt8(['-'] + Decimal(n)).value + n == 0
  {
    DecimalValue(n);
    ParseAfterSign('+', Decimal(n));
    ParseAfterSign('-', Decimal(n));
  }

  lemma SplitOfThree(a: string, b: string, d: string, c: char)
    requires c !in b && c !in d
    ensures Split(a + [c] + (b + [c] + d), c) == Split(a, c) + [b, d]
  {
    var tail := b + [c] + d;
    SplitPrefix(b, c, d);
    assert Split(tail, c) == [b, d];
    SplitConcat(a, c, tail);
    assert a + [c] + tail == a + ([c] + tail);
  }

  lemma UnwrapParts(id: string, a: string, t: string, i: string, n: nat)
    requires Split(id, '-') == [a, t, i] && n < 256
    requires ParseInt8(t) == if n < 128 then Some(n) else None
    ensures Unwrap(id) == if n <= UNKNOWN as nat then Parts(a, n as MessageType, i) else BadID
  {
  }

  lemma UnwrapOfThree(a: string, t: string, i: string, n: nat)
    requires AllDigits(t) && AllDigits(i) && ParseInt8(t) == if n < 128 then Some(n) else None
    requires n < 256
    ensures Unwrap(a + ['-'] + (t + ['-'] + i)) ==
            if '-' !in a && n <= UNKNOWN as nat then Parts(a, n as MessageType, i) else BadID
  {
    DigitsHaveNoDash(t);
    DigitsHaveNoDash(i);
    var id := a + ['-'] + (t + ['-'] + i);
    SplitOfThree(a, t, i, '-');
    SplitLength(a, '-');
    CountNone(a, '-');
    if '-' !in a { UnwrapParts(id, a, t, i, n); }
  }

  /** Taking a printed id apart gives back exactly its three parts when the session id has no dash and the
      message type is defined, and an error otherwise. */
  lemma UnwrapPrinted(sessionID: string, msgType: MessageType, now: int)
    ensures Unwrap(NewSubscriptionID(sessionID, msgType, now)) ==
            if '-' !in sessionID && msgType <= UNKNOWN then Parts(sessionID, msgType, IdentifierAt(now)) else BadID
  {
    var t, i := Decimal(msgType as nat), IdentifierAt(now);
    ParseDecimal(msgType as nat);
    UnwrapOfThree(sessionID, t, i, msgType as nat);
    Regroup(sessionID, t, i);
  }

  /** Two clock readings give the same identifier exactly when they agree in their last 32 bits. */
  lemma SameIdentifierIff(a: int, b: int)
    ensures IdentifierAt(a) == IdentifierAt(b) <==> a % 0x1_0000_0000 == b % 0x1_0000_0000
  {
    DecimalValue(a % 0x1_0000_0000);
    DecimalValue(b % 0x1_0000_0000);
  }

  /** A printed id stands for its session, its type and the last 32 bits of its clock reading, whatever the session
      id looks like: no two different subscriptions print the same. */
  lemma PrintedIdsDiffer(s: string, t: MessageType, now: int, s': string, t': MessageType, now': int)
    ensures NewSubscriptionID(s, t, now) == NewSubscriptionID(s', t', now') <==>
            s == s' && t == t' && now % 0x1_0000_0000 == now' % 0x1_0000_0000
  {
    SplitOfPrinted(s, t, now);
    SplitOfPrinted(s', t', now');
    SameIdentifierIff(now, now');
    if NewSubscriptionID(s, t, now) == NewSubscriptionID(s', t', now') {
      SameTail(Split(s, '-'), [Decimal(t as nat), IdentifierAt(now)],
               Split(s', '-'), [Decimal(t' as nat), IdentifierAt(now')]);
      SplitInjective(s, s', '-');
      DecimalValue(t as nat);
      DecimalValue(t' as nat);
    }
  }

  lemma SplitOfPrinted(s: string, t: MessageType, now: int)
    ensures Split(NewSubscriptionID(s, t, now), '-') == Split(s, '-') + [Decimal(t as nat), IdentifierAt(now)]
  {
    DigitsHaveNoDash(Decimal(t as nat));
    DigitsHaveNoDash(IdentifierAt(now));
    SplitOfThree(s, Decimal(t as nat), IdentifierAt(now), '-');
    Regroup(s, Decimal(t as nat), IdentifierAt(now));
  }

  lemma SameTail(a: seq<string>, x: seq<string>, b: seq<string>, y: seq<string>)
    requires a + x == b + y && |x| == |y|
    ensures a == b && x == y
  {
    assert (a + x)[..|a|] == a && (b + y)[..|b|] == b;
    assert (a + x)[|a|..] == x && (b + y)[|b|..] == y;
  }

  lemma DecimalOf305()
    ensures Decimal(305) == "305"
  {
    assert Decimal(3) == "3" && Decimal(30) == "30";
  }

  lemma Tail(a: string, t: string, i: string)
    ensures a + "-" + t + "-" + i == a + ("-" + t + "-" + i)
  {
  }

  /** The printed form itself: session, type in decimal, and the clock reading without its higher bits. */
  lemma PrintedForm(sessionID: string)
    ensures NewSubscriptionID(sessionID, 7, 0x1_0000_0000 + 305) == sessionID + "-7-305"
  {
    DecimalOf305();
    assert Decimal(7) == "7";
    Tail(sessionID, "7", "305");
    assert "-" + "7" + "-" + "305" == "-7-305";
  }

  /** Of all strings, printed or not, those are taken apart that are three dash-free parts joined by dashes, the
      middle one a signed decimal number of 8 bits up to 13. */
  lemma UnwrapOfParts(a: string, t: string, i: string)
    requires '-' !in a && '-' !in t && '-' !in i
    ensures Unwrap(a + ['-'] + (t + ['-'] + i)) ==
            if ParseInt8(t).Some? && ParseInt8(t).value <= 13
            then Parts(a, (ParseInt8(t).value % 256) as MessageType, i) else BadID
  {
    SplitOfThree(a, t, i, '-');
    assert Split(a, '-') + [t, i] == [a, t, i];
  }

  lemma OnlyPartsUnwrap(id: string) returns (a: string, t: string, i: string)
    requires Unwrap(id).Parts?
    ensures '-' !in a && '-' !in t && '-' !in i && id == a + ['-'] + (t + ['-'] + i)
  {
    var parts := Split(id, '-');
    JoinOfSplit(id, '-');
    a, t, i := parts[0], parts[1], parts[2];
    assert a in parts && t in parts && i in parts;
    assert parts[1..][1..] == [i] && parts[1..][0] == t;
    assert Join(parts[1..], '-') == t + ['-'] + i;
  }

  lemma Regroup(a: string, t: string, i: string)
    ensures a + "-" + t + "-" + i == a + ['-'] + (t + ['-'] + i)
  {
  }
}
