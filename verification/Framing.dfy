/**
 Newline framing of messages on a stream: one write appends a message and a newline, one read takes
 everything up to the next newline.
 */
module Framing {
  import opened Text

  const NEWLINE := '\n'

  /** The complete lines of a stream, without their newlines: what repeated reads return. */
  function Lines(s: string): seq<string>
    decreases |s|
  {
    if NEWLINE !in s then []
    else [s[..IndexOf(s, NEWLINE)]] + Lines(s[IndexOf(s, NEWLINE) + 1..])
  }

  function Line(message: string): string {
    message + [NEWLINE]
  }

  /** How the stream answers when it is handed data: it takes everything, or it fails after so many characters. */
  datatype Outcome = Delivered | Failed(taken: nat)

  function Piece(data: string, outcome: Outcome): string {
    match outcome
    case Delivered => data
    case Failed(n) => if n <= |data| then data[..n] else data
  }

  /** Whether the message and its newline arrive, even if the sender is told otherwise. */
  predicate Whole(message: string, outcome: Outcome) {
    outcome.Delivered? || outcome.taken > |message|
  }

  /** No message contains a newline, and each arrives to its end. */
  predicate Intact(messages: seq<string>, outcomes: seq<Outcome>)
    requires |messages| == |outcomes|
  {
    forall i | 0 <= i < |messages| :: '\n' !in messages[i] && Whole(messages[i], outcomes[i])
  }

  /** What sending the messages one after another leaves on the stream. */
  function Sent(messages: seq<string>, outcomes: seq<Outcome>): string
    requires |messages| == |outcomes|
  {
    if messages == [] then "" else Piece(Line(messages[0]), outcomes[0]) + Sent(messages[1..], outcomes[1..])
  }

  /** strings.Trim with a newline as its cutset: removes newlines at both ends. */
  function Trim(s: string): string {
    if s == "" then ""
    else if s[0] == NEWLINE then Trim(s[1..])
    else if s[|s| - 1] == NEWLINE then Trim(s[..|s| - 1])
    else s
  }

  lemma TrimNothing(s: string)
    requires NEWLINE !in s
    ensures Trim(s) == s
  {
    if s != "" {
      assert s[0] in s && s[|s| - 1] in s;
    }
  }

  lemma TrimLine(line: string)
    requires NEWLINE !in line
    ensures Trim(Line(line)) == line
  {
    var s := Line(line);
    TrimNothing(line);
    if line == "" {
      assert s[1..] == line;
      assert Trim(s) == Trim(s[1..]);
    } else {
      assert s[0] == line[0] && line[0] in line;
      assert s[..|s| - 1] == line;
      assert Trim(s) == Trim(s[..|s| - 1]);
    }
  }

  datatype ReadResult = Read(message: string) | EndOfStream

  /** A stream to a peer, and everything it has taken so far. */
  class Connection {
    var sent: string

    constructor ()
      ensures sent == ""
    {
      sent := "";
    }
  }

  /** A buffered writer: once a write has failed, it refuses all further ones. */
  class StreamWriter {
    const connection: Connection
    var buffered: string
    var failed: bool

    constructor (connection: Connection)
      ensures this.connection == connection && buffered == "" && !failed
    {
      this.connection, buffered, failed := connection, "", false;
    }

    /** Appends the message and its newline to the buffer and flushes it; `outcome` is the stream's answer. */
    method WriteStream(message: string, outcome: Outcome) returns (ok: bool)
      modifies this, connection
      ensures ok <==> !old(failed) && outcome.Delivered?
      ensures failed <==> !ok
      ensures ok ==> buffered == "" && connection.sent == old(connection.sent) + old(buffered) + message + "\n"
      ensures old(connection.sent) <= connection.sent <= old(connection.sent) + old(buffered) + message + "\n"
      ensures connection.sent == old(connection.sent)
                + if old(failed) then "" else Piece(old(buffered) + Line(message), outcome)
    {
      if failed { return false; }
      buffered := buffered + Line(message);
      var piece := Piece(buffered, outcome);
      connection.sent := connection.sent + piece;
      buffered := buffered[|piece|..];
      failed := outcome.Failed?;
      return !failed;
    }
  }

  /** Every message goes through a buffered writer of its own. */
  method SendMessage(connection: Connection, message: string, outcome: Outcome) returns (ok: bool)
    modifies connection
    ensures ok <==> outcome.Delivered?
    ensures ok ==> connection.sent == old(connection.sent) + message + "\n"
    ensures old(connection.sent) <= connection.sent <= old(connection.sent) + message + "\n"
    ensures connection.sent == old(connection.sent) + Piece(Line(message), outcome)
  {
    var writer := new StreamWriter(connection);
    ok := writer.WriteStream(message, outcome);
  }

  class StreamReader {
    const stream: string
    var position: nat

    ghost predicate Valid()
      reads this
    {
      position <= |stream|
    }

    /** The messages still to come. */
    ghost function Pending(): seq<string>
      requires Valid()
      reads this
    {
      Lines(stream[position..])
    }

    constructor (stream: string)
      ensures this.stream == stream && position == 0 && Valid()
    {
      this.stream, position := stream, 0;
    }

    /** Reads up to and including the next newline; without one everything left is consumed and lost. */
    method ReadString() returns (ok: bool, line: string)
      requires Valid()
      modifies this
      ensures Valid()
      ensures ok <==> NEWLINE in stream[old(position)..]
      ensures ok ==> old(position) <= position && line == stream[old(position)..position] && |line| > 0
                     && line[|line| - 1] == NEWLINE && NEWLINE !in line[..|line| - 1]
      ensures !ok ==> position == |stream|
    {
      var start := position;
      while position < |stream|
        invariant start <= position <= |stream|
        invariant NEWLINE !in stream[start..position]
      {
        position := position + 1;
        if stream[position - 1] == NEWLINE {
          line := stream[start..position];
          assert line[..|line| - 1] == stream[start..position - 1];
          assert stream[start..][position - 1 - start] == NEWLINE;
          return true, line;
        }
      }
      assert stream[start..] == stream[start..position];
      return false, "";
    }

    /** One message: the first line that is left, or an error when there is none. */
    method ReadStream() returns (result: ReadResult)
      requires Valid()
      modifies this
      ensures Valid()
      ensures old(Pending()) == [] ==> result == EndOfStream && Pending() == []
      ensures old(Pending()) != [] ==> result.Read? && old(Pending()) == [result.message] + Pending()
    {
      ghost var rest := stream[position..];
      var ok, line := ReadString();
      if !ok { return EndOfStream; }
      if line == "" { return EndOfStream; }
      ghost var body := line[..|line| - 1];
      assert line == Line(body);
      assert rest == line + stream[position..];
      LinesPrefix(body, stream[position..]);
      TrimLine(body);
      return Read(Trim(line));
    }
  }

  lemma LinesPrefix(line: string, rest: string)
    requires NEWLINE !in line
    ensures Lines(Line(line) + rest) == [line] + Lines(rest)
  {
    IndexOfFirst(line, NEWLINE, rest);
    var s := Line(line) + rest;
    assert s[..|line|] == line && s[|line| + 1..] == rest;
  }

  /** A line holds no newline, and there are as many lines as newlines. */
  lemma {:induction false} LinesCount(s: string)
    ensures |Lines(s)| == Count(s, NEWLINE)
    ensures forall line | line in Lines(s) :: NEWLINE !in line
    decreases |s|
  {
    CountNone(s, NEWLINE);
    if NEWLINE in s {
      var i := IndexOf(s, NEWLINE);
      var before, after := s[..i], s[i + 1..];
      LinesCount(after);
      CountNone(before, NEWLINE);
      CountSeparator(before, NEWLINE, after);
      assert s == before + [NEWLINE] + after;
      assert Lines(s) == [before] + Lines(after);
    }
  }

  lemma PieceCount(message: string, outcome: Outcome)
    requires NEWLINE !in message
    ensures Count(Piece(Line(message), outcome), NEWLINE) == if Whole(message, outcome) then 1 else 0
  {
    if Whole(message, outcome) {
      assert Piece(Line(message), outcome) == message + [NEWLINE] + "";
      CountSeparator(message, NEWLINE, "");
      CountNone(message, NEWLINE);
    } else {
      var piece := Piece(Line(message), outcome);
      assert piece == message[..outcome.taken];
      CountNone(piece, NEWLINE);
    }
  }

  lemma {:induction false} SentCount(messages: seq<string>, outcomes: seq<Outcome>)
    requires |messages| == |outcomes| && forall m | m in messages :: NEWLINE !in m
    ensures Count(Sent(messages, outcomes), NEWLINE) <= |messages|
    ensures Count(Sent(messages, outcomes), NEWLINE) == |messages| ==>
              forall i | 0 <= i < |messages| :: Whole(messages[i], outcomes[i])
  {
    if messages != [] {
      assert messages[0] in messages;
      SentCount(messages[1..], outcomes[1..]);
      PieceCount(messages[0], outcomes[0]);
      CountConcat(Piece(Line(messages[0]), outcomes[0]), Sent(messages[1..], outcomes[1..]), NEWLINE);
    }
  }

  lemma {:induction false} LinesOfSent(messages: seq<string>, outcomes: seq<Outcome>)
    requires |messages| == |outcomes| && Intact(messages, outcomes)
    ensures Lines(Sent(messages, outcomes)) == messages
  {
    if messages != [] {
      assert Piece(Line(messages[0]), outcomes[0]) == Line(messages[0]);
      LinesPrefix(messages[0], Sent(messages[1..], outcomes[1..]));
      LinesOfSent(messages[1..], outcomes[1..]);
    }
  }

  /** Reading back what was sent returns the same messages, empty ones included, exactly when none of them
      contains a newline and each was taken to its end; an error reported after that does no harm. */
  lemma RoundTrip(messages: seq<string>, outcomes: seq<Outcome>)
    requires |messages| == |outcomes|
    ensures Lines(Sent(messages, outcomes)) == messages <==> Intact(messages, outcomes)
  {
    if Lines(Sent(messages, outcomes)) == messages {
      LinesCount(Sent(messages, outcomes));
      SentCount(messages, outcomes);
      forall i | 0 <= i < |messages| ensures '\n' !in messages[i] {
        assert messages[i] in Lines(Sent(messages, outcomes));
      }
    }
    if Intact(messages, outcomes) {
      LinesOfSent(messages, outcomes);
    }
  }

  lemma {:induction false} SentConcat(a: seq<string>, x: seq<Outcome>, b: seq<string>, y: seq<Outcome>)
    requires |a| == |x| && |b| == |y|
    ensures Sent(a + b, x + y) == Sent(a, x) + Sent(b, y)
  {
    if a == [] {
      assert a + b == b && x + y == y;
    } else {
      assert (a + b)[1..] == a[1..] + b && (x + y)[1..] == x[1..] + y;
      SentConcat(a[1..], x[1..], b, y);
    }
  }

  /** The receiving loop: reads messages until the stream ends. */
  method ReadMessages(reader: StreamReader) returns (received: seq<string>)
    requires reader.Valid()
    modifies reader
    ensures received == old(reader.Pending())
  {
    ghost var left := reader.Pending();
    received := [];
    while true
      invariant reader.Valid() && left == reader.Pending()
      invariant received + left == old(reader.Pending())
      decreases |left|
    {
      var result := reader.ReadStream();
      if result == EndOfStream { return; }
      received := received + [result.message];
      left := reader.Pending();
    }
  }

  /** Messages sent one after another over a fresh stream and received until it ends: they all come through
      unchanged exactly when none contains a newline and each was taken to its end. */
  method SendAndReceive(messages: seq<string>, outcomes: seq<Outcome>) returns (received: seq<string>)
    requires |messages| == |outcomes|
    ensures received == messages <==> Intact(messages, outcomes)
  {
    var connection := new Connection();
    for i := 0 to |messages|
      invariant connection.sent == Sent(messages[..i], outcomes[..i])
    {
      SentSnoc(messages, outcomes, i);
      var ok := SendMessage(connection, messages[i], outcomes[i]);
    }
    assert messages[..|messages|] == messages && outcomes[..|messages|] == outcomes;
    var reader := new StreamReader(connection.sent);
    assert reader.stream[0..] == connection.sent;
    received := ReadMessages(reader);
    RoundTrip(messages, outcomes);
  }

  lemma SentSnoc(messages: seq<string>, outcomes: seq<Outcome>, i: nat)
    requires |messages| == |outcomes| && i < |messages|
    ensures Sent(messages[..i + 1], outcomes[..i + 1])
         == Sent(messages[..i], outcomes[..i]) + Piece(Line(messages[i]), outcomes[i])
  {
    var m, o := [messages[i]], [outcomes[i]];
    assert messages[..i + 1] == messages[..i] + m && outcomes[..i + 1] == outcomes[..i] + o;
    SentConcat(messages[..i], outcomes[..i], m, o);
    assert Sent(m, o) == Piece(Line(m[0]), o[0]) + Sent(m[1..], o[1..]);
  }
}
