/** The request dispatcher of a client connection. */
module Network {
  import opened Basics
  import opened Layout

  const PREFIX: seq<bv8> := [0x73, 0x38, 0x30, 0x30, 0x62, 0x6d]  // "s800bm"
  const BUFFER_SIZE := 100

  /** End of the connection, an error text, or a range of words of the shared struct. */
  datatype Answer = Closed | Text(text: string) | Words(lo: nat, hi: nat)

  /** The receive buffer: cleared, then filled from the front. */
  function Buffer(received: seq<bv8>): (b: seq<bv8>)
    requires |received| <= BUFFER_SIZE
    ensures |b| == BUFFER_SIZE
  {
    received + seq(BUFFER_SIZE - |received|, _ => 0)
  }

  predicate PrefixRight(received: seq<bv8>)
    requires |received| <= BUFFER_SIZE
  {
    Buffer(received)[..6] == PREFIX
  }

  function CellWords(number: nat): Answer
    requires number > 0
  {
    Words(VoltageAt(number - 1), VoltageAt(number - 1) + 4)
  }

  function Dispatch(received: seq<bv8>, total: nat): (a: Answer)
    requires |received| <= BUFFER_SIZE && total <= SLOTS
    ensures a.Words? ==> a.lo <= a.hi <= WORDS
  {
    var b := Buffer(received);
    if |received| == 0 then Closed
    else if !PrefixRight(received) && |received| != 8 then Text("command formart error!")
    else if b[6] == 0x01 then Words(0, WORDS)
    else if b[6] == 0x02 then
      var number := b[7] as int;
      if 0 < number <= total then CellWords(number) else Text("battery number error!")
    else if b[6] == 0x03 || b[6] == 0x04 then Words(CURRENT, CURRENT + 1)
    else Text("no such command!")
  }

  /** A request as documented by the check: the prefix and eight bytes. */
  predicate WellFormed(received: seq<bv8>)
    requires |received| <= BUFFER_SIZE
  {
    PrefixRight(received) && |received| == 8
  }

  predicate Rejected(a: Answer) {
    a == Text("command formart error!")
  }

  /** The format check joins its two conditions with "and", so it judges a message correctly if and only if
      the two agree: one wrong prefix or one wrong length alone gets through. */
  lemma FormatCheckRightIff(received: seq<bv8>, total: nat)
    requires 0 < |received| <= BUFFER_SIZE && total <= SLOTS
    ensures (Rejected(Dispatch(received, total)) <==> !WellFormed(received))
       <==> (PrefixRight(received) <==> |received| == 8)
  {
    assert "battery number error!"[0] != "command formart error!"[0];
    assert "no such command!"[0] != "command formart error!"[0];
  }

  /** Eight arbitrary bytes are served. */
  lemma WrongPrefixServed()
    ensures var msg := [0, 0, 0, 0, 0, 0, 0x01, 0];
            !WellFormed(msg) && Dispatch(msg, 1) == Words(0, WORDS)
  {
    var msg: seq<bv8> := [0, 0, 0, 0, 0, 0, 0x01, 0];
    assert Buffer(msg)[0] != PREFIX[0];
    assert Buffer(msg)[6] == 0x01;
  }

  /** The k-th byte of a message, zero beyond its end. */
  function ByteAt(msg: seq<bv8>, k: nat): bv8 {
    if k < |msg| then msg[k] else 0
  }

  /** The right answer to a message, byte by byte. A message counts as a request if it starts with "s800bm" or
      has eight bytes. Command 01 gives all 243 words, 02 the four words of the cell that the next byte names,
      03 and 04 the current; anything else gives an error text. */
  ghost predicate Serves(msg: seq<bv8>, total: nat, a: Answer) {
    var command, number := ByteAt(msg, 6), ByteAt(msg, 7) as int;
    if |msg| != 8 && !(|msg| >= 6 && msg[..6] == [0x73, 0x38, 0x30, 0x30, 0x62, 0x6d]) then
      a == Text("command formart error!")
    else if command == 0x01 then a == Words(0, 243)
    else if command == 0x02 then
      if 1 <= number <= total then a == Words(3 + 4 * (number - 1), 3 + 4 * number)
      else a == Text("battery number error!")
    else if command == 0x03 || command == 0x04 then a == Words(2, 3)
    else a == Text("no such command!")
  }

  lemma PrefixByBytes(msg: seq<bv8>)
    requires 0 < |msg| <= BUFFER_SIZE
    ensures PrefixRight(msg) <==> |msg| >= 6 && msg[..6] == [0x73, 0x38, 0x30, 0x30, 0x62, 0x6d]
    ensures Buffer(msg)[6] == ByteAt(msg, 6) && Buffer(msg)[7] == ByteAt(msg, 7)
  {
    if |msg| >= 6 {
      assert Buffer(msg)[..6] == msg[..6];
    } else {
      assert Buffer(msg)[..6][5] == 0;
    }
  }

  lemma DispatchServes(msg: seq<bv8>, total: nat)
    requires 0 < |msg| <= BUFFER_SIZE && total <= SLOTS
    ensures Serves(msg, total, Dispatch(msg, total))
  {
    hide PrefixRight, Buffer;
    PrefixByBytes(msg);
  }

  /** One request, from the receive buffer. */
  method Handle(readbuffer: array<bv8>, readsize: nat, total: nat, ghost received: seq<bv8>) returns (a: Answer)
    requires 0 < readsize == |received| <= BUFFER_SIZE && total <= SLOTS
    requires readbuffer.Length == BUFFER_SIZE && readbuffer[..] == Buffer(received)
    ensures a == Dispatch(received, total)
  {
    if readbuffer[..6] != PREFIX && readsize != 8 {
      return Text("command formart error!");
    }
    assert readbuffer[..6] == Buffer(received)[..6];
    if readbuffer[6] == 0x01 {
      a := Words(0, WORDS);
    } else if readbuffer[6] == 0x02 {
      var batteryNumber := readbuffer[7] as int;
      if batteryNumber > 0 && batteryNumber <= total {
        a := CellWords(batteryNumber);
      } else {
        a := Text("battery number error!");
      }
    } else if readbuffer[6] == 0x03 || readbuffer[6] == 0x04 {
      a := Words(CURRENT, CURRENT + 1);
    } else {
      a := Text("no such command!");
    }
  }

  /** The connection loop: one answer per message until the peer closes. The one buffer is reused, yet no
      answer depends on any earlier message. */
  method CmdNetwork(incoming: seq<seq<bv8>>, total: nat) returns (answers: seq<Answer>)
    requires total <= 60 && forall k :: 0 <= k < |incoming| ==> |incoming[k]| <= 100
    ensures |answers| <= |incoming| && (|answers| < |incoming| ==> incoming[|answers|] == [])
    ensures forall k :: 0 <= k < |answers| ==> incoming[k] != [] && Serves(incoming[k], total, answers[k])
  {
    var readbuffer := new bv8[BUFFER_SIZE](_ => 0);
    answers := [];
    while |answers| < |incoming|
      invariant |answers| <= |incoming|
      invariant forall k :: 0 <= k < |answers| ==> incoming[k] != [] && Serves(incoming[k], total, answers[k])
    {
      hide Dispatch, Serves;
      var message := incoming[|answers|];
      forall j | 0 <= j < BUFFER_SIZE {
        readbuffer[j] := 0;
      }
      forall j | 0 <= j < |message| {
        readbuffer[j] := message[j];
      }
      if |message| > 0 {
        assert readbuffer[..] == Buffer(message);
        var a := Handle(readbuffer, |message|, total, message);
        DispatchServes(message, total);
        answers := answers + [a];
      } else {
        break;
      }
    }
  }
}
