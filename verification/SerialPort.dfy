/** The serial line and the four routines that talk over it. */
module SerialPort {
  import opened Basics
  import opened Checksum
  import opened MiniFloat
  import opened RetryMachine

  const POLLS := 25

  // ---- Byte streams ----

  function Flatten(chunks: seq<seq<bv8>>): seq<bv8> {
    if chunks == [] then [] else chunks[0] + Flatten(chunks[1..])
  }

  /** What has arrived once `polls` more read calls have been made. */
  function Arrived(inbox: seq<bv8>, arrivals: seq<seq<bv8>>, polls: nat): seq<bv8> {
    inbox + Flatten(arrivals[..Min(polls, |arrivals|)])
  }

  lemma {:induction false} FlattenConcat(a: seq<seq<bv8>>, b: seq<seq<bv8>>)
    ensures Flatten(a + b) == Flatten(a) + Flatten(b)
  {
    if a == [] {
      assert a + b == b;
    } else {
      assert (a + b)[1..] == a[1..] + b;
      FlattenConcat(a[1..], b);
    }
  }

  lemma ArrivedStart(inbox: seq<bv8>, arrivals: seq<seq<bv8>>)
    ensures Arrived(inbox, arrivals, 0) == inbox
  {
  }

  /** One more poll delivers one more chunk. */
  lemma ArrivedStep(inbox: seq<bv8>, arrivals: seq<seq<bv8>>, polls: nat)
    ensures Arrived(inbox, arrivals, polls + 1)
         == Arrived(inbox, arrivals, polls) + (if polls < |arrivals| then arrivals[polls] else [])
  {
    if polls < |arrivals| {
      assert arrivals[..polls + 1] == arrivals[..polls] + [arrivals[polls]];
      FlattenConcat(arrivals[..polls], [arrivals[polls]]);
      assert Flatten([arrivals[polls]]) == arrivals[polls] + Flatten([]);
    }
  }

  lemma ArrivedMono(inbox: seq<bv8>, arrivals: seq<seq<bv8>>, p: nat, q: nat)
    requires p <= q
    ensures Arrived(inbox, arrivals, p) <= Arrived(inbox, arrivals, q)
  {
    var a, b := arrivals[..Min(p, |arrivals|)], arrivals[..Min(q, |arrivals|)];
    assert b == a + b[|a|..];
    FlattenConcat(a, b[|a|..]);
  }

  /** The reply a window of polls yields: the first four bytes that arrive in it. */
  function Window(inbox: seq<bv8>, arrivals: seq<seq<bv8>>): seq<bv8> {
    var got := Arrived(inbox, arrivals, POLLS);
    got[..Min(4, |got|)]
  }

  lemma Regroup(a: seq<bv8>, b: seq<bv8>, k: nat)
    requires k <= |b|
    ensures a + b == (a + b[..k]) + b[k..]
  {
  }

  lemma PollStep(inbox0: seq<bv8>, arrivals0: seq<seq<bv8>>, polls: nat,
                 had: seq<bv8>, inbox: seq<bv8>, arrivals: seq<seq<bv8>>)
    requires arrivals == arrivals0[Min(polls, |arrivals0|)..]
    requires Arrived(inbox0, arrivals0, polls) == had + inbox
    ensures Arrived(inbox0, arrivals0, polls + 1) == had + Arrived(inbox, arrivals, 1)
    ensures arrivals[Min(1, |arrivals|)..] == arrivals0[Min(polls + 1, |arrivals0|)..]
  {
    ArrivedStep(inbox0, arrivals0, polls);
    ArrivedStep(inbox, arrivals, 0);
    var chunk := if polls < |arrivals0| then arrivals0[polls] else [];
    assert (had + inbox) + chunk == had + (inbox + chunk);
    assert Arrived(inbox, arrivals, 0) == inbox;
  }

  /** The state of the receive loop: everything that arrived in `polls` polls is the reply so far and the
      inbox. */
  ghost predicate Polled(inbox0: seq<bv8>, arrivals0: seq<seq<bv8>>, polls: nat,
                         reply: seq<bv8>, inbox: seq<bv8>, arrivals: seq<seq<bv8>>) {
    arrivals == arrivals0[Min(polls, |arrivals0|)..] && Arrived(inbox0, arrivals0, polls) == reply + inbox
  }

  lemma PolledSize(l: Line, polls: nat, reply: seq<bv8>, inbox: seq<bv8>, arrivals: seq<seq<bv8>>)
    requires Polled(l.inbox, l.arrivals, polls, reply, inbox, arrivals)
    ensures |Arrived(l.inbox, l.arrivals, polls)| == |reply| + |inbox|
  {
  }

  lemma PolledStart(inbox: seq<bv8>, arrivals: seq<seq<bv8>>)
    ensures Polled(inbox, arrivals, 0, [], inbox, arrivals)
  {
    hide Arrived, Flatten;
    ArrivedStart(inbox, arrivals);
    assert arrivals[0..] == arrivals && [] + inbox == inbox;
  }

  lemma Associative(a: seq<bv8>, b: seq<bv8>, c: seq<bv8>)
    ensures a + (b + c) == (a + b) + c
  {
  }

  lemma StreamSplit(inbox: seq<bv8>, arrivals: seq<seq<bv8>>, polls: nat)
    ensures inbox + Flatten(arrivals)
         == Arrived(inbox, arrivals, polls) + Flatten(arrivals[Min(polls, |arrivals|)..])
  {
    hide Flatten;
    var p := Min(polls, |arrivals|);
    FlattenConcat(arrivals[..p], arrivals[p..]);
    assert arrivals == arrivals[..p] + arrivals[p..];
    Associative(inbox, Flatten(arrivals[..p]), Flatten(arrivals[p..]));
  }

  // ---- The line as a whole ----

  /** What can be read from a line: bytes that have arrived, and those the device delivers before each
      future read. */
  datatype Line = Line(inbox: seq<bv8>, arrivals: seq<seq<bv8>>)

  /** All bytes not yet read, now or in the future. */
  function Bytes(l: Line): seq<bv8> {
    l.inbox + Flatten(l.arrivals)
  }

  /** How many bytes have arrived by the end of a window. */
  function InTime(l: Line): nat {
    |Arrived(l.inbox, l.arrivals, POLLS)|
  }

  function Reply(l: Line): (r: seq<bv8>)
    ensures |r| == Min(4, InTime(l))
  {
    Window(l.inbox, l.arrivals)
  }

  /** The polling stops at the first poll by which four bytes have arrived, at the latest at the 25th. */
  ghost predicate StopsAt(l: Line, polls: nat) {
    && 1 <= polls <= POLLS
    && (polls == POLLS || |Arrived(l.inbox, l.arrivals, polls)| >= 4)
    && forall q :: 1 <= q < polls ==> |Arrived(l.inbox, l.arrivals, q)| < 4
  }

  function PollsFrom(l: Line, p: nat): (polls: nat)
    requires 1 <= p <= POLLS
    requires forall q :: 1 <= q < p ==> |Arrived(l.inbox, l.arrivals, q)| < 4
    ensures StopsAt(l, polls)
    decreases POLLS - p
  {
    if p == POLLS || |Arrived(l.inbox, l.arrivals, p)| >= 4 then p else PollsFrom(l, p + 1)
  }

  function Polls(l: Line): (polls: nat)
    ensures StopsAt(l, polls)
  {
    PollsFrom(l, 1)
  }

  /** The line after a reply has been collected: what arrived beyond it stays. */
  function Afterwards(l: Line): Line {
    var got := Arrived(l.inbox, l.arrivals, Polls(l));
    Line(got[Min(4, |got|)..], l.arrivals[Min(Polls(l), |l.arrivals|)..])
  }

  lemma StopIsUnique(l: Line, p: nat, q: nat)
    requires StopsAt(l, p) && StopsAt(l, q)
    ensures p == q
  {
  }

  /** Collecting a reply takes it off the front of the byte stream and loses nothing. */
  lemma ReplyIsFront(l: Line)
    ensures Bytes(l) == Reply(l) + Bytes(Afterwards(l))
  {
    hide Flatten, Arrived;
    var p := Polls(l);
    var got := Arrived(l.inbox, l.arrivals, p);
    ArrivedMono(l.inbox, l.arrivals, p, POLLS);
    StreamSplit(l.inbox, l.arrivals, p);
    assert got == Reply(l) + got[|Reply(l)|..];
    Associative(Reply(l), got[|Reply(l)|..], Flatten(l.arrivals[Min(p, |l.arrivals|)..]));
  }

  /** Two lines that carry the same bytes, cut into chunks and spread over the polls in any two ways: the
      replies agree, and so does all that is left to read, if and only if the same number of bytes, up to
      four, arrives in time. */
  lemma ChunkingIsIrrelevant(l1: Line, l2: Line)
    requires Bytes(l1) == Bytes(l2)
    ensures (Reply(l1) == Reply(l2) && Bytes(Afterwards(l1)) == Bytes(Afterwards(l2)))
       <==> Min(4, InTime(l1)) == Min(4, InTime(l2))
    ensures Reply(l1) <= Reply(l2) || Reply(l2) <= Reply(l1)
  {
    hide Bytes, Afterwards;
    ReplyIsFront(l1);
    ReplyIsFront(l2);
    var b, k1, k2 := Bytes(l1), |Reply(l1)|, |Reply(l2)|;
    assert Reply(l1) == b[..k1] && Reply(l2) == b[..k2];
    assert Bytes(Afterwards(l1)) == b[k1..] && Bytes(Afterwards(l2)) == b[k2..];
  }

  /** At the end of the receive loop. */
  lemma WindowReached(l: Line, polls: nat, reply: seq<bv8>, inbox: seq<bv8>, arrivals: seq<seq<bv8>>)
    requires StopsAt(l, polls) && Polled(l.inbox, l.arrivals, polls, reply, inbox, arrivals)
    requires |reply| == 4 || (|reply| < 4 && inbox == [])
    ensures reply == Reply(l) && Line(inbox, arrivals) == Afterwards(l)
  {
    hide Flatten, Arrived;
    StopIsUnique(l, polls, Polls(l));
    ArrivedMono(l.inbox, l.arrivals, polls, POLLS);
    assert (reply + inbox)[..|reply|] == reply && (reply + inbox)[|reply|..] == inbox;
  }

  /** The line after n replies. */
  function LineAfter(l: Line, n: nat): Line {
    if n == 0 then l else Afterwards(LineAfter(l, n - 1))
  }

  function Replies(exs: seq<Exchange>): seq<bv8> {
    if exs == [] then [] else Replies(exs[..|exs| - 1]) + exs[|exs| - 1].reply
  }

  function Frames(exs: seq<Exchange>): seq<seq<bv8>> {
    if exs == [] then [] else Frames(exs[..|exs| - 1]) + [exs[|exs| - 1].frame]
  }

  /** A conversation: the frames were sent in order, and each reply is the one its own window yields on the
      line as the exchanges before it left it. */
  ghost predicate Talked(l0: Line, sent0: seq<seq<bv8>>, exs: seq<Exchange>, l: Line, sent: seq<seq<bv8>>) {
    && l == LineAfter(l0, |exs|) && sent == sent0 + Frames(exs)
    && forall k :: 0 <= k < |exs| ==> exs[k].reply == Reply(LineAfter(l0, k))
  }

  lemma TalkedStart(l: Line, sent: seq<seq<bv8>>)
    ensures Talked(l, sent, [], l, sent)
  {
  }

  lemma TalkedStep(l0: Line, sent0: seq<seq<bv8>>, exs: seq<Exchange>, l: Line, sent: seq<seq<bv8>>, ex: Exchange)
    requires Talked(l0, sent0, exs, l, sent) && ex.reply == Reply(l)
    ensures Talked(l0, sent0, exs + [ex], Afterwards(l), sent + [ex.frame])
  {
    hide Afterwards, Reply;
    assert (exs + [ex])[..|exs|] == exs;
  }

  /** Byte conservation over a conversation: the replies are, in order, the bytes that left the line. */
  lemma {:induction false} BytesConserved(l0: Line, sent0: seq<seq<bv8>>, exs: seq<Exchange>,
                                          l: Line, sent: seq<seq<bv8>>)
    requires Talked(l0, sent0, exs, l, sent)
    ensures Bytes(l0) == Replies(exs) + Bytes(l)
  {
    hide Bytes, Afterwards, Reply;
    if exs != [] {
      var n := |exs| - 1;
      var before := LineAfter(l0, n);
      BytesConserved(l0, sent0, exs[..n], before, sent0 + Frames(exs[..n]));
      ReplyIsFront(before);
      assert Replies(exs[..n]) + (exs[n].reply + Bytes(l)) == Replies(exs[..n]) + exs[n].reply + Bytes(l);
    }
  }

  // ---- A device that answers ----

  lemma {:induction false} FlattenEach(chunks: seq<seq<bv8>>, k: nat)
    requires k < |chunks|
    ensures Flatten(chunks) == Flatten(chunks[..k]) + chunks[k] + Flatten(chunks[k + 1..])
    ensures Flatten([]) == []
  {
    FlattenConcat(chunks[..k], chunks[k..]);
    assert chunks == chunks[..k] + chunks[k..] && chunks[k..][1..] == chunks[k + 1..];
  }

  /** The first p of the chunks still to come, or all of them. */
  function First(chunks: seq<seq<bv8>>, p: nat): seq<seq<bv8>> {
    if p <= |chunks| then chunks[..p] else chunks
  }

  /** The reply is the first four bytes, or all there are, of what lies in the line and what the 25 polls
      deliver. */
  lemma ReplyIs(l: Line)
    ensures var got := l.inbox + Flatten(First(l.arrivals, 25));
            Reply(l) == if |got| <= 4 then got else got[..4]
  {
    assert l.arrivals[..|l.arrivals|] == l.arrivals;
    var got := Arrived(l.inbox, l.arrivals, POLLS);
    assert got[..|got|] == got;
  }

  /** What is left is what came after the first poll by which four bytes had arrived, at the latest the 25th,
      behind the bytes beyond the fourth. */
  lemma RestIs(l: Line) returns (p: nat)
    ensures 1 <= p <= 25 && (p < 25 ==> |l.inbox + Flatten(First(l.arrivals, p))| >= 4)
    ensures forall q :: 1 <= q < p ==> |l.inbox + Flatten(First(l.arrivals, q))| < 4
    ensures Afterwards(l).arrivals == l.arrivals[|First(l.arrivals, p)|..]
    ensures var got := l.inbox + Flatten(First(l.arrivals, p));
            Afterwards(l).inbox == if |got| <= 4 then [] else got[4..]
  {
    hide Flatten;
    p := Polls(l);
    assert l.arrivals[..|l.arrivals|] == l.arrivals;
    forall q | 1 <= q <= p
      ensures Arrived(l.inbox, l.arrivals, q) == l.inbox + Flatten(First(l.arrivals, q))
    {
    }
    forall q | 1 <= q < p ensures |l.inbox + Flatten(First(l.arrivals, q))| < 4 {
      assert |Arrived(l.inbox, l.arrivals, q)| < 4;
    }
  }

  lemma OneExchange(cmd: bv8, battery: bv8, l0: Line, sent0: seq<seq<bv8>>, exs: seq<Exchange>, res: int,
                    l: Line, sent: seq<seq<bv8>>)
    requires SoundQuery(cmd, battery, exs, res) && Talked(l0, sent0, exs, l, sent)
    requires Classify(cmd, Reply(l0)) == Valid
    ensures |exs| == 1 && exs[0].reply == Reply(l0) && sent == sent0 + [exs[0].frame]
  {
    hide Reply, Afterwards, Complete, FramesAreRight, Supported, Classify, LastResult;
    var run := Outcomes(cmd, exs);
    CompleteRunsAreLanguage(run);
    assert LineAfter(l0, 0) == l0;
    assert run[0] == Classify(cmd, exs[0].reply);
    assert exs[..0] == [] && Frames([]) == [];
  }

  lemma FirstCommand(cmd: bv8, exs: seq<Exchange>)
    ensures CommandByte(cmd, exs, 0) == cmd
  {
  }

  /** From the wire to the result: a cell whose first reply has four bytes, the last the XOR of the others, is
      asked once, with the frame of its number and the command; the result is the reading the second and third
      byte encode, within half a thousandth of the exact magnitude, or -2 for bytes that are no number (upon
      which a resistance query goes on). */
  lemma FirstAnswerIsResult(cmd: bv8, battery: bv8, l0: Line, sent0: seq<seq<bv8>>, exs: seq<Exchange>, res: int,
                            l: Line, sent: seq<seq<bv8>>)
    requires SoundQuery(cmd, battery, exs, res) && Talked(l0, sent0, exs, l, sent)
    requires var r := Reply(l0);
             |r| == 4 && r[0] ^ r[1] ^ r[2] == r[3] && (cmd == 0x62 ==> r[1] < 0x78)
    ensures sent == sent0 + [[battery, cmd, battery ^ cmd]]
    ensures var r := Reply(l0);
            && (r[1] >= 0x78 ==> res == -2000)
            && (r[1] < 0x78 ==> Denotes(r[1] as int, r[2] as int, res))
  {
    hide Reply, Talked, SoundQuery, Classify, DecodeData, Denotes, CommandByte;
    var r := Reply(l0);
    ClassifyByBytes(cmd, r);
    OneExchange(cmd, battery, l0, sent0, exs, res, l, sent);
    ResultSoundness(cmd, battery, exs, res);
    FirstCommand(cmd, exs);
    DecodeRange(r[1] as int, r[2] as int);
    ByteOrder(r[1]);
    if r[1] < 0x78 {
      DecodeAccuracy(r[1] as int, r[2] as int);
    }
  }

  // ---- A cell that keeps answering "-2" ----

  const NOT_READY: seq<bv8> := [0x00, 0x80, 0x00, 0x80]

  function Stuck(m: nat): Line {
    Line([], seq(m, _ => NOT_READY))
  }

  lemma StuckStep(m: nat)
    requires m > 0
    ensures Reply(Stuck(m)) == NOT_READY && Afterwards(Stuck(m)) == Stuck(m - 1)
  {
    var l := Stuck(m);
    ArrivedStep([], l.arrivals, 0);
    ArrivedMono([], l.arrivals, 1, POLLS);
    assert Arrived([], l.arrivals, 1) == NOT_READY;
    assert StopsAt(l, 1);
    StopIsUnique(l, Polls(l), 1);
    assert l.arrivals[1..] == Stuck(m - 1).arrivals;
  }

  lemma {:induction false} StuckAfter(m: nat, k: nat)
    requires k <= m
    ensures LineAfter(Stuck(m), k) == Stuck(m - k)
  {
    if k > 0 {
      StuckAfter(m, k - 1);
      StuckStep(m - k + 1);
    }
  }

  lemma StuckIsNotReady()
    ensures Classify(TEXT_RES, NOT_READY) == NotReady
  {
    AppendedByteVerifies([0x00, 0x80, 0x00], 0x80);
    SumOfConcat([0x00], [0x80] + [0x00]);
    SumOfConcat([0x80], [0x00]);
    assert [0x00] + ([0x80] + [0x00]) == [0x00, 0x80, 0x00] && [0x00, 0x80, 0x00] + [0x80] == NOT_READY;
    DecodeRange(0x80, 0x00);
  }

  /** A cell that answers "-2" to every frame is never done with. */
  lemma StuckForEver(device: nat -> seq<bv8>)
    requires forall k :: device(k) == NOT_READY
    ensures !exists n: nat :: Complete(OutcomesOf(TEXT_RES, device, n))
  {
    StuckIsNotReady();
    QueryEndsIff(TEXT_RES, device);
  }

  lemma SilentFails()
    ensures !Accepted(Reply(Stuck(0)))
  {
    assert Flatten([]) == [];
  }

  lemma StuckRun(run: seq<Outcome>, m: nat)
    requires Complete(run) && m > 0
    requires forall k :: 0 <= k < |run| && k < m ==> run[k] == NotReady
    requires m < |run| ==> run[m] == Failed
    ensures |run| == m + 1
  {
    CompleteRunsAreLanguage(run);
  }

  /** However many read-backs a caller is prepared to wait for, some device demands more: a resistance query
      of a cell that answers "-2" m times and then falls silent takes exactly m + 1 exchanges. */
  lemma NoBoundOnExchanges(battery: bv8, m: nat, sent0: seq<seq<bv8>>, exs: seq<Exchange>, res: int,
                           l: Line, sent: seq<seq<bv8>>)
    requires m > 0 && SoundQuery(TEXT_RES, battery, exs, res) && Talked(Stuck(m), sent0, exs, l, sent)
    ensures |exs| == m + 1 && res == NO_REPLY
  {
    hide Reply, Afterwards, LineAfter, Complete, Stuck, FramesAreRight, Frames, Supported, Reading, Verifies, Accepted;
    forall k | 0 <= k < |exs| && k < m ensures Outcomes(TEXT_RES, exs)[k] == NotReady {
      StuckAfter(m, k);
      StuckStep(m - k);
      StuckIsNotReady();
    }
    StuckAfter(m, m);
    SilentFails();
    StuckRun(Outcomes(TEXT_RES, exs), m);
  }

  // ---- Discarding stale input ----

  /** What the k-th read finds, counting from 0, when everything before it was thrown away. */
  function Found(l: Line, k: nat): seq<bv8> {
    (if k == 0 then l.inbox else []) + (if k < |l.arrivals| then l.arrivals[k] else [])
  }

  /** The first read to find nothing is the last of `tries` reads. */
  ghost predicate QuietAfter(l: Line, tries: nat) {
    tries >= 1 && Found(l, tries - 1) == [] && forall k :: 0 <= k < tries - 1 ==> Found(l, k) != []
  }

  /** What is left after these tries: nothing that had arrived, everything still to come. */
  function Skip(l: Line, tries: nat): Line {
    Line([], l.arrivals[Min(tries, |l.arrivals|)..])
  }

  /** Discarding, chunk by chunk: every read but the last finds a byte, the last finds none, and what is left
      are the chunks from the next one on. */
  lemma QuietIs(l: Line, tries: nat)
    requires QuietAfter(l, tries)
    ensures Skip(l, tries) == Line([], if tries <= |l.arrivals| then l.arrivals[tries..] else [])
    ensures tries >= 1 && (tries == 1 ==> l.inbox == [])
    ensures tries <= |l.arrivals| ==> l.arrivals[tries - 1] == []
    ensures forall k :: 0 <= k < tries - 1 ==> FindsByte(l, k)
  {
    forall k | 0 <= k < tries - 1 ensures FindsByte(l, k) {
      assert Found(l, k) != [];
    }
  }

  /** The k-th read finds a byte left over or one that arrives with it. */
  predicate FindsByte(l: Line, k: nat) {
    (k == 0 && l.inbox != []) || (k < |l.arrivals| && l.arrivals[k] != [])
  }

  /** A conversation after the stale input has been discarded. */
  ghost predicate TalkedAfterFlush(l0: Line, sent0: seq<seq<bv8>>, exs: seq<Exchange>,
                                   l: Line, sent: seq<seq<bv8>>) {
    exists tries: nat :: QuietAfter(l0, tries) && Talked(Skip(l0, tries), sent0, exs, l, sent)
  }

  lemma TalkedLater(l0: Line, tries: nat, sent0: seq<seq<bv8>>, exs: seq<Exchange>, l: Line, sent: seq<seq<bv8>>)
    requires QuietAfter(l0, tries) && Talked(Skip(l0, tries), sent0, exs, l, sent)
    ensures TalkedAfterFlush(l0, sent0, exs, l, sent)
  {
  }

  // ---- Control commands and the current sensor ----

  predicate Acknowledged(cmd: bv8, reply: seq<bv8>) {
    Accepted(reply) && reply[1] == cmd && reply[2] == 0
  }

  /** A finished control command: stops at the first acknowledgement, after two frames at the latest;
      succeeds (0) iff its last reply is the acknowledgement. */
  ghost predicate SoundControl(cmd: bv8, battery: bv8, exs: seq<Exchange>, res: int) {
    && (cmd == CHARGE_DISCHARGE_OPEN || cmd == CHARGE_DISCHARGE_OFF)
    && 1 <= |exs| <= 2
    && (forall k :: 0 <= k < |exs| ==> exs[k].frame == Frame(battery, cmd))
    && (|exs| == 2 ==> !Acknowledged(cmd, exs[0].reply))
    && (|exs| == 1 ==> Acknowledged(cmd, exs[0].reply))
    && res == (if Acknowledged(cmd, exs[|exs| - 1].reply) then 0 else -1)
  }

  /** A control command, byte by byte: every frame is the cell number, the command and their XOR; a second one
      goes out iff the first was not acknowledged; the result is 0 iff the last reply repeats the command with
      a zero and a correct XOR. */
  lemma ControlByBytes(cmd: bv8, battery: bv8, exs: seq<Exchange>, res: int)
    requires SoundControl(cmd, battery, exs, res)
    ensures 1 <= |exs| <= 2 && forall k :: 0 <= k < |exs| ==> exs[k].frame == [battery, cmd, battery ^ cmd]
    ensures |exs| == 1 <==> Usable(exs[0].reply) && exs[0].reply[1] == cmd && exs[0].reply[2] == 0x00
    ensures var r := exs[|exs| - 1].reply;
            res == if Usable(r) && r[1] == cmd && r[2] == 0x00 then 0 else -1
  {
    hide Frame, Verifies, Reading;
    FrameByBytes(battery, cmd);
    ReadingByBytes(exs[0].reply);
    ReadingByBytes(exs[|exs| - 1].reply);
  }

  predicate SensorAccepted(reply: seq<bv8>) {
    |reply| == 4 && reply[0] == 0xaa && reply[3] == 0xcc
  }

  function SensorCount(reply: seq<bv8>): (n: int)
    requires |reply| == 4
    ensures 0 <= n < 65536
  {
    reply[1] as int * 256 + reply[2] as int
  }

  /** Sensor output in volts: 1.3 V per 1024 counts; -1 for no usable reply. */
  function SensorVolts(reply: seq<bv8>): real {
    if SensorAccepted(reply) then SensorCount(reply) as real * 0.00126953125 else -1.0
  }

  ghost predicate SoundSensor(exs: seq<Exchange>, res: real) {
    && 1 <= |exs| <= 2
    && (forall k :: 0 <= k < |exs| ==> exs[k].frame == [0xaa, 0xbb, 0xcc])
    && (|exs| == 2 <==> SensorVolts(exs[0].reply) <= 0.0)
    && res == SensorVolts(exs[|exs| - 1].reply)
  }

  /** A finished command. */
  datatype Command =
    | Text(cmd: bv8, battery: bv8, exchanges: seq<Exchange>, result: int)
    | Control(cmd: bv8, battery: bv8, exchanges: seq<Exchange>, ack: int)
    | Sensor(exchanges: seq<Exchange>, volts: real)

  ghost predicate Sound(c: Command) {
    match c
    case Text(cmd, battery, exs, res) => SoundQuery(cmd, battery, exs, res)
    case Control(cmd, battery, exs, ack) => SoundControl(cmd, battery, exs, ack)
    case Sensor(exs, volts) => SoundSensor(exs, volts)
  }

  // ---- Commands on the wire ----

  /** The frame of cell n with a command byte. */
  predicate IsFrame(f: seq<bv8>, n: nat, cmd: bv8) {
    n < 256 && |f| == 3 && f[0] == n as bv8 && f[1] == cmd && f[2] == f[0] ^ f[1]
  }

  lemma FrameOf(b: bv8, n: nat, cmd: bv8)
    requires n < 256 && b == n as bv8
    ensures IsFrame([b, cmd, b ^ cmd], n, cmd)
  {
  }

  /** A text query on the wire: every frame starts with the number of the cell, followed by the command (0x22
      after the first "-2" to a resistance query); the result is what the last reply encodes. */
  ghost predicate TextOnWire(c: Command, n: nat, cmd: bv8, result: int) {
    && c.Text? && c.exchanges != [] && c.result == result
    && (forall k :: 0 <= k < |c.exchanges| ==>
          IsFrame(c.exchanges[k].frame, n, CommandByte(cmd, c.exchanges, k)))
    && var r := c.exchanges[|c.exchanges| - 1].reply;
       result == if Usable(r) then DecodeData(r[1] as int, r[2] as int) else -1000
  }

  lemma TextReachesWire(c: Command, n: nat)
    requires c.Text? && Sound(c) && n < 256 && c.battery == n as bv8
    ensures TextOnWire(c, n, c.cmd, c.result)
  {
    hide SoundQuery, DecodeData, Usable, IsFrame, CommandByte;
    ResultSoundness(c.cmd, c.battery, c.exchanges, c.result);
    forall k | 0 <= k < |c.exchanges|
      ensures IsFrame(c.exchanges[k].frame, n, CommandByte(c.cmd, c.exchanges, k))
    {
      FrameOf(c.battery, n, CommandByte(c.cmd, c.exchanges, k));
    }
  }

  ghost function SoundCommands(): iset<Command> {
    iset c | Sound(c)
  }

  /** The low byte of the cell number. */
  function CellByte(battery: nat): bv8 {
    (battery % 256) as bv8
  }

  /** A line in polling mode. `sent` is every frame written to it; `arrivals[k]` is what the device delivers
      just before the k-th future read, and after the last entry the line is silent. So these are the devices
      that fall silent in the end, after any behaviour for any length of time. Against one that never does, a
      query may go on for ever: RetryMachine.QueryEndsIff says when. */
  class Port {
    var inbox: seq<bv8>
    var arrivals: seq<seq<bv8>>
    var sent: seq<seq<bv8>>
    ghost var log: seq<Command>

    constructor (arrivals: seq<seq<bv8>>)
      ensures inbox == [] && this.arrivals == arrivals && sent == [] && log == [] && Valid()
    {
      this.inbox, this.arrivals, this.sent, this.log := [], arrivals, [], [];
    }

    /** Every command ever finished on this line was carried out correctly. */
    ghost predicate Valid()
      reads this`log
    {
      forall k :: 0 <= k < |log| ==> Sound(log[k])
    }

    function Now(): Line
      reads this`inbox, this`arrivals
    {
      Line(inbox, arrivals)
    }

    /** read(2) into the buffer at an offset: returns at once with what is there, up to n bytes. */
    method Read(buf: array<bv8>, at: nat, n: nat) returns (r: nat)
      requires at + n <= buf.Length
      modifies this`inbox, this`arrivals, buf
      ensures var got := Arrived(old(inbox), old(arrivals), 1);
              && r == Min(n, |got|)
              && buf[..at + r] == old(buf[..at]) + got[..r]
              && inbox == got[r..]
      ensures forall k :: at + r <= k < buf.Length ==> buf[k] == old(buf[k])
      ensures arrivals == old(arrivals)[Min(1, |old(arrivals)|)..]
    {
      ArrivedStep(inbox, arrivals, 0);
      if arrivals != [] {
        inbox, arrivals := inbox + arrivals[0], arrivals[1..];
      }
      r := Min(n, |inbox|);
      forall k | 0 <= k < r {
        buf[at + k] := inbox[k];
      }
      inbox := inbox[r..];
    }

    /** Discard stale input before a command, until a read comes back empty; what arrives after that read is
        kept. */
    method Flush(buf: array<bv8>) returns (ghost tries: nat)
      requires buf.Length == 3
      modifies this`inbox, this`arrivals, buf
      ensures QuietAfter(old(Now()), tries) && Now() == Skip(old(Now()), tries)
    {
      ghost var l := Now();
      ArrivedStep(inbox, arrivals, 0);
      var readonce := Read(buf, 0, 3);
      tries := 1;
      while readonce != 0
        invariant tries >= 1 && (readonce == 0 <==> Found(l, tries - 1) == []) && (readonce == 0 ==> inbox == [])
        invariant forall k :: 0 <= k < tries - 1 ==> Found(l, k) != []
        invariant arrivals == l.arrivals[Min(tries, |l.arrivals|)..]
        decreases |arrivals|, readonce
      {
        inbox := [];  // tcflush
        ArrivedStep(inbox, arrivals, 0);
        readonce := Read(buf, 0, 3);
        tries := tries + 1;
      }
    }

    /** One poll of the receive loop. */
    method PollReply(precv: array<bv8>, readlen: nat, ghost inbox0: seq<bv8>, ghost arrivals0: seq<seq<bv8>>,
                     ghost polls: nat) returns (readonce: nat)
      requires readlen <= precv.Length == 4
      requires Polled(inbox0, arrivals0, polls, precv[..readlen], inbox, arrivals)
      modifies this`inbox, this`arrivals, precv
      ensures readlen + readonce <= 4 && (readlen + readonce < 4 ==> inbox == [])
      ensures Polled(inbox0, arrivals0, polls + 1, precv[..readlen + readonce], inbox, arrivals)
    {
      hide Arrived, Flatten;
      ghost var had, got := precv[..readlen], Arrived(inbox, arrivals, 1);
      PollStep(inbox0, arrivals0, polls, had, inbox, arrivals);
      readonce := Read(precv, readlen, 4 - readlen);
      Regroup(had, got, readonce);
    }

    /** Collect up to four reply bytes over 25 polls. The buffer holds the reply in arrival order; no byte
        beyond the fourth is consumed and none is lost. */
    method Receive(precv: array<bv8>) returns (readlen: nat)
      requires precv.Length == 4
      modifies this`inbox, this`arrivals, precv
      ensures readlen <= 4
      ensures precv[..readlen] == Reply(old(Now())) && Now() == Afterwards(old(Now()))
    {
      hide Polled, Arrived, Flatten, Reply, Afterwards;
      ghost var l, polls := Now(), 0;
      PolledStart(inbox, arrivals);
      readlen := 0;
      assert precv[..0] == [];
      var i := 0;
      while i < POLLS
        invariant 0 <= readlen <= 4 && 0 <= polls <= POLLS
        invariant i <= POLLS ==> i == polls
        invariant i < POLLS ==> readlen < 4
        invariant i > POLLS ==> readlen == 4 && polls >= 1
        invariant readlen < 4 && polls > 0 ==> inbox == []
        invariant Polled(l.inbox, l.arrivals, polls, precv[..readlen], inbox, arrivals)
        invariant forall q :: 1 <= q < polls ==> |Arrived(l.inbox, l.arrivals, q)| < 4
        decreases POLLS - i
      {
        PolledSize(l, polls, precv[..readlen], inbox, arrivals);
        var readonce := PollReply(precv, readlen, l.inbox, l.arrivals, polls);
        readlen := readlen + readonce;
        polls := polls + 1;
        if readonce != 0 && readlen >= 4 {
          i := POLLS;
        }
        i := i + 1;
      }
      PolledSize(l, polls, precv[..readlen], inbox, arrivals);
      WindowReached(l, polls, precv[..readlen], inbox, arrivals);
    }

    /** Send a frame and wait for its reply. */
    method SendAndRecv(psend: array<bv8>, precv: array<bv8>) returns (readlen: nat)
      requires precv.Length == 4 && psend != precv
      modifies this`inbox, this`arrivals, this`sent, precv
      ensures sent == old(sent) + [psend[..]]
      ensures readlen <= 4
      ensures precv[..readlen] == Reply(old(Now())) && Now() == Afterwards(old(Now()))
    {
      sent := sent + [psend[..]];
      readlen := Receive(precv);
    }

    /** Exactly this command was carried out. */
    twostate predicate Added(c: Command)
      reads this`log
    {
      log == old(log) + [c]
    }

    /** What was added is sound. */
    twostate lemma AddedIsSound(c: Command)
      requires Valid() && Added(c)
      ensures Sound(c)
    {
      assert log[|old(log)|] == c;
    }

    ghost method Record(c: Command)
      requires Valid() && c in SoundCommands()
      modifies this`log
      ensures Valid() && Added(c)
    {
      log := log + [c];
    }

    /** Discard stale input and make up the command frame. */
    method Prepare(cmd: bv8, battery: bv8) returns (cmdstr: array<bv8>, ghost tries: nat)
      modifies this`inbox, this`arrivals
      ensures fresh(cmdstr) && cmdstr.Length == 3 && cmdstr[..] == Frame(battery, cmd)
      ensures QuietAfter(old(Now()), tries) && Now() == Skip(old(Now()), tries)
    {
      cmdstr := new bv8[3](_ => 0);
      tries := Flush(cmdstr);
      FillFrame(cmdstr, battery, cmd);
    }

    /** Discard stale input and make up the fixed frame of the current sensor. */
    method PrepareSensor() returns (cmdstr: array<bv8>, ghost tries: nat)
      modifies this`inbox, this`arrivals
      ensures fresh(cmdstr) && cmdstr[..] == [0xaa, 0xbb, 0xcc]
      ensures QuietAfter(old(Now()), tries) && Now() == Skip(old(Now()), tries)
    {
      cmdstr := new bv8[3](_ => 0);
      tries := Flush(cmdstr);
      FillBytes(cmdstr, 0xaa, 0xbb, 0xcc);
    }

    /** One exchange: the reply into a fresh buffer, checked and decoded. */
    method TryOnce(cmdstr: array<bv8>) returns (accepted: bool, value: int, reply: seq<bv8>)
      modifies this`inbox, this`arrivals, this`sent
      ensures sent == old(sent) + [cmdstr[..]]
      ensures reply == Reply(old(Now())) && Now() == Afterwards(old(Now()))
      ensures accepted == Accepted(reply)
      ensures value == if accepted then Reading(reply) else NO_REPLY
    {
      var readstr := new bv8[4](_ => 0);
      var readlen := SendAndRecv(cmdstr, readstr);
      reply := readstr[..readlen];
      var sum := GenChecksum(readstr, 3);
      accepted := readlen == 4 && sum == readstr[3];
      value := NO_REPLY;
      if accepted {
        value := DecodeData(readstr[1] as int, readstr[2] as int);
      }
      if readlen == 4 {
        assert reply[..3] == readstr[..3];
      }
    }

    /** The retry loop of a text query, from a prepared first frame. */
    method RetryLoop(cmdstr: array<bv8>, cmd: bv8, battery: bv8) returns (res: int, ghost exs: seq<Exchange>)
      requires cmdstr.Length == 3 && cmdstr[..] == Frame(battery, cmd) && Supported(cmd)
      modifies this`inbox, this`arrivals, this`sent, cmdstr
      ensures SoundQuery(cmd, battery, exs, res)
      ensures Talked(old(Now()), old(sent), exs, Now(), sent)
    {
      hide InProgress, Talked, Reply, Afterwards, Bytes;
      exs, res := [], NO_REPLY;
      var i := 0;
      StartRun(cmd, battery);
      TalkedStart(Now(), sent);
      while i < 2
        invariant InProgress(cmd, battery, exs, i, cmdstr[..])
        invariant exs != [] ==> res == LastResult(exs)
        invariant Talked(old(Now()), old(sent), exs, Now(), sent)
        decreases |Bytes(Now())|, if i < 2 then 2 - i else 0
      {
        ghost var l, frames := Now(), sent;
        var accepted, value, reply := TryOnce(cmdstr);
        ReplyIsFront(l);
        ghost var ex := Exchange(cmdstr[..], reply);
        ExtendRun(cmd, battery, exs, i, ex.frame, reply);
        TalkedStep(old(Now()), old(sent), exs, l, frames, ex);
        exs := exs + [ex];
        res := value;
        i := Advance(cmdstr, cmd, battery, accepted, value, i, reply);
      }
      EndRun(cmd, battery, exs, i, cmdstr[..]);
    }

    /** Query a cell. The replies are, in order, bytes the line delivered after the stale input. */
    method SendTextCommand(cmd: bv8, battery: nat) returns (res: int, ghost exs: seq<Exchange>)
      requires Valid()
      modifies this
      ensures Valid()
      ensures if cmd in {0x00, 0x01, 0x02, 0x60, 0x61, 0x62, 0x70}
              then Added(Text(cmd, CellByte(battery), exs, res))
              else res == -1000 && exs == [] && log == old(log)
      ensures TalkedAfterFlush(old(Now()), old(sent), exs, Now(), sent)
    {
      hide SoundQuery, SoundControl, SoundSensor, Talked, TalkedAfterFlush, QuietAfter, Skip;
      hide Frame, Verifies, Sum, CellByte, Supported;
      SupportedBytes(cmd);
      var cmdstr, tries := Prepare(cmd, CellByte(battery));
      if !Supported(cmd) {
        exs, res := [], NO_REPLY;
        TalkedStart(Now(), sent);
      } else {
        res, exs := RetryLoop(cmdstr, cmd, CellByte(battery));
        Record(Text(cmd, CellByte(battery), exs, res));
      }
      TalkedLater(old(Now()), tries, old(sent), exs, Now(), sent);
    }

    /** The retry loop of a control command. */
    method ControlLoop(cmdstr: array<bv8>, cmd: bv8, battery: bv8) returns (res: int, ghost exs: seq<Exchange>)
      requires cmdstr.Length == 3 && cmdstr[..] == Frame(battery, cmd)
      requires cmd == CHARGE_DISCHARGE_OPEN || cmd == CHARGE_DISCHARGE_OFF
      modifies this`inbox, this`arrivals, this`sent
      ensures SoundControl(cmd, battery, exs, res)
      ensures Talked(old(Now()), old(sent), exs, Now(), sent)
    {
      hide Talked, Reply, Afterwards, Frame, Verifies, Reading;
      ghost var frame := cmdstr[..];
      exs, res := [], -1;
      TalkedStart(Now(), sent);
      var i := 0;
      while i < 2
        invariant |exs| == i && res == -1
        invariant i <= 2
        invariant forall k :: 0 <= k < i ==> exs[k].frame == frame && !Acknowledged(cmd, exs[k].reply)
        invariant Talked(old(Now()), old(sent), exs, Now(), sent)
      {
        ghost var l, frames := Now(), sent;
        var accepted, value, reply := TryOnce(cmdstr);
        TalkedStep(old(Now()), old(sent), exs, l, frames, Exchange(frame, reply));
        exs := exs + [Exchange(frame, reply)];
        if accepted && reply[1] == cmd && reply[2] == 0 {
          res := 0;
          break;
        }
        i := i + 1;
      }
    }

    /** Order a cell to start or stop discharging. */
    method SendControlCommand(cmd: bv8, battery: nat) returns (res: int, ghost exs: seq<Exchange>)
      requires Valid()
      modifies this
      ensures Valid()
      ensures if cmd in {0x00, 0x01} then Added(Control(cmd, CellByte(battery), exs, res))
              else res == -1 && exs == [] && log == old(log)
      ensures TalkedAfterFlush(old(Now()), old(sent), exs, Now(), sent)
    {
      hide SoundQuery, SoundControl, SoundSensor, Talked, TalkedAfterFlush, QuietAfter, Skip;
      hide Frame, Verifies, Sum, CellByte, Supported;
      var cmdstr, tries := Prepare(cmd, CellByte(battery));
      if cmd != CHARGE_DISCHARGE_OPEN && cmd != CHARGE_DISCHARGE_OFF {
        exs, res := [], -1;
        TalkedStart(Now(), sent);
      } else {
        res, exs := ControlLoop(cmdstr, cmd, CellByte(battery));
        Record(Control(cmd, CellByte(battery), exs, res));
      }
      TalkedLater(old(Now()), tries, old(sent), exs, Now(), sent);
    }

    /** One exchange with the current sensor. */
    method TrySensor(cmdstr: array<bv8>) returns (volts: real, ghost reply: seq<bv8>)
      modifies this`inbox, this`arrivals, this`sent
      ensures sent == old(sent) + [cmdstr[..]]
      ensures volts == SensorVolts(reply)
      ensures reply == Reply(old(Now())) && Now() == Afterwards(old(Now()))
    {
      var readstr := new bv8[4](_ => 0);
      var readlen := SendAndRecv(cmdstr, readstr);
      reply := readstr[..readlen];
      volts := -1.0;
      if readlen == 4 && readstr[0] == 0xaa && readstr[3] == 0xcc {
        var data := readstr[1] as int * 256 + readstr[2] as int;
        volts := data as real * 0.00126953125;
      }
    }

    /** The retry loop of a current reading: a second attempt unless the first yields a positive
        voltage. */
    method SensorLoop(cmdstr: array<bv8>) returns (volts: real, ghost exs: seq<Exchange>)
      requires cmdstr[..] == [0xaa, 0xbb, 0xcc]
      modifies this`inbox, this`arrivals, this`sent
      ensures SoundSensor(exs, volts)
      ensures Talked(old(Now()), old(sent), exs, Now(), sent)
    {
      hide Talked, Reply, Afterwards;
      ghost var frame := cmdstr[..];
      exs, volts := [], -1.0;
      TalkedStart(Now(), sent);
      var i := 0;
      while i < 2
        invariant if i == 1 then |exs| == 1 && SensorVolts(exs[0].reply) <= 0.0
                  else i == 0 ==> exs == []
        invariant i >= 2 ==> SoundSensor(exs, volts)
        invariant forall k :: 0 <= k < |exs| ==> exs[k].frame == frame
        invariant Talked(old(Now()), old(sent), exs, Now(), sent)
        decreases 2 - i
      {
        ghost var l, frames, reply := Now(), sent, [];
        volts, reply := TrySensor(cmdstr);
        TalkedStep(old(Now()), old(sent), exs, l, frames, Exchange(frame, reply));
        exs := exs + [Exchange(frame, reply)];
        if volts > 0.0 {
          i := 2;
        }
        i := i + 1;
      }
    }

    /** Read the current sensor. */
    method SendTextCurrent() returns (volts: real, ghost exs: seq<Exchange>)
      requires Valid()
      modifies this
      ensures Valid() && Added(Sensor(exs, volts))
      ensures TalkedAfterFlush(old(Now()), old(sent), exs, Now(), sent)
    {
      hide SoundSensor, Talked, TalkedAfterFlush, QuietAfter, Skip;
      var cmdstr, tries := PrepareSensor();
      volts, exs := SensorLoop(cmdstr);
      TalkedLater(old(Now()), tries, old(sent), exs, Now(), sent);
      Record(Sensor(exs, volts));
    }
  }

  /** The loop variable and the command buffer after an exchange: a resistance query answered "-2"
      starts over with the read-back command. */
  method Advance(cmdstr: array<bv8>, cmd: bv8, battery: bv8, accepted: bool, value: int, i: nat,
                 ghost reply: seq<bv8>) returns (next: nat)
    requires cmdstr.Length == 3 && accepted == Accepted(reply)
    requires accepted ==> value == Reading(reply)
    modifies cmdstr
    ensures next == Next(i, Classify(cmd, reply))
    ensures cmdstr[..] == if Classify(cmd, reply) == NotReady then Frame(battery, READ_RES) else old(cmdstr[..])
  {
    next := i;
    if accepted {
      if value == INVALID && cmd == TEXT_RES {
        FillFrame(cmdstr, battery, READ_RES);
        next := 0;
      } else {
        next := 2;
      }
    }
    next := next + 1;
  }

  method FillBytes(cmdstr: array<bv8>, a: bv8, b: bv8, c: bv8)
    requires cmdstr.Length == 3
    modifies cmdstr
    ensures cmdstr[..] == [a, b, c]
  {
    cmdstr[0], cmdstr[1], cmdstr[2] := a, b, c;
  }

  /** Cell number, command and checksum into the command buffer. */
  method FillFrame(cmdstr: array<bv8>, battery: bv8, cmd: bv8)
    requires cmdstr.Length == 3
    modifies cmdstr
    ensures cmdstr[..] == Frame(battery, cmd)
  {
    cmdstr[0] := battery;
    cmdstr[1] := cmd;
    var sum := GenChecksum(cmdstr, 2);
    assert cmdstr[..2] == [battery, cmd];
    cmdstr[2] := sum;
  }
}
