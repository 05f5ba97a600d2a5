/** The loop of a text query: at most two exchanges, except that a resistance query whose device answers
    "-2" switches to the read-back command and starts counting again. */
module RetryMachine {
  import opened Checksum
  import opened MiniFloat

  const CHARGE_DISCHARGE_OFF: bv8 := 0x00
  const CHARGE_DISCHARGE_OPEN: bv8 := 0x01
  const READ_CURRENT: bv8 := 0x02
  const READ_RES: bv8 := 0x22
  const TEST_VOLTAGE: bv8 := 0x60
  const TEXT_TEMP: bv8 := 0x61
  const TEXT_RES: bv8 := 0x62
  const TEXT_CAP: bv8 := 0x70

  predicate Supported(cmd: bv8) {
    || cmd == TEST_VOLTAGE || cmd == TEXT_RES || cmd == TEXT_TEMP || cmd == TEXT_CAP
    || cmd == CHARGE_DISCHARGE_OPEN || cmd == CHARGE_DISCHARGE_OFF || cmd == READ_CURRENT
  }

  lemma SupportedBytes(cmd: bv8)
    ensures Supported(cmd) <==> cmd in {0x00, 0x01, 0x02, 0x60, 0x61, 0x62, 0x70}
  {
  }

  /** One frame sent and the bytes that came back within the polling window. */
  datatype Exchange = Exchange(frame: seq<bv8>, reply: seq<bv8>)

  /** A bad or short reply, a checksum-valid "-2" to a resistance query, any other valid reply. */
  datatype Outcome = Failed | NotReady | Valid

  predicate Accepted(reply: seq<bv8>) {
    |reply| == 4 && Verifies(reply)
  }

  /** The two data bytes of an accepted reply. */
  function Reading(reply: seq<bv8>): (v: int)
    requires |reply| == 4
    ensures v == INVALID || 0 <= v <= MAX_READING
  {
    DecodeRange(reply[1] as int, reply[2] as int);
    DecodeData(reply[1] as int, reply[2] as int)
  }

  function Classify(cmd: bv8, reply: seq<bv8>): Outcome {
    if !Accepted(reply) then Failed
    else if Reading(reply) == INVALID && cmd == TEXT_RES then NotReady
    else Valid
  }

  function Outcomes(cmd: bv8, exs: seq<Exchange>): (run: seq<Outcome>)
    ensures |run| == |exs|
    ensures forall k :: 0 <= k < |exs| ==> run[k] == Classify(cmd, exs[k].reply)
  {
    seq(|exs|, k requires 0 <= k < |exs| => Classify(cmd, exs[k].reply))
  }

  // ---- The loop counter ----

  /** The loop variable after the body and the increment. */
  function Next(i: nat, o: Outcome): nat {
    (match o
     case Failed => i
     case NotReady => 0
     case Valid => 2) + 1
  }

  /** The loop variable after a sequence of exchanges. */
  function Counter(run: seq<Outcome>): nat {
    if run == [] then 0 else Next(Counter(run[..|run| - 1]), run[|run| - 1])
  }

  /** The loop stops after `run` and not before. */
  ghost predicate Complete(run: seq<Outcome>) {
    Counter(run) >= 2 && forall k :: 0 <= k < |run| ==> Counter(run[..k]) < 2
  }

  /** The loop has not stopped after `run`, nor before. */
  ghost predicate StillRunning(run: seq<Outcome>) {
    forall k :: 0 <= k <= |run| ==> Counter(run[..k]) < 2
  }

  // ---- The language of complete runs ----

  ghost predicate AllNotReady(run: seq<Outcome>, from: nat, to: nat) {
    forall k :: from <= k < to && k < |run| ==> run[k] == NotReady
  }

  /** V, or N+ (V|F), or F N* (V|F). */
  ghost predicate InLanguage(run: seq<Outcome>) {
    || run == [Valid]
    || (|run| >= 2 && run[|run| - 1] != NotReady
        && run[0] != Valid && AllNotReady(run, 1, |run| - 1))
  }

  /** Mid-loop, the counter is 0 before the first exchange and 1 from then on. */
  lemma {:induction false} CounterMidRun(run: seq<Outcome>)
    requires StillRunning(run)
    ensures Counter(run) == (if run == [] then 0 else 1)
    ensures |run| > 0 ==> run[0] != Valid && AllNotReady(run, 1, |run|)
  {
    assert run[..|run|] == run;
    if run != [] {
      var init := run[..|run| - 1];
      forall k | 0 <= k <= |init| ensures Counter(init[..k]) < 2 {
        assert init[..k] == run[..k];
      }
      CounterMidRun(init);
      assert |run| > 1 ==> run[0] == init[0];
      forall k | 1 <= k < |run| ensures run[k] == NotReady {
        if k < |init| {
          assert init[k] == run[k];
        }
      }
    }
  }

  lemma {:induction false} CounterOfPrefix(run: seq<Outcome>)
    requires |run| > 0 ==> run[0] != Valid && AllNotReady(run, 1, |run|)
    ensures Counter(run) == (if run == [] then 0 else 1)
  {
    if |run| > 1 {
      CounterOfPrefix(run[..|run| - 1]);
      assert run[|run| - 1] == NotReady;
    }
  }

  /** The loop runs exactly the words of the language, for every device behaviour. */
  lemma CompleteRunsAreLanguage(run: seq<Outcome>)
    ensures Complete(run) <==> InLanguage(run)
  {
    if Complete(run) {
      var init := run[..|run| - 1];
      forall k | 0 <= k <= |init| ensures Counter(init[..k]) < 2 {
        assert init[..k] == run[..k];
      }
      CounterMidRun(init);
      if |run| > 1 {
        assert run[0] == init[0];
        forall k | 1 <= k < |run| - 1 ensures run[k] == NotReady {
          assert init[k] == run[k];
        }
      }
    }
    if InLanguage(run) {
      forall k | 0 <= k < |run| ensures Counter(run[..k]) < 2 {
        CounterOfPrefix(run[..k]);
      }
      CounterOfPrefix(run[..|run| - 1]);
    }
  }

  // ---- Whether a query ends at all ----

  /** The loop is still running after exactly the sequences that open with anything but V and go on with
      nothing but N. */
  lemma StillRunningIff(run: seq<Outcome>)
    ensures StillRunning(run) <==> run == [] || (run[0] != Valid && AllNotReady(run, 1, |run|))
  {
    if StillRunning(run) {
      CounterMidRun(run);
    } else if run == [] || (run[0] != Valid && AllNotReady(run, 1, |run|)) {
      forall k | 0 <= k <= |run| ensures Counter(run[..k]) < 2 {
        CounterOfPrefix(run[..k]);
      }
    }
  }

  /** The outcomes of the first n exchanges with a device that never stops answering; its k-th reply may be
      anything. */
  function OutcomesOf(cmd: bv8, device: nat -> seq<bv8>, n: nat): (run: seq<Outcome>)
    ensures |run| == n && forall k :: 0 <= k < n ==> run[k] == Classify(cmd, device(k))
  {
    seq(n, k requires 0 <= k < n => Classify(cmd, device(k)))
  }

  /** Some exchange after the first, up to the j-th, is the first of them not answered "-2". */
  lemma {:induction false} FirstOther(cmd: bv8, device: nat -> seq<bv8>, j: nat) returns (m: nat)
    requires j >= 1 && Classify(cmd, device(j)) != NotReady
    ensures 1 <= m <= j && Classify(cmd, device(m)) != NotReady
    ensures forall k :: 1 <= k < m ==> Classify(cmd, device(k)) == NotReady
  {
    hide Classify;
    m := 1;
    while Classify(cmd, device(m)) == NotReady
      invariant 1 <= m <= j
      invariant forall k :: 1 <= k < m ==> Classify(cmd, device(k)) == NotReady
      decreases j - m
    {
      m := m + 1;
    }
  }

  /** Against a device that answers for ever, a query ends if and only if its first reply is a plain valid
      one, or some later reply is anything but "-2". A cell that answers "-2" to the query and to every
      read-back holds the loop for ever; any command but the resistance query ends. */
  lemma QueryEndsIff(cmd: bv8, device: nat -> seq<bv8>)
    ensures (exists n: nat :: Complete(OutcomesOf(cmd, device, n)))
       <==> Classify(cmd, device(0)) == Valid || exists k: nat :: k >= 1 && Classify(cmd, device(k)) != NotReady
    ensures cmd != TEXT_RES ==> exists n: nat :: Complete(OutcomesOf(cmd, device, n))
  {
    if n: nat :| Complete(OutcomesOf(cmd, device, n)) {
      var run := OutcomesOf(cmd, device, n);
      CompleteRunsAreLanguage(run);
      assert run == [Valid] ==> run[0] == Classify(cmd, device(0));
      assert |run| >= 2 ==> run[n - 1] == Classify(cmd, device(n - 1));
    }
    if Classify(cmd, device(0)) == Valid {
      CompleteRunsAreLanguage(OutcomesOf(cmd, device, 1));
    } else if j: nat :| j >= 1 && Classify(cmd, device(j)) != NotReady {
      var m := FirstOther(cmd, device, j);
      CompleteRunsAreLanguage(OutcomesOf(cmd, device, m + 1));
    }
    if cmd != TEXT_RES {
      assert Classify(cmd, device(1)) != NotReady;
    }
  }

  lemma {:induction false} CountAll(run: seq<Outcome>, from: nat)
    requires from <= |run| && AllNotReady(run, from, |run|)
    ensures |run| - from <= multiset(run)[NotReady]
  {
    if from < |run| {
      var init := run[..|run| - 1];
      assert run == init + [NotReady];
      CountAll(init, from);
    }
  }

  /** Termination measure: two exchanges plus one for every "-2" reply. */
  lemma ExchangeBound(run: seq<Outcome>)
    requires Complete(run)
    ensures 1 <= |run| <= 2 + multiset(run)[NotReady]
  {
    CompleteRunsAreLanguage(run);
    if |run| >= 2 {
      var init := run[..|run| - 1];
      CountAll(init, 1);
      assert run == init + [run[|run| - 1]];
    }
  }

  /** "Retransmit once" is kept, so that a query takes at most two exchanges, if and only if the first reply
      is a plain valid one or there is a second, which is not "-2". */
  lemma OneRetransmissionIff(run: seq<Outcome>)
    requires Complete(run)
    ensures |run| <= 2 <==> run[0] == Valid || (|run| >= 2 && run[1] != NotReady)
  {
    CompleteRunsAreLanguage(run);
  }

  /** Every command but the resistance query needs at most two exchanges, whatever the device does. */
  lemma TwoExchangesSuffice(cmd: bv8, exs: seq<Exchange>)
    requires cmd != TEXT_RES && Complete(Outcomes(cmd, exs))
    ensures |exs| <= 2
    ensures |exs| == 2 ==> !Accepted(exs[0].reply)
  {
    var run := Outcomes(cmd, exs);
    assert forall k :: 0 <= k < |run| ==> run[k] != NotReady;
    CompleteRunsAreLanguage(run);
  }

  // ---- Frames and results ----

  /** Cell number, command, checksum. */
  function Frame(battery: bv8, cmd: bv8): (f: seq<bv8>)
    ensures |f| == 3 && f[0] == battery && f[1] == cmd
    ensures Verifies(f)
  {
    AppendedByteVerifies([battery, cmd], Sum([battery, cmd]));
    [battery, cmd] + [Sum([battery, cmd])]
  }

  /** The command changes to read-back at the first "-2" and stays there. */
  function CommandAt(cmd: bv8, run: seq<Outcome>, k: nat): bv8
    requires k <= |run|
  {
    if NotReady in run[..k] then READ_RES else cmd
  }

  ghost predicate FramesAreRight(cmd: bv8, battery: bv8, exs: seq<Exchange>) {
    forall k :: 0 <= k < |exs| ==>
      exs[k].frame == Frame(battery, CommandAt(cmd, Outcomes(cmd, exs), k))
  }

  /** The state of the loop between two exchanges. */
  ghost predicate InProgress(cmd: bv8, battery: bv8, exs: seq<Exchange>, i: nat, frame: seq<bv8>) {
    var run := Outcomes(cmd, exs);
    && i == Counter(run)
    && (forall k :: 0 <= k < |run| ==> Counter(run[..k]) < 2)
    && FramesAreRight(cmd, battery, exs)
    && frame == Frame(battery, CommandAt(cmd, run, |run|))
  }

  lemma StartRun(cmd: bv8, battery: bv8)
    ensures InProgress(cmd, battery, [], 0, Frame(battery, cmd))
  {
  }

  lemma EndRun(cmd: bv8, battery: bv8, exs: seq<Exchange>, i: nat, frame: seq<bv8>)
    requires InProgress(cmd, battery, exs, i, frame) && i >= 2
    ensures exs != [] && Complete(Outcomes(cmd, exs)) && FramesAreRight(cmd, battery, exs)
  {
  }

  lemma OutcomesAppend(cmd: bv8, exs: seq<Exchange>, ex: Exchange)
    ensures Outcomes(cmd, exs + [ex]) == Outcomes(cmd, exs) + [Classify(cmd, ex.reply)]
  {
  }

  lemma CounterAppend(run: seq<Outcome>, o: Outcome)
    ensures Counter(run + [o]) == Next(Counter(run), o)
    ensures forall k :: 0 <= k <= |run| ==> (run + [o])[..k] == run[..k]
  {
    assert (run + [o])[..|run|] == run;
  }

  lemma CommandAppend(cmd: bv8, run: seq<Outcome>, o: Outcome)
    ensures forall k :: 0 <= k <= |run| ==> CommandAt(cmd, run + [o], k) == CommandAt(cmd, run, k)
    ensures CommandAt(cmd, run + [o], |run| + 1)
         == if o == NotReady then READ_RES else CommandAt(cmd, run, |run|)
  {
    CounterAppend(run, o);
    assert run[..|run|] == run && (run + [o])[..|run| + 1] == run + [o];
  }

  lemma FramesAppend(cmd: bv8, battery: bv8, exs: seq<Exchange>, ex: Exchange)
    requires FramesAreRight(cmd, battery, exs)
    requires ex.frame == Frame(battery, CommandAt(cmd, Outcomes(cmd, exs), |exs|))
    ensures FramesAreRight(cmd, battery, exs + [ex])
  {
    OutcomesAppend(cmd, exs, ex);
    CommandAppend(cmd, Outcomes(cmd, exs), Classify(cmd, ex.reply));
  }

  lemma ExtendRun(cmd: bv8, battery: bv8, exs: seq<Exchange>, i: nat, frame: seq<bv8>, reply: seq<bv8>)
    requires InProgress(cmd, battery, exs, i, frame) && i < 2
    ensures var o := Classify(cmd, reply);
            InProgress(cmd, battery, exs + [Exchange(frame, reply)], Next(i, o),
                       if o == NotReady then Frame(battery, READ_RES) else frame)
  {
    var ex, o, run := Exchange(frame, reply), Classify(cmd, reply), Outcomes(cmd, exs);
    OutcomesAppend(cmd, exs, ex);
    CounterAppend(run, o);
    CommandAppend(cmd, run, o);
    FramesAppend(cmd, battery, exs, ex);
    forall k | 0 <= k < |run + [o]| ensures Counter((run + [o])[..k]) < 2 {
      assert run[..|run|] == run;
    }
  }

  function LastResult(exs: seq<Exchange>): int
    requires |exs| > 0
  {
    var reply := exs[|exs| - 1].reply;
    if Accepted(reply) then Reading(reply) else NO_REPLY
  }

  /** A finished text query, as recorded. */
  ghost predicate SoundQuery(cmd: bv8, battery: bv8, exs: seq<Exchange>, res: int) {
    && Supported(cmd)
    && Complete(Outcomes(cmd, exs))
    && FramesAreRight(cmd, battery, exs)
    && res == LastResult(exs)
  }

  /** A usable reply, byte by byte. */
  predicate Usable(r: seq<bv8>) {
    |r| == 4 && r[0] ^ r[1] ^ r[2] == r[3]
  }

  /** A usable reply that means "-2", not a number of the protocol. */
  predicate SaysNotReady(r: seq<bv8>) {
    Usable(r) && r[1] >= 0x78
  }

  lemma ClassifyByBytes(cmd: bv8, r: seq<bv8>)
    ensures Classify(cmd, r) == if !Usable(r) then Failed
                                else if SaysNotReady(r) && cmd == 0x62 then NotReady else Valid
  {
    if |r| == 4 {
      ReplyVerifiesIff(r);
      DecodeRange(r[1] as int, r[2] as int);
      ByteOrder(r[1]);
    }
  }

  lemma ByteOrder(b: bv8)
    ensures b >= 0x78 <==> b as int >= 120
  {
  }

  /** What a caller learns from the result of a query, byte by byte: the result is the decoded second and
      third byte of the last reply if that is usable and -1 if not; a resistance query never returns -2;
      every frame is the cell number, the command and their XOR, the command being 0x22 after the first "-2"
      to a resistance query and the caller's before. */
  lemma ResultSoundness(cmd: bv8, battery: bv8, exs: seq<Exchange>, res: int)
    requires SoundQuery(cmd, battery, exs, res)
    ensures |exs| >= 1 && IsReading(res)
    ensures var r := exs[|exs| - 1].reply;
            res == if Usable(r) then DecodeData(r[1] as int, r[2] as int) else -1000
    ensures cmd == 0x62 ==> res != -2000
    ensures forall k :: 0 <= k < |exs| ==>
              exs[k].frame == [battery, CommandByte(cmd, exs, k), battery ^ CommandByte(cmd, exs, k)]
  {
    hide Complete, Sum, DecodeData;
    var run := Outcomes(cmd, exs);
    CompleteRunsAreLanguage(run);
    ReadingByBytes(exs[|exs| - 1].reply);
    ClassifyByBytes(cmd, exs[|exs| - 1].reply);
    if cmd == 0x62 && Usable(exs[|exs| - 1].reply) {
      NotReadyLast(exs[|exs| - 1].reply);
    }
    forall k | 0 <= k < |exs|
      ensures exs[k].frame == [battery, CommandByte(cmd, exs, k), battery ^ CommandByte(cmd, exs, k)]
    {
      CommandByBytes(cmd, exs, k);
      FrameByBytes(battery, CommandByte(cmd, exs, k));
    }
  }

  /** The command byte of the k-th frame. */
  ghost function CommandByte(cmd: bv8, exs: seq<Exchange>, k: nat): bv8
    requires k <= |exs|
  {
    if cmd == 0x62 && exists j :: 0 <= j < k && SaysNotReady(exs[j].reply) then 0x22 else cmd
  }

  lemma CommandByBytes(cmd: bv8, exs: seq<Exchange>, k: nat)
    requires k <= |exs|
    ensures CommandAt(cmd, Outcomes(cmd, exs), k) == CommandByte(cmd, exs, k)
  {
    hide Classify, SaysNotReady;
    var run := Outcomes(cmd, exs);
    forall j | 0 <= j < k ensures run[j] == NotReady <==> cmd == 0x62 && SaysNotReady(exs[j].reply) {
      ClassifyByBytes(cmd, exs[j].reply);
      NotReadyIsUsable(exs[j].reply);
    }
    assert NotReady in run[..k] <==> exists j :: 0 <= j < k && run[j] == NotReady by {
      assert forall j :: 0 <= j < k ==> run[..k][j] == run[j];
    }
  }

  lemma NotReadyIsUsable(r: seq<bv8>)
    ensures SaysNotReady(r) ==> Usable(r)
  {
  }

  lemma FrameByBytes(battery: bv8, cmd: bv8)
    ensures Frame(battery, cmd) == [battery, cmd, battery ^ cmd]
  {
    SumOfBytes(battery, cmd, 0);
  }

  lemma ReadingByBytes(r: seq<bv8>)
    ensures Accepted(r) <==> Usable(r)
    ensures Usable(r) ==> Reading(r) == DecodeData(r[1] as int, r[2] as int)
  {
    if |r| == 4 {
      ReplyVerifiesIff(r);
    }
  }

  lemma NotReadyLast(r: seq<bv8>)
    requires Usable(r) && Classify(0x62, r) != NotReady
    ensures DecodeData(r[1] as int, r[2] as int) != -2000
  {
    ClassifyByBytes(0x62, r);
    DecodeRange(r[1] as int, r[2] as int);
  }

  lemma ResultIsReading(cmd: bv8, battery: bv8, exs: seq<Exchange>, res: int)
    requires SoundQuery(cmd, battery, exs, res)
    ensures IsReading(res)
  {
    ResultSoundness(cmd, battery, exs, res);
  }

  /** Once the read-back command is in use the original query is never sent again, so the first frame
      and the frames before the first "-2" are the only ones that carry it. */
  lemma QuerySentAtMostTwice(cmd: bv8, battery: bv8, exs: seq<Exchange>, res: int, k: nat)
    requires SoundQuery(cmd, battery, exs, res)
    requires k < |exs| && exs[k].frame[1] == cmd
    ensures k <= 1
    ensures k == 1 ==> !Accepted(exs[0].reply)
  {
    var run := Outcomes(cmd, exs);
    assert NotReady !in run[..k];
    forall j | 0 <= j < k ensures run[j] != NotReady {
      assert run[j] == run[..k][j];
    }
    CompleteRunsAreLanguage(run);
  }
}
