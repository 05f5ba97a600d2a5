/** One balancing pass: read every cell's voltage, then order each cell to discharge or not. */
module Balancer {
  import opened MiniFloat
  import opened RetryMachine
  import opened SerialPort

  const THRESHOLD := 30  // 0.03 V

  /** A failed reading counts as zero volts. */
  function Clamp(v: int): (c: int)
    ensures c >= 0
  {
    if v > 0 then v else 0
  }

  function Clamped(readings: seq<int>): (r: seq<int>)
    ensures |r| == |readings| && forall i :: 0 <= i < |r| ==> r[i] == Clamp(readings[i])
  {
    seq(|readings|, i requires 0 <= i < |readings| => Clamp(readings[i]))
  }

  /** The minimum as the first loop keeps it: started by cell 1 whatever its reading, lowered by positive
      readings only. */
  function RunningMin(readings: seq<int>): int
    requires readings != []
  {
    var v := readings[|readings| - 1];
    if |readings| == 1 then v
    else
      var m := RunningMin(readings[..|readings| - 1]);
      if 0 < v < m then v else m
  }

  predicate Discharged(readings: seq<int>, i: nat)
    requires i < |readings|
  {
    RunningMin(readings) < Clamp(readings[i]) - THRESHOLD
  }

  function Order(readings: seq<int>, i: nat): bv8
    requires i < |readings|
  {
    if Discharged(readings, i) then CHARGE_DISCHARGE_OPEN else CHARGE_DISCHARGE_OFF
  }

  predicate IsVoltageQuery(c: Command, i: nat, reading: int) {
    c.Text? && c.cmd == 0x60 && c.battery == ((i + 1) % 256) as bv8 && c.result == reading
  }

  predicate IsOrder(c: Command, i: nat, cmd: bv8) {
    c.Control? && c.cmd == cmd && c.battery == ((i + 1) % 256) as bv8
  }

  /** The log grew by one voltage query per reading, cells in order. */
  ghost predicate Queried(before: seq<Command>, after: seq<Command>, readings: seq<int>) {
    && |after| == |before| + |readings| && before <= after
    && forall i :: 0 <= i < |readings| ==> IsVoltageQuery(after[|before| + i], i, readings[i])
  }

  /** The log grew by exactly one order for each of the first k cells, in order. */
  ghost predicate Ordered(before: seq<Command>, after: seq<Command>, readings: seq<int>, k: nat)
    requires k <= |readings|
  {
    && |after| == |before| + k && before <= after
    && forall i :: 0 <= i < k ==> IsOrder(after[|before| + i], i, Order(readings, i))
  }

  /** The log of a whole pass: all the queries, then all the orders. */
  ghost predicate Passed(before: seq<Command>, after: seq<Command>, readings: seq<int>) {
    exists mid :: Queried(before, mid, readings) && Ordered(mid, after, readings, |readings|)
  }

  lemma QueriedStep(before: seq<Command>, after: seq<Command>, readings: seq<int>, c: Command, v: int)
    requires Queried(before, after, readings) && IsVoltageQuery(c, |readings|, v)
    ensures Queried(before, after + [c], readings + [v])
  {
  }

  lemma OrderedStep(before: seq<Command>, after: seq<Command>, readings: seq<int>, k: nat, c: Command)
    requires k < |readings| && Ordered(before, after, readings, k) && IsOrder(c, k, Order(readings, k))
    ensures Ordered(before, after + [c], readings, k + 1)
  {
  }

  lemma RunningMinStep(readings: seq<int>, v: int)
    requires readings != []
    ensures RunningMin(readings + [v]) == if 0 < v < RunningMin(readings) then v else RunningMin(readings)
  {
    assert (readings + [v])[..|readings|] == readings;
  }

  /** The first loop: readings of all cells and the running minimum. */
  method SweepVoltages(port: Port, total: nat)
    returns (minValue: int, bat_zu: array<int>, ghost readings: seq<int>)
    requires 1 <= total && port.Valid()
    modifies port
    ensures port.Valid() && fresh(bat_zu)
    ensures |readings| == total && (forall i :: 0 <= i < total ==> IsReading(readings[i]))
    ensures bat_zu[..] == Clamped(readings) && minValue == RunningMin(readings)
    ensures Queried(old(port.log), port.log, readings)
  {
    hide Sound, Queried, IsVoltageQuery;
    minValue, bat_zu, readings := 0, new int[total], [];
    assert Queried(port.log, port.log, []) by { QueriedStart(port.log); }
    var i := 1;
    while i <= total
      invariant 1 <= i <= total + 1 && |readings| == i - 1
      invariant port.Valid() && Queried(old(port.log), port.log, readings)
      invariant forall k :: 0 <= k < i - 1 ==> IsReading(readings[k]) && bat_zu[k] == Clamp(readings[k])
      invariant if i == 1 then minValue == 0 else minValue == RunningMin(readings)
    {
      ghost var log := port.log;
      var value := ReadVoltage(port, i);
      QueriedStep(old(port.log), log, readings, port.log[|log|], value);
      if i > 1 {
        RunningMinStep(readings, value);
      }
      readings := readings + [value];
      bat_zu[i - 1] := if value > 0 then value else 0;
      if value > 0 && value < minValue {
        minValue := value;
      }
      if i == 1 {
        minValue := value;
      }
      i := i + 1;
    }
  }

  lemma QueriedStart(log: seq<Command>)
    ensures Queried(log, log, [])
  {
  }

  method ReadVoltage(port: Port, i: nat) returns (value: int)
    requires 1 <= i && port.Valid()
    modifies port
    ensures port.Valid() && IsReading(value)
    ensures |port.log| == |old(port.log)| + 1
    ensures port.log == old(port.log) + [port.log[|old(port.log)|]]
    ensures IsVoltageQuery(port.log[|old(port.log)|], i - 1, value)
  {
    hide SoundQuery, IsReading, TalkedAfterFlush;
    ghost var exs;
    value, exs := port.SendTextCommand(TEST_VOLTAGE, i);
    port.AddedIsSound(Text(TEST_VOLTAGE, CellByte(i), exs, value));
    ResultIsReading(TEST_VOLTAGE, CellByte(i), exs, value);
  }

  /** The result of an order is not looked at. */
  method SendOrder(port: Port, cmd: bv8, i: nat)
    requires 1 <= i && port.Valid() && (cmd == CHARGE_DISCHARGE_OPEN || cmd == CHARGE_DISCHARGE_OFF)
    modifies port
    ensures port.Valid()
    ensures |port.log| == |old(port.log)| + 1
    ensures port.log == old(port.log) + [port.log[|old(port.log)|]]
    ensures IsOrder(port.log[|old(port.log)|], i - 1, cmd)
  {
    hide Sound;
    var res, exs := port.SendControlCommand(cmd, i);
  }

  /** The whole pass. The returned voltages are what is published afterwards. */
  method ControlVoltage(port: Port, total: nat) returns (voltages: seq<int>, ghost readings: seq<int>)
    requires 1 <= total && port.Valid()
    modifies port
    ensures port.Valid()
    ensures |readings| == total && (forall i :: 0 <= i < total ==> IsReading(readings[i]))
    ensures voltages == Clamped(readings)
    ensures forall i :: 0 <= i < total ==> voltages[i] == if readings[i] > 0 then readings[i] else 0
    ensures Passed(old(port.log), port.log, readings)
  {
    hide Sound, Queried;
    var minValue, bat_zu;
    minValue, bat_zu, readings := SweepVoltages(port, total);
    voltages := bat_zu[..];
    ghost var swept := port.log;
    var i := 1;
    while i <= total
      invariant 1 <= i <= total + 1
      invariant port.Valid() && bat_zu[..] == voltages
      invariant Ordered(swept, port.log, readings, i - 1)
    {
      ghost var log := port.log;
      if minValue < bat_zu[i - 1] - THRESHOLD {
        SendOrder(port, CHARGE_DISCHARGE_OPEN, i);
      } else {
        SendOrder(port, CHARGE_DISCHARGE_OFF, i);
      }
      OrderedStep(swept, log, readings, i - 1, port.log[|log|]);
      i := i + 1;
    }
  }

  // ---- What the orders mean ----

  /** The least positive reading, 0 if there is none. */
  function LeastPositive(readings: seq<int>): (m: int)
    ensures m >= 0
    ensures m == 0 <==> forall i :: 0 <= i < |readings| ==> readings[i] <= 0
    ensures m > 0 ==> m in readings
    ensures forall i :: 0 <= i < |readings| && readings[i] > 0 ==> m <= readings[i]
  {
    if readings == [] then 0
    else
      var init, v := readings[..|readings| - 1], readings[|readings| - 1];
      var m := LeastPositive(init);
      if v > 0 && (m == 0 || v < m) then v else m
  }

  /** The intent: a working cell more than 0.03 V above some working cell. */
  ghost predicate Intended(readings: seq<int>, i: nat)
    requires i < |readings|
  {
    readings[i] > 0
    && exists j :: 0 <= j < |readings| && readings[j] > 0 && readings[i] - readings[j] > THRESHOLD
  }

  /** The running minimum is the least positive reading exactly when cell 1 answers with a positive one;
      otherwise it stays at cell 1's reading for the whole pass. */
  lemma {:induction false} RunningMinIs(readings: seq<int>)
    requires readings != []
    ensures RunningMin(readings) == if readings[0] > 0 then LeastPositive(readings) else readings[0]
  {
    if |readings| > 1 {
      var init := readings[..|readings| - 1];
      RunningMinIs(init);
      assert init[0] == readings[0];
      assert readings[0] > 0 ==> LeastPositive(init) > 0;
    } else {
      assert readings[..0] == [];
      assert LeastPositive([]) == 0;
    }
  }

  method SelectMini(agr: array<int>, length: nat) returns (min: int)
    requires 1 <= length <= agr.Length
    ensures min in agr[..length] && forall i :: 0 <= i < length ==> min <= agr[i]
  {
    min := agr[0];
    for i := 1 to length
      invariant min in agr[..i] && forall k :: 0 <= k < i ==> min <= agr[k]
    {
      assert forall x :: x in agr[..i] ==> x in agr[..i + 1];
      assert agr[i] in agr[..i + 1];
      min := if agr[i] < min then agr[i] else min;
    }
  }

  /** When every cell answers with a positive voltage the running minimum is the plain minimum. */
  lemma RunningMinIsMinimum(readings: seq<int>, min: int)
    requires readings != [] && min in readings
    requires forall i :: 0 <= i < |readings| ==> 0 < readings[i] && min <= readings[i]
    ensures RunningMin(readings) == min
  {
    RunningMinIs(readings);
  }

  lemma IntendedIff(readings: seq<int>, i: nat)
    requires i < |readings|
    ensures Intended(readings, i)
       <==> readings[i] > 0 && readings[i] > LeastPositive(readings) + THRESHOLD
  {
    var m := LeastPositive(readings);
    if readings[i] > 0 && readings[i] > m + THRESHOLD {
      var j :| 0 <= j < |readings| && readings[j] == m;
      assert readings[j] > 0 && readings[i] - readings[j] > THRESHOLD;
    }
  }

  /** With cell 1 answering, the orders are exactly the intended ones: neither the lowest cell nor a failed
      cell is discharged. */
  lemma DecisionRule(readings: seq<int>, i: nat)
    requires i < |readings| && readings[0] > 0
    ensures Discharged(readings, i) <==> Intended(readings, i)
    ensures readings[i] <= 0 ==> !Discharged(readings, i)
    ensures readings[i] == LeastPositive(readings) ==> !Discharged(readings, i)
  {
    RunningMinIs(readings);
    IntendedIff(readings, i);
  }

  /** No failed cell is discharged if and only if cell 1 did not fail with an error code. */
  lemma FailedCellsSafeIff(readings: seq<int>)
    requires readings != [] && forall i :: 0 <= i < |readings| ==> IsReading(readings[i])
    ensures (forall i :: 0 <= i < |readings| && readings[i] <= 0 ==> !Discharged(readings, i))
       <==> readings[0] >= 0
  {
    RunningMinIs(readings);
    if readings[0] < 0 {
      assert Discharged(readings, 0);
    }
  }

  /** An error code from cell 1 opens the discharge of every cell. */
  lemma ErrorInCellOneDischargesAll(readings: seq<int>, i: nat)
    requires i < |readings| && (readings[0] == NO_REPLY || readings[0] == INVALID)
    ensures Discharged(readings, i)
  {
    RunningMinIs(readings);
  }

  /** The orders of a pass are the intended ones if and only if cell 1 reads positive; or it reads zero, the
      lowest working cell is at most 0.03 V itself, and no cell is more than 0.03 V up without being as much
      above that lowest cell. */
  lemma OrdersAreIntendedIff(readings: seq<int>)
    requires readings != [] && forall i :: 0 <= i < |readings| ==> IsReading(readings[i])
    ensures (forall i :: 0 <= i < |readings| ==> (Discharged(readings, i) <==> Intended(readings, i)))
       <==> readings[0] > 0
            || (readings[0] == 0 && LeastPositive(readings) <= THRESHOLD
                && forall i :: 0 <= i < |readings| && readings[i] > THRESHOLD
                     ==> readings[i] > LeastPositive(readings) + THRESHOLD)
  {
    RunningMinIs(readings);
    forall i | 0 <= i < |readings|
      ensures Intended(readings, i)
         <==> readings[i] > 0 && readings[i] > LeastPositive(readings) + THRESHOLD
    {
      IntendedIff(readings, i);
    }
    if readings[0] < 0 {
      assert Discharged(readings, 0) && !Intended(readings, 0);
    }
  }

  /** Cell 1 at zero volts: the lowest working cell is discharged although nothing is above it. */
  lemma ZeroInCellOneMisleads()
    ensures var readings := [0, 2000];
            Discharged(readings, 1) && !Intended(readings, 1)
  {
    RunningMinIs([0, 2000]);
    IntendedIff([0, 2000], 1);
  }

  // ---- A pass, byte by byte ----

  /** The i-th order on the wire: one or two frames that start with the cell's number and 01 to discharge it or
      00 not to. */
  ghost predicate OrderOnWire(c: Command, i: nat, discharge: bool) {
    && c.Control? && 1 <= |c.exchanges| <= 2
    && forall k :: 0 <= k < |c.exchanges| ==>
         IsFrame(c.exchanges[k].frame, i + 1, if discharge then 0x01 else 0x00)
  }

  /** A cell is to be discharged: it reads more than 0.03 V above some working cell. */
  ghost predicate Above(readings: seq<int>, i: nat)
    requires i < |readings|
  {
    readings[i] > 0 && exists j :: 0 <= j < |readings| && 0 < readings[j] < readings[i] - 30
  }

  lemma VoltageReachesWire(c: Command, i: nat, reading: int)
    requires IsVoltageQuery(c, i, reading) && Sound(c) && i < 255
    ensures TextOnWire(c, i + 1, 0x60, reading)
  {
    hide Sound, TextOnWire;
    TextReachesWire(c, i + 1);
  }

  lemma OrderReachesWire(c: Command, i: nat, discharge: bool)
    requires IsOrder(c, i, if discharge then 0x01 else 0x00) && Sound(c) && i < 255
    ensures OrderOnWire(c, i, discharge)
  {
    hide SoundControl, Usable, IsFrame;
    ControlByBytes(c.cmd, c.battery, c.exchanges, c.ack);
    FrameOf(c.battery, i + 1, c.cmd);
  }

  /** A balancing pass over up to 255 cells, on the wire: cell after cell is asked for its voltage under its own
      number, then cell after cell is ordered under its own number. With cell 1 working, cell i is told to
      discharge iff it reads more than 0.03 V above some working cell. */
  lemma PassOnWire(before: seq<Command>, after: seq<Command>, readings: seq<int>, i: nat)
    requires Passed(before, after, readings) && (forall c :: c in after ==> Sound(c))
    requires i < |readings| <= 255
    ensures |after| == |before| + 2 * |readings| && before <= after
    ensures TextOnWire(after[|before| + i], i + 1, 0x60, readings[i])
    ensures OrderOnWire(after[|before| + |readings| + i], i, Discharged(readings, i))
    ensures readings[0] > 0 ==> (Discharged(readings, i) <==> Above(readings, i))
    ensures readings[0] <= 0 ==>
              (Discharged(readings, i) <==> (if readings[i] > 0 then readings[i] else 0) > readings[0] + 30)
  {
    hide Sound, TextOnWire, OrderOnWire, IsVoltageQuery, IsOrder, RunningMin, Discharged;
    PassCommands(before, after, readings, i);
    VoltageReachesWire(after[|before| + i], i, readings[i]);
    OrderReachesWire(after[|before| + |readings| + i], i, Discharged(readings, i));
    DischargeRule(readings, i);
  }

  lemma PassCommands(before: seq<Command>, after: seq<Command>, readings: seq<int>, i: nat)
    requires Passed(before, after, readings) && i < |readings|
    ensures |after| == |before| + 2 * |readings| && before <= after
    ensures IsVoltageQuery(after[|before| + i], i, readings[i])
    ensures IsOrder(after[|before| + |readings| + i], i, if Discharged(readings, i) then 0x01 else 0x00)
  {
    hide IsVoltageQuery, IsOrder, Discharged;
    var mid :| Queried(before, mid, readings) && Ordered(mid, after, readings, |readings|);
    assert mid[|before| + i] == after[|before| + i];
    assert IsOrder(after[|mid| + i], i, Order(readings, i));
  }

  lemma DischargeRule(readings: seq<int>, i: nat)
    requires i < |readings|
    ensures readings[0] > 0 ==> (Discharged(readings, i) <==> Above(readings, i))
    ensures readings[0] <= 0 ==>
              (Discharged(readings, i) <==> (if readings[i] > 0 then readings[i] else 0) > readings[0] + 30)
  {
    RunningMinIs(readings);
    AboveIsIntended(readings, i);
    IntendedIff(readings, i);
  }

  lemma AboveIsIntended(readings: seq<int>, i: nat)
    requires i < |readings|
    ensures Above(readings, i) <==> Intended(readings, i)
  {
  }
}
