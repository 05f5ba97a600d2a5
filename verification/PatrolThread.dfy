/** The patrol thread itself: its variables, its loops, its file, talking over a serial port. Every method is
    shown to perform a run of the state machine in module Patrol, so whatever holds of all runs holds of this
    code, with a crash after any of its steps. */
module PatrolThread {
  import opened Basics
  import opened MiniFloat
  import opened RetryMachine
  import opened Checkpoint
  import opened Patrol
  import opened PatrolCycle
  import opened PatrolResults
  import B = Balancer
  import S = SerialPort

  // ---- What a run asks of the serial line ----

  /** A finished text query: command, cell (from 0), result. */
  datatype Query = Query(cmd: bv8, cell: nat, result: int)

  predicate IsQuery(c: S.Command, q: Query) {
    c.Text? && c.cmd == q.cmd && c.battery == ((q.cell + 1) % 256) as bv8 && c.result == q.result
  }

  /** The log grew by exactly these queries, in this order. */
  ghost predicate Asked(before: seq<S.Command>, after: seq<S.Command>, qs: seq<Query>) {
    && |after| == |before| + |qs| && before <= after
    && forall k :: 0 <= k < |qs| ==> IsQuery(after[|before| + k], qs[k])
  }

  lemma AskedConcat(a: seq<S.Command>, b: seq<S.Command>, c: seq<S.Command>, p: seq<Query>, q: seq<Query>)
    requires Asked(a, b, p) && Asked(b, c, q)
    ensures Asked(a, c, p + q)
  {
    forall k | 0 <= k < |p + q| ensures IsQuery(c[|a| + k], (p + q)[k]) {
      if k >= |p| {
        assert IsQuery(c[|b| + (k - |p|)], q[k - |p|]);
      }
    }
  }

  /** The cell a patrol is at after these events. */
  function CellAt(es: seq<Event>): nat {
    if es == [] then 0
    else CellAt(es[..|es| - 1]) + (if es[|es| - 1].Finish? then 1 else 0)
  }

  function QueriesOfEvent(e: Event, i: nat): seq<Query> {
    match e
    case Test(v, r, t) => [Query(TEST_VOLTAGE, i, v)] + (if r.Some? then [Query(TEXT_RES, i, r.value)] else [])
    case Finish(temp, cap) => [Query(TEXT_TEMP, i, temp), Query(TEXT_CAP, i, cap)]
    case _ => []
  }

  /** The queries whose results the events record. */
  function QueriesOf(es: seq<Event>): seq<Query> {
    if es == [] then []
    else
      var init := es[..|es| - 1];
      QueriesOf(init) + QueriesOfEvent(es[|es| - 1], CellAt(init))
  }

  lemma QueriesAppend(es: seq<Event>, e: Event)
    ensures QueriesOf(es + [e]) == QueriesOf(es) + QueriesOfEvent(e, CellAt(es))
    ensures CellAt(es + [e]) == CellAt(es) + (if e.Finish? then 1 else 0)
  {
    assert (es + [e])[..|es|] == es;
  }

  /** One turn of the field loop. */
  lemma ParseOne(p: Option<string>)
    ensures var t := StrSep(p, '\t');
            if t.token.Some? && |t.token.value| != 0
            then ParseFields(p) == [Atof(t.token.value)] + ParseFields(t.rest) && Size(t.rest) < Size(p)
            else ParseFields(p) == []
  {
    hide Atof;
  }

  // ---- A patrol on the wire ----

  /** Commands of a patrol before those of cell i. */
  function Position(es: seq<Event>, i: nat): nat
    requires CellEvents(es, i)
  {
    if i == 0 then 0 else Position(es, i - 1) + (if es[3 * i - 1].resistance.Some? then 4 else 3)
  }

  lemma {:induction false} QueriesUpTo(es: seq<Event>, i: nat)
    requires CellEvents(es, i) && es[0].Begin? && es[1].WriteHeader?
    ensures CellAt(es[..3 * i + 2]) == i && |QueriesOf(es[..3 * i + 2])| == Position(es, i)
    ensures i > 0 ==>
              QueriesOf(es[..3 * i + 2])
                == QueriesOf(es[..3 * i - 1]) + QueriesOfEvent(es[3 * i - 1], i - 1)
                   + QueriesOfEvent(es[3 * i + 1], i - 1)
  {
    hide QueriesOf, CellAt;
    if i == 0 {
      StartQueries([], es[0].t, es[1].t);
      assert es[..2] == [Begin(es[0].t), WriteHeader(es[1].t)];
    } else {
      QueriesUpTo(es, i - 1);
      var a := es[..3 * i - 1];
      assert es[..3 * i + 2] == a + [es[3 * i - 1]] + [es[3 * i]] + [es[3 * i + 1]];
      assert es[3 * (i - 1) + 2].Test? && es[3 * (i - 1) + 3].Append? && es[3 * (i - 1) + 4].Finish?;
      CellAppended(a, es[3 * i - 1], es[3 * i], es[3 * i + 1]);
    }
  }

  lemma CellAppended(a: seq<Event>, test: Event, append: Event, finish: Event)
    requires test.Test? && append.Append? && finish.Finish?
    ensures var b := a + [test] + [append] + [finish];
            && CellAt(b) == CellAt(a) + 1
            && QueriesOf(b) == QueriesOf(a) + QueriesOfEvent(test, CellAt(a)) + QueriesOfEvent(finish, CellAt(a))
            && |QueriesOf(b)| == |QueriesOf(a)| + (if test.resistance.Some? then 4 else 3)
  {
    hide QueriesOf, CellAt;
    QueriesAppend(a, test);
    QueriesAppend(a + [test], append);
    QueriesAppend(a + [test] + [append], finish);
  }

  lemma {:induction false} QueriesPrefix(es: seq<Event>, k: nat)
    requires k <= |es|
    ensures QueriesOf(es[..k]) <= QueriesOf(es)
    decreases |es| - k
  {
    if k == |es| {
      assert es[..k] == es;
    } else {
      assert es[..k + 1] == es[..k] + [es[k]];
      QueriesAppend(es[..k], es[k]);
      QueriesPrefix(es, k + 1);
    }
  }

  /** The four, or three, commands of cell i. */
  ghost predicate CellOnWire(log: seq<S.Command>, p: nat, n: nat, test: Event, finish: Event)
    requires test.Test? && finish.Finish?
  {
    var q := if test.resistance.Some? then 1 else 0;
    && p + q + 3 <= |log|
    && S.TextOnWire(log[p], n, 0x60, test.voltage)
    && (test.resistance.Some? ==> S.TextOnWire(log[p + 1], n, 0x62, test.resistance.value))
    && S.TextOnWire(log[p + q + 1], n, 0x61, finish.temperature)
    && S.TextOnWire(log[p + q + 2], n, 0x70, finish.capacity)
  }

  lemma CommandOnWire(log: seq<S.Command>, at: nat, q: Query)
    requires at < |log| && IsQuery(log[at], q) && S.Sound(log[at]) && q.cell < 255
    ensures S.TextOnWire(log[at], q.cell + 1, q.cmd, q.result)
  {
    hide S.Sound, S.TextOnWire;
    S.TextReachesWire(log[at], q.cell + 1);
  }

  /** A patrol of up to 255 cells on the wire: cell after cell is asked under its own number for its voltage,
      its resistance if that is due, its temperature and its capacity, and nothing else is sent; the results
      the events record are what the last replies encode. */
  lemma PatrolOnWire(before: seq<S.Command>, after: seq<S.Command>, es: seq<Event>, n: nat, i: nat)
    requires PatrolEvents(es, n) && Asked(before, after, QueriesOf(es)) && n <= 255 && i <= n
    requires forall c :: c in after ==> S.Sound(c)
    ensures CellEvents(es, i) && before <= after
    ensures i == n ==> |after| == |before| + Position(es, n)
    ensures i < n ==> CellOnWire(after, |before| + Position(es, i), i + 1, es[3 * i + 2], es[3 * i + 4])
  {
    hide S.TextOnWire, S.Sound, QueriesOf, QueriesOfEvent, Position;
    QueriesUpTo(es, i);
    if i == n {
      assert es == es[..3 * n + 2] + [es[3 * n + 2]];
      QueriesAppend(es[..3 * n + 2], es[3 * n + 2]);
      assert QueriesOfEvent(es[3 * n + 2], n) == [] by { NoQueriesInPublish(es[3 * n + 2], n); }
    } else {
      QueriesUpTo(es, i + 1);
      QueriesPrefix(es, 3 * (i + 1) + 2);
      CellQueriesOnWire(before, after, QueriesOf(es), Position(es, i), i, es[3 * i + 2], es[3 * i + 4],
                        QueriesOf(es[..3 * i + 2]));
    }
  }

  lemma NoQueriesInPublish(e: Event, i: nat)
    requires e.Publish?
    ensures QueriesOfEvent(e, i) == []
  {
  }

  lemma OwnQueries(test: Event, finish: Event, i: nat)
    requires test.Test? && finish.Finish?
    ensures var own := QueriesOfEvent(test, i) + QueriesOfEvent(finish, i);
            var q := if test.resistance.Some? then 1 else 0;
            && |own| == q + 3 && own[0] == Query(0x60, i, test.voltage)
            && (test.resistance.Some? ==> own[1] == Query(0x62, i, test.resistance.value))
            && own[q + 1] == Query(0x61, i, finish.temperature) && own[q + 2] == Query(0x70, i, finish.capacity)
  {
  }

  lemma CellQueriesOnWire(before: seq<S.Command>, after: seq<S.Command>, qs: seq<Query>, at: nat, i: nat,
                          test: Event, finish: Event, earlier: seq<Query>)
    requires Asked(before, after, qs) && i < 255 && test.Test? && finish.Finish? && |earlier| == at
    requires earlier + QueriesOfEvent(test, i) + QueriesOfEvent(finish, i) <= qs
    requires forall c :: c in after ==> S.Sound(c)
    ensures CellOnWire(after, |before| + at, i + 1, test, finish)
  {
    hide S.TextOnWire, S.Sound, IsQuery;
    var own := QueriesOfEvent(test, i) + QueriesOfEvent(finish, i);
    assert earlier + own <= qs;
    forall d | 0 <= d < |own|
      ensures S.TextOnWire(after[|before| + at + d], own[d].cell + 1, own[d].cmd, own[d].result)
    {
      assert qs[at + d] == (earlier + own)[at + d] == own[d];
      assert IsQuery(after[|before| + (at + d)], qs[at + d]);
      CommandOnWire(after, |before| + at + d, own[d]);
    }
    OwnQueries(test, finish, i);
  }

  class PatrolThread {
    var disk: string                      // RES_FILE
    var total: nat                        // battery_total
    var oldCount: nat
    var tVoltage: nat
    var tResistance: nat
    var tControl: nat
    var tNow: nat
    var totalVoltage: nat
    const cells: array<Cell>              // mybattery_pack.single_bat
    var published: Option<Pack>
    ghost var st: State
    ghost var trace: seq<Event>

    ghost predicate Run()
      reads this`st, this`trace
    {
      ValidRun(Initial(), trace) && Play(Initial(), trace) == st
    }

    /** The variables are those of the machine's state. */
    ghost predicate Matches()
      reads this, cells
    {
      && disk == st.disk && total == st.total && oldCount == st.oldCount
      && tVoltage == st.tVoltage && tResistance == st.tResistance && tControl == st.tControl && tNow == st.tNow
      && totalVoltage == st.sum && cells[..] == st.cells && published == st.published
    }

    ghost predicate Valid()
      reads this, cells
    {
      cells.Length == SLOTS && Run() && Matches()
    }

    constructor ()
      ensures Valid() && st == Initial() && trace == [] && fresh(cells)
    {
      disk, total, oldCount := "", 0, 0;
      tVoltage, tResistance, tControl, tNow, totalVoltage := 0, 0, 0, 0, 0;
      cells := new Cell[SLOTS](_ => BLANK);
      published, st, trace := None, Initial(), [];
    }

    /** The loop's own times are left alone. */
    twostate predicate SameClocks()
      reads this`tNow, this`tControl
    {
      tNow == old(tNow) && tControl == old(tControl)
    }

    /** Advance the machine. */
    ghost method Take(e: Event)
      requires Run() && Enabled(st, e)
      modifies this`st, this`trace
      ensures Run() && st == Step(old(st), e) && trace == old(trace) + [e]
    {
      RunAppend(trace, e);
      st, trace := Step(st, e), trace + [e];
    }

    /** What is known of every reachable state. */
    lemma Invariant()
      requires Run()
      ensures CycleInv(st)
    {
      Reached(trace);
    }

    lemma ItsRun()
      requires Valid()
      ensures ValidRun(Initial(), trace) && Play(Initial(), trace) == st
      ensures st.total == total && st.published == published
    {
    }

    lemma SomeCells()
      requires Valid()
      ensures !st.phase.Down? ==> 1 <= total <= SLOTS
    {
      hide CycleInv;
      Invariant();
      InRange(st);
    }

    /** The field loop of the parser, into the uninitialised pack. */
    method ParseInto(line: Option<string>) returns (count: nat)
      requires cells.Length == SLOTS && |ParseFields(line)| <= SLOTS
      requires forall j :: 0 <= j < SLOTS ==> cells[j] == BLANK
      modifies cells
      ensures count == |ParseFields(line)|
      ensures forall j :: 0 <= j < SLOTS ==>
                cells[j] == BLANK.(resistance := if j < count then Some(10 * ParseFields(line)[j]) else None)
    {
      hide ParseFields, StrSep, Atof;
      ghost var all := ParseFields(line);
      count := 0;
      var t := StrSep(line, '\t');
      var p := line;
      while t.token.Some? && |t.token.value| != 0
        invariant t == StrSep(p, '\t')
        invariant count <= |all| && ParseFields(p) == all[count..]
        invariant forall j :: 0 <= j < SLOTS ==>
                    cells[j] == BLANK.(resistance := if j < count then Some(10 * all[j]) else None)
        decreases Size(p)
      {
        ParseOne(p);
        assert all[count] == Atof(t.token.value);
        cells[count] := cells[count].(resistance := Some(10 * Atof(t.token.value)));
        count := count + 1;
        p := t.rest;
        t := StrSep(p, '\t');
      }
      ParseOne(p);
    }

    /** Read and parse the file into the uninitialised pack. */
    method ReadFile() returns (oldTotal: nat, tOldVol: nat, tOldRes: nat, count: nat)
      requires cells.Length == SLOTS && |Load(disk).fields| <= SLOTS
      modifies cells
      ensures Loaded(oldTotal, tOldVol, tOldRes, Load(disk).fields) == Load(disk) && count == |Load(disk).fields|
      ensures forall j :: 0 <= j < SLOTS ==>
                cells[j] == BLANK.(resistance := if j < count then Some(10 * Load(disk).fields[j]) else None)
    {
      forall j | 0 <= j < SLOTS {
        cells[j] := BLANK;
      }
      oldTotal, tOldVol, tOldRes, count := 0, 0, 0, 0;
      var buf := disk[..Min(BUFFER, |disk|)];
      if buf != "" {
        hide ParseFields, StrSep;
        var line := StrSep(Some(buf), '\n');
        var a := StrSep(line.token, '\t');
        oldTotal := Number(a.token);
        var b := StrSep(a.rest, '\t');
        tOldVol := Number(b.token);
        var c := StrSep(b.rest, '\t');
        tOldRes := Number(c.token);
        count := ParseInto(StrSep(line.rest, '\n').token);
      }
    }

    /** Start-up: read the file, restore what it allows. */
    method Restore(n: nat, t: nat)
      requires cells.Length == SLOTS && |Load(disk).fields| <= SLOTS
      modifies this`total, this`oldCount, this`tVoltage, this`tResistance, this`tControl, this`tNow,
               this`totalVoltage, this`published, cells
      ensures total == n && tNow == t && tControl == t && totalVoltage == 0 && published == None
      ensures var l := Load(disk);
              && oldCount == |l.fields|
              && tVoltage == (if n == l.total && |l.fields| == n && t < l.tVol then l.tVol else t)
              && tResistance == (if n == l.total && t < l.tRes then l.tRes else t)
              && cells[..] == LoadedCells(l.fields)
    {
      hide Load;
      total := n;
      tVoltage, tResistance, tNow, tControl := t, t, t, t;
      var oldTotal, tOldVol, tOldRes, count := ReadFile();
      oldCount := count;
      if total == oldTotal && oldCount == total && tVoltage < tOldVol {
        tVoltage := tOldVol;
      }
      if total == oldTotal && tResistance < tOldRes {
        tResistance := tOldRes;
      }
      totalVoltage, published := 0, None;
    }

    method Boot(n: nat, t: nat)
      requires Valid() && st.phase.Down? && 1 <= n <= 60 && Now(st, t)
      modifies this, cells
      ensures Valid() && trace == old(trace) + [Event.Boot(n, t)] && total == n && tNow == tControl == t
      ensures var l := Load(disk);
              && oldCount == |l.fields|
              && (tVoltage, tResistance)
                 == (if n == l.total && oldCount == n && t < l.tVol then l.tVol else t,
                     if n == l.total && t < l.tRes then l.tRes else t)
    {
      hide CycleInv, Load, Run, Enabled, Step, LoadedCells;
      Invariant();
      FieldsFit(st);
      BootStep(st, n, t);
      Restore(n, t);
      Take(Event.Boot(n, t));
    }

    /** Truncate the file and write the header. */
    method BeginPatrol(t1: nat, t2: nat)
      requires Valid() && st.phase.Idle? && PatrolDue(st) && Now(st, t1) && t1 <= t2 <= MAX_CLOCK
      modifies this
      ensures Valid() && trace == old(trace) + [Begin(t1)] + [WriteHeader(t2)]
      ensures st.phase == Ready(0) && st.clock == t2 && total == old(total) && SameClocks()
    {
      hide Run;
      tVoltage := t1 + VOLTAGE_PERIOD;
      totalVoltage := 0;
      disk := "";
      Take(Begin(t1));
      disk := disk + HeaderText(total, tVoltage, t2 + RESISTANCE_PERIOD);
      Take(WriteHeader(t2));
    }

    /** Voltage, and resistance if its deadline has passed or the cell lies beyond the restored ones. */
    method MeasureCell(port: S.Port, i: nat, t: nat) returns (ghost e: Event)
      requires Valid() && port.Valid() && 1 <= i <= total && st.phase == Ready(i - 1) && Now(st, t)
      modifies this, cells, port
      ensures Valid() && port.Valid() && e.Test? && e.t == t && trace == old(trace) + [e]
      ensures st.phase == Tested(i - 1) && st.clock == t && total == old(total) && SameClocks()
      ensures cells.Length == 60 && i <= 60 && Stores(cells[i - 1].voltage, e.voltage)
      ensures totalVoltage == old(totalVoltage) + (if e.voltage > 0 then e.voltage else 0)
      ensures if old(tNow >= tResistance) || i > old(oldCount)
              then e.resistance.Some? && Stores(cells[i - 1].resistance, e.resistance.value)
              else e.resistance.None? && cells[i - 1].resistance == old(cells[i - 1].resistance)
      ensures Asked(old(port.log), port.log, QueriesOfEvent(e, i - 1))
    {
      hide Run, CycleInv, Asked, S.Sound, Step, Enabled, QueriesOfEvent;
      Invariant();
      InRange(st);
      var voltage, r := AskTest(port, i, tNow >= tResistance || i > oldCount);
      e := Test(voltage, r, t);
      TestQueries(voltage, r, t, i - 1);
      TestStep(st, voltage, r, t);
      StoreTest(i, voltage, r, t);
    }

    /** The readings of a test, as they are stored. */
    method StoreTest(i: nat, voltage: int, r: Option<int>, t: nat)
      requires Valid() && 1 <= i <= total && st.phase == Ready(i - 1) && Now(st, t) && Enabled(st, Test(voltage, r, t))
      modifies this, cells
      ensures Valid() && trace == old(trace) + [Test(voltage, r, t)]
      ensures st.phase == Tested(i - 1) && st.clock == t && total == old(total) && SameClocks()
      ensures cells.Length == 60 && i <= 60 && Stores(cells[i - 1].voltage, voltage)
      ensures totalVoltage == old(totalVoltage) + (if voltage > 0 then voltage else 0)
      ensures if r.Some? then Stores(cells[i - 1].resistance, r.value)
              else cells[i - 1].resistance == old(cells[i - 1].resistance)
    {
      hide Run, CycleInv, Step, IsReading;
      Invariant();
      InRange(st);
      TestStep(st, voltage, r, t);
      cells[i - 1] := cells[i - 1].(voltage := Some(if voltage > 0 then voltage else 0));
      totalVoltage := totalVoltage + if voltage > 0 then voltage else 0;
      if r.Some? {
        cells[i - 1] := cells[i - 1].(resistance := Some(if r.value > 0 then r.value else 0));
        if i == total {
          tResistance := t + RESISTANCE_PERIOD;
        }
      }
      Take(Test(voltage, r, t));
      assert cells[..] == st.cells;
    }

    /** Append the cell's resistance field. */
    method AppendField(i: nat)
      requires Valid() && 1 <= i && st.phase == Tested(i - 1)
      modifies this`disk, this`st, this`trace
      ensures Valid() && trace == old(trace) + [Append]
      ensures st.phase == Written(i - 1) && st.clock == old(st.clock)
    {
      hide Run, CycleInv;
      Invariant();
      InRange(st);
      disk := disk + FieldText(FieldValue(cells[i - 1]));
      Take(Append);
    }

    /** Temperature and capacity. */
    method FinishCell(port: S.Port, i: nat) returns (ghost e: Event)
      requires Valid() && port.Valid() && 1 <= i && st.phase == Written(i - 1)
      modifies this`st, this`trace, cells, port
      ensures Valid() && port.Valid() && e.Finish? && trace == old(trace) + [e]
      ensures st.phase == Ready(i) && st.clock == old(st.clock)
      ensures cells.Length == 60 && i <= 60
      ensures Stores(cells[i - 1].temperature, e.temperature) && Stores(cells[i - 1].capacity, e.capacity)
      ensures Asked(old(port.log), port.log, QueriesOfEvent(e, i - 1))
    {
      hide Run, CycleInv, Asked, S.Sound, Step, Enabled;
      Invariant();
      InRange(st);
      ghost var log0 := port.log;
      var temperature := Ask(port, TEXT_TEMP, i);
      ghost var log1 := port.log;
      cells[i - 1] := cells[i - 1].(temperature := Some(if temperature > 0 then temperature else 0));
      var capacity := Ask(port, TEXT_CAP, i);
      cells[i - 1] := cells[i - 1].(capacity := Some(if capacity > 0 then capacity else 0));
      AskedConcat(log0, log1, port.log, [Query(TEXT_TEMP, i - 1, temperature)], [Query(TEXT_CAP, i - 1, capacity)]);
      e := Finish(temperature, capacity);
      assert QueriesOfEvent(e, i - 1)
          == [Query(TEXT_TEMP, i - 1, temperature)] + [Query(TEXT_CAP, i - 1, capacity)];
      FinishStep(st, temperature, capacity);
      Take(e);
      assert cells[..] == st.cells;
    }

    /** Hand the pack over. */
    method PublishPack()
      requires Valid() && st.phase == Ready(total)
      modifies this`published, this`st, this`trace
      ensures Valid() && trace == old(trace) + [Publish] && st.phase.Idle? && st.clock == old(st.clock)
      ensures !PatrolDue(st)
      ensures total <= cells.Length && published == Some(Pack(cells[..total], totalVoltage, tNow))
    {
      hide Run, CycleInv;
      Invariant();
      InRange(st);
      PublishSettles(st);
      published := Some(Pack(cells[..total], totalVoltage, tNow));
      Take(Publish);
    }

    /** The body of the patrol loop. */
    method PatrolCell(port: S.Port, i: nat, t: nat) returns (ghost test: Event, ghost finish: Event)
      requires Valid() && port.Valid() && 1 <= i <= total && st.phase == Ready(i - 1) && Now(st, t)
      modifies this, cells, port
      ensures Valid() && port.Valid() && test.Test? && test.t == t && finish.Finish?
      ensures trace == old(trace) + [test, Append, finish]
      ensures st.phase == Ready(i) && st.clock == t && total == old(total) && SameClocks()
      ensures Asked(old(port.log), port.log, QueriesOfEvent(test, i - 1) + QueriesOfEvent(finish, i - 1))
    {
      hide Valid, Asked, QueriesOfEvent, Step, Enabled, S.Sound;
      ghost var log1 := port.log;
      test := MeasureCell(port, i, t);
      ghost var log2 := port.log;
      AppendField(i);
      finish := FinishCell(port, i);
      AskedConcat(log1, log2, port.log, QueriesOfEvent(test, i - 1), QueriesOfEvent(finish, i - 1));
    }

    /** One patrol. The clock is read at the start (t1), for the header (t2) and after the last resistance
        test; at[i] is the time of the test of cell i. */
    method Patrol(port: S.Port, t1: nat, t2: nat, at: seq<nat>) returns (ghost es: seq<Event>)
      requires Valid() && port.Valid() && st.phase.Idle? && PatrolDue(st) && |at| == total
      requires Now(st, t1) && t1 <= t2 <= MAX_CLOCK && InOrder(t2, at, MAX_CLOCK)
      modifies this, cells, port
      ensures Valid() && port.Valid() && st.phase.Idle? && total == old(total) && SameClocks()
      ensures !PatrolDue(st) && |at| > 0 && st.clock == at[|at| - 1]
      ensures trace == old(trace) + es && |es| == 3 * total + 3 && PatrolEvents(es, total)
      ensures forall i :: 0 <= i < total ==> es[3 * i + 2].t == at[i]
      ensures Asked(old(port.log), port.log, QueriesOf(es))
      ensures published.Some? && |published.value.cells| == total <= |old(st).cells|
      ensures forall i :: 0 <= i < total ==>
                && ShowsTest(published.value.cells, es, old(st), i)
                && ShowsFinish(published.value.cells, es, i)
    {
      hide CycleInv, Asked, CellEvents, Valid, S.Sound, QueriesOf, QueriesOfEvent, CellAt, Step, Enabled;
      ghost var trace0, log0, n := trace, port.log, total;
      hide ShowsTest, ShowsFinish;
      SomeCells();
      ItsRun();
      BeginPatrol(t1, t2);
      es := [Begin(t1), WriteHeader(t2)];
      StartQueries(log0, t1, t2);
      var i := 1;
      while i <= total
        invariant 1 <= i <= total + 1 && total == n && SameClocks()
        invariant Valid() && port.Valid() && st.phase == Ready(i - 1)
        invariant st.clock == if i == 1 then t2 else at[i - 2]
        invariant trace == trace0 + es && |es| == 3 * (i - 1) + 2 && CellEvents(es, i - 1) && CellAt(es) == i - 1
        invariant forall j :: 0 <= j < i - 1 ==> es[3 * j + 2].Test? && es[3 * j + 2].t == at[j]
        invariant es[0].Begin? && es[1].WriteHeader?
        invariant Asked(log0, port.log, QueriesOf(es))
      {
        ghost var log1 := port.log;
        ghost var test, finish := PatrolCell(port, i, at[i - 1]);
        CellQueries(log0, log1, port.log, es, test, finish);
        CellEventsNext(es, i - 1, test, finish);
        es := es + [test, Append, finish];
        i := i + 1;
      }
      PublishPack();
      EndQueries(es, n);
      ItsRun();
      assert trace == trace0 + (es + [Publish]);
      PatrolPublishes(trace0, es, old(st), n);
      es := es + [Publish];
    }

    /** The second half of a turn: a balancing pass if its deadline has passed, else a pause; then the clock.
        The voltages of a balancing pass are what it publishes. */
    method BalanceOrRest(port: S.Port, t3: nat, t4: nat) returns (voltages: Option<seq<int>>, ghost readings: seq<int>)
      requires Valid() && port.Valid() && st.phase.Idle? && !PatrolDue(st) && Now(st, t3) && t3 <= t4 <= MAX_CLOCK
      modifies this, port
      ensures Valid() && port.Valid() && st.phase.Idle? && total == old(total)
      ensures trace == old(trace) + [Tick(t3, t4)] && tNow == t4
      ensures tControl == if old(tNow) >= old(tControl) then t3 + 60 else old(tControl)
      ensures voltages.Some? <==> old(tNow) >= old(tControl)
      ensures if voltages.None? then port.log == old(port.log)
              else |readings| == total && voltages.value == B.Clamped(readings)
                   && B.Passed(old(port.log), port.log, readings)
    {
      hide Run, CycleInv, S.Sound, Step, Enabled, IsReading, B.Passed, B.Clamped;
      Invariant();
      InRange(st);
      voltages, readings := None, [];
      if tNow >= tControl {
        tControl := t3 + CONTROL_PERIOD;
        var v;
        v, readings := B.ControlVoltage(port, total);
        voltages := Some(v);
      }
      tNow := t4;
      TickStep(st, t3, t4);
      Take(Tick(t3, t4));
    }

    /** One turn of the endless loop: a patrol if one is due, then a balancing pass or a pause, then the clock.
        The commands on the line are the queries of the patrol, if any, followed by those of the pass, if
        any. */
    method Turn(port: S.Port, t1: nat, t2: nat, at: seq<nat>, t3: nat, t4: nat)
      returns (voltages: Option<seq<int>>, ghost readings: seq<int>, ghost es: seq<Event>)
      requires Valid() && port.Valid() && st.phase.Idle? && Now(st, t1) && |at| == total
      requires t1 <= t2 <= t3 <= t4 <= MAX_CLOCK && InOrder(t2, at, t3)
      modifies this, cells, port
      ensures Valid() && port.Valid() && st.phase.Idle? && total == old(total)
      ensures trace == old(trace) + es && |es| > 0 && es[|es| - 1] == Tick(t3, t4)
      ensures if old(PatrolDue(st)) then |es| == 3 * total + 4 && PatrolEvents(es[..|es| - 1], total) else |es| == 1
      ensures voltages.Some? <==> old(tNow) >= old(tControl)
      ensures voltages.Some? ==> |readings| == total && voltages.value == B.Clamped(readings)
      ensures TurnLogged(old(port.log), port.log, es[..|es| - 1], voltages.Some?, readings)
    {
      hide PatrolEvents, S.Sound, Step, Enabled, B.Passed, B.Clamped, Asked, QueriesOf, TurnLogged, Run;
      ghost var log0, patrol := port.log, [];
      AskedNothing(port.log);
      if tNow >= tVoltage || tNow >= tResistance {
        patrol := Patrol(port, t1, t2, at);
      }
      ghost var mid := port.log;
      voltages, readings := BalanceOrRest(port, t3, t4);
      es := patrol + [Tick(t3, t4)];
      assert es[..|es| - 1] == patrol;
      TurnIsLogged(log0, mid, port.log, patrol, voltages.Some?, readings);
    }
  }

  /** The log of one turn: the queries of the patrol, then those and the orders of the balancing pass. */
  ghost predicate TurnLogged(before: seq<S.Command>, after: seq<S.Command>, patrol: seq<Event>,
                             balanced: bool, readings: seq<int>) {
    exists mid ::
      && Asked(before, mid, QueriesOf(patrol))
      && if balanced then B.Passed(mid, after, readings) else mid == after
  }

  lemma TurnIsLogged(before: seq<S.Command>, mid: seq<S.Command>, after: seq<S.Command>, patrol: seq<Event>,
                     balanced: bool, readings: seq<int>)
    requires Asked(before, mid, QueriesOf(patrol))
    requires if balanced then B.Passed(mid, after, readings) else mid == after
    ensures TurnLogged(before, after, patrol, balanced, readings)
  {
  }

  lemma AskedNothing(log: seq<S.Command>)
    ensures Asked(log, log, QueriesOf([]))
  {
  }

  /** Clock readings in order, between two others. */
  predicate InOrder(lo: nat, at: seq<nat>, hi: nat) {
    && (forall i :: 0 <= i < |at| ==> lo <= at[i] <= hi)
    && (forall i, j :: 0 <= i < j < |at| ==> at[i] <= at[j])
  }

  /** What a whole patrol publishes. */
  lemma PatrolPublishes(trace: seq<Event>, es: seq<Event>, before: State, n: nat)
    requires ValidRun(Initial(), trace) && Play(Initial(), trace) == before
    requires ValidRun(Initial(), trace + (es + [Publish])) && |es| == 3 * n + 2
    requires Play(Initial(), trace + (es + [Publish])).total == n
    ensures var s := Play(Initial(), trace + (es + [Publish]));
            && s.published.Some? && |s.published.value.cells| == n <= |before.cells|
            && forall i :: 0 <= i < n ==>
                 && ShowsTest(s.published.value.cells, es + [Publish], before, i)
                 && ShowsFinish(s.published.value.cells, es + [Publish], i)
  {
    hide ShowsTest, ShowsFinish;
    assert trace + (es + [Publish]) == trace + es + [Publish];
    var from := PublishedIsMeasured(trace + es);
    assert |(trace + es)[from..] + [Publish]| == 3 * n + 3;
    assert from == |trace| && (trace + es)[..from] == trace && (trace + es)[from..] == es;
  }

  lemma StartQueries(log: seq<S.Command>, t1: nat, t2: nat)
    ensures var es := [Begin(t1), WriteHeader(t2)];
            Asked(log, log, QueriesOf(es)) && CellAt(es) == 0 && CellEvents(es, 0)
  {
    QueriesAppend([], Begin(t1));
    QueriesAppend([Begin(t1)], WriteHeader(t2));
    assert [] + [Begin(t1)] == [Begin(t1)] && [Begin(t1)] + [WriteHeader(t2)] == [Begin(t1), WriteHeader(t2)];
  }

  lemma CellQueries(log0: seq<S.Command>, log1: seq<S.Command>, log2: seq<S.Command>,
                    es: seq<Event>, test: Event, finish: Event)
    requires test.Test? && finish.Finish?
    requires Asked(log0, log1, QueriesOf(es))
    requires Asked(log1, log2, QueriesOfEvent(test, CellAt(es)) + QueriesOfEvent(finish, CellAt(es)))
    ensures var more := es + [test, Append, finish];
            Asked(log0, log2, QueriesOf(more)) && CellAt(more) == CellAt(es) + 1
  {
    hide Asked, QueriesOfEvent;
    var q1, q2 := QueriesOfEvent(test, CellAt(es)), QueriesOfEvent(finish, CellAt(es));
    QueriesAppend(es, test);
    QueriesAppend(es + [test], Append);
    QueriesAppend(es + [test] + [Append], finish);
    NoQueriesInAppend(CellAt(es));
    assert es + [test, Append, finish] == es + [test] + [Append] + [finish];
    assert QueriesOf(es) + q1 + [] + q2 == QueriesOf(es) + (q1 + q2);
    AskedConcat(log0, log1, log2, QueriesOf(es), q1 + q2);
  }

  lemma CellEventsNext(es: seq<Event>, i: nat, test: Event, finish: Event)
    requires test.Test? && finish.Finish? && |es| == 3 * i + 2 && CellEvents(es, i)
    ensures CellEvents(es + [test, Append, finish], i + 1)
  {
  }

  lemma TestQueries(v: int, r: Option<int>, t: nat, i: nat)
    ensures QueriesOfEvent(Test(v, r, t), i)
         == [Query(TEST_VOLTAGE, i, v)] + (if r.Some? then [Query(TEXT_RES, i, r.value)] else [])
  {
  }

  lemma NoQueriesInAppend(i: nat)
    ensures QueriesOfEvent(Append, i) == []
  {
  }

  lemma EndQueries(es: seq<Event>, n: nat)
    requires |es| == 3 * n + 2 && CellEvents(es, n) && es[0].Begin? && es[1].WriteHeader?
    ensures QueriesOf(es + [Publish]) == QueriesOf(es) && PatrolEvents(es + [Publish], n)
  {
    QueriesAppend(es, Publish);
  }

  /** The queries of a test: voltage, then resistance if it is due. */
  method AskTest(port: S.Port, i: nat, due: bool) returns (voltage: int, r: Option<int>)
    requires port.Valid() && 1 <= i
    modifies port
    ensures port.Valid() && IsReading(voltage) && (r.Some? <==> due) && (r.Some? ==> IsReading(r.value))
    ensures Asked(old(port.log), port.log, [Query(TEST_VOLTAGE, i - 1, voltage)]
                  + (if r.Some? then [Query(TEXT_RES, i - 1, r.value)] else []))
  {
    hide Asked, S.Sound;
    ghost var log0 := port.log;
    voltage := Ask(port, TEST_VOLTAGE, i);
    r := None;
    assert [Query(TEST_VOLTAGE, i - 1, voltage)] + [] == [Query(TEST_VOLTAGE, i - 1, voltage)];
    if due {
      ghost var log1 := port.log;
      var value := Ask(port, TEXT_RES, i);
      r := Some(value);
      AskedConcat(log0, log1, port.log, [Query(TEST_VOLTAGE, i - 1, voltage)], [Query(TEXT_RES, i - 1, value)]);
    }
  }

  method Ask(port: S.Port, cmd: bv8, i: nat) returns (value: int)
    requires port.Valid() && 1 <= i && Supported(cmd)
    modifies port
    ensures port.Valid() && IsReading(value)
    ensures Asked(old(port.log), port.log, [Query(cmd, i - 1, value)])
  {
    hide SoundQuery, Supported, IsReading, S.TalkedAfterFlush;
    ghost var exs;
    SupportedBytes(cmd);
    value, exs := port.SendTextCommand(cmd, i);
    port.AddedIsSound(S.Text(cmd, S.CellByte(i), exs, value));
    ResultIsReading(cmd, S.CellByte(i), exs, value);
  }

  lemma InRange(s: State)
    requires CycleInv(s)
    ensures |s.cells| == |s.recorded| == SLOTS && |s.ends| > 0 && s.clock <= MAX_CLOCK
    ensures !s.phase.Down? ==> 1 <= s.total <= SLOTS && s.tNow <= s.clock
    ensures s.phase.Tested? ==> s.phase.i < s.total
    ensures s.phase.Written? ==> s.phase.i < s.total
  {
  }

  function CellAfterTest(c: Cell, v: int, r: Option<int>): Cell {
    var c' := c.(voltage := Some(Positive(v)));
    if r.None? then c' else c'.(resistance := Some(Positive(r.value)))
  }

  /** The effect of a test on the variables of the thread. */
  lemma TestStep(s: State, v: int, r: Option<int>, t: nat)
    requires s.phase.Ready? && s.phase.i < s.total <= |s.cells| == |s.recorded| && |s.ends| > 0 && Now(s, t)
    requires IsReading(v) && (r.Some? ==> IsReading(r.value)) && (r.Some? <==> TestDue(s, s.phase.i))
    ensures var e := Test(v, r, t);
            && Enabled(s, e)
            && var s' := Step(s, e);
            && s'.disk == s.disk && s'.total == s.total && s'.oldCount == s.oldCount && s'.tVoltage == s.tVoltage
            && s'.tControl == s.tControl && s'.tNow == s.tNow && s'.published == s.published
            && s'.sum == s.sum + Positive(v) && s'.phase == Tested(s.phase.i) && s'.clock == t
            && s'.cells == s.cells[s.phase.i := CellAfterTest(s.cells[s.phase.i], v, r)]
            && s'.tResistance
                 == if r.Some? && s.phase.i + 1 == s.total then t + RESISTANCE_PERIOD else s.tResistance
  {
  }

  /** The effect of the last two readings of a cell. */
  lemma FinishStep(s: State, temp: int, cap: int)
    requires s.phase.Written? && s.phase.i < |s.cells| && IsReading(temp) && IsReading(cap)
    ensures var e, i := Finish(temp, cap), s.phase.i;
            && Enabled(s, e)
            && var s' := Step(s, e);
            && s'.disk == s.disk && s'.total == s.total && s'.oldCount == s.oldCount && s'.tVoltage == s.tVoltage
            && s'.tControl == s.tControl && s'.tNow == s.tNow && s'.published == s.published && s'.sum == s.sum
            && s'.tResistance == s.tResistance && s'.phase == Ready(i + 1) && s'.clock == s.clock
            && s'.cells == s.cells[i := s.cells[i].(temperature := Some(Positive(temp)),
                                                    capacity := Some(Positive(cap)))]
  {
  }

  /** The effect of the end of a turn. */
  lemma TickStep(s: State, tc: nat, t: nat)
    requires s.phase.Idle? && !PatrolDue(s) && Now(s, tc) && tc <= t <= MAX_CLOCK
    ensures var e := Tick(tc, t);
            && Enabled(s, e)
            && var s' := Step(s, e);
            && s'.disk == s.disk && s'.total == s.total && s'.oldCount == s.oldCount && s'.tVoltage == s.tVoltage
            && s'.tResistance == s.tResistance && s'.published == s.published && s'.sum == s.sum
            && s'.cells == s.cells && s'.phase.Idle? && s'.tNow == t
            && s'.tControl == if s.tNow >= s.tControl then tc + CONTROL_PERIOD else s.tControl
  {
  }

  /** The effect of start-up. */
  lemma BootStep(s: State, n: nat, t: nat)
    requires s.phase.Down? && 1 <= n <= SLOTS && Now(s, t)
    ensures var e, l := Event.Boot(n, t), Load(s.disk);
            && Enabled(s, e)
            && var s' := Step(s, e);
            && s'.disk == s.disk && s'.total == n && s'.oldCount == |l.fields| && s'.sum == 0
            && s'.published == None && s'.tNow == t && s'.tControl == t && s'.phase.Idle?
            && s'.tVoltage == (if n == l.total && |l.fields| == n && t < l.tVol then l.tVol else t)
            && s'.tResistance == (if n == l.total && t < l.tRes then l.tRes else t)
            && s'.cells == LoadedCells(l.fields)
  {
    hide Load;
  }

  lemma FieldsFit(s: State)
    requires CycleInv(s)
    ensures |Load(s.disk).fields| <= SLOTS
  {
    hide Load;
    FileParses(s);
  }
}
