/** The patrol thread as a state machine over its steps, with crashes allowed between any two of them.
    The checkpoint file survives a crash, everything else is lost. Times are seconds; readings are
    thousandths. */
module Patrol {
  import opened Basics
  import opened MiniFloat
  import opened Checkpoint

  const VOLTAGE_PERIOD := 600
  const RESISTANCE_PERIOD := 86400
  const CONTROL_PERIOD := 60
  const MAX_CLOCK := INT_MAX - RESISTANCE_PERIOD  // deadlines stay within a 32-bit time_t

  /** One slot of the local pack; None is memory never written. */
  datatype Cell = Cell(voltage: Option<nat>, temperature: Option<nat>, resistance: Option<nat>,
                       capacity: Option<nat>)

  const BLANK := Cell(None, None, None, None)

  /** Where the thread stands: cells are numbered from 0, and in a patrol `i` is the cell at hand. */
  datatype Phase =
    | Down
    | Idle
    | Truncated
    | Ready(i: nat)
    | Tested(i: nat)
    | Written(i: nat)

  /** A patrol began at loop time t, when the clock read `at`; `due` says whether the resistance deadline had
      passed. */
  datatype Start = Start(t: nat, at: nat, due: bool)

  datatype Pack = Pack(cells: seq<Cell>, totalVoltage: nat, date: nat)

  /** A resistance result, 0 for a failure, with the clock and the number of the patrol that recorded it. */
  datatype Measured = Measured(value: nat, at: nat, patrol: nat)

  /** What the file says, as data. */
  datatype Image = NoHeader | Header(total: nat, tVol: nat, tRes: nat, fields: seq<nat>)

  datatype State = State(
    disk: string,                   // the checkpoint file
    phase: Phase,
    total: nat,                     // battery_total
    oldCount: nat,                  // fields found at start-up, never reset
    tVoltage: nat, tResistance: nat, tControl: nat, tNow: nat,
    cells: seq<Cell>, sum: nat,     // mybattery_pack and total_voltage
    published: Option<Pack>,        // the last pack copied to the shared struct
    // history
    clock: nat,                     // the latest time(NULL)
    image: Image,
    recorded: seq<Option<Measured>>,  // the most recent resistance result per cell
    ends: seq<nat>,                 // per patrol ever begun, from 1: the clock of its last resistance test
    carried: nat,                   // cells below this the latest patrol takes over without a query
    loaded: seq<nat>,               // the fields found at start-up, in hundredths
    starts: seq<Start>,             // patrols begun by this process
    tests: seq<nat>,                // loop times of those that have queried a resistance
    passes: seq<nat>,               // balancing passes of this process
    tested: set<nat>)               // cells whose resistance this patrol has queried

  datatype Event =
    | Boot(total: nat, t: nat)
    | Crash
    | Begin(t: nat)                 // truncate the file
    | WriteHeader(t: nat)
    | Test(voltage: int, resistance: Option<int>, t: nat)
    | Append
    | Finish(temperature: int, capacity: int)
    | Publish
    | Tick(tControl: nat, t: nat)   // balance or sleep, then look at the clock

  function Initial(): State {
    State("", Down, 0, 0, 0, 0, 0, 0, seq(SLOTS, _ => BLANK), 0, None,
          0, NoHeader, seq(SLOTS, _ => None), [0], 0, [], [], [], [], {})
  }

  function Positive(v: int): nat {
    if v > 0 then v else 0
  }

  /** "%.2f" rounds thousandths to hundredths. */
  function Hundredths(x: nat): nat {
    (x + 5) / 10
  }

  /** The rendering is the nearest hundredth, and rendering a rendered value changes nothing: a resistance
      carried through any number of restarts does not drift. */
  lemma RenderingIsStable(x: nat)
    ensures -5 <= 10 * Hundredths(x) - x <= 5
    ensures Hundredths(10 * Hundredths(x)) == Hundredths(x)
    ensures Atof(Fixed2(Hundredths(x))) == Hundredths(x)
  {
    AtofOfFixed2(Hundredths(x));
  }

  function FieldValue(c: Cell): nat {
    if c.resistance.Some? then Hundredths(c.resistance.value) else 0
  }

  function ImageText(m: Image): string {
    if m.NoHeader? then "" else HeaderText(m.total, m.tVol, m.tRes) + FieldsText(m.fields)
  }

  predicate PatrolDue(s: State) {
    s.tNow >= s.tVoltage || s.tNow >= s.tResistance
  }

  /** Whether the resistance of cell i is queried in the patrol under way. */
  predicate TestDue(s: State, i: nat) {
    s.tNow >= s.tResistance || i >= s.oldCount
  }

  predicate Now(s: State, t: nat) {
    s.clock <= t <= MAX_CLOCK
  }

  predicate Enabled(s: State, e: Event) {
    match e
    case Boot(total, t) => s.phase.Down? && 1 <= total <= SLOTS && Now(s, t)
    case Crash => !s.phase.Down?
    case Begin(t) => s.phase.Idle? && PatrolDue(s) && Now(s, t)
    case WriteHeader(t) => s.phase.Truncated? && Now(s, t)
    case Test(v, r, t) =>
      && s.phase.Ready? && s.phase.i < s.total && s.phase.i < |s.cells| == |s.recorded| && |s.ends| > 0 && Now(s, t)
      && IsReading(v) && (r.Some? ==> IsReading(r.value)) && (r.Some? <==> TestDue(s, s.phase.i))
    case Append => s.phase.Tested? && s.phase.i < |s.cells|
    case Finish(temp, cap) => s.phase.Written? && s.phase.i < |s.cells| && IsReading(temp) && IsReading(cap)
    case Publish => s.phase.Ready? && s.phase.i == s.total <= |s.cells|
    case Tick(tc, t) => s.phase.Idle? && !PatrolDue(s) && Now(s, tc) && tc <= t <= MAX_CLOCK
  }

  /** The pack after start-up: restored resistances, everything else unwritten. */
  function LoadedCells(fields: seq<nat>): (c: seq<Cell>)
    ensures |c| == SLOTS
    ensures forall j :: 0 <= j < SLOTS ==>
              c[j] == BLANK.(resistance := if j < |fields| then Some(10 * fields[j]) else None)
  {
    seq(SLOTS, j requires 0 <= j =>
      BLANK.(resistance := if j < |fields| then Some(10 * fields[j]) else None))
  }

  /** Start-up: parse the file, then decide which deadlines it may postpone. */
  function DoBoot(s: State, total: nat, t: nat): State {
    var l := Load(s.disk);
    s.(phase := Idle, total := total, oldCount := |l.fields|,
       tVoltage := if total == l.total && |l.fields| == total && t < l.tVol then l.tVol else t,
       tResistance := if total == l.total && t < l.tRes then l.tRes else t,
       tControl := t, tNow := t, clock := t,
       cells := LoadedCells(l.fields),
       sum := 0, published := None, loaded := l.fields, starts := [], tests := [], passes := [], tested := {})
  }

  function DoBegin(s: State, t: nat): State {
    s.(phase := Truncated, tVoltage := t + VOLTAGE_PERIOD, sum := 0, disk := "", image := NoHeader,
       clock := t, starts := s.starts + [Start(s.tNow, t, s.tNow >= s.tResistance)], ends := s.ends + [t],
       carried := if s.tNow >= s.tResistance then 0 else s.oldCount, tested := {})
  }

  /** The stored resistance deadline is a day from now whether or not this patrol tests resistances. */
  function DoWriteHeader(s: State, t: nat): State {
    s.(phase := Ready(0), disk := s.disk + HeaderText(s.total, s.tVoltage, t + RESISTANCE_PERIOD),
       image := Header(s.total, s.tVoltage, t + RESISTANCE_PERIOD, []), clock := t)
  }

  function DoTest(s: State, v: int, r: Option<int>, t: nat): State
    requires s.phase.Ready? && s.phase.i < |s.cells| == |s.recorded| && |s.ends| > 0
  {
    var i := s.phase.i;
    var c := s.cells[i].(voltage := Some(Positive(v)));
    var s' := s.(phase := Tested(i), sum := s.sum + Positive(v), clock := t);
    if r.None? then s'.(cells := s.cells[i := c])
    else
      s'.(cells := s.cells[i := c.(resistance := Some(Positive(r.value)))],
          recorded := s.recorded[i := Some(Measured(Positive(r.value), t, |s.ends| - 1))],
          ends := s.ends[|s.ends| - 1 := t], tested := s.tested + {i},
          tests := if s.tested == {} then s.tests + [s.tNow] else s.tests,
          tResistance := if i + 1 == s.total then t + RESISTANCE_PERIOD else s.tResistance)
  }

  function DoAppend(s: State): State
    requires s.phase.Tested? && s.phase.i < |s.cells|
  {
    var h := FieldValue(s.cells[s.phase.i]);
    s.(phase := Written(s.phase.i), disk := s.disk + FieldText(h),
       image := if s.image.Header? then s.image.(fields := s.image.fields + [h]) else s.image)
  }

  function DoFinish(s: State, temp: int, cap: int): State
    requires s.phase.Written? && s.phase.i < |s.cells|
  {
    var i := s.phase.i;
    s.(phase := Ready(i + 1),
       cells := s.cells[i := s.cells[i].(temperature := Some(Positive(temp)), capacity := Some(Positive(cap)))])
  }

  function DoPublish(s: State): State
    requires s.total <= |s.cells|
  {
    s.(phase := Idle, published := Some(Pack(s.cells[..s.total], s.sum, s.tNow)))
  }

  function DoTick(s: State, tc: nat, t: nat): State {
    if s.tNow >= s.tControl then
      s.(tControl := tc + CONTROL_PERIOD, passes := s.passes + [s.tNow], tNow := t, clock := t)
    else s.(tNow := t, clock := t)
  }

  function Step(s: State, e: Event): State
    requires Enabled(s, e)
  {
    match e
    case Boot(total, t) => DoBoot(s, total, t)
    case Crash => s.(phase := Down)
    case Begin(t) => DoBegin(s, t)
    case WriteHeader(t) => DoWriteHeader(s, t)
    case Test(v, r, t) => DoTest(s, v, r, t)
    case Append => DoAppend(s)
    case Finish(temp, cap) => DoFinish(s, temp, cap)
    case Publish => DoPublish(s)
    case Tick(tc, t) => DoTick(s, tc, t)
  }

  // ---- Runs ----

  predicate ValidRun(s: State, es: seq<Event>)
    decreases |es|
  {
    es == [] || (Enabled(s, es[0]) && ValidRun(Step(s, es[0]), es[1..]))
  }

  function Play(s: State, es: seq<Event>): State
    requires ValidRun(s, es)
    decreases |es|
  {
    if es == [] then s else Play(Step(s, es[0]), es[1..])
  }

  lemma {:induction false} RunConcat(s: State, a: seq<Event>, b: seq<Event>)
    requires ValidRun(s, a)
    ensures ValidRun(s, a + b) <==> ValidRun(Play(s, a), b)
    ensures ValidRun(s, a + b) ==> Play(s, a + b) == Play(Play(s, a), b)
    decreases |a|
  {
    if a == [] {
      assert a + b == b;
    } else {
      assert (a + b)[0] == a[0] && (a + b)[1..] == a[1..] + b;
      RunConcat(Step(s, a[0]), a[1..], b);
    }
  }

  /** Events of one process lifetime. */
  ghost predicate OneLifetime(es: seq<Event>) {
    forall k :: 0 <= k < |es| ==> !es[k].Boot? && !es[k].Crash?
  }

  // ---- The checkpoint invariant ----

  ghost predicate ImageShape(m: Image) {
    m.Header? ==> 1 <= m.total <= SLOTS && m.tVol <= INT_MAX && m.tRes <= INT_MAX && |m.fields| <= m.total
  }

  /** How far the file has come, by phase. */
  ghost predicate Progress(s: State) {
    var full := s.image.Header? && s.image.total == s.total;
    match s.phase
    case Down => true
    case Idle => true
    case Truncated => s.image.NoHeader?
    case Ready(i) => full && i <= s.total && |s.image.fields| == i
    case Tested(i) => full && i < s.total && |s.image.fields| == i
    case Written(i) => full && i < s.total && |s.image.fields| == i + 1
  }

  ghost predicate Shape(s: State) {
    && |s.cells| == SLOTS && |s.recorded| == SLOTS && |s.ends| > 0 && s.clock <= MAX_CLOCK
    && ImageShape(s.image) && Progress(s)
    && (!s.phase.Down? ==> 1 <= s.total <= SLOTS && s.oldCount == |s.loaded| <= SLOTS
                           && s.tNow <= s.clock && s.tVoltage <= INT_MAX)
  }

  /** The most recent result of cell j exists and rounds to h. */
  ghost predicate Recorded(s: State, j: nat, h: nat)
    requires |s.recorded| == SLOTS
  {
    j < SLOTS && s.recorded[j].Some? && Hundredths(s.recorded[j].value.value) == h
  }

  /** The file holds, field by field, the rounded most recent results. */
  ghost predicate FileFaithful(s: State)
    requires Shape(s)
  {
    && s.disk == ImageText(s.image)
    && (s.image.Header? ==>
          forall j :: 0 <= j < |s.image.fields| ==> Recorded(s, j, s.image.fields[j]))
    && (forall j :: 0 <= j < SLOTS && s.recorded[j].Some? ==> s.recorded[j].value.value <= MAX_READING)
  }

  /** A resistance in memory rounds to the most recent result, whether tested or carried over. */
  ghost predicate MemoryFaithful(s: State)
    requires Shape(s) && !s.phase.Down?
  {
    && (forall j :: 0 <= j < SLOTS && s.cells[j].resistance.Some?
          ==> Recorded(s, j, Hundredths(s.cells[j].resistance.value)))
    && (forall j :: 0 <= j < s.oldCount ==> s.cells[j].resistance.Some?)
    && (s.phase.Tested? ==> s.cells[s.phase.i].resistance.Some?)
  }

  ghost predicate Inv(s: State) {
    Shape(s) && FileFaithful(s) && (!s.phase.Down? ==> MemoryFaithful(s))
  }

  lemma InitialInv()
    ensures Inv(Initial())
  {
  }

  /** Parsing the file of any invariant state recovers its image, and the file fits the parser's buffer. */
  lemma FileParses(s: State)
    requires Shape(s) && FileFaithful(s)
    ensures |s.disk| < BUFFER
    ensures Load(s.disk) == if s.image.NoHeader? then Loaded(0, 0, 0, [])
                            else Loaded(s.image.total, s.image.tVol, s.image.tRes, s.image.fields)
  {
    if s.image.Header? {
      var m := s.image;
      forall j | 0 <= j < |m.fields| ensures m.fields[j] < 100000 {
        assert Recorded(s, j, m.fields[j]);
      }
      CheckpointFits(m.total, m.tVol, m.tRes, m.fields);
      RoundTrip(m.total, m.tVol, m.tRes, m.fields);
    }
  }

  lemma BootInv(s: State, total: nat, t: nat)
    requires Inv(s) && Enabled(s, Boot(total, t))
    ensures Inv(DoBoot(s, total, t))
  {
    hide Load;
    FileParses(s);
    var s' := DoBoot(s, total, t);
    forall j | 0 <= j < SLOTS && s'.cells[j].resistance.Some?
      ensures Recorded(s', j, Hundredths(s'.cells[j].resistance.value))
    {
      assert Recorded(s, j, s.image.fields[j]);
    }
  }

  lemma TestInv(s: State, v: int, r: Option<int>, t: nat)
    requires Inv(s) && Enabled(s, Test(v, r, t))
    ensures Inv(DoTest(s, v, r, t))
  {
    var s' := DoTest(s, v, r, t);
    var i := s.phase.i;
    forall j | 0 <= j < |s.image.fields| ensures Recorded(s', j, s.image.fields[j]) {
      assert Recorded(s, j, s.image.fields[j]) && j != i;
    }
    forall j | 0 <= j < SLOTS && s'.cells[j].resistance.Some?
      ensures Recorded(s', j, Hundredths(s'.cells[j].resistance.value))
    {
      assert s.cells[j].resistance.Some? ==> Recorded(s, j, Hundredths(s.cells[j].resistance.value));
    }
  }

  lemma AppendInv(s: State)
    requires Inv(s) && Enabled(s, Append)
    ensures Inv(DoAppend(s))
  {
    hide FieldsText, FieldText, HeaderText;
    var s' := DoAppend(s);
    var i := s.phase.i;
    var h := FieldValue(s.cells[i]);
    FieldsTextAppend(s.image.fields, h);
    assert Recorded(s, i, h);
    forall j | 0 <= j < |s'.image.fields| ensures Recorded(s', j, s'.image.fields[j]) {
      assert j < i ==> Recorded(s, j, s.image.fields[j]);
    }
    forall j | 0 <= j < SLOTS && s'.cells[j].resistance.Some?
      ensures Recorded(s', j, Hundredths(s'.cells[j].resistance.value))
    {
      assert Recorded(s, j, Hundredths(s.cells[j].resistance.value));
    }
  }

  /** Every other step leaves the results alone. */
  lemma OtherFile(s: State, e: Event)
    requires Inv(s) && Enabled(s, e) && !e.Boot? && !e.Test? && !e.Append?
    ensures Shape(Step(s, e)) && FileFaithful(Step(s, e))
  {
    hide IsReading, MemoryFaithful;
    var s' := Step(s, e);
    forall j | s'.image.Header? && 0 <= j < |s'.image.fields| ensures Recorded(s', j, s'.image.fields[j]) {
      assert Recorded(s, j, s.image.fields[j]);
    }
  }

  /** So it does the resistances in memory. */
  lemma OtherMemory(s: State, e: Event)
    requires Inv(s) && Enabled(s, e) && !e.Boot? && !e.Test? && !e.Append? && Shape(Step(s, e))
    ensures !Step(s, e).phase.Down? ==> MemoryFaithful(Step(s, e))
  {
    hide IsReading, FileFaithful, ImageShape, Progress;
    var s' := Step(s, e);
    forall j | !s'.phase.Down? && 0 <= j < SLOTS && s'.cells[j].resistance.Some?
      ensures Recorded(s', j, Hundredths(s'.cells[j].resistance.value))
    {
      assert s.cells[j].resistance == s'.cells[j].resistance;
      assert Recorded(s, j, Hundredths(s.cells[j].resistance.value));
    }
  }

  lemma StepInv(s: State, e: Event)
    requires Inv(s) && Enabled(s, e)
    ensures Inv(Step(s, e))
  {
    hide Shape, FileFaithful, MemoryFaithful, DoTest, DoAppend, DoBoot;
    match e
    case Boot(total, t) => BootInv(s, total, t);
    case Test(v, r, t) => TestInv(s, v, r, t);
    case Append => AppendInv(s);
    case _ =>
      OtherFile(s, e);
      OtherMemory(s, e);
  }

  lemma {:induction false} RunInv(s: State, es: seq<Event>)
    requires Inv(s) && ValidRun(s, es)
    ensures Inv(Play(s, es))
    decreases |es|
  {
    hide Inv, Enabled, Step;
    if es != [] {
      StepInv(s, es[0]);
      RunInv(Step(s, es[0]), es[1..]);
    }
  }

  /** Crash safety: after any sequence of patrols, crashes at any point and restarts, the file is a header
      with fields that parses back exactly, and field j is the two-decimal rendering of the most recent
      result for cell j, however often the value has been written and read back. */
  lemma CheckpointFaithful(es: seq<Event>)
    requires ValidRun(Initial(), es)
    ensures var s := Play(Initial(), es);
            && |s.disk| < BUFFER && s.disk == ImageText(s.image)
            && |s.recorded| == SLOTS
            && (s.image.Header? ==>
                  && Load(s.disk) == Loaded(s.image.total, s.image.tVol, s.image.tRes, s.image.fields)
                  && forall j :: 0 <= j < |s.image.fields| ==> Recorded(s, j, s.image.fields[j]))
  {
    InitialInv();
    RunInv(Initial(), es);
    FileParses(Play(Initial(), es));
  }
}
