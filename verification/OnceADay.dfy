/** "Test each cell once a day", over whole runs with crashes and restarts. */
module OnceADay {
  import opened Basics
  import opened MiniFloat
  import opened Checkpoint
  import opened Patrol
  import opened PatrolCycle
  import opened DailyTest

  // ---- The first patrol after a restart ----

  /** After a restart the restored cells are tested again at once if and only if the file is missing its
      header, the number of cells changed, or the stored deadline has passed. */
  lemma RetestAfterRestartIff(es: seq<Event>, total: nat, t: nat)
    requires ValidRun(Initial(), es) && Enabled(Play(Initial(), es), Boot(total, t))
    ensures var s := Play(Initial(), es);
            var s1 := DoBoot(s, total, t);
            (s1.tNow >= s1.tResistance)
              <==> (s.image.NoHeader? || total != s.image.total || t >= s.image.tRes)
  {
    Reached(es);
    hide Load;
    FileParses(Play(Initial(), es));
  }

  /** A restart waits with its first patrol if and only if the file is complete, the number of cells is the
      same and both stored deadlines lie ahead. */
  lemma PatrolAfterRestartIff(es: seq<Event>, total: nat, t: nat)
    requires ValidRun(Initial(), es) && Enabled(Play(Initial(), es), Boot(total, t))
    ensures var s := Play(Initial(), es);
            (!PatrolDue(DoBoot(s, total, t)))
              <==> (s.image.Header? && total == s.image.total && |s.image.fields| == total
                     && t < s.image.tVol && t < s.image.tRes)
  {
    Reached(es);
    hide Load;
    FileParses(Play(Initial(), es));
  }

  // ---- The deadline on file ----

  /** When the latest result of a cell was recorded. */
  function TestedAt(s: State, j: nat): nat
    requires j < |s.recorded| && s.recorded[j].Some?
  {
    s.recorded[j].value.at
  }

  /** The file's deadline is a day from the test of each cell on it that its patrol queried. */
  ghost predicate StampInv(s: State)
    requires Shape(s)
  {
    && (forall j :: 0 <= j < SLOTS && s.recorded[j].Some? ==> TestedAt(s, j) <= s.clock)
    && (s.image.Header? ==>
          && s.image.tRes <= s.clock + RESISTANCE_PERIOD
          && (forall j :: s.carried <= j < |s.image.fields| ==> Covered(s, j))
          && (s.phase.Tested? && s.phase.i >= s.carried ==> Covered(s, s.phase.i)))
  }

  ghost predicate Covered(s: State, j: nat)
    requires Shape(s) && s.image.Header?
  {
    j < SLOTS && s.recorded[j].Some? && s.image.tRes <= TestedAt(s, j) + RESISTANCE_PERIOD
  }

  lemma StepStamp(s: State, e: Event)
    requires CycleInv(s) && StampInv(s) && Enabled(s, e) && CycleInv(Step(s, e))
    ensures StampInv(Step(s, e))
  {
    hide FileFaithful, MemoryFaithful, PackOk, Carried, IsRange, SumVoltages, Load, IsReading, ImageShape;
    if e.Test? {
      TestStamp(s, e.voltage, e.resistance, e.t);
    } else {
      var s' := Step(s, e);
      forall j | s'.image.Header? && s'.carried <= j < |s'.image.fields| ensures Covered(s', j) {
        assert s.image.Header? && j < |s.image.fields| ==> Covered(s, j);
      }
    }
  }

  lemma TestStamp(s: State, v: int, r: Option<int>, t: nat)
    requires CycleInv(s) && StampInv(s) && Enabled(s, Test(v, r, t)) && CycleInv(DoTest(s, v, r, t))
    ensures StampInv(DoTest(s, v, r, t))
  {
    hide FileFaithful, MemoryFaithful, PackOk, Carried, IsRange, SumVoltages, IsReading, ImageShape;
    var s' := DoTest(s, v, r, t);
    forall j | s'.image.Header? && s'.carried <= j < |s'.image.fields| ensures Covered(s', j) {
      assert Covered(s, j);
    }
  }

  /** Every start and every turn of the loop takes at least a second. */
  ghost predicate Advancing(s: State, es: seq<Event>)
    requires ValidRun(s, es)
    decreases |es|
  {
    es != [] ==> Advances(s, es[0]) && Advancing(Step(s, es[0]), es[1..])
  }

  predicate Advances(s: State, e: Event) {
    (e.Boot? ==> s.clock < e.t) && (e.Tick? ==> s.clock < e.t)
  }

  // ---- Rounds of tests ----

  predicate HasResult(s: State, j: nat) {
    j < |s.recorded| && s.recorded[j].Some? && s.recorded[j].value.patrol < |s.ends|
  }

  /** When the resistance tests of the patrol that last tested cell j ended. */
  function LastRound(s: State, j: nat): nat
    requires HasResult(s, j)
  {
    s.ends[s.recorded[j].value.patrol]
  }

  /** The latest patrol tested the cells from `carried` on, so far, and no others. */
  ghost predicate RoundInv(s: State)
    requires Shape(s)
  {
    var last := |s.ends| - 1;
    && (forall p :: 0 <= p <= last ==> s.ends[p] <= s.clock)
    && (forall j :: 0 <= j < SLOTS && s.recorded[j].Some? ==>
          && HasResult(s, j) && TestedAt(s, j) <= LastRound(s, j)
          && (s.recorded[j].value.patrol == last ==> j >= s.carried))
    && (InPatrol(s) ==> forall j :: s.carried <= j < Done(s) && j < SLOTS ==>
          s.recorded[j].Some? && s.recorded[j].value.patrol == last)
    && (InPatrol(s) && s.carried < s.total == Done(s) ==>
          s.tResistance == s.ends[last] + RESISTANCE_PERIOD
          && s.image.Header? && s.image.tRes <= s.tResistance)
  }

  lemma CycleShape(s: State)
    requires CycleInv(s)
    ensures Shape(s)
  {
  }

  lemma StepRound(s: State, e: Event)
    requires CycleInv(s) && StampInv(s) && RoundInv(s) && Enabled(s, e) && CycleInv(Step(s, e))
    ensures RoundInv(Step(s, e))
  {
    hide CycleInv, StampInv, RoundInv, Enabled, DoBoot, DoTest, DoBegin;
    CycleShape(s);
    CycleShape(Step(s, e));
    match e
    case Test(v, r, t) => TestRound(s, v, r, t);
    case Begin(t) => BeginRound(s, t);
    case _ => OtherRound(s, e);
  }

  lemma BeginRound(s: State, t: nat)
    requires Shape(s) && RoundInv(s) && Enabled(s, Begin(t)) && Shape(DoBegin(s, t))
    ensures RoundInv(DoBegin(s, t))
  {
    hide ImageShape;
  }

  lemma OtherRound(s: State, e: Event)
    requires Shape(s) && RoundInv(s) && Enabled(s, e) && !e.Test? && !e.Begin? && Shape(Step(s, e))
    ensures RoundInv(Step(s, e))
  {
    hide ImageShape, Load, IsReading, HeaderText, FieldText;
  }

  lemma TestRound(s: State, v: int, r: Option<int>, t: nat)
    requires CycleInv(s) && StampInv(s) && RoundInv(s) && Enabled(s, Test(v, r, t)) && CycleInv(DoTest(s, v, r, t))
    ensures RoundInv(DoTest(s, v, r, t))
  {
    hide FileFaithful, MemoryFaithful, PackOk, Carried, IsRange, SumVoltages, Load, Covered, IsReading, ImageShape;
  }

  /** With such a clock, the cells taken over without a query had their round before the file was stamped. */
  ghost predicate StaleInv(s: State)
    requires Shape(s)
  {
    && (s.image.Header? ==> forall j :: 0 <= j < s.carried && j < SLOTS && s.recorded[j].Some?
                              ==> HasResult(s, j) && LastRound(s, j) + RESISTANCE_PERIOD < s.image.tRes)
    && (s.phase.Truncated? || (s.phase.Idle? && PatrolDue(s)) ==>
          forall j :: 0 <= j < SLOTS && s.recorded[j].Some? ==> HasResult(s, j) && LastRound(s, j) < s.clock)
  }

  lemma StepStale(s: State, e: Event)
    requires CycleInv(s) && RoundInv(s) && StaleInv(s) && Enabled(s, e) && Advances(s, e) && CycleInv(Step(s, e))
    ensures StaleInv(Step(s, e))
  {
    hide FileFaithful, MemoryFaithful, PackOk, Carried, IsRange, SumVoltages, Load, Covered, IsReading, ImageShape;
    if e.Publish? {
      PublishSettles(s);
    }
  }

  // ---- Together ----

  /** What is known of every moment. */
  ghost predicate TestInv(s: State) {
    CycleInv(s) && StampInv(s) && RoundInv(s)
  }

  lemma StepTestInv(s: State, e: Event)
    requires TestInv(s) && Enabled(s, e)
    ensures TestInv(Step(s, e))
    ensures StaleInv(s) && Advances(s, e) ==> StaleInv(Step(s, e))
  {
    hide CycleInv, StampInv, RoundInv, StaleInv, Enabled, Step;
    StepCycle(s, e);
    CycleShape(s);
    CycleShape(Step(s, e));
    StepStamp(s, e);
    StepRound(s, e);
    if StaleInv(s) && Advances(s, e) {
      StepStale(s, e);
    }
  }

  lemma TestShape(s: State)
    requires TestInv(s)
    ensures Shape(s)
  {
  }

  lemma {:induction false} RunTestInv(s: State, es: seq<Event>)
    requires TestInv(s) && ValidRun(s, es)
    ensures TestInv(Play(s, es)) && Shape(s) && Shape(Play(s, es))
    ensures StaleInv(s) && Advancing(s, es) ==> StaleInv(Play(s, es))
    decreases |es|
  {
    hide TestInv, StaleInv, Enabled, Step, Advances;
    TestShape(s);
    if es != [] {
      StepTestInv(s, es[0]);
      TestShape(Step(s, es[0]));
      RunTestInv(Step(s, es[0]), es[1..]);
    }
  }

  lemma InitialTestInv()
    ensures TestInv(Initial()) && Shape(Initial()) && StaleInv(Initial())
  {
    hide CycleInv, Shape;
    Reached([]);
    CycleShape(Initial());
  }

  /** After the restart, cell j is due at once or a day after its last test at the latest. */
  predicate Prompt(s: State, total: nat, t: nat, j: nat)
    requires j < |s.recorded| && s.recorded[j].Some?
  {
    DoBoot(s, total, t).tResistance <= Max(t, TestedAt(s, j) + 86400)
  }

  /** A restart that takes cell j over from a file whose patrol had not tested it either, on the strength of
      a deadline that patrol made up. */
  predicate OnBorrowedTime(s: State, total: nat, t: nat, j: nat) {
    s.image.Header? && total == s.image.total && t < s.image.tRes && j < s.carried
  }

  /** A restart keeps "once a day" for a cell on file unless it takes it over on borrowed time; and if every
      start and every turn of the loop takes a second, exactly then. */
  lemma PromptAfterRestartIff(es: seq<Event>, total: nat, t: nat, j: nat)
    requires ValidRun(Initial(), es) && Enabled(Play(Initial(), es), Boot(total, t))
    requires var s := Play(Initial(), es); s.image.Header? && j < |s.image.fields|
    ensures var s := Play(Initial(), es);
            && j < |s.recorded| && s.recorded[j].Some?
            && (!OnBorrowedTime(s, total, t, j) ==> Prompt(s, total, t, j))
            && (Advancing(Initial(), es) ==> (Prompt(s, total, t, j) <==> !OnBorrowedTime(s, total, t, j)))
  {
    hide Load;
    InitialTestInv();
    RunTestInv(Initial(), es);
    var s := Play(Initial(), es);
    FileParses(s);
    assert Recorded(s, j, s.image.fields[j]);
    assert j >= s.carried ==> Covered(s, j);
  }

  // ---- The deadline in force, over whole runs ----

  /** "Once a day" for cell j: the deadline in force comes within a day of the cell's last round of tests, or
      the patrol that is due now tests it. */
  predicate Covers(s: State, j: nat) {
    || (HasResult(s, j) && s.tResistance <= LastRound(s, j) + 86400)
    || (PatrolDue(s) && TestDue(s, j))
  }

  ghost predicate AllCovered(s: State) {
    s.phase.Idle? ==> forall j :: 0 <= j < s.total ==> Covers(s, j)
  }

  /** Every cell is covered whenever the loop stands between two of its steps, at every moment of the run. */
  ghost predicate AlwaysCovered(s: State, es: seq<Event>)
    requires ValidRun(s, es)
    decreases |es|
  {
    AllCovered(s) && (es != [] ==> AlwaysCovered(Step(s, es[0]), es[1..]))
  }

  /** The two steps that let a cell slip: a restart that takes cells over on borrowed time; and the end of a
      patrol that was not due in a process that restored some cells but not all. */
  predicate Slips(s: State, e: Event) {
    || (e.Boot? && s.image.Header? && s.image.fields != [] && OnBorrowedTime(s, e.total, e.t, 0))
    || (e.Publish? && s.starts != [] && !Due(s) && 0 < s.oldCount < s.total)
  }

  ghost predicate NoSlip(s: State, es: seq<Event>)
    requires ValidRun(s, es)
    decreases |es|
  {
    es != [] ==> !Slips(s, es[0]) && NoSlip(Step(s, es[0]), es[1..])
  }

  /** As long as nothing slips: covered between patrols, and in a patrol that takes over every cell. */
  ghost predicate CoverInv(s: State)
    requires Shape(s)
  {
    && AllCovered(s)
    && (InPatrol(s) && s.carried >= s.total ==> forall j :: 0 <= j < s.total ==>
          HasResult(s, j) && s.tResistance <= LastRound(s, j) + RESISTANCE_PERIOD)
  }

  lemma BootCover(s: State, total: nat, t: nat)
    requires TestInv(s) && Shape(s) && Enabled(s, Boot(total, t)) && !Slips(s, Boot(total, t))
    ensures AllCovered(DoBoot(s, total, t))
  {
    hide Load, MemoryFaithful, PackOk;
    FileParses(s);
    var s' := DoBoot(s, total, t);
    forall j | 0 <= j < s'.total ensures Covers(s', j) {
      if t < s'.tResistance && j < s'.oldCount {
        assert s.carried <= j < |s.image.fields| && Covered(s, j);
      }
    }
  }

  lemma BeginCover(s: State, t: nat)
    requires TestInv(s) && Shape(s) && CoverInv(s) && Enabled(s, Begin(t)) && Shape(DoBegin(s, t))
    ensures CoverInv(DoBegin(s, t))
  {
    hide FileFaithful, MemoryFaithful, PackOk, Carried, StampInv, IsRange;
    var s' := DoBegin(s, t);
    forall j | s'.carried >= s'.total && 0 <= j < s'.total
      ensures HasResult(s', j) && s'.tResistance <= LastRound(s', j) + RESISTANCE_PERIOD
    {
      assert Covers(s, j) && !TestDue(s, j);
    }
  }

  lemma PublishCover(s: State)
    requires TestInv(s) && Shape(s) && CoverInv(s) && Enabled(s, Publish) && !Slips(s, Publish)
    ensures AllCovered(DoPublish(s))
  {
    hide FileFaithful, MemoryFaithful, PackOk, Carried, StampInv, IsRange;
    var s' := DoPublish(s);
    assert s.carried == 0 || s.carried >= s.total;
    forall j | 0 <= j < s'.total ensures Covers(s', j) {
      assert s.carried == 0 ==> s.recorded[j].Some? && s.recorded[j].value.patrol == |s.ends| - 1;
      assert HasResult(s, j);
    }
  }

  lemma OtherCover(s: State, e: Event)
    requires TestInv(s) && Shape(s) && CoverInv(s) && Enabled(s, e) && Shape(Step(s, e))
    requires !e.Boot? && !e.Begin? && !e.Publish?
    ensures CoverInv(Step(s, e))
  {
    hide FileFaithful, MemoryFaithful, PackOk, Carried, StampInv, IsRange, IsReading, ImageShape, SumVoltages;
    var s' := Step(s, e);
    if e.Tick? {
      forall j | 0 <= j < s'.total ensures Covers(s', j) {
        assert Covers(s, j);
      }
    }
    forall j | InPatrol(s') && s'.carried >= s'.total && 0 <= j < s'.total
      ensures HasResult(s', j) && s'.tResistance <= LastRound(s', j) + RESISTANCE_PERIOD
    {
      assert HasResult(s, j);
    }
  }

  lemma StepCover(s: State, e: Event)
    requires TestInv(s) && Shape(s) && CoverInv(s) && Enabled(s, e) && !Slips(s, e) && Shape(Step(s, e))
    ensures CoverInv(Step(s, e))
  {
    hide TestInv, AllCovered, Slips, Load;
    match e
    case Boot(total, t) => BootCover(s, total, t);
    case Begin(t) => BeginCover(s, t);
    case Publish => PublishCover(s);
    case _ => OtherCover(s, e);
  }

  /** A slip leaves cell 1 uncovered. */
  lemma SlipUncovers(s: State, e: Event)
    requires TestInv(s) && Shape(s) && StaleInv(s) && Enabled(s, e) && Slips(s, e)
    ensures !AllCovered(Step(s, e))
  {
    hide PackOk, Carried, IsRange, SumVoltages, Load, Covered;
    if e.Boot? {
      FileParses(s);
      assert Recorded(s, 0, s.image.fields[0]);
    } else {
      PublishSettles(s);
      assert s.cells[0].resistance.Some? && Recorded(s, 0, Hundredths(s.cells[0].resistance.value));
    }
    assert !Covers(Step(s, e), 0);
  }

  lemma CoveredNow(s: State)
    requires Shape(s) && CoverInv(s)
    ensures AllCovered(s)
  {
  }

  lemma {:induction false} RunCovered(s: State, es: seq<Event>)
    requires TestInv(s) && Shape(s) && CoverInv(s) && ValidRun(s, es)
    ensures NoSlip(s, es) ==> AlwaysCovered(s, es) && Shape(Play(s, es)) && CoverInv(Play(s, es))
    ensures StaleInv(s) && Advancing(s, es) && AlwaysCovered(s, es) ==> NoSlip(s, es)
    decreases |es|
  {
    hide TestInv, Shape, AllCovered, CoverInv, StaleInv, Slips, Enabled, Step, Advances;
    CoveredNow(s);
    if es != [] {
      StepTestInv(s, es[0]);
      TestShape(Step(s, es[0]));
      if !Slips(s, es[0]) {
        StepCover(s, es[0]);
        RunCovered(Step(s, es[0]), es[1..]);
      } else if StaleInv(s) {
        SlipUncovers(s, es[0]);
        assert AlwaysCovered(s, es) ==> AlwaysCovered(Step(s, es[0]), es[1..]);
      }
    }
  }

  /** "Test each cell once a day", over whole runs with crashes and restarts: the deadline in force covers
      every cell at every moment if no restart takes cells over on borrowed time and no process that restored
      some cells but not all completes a patrol that was not due; and, if every start and every turn of the
      loop takes a second, only then. */
  lemma OnceADayIff(es: seq<Event>)
    requires ValidRun(Initial(), es)
    ensures NoSlip(Initial(), es) ==> AlwaysCovered(Initial(), es)
    ensures Advancing(Initial(), es) ==> (AlwaysCovered(Initial(), es) <==> NoSlip(Initial(), es))
  {
    InitialTestInv();
    RunCovered(Initial(), es);
  }

  /** What being covered is worth: in a run without slips, a cell whose last round is a day old, or that was
      never tested, makes a patrol due at this turn of the loop, and that patrol tests it before it
      publishes. */
  lemma DayOldCellIsTested(es: seq<Event>, j: nat, t: nat, more: seq<Event>)
    requires ValidRun(Initial(), es) && NoSlip(Initial(), es)
    requires var s := Play(Initial(), es);
             && s.phase.Idle? && j < s.total
             && (HasResult(s, j) ==> s.tNow >= LastRound(s, j) + 86400)
    ensures PatrolDue(Play(Initial(), es))
    ensures var s := Play(Initial(), es);
            ValidRun(s, [Begin(t)] + more) && OneLifetime(more) ==>
              var s' := Play(s, [Begin(t)] + more);
              Enabled(s', Publish) && |s'.starts| == |s.starts| + 1 ==> j in s'.tested
  {
    InitialTestInv();
    RunCovered(Initial(), es);
    var s := Play(Initial(), es);
    assert Covers(s, j) && TestDue(s, j);
    if ValidRun(s, [Begin(t)] + more) && OneLifetime(more) {
      Reached(es);
      RunCycle(s, [Begin(t)] + more);
      TestedInPatrol(s, j, t, more);
    }
  }

  lemma TestedInPatrol(s: State, j: nat, t: nat, more: seq<Event>)
    requires TestDue(s, j) && j < s.total && ValidRun(s, [Begin(t)] + more) && OneLifetime(more)
    requires CycleInv(Play(s, [Begin(t)] + more))
    ensures var s' := Play(s, [Begin(t)] + more);
            Enabled(s', Publish) && |s'.starts| == |s.starts| + 1 ==> j in s'.tested
  {
    hide CycleInv;
    assert ([Begin(t)] + more)[0] == Begin(t) && ([Begin(t)] + more)[1..] == more;
    var b, s' := DoBegin(s, t), Play(s, [Begin(t)] + more);
    LifetimeFrame(b, more);
    if Enabled(s', Publish) && |s'.starts| == |s.starts| + 1 {
      assert s'.starts == b.starts;
      TestedAtPublication(s');
    }
  }

  // ---- The failure over any number of days ----

  function Restarts(es: seq<Event>): nat {
    if es == [] then 0 else (if es[0].Boot? then 1 else 0) + Restarts(es[1..])
  }

  function Publications(es: seq<Event>): nat {
    if es == [] then 0 else (if es[0].Publish? then 1 else 0) + Publications(es[1..])
  }

  lemma {:induction false} CountConcat(a: seq<Event>, b: seq<Event>)
    ensures Restarts(a + b) == Restarts(a) + Restarts(b)
    ensures Publications(a + b) == Publications(a) + Publications(b)
  {
    if a == [] {
      assert a + b == b;
    } else {
      assert (a + b)[0] == a[0] && (a + b)[1..] == a[1..] + b;
      CountConcat(a[1..], b);
    }
  }

  lemma {:induction false} NoRestarts(es: seq<Event>)
    requires OneLifetime(es)
    ensures Restarts(es) == 0
  {
    if es != [] {
      NoRestarts(es[1..]);
    }
  }

  lemma {:induction false} SomePublication(es: seq<Event>)
    requires es != [] && es[|es| - 1].Publish?
    ensures Publications(es) >= 1
  {
    if |es| > 1 {
      SomePublication(es[1..]);
    }
  }

  /** A complete file whose resistance deadline still lies ahead. */
  ghost predicate Carryable(s: State) {
    && CycleInv(s) && s.phase.Down? && s.image.Header? && |s.image.fields| == s.image.total
    && s.clock < s.image.tRes && s.image.tVol < s.image.tRes <= MAX_CLOCK
  }

  /** One restart in the last second before the stored deadline: a patrol that tests nothing moves the
      deadline another day ahead. */
  lemma OneRestart(s: State) returns (es: seq<Event>)
    requires Carryable(s) && s.image.tRes + RESISTANCE_PERIOD <= MAX_CLOCK
    ensures ValidRun(s, es) && NoQueries(es) && Restarts(es) == 1 && Publications(es) >= 1
    ensures var s' := Play(s, es);
            && Carryable(s') && s'.recorded == s.recorded
            && s'.clock == s.image.tRes - 1 && s'.image.tRes == s.image.tRes - 1 + RESISTANCE_PERIOD
  {
    hide CycleInv, Load;
    var t := s.image.tRes - 1;
    var boot := Boot(s.image.total, t);
    ShapeOf(s);
    var s1 := DoBoot(s, s.image.total, t);
    StepCycle(s, boot);
    var patrol := FullPatrol(s1, t);
    var s2 := Play(s1, patrol);
    StepCycle(s2, Crash);
    PlayOne(s, boot);
    PlayOne(s2, Crash);
    RunConcat(s, [boot], patrol);
    RunConcat(s, [boot] + patrol, [Crash]);
    es := [boot] + patrol + [Crash];
    NoRestarts(patrol);
    SomePublication(patrol);
    CountConcat([boot], patrol);
    CountConcat([boot] + patrol, [Crash]);
    assert [boot][1..] == [] && [Crash][1..] == [];
  }

  lemma ShapeOf(s: State)
    requires CycleInv(s)
    ensures s.image.Header? ==> 1 <= s.image.total <= SLOTS
                                && Load(s.disk) == Loaded(s.image.total, s.image.tVol, s.image.tRes, s.image.fields)
  {
    hide Load;
    FileParses(s);
  }

  /** Any number of such restarts in a row. */
  lemma {:induction false} RestartsPostponeTesting(s: State, m: nat) returns (es: seq<Event>)
    requires Carryable(s) && s.image.tRes + m * RESISTANCE_PERIOD <= MAX_CLOCK
    ensures ValidRun(s, es) && NoQueries(es) && Restarts(es) == m && Publications(es) >= m
    ensures var s' := Play(s, es);
            && Carryable(s') && s'.recorded == s.recorded
            && s'.image.tRes == s.image.tRes + m * (RESISTANCE_PERIOD - 1)
            && (m == 0 ==> s' == s)
            && (m > 0 ==> s'.clock == s.image.tRes - 1 + (m - 1) * (RESISTANCE_PERIOD - 1))
    decreases m
  {
    hide Carryable, Enabled, Step;
    if m == 0 {
      es := [];
    } else {
      HeaderOf(s);
      var one := OneRestart(s);
      HeaderOf(Play(s, one));
      var rest := RestartsPostponeTesting(Play(s, one), m - 1);
      RunConcat(s, one, rest);
      CountConcat(one, rest);
      es := one + rest;
    }
  }

  lemma HeaderOf(s: State)
    requires Carryable(s)
    ensures s.image.Header?
  {
  }

  /** "Test each cell once a day" fails across restarts: for every number of days m there is a run `first`
      that completes a patrol and a continuation `rest` over m days, with m restarts and at least as many
      completed patrols, that queries no resistance at all. */
  lemma OnceADayFails(m: nat) returns (first: seq<Event>, rest: seq<Event>)
    requires (m + 1) * RESISTANCE_PERIOD <= MAX_CLOCK
    ensures ValidRun(Initial(), first) && ValidRun(Initial(), first + rest) && NoQueries(rest)
    ensures Restarts(rest) == m && Publications(rest) >= m
    ensures var s, s' := Play(Initial(), first), Play(Initial(), first + rest);
            && s.clock == 0 && s'.clock == m * (RESISTANCE_PERIOD - 1)
            && s'.recorded == s.recorded && s'.recorded != Initial().recorded
            && s'.image.Header? && |s'.image.fields| == s'.image.total
            && s'.image.tRes == s'.clock + RESISTANCE_PERIOD
  {
    hide Load, CycleInv;
    var s0 := Initial();
    Reached([]);
    EmptyFile();
    StepCycle(s0, Boot(1, 0));
    var s1 := DoBoot(s0, 1, 0);
    var patrol := FullPatrol(s1, 0);
    var s2 := Play(s1, patrol);
    StepCycle(s2, Crash);
    PlayOne(s0, Boot(1, 0));
    PlayOne(s2, Crash);
    RunConcat(s0, [Boot(1, 0)], patrol);
    RunConcat(s0, [Boot(1, 0)] + patrol, [Crash]);
    first := [Boot(1, 0)] + patrol + [Crash];
    var s := Play(s0, first);
    rest := RestartsPostponeTesting(s, m);
    RunConcat(s0, first, rest);
    FirstFieldRecorded(s);
  }

  lemma EmptyFile()
    ensures Load("") == Loaded(0, 0, 0, [])
  {
  }

  lemma FirstFieldRecorded(s: State)
    requires CycleInv(s) && s.image.Header? && |s.image.fields| == s.image.total
    ensures s.recorded != Initial().recorded
  {
    assert Recorded(s, 0, s.image.fields[0]);
  }
}
