/** How often the resistances are tested within one process. */
module DailyTest {
  import opened Basics
  import opened MiniFloat
  import opened Checkpoint
  import opened Patrol
  import opened PatrolCycle

  // ---- How often resistances are tested ----

  ghost predicate Apart(ts: seq<nat>) {
    forall i, j :: 0 <= i < j < |ts| ==> ts[i] + 86400 <= ts[j]
  }

  /** The patrols of this process that have queried a resistance are a day apart. */
  ghost predicate TestsADayApart(s: State) {
    Apart(s.tests)
  }

  /** The deadline keeps the testing patrols apart, given a field per cell at start-up. */
  ghost predicate TestsInv(s: State)
    requires Shape(s) && !s.phase.Down?
  {
    var n := |s.tests|;
    && (InPatrol(s) && s.tested != {} ==> n > 0 && s.tests[n - 1] == s.tNow)
    && (s.oldCount >= s.total ==>
          && Apart(s.tests)
          && forall i :: 0 <= i < n && !(i == n - 1 && InPatrol(s) && s.tested != {} && Done(s) < s.total)
               ==> s.tests[i] + RESISTANCE_PERIOD <= s.tResistance)
  }

  lemma TestTests(s: State, v: int, r: Option<int>, t: nat)
    requires CycleInv(s) && !s.phase.Down? && TestsInv(s) && Enabled(s, Test(v, r, t))
    requires CycleInv(DoTest(s, v, r, t))
    ensures TestsInv(DoTest(s, v, r, t))
  {
    hide FileFaithful, MemoryFaithful, SumVoltages, PackOk, Carried;
    if s.tested != {} {
      var j :| j in s.tested;
      assert s.carried <= j < Done(s);
    }
  }

  lemma StepTests(s: State, e: Event)
    requires CycleInv(s) && !s.phase.Down? && TestsInv(s) && Enabled(s, e) && !e.Crash?
    requires CycleInv(Step(s, e))
    ensures TestsInv(Step(s, e))
  {
    hide FileFaithful, MemoryFaithful, SumVoltages, PackOk, Carried, IsRange;
    match e
    case Test(v, r, t) => TestTests(s, v, r, t);
    case _ =>
  }

  lemma {:induction false} RunTests(s: State, es: seq<Event>)
    requires CycleInv(s) && !s.phase.Down? && TestsInv(s) && ValidRun(s, es) && OneLifetime(es)
    ensures CycleInv(Play(s, es)) && !Play(s, es).phase.Down? && TestsInv(Play(s, es))
    decreases |es|
  {
    if es != [] {
      StepCycle(s, es[0]);
      StepFrame(s, es[0]);
      StepTests(s, es[0]);
      hide CycleInv, TestsInv, Enabled, Step;
      RunTests(Step(s, es[0]), es[1..]);
    }
  }

  predicate NoQueries(es: seq<Event>) {
    forall k :: 0 <= k < |es| && es[k].Test? ==> es[k].resistance.None?
  }

  /** No resistance is due in this patrol. */
  predicate AllCarried(s: State) {
    s.oldCount >= s.total && s.tNow < s.tResistance
  }

  /** What the cells still to come leave alone. */
  ghost predicate SamePatrol(s: State, s': State) {
    && s'.total == s.total && s'.oldCount == s.oldCount && s'.starts == s.starts
    && s'.tVoltage == s.tVoltage && s'.tNow == s.tNow && s'.clock == s.clock && s'.passes == s.passes
    && s.image.Header? && s'.image.Header?
    && (s'.image.total, s'.image.tVol, s'.image.tRes) == (s.image.total, s.image.tVol, s.image.tRes)
    && (AllCarried(s) ==> s'.recorded == s.recorded && s'.tResistance == s.tResistance)
  }

  /** The list of testing patrols once the patrol under way has queried a resistance. */
  function TestsWithThis(s: State): seq<nat> {
    if s.tested == {} then s.tests + [s.tNow] else s.tests
  }

  lemma CellEnabled(s: State)
    requires CycleInv(s) && s.phase.Ready? && s.phase.i < s.total
    ensures s.image.Header? && s.phase.i < |s.cells| == |s.recorded| && |s.ends| > 0 && s.clock <= MAX_CLOCK
  {
  }

  /** One cell, handled with all readings zero. */
  lemma OneCell(s: State) returns (es: seq<Event>)
    requires CycleInv(s) && s.phase.Ready? && s.phase.i < s.total
    ensures ValidRun(s, es) && OneLifetime(es) && (AllCarried(s) ==> NoQueries(es))
    ensures var s' := Play(s, es);
            && CycleInv(s') && SamePatrol(s, s') && s'.phase == Ready(s.phase.i + 1)
            && (s.phase.i + 1 == s.total && !AllCarried(s) ==> s'.tResistance == s.clock + RESISTANCE_PERIOD)
            && (s.phase.i + 1 < s.total ==> (AllCarried(s) <==> AllCarried(s')))
            && (if TestDue(s, s.phase.i) then s'.tests == TestsWithThis(s) && s'.tested != {}
                else s'.tests == s.tests && s'.tested == s.tested)
  {
    hide CycleInv;
    CellEnabled(s);
    var r := if TestDue(s, s.phase.i) then Some(0) else None;
    es := [Test(0, r, s.clock), Append, Finish(0, 0)];
    var s1 := DoTest(s, 0, r, s.clock);
    StepCycle(s, es[0]);
    StepCycle(s1, Append);
    StepCycle(DoAppend(s1), Finish(0, 0));
    UnfoldThree(s, es[0], es[1], es[2]);
  }

  lemma UnfoldThree(s: State, a: Event, b: Event, c: Event)
    requires Enabled(s, a) && Enabled(Step(s, a), b) && Enabled(Step(Step(s, a), b), c)
    ensures ValidRun(s, [a, b, c]) && Play(s, [a, b, c]) == Step(Step(Step(s, a), b), c)
  {
    hide Enabled, Step;
    assert [a, b, c][1..] == [b, c] && [b, c][1..] == [c] && [c][1..] == [];
    var s2 := Step(Step(s, a), b);
    assert ValidRun(Step(s2, c), []) && ValidRun(s2, [c]);
    assert Play(s2, [c]) == Play(Step(s2, c), []);
  }

  lemma {:induction false} RestOfPatrol(s: State) returns (es: seq<Event>)
    requires CycleInv(s) && s.phase.Ready? && s.phase.i <= s.total
    ensures ValidRun(s, es) && OneLifetime(es) && (AllCarried(s) ==> NoQueries(es))
    ensures var s' := Play(s, es);
            && CycleInv(s') && SamePatrol(s, s') && s'.phase == Ready(s.total)
            && (s.phase.i == s.total ==> s' == s)
            && (s.phase.i < s.total && !AllCarried(s) ==>
                  s'.tResistance == s.clock + RESISTANCE_PERIOD && s'.tests == TestsWithThis(s))
    decreases s.total - s.phase.i
  {
    hide CycleInv, Enabled, Step;
    if s.phase.i == s.total {
      es := [];
      HasHeader(s);
    } else {
      var one := OneCell(s);
      var rest := RestOfPatrol(Play(s, one));
      RunConcat(s, one, rest);
      es := one + rest;
    }
  }

  lemma HasHeader(s: State)
    requires CycleInv(s) && s.phase.Ready?
    ensures s.image.Header? && s.phase.i <= s.total && s.total > 0
  {
  }

  /** Whenever a patrol is due it can run through to its publication, here with the clock standing still. */
  lemma FullPatrol(s: State, t: nat) returns (es: seq<Event>)
    requires CycleInv(s) && s.phase.Idle? && PatrolDue(s) && Now(s, t)
    ensures ValidRun(s, es) && OneLifetime(es) && (AllCarried(s) ==> NoQueries(es))
    ensures es != [] && es[|es| - 1].Publish?
    ensures var s' := Play(s, es);
            && CycleInv(s') && s'.phase.Idle? && s'.clock == t && s'.tNow == s.tNow
            && s'.total == s.total && s'.oldCount == s.oldCount
            && s'.starts == s.starts + [Start(s.tNow, t, s.tNow >= s.tResistance)]
            && s'.tVoltage == t + VOLTAGE_PERIOD
            && s'.image.Header? && |s'.image.fields| == s.total
            && (s'.image.total, s'.image.tVol, s'.image.tRes)
                 == (s.total, t + VOLTAGE_PERIOD, t + RESISTANCE_PERIOD)
            && (AllCarried(s) ==> s'.recorded == s.recorded)
            && (!AllCarried(s) ==> s'.tResistance == t + RESISTANCE_PERIOD && s'.tests == s.tests + [s.tNow])
  {
    hide CycleInv;
    var first := [Begin(t), WriteHeader(t)];
    var b := PatrolBegun(s, t);
    var rest := RestOfPatrol(b);
    var c := Play(b, rest);
    PatrolEnded(c);
    RunConcat(s, first, rest);
    RunConcat(s, first + rest, [Publish]);
    es := first + rest + [Publish];
  }

  lemma PatrolBegun(s: State, t: nat) returns (b: State)
    requires CycleInv(s) && s.phase.Idle? && PatrolDue(s) && Now(s, t)
    ensures ValidRun(s, [Begin(t), WriteHeader(t)]) && b == Play(s, [Begin(t), WriteHeader(t)])
    ensures CycleInv(b) && b.phase == Ready(0) && 0 < b.total == s.total && b.oldCount == s.oldCount
    ensures b.starts == s.starts + [Start(s.tNow, t, s.tNow >= s.tResistance)]
    ensures b.tVoltage == t + VOLTAGE_PERIOD && b.tNow == s.tNow && b.clock == t
    ensures b.tests == s.tests && b.tested == {}
    ensures b.image == Header(s.total, t + VOLTAGE_PERIOD, t + RESISTANCE_PERIOD, [])
    ensures b.recorded == s.recorded && (AllCarried(b) <==> AllCarried(s))
  {
    hide CycleInv;
    var a := DoBegin(s, t);
    b := DoWriteHeader(a, t);
    StepCycle(s, Begin(t));
    StepCycle(a, WriteHeader(t));
    PlayTwo(s, Begin(t), WriteHeader(t));
    HasHeader(b);
  }

  lemma PatrolEnded(c: State)
    requires CycleInv(c) && c.phase == Ready(c.total)
    ensures ValidRun(c, [Publish]) && Play(c, [Publish]) == DoPublish(c) && CycleInv(DoPublish(c))
    ensures c.image.Header? && |c.image.fields| == c.total
  {
    HasHeader(c);
    AllFields(c);
    hide CycleInv;
    StepCycle(c, Publish);
    PlayOne(c, Publish);
  }

  lemma AllFields(s: State)
    requires CycleInv(s) && s.phase.Ready?
    ensures |s.image.fields| == s.phase.i && Enabled(s, Publish) == (s.phase.i == s.total)
  {
  }

  lemma PlayOne(s: State, a: Event)
    requires Enabled(s, a)
    ensures ValidRun(s, [a]) && Play(s, [a]) == Step(s, a)
  {
    assert [a][1..] == [] && ValidRun(Step(s, a), []);
    assert Play(s, [a]) == Play(Step(s, a), []);
  }

  lemma PlayTwo(s: State, a: Event, b: Event)
    requires Enabled(s, a) && Enabled(Step(s, a), b)
    ensures ValidRun(s, [a, b]) && Play(s, [a, b]) == Step(Step(s, a), b)
  {
    hide Enabled, Step;
    PlayOne(Step(s, a), b);
    assert [a, b][1..] == [b];
  }

  /** Right after start-up with part of the cells restored, two whole patrols ten minutes apart both query
      resistances. */
  lemma TwoTestingPatrols(s: State) returns (more: seq<Event>)
    requires CycleInv(s) && s.phase.Idle? && s.tests == [] && s.tNow == s.clock
    requires s.oldCount < s.total && PatrolDue(s) && s.clock + VOLTAGE_PERIOD <= MAX_CLOCK
    ensures ValidRun(s, more) && OneLifetime(more) && Play(s, more).phase.Idle?
    ensures Play(s, more).tests == [s.clock, s.clock + VOLTAGE_PERIOD]
  {
    hide CycleInv;
    var first := FullPatrol(s, s.clock);
    var s1 := Play(s, first);
    var t := s.clock + VOLTAGE_PERIOD;
    StepCycle(s1, Tick(t, t));
    var s2 := DoTick(s1, t, t);
    var second := FullPatrol(s2, t);
    PlayOne(s1, Tick(t, t));
    RunConcat(s, first, [Tick(t, t)]);
    RunConcat(s, first + [Tick(t, t)], second);
    more := first + [Tick(t, t)] + second;
  }

  /** A process keeps its resistance tests a day apart, in every run it can make, if and only if it found at
      least one field per cell at start-up. Otherwise the restored count, never reset, makes every patrol
      test the remaining cells again. */
  lemma TestsADayApartIff(es: seq<Event>, total: nat, t: nat)
    requires ValidRun(Initial(), es + [Boot(total, t)]) && t + VOLTAGE_PERIOD <= MAX_CLOCK
    ensures var s := Play(Initial(), es + [Boot(total, t)]);
            (forall more :: ValidRun(s, more) && OneLifetime(more) ==> TestsADayApart(Play(s, more)))
              <==> s.oldCount >= s.total
  {
    var s := Play(Initial(), es + [Boot(total, t)]);
    Reached(es + [Boot(total, t)]);
    JustBooted(es, total, t);
    if s.oldCount >= s.total {
      forall more | ValidRun(s, more) && OneLifetime(more) ensures TestsADayApart(Play(s, more)) {
        RunTests(s, more);
        LifetimeFrame(s, more);
      }
    } else {
      var more := TwoTestingPatrols(s);
      var ts := Play(s, more).tests;
      assert ts[0] + RESISTANCE_PERIOD > ts[1];
    }
  }

  lemma JustBooted(es: seq<Event>, total: nat, t: nat)
    requires ValidRun(Initial(), es + [Boot(total, t)])
    ensures var s := Play(Initial(), es + [Boot(total, t)]);
            && s.phase.Idle? && s.starts == [] && s.tests == [] && s.tNow == s.clock == t
            && s.total == total && s.published == None && (s.oldCount < total ==> s.tNow >= s.tVoltage)
  {
    hide Load;
    PrefixValid(Initial(), es, [Boot(total, t)]);
    RunConcat(Initial(), es, [Boot(total, t)]);
    var s := Play(Initial(), es);
    assert [Boot(total, t)][1..] == [];
    assert Play(s, [Boot(total, t)]) == Play(Step(s, Boot(total, t)), []);
  }

  // ---- All cells or some ----

  /** No resistance queried, or all of them. */
  ghost predicate AllOrNothing(s: State) {
    s.tested == {} || IsRange(s.tested, 0, s.total)
  }

  lemma TestedAtPublication(s: State)
    requires CycleInv(s) && Enabled(s, Publish)
    ensures |s.starts| > 0 && IsRange(s.tested, FirstTested(s), s.total)
  {
  }

  lemma AllOrNothingAtPublication(s: State)
    requires CycleInv(s) && Enabled(s, Publish) && (s.oldCount == 0 || s.oldCount >= s.total)
    ensures AllOrNothing(s)
  {
    hide CycleInv;
    TestedAtPublication(s);
    if FirstTested(s) > 0 {
      assert s.tested == {};
    }
  }

  lemma SomeOnlyAtPublication(s: State)
    requires CycleInv(s) && Enabled(s, Publish) && 0 < s.oldCount < s.total && s.starts != [] && !Due(s)
    ensures !AllOrNothing(s)
  {
    hide CycleInv;
    TestedAtPublication(s);
    assert s.oldCount in s.tested && 0 !in s.tested;
  }

  /** From the turn of a patrol to the moment before its publication. */
  lemma UpToPublication(s: State, t: nat) returns (es: seq<Event>)
    requires CycleInv(s) && s.phase.Idle? && PatrolDue(s) && Now(s, t)
    ensures ValidRun(s, es + [Publish]) && ValidRun(s, es) && OneLifetime(es)
    ensures var s' := Play(s, es);
            && CycleInv(s') && Enabled(s', Publish) && s'.total == s.total && s'.oldCount == s.oldCount
            && s'.starts != [] && (Due(s') <==> s.tNow >= s.tResistance)
  {
    hide CycleInv;
    var first := [Begin(t), WriteHeader(t)];
    var b := PatrolBegun(s, t);
    var rest := RestOfPatrol(b);
    PatrolEnded(Play(b, rest));
    RunConcat(s, first, rest);
    RunConcat(s, first + rest, [Publish]);
    es := first + rest;
    assert ValidRun(Play(s, es), [Publish]) && [Publish][0] == Publish;
  }

  /** Right after start-up with part of the cells restored, the first or the second patrol tests only the
      others. */
  lemma SomePatrolTestsSome(s: State) returns (more: seq<Event>)
    requires CycleInv(s) && s.phase.Idle? && s.tNow == s.clock && PatrolDue(s)
    requires 0 < s.oldCount < s.total && s.clock + VOLTAGE_PERIOD <= MAX_CLOCK
    ensures ValidRun(s, more) && OneLifetime(more) && Enabled(Play(s, more), Publish)
    ensures !AllOrNothing(Play(s, more))
  {
    hide CycleInv, AllOrNothing;
    if s.tNow < s.tResistance {
      more := UpToPublication(s, s.clock);
    } else {
      var first := FullPatrol(s, s.clock);
      var s1 := Play(s, first);
      var t := s.clock + VOLTAGE_PERIOD;
      StepCycle(s1, Tick(t, t));
      var second := UpToPublication(DoTick(s1, t, t), t);
      PlayOne(s1, Tick(t, t));
      RunConcat(s, first, [Tick(t, t)]);
      RunConcat(s, first + [Tick(t, t)], second);
      more := first + [Tick(t, t)] + second;
    }
    SomeOnlyAtPublication(Play(s, more));
  }

  /** In every run of a process each patrol tests all cells or none if and only if start-up found no field at
      all or at least one per cell. */
  lemma AllOrNothingIff(es: seq<Event>, total: nat, t: nat)
    requires ValidRun(Initial(), es + [Boot(total, t)]) && t + VOLTAGE_PERIOD <= MAX_CLOCK
    ensures var s := Play(Initial(), es + [Boot(total, t)]);
            (forall more ::
               ValidRun(s, more) && OneLifetime(more) && Enabled(Play(s, more), Publish)
               ==> AllOrNothing(Play(s, more)))
              <==> s.oldCount == 0 || s.oldCount >= s.total
  {
    var s := Play(Initial(), es + [Boot(total, t)]);
    Reached(es + [Boot(total, t)]);
    JustBooted(es, total, t);
    hide CycleInv, AllOrNothing;
    if s.oldCount == 0 || s.oldCount >= s.total {
      forall more | ValidRun(s, more) && OneLifetime(more) && Enabled(Play(s, more), Publish)
        ensures AllOrNothing(Play(s, more))
      {
        RunCycle(s, more);
        LifetimeFrame(s, more);
        AllOrNothingAtPublication(Play(s, more));
      }
    } else {
      var more := SomePatrolTestsSome(s);
    }
  }

  // ---- A process that restored some cells but not all ----

  /** Every turn of the loop takes at most a day less ten minutes. */
  ghost predicate Brisk(s: State, es: seq<Event>)
    requires ValidRun(s, es)
    decreases |es|
  {
    es != [] ==>
      && (es[0].Tick? ==> es[0].t <= s.tNow + RESISTANCE_PERIOD - VOLTAGE_PERIOD)
      && Brisk(Step(s, es[0]), es[1..])
  }

  /** With the last cell beyond the restored ones, every patrol moves the deadline out of reach of the
      next. */
  ghost predicate OutOfReach(s: State)
    requires Shape(s) && !s.phase.Down?
  {
    && s.oldCount < s.total && (forall k :: 1 <= k < |s.starts| ==> !s.starts[k].due)
    && (s.published.Some? ==> s.starts != [] && (InPatrol(s) ==> |s.starts| > 1))
    && (s.phase.Idle? && s.starts == [] ==> s.tNow >= s.tVoltage)
    && (s.phase.Idle? && s.starts != [] ==>
          s.tNow < s.tResistance
          && (s.tNow < s.tVoltage ==> s.tVoltage + RESISTANCE_PERIOD <= s.tResistance + VOLTAGE_PERIOD))
    && (InPatrol(s) ==>
          s.tVoltage <= s.clock + VOLTAGE_PERIOD
          && (Done(s) == s.total ==> s.tVoltage + RESISTANCE_PERIOD <= s.tResistance + VOLTAGE_PERIOD))
  }

  /** The restored cells are left alone: after the first publication, or if even the first patrol is not
      due. */
  ghost predicate LeftAlone(s: State) {
    || s.published.Some?
    || (if s.starts == [] then s.tNow < s.tResistance else |s.starts| > 1 || !s.starts[0].due)
  }

  lemma StepOutOfReach(s: State, e: Event)
    requires CycleInv(s) && !s.phase.Down? && OutOfReach(s) && Enabled(s, e) && !e.Boot? && !e.Crash?
    requires e.Tick? ==> e.t <= s.tNow + RESISTANCE_PERIOD - VOLTAGE_PERIOD
    requires CycleInv(Step(s, e))
    ensures OutOfReach(Step(s, e))
    ensures |Step(s, e).recorded| == |s.recorded| == SLOTS
    ensures LeftAlone(s) ==>
              && LeftAlone(Step(s, e))
              && forall j :: 0 <= j < s.oldCount ==> Step(s, e).recorded[j] == s.recorded[j]
  {
    hide FileFaithful, MemoryFaithful, PackOk, Carried, IsRange, SumVoltages, Load, IsReading, ImageShape;
  }

  lemma {:induction false} RunOutOfReach(s: State, es: seq<Event>)
    requires CycleInv(s) && !s.phase.Down? && OutOfReach(s) && ValidRun(s, es) && OneLifetime(es) && Brisk(s, es)
    ensures var s' := Play(s, es);
            && CycleInv(s') && !s'.phase.Down? && OutOfReach(s') && s'.oldCount == s.oldCount
            && |s'.recorded| == |s.recorded| == SLOTS
            && (LeftAlone(s) ==> forall j :: 0 <= j < s.oldCount && j < SLOTS ==> s'.recorded[j] == s.recorded[j])
    decreases |es|
  {
    hide FileFaithful, MemoryFaithful;
    if es != [] {
      StepCycle(s, es[0]);
      StepFrame(s, es[0]);
      StepOutOfReach(s, es[0]);
      hide CycleInv, OutOfReach, LeftAlone, Enabled, Step;
      RunOutOfReach(Step(s, es[0]), es[1..]);
    }
  }

  lemma {:induction false} BriskConcat(s: State, a: seq<Event>, b: seq<Event>)
    requires ValidRun(s, a) && ValidRun(s, a + b) && ValidRun(Play(s, a), b) && Brisk(s, a + b)
    ensures Brisk(s, a) && Brisk(Play(s, a), b)
    decreases |a|
  {
    hide Enabled, Step;
    if a == [] {
      assert a + b == b;
    } else {
      assert (a + b)[0] == a[0] && (a + b)[1..] == a[1..] + b;
      BriskConcat(Step(s, a[0]), a[1..], b);
    }
  }

  /** A process that restored some cells, but not all, tests the restored cells in its first patrol or never:
      as long as no turn of its loop takes nearly a day, no later patrol of its whole life is due to the
      resistance deadline, and the results of the restored cells stay what they were from the first
      publication on, or, if the process started before the stored deadline, from its start. */
  lemma RestoredNeverTestedAgain(es: seq<Event>, total: nat, t: nat, first: seq<Event>, more: seq<Event>)
    requires ValidRun(Initial(), es + [Boot(total, t)])
    requires var s := Play(Initial(), es + [Boot(total, t)]);
             && s.oldCount < total && ValidRun(s, first + more) && OneLifetime(first + more) && Brisk(s, first + more)
             && ValidRun(s, first) && (Play(s, first).published.Some? || (first == [] && t < s.tResistance))
    ensures var s := Play(Initial(), es + [Boot(total, t)]);
            var s1, s2 := Play(s, first), Play(s, first + more);
            && (forall k :: 1 <= k < |s2.starts| ==> !s2.starts[k].due)
            && |s1.recorded| == |s2.recorded| == SLOTS
            && forall j :: 0 <= j < s.oldCount && j < SLOTS ==> s2.recorded[j] == s1.recorded[j]
  {
    var s := Play(Initial(), es + [Boot(total, t)]);
    Reached(es + [Boot(total, t)]);
    JustBooted(es, total, t);
    RunConcat(s, first, more);
    BriskConcat(s, first, more);
    BothLifetimes(first, more);
    BootOutOfReach(s);
    hide CycleInv, Brisk;
    RunOutOfReach(s, first);
    var s1 := Play(s, first);
    assert LeftAlone(s1);
    RunOutOfReach(s1, more);
    LifetimeFrame(s, first);
  }

  lemma BootOutOfReach(s: State)
    requires CycleInv(s) && s.phase.Idle? && s.starts == [] && s.published == None
    requires s.oldCount < s.total && s.tNow >= s.tVoltage
    ensures OutOfReach(s)
  {
  }

  lemma BothLifetimes(a: seq<Event>, b: seq<Event>)
    requires OneLifetime(a + b)
    ensures OneLifetime(a) && OneLifetime(b)
  {
    assert forall k :: 0 <= k < |a| ==> (a + b)[k] == a[k];
    assert forall k :: 0 <= k < |b| ==> (a + b)[|a| + k] == b[k];
  }
}
