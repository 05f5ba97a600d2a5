/** What one patrol does between its first and its last step, and what it publishes. */
module PatrolCycle {
  import opened Basics
  import opened MiniFloat
  import opened Checkpoint
  import opened Patrol

  function Volts(c: Cell): nat {
    if c.voltage.Some? then c.voltage.value else 0
  }

  function SumVoltages(cells: seq<Cell>): nat {
    if cells == [] then 0 else SumVoltages(cells[..|cells| - 1]) + Volts(cells[|cells| - 1])
  }

  lemma {:induction false} SumSame(a: seq<Cell>, b: seq<Cell>)
    requires |a| == |b| && forall j :: 0 <= j < |a| ==> a[j].voltage == b[j].voltage
    ensures SumVoltages(a) == SumVoltages(b)
  {
    if a != [] {
      SumSame(a[..|a| - 1], b[..|b| - 1]);
    }
  }

  lemma SumNext(cells: seq<Cell>, i: nat)
    requires i < |cells|
    ensures SumVoltages(cells[..i + 1]) == SumVoltages(cells[..i]) + Volts(cells[i])
  {
    assert cells[..i + 1][..i] == cells[..i];
  }

  predicate InPatrol(s: State) {
    s.phase.Truncated? || s.phase.Ready? || s.phase.Tested? || s.phase.Written?
  }

  /** Cells whose voltage and resistance are settled in this patrol. */
  function Done(s: State): nat {
    match s.phase
    case Ready(i) => i
    case Tested(i) => i + 1
    case Written(i) => i + 1
    case _ => 0
  }

  /** Cells with all four readings. */
  function Finished(s: State): nat {
    match s.phase
    case Ready(i) => i
    case Tested(i) => i
    case Written(i) => i
    case _ => 0
  }

  function Due(s: State): bool
    requires |s.starts| > 0
  {
    s.starts[|s.starts| - 1].due
  }

  /** The first cell a patrol must query for resistance. */
  function FirstTested(s: State): nat
    requires |s.starts| > 0
  {
    if Due(s) then 0 else s.oldCount
  }

  /** t is the interval from lo to just below hi. */
  ghost predicate IsRange(t: set<nat>, lo: nat, hi: nat) {
    forall j: nat :: j in t <==> lo <= j < hi
  }

  ghost predicate PatrolSoFar(s: State)
    requires Shape(s) && InPatrol(s)
  {
    && |s.starts| > 0 && s.starts[|s.starts| - 1].t == s.tNow
    && s.tNow < s.tVoltage
    && (if Done(s) < s.total then s.tNow >= s.tResistance <==> Due(s) else s.tNow < s.tResistance)
    && s.carried == FirstTested(s) && IsRange(s.tested, s.carried, Done(s))
    && s.sum == SumVoltages(s.cells[..Done(s)])
    && (forall j :: 0 <= j < Done(s) ==> s.cells[j].voltage.Some? && s.cells[j].resistance.Some?)
    && (forall j :: 0 <= j < Finished(s) ==> s.cells[j].temperature.Some? && s.cells[j].capacity.Some?)
  }

  predicate Complete(c: Cell) {
    c.voltage.Some? && c.temperature.Some? && c.resistance.Some? && c.capacity.Some?
  }

  /** A published pack: every slot initialised, the total the exact sum. */
  ghost predicate PackOk(p: Pack, total: nat) {
    && |p.cells| == total && p.totalVoltage == SumVoltages(p.cells)
    && forall j :: 0 <= j < |p.cells| ==> Complete(p.cells[j])
  }

  /** Until a patrol is due, the resistances loaded at start-up stay as loaded. */
  ghost predicate Carried(s: State)
    requires Shape(s) && !s.phase.Down?
  {
    (s.starts == [] || (|s.starts| == 1 && !s.starts[0].due)) ==>
      forall j :: 0 <= j < s.oldCount ==> s.cells[j].resistance == Some(10 * s.loaded[j])
  }

  ghost predicate CycleInv(s: State) {
    && Inv(s)
    && (InPatrol(s) ==> PatrolSoFar(s))
    && (!s.phase.Down? ==> Carried(s) && (s.published.Some? ==> PackOk(s.published.value, s.total)))
  }

  lemma BeginCycle(s: State, t: nat)
    requires CycleInv(s) && Enabled(s, Begin(t))
    ensures CycleInv(DoBegin(s, t))
  {
    hide FileFaithful, MemoryFaithful;
    StepInv(s, Begin(t));
    var s' := DoBegin(s, t);
    assert s'.cells[..0] == [];
  }

  lemma TestCycle(s: State, v: int, r: Option<int>, t: nat)
    requires CycleInv(s) && Enabled(s, Test(v, r, t))
    ensures CycleInv(DoTest(s, v, r, t))
  {
    hide FileFaithful, MemoryFaithful, IsRange, PackOk, Recorded, SumVoltages, IsReading, ImageShape, Progress;
    StepInv(s, Test(v, r, t));
    var s' := DoTest(s, v, r, t);
    var i := s.phase.i;
    assert TestDue(s, i) <==> s.carried <= i;
    RangeNext(s.tested, s.carried, i);
    SumTested(s.cells, s'.cells, i);
    MemoryKept(s, s');
  }

  lemma SumTested(a: seq<Cell>, b: seq<Cell>, i: nat)
    requires i < |a| == |b| && forall j :: 0 <= j < i ==> a[j] == b[j]
    ensures SumVoltages(b[..i + 1]) == SumVoltages(a[..i]) + Volts(b[i])
  {
    assert b[..i] == a[..i];
    SumNext(b, i);
  }

  lemma RangeNext(t: set<nat>, lo: nat, hi: nat)
    requires IsRange(t, lo, hi)
    ensures IsRange(if lo <= hi then t + {hi} else t, lo, hi + 1)
  {
  }

  /** The tested cell had a resistance before, or has one now. */
  lemma MemoryKept(s: State, s': State)
    requires Inv(s) && Inv(s') && !s.phase.Down? && s'.phase.Tested?
    ensures s'.cells[s'.phase.i].resistance.Some?
  {
  }

  lemma FinishCycle(s: State, temp: int, cap: int)
    requires CycleInv(s) && Enabled(s, Finish(temp, cap))
    ensures CycleInv(DoFinish(s, temp, cap))
  {
    hide FileFaithful, MemoryFaithful;
    StepInv(s, Finish(temp, cap));
    var s' := DoFinish(s, temp, cap);
    SumSame(s.cells[..Done(s)], s'.cells[..Done(s)]);
  }

  lemma PublishCycle(s: State)
    requires CycleInv(s) && Enabled(s, Publish)
    ensures CycleInv(DoPublish(s))
  {
    hide FileFaithful, MemoryFaithful;
    StepInv(s, Publish);
  }

  /** After a publication no patrol is due until the clock is looked at again. */
  lemma PublishSettles(s: State)
    requires CycleInv(s) && Enabled(s, Publish)
    ensures !PatrolDue(DoPublish(s))
  {
  }

  lemma AppendCycle(s: State)
    requires CycleInv(s) && Enabled(s, Append)
    ensures CycleInv(DoAppend(s))
  {
    hide FileFaithful, MemoryFaithful;
    StepInv(s, Append);
  }

  lemma BootCycle(s: State, total: nat, t: nat)
    requires CycleInv(s) && Enabled(s, Boot(total, t))
    ensures CycleInv(DoBoot(s, total, t))
  {
    hide Load;
    StepInv(s, Boot(total, t));
  }

  lemma OtherCycle(s: State, e: Event)
    requires CycleInv(s) && Enabled(s, e)
    requires e.Crash? || e.WriteHeader? || e.Tick?
    ensures CycleInv(Step(s, e))
  {
    hide FileFaithful, MemoryFaithful;
    StepInv(s, e);
  }

  lemma StepCycle(s: State, e: Event)
    requires CycleInv(s) && Enabled(s, e)
    ensures CycleInv(Step(s, e))
  {
    hide CycleInv;
    match e
    case Begin(t) => BeginCycle(s, t);
    case Test(v, r, t) => TestCycle(s, v, r, t);
    case Finish(temp, cap) => FinishCycle(s, temp, cap);
    case Publish => PublishCycle(s);
    case Append => AppendCycle(s);
    case Boot(total, t) => BootCycle(s, total, t);
    case _ => OtherCycle(s, e);
  }

  lemma {:induction false} RunCycle(s: State, es: seq<Event>)
    requires CycleInv(s) && ValidRun(s, es)
    ensures CycleInv(Play(s, es))
    decreases |es|
  {
    hide CycleInv, Enabled, Step;
    if es != [] {
      StepCycle(s, es[0]);
      RunCycle(Step(s, es[0]), es[1..]);
    }
  }

  lemma Reached(es: seq<Event>)
    requires ValidRun(Initial(), es)
    ensures CycleInv(Play(Initial(), es))
  {
    InitialInv();
    RunCycle(Initial(), es);
  }

  lemma {:induction false} PrefixValid(s: State, a: seq<Event>, b: seq<Event>)
    requires ValidRun(s, a + b)
    ensures ValidRun(s, a)
    decreases |a|
  {
    hide Enabled, Step;
    if a != [] {
      assert (a + b)[0] == a[0] && (a + b)[1..] == a[1..] + b;
      PrefixValid(Step(s, a[0]), a[1..], b);
    }
  }

  lemma RunAppend(es: seq<Event>, e: Event)
    requires ValidRun(Initial(), es) && Enabled(Play(Initial(), es), e)
    ensures ValidRun(Initial(), es + [e]) && Play(Initial(), es + [e]) == Step(Play(Initial(), es), e)
  {
    RunConcat(Initial(), es, [e]);
    var s := Play(Initial(), es);
    assert [e][1..] == [] && ValidRun(Step(s, e), []);
    assert Play(s, [e]) == Play(Step(s, e), []);
  }

  /** The last step of a run. */
  lemma RunLast(es: seq<Event>, e: Event)
    requires ValidRun(Initial(), es + [e])
    ensures ValidRun(Initial(), es) && Enabled(Play(Initial(), es), e)
    ensures Play(Initial(), es + [e]) == Step(Play(Initial(), es), e)
  {
    PrefixValid(Initial(), es, [e]);
    RunConcat(Initial(), es, [e]);
    var s := Play(Initial(), es);
    assert ValidRun(s, [e]) && [e][0] == e;
    RunAppend(es, e);
  }

  /** At every publication of every run: the resistance query went to all cells if the deadline had passed
      and otherwise to exactly the cells beyond the restored count; no published value is uninitialised;
      each published resistance rounds to the most recent result of its cell; and the total is the sum of
      the published voltages, none of them negative. */
  lemma PublicationIsSound(es: seq<Event>)
    requires ValidRun(Initial(), es + [Publish])
    ensures ValidRun(Initial(), es)
    ensures var s := Play(Initial(), es);
            && |s.starts| > 0 && |s.recorded| == SLOTS && s.total <= |s.cells|
            && var p := Pack(s.cells[..s.total], s.sum, s.tNow);
            && Play(Initial(), es + [Publish]).published == Some(p)
            && PackOk(p, s.total)
            && IsRange(s.tested, FirstTested(s), s.total)
            && forall j :: 0 <= j < s.total ==> Recorded(s, j, Hundredths(p.cells[j].resistance.value))
  {
    hide CycleInv, PackOk, IsRange, Recorded, FirstTested, Enabled;
    RunLast(es, Publish);
    Reached(es);
    ReadyToPublish(Play(Initial(), es));
  }

  lemma ReadyToPublish(s: State)
    requires CycleInv(s) && Enabled(s, Publish)
    ensures |s.starts| > 0 && |s.recorded| == SLOTS && s.total <= |s.cells|
    ensures PackOk(Pack(s.cells[..s.total], s.sum, s.tNow), s.total)
    ensures IsRange(s.tested, FirstTested(s), s.total)
    ensures forall j :: 0 <= j < s.total ==> Recorded(s, j, Hundredths(s.cells[..s.total][j].resistance.value))
  {
    hide FileFaithful, SumVoltages, IsRange, ImageShape;
    forall j | 0 <= j < s.total ensures Recorded(s, j, Hundredths(s.cells[..s.total][j].resistance.value)) {
      assert s.cells[j].resistance.Some?;
    }
  }

  /** Power may fail after any step of any run: every prefix of a run is a run, can be followed by a crash,
      and leaves the file as it was. */
  lemma CrashAnywhere(es: seq<Event>, k: nat)
    requires ValidRun(Initial(), es) && k <= |es|
    ensures ValidRun(Initial(), es[..k])
    ensures var s := Play(Initial(), es[..k]);
            !s.phase.Down? ==>
              && ValidRun(Initial(), es[..k] + [Crash])
              && Play(Initial(), es[..k] + [Crash]) == s.(phase := Down)
  {
    assert es == es[..k] + es[k..];
    PrefixValid(Initial(), es[..k], es[k..]);
    RunConcat(Initial(), es[..k], [Crash]);
    var s := Play(Initial(), es[..k]);
    if !s.phase.Down? {
      assert [Crash][1..] == [] && ValidRun(Step(s, Crash), []);
      assert ValidRun(s, [Crash]) && Play(s, [Crash]) == Play(Step(s, Crash), []);
    }
  }

  /** At all times the last published total is the sum of the last published voltages. */
  lemma VoltageConserved(es: seq<Event>)
    requires ValidRun(Initial(), es)
    ensures var s := Play(Initial(), es);
            !s.phase.Down? && s.published.Some? ==>
              s.published.value.totalVoltage == SumVoltages(s.published.value.cells)
  {
    Reached(es);
  }

  // ---- Resuming after a crash ----

  /** Within one lifetime the start-up facts stay and the list of patrols only grows. */
  lemma {:induction false} LifetimeFrame(s: State, es: seq<Event>)
    requires ValidRun(s, es) && OneLifetime(es)
    ensures var s' := Play(s, es);
            && s'.total == s.total && s'.oldCount == s.oldCount && s'.loaded == s.loaded
            && s.starts <= s'.starts && (!s.phase.Down? ==> !s'.phase.Down?)
    decreases |es|
  {
    if es != [] {
      StepFrame(s, es[0]);
      hide Enabled, Step;
      LifetimeFrame(Step(s, es[0]), es[1..]);
    }
  }

  lemma StepFrame(s: State, e: Event)
    requires Enabled(s, e) && !e.Boot? && !e.Crash?
    ensures var s' := Step(s, e);
            && s'.total == s.total && s'.oldCount == s.oldCount && s'.loaded == s.loaded
            && s.starts <= s'.starts && (!s.phase.Down? ==> !s'.phase.Down?)
  {
  }

  /** A restart with k < n fields on file, an unchanged total and an unexpired resistance deadline. */
  ghost predicate Interrupted(s: State, t: nat) {
    s.phase.Down? && s.image.Header? && |s.image.fields| < s.image.total && t < s.image.tRes && Now(s, t)
  }

  /** The next patrol starts at once: short of another crash, nothing else can happen. */
  lemma ResumesAtOnce(es: seq<Event>, t: nat, e: Event)
    requires ValidRun(Initial(), es) && Interrupted(Play(Initial(), es), t)
    ensures var s := Play(Initial(), es);
            && Enabled(s, Boot(s.image.total, t))
            && var s1 := DoBoot(s, s.image.total, t);
               && s1.loaded == s.image.fields && s1.oldCount == |s.image.fields|
               && s1.tVoltage == t && s1.tResistance == s.image.tRes
               && Enabled(s1, Begin(t))
               && (Enabled(s1, e) ==> e.Begin? || e.Crash?)
  {
    Reached(es);
    RestartState(Play(Initial(), es), t);
    OnlyBegin(DoBoot(Play(Initial(), es), Play(Initial(), es).image.total, t), e);
  }

  lemma RestartState(s: State, t: nat)
    requires CycleInv(s) && Interrupted(s, t)
    ensures Enabled(s, Boot(s.image.total, t))
    ensures var s1 := DoBoot(s, s.image.total, t);
            && s1.loaded == s.image.fields && s1.oldCount == |s.image.fields|
            && s1.tVoltage == t && s1.tResistance == s.image.tRes
            && s1.phase.Idle? && s1.tNow == s1.clock == t <= MAX_CLOCK
  {
    hide Load, PatrolSoFar, Carried, MemoryFaithful;
    FileParses(s);
  }

  lemma OnlyBegin(s1: State, e: Event)
    requires s1.phase.Idle? && s1.tNow == s1.tVoltage == s1.clock <= MAX_CLOCK
    ensures Enabled(s1, Begin(s1.clock)) && (Enabled(s1, e) ==> e.Begin? || e.Crash?)
  {
  }

  /** That patrol queries the resistance of exactly the cells after the k restored ones, and publishes the
      restored values, unchanged, for those. */
  lemma ResumeCorrect(es: seq<Event>, t: nat, begin: nat, more: seq<Event>)
    requires ValidRun(Initial(), es) && Interrupted(Play(Initial(), es), t)
    requires var s := Play(Initial(), es);
             var first := [Boot(s.image.total, t), Begin(begin)];
             && ValidRun(s, first + more + [Publish]) && OneLifetime(more) && ValidRun(s, first + more)
             && |Play(s, first + more).starts| == 1
    ensures var s := Play(Initial(), es);
            var s2 := Play(s, [Boot(s.image.total, t), Begin(begin)] + more + [Publish]);
            var k, n := |s.image.fields|, s.image.total;
            && s2.published.Some? && |s2.published.value.cells| == n
            && IsRange(s2.tested, k, n)
            && forall j :: 0 <= j < k ==> s2.published.value.cells[j].resistance == Some(10 * s.image.fields[j])
  {
    hide CycleInv, DoBoot, DoBegin;
    var s := Play(Initial(), es);
    var first := [Boot(s.image.total, t), Begin(begin)];
    PrefixValid(s, first, more);
    FirstSteps(es, t, begin);
    RunConcat(Initial(), es, first + more);
    Reached(es + (first + more));
    RunConcat(s, first, more);
    RunConcat(s, first + more, [Publish]);
    UnfoldTwo(s, first[0], first[1]);
    ResumeTail(Play(s, first), more);
  }

  /** The state once the resumed patrol has begun. */
  lemma FirstSteps(es: seq<Event>, t: nat, begin: nat)
    requires ValidRun(Initial(), es) && Interrupted(Play(Initial(), es), t)
    requires ValidRun(Play(Initial(), es), [Boot(Play(Initial(), es).image.total, t), Begin(begin)])
    ensures var s := Play(Initial(), es);
            var b := Play(s, [Boot(s.image.total, t), Begin(begin)]);
            && b.total == s.image.total && b.loaded == s.image.fields && b.oldCount == |b.loaded|
            && b.starts == [Start(t, begin, false)]
  {
    hide Load, CycleInv;
    var s := Play(Initial(), es);
    ResumesAtOnce(es, t, Begin(begin));
    UnfoldTwo(s, Boot(s.image.total, t), Begin(begin));
  }

  /** A patrol begun without the deadline having passed, up to its publication. */
  lemma ResumeTail(b: State, more: seq<Event>)
    requires ValidRun(b, more) && OneLifetime(more)
    requires var s2 := Play(b, more);
             CycleInv(s2) && ValidRun(s2, [Publish]) && |s2.starts| == 1
    requires |b.starts| == 1 && !b.starts[0].due
    ensures var s2 := Play(b, more);
            var s3 := Play(s2, [Publish]);
            && b.oldCount == |b.loaded| && IsRange(s3.tested, b.oldCount, b.total)
            && s3.published.Some? && |s3.published.value.cells| == b.total
            && forall j :: 0 <= j < b.oldCount && j < b.total
                 ==> s3.published.value.cells[j].resistance == Some(10 * b.loaded[j])
  {
    hide FileFaithful, MemoryFaithful;
    LifetimeFrame(b, more);
    var s2 := Play(b, more);
    assert s2.starts == b.starts;
    assert Enabled(s2, Publish);
    assert [Publish][1..] == [] && Play(s2, [Publish]) == Play(DoPublish(s2), []);
  }

  lemma UnfoldTwo(s: State, a: Event, b: Event)
    requires ValidRun(s, [a, b])
    ensures Enabled(s, a) && Enabled(Step(s, a), b) && Play(s, [a, b]) == Step(Step(s, a), b)
  {
    assert [a, b][1..] == [b] && [b][1..] == [];
    assert Play(Step(s, a), [b]) == Play(Step(Step(s, a), b), []);
  }
}
