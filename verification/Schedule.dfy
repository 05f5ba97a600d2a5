/** When patrols and balancing passes start within one process lifetime. */
module Schedule {
  import opened Basics
  import opened MiniFloat
  import opened Checkpoint
  import opened Patrol
  import opened PatrolCycle

  // ---- Facts about a list of patrol starts ----

  /** In time order; a patrol whose turn comes sooner than 600 s after its predecessor began is due to the
      resistance deadline; of two patrols due to it, the turn of the second comes a day after the first
      began. */
  ghost predicate Spaced(st: seq<Start>) {
    && (forall i :: 0 <= i < |st| ==> st[i].t <= st[i].at)
    && (forall i, j :: 0 <= i < j < |st| ==> st[i].at <= st[j].t)
    && (forall i, j :: 0 <= i < j < |st| && st[i].due && st[j].due ==> st[i].at + RESISTANCE_PERIOD <= st[j].t)
    && (forall j :: 0 < j < |st| ==> st[j].due || st[j - 1].at + VOLTAGE_PERIOD <= st[j].t)
  }

  /** The same patrols by the clock readings at which they began. */
  function Begins(st: seq<Start>): (b: seq<Start>)
    ensures |b| == |st| && forall i :: 0 <= i < |st| ==> b[i] == Start(st[i].at, st[i].at, st[i].due)
  {
    seq(|st|, i requires 0 <= i < |st| => Start(st[i].at, st[i].at, st[i].due))
  }

  lemma BeginsSpaced(st: seq<Start>)
    requires Spaced(st)
    ensures Spaced(Begins(st))
  {
    var b := Begins(st);
    forall i, j | 0 <= i < j < |b|
      ensures b[i].at <= b[j].t
      ensures b[i].due && b[j].due ==> b[i].at + RESISTANCE_PERIOD <= b[j].t
    {
      assert st[i].at <= st[j].t <= st[j].at;
    }
    forall j | 0 < j < |b| ensures b[j].due || b[j - 1].at + VOLTAGE_PERIOD <= b[j].t {
      assert st[j].t <= st[j].at;
    }
  }

  /** Patrols after the i-th up to the j-th that are due. */
  function DueCount(st: seq<Start>, i: nat, j: nat): nat
    requires i <= j < |st|
  {
    if i == j then 0 else DueCount(st, i, j - 1) + (if st[j].due then 1 else 0)
  }

  lemma {:induction false} OnTimeGaps(st: seq<Start>, i: nat, j: nat)
    requires Spaced(st) && i <= j < |st|
    ensures DueCount(st, i, j) <= j - i
    ensures VOLTAGE_PERIOD * (j - i - DueCount(st, i, j)) <= st[j].t - st[i].t
  {
    if i < j {
      OnTimeGaps(st, i, j - 1);
      assert st[j - 1].t <= st[j].t;
    }
  }

  /** The last due patrol of a stretch that has one. */
  lemma {:induction false} LastDue(st: seq<Start>, i: nat, j: nat) returns (f: nat)
    requires i <= j < |st| && DueCount(st, i, j) > 0
    ensures i < f <= j && st[f].due && DueCount(st, i, f) == DueCount(st, i, j)
  {
    if st[j].due {
      f := j;
    } else {
      f := LastDue(st, i, j - 1);
    }
  }

  lemma {:induction false} DueGaps(st: seq<Start>, i: nat, j: nat)
    requires Spaced(st) && i <= j < |st| && DueCount(st, i, j) > 0
    ensures RESISTANCE_PERIOD * (DueCount(st, i, j) - 1) <= st[j].t - st[i].t
  {
    var f := LastDue(st, i, j);
    assert f < j ==> st[f].t <= st[j].t;
    if DueCount(st, i, f) > 1 {
      var g := LastDue(st, i, f - 1);
      DueGaps(st, i, g);
    } else {
      assert st[i].t <= st[f].t;
    }
  }

  lemma CountBound(onTime: nat, due: nat, window: nat)
    requires VOLTAGE_PERIOD * onTime <= window && (due > 0 ==> RESISTANCE_PERIOD * (due - 1) <= window)
    ensures onTime <= window / VOLTAGE_PERIOD && due <= window / RESISTANCE_PERIOD + 1
  {
  }

  /** From the i-th patrol to the j-th: at most one per 600 s, one per day, and two more; and of two
      consecutive gaps one is at least 600 s. */
  predicate RateBound(st: seq<Start>, i: nat, j: nat)
    requires i <= j < |st|
  {
    var window := st[j].t - st[i].t;
    && window >= 0 && j - i + 1 <= window / 600 + window / 86400 + 2
    && (j == i + 2 ==> st[i].t + 600 <= st[i + 1].t || st[i + 1].t + 600 <= st[j].t)
  }

  lemma WindowBound(st: seq<Start>, i: nat, j: nat)
    requires Spaced(st) && i <= j < |st|
    ensures RateBound(st, i, j)
  {
    OnTimeGaps(st, i, j);
    if DueCount(st, i, j) > 0 {
      DueGaps(st, i, j);
    }
    CountBound(j - i - DueCount(st, i, j), DueCount(st, i, j), st[j].t - st[i].t);
  }

  ghost predicate PassesSpaced(p: seq<nat>) {
    forall i, j :: 0 <= i < j < |p| ==> p[i] + 60 <= p[j]
  }

  // ---- The invariant that ties the list to the deadlines ----

  ghost predicate Deadlines(s: State)
    requires Shape(s) && !s.phase.Down?
  {
    var n := |s.starts|;
    && Spaced(s.starts) && (forall i :: 0 <= i < n ==> s.starts[i].at <= s.clock)
    && (s.phase.Idle? && PatrolDue(s) ==> forall i :: 0 <= i < n ==> s.starts[i].at <= s.tNow)
    && (n > 0 ==> s.starts[n - 1].at + VOLTAGE_PERIOD <= s.tVoltage)
    && (forall i :: 0 <= i < n && s.starts[i].due && !(i == n - 1 && InPatrol(s) && Done(s) < s.total)
          ==> s.starts[i].at + RESISTANCE_PERIOD <= s.tResistance)
    && PassesSpaced(s.passes)
    && (forall i :: 0 <= i < |s.passes| ==> s.passes[i] + CONTROL_PERIOD <= s.tControl)
  }

  ghost predicate ScheduleInv(s: State) {
    CycleInv(s) && (!s.phase.Down? ==> Deadlines(s))
  }

  lemma SpacedAppend(st: seq<Start>, x: Start)
    requires Spaced(st) && x.t <= x.at && forall i :: 0 <= i < |st| ==> st[i].at <= x.t
    requires x.due ==> forall i :: 0 <= i < |st| && st[i].due ==> st[i].at + RESISTANCE_PERIOD <= x.t
    requires |st| > 0 ==> x.due || st[|st| - 1].at + VOLTAGE_PERIOD <= x.t
    ensures Spaced(st + [x])
  {
  }

  lemma BeginSchedule(s: State, t: nat)
    requires ScheduleInv(s) && Enabled(s, Begin(t)) && CycleInv(DoBegin(s, t))
    ensures Deadlines(DoBegin(s, t))
  {
    hide FileFaithful, MemoryFaithful, Spaced;
    SpacedAppend(s.starts, Start(s.tNow, t, s.tNow >= s.tResistance));
  }

  /** After the last test of a due patrol the deadline is a day beyond every start. */
  lemma TestSchedule(s: State, v: int, r: Option<int>, t: nat)
    requires ScheduleInv(s) && Enabled(s, Test(v, r, t)) && CycleInv(DoTest(s, v, r, t))
    ensures Deadlines(DoTest(s, v, r, t))
  {
    hide FileFaithful, MemoryFaithful, Spaced;
    var s' := DoTest(s, v, r, t);
    assert s'.starts == s.starts && s'.passes == s.passes;
  }

  lemma TickSchedule(s: State, tc: nat, t: nat)
    requires ScheduleInv(s) && Enabled(s, Tick(tc, t)) && CycleInv(DoTick(s, tc, t))
    ensures Deadlines(DoTick(s, tc, t))
  {
    hide FileFaithful, MemoryFaithful, Spaced;
  }

  lemma OtherSchedule(s: State, e: Event)
    requires ScheduleInv(s) && Enabled(s, e) && CycleInv(Step(s, e))
    requires e.WriteHeader? || e.Append? || e.Finish? || e.Publish?
    ensures Deadlines(Step(s, e))
  {
    hide FileFaithful, MemoryFaithful, Spaced, PassesSpaced, Carried;
  }

  lemma BootSchedule(s: State, total: nat, t: nat)
    requires Enabled(s, Boot(total, t)) && CycleInv(DoBoot(s, total, t))
    ensures Deadlines(DoBoot(s, total, t))
  {
    hide FileFaithful, MemoryFaithful, Load, Carried;
  }

  lemma StepSchedule(s: State, e: Event)
    requires ScheduleInv(s) && Enabled(s, e)
    ensures ScheduleInv(Step(s, e))
  {
    hide FileFaithful, MemoryFaithful, Load, Deadlines, PatrolSoFar, Carried;
    StepCycle(s, e);
    match e
    case Begin(t) => BeginSchedule(s, t);
    case Test(v, r, t) => TestSchedule(s, v, r, t);
    case Tick(tc, t) => TickSchedule(s, tc, t);
    case Crash =>
    case Boot(total, n) => BootSchedule(s, total, n);
    case _ => OtherSchedule(s, e);
  }

  lemma {:induction false} RunSchedule(s: State, es: seq<Event>)
    requires ScheduleInv(s) && ValidRun(s, es)
    ensures ScheduleInv(Play(s, es))
    decreases |es|
  {
    hide ScheduleInv, Enabled, Step;
    if es != [] {
      StepSchedule(s, es[0]);
      RunSchedule(Step(s, es[0]), es[1..]);
    }
  }

  lemma ReachedSchedule(es: seq<Event>)
    requires ValidRun(Initial(), es)
    ensures ScheduleInv(Play(Initial(), es))
  {
    Reached([]);
    RunSchedule(Initial(), es);
  }

  lemma SpacedIn(s: State)
    requires ScheduleInv(s) && !s.phase.Down?
    ensures Spaced(s.starts) && PassesSpaced(s.passes)
  {
    hide CycleInv;
  }

  /** Within a lifetime, in every run: the patrol rate bound over any window, measured by the loop's own time
      or by the clock readings at which patrols begin; no two short gaps in a row; and balancing passes a
      minute apart. */
  lemma PatrolRateBound(es: seq<Event>, i: nat, j: nat)
    requires ValidRun(Initial(), es) && !Play(Initial(), es).phase.Down?
    requires i <= j < |Play(Initial(), es).starts|
    ensures RateBound(Play(Initial(), es).starts, i, j) && RateBound(Begins(Play(Initial(), es).starts), i, j)
    ensures PassesSpaced(Play(Initial(), es).passes)
  {
    hide ScheduleInv, Spaced;
    ReachedSchedule(es);
    var s := Play(Initial(), es);
    SpacedIn(s);
    WindowBound(s.starts, i, j);
    BeginsSpaced(s.starts);
    WindowBound(Begins(s.starts), i, j);
  }
}
