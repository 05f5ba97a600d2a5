/** Where the published readings come from: the events of the patrol that published them. */
module PatrolResults {
  import opened Basics
  import opened MiniFloat
  import opened Checkpoint
  import opened Patrol
  import opened PatrolCycle

  /** A patrol, step by step: truncate, header, then test, append and finish each cell in order, publish. */
  ghost predicate PatrolEvents(es: seq<Event>, n: nat) {
    && |es| == 3 * n + 3 && es[0].Begin? && es[1].WriteHeader? && es[3 * n + 2].Publish?
    && CellEvents(es, n)
  }

  ghost predicate CellEvents(es: seq<Event>, n: nat) {
    |es| >= 3 * n + 2
    && forall i :: 0 <= i < n ==> es[3 * i + 2].Test? && es[3 * i + 3].Append? && es[3 * i + 4].Finish?
  }

  /** Steps the patrol under way has made. */
  function StepsDone(s: State): nat {
    match s.phase
    case Truncated => 1
    case Ready(i) => 3 * i + 2
    case Tested(i) => 3 * i + 3
    case Written(i) => 3 * i + 4
    case _ => 0
  }

  /** A reading as it is stored: failures count as zero. */
  predicate Stores(c: Option<nat>, reading: int) {
    c.Some? && c.value == if reading > 0 then reading else 0
  }

  /** Cell i shows the results of its own test in the patrol p: its voltage, and its resistance if that was
      queried, else the one it had before; it was queried iff the deadline had passed at this turn of the loop
      or the cell lies beyond those found at start-up. */
  ghost predicate ShowsTest(cells: seq<Cell>, p: seq<Event>, before: State, i: nat)
    requires i < |cells| && i < |before.cells|
  {
    && 3 * i + 2 < |p| && p[3 * i + 2].Test?
    && Stores(cells[i].voltage, p[3 * i + 2].voltage)
    && (if p[3 * i + 2].resistance.Some? then Stores(cells[i].resistance, p[3 * i + 2].resistance.value)
        else cells[i].resistance == before.cells[i].resistance)
    && (p[3 * i + 2].resistance.Some? <==> before.tNow >= before.tResistance || i >= before.oldCount)
  }

  ghost predicate ShowsFinish(cells: seq<Cell>, p: seq<Event>, i: nat)
    requires i < |cells|
  {
    && 3 * i + 4 < |p| && p[3 * i + 3].Append? && p[3 * i + 4].Finish?
    && Stores(cells[i].temperature, p[3 * i + 4].temperature)
    && Stores(cells[i].capacity, p[3 * i + 4].capacity)
  }

  /** p is the patrol under way, begun in the state `before`. */
  ghost predicate Underway(s: State, p: seq<Event>, before: State)
    requires |s.cells| == |before.cells| == SLOTS
  {
    && |p| == StepsDone(s) > 0 && p[0].Begin? && (|p| > 1 ==> p[1].WriteHeader?)
    && Done(s) <= SLOTS && Finished(s) <= SLOTS
    && s.tNow == before.tNow && s.oldCount == before.oldCount && s.total == before.total && s.starts != []
    && (Due(s) <==> before.tNow >= before.tResistance)
    && (forall i :: 0 <= i < Done(s) ==> ShowsTest(s.cells, p, before, i))
    && (forall i :: 0 <= i < Finished(s) ==> ShowsFinish(s.cells, p, i))
    && (s.phase.Written? ==> p[3 * s.phase.i + 3].Append?)
    && (forall i :: Done(s) <= i < SLOTS ==> s.cells[i].resistance == before.cells[i].resistance)
  }

  /** The deadlines the patrol p has set, in memory and on file: the next patrol ten minutes after this one
      began; the next resistance test a day after that of the last cell, if it was tested; and on file a day
      after the header, come what may. */
  ghost predicate Deadlines(s: State, p: seq<Event>, before: State) {
    && |p| == StepsDone(s) > 0 && p[0].Begin? && s.tVoltage == p[0].t + 600 && s.total == before.total > 0
    && (|p| > 1 ==>
          && p[1].WriteHeader? && s.image.Header?
          && (s.image.total, s.image.tVol, s.image.tRes) == (s.total, p[0].t + 600, p[1].t + 86400))
    && s.tResistance ==
       if Done(s) == s.total && 3 * s.total <= |p| && p[3 * s.total - 1].Test? && p[3 * s.total - 1].resistance.Some?
       then p[3 * s.total - 1].t + 86400 else before.tResistance
  }

  lemma UnderwayTest(s: State, p: seq<Event>, before: State, e: Event)
    requires CycleInv(s) && Enabled(s, e) && e.Test? && |before.cells| == SLOTS && Underway(s, p, before)
    ensures |Step(s, e).cells| == SLOTS && Underway(Step(s, e), p + [e], before)
  {
    hide FileFaithful, MemoryFaithful, PackOk, Carried, IsRange, SumVoltages, IsReading, ImageShape;
    var s', p' := Step(s, e), p + [e];
    forall i | 0 <= i < Done(s') ensures ShowsTest(s'.cells, p', before, i) {
      assert i < Done(s) ==> ShowsTest(s.cells, p, before, i);
    }
    forall i | 0 <= i < Finished(s') ensures ShowsFinish(s'.cells, p', i) {
      assert ShowsFinish(s.cells, p, i);
    }
  }

  lemma UnderwayFinish(s: State, p: seq<Event>, before: State, e: Event)
    requires CycleInv(s) && Enabled(s, e) && e.Finish? && |before.cells| == SLOTS && Underway(s, p, before)
    ensures |Step(s, e).cells| == SLOTS && Underway(Step(s, e), p + [e], before)
  {
    hide FileFaithful, MemoryFaithful, PatrolSoFar, PackOk, Carried, IsReading, ImageShape;
    var s', p' := Step(s, e), p + [e];
    forall i | 0 <= i < Done(s') ensures ShowsTest(s'.cells, p', before, i) {
      assert ShowsTest(s.cells, p, before, i);
    }
    forall i | 0 <= i < Finished(s') ensures ShowsFinish(s'.cells, p', i) {
      assert i < Finished(s) ==> ShowsFinish(s.cells, p, i);
    }
  }

  /** The writing steps leave the cells alone. */
  lemma UnderwayWrite(s: State, p: seq<Event>, before: State, e: Event)
    requires CycleInv(s) && Enabled(s, e) && |before.cells| == SLOTS && Underway(s, p, before)
    requires e.WriteHeader? || e.Append?
    ensures |Step(s, e).cells| == SLOTS && Underway(Step(s, e), p + [e], before)
  {
    hide FileFaithful, MemoryFaithful, PatrolSoFar, PackOk, Carried, ImageShape, HeaderText, FieldText, Stores;
    var s', p' := Step(s, e), p + [e];
    forall i | 0 <= i < Done(s') ensures ShowsTest(s'.cells, p', before, i) {
      assert ShowsTest(s.cells, p, before, i);
    }
    forall i | 0 <= i < Finished(s') ensures ShowsFinish(s'.cells, p', i) {
      assert ShowsFinish(s.cells, p, i);
    }
  }

  lemma UnderwayStep(s: State, p: seq<Event>, before: State, e: Event)
    requires CycleInv(s) && Enabled(s, e) && |before.cells| == SLOTS && Underway(s, p, before)
    requires e.WriteHeader? || e.Test? || e.Append? || e.Finish?
    ensures |Step(s, e).cells| == SLOTS && Underway(Step(s, e), p + [e], before)
  {
    hide CycleInv, Enabled, Step, Underway;
    match e
    case Test(_, _, _) => UnderwayTest(s, p, before, e);
    case Finish(_, _) => UnderwayFinish(s, p, before, e);
    case _ => UnderwayWrite(s, p, before, e);
  }

  lemma DeadlinesStep(s: State, p: seq<Event>, before: State, e: Event)
    requires CycleInv(s) && Enabled(s, e) && Deadlines(s, p, before)
    requires e.WriteHeader? || e.Test? || e.Append? || e.Finish?
    ensures Deadlines(Step(s, e), p + [e], before)
  {
    hide FileFaithful, MemoryFaithful, PatrolSoFar, PackOk, Carried, ImageShape, HeaderText, FieldText, IsReading;
    var p' := p + [e];
    assert forall k :: 0 <= k < |p| ==> p'[k] == p[k];
  }

  /** Every patrol under way is the tail of its run. */
  lemma {:induction false} TailIsPatrol(es: seq<Event>) returns (from: nat)
    requires ValidRun(Initial(), es) && InPatrol(Play(Initial(), es))
    ensures from <= |es| && ValidRun(Initial(), es[..from]) && Play(Initial(), es[..from]).phase.Idle?
    ensures |Play(Initial(), es).cells| == |Play(Initial(), es[..from]).cells| == SLOTS
    ensures Underway(Play(Initial(), es), es[from..], Play(Initial(), es[..from]))
    ensures Deadlines(Play(Initial(), es), es[from..], Play(Initial(), es[..from]))
    decreases |es|
  {
    hide CycleInv, Underway, Deadlines, Enabled, Step;
    var n := |es| - 1;
    var init, e := es[..n], es[n];
    assert es == init + [e];
    RunLast(init, e);
    Reached(init);
    var s := Play(Initial(), init);
    CellCount(s);
    LastStep(s, e);
    if e.Begin? {
      from := n;
      assert es[n..] == [e];
      BeginUnderway(s, e.t);
    } else {
      from := TailIsPatrol(init);
      assert es[..from] == init[..from] && es[from..] == init[from..] + [e];
      UnderwayStep(s, init[from..], Play(Initial(), init[..from]), e);
      DeadlinesStep(s, init[from..], Play(Initial(), init[..from]), e);
    }
  }

  lemma CellCount(s: State)
    requires CycleInv(s)
    ensures |s.cells| == SLOTS && (s.phase.Idle? ==> s.total > 0)
  {
  }

  lemma LastStep(s: State, e: Event)
    requires Enabled(s, e) && InPatrol(Step(s, e))
    ensures if e.Begin? then s.phase.Idle?
            else InPatrol(s) && (e.WriteHeader? || e.Test? || e.Append? || e.Finish?)
  {
  }

  lemma BeginUnderway(s: State, t: nat)
    requires Enabled(s, Begin(t)) && |s.cells| == SLOTS && s.total > 0
    ensures |Step(s, Begin(t)).cells| == SLOTS && Underway(Step(s, Begin(t)), [Begin(t)], s)
    ensures Deadlines(Step(s, Begin(t)), [Begin(t)], s)
  {
  }

  /** The deadlines after the patrol p: voltages ten minutes after it began; resistances a day after the test of
      the last cell if that was queried, else as before; and on file a day after the header was written. */
  ghost predicate SetsDeadlines(s: State, p: seq<Event>, before: State) {
    && |p| >= 3 * s.total >= 3 && p[0].Begin? && p[1].WriteHeader? && p[3 * s.total - 1].Test?
    && s.tVoltage == p[0].t + 600
    && s.tResistance == (if p[3 * s.total - 1].resistance.Some? then p[3 * s.total - 1].t + 86400
                         else before.tResistance)
    && s.image.Header?
    && (s.image.total, s.image.tVol, s.image.tRes) == (s.total, p[0].t + 600, p[1].t + 86400)
  }

  /** Every run that ends in a publication ends in one whole patrol, and each published cell shows the results
      of its own test and finish in that patrol: every positive reading as it is, every failure as zero. Its
      resistance was queried iff the deadline had passed at this turn of the loop or the cell lies beyond
      those found at start-up; else it is the one the cell had when the patrol began. The date is the loop
      time of this turn. The deadlines follow from the clock readings of that patrol. */
  lemma PublishedIsMeasured(es: seq<Event>) returns (from: nat)
    requires ValidRun(Initial(), es + [Publish])
    ensures from <= |es| && ValidRun(Initial(), es[..from])
    ensures var s, before := Play(Initial(), es + [Publish]), Play(Initial(), es[..from]);
            var p := es[from..] + [Publish];
            && s.published.Some? && |s.published.value.cells| == s.total == before.total <= |before.cells|
            && s.published.value.date == before.tNow && PatrolEvents(p, s.total)
            && forall i :: 0 <= i < s.total ==>
                 && ShowsTest(s.published.value.cells, p, before, i)
                 && ShowsFinish(s.published.value.cells, p, i)
    ensures SetsDeadlines(Play(Initial(), es + [Publish]), es[from..] + [Publish], Play(Initial(), es[..from]))
  {
    hide CycleInv, Underway, Deadlines, ShowsTest, ShowsFinish, PatrolEvents, SetsDeadlines, Enabled;
    RunLast(es, Publish);
    from := TailIsPatrol(es);
    var s, p, before := Play(Initial(), es), es[from..], Play(Initial(), es[..from]);
    PatrolShown(s, p, before);
    DeadlinesShown(s, p, before);
    DeadlinesKept(s, p + [Publish], before);
  }

  lemma PatrolShown(s: State, p: seq<Event>, before: State)
    requires |s.cells| == |before.cells| == SLOTS && Underway(s, p, before) && Enabled(s, Publish)
    ensures PatrolEvents(p + [Publish], s.total) && s.total == before.total && s.tNow == before.tNow
    ensures forall i :: 0 <= i < s.total ==>
              && ShowsTest(s.cells[..s.total], p + [Publish], before, i)
              && ShowsFinish(s.cells[..s.total], p + [Publish], i)
  {
    hide Stores;
    var q := p + [Publish];
    forall i | 0 <= i < s.total
      ensures q[3 * i + 2].Test? && q[3 * i + 3].Append? && q[3 * i + 4].Finish?
      ensures ShowsTest(s.cells[..s.total], q, before, i) && ShowsFinish(s.cells[..s.total], q, i)
    {
      assert ShowsTest(s.cells, p, before, i) && ShowsFinish(s.cells, p, i);
    }
  }

  lemma DeadlinesKept(s: State, p: seq<Event>, before: State)
    requires Enabled(s, Publish) && SetsDeadlines(s, p, before)
    ensures SetsDeadlines(DoPublish(s), p, before)
  {
  }

  lemma DeadlinesShown(s: State, p: seq<Event>, before: State)
    requires Deadlines(s, p, before) && Enabled(s, Publish) && PatrolEvents(p + [Publish], s.total)
    ensures SetsDeadlines(s, p + [Publish], before)
  {
    var q := p + [Publish];
    assert forall k :: 0 <= k < |p| ==> q[k] == p[k];
    assert q[3 * (s.total - 1) + 2].Test?;
  }

  // ---- What is on file, by events alone ----

  /** The cell at hand after these events. */
  function CellAtHand(es: seq<Event>): nat {
    if es == [] then 0
    else
      match es[|es| - 1]
      case Begin(_) => 0
      case Finish(_, _) => CellAtHand(es[..|es| - 1]) + 1
      case _ => CellAtHand(es[..|es| - 1])
  }

  /** The result carried by the last event that queried the resistance of cell j. */
  function LastResult(es: seq<Event>, j: nat): Option<int> {
    if es == [] then None
    else
      var init, e := es[..|es| - 1], es[|es| - 1];
      if e.Test? && e.resistance.Some? && CellAtHand(init) == j then e.resistance else LastResult(init, j)
  }

  ghost predicate ByEvents(s: State, es: seq<Event>)
    requires |s.recorded| == SLOTS
  {
    && (s.phase.Ready? || s.phase.Tested? || s.phase.Written? ==> s.phase.i == CellAtHand(es))
    && (s.phase.Truncated? ==> CellAtHand(es) == 0)
    && forall j :: 0 <= j < SLOTS ==>
         match LastResult(es, j)
         case None => s.recorded[j].None?
         case Some(r) => s.recorded[j].Some? && s.recorded[j].value.value == if r > 0 then r else 0
  }

  lemma ByEventsStep(s: State, es: seq<Event>, e: Event)
    requires CycleInv(s) && Enabled(s, e) && ByEvents(s, es)
    ensures |Step(s, e).recorded| == SLOTS && ByEvents(Step(s, e), es + [e])
  {
    hide FileFaithful, MemoryFaithful, PatrolSoFar, PackOk, Carried, ImageShape, IsReading, Load;
    assert (es + [e])[..|es|] == es;
  }

  lemma {:induction false} RunByEvents(es: seq<Event>)
    requires ValidRun(Initial(), es)
    ensures CycleInv(Play(Initial(), es)) && |Play(Initial(), es).recorded| == SLOTS
    ensures ByEvents(Play(Initial(), es), es)
    decreases |es|
  {
    Reached(es);
    if es != [] {
      var n := |es| - 1;
      assert es == es[..n] + [es[n]];
      RunLast(es[..n], es[n]);
      RunByEvents(es[..n]);
      hide CycleInv, ByEvents, Enabled, Step;
      ByEventsStep(Play(Initial(), es[..n]), es[..n], es[n]);
    }
  }

  /** Crash safety in terms of what the cells answered: after any run with crashes and restarts, each field on
      file lies within half a hundredth of the result of the last event of the run that queried its cell, or
      is zero if that failed. */
  lemma FileShowsLastResults(es: seq<Event>, j: nat)
    requires ValidRun(Initial(), es)
    requires var m := Play(Initial(), es).image; m.Header? && j < |m.fields|
    ensures LastResult(es, j).Some?
    ensures var r := LastResult(es, j).value;
            -5 <= 10 * Play(Initial(), es).image.fields[j] - (if r > 0 then r else 0) <= 5
  {
    RunByEvents(es);
    CheckpointFaithful(es);
    var s := Play(Initial(), es);
    assert Recorded(s, j, s.image.fields[j]);
    RenderingIsStable(s.recorded[j].value.value);
  }
}
