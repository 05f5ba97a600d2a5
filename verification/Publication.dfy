/** The link between the patrol thread's pack and the words of the shared struct. */
module Publication {
  import Basics
  import Layout
  import Patrol
  import PatrolCycle
  import SharedPack
  import SharedSafety

  function Field(c: Patrol.Cell, f: nat): int {
    var v := if f == 0 then c.voltage else if f == 1 then c.temperature
             else if f == 2 then c.resistance else c.capacity;
    if v.Some? then v.value else 0
  }

  /** The struct layout: date, total, current, then four words per slot. The current is filled in under the
      lock; slots beyond the cells are arbitrary and shown as zero. */
  function Words(p: Patrol.Pack): (w: seq<int>)
    requires |p.cells| <= Basics.SLOTS
    ensures |w| == Layout.WORDS
  {
    seq(Layout.WORDS, k requires 0 <= k < Layout.WORDS =>
      if k == Layout.DATE then p.date
      else if k == Layout.TOTAL then p.totalVoltage
      else if k == Layout.CURRENT then 0
      else if (k - 3) / 4 < |p.cells| then Field(p.cells[(k - 3) / 4], (k - 3) % 4)
      else 0)
  }

  lemma {:induction false} SumsAgree(cells: seq<Patrol.Cell>, v: seq<int>)
    requires |v| == |cells| && forall i :: 0 <= i < |v| ==> v[i] == PatrolCycle.Volts(cells[i])
    ensures SharedSafety.SumOf(v) == PatrolCycle.SumVoltages(cells)
  {
    if v != [] {
      SumsAgree(cells[..|v| - 1], v[..|v| - 1]);
    }
  }

  lemma WordsBalanced(p: Patrol.Pack)
    requires |p.cells| <= Basics.SLOTS && PatrolCycle.PackOk(p, |p.cells|)
    ensures SharedSafety.Balanced(Words(p), |p.cells|)
    ensures forall i :: 0 <= i < |p.cells| ==> Words(p)[Layout.VoltageAt(i)] == PatrolCycle.Volts(p.cells[i])
  {
    var v := Layout.VoltsOf(Words(p), |p.cells|);
    forall i | 0 <= i < |p.cells| ensures Words(p)[Layout.VoltageAt(i)] == PatrolCycle.Volts(p.cells[i]) {
      assert (Layout.VoltageAt(i) - 3) / 4 == i && (Layout.VoltageAt(i) - 3) % 4 == 0;
    }
    SumsAgree(p.cells, v);
  }

  /** Every pack the patrol thread publishes, in any run with crashes and restarts, has a total word equal to
      the sum of its voltage words, all of which are non-negative. */
  lemma PublishedPackBalanced(es: seq<Patrol.Event>)
    requires Patrol.ValidRun(Patrol.Initial(), es + [Patrol.Publish])
    ensures var p := Patrol.Play(Patrol.Initial(), es + [Patrol.Publish]).published;
            && p.Some? && |p.value.cells| <= Basics.SLOTS
            && SharedSafety.Balanced(Words(p.value), |p.value.cells|)
            && forall i :: 0 <= i < |p.value.cells| ==> Words(p.value)[Layout.VoltageAt(i)] >= 0
  {
    PatrolCycle.PublicationIsSound(es);
    PatrolCycle.Reached(es);
    var s := Patrol.Play(Patrol.Initial(), es);
    CellsInRange(s);
    WordsBalanced(Patrol.Pack(s.cells[..s.total], s.sum, s.tNow));
  }

  lemma CellsInRange(s: Patrol.State)
    requires PatrolCycle.CycleInv(s) && s.total <= |s.cells|
    ensures s.total <= Basics.SLOTS
  {
  }

  // ---- A patrol run and an interleaving together ----

  ghost predicate Publishes(run: seq<Patrol.Event>, m: nat) {
    Patrol.ValidRun(Patrol.Initial(), run) && m < |run| && run[m].Publish?
  }

  /** The pack published by the m-th event of a run. */
  ghost function PackAt(run: seq<Patrol.Event>, m: nat): (p: Patrol.Pack)
    requires Publishes(run, m)
    ensures |p.cells| <= Basics.SLOTS && PatrolCycle.PackOk(p, |p.cells|)
  {
    var es := run[..m];
    assert es + [Patrol.Publish] == run[..m + 1] && run == run[..m + 1] + run[m + 1..];
    PatrolCycle.PrefixValid(Patrol.Initial(), run[..m + 1], run[m + 1..]);
    PublishedPackBalanced(es);
    PatrolCycle.PublicationIsSound(es);
    Patrol.Play(Patrol.Initial(), es + [Patrol.Publish]).published.value
  }

  /** These words carry the pack: date, total and the four words of every cell. The current and the slots
      beyond the cells are whatever the local struct holds. */
  ghost predicate Carries(pack: seq<int>, p: Patrol.Pack) {
    && |pack| == Layout.WORDS && |p.cells| <= Basics.SLOTS
    && forall k :: 0 <= k < Layout.VoltageAt(|p.cells|) && k != Layout.CURRENT ==> pack[k] == Words(p)[k]
  }

  /** The words of some publication of the run, of n cells. */
  ghost predicate FromRun(run: seq<Patrol.Event>, n: nat, pack: seq<int>) {
    exists m: nat :: Publishes(run, m) && |PackAt(run, m).cells| == n && Carries(pack, PackAt(run, m))
  }

  /** The patrol thread of the interleaving publishes what the patrol run publishes. */
  ghost predicate Together(run: seq<Patrol.Event>, n: nat, inter: seq<SharedPack.Event>) {
    forall k :: 0 <= k < |inter| && inter[k].PackReady? ==> FromRun(run, n, inter[k].pack)
  }

  ghost predicate AllFromRun(run: seq<Patrol.Event>, s: SharedPack.State) {
    && (forall p :: 1 <= p < |s.packs| ==> FromRun(run, s.n, s.packs[p]))
    && (s.patrol.WantPublish? || s.patrol.Locked? || s.patrol.Copying? ==> FromRun(run, s.n, s.patrol.pack))
  }

  lemma OtherCurrent(run: seq<Patrol.Event>, n: nat, pack: seq<int>, c: int)
    requires FromRun(run, n, pack) && |pack| == Layout.WORDS
    ensures FromRun(run, n, pack[Layout.CURRENT := c])
  {
    var m: nat :| Publishes(run, m) && |PackAt(run, m).cells| == n && Carries(pack, PackAt(run, m));
    hide PackAt, Words, Publishes;
    assert Carries(pack[Layout.CURRENT := c], PackAt(run, m));
  }

  lemma StepFromRun(run: seq<Patrol.Event>, s: SharedPack.State, e: SharedPack.Event)
    requires SharedPack.Enabled(s, e) && AllFromRun(run, s) && (e.PackReady? ==> FromRun(run, s.n, e.pack))
    ensures AllFromRun(run, SharedPack.Step(s, e))
  {
    hide FromRun, Layout.VoltsOf;
    if e.TakeCurrent? {
      OtherCurrent(run, s.n, s.patrol.pack, s.mem[Layout.CURRENT]);
    }
  }

  lemma {:induction false} RunFromRun(run: seq<Patrol.Event>, s: SharedPack.State, es: seq<SharedPack.Event>)
    requires SharedPack.ValidRun(s, es) && AllFromRun(run, s) && Together(run, s.n, es)
    ensures AllFromRun(run, SharedPack.Play(s, es))
    decreases |es|
  {
    if es != [] {
      hide FromRun;
      StepFromRun(run, s, es[0]);
      SharedSafety.StepKeepsCells(s, es[0]);
      hide AllFromRun, SharedPack.Step, SharedPack.Enabled;
      RunFromRun(run, SharedPack.Step(s, es[0]), es[1..]);
    }
  }

  /** Word k shows the pack: its date, the sum of its voltages, or the temperature, resistance or capacity of
      one of its cells. Voltages and the current are not judged. */
  ghost predicate WordShows(p: Patrol.Pack, k: nat, word: int) {
    && (k == 0 ==> word == p.date)
    && (k == 1 ==> word == PatrolCycle.SumVoltages(p.cells))
    && (3 <= k < 3 + 4 * |p.cells| ==>
          var c := p.cells[(k - 3) / 4];
          && ((k - 3) % 4 == 1 ==> c.temperature == Basics.Some(word))
          && ((k - 3) % 4 == 2 ==> c.resistance == Basics.Some(word))
          && ((k - 3) % 4 == 3 ==> c.capacity == Basics.Some(word)))
  }

  /** The answer shows the publication m of the patrol run in every word, up to the voltages, which balancing
      may have replaced since, and the current. */
  ghost predicate Shows(run: seq<Patrol.Event>, n: nat, r: SharedPack.Reply, m: nat) {
    && Publishes(run, m) && |PackAt(run, m).cells| == n && r.lo <= r.hi <= 243 && |r.words| == r.hi - r.lo
    && forall d :: 0 <= d < |r.words| ==> WordShows(PackAt(run, m), r.lo + d, r.words[d])
  }

  /** A patrol run and an interleaving that publishes its packs: under every interleaving each answer shows one
      single publication of the patrol run, temperatures, resistances, capacities and date word for word, with
      the total of that patrol's voltages, whatever balancing has written since; or it precedes the first
      publication. */
  lemma AnswersShowPatrols(run: seq<Patrol.Event>, n: nat, inter: seq<SharedPack.Event>, j: nat)
    requires 1 <= n <= Basics.SLOTS && SharedPack.ValidRun(SharedPack.Initial(n), inter) && Together(run, n, inter)
    requires j < |SharedPack.Play(SharedPack.Initial(n), inter).replies|
    ensures var s := SharedPack.Play(SharedPack.Initial(n), inter);
            var r := s.replies[j];
            r.at < |s.stamps| && (s.stamps[r.at].pack == 0 || exists m: nat :: Shows(run, n, r, m))
  {
    SharedSafety.SnapshotOfState(n, inter, j);
    SharedSafety.SameCells(SharedPack.Initial(n), inter);
    RunFromRun(run, SharedPack.Initial(n), inter);
    var s := SharedPack.Play(SharedPack.Initial(n), inter);
    var r := s.replies[j];
    var st := s.stamps[r.at];
    if st.pack > 0 {
      ShowsPack(run, s, r, st);
    }
  }

  lemma PackWords(p: Patrol.Pack, k: nat)
    requires |p.cells| <= Basics.SLOTS && PatrolCycle.PackOk(p, |p.cells|) && k < 243
    ensures WordShows(p, k, Words(p)[k])
  {
    hide PatrolCycle.SumVoltages;
    if 3 <= k < 3 + 4 * |p.cells| {
      assert PatrolCycle.Complete(p.cells[(k - 3) / 4]);
    }
  }

  lemma ShowsPack(run: seq<Patrol.Event>, s: SharedPack.State, r: SharedPack.Reply, st: SharedPack.Stamp)
    requires st.pack < |s.packs| && |s.packs[st.pack]| == Layout.WORDS && FromRun(run, s.n, s.packs[st.pack])
    requires st.sweep < |s.sweeps| && st.current < |s.currents|
    requires r.lo <= r.hi <= Layout.WORDS && |r.words| == r.hi - r.lo
    requires forall k :: r.lo <= k < r.hi ==> r.words[k - r.lo] == SharedSafety.WordOf(s, st, k)
    ensures exists m: nat :: Shows(run, s.n, r, m)
  {
    var pack := s.packs[st.pack];
    var m: nat :| Publishes(run, m) && |PackAt(run, m).cells| == s.n && Carries(pack, PackAt(run, m));
    hide PackAt, Publishes, PatrolCycle.PackOk, Words, WordShows;
    forall d | 0 <= d < |r.words| ensures WordShows(PackAt(run, m), r.lo + d, r.words[d]) {
      var k := r.lo + d;
      assert r.words[k - r.lo] == SharedSafety.WordOf(s, st, k);
      PackWords(PackAt(run, m), k);
      NotJudged(PackAt(run, m), k, Words(PackAt(run, m))[k], r.words[d]);
    }
    assert Shows(run, s.n, r, m);
  }

  lemma NotJudged(p: Patrol.Pack, k: nat, word: int, other: int)
    requires WordShows(p, k, word)
    requires word == other || k == 2 || k >= 3 + 4 * |p.cells| || (k >= 3 && (k - 3) % 4 == 0)
    ensures WordShows(p, k, other)
  {
  }
}
