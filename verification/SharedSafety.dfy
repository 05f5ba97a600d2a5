/** Safety of the shared struct over every interleaving. */
module SharedSafety {
  import opened Basics
  import opened Layout
  import opened Network
  import opened SharedPack

  /** Steps that neither write the struct nor record anything. */
  lemma QuietStep(s: State, e: Event)
    requires Inv(s) && Enabled(s, e)
    requires e.PackReady? || e.WriteDone? || e.SweepReady? || e.SampleReady?
    ensures Inv(Step(s, e))
  {
    hide Assemble, Dispatch, StampOk, Buffer, PrefixRight, VoltsOf, Commit;
    StampsKept(s, Step(s, e));
  }

  lemma RequestStep(s: State, id: nat, received: seq<bv8>)
    requires Inv(s) && Enabled(s, Request(id, received))
    ensures Inv(Step(s, Request(id, received)))
  {
    hide Assemble, Dispatch, Memory, StampOk;
    var s' := Step(s, Request(id, received));
    SameMemory(s, s');
    StampsKept(s, s');
  }

  lemma SameMemory(s: State, s': State)
    requires Sizes(s) && Sizes(s') && Memory(s) && s' == s.(clients := s'.clients)
    ensures Memory(s')
  {
  }

  lemma LockStep(s: State, e: Event)
    requires Inv(s) && Enabled(s, e)
    requires e.PatrolLock? || e.BalanceLock? || e.SensorLock? || e.ClientLock?
    ensures Inv(Step(s, e))
  {
    hide Assemble;
    var s' := Step(s, e);
    StampsKept(s, s');
    if e.BalanceLock? {
      assert s.patrol.volts[..0] + Last(s.sweeps)[0..] == Last(s.sweeps);
    }
  }

  /** The patrol thread takes over the stored current inside its critical section, so its copy puts back what
      is already there. */
  lemma TakeCurrentStep(s: State)
    requires Inv(s) && Enabled(s, TakeCurrent)
    ensures Inv(Step(s, TakeCurrent))
  {
    var s' := Step(s, TakeCurrent);
    AssembleOwn(Last(s.packs), s.n);
    assert s'.patrol.pack[..0] + Base(s)[0..] == Base(s);
    StampsKept(s, s');
  }

  lemma CopyWordStep(s: State)
    requires Inv(s) && Enabled(s, CopyWord)
    ensures Inv(Step(s, CopyWord))
  {
    hide Assemble;
    var s' := Step(s, CopyWord);
    var k, b := s.patrol.k, Base(s);
    assert s.mem[k := s.patrol.pack[k]] == s.patrol.pack[..k + 1] + b[k + 1..];
    StampsKept(s, s');
  }

  lemma StampsKept(s: State, s': State)
    requires Sizes(s) && Sizes(s') && |s.images| == |s.stamps| && |s'.images| == |s'.stamps|
    requires s.packs <= s'.packs && s.sweeps <= s'.sweeps && s.currents <= s'.currents
    requires s.images <= s'.images && s.stamps <= s'.stamps
    requires forall j :: 0 <= j < |s.images| ==> StampOk(s, j)
    ensures forall j :: 0 <= j < |s.images| ==> StampOk(s', j)
  {
    hide Assemble, Sizes;
    forall j | 0 <= j < |s.images| ensures StampOk(s', j) {
      assert StampOk(s, j);
    }
  }

  lemma NewStamp(s: State)
    requires Sizes(s) && |s.images| == |s.stamps| > 0 && Last(s.stamps) == Here(s) && Last(s.images) == Base(s)
    ensures StampOk(s, |s.images| - 1)
  {
  }

  lemma PatrolUnlockStep(s: State)
    requires Inv(s) && Enabled(s, PatrolUnlock)
    ensures Inv(Step(s, PatrolUnlock))
  {
    hide Assemble;
    var s' := Step(s, PatrolUnlock);
    var pack := s.patrol.pack;
    assert pack[..WORDS] + Base(s)[WORDS..] == pack;
    AssembleOwn(pack, s.n);
    StampsKept(s, s');
    NewStamp(s');
    hide StampOk;
  }

  /** During the database write memory is the published pack, up to the current. */
  lemma WritingMemory(s: State, k: nat)
    requires Sizes(s) && Memory(s) && s.patrol.Writing? && k < WORDS
    ensures k != CURRENT ==> s.mem[k] == s.patrol.pack[k]
    ensures s.mem[CURRENT] == Last(s.currents) && s.mem[CURRENT] in s.currents[s.patrol.since..]
  {
    var pack := s.patrol.pack;
    AssembleCurrent(pack, VoltsOf(pack, s.n), pack[CURRENT], Last(s.currents));
    AssembleOwn(pack, s.n);
    assert s.mem == pack[CURRENT := Last(s.currents)];
    var newer := s.currents[s.patrol.since..];
    assert newer[|newer| - 1] == Last(s.currents);
  }

  lemma ReadWordStep(s: State, k: nat)
    requires Inv(s) && Enabled(s, ReadWord(k))
    ensures Inv(Step(s, ReadWord(k)))
  {
    hide Assemble, VoltsOf;
    WritingMemory(s, k);
    StampsKept(s, Step(s, ReadWord(k)));
  }

  lemma StoreVoltageStep(s: State)
    requires Inv(s) && Enabled(s, StoreVoltage)
    ensures Inv(Step(s, StoreVoltage))
  {
    hide Assemble;
    var s' := Step(s, StoreVoltage);
    var k, v, w := s.patrol.k, s.patrol.volts, Last(s.sweeps);
    AssembleVoltage(Last(s.packs), v[..k] + w[k..], Last(s.currents), k, v[k]);
    assert (v[..k] + w[k..])[k := v[k]] == v[..k + 1] + w[k + 1..];
    StampsKept(s, s');
  }

  lemma BalanceUnlockStep(s: State)
    requires Inv(s) && Enabled(s, BalanceUnlock)
    ensures Inv(Step(s, BalanceUnlock))
  {
    hide Assemble;
    var s' := Step(s, BalanceUnlock);
    var v, w := s.patrol.volts, Last(s.sweeps);
    assert v[..s.n] + w[s.n..] == v;
    StampsKept(s, s');
    NewStamp(s');
    hide StampOk;
  }

  lemma StoreCurrentStep(s: State)
    requires Inv(s) && Enabled(s, StoreCurrent)
    ensures Inv(Step(s, StoreCurrent))
  {
    hide Assemble;
    var s' := Step(s, StoreCurrent);
    AssembleCurrent(Last(s.packs), Last(s.sweeps), Last(s.currents), s.sensor.current);
    StampsKept(s, s');
    if s.patrol.Writing? {
      assert s'.currents[s.patrol.since..] == s.currents[s.patrol.since..] + [s.sensor.current];
    }
  }

  lemma SensorUnlockStep(s: State)
    requires Inv(s) && Enabled(s, SensorUnlock)
    ensures Inv(Step(s, SensorUnlock))
  {
    hide Assemble;
    var s' := Step(s, SensorUnlock);
    StampsKept(s, s');
    NewStamp(s');
    hide StampOk;
  }

  lemma SendWordStep(s: State, id: nat)
    requires Inv(s) && Enabled(s, SendWord(id))
    ensures Inv(Step(s, SendWord(id)))
  {
    hide Assemble;
    var s' := Step(s, SendWord(id));
    var c := s.clients[id];
    assert s.mem[c.lo..c.lo + |c.buf| + 1] == c.buf + [s.mem[c.lo + |c.buf|]];
    StampsKept(s, s');
  }

  lemma ClientUnlockStep(s: State, id: nat)
    requires Inv(s) && Enabled(s, ClientUnlock(id))
    ensures Inv(Step(s, ClientUnlock(id)))
  {
    hide Assemble;
    var s' := Step(s, ClientUnlock(id));
    StampsKept(s, s');
  }

  lemma StepInv(s: State, e: Event)
    requires Inv(s) && Enabled(s, e)
    ensures Inv(Step(s, e))
  {
    hide Inv, Step;
    match e
    case PatrolLock => LockStep(s, e);
    case BalanceLock => LockStep(s, e);
    case SensorLock => LockStep(s, e);
    case ClientLock(id) => LockStep(s, e);
    case TakeCurrent => TakeCurrentStep(s);
    case CopyWord => CopyWordStep(s);
    case PatrolUnlock => PatrolUnlockStep(s);
    case ReadWord(k) => ReadWordStep(s, k);
    case StoreVoltage => StoreVoltageStep(s);
    case BalanceUnlock => BalanceUnlockStep(s);
    case StoreCurrent => StoreCurrentStep(s);
    case SensorUnlock => SensorUnlockStep(s);
    case SendWord(id) => SendWordStep(s, id);
    case ClientUnlock(id) => ClientUnlockStep(s, id);
    case Request(id, received) => RequestStep(s, id, received);
    case _ => QuietStep(s, e);
  }

  lemma {:induction false} RunInv(s: State, es: seq<Event>)
    requires Inv(s) && ValidRun(s, es)
    ensures Inv(Play(s, es))
    decreases |es|
  {
    hide Inv, Step, Enabled;
    if es != [] {
      StepInv(s, es[0]);
      RunInv(Step(s, es[0]), es[1..]);
    }
  }

  lemma Reached(n: nat, es: seq<Event>)
    requires 1 <= n <= SLOTS && ValidRun(Initial(n), es)
    ensures Inv(Play(Initial(n), es))
  {
    InitialInv(n);
    RunInv(Initial(n), es);
  }

  /** The word a snapshot must show at position k if it consists of one publication, one sweep and one
      current sample. */
  function WordOf(s: State, st: Stamp, k: nat): int
    requires st.pack < |s.packs| && |s.packs[st.pack]| == WORDS
    requires st.sweep < |s.sweeps| && st.current < |s.currents| && k < WORDS
  {
    if k == CURRENT then s.currents[st.current]
    else if IsVoltage(k) && (k - 3) / 4 < |s.sweeps[st.sweep]| then s.sweeps[st.sweep][(k - 3) / 4]
    else s.packs[st.pack][k]
  }

  /** An answer in terms of the histories of the state. */
  lemma SnapshotOfState(n: nat, es: seq<Event>, j: nat)
    requires 1 <= n <= SLOTS && ValidRun(Initial(n), es) && j < |Play(Initial(n), es).replies|
    ensures var s := Play(Initial(n), es);
            var r := s.replies[j];
            && r.at < |s.images| == |s.stamps| && r.lo <= r.hi <= WORDS
            && |s.images[r.at]| == WORDS && r.words == s.images[r.at][r.lo..r.hi]
            && var st := s.stamps[r.at];
            && st.pack < |s.packs| && |s.packs[st.pack]| == WORDS
            && st.sweep < |s.sweeps| && |s.sweeps[st.sweep]| == n && st.current < |s.currents|
            && forall k :: r.lo <= k < r.hi ==> r.words[k - r.lo] == WordOf(s, st, k)
  {
    Reached(n, es);
    SameCells(Initial(n), es);
    var s := Play(Initial(n), es);
    var r := s.replies[j];
    ReplyOk(s, j);
    var st := s.stamps[r.at];
    assert |s.packs[st.pack]| == WORDS && |s.sweeps[st.sweep]| == s.n;
    forall k | r.lo <= k < r.hi ensures r.words[k - r.lo] == WordOf(s, st, k) {
      assert r.words[k - r.lo] == s.images[r.at][k];
    }
  }

  lemma ReplyOk(s: State, j: nat)
    requires Inv(s) && j < |s.replies|
    ensures var r := s.replies[j];
            && r.at < |s.images| == |s.stamps| && r.lo <= r.hi <= |s.images[r.at]|
            && r.words == s.images[r.at][r.lo..r.hi]
            && Sizes(s) && StampOk(s, r.at)
  {
    hide StampOk, Exclusive, Memory;
  }

  lemma {:induction false} SameCells(s: State, es: seq<Event>)
    requires ValidRun(s, es)
    ensures Play(s, es).n == s.n
    decreases |es|
  {
    if es != [] {
      SameCells(Step(s, es[0]), es[1..]);
    }
  }

  // ---- What is stored, by events alone ----

  /** The payload of the last SweepReady, PackReady and SampleReady. */
  function LastSweep(es: seq<Event>): seq<int> {
    if es == [] then [] else
    var e := es[|es| - 1];
    if e.SweepReady? then e.volts else LastSweep(es[..|es| - 1])
  }

  function LastPack(es: seq<Event>): seq<int> {
    if es == [] then [] else
    var e := es[|es| - 1];
    if e.PackReady? then e.pack else LastPack(es[..|es| - 1])
  }

  function LastSample(es: seq<Event>): int {
    if es == [] then 0 else
    var e := es[|es| - 1];
    if e.SampleReady? then e.current else LastSample(es[..|es| - 1])
  }

  /** The packs made ready and published, in order. */
  function PublishedPacks(es: seq<Event>): seq<seq<int>> {
    if es == [] then [] else
    var init := es[..|es| - 1];
    PublishedPacks(init) + if es[|es| - 1].PatrolUnlock? then [LastPack(init)] else []
  }

  /** The voltages stored: of each publication those of its pack, word 3 + 4 * i for the i-th cell, and of each
      balancing pass those it was made ready with. */
  function StoredSweeps(es: seq<Event>, n: nat): seq<seq<int>> {
    if es == [] then [] else
    var init := es[..|es| - 1];
    StoredSweeps(init, n)
      + if es[|es| - 1].PatrolUnlock? then [CellVoltages(LastPack(init), n)]
        else if es[|es| - 1].BalanceUnlock? then [LastSweep(init)]
        else []
  }

  function CellVoltages(pack: seq<int>, n: nat): seq<int> {
    seq(n, i requires 0 <= i < n => if 3 + 4 * i < |pack| then pack[3 + 4 * i] else 0)
  }

  /** The current samples stored. */
  function StoredSamples(es: seq<Event>): seq<int> {
    if es == [] then [] else
    var init := es[..|es| - 1];
    StoredSamples(init) + if es[|es| - 1].StoreCurrent? then [LastSample(init)] else []
  }

  /** Two packs that agree but for the current. */
  ghost predicate SamePack(a: seq<int>, b: seq<int>) {
    |a| == |b| == 243 && forall k :: 0 <= k < 243 && k != 2 ==> a[k] == b[k]
  }

  /** The histories are what the events brought. */
  ghost predicate ByEvents(s: State, es: seq<Event>) {
    && |s.packs| == 1 + |PublishedPacks(es)|
    && (forall p :: 0 <= p < |PublishedPacks(es)| ==> SamePack(s.packs[p + 1], PublishedPacks(es)[p]))
    && s.sweeps == [Zeros(s.n)] + StoredSweeps(es, s.n)
    && s.currents == [0] + StoredSamples(es)
  }

  /** What the threads have in hand is what they were given last. */
  ghost predicate InHand(s: State, es: seq<Event>) {
    && (match s.patrol
        case WantPublish(pack) => SamePack(pack, LastPack(es))
        case Locked(pack) => SamePack(pack, LastPack(es))
        case Copying(pack, k) => SamePack(pack, LastPack(es))
        case WantBalance(volts) => volts == LastSweep(es)
        case Storing(volts, k) => volts == LastSweep(es)
        case _ => true)
    && (match s.sensor
        case WantStore(c) => c == LastSample(es)
        case Holding(c) => c == LastSample(es)
        case _ => true)
  }

  lemma HandStep(s: State, es: seq<Event>, e: Event)
    requires Inv(s) && Enabled(s, e) && InHand(s, es)
    ensures InHand(Step(s, e), es + [e])
  {
    hide Exclusive, Memory, Images, Replies, Dispatch, Assemble, VoltsOf, LastSweep, LastPack, LastSample;
    LastsAppend(es, e);
  }

  lemma LastsAppend(es: seq<Event>, e: Event)
    ensures LastSweep(es + [e]) == if e.SweepReady? then e.volts else LastSweep(es)
    ensures LastPack(es + [e]) == if e.PackReady? then e.pack else LastPack(es)
    ensures LastSample(es + [e]) == if e.SampleReady? then e.current else LastSample(es)
  {
    assert (es + [e])[..|es|] == es;
  }

  lemma SameVoltages(a: seq<int>, b: seq<int>, n: nat)
    requires SamePack(a, b) && n <= SLOTS
    ensures VoltsOf(a, n) == CellVoltages(b, n)
  {
  }

  lemma EventsStep(s: State, es: seq<Event>, e: Event)
    requires Inv(s) && Enabled(s, e) && InHand(s, es) && ByEvents(s, es)
    ensures ByEvents(Step(s, e), es + [e])
  {
    hide Exclusive, Memory, Images, Replies, Dispatch, Assemble, VoltsOf, CellVoltages, SamePack, Buffer, PrefixRight;
    assert (es + [e])[..|es|] == es;
    if e.PatrolUnlock? {
      PublishEvents(s, es);
    }
  }

  lemma PublishEvents(s: State, es: seq<Event>)
    requires Inv(s) && Enabled(s, PatrolUnlock) && InHand(s, es) && ByEvents(s, es)
    ensures ByEvents(Step(s, PatrolUnlock), es + [PatrolUnlock])
  {
    hide Exclusive, Memory, Images, Replies, Dispatch, Assemble, VoltsOf, CellVoltages, SamePack, Buffer, PrefixRight;
    assert (es + [PatrolUnlock])[..|es|] == es;
    SameVoltages(s.patrol.pack, LastPack(es), s.n);
    var s' := Step(s, PatrolUnlock);
    forall p | 0 <= p < |PublishedPacks(es + [PatrolUnlock])|
      ensures SamePack(s'.packs[p + 1], PublishedPacks(es + [PatrolUnlock])[p])
    {
    }
  }

  lemma {:induction false} RunByEvents(n: nat, es: seq<Event>)
    requires 1 <= n <= SLOTS && ValidRun(Initial(n), es)
    ensures Inv(Play(Initial(n), es)) && Play(Initial(n), es).n == n
    ensures InHand(Play(Initial(n), es), es) && ByEvents(Play(Initial(n), es), es)
    decreases |es|
  {
    Reached(n, es);
    SameCells(Initial(n), es);
    if es != [] {
      var k := |es| - 1;
      assert es == es[..k] + [es[k]];
      RunLast(Initial(n), es[..k], es[k]);
      RunByEvents(n, es[..k]);
      hide Inv, InHand, ByEvents, Enabled, Step;
      HandStep(Play(Initial(n), es[..k]), es[..k], es[k]);
      EventsStep(Play(Initial(n), es[..k]), es[..k], es[k]);
    }
  }

  /** The last step of a run. */
  lemma {:induction false} RunLast(s: State, es: seq<Event>, e: Event)
    requires ValidRun(s, es + [e])
    ensures ValidRun(s, es) && Enabled(Play(s, es), e) && Play(s, es + [e]) == Step(Play(s, es), e)
    decreases |es|
  {
    hide Enabled, Step;
    if es == [] {
      assert [] + [e] == [e] && [e][1..] == [];
      assert Play(s, [e]) == Play(Step(s, e), []);
    } else {
      assert (es + [e])[0] == es[0] && (es + [e])[1..] == es[1..] + [e];
      RunLast(Step(s, es[0]), es[1..], e);
    }
  }

  /** The word a snapshot must show at position k if it consists of publication `pack`, stored sweep `sweep` and
      stored sample `current` of the run; number 0 stands for the zeros before the first. */
  ghost predicate IsWord(n: nat, es: seq<Event>, st: Stamp, k: nat, word: int) {
    if k == 2 then
      if st.current == 0 then word == 0
      else st.current <= |StoredSamples(es)| && word == StoredSamples(es)[st.current - 1]
    else if 3 <= k < 3 + 4 * n && (k - 3) % 4 == 0 then
      if st.sweep == 0 then word == 0
      else st.sweep <= |StoredSweeps(es, n)| && (k - 3) / 4 < |StoredSweeps(es, n)[st.sweep - 1]|
           && word == StoredSweeps(es, n)[st.sweep - 1][(k - 3) / 4]
    else
      if st.pack == 0 then word == 0
      else st.pack <= |PublishedPacks(es)| && k < |PublishedPacks(es)[st.pack - 1]|
           && word == PublishedPacks(es)[st.pack - 1][k]
  }

  lemma WordByEvents(s: State, es: seq<Event>, st: Stamp, k: nat)
    requires Inv(s) && ByEvents(s, es) && k < WORDS && FirstPackZero(s)
    requires st.pack < |s.packs| && |s.packs[st.pack]| == WORDS
    requires st.sweep < |s.sweeps| && |s.sweeps[st.sweep]| == s.n && st.current < |s.currents|
    ensures IsWord(s.n, es, st, k, WordOf(s, st, k))
  {
    hide Exclusive, Memory, Images, Replies;
    assert st.sweep > 0 ==> s.sweeps[st.sweep] == StoredSweeps(es, s.n)[st.sweep - 1];
    assert st.current > 0 ==> s.currents[st.current] == StoredSamples(es)[st.current - 1];
    assert st.pack > 0 ==> SamePack(s.packs[st.pack - 1 + 1], PublishedPacks(es)[st.pack - 1]);
  }

  ghost predicate FirstPackZero(s: State) {
    |s.packs| > 0 && s.packs[0] == Zeros(WORDS)
  }

  lemma {:induction false} RunFirstPack(s: State, es: seq<Event>)
    requires ValidRun(s, es) && FirstPackZero(s)
    ensures FirstPackZero(Play(s, es))
    decreases |es|
  {
    if es != [] {
      FirstPackKept(s, es[0]);
      hide Enabled, Step, FirstPackZero;
      RunFirstPack(Step(s, es[0]), es[1..]);
    }
  }

  lemma FirstPackKept(s: State, e: Event)
    requires Enabled(s, e) && FirstPackZero(s)
    ensures FirstPackZero(Step(s, e))
  {
    hide Dispatch, Assemble, VoltsOf;
  }

  /** Snapshots: in every interleaving each answer equals the struct as it stood between two writing critical
      sections. Its temperatures, resistances and capacities, its date and its total come from one single
      published pack, its voltages from one single stored sweep of all n cells, its current from one stored
      sample, each as the event that made it ready brought it. */
  lemma SnapshotConsistent(n: nat, es: seq<Event>, j: nat)
    requires 1 <= n <= SLOTS && ValidRun(Initial(n), es) && j < |Play(Initial(n), es).replies|
    ensures var s := Play(Initial(n), es);
            var r := s.replies[j];
            && r.at < |s.images| == |s.stamps| && r.lo <= r.hi <= |s.images[r.at]| == 243
            && r.words == s.images[r.at][r.lo..r.hi]
            && forall d :: 0 <= d < |r.words| ==> IsWord(n, es, s.stamps[r.at], r.lo + d, r.words[d])
  {
    SnapshotOfState(n, es, j);
    RunByEvents(n, es);
    RunFirstPack(Initial(n), es);
    var s := Play(Initial(n), es);
    var r := s.replies[j];
    hide Inv, ByEvents, IsWord;
    forall d | 0 <= d < |r.words| ensures IsWord(n, es, s.stamps[r.at], r.lo + d, r.words[d]) {
      var k := r.lo + d;
      assert r.words[k - r.lo] == WordOf(s, s.stamps[r.at], k);
      WordByEvents(s, es, s.stamps[r.at], k);
    }
  }

  /** What the database write has seen of a word is what the struct held when it looked. */
  lemma DatabaseReadsMemory(n: nat, es: seq<Event>, k: nat)
    requires ValidRun(Initial(n), es + [ReadWord(k)])
    ensures ValidRun(Initial(n), es)
    ensures var s, s' := Play(Initial(n), es), Play(Initial(n), es + [ReadWord(k)]);
            && k < |s.mem| && s'.patrol.Writing? && k in s'.patrol.seen && s'.patrol.seen[k] == s.mem[k]
            && s'.mem == s.mem
  {
    RunLast(Initial(n), es, ReadWord(k));
  }

  // ---- What clients get ----

  /** Every client is sent what its message asks for. */
  ghost predicate AsAsked(s: State) {
    && (forall id :: id in s.clients ==>
          Serves(s.clients[id].asked, s.n, Words(s.clients[id].lo, s.clients[id].hi)))
    && (forall j :: 0 <= j < |s.replies| ==>
          Serves(s.replies[j].asked, s.n, Words(s.replies[j].lo, s.replies[j].hi)))
  }

  lemma StepAsAsked(s: State, e: Event)
    requires AsAsked(s) && Enabled(s, e)
    ensures AsAsked(Step(s, e))
  {
    hide Dispatch, Serves, Assemble, VoltsOf, Buffer, PrefixRight;
    if e.Request? {
      DispatchServes(e.received, s.n);
    }
  }

  lemma {:induction false} RunAsAsked(s: State, es: seq<Event>)
    requires AsAsked(s) && ValidRun(s, es)
    ensures AsAsked(Play(s, es))
    decreases |es|
  {
    if es != [] {
      StepAsAsked(s, es[0]);
      hide AsAsked, Step, Enabled;
      RunAsAsked(Step(s, es[0]), es[1..]);
    }
  }

  lemma FourWords(s: State, st: Stamp, i: nat, words: seq<int>)
    requires st.pack < |s.packs| && |s.packs[st.pack]| == WORDS && st.current < |s.currents|
    requires st.sweep < |s.sweeps| && i < |s.sweeps[st.sweep]| <= SLOTS && |words| == 4
    requires forall d :: 0 <= d < 4 ==> words[d] == WordOf(s, st, 3 + 4 * i + d)
    ensures words == [s.sweeps[st.sweep][i]] + s.packs[st.pack][4 + 4 * i..7 + 4 * i]
  {
    var lo := 3 + 4 * i;
    assert words[0] == WordOf(s, st, lo) && words[1] == WordOf(s, st, lo + 1);
    assert words[2] == WordOf(s, st, lo + 2) && words[3] == WordOf(s, st, lo + 3);
  }

  /** A client gets what its message asks for: with command 01 the whole struct; with 02 and the number of an
      existing cell that cell's voltage in one sweep and its temperature, resistance and capacity in one
      publication; with 03 or 04 the current of one sample. No other message is answered with words. */
  lemma AnswersAreCells(n: nat, es: seq<Event>, j: nat)
    requires 1 <= n <= SLOTS && ValidRun(Initial(n), es) && j < |Play(Initial(n), es).replies|
    ensures var s := Play(Initial(n), es);
            var r := s.replies[j];
            var command, number := ByteAt(r.asked, 6), ByteAt(r.asked, 7) as int;
            && r.at < |s.stamps| && s.stamps[r.at].current < |s.currents|
            && s.stamps[r.at].sweep < |s.sweeps| && |s.sweeps[s.stamps[r.at].sweep]| == n
            && s.stamps[r.at].pack < |s.packs| && |s.packs[s.stamps[r.at].pack]| == 243
            && var volts, pack := s.sweeps[s.stamps[r.at].sweep], s.packs[s.stamps[r.at].pack];
               if command == 0x01 then r.lo == 0 && |r.words| == 243
               else if command == 0x02 then
                 && 1 <= number <= n
                 && r.words == [volts[number - 1]] + pack[4 * number..4 * number + 3]
               else (command == 0x03 || command == 0x04) && r.words == [s.currents[s.stamps[r.at].current]]
  {
    SnapshotOfState(n, es, j);
    SameCells(Initial(n), es);
    RunAsAsked(Initial(n), es);
    var s := Play(Initial(n), es);
    var r := s.replies[j];
    hide ValidRun, Play, Assemble, Serves, WordOf;
    forall d | 0 <= d < |r.words| ensures r.words[d] == WordOf(s, s.stamps[r.at], r.lo + d) {
      var k := r.lo + d;
      assert r.words[k - r.lo] == WordOf(s, s.stamps[r.at], k);
    }
    WordsAsked(s, r, s.stamps[r.at]);
  }

  lemma WordsAsked(s: State, r: Reply, st: Stamp)
    requires st.pack < |s.packs| && |s.packs[st.pack]| == WORDS && st.current < |s.currents| && 1 <= s.n <= SLOTS
    requires st.sweep < |s.sweeps| && |s.sweeps[st.sweep]| == s.n
    requires r.lo <= r.hi <= WORDS && |r.words| == r.hi - r.lo
    requires forall d :: 0 <= d < |r.words| ==> r.words[d] == WordOf(s, st, r.lo + d)
    requires Serves(r.asked, s.n, Words(r.lo, r.hi))
    ensures var command, number := ByteAt(r.asked, 6), ByteAt(r.asked, 7) as int;
            if command == 0x01 then r.lo == 0 && |r.words| == 243
            else if command == 0x02 then
              && 1 <= number <= s.n
              && r.words == [s.sweeps[st.sweep][number - 1]] + s.packs[st.pack][4 * number..4 * number + 3]
            else (command == 0x03 || command == 0x04) && r.words == [s.currents[st.current]]
  {
    hide ByteAt;
    if ByteAt(r.asked, 6) == 0x02 {
      FourWords(s, st, ByteAt(r.asked, 7) as int - 1, r.words);
    } else if ByteAt(r.asked, 6) != 0x01 {
      assert r.words[0] == WordOf(s, st, 2);
    }
  }

  // ---- The order of answers ----

  predicate NotLater(a: Stamp, b: Stamp) {
    a.pack <= b.pack && a.sweep <= b.sweep && a.current <= b.current
  }

  /** The sweep of a stamp is the one its publication came with, or a balancing pass between that publication
      and the next. */
  predicate InItsTurn(s: State, st: Stamp) {
    && st.pack < |s.brought| && s.brought[st.pack] <= st.sweep
    && (st.pack + 1 < |s.brought| ==> st.sweep < s.brought[st.pack + 1])
  }

  ghost predicate Timeline(s: State)
    requires Sizes(s)
  {
    && |s.brought| == |s.packs|
    && (forall p :: 0 <= p < |s.brought| ==>
          s.n <= SLOTS && s.brought[p] < |s.sweeps| && s.sweeps[s.brought[p]] == VoltsOf(s.packs[p], s.n))
    && (forall j :: 0 <= j < |s.stamps| ==> NotLater(s.stamps[j], Here(s)) && InItsTurn(s, s.stamps[j]))
    && (forall i, j :: 0 <= i <= j < |s.stamps| ==> NotLater(s.stamps[i], s.stamps[j]))
    && (forall j :: 0 <= j < |s.replies| ==> s.replies[j].at < |s.stamps|)
    && (forall i, j :: 0 <= i <= j < |s.replies| ==> s.replies[i].at <= s.replies[j].at)
  }

  /** Steps that finish neither a writing critical section nor an answer. */
  lemma QuietTimeline(s: State, s': State)
    requires Sizes(s) && Timeline(s) && Sizes(s') && s'.n == s.n && |s.currents| <= |s'.currents|
    requires s'.packs == s.packs && s'.sweeps == s.sweeps && s'.brought == s.brought
    requires s'.stamps == s.stamps && s'.replies == s.replies
    ensures Timeline(s')
  {
    hide VoltsOf;
    forall j | 0 <= j < |s'.stamps| ensures NotLater(s'.stamps[j], Here(s')) && InItsTurn(s', s'.stamps[j]) {
      assert NotLater(s.stamps[j], Here(s)) && InItsTurn(s, s.stamps[j]);
    }
  }

  lemma QuietFrame(s: State, e: Event)
    requires Enabled(s, e) && !e.PatrolUnlock? && !e.BalanceUnlock? && !e.SensorUnlock? && !e.ClientUnlock?
    ensures var s' := Step(s, e);
            && s'.n == s.n && |s.currents| <= |s'.currents|
            && s'.packs == s.packs && s'.sweeps == s.sweeps && s'.brought == s.brought
            && s'.stamps == s.stamps && s'.replies == s.replies
  {
    hide Assemble, Dispatch, VoltsOf, Commit, Buffer, PrefixRight;
  }

  /** A writing critical section ends: its stamp is the newest. */
  lemma CommitTimeline(s: State, s': State)
    requires Sizes(s) && Timeline(s) && Sizes(s') && s'.n == s.n && s'.packs == s.packs && s'.brought == s.brought
    requires s.sweeps <= s'.sweeps && s'.currents == s.currents
    requires s'.stamps == s.stamps + [Here(s')] && s'.replies == s.replies
    ensures Timeline(s')
  {
    hide Sizes, VoltsOf;
    var last := |s.brought| - 1;
    assert s.brought[last] < |s.sweeps|;
    forall i, j | 0 <= i <= j < |s'.stamps| ensures NotLater(s'.stamps[i], s'.stamps[j]) {
      assert i < |s.stamps| ==> NotLater(s.stamps[i], Here(s));
    }
    forall j | 0 <= j < |s'.stamps| ensures NotLater(s'.stamps[j], Here(s')) && InItsTurn(s', s'.stamps[j]) {
      assert j < |s.stamps| ==> NotLater(s.stamps[j], Here(s)) && InItsTurn(s, s.stamps[j]);
    }
  }

  lemma PublishTimeline(s: State, s': State, pack: seq<int>)
    requires Sizes(s) && Timeline(s) && Sizes(s') && s'.n == s.n && s'.packs == s.packs + [pack]
    requires |pack| == WORDS && s'.sweeps == s.sweeps + [VoltsOf(pack, s.n)]
    requires s'.brought == s.brought + [|s.sweeps|] && s'.currents == s.currents
    requires s'.stamps == s.stamps + [Here(s')] && s'.replies == s.replies
    ensures Timeline(s')
  {
    hide VoltsOf;
    forall i, j | 0 <= i <= j < |s'.stamps| ensures NotLater(s'.stamps[i], s'.stamps[j]) {
      assert i < |s.stamps| ==> NotLater(s.stamps[i], Here(s));
    }
    forall j | 0 <= j < |s'.stamps| ensures NotLater(s'.stamps[j], Here(s')) && InItsTurn(s', s'.stamps[j]) {
      assert j < |s.stamps| ==> NotLater(s.stamps[j], Here(s)) && InItsTurn(s, s.stamps[j]);
    }
  }

  lemma AnswerTimeline(s: State, id: nat)
    requires Inv(s) && Timeline(s) && Enabled(s, ClientUnlock(id)) && Inv(Step(s, ClientUnlock(id)))
    ensures Timeline(Step(s, ClientUnlock(id)))
  {
    hide Assemble, VoltsOf, Memory, Exclusive, Replies, StampOk;
  }

  lemma StepTimeline(s: State, e: Event)
    requires Inv(s) && Timeline(s) && Enabled(s, e) && Inv(Step(s, e))
    ensures Timeline(Step(s, e))
  {
    hide Assemble, VoltsOf, Memory, Exclusive, Replies, Images, Timeline, Dispatch;
    match e
    case PatrolUnlock => PublishTimeline(s, Step(s, e), s.patrol.pack);
    case BalanceUnlock => CommitTimeline(s, Step(s, e));
    case SensorUnlock => CommitTimeline(s, Step(s, e));
    case ClientUnlock(id) => AnswerTimeline(s, id);
    case _ =>
      QuietFrame(s, e);
      QuietTimeline(s, Step(s, e));
  }

  lemma {:induction false} RunTimeline(s: State, es: seq<Event>)
    requires Inv(s) && Timeline(s) && ValidRun(s, es)
    ensures Inv(Play(s, es)) && Timeline(Play(s, es))
    decreases |es|
  {
    if es != [] {
      StepInv(s, es[0]);
      StepTimeline(s, es[0]);
      hide Inv, Timeline, Step, Enabled;
      RunTimeline(Step(s, es[0]), es[1..]);
    }
  }

  /** Answers never go back in time: of two answers, in the order they were finished, the later shows no
      older publication, sweep or sample. And an answer never mixes a publication with a foreign sweep: its
      voltages are those the publication came with or those of a balancing pass after it and before the
      next. */
  lemma AnswersInOrder(n: nat, es: seq<Event>, i: nat, j: nat)
    requires 1 <= n <= SLOTS && ValidRun(Initial(n), es) && i <= j < |Play(Initial(n), es).replies|
    ensures var s := Play(Initial(n), es);
            && s.replies[i].at <= s.replies[j].at < |s.stamps|
            && NotLater(s.stamps[s.replies[i].at], s.stamps[s.replies[j].at])
            && InItsTurn(s, s.stamps[s.replies[j].at])
            && (forall p :: 0 <= p < |s.brought| ==>
                  && p < |s.packs| && |s.packs[p]| == WORDS && s.brought[p] < |s.sweeps|
                  && s.sweeps[s.brought[p]] == VoltsOf(s.packs[p], n))
  {
    InitialInv(n);
    SameCells(Initial(n), es);
    assert VoltsOf(Zeros(WORDS), n) == Zeros(n);
    assert Timeline(Initial(n));
    hide Inv;
    RunTimeline(Initial(n), es);
    SizesOf(Play(Initial(n), es));
  }

  lemma SizesOf(s: State)
    requires Inv(s)
    ensures Sizes(s)
  {
  }

  /** No stored current is ever lost: at every moment, even while the whole struct is being overwritten, its
      current is the last value the current thread stored. */
  lemma CurrentNeverLost(n: nat, es: seq<Event>)
    requires 1 <= n <= SLOTS && ValidRun(Initial(n), es)
    ensures var s := Play(Initial(n), es);
            |s.mem| == WORDS && |s.currents| > 0 && s.mem[CURRENT] == s.currents[|s.currents| - 1]
  {
    Reached(n, es);
    var s := Play(Initial(n), es);
    if s.patrol.Copying? {
      var k := s.patrol.k;
      assert k <= CURRENT ==> s.mem[CURRENT] == Base(s)[CURRENT];
    }
  }

  /** The database write reads without the lock; everything it has read is the pack just published, except
      that the current may be a later sample than the published one. */
  lemma DatabaseReadCoherent(n: nat, es: seq<Event>)
    requires 1 <= n <= SLOTS && ValidRun(Initial(n), es) && Play(Initial(n), es).patrol.Writing?
    ensures var s := Play(Initial(n), es);
            var w := s.patrol;
            && |w.pack| == WORDS && |s.packs| > 0 && w.pack == s.packs[|s.packs| - 1]
            && w.since < |s.currents|
            && forall k :: k in w.seen ==>
                 k < WORDS && (if k == CURRENT then w.seen[k] in s.currents[w.since..] else w.seen[k] == w.pack[k])
  {
    hide Assemble;
    Reached(n, es);
    var s := Play(Initial(n), es);
    assert CURRENT in s.patrol.seen ==> s.patrol.seen[CURRENT] in s.currents[s.patrol.since..];
  }

  /** The lock is exclusive: the patrol thread, the current thread and the clients are never inside together,
      nor are two clients. */
  lemma MutualExclusion(n: nat, es: seq<Event>, id1: nat, id2: nat)
    requires 1 <= n <= SLOTS && ValidRun(Initial(n), es)
    ensures var s := Play(Initial(n), es);
            var patrol := s.patrol.Locked? || s.patrol.Copying? || s.patrol.Storing?;
            var sensor := s.sensor.Holding? || s.sensor.Stored?;
            && !(patrol && sensor) && !(patrol && Is(s, id1, true)) && !(sensor && Is(s, id1, true))
            && (Is(s, id1, true) && Is(s, id2, true) ==> id1 == id2)
  {
    Reached(n, es);
  }

  // ---- Progress ----

  /** The thread that holds the lock can take its next step. */
  ghost predicate HolderMoves(s: State) {
    match s.owner
    case Free => true
    case Patrol => Enabled(s, TakeCurrent) || Enabled(s, CopyWord) || Enabled(s, PatrolUnlock)
                   || Enabled(s, StoreVoltage) || Enabled(s, BalanceUnlock)
    case Sensor => Enabled(s, StoreCurrent) || Enabled(s, SensorUnlock)
    case Client(id) => Enabled(s, SendWord(id)) || Enabled(s, ClientUnlock(id))
  }

  /** Nobody ever waits in vain, and nothing else holds a thread up: in every reachable state the holder of the
      lock can go on; once the lock is free any thread that waits for it can take it; and a thread that needs
      no lock can go on with any pack, sweep or sample, a database read at any word and a client with any
      message at any time, whatever the others are doing. */
  lemma NoDeadlock(n: nat, es: seq<Event>)
    requires 1 <= n <= 60 && ValidRun(Initial(n), es)
    ensures var s := Play(Initial(n), es);
            && HolderMoves(s)
            && (s.owner.Free? ==>
                  && (s.patrol.WantPublish? ==> Enabled(s, PatrolLock))
                  && (s.patrol.WantBalance? ==> Enabled(s, BalanceLock))
                  && (s.sensor.WantStore? ==> Enabled(s, SensorLock))
                  && forall id :: id in s.clients ==> Enabled(s, ClientLock(id)))
            && (s.patrol.Running? ==>
                  && (forall pack :: |pack| == 243 ==> Enabled(s, PackReady(pack)))
                  && (forall volts :: |volts| == n ==> Enabled(s, SweepReady(volts))))
            && (s.patrol.Writing? ==> Enabled(s, WriteDone) && forall k: nat :: k < 243 ==> Enabled(s, ReadWord(k)))
            && (s.sensor.Sampling? ==> forall c :: Enabled(s, SampleReady(c)))
            && (forall id: nat, msg :: id !in s.clients && 0 < |msg| <= 100 ==> Enabled(s, Request(id, msg)))
  {
    hide Inv, HolderMoves, ValidRun, Play;
    Reached(n, es);
    SameCells(Initial(n), es);
    HolderCanMove(Play(Initial(n), es));
  }

  lemma HolderCanMove(s: State)
    requires Inv(s)
    ensures HolderMoves(s)
    ensures s.owner.Free? ==> forall id :: id in s.clients ==> s.clients[id].Waiting?
    ensures |s.mem| == 243 && s.n <= 60
  {
    hide Assemble, Memory;
  }

  // ---- Conservation of the total voltage ----

  function SumOf(v: seq<int>): int {
    if v == [] then 0 else SumOf(v[..|v| - 1]) + v[|v| - 1]
  }

  /** The total word of a pack is the sum of its n voltage words. */
  ghost predicate Balanced(pack: seq<int>, n: nat) {
    |pack| == WORDS && n <= SLOTS && pack[TOTAL] == SumOf(VoltsOf(pack, n))
  }

  ghost predicate OnlyBalancedPacks(n: nat, es: seq<Event>) {
    forall k :: 0 <= k < |es| && es[k].PackReady? ==> Balanced(es[k].pack, n)
  }

  ghost predicate AllBalanced(s: State) {
    && (forall j :: 0 <= j < |s.packs| ==> Balanced(s.packs[j], s.n))
    && (s.patrol.WantPublish? || s.patrol.Locked? || s.patrol.Copying? ==> Balanced(s.patrol.pack, s.n))
  }

  lemma StepBalanced(s: State, e: Event)
    requires Enabled(s, e) && AllBalanced(s) && (e.PackReady? ==> Balanced(e.pack, s.n))
    ensures AllBalanced(Step(s, e))
  {
    hide Dispatch;
    if e.TakeCurrent? {
      var p := s.patrol.pack;
      assert VoltsOf(p[CURRENT := s.mem[CURRENT]], s.n) == VoltsOf(p, s.n);
    }
  }

  lemma {:induction false} RunBalanced(s: State, es: seq<Event>)
    requires ValidRun(s, es) && AllBalanced(s) && OnlyBalancedPacks(s.n, es)
    ensures AllBalanced(Play(s, es))
    decreases |es|
  {
    if es != [] {
      StepBalanced(s, es[0]);
      StepKeepsCells(s, es[0]);
      hide AllBalanced, Step, Enabled;
      RunBalanced(Step(s, es[0]), es[1..]);
    }
  }

  lemma StepKeepsCells(s: State, e: Event)
    requires Enabled(s, e)
    ensures Step(s, e).n == s.n
  {
  }

  lemma {:induction false} SumOfZeros(n: nat)
    ensures SumOf(Zeros(n)) == 0
  {
    if n > 0 {
      assert Zeros(n)[..n - 1] == Zeros(n - 1);
      SumOfZeros(n - 1);
    }
  }

  /** If every pack handed to publication is balanced, the total in memory is, at every moment outside a
      publication, the sum of the voltages of the last publication, whatever balancing passes have since
      written over the voltages; and the total in every answer is the sum over the publication it shows. */
  lemma TotalIsThePatrols(n: nat, es: seq<Event>)
    requires 1 <= n <= SLOTS && ValidRun(Initial(n), es) && OnlyBalancedPacks(n, es)
    ensures var s := Play(Initial(n), es);
            && s.n == n && |s.mem| == WORDS && |s.packs| > 0
            && (forall p :: 0 <= p < |s.packs| ==> Balanced(s.packs[p], n))
            && (!s.patrol.Copying? ==> s.mem[TOTAL] == SumOf(VoltsOf(Last(s.packs), n)))
            && forall j :: 0 <= j < |s.replies| && s.replies[j].lo <= TOTAL < s.replies[j].hi ==>
                 var r := s.replies[j];
                 && r.at < |s.stamps| && s.stamps[r.at].pack < |s.packs| && TOTAL - r.lo < |r.words|
                 && r.words[TOTAL - r.lo] == SumOf(VoltsOf(s.packs[s.stamps[r.at].pack], n))
  {
    var s0 := Initial(n);
    Reached(n, es);
    SameCells(s0, es);
    assert VoltsOf(Zeros(WORDS), n) == Zeros(n);
    SumOfZeros(n);
    RunBalanced(s0, es);
    var s := Play(s0, es);
    forall j | 0 <= j < |s.replies| && s.replies[j].lo <= TOTAL < s.replies[j].hi
      ensures var r := s.replies[j];
              && r.at < |s.stamps| && s.stamps[r.at].pack < |s.packs| && TOTAL - r.lo < |r.words|
              && r.words[TOTAL - r.lo] == SumOf(VoltsOf(s.packs[s.stamps[r.at].pack], n))
    {
      SnapshotOfState(n, es, j);
      assert s.replies[j].words[TOTAL - s.replies[j].lo] == WordOf(s, s.stamps[s.replies[j].at], TOTAL);
    }
  }
}
