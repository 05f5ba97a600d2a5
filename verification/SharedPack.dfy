/** The threads that share group_battery, interleaved word by word: the patrol thread (publication, database
    write, balancing), the current thread and any number of clients. One mutex guards everything except the
    database read. */
module SharedPack {
  import opened Basics
  import opened Layout
  import opened Network

  datatype Owner = Free | Patrol | Sensor | Client(id: nat)

  /** Program points of the patrol thread that matter to the others. */
  datatype PatrolPc =
    | Running
    | WantPublish(pack: seq<int>)
    | Locked(pack: seq<int>)                       // about to take over the current
    | Copying(pack: seq<int>, k: nat)              // memcpy, k words done
    | Writing(pack: seq<int>, since: nat, seen: map<nat, int>)  // database write, no lock
    | WantBalance(volts: seq<int>)
    | Storing(volts: seq<int>, k: nat)             // k voltages stored

  datatype SensorPc = Sampling | WantStore(current: int) | Holding(current: int) | Stored

  /** A client connection that has been asked for words lo..hi by the message `asked`. */
  datatype ClientPc =
    | Waiting(lo: nat, hi: nat, asked: seq<bv8>)
    | Sending(lo: nat, hi: nat, asked: seq<bv8>, buf: seq<int>)

  /** Which publication, sweep and sample an image of the struct is made of. */
  datatype Stamp = Stamp(pack: nat, sweep: nat, current: nat)

  /** A finished answer to `asked`: words lo..hi, sent while image number `at` was the latest. */
  datatype Reply = Reply(lo: nat, hi: nat, asked: seq<bv8>, words: seq<int>, at: nat)

  datatype State = State(
    n: nat,                       // battery_total
    mem: seq<int>,                // group_battery
    owner: Owner,
    patrol: PatrolPc, sensor: SensorPc, clients: map<nat, ClientPc>,
    // history
    packs: seq<seq<int>>,         // published packs, the initial one first
    sweeps: seq<seq<int>>,        // voltages of patrols and balancing passes, in order of storing
    brought: seq<nat>,            // the sweep each published pack came with
    currents: seq<int>,           // stored currents
    images: seq<seq<int>>,        // the struct at the end of each writing critical section
    stamps: seq<Stamp>,
    replies: seq<Reply>)

  datatype Event =
    | PackReady(pack: seq<int>)
    | PatrolLock
    | TakeCurrent
    | CopyWord
    | PatrolUnlock
    | ReadWord(k: nat)
    | WriteDone
    | SweepReady(volts: seq<int>)
    | BalanceLock
    | StoreVoltage
    | BalanceUnlock
    | SampleReady(current: int)
    | SensorLock
    | StoreCurrent
    | SensorUnlock
    | Request(id: nat, received: seq<bv8>)
    | ClientLock(id: nat)
    | SendWord(id: nat)
    | ClientUnlock(id: nat)

  function Zeros(n: nat): seq<int> {
    seq(n, _ => 0)
  }

  function Initial(n: nat): State {
    State(n, Zeros(WORDS), Free, Running, Sampling, map[],
          [Zeros(WORDS)], [Zeros(n)], [0], [0], [Zeros(WORDS)], [Stamp(0, 0, 0)], [])
  }

  function Last<T>(s: seq<T>): T
    requires |s| > 0
  {
    s[|s| - 1]
  }

  predicate Is(s: State, id: nat, sending: bool) {
    id in s.clients && s.clients[id].Sending? == sending
  }

  predicate Enabled(s: State, e: Event) {
    match e
    case PackReady(pack) => s.patrol.Running? && |pack| == WORDS
    case PatrolLock => s.patrol.WantPublish? && s.owner.Free?
    case TakeCurrent => s.patrol.Locked? && |s.patrol.pack| == |s.mem| == WORDS
    case CopyWord => s.patrol.Copying? && s.patrol.k < |s.mem| == |s.patrol.pack|
    case PatrolUnlock => s.patrol.Copying? && s.patrol.k == WORDS == |s.patrol.pack| && s.n <= SLOTS
                         && |s.currents| > 0
    case ReadWord(k) => s.patrol.Writing? && k < |s.mem|
    case WriteDone => s.patrol.Writing?
    case SweepReady(volts) => s.patrol.Running? && |volts| == s.n
    case BalanceLock => s.patrol.WantBalance? && s.owner.Free?
    case StoreVoltage => s.patrol.Storing? && s.patrol.k < |s.patrol.volts| && VoltageAt(s.patrol.k) < |s.mem|
    case BalanceUnlock => s.patrol.Storing? && s.patrol.k == |s.patrol.volts|
    case SampleReady(c) => s.sensor.Sampling?
    case SensorLock => s.sensor.WantStore? && s.owner.Free?
    case StoreCurrent => s.sensor.Holding? && CURRENT < |s.mem|
    case SensorUnlock => s.sensor.Stored?
    case Request(id, received) => id !in s.clients && 0 < |received| <= BUFFER_SIZE && s.n <= SLOTS
    case ClientLock(id) => Is(s, id, false) && s.owner.Free?
    case SendWord(id) => Is(s, id, true) && s.clients[id].lo + |s.clients[id].buf| < s.clients[id].hi <= |s.mem|
    case ClientUnlock(id) => Is(s, id, true) && s.clients[id].lo + |s.clients[id].buf| == s.clients[id].hi
                             && |s.images| > 0
  }

  function Here(s: State): Stamp
    requires |s.packs| > 0 && |s.sweeps| > 0 && |s.currents| > 0
  {
    Stamp(|s.packs| - 1, |s.sweeps| - 1, |s.currents| - 1)
  }

  /** The end of a writing critical section. */
  function Commit(s: State): State {
    s.(owner := Free, images := s.images + [s.mem],
       stamps := if |s.packs| > 0 && |s.sweeps| > 0 && |s.currents| > 0 then s.stamps + [Here(s)] else s.stamps)
  }

  function PatrolStep(s: State, e: Event): State
    requires Enabled(s, e)
  {
    match e
    case PackReady(pack) => s.(patrol := WantPublish(pack))
    case PatrolLock => s.(owner := Patrol, patrol := Locked(s.patrol.pack))
    case TakeCurrent => s.(patrol := Copying(s.patrol.pack[CURRENT := s.mem[CURRENT]], 0))
    case CopyWord =>
      var k := s.patrol.k;
      s.(mem := s.mem[k := s.patrol.pack[k]], patrol := Copying(s.patrol.pack, k + 1))
    case PatrolUnlock =>
      Commit(s.(packs := s.packs + [s.patrol.pack], sweeps := s.sweeps + [VoltsOf(s.patrol.pack, s.n)],
                brought := s.brought + [|s.sweeps|], patrol := Writing(s.patrol.pack, |s.currents| - 1, map[])))
    case ReadWord(k) => s.(patrol := s.patrol.(seen := s.patrol.seen[k := s.mem[k]]))
    case WriteDone => s.(patrol := Running)
    case SweepReady(volts) => s.(patrol := WantBalance(volts))
    case BalanceLock => s.(owner := Patrol, patrol := Storing(s.patrol.volts, 0))
    case StoreVoltage =>
      var k := s.patrol.k;
      s.(mem := s.mem[VoltageAt(k) := s.patrol.volts[k]], patrol := Storing(s.patrol.volts, k + 1))
    case BalanceUnlock => Commit(s.(sweeps := s.sweeps + [s.patrol.volts], patrol := Running))
    case _ => s
  }

  function SensorStep(s: State, e: Event): State
    requires Enabled(s, e)
  {
    match e
    case SampleReady(c) => s.(sensor := WantStore(c))
    case SensorLock => s.(owner := Sensor, sensor := Holding(s.sensor.current))
    case StoreCurrent =>
      s.(mem := s.mem[CURRENT := s.sensor.current], currents := s.currents + [s.sensor.current], sensor := Stored)
    case SensorUnlock => Commit(s.(sensor := Sampling))
    case _ => s
  }

  /** Error texts are answered without touching the struct. */
  function ClientStep(s: State, e: Event): State
    requires Enabled(s, e)
  {
    match e
    case Request(id, received) =>
      var a := Dispatch(received, s.n);
      if a.Words? then s.(clients := s.clients[id := Waiting(a.lo, a.hi, received)]) else s
    case ClientLock(id) =>
      var c := s.clients[id];
      s.(owner := Client(id), clients := s.clients[id := Sending(c.lo, c.hi, c.asked, [])])
    case SendWord(id) =>
      var c := s.clients[id];
      s.(clients := s.clients[id := c.(buf := c.buf + [s.mem[c.lo + |c.buf|]])])
    case ClientUnlock(id) =>
      var c := s.clients[id];
      s.(owner := Free, clients := s.clients - {id},
         replies := s.replies + [Reply(c.lo, c.hi, c.asked, c.buf, |s.images| - 1)])
    case _ => s
  }

  predicate ByPatrol(e: Event) {
    e.PackReady? || e.PatrolLock? || e.TakeCurrent? || e.CopyWord? || e.PatrolUnlock? || e.ReadWord?
    || e.WriteDone? || e.SweepReady? || e.BalanceLock? || e.StoreVoltage? || e.BalanceUnlock?
  }

  predicate BySensor(e: Event) {
    e.SampleReady? || e.SensorLock? || e.StoreCurrent? || e.SensorUnlock?
  }

  function Step(s: State, e: Event): State
    requires Enabled(s, e)
  {
    if ByPatrol(e) then PatrolStep(s, e)
    else if BySensor(e) then SensorStep(s, e)
    else ClientStep(s, e)
  }

  predicate ValidRun(s: State, es: seq<Event>)
    decreases |es|
  {
    es == [] || (Enabled(s, es[0]) && ValidRun(Step(s, es[0]), es[1..]))
  }

  function Play(s: State, es: seq<Event>): State
    requires ValidRun(s, es)
    decreases |es|
  {
    if es == [] then s else Play(Step(s, es[0]), es[1..])
  }

  // ---- The invariant ----

  /** Who is inside a critical section, judged by program point. */
  ghost predicate Exclusive(s: State) {
    && (s.owner.Patrol? <==> s.patrol.Locked? || s.patrol.Copying? || s.patrol.Storing?)
    && (s.owner.Sensor? <==> s.sensor.Holding? || s.sensor.Stored?)
    && (forall id :: id in s.clients && s.clients[id].Sending? ==> s.owner == Client(id))
    && (s.owner.Client? ==> Is(s, s.owner.id, true))
  }

  ghost predicate Sizes(s: State) {
    && 1 <= s.n <= SLOTS && |s.mem| == WORDS
    && |s.packs| > 0 && |s.sweeps| > 0 && |s.currents| > 0
    && (forall j :: 0 <= j < |s.packs| ==> |s.packs[j]| == WORDS)
    && (forall j :: 0 <= j < |s.sweeps| ==> |s.sweeps[j]| == s.n)
    && (match s.patrol
        case WantPublish(pack) => |pack| == WORDS
        case Locked(pack) => |pack| == WORDS
        case Copying(pack, k) => |pack| == WORDS && k <= WORDS
        case Writing(pack, since, seen) => |pack| == WORDS
        case WantBalance(volts) => |volts| == s.n
        case Storing(volts, k) => |volts| == s.n && k <= s.n
        case Running => true)
  }

  /** The struct as the latest publication, sweep and sample make it. */
  function Base(s: State): seq<int>
    requires Sizes(s)
  {
    Assemble(Last(s.packs), Last(s.sweeps), Last(s.currents))
  }

  /** What is in memory at every point, including in the middle of a copy. */
  ghost predicate Memory(s: State)
    requires Sizes(s)
  {
    match s.patrol
    case Copying(pack, k) => pack[CURRENT] == Last(s.currents) && s.mem == pack[..k] + Base(s)[k..]
    case Storing(volts, k) =>
      s.mem == Assemble(Last(s.packs), volts[..k] + Last(s.sweeps)[k..], Last(s.currents))
    case Writing(pack, since, seen) =>
      && s.mem == Base(s) && pack == Last(s.packs) && Last(s.sweeps) == VoltsOf(pack, s.n)
      && since < |s.currents|
      && (forall k :: k in seen && k != CURRENT ==> k < WORDS && seen[k] == pack[k])
      && (CURRENT in seen ==> seen[CURRENT] in s.currents[since..])
    case _ => s.mem == Base(s)
  }

  ghost predicate StampOk(s: State, j: nat)
    requires Sizes(s) && j < |s.images| == |s.stamps|
  {
    var st := s.stamps[j];
    && st.pack < |s.packs| && st.sweep < |s.sweeps| && st.current < |s.currents|
    && s.images[j] == Assemble(s.packs[st.pack], s.sweeps[st.sweep], s.currents[st.current])
  }

  ghost predicate Images(s: State)
    requires Sizes(s)
  {
    && |s.images| == |s.stamps| > 0
    && (forall j :: 0 <= j < |s.images| ==> StampOk(s, j))
    && (!s.sensor.Stored? ==> Last(s.stamps) == Here(s))
    && (s.owner.Free? || s.owner.Client? ==> Last(s.images) == s.mem)
  }

  ghost predicate Replies(s: State)
    requires Sizes(s)
  {
    && (forall j :: 0 <= j < |s.replies| ==>
          var r := s.replies[j];
          r.at < |s.images| && r.lo <= r.hi <= |s.images[r.at]| && r.words == s.images[r.at][r.lo..r.hi])
    && (forall id :: id in s.clients ==> s.clients[id].lo <= s.clients[id].hi <= WORDS)
    && (forall id :: id in s.clients && s.clients[id].Sending? ==>
          var c := s.clients[id];
          c.lo + |c.buf| <= c.hi && c.buf == s.mem[c.lo..c.lo + |c.buf|])
  }

  ghost predicate Inv(s: State) {
    Exclusive(s) && Sizes(s) && Memory(s) && Images(s) && Replies(s)
  }

  lemma InitialInv(n: nat)
    requires 1 <= n <= SLOTS
    ensures Inv(Initial(n))
  {
    var z := Zeros(WORDS);
    assert Assemble(z, Zeros(n), 0) == z;
  }
}
