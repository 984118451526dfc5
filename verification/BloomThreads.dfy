/** One Bloom filter used by many threads: `nsrl_bloom_add`, `nsrl_bloom_query` and `nsrl_bloom_addString` as
    interleaved steps on the shared vector and counters, with or without the mutex. */
module BloomThreads {
  import opened Bits
  import opened Bloom
  import opened BloomSpec
  import opened Offsets
  import opened Options

  // ---------------------------------------------------------------- the machine

  /** The parameters of the filter, whether it was made multithreaded, that is, has a mutex, and whether the threads
      call nothing but `nsrl_bloom_addString`. */
  datatype Config = Config(bytes: nat, M: nat, k: nat, multithreaded: bool, stringsOnly: bool)

  ghost predicate Usable(c: Config) {
    3 <= c.M && Offset(c.k, c.M) <= 8 * c.bytes
  }

  lemma UsableIs(c: Config)
    ensures Usable(c) <==> 3 <= c.M && c.k * c.M <= 8 * c.bytes
  {
  }

  /** A call of a thread. An add that follows a query which found nothing is `nsrl_bloom_addString`. */
  datatype Call = Add(hash: Hash) | Query(hash: Hash, thenAdd: bool)

  function AddString(hash: Hash): Call {
    Query(hash, true)
  }

  datatype Counter = UniqueAddedItems | AliasedAdds | AddedItems | Hits

  datatype Shared = Shared(vector: seq<byte>, unique: nat, aliased: nat, added: nat, hits: nat)

  /** What a thread does next. A bit is set, and a counter incremented, by a read and a later write. */
  datatype Local =
    | Idle
    | Locking(call: Call)
    | Probing(call: Call, i: nat, addedBits: nat)
    | Loading(call: Call, i: nat, addedBits: nat)
    | Storing(call: Call, i: nat, addedBits: nat, loaded: byte)
    | Counting(call: Call, found: bool, todo: seq<Counter>)
    | Incrementing(call: Call, found: bool, todo: seq<Counter>, value: nat)

  /** A finished call with its answer; `begun` calls had finished when it began. */
  datatype Entry = Entry(call: Call, found: bool, begun: nat)

  /** `log` lists the calls in the order in which they end. For each thread, `begun` says how many had ended when its
      present call began. */
  datatype State = State(shared: Shared, owner: Option<nat>, threads: seq<Local>, begun: seq<nat>, log: seq<Entry>)

  /** One step of one thread; `call` is what it calls next when it is idle. */
  datatype Move = Move(thread: nat, call: Call)

  function Value(s: Shared, c: Counter): nat {
    match c
    case UniqueAddedItems => s.unique
    case AliasedAdds => s.aliased
    case AddedItems => s.added
    case Hits => s.hits
  }

  function Write(s: Shared, c: Counter, value: nat): Shared {
    match c
    case UniqueAddedItems => s.(unique := value)
    case AliasedAdds => s.(aliased := value)
    case AddedItems => s.(added := value)
    case Hits => s.(hits := value)
  }

  /** The counters that a call increments after its loop over the bits. */
  function Todo(call: Call, addedBits: nat, k: nat): seq<Counter> {
    match call
    case Add(_) =>
      (if addedBits == k then [UniqueAddedItems] else [])
      + (if addedBits == 0 then [AliasedAdds] else []) + [AddedItems]
    case Query(_, _) => [Hits]
  }

  ghost predicate Fitting(c: Config, l: Local) {
    && (!l.Idle? ==> |l.call.hash| == c.bytes)
    && (l.Probing? ==> l.i <= c.k)
    && (l.Loading? || l.Storing? ==> l.i < c.k)
    && (l.Incrementing? ==> l.todo != [])
  }

  /** What every step keeps: accesses stay in the hash and in the vector. */
  ghost predicate Shaped(c: Config, s: State) {
    && Usable(c)
    && |s.shared.vector| == Pow2(c.M - 3) && |s.begun| == |s.threads|
    && forall t | 0 <= t < |s.threads| :: Fitting(c, s.threads[t])
  }

  ghost predicate Possible(c: Config, m: Move, threads: nat) {
    m.thread < threads && |m.call.hash| == c.bytes && (c.stringsOnly ==> m.call == AddString(m.call.hash))
  }

  /** The bit number that step `i` of a call is about; it lies in the vector. */
  function Bit(c: Config, call: Call, i: nat): (v: nat)
    requires Usable(c) && |call.hash| == c.bytes && i < c.k
    ensures v < 8 * Pow2(c.M - 3)
    ensures Sliceable(call.hash, c.M, i + 1) && v == BitNumber(call.hash, c.M, i)
  {
    SliceInRange(i, c.M, c.k);
    VectorHoldsAllBits(c.M);
    BitNumber(call.hash, c.M, i)
  }

  predicate IsSet(c: Config, vector: seq<byte>, call: Call, i: nat)
    requires Usable(c) && |vector| == Pow2(c.M - 3) && |call.hash| == c.bytes && i < c.k
  {
    GetBit(vector, Bit(c, call, i))
  }

  /** The byte of the vector that holds the bit. */
  function Loaded(c: Config, vector: seq<byte>, call: Call, i: nat): byte
    requires Usable(c) && |vector| == Pow2(c.M - 3) && |call.hash| == c.bytes && i < c.k
  {
    vector[Bit(c, call, i) / 8]
  }

  /** The vector after that byte is written back with the bit set. */
  function Stored(c: Config, vector: seq<byte>, call: Call, i: nat, loaded: byte): (r: seq<byte>)
    requires Usable(c) && |vector| == Pow2(c.M - 3) && |call.hash| == c.bytes && i < c.k
    ensures |r| == |vector|
  {
    var v := Bit(c, call, i);
    vector[v / 8 := SetBit(loaded, v % 8)]
  }

  /** The next state of a thread that holds the lock, or needs none, together with the shared memory. */
  function Work(c: Config, shared: Shared, l: Local): (r: (Shared, Local))
    requires Usable(c) && |shared.vector| == Pow2(c.M - 3) && Fitting(c, l)
    ensures |r.0.vector| == |shared.vector| && Fitting(c, r.1)
  {
    match l
    case Idle => (shared, l)
    case Locking(call) => (shared, Probing(call, 0, 0))
    case Probing(call, i, n) =>
      if i == c.k then (shared, Counting(call, true, Todo(call, n, c.k)))
      else if IsSet(c, shared.vector, call, i) then (shared, Probing(call, i + 1, n))
      else if call.Add? then (shared, Loading(call, i, n))
      else (shared, Counting(call, false, Todo(call, n, c.k)))
    case Loading(call, i, n) => (shared, Storing(call, i, n, Loaded(c, shared.vector, call, i)))
    case Storing(call, i, n, loaded) =>
      (shared.(vector := Stored(c, shared.vector, call, i, loaded)), Probing(call, i + 1, n + 1))
    case Counting(call, found, todo) =>
      if todo == [] then (shared, if call.Query? && call.thenAdd && !found then Locking(Add(call.hash)) else Idle)
      else (shared, Incrementing(call, found, todo, Value(shared, todo[0])))
    case Incrementing(call, found, todo, value) => (Write(shared, todo[0], value + 1), Counting(call, found, todo[1..]))
  }

  /** One step. A thread that finds the mutex locked waits; the end of a call unlocks it. */
  function Step(c: Config, s: State, m: Move): (s': State)
    requires Shaped(c, s) && Possible(c, m, |s.threads|)
    ensures Shaped(c, s') && |s'.threads| == |s.threads|
  {
    var l := s.threads[m.thread];
    if l.Idle? then s.(threads := s.threads[m.thread := Locking(m.call)], begun := s.begun[m.thread := |s.log|])
    else if l.Locking? && c.multithreaded && s.owner.Some? then s
    else
      var (shared, l') := Work(c, s.shared, l);
      var ends := l.Counting? && l.todo == [];
      var log := if ends then s.log + [Entry(l.call, l.found, s.begun[m.thread])] else s.log;
      State(shared,
            if ends then None else if l.Locking? && c.multithreaded then Some(m.thread) else s.owner,
            s.threads[m.thread := l'],
            if ends then s.begun[m.thread := |log|] else s.begun,
            log)
  }

  function Start(c: Config, threads: nat): (s: State)
    requires Usable(c)
    ensures Shaped(c, s) && |s.threads| == threads
  {
    State(Shared(seq(Pow2(c.M - 3), _ => 0), 0, 0, 0, 0), None, seq(threads, _ => Idle), seq(threads, _ => 0), [])
  }

  ghost predicate PossibleRun(c: Config, threads: nat, schedule: seq<Move>) {
    forall j | 0 <= j < |schedule| :: Possible(c, schedule[j], threads)
  }

  /** The state after any schedule: any number of threads, in any interleaving of their steps. */
  function Run(c: Config, threads: nat, schedule: seq<Move>): (s: State)
    requires Usable(c) && PossibleRun(c, threads, schedule)
    ensures Shaped(c, s) && |s.threads| == threads
  {
    if |schedule| == 0 then Start(c, threads)
    else Step(c, Run(c, threads, schedule[..|schedule| - 1]), schedule[|schedule| - 1])
  }

  // ---------------------------------------------------------------- calls one at a time

  datatype Serial = Serial(filter: Filter, hits: nat)

  /** The effect of one whole call: that of `Bloom.NSRLBloom.Add` or of `Bloom.NSRLBloom.Query`. */
  ghost function After(c: Config, s: Serial, call: Call): Serial
    requires Usable(c) && |call.hash| == c.bytes
  {
    match call
    case Add(h) => Serial(Added(s.filter, Slices(h, c.M, c.k), c.k), s.hits)
    case Query(_, _) => Serial(s.filter, s.hits + 1)
  }

  ghost predicate Answer(c: Config, s: Serial, call: Call)
    requires Usable(c) && |call.hash| == c.bytes
  {
    call.Query? ==> Present(s.filter, Slices(call.hash, c.M, c.k))
  }

  ghost predicate FittingLog(c: Config, log: seq<Entry>) {
    forall j | 0 <= j < |log| :: |log[j].call.hash| == c.bytes
  }

  /** The calls of the log, run one at a time. */
  ghost function RunSerially(c: Config, log: seq<Entry>): Serial
    requires Usable(c) && FittingLog(c, log)
  {
    if |log| == 0 then Serial(EMPTY, 0)
    else After(c, RunSerially(c, log[..|log| - 1]), log[|log| - 1].call)
  }

  /** Every answer of the log is the one it gets in the serial run. */
  ghost predicate AnswersAreSerial(c: Config, log: seq<Entry>)
    requires Usable(c) && FittingLog(c, log)
  {
    forall j | 0 <= j < |log| :: log[j].found == Answer(c, RunSerially(c, log[..j]), log[j].call)
  }

  ghost function Abstract(s: Shared): Serial {
    Serial(Filter(BitSet(s.vector), s.added, s.unique, s.aliased), s.hits)
  }

  // ---------------------------------------------------------------- the invariant

  predicate InSection(l: Local) {
    !l.Idle? && !l.Locking?
  }

  /** The shared memory after the counters that are still to be incremented. */
  function Incremented(s: Shared, todo: seq<Counter>): Shared
    decreases |todo|
  {
    if todo == [] then s else Incremented(Write(s, todo[0], Value(s, todo[0]) + 1), todo[1..])
  }

  /** How far a thread in the locked section has brought the shared memory from `w`, the state before its call. */
  ghost predicate Progress(c: Config, w: Serial, s: Shared, l: Local)
    requires Usable(c) && |s.vector| == Pow2(c.M - 3) && Fitting(c, l) && InSection(l)
  {
    match l
    case Probing(call, i, n) => OnTheWay(c, w, s, call, i, n)
    case Loading(call, i, n) => call.Add? && OnTheWay(c, w, s, call, i, n) && !IsSet(c, s.vector, call, i)
    case Storing(call, i, n, loaded) =>
      && call.Add? && OnTheWay(c, w, s, call, i, n)
      && !IsSet(c, s.vector, call, i) && loaded == Loaded(c, s.vector, call, i)
    case Counting(call, found, todo) =>
      Abstract(Incremented(s, todo)) == After(c, w, call) && found == Answer(c, w, call)
    case Incrementing(call, found, todo, value) =>
      Abstract(Incremented(s, todo)) == After(c, w, call) && found == Answer(c, w, call) && value == Value(s, todo[0])
  }

  /** In the loop over the bits, before bit `i`. */
  ghost predicate OnTheWay(c: Config, w: Serial, s: Shared, call: Call, i: nat, n: nat)
    requires Usable(c) && |call.hash| == c.bytes && i <= c.k
  {
    && Sliceable(call.hash, c.M, i)
    && Abstract(s) == Serial(w.filter.(bits := BitSet(s.vector)), w.hits)
    && (call.Add? ==> BitSet(s.vector) == With(w.filter.bits, call.hash, c.M, i)
                      && n == NewBits(call.hash, c.M, i, w.filter.bits))
    && (call.Query? ==> BitSet(s.vector) == w.filter.bits && Slices(call.hash, c.M, i) <= w.filter.bits)
  }

  /** The locked machine: at most one thread, the owner, is between lock and unlock; it has brought the state of the
      serial run part of the way; without an owner the state is that of the serial run. */
  ghost predicate Invariant(c: Config, s: State)
    requires Shaped(c, s)
  {
    && (forall t | 0 <= t < |s.threads| :: InSection(s.threads[t]) <==> s.owner == Some(t))
    && (s.owner.Some? ==> s.owner.value < |s.threads|)
    && FittingLog(c, s.log) && AnswersAreSerial(c, s.log)
    && (s.owner.None? ==> Abstract(s.shared) == RunSerially(c, s.log))
    && (s.owner.Some? ==> Progress(c, RunSerially(c, s.log), s.shared, s.threads[s.owner.value]))
  }

  // ---------------------------------------------------------------- the steps of the owner

  lemma Begins(c: Config, w: Serial, s: Shared, call: Call)
    requires Usable(c) && |call.hash| == c.bytes && Abstract(s) == w
    ensures OnTheWay(c, w, s, call, 0, 0)
  {
    hide BitSet;
    NoSlices(call.hash, c.M, w.filter.bits);
  }

  lemma BitIsSet(c: Config, w: Serial, s: Shared, call: Call, i: nat, n: nat)
    requires Usable(c) && |call.hash| == c.bytes && i < c.k && |s.vector| == Pow2(c.M - 3)
    requires OnTheWay(c, w, s, call, i, n) && IsSet(c, s.vector, call, i)
    ensures OnTheWay(c, w, s, call, i + 1, n)
  {
    hide Slices, Offset, With, NewBits, Pow2, GetBit;
    NextSlices(call.hash, c.M, i, c.k, w.filter.bits);
    var v := Bit(c, call, i);
    assert v in BitSet(s.vector);
  }

  lemma BitIsStored(c: Config, w: Serial, s: Shared, call: Call, i: nat, n: nat)
    requires Usable(c) && |call.hash| == c.bytes && i < c.k && |s.vector| == Pow2(c.M - 3)
    requires call.Add? && OnTheWay(c, w, s, call, i, n) && !IsSet(c, s.vector, call, i)
    ensures OnTheWay(c, w, s.(vector := Stored(c, s.vector, call, i, Loaded(c, s.vector, call, i))), call, i + 1, n + 1)
  {
    hide Slices, Offset, With, NewBits, Pow2, GetBit;
    NextSlices(call.hash, c.M, i, c.k, w.filter.bits);
    var v := Bit(c, call, i);
    assert Stored(c, s.vector, call, i, Loaded(c, s.vector, call, i)) == SetBitAt(s.vector, v);
    assert v !in BitSet(s.vector);
    SetBitAtAddsOne(s.vector, v);
  }

  lemma BitsAreDone(c: Config, w: Serial, s: Shared, call: Call, n: nat)
    requires Usable(c) && |call.hash| == c.bytes
    requires OnTheWay(c, w, s, call, c.k, n)
    ensures Abstract(Incremented(s, Todo(call, n, c.k))) == After(c, w, call) && Answer(c, w, call)
  {
    hide BitSet, Slices, With, NewBits, Added;
    if call.Add? {
      AddedIs(w.filter, call.hash, c.M, c.k);
      CountersAre(s, call, n, c.k);
    }
  }

  lemma CountersAre(s: Shared, call: Call, n: nat, k: nat)
    requires call.Add?
    ensures Incremented(s, Todo(call, n, k))
         == Shared(s.vector, s.unique + (if n == k then 1 else 0), s.aliased + (if n == 0 then 1 else 0),
                   s.added + 1, s.hits)
  {
    var todo := Todo(call, n, k);
    CounterIsStored(s, todo);
    if |todo| > 1 {
      var s1 := Write(s, todo[0], Value(s, todo[0]) + 1);
      CounterIsStored(s1, todo[1..]);
      if |todo| > 2 {
        CounterIsStored(Write(s1, todo[1], Value(s1, todo[1]) + 1), todo[1..][1..]);
      }
    }
  }

  lemma QueryFails(c: Config, w: Serial, s: Shared, call: Call, i: nat, n: nat)
    requires Usable(c) && |call.hash| == c.bytes && i < c.k && |s.vector| == Pow2(c.M - 3)
    requires call.Query? && OnTheWay(c, w, s, call, i, n) && !IsSet(c, s.vector, call, i)
    ensures Abstract(Incremented(s, Todo(call, n, c.k))) == After(c, w, call) && !Answer(c, w, call)
  {
    hide Slices, Offset, GetBit, Pow2;
    SliceAmong(call.hash, c.M, i, c.k);
    assert Bit(c, call, i) !in BitSet(s.vector);
  }

  /** A step of the owner that does not end its call brings it further on the way. */
  lemma WorkProgresses(c: Config, w: Serial, s: Shared, l: Local)
    requires Usable(c) && |s.vector| == Pow2(c.M - 3) && Fitting(c, l) && !l.Idle?
    requires if InSection(l) then Progress(c, w, s, l) && !(l.Counting? && l.todo == []) else Abstract(s) == w
    ensures
      var (s', l') := Work(c, s, l);
      InSection(l') && Progress(c, w, s', l')
  {
    hide OnTheWay, IsSet, Loaded, Stored, Abstract, After, Answer, Incremented, Todo;
    match l
    case Locking(call) => Begins(c, w, s, call);
    case Probing(call, i, n) =>
      if i == c.k {
        BitsAreDone(c, w, s, call, n);
      } else if IsSet(c, s.vector, call, i) {
        BitIsSet(c, w, s, call, i, n);
      } else if call.Query? {
        QueryFails(c, w, s, call, i, n);
      }
    case Loading(call, i, n) =>
    case Storing(call, i, n, loaded) => BitIsStored(c, w, s, call, i, n);
    case Counting(call, found, todo) =>
    case Incrementing(call, found, todo, value) => CounterIsStored(s, todo);
  }

  lemma CounterIsStored(s: Shared, todo: seq<Counter>)
    requires todo != []
    ensures Incremented(Write(s, todo[0], Value(s, todo[0]) + 1), todo[1..]) == Incremented(s, todo)
  {
  }

  // ---------------------------------------------------------------- every run

  lemma OneMoreCall(c: Config, log: seq<Entry>, e: Entry)
    requires Usable(c) && FittingLog(c, log) && |e.call.hash| == c.bytes
    requires AnswersAreSerial(c, log) && e.found == Answer(c, RunSerially(c, log), e.call)
    ensures FittingLog(c, log + [e]) && AnswersAreSerial(c, log + [e])
    ensures RunSerially(c, log + [e]) == After(c, RunSerially(c, log), e.call)
  {
    hide After, Answer, RunSerially;
    assert (log + [e])[..|log|] == log;
    forall j | 0 <= j < |log| ensures (log + [e])[..j] == log[..j] {}
    assert RunSerially(c, log + [e]) == After(c, RunSerially(c, log), e.call) by { LastCall(c, log, e); }
  }

  lemma LastCall(c: Config, log: seq<Entry>, e: Entry)
    requires Usable(c) && FittingLog(c, log + [e])
    ensures FittingLog(c, log) && RunSerially(c, log + [e]) == After(c, RunSerially(c, log), e.call)
  {
    hide After;
    assert forall j | 0 <= j < |log| :: log[j] == (log + [e])[j];
    assert (log + [e])[..|log|] == log;
  }

  lemma StepKeepsInvariant(c: Config, s: State, m: Move)
    requires Shaped(c, s) && Possible(c, m, |s.threads|)
    requires c.multithreaded && Invariant(c, s)
    ensures Invariant(c, Step(c, s, m))
  {
    hide Work, Progress, Abstract, After, Answer, RunSerially, AnswersAreSerial, FittingLog;
    var l := s.threads[m.thread];
    var w := RunSerially(c, s.log);
    if l.Counting? && l.todo == [] {
      CallEnds(c, w, s.shared, l);
      OneMoreCall(c, s.log, Entry(l.call, l.found, s.begun[m.thread]));
    } else if !l.Idle? && !(l.Locking? && s.owner.Some?) {
      WorkProgresses(c, w, s.shared, l);
    }
  }

  lemma CallEnds(c: Config, w: Serial, s: Shared, l: Local)
    requires Usable(c) && |s.vector| == Pow2(c.M - 3) && Fitting(c, l) && l.Counting? && l.todo == []
    requires Progress(c, w, s, l)
    ensures Abstract(s) == After(c, w, l.call) && l.found == Answer(c, w, l.call)
    ensures Work(c, s, l).0 == s && !InSection(Work(c, s, l).1)
  {
    hide Abstract, After, Answer;
  }

  lemma StartIsSerial(c: Config, threads: nat)
    requires Usable(c)
    ensures Invariant(c, Start(c, threads))
  {
    EmptyVector(Pow2(c.M - 3));
  }

  lemma {:induction false} RunKeepsInvariant(c: Config, threads: nat, schedule: seq<Move>)
    requires Usable(c) && c.multithreaded && PossibleRun(c, threads, schedule)
    ensures Invariant(c, Run(c, threads, schedule))
  {
    hide Invariant, Step, Start;
    if |schedule| == 0 {
      StartIsSerial(c, threads);
    } else {
      RunKeepsInvariant(c, threads, schedule[..|schedule| - 1]);
      StepKeepsInvariant(c, Run(c, threads, schedule[..|schedule| - 1]), schedule[|schedule| - 1]);
    }
  }

  /** With the mutex, every interleaving leaves the vector and the counters, and gives the answers, of the calls run
      one at a time in the order in which they held the lock. */
  lemma RunsAreSerial(c: Config, threads: nat, schedule: seq<Move>)
    requires Usable(c) && c.multithreaded && PossibleRun(c, threads, schedule)
    ensures
      var s := Run(c, threads, schedule);
      && FittingLog(c, s.log) && AnswersAreSerial(c, s.log)
      && (s.owner.None? ==> Abstract(s.shared) == RunSerially(c, s.log))
      && forall t, u | 0 <= t < threads && 0 <= u < threads && InSection(s.threads[t]) && InSection(s.threads[u]) ::
        t == u
  {
    RunKeepsInvariant(c, threads, schedule);
  }

  /** The log is only ever added to. */
  lemma {:induction false} LogOnlyGrows(c: Config, threads: nat, schedule: seq<Move>, j: nat)
    requires Usable(c) && PossibleRun(c, threads, schedule) && j <= |schedule|
    ensures Run(c, threads, schedule[..j]).log <= Run(c, threads, schedule).log
  {
    hide Work, Usable, Shaped;
    if j < |schedule| {
      var init := schedule[..|schedule| - 1];
      LogOnlyGrows(c, threads, init, j);
      assert init[..j] == schedule[..j];
    } else {
      assert schedule[..j] == schedule;
    }
  }

  lemma {:induction false} SerialBits(c: Config, log: seq<Entry>, i: nat)
    requires Usable(c) && FittingLog(c, log) && i < |log| && log[i].call.Add?
    ensures Slices(log[i].call.hash, c.M, c.k) <= RunSerially(c, log).filter.bits
  {
    hide Slices;
    if i < |log| - 1 {
      SerialBits(c, log[..|log| - 1], i);
    }
  }

  // ---------------------------------------------------------------- what the serial run is

  /** The bits of the serial run are those of the adds of the log. */
  lemma {:induction false} SerialBitsAre(c: Config, log: seq<Entry>, v: nat)
    requires Usable(c) && FittingLog(c, log)
    ensures v in RunSerially(c, log).filter.bits
       <==> exists i :: 0 <= i < |log| && log[i].call.Add? && v in Slices(log[i].call.hash, c.M, c.k)
  {
    hide Slices;
    if |log| > 0 {
      var init, last := log[..|log| - 1], log[|log| - 1];
      SerialBitsAre(c, init, v);
      assert forall i | 0 <= i < |init| :: init[i] == log[i];
      assert RunSerially(c, log) == After(c, RunSerially(c, init), last.call);
    }
  }

  ghost function AddsOf(log: seq<Entry>): set<int> {
    set i | 0 <= i < |log| && log[i].call.Add?
  }

  ghost function QueriesOf(log: seq<Entry>): set<int> {
    set i | 0 <= i < |log| && log[i].call.Query?
  }

  /** Its counters count the adds and the queries of the log. */
  lemma {:induction false} SerialCountsAre(c: Config, log: seq<Entry>)
    requires Usable(c) && FittingLog(c, log)
    ensures RunSerially(c, log).filter.added == |AddsOf(log)| && RunSerially(c, log).hits == |QueriesOf(log)|
  {
    hide Slices;
    if |log| > 0 {
      SerialCountsAre(c, log[..|log| - 1]);
      OneMoreIsCounted(log);
      hide AddsOf, QueriesOf;
    } else {
      assert AddsOf(log) == {} && QueriesOf(log) == {};
    }
  }

  lemma OneMoreIsCounted(log: seq<Entry>)
    requires |log| > 0
    ensures
      var init, isAdd := log[..|log| - 1], log[|log| - 1].call.Add?;
      && |AddsOf(log)| == |AddsOf(init)| + (if isAdd then 1 else 0)
      && |QueriesOf(log)| == |QueriesOf(init)| + (if isAdd then 0 else 1)
  {
    var init, last := log[..|log| - 1], log[|log| - 1];
    if last.call.Add? {
      assert AddsOf(log) == AddsOf(init) + {|log| - 1};
      assert QueriesOf(log) == QueriesOf(init);
    } else {
      assert AddsOf(log) == AddsOf(init);
      assert QueriesOf(log) == QueriesOf(init) + {|log| - 1};
    }
  }

  /** With the mutex a query answers yes exactly if every bit number of its hash is one of a hash that was added by an
      earlier call in lock order. */
  lemma AnswersAreExact(c: Config, threads: nat, schedule: seq<Move>, j: nat)
    requires Usable(c) && c.multithreaded && PossibleRun(c, threads, schedule)
    requires j < |Run(c, threads, schedule).log| && Run(c, threads, schedule).log[j].call.Query?
    ensures
      var log := Run(c, threads, schedule).log;
      && FittingLog(c, log)
      && (log[j].found <==> forall v | v in Slices(log[j].call.hash, c.M, c.k) :: IsAdded(c, log, j, v))
  {
    hide Run, RunSerially, Slices;
    RunsAreSerial(c, threads, schedule);
    var log := Run(c, threads, schedule).log;
    var before, slices := log[..j], Slices(log[j].call.hash, c.M, c.k);
    var bits := RunSerially(c, before).filter.bits;
    assert log[j].found <==> slices <= bits;
    forall v | v in slices ensures v in bits <==> IsAdded(c, log, j, v) {
      SerialBitsAre(c, before, v);
      assert forall i | 0 <= i < j :: before[i] == log[i];
    }
  }

  /** One of the first `j` calls of the log added a hash with this bit number. */
  ghost predicate IsAdded(c: Config, log: seq<Entry>, j: nat, v: nat)
    requires Usable(c) && FittingLog(c, log) && j <= |log|
  {
    exists i :: 0 <= i < j && log[i].call.Add? && v in Slices(log[i].call.hash, c.M, c.k)
  }

  /** With the mutex, whenever nobody holds it, the bits are those of the adds that have ended, and the counters are
      the numbers of the adds and of the queries. */
  lemma StateIsExact(c: Config, threads: nat, schedule: seq<Move>, v: nat)
    requires Usable(c) && c.multithreaded && PossibleRun(c, threads, schedule)
    requires Run(c, threads, schedule).owner == None
    ensures
      var s := Run(c, threads, schedule);
      && s.shared.added == |AddsOf(s.log)| && s.shared.hits == |QueriesOf(s.log)| && FittingLog(c, s.log)
      && (v in BitSet(s.shared.vector)
          <==> exists i :: 0 <= i < |s.log| && s.log[i].call.Add? && v in Slices(s.log[i].call.hash, c.M, c.k))
  {
    hide Run, RunSerially, Slices, BitSet;
    RunsAreSerial(c, threads, schedule);
    var s := Run(c, threads, schedule);
    SerialCountsAre(c, s.log);
    SerialBitsAre(c, s.log, v);
  }

  /** A query that takes the lock after an add of the same hash has finished answers that it is present. */
  lemma QueryAfterAddFinds(c: Config, threads: nat, schedule: seq<Move>, i: nat, j: nat)
    requires Usable(c) && c.multithreaded && PossibleRun(c, threads, schedule)
    requires i < j < |Run(c, threads, schedule).log|
    requires
      var log := Run(c, threads, schedule).log;
      log[i].call.Add? && log[j].call.Query? && log[i].call.hash == log[j].call.hash
    ensures Run(c, threads, schedule).log[j].found
  {
    hide Run, RunSerially, Slices;
    RunsAreSerial(c, threads, schedule);
    var log := Run(c, threads, schedule).log;
    SerialBits(c, log[..j], i);
  }

  // ---------------------------------------------------------------- two races

  ghost predicate Reachable(c: Config, threads: nat, s: State)
    requires Usable(c)
  {
    exists schedule :: PossibleRun(c, threads, schedule) && Run(c, threads, schedule) == s
  }

  lemma Next(c: Config, threads: nat, s: State, m: Move) returns (s': State)
    requires Usable(c) && Reachable(c, threads, s) && Possible(c, m, threads)
    ensures Shaped(c, s) && |s.threads| == threads && s' == Step(c, s, m) && Reachable(c, threads, s')
  {
    hide Step, Usable;
    var schedule :| PossibleRun(c, threads, schedule) && Run(c, threads, schedule) == s;
    s' := Step(c, s, m);
    assert (schedule + [m])[..|schedule|] == schedule;
    assert Run(c, threads, schedule + [m]) == s';
  }

  /** A thread that is alone in the section, or needs no lock, works on. */
  predicate MayWork(c: Config, s: State, t: nat) {
    t < |s.threads| && InSection(s.threads[t]) && s.owner == (if c.multithreaded then Some(t) else None)
  }

  /** With all its remaining bits set, a call goes through its loop without changing anything. */
  lemma {:induction false} SkipsSetBits(c: Config, s: State, t: nat, i: nat) returns (s': State)
    requires Usable(c) && Reachable(c, |s.threads|, s) && Shaped(c, s) && MayWork(c, s, t)
    requires s.threads[t].Probing? && s.threads[t].i == i
    requires forall j | i <= j < c.k :: IsSet(c, s.shared.vector, s.threads[t].call, j)
    ensures Reachable(c, |s.threads|, s') && Shaped(c, s')
    ensures
      var Probing(call, _, n) := s.threads[t];
      s' == s.(threads := s.threads[t := Counting(call, true, Todo(call, n, c.k))])
    decreases c.k - i
  {
    hide Usable, IsSet, Reachable, Todo;
    var call := s.threads[t].call;
    s' := Next(c, |s.threads|, s, Move(t, AddString(call.hash)));
    if i < c.k {
      s' := SkipsSetBits(c, s', t, i + 1);
      assert s'.threads == s.threads[t := s'.threads[t]];
    }
  }

  /** The end of a call: its counters are incremented, it unlocks, and it is logged. */
  lemma {:induction false} CountsAndEnds(c: Config, s: State, t: nat) returns (s': State)
    requires Usable(c) && Reachable(c, |s.threads|, s) && Shaped(c, s) && MayWork(c, s, t) && s.threads[t].Counting?
    ensures Reachable(c, |s.threads|, s') && Shaped(c, s')
    ensures
      var Counting(call, found, todo) := s.threads[t];
      && s'.shared == Incremented(s.shared, todo) && s'.owner == None
      && s'.log == s.log + [Entry(call, found, s.begun[t])]
      && s'.threads == s.threads[t := if call.Query? && call.thenAdd && !found then Locking(Add(call.hash)) else Idle]
    decreases |s.threads[t].todo|
  {
    hide Usable, Reachable;
    var Counting(call, found, todo) := s.threads[t];
    s' := Next(c, |s.threads|, s, Move(t, AddString(call.hash)));
    if todo != [] {
      s' := Next(c, |s.threads|, s', Move(t, AddString(call.hash)));
      s' := CountsAndEnds(c, s', t);
      assert s'.threads == s.threads[t := s'.threads[t]];
    }
  }

  function ZeroHash(c: Config): (h: Hash)
    ensures |h| == c.bytes
  {
    seq(c.bytes, _ => 0)
  }

  /** A hash whose first bit number is 1, and whose other bit numbers are 0. */
  function OneHash(c: Config): (h: Hash)
    requires 0 < c.M <= 8 * c.bytes
    ensures |h| == c.bytes
  {
    SetBitAt(ZeroHash(c), c.M - 1)
  }

  lemma {:induction false} ZeroSlices(c: Config, offset: nat, n: nat)
    requires offset + n <= 8 * c.bytes
    ensures Slice(ZeroHash(c), offset, n) == 0
  {
    if n > 0 {
      ZeroSlices(c, offset, n - 1);
      ZeroHasNoBits((offset + n - 1) % 8);
    }
  }

  /** Bits of the second hash that are not the set one. */
  lemma OtherSlices(c: Config, offset: nat, n: nat)
    requires 0 < c.M <= 8 * c.bytes && offset + n <= 8 * c.bytes && (c.M <= offset || offset + n < c.M)
    ensures Slice(OneHash(c), offset, n) == 0
  {
    var zero, one := ZeroHash(c), OneHash(c);
    forall b | offset <= b < offset + n ensures GetBit(one, b) == GetBit(zero, b) {
      SetBitTests(zero[(c.M - 1) / 8], (c.M - 1) % 8, b % 8);
    }
    SliceDeterminesBits(one, zero, offset, n);
    ZeroSlices(c, offset, n);
  }

  lemma FirstOfOne(c: Config)
    requires 0 < c.M <= 8 * c.bytes
    ensures Slice(OneHash(c), 0, c.M) == 1
  {
    OtherSlices(c, 0, c.M - 1);
    SetBitTests(0, (c.M - 1) % 8, (c.M - 1) % 8);
    assert GetBit(OneHash(c), c.M - 1);
  }

  lemma TwoHashes(c: Config, i: nat)
    requires Usable(c) && i < c.k
    ensures 0 < c.M <= 8 * c.bytes
    ensures Bit(c, Add(ZeroHash(c)), i) == 0
    ensures Bit(c, Add(OneHash(c)), i) == if i == 0 then 1 else 0
  {
    hide Offset, Slice, OneHash, ZeroHash;
    SliceInRange(i, c.M, c.k);
    FirstSlice(c, i);
    ZeroSlices(c, Offset(i, c.M), c.M);
    if i == 0 {
      FirstOfOne(c);
    } else {
      OtherSlices(c, Offset(i, c.M), c.M);
    }
  }

  lemma FirstSlice(c: Config, i: nat)
    requires Usable(c) && i < c.k
    ensures c.M <= 8 * c.bytes && Offset(0, c.M) == 0 && (i > 0 ==> c.M <= Offset(i, c.M))
  {
    hide Offset;
    OffsetUnit(c.M);
    OffsetMonotonic(1, c.k, c.M);
    if i > 0 { OffsetMonotonic(1, i, c.M); }
    NoOffset(c.M);
  }

  lemma NoOffset(M: nat)
    ensures Offset(0, M) == 0
  {
  }

  /** What two adds do to the first byte of the vector if both load it before either stores it. */
  lemma FirstByte(c: Config, v: seq<byte>)
    requires Usable(c) && 0 < c.k && |v| == Pow2(c.M - 3) && v[0] == 0
    ensures 0 < c.M <= 8 * c.bytes
    ensures
      var zero, one := ZeroHash(c), OneHash(c);
      && !IsSet(c, v, Add(zero), 0) && Loaded(c, v, Add(zero), 0) == 0
      && !IsSet(c, v, Add(one), 0) && Loaded(c, v, Add(one), 0) == 0
      && Stored(c, v, Add(one), 0, 0) == v[0 := 2] && Stored(c, v[0 := 2], Add(zero), 0, 0) == v[0 := 1]
      && !IsSet(c, v[0 := 1], Query(one, false), 0)
      && OthersAreSet(c, v[0 := 1], Add(one))
  {
    TwoHashes(c, 0);
    var w, call := v[0 := 1], Add(OneHash(c));
    forall j | 0 < j < c.k ensures IsSet(c, w, call, j) {
      TwoHashes(c, j);
    }
    assert SetBit(0, 0) == 1 && SetBit(0, 1) == 2;
  }

  /** All bits of a call but the first are set. */
  ghost predicate OthersAreSet(c: Config, v: seq<byte>, call: Call)
    requires Usable(c) && |v| == Pow2(c.M - 3) && |call.hash| == c.bytes
  {
    forall j | 0 < j < c.k :: IsSet(c, v, call, j)
  }

  /** A thread that locks for an add, and loads the byte of its first bit, which is clear. */
  lemma LoadsFirst(c: Config, s: State, t: nat) returns (s': State)
    requires Usable(c) && 0 < c.k && Reachable(c, |s.threads|, s) && Shaped(c, s)
    requires s.owner == None && t < |s.threads| && s.threads[t].Locking? && s.threads[t].call.Add?
    requires !IsSet(c, s.shared.vector, s.threads[t].call, 0)
    ensures Reachable(c, |s.threads|, s') && Shaped(c, s')
    ensures
      var call := s.threads[t].call;
      s' == s.(owner := if c.multithreaded then Some(t) else None,
               threads := s.threads[t := Storing(call, 0, 0, Loaded(c, s.shared.vector, call, 0))])
  {
    hide Usable, Reachable, IsSet, Loaded;
    var m := Move(t, AddString(s.threads[t].call.hash));
    s' := Next(c, |s.threads|, s, m);
    s' := Next(c, |s.threads|, s', m);
    s' := Next(c, |s.threads|, s', m);
    assert s'.threads == s.threads[t := s'.threads[t]];
  }

  /** A thread begins an add without the mutex, after a query for a string, and loads the byte of its first bit. */
  lemma BeginsAdd(c: Config, s: State, t: nat, call: Call) returns (s': State)
    requires Usable(c) && 0 < c.k && Reachable(c, |s.threads|, s) && Shaped(c, s)
    requires !c.multithreaded && s.owner == None && t < |s.threads| && s.threads[t].Idle?
    requires call.Add? && |call.hash| == c.bytes && !IsSet(c, s.shared.vector, call, 0)
    ensures Reachable(c, |s.threads|, s') && Shaped(c, s')
    ensures s'.owner == None && s'.shared.vector == s.shared.vector
    ensures s'.threads == s.threads[t := Storing(call, 0, 0, Loaded(c, s.shared.vector, call, 0))]
  {
    hide Usable, Reachable, IsSet, Loaded;
    if c.stringsOnly {
      SameBit(c, s.shared.vector, call.hash);
      s' := QueryFindsNothing(c, s, t, AddString(call.hash));
    } else {
      s' := Next(c, |s.threads|, s, Move(t, call));
    }
    s' := LoadsFirst(c, s', t);
    assert s'.threads == s.threads[t := s'.threads[t]];
  }

  /** A thread begins a query and finds its first bit clear. */
  lemma QueryFindsNothing(c: Config, s: State, t: nat, call: Call) returns (s': State)
    requires Usable(c) && 0 < c.k && Reachable(c, |s.threads|, s) && Shaped(c, s)
    requires s.owner == None && t < |s.threads| && s.threads[t].Idle?
    requires call.Query? && (c.stringsOnly ==> call.thenAdd) && |call.hash| == c.bytes
    requires !IsSet(c, s.shared.vector, call, 0)
    ensures Reachable(c, |s.threads|, s') && Shaped(c, s')
    ensures s'.shared == s.shared.(hits := s.shared.hits + 1) && s'.owner == None
    ensures s'.log == s.log + [Entry(call, false, |s.log|)]
    ensures s'.threads == s.threads[t := if call.thenAdd then Locking(Add(call.hash)) else Idle]
  {
    hide Usable, Reachable, IsSet;
    s' := Next(c, |s.threads|, s, Move(t, call));
    s' := Next(c, |s.threads|, s', Move(t, AddString(call.hash)));
    s' := Next(c, |s.threads|, s', Move(t, AddString(call.hash)));
    assert s'.threads[t] == Counting(call, false, [Hits]);
    s' := CountsAndEnds(c, s', t);
    assert [Hits][1..] == [];
    assert s'.threads == s.threads[t := s'.threads[t]];
  }

  lemma BothStore(c: Config, threads: nat) returns (s: State)
    requires Usable(c) && 0 < c.k && !c.multithreaded && 2 <= threads
    ensures 0 < c.M <= 8 * c.bytes
    ensures Reachable(c, threads, s) && Shaped(c, s) && |s.threads| == threads && s.owner == None
    ensures s.shared.vector == seq(Pow2(c.M - 3), _ => 0)[0 := 1] && s.threads[1] == Probing(Add(OneHash(c)), 1, 1)
  {
    hide Usable, Reachable, IsSet, Loaded, Stored, ZeroHash, OneHash;
    s := Start(c, threads);
    StartIsReachable(c, threads);
    ghost var v := s.shared.vector;
    FirstByte(c, v);
    var a, b := Add(ZeroHash(c)), Add(OneHash(c));
    s := BeginsAdd(c, s, 0, a);
    s := BeginsAdd(c, s, 1, b);
    assert s.threads[0] == Storing(a, 0, 0, 0) && s.threads[1] == Storing(b, 0, 0, 0);
    s := Next(c, threads, s, Move(1, AddString(b.hash)));
    s := Next(c, threads, s, Move(0, AddString(a.hash)));
  }

  lemma StartIsReachable(c: Config, threads: nat)
    requires Usable(c)
    ensures Reachable(c, threads, Start(c, threads))
  {
    assert Run(c, threads, []) == Start(c, threads);
  }

  /** Without the mutex two adds that write to the same byte can lose a bit: an add has ended, its first bit is clear,
      and a query that begins after it does not find it. */
  lemma AddIsLost(c: Config, threads: nat) returns (s: State)
    requires Usable(c) && 0 < c.k && !c.multithreaded && 2 <= threads
    ensures 0 < c.M <= 8 * c.bytes
    ensures Reachable(c, threads, s) && Shaped(c, s) && !IsSet(c, s.shared.vector, Add(OneHash(c)), 0)
    ensures
      var n := |s.log|;
      && n >= 2 && s.log[n - 2].call == Add(OneHash(c))
      && s.log[n - 1] == Entry(Query(OneHash(c), c.stringsOnly), false, n - 1)
  {
    hide Reachable, IsSet, Loaded, Stored, ZeroHash, OneHash;
    s := BothStore(c, threads);
    var v := s.shared.vector;
    FirstByte(c, seq(Pow2(c.M - 3), _ => 0));
    s := SkipsSetBits(c, s, 1, 1);
    IncrementedKeepsVector(s.shared, s.threads[1].todo);
    s := CountsAndEnds(c, s, 1);
    SameBit(c, v, OneHash(c));
    s := QueryFindsNothing(c, s, 1, Query(OneHash(c), c.stringsOnly));
  }

  /** All calls for a hash look at the same bits. */
  lemma SameBit(c: Config, v: seq<byte>, h: Hash)
    requires Usable(c) && 0 < c.k && |v| == Pow2(c.M - 3) && |h| == c.bytes
    ensures IsSet(c, v, AddString(h), 0) == IsSet(c, v, Query(h, false), 0) == IsSet(c, v, Add(h), 0)
  {
  }

  lemma {:induction false} IncrementedKeepsVector(s: Shared, todo: seq<Counter>)
    ensures Incremented(s, todo).vector == s.vector
    decreases |todo|
  {
    if todo != [] {
      IncrementedKeepsVector(Write(s, todo[0], Value(s, todo[0]) + 1), todo[1..]);
    }
  }

  /** A query finds what was added by a call that ended before it began. */
  ghost predicate AddsAreFound(log: seq<Entry>) {
    forall i, j | 0 <= i < j < |log| && i < log[j].begun && log[i].call.Add? && log[j].call.Query?
      && log[i].call.hash == log[j].call.hash :: log[j].found
  }

  /** The vector has all bits of every add that has ended. */
  ghost predicate AddsAreHeld(c: Config, s: State)
    requires Shaped(c, s) && FittingLog(c, s.log)
  {
    forall i | 0 <= i < |s.log| && s.log[i].call.Add? ::
      Slices(s.log[i].call.hash, c.M, c.k) <= BitSet(s.shared.vector)
  }

  /** In every run of several threads a query that begins after an add of its hash has ended finds it: exactly for
      filters with the mutex. */
  lemma AddsAreFoundExactlyWithMutex(c: Config, threads: nat)
    requires Usable(c) && 0 < c.k && 2 <= threads
    ensures c.multithreaded <==> forall s | Reachable(c, threads, s) :: AddsAreFound(s.log)
  {
    hide Usable;
    if c.multithreaded {
      forall s | Reachable(c, threads, s) ensures AddsAreFound(s.log) {
        var schedule :| PossibleRun(c, threads, schedule) && Run(c, threads, schedule) == s;
        LogFindsAdds(c, threads, schedule);
      }
    } else {
      hide Reachable, IsSet, OneHash;
      var s := AddIsLost(c, threads);
      var n := |s.log|;
      assert s.log[n - 2].call.Add? && s.log[n - 1].call.Query? && !s.log[n - 1].found;
    }
  }

  lemma LogFindsAdds(c: Config, threads: nat, schedule: seq<Move>)
    requires Usable(c) && c.multithreaded && PossibleRun(c, threads, schedule)
    ensures AddsAreFound(Run(c, threads, schedule).log)
  {
    hide Run, Usable;
    var log := Run(c, threads, schedule).log;
    forall i, j | 0 <= i < j < |log| && log[i].call.Add? && log[j].call.Query? && log[i].call.hash == log[j].call.hash
      ensures log[j].found
    {
      QueryAfterAddFinds(c, threads, schedule, i, j);
    }
  }

  /** In every state of every run of several threads the vector holds all adds that have ended: exactly for filters
      with the mutex. Without it, bits are lost for good. */
  lemma AddsAreHeldExactlyWithMutex(c: Config, threads: nat)
    requires Usable(c) && 0 < c.k && 2 <= threads
    ensures forall s | Reachable(c, threads, s) :: Shaped(c, s) && FittingLog(c, s.log)
    ensures c.multithreaded <==> forall s | Reachable(c, threads, s) :: AddsAreHeld(c, s)
  {
    hide Usable;
    forall s | Reachable(c, threads, s) ensures Shaped(c, s) && FittingLog(c, s.log) {
      var schedule :| PossibleRun(c, threads, schedule) && Run(c, threads, schedule) == s;
      LogFits(c, threads, schedule);
    }
    if c.multithreaded {
      forall s | Reachable(c, threads, s) ensures AddsAreHeld(c, s) {
        var schedule :| PossibleRun(c, threads, schedule) && Run(c, threads, schedule) == s;
        RunKeepsInvariant(c, threads, schedule);
        EndedAddsAreHeld(c, s);
      }
    } else {
      hide Reachable, IsSet, OneHash, Slices, BitSet;
      var s := AddIsLost(c, threads);
      FirstBitIsMissing(c, s.shared.vector, OneHash(c));
      assert s.log[|s.log| - 2].call == Add(OneHash(c));
    }
  }

  lemma {:induction false} LogFits(c: Config, threads: nat, schedule: seq<Move>)
    requires Usable(c) && PossibleRun(c, threads, schedule)
    ensures FittingLog(c, Run(c, threads, schedule).log)
  {
    hide Work, Usable;
    if |schedule| > 0 { LogFits(c, threads, schedule[..|schedule| - 1]); }
  }

  lemma FirstBitIsMissing(c: Config, v: seq<byte>, h: Hash)
    requires Usable(c) && 0 < c.k && |v| == Pow2(c.M - 3) && |h| == c.bytes && !IsSet(c, v, Add(h), 0)
    ensures !(Slices(h, c.M, c.k) <= BitSet(v))
  {
    hide Slices, Pow2, GetBit;
    SliceAmong(h, c.M, 0, c.k);
    assert Bit(c, Add(h), 0) !in BitSet(v);
  }

  lemma EndedAddsAreHeld(c: Config, s: State)
    requires Shaped(c, s) && Invariant(c, s)
    ensures AddsAreHeld(c, s)
  {
    hide RunSerially, Slices, BitSet, Pow2;
    OwnerKeepsBits(c, s);
    forall i | 0 <= i < |s.log| && s.log[i].call.Add?
      ensures Slices(s.log[i].call.hash, c.M, c.k) <= BitSet(s.shared.vector)
    {
      SerialBits(c, s.log, i);
    }
  }

  /** The owner of the mutex only adds bits to those of the serial run. */
  lemma OwnerKeepsBits(c: Config, s: State)
    requires Shaped(c, s) && Invariant(c, s)
    ensures RunSerially(c, s.log).filter.bits <= BitSet(s.shared.vector)
  {
    hide RunSerially, AnswersAreSerial, FittingLog, Slices, NewBits, IsSet, Loaded, BitSet;
    if s.owner.Some? {
      var l := s.threads[s.owner.value];
      if l.Counting? || l.Incrementing? { IncrementedKeepsVector(s.shared, l.todo); }
    }
  }

  // ---------------------------------------------------------------- nsrl_bloom_addString in several threads

  /** One thread, calling only `nsrl_bloom_addString`: what it is about to add is not present. */
  ghost predicate AddsOnlyNew(c: Config, s: State)
    requires Shaped(c, s) && FittingLog(c, s.log)
  {
    var f := RunSerially(c, s.log).filter;
    && f.aliased == 0
    && forall t | 0 <= t < |s.threads| && !s.threads[t].Idle? ::
         var call := s.threads[t].call;
         if call.Add? then !Present(f, Slices(call.hash, c.M, c.k)) else call.thenAdd
  }

  lemma StepAddsOnlyNew(c: Config, s: State, m: Move)
    requires Shaped(c, s) && Possible(c, m, |s.threads|) && c.multithreaded && c.stringsOnly && |s.threads| == 1
    requires Invariant(c, s) && AddsOnlyNew(c, s)
    ensures Invariant(c, Step(c, s, m)) && AddsOnlyNew(c, Step(c, s, m))
  {
    StepKeepsInvariant(c, s, m);
    hide Progress, Abstract, RunSerially, AnswersAreSerial, FittingLog, Slices, Present, Added, Usable, IsSet, Loaded;
    hide Stored, Todo;
    var l := s.threads[m.thread];
    var w := RunSerially(c, s.log);
    if !l.Idle? { WorkKeepsCall(c, s.shared, l); }
    if l.Counting? && l.todo == [] {
      CallEnds(c, w, s.shared, l);
      OneMoreCall(c, s.log, Entry(l.call, l.found, s.begun[m.thread]));
      AliasedExactlyWhenPresent(w.filter, Slices(l.call.hash, c.M, c.k), c.k);
    }
  }

  lemma WorkKeepsCall(c: Config, shared: Shared, l: Local)
    requires Usable(c) && |shared.vector| == Pow2(c.M - 3) && Fitting(c, l) && !l.Idle?
    ensures
      var l' := Work(c, shared, l).1;
      if l.Counting? && l.todo == [] then
        if l.call.Query? && l.call.thenAdd && !l.found then l' == Locking(Add(l.call.hash)) else l'.Idle?
      else !l'.Idle? && l'.call == l.call
  {
    hide IsSet, Loaded, Stored;
  }

  lemma {:induction false} OneThreadAddsOnlyNew(c: Config, schedule: seq<Move>)
    requires Usable(c) && c.multithreaded && c.stringsOnly && PossibleRun(c, 1, schedule)
    ensures
      var s := Run(c, 1, schedule);
      Invariant(c, s) && AddsOnlyNew(c, s)
  {
    hide Step, Invariant, Usable;
    RunKeepsInvariant(c, 1, schedule);
    if |schedule| > 0 {
      var init := schedule[..|schedule| - 1];
      OneThreadAddsOnlyNew(c, init);
      StepAddsOnlyNew(c, Run(c, 1, init), schedule[|schedule| - 1]);
    }
  }

  /** Two threads ask for the same string, and both add it. */
  lemma BothAsk(c: Config, threads: nat) returns (s: State)
    requires Usable(c) && 0 < c.k && c.multithreaded && 2 <= threads
    ensures Reachable(c, threads, s) && Shaped(c, s) && |s.threads| == threads && s.owner == None
    ensures s.shared == Shared(seq(Pow2(c.M - 3), _ => 0), 0, 0, 0, 2)
    ensures s.threads[0] == s.threads[1] == Locking(Add(ZeroHash(c)))
  {
    hide Reachable, IsSet, ZeroHash;
    s := Start(c, threads);
    StartIsReachable(c, threads);
    ZeroBitAdded(c, s.shared.vector);
    SameBit(c, s.shared.vector, ZeroHash(c));
    s := QueryFindsNothing(c, s, 0, AddString(ZeroHash(c)));
    s := QueryFindsNothing(c, s, 1, AddString(ZeroHash(c)));
  }

  lemma BothAdd(c: Config, threads: nat) returns (s: State)
    requires Usable(c) && 0 < c.k && c.multithreaded && 2 <= threads
    ensures Reachable(c, threads, s) && s.owner == None && s.shared.aliased == 1
  {
    hide Reachable, IsSet, Loaded, Stored, ZeroHash, Todo, Pow2;
    s := BothAsk(c, threads);
    var v, call := s.shared.vector, Add(ZeroHash(c));
    ZeroBitAdded(c, v);
    s := LoadsFirst(c, s, 0);
    s := Next(c, threads, s, Move(0, AddString(call.hash)));
    s := SkipsSetBits(c, s, 0, 1);
    CountersAre(s.shared, call, 1, c.k);
    s := CountsAndEnds(c, s, 0);
    s := Next(c, threads, s, Move(1, AddString(call.hash)));
    s := SkipsSetBits(c, s, 1, 0);
    CountersAre(s.shared, call, 0, c.k);
    s := CountsAndEnds(c, s, 1);
  }

  /** Adding the zero hash sets bit 0, which is all its bits. */
  lemma ZeroBitAdded(c: Config, v: seq<byte>)
    requires Usable(c) && 0 < c.k && v == seq(Pow2(c.M - 3), _ => 0)
    ensures
      var call := Add(ZeroHash(c));
      var w := Stored(c, v, call, 0, Loaded(c, v, call, 0));
      !IsSet(c, v, call, 0) && forall j | 0 <= j < c.k :: IsSet(c, w, call, j)
  {
    TwoHashes(c, 0);
    var call := Add(ZeroHash(c));
    var w := Stored(c, v, call, 0, Loaded(c, v, call, 0));
    assert SetBit(0, 0) == 1;
    forall j | 0 <= j < c.k ensures IsSet(c, w, call, j) {
      TwoHashes(c, j);
    }
  }

  lemma {:induction false} AliasedOnlyGrows(s: Shared, todo: seq<Counter>)
    ensures s.aliased <= Incremented(s, todo).aliased
    decreases |todo|
  {
    if todo != [] {
      AliasedOnlyGrows(Write(s, todo[0], Value(s, todo[0]) + 1), todo[1..]);
    }
  }

  /** Not even in the middle of a call is an aliased add counted. */
  lemma NoneAliased(c: Config, s: State)
    requires Shaped(c, s) && Invariant(c, s) && AddsOnlyNew(c, s)
    ensures s.shared.aliased == 0
  {
    hide Slices, Present, AnswersAreSerial, IsSet, Loaded, Stored, With, NewBits;
    var w := RunSerially(c, s.log);
    if s.owner.Some? {
      var l := s.threads[s.owner.value];
      if l.Counting? || l.Incrementing? {
        AliasedOnlyGrows(s.shared, l.todo);
        AliasedExactlyWhenPresent(w.filter, Slices(l.call.hash, c.M, c.k), c.k);
      }
    }
  }

  /** Threads that only call `nsrl_bloom_addString` never count an aliased add: exactly if there is just one of them,
      for the function takes the mutex twice. */
  lemma AddStringNeverAliasesAlone(c: Config, threads: nat)
    requires Usable(c) && 0 < c.k && c.multithreaded && c.stringsOnly && 1 <= threads
    ensures threads == 1 <==> forall s | Reachable(c, threads, s) :: s.shared.aliased == 0
  {
    hide Usable;
    if threads == 1 {
      forall s | Reachable(c, threads, s) ensures s.shared.aliased == 0 {
        var schedule :| PossibleRun(c, threads, schedule) && Run(c, threads, schedule) == s;
        OneThreadAddsOnlyNew(c, schedule);
        NoneAliased(c, s);
      }
    } else {
      var s := BothAdd(c, threads);
    }
  }
}
