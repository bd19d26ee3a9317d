/**
  The distributed data buffer under concurrency.  The receive callback, the
  worker, ResetData and any number of readers run interleaved; every lock
  operation, every notification and every change of shared data is a step of
  its own.  The callback holds the write guard from its first to its last step,
  so callbacks from several threads appear as one.
 */
module DdbProtocol {
  import opened Results
  import opened DdbFrame
  import opened Ddb

  datatype Actor = Receiver | Worker | Resetter

  /** Why a frame is closed: a missed sync flag of the previous frame, or a sync flag. */
  datatype Cause = MissedSync | Sync

  datatype ReceiverPc =
    | Idle
    | Check(s: Sample)
    | Close(s: Sample, cause: Cause)
    | Swap(s: Sample, cause: Cause)
    | Notify(s: Sample, cause: Cause)
    | Fill(s: Sample, cause: Cause)
    | Put(s: Sample)
    | Commit(s: Sample)

  datatype WorkerPc = Waiting | Took | Exclusive | Switching | Switched(switched: bool) | Announcing | Delivering

  datatype ResetterPc = Resting | HasRead | HasWrite | HasAll

  datatype ReaderPc = Entered | Holding(frame: Option<nat>)

  /**
    A closed frame: the samples stored since the previous closing, the cells
    of the write frame when the first of them came, and the frame at its closing.
   */
  datatype Handover = Handover(group: seq<Sample>, opening: seq<Cell>, frame: Frame)

  /** History of a run; no step depends on it. */
  datatype Log = Log(
    processed: seq<Sample>,       // all samples stored by the callback
    pending: seq<Sample>,         // those since the last closing
    closed: seq<seq<Sample>>,     // what was pending at each closing
    ended: seq<Handover>,         // the write frame at each closing
    begun: seq<Cell>,             // the cells of the write frame when the pending samples began
    handed: seq<Handover>,        // frames swapped into the stock
    delivered: seq<nat>,          // which of them became the read frame
    announced: seq<Frame>,        // the frames with which the sync listeners were called
    replaced: nat,                // frames replaced in the stock before delivery
    wasReset: bool)

  datatype State = State(
    core: Core,
    excl: Option<Actor>,          // exclusive holder of the read lock
    shared: nat,                  // number of shared holders of the read lock
    writeGuard: Option<Actor>,
    stockGuard: Option<Actor>,
    receiver: ReceiverPc,
    worker: WorkerPc,
    resetter: ResetterPc,
    readers: map<nat, ReaderPc>,
    log: Log)

  datatype Action =
    | Begin(s: Sample) | CheckSample | TrySwitch | DoSwap | DoNotify | DoFill | DoPut | DoCommit
    | TakePermit | LockRead | LockStock | DoSwitch | UnlockRead | ShareRead | DoneDelivering
    | ResetLockRead | ResetLockWrite | ResetLockStock | DoReset
    | Enter(id: nat) | ReadPointer(id: nat) | Leave(id: nat)

  // -------------------------------------------------------------------- steps

  function After(s: Sample, cause: Cause): (r: ReceiverPc) {
    if cause == MissedSync then Put(s) else Commit(s)
  }

  const NO_HISTORY: Log := Log([], [], [], [], [], [], [], [], 0, false)

  function CloseLog(log: Log, f: Frame): (r: Log) {
    log.(closed := log.closed + [log.pending], ended := log.ended + [Handover(log.pending, log.begun, f)], pending := [])
  }

  /** A blocked action is not enabled; the thread stays where it is. */
  predicate Enabled(st: State, a: Action)
    requires Permuted(st.core)
  {
    match a
    case Begin(s) => st.receiver == Idle && st.writeGuard == None
    case CheckSample => st.receiver.Check?
    case TrySwitch => st.receiver.Close? && (Dumps(st.core) || st.stockGuard == None)
    case DoSwap => st.receiver.Swap?
    case DoNotify => st.receiver.Notify?
    case DoFill => st.receiver.Fill?
    case DoPut => st.receiver.Put?
    case DoCommit => st.receiver.Commit?
    case TakePermit => st.worker == Waiting && st.core.permits > 0
    case LockRead => st.worker == Took && st.excl == None && st.shared == 0
    case LockStock => st.worker == Exclusive && st.stockGuard == None
    case DoSwitch => st.worker == Switching
    case UnlockRead => st.worker.Switched?
    case ShareRead => st.worker == Announcing && st.excl == None
    case DoneDelivering => st.worker == Delivering && st.shared > 0
    case ResetLockRead => st.resetter == Resting && st.excl == None && st.shared == 0
    case ResetLockWrite => st.resetter == HasRead && st.writeGuard == None
    case ResetLockStock => st.resetter == HasWrite && st.stockGuard == None
    case DoReset => st.resetter == HasAll
    case Enter(i) => i !in st.readers && st.excl == None
    case ReadPointer(i) => i in st.readers && st.readers[i] == Entered
    case Leave(i) => i in st.readers && st.readers[i].Holding? && st.shared > 0
  }

  function Next(st: State, a: Action): (r: State)
    requires Permuted(st.core) && Enabled(st, a)
    ensures Permuted(r.core)
  {
    match a
    // receive callback
    case Begin(s) => st.(receiver := Check(s), writeGuard := Some(Receiver))
    case CheckSample =>
      var s := st.receiver.s;
      if !Accepts(st.core, s) then st.(receiver := Idle, writeGuard := None)
      else if ClosesPrevious(st.core, s) then st.(core := AnalyseWrite(st.core), receiver := Close(s, MissedSync))
      else st.(receiver := Put(s))
    case TrySwitch =>
      var (s, cause) := (st.receiver.s, st.receiver.cause);
      if Dumps(st.core) then st.(receiver := After(s, cause), log := CloseLog(st.log, st.core.frames[st.core.write]))
      else st.(receiver := Swap(s, cause), stockGuard := Some(Receiver))
    case DoSwap =>
      var handover := Handover(st.log.pending, st.log.begun, st.core.frames[st.core.write]);
      st.(core := SwapWrite(st.core),
          receiver := Notify(st.receiver.s, st.receiver.cause),
          log := CloseLog(st.log, handover.frame).(handed := st.log.handed + [handover],
                                   replaced := st.log.replaced + if st.core.full then 1 else 0))
    case DoNotify => st.(core := NotifyReady(st.core), receiver := Fill(st.receiver.s, st.receiver.cause))
    case DoFill =>
      st.(core := FillStock(st.core), stockGuard := None, receiver := After(st.receiver.s, st.receiver.cause))
    case DoPut =>
      var s := st.receiver.s;
      var stored := Store(st.core, s);
      st.(core := if s.sync then AnalyseWrite(stored) else stored,
          receiver := if s.sync then Close(s, Sync) else Commit(s),
          log := st.log.(processed := st.log.processed + [s], pending := st.log.pending + [s],
                         begun := if st.log.pending == [] then st.core.frames[st.core.write].cells else st.log.begun))
    case DoCommit => st.(core := Remember(st.core, st.receiver.s), receiver := Idle, writeGuard := None)
    // worker thread
    case TakePermit => st.(core := st.core.(permits := st.core.permits - 1), worker := Took)
    case LockRead => st.(worker := Exclusive, excl := Some(Worker))
    case LockStock => st.(worker := Switching, stockGuard := Some(Worker))
    case DoSwitch =>
      st.(core := SwitchRead(st.core).0,
          worker := Switched(SwitchRead(st.core).1 == Ok),
          stockGuard := None,
          log := if st.core.full && |st.log.handed| > 0
                 then st.log.(delivered := st.log.delivered + [|st.log.handed| - 1]) else st.log)
    case UnlockRead => st.(worker := if st.worker.switched then Announcing else Waiting, excl := None)
    case ShareRead =>
      st.(worker := Delivering, shared := st.shared + 1,
          log := st.log.(announced := st.log.announced + [st.core.frames[st.core.read]]))
    case DoneDelivering => st.(worker := Waiting, shared := st.shared - 1)
    // ResetData
    case ResetLockRead => st.(resetter := HasRead, excl := Some(Resetter))
    case ResetLockWrite => st.(resetter := HasWrite, writeGuard := Some(Resetter))
    case ResetLockStock => st.(resetter := HasAll, stockGuard := Some(Resetter))
    case DoReset =>
      st.(core := ResetAll(st.core), resetter := Resting,
          excl := None, writeGuard := None, stockGuard := None,
          log := st.log.(wasReset := true))
    // readers
    case Enter(i) => st.(shared := st.shared + 1, readers := st.readers[i := Entered])
    case ReadPointer(i) => st.(readers := st.readers[i := Holding(Readable(st.core))])
    case Leave(i) => st.(shared := st.shared - 1, readers := st.readers - {i})
  }

  function Do(st: State, a: Action): (r: State)
    requires Permuted(st.core)
    ensures Permuted(r.core)
  {
    if Enabled(st, a) then Next(st, a) else st
  }

  /** One interleaving: a scheduler's choice of actions; blocked choices change nothing. */
  function Run(st: State, actions: seq<Action>): (r: State)
    requires Permuted(st.core)
    ensures Permuted(r.core)
    decreases |actions|
  {
    if actions == [] then st else Run(Do(st, actions[0]), actions[1..])
  }

  /** The history has no influence on a run. */
  lemma StepIgnoresHistory(st: State, log: Log, a: Action)
    requires Permuted(st.core)
    ensures Do(st.(log := log), a).(log := Do(st, a).log) == Do(st, a)
  {
  }

  lemma {:induction false} RunIgnoresHistory(st: State, log: Log, actions: seq<Action>)
    requires Permuted(st.core)
    ensures Run(st.(log := log), actions).(log := Run(st, actions).log) == Run(st, actions)
    decreases |actions|
  {
    if actions != [] {
      var st1, st1' := Do(st, actions[0]), Do(st.(log := log), actions[0]);
      StepIgnoresHistory(st, log, actions[0]);
      assert st1' == st1.(log := st1'.log);
      RunIgnoresHistory(st1, st1'.log, actions[1..]);
    }
  }

  function Start(handle: int, n: nat, strategy: Strategy): (st: State)
    ensures Permuted(st.core)
  {
    State(Created(handle, n, strategy), None, 0, None, None, Idle, Waiting, Resting, map[], NO_HISTORY)
  }

  // ------------------------------------------------------------ mutual exclusion

  ghost predicate ReceiverInStock(pc: ReceiverPc) {
    pc.Swap? || pc.Notify? || pc.Fill?
  }

  ghost predicate WorkerExclusive(pc: WorkerPc) {
    pc.Exclusive? || pc.Switching? || pc.Switched?
  }

  /** Every lock is held exactly by the thread whose program counter says so. */
  ghost predicate Guards(st: State) {
    && (st.writeGuard == Some(Receiver) <==> st.receiver != Idle)
    && (st.writeGuard == Some(Resetter) <==> st.resetter.HasWrite? || st.resetter.HasAll?)
    && st.writeGuard != Some(Worker)
    && (st.stockGuard == Some(Receiver) <==> ReceiverInStock(st.receiver))
    && (st.stockGuard == Some(Worker) <==> st.worker.Switching?)
    && (st.stockGuard == Some(Resetter) <==> st.resetter.HasAll?)
    && (st.excl == Some(Worker) <==> WorkerExclusive(st.worker))
    && (st.excl == Some(Resetter) <==> st.resetter != Resting)
    && st.excl != Some(Receiver)
  }

  /** Shared holders are counted, exclude the exclusive holder, and see the read frame. */
  ghost predicate Shares(st: State) {
    && st.shared == |st.readers| + (if st.worker == Delivering then 1 else 0)
    && (st.excl != None ==> st.shared == 0)
    && (forall i :: i in st.readers && st.readers[i].Holding? && st.readers[i].frame.Some? ==>
          st.readers[i].frame.value == st.core.read)
  }

  ghost predicate Locks(st: State) {
    Guards(st) && Shares(st)
  }

  lemma GuardsKept(st: State, a: Action)
    requires Permuted(st.core) && Guards(st) && Enabled(st, a)
    ensures Guards(Next(st, a))
  {
  }

  lemma EnterSharesKept(st: State, i: nat)
    requires Permuted(st.core) && Shares(st) && Enabled(st, Enter(i))
    ensures Shares(Next(st, Enter(i)))
  {
    assert |st.readers[i := Entered]| == |st.readers| + 1;
  }

  lemma LeaveSharesKept(st: State, i: nat)
    requires Permuted(st.core) && Shares(st) && Enabled(st, Leave(i))
    ensures Shares(Next(st, Leave(i)))
  {
    assert |st.readers - {i}| == |st.readers| - 1;
  }

  lemma ReadPointerSharesKept(st: State, i: nat)
    requires Permuted(st.core) && Shares(st) && Enabled(st, ReadPointer(i))
    ensures Shares(Next(st, ReadPointer(i)))
  {
    assert |st.readers[i := Holding(Readable(st.core))]| == |st.readers|;
  }

  lemma SwitchSharesKept(st: State)
    requires Permuted(st.core) && Locks(st) && Enabled(st, DoSwitch)
    ensures Shares(Next(st, DoSwitch))
  {
    assert st.readers.Keys == {};
  }

  lemma WorkerSharesKept(st: State, a: Action)
    requires Permuted(st.core) && Locks(st) && Enabled(st, a)
    requires a.TakePermit? || a.LockRead? || a.LockStock? || a.UnlockRead? || a.ShareRead? || a.DoneDelivering?
    ensures Shares(Next(st, a))
  {
    assert Next(st, a).core.read == st.core.read && Next(st, a).readers == st.readers;
  }

  lemma OtherSharesKept(st: State, a: Action)
    requires Permuted(st.core) && Enabled(st, a)
    requires a.Begin? || a.CheckSample? || a.TrySwitch? || a.DoSwap? || a.DoNotify? || a.DoFill? || a.DoPut?
             || a.DoCommit? || a.ResetLockRead? || a.ResetLockWrite? || a.ResetLockStock? || a.DoReset?
    ensures var r := Next(st, a);
            && r.core.read == st.core.read && r.readers == st.readers && r.shared == st.shared
            && r.worker == st.worker && (r.excl == st.excl || r.excl == None || st.shared == 0)
  {
  }

  lemma SharesKept(st: State, a: Action)
    requires Permuted(st.core) && Locks(st) && Enabled(st, a)
    ensures Shares(Next(st, a))
  {
    match a
    case DoSwitch => SwitchSharesKept(st);
    case Enter(i) => EnterSharesKept(st, i);
    case ReadPointer(i) => ReadPointerSharesKept(st, i);
    case Leave(i) => LeaveSharesKept(st, i);
    case TakePermit => WorkerSharesKept(st, a);
    case LockRead => WorkerSharesKept(st, a);
    case LockStock => WorkerSharesKept(st, a);
    case UnlockRead => WorkerSharesKept(st, a);
    case ShareRead => WorkerSharesKept(st, a);
    case DoneDelivering => WorkerSharesKept(st, a);
    case _ => OtherSharesKept(st, a);
  }

  lemma LocksKept(st: State, a: Action)
    requires Permuted(st.core) && Locks(st) && Enabled(st, a)
    ensures Locks(Next(st, a))
  {
    GuardsKept(st, a);
    SharesKept(st, a);
  }

  // ------------------------------------------------------------------- freezing

  /** While anybody holds the read lock shared, no step changes which frame is read nor its content. */
  lemma SharedFreezesReadFrame(st: State, a: Action)
    requires Permuted(st.core) && Locks(st) && st.shared > 0 && Enabled(st, a)
    ensures Next(st, a).core.read == st.core.read
    ensures Next(st, a).core.frames[st.core.read] == st.core.frames[st.core.read]
  {
  }

  // ---------------------------------------------------------------- wakeup law

  /** Wakeups that are pending in the event or taken by the worker but not yet used. */
  ghost function Outstanding(st: State): (n: nat) {
    st.core.permits + if st.worker.Took? || st.worker.Exclusive? || st.worker.Switching? then 1 else 0
  }

  ghost predicate Wakeups(st: State) {
    && Outstanding(st) == (if st.receiver.Fill? || st.core.full then 1 else 0)
    && (st.worker.Switched? ==> st.worker.switched)
  }

  lemma OthersKeepWakeups(st: State, a: Action)
    requires Permuted(st.core) && Enabled(st, a)
    requires a.Enter? || a.ReadPointer? || a.Leave? || a.ResetLockRead? || a.ResetLockWrite? || a.ResetLockStock?
             || a.DoReset? || a.Begin? || a.CheckSample? || a.TrySwitch? || a.DoSwap? || a.DoPut? || a.DoCommit?
    ensures var r := Next(st, a);
            && r.core.permits == st.core.permits && r.core.full == st.core.full
            && r.worker == st.worker && (r.receiver.Fill? <==> st.receiver.Fill?)
  {
  }

  lemma WakeupsKept(st: State, a: Action)
    requires Permuted(st.core) && Guards(st) && Wakeups(st) && Enabled(st, a)
    ensures Wakeups(Next(st, a))
  {
    match a
    case DoNotify =>
    case DoFill =>
    case TakePermit =>
    case LockRead =>
    case LockStock =>
    case DoSwitch =>
    case UnlockRead =>
    case ShareRead =>
    case DoneDelivering =>
    case _ => OthersKeepWakeups(st, a);
  }

  // -------------------------------------------------------------------- ledger

  /** A frame is in the stock, or just swapped there. */
  ghost predicate InStock(st: State) {
    st.core.full || st.receiver.Notify? || st.receiver.Fill?
  }

  ghost predicate Ledger(st: State) {
    var log := st.log;
    && |log.handed| == |log.delivered| + log.replaced + (if InStock(st) then 1 else 0)
    && (forall i, j :: 0 <= i < j < |log.delivered| ==> log.delivered[i] < log.delivered[j])
    && (forall i :: 0 <= i < |log.delivered| ==>
          log.delivered[i] < |log.handed| - if InStock(st) then 1 else 0)
  }

  lemma OthersKeepLedger(st: State, a: Action)
    requires Permuted(st.core) && Enabled(st, a) && !a.DoSwap? && !a.DoSwitch?
    ensures var log, log' := st.log, Next(st, a).log;
            && log'.delivered == log.delivered && log'.handed == log.handed && log'.replaced == log.replaced
            && (InStock(Next(st, a)) <==> InStock(st))
  {
  }

  lemma LedgerKept(st: State, a: Action)
    requires Permuted(st.core) && Guards(st) && Ledger(st) && Enabled(st, a)
    ensures Ledger(Next(st, a))
  {
    if !a.DoSwap? && !a.DoSwitch? {
      OthersKeepLedger(st, a);
    }
  }

  // -------------------------------------------------------------- whole runs

  /** A reader that got a frame got one with content, and it still has it. */
  ghost predicate Sighted(st: State)
    requires Permuted(st.core)
  {
    forall i :: i in st.readers && st.readers[i].Holding? && st.readers[i].frame.Some? ==> Readable(st.core).Some?
  }

  lemma SightedKept(st: State, a: Action)
    requires Permuted(st.core) && Locks(st) && Sighted(st) && Enabled(st, a)
    ensures Sighted(Next(st, a))
  {
    var r := Next(st, a);
    forall i | i in r.readers && r.readers[i].Holding? && r.readers[i].frame.Some? ensures Readable(r.core).Some? {
      if !a.ReadPointer? || a.id != i {
        OthersKeepReader(st, a, i);
        assert st.readers.Keys != {};
        SharedFreezesReadFrame(st, a);
      }
    }
  }

  lemma OthersKeepReader(st: State, a: Action, i: nat)
    requires Permuted(st.core) && Enabled(st, a) && !(a.ReadPointer? && a.id == i)
    requires i in Next(st, a).readers && Next(st, a).readers[i].Holding?
    ensures i in st.readers && st.readers[i] == Next(st, a).readers[i]
  {
  }

  ghost predicate Inv(st: State)
    requires Permuted(st.core)
  {
    Locks(st) && Wakeups(st) && Ledger(st) && Sighted(st)
  }

  lemma InvKept(st: State, a: Action)
    requires Permuted(st.core) && Inv(st)
    ensures Inv(Do(st, a))
  {
    if Enabled(st, a) {
      LocksKept(st, a);
      WakeupsKept(st, a);
      LedgerKept(st, a);
      SightedKept(st, a);
    }
  }

  lemma {:induction false} RunInv(st: State, actions: seq<Action>)
    requires Permuted(st.core) && Inv(st)
    ensures Inv(Run(st, actions))
    decreases |actions|
  {
    if actions != [] {
      InvKept(st, actions[0]);
      RunInv(Do(st, actions[0]), actions[1..]);
    }
  }

  /** Somebody holds the read lock shared in every state of the run. */
  ghost predicate SharedThroughout(st: State, actions: seq<Action>)
    requires Permuted(st.core)
    decreases |actions|
  {
    && st.shared > 0
    && (actions == [] || SharedThroughout(Do(st, actions[0]), actions[1..]))
  }

  lemma {:induction false} FrozenWhileShared(st: State, actions: seq<Action>)
    requires Permuted(st.core) && Inv(st) && SharedThroughout(st, actions)
    ensures var r := Run(st, actions);
            r.core.read == st.core.read && r.core.frames[r.core.read] == st.core.frames[st.core.read]
    decreases |actions|
  {
    if actions != [] {
      if Enabled(st, actions[0]) {
        SharedFreezesReadFrame(st, actions[0]);
      }
      InvKept(st, actions[0]);
      FrozenWhileShared(Do(st, actions[0]), actions[1..]);
    }
  }

  /**
    In every interleaving: while anybody holds the read lock shared, be it a
    reader or the worker that delivers, the read frame stays where it is and
    keeps its content.
   */
  lemma SharedFrameIsFrozen(handle: int, n: nat, strategy: Strategy, before: seq<Action>, during: seq<Action>)
    requires SharedThroughout(Run(Start(handle, n, strategy), before), during)
    ensures var st := Run(Start(handle, n, strategy), before);
            var r := Run(st, during);
            r.core.read == st.core.read && r.core.frames[r.core.read] == st.core.frames[st.core.read]
  {
    RunInv(Start(handle, n, strategy), before);
    FrozenWhileShared(Run(Start(handle, n, strategy), before), during);
  }

  /** Reader `i` holds its shared lock in every state of the run. */
  ghost predicate HoldsThroughout(st: State, actions: seq<Action>, i: nat)
    requires Permuted(st.core)
    decreases |actions|
  {
    && i in st.readers
    && (actions == [] || HoldsThroughout(Do(st, actions[0]), actions[1..], i))
  }

  lemma {:induction false} ReaderShares(st: State, actions: seq<Action>, i: nat)
    requires Permuted(st.core) && Inv(st) && HoldsThroughout(st, actions, i)
    ensures SharedThroughout(st, actions)
    decreases |actions|
  {
    assert st.shared > 0 by {
      assert st.readers.Keys != {};
    }
    if actions != [] {
      InvKept(st, actions[0]);
      ReaderShares(Do(st, actions[0]), actions[1..], i);
    }
  }

  /**
    Reader safety in every interleaving: the pointers stay a permutation of
    the three frames, and the frame a reader got from LockData stays the read
    frame with the same content until the reader gives its lock back.
   */
  lemma HeldFrameIsFrozen(handle: int, n: nat, strategy: Strategy,
                          before: seq<Action>, during: seq<Action>, i: nat)
    requires var st := Run(Start(handle, n, strategy), before);
             HoldsThroughout(st, during, i) && st.readers[i].Holding? && st.readers[i].frame.Some?
    ensures var st := Run(Start(handle, n, strategy), before);
            var r := Run(st, during);
            var p := st.readers[i].frame.value;
            && p < 3 && Permuted(r.core)
            && r.core.read == p && r.core.frames[p] == st.core.frames[p]
  {
    var st := Run(Start(handle, n, strategy), before);
    RunInv(Start(handle, n, strategy), before);
    ReaderShares(st, during, i);
    FrozenWhileShared(st, during);
  }

  /**
    In every interleaving: while the stock guard is free, the stock is full
    exactly when one wakeup is outstanding; the event never holds two permits,
    and the worker never finds the stock empty.
   */
  lemma WakeupsAreExact(handle: int, n: nat, strategy: Strategy, actions: seq<Action>)
    ensures var st := Run(Start(handle, n, strategy), actions);
            && (st.stockGuard == None ==> (st.core.full <==> Outstanding(st) == 1))
            && Outstanding(st) <= 1
            && st.core.permits <= 1
            && (st.worker == Switching ==> st.core.full)
            && (st.worker.Switched? ==> st.worker.switched)
  {
    RunInv(Start(handle, n, strategy), actions);
  }

  // --------------------------------------------------- what readers are given

  /** Frames that LockData does not give to a reader. */
  ghost predicate Unreadable(blank: set<Frame>) {
    forall f :: f in blank ==> GetFrameSize(f) == 0
  }

  /** Stock and read frame are the frames the history says, or blank ones from before it. */
  ghost predicate Placed(st: State, blank: set<Frame>)
    requires Permuted(st.core)
  {
    var log := st.log;
    && (InStock(st) ==>
          if log.handed == [] then st.core.frames[st.core.stock] in blank
          else st.core.frames[st.core.stock] == log.handed[|log.handed| - 1].frame)
    && (if log.delivered == [] then st.core.frames[st.core.read] in blank
        else var k := log.delivered[|log.delivered| - 1];
             k < |log.handed| && st.core.frames[st.core.read] == log.handed[k].frame)
  }

  /** The write frame is analysed whenever it is about to be handed over. */
  ghost predicate AnalysedWhenClosing(st: State)
    requires Permuted(st.core)
  {
    var f := st.core.frames[st.core.write];
    && (st.receiver.Close? || st.receiver.Swap? ==> f == Analysed(f))
    && (st.receiver.Swap? ==> !Dumps(st.core))
  }

  ghost predicate HandedAnalysed(st: State)
    requires Permuted(st.core)
  {
    && AnalysedWhenClosing(st)
    && forall k :: 0 <= k < |st.log.handed| ==> st.log.handed[k].frame == Analysed(st.log.handed[k].frame)
  }

  lemma AnalysedKept(st: State, a: Action)
    requires Permuted(st.core) && Guards(st) && AnalysedWhenClosing(st) && Enabled(st, a)
    ensures AnalysedWhenClosing(Next(st, a))
  {
  }

  lemma HandedAnalysedKept(st: State, a: Action)
    requires Permuted(st.core) && Guards(st) && HandedAnalysed(st) && Enabled(st, a)
    ensures HandedAnalysed(Next(st, a))
  {
    AnalysedKept(st, a);
    if a.DoSwitch? {
      assert Next(st, a).log.handed == st.log.handed;
    } else if !a.DoSwap? {
      OthersKeepLedger(st, a);
    }
  }

  /** Deliveries that the worker has not announced yet. */
  ghost predicate Unannounced(st: State) {
    st.worker == Switched(true) || st.worker == Announcing
  }

  /** The sync listeners were called with each delivered frame, in order, except one that is still to come. */
  ghost predicate Announced(log: Log, unannounced: bool) {
    && |log.announced| + (if unannounced then 1 else 0) == |log.delivered|
    && forall k :: 0 <= k < |log.announced| ==>
         log.delivered[k] < |log.handed| && log.announced[k] == log.handed[log.delivered[k]].frame
  }

  lemma OthersKeepAnnounced(st: State, a: Action)
    requires Permuted(st.core) && Wakeups(st) && Enabled(st, a) && !a.DoSwap? && !a.DoSwitch? && !a.ShareRead?
    ensures var log, log' := st.log, Next(st, a).log;
            && log'.announced == log.announced && log'.delivered == log.delivered && log'.handed == log.handed
            && (Unannounced(Next(st, a)) <==> Unannounced(st))
  {
  }

  lemma AnnouncedKept(st: State, a: Action, blank: set<Frame>)
    requires Permuted(st.core) && Guards(st) && Wakeups(st) && Ledger(st) && Placed(st, blank)
    requires Announced(st.log, Unannounced(st)) && Enabled(st, a)
    ensures Announced(Next(st, a).log, Unannounced(Next(st, a)))
  {
    if !a.DoSwap? && !a.DoSwitch? && !a.ShareRead? {
      OthersKeepAnnounced(st, a);
    }
  }

  /** What readers rely on. */
  ghost predicate ReadSide(st: State, blank: set<Frame>)
    requires Permuted(st.core)
  {
    Locks(st) && Sighted(st) && Placed(st, blank) && HandedAnalysed(st)
  }

  lemma SwapPlaces(st: State, blank: set<Frame>)
    requires Permuted(st.core) && Placed(st, blank) && Enabled(st, DoSwap)
    ensures Placed(Next(st, DoSwap), blank)
  {
  }

  lemma SwitchPlaces(st: State, blank: set<Frame>)
    requires Permuted(st.core) && Guards(st) && Placed(st, blank) && Enabled(st, DoSwitch)
    ensures Placed(Next(st, DoSwitch), blank)
  {
    assert !st.receiver.Notify? && !st.receiver.Fill?;
  }

  lemma PlacedKept(st: State, a: Action, blank: set<Frame>)
    requires Permuted(st.core) && Guards(st) && Placed(st, blank) && Enabled(st, a) && !a.DoReset?
    ensures Placed(Next(st, a), blank)
  {
    if a.DoSwap? {
      SwapPlaces(st, blank);
    } else if a.DoSwitch? {
      SwitchPlaces(st, blank);
    } else {
      OthersKeepPlaces(st, a);
    }
  }

  lemma OthersKeepHistory(st: State, a: Action)
    requires Permuted(st.core) && Enabled(st, a)
    requires !a.DoSwap? && !a.DoSwitch? && !a.DoReset?
    ensures var r := Next(st, a);
            r.log.handed == st.log.handed && r.log.delivered == st.log.delivered && InStock(r) == InStock(st)
  {
  }

  lemma OthersKeepPlaces(st: State, a: Action)
    requires Permuted(st.core) && Enabled(st, a)
    requires !a.DoSwap? && !a.DoSwitch? && !a.DoReset?
    ensures var r := Next(st, a);
            && r.log.handed == st.log.handed && r.log.delivered == st.log.delivered
            && InStock(r) == InStock(st)
            && r.core.frames[r.core.stock] == st.core.frames[st.core.stock]
            && r.core.frames[r.core.read] == st.core.frames[st.core.read]
  {
    OthersKeepHistory(st, a);
  }

  lemma ResetIsRemembered(st: State, a: Action)
    requires Permuted(st.core) && st.log.wasReset
    ensures Do(st, a).log.wasReset
  {
  }

  lemma {:induction false} RunRemembersReset(st: State, actions: seq<Action>)
    requires Permuted(st.core) && st.log.wasReset
    ensures Run(st, actions).log.wasReset
    decreases |actions|
  {
    if actions != [] {
      ResetIsRemembered(st, actions[0]);
      RunRemembersReset(Do(st, actions[0]), actions[1..]);
    }
  }

  lemma ReadSideKept(st: State, a: Action, blank: set<Frame>)
    requires Permuted(st.core) && ReadSide(st, blank) && Enabled(st, a) && !a.DoReset?
    ensures ReadSide(Next(st, a), blank)
  {
    LocksKept(st, a);
    SightedKept(st, a);
    PlacedKept(st, a, blank);
    HandedAnalysedKept(st, a);
  }

  lemma {:induction false} RunPlaced(st: State, actions: seq<Action>, blank: set<Frame>)
    requires Permuted(st.core) && ReadSide(st, blank) && !Run(st, actions).log.wasReset
    ensures ReadSide(Run(st, actions), blank)
    decreases |actions|
  {
    if actions != [] {
      var a, st1 := actions[0], Do(st, actions[0]);
      if st1.log.wasReset {
        RunRemembersReset(st1, actions[1..]);
      }
      if Enabled(st, a) {
        ReadSideKept(st, a, blank);
      }
      RunPlaced(st1, actions[1..], blank);
    }
  }

  lemma NewBufferReadSide(handle: int, n: nat, strategy: Strategy)
    ensures ReadSide(Start(handle, n, strategy), {Fresh(n)}) && Unreadable({Fresh(n)})
  {
  }

  /** In every run without ResetData: the frame that becomes the read frame is the newest one handed over so far. */
  lemma DeliveryTakesNewest(handle: int, n: nat, strategy: Strategy, actions: seq<Action>)
    requires var st := Run(Start(handle, n, strategy), actions); !st.log.wasReset && Enabled(st, DoSwitch)
    ensures var st := Run(Start(handle, n, strategy), actions);
            var c := Next(st, DoSwitch).core;
            && |st.log.handed| > 0
            && c.frames[c.read] == st.log.handed[|st.log.handed| - 1].frame
            && c.read == st.core.stock && c.stock == st.core.read
  {
    NewBufferReadSide(handle, n, strategy);
    RunInv(Start(handle, n, strategy), actions);
    RunPlaced(Start(handle, n, strategy), actions, {Fresh(n)});
  }

  /** The read frame is the last delivered of the handed-over frames, or still blank. */
  ghost predicate ReadsLastDelivered(st: State, n: nat)
    requires Permuted(st.core)
  {
    var log, f := st.log, st.core.frames[st.core.read];
    if log.delivered == [] then f == Fresh(n)
    else var k := log.delivered[|log.delivered| - 1]; k < |log.handed| && f == log.handed[k].frame
  }

  /**
    In every interleaving: delivered frames are handed-over frames in order,
    none twice, every handed-over frame is delivered, replaced in the stock, or
    still in the stock, and, without ResetData, what is read is the frame that
    was delivered last.
   */
  lemma DeliveriesBalance(handle: int, n: nat, strategy: Strategy, actions: seq<Action>)
    ensures var st := Run(Start(handle, n, strategy), actions);
            var log := st.log;
            && (forall i, j :: 0 <= i < j < |log.delivered| ==> log.delivered[i] < log.delivered[j])
            && (forall i :: 0 <= i < |log.delivered| ==> log.delivered[i] < |log.handed|)
            && (st.stockGuard == None ==>
                  |log.handed| == |log.delivered| + log.replaced + (if st.core.full then 1 else 0))
            && (!log.wasReset ==> ReadsLastDelivered(st, n))
  {
    RunInv(Start(handle, n, strategy), actions);
    if !Run(Start(handle, n, strategy), actions).log.wasReset {
      NewBufferReadSide(handle, n, strategy);
      RunPlaced(Start(handle, n, strategy), actions, {Fresh(n)});
    }
  }

  lemma {:induction false} RunAnnounced(st: State, actions: seq<Action>, blank: set<Frame>)
    requires Permuted(st.core) && Inv(st) && ReadSide(st, blank) && !Run(st, actions).log.wasReset
    requires Announced(st.log, Unannounced(st))
    ensures Announced(Run(st, actions).log, Unannounced(Run(st, actions)))
    decreases |actions|
  {
    if actions != [] {
      var a, st1 := actions[0], Do(st, actions[0]);
      if st1.log.wasReset {
        RunRemembersReset(st1, actions[1..]);
      }
      InvKept(st, a);
      if Enabled(st, a) {
        ReadSideKept(st, a, blank);
        AnnouncedKept(st, a, blank);
      }
      RunAnnounced(st1, actions[1..], blank);
    }
  }

  /**
    In every run without ResetData: the sync listeners have been called with
    every delivered frame, each once and in order, except the last one while
    the worker is between taking and announcing it.
   */
  lemma EveryDeliveryIsAnnounced(handle: int, n: nat, strategy: Strategy, actions: seq<Action>)
    requires !Run(Start(handle, n, strategy), actions).log.wasReset
    ensures var st := Run(Start(handle, n, strategy), actions);
            var log := st.log;
            && |log.delivered| == |log.announced| + (if Unannounced(st) then 1 else 0)
            && forall k :: 0 <= k < |log.announced| ==>
                 log.delivered[k] < |log.handed| && log.announced[k] == log.handed[log.delivered[k]].frame
  {
    NewBufferReadSide(handle, n, strategy);
    RunAnnounced(Start(handle, n, strategy), actions, {Fresh(n)});
  }

  /** In every run without ResetData: a reader that got a frame from LockData reads the last delivered one. */
  lemma ReaderSeesLastDelivered(start: State, actions: seq<Action>, blank: set<Frame>, i: nat)
    requires Permuted(start.core) && ReadSide(start, blank) && Unreadable(blank)
    requires var st := Run(start, actions);
             && !st.log.wasReset && i in st.readers
             && st.readers[i].Holding? && st.readers[i].frame.Some?
    ensures var st := Run(start, actions);
            var p, log := st.readers[i].frame.value, st.log;
            && log.delivered != [] && log.delivered[|log.delivered| - 1] < |log.handed|
            && p < 3 && st.core.frames[p] == log.handed[log.delivered[|log.delivered| - 1]].frame
  {
    RunPlaced(start, actions, blank);
  }

  /** Before the first delivery LockData has no frame to give. */
  lemma NothingBeforeFirstDelivery(start: State, actions: seq<Action>, blank: set<Frame>)
    requires Permuted(start.core) && ReadSide(start, blank) && Unreadable(blank)
    requires var st := Run(start, actions); !st.log.wasReset && st.log.delivered == []
    ensures Readable(Run(start, actions).core) == None
  {
    RunPlaced(start, actions, blank);
  }

  /** The last delivered frame shows a sample. */
  ghost predicate LastDeliveredShows(log: Log) {
    && log.delivered != [] && log.delivered[|log.delivered| - 1] < |log.handed|
    && Shows(log.handed[log.delivered[|log.delivered| - 1]].frame)
  }

  lemma ReadFrameShowsIff(st: State, blank: set<Frame>)
    requires Permuted(st.core) && Placed(st, blank) && HandedAnalysed(st) && Unreadable(blank)
    ensures var f := st.core.frames[st.core.read];
            |f.cells| != 0 && GetFrameSize(f) != 0 <==> LastDeliveredShows(st.log)
  {
    if st.log.delivered != [] {
      HasSizeIffShows(st.core.frames[st.core.read]);
    }
  }

  /**
    In every run without ResetData: LockData gives a reader the read frame if
    and only if the last delivered frame shows a sample, complete or not.
   */
  lemma ReaderGetsFrameIff(start: State, actions: seq<Action>, blank: set<Frame>, i: nat)
    requires Permuted(start.core) && ReadSide(start, blank) && Unreadable(blank)
    requires var st := Run(start, actions); !st.log.wasReset && Enabled(st, ReadPointer(i))
    ensures var st := Run(start, actions);
            var r := Next(st, ReadPointer(i));
            && i in r.readers
            && r.readers[i] == Holding(if LastDeliveredShows(st.log) then Some(st.core.read) else None)
  {
    RunPlaced(start, actions, blank);
    ReadFrameShowsIff(Run(start, actions), blank);
  }

  // ---------------------------------------------- the callback without interference

  /** The steps of one callback. */
  function Callback(c: Core, s: Sample): (r: seq<Action>)
    requires Permuted(c)
  {
    if !Accepts(c, s) then [Begin(s), CheckSample]
    else
      [Begin(s), CheckSample]
      + ((if ClosesPrevious(c, s) then SwitchSteps(AnalyseWrite(c)) else [])
         + FinalSteps(CloseIf(ClosesPrevious(c, s), c), s))
  }

  function SwitchSteps(c: Core): (r: seq<Action>)
    requires Permuted(c)
  {
    if Dumps(c) then [TrySwitch] else [TrySwitch, DoSwap, DoNotify, DoFill]
  }

  lemma {:induction false} RunConcat(st: State, a: seq<Action>, b: seq<Action>)
    requires Permuted(st.core)
    ensures Run(st, a + b) == Run(Run(st, a), b)
    decreases |a|
  {
    if a == [] {
      assert a + b == b;
    } else {
      assert (a + b)[1..] == a[1..] + b;
      RunConcat(Do(st, a[0]), a[1..], b);
    }
  }

  lemma RunOne(st: State, a: Action)
    requires Permuted(st.core)
    ensures Run(st, [a]) == Do(st, a)
  {
    assert [a][1..] == [];
    assert Run(st, [a]) == Run(Do(st, a), []);
  }

  lemma SwitchStepsRun(st: State)
    requires Permuted(st.core) && st.receiver.Close? && st.stockGuard == None
    ensures var r := Run(st, SwitchSteps(st.core));
            && r.core == SwitchWrite(st.core).0
            && r.receiver == After(st.receiver.s, st.receiver.cause)
            && r.stockGuard == None && r.writeGuard == st.writeGuard
  {
    if Dumps(st.core) {
      RunOne(st, TrySwitch);
    } else {
      var s1 := Do(st, TrySwitch);
      var s2 := Do(s1, DoSwap);
      var s3 := Do(s2, DoNotify);
      var steps := [TrySwitch, DoSwap, DoNotify, DoFill];
      assert steps[1..] == [DoSwap, DoNotify, DoFill];
      assert steps[1..][1..] == [DoNotify, DoFill];
      assert steps[1..][1..][1..] == [DoFill];
      RunOne(s3, DoFill);
    }
  }

  lemma OpeningSteps(st: State, s: Sample)
    requires Permuted(st.core) && st.receiver == Idle && st.writeGuard == None
    ensures Run(st, [Begin(s), CheckSample]) == Next(Next(st, Begin(s)), CheckSample)
  {
    var steps := [Begin(s), CheckSample];
    assert steps[1..] == [CheckSample];
    RunOne(Next(st, Begin(s)), CheckSample);
  }

  /** Closing, when it is due, leads to the point where the sample is stored. */
  lemma ClosingSteps(st: State, s: Sample)
    requires Permuted(st.core) && st.receiver == Check(s) && st.stockGuard == None && Accepts(st.core, s)
    ensures var steps := if ClosesPrevious(st.core, s) then SwitchSteps(AnalyseWrite(st.core)) else [];
            var r := Run(Next(st, CheckSample), steps);
            && r.core == CloseIf(ClosesPrevious(st.core, s), st.core)
            && r.receiver == Put(s) && r.stockGuard == None && r.writeGuard == st.writeGuard
  {
    if ClosesPrevious(st.core, s) {
      SwitchStepsRun(Next(st, CheckSample));
    }
  }

  lemma StoringSteps(st: State, s: Sample)
    requires Permuted(st.core) && st.receiver == Put(s) && st.stockGuard == None
    ensures var steps := if s.sync then SwitchSteps(AnalyseWrite(Store(st.core, s))) else [];
            var r := Run(Next(st, DoPut), steps);
            && r.core == CloseIf(s.sync, Store(st.core, s))
            && r.receiver == Commit(s) && r.stockGuard == None && r.writeGuard == st.writeGuard
  {
    if s.sync {
      SwitchStepsRun(Next(st, DoPut));
    }
  }

  function FinalSteps(c: Core, s: Sample): (r: seq<Action>)
    requires Permuted(c)
  {
    [DoPut] + ((if s.sync then SwitchSteps(AnalyseWrite(Store(c, s))) else []) + [DoCommit])
  }

  lemma FinalStepsRun(st: State, s: Sample)
    requires Permuted(st.core) && st.receiver == Put(s) && st.stockGuard == None
    ensures var r := Run(st, FinalSteps(st.core, s));
            && r.core == Remember(CloseIf(s.sync, Store(st.core, s)), s)
            && r.receiver == Idle && r.writeGuard == None && r.stockGuard == None
  {
    var storing := if s.sync then SwitchSteps(AnalyseWrite(Store(st.core, s))) else [];
    assert FinalSteps(st.core, s) == [DoPut] + (storing + [DoCommit]);
    var st1 := Next(st, DoPut);
    StoringSteps(st, s);
    RunConcat(st, [DoPut], storing + [DoCommit]);
    RunOne(st, DoPut);
    RunConcat(st1, storing, [DoCommit]);
    RunOne(Run(st1, storing), DoCommit);
  }

  /** Run without interference, the steps of the callback are the sequential callback. */
  lemma CallbackRefinesReceive(st: State, s: Sample)
    requires Permuted(st.core) && st.receiver == Idle && st.writeGuard == None && st.stockGuard == None
    ensures var r := Run(st, Callback(st.core, s));
            && r.core == Receive(st.core, s)
            && r.receiver == Idle && r.writeGuard == None && r.stockGuard == None
  {
    var c := st.core;
    var opening := [Begin(s), CheckSample];
    OpeningSteps(st, s);
    if Accepts(c, s) {
      var closing := if ClosesPrevious(c, s) then SwitchSteps(AnalyseWrite(c)) else [];
      var final := FinalSteps(CloseIf(ClosesPrevious(c, s), c), s);
      var st1 := Next(Next(st, Begin(s)), CheckSample);
      ClosingSteps(Next(st, Begin(s)), s);
      FinalStepsRun(Run(st1, closing), s);
      RunConcat(st, opening, closing + final);
      RunConcat(st1, closing, final);
    }
  }
}
