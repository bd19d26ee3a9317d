/**
  Progress of the distributed data buffer: the callback, the worker, ResetData
  and the readers never block each other for good, and what was handed over is
  delivered.
 */
module DdbProgress {
  import opened Results
  import opened DdbFrame
  import opened Ddb
  import opened DdbProtocol

  /** A step of a call that has begun, or the worker's reaction to a wakeup; no new sample, reset or reader. */
  predicate Continues(a: Action) {
    !a.Begin? && !a.ResetLockRead? && !a.Enter?
  }

  /** Nobody is inside a call, no wakeup is pending. */
  predicate Quiet(st: State) {
    st.receiver == Idle && st.worker == Waiting && st.resetter == Resting && st.readers == map[] && st.core.permits == 0
  }

  // ------------------------------------------------------------- no deadlock

  lemma Holders(guard: Option<Actor>)
    ensures guard == None || guard == Some(Receiver) || guard == Some(Worker) || guard == Some(Resetter)
  {
    match guard
    case None =>
    case Some(Receiver) =>
    case Some(Worker) =>
    case Some(Resetter) =>
  }

  /** The holder of the stock guard can go on. */
  lemma StockHolderContinues(st: State) returns (a: Action)
    requires Permuted(st.core) && Locks(st) && st.stockGuard != None
    ensures Continues(a) && Enabled(st, a)
  {
    if st.worker == Switching {
      a := DoSwitch;
    } else if st.resetter == HasAll {
      a := DoReset;
    } else {
      Holders(st.stockGuard);
      a := if st.receiver.Swap? then DoSwap else if st.receiver.Notify? then DoNotify else DoFill;
    }
  }

  /** With the stock guard free, the callback can go on. */
  lemma ReceiverContinues(st: State) returns (a: Action)
    requires Permuted(st.core) && Locks(st) && st.stockGuard == None && st.receiver != Idle
    ensures Continues(a) && Enabled(st, a)
  {
    a := match st.receiver
         case Check(_) => CheckSample
         case Close(_, _) => TrySwitch
         case Put(_) => DoPut
         case _ => DoCommit;
  }

  /** With the stock guard free and no callback running, ResetData can go on. */
  lemma ResetterContinues(st: State) returns (a: Action)
    requires Permuted(st.core) && Locks(st) && st.stockGuard == None && st.receiver == Idle && st.resetter != Resting
    ensures Continues(a) && Enabled(st, a)
  {
    if st.resetter == HasRead {
      Holders(st.writeGuard);
      a := ResetLockWrite;
    } else {
      a := ResetLockStock;
    }
  }

  /** Readers never have to wait. */
  lemma ReaderContinues(st: State, i: nat) returns (a: Action)
    requires Permuted(st.core) && Locks(st) && i in st.readers
    ensures Continues(a) && Enabled(st, a)
  {
    assert |st.readers| > 0;
    a := if st.readers[i] == Entered then ReadPointer(i) else Leave(i);
  }

  /** With everybody else at rest, the worker can go on. */
  lemma WorkerContinues(st: State) returns (a: Action)
    requires Permuted(st.core) && Locks(st) && st.stockGuard == None && st.resetter == Resting && st.readers == map[]
    requires st.worker != Waiting || st.core.permits > 0
    ensures Continues(a) && Enabled(st, a)
  {
    assert |st.readers| == 0;
    Holders(st.excl);
    match st.worker
    case Waiting => a := TakePermit;
    case Took => a := LockRead;
    case Exclusive => a := LockStock;
    case Switching => a := DoSwitch;
    case Switched(_) => a := UnlockRead;
    case Announcing => a := ShareRead;
    case Delivering => a := DoneDelivering;
  }

  /** No deadlock: unless all is quiet, somebody can go on. */
  lemma SomebodyContinues(st: State) returns (a: Action)
    requires Permuted(st.core) && Locks(st) && !Quiet(st)
    ensures Continues(a) && Enabled(st, a)
  {
    if st.stockGuard != None {
      a := StockHolderContinues(st);
    } else if st.receiver != Idle {
      a := ReceiverContinues(st);
    } else if st.resetter != Resting {
      a := ResetterContinues(st);
    } else if st.readers != map[] {
      var i :| i in st.readers;
      a := ReaderContinues(st, i);
    } else {
      a := WorkerContinues(st);
    }
  }

  // ------------------------------------------------------------- termination

  /** How many steps each party is from its rest, at most. */
  function ReceiverLeft(pc: ReceiverPc): (n: nat) {
    match pc
    case Idle => 0
    case Check(_) => 12
    case Close(_, cause) => if cause == MissedSync then 11 else 6
    case Swap(_, cause) => if cause == MissedSync then 10 else 5
    case Notify(_, cause) => if cause == MissedSync then 9 else 4
    case Fill(_, cause) => if cause == MissedSync then 8 else 3
    case Put(_) => 7
    case Commit(_) => 2
  }

  function WorkerLeft(pc: WorkerPc): (n: nat) {
    match pc
    case Waiting => 0
    case Took => 6
    case Exclusive => 5
    case Switching => 4
    case Switched(_) => 3
    case Announcing => 2
    case Delivering => 1
  }

  function ResetterLeft(pc: ResetterPc): (n: nat) {
    match pc
    case Resting => 0
    case HasRead => 3
    case HasWrite => 2
    case HasAll => 1
  }

  function JustEntered(readers: map<nat, ReaderPc>): (r: set<nat>) {
    set i | i in readers && readers[i] == Entered
  }

  function ReadersLeft(readers: map<nat, ReaderPc>): (n: nat) {
    |readers| + |JustEntered(readers)|
  }

  /** A closing may cause one wakeup, and a wakeup the seven steps of a delivery. */
  function Left(st: State): (n: nat) {
    10 * ReceiverLeft(st.receiver) + 7 * st.core.permits + WorkerLeft(st.worker)
    + ResetterLeft(st.resetter) + ReadersLeft(st.readers)
  }

  lemma ReadPointerLeft(st: State, i: nat)
    requires Permuted(st.core) && Enabled(st, ReadPointer(i))
    ensures ReadersLeft(Next(st, ReadPointer(i)).readers) < ReadersLeft(st.readers)
  {
    var m, m' := st.readers, Next(st, ReadPointer(i)).readers;
    assert m'.Keys == m.Keys && |m'| == |m'.Keys|;
    assert JustEntered(m') == JustEntered(m) - {i};
  }

  lemma LeaveLeft(st: State, i: nat)
    requires Permuted(st.core) && Enabled(st, Leave(i))
    ensures ReadersLeft(Next(st, Leave(i)).readers) < ReadersLeft(st.readers)
  {
    var m, m' := st.readers, Next(st, Leave(i)).readers;
    assert m'.Keys == m.Keys - {i} && |m'| == |m'.Keys|;
    assert JustEntered(m') == JustEntered(m);
  }

  predicate IsReceiverStep(a: Action) {
    a.CheckSample? || a.TrySwitch? || a.DoSwap? || a.DoNotify? || a.DoFill? || a.DoPut? || a.DoCommit?
  }

  lemma ReceiverStepLeft(st: State, a: Action)
    requires Permuted(st.core) && Enabled(st, a) && IsReceiverStep(a)
    ensures Left(Next(st, a)) < Left(st)
  {
  }

  lemma WorkerStepLeft(st: State, a: Action)
    requires Permuted(st.core) && Enabled(st, a) && Continues(a) && !IsReceiverStep(a) && !a.ReadPointer? && !a.Leave?
    ensures Left(Next(st, a)) < Left(st)
  {
  }

  /** Every step that continues brings the rest nearer. */
  lemma StepLeft(st: State, a: Action)
    requires Permuted(st.core) && Continues(a) && Enabled(st, a)
    ensures Left(Next(st, a)) < Left(st)
  {
    if a.ReadPointer? {
      ReadPointerLeft(st, a.id);
    } else if a.Leave? {
      LeaveLeft(st, a.id);
    } else if IsReceiverStep(a) {
      ReceiverStepLeft(st, a);
    } else {
      WorkerStepLeft(st, a);
    }
  }

  // ---------------------------------------------------------------- draining

  lemma {:induction false} ContinuesToQuiet(st: State) returns (more: seq<Action>)
    requires Permuted(st.core) && Inv(st)
    ensures forall i :: 0 <= i < |more| ==> Continues(more[i])
    ensures Quiet(Run(st, more)) && Inv(Run(st, more))
    decreases Left(st)
  {
    more := [];
    if !Quiet(st) {
      var a := SomebodyContinues(st);
      InvKept(st, a);
      StepLeft(st, a);
      var rest := ContinuesToQuiet(Next(st, a));
      more := [a] + rest;
      assert more[1..] == rest;
    }
  }

  /** In a quiet state every frame that was handed over has been delivered, or was replaced before. */
  lemma QuietMeansDelivered(st: State)
    requires Permuted(st.core) && Inv(st) && Quiet(st)
    ensures !st.core.full && |st.log.handed| == |st.log.delivered| + st.log.replaced
  {
  }

  /**
    From every reachable state, without a new sample, reset or reader: the calls
    under way come to their end, and every frame handed over is delivered unless
    a later one replaced it.
   */
  lemma Drains(handle: int, n: nat, strategy: Strategy, actions: seq<Action>) returns (more: seq<Action>)
    ensures forall i :: 0 <= i < |more| ==> Continues(more[i])
    ensures var st := Run(Run(Start(handle, n, strategy), actions), more);
            Quiet(st) && !st.core.full && |st.log.handed| == |st.log.delivered| + st.log.replaced
  {
    RunInv(Start(handle, n, strategy), actions);
    more := ContinuesToQuiet(Run(Start(handle, n, strategy), actions));
    QuietMeansDelivered(Run(Run(Start(handle, n, strategy), actions), more));
  }

  /** Each of these steps was possible when its turn came. */
  ghost predicate AllEnabled(st: State, actions: seq<Action>)
    requires Permuted(st.core)
    decreases |actions|
  {
    actions == [] || (Enabled(st, actions[0]) && AllEnabled(Next(st, actions[0]), actions[1..]))
  }

  /**
    Whatever the order of the steps: no more of them than the bound follow, and
    while it is not quiet another one can follow.  So every schedule drains.
   */
  lemma {:induction false} EveryScheduleDrains(st: State, more: seq<Action>)
    requires Permuted(st.core) && Inv(st) && AllEnabled(st, more)
    requires forall i :: 0 <= i < |more| ==> Continues(more[i])
    ensures |more| + Left(Run(st, more)) <= Left(st)
    ensures Quiet(Run(st, more)) || exists a :: Continues(a) && Enabled(Run(st, more), a)
    decreases |more|
  {
    if more != [] {
      InvKept(st, more[0]);
      StepLeft(st, more[0]);
      EveryScheduleDrains(Next(st, more[0]), more[1..]);
    } else if !Quiet(st) {
      var a := SomebodyContinues(st);
    }
  }

  // ------------------------------------------------------- calls from a rest

  lemma QuietIsUnlocked(st: State)
    requires Permuted(st.core) && Locks(st) && Quiet(st)
    ensures st.excl == None && st.shared == 0 && st.writeGuard == None && st.stockGuard == None
  {
    assert |st.readers| == 0;
    Holders(st.writeGuard);
    Holders(st.excl);
    Holders(st.stockGuard);
  }

  lemma FirstStep(st: State, a: Action, rest: seq<Action>)
    requires Permuted(st.core)
    ensures Run(st, [a] + rest) == Run(Do(st, a), rest)
  {
    assert ([a] + rest)[1..] == rest;
  }

  lemma ResetTakesLocks(st: State)
    requires Permuted(st.core) && st.resetter == Resting
    requires st.excl == None && st.shared == 0 && st.writeGuard == None && st.stockGuard == None
    ensures Run(st, [ResetLockRead] + ([ResetLockWrite] + [ResetLockStock]))
            == st.(resetter := HasAll, excl := Some(Resetter), writeGuard := Some(Resetter), stockGuard := Some(Resetter))
  {
    var st1 := st.(resetter := HasRead, excl := Some(Resetter));
    var st2 := st1.(resetter := HasWrite, writeGuard := Some(Resetter));
    FirstStep(st, ResetLockRead, [ResetLockWrite] + [ResetLockStock]);
    assert Do(st, ResetLockRead) == st1;
    FirstStep(st1, ResetLockWrite, [ResetLockStock]);
    assert Do(st1, ResetLockWrite) == st2;
    RunOne(st2, ResetLockStock);
  }

  lemma ResetGivesLocksBack(st: State)
    requires Permuted(st.core) && st.resetter == HasAll
    ensures Run(st, [DoReset])
            == st.(core := ResetAll(st.core), resetter := Resting, excl := None, writeGuard := None, stockGuard := None,
                   log := st.log.(wasReset := true))
  {
    RunOne(st, DoReset);
  }

  /** The steps of ResetData, run without interference, reset the buffer and nothing else. */
  lemma ResetRefines(st: State, steps: seq<Action>)
    requires Permuted(st.core) && Locks(st) && Quiet(st)
    requires steps == [ResetLockRead] + ([ResetLockWrite] + [ResetLockStock]) + [DoReset]
    ensures Run(st, steps) == st.(core := ResetAll(st.core), log := st.log.(wasReset := true))
  {
    var locking := [ResetLockRead] + ([ResetLockWrite] + [ResetLockStock]);
    QuietIsUnlocked(st);
    ResetTakesLocks(st);
    ResetGivesLocksBack(Run(st, locking));
    RunConcat(st, locking, [DoReset]);
  }

  /** A reader that comes to rest finds what LockData has for it, and leaves the buffer as it was. */
  lemma ReaderRefines(st: State, i: nat)
    requires Permuted(st.core) && Locks(st) && Quiet(st)
    ensures var r := Run(st, [Enter(i), ReadPointer(i)]);
            && r == st.(shared := 1, readers := map[i := Holding(Readable(st.core))])
            && Run(r, [Leave(i)]) == st
  {
    QuietIsUnlocked(st);
    var st1 := Next(st, Enter(i));
    assert [Enter(i), ReadPointer(i)][1..] == [ReadPointer(i)];
    assert Do(st, Enter(i)) == st1;
    RunOne(st1, ReadPointer(i));
    var r := Next(st1, ReadPointer(i));
    assert r.readers == map[i := Holding(Readable(st.core))];
    RunOne(r, Leave(i));
    assert Next(r, Leave(i)).readers == map[];
  }
}
