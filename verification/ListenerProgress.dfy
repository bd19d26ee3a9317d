/**
  Progress of the listener registry.  The list lock is taken before the lock
  that guards callbacks, except by a callback that calls back into the registry.
 */
module ListenerProgress {
  import opened Results
  import opened ListenerRegistry
  import opened ListenerProtocol

  // -------------------------------------------------------------------- waiting

  predicate WantsMain(a: Activation) {
    a.RegisterStart? || a.UnregisterStart? || a.NotifyStart?
  }

  predicate WantsNote(a: Activation) {
    a.UnregisterLocked? || a.NotifyPicked?
  }

  predicate Active(st: State, t: Thread) {
    Stack(st, t) != []
  }

  predicate Owns(k: Lock, t: Thread) {
    k.Owned? && k.owner == t
  }

  /**
    Thread t, inside a callback, waits for the list lock that thread u holds,
    and u waits for the callback lock that t holds.
   */
  ghost predicate Crossed(st: State, t: Thread, u: Thread) {
    && t != u && Active(st, t) && Active(st, u)
    && WantsMain(Stack(st, t)[0]) && Owns(st.main, u)
    && WantsNote(Stack(st, u)[0]) && Owns(st.note, t)
  }

  /** A call is under way, and no thread can take a step. */
  ghost predicate Stuck(st: State) {
    (exists t :: Active(st, t)) && forall t :: Active(st, t) ==> !Enabled(st, Advance(t))
  }

  // ------------------------------------------------------- who holds what where

  lemma {:induction false} CallbacksHoldNoMain(s: seq<Activation>)
    requires forall i :: 0 <= i < |s| ==> s[i].NotifyCalling?
    ensures MainHolds(s) == 0
  {
    if s != [] {
      CallbacksHoldNoMain(s[1..]);
    }
  }

  /** The list lock is held by an innermost call. */
  lemma MainHolderIsInnermost(st: State, t: Thread)
    requires Inv(st) && Owns(st.main, t)
    ensures Active(st, t) && HoldsMain(Stack(st, t)[0]) == 1
  {
    var s := Stack(st, t);
    assert Depth(st.main, t) == MainHolds(s) > 0;
    forall i | 0 <= i < |s[1..]| ensures s[1..][i].NotifyCalling? {
      assert s[1..][i] == s[i + 1];
    }
    CallbacksHoldNoMain(s[1..]);
  }

  lemma NoteHolderIsActive(st: State, t: Thread)
    requires Inv(st) && Owns(st.note, t)
    ensures Active(st, t)
  {
    assert Depth(st.note, t) == NoteHolds(Stack(st, t)) > 0;
  }

  /** An innermost call that holds a lock makes its thread the owner. */
  lemma HolderOwns(st: State, t: Thread)
    requires Inv(st) && Active(st, t)
    ensures HoldsMain(Stack(st, t)[0]) == 1 ==> Owns(st.main, t)
    ensures HoldsNote(Stack(st, t)[0]) == 1 ==> Owns(st.note, t)
  {
    HoldsCovers(Stack(st, t), 0);
    assert Depth(st.main, t) == MainHolds(Stack(st, t)) && Depth(st.note, t) == NoteHolds(Stack(st, t));
  }

  // ------------------------------------------------------------------ deadlock

  /** In a crossed state everybody is blocked. */
  lemma CrossedBlocks(st: State, t: Thread, u: Thread, v: Thread)
    requires Inv(st) && Crossed(st, t, u) && Active(st, v)
    ensures !Enabled(st, Advance(v))
  {
    HolderOwns(st, v);
  }

  /** Without a crossing the owner of the list lock, or of the callback lock, or anybody can go on. */
  lemma StuckIsCrossed(st: State, t: Thread) returns (n: Thread, m: Thread)
    requires Inv(st) && Active(st, t) && forall v :: Active(st, v) ==> !Enabled(st, Advance(v))
    ensures Crossed(st, n, m)
  {
    assert !Enabled(st, Advance(t));
    HolderOwns(st, t);
    m := st.main.owner;
    MainHolderIsInnermost(st, m);
    assert !Enabled(st, Advance(m));
    n := st.note.owner;
    NoteHolderIsActive(st, n);
    assert !Enabled(st, Advance(n));
    HolderOwns(st, n);
  }

  lemma StuckIffCrossed(st: State)
    requires Inv(st)
    ensures Stuck(st) <==> exists t, u :: Crossed(st, t, u)
  {
    if Stuck(st) {
      var t :| Active(st, t);
      var n, m := StuckIsCrossed(st, t);
    }
    if t, u :| Crossed(st, t, u) {
      forall v | Active(st, v) ensures !Enabled(st, Advance(v)) {
        CrossedBlocks(st, t, u, v);
      }
    }
  }

  /**
    In every interleaving: the registry is stuck, with calls under way of which
    none can take a step, if and only if a thread that is inside a callback
    waits for the list lock while the thread that holds it waits for that
    callback to end.
   */
  lemma DeadlockIff(actions: seq<Action>)
    ensures var st := Run(START, actions); Stuck(st) <==> exists t, u :: Crossed(st, t, u)
  {
    RunInv(START, actions);
    StuckIffCrossed(Run(START, actions));
  }

  lemma CrossedKept(st: State, a: Action, t: Thread, u: Thread)
    requires Inv(st) && Crossed(st, t, u) && Enabled(st, a)
    ensures Crossed(Next(st, a), t, u)
  {
    if a.Advance? {
      CrossedBlocks(st, t, u, a.t);
      assert false;
    }
  }

  /** A deadlock is for ever: no later action of any thread ends it. */
  lemma {:induction false} DeadlockStays(st: State, actions: seq<Action>, t: Thread, u: Thread)
    requires Inv(st) && Crossed(st, t, u)
    ensures Crossed(Run(st, actions), t, u)
    decreases |actions|
  {
    if actions != [] {
      InvKept(st, actions[0]);
      if Enabled(st, actions[0]) {
        CrossedKept(st, actions[0], t, u);
      }
      DeadlockStays(Do(st, actions[0]), actions[1..], t, u);
    }
  }

  /** The run of a deadlock: a callback registers a listener while another thread deregisters one. */
  lemma DeadlockIsReachable(t: Thread, u: Thread, l: Listener, other: Listener) returns (actions: seq<Action>)
    requires t != u
    ensures Crossed(Run(START, actions), t, u) && Stuck(Run(START, actions))
  {
    actions := CallingRun(t, l);
    actions := Then(actions, Call(u, UnregisterStart(Some(l))));
    actions := Then(actions, Advance(u));
    assert Stack(Run(START, actions), u) == [UnregisterLocked(Some(l))];
    actions := Then(actions, Call(t, RegisterStart(other)));
    assert Crossed(Run(START, actions), t, u);
    DeadlockIff(actions);
  }

  lemma Then(actions: seq<Action>, a: Action) returns (r: seq<Action>)
    ensures Run(START, r) == Do(Run(START, actions), a)
  {
    r := actions + [a];
    RunSnoc(START, actions, a);
  }

  // ----------------------------------------------------------- freedom of it

  /** No callback calls into the registry during the run. */
  ghost predicate NoReentry(st: State, actions: seq<Action>)
    decreases |actions|
  {
    actions == []
    || (&& (actions[0].Call? ==> !Active(st, actions[0].t))
        && NoReentry(Do(st, actions[0]), actions[1..]))
  }

  /** Every thread has at most one call under way. */
  ghost predicate Flat(st: State) {
    forall t :: |Stack(st, t)| <= 1
  }

  lemma FlatKept(st: State, a: Action)
    requires Flat(st) && (a.Call? ==> !Active(st, a.t))
    ensures Flat(Do(st, a))
  {
    forall v ensures |Stack(Do(st, a), v)| <= 1 {
      assert |Stack(st, v)| <= 1;
      if Enabled(st, a) && a.Advance? {
        AdvanceStack(st, a.t);
      }
    }
  }

  lemma {:induction false} RunFlat(st: State, actions: seq<Action>)
    requires Flat(st) && NoReentry(st, actions)
    ensures Flat(Run(st, actions))
    decreases |actions|
  {
    if actions != [] {
      FlatKept(st, actions[0]);
      RunFlat(Do(st, actions[0]), actions[1..]);
    }
  }

  lemma FlatIsNotCrossed(st: State, t: Thread, u: Thread)
    requires Inv(st) && Flat(st)
    ensures !Crossed(st, t, u)
  {
    var s := Stack(st, t);
    assert |s| <= 1 && Depth(st.note, t) == NoteHolds(s);
    if s != [] {
      assert s == [s[0]] + [];
      StackSplits(s[0], []);
    }
  }

  /** Callbacks that stay out of the registry rule deadlocks out, for any number of threads. */
  lemma NoReentryNoDeadlock(actions: seq<Action>)
    requires NoReentry(START, actions)
    ensures !Stuck(Run(START, actions))
  {
    var st := Run(START, actions);
    RunInv(START, actions);
    RunFlat(START, actions);
    StuckIffCrossed(st);
    forall t, u ensures !Crossed(st, t, u) {
      FlatIsNotCrossed(st, t, u);
    }
  }

  /** A thread that never calls has nothing under way. */
  lemma {:induction false} OthersStayOut(st: State, actions: seq<Action>, t: Thread)
    requires !Active(st, t) && forall i :: 0 <= i < |actions| ==> actions[i].t != t
    ensures !Active(Run(st, actions), t)
    decreases |actions|
  {
    if actions != [] {
      OthersStayOut(Do(st, actions[0]), actions[1..], t);
    }
  }

  /** A single thread never deadlocks, however deeply its callbacks call back. */
  lemma OneThreadNoDeadlock(actions: seq<Action>, t: Thread)
    requires forall i :: 0 <= i < |actions| ==> actions[i].t == t
    ensures !Stuck(Run(START, actions))
  {
    var st := Run(START, actions);
    DeadlockIff(actions);
    if n: Thread, m: Thread :| Crossed(st, n, m) {
      OthersStayOut(START, actions, if n == t then m else n);
      assert false;
    }
  }
}
