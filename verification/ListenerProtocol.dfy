/**
  The listener registry under concurrency: any number of threads register,
  unregister and notify, callbacks call back into the registry, and two
  recursive locks guard it.  A thread is a stack of activations, the innermost
  first.
 */
module ListenerProtocol {
  import opened Results
  import opened ListenerRegistry

  type Thread = nat

  /** A recursive mutex: the owner and how often it holds the lock. */
  datatype Lock = Free | Owned(owner: Thread, depth: nat)

  /** One call on the registry and how far it has come. */
  datatype Activation =
    // RegisterListener
    | RegisterStart(l: Listener)
    | RegisterLocked(l: Listener)
    // UnregisterListener; UnregisterAllListeners when the target is None
    | UnregisterStart(target: Option<Listener>)
    | UnregisterLocked(target: Option<Listener>)
    | UnregisterBoth(target: Option<Listener>)
    // NotifyListener
    | NotifyStart(finished: seq<Listener>)
    | NotifySearch(finished: seq<Listener>)
    | NotifyPicked(finished: seq<Listener>, pick: Option<Listener>)
    | NotifyBoth(finished: seq<Listener>, pick: Option<Listener>)
    | NotifyCalling(finished: seq<Listener>, callee: Listener)
    | NotifyLeaving

  datatype State = State(
    registered: seq<Listener>,
    main: Lock,                    // guards the list
    note: Lock,                    // guards callbacks against deregistration
    stacks: map<Thread, seq<Activation>>)

  /** A new call from outside or from a running callback, or the next step of a thread's innermost call. */
  datatype Action = Call(t: Thread, a: Activation) | Advance(t: Thread)

  // ------------------------------------------------------------------- locks

  function Depth(k: Lock, t: Thread): (d: nat) {
    if k.Owned? && k.owner == t then k.depth else 0
  }

  predicate CanAcquire(k: Lock, t: Thread) {
    k.Free? || k.owner == t
  }

  function Acquire(k: Lock, t: Thread): (r: Lock) {
    Owned(t, Depth(k, t) + 1)
  }

  function Release(k: Lock, t: Thread): (r: Lock) {
    if Depth(k, t) <= 1 then Free else Owned(t, Depth(k, t) - 1)
  }

  // -------------------------------------------------------------------- steps

  predicate IsStart(a: Activation) {
    a.RegisterStart? || a.UnregisterStart? || (a.NotifyStart? && a.finished == [])
  }

  function Stack(st: State, t: Thread): (r: seq<Activation>) {
    if t in st.stacks then st.stacks[t] else []
  }

  function WithStack(st: State, t: Thread, s: seq<Activation>): (r: State) {
    st.(stacks := st.stacks[t := s])
  }

  predicate Enabled(st: State, a: Action) {
    var s := Stack(st, a.t);
    match a
    case Call(t, c) => IsStart(c) && (s == [] || s[0].NotifyCalling?)
    case Advance(t) =>
      s != []
      && match s[0]
         case RegisterStart(l) => CanAcquire(st.main, t)
         case UnregisterStart(x) => CanAcquire(st.main, t)
         case UnregisterLocked(x) => CanAcquire(st.note, t)
         case NotifyStart(f) => CanAcquire(st.main, t)
         case NotifyPicked(f, p) => CanAcquire(st.note, t)
         case _ => true
  }

  function Removed(ls: seq<Listener>, target: Option<Listener>): (r: seq<Listener>) {
    match target
    case Some(l) => RemoveFirst(ls, l)
    case None => []
  }

  function Next(st: State, a: Action): (r: State)
    requires Enabled(st, a)
  {
    var t, s := a.t, Stack(st, a.t);
    match a
    case Call(_, c) => WithStack(st, t, [c] + s)
    case Advance(_) =>
      var rest := s[1..];
      match s[0]
      case RegisterStart(l) =>
        WithStack(st.(main := Acquire(st.main, t)), t, [RegisterLocked(l)] + rest)
      case RegisterLocked(l) =>
        WithStack(st.(registered := st.registered + [l], main := Release(st.main, t)), t, rest)
      case UnregisterStart(x) =>
        WithStack(st.(main := Acquire(st.main, t)), t, [UnregisterLocked(x)] + rest)
      case UnregisterLocked(x) =>
        WithStack(st.(note := Acquire(st.note, t)), t, [UnregisterBoth(x)] + rest)
      case UnregisterBoth(x) =>
        WithStack(st.(registered := Removed(st.registered, x),
                      note := Release(st.note, t), main := Release(st.main, t)), t, rest)
      case NotifyStart(f) =>
        WithStack(st.(main := Acquire(st.main, t)), t, [NotifySearch(f)] + rest)
      case NotifySearch(f) =>
        var pick := FirstUnfinished(st.registered, f);
        WithStack(st, t, [NotifyPicked(if pick.Some? then f + [pick.value] else f, pick)] + rest)
      case NotifyPicked(f, pick) =>
        WithStack(st.(note := Acquire(st.note, t)), t, [NotifyBoth(f, pick)] + rest)
      case NotifyBoth(f, pick) =>
        WithStack(st.(main := Release(st.main, t)), t,
                  [if pick.Some? then NotifyCalling(f, pick.value) else NotifyLeaving] + rest)
      case NotifyCalling(f, l) =>
        WithStack(st.(note := Release(st.note, t)), t, [NotifyStart(f)] + rest)
      case NotifyLeaving =>
        WithStack(st.(note := Release(st.note, t)), t, rest)
  }

  function Do(st: State, a: Action): (r: State) {
    if Enabled(st, a) then Next(st, a) else st
  }

  function Run(st: State, actions: seq<Action>): (r: State)
    decreases |actions|
  {
    if actions == [] then st else Run(Do(st, actions[0]), actions[1..])
  }

  const START := State([], Free, Free, map[])

  // ---------------------------------------------------------------- invariant

  function HoldsMain(a: Activation): (n: nat) {
    if a.RegisterLocked? || a.UnregisterLocked? || a.UnregisterBoth?
       || a.NotifySearch? || a.NotifyPicked? || a.NotifyBoth? then 1 else 0
  }

  function HoldsNote(a: Activation): (n: nat) {
    if a.UnregisterBoth? || a.NotifyBoth? || a.NotifyCalling? || a.NotifyLeaving? then 1 else 0
  }

  function MainHolds(s: seq<Activation>): (n: nat) {
    if s == [] then 0 else HoldsMain(s[0]) + MainHolds(s[1..])
  }

  function NoteHolds(s: seq<Activation>): (n: nat) {
    if s == [] then 0 else HoldsNote(s[0]) + NoteHolds(s[1..])
  }

  ghost predicate LockMatches(k: Lock) {
    k.Owned? ==> k.depth > 0
  }

  /** Both locks are held exactly as often as the activations say; only callbacks call back; a pick is registered. */
  ghost predicate Inv(st: State) {
    LocksMatch(st) && Nested(st) && PicksRegistered(st)
  }

  ghost predicate PickRegistered(registered: seq<Listener>, a: Activation) {
    (a.NotifyPicked? || a.NotifyBoth?) && a.pick.Some? ==> a.pick.value in registered
  }

  lemma StackSplits(a: Activation, s: seq<Activation>)
    ensures MainHolds([a] + s) == HoldsMain(a) + MainHolds(s)
    ensures NoteHolds([a] + s) == HoldsNote(a) + NoteHolds(s)
  {
    assert ([a] + s)[1..] == s;
  }

  lemma {:induction false} HoldsCovers(s: seq<Activation>, i: nat)
    requires i < |s|
    ensures MainHolds(s) >= HoldsMain(s[i]) && NoteHolds(s) >= HoldsNote(s[i])
  {
    if i > 0 {
      HoldsCovers(s[1..], i - 1);
    }
  }

  ghost predicate LocksMatch(st: State) {
    && LockMatches(st.main) && LockMatches(st.note)
    && (forall t :: Depth(st.main, t) == MainHolds(Stack(st, t)))
    && (forall t :: Depth(st.note, t) == NoteHolds(Stack(st, t)))
  }

  /** A step of thread t that changes the depths as it changes the stack. */
  lemma LocksMatchAfter(st: State, r: State, t: Thread)
    requires LocksMatch(st) && LockMatches(r.main) && LockMatches(r.note)
    requires forall u :: u != t ==> Stack(r, u) == Stack(st, u)
    requires forall u :: u != t ==> Depth(r.main, u) == Depth(st.main, u) && Depth(r.note, u) == Depth(st.note, u)
    requires Depth(r.main, t) == MainHolds(Stack(r, t)) && Depth(r.note, t) == NoteHolds(Stack(r, t))
    ensures LocksMatch(r)
  {
  }

  /** The change of the two depths of thread t by one step, with the other threads' depths kept. */
  ghost predicate DepthsMove(st: State, r: State, t: Thread, main: int, note: int) {
    && LockMatches(r.main) && LockMatches(r.note)
    && Depth(r.main, t) == Depth(st.main, t) + main
    && Depth(r.note, t) == Depth(st.note, t) + note
    && forall u :: u != t ==> Depth(r.main, u) == Depth(st.main, u) && Depth(r.note, u) == Depth(st.note, u)
  }

  lemma AcquireMoves(st: State, t: Thread)
    requires LocksMatch(st)
    ensures CanAcquire(st.main, t) ==> forall r: State ::
              r.main == Acquire(st.main, t) && r.note == st.note ==> DepthsMove(st, r, t, 1, 0)
    ensures CanAcquire(st.note, t) ==> forall r: State ::
              r.main == st.main && r.note == Acquire(st.note, t) ==> DepthsMove(st, r, t, 0, 1)
  {
  }

  lemma ReleaseMoves(st: State, t: Thread)
    requires LocksMatch(st)
    ensures Depth(st.main, t) >= 1 ==> forall r: State ::
              r.main == Release(st.main, t) && r.note == st.note ==> DepthsMove(st, r, t, -1, 0)
    ensures Depth(st.note, t) >= 1 ==> forall r: State ::
              r.main == st.main && r.note == Release(st.note, t) ==> DepthsMove(st, r, t, 0, -1)
    ensures Depth(st.main, t) >= 1 && Depth(st.note, t) >= 1 ==> forall r: State ::
              r.main == Release(st.main, t) && r.note == Release(st.note, t) ==> DepthsMove(st, r, t, -1, -1)
  {
  }

  function HoldsMainNow(s: seq<Activation>): (n: nat) {
    if s == [] then 0 else HoldsMain(s[0])
  }

  function HoldsNoteNow(s: seq<Activation>): (n: nat) {
    if s == [] then 0 else HoldsNote(s[0])
  }

  /** The activation that replaces the innermost one, if the call is not over. */
  function Successor(st: State, t: Thread): (r: seq<Activation>)
    requires Enabled(st, Advance(t))
  {
    var r := Stack(Next(st, Advance(t)), t);
    if |r| == |Stack(st, t)| then r[..1] else []
  }

  /** One step of the innermost call changes the depths by what the new activation holds more or less. */
  lemma AdvanceDepths(st: State, t: Thread)
    requires LocksMatch(st) && Enabled(st, Advance(t))
    ensures var now, then' := Stack(st, t)[0], Successor(st, t);
            DepthsMove(st, Next(st, Advance(t)), t,
                       HoldsMainNow(then') - HoldsMain(now), HoldsNoteNow(then') - HoldsNote(now))
  {
    HoldsCovers(Stack(st, t), 0);
    AcquireMoves(st, t);
    ReleaseMoves(st, t);
  }

  lemma AdvanceStack(st: State, t: Thread)
    requires Enabled(st, Advance(t))
    ensures var s, r := Stack(st, t), Next(st, Advance(t));
            && (Stack(r, t) == s[1..] || (Stack(r, t) != [] && Stack(r, t) == [Stack(r, t)[0]] + s[1..]))
            && forall u :: u != t ==> Stack(r, u) == Stack(st, u)
  {
  }

  lemma LocksKept(st: State, a: Action)
    requires LocksMatch(st) && Enabled(st, a)
    ensures LocksMatch(Next(st, a))
  {
    var t, s, r := a.t, Stack(st, a.t), Next(st, a);
    if a.Call? {
      StackSplits(a.a, s);
    } else {
      AdvanceStack(st, t);
      AdvanceDepths(st, t);
      assert s == [s[0]] + s[1..];
      StackSplits(s[0], s[1..]);
      if |Stack(r, t)| == |s| {
        StackSplits(Stack(r, t)[0], s[1..]);
      }
    }
    LocksMatchAfter(st, r, t);
  }

  /** Below the innermost call there are only running callbacks. */
  ghost predicate Nested(st: State) {
    forall t, i :: 1 <= i < |Stack(st, t)| ==> Stack(st, t)[i].NotifyCalling?
  }

  lemma NestedKept(st: State, a: Action)
    requires Nested(st) && Enabled(st, a)
    ensures Nested(Next(st, a))
  {
    var t, s, r := a.t, Stack(st, a.t), Next(st, a);
    forall u, i | 1 <= i < |Stack(r, u)| ensures Stack(r, u)[i].NotifyCalling? {
      if u != t {
        assert Stack(r, u) == Stack(st, u);
      } else if a.Call? {
        assert Stack(r, u)[i] == s[i - 1];
      } else if |Stack(r, u)| == |s| {
        assert Stack(r, u)[i] == s[i];
      } else {
        assert Stack(r, u)[i] == s[i + 1];
      }
    }
  }

  ghost predicate PicksRegistered(st: State) {
    forall t :: Stack(st, t) != [] ==> PickRegistered(st.registered, Stack(st, t)[0])
  }

  /** Who holds the main lock in its innermost call holds it alone. */
  lemma MainIsExclusive(st: State, t: Thread, u: Thread)
    requires LocksMatch(st) && Stack(st, t) != [] && Stack(st, u) != []
    requires HoldsMain(Stack(st, t)[0]) == 1 && HoldsMain(Stack(st, u)[0]) == 1
    ensures t == u
  {
    HoldsCovers(Stack(st, t), 0);
    HoldsCovers(Stack(st, u), 0);
    assert Depth(st.main, t) >= 1 && Depth(st.main, u) >= 1;
  }

  lemma PicksKept(st: State, a: Action)
    requires LocksMatch(st) && Nested(st) && PicksRegistered(st) && Enabled(st, a)
    ensures PicksRegistered(Next(st, a))
  {
    var t, s, r := a.t, Stack(st, a.t), Next(st, a);
    forall u | Stack(r, u) != [] ensures PickRegistered(r.registered, Stack(r, u)[0]) {
      if u != t {
        assert Stack(r, u) == Stack(st, u);
        assert PickRegistered(st.registered, Stack(st, u)[0]);
        if a.Advance? && s[0].UnregisterBoth? && (Stack(st, u)[0].NotifyPicked? || Stack(st, u)[0].NotifyBoth?) {
          MainIsExclusive(st, t, u);
        }
      } else if a.Advance? && |Stack(r, u)| < |s| {
        assert Stack(r, u)[0] == s[1];
      } else if a.Advance? {
        assert PickRegistered(st.registered, s[0]);
      }
    }
  }

  lemma InvKept(st: State, a: Action)
    requires Inv(st)
    ensures Inv(Do(st, a))
  {
    if Enabled(st, a) {
      LocksKept(st, a);
      NestedKept(st, a);
      PicksKept(st, a);
    }
  }

  lemma {:induction false} RunInv(st: State, actions: seq<Action>)
    requires Inv(st)
    ensures Inv(Run(st, actions))
    decreases |actions|
  {
    if actions != [] {
      InvKept(st, actions[0]);
      RunInv(Do(st, actions[0]), actions[1..]);
    }
  }

  // ------------------------------------------------- safety of deregistration

  /** A callback of `l` is running or bound to start. */
  ghost predicate Calls(a: Activation, l: Listener) {
    || (a.NotifyCalling? && a.callee == l)
    || ((a.NotifyPicked? || a.NotifyBoth?) && a.pick == Some(l))
  }

  ghost predicate InUse(st: State, l: Listener) {
    exists t, i :: 0 <= i < |Stack(st, t)| && Calls(Stack(st, t)[i], l)
  }

  /** Not registered, no callback running and none about to start. */
  ghost predicate Gone(st: State, l: Listener) {
    l !in st.registered && !InUse(st, l)
  }

  /** Callbacks of different threads exclude each other. */
  lemma CallbacksExclude(st: State, t: Thread, u: Thread, i: nat, j: nat)
    requires Inv(st) && i < |Stack(st, t)| && j < |Stack(st, u)|
    requires Stack(st, t)[i].NotifyCalling? && Stack(st, u)[j].NotifyCalling?
    ensures t == u
  {
    HoldsCovers(Stack(st, t), i);
    HoldsCovers(Stack(st, u), j);
    assert Depth(st.note, t) >= 1 && Depth(st.note, u) >= 1;
  }

  /** While a thread holds both locks for a deregistration, only its own callbacks are running. */
  lemma OnlyOwnCallbacks(st: State, t: Thread, u: Thread, i: nat, l: Listener)
    requires Inv(st) && Stack(st, t) != [] && Stack(st, t)[0].UnregisterBoth?
    requires i < |Stack(st, u)| && Calls(Stack(st, u)[i], l)
    ensures u == t && i > 0
  {
    HoldsCovers(Stack(st, t), 0);
    HoldsCovers(Stack(st, u), i);
    assert Depth(st.main, t) >= 1 && Depth(st.note, t) >= 1;
    assert Depth(st.main, u) >= 1 || Depth(st.note, u) >= 1;
  }

  /** The thread is inside a callback of `l`. */
  ghost predicate InsideCallback(st: State, t: Thread, l: Listener) {
    exists i :: 1 <= i < |Stack(st, t)| && Stack(st, t)[i].NotifyCalling? && Stack(st, t)[i].callee == l
  }

  /**
    When UnregisterListener removes the last registration of `l`, the listener
    is no longer in use at return if and only if the call was not made from
    inside a callback of `l` itself.
   */
  lemma RemovalEndsUseIff(st: State, t: Thread, l: Listener)
    requires Inv(st) && Stack(st, t) != [] && Stack(st, t)[0].UnregisterBoth?
    requires l !in Next(st, Advance(t)).registered
    ensures Gone(Next(st, Advance(t)), l) <==> !InsideCallback(st, t, l)
  {
    var s, r := Stack(st, t), Next(st, Advance(t));
    assert Stack(r, t) == s[1..];
    if InUse(r, l) {
      var u, i :| 0 <= i < |Stack(r, u)| && Calls(Stack(r, u)[i], l);
      if u == t {
        assert Stack(r, u)[i] == s[i + 1];
        assert InsideCallback(st, t, l);
      } else {
        assert Stack(r, u) == Stack(st, u);
        OnlyOwnCallbacks(st, t, u, i, l);
        assert false;
      }
    }
    if InsideCallback(st, t, l) {
      var i :| 1 <= i < |s| && s[i].NotifyCalling? && s[i].callee == l;
      assert Stack(r, t)[i - 1] == s[i] && Calls(Stack(r, t)[i - 1], l);
    }
  }

  lemma RemovedIsSmaller(ls: seq<Listener>, target: Option<Listener>, l: Listener)
    requires l !in ls
    ensures l !in Removed(ls, target)
  {
    if target.Some? && l in RemoveFirst(ls, target.value) {
      RemoveFirstStaysIn(ls, target.value, l);
    }
  }

  predicate Registers(st: State, a: Action, l: Listener) {
    a.Advance? && Stack(st, a.t) != [] && Stack(st, a.t)[0] == RegisterLocked(l)
  }

  lemma UnlistedKept(st: State, a: Action, l: Listener)
    requires l !in st.registered && Enabled(st, a) && !Registers(st, a, l)
    ensures l !in Next(st, a).registered
  {
    if a.Advance? && Stack(st, a.t)[0].UnregisterBoth? {
      RemovedIsSmaller(st.registered, Stack(st, a.t)[0].target, l);
    }
  }

  lemma UnusedKept(st: State, a: Action, l: Listener)
    requires Gone(st, l) && Enabled(st, a)
    ensures !InUse(Next(st, a), l)
  {
    var t, s, r := a.t, Stack(st, a.t), Next(st, a);
    forall u, i | 0 <= i < |Stack(r, u)| ensures !Calls(Stack(r, u)[i], l) {
      if u != t {
        assert Stack(r, u) == Stack(st, u);
        assert !Calls(Stack(st, u)[i], l);
      } else if a.Call? {
        assert i > 0 ==> Stack(r, u)[i] == s[i - 1] && !Calls(s[i - 1], l);
      } else if |Stack(r, u)| < |s| {
        assert Stack(r, u)[i] == s[i + 1] && !Calls(s[i + 1], l);
      } else {
        assert !Calls(s[i], l);
        assert i > 0 ==> Stack(r, u)[i] == s[i];
      }
    }
  }

  lemma GoneKept(st: State, a: Action, l: Listener)
    requires Gone(st, l) && Enabled(st, a) && !Registers(st, a, l)
    ensures Gone(Next(st, a), l)
  {
    UnlistedKept(st, a, l);
    UnusedKept(st, a, l);
  }

  /** No action of the run registers `l`. */
  ghost predicate NeverRegisters(st: State, actions: seq<Action>, l: Listener)
    decreases |actions|
  {
    actions == []
    || (&& !Registers(st, actions[0], l)
        && NeverRegisters(Do(st, actions[0]), actions[1..], l))
  }

  lemma {:induction false} GoneStaysGone(st: State, actions: seq<Action>, l: Listener)
    requires Inv(st) && Gone(st, l) && NeverRegisters(st, actions, l)
    ensures Gone(Run(st, actions), l)
    decreases |actions|
  {
    if actions != [] {
      if Enabled(st, actions[0]) {
        GoneKept(st, actions[0], l);
      }
      InvKept(st, actions[0]);
      GoneStaysGone(Do(st, actions[0]), actions[1..], l);
    }
  }

  /**
    In every interleaving: once a deregistration, of one listener or of all,
    has removed the last registration of a listener and returned, no thread
    runs that listener's callback or will start it, until it is registered
    again.  The calling thread may be outside a notification or inside the
    callbacks of other listeners.
   */
  lemma UnregisteredIsNeverCalled(before: seq<Action>, t: Thread, after: seq<Action>, l: Listener)
    requires var st := Run(START, before);
             && Stack(st, t) != [] && Stack(st, t)[0].UnregisterBoth?
             && !InsideCallback(st, t, l)
             && l !in Next(st, Advance(t)).registered
             && NeverRegisters(Next(st, Advance(t)), after, l)
    ensures Gone(Run(Next(Run(START, before), Advance(t)), after), l)
  {
    var st := Run(START, before);
    RunInv(START, before);
    RemovalEndsUseIff(st, t, l);
    InvKept(st, Advance(t));
    GoneStaysGone(Next(st, Advance(t)), after, l);
  }

  // ------------------------------------------------------------ registrations

  /** The action deregisters: one registration of the listener, or all with None. */
  predicate Unregisters(st: State, a: Action, target: Option<Listener>) {
    a.Advance? && Stack(st, a.t) != [] && Stack(st, a.t)[0] == UnregisterBoth(target)
  }

  /** The number of registrations of `l` after an action, from that before: up by one, down by one, none, or as before. */
  function CountAfter(st: State, a: Action, l: Listener, n: nat): (r: nat) {
    if Registers(st, a, l) then n + 1
    else if Unregisters(st, a, None) then 0
    else if Unregisters(st, a, Some(l)) && n > 0 then n - 1
    else n
  }

  lemma RegisteredStep(st: State, a: Action)
    ensures var s, r := Stack(st, a.t), Do(st, a).registered;
            if a.Advance? && s != [] && s[0].RegisterLocked? then r == st.registered + [s[0].l]
            else if a.Advance? && s != [] && s[0].UnregisterBoth? then r == Removed(st.registered, s[0].target)
            else r == st.registered
  {
  }

  lemma RegistrationsStep(st: State, a: Action, l: Listener)
    ensures multiset(Do(st, a).registered)[l] == CountAfter(st, a, l, multiset(st.registered)[l])
  {
    RegisteredStep(st, a);
    if Unregisters(st, a, None) {
      assert Do(st, a).registered == [];
    } else if a.Advance? && Stack(st, a.t) != [] && Stack(st, a.t)[0].UnregisterBoth? {
      RemoveFirstCounts(st.registered, Stack(st, a.t)[0].target.value);
    }
  }

  /** How many registrations of `l` the calls of a run leave when it starts with n. */
  function CountAfterAll(st: State, actions: seq<Action>, l: Listener, n: nat): (r: nat)
    decreases |actions|
  {
    if actions == [] then n
    else CountAfterAll(Do(st, actions[0]), actions[1..], l, CountAfter(st, actions[0], l, n))
  }

  /**
    In every interleaving a listener is registered as often as the calls on it
    say: each registration adds one, each deregistration takes one away if
    there is one, and a deregistration of all takes all.
   */
  lemma {:induction false} RegistrationsAreCounted(st: State, actions: seq<Action>, l: Listener)
    ensures multiset(Run(st, actions).registered)[l] == CountAfterAll(st, actions, l, multiset(st.registered)[l])
    decreases |actions|
  {
    if actions != [] {
      RegistrationsStep(st, actions[0], l);
      RegistrationsAreCounted(Do(st, actions[0]), actions[1..], l);
    }
  }

  // --------------------------------------------------- end of a notification

  /** A search that found nobody has picked everybody who is registered. */
  ghost predicate PickedAll(registered: seq<Listener>, a: Activation) {
    (a.NotifyPicked? || a.NotifyBoth?) && a.pick.None? ==> forall l :: l in registered ==> l in a.finished
  }

  ghost predicate SearchesComplete(st: State) {
    forall t :: Stack(st, t) != [] ==> PickedAll(st.registered, Stack(st, t)[0])
  }

  lemma SearchesCompleteKept(st: State, a: Action)
    requires LocksMatch(st) && Nested(st) && SearchesComplete(st) && Enabled(st, a)
    ensures SearchesComplete(Next(st, a))
  {
    var t, s, r := a.t, Stack(st, a.t), Next(st, a);
    forall u | Stack(r, u) != [] ensures PickedAll(r.registered, Stack(r, u)[0]) {
      if u != t {
        assert Stack(r, u) == Stack(st, u);
        assert PickedAll(st.registered, Stack(st, u)[0]);
        if r.registered != st.registered && (Stack(st, u)[0].NotifyPicked? || Stack(st, u)[0].NotifyBoth?) {
          MainIsExclusive(st, t, u);
        }
      } else if a.Advance? && |Stack(r, u)| < |s| {
        assert Stack(r, u)[0] == s[1];
      } else if a.Advance? {
        assert PickedAll(st.registered, s[0]);
      }
    }
  }

  lemma {:induction false} RunSearches(st: State, actions: seq<Action>)
    requires Inv(st) && SearchesComplete(st)
    ensures SearchesComplete(Run(st, actions))
    decreases |actions|
  {
    if actions != [] {
      InvKept(st, actions[0]);
      if Enabled(st, actions[0]) {
        SearchesCompleteKept(st, actions[0]);
      }
      RunSearches(Do(st, actions[0]), actions[1..]);
    }
  }

  /**
    In every interleaving: a notification that is about to call somebody calls
    the listener it picked last, and one that is about to end has picked every
    listener that is registered at that moment.
   */
  lemma EndsWhenAllPicked(actions: seq<Action>, t: Thread)
    requires var st := Run(START, actions); Stack(st, t) != [] && Stack(st, t)[0].NotifyBoth?
    ensures var st := Run(START, actions);
            var a, next := Stack(st, t)[0], Stack(Next(st, Advance(t)), t)[0];
            && (next.NotifyLeaving? ==> forall l :: l in st.registered ==> l in a.finished)
            && (!next.NotifyLeaving? ==> a.finished != [] && next == NotifyCalling(a.finished, a.finished[|a.finished| - 1]))
  {
    RunInv(START, actions);
    RunSearches(START, actions);
    EachCalledAtMostOnce(START, actions);
    assert PickedAll(Run(START, actions).registered, Stack(Run(START, actions), t)[0]);
    assert CallsOnce(Stack(Run(START, actions), t)[0]);
  }

  // ------------------------------------------------ one call per notification

  /** The listeners picked so far by a notification under way; nothing for other calls. */
  function PickedBy(a: Activation): (r: seq<Listener>) {
    if a.NotifyStart? || a.NotifySearch? || a.NotifyPicked? || a.NotifyBoth? || a.NotifyCalling? then a.finished else []
  }

  ghost predicate NoneTwice(ls: seq<Listener>) {
    forall i, j :: 0 <= i < j < |ls| ==> ls[i] != ls[j]
  }

  /** The listener that is called, or about to be, is the last one picked, and none was picked twice. */
  ghost predicate CallsOnce(a: Activation) {
    && NoneTwice(PickedBy(a))
    && (a.NotifyCalling? ==> a.finished != [] && a.finished[|a.finished| - 1] == a.callee)
    && ((a.NotifyPicked? || a.NotifyBoth?) && a.pick.Some? ==>
          a.finished != [] && a.finished[|a.finished| - 1] == a.pick.value)
  }

  ghost predicate AllCallOnce(st: State) {
    forall t, i :: 0 <= i < |Stack(st, t)| ==> CallsOnce(Stack(st, t)[i])
  }

  lemma PickExtends(registered: seq<Listener>, f: seq<Listener>)
    requires NoneTwice(f)
    ensures var pick := FirstUnfinished(registered, f);
            NoneTwice(if pick.Some? then f + [pick.value] else f)
  {
  }

  lemma CallsOnceKept(st: State, a: Action)
    requires AllCallOnce(st) && Enabled(st, a)
    ensures AllCallOnce(Next(st, a))
  {
    var t, s, r := a.t, Stack(st, a.t), Next(st, a);
    forall u, i | 0 <= i < |Stack(r, u)| ensures CallsOnce(Stack(r, u)[i]) {
      if u != t {
        assert Stack(r, u) == Stack(st, u) && CallsOnce(Stack(st, u)[i]);
      } else if a.Call? {
        assert i > 0 ==> Stack(r, u)[i] == s[i - 1] && CallsOnce(s[i - 1]);
      } else if |Stack(r, u)| < |s| {
        assert Stack(r, u)[i] == s[i + 1] && CallsOnce(s[i + 1]);
      } else {
        assert CallsOnce(s[i]);
        assert i > 0 ==> Stack(r, u)[i] == s[i];
        if i == 0 && s[0].NotifySearch? {
          PickExtends(st.registered, s[0].finished);
        }
      }
    }
  }

  /**
    In every interleaving, within each notification under way, of whichever
    thread and however deeply nested: every pick is a listener that was not
    picked before, and it is the one that is called.
   */
  lemma {:induction false} EachCalledAtMostOnce(st: State, actions: seq<Action>)
    requires AllCallOnce(st)
    ensures AllCallOnce(Run(st, actions))
    decreases |actions|
  {
    if actions != [] {
      if Enabled(st, actions[0]) {
        CallsOnceKept(st, actions[0]);
      }
      EachCalledAtMostOnce(Do(st, actions[0]), actions[1..]);
    }
  }

  // ------------------------------------------------ deregistration from inside

  lemma {:induction false} RunSnoc(st: State, actions: seq<Action>, a: Action)
    ensures Run(st, actions + [a]) == Do(Run(st, actions), a)
    decreases |actions|
  {
    if actions == [] {
      assert actions + [a] == [a] && [a][1..] == [];
    } else {
      assert (actions + [a])[1..] == actions[1..] + [a];
      RunSnoc(Do(st, actions[0]), actions[1..], a);
    }
  }

  /** The state in which a single thread is active. */
  function Alone(registered: seq<Listener>, main: Lock, note: Lock, t: Thread, s: seq<Activation>): (st: State)
    ensures Stack(st, t) == s
  {
    State(registered, main, note, map[t := s])
  }

  lemma AloneCalls(registered: seq<Listener>, main: Lock, note: Lock, t: Thread, c: Activation, s: seq<Activation>)
    requires IsStart(c) && (s == [] || s[0].NotifyCalling?)
    ensures Do(Alone(registered, main, note, t, s), Call(t, c)) == Alone(registered, main, note, t, [c] + s)
  {
  }

  /** One step of the only thread: `b` replaces the innermost call. */
  lemma AloneAdvances(registered: seq<Listener>, main: Lock, note: Lock, t: Thread, a: Activation, rest: seq<Activation>,
                      registered': seq<Listener>, main': Lock, note': Lock, b: seq<Activation>)
    requires ([a] + rest)[1..] == rest
    requires var st := Alone(registered, main, note, t, [a] + rest);
             && Enabled(st, Advance(t))
             && Next(st, Advance(t)) ==
                WithStack(State(registered', main', note', st.stacks), t, if b == [] then rest else b + rest)
    ensures Do(Alone(registered, main, note, t, [a] + rest), Advance(t)) == Alone(registered', main', note', t, b + rest)
  {
    assert [] + rest == rest;
  }

  /** A thread registers a listener. */
  lemma RegisteringRun(t: Thread, l: Listener) returns (actions: seq<Action>)
    ensures Run(START, actions) == Alone([l], Free, Free, t, [])
  {
    actions := [Call(t, RegisterStart(l))];
    RunSnoc(START, [], Call(t, RegisterStart(l)));
    assert [] + actions == actions;
    assert Run(START, actions) == Alone([], Free, Free, t, [RegisterStart(l)] + []);
    AloneAdvances([], Free, Free, t, RegisterStart(l), [], [], Owned(t, 1), Free, [RegisterLocked(l)]);
    actions := ThenAdvance(actions, t);
    AloneAdvances([], Owned(t, 1), Free, t, RegisterLocked(l), [], [] + [l], Free, Free, []);
    actions := ThenAdvance(actions, t);
    assert [] + [l] == [l];
  }

  lemma ThenAdvance(actions: seq<Action>, t: Thread) returns (r: seq<Action>)
    ensures Run(START, r) == Do(Run(START, actions), Advance(t))
  {
    r := actions + [Advance(t)];
    RunSnoc(START, actions, Advance(t));
  }

  /** The thread notifies and has picked the listener. */
  lemma PickingRun(t: Thread, l: Listener) returns (actions: seq<Action>)
    ensures Run(START, actions) == Alone([l], Owned(t, 1), Free, t, [NotifyPicked([l], Some(l))] + [])
  {
    var before := RegisteringRun(t, l);
    actions := before + [Call(t, NotifyStart([]))];
    RunSnoc(START, before, Call(t, NotifyStart([])));
    AloneCalls([l], Free, Free, t, NotifyStart([]), []);
    AloneAdvances([l], Free, Free, t, NotifyStart([]), [], [l], Owned(t, 1), Free, [NotifySearch([])]);
    actions := ThenAdvance(actions, t);
    assert FirstUnfinished([l], []) == Some(l) && [] + [l] == [l];
    AloneAdvances([l], Owned(t, 1), Free, t, NotifySearch([]), [],
                  [l], Owned(t, 1), Free, [NotifyPicked([l], Some(l))]);
    actions := ThenAdvance(actions, t);
  }

  /** The thread is inside the callback. */
  lemma CallingRun(t: Thread, l: Listener) returns (actions: seq<Action>)
    ensures Run(START, actions) == Alone([l], Free, Owned(t, 1), t, [NotifyCalling([l], l)])
  {
    actions := PickingRun(t, l);
    AloneAdvances([l], Owned(t, 1), Free, t, NotifyPicked([l], Some(l)), [],
                  [l], Owned(t, 1), Owned(t, 1), [NotifyBoth([l], Some(l))]);
    actions := ThenAdvance(actions, t);
    AloneAdvances([l], Owned(t, 1), Owned(t, 1), t, NotifyBoth([l], Some(l)), [],
                  [l], Free, Owned(t, 1), [NotifyCalling([l], l)]);
    actions := ThenAdvance(actions, t);
    assert [NotifyCalling([l], l)] + [] == [NotifyCalling([l], l)];
  }

  /** A run in which a listener removes itself in its own callback: at the return it is still in use. */
  lemma SelfRemovalReturnsInUse(t: Thread, l: Listener) returns (actions: seq<Action>)
    ensures var st := Run(START, actions);
            && Stack(st, t) != [] && Stack(st, t)[0] == UnregisterBoth(Some(l))
            && l !in Next(st, Advance(t)).registered
            && InUse(Next(st, Advance(t)), l)
  {
    var rest := [NotifyCalling([l], l)];
    var before := CallingRun(t, l);
    actions := before + [Call(t, UnregisterStart(Some(l)))];
    RunSnoc(START, before, Call(t, UnregisterStart(Some(l))));
    AloneCalls([l], Free, Owned(t, 1), t, UnregisterStart(Some(l)), rest);
    AloneAdvances([l], Free, Owned(t, 1), t, UnregisterStart(Some(l)), rest,
                  [l], Owned(t, 1), Owned(t, 1), [UnregisterLocked(Some(l))]);
    actions := ThenAdvance(actions, t);
    AloneAdvances([l], Owned(t, 1), Owned(t, 1), t, UnregisterLocked(Some(l)), rest,
                  [l], Owned(t, 1), Owned(t, 2), [UnregisterBoth(Some(l))]);
    actions := ThenAdvance(actions, t);
    var r := Next(Run(START, actions), Advance(t));
    assert ([UnregisterBoth(Some(l))] + rest)[1..] == rest;
    assert Stack(r, t)[0] == rest[0] && Calls(Stack(r, t)[0], l);
  }
}
