/**
  The blocking queue: many producers, cancellers and clearers, one consumer.
  Every access to the guarded queue, to the size, to the cancel flag and to
  the event is a step of its own.
 */
module BlockingQueue {
  type Thread = nat
  type Item = int

  /** How far the consumer is in Dequeue; between calls it is Outside. */
  datatype Consumer =
    | Outside
    | Start              // reads the cancel flag for the first time
    | Trying             // about to take an item
    | Blocked            // in the wait of the event
    | Woken              // about to read the cancel flag again
    | Resetting          // saw the flag set, about to reset it
    | Taken(item: Item)  // has an item, size not yet decremented

  /**
    The queue and the threads inside it, by the point they have reached.  The
    event counts its permits, or keeps at most one when it is binary.
   */
  datatype State = State(
    items: seq<Item>,
    size: int,
    cancelled: bool,
    permits: nat,
    binary: bool,
    consumer: Consumer,
    pushed: set<Thread>,         // Enqueue: item pushed, size not yet incremented
    counted: set<Thread>,        // Enqueue: size incremented, event not yet notified
    cancelling: set<Thread>,     // CancelDequeue: flag set, event not yet notified
    clearing: set<Thread>,       // Clear: about to try the next item
    cleared: set<Thread>,        // Clear: item removed, size not yet decremented
    history: History)

  /** Which call removed an item. */
  datatype Remover = ByDequeue | ByClear

  /** What happened so far; no step depends on it. */
  datatype History = History(
    entered: seq<Item>,          // all items in push order
    left: seq<Item>,             // all items removed, by Dequeue or Clear
    removers: seq<Remover>,      // by which of them
    returned: seq<Item>,         // all items that Dequeue has returned
    notified: nat,               // notifications of the event
    wakes: nat,                  // returns from the wait
    raised: nat,                 // changes of the cancel flag from false to true
    cancellations: nat)          // Dequeue calls that returned ERR_CANCELLED

  datatype Action =
    | Push(t: Thread, item: Item) | CountUp(t: Thread) | NotifyItem(t: Thread)
    | Raise(t: Thread) | NotifyCancel(t: Thread)
    | BeginClear(t: Thread) | ClearOne(t: Thread) | CountCleared(t: Thread)
    | BeginDequeue | CheckFlag | TryTake | Wake | RecheckFlag | ResetFlag | CountDown

  function Busy(st: State): (r: set<Thread>) {
    st.pushed + st.counted + st.cancelling + st.clearing + st.cleared
  }

  function Post(st: State): (n: nat)
    ensures n >= 1
  {
    if st.binary then 1 else st.permits + 1
  }

  predicate Enabled(st: State, a: Action) {
    match a
    case Push(t, x) => t !in Busy(st)
    case CountUp(t) => t in st.pushed
    case NotifyItem(t) => t in st.counted
    case Raise(t) => t !in Busy(st)
    case NotifyCancel(t) => t in st.cancelling
    case BeginClear(t) => t !in Busy(st)
    case ClearOne(t) => t in st.clearing
    case CountCleared(t) => t in st.cleared
    case BeginDequeue => st.consumer == Outside
    case CheckFlag => st.consumer == Start
    case TryTake => st.consumer == Trying
    case Wake => st.consumer == Blocked && st.permits > 0
    case RecheckFlag => st.consumer == Woken
    case ResetFlag => st.consumer == Resetting
    case CountDown => st.consumer.Taken?
  }

  function Leave(h: History, x: Item, w: Remover): (r: History) {
    h.(left := h.left + [x], removers := h.removers + [w])
  }

  function Notified(h: History): (r: History) {
    h.(notified := h.notified + 1)
  }

  function Next(st: State, a: Action): (r: State)
    requires Enabled(st, a)
  {
    match a
    case Push(t, x) =>
      st.(items := st.items + [x], pushed := st.pushed + {t},
          history := st.history.(entered := st.history.entered + [x]))
    case CountUp(t) => st.(size := st.size + 1, pushed := st.pushed - {t}, counted := st.counted + {t})
    case NotifyItem(t) => st.(permits := Post(st), counted := st.counted - {t}, history := Notified(st.history))
    case Raise(t) =>
      st.(cancelled := true, cancelling := st.cancelling + {t},
          history := st.history.(raised := st.history.raised + if st.cancelled then 0 else 1))
    case NotifyCancel(t) =>
      st.(permits := Post(st), cancelling := st.cancelling - {t}, history := Notified(st.history))
    case BeginClear(t) => st.(clearing := st.clearing + {t})
    case ClearOne(t) =>
      if st.items == [] then st.(clearing := st.clearing - {t})
      else st.(items := st.items[1..], clearing := st.clearing - {t}, cleared := st.cleared + {t},
               history := Leave(st.history, st.items[0], ByClear))
    case CountCleared(t) => st.(size := st.size - 1, cleared := st.cleared - {t}, clearing := st.clearing + {t})
    case BeginDequeue => st.(consumer := Start)
    case CheckFlag => st.(consumer := if st.cancelled then Resetting else Trying)
    case TryTake =>
      if st.items == [] then st.(consumer := Blocked)
      else st.(items := st.items[1..], consumer := Taken(st.items[0]), history := Leave(st.history, st.items[0], ByDequeue))
    case Wake =>
      st.(permits := st.permits - 1, consumer := Woken, history := st.history.(wakes := st.history.wakes + 1))
    case RecheckFlag => st.(consumer := if st.cancelled then Resetting else Trying)
    case ResetFlag =>
      st.(cancelled := false, consumer := Outside,
          history := st.history.(cancellations := st.history.cancellations + 1))
    case CountDown =>
      st.(size := st.size - 1, consumer := Outside,
          history := st.history.(returned := st.history.returned + [st.consumer.item]))
  }

  function Do(st: State, a: Action): (r: State) {
    if Enabled(st, a) then Next(st, a) else st
  }

  function Run(st: State, actions: seq<Action>): (r: State)
    decreases |actions|
  {
    if actions == [] then st else Run(Do(st, actions[0]), actions[1..])
  }

  function Fresh(binary: bool): (st: State) {
    State([], 0, false, 0, binary, Outside, {}, {}, {}, {}, {}, History([], [], [], [], 0, 0, 0, 0))
  }

  // ---------------------------------------------------------------- invariants

  /** The length of the queue, up to the threads between a queue access and its count. */
  ghost predicate SizeLaw(st: State) {
    && st.clearing !! st.cleared
    && |st.items| == st.size + |st.pushed| - |st.cleared| - (if st.consumer.Taken? then 1 else 0)
  }

  /** Items leave in the order they entered. */
  ghost predicate OrderLaw(st: State) {
    st.history.left + st.items == st.history.entered
  }

  /** The items that left through one kind of call, in their order. */
  function Part(items: seq<Item>, removers: seq<Remover>, w: Remover): (r: seq<Item>)
    requires |items| == |removers|
  {
    if items == [] then [] else
      var k := |items| - 1;
      Part(items[..k], removers[..k], w) + if removers[k] == w then [items[k]] else []
  }

  /** The item that Dequeue has taken and not yet returned. */
  function InHand(c: Consumer): (r: seq<Item>) {
    if c.Taken? then [c.item] else []
  }

  /** What Dequeue returned, and the item it holds, is what left through Dequeue. */
  ghost predicate ReturnLaw(st: State) {
    && |st.history.left| == |st.history.removers|
    && st.history.returned + InHand(st.consumer) == Part(st.history.left, st.history.removers, ByDequeue)
  }

  lemma PartAppend(items: seq<Item>, removers: seq<Remover>, x: Item, who: Remover, w: Remover)
    requires |items| == |removers|
    ensures Part(items + [x], removers + [who], w) == Part(items, removers, w) + if who == w then [x] else []
  {
    assert (items + [x])[..|items|] == items && (removers + [who])[..|items|] == removers;
  }

  /** Every raised flag has been reported once, or is still set. */
  ghost predicate CancelLaw(st: State) {
    && st.history.raised == st.history.cancellations + (if st.cancelled then 1 else 0)
    && (st.consumer == Resetting ==> st.cancelled)
  }

  /** An item that a blocked consumer has not seen: its notification is available or on its way. */
  ghost predicate ItemWakeup(st: State) {
    st.permits > 0 || st.pushed != {} || st.counted != {}
  }

  /** The same for a raised cancel flag. */
  ghost predicate CancelWakeup(st: State) {
    st.permits > 0 || st.cancelling != {}
  }

  ghost predicate WakeupLaw(st: State) {
    && (st.consumer == Blocked && st.items != [] ==> ItemWakeup(st))
    && ((st.consumer == Blocked || st.consumer == Trying) && st.cancelled ==> CancelWakeup(st))
  }

  /** Every return from the wait uses up a notification; a binary event may merge some. */
  ghost predicate EventLaw(st: State) {
    && (!st.binary ==> st.history.wakes + st.permits == st.history.notified)
    && (st.binary ==> st.permits <= 1 && st.history.wakes + st.permits <= st.history.notified)
  }

  ghost predicate Inv(st: State) {
    SizeLaw(st) && OrderLaw(st) && ReturnLaw(st) && CancelLaw(st) && WakeupLaw(st) && EventLaw(st)
  }

  lemma SizeKept(st: State, a: Action)
    requires SizeLaw(st) && Enabled(st, a)
    ensures SizeLaw(Next(st, a))
  {
    match a
    case Push(t, x) => assert |st.pushed + {t}| == |st.pushed| + 1;
    case CountUp(t) => assert |st.pushed - {t}| == |st.pushed| - 1;
    case ClearOne(t) => ClearKeepsSize(st, t);
    case CountCleared(t) => assert |st.cleared - {t}| == |st.cleared| - 1;
    case _ =>
  }

  lemma ClearKeepsSize(st: State, t: Thread)
    requires SizeLaw(st) && t in st.clearing
    ensures SizeLaw(Next(st, ClearOne(t)))
  {
    assert |st.cleared + {t}| == |st.cleared| + 1;
  }

  lemma OrderKept(st: State, a: Action)
    requires OrderLaw(st) && Enabled(st, a)
    ensures OrderLaw(Next(st, a))
  {
    if (a.ClearOne? || a.TryTake?) && st.items != [] {
      assert st.items == [st.items[0]] + st.items[1..];
    }
  }

  lemma OthersKeepReturns(st: State, a: Action)
    requires Enabled(st, a) && !a.ClearOne? && !a.TryTake? && !a.CountDown?
    ensures var h, h' := st.history, Next(st, a).history;
            && h'.left == h.left && h'.removers == h.removers && h'.returned == h.returned
            && InHand(Next(st, a).consumer) == InHand(st.consumer)
  {
  }

  lemma RemovalKeepsReturns(st: State, a: Action)
    requires ReturnLaw(st) && Enabled(st, a) && (a.ClearOne? || a.TryTake?)
    ensures ReturnLaw(Next(st, a))
  {
    if st.items != [] {
      PartAppend(st.history.left, st.history.removers, st.items[0], if a.TryTake? then ByDequeue else ByClear, ByDequeue);
    }
  }

  lemma ReturnKept(st: State, a: Action)
    requires ReturnLaw(st) && Enabled(st, a)
    ensures ReturnLaw(Next(st, a))
  {
    if a.ClearOne? || a.TryTake? {
      RemovalKeepsReturns(st, a);
    } else if !a.CountDown? {
      OthersKeepReturns(st, a);
    }
  }

  /** What a removal takes: the oldest item, and nothing else. */
  lemma RemovalTakesFirst(st: State, a: Action)
    requires Enabled(st, a) && (a.TryTake? || a.ClearOne?) && st.items != []
    ensures var r := Next(st, a);
            && r.history.left == st.history.left + [st.items[0]]
            && [st.items[0]] + r.items == st.items
            && (a.TryTake? ==> r.consumer.Taken? && [r.consumer.item] + r.items == st.items)
  {
  }

  lemma CancelKept(st: State, a: Action)
    requires CancelLaw(st) && Enabled(st, a)
    ensures CancelLaw(Next(st, a))
  {
  }

  lemma WakeupKept(st: State, a: Action)
    requires WakeupLaw(st) && Enabled(st, a)
    ensures WakeupLaw(Next(st, a))
  {
    var r := Next(st, a);
    if a.Push? || a.CountUp? {
      assert a.t in r.pushed || a.t in r.counted;
    }
    if a.Raise? {
      assert a.t in r.cancelling;
    }
  }

  lemma EventKept(st: State, a: Action)
    requires EventLaw(st) && Enabled(st, a)
    ensures EventLaw(Next(st, a)) && Next(st, a).binary == st.binary
  {
  }

  lemma InvKept(st: State, a: Action)
    requires Inv(st) && Enabled(st, a)
    ensures Inv(Next(st, a))
  {
    SizeKept(st, a);
    OrderKept(st, a);
    ReturnKept(st, a);
    CancelKept(st, a);
    WakeupKept(st, a);
    EventKept(st, a);
  }

  lemma {:induction false} RunInv(st: State, actions: seq<Action>)
    requires Inv(st)
    ensures Inv(Run(st, actions)) && Run(st, actions).binary == st.binary
    decreases |actions|
  {
    if actions != [] {
      if Enabled(st, actions[0]) {
        InvKept(st, actions[0]);
      }
      RunInv(Do(st, actions[0]), actions[1..]);
    }
  }

  // ---------------------------------------------------------------- progress

  /** There is something to report to the consumer: an item or a cancellation. */
  ghost predicate Work(st: State) {
    st.items != [] || st.cancelled
  }

  /** A step that finishes a call that has begun; no new call. */
  predicate Finishes(a: Action) {
    a.CountUp? || a.NotifyItem? || a.NotifyCancel?
    || a.CheckFlag? || a.TryTake? || a.Wake? || a.RecheckFlag? || a.ResetFlag? || a.CountDown?
  }

  /** How far the consumer's call is from its end. */
  ghost function Distance(st: State): (d: nat) {
    match st.consumer
    case Outside => 0
    case Resetting => 1
    case Taken(_) => 1
    case Trying => if st.items != [] then 2 else 7
    case Start => 8
    case Woken => 3
    case Blocked => if st.permits > 0 then 4 else if st.counted != {} || st.cancelling != {} then 5 else 6
  }

  /** Calls of Dequeue that have returned, and the one under way. */
  function Calls(st: State): (n: nat) {
    |st.history.returned| + st.history.cancellations + if st.consumer == Outside then 0 else 1
  }

  /** The next step towards the end of the consumer's call. */
  lemma NextStep(st: State) returns (a: Action)
    requires Inv(st) && st.consumer != Outside && (st.consumer.Taken? || Work(st))
    ensures Finishes(a) && Enabled(st, a) && Distance(Next(st, a)) < Distance(st)
    ensures var r := Next(st, a); r.consumer == Outside || r.consumer.Taken? || Work(r)
    ensures Calls(Next(st, a)) == Calls(st)
  {
    match st.consumer
    case Start => a := CheckFlag;
    case Trying => a := TryTake;
    case Woken => a := RecheckFlag;
    case Resetting => a := ResetFlag;
    case Taken(_) => a := CountDown;
    case Blocked =>
      if st.permits > 0 {
        a := Wake;
      } else if st.counted != {} {
        var t :| t in st.counted;
        a := NotifyItem(t);
      } else if st.cancelling != {} {
        var t :| t in st.cancelling;
        a := NotifyCancel(t);
      } else {
        var t :| t in st.pushed;
        a := CountUp(t);
        assert t in Next(st, a).counted;
      }
  }

  /** From such a state the call ends when the calls that have begun go on, with an item or a cancellation. */
  lemma {:induction false} CallEnds(st: State) returns (actions: seq<Action>)
    requires Inv(st) && (st.consumer == Outside || st.consumer.Taken? || Work(st))
    ensures forall i :: 0 <= i < |actions| ==> Finishes(actions[i])
    ensures Run(st, actions).consumer == Outside && Calls(Run(st, actions)) == Calls(st)
    decreases Distance(st)
  {
    actions := [];
    if st.consumer != Outside {
      var a := NextStep(st);
      InvKept(st, a);
      var rest := CallEnds(Next(st, a));
      actions := [a] + rest;
      assert actions[1..] == rest;
    }
  }

  // -------------------------------------------------------------- main results

  /** No lost wakeup, with a counting or a binary event: a blocked consumer with work or a cancellation will be woken. */
  lemma BlockedConsumerIsWoken(binary: bool, actions: seq<Action>)
    ensures var st := Run(Fresh(binary), actions);
            st.consumer == Blocked ==>
              (st.items != [] ==> ItemWakeup(st)) && (st.cancelled ==> CancelWakeup(st))
  {
    RunInv(Fresh(binary), actions);
  }

  /**
    No deadlock: in every reachable state in which there is an item or a
    cancellation for the consumer, its call comes to an end without any new
    call, and reports one item or one cancellation.
   */
  lemma DequeueCanEnd(binary: bool, actions: seq<Action>) returns (more: seq<Action>)
    requires Work(Run(Fresh(binary), actions))
    ensures forall i :: 0 <= i < |more| ==> Finishes(more[i])
    ensures var st := Run(Fresh(binary), actions);
            Run(st, more).consumer == Outside && Calls(Run(st, more)) == Calls(st)
  {
    RunInv(Fresh(binary), actions);
    more := CallEnds(Run(Fresh(binary), actions));
  }

  /** Every return from the wait uses up one notification; a counting event keeps all others, a binary one at most one. */
  lemma WakesAreNotified(binary: bool, actions: seq<Action>)
    ensures var st := Run(Fresh(binary), actions);
            if binary then st.permits <= 1 && st.history.wakes + st.permits <= st.history.notified
            else st.history.wakes + st.permits == st.history.notified
  {
    RunInv(Fresh(binary), actions);
  }

  /** Cancelled calls are the raises of the flag, less the one that is still set. */
  lemma CancellationsBalance(binary: bool, actions: seq<Action>)
    ensures var st := Run(Fresh(binary), actions);
            st.history.cancellations == st.history.raised - (if st.cancelled then 1 else 0)
  {
    RunInv(Fresh(binary), actions);
  }

  /** What left the queue, by whichever call, is a prefix of what entered. */
  lemma ItemsLeaveInOrder(binary: bool, actions: seq<Action>)
    ensures var st := Run(Fresh(binary), actions);
            st.history.left <= st.history.entered && st.history.entered[|st.history.left|..] == st.items
  {
    RunInv(Fresh(binary), actions);
  }

  lemma {:induction false} PartIsAll(items: seq<Item>, removers: seq<Remover>, w: Remover)
    requires |items| == |removers| && forall i :: 0 <= i < |removers| ==> removers[i] == w
    ensures Part(items, removers, w) == items
  {
    if items != [] {
      PartIsAll(items[..|items| - 1], removers[..|items| - 1], w);
    }
  }

  /**
    What Dequeue returned, followed by the item it holds, are the items that
    left through it, in their order; as long as nothing was cleared, that is a
    prefix of what was pushed.
   */
  lemma DequeueReturnsInOrder(binary: bool, actions: seq<Action>)
    ensures var st := Run(Fresh(binary), actions);
            var h, out := st.history, st.history.returned + InHand(st.consumer);
            && |h.left| == |h.removers|
            && out == Part(h.left, h.removers, ByDequeue)
            && (ByClear !in h.removers ==> out <= h.entered && h.entered[|out|..] == st.items)
  {
    RunInv(Fresh(binary), actions);
    var h := Run(Fresh(binary), actions).history;
    if ByClear !in h.removers {
      forall i | 0 <= i < |h.removers| ensures h.removers[i] == ByDequeue {
        assert h.removers[i] in h.removers;
      }
      PartIsAll(h.left, h.removers, ByDequeue);
    }
  }

  /** A call that finds the flag set reports the cancellation, resets the flag and takes nothing. */
  lemma CancelledCallTakesNothing(st: State)
    requires st.consumer == Start && st.cancelled
    ensures var r := Do(Do(st, CheckFlag), ResetFlag);
            && r.consumer == Outside && !r.cancelled && r.items == st.items && r.size == st.size
            && r.history == st.history.(cancellations := st.history.cancellations + 1)
  {
  }

  /** GetSize is exact up to the calls that are between a queue access and its count. */
  lemma SizeIsExactUpToPending(binary: bool, actions: seq<Action>)
    ensures var st := Run(Fresh(binary), actions);
            |st.items| == st.size + |st.pushed| - |st.cleared| - (if st.consumer.Taken? then 1 else 0)
  {
    RunInv(Fresh(binary), actions);
  }

  // -------------------------------------------------------------------- class

  /** The guarded queue below: each call is atomic. */
  class LockedQueue {
    var items: seq<Item>

    constructor ()
      ensures items == []
    {
      items := [];
    }

    method Enqueue(x: Item)
      modifies this
      ensures items == old(items) + [x]
    {
      items := items + [x];
    }

    method TryDequeue() returns (found: bool, x: Item)
      modifies this
      ensures found <==> old(items) != []
      ensures if found then [x] + items == old(items) else items == old(items)
    {
      if items == [] {
        return false, 0;
      }
      x := items[0];
      items := items[1..];
      found := true;
    }
  }

  /** Clear, run without interference, empties the queue and keeps the size law. */
  method Clear(queue: LockedQueue, size: int) returns (size': int, removed: seq<Item>)
    modifies queue
    ensures queue.items == [] && removed == old(queue.items)
    ensures size' - |queue.items| == size - |old(queue.items)|
  {
    size', removed := size, [];
    while true
      invariant removed + queue.items == old(queue.items)
      invariant size' == size - |removed|
      decreases |queue.items|
    {
      ghost var before := queue.items;
      var found, x := queue.TryDequeue();
      if !found {
        break;
      }
      size' := size' - 1;
      assert before == [x] + queue.items;
      removed := removed + [x];
    }
  }
}
