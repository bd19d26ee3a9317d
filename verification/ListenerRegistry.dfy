/**
  The listener registry as one thread sees it: registration, and notification
  whose callbacks may register and unregister listeners while it runs.
 */
module ListenerRegistry {
  import opened Results

  /** Identity of a listener; a null pointer is `None` where the source accepts one. */
  type Listener = nat

  /** A change of the registry made while a callback runs, by the callback or by another thread. */
  datatype Change = Register(l: Listener) | Unregister(l: Listener) | UnregisterAll

  /** What a callback does: changes of the registry, and its result code. */
  datatype Reaction = Reaction(changes: seq<Change>, result: Result)

  // ----------------------------------------------------------- specification

  function RemoveFirst(ls: seq<Listener>, l: Listener): (r: seq<Listener>) {
    if ls == [] then []
    else if ls[0] == l then ls[1..]
    else [ls[0]] + RemoveFirst(ls[1..], l)
  }

  /** Exactly one registration is removed, or none if there is none. */
  lemma {:induction false} RemoveFirstCounts(ls: seq<Listener>, l: Listener)
    ensures multiset(RemoveFirst(ls, l)) == multiset(ls) - multiset{l}
  {
    if ls != [] {
      var tail := ls[1..];
      assert ls == [ls[0]] + tail;
      assert multiset(ls) == multiset{ls[0]} + multiset(tail);
      RemoveFirstCounts(tail, l);
    }
  }

  lemma {:induction false} RemoveFirstStaysIn(ls: seq<Listener>, l: Listener, x: Listener)
    requires x in RemoveFirst(ls, l)
    ensures x in ls
  {
    if ls != [] && ls[0] != l && x != ls[0] {
      RemoveFirstStaysIn(ls[1..], l, x);
    }
  }

  lemma {:induction false} RemoveFirstMissing(ls: seq<Listener>, l: Listener)
    requires l !in ls
    ensures RemoveFirst(ls, l) == ls
  {
    if ls != [] {
      RemoveFirstMissing(ls[1..], l);
    }
  }

  /** The registration that goes is the first one. */
  lemma {:induction false} RemoveFirstAt(ls: seq<Listener>, l: Listener, it: nat)
    requires it < |ls| && ls[it] == l && l !in ls[..it]
    ensures RemoveFirst(ls, l) == ls[..it] + ls[it + 1..]
  {
    if it > 0 {
      var tail := ls[1..];
      assert ls[..it][0] == ls[0] && ls[..it][1..] == tail[..it - 1];
      RemoveFirstAt(tail, l, it - 1);
      assert [ls[0]] + (tail[..it - 1] + tail[it..]) == ls[..it] + ls[it + 1..];
    }
  }

  function Apply(ls: seq<Listener>, c: Change): (r: seq<Listener>) {
    match c
    case Register(l) => ls + [l]
    case Unregister(l) => RemoveFirst(ls, l)
    case UnregisterAll => []
  }

  function ApplyAll(ls: seq<Listener>, cs: seq<Change>): (r: seq<Listener>)
    decreases |cs|
  {
    if cs == [] then ls else ApplyAll(Apply(ls, cs[0]), cs[1..])
  }

  /** The first registered listener that is not finished. */
  function FirstUnfinished(ls: seq<Listener>, finished: seq<Listener>): (r: Option<Listener>)
    ensures r.Some? ==> r.value in ls && r.value !in finished
    ensures r.None? ==> forall l :: l in ls ==> l in finished
  {
    if ls == [] then None
    else if ls[0] !in finished then Some(ls[0])
    else FirstUnfinished(ls[1..], finished)
  }

  /** The pick is the first unfinished listener in the order of registration. */
  lemma {:induction false} FirstUnfinishedAt(ls: seq<Listener>, finished: seq<Listener>) returns (k: nat)
    ensures k <= |ls| && forall j :: 0 <= j < k ==> ls[j] in finished
    ensures if k < |ls| then ls[k] !in finished && FirstUnfinished(ls, finished) == Some(ls[k])
            else FirstUnfinished(ls, finished) == None
  {
    if ls == [] || ls[0] !in finished {
      k := 0;
    } else {
      k := FirstUnfinishedAt(ls[1..], finished);
      k := k + 1;
    }
  }

  /** The listeners called so far, and the registry at every pick. */
  ghost predicate IsUnderWay(
    start: seq<Listener>, react: (nat, Listener) -> Reaction, calls: seq<Listener>, history: seq<seq<Listener>>)
  {
    && |history| == |calls| + 1
    && history[0] == start
    && forall i :: 0 <= i < |calls| ==> IsStep(react, calls, history, i)
  }

  /** A finished notification: every registered listener has been called. */
  ghost predicate IsNotification(
    start: seq<Listener>, react: (nat, Listener) -> Reaction, calls: seq<Listener>, history: seq<seq<Listener>>)
  {
    && IsUnderWay(start, react, calls, history)
    && FirstUnfinished(history[|calls|], calls) == None
  }

  /** What one pick adds to a notification under way. */
  ghost predicate IsStep(react: (nat, Listener) -> Reaction, calls: seq<Listener>, history: seq<seq<Listener>>, i: nat)
    requires |history| == |calls| + 1 && i < |calls|
  {
    && FirstUnfinished(history[i], calls[..i]) == Some(calls[i])
    && history[i + 1] == ApplyAll(history[i], react(i, calls[i]).changes)
  }

  lemma OneMoreCall(start: seq<Listener>, react: (nat, Listener) -> Reaction,
                    calls: seq<Listener>, history: seq<seq<Listener>>, l: Listener, after: seq<Listener>)
    requires IsUnderWay(start, react, calls, history)
    requires FirstUnfinished(history[|calls|], calls) == Some(l)
    requires after == ApplyAll(history[|calls|], react(|calls|, l).changes)
    ensures IsUnderWay(start, react, calls + [l], history + [after])
  {
    var calls', history' := calls + [l], history + [after];
    forall i | 0 <= i < |calls'| ensures IsStep(react, calls', history', i) {
      if i < |calls| {
        assert IsStep(react, calls, history, i);
        assert calls'[..i] == calls[..i];
      } else {
        assert calls'[..i] == calls;
      }
    }
  }

  /** The result of the first failing callback in call order. */
  function FirstFailure(react: (nat, Listener) -> Reaction, calls: seq<Listener>): (r: Result) {
    if calls == [] then Ok else
      var r := FirstFailure(react, calls[..|calls| - 1]);
      if r != Ok then r else react(|calls| - 1, calls[|calls| - 1]).result
  }

  lemma OneMoreResult(react: (nat, Listener) -> Reaction, calls: seq<Listener>, l: Listener)
    ensures FirstFailure(react, calls + [l]) ==
            if FirstFailure(react, calls) != Ok then FirstFailure(react, calls) else react(|calls|, l).result
  {
    assert (calls + [l])[..|calls|] == calls;
  }

  /** Where the first failure is, if there is one. */
  lemma {:induction false} FirstFailureAt(react: (nat, Listener) -> Reaction, calls: seq<Listener>) returns (i: nat)
    ensures i <= |calls| && forall j :: 0 <= j < i ==> react(j, calls[j]).result == Ok
    ensures if i < |calls| then FirstFailure(react, calls) == react(i, calls[i]).result != Ok
            else FirstFailure(react, calls) == Ok
  {
    if calls == [] {
      i := 0;
    } else {
      var front := calls[..|calls| - 1];
      i := FirstFailureAt(react, front);
      assert forall j :: 0 <= j < |front| ==> front[j] == calls[j];
      if i == |front| && react(i, calls[i]).result == Ok {
        i := i + 1;
      }
    }
  }

  // ------------------------------------------------------------------ lemmas

  /** No listener is called twice, and each is registered when it is picked. */
  lemma CalledAtMostOnce(start: seq<Listener>, react: (nat, Listener) -> Reaction,
                         calls: seq<Listener>, history: seq<seq<Listener>>)
    requires IsUnderWay(start, react, calls, history)
    ensures forall i, j :: 0 <= i < j < |calls| ==> calls[i] != calls[j]
    ensures forall i :: 0 <= i < |calls| ==> calls[i] in history[i]
  {
    forall i | 0 <= i < |calls| ensures calls[i] in history[i] {
      assert IsStep(react, calls, history, i);
    }
    forall i, j | 0 <= i < j < |calls| ensures calls[i] != calls[j] {
      assert IsStep(react, calls, history, j);
      assert calls[..j][i] == calls[i];
    }
  }

  /** Every listener that is still registered at the end, in particular one registered throughout, was called. */
  lemma RegisteredAreCalled(start: seq<Listener>, react: (nat, Listener) -> Reaction,
                            calls: seq<Listener>, history: seq<seq<Listener>>, l: Listener)
    requires IsNotification(start, react, calls, history)
    requires l in history[|calls|]
    ensures exists i :: 0 <= i < |calls| && calls[i] == l && forall j :: 0 <= j < |calls| && calls[j] == l ==> j == i
  {
    CalledAtMostOnce(start, react, calls, history);
    assert l in calls;
  }

  lemma {:induction false} NotificationsAgree(
    start: seq<Listener>, react: (nat, Listener) -> Reaction,
    calls: seq<Listener>, history: seq<seq<Listener>>, calls': seq<Listener>, history': seq<seq<Listener>>, n: nat)
    requires IsNotification(start, react, calls, history) && IsNotification(start, react, calls', history')
    requires n <= |calls|
    ensures n <= |calls'| && calls[..n] == calls'[..n] && history[n] == history'[n]
  {
    if n > 0 {
      NotificationsAgree(start, react, calls, history, calls', history', n - 1);
      assert calls'[..|calls'|] == calls';
      assert IsStep(react, calls, history, n - 1);
      assert n - 1 < |calls'|;
      assert IsStep(react, calls', history', n - 1);
      assert calls[..n] == calls[..n - 1] + [calls[n - 1]];
      assert calls'[..n] == calls'[..n - 1] + [calls'[n - 1]];
    }
  }

  /** The call sequence is determined by the registry at the start and the reactions. */
  lemma NotificationIsDetermined(
    start: seq<Listener>, react: (nat, Listener) -> Reaction,
    calls: seq<Listener>, history: seq<seq<Listener>>, calls': seq<Listener>, history': seq<seq<Listener>>)
    requires IsNotification(start, react, calls, history) && IsNotification(start, react, calls', history')
    ensures calls == calls'
  {
    NotificationsAgree(start, react, calls, history, calls', history', |calls|);
    NotificationsAgree(start, react, calls', history', calls, history, |calls'|);
    assert calls[..|calls|] == calls && calls'[..|calls|] == calls';
  }

  /** The listeners of the universe that have not been called. */
  ghost function Uncalled(universe: set<Listener>, calls: seq<Listener>): set<Listener> {
    set l | l in universe && l !in calls
  }

  lemma OneLessUncalled(universe: set<Listener>, calls: seq<Listener>, l: Listener)
    requires l in universe && l !in calls
    ensures Uncalled(universe, calls + [l]) < Uncalled(universe, calls)
  {
    assert l in Uncalled(universe, calls);
  }

  ghost predicate StaysIn(react: (nat, Listener) -> Reaction, universe: set<Listener>) {
    forall i: nat, l: Listener, k :: 0 <= k < |react(i, l).changes| && react(i, l).changes[k].Register? ==>
      react(i, l).changes[k].l in universe
  }

  lemma {:induction false} ApplyAllStaysIn(ls: seq<Listener>, cs: seq<Change>, universe: set<Listener>)
    requires forall l :: l in ls ==> l in universe
    requires forall k :: 0 <= k < |cs| && cs[k].Register? ==> cs[k].l in universe
    ensures forall l :: l in ApplyAll(ls, cs) ==> l in universe
    decreases |cs|
  {
    if cs != [] {
      if cs[0].Unregister? {
        forall l | l in RemoveFirst(ls, cs[0].l) ensures l in ls {
          RemoveFirstStaysIn(ls, cs[0].l, l);
        }
      }
      ApplyAllStaysIn(Apply(ls, cs[0]), cs[1..], universe);
    }
  }

  // -------------------------------------------------------------------- class

  class Registry {
    var listeners: seq<Listener>

    constructor ()
      ensures listeners == []
    {
      listeners := [];
    }

    method RegisterListener(l: Option<Listener>) returns (res: Result)
      modifies this
      ensures match l
              case None => res == Pointer && listeners == old(listeners)
              case Some(p) => res == Ok && listeners == old(listeners) + [p]
    {
      if l == None {
        return Pointer;
      }
      listeners := listeners + [l.value];
      res := Ok;
    }

    method Find(l: Listener) returns (it: nat)
      ensures it <= |listeners| && l !in listeners[..it]
      ensures it < |listeners| ==> listeners[it] == l
    {
      it := 0;
      while it < |listeners| && listeners[it] != l
        invariant it <= |listeners|
        invariant l !in listeners[..it]
      {
        it := it + 1;
      }
    }

    method UnregisterListener(l: Option<Listener>) returns (res: Result)
      modifies this
      ensures match l
              case None => res == Pointer && listeners == old(listeners)
              case Some(p) => res == (if p in old(listeners) then Ok else NotFound)
                              && listeners == RemoveFirst(old(listeners), p)
    {
      if l == None {
        return Pointer;
      }
      var it := Find(l.value);
      if it == |listeners| {
        assert listeners[..it] == listeners;
        RemoveFirstMissing(listeners, l.value);
        return NotFound;
      }
      RemoveFirstAt(listeners, l.value, it);
      listeners := listeners[..it] + listeners[it + 1..];
      res := Ok;
    }

    method UnregisterAllListeners()
      modifies this
      ensures listeners == []
    {
      listeners := [];
    }

    /** Picks the next listener and marks it finished. */
    method FindNext(finished: seq<Listener>) returns (next: Option<Listener>, finished': seq<Listener>)
      ensures next == FirstUnfinished(listeners, finished)
      ensures finished' == if next.Some? then finished + [next.value] else finished
    {
      next, finished' := None, finished;
      for i := 0 to |listeners|
        invariant next == None && finished' == finished
        invariant FirstUnfinished(listeners, finished) == FirstUnfinished(listeners[i..], finished)
      {
        next := Some(listeners[i]);
        for k := 0 to |finished|
          invariant next == if listeners[i] in finished[..k] then None else Some(listeners[i])
        {
          if next.Some? && next.value == finished[k] {
            next := None;
          }
        }
        assert finished[..|finished|] == finished;
        assert listeners[i..][1..] == listeners[i + 1..];
        if next.Some? {
          finished' := finished + [next.value];
          break;
        }
      }
    }

    /** The registry changes of one callback. */
    method Perform(changes: seq<Change>)
      modifies this
      ensures listeners == ApplyAll(old(listeners), changes)
    {
      for i := 0 to |changes|
        invariant ApplyAll(old(listeners), changes) == ApplyAll(listeners, changes[i..])
      {
        var ignored: Result;
        match changes[i] {
          case Register(l) => ignored := RegisterListener(Some(l));
          case Unregister(l) => ignored := UnregisterListener(Some(l));
          case UnregisterAll => UnregisterAllListeners();
        }
        assert changes[i..][1..] == changes[i + 1..];
      }
    }

    /**
      Calls every listener once.  It terminates when only listeners of some
      finite set are ever registered.
     */
    method NotifyListener(react: (nat, Listener) -> Reaction, ghost universe: set<Listener>)
      returns (res: Result, calls: seq<Listener>, ghost history: seq<seq<Listener>>)
      requires StaysIn(react, universe)
      requires forall l :: l in listeners ==> l in universe
      modifies this
      ensures IsNotification(old(listeners), react, calls, history)
      ensures listeners == history[|calls|]
      ensures res == FirstFailure(react, calls)
      ensures forall i, j :: 0 <= i < j < |calls| ==> calls[i] != calls[j]
      ensures forall l :: l in listeners ==> l in calls
    {
      res, calls, history := Ok, [], [listeners];
      while true
        invariant IsUnderWay(old(listeners), react, calls, history) && history[|calls|] == listeners
        invariant res == FirstFailure(react, calls)
        invariant forall l :: l in listeners ==> l in universe
        decreases Uncalled(universe, calls)
      {
        var next, finished := FindNext(calls);
        if next == None {
          break;
        }
        OneLessUncalled(universe, calls, next.value);
        var reaction := react(|calls|, next.value);
        ApplyAllStaysIn(listeners, reaction.changes, universe);
        Perform(reaction.changes);
        OneMoreCall(old(listeners), react, calls, history, next.value, listeners);
        OneMoreResult(react, calls, next.value);
        if res == Ok {
          res := reaction.result;
        }
        calls := finished;
        history := history + [listeners];
      }
      CalledAtMostOnce(old(listeners), react, calls, history);
    }
  }
}
