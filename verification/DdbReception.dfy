/**
  What the receive callback is given and what it has stored: in every
  interleaving nothing is lost, doubled or reordered between the two.
 */
module DdbReception {
  import opened DdbFrame
  import opened Ddb
  import opened DdbProtocol

  /** The sample with which a step enters the callback, if it is one of the buffer's signal. */
  function OfferedBy(handle: int, st: State, a: Action): (r: seq<Sample>)
    requires Permuted(st.core)
  {
    if a.Begin? && Enabled(st, a) && a.s.handle == handle then [a.s] else []
  }

  /** The samples of the buffer's signal that the callback receives in a run, in order. */
  function Offered(handle: int, st: State, actions: seq<Action>): (r: seq<Sample>)
    requires Permuted(st.core)
    decreases |actions|
  {
    if actions == [] then []
    else OfferedBy(handle, st, actions[0]) + Offered(handle, Do(st, actions[0]), actions[1..])
  }

  /** The sample that the running callback has received and not yet stored. */
  function InFlight(handle: int, pc: ReceiverPc): (r: seq<Sample>)
    ensures |r| <= 1
  {
    match pc
    case Check(s) => if s.handle == handle then [s] else []
    case Close(s, cause) => if cause == MissedSync then [s] else []
    case Swap(s, cause) => if cause == MissedSync then [s] else []
    case Notify(s, cause) => if cause == MissedSync then [s] else []
    case Fill(s, cause) => if cause == MissedSync then [s] else []
    case Put(s) => [s]
    case Idle => []
    case Commit(s) => []
  }

  /** CreateEntry has succeeded. */
  ghost predicate IsConfigured(c: Core, handle: int, n: nat)
    requires Permuted(c)
  {
    && handle != 0 && n > 0 && c.handle == handle
    && forall k :: 0 <= k < 3 ==> |c.frames[k].cells| == n
  }

  lemma ConfiguredKept(st: State, a: Action, handle: int, n: nat)
    requires Permuted(st.core) && IsConfigured(st.core, handle, n)
    ensures IsConfigured(Do(st, a).core, handle, n)
  {
  }

  lemma ReceiverAccounts(st: State, a: Action, handle: int, n: nat)
    requires Permuted(st.core) && IsConfigured(st.core, handle, n) && Enabled(st, a)
    requires a.Begin? || a.CheckSample? || a.TrySwitch? || a.DoSwap? || a.DoNotify? || a.DoFill? || a.DoPut? || a.DoCommit?
    ensures var r := Next(st, a);
            r.log.processed + InFlight(handle, r.receiver)
            == (st.log.processed + InFlight(handle, st.receiver)) + OfferedBy(handle, st, a)
  {
  }

  lemma OthersStoreNothing(st: State, a: Action)
    requires Permuted(st.core) && Enabled(st, a)
    requires !a.Begin? && !a.CheckSample? && !a.TrySwitch? && !a.DoSwap? && !a.DoNotify? && !a.DoFill? && !a.DoPut? && !a.DoCommit?
    ensures Next(st, a).log.processed == st.log.processed && Next(st, a).receiver == st.receiver
  {
  }

  lemma StepAccounts(st: State, a: Action, handle: int, n: nat)
    requires Permuted(st.core) && IsConfigured(st.core, handle, n)
    ensures var r := Do(st, a);
            r.log.processed + InFlight(handle, r.receiver)
            == (st.log.processed + InFlight(handle, st.receiver)) + OfferedBy(handle, st, a)
  {
    if Enabled(st, a) {
      if a.Begin? || a.CheckSample? || a.TrySwitch? || a.DoSwap? || a.DoNotify? || a.DoFill? || a.DoPut? || a.DoCommit? {
        ReceiverAccounts(st, a, handle, n);
      } else {
        OthersStoreNothing(st, a);
      }
    }
  }

  lemma Associative(a: seq<Sample>, b: seq<Sample>, c: seq<Sample>)
    ensures (a + b) + c == a + (b + c)
  {
  }

  lemma {:induction false} RunAccounts(st: State, actions: seq<Action>, handle: int, n: nat)
    requires Permuted(st.core) && IsConfigured(st.core, handle, n)
    ensures var r := Run(st, actions);
            r.log.processed + InFlight(handle, r.receiver)
            == (st.log.processed + InFlight(handle, st.receiver)) + Offered(handle, st, actions)
    decreases |actions|
  {
    if actions == [] {
      assert Offered(handle, st, actions) == [];
    } else {
      var st1 := Do(st, actions[0]);
      StepAccounts(st, actions[0], handle, n);
      ConfiguredKept(st, actions[0], handle, n);
      RunAccounts(st1, actions[1..], handle, n);
      Associative(st.log.processed + InFlight(handle, st.receiver),
                  OfferedBy(handle, st, actions[0]), Offered(handle, st1, actions[1..]));
    }
  }

  lemma FromNothing(before: seq<Sample>, r: seq<Sample>, offered: seq<Sample>)
    requires before == [] && r == before + offered
    ensures r == offered
  {
  }

  lemma StoredSince(start: State, actions: seq<Action>, handle: int, n: nat)
    requires Permuted(start.core) && IsConfigured(start.core, handle, n)
    requires start.receiver == Idle && start.log.processed == []
    ensures var st := Run(start, actions);
            st.log.processed + InFlight(handle, st.receiver) == Offered(handle, start, actions)
  {
    var st := Run(start, actions);
    RunAccounts(start, actions, handle, n);
    FromNothing(start.log.processed + InFlight(handle, start.receiver),
                st.log.processed + InFlight(handle, st.receiver), Offered(handle, start, actions));
  }

  /**
    In every interleaving, also across ResetData: the samples stored so far,
    followed by the one on its way, are exactly those received.
   */
  lemma StoredIsReceived(handle: int, n: nat, strategy: Strategy, actions: seq<Action>)
    requires handle != 0 && n > 0
    ensures var st := Run(Start(handle, n, strategy), actions);
            st.log.processed + InFlight(handle, st.receiver) == Offered(handle, Start(handle, n, strategy), actions)
  {
    StoredSince(Start(handle, n, strategy), actions, handle, n);
  }

  lemma {:induction false} OfferedIgnoresHistory(handle: int, st: State, log: Log, actions: seq<Action>)
    requires Permuted(st.core)
    ensures Offered(handle, st.(log := log), actions) == Offered(handle, st, actions)
    decreases |actions|
  {
    if actions != [] {
      var st1, st1' := Do(st, actions[0]), Do(st.(log := log), actions[0]);
      StepIgnoresHistory(st, log, actions[0]);
      assert st1' == st1.(log := st1'.log);
      OfferedIgnoresHistory(handle, st1, st1'.log, actions[1..]);
    }
  }
}
