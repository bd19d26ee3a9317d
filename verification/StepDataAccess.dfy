/**
  Data access of a simulation step: inputs are validated against time windows
  of their backlogs, and the outputs are published unless a violation or the
  caller asked to skip them.
 */
module StepDataAccess {
  import opened Results
  import SB = SampleBacklog
  import DataSampleBuffer

  /** Input violation strategies in enumerator order. */
  datatype Strategy = UnknownStrategy | IgnoreViolation | WarnAbout | SkipOutputs | SetError

  function Rank(s: Strategy): (r: nat) {
    match s
    case UnknownStrategy => 0 case IgnoreViolation => 1 case WarnAbout => 2
    case SkipOutputs => 3 case SetError => 4
  }

  datatype Input = Input(name: string, strategy: Strategy, validAge: int, delay: int, buffer: DataSampleBuffer.Buffer)

  datatype Output = Output(handle: int, time: int, data: int)

  datatype Access = Access(
    needToSkip: bool,
    currSim: int,
    cycle: int,
    inputs: seq<Input>,      // strictest strategy first, equal ones in order of configuration
    outputs: seq<Output>)    // by handle

  /** The window check of input i with the given bounds, and the transmission of an output. */
  type WindowCheck = (nat, int, int) -> Result
  type Transmission = Output -> Result

  // ------------------------------------------------------------ specification

  function Checked(ins: seq<Input>, sim: int, check: WindowCheck, i: nat): (r: Result)
    requires i < |ins|
  {
    check(i, sim - ins[i].validAge, sim + ins[i].delay)
  }

  /** Input i missed its window (a shutdown is not a miss). */
  predicate Missed(ins: seq<Input>, sim: int, check: WindowCheck, i: nat)
    requires i < |ins|
  {
    Checked(ins, sim, check, i) != Ok && Checked(ins, sim, check, i) != Cancelled
  }

  /** The validation ends early: a shutdown, or a miss under the error strategy. */
  predicate Stops(ins: seq<Input>, sim: int, check: WindowCheck, i: nat)
    requires i < |ins|
  {
    Checked(ins, sim, check, i) == Cancelled
    || (Missed(ins, sim, check, i) && ins[i].strategy == SetError)
  }

  predicate SkipsOn(s: Strategy) {
    s == SkipOutputs || s == SetError
  }

  /** How many inputs are checked when the checking starts at input i. */
  function CheckedFrom(ins: seq<Input>, sim: int, check: WindowCheck, i: nat): (n: nat)
    requires i <= |ins|
    ensures i <= n <= |ins|
    ensures forall j :: i <= j < n - 1 ==> !Stops(ins, sim, check, j)
    ensures n < |ins| ==> n > i && Stops(ins, sim, check, n - 1)
    decreases |ins| - i
  {
    if i == |ins| then i
    else if Stops(ins, sim, check, i) then i + 1
    else CheckedFrom(ins, sim, check, i + 1)
  }

  predicate AsksToSkip(ins: seq<Input>, sim: int, check: WindowCheck, i: nat)
    requires i < |ins|
  {
    Missed(ins, sim, check, i) && SkipsOn(ins[i].strategy)
  }

  /** One of the first n inputs asks to skip the outputs. */
  ghost predicate SkipCauseBefore(ins: seq<Input>, sim: int, check: WindowCheck, n: nat)
    requires n <= |ins|
  {
    exists i :: 0 <= i < n && AsksToSkip(ins, sim, check, i)
  }

  /** The error strategy was applied to input i. */
  predicate Fatal(ins: seq<Input>, sim: int, check: WindowCheck, i: nat)
    requires i < |ins|
  {
    Missed(ins, sim, check, i) && ins[i].strategy == SetError
  }

  /** What is known after n checks: the result so far, whether a skip was asked for, and the error events. */
  ghost predicate CheckedSoFar(ins: seq<Input>, sim: int, check: WindowCheck, n: nat, res: Result, skip: bool, errors: nat) {
    && n <= |ins|
    && res == (if n > 0 && Stops(ins, sim, check, n - 1) then Cancelled else Ok)
    && CheckedFrom(ins, sim, check, 0) == (if res == Ok then CheckedFrom(ins, sim, check, n) else n)
    && (skip <==> SkipCauseBefore(ins, sim, check, n))
    && errors == (if n > 0 && Fatal(ins, sim, check, n - 1) then 1 else 0)
  }

  lemma OneMoreCheck(ins: seq<Input>, sim: int, check: WindowCheck, n: nat, skip: bool, errors: nat, res: Result)
    requires CheckedSoFar(ins, sim, check, n, Ok, skip, errors) && n < |ins|
    requires res == if Stops(ins, sim, check, n) then Cancelled else Ok
    ensures errors == 0
    ensures CheckedSoFar(ins, sim, check, n + 1, res, skip || AsksToSkip(ins, sim, check, n),
                         if Fatal(ins, sim, check, n) then 1 else 0)
  {
  }

  lemma AllChecks(ins: seq<Input>, sim: int, check: WindowCheck, n: nat, res: Result, skip: bool, errors: nat)
    requires CheckedSoFar(ins, sim, check, n, res, skip, errors) && (n == |ins| || res != Ok)
    ensures n == CheckedFrom(ins, sim, check, 0)
    ensures skip <==> SkipCause(ins, sim, check)
  {
  }

  /** Some checked input asks to skip the outputs. */
  ghost predicate SkipCause(ins: seq<Input>, sim: int, check: WindowCheck) {
    SkipCauseBefore(ins, sim, check, CheckedFrom(ins, sim, check, 0))
  }

  function InsertInput(ins: seq<Input>, x: Input): (r: seq<Input>)
    ensures multiset(r) == multiset(ins) + multiset{x}
  {
    if ins == [] || Rank(ins[0].strategy) < Rank(x.strategy) then [x] + ins
    else
      assert ins == [ins[0]] + ins[1..];
      [ins[0]] + InsertInput(ins[1..], x)
  }

  ghost predicate StrictestFirst(ins: seq<Input>) {
    forall i, j :: 0 <= i < j < |ins| ==> Rank(ins[i].strategy) >= Rank(ins[j].strategy)
  }

  lemma {:induction false} InsertKeepsStrictestFirst(ins: seq<Input>, x: Input)
    requires StrictestFirst(ins)
    ensures StrictestFirst(InsertInput(ins, x))
  {
    if ins != [] && Rank(ins[0].strategy) >= Rank(x.strategy) {
      InsertKeepsStrictestFirst(ins[1..], x);
      var r := InsertInput(ins[1..], x);
      forall j | 0 <= j < |r| ensures Rank(ins[0].strategy) >= Rank(r[j].strategy) {
        assert r[j] in multiset(r);
        if r[j] != x {
          assert r[j] in multiset(ins[1..]);
        }
      }
    }
  }

  /** One input more, at position k: behind those that are as strict or stricter, and before the milder ones. */
  ghost predicate Placed(ins: seq<Input>, r: seq<Input>, k: nat)
    requires k <= |ins|
  {
    && |r| == |ins| + 1 && r == ins[..k] + [r[k]] + ins[k..]
    && (forall i :: 0 <= i < k ==> Rank(ins[i].strategy) >= Rank(r[k].strategy))
    && (forall i :: k <= i < |ins| ==> Rank(ins[i].strategy) < Rank(r[k].strategy))
  }

  lemma InsertBehindFirst(x0: Input, rest: seq<Input>, k: nat, x: Input)
    requires k <= |rest|
    ensures var ins := [x0] + rest;
            ins[..k + 1] + [x] + ins[k + 1..] == [x0] + (rest[..k] + [x] + rest[k..])
  {
  }

  /** A new input goes behind those that are as strict or stricter, and before the milder ones. */
  lemma {:induction false} InsertGoesBehindEquals(ins: seq<Input>, x: Input) returns (k: nat)
    requires StrictestFirst(ins)
    ensures k <= |ins| && InsertInput(ins, x) == ins[..k] + [x] + ins[k..]
    ensures forall i :: 0 <= i < k ==> Rank(ins[i].strategy) >= Rank(x.strategy)
    ensures forall i :: k <= i < |ins| ==> Rank(ins[i].strategy) < Rank(x.strategy)
  {
    if ins == [] || Rank(ins[0].strategy) < Rank(x.strategy) {
      k := 0;
      assert ins[..0] + [x] + ins[0..] == [x] + ins;
    } else {
      var j := InsertGoesBehindEquals(ins[1..], x);
      k := j + 1;
      assert ins == [ins[0]] + ins[1..];
      InsertBehindFirst(ins[0], ins[1..], j, x);
    }
  }

  /** Inputs that set the error state are checked first, then those that skip the outputs, then those that warn. */
  lemma StrictestFirstMeans(ins: seq<Input>, i: nat, j: nat)
    requires StrictestFirst(ins) && i < j < |ins|
    ensures ins[j].strategy == SetError ==> ins[i].strategy == SetError
    ensures ins[j].strategy == SkipOutputs ==> SkipsOn(ins[i].strategy)
    ensures ins[j].strategy == WarnAbout ==> ins[i].strategy == WarnAbout || SkipsOn(ins[i].strategy)
    ensures ins[i].strategy == IgnoreViolation ==>
              ins[j].strategy == IgnoreViolation || ins[j].strategy == UnknownStrategy
  {
    assert Rank(ins[i].strategy) >= Rank(ins[j].strategy);
  }

  /** Position of the output for a signal; |outs| if it is not configured. */
  function FindOutput(outs: seq<Output>, handle: int): (k: nat)
    ensures k <= |outs|
    ensures k < |outs| ==> outs[k].handle == handle
    ensures forall i :: 0 <= i < k ==> outs[i].handle != handle
  {
    if outs == [] || outs[0].handle == handle then 0 else 1 + FindOutput(outs[1..], handle)
  }

  // ------------------------------------------------------------- publication

  /** The outputs up to position n, stamped for publication. */
  function Stamped(outs: seq<Output>, time: int, n: nat): (r: seq<Output>)
    requires n <= |outs|
    ensures |r| == n && forall i :: 0 <= i < n ==> r[i] == outs[i].(time := time)
  {
    seq(n, i requires 0 <= i < n => outs[i].(time := time))
  }

  /** How many outputs are sent when sending starts at output i: up to the first that fails. */
  function SentFrom(outs: seq<Output>, time: int, send: Transmission, i: nat): (n: nat)
    requires i <= |outs|
    ensures i <= n <= |outs|
    ensures i < |outs| ==> n > i
    ensures forall j :: i <= j < n - 1 ==> send(outs[j].(time := time)) == Ok
    ensures n < |outs| ==> n > i && send(outs[n - 1].(time := time)) != Ok
    decreases |outs| - i
  {
    if i == |outs| then i
    else if send(outs[i].(time := time)) != Ok then i + 1
    else SentFrom(outs, time, send, i + 1)
  }

  /** What TransmitAllOutputs sends in a given state. */
  function Published(a: Access, send: Transmission): (r: seq<Output>)
    ensures |r| <= |a.outputs|
  {
    if a.needToSkip then []
    else Stamped(a.outputs, a.currSim + a.cycle, SentFrom(a.outputs, a.currSim + a.cycle, send, 0))
  }

  // ---------------------------------------------------------- runs of a step

  /** The calls of a step data access: one event per successful call that changes it. */
  datatype Event =
    | SkipRequest
    | Configuration(x: Input)
    | Validation(sim: int, check: WindowCheck)
    | Transmit(handle: int, data: int)
    | Publication(send: Transmission)

  /** The outputs with the first ones replaced by what was published. */
  function Overlaid(outs: seq<Output>, sent: seq<Output>): (r: seq<Output>)
    requires |sent| <= |outs|
    ensures |r| == |outs| && forall i :: 0 <= i < |r| ==> r[i] == if i < |sent| then sent[i] else outs[i]
  {
    sent + outs[|sent|..]
  }

  /** Sending the outputs one after the other is the publication. */
  lemma PublicationIs(a: Access, send: Transmission, published: seq<Output>, outs: seq<Output>)
    requires !a.needToSkip && |published| == SentFrom(a.outputs, a.currSim + a.cycle, send, 0)
    requires forall i :: 0 <= i < |published| ==> published[i] == a.outputs[i].(time := a.currSim + a.cycle)
    requires |outs| == |a.outputs|
    requires forall i :: 0 <= i < |outs| ==> outs[i] == if i < |published| then published[i] else a.outputs[i]
    ensures published == Published(a, send) && outs == Overlaid(a.outputs, published)
  {
    StampedIs(a.outputs, a.currSim + a.cycle, published);
    OverlaidIs(a.outputs, published, outs);
  }

  lemma OverlaidIs(outs: seq<Output>, sent: seq<Output>, r: seq<Output>)
    requires |sent| <= |outs| == |r|
    requires forall i :: 0 <= i < |r| ==> r[i] == if i < |sent| then sent[i] else outs[i]
    ensures r == Overlaid(outs, sent)
  {
  }

  lemma StampedIs(outs: seq<Output>, time: int, r: seq<Output>)
    requires |r| <= |outs| && forall i :: 0 <= i < |r| ==> r[i] == outs[i].(time := time)
    ensures r == Stamped(outs, time, |r|)
  {
  }

  function Stored(outs: seq<Output>, handle: int, data: int): (r: seq<Output>)
    ensures |r| == |outs|
  {
    var k := FindOutput(outs, handle);
    if k < |outs| then outs[k := outs[k].(data := data)] else outs
  }

  ghost function Effect(a: Access, e: Event): (r: Access) {
    match e
    case SkipRequest => a.(needToSkip := true)
    case Configuration(x) => a.(inputs := InsertInput(a.inputs, x))
    case Validation(sim, check) =>
      a.(currSim := sim,
         needToSkip := a.needToSkip || SkipCause(a.inputs, sim, check))
    case Transmit(handle, data) => a.(outputs := Stored(a.outputs, handle, data))
    case Publication(send) => a.(needToSkip := false, outputs := Overlaid(a.outputs, Published(a, send)))
  }

  ghost function Effects(a: Access, es: seq<Event>): (r: Access)
    decreases |es|
  {
    if es == [] then a else Effect(Effects(a, es[..|es| - 1]), es[|es| - 1])
  }

  /** The event is a reason to skip when it meets these inputs. */
  ghost predicate IsSkipReason(ins: seq<Input>, e: Event) {
    e.SkipRequest? || (e.Validation? && SkipCause(ins, e.sim, e.check))
  }

  /** The k-th event was a reason to skip, and nothing was published since. */
  ghost predicate SkipsSince(a: Access, es: seq<Event>, k: nat)
    requires k < |es|
  {
    IsSkipReason(Effects(a, es[..k]).inputs, es[k]) && forall j :: k < j < |es| ==> !es[j].Publication?
  }

  /** Since the previous publication there was a reason to skip. */
  ghost predicate SkipDue(a: Access, es: seq<Event>) {
    exists k: nat :: k < |es| && SkipsSince(a, es, k)
  }

  /** The time of the last validation. */
  function LastSim(start: int, es: seq<Event>): (t: int)
    decreases |es|
  {
    if es == [] then start
    else if es[|es| - 1].Validation? then es[|es| - 1].sim
    else LastSim(start, es[..|es| - 1])
  }

  /** The data handed in last for a signal. */
  function LastData(start: int, es: seq<Event>, handle: int): (d: int)
    decreases |es|
  {
    if es == [] then start
    else if es[|es| - 1].Transmit? && es[|es| - 1].handle == handle then es[|es| - 1].data
    else LastData(start, es[..|es| - 1], handle)
  }

  /** One output per signal. */
  ghost predicate DistinctHandles(outs: seq<Output>) {
    forall i, j :: 0 <= i < j < |outs| ==> outs[i].handle != outs[j].handle
  }

  lemma EffectOnOutput(a: Access, e: Event, k: nat)
    requires k < |a.outputs| && DistinctHandles(a.outputs)
    ensures var r := Effect(a, e).outputs;
            && DistinctHandles(r) && |r| == |a.outputs|
            && r[k].handle == a.outputs[k].handle
            && r[k].data == if e.Transmit? && e.handle == a.outputs[k].handle then e.data else a.outputs[k].data
  {
    assert forall i :: 0 <= i < |a.outputs| ==> Effect(a, e).outputs[i].handle == a.outputs[i].handle;
  }

  /** Over any series of calls each output carries the data handed in last for its signal. */
  lemma {:induction false} OutputsCarryLastData(a: Access, es: seq<Event>, k: nat)
    requires k < |a.outputs| && DistinctHandles(a.outputs)
    ensures var r := Effects(a, es).outputs;
            && DistinctHandles(r) && |r| == |a.outputs|
            && r[k].handle == a.outputs[k].handle
            && r[k].data == LastData(a.outputs[k].data, es, a.outputs[k].handle)
    decreases |es|
  {
    if es != [] {
      OutputsCarryLastData(a, es[..|es| - 1], k);
      EffectOnOutput(Effects(a, es[..|es| - 1]), es[|es| - 1], k);
    }
  }

  lemma SkipsSincePrefix(a: Access, es: seq<Event>, k: nat)
    requires k < |es| - 1
    ensures SkipsSince(a, es, k) <==> !es[|es| - 1].Publication? && SkipsSince(a, es[..|es| - 1], k)
  {
    var n := |es| - 1;
    var front := es[..n];
    assert front[..k] == es[..k] && front[k] == es[k];
    if !es[n].Publication? && SkipsSince(a, front, k) {
      forall j | k < j < |es| ensures !es[j].Publication? {
        assert j < n ==> es[j] == front[j];
      }
    }
    if SkipsSince(a, es, k) {
      forall j | k < j < n ensures !front[j].Publication? {
        assert front[j] == es[j];
      }
    }
  }

  lemma SkipDueOnlyIf(a: Access, es: seq<Event>, k: nat)
    requires k < |es| && SkipsSince(a, es, k)
    ensures SkipsSince(a, es, |es| - 1) || (!es[|es| - 1].Publication? && SkipDue(a, es[..|es| - 1]))
  {
    if k < |es| - 1 {
      SkipsSincePrefix(a, es, k);
      assert SkipsSince(a, es[..|es| - 1], k);
    }
  }

  lemma SkipDueIf(a: Access, es: seq<Event>)
    requires es != [] && !es[|es| - 1].Publication? && SkipDue(a, es[..|es| - 1])
    ensures SkipDue(a, es)
  {
    var k: nat :| k < |es| - 1 && SkipsSince(a, es[..|es| - 1], k);
    SkipsSincePrefix(a, es, k);
  }

  lemma SkipDueStep(a: Access, es: seq<Event>)
    requires es != []
    ensures var front, e := es[..|es| - 1], es[|es| - 1];
            SkipDue(a, es) <==>
              IsSkipReason(Effects(a, front).inputs, e) || (!e.Publication? && SkipDue(a, front))
  {
    var n := |es| - 1;
    assert SkipsSince(a, es, n) <==> IsSkipReason(Effects(a, es[..n]).inputs, es[n]);
    if SkipDue(a, es) {
      var k: nat :| k < |es| && SkipsSince(a, es, k);
      SkipDueOnlyIf(a, es, k);
    }
    if !es[n].Publication? && SkipDue(a, es[..n]) {
      SkipDueIf(a, es);
    }
  }

  /**
    Over any series of calls the skip flag says exactly whether a reason to
    skip occurred since the previous publication, and the current time is that
    of the last validation.
   */
  lemma {:induction false} SkipFlagMeansDue(a: Access, es: seq<Event>)
    requires !a.needToSkip
    ensures var r := Effects(a, es);
            && (r.needToSkip <==> SkipDue(a, es))
            && r.currSim == LastSim(a.currSim, es)
            && |r.outputs| == |a.outputs| && r.cycle == a.cycle
    decreases |es|
  {
    if es != [] {
      SkipFlagMeansDue(a, es[..|es| - 1]);
      SkipDueStep(a, es);
    }
  }

  /** What is sent: nothing, or the outputs in order up to the first that fails. */
  lemma PublicationOrder(a: Access, send: Transmission)
    ensures var r := Published(a, send);
            && (r == [] <==> a.needToSkip || a.outputs == [])
            && (forall i :: 0 <= i < |r| ==> r[i] == a.outputs[i].(time := a.currSim + a.cycle))
            && (forall i :: 0 <= i < |r| - 1 ==> send(r[i]) == Ok)
            && (0 < |r| < |a.outputs| ==> send(r[|r| - 1]) != Ok)
  {
  }

  /** What is sent for the i-th configured output. */
  ghost predicate Carries(a: Access, es: seq<Event>, i: nat, o: Output)
    requires i < |a.outputs|
  {
    var was := a.outputs[i];
    o == Output(was.handle, LastSim(a.currSim, es) + a.cycle, LastData(was.data, es, was.handle))
  }

  lemma PublishedCarries(a: Access, es: seq<Event>, send: Transmission, i: nat)
    requires !a.needToSkip && DistinctHandles(a.outputs) && i < |a.outputs|
    requires i < |Published(Effects(a, es), send)|
    ensures Carries(a, es, i, Published(Effects(a, es), send)[i])
  {
    SkipFlagMeansDue(a, es);
    OutputsCarryLastData(a, es, i);
  }

  /**
    After any series of calls: with outputs configured, a publication sends
    nothing exactly if a reason to skip occurred since the previous one.
    Otherwise it sends the outputs in order up to the first that fails, each
    with the data handed in last for its signal, stamped with the last
    validated time plus the cycle.
   */
  lemma PublishesUnlessSkipDue(a: Access, es: seq<Event>, send: Transmission, r: seq<Output>)
    requires !a.needToSkip && a.outputs != [] && r == Published(Effects(a, es), send)
    ensures r == [] <==> SkipDue(a, es)
    ensures |r| <= |Effects(a, es).outputs| == |a.outputs|
    ensures forall i :: 0 <= i < |r| ==>
              r[i] == Effects(a, es).outputs[i].(time := LastSim(a.currSim, es) + a.cycle)
    ensures forall i :: 0 <= i < |r| - 1 ==> send(r[i]) == Ok
    ensures 0 < |r| < |a.outputs| ==> send(r[|r| - 1]) != Ok
    ensures DistinctHandles(a.outputs) ==> forall i :: 0 <= i < |r| ==> Carries(a, es, i, r[i])
  {
    SkipFlagMeansDue(a, es);
    PublicationOrder(Effects(a, es), send);
    if DistinctHandles(a.outputs) {
      forall i | 0 <= i < |r| ensures Carries(a, es, i, r[i]) {
        PublishedCarries(a, es, send, i);
      }
    }
  }

  // ----------------------------------------------------------- fresh inputs

  /**
    The newest sample not after the simulation time is recent enough if and
    only if some sample of the backlog lies in the window without delay.
   */
  lemma FreshIffInWindow(s: seq<SB.Slot>, sim: int, age: int)
    requires SB.Sorted(s)
    ensures SB.InWindow(s, sim - age, sim)
            <==> SB.SelectUpperBound(s, sim).Some? && sim - age <= s[SB.SelectUpperBound(s, sim).value].tm <= sim
  {
    DataSampleBuffer.WindowByUpperBound(s, sim - age, sim);
  }

  /** What one window check meets: the backlog when it starts, and its wake-ups. */
  datatype Encounter = Encounter(before: SB.Backlog, wakes: seq<DataSampleBuffer.Wake>)

  /** A backlog is in time order and never without a slot. */
  ghost predicate Proper(e: Encounter) {
    |e.before.slots| > 0 && SB.Sorted(e.before.slots) && DataSampleBuffer.NeverDrained(e.wakes)
  }

  ghost predicate AllProper(world: seq<Encounter>) {
    forall i :: 0 <= i < |world| ==> Proper(world[i])
  }

  /** The result of the check that meets the encounter. */
  ghost function CheckResult(e: Encounter, lo: int, hi: int): (r: Result) {
    if Proper(e) then DataSampleBuffer.WindowOutcome(lo, hi, e.before, e.wakes).0 else Ok
  }

  /** The window checks of the backlogs. */
  ghost function CheckOf(world: seq<Encounter>): (r: WindowCheck) {
    (i: nat, lo: int, hi: int) => if i < |world| then CheckResult(world[i], lo, hi) else Ok
  }

  /** The backlog of input i at the return of its check. */
  ghost function LeftBy(x: Input, sim: int, e: Encounter): (b: SB.Backlog)
    requires Proper(e)
  {
    var lo, hi := sim - x.validAge, sim + x.delay;
    DataSampleBuffer.Left(e.before, e.wakes, DataSampleBuffer.WindowOutcome(lo, hi, e.before, e.wakes).1)
  }

  /** The backlogs at the return of all checks. */
  ghost function LeftAll(ins: seq<Input>, sim: int, world: seq<Encounter>): (r: seq<SB.Backlog>)
    requires |ins| == |world| && AllProper(world)
    ensures |r| == |ins|
  {
    seq(|ins|, i requires 0 <= i < |ins| => LeftBy(ins[i], sim, world[i]))
  }

  lemma LeftAllAt(ins: seq<Input>, sim: int, world: seq<Encounter>, i: nat)
    requires i < |ins| == |world| && AllProper(world)
    ensures LeftAll(ins, sim, world)[i] == LeftBy(ins[i], sim, world[i])
  {
  }

  /** The backlogs of the first n inputs, each as its last check left it. */
  ghost function FoundBy(ins: seq<Input>, left: seq<SB.Backlog>, n: nat): (m: map<DataSampleBuffer.Buffer, SB.Backlog>)
    requires n <= |ins| == |left|
  {
    if n == 0 then map[] else FoundBy(ins, left, n - 1)[ins[n - 1].buffer := left[n - 1]]
  }

  ghost function Buffers(ins: seq<Input>): set<DataSampleBuffer.Buffer> {
    set i | 0 <= i < |ins| :: ins[i].buffer
  }

  lemma {:induction false} FoundAreUsed(ins: seq<Input>, left: seq<SB.Backlog>, n: nat)
    requires n <= |ins| == |left|
    ensures FoundBy(ins, left, n).Keys <= Buffers(ins)
  {
    if n > 0 {
      FoundAreUsed(ins, left, n - 1);
      assert ins[n - 1].buffer in Buffers(ins);
    }
  }

  ghost predicate AsFound(m: map<DataSampleBuffer.Buffer, SB.Backlog>)
    reads m.Keys
  {
    forall b :: b in m ==> b.Value() == m[b]
  }

  ghost predicate IsFound(m: map<DataSampleBuffer.Buffer, SB.Backlog>, buffer: DataSampleBuffer.Buffer, b: SB.Backlog) {
    buffer in m && m[buffer] == b
  }

  /** A backlog that no later check used is as check i left it. */
  lemma {:induction false} LastUseFinds(ins: seq<Input>, left: seq<SB.Backlog>, i: nat, n: nat)
    requires i < n <= |ins| == |left|
    requires forall j :: i < j < n ==> ins[j].buffer != ins[i].buffer
    ensures IsFound(FoundBy(ins, left, n), ins[i].buffer, left[i])
    decreases n
  {
    if n > i + 1 {
      LastUseFinds(ins, left, i, n - 1);
    }
  }

  lemma CheckedMeetsEncounter(ins: seq<Input>, sim: int, world: seq<Encounter>, i: nat)
    requires i < |ins| == |world|
    ensures Checked(ins, sim, CheckOf(world), i)
            == CheckResult(world[i], sim - ins[i].validAge, sim + ins[i].delay)
  {
  }

  /** The verdict on an input in terms of the result of its check. */
  lemma VerdictOn(ins: seq<Input>, sim: int, world: seq<Encounter>, i: nat, x: Input, e: Encounter, local: Result)
    requires i < |ins| == |world| && x == ins[i] && e == world[i]
    requires local == CheckResult(e, sim - x.validAge, sim + x.delay)
    ensures var missed := local != Ok && local != Cancelled;
            && (Stops(ins, sim, CheckOf(world), i) <==> local == Cancelled || (missed && x.strategy == SetError))
            && (AsksToSkip(ins, sim, CheckOf(world), i) <==> missed && SkipsOn(x.strategy))
            && (Fatal(ins, sim, CheckOf(world), i) <==> missed && x.strategy == SetError)
  {
    CheckedMeetsEncounter(ins, sim, world, i);
  }

  /** A passed check leaves a sample behind that is not too old and not more than the delay in the future. */
  lemma PassedMeansFresh(x: Input, sim: int, e: Encounter)
    requires Proper(e) && CheckResult(e, sim - x.validAge, sim + x.delay) == Ok
    ensures SB.InWindow(LeftBy(x, sim, e).slots, sim - x.validAge, sim + x.delay)
  {
    DataSampleBuffer.SuccessMeansInWindow(sim - x.validAge, sim + x.delay, e.before, e.wakes);
  }

  lemma PassedIsFresh(ins: seq<Input>, sim: int, world: seq<Encounter>, i: nat)
    requires i < |ins| == |world| && AllProper(world)
    requires Checked(ins, sim, CheckOf(world), i) == Ok
    ensures SB.InWindow(LeftBy(ins[i], sim, world[i]).slots, sim - ins[i].validAge, sim + ins[i].delay)
  {
    var x, e := ins[i], world[i];
    assert Proper(e);
    var result := CheckResult(e, sim - x.validAge, sim + x.delay);
    assert result == Ok by {
      CheckedMeetsEncounter(ins, sim, world, i);
    }
    PassedMeansFresh(x, sim, e);
  }

  /**
    When the newest sample has reached the window before the check of an
    accepted input, the check decides at once, and passes exactly if a sample
    lies in the window.
   */
  lemma DecidedAtOnceIff(ins: seq<Input>, sim: int, world: seq<Encounter>, i: nat)
    requires i < |ins| == |world| && AllProper(world) && ins[i].validAge >= 0 && ins[i].delay >= 0
    requires |world[i].before.slots| > 0 && DataSampleBuffer.NewestTime(world[i].before) >= sim - ins[i].validAge
    ensures Checked(ins, sim, CheckOf(world), i) == Ok
            <==> SB.InWindow(world[i].before.slots, sim - ins[i].validAge, sim + ins[i].delay)
    ensures LeftBy(ins[i], sim, world[i]) == world[i].before
  {
    CheckedMeetsEncounter(ins, sim, world, i);
    assert Proper(world[i]);
  }

  lemma PassedLeavesFresh(ins: seq<Input>, sim: int, world: seq<Encounter>, i: nat,
                          check: WindowCheck, left: seq<SB.Backlog>)
    requires i < |ins| == |world| && AllProper(world) && ins[i].delay == 0
    requires check == CheckOf(world) && left == LeftAll(ins, sim, world)
    requires Checked(ins, sim, check, i) == Ok
    ensures SB.InWindow(left[i].slots, sim - ins[i].validAge, sim)
  {
    PassedIsFresh(ins, sim, world, i);
    LeftAllAt(ins, sim, world, i);
  }

  // -------------------------------------------------------------------- class

  /** The user's sample that receives a copy. */
  class UserSample {
    var time: int
    var handle: int
    var data: SB.Data

    constructor ()
    {
      time, handle, data := 0, 0, 0;
    }
  }

  class StepData {
    var needToSkip: bool
    var currSim: int
    var cycle: int
    var inputs: seq<Input>
    var outputs: seq<Output>
    var errorEvents: nat

    ghost function Value(): (a: Access)
      reads this
    {
      Access(needToSkip, currSim, cycle, inputs, outputs)
    }

    constructor ()
      ensures Value() == Access(false, 0, 0, [], []) && errorEvents == 0
    {
      needToSkip, currSim, cycle, inputs, outputs, errorEvents := false, 0, 0, [], [], 0;
    }

    method SetSkip()
      modifies this`needToSkip
      ensures Value() == Effect(old(Value()), SkipRequest)
    {
      needToSkip := true;
    }

    /** `lookup` finds the backlog of a signal. */
    method ConfigureInput(name: string, handle: int, strategy: Strategy, validAge: int, delay: int,
                          lookup: int -> Option<DataSampleBuffer.Buffer>) returns (res: Result)
      requires StrictestFirst(inputs)
      modifies this`inputs
      ensures StrictestFirst(inputs)
      ensures res == if delay < 0 || strategy == UnknownStrategy || validAge < 0 then InvalidArg
                     else if lookup(handle) == None then NotFound else Ok
      ensures Value() ==
              if res == Ok then Effect(old(Value()), Configuration(Input(name, strategy, validAge, delay, lookup(handle).value)))
              else old(Value())
      ensures res == Ok ==>
                exists k: nat :: k <= |old(inputs)| && Placed(old(inputs), inputs, k)
                  && inputs[k] == Input(name, strategy, validAge, delay, lookup(handle).value)
    {
      res := Ok;
      var found: Option<DataSampleBuffer.Buffer> := None;
      if delay < 0 || strategy == UnknownStrategy || validAge < 0 {
        res := InvalidArg;
      }
      if res == Ok {
        found := lookup(handle);
        res := if found == None then NotFound else Ok;
      }
      if res == Ok {
        var x := Input(name, strategy, validAge, delay, found.value);
        InsertKeepsStrictestFirst(inputs, x);
        ghost var k := InsertGoesBehindEquals(inputs, x);
        assert Placed(inputs, InsertInput(inputs, x), k);
        inputs := InsertInput(inputs, x);
      }
    }

    method ApplyInputViolationStrat(strategy: Strategy) returns (res: Result)
      modifies this`needToSkip, this`errorEvents
      ensures res == if strategy == SetError then Cancelled else Ok
      ensures needToSkip == (old(needToSkip) || strategy == SkipOutputs || strategy == SetError)
      ensures errorEvents == old(errorEvents) + if strategy == SetError then 1 else 0
    {
      res := Ok;
      match strategy {
        case IgnoreViolation =>
        case WarnAbout =>
        case SkipOutputs => needToSkip := true;
        case SetError =>
          res := Cancelled;
          needToSkip := true;
          errorEvents := errorEvents + 1;
        case UnknownStrategy =>
      }
    }

    /** Applies the strategy of an input whose check had the given result. */
    method JudgeInput(strategy: Strategy, local: Result) returns (res: Result)
      modifies this`needToSkip, this`errorEvents
      ensures var missed := local != Ok && local != Cancelled;
              && res == (if local == Cancelled || (missed && strategy == SetError) then Cancelled else Ok)
              && needToSkip == (old(needToSkip) || (missed && SkipsOn(strategy)))
              && errorEvents == old(errorEvents) + if missed && strategy == SetError then 1 else 0
    {
      res := Ok;
      if local != Ok {
        if local == Cancelled {
          res := local;
        } else {
          res := ApplyInputViolationStrat(strategy);
        }
      }
    }

    /** Waits for input x, which meets the encounter e, and applies its strategy. */
    method CheckInput(x: Input, sim: int, e: Encounter) returns (res: Result, local: Result)
      requires Proper(e)
      modifies this`needToSkip, this`errorEvents, x.buffer
      ensures local == CheckResult(e, sim - x.validAge, sim + x.delay)
      ensures x.buffer.Value() == LeftBy(x, sim, e)
      ensures var missed := local != Ok && local != Cancelled;
              && res == (if local == Cancelled || (missed && x.strategy == SetError) then Cancelled else Ok)
              && needToSkip == (old(needToSkip) || (missed && SkipsOn(x.strategy)))
              && errorEvents == old(errorEvents) + if missed && x.strategy == SetError then 1 else 0
    {
      x.buffer.Become(e.before);
      var used;
      local, used := x.buffer.WaitUntilInTimeWindow(sim - x.validAge, sim + x.delay, e.wakes);
      res := JudgeInput(x.strategy, local);
    }

    /** Checks input x; `found` are backlogs, of `used`, that were checked before. */
    method CheckAgain(x: Input, sim: int, e: Encounter, ghost found: map<DataSampleBuffer.Buffer, SB.Backlog>,
                      ghost used: set<DataSampleBuffer.Buffer>) returns (res: Result, local: Result)
      requires Proper(e) && found.Keys <= used && AsFound(found)
      modifies this`needToSkip, this`errorEvents, x.buffer
      ensures local == CheckResult(e, sim - x.validAge, sim + x.delay)
      ensures AsFound(found[x.buffer := LeftBy(x, sim, e)])
      ensures var missed := local != Ok && local != Cancelled;
              && res == (if local == Cancelled || (missed && x.strategy == SetError) then Cancelled else Ok)
              && needToSkip == (old(needToSkip) || (missed && SkipsOn(x.strategy)))
              && errorEvents == old(errorEvents) + if missed && x.strategy == SetError then 1 else 0
    {
      assert forall b :: b in found ==> b in used;
      res, local := CheckInput(x, sim, e);
      assert forall b :: b in found && b != x.buffer ==> b.Value() == found[b];
    }

    /** Checks input i and applies its strategy; `left` are the backlogs the checks leave. */
    method CheckNext(ins: seq<Input>, i: nat, sim: int, world: seq<Encounter>,
                     ghost check: WindowCheck, ghost left: seq<SB.Backlog>)
      returns (res: Result)
      requires i < |ins| == |world| && AllProper(world)
      requires check == CheckOf(world) && left == LeftAll(ins, sim, world)
      requires AsFound(FoundBy(ins, left, i))
      modifies this`needToSkip, this`errorEvents, ins[i].buffer
      ensures res == if Stops(ins, sim, check, i) then Cancelled else Ok
      ensures needToSkip == (old(needToSkip) || AsksToSkip(ins, sim, check, i))
      ensures errorEvents == old(errorEvents) + if Fatal(ins, sim, check, i) then 1 else 0
      ensures AsFound(FoundBy(ins, left, i + 1))
    {
      var x, e := ins[i], world[i];
      VerdictOn(ins, sim, world, i, x, e, CheckResult(e, sim - x.validAge, sim + x.delay));
      LeftAllAt(ins, sim, world, i);
      FoundAreUsed(ins, left, i);
      var local;
      res, local := CheckAgain(x, sim, e, FoundBy(ins, left, i), Buffers(ins));
    }

    /** One round of the checks: what was known of the first i inputs is known of one more. */
    method CheckRound(ins: seq<Input>, i: nat, sim: int, world: seq<Encounter>,
                      ghost check: WindowCheck, ghost left: seq<SB.Backlog>, ghost skip: bool)
      returns (res: Result, ghost skip': bool, ghost errors: nat)
      requires i < |ins| == |world| && AllProper(world)
      requires check == CheckOf(world) && left == LeftAll(ins, sim, world)
      requires CheckedSoFar(ins, sim, check, i, Ok, skip, 0) && AsFound(FoundBy(ins, left, i))
      modifies this`needToSkip, this`errorEvents, ins[i].buffer
      ensures CheckedSoFar(ins, sim, check, i + 1, res, skip', errors) && AsFound(FoundBy(ins, left, i + 1))
      ensures (needToSkip || skip) == (old(needToSkip) || skip') && (old(needToSkip) ==> needToSkip)
      ensures errorEvents == old(errorEvents) + errors && (res == Ok ==> errors == 0)
    {
      res := CheckNext(ins, i, sim, world, check, left);
      OneMoreCheck(ins, sim, check, i, skip, 0, res);
      skip' := skip || AsksToSkip(ins, sim, check, i);
      errors := if Fatal(ins, sim, check, i) then 1 else 0;
    }

    /** Checks the inputs in order until one stops the validation. */
    method CheckInputs(ins: seq<Input>, sim: int, world: seq<Encounter>,
                       ghost check: WindowCheck, ghost left: seq<SB.Backlog>)
      returns (res: Result, checked: nat, ghost skip: bool, ghost errors: nat)
      requires |world| == |ins| && AllProper(world)
      requires check == CheckOf(world) && left == LeftAll(ins, sim, world)
      modifies this`needToSkip, this`errorEvents, Buffers(ins)
      ensures CheckedSoFar(ins, sim, check, checked, res, skip, errors) && (checked == |ins| || res != Ok)
      ensures needToSkip == (old(needToSkip) || skip) && errorEvents == old(errorEvents) + errors
      ensures AsFound(FoundBy(ins, left, checked))
    {
      res, checked, skip, errors := Ok, 0, false, 0;
      while checked < |ins| && res == Ok
        invariant CheckedSoFar(ins, sim, check, checked, res, skip, errors)
        invariant needToSkip == (old(needToSkip) || skip)
        invariant errorEvents == old(errorEvents) + errors && (res == Ok ==> errors == 0)
        invariant AsFound(FoundBy(ins, left, checked))
        decreases |ins| - checked
      {
        assert ins[checked].buffer in Buffers(ins);
        res, skip, errors := CheckRound(ins, checked, sim, world, check, left, skip);
        checked := checked + 1;
      }
    }

    method CheckAll(sim: int, world: seq<Encounter>, ghost check: WindowCheck) returns (res: Result, checked: nat)
      requires |world| == |inputs| && AllProper(world) && check == CheckOf(world)
      modifies this`needToSkip, this`errorEvents, Buffers(inputs)
      ensures checked == CheckedFrom(inputs, sim, check, 0)
      ensures res == if checked > 0 && Stops(inputs, sim, check, checked - 1) then Cancelled else Ok
      ensures res == Ok ==> checked == |inputs|
      ensures needToSkip == (old(needToSkip) || SkipCause(inputs, sim, check))
      ensures errorEvents == old(errorEvents) + if checked > 0 && Fatal(inputs, sim, check, checked - 1) then 1 else 0
      ensures AsFound(FoundBy(inputs, LeftAll(inputs, sim, world), checked))
    {
      ghost var skip, errors;
      res, checked, skip, errors := CheckInputs(inputs, sim, world, check, LeftAll(inputs, sim, world));
      AllChecks(inputs, sim, check, checked, res, skip, errors);
    }

    /**
      `world` is what the window check of each input meets.  The validation
      ends early only on a shutdown or a miss under the error strategy, and
      leaves every checked backlog as its last check found it.
     */
    method ValidateInputs(sim: int, world: seq<Encounter>) returns (res: Result, checked: nat)
      requires |world| == |inputs| && AllProper(world)
      modifies this`currSim, this`needToSkip, this`errorEvents, Buffers(inputs)
      ensures Value() == Effect(old(Value()), Validation(sim, CheckOf(world)))
      ensures checked == CheckedFrom(inputs, sim, CheckOf(world), 0)
      ensures res == if checked > 0 && Stops(inputs, sim, CheckOf(world), checked - 1) then Cancelled else Ok
      ensures res == Ok ==> checked == |inputs|
      ensures errorEvents == old(errorEvents)
                             + if checked > 0 && Fatal(inputs, sim, CheckOf(world), checked - 1) then 1 else 0
      ensures AsFound(FoundBy(inputs, LeftAll(inputs, sim, world), checked))
    {
      currSim := sim;
      res, checked := CheckAll(sim, world, CheckOf(world));
    }

    /**
      A sample of a configured output is kept until publication; any other is
      sent at once.  `copied` is the result of the copy into the output.
     */
    method TransmitData(sample: UserSample, copied: Result, send: Transmission) returns (res: Result)
      modifies this`outputs, sample
      ensures var a, k := old(Value()), FindOutput(old(outputs), sample.handle);
              if k < |old(outputs)| then
                && res == copied && sample.time == old(sample.time)
                && Value() == if copied == Ok then Effect(a, Transmit(sample.handle, sample.data)) else a
              else
                && Value() == a && sample.time == currSim + cycle
                && res == send(Output(sample.handle, sample.time, sample.data))
      ensures sample.handle == old(sample.handle) && sample.data == old(sample.data)
      ensures forall i :: 0 <= i < |old(outputs)| ==>
                old(outputs)[i].handle == sample.handle && copied == Ok && DistinctHandles(old(outputs)) ==>
                outputs == old(outputs)[i := Output(sample.handle, old(outputs)[i].time, sample.data)]
    {
      var k := FindOutput(outputs, sample.handle);
      if k < |outputs| {
        if copied == Ok {
          outputs := outputs[k := outputs[k].(data := sample.data)];
        }
        res := copied;
      } else {
        sample.time := currSim + cycle;
        res := send(Output(sample.handle, sample.time, sample.data));
      }
    }

    /** Publishes every output until a transmission fails, or nothing when skipping is due. */
    method TransmitAllOutputs(send: Transmission) returns (res: Result, published: seq<Output>)
      modifies this`needToSkip, this`outputs
      ensures published == Published(old(Value()), send)
      ensures Value() == Effect(old(Value()), Publication(send))
      ensures res == if published != [] && send(published[|published| - 1]) != Ok then Failed else Ok
    {
      res, published := Ok, [];
      ghost var a := Value();
      if !needToSkip {
        res, published := SendOutputs(send);
        PublicationIs(a, send, published, outputs);
      } else {
        assert outputs == Overlaid(outputs, []);
      }
      needToSkip := false;
    }

    method SendOutputs(send: Transmission) returns (res: Result, published: seq<Output>)
      modifies this`outputs
      ensures |published| == SentFrom(old(outputs), currSim + cycle, send, 0)
      ensures |outputs| == |old(outputs)|
      ensures forall i :: 0 <= i < |published| ==> published[i] == old(outputs)[i].(time := currSim + cycle)
      ensures forall i :: 0 <= i < |outputs| ==>
                outputs[i] == if i < |published| then published[i] else old(outputs)[i]
      ensures res == if published != [] && send(published[|published| - 1]) != Ok then Failed else Ok
    {
      var outs, time := outputs, currSim + cycle;
      res, published := Ok, [];
      var i := 0;
      while i < |outs| && res == Ok
        invariant |published| == i <= |outs| == |outputs|
        invariant forall j :: 0 <= j < i ==> published[j] == outs[j].(time := time)
        invariant forall j :: 0 <= j < i ==> outputs[j] == published[j]
        invariant forall j :: i <= j < |outs| ==> outputs[j] == outs[j]
        invariant SentFrom(outs, time, send, 0) == if res == Ok then SentFrom(outs, time, send, i) else i
        invariant res == if i > 0 && send(published[i - 1]) != Ok then Failed else Ok
        decreases |outs| - i
      {
        var o := outs[i].(time := time);
        outputs := outputs[i := outputs[i].(time := time)];
        published := published + [o];
        res := if send(o) != Ok then Failed else Ok;
        i := i + 1;
      }
    }

    /**
      Copies the newest sample not after the bound.  The backlog is as before,
      all lock counts included.
     */
    method CopyDataBefore(buffer: DataSampleBuffer.Buffer, handle: int, bound: int, sample: UserSample)
      returns (res: Result)
      requires SB.Valid(buffer.Value())
      modifies buffer, sample
      ensures buffer.Value() == old(buffer.Value())
      ensures match SB.SelectUpperBound(buffer.slots, bound)
              case None => res == NotFound && sample.time == old(sample.time) && sample.data == old(sample.data)
              case Some(i) =>
                && res == (if buffer.latest >= 0 then Ok else OutOfSync)
                && sample.handle == handle
                && buffer.slots[i].ref in buffer.memory
                && sample.time == buffer.slots[i].tm && sample.data == buffer.memory[buffer.slots[i].ref].data
    {
      ghost var b := buffer.Value();
      var pick: Option<SB.Ref>, valid: bool;
      res, pick, valid := buffer.LockDataAtUpperBound(bound);
      if res == Ok {
        ghost var i := SB.SelectUpperBound(b.slots, bound).value;
        SB.LockUnlockRoundTrip(b, i);
        SB.LockedSlotFacts(b, i);
        var data := buffer.memory[pick.value];
        sample.time := data.time;
        sample.handle := handle;
        sample.data := data.data;
        var ignored := buffer.UnlockData(pick.value, data.time);
        if !valid {
          res := OutOfSync;
        }
      }
    }

    /**
      Copies the newest sample not after the current simulation time.  For
      every age: the copy is at most that old if and only if the backlog passes
      the window check of an input with that valid age and no delay.
     */
    method CopyRecentData(buffer: DataSampleBuffer.Buffer, handle: int, sample: UserSample, ghost age: int)
      returns (res: Result)
      requires SB.Valid(buffer.Value())
      modifies buffer, sample
      ensures buffer.Value() == old(buffer.Value())
      ensures match SB.SelectUpperBound(buffer.slots, currSim)
              case None => res == NotFound && sample.time == old(sample.time) && sample.data == old(sample.data)
              case Some(i) =>
                && res == (if buffer.latest >= 0 then Ok else OutOfSync)
                && sample.handle == handle
                && buffer.slots[i].ref in buffer.memory
                && sample.time == buffer.slots[i].tm && sample.data == buffer.memory[buffer.slots[i].ref].data
      ensures SB.InWindow(buffer.slots, currSim - age, currSim)
              <==> res != NotFound && currSim - age <= sample.time <= currSim
    {
      FreshIffInWindow(buffer.slots, currSim, age);
      res := CopyDataBefore(buffer, handle, currSim, sample);
    }

    /**
      A step: the inputs are validated, and then the data of input i is copied.
      If its check passed without delay, and the backlog is afterwards as that
      check left it, then the copy is not later than the simulation time and
      not older than the valid age, whatever arrived during the checks, and the
      backlog with all lock counts stays as it was.
     */
    method ValidateThenCopy(sim: int, world: seq<Encounter>, i: nat, handle: int, sample: UserSample,
                            ghost check: WindowCheck, ghost left: seq<SB.Backlog>, ghost n: nat)
      returns (validated: Result, checked: nat, res: Result)
      requires |world| == |inputs| && AllProper(world)
      requires check == CheckOf(world) && left == LeftAll(inputs, sim, world) && n == CheckedFrom(inputs, sim, check, 0)
      requires i < n && inputs[i].delay == 0 && Checked(inputs, sim, check, i) == Ok
      requires IsFound(FoundBy(inputs, left, n), inputs[i].buffer, left[i]) && SB.Valid(left[i])
      modifies this`currSim, this`needToSkip, this`errorEvents, Buffers(inputs), sample
      ensures inputs[i].buffer.Value() == left[i]
      ensures res != NotFound && sim - inputs[i].validAge <= sample.time <= sim
    {
      var x := inputs[i];
      PassedLeavesFresh(inputs, sim, world, i, check, left);
      validated, checked := ValidateAndFind(sim, world, i, check, left, n);
      res := CopyFresh(x.buffer, handle, sample, x.validAge, left[i]);
    }

    /** Validates, and afterwards the backlog of input i is as its own check left it. */
    method ValidateAndFind(sim: int, world: seq<Encounter>, i: nat,
                           ghost check: WindowCheck, ghost left: seq<SB.Backlog>, ghost n: nat)
      returns (validated: Result, checked: nat)
      requires i < |inputs| == |world| && AllProper(world)
      requires check == CheckOf(world) && left == LeftAll(inputs, sim, world) && n == CheckedFrom(inputs, sim, check, 0)
      requires IsFound(FoundBy(inputs, left, n), inputs[i].buffer, left[i])
      modifies this`currSim, this`needToSkip, this`errorEvents, Buffers(inputs)
      ensures inputs[i].buffer in Buffers(inputs) && inputs[i].buffer.Value() == left[i] && currSim == sim
    {
      assert inputs[i].buffer in Buffers(inputs);
      validated, checked := ValidateInputs(sim, world);
    }

    /** Copies from a backlog that passes the window check. */
    method CopyFresh(buffer: DataSampleBuffer.Buffer, handle: int, sample: UserSample, ghost age: int, ghost b: SB.Backlog)
      returns (res: Result)
      requires buffer.Value() == b && SB.Valid(b) && SB.InWindow(b.slots, currSim - age, currSim)
      modifies buffer, sample
      ensures buffer.Value() == b
      ensures res != NotFound && currSim - age <= sample.time <= currSim
    {
      res := CopyRecentData(buffer, handle, sample, age);
    }
  }
}
