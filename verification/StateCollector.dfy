/**
  Collecting the states of remote participants: an incremental counter of
  first responses, the minimum-weight aggregate over all participants, and the
  event that ends the wait.
 */
module StateCollector {
  import opened Results

  datatype FepState = Startup | Idle | Initializing | Ready | Running | Error | Shutdown | Unknown

  type States = map<string, FepState>

  // ----------------------------------------------------------------- weights

  /** The enumerator value, used as a table index. */
  function Ordinal(s: FepState): (n: nat)
    ensures n < 8
  {
    match s
    case Startup => 0 case Idle => 1 case Initializing => 2 case Ready => 3
    case Running => 4 case Error => 5 case Shutdown => 6 case Unknown => 7
  }

  /** All states that can be aggregated, ordered by weight. */
  const BY_WEIGHT: seq<FepState> := [Shutdown, Error, Startup, Idle, Initializing, Ready, Running]

  /** Documented order: Shutdown < Error < Startup < Idle < Initializing < Ready < Running. */
  function Weight(s: FepState): (w: nat)
    requires s != Unknown
    ensures w < 7 && BY_WEIGHT[w] == s
  {
    match s
    case Shutdown => 0 case Error => 1 case Startup => 2 case Idle => 3
    case Initializing => 4 case Ready => 5 case Running => 6
  }

  ghost predicate AllKnown(m: States) {
    forall k :: k in m ==> m[k] != Unknown
  }

  /** The aggregate: no participant is below it, and one has it (Running if nobody participates). */
  ghost predicate IsAggregate(m: States, s: FepState)
    requires AllKnown(m)
  {
    && s != Unknown
    && (forall k :: k in m ==> Weight(s) <= Weight(m[k]))
    && ((exists k :: k in m && m[k] == s) || s == Running)
  }

  lemma AggregateIsUnique(m: States, s: FepState, t: FepState)
    requires AllKnown(m) && IsAggregate(m, s) && IsAggregate(m, t)
    ensures s == t
  {
    assert BY_WEIGHT[Weight(s)] == s && BY_WEIGHT[Weight(t)] == t;
    assert Weight(s) <= 6 && Weight(t) <= 6;
  }

  ghost predicate Has(m: States, s: FepState) {
    exists k :: k in m && m[k] == s
  }

  /** The documented order: each state is the aggregate exactly if somebody has it and nobody has one before it. */
  lemma AggregateOrder(m: States, s: FepState)
    requires AllKnown(m) && IsAggregate(m, s)
    ensures s == Shutdown <==> Has(m, Shutdown)
    ensures s == Error <==> Has(m, Error) && !Has(m, Shutdown)
    ensures s == Startup <==> Has(m, Startup) && !Has(m, Shutdown) && !Has(m, Error)
    ensures s == Idle <==> Has(m, Idle) && !Has(m, Shutdown) && !Has(m, Error) && !Has(m, Startup)
    ensures s == Ready <==> (forall k :: k in m ==> m[k] == Ready || m[k] == Running) && Has(m, Ready)
    ensures s == Running <==> forall k :: k in m ==> m[k] == Running
  {
    if s != Running {
      assert Has(m, s);
    }
  }

  // ---------------------------------------------------------------- collector

  datatype Collector = Collector(
    states: States,
    responses: nat,
    waitMode: bool,      // wait for a target state, or just ask for the current one
    target: FepState,
    finishes: nat)       // how often the finish event was raised

  ghost function KnownOf(m: States): (r: set<string>) {
    set k | k in m && m[k] != Unknown
  }

  /** A report changes one entry and counts it when it is the first. */
  function Record(c: Collector, name: string, s: FepState): (r: Collector)
    requires name in c.states
  {
    c.(states := c.states[name := s],
       responses := c.responses + if c.states[name] == Unknown then 1 else 0)
  }

  /** The event is raised in this state. */
  ghost predicate Finishes(c: Collector) {
    && c.responses == |c.states|
    && (c.waitMode ==> AllKnown(c.states) && IsAggregate(c.states, c.target))
  }

  ghost function Report(c: Collector, name: string, s: FepState): (r: Collector)
    requires name in c.states
  {
    var d := Record(c, name, s);
    if Finishes(d) then d.(finishes := d.finishes + 1) else d
  }

  /**
    A notification.  For a property: whether it is the state property with a
    readable value, and the state the value names, if it names one.
   */
  datatype Note =
    | PropertyNote(sender: string, isState: bool, parsed: Option<FepState>)
    | StateNote(sender: string, state: FepState)

  /** What a property value stands for; an unreadable name counts as Shutdown. */
  function Named(parsed: Option<FepState>): (s: FepState) {
    if parsed.Some? then parsed.value else Shutdown
  }

  ghost function Handle(c: Collector, n: Note): (r: Collector) {
    match n
    case PropertyNote(sender, isState, parsed) =>
      if c.responses < |c.states| && isState && sender in c.states then Report(c, sender, Named(parsed)) else c
    case StateNote(sender, state) =>
      if c.waitMode && sender in c.states then Report(c, sender, state) else c
  }

  ghost function HandleAll(c: Collector, ns: seq<Note>): (r: Collector)
    decreases |ns|
  {
    if ns == [] then c else HandleAll(Handle(c, ns[0]), ns[1..])
  }

  predicate IsKnownNote(n: Note) {
    if n.PropertyNote? then Named(n.parsed) != Unknown else n.state != Unknown
  }

  ghost predicate AllKnownNotes(ns: seq<Note>) {
    forall i :: 0 <= i < |ns| ==> IsKnownNote(ns[i])
  }

  // ------------------------------------------------- what the notes report

  /** The state that a note reports. */
  function Said(n: Note): (s: FepState) {
    if n.PropertyNote? then Named(n.parsed) else n.state
  }

  /**
    Whether a note behind `before` is taken: it has to come from a listed
    participant; state notes count in wait mode only, and properties until as
    many first answers came as participants were asked.
   */
  ghost predicate Counts(names: set<string>, waitMode: bool, before: seq<Note>, n: Note)
    decreases |before|, 2
  {
    && n.sender in names
    && (n.StateNote? ==> waitMode)
    && (n.PropertyNote? ==> n.isState && FirstAnswers(names, waitMode, before) < |names|)
  }

  /** The state that `k` reported last in a note that was taken, unknown if there is none. */
  ghost function Reported(names: set<string>, waitMode: bool, ns: seq<Note>, k: string): (s: FepState)
    decreases |ns|, 0
  {
    if ns == [] then Unknown
    else
      var before, n := ns[..|ns| - 1], ns[|ns| - 1];
      if n.sender == k && Counts(names, waitMode, before, n) then Said(n)
      else Reported(names, waitMode, before, k)
  }

  /** How many notes were taken of a participant who had not reported a known state before. */
  ghost function FirstAnswers(names: set<string>, waitMode: bool, ns: seq<Note>): (r: nat)
    decreases |ns|, 1
  {
    if ns == [] then 0
    else
      var before, n := ns[..|ns| - 1], ns[|ns| - 1];
      FirstAnswers(names, waitMode, before)
      + if Counts(names, waitMode, before, n) && Reported(names, waitMode, before, n.sender) == Unknown then 1 else 0
  }

  ghost function StatesReported(names: set<string>, waitMode: bool, ns: seq<Note>): (m: States)
    ensures m.Keys == names
  {
    map k | k in names :: Reported(names, waitMode, ns, k)
  }

  /** How many reports of the unknown state were taken. */
  ghost function UnknownsIn(names: set<string>, waitMode: bool, ns: seq<Note>): (r: nat)
    decreases |ns|
  {
    if ns == [] then 0
    else
      var before, n := ns[..|ns| - 1], ns[|ns| - 1];
      UnknownsIn(names, waitMode, before) + if Counts(names, waitMode, before, n) && Said(n) == Unknown then 1 else 0
  }

  // ------------------------------------------------------------------ lemmas

  /** The counter agrees with a scan of the map. */
  ghost predicate Exact(c: Collector) {
    c.responses == |KnownOf(c.states)|
  }

  lemma KnownAfter(m: States, name: string, s: FepState)
    ensures KnownOf(m[name := s]) == if s != Unknown then KnownOf(m) + {name} else KnownOf(m) - {name}
  {
  }

  lemma CardinalityAfter(k: set<string>, name: string)
    ensures |k + {name}| == if name in k then |k| else |k| + 1
    ensures |k - {name}| == if name in k then |k| - 1 else |k|
  {
    if name in k {
      assert k + {name} == k;
    } else {
      assert k - {name} == k;
    }
  }

  /** A report keeps the counter exact if and only if it reports a known state. */
  lemma RecordExactIff(c: Collector, name: string, s: FepState)
    requires Exact(c) && name in c.states
    ensures Exact(Record(c, name, s)) <==> s != Unknown
  {
    KnownAfter(c.states, name, s);
    CardinalityAfter(KnownOf(c.states), name);
  }

  lemma ExactMeansAllKnown(c: Collector)
    requires Exact(c)
    ensures c.responses == |c.states| <==> AllKnown(c.states)
    ensures c.responses <= |c.states|
  {
    var k := KnownOf(c.states);
    assert k <= c.states.Keys;
    Subset(k, c.states.Keys);
    if |k| == |c.states.Keys| {
      assert k == c.states.Keys;
    }
    if AllKnown(c.states) {
      assert k == c.states.Keys;
    }
  }

  lemma {:induction false} Subset(a: set<string>, b: set<string>)
    requires a <= b
    ensures |a| <= |b| && (|a| == |b| ==> a == b)
    decreases a
  {
    if a != {} {
      var x :| x in a;
      Subset(a - {x}, b - {x});
    }
  }

  /** Comparing the counter, and in wait mode the computed aggregate, decides whether the event is due. */
  lemma AggregateDecides(c: Collector, s: FepState)
    requires Exact(c) && c.responses == |c.states| && AllKnown(c.states) && IsAggregate(c.states, s)
    ensures Finishes(c) <==> !c.waitMode || s == c.target
  {
    if Finishes(c) && c.waitMode {
      AggregateIsUnique(c.states, s, c.target);
    }
  }

  /** The collector between SendStateRequests and the end of the wait. */
  ghost predicate Inv(c: Collector) {
    && Exact(c)
    && |c.states| > 0
    && (c.finishes > 0 ==> AllKnown(c.states))
    && (!c.waitMode ==> c.finishes == if AllKnown(c.states) then 1 else 0)
  }

  lemma RecordKeepsSize(c: Collector, name: string, s: FepState)
    requires name in c.states
    ensures Record(c, name, s).states.Keys == c.states.Keys
    ensures |Record(c, name, s).states| == |c.states|
  {
    assert Record(c, name, s).states.Keys == c.states.Keys;
    assert |Record(c, name, s).states.Keys| == |c.states.Keys|;
  }

  lemma HandleKept(c: Collector, n: Note)
    requires Inv(c) && IsKnownNote(n)
    ensures Inv(Handle(c, n))
    ensures Handle(c, n).waitMode == c.waitMode && Handle(c, n).target == c.target
  {
    ExactMeansAllKnown(c);
    if n.sender in c.states {
      var s := if n.PropertyNote? then Named(n.parsed) else n.state;
      RecordExactIff(c, n.sender, s);
      RecordKeepsSize(c, n.sender, s);
      ExactMeansAllKnown(Record(c, n.sender, s));
    }
  }

  lemma {:induction false} RunKept(c: Collector, ns: seq<Note>)
    requires Inv(c) && forall i :: 0 <= i < |ns| ==> IsKnownNote(ns[i])
    ensures Inv(HandleAll(c, ns))
    ensures HandleAll(c, ns).waitMode == c.waitMode
    decreases |ns|
  {
    if ns != [] {
      HandleKept(c, ns[0]);
      RunKept(Handle(c, ns[0]), ns[1..]);
    }
  }

  /** All participants listed once, none has answered. */
  ghost predicate Asked(c: Collector) {
    && |c.states| > 0 && c.responses == 0 && c.finishes == 0
    && forall k :: k in c.states ==> c.states[k] == Unknown
  }

  lemma AskedIsInv(c: Collector)
    requires Asked(c)
    ensures Inv(c)
  {
    assert KnownOf(c.states) == {};
    assert c.states.Keys != {};
    var k :| k in c.states.Keys;
    assert c.states[k] == Unknown;
  }

  /**
    For every series of notifications that report known states: the counter
    equals the number of known entries, and in query mode the event has been
    raised exactly once if every listed participant has answered, and not at
    all before.
   */
  lemma CounterAndEventAgree(c: Collector, ns: seq<Note>)
    requires Asked(c) && forall i :: 0 <= i < |ns| ==> IsKnownNote(ns[i])
    ensures var r := HandleAll(c, ns);
            && r.responses == |KnownOf(r.states)|
            && (!c.waitMode ==> r.finishes == if AllKnown(r.states) then 1 else 0)
  {
    AskedIsInv(c);
    RunKept(c, ns);
  }

  lemma {:induction false} HandleAllKeepsRequest(c: Collector, ns: seq<Note>)
    ensures var r := HandleAll(c, ns);
            r.states.Keys == c.states.Keys && r.waitMode == c.waitMode && r.target == c.target
    decreases |ns|
  {
    if ns != [] {
      HandleAllKeepsRequest(Handle(c, ns[0]), ns[1..]);
      assert Handle(c, ns[0]).states.Keys == c.states.Keys;
    }
  }

  lemma {:induction false} HandleLast(c: Collector, ns: seq<Note>, n: Note)
    ensures HandleAll(c, ns + [n]) == Handle(HandleAll(c, ns), n)
    decreases |ns|
  {
    if ns == [] {
      assert ([] + [n])[1..] == [];
      assert HandleAll(c, [n]) == HandleAll(Handle(c, n), []);
    } else {
      assert (ns + [n])[1..] == ns[1..] + [n];
      HandleLast(Handle(c, ns[0]), ns[1..], n);
    }
  }

  lemma ReportedLast(names: set<string>, waitMode: bool, before: seq<Note>, n: Note, k: string)
    ensures Reported(names, waitMode, before + [n], k)
            == if n.sender == k && Counts(names, waitMode, before, n) then Said(n)
               else Reported(names, waitMode, before, k)
  {
    var ns := before + [n];
    assert ns[..|ns| - 1] == before && ns[|ns| - 1] == n;
  }

  lemma FirstAnswersLast(names: set<string>, waitMode: bool, before: seq<Note>, n: Note)
    ensures FirstAnswers(names, waitMode, before + [n]) == FirstAnswers(names, waitMode, before)
              + if Counts(names, waitMode, before, n) && Reported(names, waitMode, before, n.sender) == Unknown
                then 1 else 0
  {
    var ns := before + [n];
    assert ns[..|ns| - 1] == before && ns[|ns| - 1] == n;
  }

  /** A note that is taken is recorded, and nothing else happens to states and counter. */
  lemma HandleTakes(c: Collector, names: set<string>, before: seq<Note>, n: Note)
    requires c.states.Keys == names && c.responses == FirstAnswers(names, c.waitMode, before)
    ensures var r := Handle(c, n);
            if Counts(names, c.waitMode, before, n)
            then r.states == c.states[n.sender := Said(n)]
                 && r.responses == c.responses + (if c.states[n.sender] == Unknown then 1 else 0)
            else r.states == c.states && r.responses == c.responses
  {
    assert |c.states| == |c.states.Keys|;
  }

  /** One more note, on a collector that shows what was reported before. */
  lemma RecordsOne(c: Collector, names: set<string>, before: seq<Note>, n: Note)
    requires c.states == StatesReported(names, c.waitMode, before)
    requires c.responses == FirstAnswers(names, c.waitMode, before)
    ensures Handle(c, n).states == StatesReported(names, c.waitMode, before + [n])
    ensures Handle(c, n).responses == FirstAnswers(names, c.waitMode, before + [n])
  {
    HandleTakes(c, names, before, n);
    FirstAnswersLast(names, c.waitMode, before, n);
    var r := Handle(c, n).states;
    forall k | k in names ensures Reported(names, c.waitMode, before + [n], k) == r[k] {
      ReportedLast(names, c.waitMode, before, n, k);
    }
  }

  /**
    For every series of notifications, in both modes: the collector shows for
    every participant the state it reported last, and counts the first answers.
   */
  lemma {:induction false} CollectsWhatIsReported(c: Collector, ns: seq<Note>)
    requires Asked(c)
    ensures var r := HandleAll(c, ns);
            && r.states == StatesReported(c.states.Keys, c.waitMode, ns)
            && r.responses == FirstAnswers(c.states.Keys, c.waitMode, ns)
    decreases |ns|
  {
    if ns == [] {
      assert c.states == StatesReported(c.states.Keys, c.waitMode, ns);
    } else {
      var before, n := ns[..|ns| - 1], ns[|ns| - 1];
      assert ns == before + [n];
      CollectsWhatIsReported(c, before);
      HandleAllKeepsRequest(c, before);
      HandleLast(c, before, n);
      RecordsOne(HandleAll(c, before), c.states.Keys, before, n);
    }
  }

  /**
    When only known states are reported, a property is taken exactly until
    everybody has answered.
   */
  lemma PropertyCountsIff(c: Collector, ns: seq<Note>, n: Note)
    requires Asked(c) && AllKnownNotes(ns)
    requires n.PropertyNote? && n.isState && n.sender in c.states
    ensures Counts(c.states.Keys, c.waitMode, ns, n) <==> !AllKnown(StatesReported(c.states.Keys, c.waitMode, ns))
  {
    AskedIsInv(c);
    RunKept(c, ns);
    CollectsWhatIsReported(c, ns);
    HandleAllKeepsRequest(c, ns);
    ExactMeansAllKnown(HandleAll(c, ns));
    assert |HandleAll(c, ns).states| == |HandleAll(c, ns).states.Keys| == |c.states.Keys|;
  }

  /** In query mode nothing changes after the event, whatever is notified. */
  lemma {:induction false} QueryIsFrozenAfterFinish(c: Collector, ns: seq<Note>)
    requires Inv(c) && !c.waitMode && c.finishes > 0
    ensures HandleAll(c, ns) == c
    decreases |ns|
  {
    ExactMeansAllKnown(c);
    if ns != [] {
      assert Handle(c, ns[0]) == c;
      QueryIsFrozenAfterFinish(c, ns[1..]);
    }
  }

  /** Whenever a notification raises the event, everybody has answered, and in wait mode the target is reached. */
  lemma FinishMeansReached(c: Collector, n: Note)
    requires Inv(c) && IsKnownNote(n) && Handle(c, n).finishes > c.finishes
    ensures AllKnown(Handle(c, n).states)
    ensures c.waitMode ==> IsAggregate(Handle(c, n).states, c.target)
  {
    var s := if n.PropertyNote? then Named(n.parsed) else n.state;
    RecordExactIff(c, n.sender, s);
    ExactMeansAllKnown(Record(c, n.sender, s));
  }

  ghost predicate HandledReaches(c: Collector, ns: seq<Note>, k: nat)
    requires k <= |ns|
  {
    Reached(HandleAll(c, ns[..k]))
  }

  /** In wait mode an event that was raised means that the target state was reached on the way. */
  lemma {:induction false} FinishedMeansReachedOnTheWay(c: Collector, ns: seq<Note>) returns (k: nat)
    requires Inv(c) && c.waitMode && c.finishes == 0 && HandleAll(c, ns).finishes > 0
    requires forall i :: 0 <= i < |ns| ==> IsKnownNote(ns[i])
    ensures k <= |ns| && HandledReaches(c, ns, k)
    decreases |ns|
  {
    var d := Handle(c, ns[0]);
    HandleKept(c, ns[0]);
    if d.finishes > 0 {
      k := 1;
      FinishMeansReached(c, ns[0]);
      assert ns[..1] == [ns[0]] && ns[..1][1..] == [];
      assert HandleAll(c, ns[..1]) == HandleAll(d, []);
    } else {
      k := FinishedMeansReachedOnTheWay(d, ns[1..]);
      k := k + 1;
      assert ns[..k][1..] == ns[1..][..k - 1];
    }
  }

  lemma {:induction false} FinishesGrow(c: Collector, ns: seq<Note>)
    ensures HandleAll(c, ns).finishes >= c.finishes
    decreases |ns|
  {
    if ns != [] {
      FinishesGrow(Handle(c, ns[0]), ns[1..]);
    }
  }

  ghost predicate Reached(c: Collector) {
    AllKnown(c.states) && IsAggregate(c.states, c.target)
  }

  /** A notification with which the target is reached raises the event. */
  lemma ReachingRaises(c: Collector, n: Note)
    requires Inv(c) && IsKnownNote(n) && !Reached(c) && Reached(Handle(c, n))
    ensures Handle(c, n).finishes > c.finishes
  {
    var s := if n.PropertyNote? then Named(n.parsed) else n.state;
    RecordExactIff(c, n.sender, s);
    ExactMeansAllKnown(Record(c, n.sender, s));
  }

  lemma {:induction false} ReachedMeansFinished(c: Collector, ns: seq<Note>, k: nat)
    requires Inv(c) && c.waitMode && c.finishes == 0 && !Reached(c)
    requires k <= |ns| && HandledReaches(c, ns, k)
    requires forall i :: 0 <= i < |ns| ==> IsKnownNote(ns[i])
    ensures HandleAll(c, ns).finishes > 0
    decreases |ns|
  {
    if k == 0 {
      assert false;
    } else {
      var d := Handle(c, ns[0]);
      HandleKept(c, ns[0]);
      if d.finishes > 0 {
        FinishesGrow(d, ns[1..]);
      } else {
        if Reached(d) {
          ReachingRaises(c, ns[0]);
        }
        assert ns[..k][1..] == ns[1..][..k - 1];
        ReachedMeansFinished(d, ns[1..], k - 1);
      }
    }
  }

  /** By the first k notes everybody has reported a state, and the aggregate of the last reports is the target. */
  ghost predicate ReachedAfter(names: set<string>, target: FepState, ns: seq<Note>, k: nat)
    requires k <= |ns|
  {
    var m := StatesReported(names, true, ns[..k]);
    AllKnown(m) && IsAggregate(m, target)
  }

  lemma HandledReachesIff(c: Collector, ns: seq<Note>, k: nat)
    requires Asked(c) && c.waitMode && k <= |ns|
    ensures HandledReaches(c, ns, k) <==> ReachedAfter(c.states.Keys, c.target, ns, k)
  {
    CollectsWhatIsReported(c, ns[..k]);
    HandleAllKeepsRequest(c, ns[..k]);
  }

  /**
    In wait mode, for every series of notifications that report known states:
    the event is raised if and only if the reported states reach the target on
    the way.
   */
  lemma FinishedIffReached(c: Collector, ns: seq<Note>)
    requires Asked(c) && c.waitMode && AllKnownNotes(ns)
    ensures HandleAll(c, ns).finishes > 0 <==>
            exists k: nat :: k <= |ns| && ReachedAfter(c.states.Keys, c.target, ns, k)
  {
    AskedIsInv(c);
    assert c.states.Keys != {};
    var name :| name in c.states.Keys;
    assert c.states[name] == Unknown;
    if HandleAll(c, ns).finishes > 0 {
      var k := FinishedMeansReachedOnTheWay(c, ns);
      HandledReachesIff(c, ns, k);
    }
    if k: nat :| k <= |ns| && ReachedAfter(c.states.Keys, c.target, ns, k) {
      HandledReachesIff(c, ns, k);
      ReachedMeansFinished(c, ns, k);
    }
  }

  /** In query mode, whatever is reported: the event is raised once, when as many responses were counted as asked for. */
  lemma {:induction false} QueryFinishesOnce(c: Collector, ns: seq<Note>)
    requires !c.waitMode && c.responses <= |c.states|
    requires c.finishes == if c.responses == |c.states| then 1 else 0
    ensures var r := HandleAll(c, ns);
            r.responses <= |r.states| && r.finishes == if r.responses == |r.states| then 1 else 0
    decreases |ns|
  {
    if ns != [] {
      if ns[0].sender in c.states {
        RecordKeepsSize(c, ns[0].sender, if ns[0].PropertyNote? then Named(ns[0].parsed) else ns[0].state);
      }
      QueryFinishesOnce(Handle(c, ns[0]), ns[1..]);
    }
  }

  /** By how much one report moves the counter away from the known entries. */
  lemma RecordMoves(c: Collector, name: string, s: FepState)
    requires name in c.states
    ensures var r := Record(c, name, s);
            r.responses - |KnownOf(r.states)| == c.responses - |KnownOf(c.states)| + if s == Unknown then 1 else 0
  {
    KnownAfter(c.states, name, s);
    CardinalityAfter(KnownOf(c.states), name);
  }

  lemma {:induction false} QueryCounts(c: Collector, ns: seq<Note>)
    requires Asked(c) && !c.waitMode
    ensures var r := HandleAll(c, ns);
            r.responses == |KnownOf(r.states)| + UnknownsIn(c.states.Keys, false, ns)
    decreases |ns|
  {
    if ns == [] {
      assert KnownOf(c.states) == {};
    } else {
      var before, n := ns[..|ns| - 1], ns[|ns| - 1];
      assert ns == before + [n];
      var d := HandleAll(c, before);
      QueryCounts(c, before);
      HandleLast(c, before, n);
      CollectsWhatIsReported(c, before);
      HandleAllKeepsRequest(c, before);
      assert |d.states| == |d.states.Keys| == |c.states.Keys|;
      if n.PropertyNote? && n.sender in c.states {
        RecordMoves(d, n.sender, Named(n.parsed));
      }
    }
  }

  lemma KnownCount(m: States)
    ensures |KnownOf(m)| <= |m|
    ensures |KnownOf(m)| == |m| <==> AllKnown(m)
  {
    ExactMeansAllKnown(Collector(m, |KnownOf(m)|, false, Running, 0));
  }

  /**
    In query mode, whatever is reported: the counter is too high by the number
    of reports of the unknown state that were taken.  A query that has ended
    has ended rightly, with an answer of everybody, if and only if there was no
    such report; and while it has not ended, somebody has not answered.
   */
  lemma QueryEndsRightlyIff(c: Collector, ns: seq<Note>)
    requires Asked(c) && !c.waitMode
    ensures var r := HandleAll(c, ns);
            && r.responses == |KnownOf(r.states)| + UnknownsIn(c.states.Keys, false, ns)
            && (Exact(r) <==> UnknownsIn(c.states.Keys, false, ns) == 0)
            && (r.finishes > 0 ==> (AllKnown(r.states) <==> UnknownsIn(c.states.Keys, false, ns) == 0))
            && (r.finishes == 0 ==> !AllKnown(r.states))
  {
    QueryCounts(c, ns);
    QueryFinishesOnce(c, ns);
    KnownCount(HandleAll(c, ns).states);
  }

  /**
    Reports of the unknown state are counted again and again: with two
    participants, two such reports of one of them end the query although
    nobody has answered.
   */
  lemma UnknownReportsEndQuery(c: Collector, a: string, b: string, note: Note)
    requires a != b && c == Collector(map[a := Unknown, b := Unknown], 0, false, Running, 0)
    requires note == PropertyNote(a, true, Some(Unknown))
    ensures var r := HandleAll(c, [note, note]);
            r.finishes == 1 && forall k :: k in r.states ==> r.states[k] == Unknown
  {
    assert c.states.Keys == {a, b};
    RecordKeepsSize(c, a, Unknown);
    var d := Handle(c, note);
    assert c.states[a := Unknown] == c.states;
    assert d == c.(responses := 1);
    assert [note, note][1..] == [note] && [note][1..] == [];
    assert HandleAll(c, [note, note]) == HandleAll(d, [note]) == Handle(d, note);
  }

  /** How a request ends. */
  lemma RequestEnds(c: Collector, ns: seq<Note>)
    requires Asked(c) && (c.waitMode ==> AllKnownNotes(ns))
    ensures var r := HandleAll(c, ns);
            && r.states == StatesReported(c.states.Keys, c.waitMode, ns)
            && r.responses == FirstAnswers(c.states.Keys, c.waitMode, ns)
            && (AllKnownNotes(ns) && r.finishes > 0 ==> AllKnown(r.states))
            && (AllKnownNotes(ns) && !c.waitMode ==> r.finishes == if AllKnown(r.states) then 1 else 0)
            && (c.waitMode ==>
                  (r.finishes > 0 <==> exists k: nat :: k <= |ns| && ReachedAfter(c.states.Keys, c.target, ns, k)))
            && (!c.waitMode ==> (r.finishes > 0 <==> r.responses == |r.states|))
            && (!c.waitMode && r.finishes > 0 ==> (AllKnown(r.states) <==> UnknownsIn(c.states.Keys, false, ns) == 0))
            && (!c.waitMode && r.finishes == 0 ==> !AllKnown(r.states))
  {
    AskedIsInv(c);
    CollectsWhatIsReported(c, ns);
    if AllKnownNotes(ns) {
      RunKept(c, ns);
    }
    if c.waitMode {
      FinishedIffReached(c, ns);
    } else {
      QueryFinishesOnce(c, ns);
      QueryEndsRightlyIff(c, ns);
    }
  }

  // ------------------------------------------------------------------- class

  class SystemStateCollector {
    var states: States
    var responses: nat
    var waitMode: bool
    var target: FepState
    var listening: bool
    var finishes: nat

    ghost function Value(): (c: Collector)
      reads this
    {
      Collector(states, responses, waitMode, target, finishes)
    }

    constructor (waitMode: bool, target: FepState)
      ensures Value() == Collector(map[], 0, waitMode, target, 0) && !listening
    {
      states, responses, listening, finishes := map[], 0, false, 0;
      this.waitMode, this.target := waitMode, target;
    }

    static predicate IsElement(name: string) {
      name != "" && '?' !in name && '*' !in name
    }

    /** `trim` is the string trimming of the utility library. */
    method Init(elements: seq<string>, trim: string -> string) returns (res: Result)
      modifies this`states
      ensures res == if elements != [] && (forall i :: 0 <= i < |elements| ==> IsElement(trim(elements[i])))
                     then Ok else InvalidArg
      ensures res == Ok ==>
                && states.Keys == (set i | 0 <= i < |elements| :: trim(elements[i]))
                && forall k :: k in states ==> states[k] == Unknown
      ensures res != Ok ==> states == map[]
    {
      states := map[];
      if elements == [] {
        return InvalidArg;
      }
      res := Ok;
      var idx := 0;
      while idx < |elements| && res == Ok
        invariant idx <= |elements|
        invariant res == Ok || res == InvalidArg
        invariant res == Ok ==>
                    && (forall i :: 0 <= i < idx ==> IsElement(trim(elements[i])))
                    && states.Keys == (set i | 0 <= i < idx :: trim(elements[i]))
                    && forall k :: k in states ==> states[k] == Unknown
        invariant res != Ok ==> exists i :: 0 <= i < |elements| && !IsElement(trim(elements[i]))
        decreases |elements| - idx
      {
        var name := trim(elements[idx]);
        if IsElement(name) {
          if name !in states {
            states := states[name := Unknown];
          }
        } else {
          res := InvalidArg;
        }
        idx := idx + 1;
      }
      if res != Ok {
        states := map[];
      }
    }

    /** One request failed with the result, and all requests before it went through. */
    static ghost predicate StopsAt(transmit: string -> Result, asked: set<string>, last: string, res: Result) {
      last in asked && transmit(last) == res && forall k :: k in asked && k != last ==> transmit(k) == Ok
    }

    /** `transmit` is the command access; requests stop at the first failure. */
    method SendStateRequests(register: Result, transmit: string -> Result) returns (res: Result, asked: set<string>)
      modifies this`listening, this`responses
      ensures listening && responses == 0
      ensures asked <= states.Keys
      ensures res == Ok <==> register == Ok && forall k :: k in states ==> transmit(k) == Ok
      ensures res == Ok ==> asked == states.Keys
      ensures res != Ok ==>
                if register != Ok then res == register && asked == {}
                else exists last :: StopsAt(transmit, asked, last, res)
    {
      res, asked := register, {};
      listening, responses := true, 0;
      var rest := states.Keys;
      while rest != {} && res == Ok
        invariant listening && responses == 0
        invariant rest <= states.Keys && asked <= states.Keys
        invariant res == Ok ==> asked == states.Keys - rest && register == Ok
        invariant res == Ok ==> forall k :: k in asked ==> transmit(k) == Ok
        invariant res != Ok ==> register != Ok || exists k :: k in states && transmit(k) != Ok
        invariant register != Ok ==> res == register && asked == {}
        invariant register == Ok && res != Ok ==> exists last :: StopsAt(transmit, asked, last, res)
        decreases rest
      {
        var name :| name in rest;
        rest := rest - {name};
        asked := asked + {name};
        res := transmit(name);
        assert res != Ok ==> StopsAt(transmit, asked, name, res);
      }
    }

    /** The weight table is filled from the ordered states, then the minimum is looked up. */
    method GetAggregatedState() returns (s: FepState)
      requires AllKnown(states)
      ensures IsAggregate(states, s)
    {
      var weights := new nat[7];
      for i := 0 to 7
        invariant forall j :: 0 <= j < i ==> weights[Ordinal(BY_WEIGHT[j])] == j
      {
        assert forall j :: 0 <= j < i ==> Ordinal(BY_WEIGHT[j]) != Ordinal(BY_WEIGHT[i]);
        weights[Ordinal(BY_WEIGHT[i])] := i;
      }
      assert forall t: FepState :: t != Unknown ==> weights[Ordinal(t)] == Weight(t) by {
        forall t: FepState | t != Unknown ensures weights[Ordinal(t)] == Weight(t) {
          assert BY_WEIGHT[Weight(t)] == t;
        }
      }

      var min := weights[Ordinal(Running)];
      var rest := states.Keys;
      while rest != {}
        invariant rest <= states.Keys
        invariant min <= 6
        invariant forall k :: k in states && k !in rest ==> min <= Weight(states[k])
        invariant min == 6 || exists k :: k in states && Weight(states[k]) == min
        decreases rest
      {
        var name :| name in rest;
        if weights[Ordinal(states[name])] < min {
          min := weights[Ordinal(states[name])];
        }
        rest := rest - {name};
      }
      s := BY_WEIGHT[min];
    }

    method OnStateReceived(name: string, s: FepState)
      requires name in states && (waitMode ==> s != Unknown && Exact(Value()))
      modifies this
      ensures Value() == Report(old(Value()), name, s)
    {
      ghost var d := Record(Value(), name, s);
      if states[name] == Unknown {
        responses := responses + 1;
      }
      states := states[name := s];
      assert Value() == d;
      if responses == |states| {
        var reached := !waitMode;
        if waitMode {
          reached := CompareAggregate(old(Value()), name, s);
        }
        if reached {
          listening := false;
          finishes := finishes + 1;
        }
      }
    }

    /** With all answers in, compares the aggregate with the target. */
    method CompareAggregate(ghost before: Collector, ghost name: string, ghost s: FepState) returns (reached: bool)
      requires name in before.states && s != Unknown && Exact(before) && Value() == Record(before, name, s)
      requires waitMode && responses == |states|
      ensures reached <==> Finishes(Value())
    {
      RecordExactIff(before, name, s);
      ExactMeansAllKnown(Value());
      var aggregate := GetAggregatedState();
      AggregateDecides(Value(), aggregate);
      reached := aggregate == target;
    }

    method Update(n: Note)
      requires waitMode ==> Inv(Value()) && IsKnownNote(n)
      modifies this
      ensures Value() == Handle(old(Value()), n)
      ensures n.PropertyNote? && n.isState && n.parsed == None && n.sender in old(states)
              && old(responses) < |old(states)|
              ==> states == old(states)[n.sender := Shutdown]
    {
      match n {
        case PropertyNote(sender, isState, parsed) =>
          if responses < |states| && isState && sender in states {
            OnStateReceived(sender, Named(parsed));
          }
        case StateNote(sender, state) =>
          if waitMode && sender in states {
            OnStateReceived(sender, state);
          }
      }
    }

    /** Updates that arrive one after the other. */
    method UpdateAll(notes: seq<Note>)
      requires waitMode ==> Inv(Value()) && forall i :: 0 <= i < |notes| ==> IsKnownNote(notes[i])
      modifies this
      ensures Value() == HandleAll(old(Value()), notes)
    {
      for i := 0 to |notes|
        invariant waitMode == old(waitMode) && (waitMode ==> Inv(Value()))
        invariant HandleAll(Value(), notes[i..]) == HandleAll(old(Value()), notes)
      {
        assert notes[i..][1..] == notes[i + 1..];
        if waitMode {
          HandleKept(Value(), notes[i]);
        }
        Update(notes[i]);
      }
    }

    /** `notes` are the notifications that arrive before the wait ends; it succeeds when the event was raised. */
    method WaitForEvent(notes: seq<Note>) returns (res: Result)
      requires waitMode ==> Inv(Value()) && forall i :: 0 <= i < |notes| ==> IsKnownNote(notes[i])
      modifies this
      ensures Value() == HandleAll(old(Value()), notes)
      ensures res == (if finishes > 0 then Ok else Timeout) && !listening
    {
      UpdateAll(notes);
      res := if finishes > 0 then Ok else Timeout;
      listening := false;
    }

    /** The first two parts of a request: who is asked, and that nobody has answered. */
    method StartRequest(elements: seq<string>, trim: string -> string, register: Result, transmit: string -> Result)
      returns (res: Result)
      requires finishes == 0
      modifies this`states, this`listening, this`responses
      ensures res == Ok ==> Asked(Value()) && states.Keys == (set i | 0 <= i < |elements| :: trim(elements[i]))
      ensures res == Ok ==> register == Ok && forall k :: k in states ==> transmit(k) == Ok
    {
      res := Init(elements, trim);
      if res == Ok {
        assert trim(elements[0]) in states.Keys;
        var asked: set<string>;
        res, asked := SendStateRequests(register, transmit);
        assert states.Keys != {} && |states.Keys| > 0;
      }
    }

    /**
      One request for states.  Each participant is shown with the state it
      reported last.  In wait mode the request succeeds exactly if the reported
      states reach the target on the way.  In query mode, whatever is reported:
      it succeeds exactly if as many first answers came as participants were
      asked; then every distinct listed participant has answered if and only if
      no report of the unknown state was taken.  A timeout means that one has
      not answered.
     */
    method AskForStates(elements: seq<string>, trim: string -> string,
                        register: Result, transmit: string -> Result, notes: seq<Note>)
      returns (res: Result, started: Result, ghost start: Collector)
      requires finishes == 0
      requires waitMode ==> AllKnownNotes(notes)
      modifies this
      ensures waitMode == old(waitMode) && target == old(target)
      ensures started != Ok ==> res == started
      ensures started == Ok ==>
                && states.Keys == (set i | 0 <= i < |elements| :: trim(elements[i]))
                && Asked(start) && start.waitMode == waitMode && Value() == HandleAll(start, notes)
                && (res == Ok || res == Timeout) && !listening
      ensures started == Ok ==>
                && states == StatesReported(states.Keys, waitMode, notes)
                && responses == FirstAnswers(states.Keys, waitMode, notes)
      ensures started == Ok && AllKnownNotes(notes) && res == Ok ==> AllKnown(states) && (!waitMode ==> finishes == 1)
      ensures started == Ok && res == Timeout && !waitMode ==> !AllKnown(states)
      ensures started == Ok && res == Ok && !waitMode ==>
                (AllKnown(states) <==> UnknownsIn(states.Keys, false, notes) == 0)
      ensures started == Ok && waitMode ==>
                (res == Ok <==> exists k: nat :: k <= |notes| && ReachedAfter(states.Keys, target, notes, k))
      ensures started == Ok && !waitMode ==> (res == Ok <==> responses == |states|)
    {
      started := StartRequest(elements, trim, register, transmit);
      res, start := started, Value();
      if started == Ok {
        AskedIsInv(start);
        HandleAllKeepsRequest(start, notes);
        res := WaitForEvent(notes);
        RequestEnds(start, notes);
      }
    }
  }
}
