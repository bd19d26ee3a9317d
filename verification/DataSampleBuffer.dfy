/**
  The backlog class: each method runs under the backlog lock, so a call is one
  atomic step.  Every method is proved against the function of SampleBacklog
  that specifies it; what those functions guarantee is proved there and in
  BacklogRuns and SlidingWindow.
 */
module DataSampleBuffer {
  import opened Results
  import opened SampleBacklog
  import opened BacklogRuns
  import SlidingWindow

  /** Sample selection flags; any other number is an unknown mechanism. */
  const SS_LATEST_SAMPLE: nat := 0
  const SS_NEAREST_SAMPLE: nat := 1

  // ------------------------------------------------------------- window waits

  /**
    One return of the waiting thread from the condition variable: the backlog
    other threads left behind, whether the wait ended by notification (or
    spuriously) rather than by timeout, and whether shutdown was requested.
    Running out of wakes means the deadline has passed.
   */
  datatype Wake = Wake(after: Backlog, notified: bool, shutdown: bool)

  ghost predicate NeverDrained(wakes: seq<Wake>) {
    forall i :: 0 <= i < |wakes| ==> |wakes[i].after.slots| > 0
  }

  function NewestTime(b: Backlog): (t: int)
    requires |b.slots| > 0
  {
    b.slots[|b.slots| - 1].tm
  }

  /** Does this wake end the wait, and with which result? */
  function Verdict(lo: int, hi: int, wake: Wake): (r: Option<Result>)
    requires |wake.after.slots| > 0
  {
    if wake.notified && NewestTime(wake.after) >= lo then
      Some(if NewestTime(wake.after) <= hi then Ok else Timeout)
    else if wake.shutdown then Some(Cancelled)
    else None
  }

  /** The result of a wait, and how many wakes it took. */
  ghost function WaitOutcome(lo: int, hi: int, wakes: seq<Wake>): (r: (Result, nat))
    requires NeverDrained(wakes)
    ensures r.1 <= |wakes|
    ensures r.0 == Ok ==> r.1 > 0
    ensures r.0 == Ok ==> wakes[r.1 - 1].notified && lo <= NewestTime(wakes[r.1 - 1].after) <= hi
    decreases |wakes|
  {
    if wakes == [] then (Timeout, 0)
    else if Verdict(lo, hi, wakes[0]).Some? then (Verdict(lo, hi, wakes[0]).value, 1)
    else
      var (res, n) := WaitOutcome(lo, hi, wakes[1..]);
      (res, n + 1)
  }

  /** The wait ends with the first wake that has a verdict. */
  lemma {:induction false} FirstVerdict(lo: int, hi: int, wakes: seq<Wake>, k: nat)
    requires NeverDrained(wakes) && k <= |wakes|
    requires forall i :: 0 <= i < k ==> Verdict(lo, hi, wakes[i]) == None
    ensures k == |wakes| ==> WaitOutcome(lo, hi, wakes) == (Timeout, k)
    ensures k < |wakes| && Verdict(lo, hi, wakes[k]).Some? ==>
              WaitOutcome(lo, hi, wakes) == (Verdict(lo, hi, wakes[k]).value, k + 1)
    decreases k
  {
    if k > 0 {
      FirstVerdict(lo, hi, wakes[1..], k - 1);
    }
  }

  /** The newest slot not after `hi` decides whether any slot is in the window. */
  lemma WindowByUpperBound(s: seq<Slot>, lo: int, hi: int)
    requires Sorted(s)
    ensures InWindow(s, lo, hi) <==> UpperBound(s, hi) > 0 && s[UpperBound(s, hi) - 1].tm >= lo
  {
    var k := UpperBound(s, hi);
    assert forall i :: k <= i < |s| ==> s[i].tm > hi;
    if InWindow(s, lo, hi) {
      var i :| 0 <= i < |s| && lo <= s[i].tm <= hi;
      assert i < k && s[i].tm <= s[k - 1].tm;
    }
  }

  /** What the last wake-up says about the result of a wait. */
  lemma {:induction false} LastWakeDecides(lo: int, hi: int, wakes: seq<Wake>)
    requires NeverDrained(wakes)
    ensures var (res, used) := WaitOutcome(lo, hi, wakes);
            && (used == 0 ==> wakes == [] && res == Timeout)
            && (used > 0 ==>
                  match Verdict(lo, hi, wakes[used - 1])
                  case Some(v) => res == v
                  case None => res == Timeout && used == |wakes|)
    decreases |wakes|
  {
    if wakes != [] && Verdict(lo, hi, wakes[0]).None? {
      LastWakeDecides(lo, hi, wakes[1..]);
    }
  }

  /** This wake-up ends the wait: the newest sample has reached the window, or shutdown was requested. */
  ghost predicate Ends(lo: int, wake: Wake)
    requires |wake.after.slots| > 0
  {
    (wake.notified && NewestTime(wake.after) >= lo) || wake.shutdown
  }

  /**
    A wait ends with the first wake-up that ends it.  It succeeds if that is a
    notification with the newest sample in the window, is cancelled if it is a
    shutdown with no such sample at or behind the start of the window, and has
    timed out otherwise.
   */
  lemma {:induction false} WaitEndsIff(lo: int, hi: int, wakes: seq<Wake>)
    requires NeverDrained(wakes)
    ensures var (res, used) := WaitOutcome(lo, hi, wakes);
            && (forall i :: 0 <= i < used - 1 ==> !Ends(lo, wakes[i]))
            && (used < |wakes| ==> used > 0 && Ends(lo, wakes[used - 1]))
            && (res == Ok <==>
                  used > 0 && wakes[used - 1].notified && lo <= NewestTime(wakes[used - 1].after) <= hi)
            && (res == Cancelled <==>
                  used > 0 && wakes[used - 1].shutdown
                  && !(wakes[used - 1].notified && NewestTime(wakes[used - 1].after) >= lo))
            && (res == Timeout || res == Ok || res == Cancelled)
    decreases |wakes|
  {
    if wakes != [] && !Ends(lo, wakes[0]) {
      WaitEndsIff(lo, hi, wakes[1..]);
      var (res, used) := WaitOutcome(lo, hi, wakes);
      forall i | 0 <= i < used - 1 ensures !Ends(lo, wakes[i]) {
        if i > 0 {
          assert wakes[i] == wakes[1..][i - 1];
        }
      }
    }
  }

  /** The backlog at the return of a wait. */
  ghost function Left(before: Backlog, wakes: seq<Wake>, used: nat): (b: Backlog)
    requires used <= |wakes|
  {
    if used == 0 then before else wakes[used - 1].after
  }

  /** Result and number of wake-ups of a whole call that starts on the given backlog. */
  ghost function WindowOutcome(lo: int, hi: int, before: Backlog, wakes: seq<Wake>): (r: (Result, nat))
    requires |before.slots| > 0 && NeverDrained(wakes)
    ensures r.1 <= |wakes|
  {
    if lo > hi then (InvalidArg, 0)
    else if NewestTime(before) >= lo then (if InWindow(before.slots, lo, hi) then Ok else Failed, 0)
    else WaitOutcome(lo, hi, wakes)
  }

  /** Whatever arrives during the call, success means a sample in the window at its return. */
  lemma SuccessMeansInWindow(lo: int, hi: int, before: Backlog, wakes: seq<Wake>)
    requires |before.slots| > 0 && NeverDrained(wakes)
    requires WindowOutcome(lo, hi, before, wakes).0 == Ok
    ensures InWindow(Left(before, wakes, WindowOutcome(lo, hi, before, wakes).1).slots, lo, hi)
  {
    var (res, used) := WindowOutcome(lo, hi, before, wakes);
    if used > 0 {
      var s := wakes[used - 1].after.slots;
      assert lo <= s[|s| - 1].tm <= hi;
    }
  }

  /**
    A call that waits and leaves a sample in the window behind reports success
    if and only if its last wake-up was a notification and the newest sample
    was not beyond the window.
   */
  lemma WaitSeesSampleIff(lo: int, hi: int, before: Backlog, wakes: seq<Wake>)
    requires NeverDrained(wakes) && |before.slots| > 0 && Sorted(before.slots) && NewestTime(before) < lo
    requires forall i :: 0 <= i < |wakes| ==> Sorted(wakes[i].after.slots)
    ensures var (res, used) := WaitOutcome(lo, hi, wakes);
            InWindow(Left(before, wakes, used).slots, lo, hi) ==>
              used > 0 && (res == Ok <==> wakes[used - 1].notified && NewestTime(wakes[used - 1].after) <= hi)
  {
    var (res, used) := WaitOutcome(lo, hi, wakes);
    var b := Left(before, wakes, used);
    LastWakeDecides(lo, hi, wakes);
    if InWindow(b.slots, lo, hi) {
      NewestReaches(b.slots, lo, hi);
    }
  }

  lemma NewestReaches(s: seq<Slot>, lo: int, hi: int)
    requires Sorted(s) && InWindow(s, lo, hi)
    ensures |s| > 0 && s[|s| - 1].tm >= lo
  {
    var i :| 0 <= i < |s| && lo <= s[i].tm <= hi;
    assert s[i].tm <= s[|s| - 1].tm;
  }

  /** An in-order arrival at an unlocked backlog of two. */
  lemma ArrivalAtTwo(b: Backlog, x: Sample)
    requires |b.slots| == 2 && Sorted(b.slots) && b.slots[0].locks == 0 && b.slots[1].tm <= x.time
    ensures Update(b, x).0.slots == [b.slots[1], b.slots[0].(tm := x.time)]
  {
    assert FirstReusable(b.slots) == 0;
    SlidingWindow.ReuseMoves(b.slots, b.slots[0].(tm := x.time));
    assert b.slots[1..] == [b.slots[1]];
  }

  /** Two in-order arrivals at a backlog of two that was just registered. */
  lemma TwoArrivalsAtTwo(n: Size, d: Data, x: Sample, y: Sample)
    requires n == 2 && 0 <= x.time <= y.time
    ensures var b := BacklogRuns.Registered(n, d);
            var b1 := SampleBacklog.Update(b, x).0;
            var b2 := SampleBacklog.Update(b1, y).0;
            && |b.slots| == |b1.slots| == |b2.slots| == 2 && b.slots[1].tm == 0
            && b1.slots[1].tm == x.time && b2.slots[0].tm == x.time && b2.slots[1].tm == y.time
  {
    var b := BacklogRuns.Registered(n, d);
    RegisteredShape(n, d);
    ArrivalAtTwo(b, x);
    ArrivalAtTwo(SampleBacklog.Update(b, x).0, y);
  }

  /**
    A call on a registered backlog that misses a sample: two arrivals, the
    first of them in the window, before the notified thread runs.
   */
  lemma WaitMissesOlderSample(n: Size, d: Data, lo: int, hi: int, x: Data, y: Data, wakes: seq<Wake>)
    requires n == 2 && 0 < lo <= hi
    requires var b := SampleBacklog.Update(BacklogRuns.Registered(n, d), Sample(lo, x)).0;
             wakes == [Wake(SampleBacklog.Update(b, Sample(hi + 1, y)).0, true, false)]
    ensures |wakes| == 1 && NeverDrained(wakes)
    ensures WindowOutcome(lo, hi, BacklogRuns.Registered(n, d), wakes) == (Timeout, 1)
    ensures InWindow(wakes[0].after.slots, lo, hi)
  {
    TwoArrivalsAtTwo(n, d, Sample(lo, x), Sample(hi + 1, y));
    FirstVerdict(lo, hi, wakes, 0);
    assert lo <= wakes[0].after.slots[0].tm <= hi;
  }

  /** A call on a registered backlog that misses a sample: it arrives while the last wait times out. */
  lemma WaitMissesLateSample(n: Size, d: Data, lo: int, hi: int, x: Data, wakes: seq<Wake>)
    requires n == 2 && 0 < lo <= hi
    requires wakes == [Wake(SampleBacklog.Update(BacklogRuns.Registered(n, d), Sample(lo, x)).0, false, false)]
    ensures |wakes| == 1 && NeverDrained(wakes)
    ensures WindowOutcome(lo, hi, BacklogRuns.Registered(n, d), wakes) == (Timeout, 1)
    ensures InWindow(wakes[0].after.slots, lo, hi)
  {
    TwoArrivalsAtTwo(n, d, Sample(lo, x), Sample(lo, x));
    FirstVerdict(lo, hi, wakes[1..], 0);
    assert lo <= wakes[0].after.slots[1].tm <= hi;
  }

  lemma LockedIsSelected(b: Backlog, time: int)
    ensures |b.slots| > 0 && Sorted(b.slots) ==>
              forall x :: x in b.slots ==> x.tm <= b.slots[SelectLatest(b.slots)].tm
    ensures Valid(b) && Live(b) ==> IsNearest(b.slots, time, SelectNearest(b.slots, time))
  {
    if |b.slots| > 0 && Sorted(b.slots) {
      LatestIsNewest(b);
    }
    if Valid(b) && Live(b) {
      NearestIsMinimal(b, time);
    }
  }

  /** The memory holds exactly the samples of the two stores; part of Valid. */
  ghost predicate Housed(b: Backlog) {
    && (forall i :: 0 <= i < |b.slots| ==> b.slots[i].ref in b.memory)
    && b.memory.Keys == Refs(b.slots) + Refs(b.deleted)
    && Refs(b.slots) !! Refs(b.deleted)
  }

  lemma EmptiedNext(s: seq<Slot>, i: nat)
    requires i < |s|
    ensures Emptied(s[..i + 1]) == Emptied(s[..i]) + [Slot(EMPTY, s[i].ref, 0)]
  {
  }

  lemma RefsSplit(s: seq<Slot>)
    requires s != []
    ensures Refs(s) == {s[0].ref} + Refs(s[1..])
  {
    assert s == [s[0]] + s[1..];
    assert forall x :: x in s <==> x == s[0] || x in s[1..];
  }

  /** The memory after all slots were emptied, the default sample was set and the deleted slots were dropped. */
  lemma ClearedMemory(b: Backlog, d: Data, m: map<Ref, Sample>)
    requires |b.slots| > 0 && Housed(b)
    requires m.Keys == b.memory.Keys - Refs(b.deleted)
    requires forall i :: 0 <= i < |b.slots| && b.slots[i].ref in m ==>
               m[b.slots[i].ref] == if b.slots[i].ref == b.slots[0].ref then Sample(0, d) else Sample(EMPTY, 0)
    ensures m == Cleared(b, d).memory
  {
    var c := Cleared(b, d).memory;
    assert m.Keys == Refs(b.slots);
    assert c.Keys == Refs(b.slots);
    forall p | p in m.Keys ensures m[p] == c[p] {
      var i :| 0 <= i < |b.slots| && b.slots[i].ref == p;
    }
  }

  // -------------------------------------------------------------------- class

  class Buffer {
    var slots: seq<Slot>
    var deleted: seq<Slot>
    var memory: map<Ref, Sample>
    var nextRef: Ref
    var latest: int

    ghost function Value(): (b: Backlog)
      reads this
    {
      Backlog(slots, deleted, memory, nextRef, latest)
    }

    /** The backlog of a freshly registered signal. */
    constructor Registered(n: Size, d: Data)
      ensures Value() == BacklogRuns.Registered(n, d)
    {
      slots, deleted, memory, nextRef, latest := [], [], map[], 0, EMPTY;
      new;
      assert Value() == NOTHING;
      ghost var filled := Grow(Value(), n - 1);
      for i := 0 to n - 1
        invariant |slots| == i
        invariant Grow(Value(), n - 1) == filled
      {
        InsertNew(EMPTY, 0);
      }
      InsertNew(0, d);
    }

    /** Creates a sample object and inserts a slot for it. */
    method InsertNew(time: int, d: Data)
      modifies this
      ensures Value() == AddSlot(old(Value()), time, d)
    {
      memory := memory[nextRef := Sample(time, d)];
      slots := Insert(slots, Slot(time, nextRef, 0));
      nextRef := nextRef + 1;
    }

    /** The nearest-sample search. */
    method FindNearest(tmSimulation: int) returns (matched: nat)
      requires |slots| > 0
      ensures matched == SelectNearest(slots, tmSimulation)
    {
      var t := if tmSimulation < 0 then 0 else tmSimulation;
      var it := LowerBound(slots, t);
      if it == |slots| {
        matched := |slots| - 1;
      } else if slots[it].tm == t {
        matched := it;
      } else if it == 0 || slots[it - 1].tm == EMPTY {
        matched := it;
      } else {
        var newer, older := slots[it].tm - t, t - slots[it - 1].tm;
        matched := if newer <= older then it else it - 1;
      }
    }

    method LockDataAt(tmSimulation: int, flags: nat) returns (res: Result, sample: Option<Ref>, valid: bool)
      requires flags == SS_LATEST_SAMPLE || flags == SS_NEAREST_SAMPLE ==> |slots| > 0
      modifies this
      ensures flags == SS_LATEST_SAMPLE || flags == SS_NEAREST_SAMPLE ==>
                var i := if flags == SS_LATEST_SAMPLE then SelectLatest(old(slots))
                         else SelectNearest(old(slots), tmSimulation);
                res == Ok && sample == Some(old(slots)[i].ref) && Value() == LockSlot(old(Value()), i)
      ensures flags == SS_LATEST_SAMPLE && Sorted(old(slots)) ==>
                forall x :: x in old(slots) ==> x.tm <= old(slots)[SelectLatest(old(slots))].tm
      ensures flags == SS_NEAREST_SAMPLE && Valid(old(Value())) && Live(old(Value())) ==>
                IsNearest(old(slots), tmSimulation, SelectNearest(old(slots), tmSimulation))
      ensures flags != SS_LATEST_SAMPLE && flags != SS_NEAREST_SAMPLE ==>
                res == NotFound && sample == None && Value() == old(Value())
      ensures valid == (res == Ok && latest >= 0)
    {
      res, sample, valid := Ok, None, false;
      var matched := |slots|;
      LockedIsSelected(Value(), tmSimulation);
      if flags == SS_LATEST_SAMPLE {
        matched := |slots| - 1;
      } else if flags == SS_NEAREST_SAMPLE {
        matched := FindNearest(tmSimulation);
      } else {
        res := InvalidArg;
      }

      if matched != |slots| {
        sample := Some(slots[matched].ref);
        slots := slots[matched := slots[matched].(locks := slots[matched].locks + 1)];
        valid := latest >= 0;
      } else {
        res := NotFound;
      }
    }

    method LockDataAtUpperBound(bound: int) returns (res: Result, sample: Option<Ref>, valid: bool)
      modifies this
      ensures match SelectUpperBound(old(slots), bound)
              case Some(i) => res == Ok && sample == Some(old(slots)[i].ref) && Value() == LockSlot(old(Value()), i)
              case None => res == NotFound && sample == None && Value() == old(Value())
      ensures valid == (res == Ok && latest >= 0)
    {
      res, sample, valid := Ok, None, false;
      var it := UpperBound(slots, bound);
      if it != 0 {
        it := it - 1;
        sample := Some(slots[it].ref);
        slots := slots[it := slots[it].(locks := slots[it].locks + 1)];
        valid := latest >= 0;
      } else {
        res := NotFound;
      }
    }

    /** Position of `p` among the slots of time `t`; |s| if there is none. */
    static method FindInRange(s: seq<Slot>, p: Ref, t: int) returns (k: nat)
      requires Sorted(s)
      ensures k == FindSlot(s, p, t)
    {
      var first, last := LowerBound(s, t), UpperBound(s, t);
      assert forall i :: last <= i < |s| ==> s[i].tm > t;
      while first < last
        invariant first <= |s|
        invariant forall i :: 0 <= i < first ==> s[i].ref != p || s[i].tm != t
        decreases last - first
      {
        if s[first].ref == p {
          assert s[first].tm == t by {
            assert s[LowerBound(s, t)].tm <= s[first].tm;
          }
          return first;
        }
        first := first + 1;
      }
      k := |s|;
      assert FindSlot(s, p, t) == |s|;
    }

    /** `t` is the time the sample object itself reports. */
    method UnlockData(p: Ref, t: int) returns (res: Result)
      requires Sorted(slots) && Sorted(deleted)
      modifies this
      ensures (Value(), res) == Unlock(old(Value()), p, t)
    {
      res := Ok;
      var i := FindInRange(slots, p, t);
      if i != |slots| {
        if slots[i].locks > 0 {
          slots := slots[i := slots[i].(locks := slots[i].locks - 1)];
        } else {
          res := Failed;
        }
      } else {
        var j := FindInRange(deleted, p, t);
        if j != |deleted| {
          deleted := deleted[j := deleted[j].(locks := deleted[j].locks - 1)];
          if deleted[j].locks == 0 {
            memory := memory - {deleted[j].ref};
            deleted := RemoveAt(deleted, j);
            assert deleted == RemoveAt(old(deleted), j);
          }
        } else {
          res := InvalidArg;
        }
      }
    }

    method GetMostRecent() returns (t: int)
      requires |slots| > 0 && Sorted(slots)
      ensures t in (set x | x in slots :: x.tm)
      ensures forall x :: x in slots ==> x.tm <= t
    {
      t := slots[|slots| - 1].tm;
      assert slots[|slots| - 1] in slots;
    }

    method SignalBacklogChanged(n: nat)
      modifies this
      ensures Value() == Resize(old(Value()), n)
    {
      ghost var trimmed := Shrink(Value(), n);
      while |slots| > n
        invariant Shrink(Value(), n) == trimmed
        decreases |slots|
      {
        var it := slots[0];
        if it.locks > 0 {
          deleted := Insert(deleted, it);
        } else {
          memory := memory - {it.ref};
        }
        slots := RemoveAt(slots, 0);
      }
      ghost var fitted := Grow(Value(), n);
      while n > |slots|
        invariant Grow(Value(), n) == fitted
        decreases n - |slots|
      {
        InsertNew(EMPTY, 0);
      }
    }

    /** The part of ClearAll that concerns this backlog; `d` is the default content of the signal. */
    method Clear(d: Data)
      requires Housed(Value()) && |slots| > 0
      modifies this
      ensures Value() == Cleared(old(Value()), d)
    {
      ghost var b := Value();
      ClearSlots(d);
      DropDeleted();
      ClearedMemory(b, d, memory);
    }

    method ClearSlots(d: Data)
      requires |slots| > 0 && forall i :: 0 <= i < |slots| ==> slots[i].ref in memory
      modifies this`slots, this`memory
      ensures slots == Cleared(old(Value()), d).slots
      ensures memory.Keys == old(memory.Keys)
      ensures forall i :: 0 <= i < |old(slots)| ==>
                var p := old(slots)[i].ref;
                p in memory && memory[p] == if p == old(slots)[0].ref then Sample(0, d) else Sample(EMPTY, 0)
    {
      var newSlots := EmptySlots();
      TakeDefault(newSlots, d);
    }

    /** The first of the empty slots is reused for the default sample at time 0. */
    method TakeDefault(newSlots: seq<Slot>, d: Data)
      requires |newSlots| > 0 && forall i :: 0 <= i < |newSlots| ==> newSlots[i].tm == EMPTY
      modifies this`slots, this`memory
      ensures slots == newSlots[1..] + [Slot(0, newSlots[0].ref, 0)]
      ensures memory == old(memory)[newSlots[0].ref := Sample(0, d)]
    {
      var first, rest := newSlots[0].ref, newSlots[1..];
      memory := memory[first := Sample(0, d)];
      InsertLast(rest, Slot(0, first, 0));
      slots := Insert(rest, Slot(0, first, 0));
    }

    /** Empties the sample objects of all slots and builds the slots anew. */
    method EmptySlots() returns (newSlots: seq<Slot>)
      requires forall i :: 0 <= i < |slots| ==> slots[i].ref in memory
      modifies this`memory
      ensures newSlots == Emptied(slots)
      ensures memory.Keys == old(memory.Keys)
      ensures forall j :: 0 <= j < |slots| ==> slots[j].ref in memory && memory[slots[j].ref] == Sample(EMPTY, 0)
    {
      var s := slots;
      newSlots := [];
      for i := 0 to |s|
        invariant newSlots == Emptied(s[..i])
        invariant memory.Keys == old(memory.Keys)
        invariant forall j :: 0 <= j < i ==> s[j].ref in memory && memory[s[j].ref] == Sample(EMPTY, 0)
      {
        memory := memory[s[i].ref := Sample(EMPTY, 0)];
        InsertLast(newSlots, Slot(EMPTY, s[i].ref, 0));
        newSlots := Insert(newSlots, Slot(EMPTY, s[i].ref, 0));
        EmptiedNext(s, i);
      }
      assert s[..|s|] == s;
    }

    method DropDeleted()
      modifies this`deleted, this`memory
      ensures deleted == [] && memory == old(memory) - Refs(old(deleted))
    {
      ghost var dropped: set<Ref> := {};
      while deleted != []
        invariant dropped + Refs(deleted) == Refs(old(deleted))
        invariant memory == old(memory) - dropped
        decreases |deleted|
      {
        RefsSplit(deleted);
        dropped := dropped + {deleted[0].ref};
        memory := memory - {deleted[0].ref};
        deleted := deleted[1..];
      }
    }

    method Update(x: Sample) returns (res: Result)
      modifies this
      ensures (Value(), res) == SampleBacklog.Update(old(Value()), x)
    {
      res := Ok;
      var it := 0;
      while it != |slots|
        invariant it <= |slots|
        invariant forall i :: 0 <= i < it ==> slots[i].tm != EMPTY && slots[i].locks != 0
        decreases |slots| - it
      {
        if slots[it].tm == EMPTY || slots[it].locks == 0 {
          break;
        }
        it := it + 1;
      }
      assert it == FirstReusable(slots);
      if it != |slots| {
        var copy := slots[it].(tm := x.time);
        slots := RemoveAt(slots, it);
        latest := x.time;
        memory := memory[copy.ref := x];
        slots := Insert(slots, copy);
      } else {
        res := ResourceInUse;
      }
    }

    /**
      Success means that some slot lies in the window at return.  When the
      newest sample already reaches the window on entry, the call does not
      wait and succeeds exactly if such a slot exists.
     */
    method WaitUntilInTimeWindow(lo: int, hi: int, wakes: seq<Wake>) returns (res: Result, used: nat)
      requires |slots| > 0 && Sorted(slots) && NeverDrained(wakes)
      modifies this
      ensures used <= |wakes|
      ensures Value() == if used == 0 then old(Value()) else wakes[used - 1].after
      ensures lo > hi ==> res == InvalidArg && used == 0
      ensures lo <= hi && NewestTime(old(Value())) >= lo ==>
                used == 0 && res == if InWindow(slots, lo, hi) then Ok else Failed
      ensures lo <= hi && NewestTime(old(Value())) < lo ==> (res, used) == WaitOutcome(lo, hi, wakes)
      ensures (res, used) == WindowOutcome(lo, hi, old(Value()), wakes)
      ensures res == Ok ==> InWindow(slots, lo, hi)
    {
      if lo > hi {
        return InvalidArg, 0;
      }
      var mostRecent := slots[|slots| - 1].tm;
      if mostRecent >= lo {
        used := 0;
        WindowByUpperBound(slots, lo, hi);
        if mostRecent <= hi {
          res := Ok;
        } else {
          var it := UpperBound(slots, hi);
          res := if it != 0 && slots[it - 1].tm >= lo then Ok else Failed;
        }
      } else {
        res, used := WaitForNotification(lo, hi, wakes);
      }
    }

    /** Other threads have changed the backlog. */
    method Become(b: Backlog)
      modifies this
      ensures Value() == b
    {
      slots, deleted, memory, nextRef, latest := b.slots, b.deleted, b.memory, b.nextRef, b.latest;
    }

    /** The waiting part: the backlog may change during every wait. */
    method WaitForNotification(lo: int, hi: int, wakes: seq<Wake>) returns (res: Result, used: nat)
      requires |slots| > 0 && NeverDrained(wakes)
      modifies this
      ensures used <= |wakes| && |slots| > 0
      ensures Value() == if used == 0 then old(Value()) else wakes[used - 1].after
      ensures (res, used) == WaitOutcome(lo, hi, wakes)
    {
      res, used := Timeout, 0;
      while used < |wakes|
        invariant used <= |wakes| && |slots| > 0 && res == Timeout
        invariant Value() == if used == 0 then old(Value()) else wakes[used - 1].after
        invariant forall i :: 0 <= i < used ==> Verdict(lo, hi, wakes[i]) == None
      {
        var wake := wakes[used];
        FirstVerdict(lo, hi, wakes, used);
        Become(wake.after);
        used := used + 1;
        if wake.notified {
          var mostRecent := slots[|slots| - 1].tm;
          if mostRecent >= lo {
            res := if mostRecent <= hi then Ok else Timeout;
            return;
          }
        }
        if wake.shutdown {
          res := Cancelled;
          return;
        }
      }
      FirstVerdict(lo, hi, wakes, used);
    }
  }
}
