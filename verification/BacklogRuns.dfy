/**
  Whole runs of the backlog: any sequence of arrivals, resizes, clearings,
  locks and unlocks.  A world pairs the backlog with the locks callers hold on it.
 */
module BacklogRuns {
  import opened Results
  import opened SampleBacklog

  type Size = n: nat | n > 0 witness 1

  /** One call; a backlog never shrinks below one slot.  A lock that ClearAll voided is no longer held. */
  datatype Op =
    | Arrive(x: Sample)
    | ChangeBacklog(n: Size)
    | LockLatest
    | LockNearest(t: int)
    | LockBefore(t: int)
    | ClearAll(d: Data)                  // voids all locks
    | Release(p: Ref, foreignTime: int)  // foreignTime: the time of a sample that is not ours

  datatype World = World(b: Backlog, held: multiset<Ref>)

  function OwnTime(b: Backlog, p: Ref, foreignTime: int): (t: int)
  {
    if p in b.memory then b.memory[p].time else foreignTime
  }

  function Grant(w: World, i: nat): (r: World)
    requires i < |w.b.slots|
  {
    World(LockSlot(w.b, i), w.held + multiset{w.b.slots[i].ref})
  }

  function Step(w: World, op: Op): (r: (World, Result))
    requires |w.b.slots| > 0
    ensures |r.0.b.slots| > 0
  {
    match op
    case Arrive(x) =>
      var (b, res) := Update(w.b, x);
      (w.(b := b), res)
    case ChangeBacklog(n) => (w.(b := Resize(w.b, n)), Ok)
    case LockLatest => (Grant(w, SelectLatest(w.b.slots)), Ok)
    case LockNearest(t) => (Grant(w, SelectNearest(w.b.slots, t)), Ok)
    case LockBefore(t) =>
      (match SelectUpperBound(w.b.slots, t)
       case Some(i) => (Grant(w, i), Ok)
       case None => (w, NotFound))
    case ClearAll(d) => (World(Cleared(w.b, d), multiset{}), Ok)
    case Release(p, foreignTime) =>
      var (b, res) := Unlock(w.b, p, OwnTime(w.b, p, foreignTime));
      (World(b, if res.Ok? then w.held - multiset{p} else w.held), res)
  }

  function Run(w: World, ops: seq<Op>): (r: World)
    requires |w.b.slots| > 0
    decreases |ops|
  {
    if ops == [] then w else Run(Step(w, ops[0]).0, ops[1..])
  }

  // ---------------------------------------------------------- lock accounting

  /** Every lock count is the number of locks callers hold on that sample. */
  ghost predicate Accounted(w: World) {
    && Valid(w.b)
    && |w.b.slots| > 0
    && (forall x :: x in w.b.slots ==> x.locks == w.held[x.ref])
    && (forall x :: x in w.b.deleted ==> x.locks == w.held[x.ref])
    && (forall p :: p in w.held ==> p in w.b.memory)
  }

  lemma SlotOf(b: Backlog, p: Ref) returns (x: Slot)
    requires Valid(b) && p in b.memory
    ensures (x in b.slots || x in b.deleted) && x.ref == p && x.tm == b.memory[p].time
  {
    if p in Refs(b.slots) {
      x :| x in b.slots && x.ref == p;
    } else {
      x :| x in b.deleted && x.ref == p;
    }
  }

  lemma GrantAccounted(w: World, i: nat)
    requires Accounted(w) && i < |w.b.slots|
    ensures Accounted(Grant(w, i))
  {
    var x := w.b.slots[i];
    assert x in w.b.slots;
    RelockValid(w.b, i, x.locks + 1);
    RelockOrdered(w.b.slots, i, x.locks + 1);
    var r := Grant(w, i);
    forall y | y in r.b.slots ensures y.locks == r.held[y.ref] {
      if y != x.(locks := x.locks + 1) {
        assert y in w.b.slots && y != x;
        DistinctByRef(w.b.slots, x, y);
      }
    }
    forall y | y in r.b.deleted ensures y.locks == r.held[y.ref] {
      assert y.ref in Refs(w.b.deleted) && x.ref in Refs(w.b.slots);
    }
  }

  lemma DistinctByRef(s: seq<Slot>, x: Slot, y: Slot)
    requires Distinct(s) && x in s && y in s && x != y
    ensures x.ref != y.ref
  {
    var i :| 0 <= i < |s| && s[i] == x;
    var j :| 0 <= j < |s| && s[j] == y;
    assert i < j || j < i;
  }

  lemma ReuseAccounted(w: World, k: nat, x: Sample)
    requires Accounted(w) && k < |w.b.slots|
    ensures Accounted(w.(b := Reuse(w.b, k, x)))
  {
    var was := w.b.slots[k];
    assert was in w.b.slots;
    ReuseValid(w.b, k, x);
    RemoveOrdered(w.b.slots, k);
    InsertMembers(RemoveAt(w.b.slots, k), was.(tm := x.time));
  }

  lemma DropOldestAccounted(w: World)
    requires Accounted(w) && |w.b.slots| > 1
    ensures Accounted(w.(b := DropOldest(w.b)))
  {
    var x := w.b.slots[0];
    var r := DropOldest(w.b);
    assert x in w.b.slots;
    DropOldestValid(w.b);
    RemoveOrdered(w.b.slots, 0);
    if x.locks > 0 {
      InsertMembers(w.b.deleted, x);
    }
    forall p | p in w.held ensures p in r.memory {
      if x.locks <= 0 {
        assert w.held[x.ref] == 0;
      }
    }
  }

  lemma AddEmptyAccounted(w: World)
    requires Accounted(w)
    ensures Accounted(w.(b := AddEmpty(w.b)))
  {
    AddSlotValid(w.b, EMPTY, 0);
    InsertMembers(w.b.slots, Slot(EMPTY, w.b.nextRef, 0));
    assert w.b.nextRef !in w.held;
  }

  lemma {:induction false} ShrinkAccounted(w: World, n: Size)
    requires Accounted(w)
    ensures Accounted(w.(b := Shrink(w.b, n)))
    decreases |w.b.slots|
  {
    if |w.b.slots| > n {
      DropOldestAccounted(w);
      ShrinkAccounted(w.(b := DropOldest(w.b)), n);
    }
  }

  lemma {:induction false} GrowAccounted(w: World, n: Size)
    requires Accounted(w)
    ensures Accounted(w.(b := Grow(w.b, n)))
    decreases n - |w.b.slots|
  {
    if |w.b.slots| < n {
      AddEmptyAccounted(w);
      GrowAccounted(w.(b := AddEmpty(w.b)), n);
    }
  }

  /** The slot that an unlock of `p` finds, and why it finds one exactly then. */
  lemma UnlockFinds(w: World, p: Ref, foreignTime: int)
    requires Accounted(w)
    ensures var t := OwnTime(w.b, p, foreignTime);
            var i, j := FindSlot(w.b.slots, p, t), FindSlot(w.b.deleted, p, t);
            && (i < |w.b.slots| <==> p in Refs(w.b.slots))
            && (j < |w.b.deleted| <==> p in Refs(w.b.deleted))
  {
    if p in w.b.memory {
      var x := SlotOf(w.b, p);
    }
    assert forall y :: y in w.b.slots ==> y.ref in Refs(w.b.slots);
    assert forall y :: y in w.b.deleted ==> y.ref in Refs(w.b.deleted);
  }

  lemma UnlockSlotAccounted(w: World, i: nat)
    requires Accounted(w) && i < |w.b.slots| && w.b.slots[i].locks > 0
    ensures var x := w.b.slots[i];
            Accounted(World(Relock(w.b, i, x.locks - 1), w.held - multiset{x.ref}))
  {
    var x := w.b.slots[i];
    assert x in w.b.slots;
    RelockValid(w.b, i, x.locks - 1);
    RelockOrdered(w.b.slots, i, x.locks - 1);
    var r := World(Relock(w.b, i, x.locks - 1), w.held - multiset{x.ref});
    forall y | y in r.b.slots ensures y.locks == r.held[y.ref] {
      if y != x.(locks := x.locks - 1) {
        DistinctByRef(w.b.slots, x, y);
      }
    }
    forall y | y in r.b.deleted ensures y.locks == r.held[y.ref] {
      assert y.ref in Refs(w.b.deleted) && x.ref in Refs(w.b.slots);
    }
  }

  lemma UnlockDeletedAccounted(w: World, j: nat)
    requires Accounted(w) && j < |w.b.deleted|
    ensures Accounted(World(ReleaseDeleted(w.b, j), w.held - multiset{w.b.deleted[j].ref}))
  {
    var x := w.b.deleted[j];
    assert x in w.b.deleted;
    ReleaseDeletedValid(w.b, j);
    var r := World(ReleaseDeleted(w.b, j), w.held - multiset{x.ref});
    if x.locks == 1 {
      RemoveOrdered(w.b.deleted, j);
      forall y | y in r.b.deleted ensures y.locks == r.held[y.ref] {
        DistinctByRef(w.b.deleted, x, y);
      }
    } else {
      RelockOrdered(w.b.deleted, j, x.locks - 1);
      forall y | y in r.b.deleted ensures y.locks == r.held[y.ref] {
        if y != x.(locks := x.locks - 1) {
          DistinctByRef(w.b.deleted, x, y);
        }
      }
    }
    forall y | y in r.b.slots ensures y.locks == r.held[y.ref] {
      assert y.ref in Refs(w.b.slots) && x.ref in Refs(w.b.deleted);
    }
  }

  /** Which locks can be found where. */
  lemma HeldMeansLocked(w: World, p: Ref, foreignTime: int)
    requires Accounted(w)
    ensures var t := OwnTime(w.b, p, foreignTime);
            var i, j := FindSlot(w.b.slots, p, t), FindSlot(w.b.deleted, p, t);
            p in w.held <==> (i < |w.b.slots| && w.b.slots[i].locks > 0) || j < |w.b.deleted|
    ensures var t := OwnTime(w.b, p, foreignTime);
            FindSlot(w.b.slots, p, t) == |w.b.slots| || FindSlot(w.b.deleted, p, t) == |w.b.deleted|
  {
    var t := OwnTime(w.b, p, foreignTime);
    var i, j := FindSlot(w.b.slots, p, t), FindSlot(w.b.deleted, p, t);
    UnlockFinds(w, p, foreignTime);
    if i < |w.b.slots| {
      assert w.b.slots[i] in w.b.slots;
    }
    if j < |w.b.deleted| {
      assert w.b.deleted[j] in w.b.deleted;
    }
  }

  lemma UnlockCases(w: World, p: Ref, foreignTime: int, i: nat, j: nat)
    requires |w.b.slots| > 0
    requires i == FindSlot(w.b.slots, p, OwnTime(w.b, p, foreignTime))
    requires j == FindSlot(w.b.deleted, p, OwnTime(w.b, p, foreignTime))
    ensures var r := Step(w, Release(p, foreignTime));
            if i < |w.b.slots| then
              if w.b.slots[i].locks > 0 then
                r == (World(Relock(w.b, i, w.b.slots[i].locks - 1), w.held - multiset{w.b.slots[i].ref}), Ok)
              else r == (w, Failed)
            else if j < |w.b.deleted| then
              r == (World(ReleaseDeleted(w.b, j), w.held - multiset{w.b.deleted[j].ref}), Ok)
            else r == (w, InvalidArg)
  {
  }

  lemma UnlockAccounted(w: World, p: Ref, foreignTime: int)
    requires Accounted(w)
    ensures var (w', res) := Step(w, Release(p, foreignTime));
            && Accounted(w')
            && (res.Ok? <==> p in w.held)
            && (!res.Ok? ==> w' == w)
  {
    var t := OwnTime(w.b, p, foreignTime);
    var i, j := FindSlot(w.b.slots, p, t), FindSlot(w.b.deleted, p, t);
    HeldMeansLocked(w, p, foreignTime);
    UnlockCases(w, p, foreignTime, i, j);
    if i < |w.b.slots| {
      if w.b.slots[i].locks > 0 {
        UnlockSlotAccounted(w, i);
      }
    } else if j < |w.b.deleted| {
      UnlockDeletedAccounted(w, j);
    }
  }

  /** The result of an unlock: success, a sample that is not locked, or one that is not ours. */
  lemma UnlockResults(w: World, p: Ref, foreignTime: int)
    requires Accounted(w)
    ensures var res := Step(w, Release(p, foreignTime)).1;
            && (res == Ok <==> p in w.held)
            && (res == Failed <==> p in Refs(w.b.slots) && p !in w.held)
            && (res == InvalidArg <==> p !in w.b.memory)
  {
    var t := OwnTime(w.b, p, foreignTime);
    var i, j := FindSlot(w.b.slots, p, t), FindSlot(w.b.deleted, p, t);
    UnlockAccounted(w, p, foreignTime);
    UnlockFinds(w, p, foreignTime);
    UnlockCases(w, p, foreignTime, i, j);
  }

  lemma UpdateAccounted(w: World, x: Sample)
    requires Accounted(w)
    ensures Accounted(w.(b := Update(w.b, x).0))
  {
    if FirstReusable(w.b.slots) < |w.b.slots| {
      ReuseAccounted(w, FirstReusable(w.b.slots), x);
    }
  }

  lemma ResizeAccounted(w: World, n: Size)
    requires Accounted(w)
    ensures Accounted(w.(b := Resize(w.b, n)))
  {
    ShrinkAccounted(w, n);
    GrowAccounted(w.(b := Shrink(w.b, n)), n);
  }

  lemma LockIsGrant(w: World, op: Op) returns (i: nat)
    requires |w.b.slots| > 0 && (op.LockLatest? || op.LockNearest? || op.LockBefore?)
    ensures Step(w, op).0 != w ==> i < |w.b.slots| && Step(w, op).0 == Grant(w, i)
  {
    match op
    case LockLatest => i := SelectLatest(w.b.slots);
    case LockNearest(t) => i := SelectNearest(w.b.slots, t);
    case LockBefore(t) =>
      i := if SelectUpperBound(w.b.slots, t).Some? then SelectUpperBound(w.b.slots, t).value else 0;
  }

  lemma LockAccounted(w: World, op: Op)
    requires Accounted(w) && (op.LockLatest? || op.LockNearest? || op.LockBefore?)
    ensures Accounted(Step(w, op).0)
  {
    var i := LockIsGrant(w, op);
    if Step(w, op).0 != w {
      GrantAccounted(w, i);
    }
  }

  lemma ClearAccounted(w: World, d: Data)
    requires Accounted(w)
    ensures Accounted(World(Cleared(w.b, d), multiset{}))
  {
    ClearedValid(w.b, d);
    var r := Cleared(w.b, d).slots;
    forall y | y in r ensures y.locks == 0 {
      var i :| 0 <= i < |r| && r[i] == y;
      ClearedSlot(w.b, d, i);
    }
  }

  /**
    One call keeps the accounts, and an unlock succeeds exactly when the
    caller holds a lock on that sample, also after the backlog shrank.
   */
  lemma StepAccounted(w: World, op: Op)
    requires Accounted(w)
    ensures Accounted(Step(w, op).0)
    ensures op.Release? ==> (Step(w, op).1.Ok? <==> op.p in w.held)
  {
    match op
    case Arrive(x) => UpdateAccounted(w, x);
    case ChangeBacklog(n) => ResizeAccounted(w, n);
    case ClearAll(d) => ClearAccounted(w, d);
    case Release(p, foreignTime) => UnlockAccounted(w, p, foreignTime);
    case _ => LockAccounted(w, op);
  }

  lemma {:induction false} RunAccounted(w: World, ops: seq<Op>)
    requires Accounted(w)
    ensures Accounted(Run(w, ops))
    decreases |ops|
  {
    if ops != [] {
      StepAccounted(w, ops[0]);
      RunAccounted(Step(w, ops[0]).0, ops[1..]);
    }
  }

  // ------------------------------------------------------- registered backlog

  const NOTHING := Backlog([], [], map[], 0, EMPTY)

  /** The backlog right after registration: n-1 empty slots and the default sample at time 0. */
  function Registered(n: Size, d: Data): (b: Backlog)
    ensures |b.slots| == n
  {
    AddSlot(Grow(NOTHING, n - 1), 0, d)
  }

  ghost predicate AllEmpty(b: Backlog) {
    && Valid(b) && b.deleted == []
    && forall i :: 0 <= i < |b.slots| ==> b.slots[i].tm == EMPTY && b.slots[i].locks == 0
  }

  lemma AddEmptyAllEmpty(b: Backlog)
    requires AllEmpty(b)
    ensures AllEmpty(AddEmpty(b))
  {
    AddSlotValid(b, EMPTY, 0);
    InsertLast(b.slots, Slot(EMPTY, b.nextRef, 0));
  }

  lemma {:induction false} GrowAllEmpty(b: Backlog, n: nat)
    requires AllEmpty(b)
    ensures AllEmpty(Grow(b, n))
    decreases n - |b.slots|
  {
    if |b.slots| < n {
      AddEmptyAllEmpty(b);
      GrowAllEmpty(AddEmpty(b), n);
    }
  }

  lemma DefaultComesLast(e: Backlog, d: Data)
    requires AllEmpty(e)
    ensures AddSlot(e, 0, d).slots == e.slots + [Slot(0, e.nextRef, 0)]
  {
    InsertLast(e.slots, Slot(0, e.nextRef, 0));
  }

  lemma RegisteredShape(n: Size, d: Data)
    ensures var b := Registered(n, d);
            && Valid(b) && b.deleted == []
            && b.slots[n - 1].tm == 0 && b.slots[n - 1].locks == 0
            && b.slots[n - 1].ref in b.memory && b.memory[b.slots[n - 1].ref] == Sample(0, d)
            && forall i :: 0 <= i < n - 1 ==> b.slots[i].tm == EMPTY && b.slots[i].locks == 0
  {
    assert AllEmpty(NOTHING);
    GrowAllEmpty(NOTHING, n - 1);
    DefaultComesLast(Grow(NOTHING, n - 1), d);
    AddSlotValid(Grow(NOTHING, n - 1), 0, d);
  }

  lemma RegisteredIsAccounted(n: Size, d: Data)
    ensures Accounted(World(Registered(n, d), multiset{}))
    ensures Live(Registered(n, d))
  {
    RegisteredShape(n, d);
    var b := Registered(n, d);
    forall x | x in b.slots ensures x.locks == 0 {
      var i :| 0 <= i < |b.slots| && b.slots[i] == x;
      assert i < n - 1 || i == n - 1;
    }
  }

  /** Lock accounting for every run of a registered signal. */
  lemma LocksBalanceInEveryRun(n: Size, d: Data, ops: seq<Op>)
    ensures var w := Run(World(Registered(n, d), multiset{}), ops);
            && Accounted(w)
            && (forall x :: x in w.b.deleted ==> x.ref in w.held)
            && (forall p, t :: Step(w, Release(p, t)).1.Ok? <==> p in w.held)
  {
    RegisteredIsAccounted(n, d);
    var w := Run(World(Registered(n, d), multiset{}), ops);
    RunAccounted(World(Registered(n, d), multiset{}), ops);
    forall p, t ensures Step(w, Release(p, t)).1.Ok? <==> p in w.held {
      StepAccounted(w, Release(p, t));
    }
  }

  // --------------------------------------------------- locked samples are kept

  ghost predicate HeldThroughout(w: World, ops: seq<Op>, p: Ref)
    requires Accounted(w)
    decreases |ops|
  {
    p in w.held
    && (ops == [] || (StepAccounted(w, ops[0]); HeldThroughout(Step(w, ops[0]).0, ops[1..], p)))
  }

  lemma UpdateKeepsLocked(w: World, x: Sample, p: Ref)
    requires Accounted(w) && p in w.held
    ensures p in Update(w.b, x).0.memory
    ensures w.b.memory[p].time != EMPTY ==> Update(w.b, x).0.memory[p] == w.b.memory[p]
  {
    var k := FirstReusable(w.b.slots);
    if k < |w.b.slots| {
      assert w.b.slots[k] in w.b.slots;
    }
  }

  lemma {:induction false} ShrinkKeepsLocked(w: World, n: Size, p: Ref)
    requires Accounted(w) && p in w.held
    ensures var m := Shrink(w.b, n).memory; p in m && m[p] == w.b.memory[p]
    decreases |w.b.slots|
  {
    if |w.b.slots| > n {
      assert w.b.slots[0] in w.b.slots;
      DropOldestAccounted(w);
      ShrinkKeepsLocked(w.(b := DropOldest(w.b)), n, p);
    }
  }

  lemma {:induction false} GrowKeepsMemory(b: Backlog, n: nat, p: Ref)
    requires Valid(b) && p in b.memory
    ensures p in Grow(b, n).memory && Grow(b, n).memory[p] == b.memory[p]
    decreases n - |b.slots|
  {
    if |b.slots| < n {
      AddSlotValid(b, EMPTY, 0);
      GrowKeepsMemory(AddEmpty(b), n, p);
    }
  }

  lemma ReleaseKeepsLocked(w: World, q: Ref, t: int, p: Ref)
    requires Accounted(w) && p in Step(w, Release(q, t)).0.held
    ensures var m := Step(w, Release(q, t)).0.b.memory; p in m && m[p] == w.b.memory[p]
  {
    var own := OwnTime(w.b, q, t);
    var i, j := FindSlot(w.b.slots, q, own), FindSlot(w.b.deleted, q, own);
    assert p in w.held;
    if i == |w.b.slots| && j < |w.b.deleted| {
      var x := w.b.deleted[j];
      assert x in w.b.deleted && x.locks == w.held[x.ref];
      if x.locks == 1 {
        assert x.ref !in Step(w, Release(q, t)).0.held;
      }
    }
  }

  lemma StepKeepsLocked(w: World, op: Op, p: Ref)
    requires Accounted(w) && p in w.held && w.b.memory[p].time != EMPTY
    requires p in Step(w, op).0.held
    ensures var m := Step(w, op).0.b.memory; p in m && m[p] == w.b.memory[p]
  {
    match op
    case Arrive(x) => UpdateKeepsLocked(w, x, p);
    case ChangeBacklog(n) =>
      ShrinkKeepsLocked(w, n, p);
      ShrinkAccounted(w, n);
      GrowKeepsMemory(Shrink(w.b, n), n, p);
    case Release(q, t) => ReleaseKeepsLocked(w, q, t, p);
    case _ =>
  }

  /**
    While a caller holds a sample that was received, the sample object stays
    alive with the same time and content, whatever else is called.
   */
  lemma {:induction false} LockedSampleIsFrozen(w: World, ops: seq<Op>, p: Ref)
    requires Accounted(w) && HeldThroughout(w, ops, p) && w.b.memory[p].time != EMPTY
    ensures var m := Run(w, ops).b.memory; p in m && m[p] == w.b.memory[p]
    decreases |ops|
  {
    if ops != [] {
      StepAccounted(w, ops[0]);
      StepKeepsLocked(w, ops[0], p);
      LockedSampleIsFrozen(Step(w, ops[0]).0, ops[1..], p);
    }
  }

  /**
    The restriction to received samples is exact: an arrival rewrites a
    locked sample if and only if that sample sits in an empty slot and is the
    first slot that can be reused.
   */
  lemma ArrivalRewritesLockedIff(w: World, x: Sample, p: Ref)
    requires Accounted(w) && p in w.held && x != w.b.memory[p]
    ensures Update(w.b, x).0.memory[p] != w.b.memory[p]
            <==> p in Refs(w.b.slots) && w.b.memory[p].time == EMPTY
                 && FirstReusable(w.b.slots) == FindSlot(w.b.slots, p, EMPTY)
  {
    var k := FirstReusable(w.b.slots);
    UnlockFinds(w, p, 0);
    UpdateKeepsLocked(w, x, p);
    if k < |w.b.slots| {
      assert w.b.slots[k] in w.b.slots && w.b.slots[k].ref in Refs(w.b.slots);
      if w.b.slots[k].ref == p {
        assert w.b.slots[k].tm == EMPTY;
        var i := FindSlot(w.b.slots, p, EMPTY);
        assert i == k;
      }
    }
  }

  lemma LockEmptyThenOverwrite(w0: World, ops: seq<Op>, x: Sample)
    requires Accounted(w0) && |w0.b.slots| > 1 && ops == [LockBefore(EMPTY)]
    requires w0.b.slots[0].tm == EMPTY < w0.b.slots[1].tm && x.time != EMPTY
    ensures var w, p := Run(w0, ops), w0.b.slots[0].ref;
            && p in w.held && p in w.b.memory && p in Update(w.b, x).0.memory
            && Update(w.b, x).0.memory[p] != w.b.memory[p]
  {
    assert UpperBound(w0.b.slots, EMPTY) == 1;
    var w := Grant(w0, 0);
    assert ops[1..] == [] && Run(w0, ops) == w;
    GrantAccounted(w0, 0);
    assert w.b.slots[0].tm == EMPTY && w.b.slots[0] in w.b.slots;
    assert FirstReusable(w.b.slots) == 0;
  }

  /** A reachable locked sample that is overwritten: the caller locked an empty slot. */
  lemma LockedEmptySlotIsOverwritten(n: Size, d: Data, ops: seq<Op>, x: Sample)
    requires n == 2 && ops == [LockBefore(EMPTY)] && x.time != EMPTY
    ensures var w := Run(World(Registered(n, d), multiset{}), ops);
            exists p :: p in w.held && p in w.b.memory && p in Update(w.b, x).0.memory
                        && Update(w.b, x).0.memory[p] != w.b.memory[p]
  {
    RegisteredShape(n, d);
    RegisteredIsAccounted(n, d);
    LockEmptyThenOverwrite(World(Registered(n, d), multiset{}), ops, x);
  }

  // --------------------------------------------------------------- live runs

  /** Arrivals carry times from 0 on. */
  ghost predicate ProperArrivals(ops: seq<Op>) {
    forall i :: 0 <= i < |ops| && ops[i].Arrive? ==> ops[i].x.time >= 0
  }

  lemma InsertLive(s: seq<Slot>, x: Slot)
    requires Sorted(s) && x.tm >= EMPTY
    requires forall i :: 0 <= i < |s| ==> s[i].tm >= EMPTY
    requires x.tm != EMPTY || (|s| > 0 && s[|s| - 1].tm != EMPTY)
    ensures var r := Insert(s, x);
            && r[|s|].tm != EMPTY
            && forall i :: 0 <= i < |r| ==> r[i].tm >= EMPTY
  {
    var k, r := UpperBound(s, x.tm), Insert(s, x);
    forall i | 0 <= i < |r| ensures r[i].tm >= EMPTY {
      assert r[i] == if i < k then s[i] else if i == k then x else s[i - 1];
    }
    assert r[|s|] == if k == |s| then x else s[|s| - 1];
  }

  lemma RemoveLive(s: seq<Slot>, k: nat)
    requires k < |s| && forall i :: 0 <= i < |s| ==> s[i].tm >= EMPTY
    ensures forall i :: 0 <= i < |s| - 1 ==> RemoveAt(s, k)[i].tm >= EMPTY
  {
    forall i | 0 <= i < |s| - 1 ensures RemoveAt(s, k)[i].tm >= EMPTY {
      assert RemoveAt(s, k)[i] == if i < k then s[i] else s[i + 1];
    }
  }

  lemma DropOldestLive(b: Backlog)
    requires Live(b) && |b.slots| > 1
    ensures Live(DropOldest(b))
  {
    RemoveLive(b.slots, 0);
  }

  lemma {:induction false} ShrinkLive(b: Backlog, n: Size)
    requires Valid(b) && Live(b)
    ensures Valid(Shrink(b, n)) && Live(Shrink(b, n))
    decreases |b.slots|
  {
    if |b.slots| > n {
      DropOldestValid(b);
      DropOldestLive(b);
      ShrinkLive(DropOldest(b), n);
    }
  }

  lemma {:induction false} GrowLive(b: Backlog, n: Size)
    requires Valid(b) && Live(b)
    ensures Valid(Grow(b, n)) && Live(Grow(b, n))
    decreases n - |b.slots|
  {
    if |b.slots| < n {
      AddSlotValid(b, EMPTY, 0);
      InsertLive(b.slots, Slot(EMPTY, b.nextRef, 0));
      GrowLive(AddEmpty(b), n);
    }
  }

  lemma ReuseLive(b: Backlog, k: nat, x: Sample)
    requires Valid(b) && Live(b) && k < |b.slots| && x.time >= 0
    ensures Live(Reuse(b, k, x))
  {
    RemoveOrdered(b.slots, k);
    RemoveLive(b.slots, k);
    InsertLive(RemoveAt(b.slots, k), b.slots[k].(tm := x.time));
  }

  lemma RelockLive(b: Backlog, i: nat, n: int)
    requires Live(b) && i < |b.slots|
    ensures Live(Relock(b, i, n))
  {
    var r := Relock(b, i, n);
    assert forall j :: 0 <= j < |b.slots| ==> r.slots[j].tm == b.slots[j].tm;
  }

  lemma ReleaseLive(w: World, p: Ref, t: int)
    requires Live(w.b)
    ensures Live(Step(w, Release(p, t)).0.b)
  {
    var i := FindSlot(w.b.slots, p, OwnTime(w.b, p, t));
    if i < |w.b.slots| {
      RelockLive(w.b, i, w.b.slots[i].locks - 1);
    }
  }

  lemma UpdateLive(b: Backlog, x: Sample)
    requires Valid(b) && Live(b) && x.time >= 0
    ensures Live(Update(b, x).0)
  {
    if FirstReusable(b.slots) < |b.slots| {
      ReuseLive(b, FirstReusable(b.slots), x);
    }
  }

  lemma ResizeLive(b: Backlog, n: Size)
    requires Valid(b) && Live(b)
    ensures Live(Resize(b, n))
  {
    ShrinkLive(b, n);
    GrowLive(Shrink(b, n), n);
  }

  lemma GrantLive(w: World, i: nat)
    requires Live(w.b) && i < |w.b.slots|
    ensures Live(Grant(w, i).b)
  {
    RelockLive(w.b, i, w.b.slots[i].locks + 1);
  }

  lemma LockLive(w: World, op: Op)
    requires Live(w.b) && (op.LockLatest? || op.LockNearest? || op.LockBefore?)
    ensures Live(Step(w, op).0.b)
  {
    match op
    case LockLatest => GrantLive(w, SelectLatest(w.b.slots));
    case LockNearest(t) => GrantLive(w, SelectNearest(w.b.slots, t));
    case LockBefore(t) =>
      if SelectUpperBound(w.b.slots, t).Some? {
        GrantLive(w, SelectUpperBound(w.b.slots, t).value);
      }
  }

  lemma ClearedLive(b: Backlog, d: Data)
    requires |b.slots| > 0
    ensures Live(Cleared(b, d))
  {
    forall i | 0 <= i < |b.slots| ensures Cleared(b, d).slots[i].tm >= EMPTY {
      ClearedSlot(b, d, i);
    }
  }

  lemma StepLive(w: World, op: Op)
    requires Valid(w.b) && Live(w.b) && (op.Arrive? ==> op.x.time >= 0)
    ensures Live(Step(w, op).0.b)
  {
    match op
    case Arrive(x) => UpdateLive(w.b, x);
    case ChangeBacklog(n) => ResizeLive(w.b, n);
    case Release(p, t) => ReleaseLive(w, p, t);
    case ClearAll(d) => ClearedLive(w.b, d);
    case _ => LockLive(w, op);
  }

  lemma {:induction false} RunLive(w: World, ops: seq<Op>)
    requires Accounted(w) && Live(w.b) && ProperArrivals(ops)
    ensures Accounted(Run(w, ops)) && Live(Run(w, ops).b)
    decreases |ops|
  {
    if ops != [] {
      StepAccounted(w, ops[0]);
      StepLive(w, ops[0]);
      RunLive(Step(w, ops[0]).0, ops[1..]);
    }
  }

  /** The times of the samples that were stored, in order. */
  function StoredTimes(w: World, ops: seq<Op>): (r: seq<int>)
    requires |w.b.slots| > 0
    decreases |ops|
  {
    if ops == [] then []
    else (if ops[0].Arrive? && Step(w, ops[0]).1 == Ok then [ops[0].x.time] else [])
         + StoredTimes(Step(w, ops[0]).0, ops[1..])
  }

  lemma {:induction false} GrowKeepsLatest(b: Backlog, n: nat)
    ensures Grow(b, n).latest == b.latest
    decreases n - |b.slots|
  {
    if |b.slots| < n {
      GrowKeepsLatest(AddEmpty(b), n);
    }
  }

  lemma StepLatest(w: World, op: Op)
    requires |w.b.slots| > 0
    ensures Step(w, op).0.b.latest == if op.Arrive? && Step(w, op).1 == Ok then op.x.time else w.b.latest
  {
    if op.ChangeBacklog? {
      ShrinkKeepsRest(w.b, op.n);
      GrowKeepsLatest(Shrink(w.b, op.n), op.n);
    }
  }

  lemma {:induction false} LatestIsLastStored(w: World, ops: seq<Op>)
    requires |w.b.slots| > 0
    ensures var ts := StoredTimes(w, ops);
            Run(w, ops).b.latest == if ts == [] then w.b.latest else ts[|ts| - 1]
    decreases |ops|
  {
    if ops != [] {
      StepLatest(w, ops[0]);
      LatestIsLastStored(Step(w, ops[0]).0, ops[1..]);
    }
  }

  lemma {:induction false} StoredTimesProper(w: World, ops: seq<Op>)
    requires |w.b.slots| > 0 && ProperArrivals(ops)
    ensures forall i :: 0 <= i < |StoredTimes(w, ops)| ==> StoredTimes(w, ops)[i] >= 0
    decreases |ops|
  {
    if ops != [] {
      StoredTimesProper(Step(w, ops[0]).0, ops[1..]);
    }
  }

  /**
    The validity flag that locking reports says exactly whether a sample has
    been stored since registration; ClearAll does not reset it.
   */
  lemma ValidMeansReceived(n: Size, d: Data, ops: seq<Op>)
    requires ProperArrivals(ops)
    ensures var w := World(Registered(n, d), multiset{});
            Run(w, ops).b.latest >= 0 <==> StoredTimes(w, ops) != []
  {
    var w := World(Registered(n, d), multiset{});
    LatestIsLastStored(w, ops);
    StoredTimesProper(w, ops);
    GrowKeepsLatest(NOTHING, n - 1);
  }

  /** Nearest selection is the full-scan optimum in every reachable backlog. */
  lemma NearestIsMinimalInEveryRun(n: Size, d: Data, ops: seq<Op>, t: int)
    requires ProperArrivals(ops)
    ensures var s := Run(World(Registered(n, d), multiset{}), ops).b.slots;
            |s| > 0 && IsNearest(s, t, SelectNearest(s, t))
  {
    RegisteredIsAccounted(n, d);
    RunLive(World(Registered(n, d), multiset{}), ops);
    NearestIsMinimal(Run(World(Registered(n, d), multiset{}), ops).b, t);
  }

  /** Locking the latest sample hands out slot i; it holds a received or default sample, and no slot is newer. */
  ghost predicate GrantsNewest(w: World, i: nat) {
    && i < |w.b.slots| && w.b.slots[i].tm > EMPTY
    && (forall x :: x in w.b.slots ==> x.tm <= w.b.slots[i].tm)
    && Step(w, LockLatest) == (Grant(w, i), Ok)
  }

  lemma LatestIsGranted(w: World)
    requires Accounted(w) && Live(w.b)
    ensures exists i :: GrantsNewest(w, i)
  {
    LatestIsNewest(w.b);
    assert GrantsNewest(w, SelectLatest(w.b.slots));
  }

  lemma LatestInRun(w: World, ops: seq<Op>)
    requires Accounted(w) && Live(w.b) && ProperArrivals(ops)
    ensures exists i :: GrantsNewest(Run(w, ops), i)
  {
    RunLive(w, ops);
    LatestIsGranted(Run(w, ops));
  }

  /** In every run of a registered signal, locking the latest sample hands out the newest one. */
  lemma LatestIsNewestInEveryRun(n: Size, d: Data, ops: seq<Op>)
    requires ProperArrivals(ops)
    ensures exists i :: GrantsNewest(Run(World(Registered(n, d), multiset{}), ops), i)
  {
    RegisteredIsAccounted(n, d);
    LatestInRun(World(Registered(n, d), multiset{}), ops);
  }
}
