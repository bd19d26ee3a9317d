/**
  While no sample is locked and samples arrive in time order, the slot-reusing
  backlog is a sliding window over the history of arrivals: an arrival pushes
  the oldest entry out, a resize keeps the newest entries.
 */
module SlidingWindow {
  import opened Results
  import opened SampleBacklog
  import opened BacklogRuns

  /** What a reader can see of a slot: nothing, or the received sample. */
  type Entry = Option<Sample>

  ghost function EntryOf(memory: map<Ref, Sample>, x: Slot): Entry {
    if x.tm == EMPTY || x.ref !in memory then None else Some(memory[x.ref])
  }

  ghost function View(b: Backlog): (v: seq<Entry>)
    ensures |v| == |b.slots|
    ensures forall i :: 0 <= i < |v| ==> v[i] == EntryOf(b.memory, b.slots[i])
  {
    seq(|b.slots|, i requires 0 <= i < |b.slots| => EntryOf(b.memory, b.slots[i]))
  }

  function Push(v: seq<Entry>, x: Sample): (r: seq<Entry>)
    requires |v| > 0
  {
    v[1..] + [Some(x)]
  }

  function Blank(n: nat): (r: seq<Entry>)
    ensures |r| == n && forall i :: 0 <= i < n ==> r[i] == None
  {
    seq(n, _ => None)
  }

  function Fit(v: seq<Entry>, n: nat): (r: seq<Entry>)
    ensures |r| == n
  {
    if n <= |v| then v[|v| - n..] else Blank(n - |v|) + v
  }

  ghost predicate Unlocked(s: seq<Slot>) {
    forall i :: 0 <= i < |s| ==> s[i].locks == 0
  }

  /** No locks anywhere, and the newest slot is a received sample. */
  ghost predicate Quiet(b: Backlog) {
    Valid(b) && Live(b) && Unlocked(b.slots) && b.deleted == []
  }

  ghost function Newest(b: Backlog): int
    requires |b.slots| > 0
  {
    b.slots[|b.slots| - 1].tm
  }

  lemma InsertUnlocked(s: seq<Slot>, x: Slot)
    requires Unlocked(s) && x.locks == 0
    ensures Unlocked(Insert(s, x))
  {
    var k, r := UpperBound(s, x.tm), Insert(s, x);
    forall i | 0 <= i < |r| ensures r[i].locks == 0 {
      assert r[i] == if i < k then s[i] else if i == k then x else s[i - 1];
    }
  }

  lemma SameView(b: Backlog, v: seq<Entry>)
    requires |v| == |b.slots|
    requires forall i :: 0 <= i < |v| ==> EntryOf(b.memory, b.slots[i]) == v[i]
    ensures View(b) == v
  {
    assert forall i :: 0 <= i < |v| ==> View(b)[i] == v[i];
  }

  /** Where the slots are when the oldest one is reused for the newest sample. */
  lemma ReuseMoves(s: seq<Slot>, x: Slot)
    requires Sorted(s) && |s| > 0 && s[|s| - 1].tm <= x.tm
    ensures Insert(RemoveAt(s, 0), x) == s[1..] + [x]
  {
    var rest := RemoveAt(s, 0);
    assert rest == s[1..];
    InsertLast(rest, x);
  }

  /** Reusing the oldest slot for the newest sample shifts the view. */
  lemma ReusePushes(b: Backlog, x: Sample)
    requires Ordered(b.slots) && |b.slots| > 0 && Newest(b) <= x.time && x.time >= 0
    ensures var r := Reuse(b, 0, x);
            Newest(r) == x.time && View(r) == Push(View(b), x)
  {
    var was, r, v := b.slots[0], Reuse(b, 0, x), Push(View(b), x);
    ReuseMoves(b.slots, was.(tm := x.time));
    forall i | 0 <= i < |v| ensures EntryOf(r.memory, r.slots[i]) == v[i] {
      if i < |v| - 1 {
        var y := b.slots[i + 1];
        assert r.slots[i] == y && y.ref != was.ref;
        assert v[i] == View(b)[i + 1];
      }
    }
    SameView(r, v);
  }

  lemma ArrivalPushes(b: Backlog, x: Sample)
    requires Quiet(b) && x.time >= Newest(b)
    ensures var (r, res) := Update(b, x);
            res == Ok && Quiet(r) && Newest(r) == x.time && View(r) == Push(View(b), x)
  {
    assert b.slots[0].locks == 0 && FirstReusable(b.slots) == 0;
    assert Newest(b) >= 0;
    ReusePushes(b, x);
    ReuseValid(b, 0, x);
    ReuseLive(b, 0, x);
    InsertUnlocked(RemoveAt(b.slots, 0), b.slots[0].(tm := x.time));
  }

  lemma DropOldestShiftsView(b: Backlog)
    requires Ordered(b.slots) && |b.slots| > 1 && b.slots[0].locks == 0
    ensures Newest(DropOldest(b)) == Newest(b)
    ensures View(DropOldest(b)) == View(b)[1..]
  {
    var r, v := DropOldest(b), View(b)[1..];
    assert r.slots == b.slots[1..];
    forall i | 0 <= i < |v| ensures EntryOf(r.memory, r.slots[i]) == v[i] {
      var y := b.slots[i + 1];
      assert r.slots[i] == y && y.ref != b.slots[0].ref;
      assert v[i] == View(b)[i + 1];
    }
    SameView(r, v);
  }

  lemma DropOldestShifts(b: Backlog)
    requires Quiet(b) && |b.slots| > 1
    ensures Quiet(DropOldest(b)) && Newest(DropOldest(b)) == Newest(b)
    ensures View(DropOldest(b)) == View(b)[1..]
  {
    DropOldestShiftsView(b);
    DropOldestValid(b);
    DropOldestLive(b);
    assert DropOldest(b).slots == b.slots[1..];
  }

  /** The new empty slot goes behind the empty slots: entry i of the new view. */
  lemma AddEmptyEntry(b: Backlog, i: nat)
    requires Live(b) && b.nextRef !in Refs(b.slots) && i <= |b.slots|
    ensures var r := AddEmpty(b);
            EntryOf(r.memory, r.slots[i]) == if i == 0 then None else EntryOf(b.memory, b.slots[i - 1])
  {
    var s, k := b.slots, UpperBound(b.slots, EMPTY);
    var y := AddEmpty(b).slots[i];
    if i <= k {
      assert y.tm == EMPTY;
      assert i > 0 ==> s[i - 1].tm == EMPTY;
    } else {
      assert y == s[i - 1] && s[i - 1] in s;
      assert y.ref in Refs(s);
    }
  }

  lemma AddEmptyPrependsView(b: Backlog)
    requires Live(b) && b.nextRef !in Refs(b.slots)
    ensures Newest(AddEmpty(b)) == Newest(b)
    ensures View(AddEmpty(b)) == [None] + View(b)
  {
    var r, v := AddEmpty(b), [None] + View(b);
    forall i | 0 <= i < |v| ensures EntryOf(r.memory, r.slots[i]) == v[i] {
      AddEmptyEntry(b, i);
    }
    SameView(r, v);
    assert r.slots[|b.slots|] == b.slots[|b.slots| - 1];
  }

  lemma AddEmptyPrepends(b: Backlog)
    requires Quiet(b)
    ensures Quiet(AddEmpty(b)) && Newest(AddEmpty(b)) == Newest(b)
    ensures View(AddEmpty(b)) == [None] + View(b)
  {
    var x := Slot(EMPTY, b.nextRef, 0);
    assert b.nextRef !in b.memory.Keys;
    AddEmptyPrependsView(b);
    AddSlotValid(b, EMPTY, 0);
    InsertLive(b.slots, x);
    InsertUnlocked(b.slots, x);
  }

  lemma {:induction false} ShrinkFits(b: Backlog, n: Size)
    requires Quiet(b)
    ensures Quiet(Shrink(b, n)) && Newest(Shrink(b, n)) == Newest(b)
    ensures View(Shrink(b, n)) == if n <= |b.slots| then Fit(View(b), n) else View(b)
    decreases |b.slots|
  {
    if |b.slots| > n {
      DropOldestShifts(b);
      ShrinkFits(DropOldest(b), n);
      FitTail(View(b), n);
    } else if |b.slots| == n {
      assert Fit(View(b), n) == View(b);
    }
  }

  lemma FitTail(v: seq<Entry>, n: nat)
    requires n < |v|
    ensures Fit(v[1..], n) == Fit(v, n)
  {
    assert v[1..][|v| - 1 - n..] == v[|v| - n..];
  }

  lemma {:induction false} GrowFits(b: Backlog, n: Size)
    requires Quiet(b) && |b.slots| <= n
    ensures Quiet(Grow(b, n)) && Newest(Grow(b, n)) == Newest(b)
    ensures View(Grow(b, n)) == Fit(View(b), n)
    decreases n - |b.slots|
  {
    if |b.slots| < n {
      AddEmptyPrepends(b);
      GrowFits(AddEmpty(b), n);
      FitPrepended(View(b), n);
    }
  }

  lemma BlankGrows(m: nat, v: seq<Entry>)
    ensures Blank(m) + ([None] + v) == Blank(m + 1) + v
  {
    assert Blank(m) + [None] == Blank(m + 1);
    assert Blank(m) + ([None] + v) == (Blank(m) + [None]) + v;
  }

  lemma FitPrepended(v: seq<Entry>, n: nat)
    requires |v| < n
    ensures Fit([None] + v, n) == Fit(v, n)
  {
    var m := n - |v| - 1;
    var w := [None] + v;
    BlankGrows(m, v);
    if m == 0 {
      assert w[0..] == w && Blank(0) + w == w;
    }
  }

  lemma ResizeFits(b: Backlog, n: Size)
    requires Quiet(b)
    ensures Quiet(Resize(b, n)) && Newest(Resize(b, n)) == Newest(b)
    ensures View(Resize(b, n)) == Fit(View(b), n)
  {
    ShrinkFits(b, n);
    GrowFits(Shrink(b, n), n);
    assert n <= |b.slots| ==> Fit(Fit(View(b), n), n) == Fit(View(b), n);
  }

  // -------------------------------------------------- refinement of whole runs

  /** An arrival that is not older than the newest sample, or a resize. */
  predicate InOrderStep(newest: int, op: Op) {
    op.ChangeBacklog? || (op.Arrive? && op.x.time >= newest)
  }

  function NewestAfter(newest: int, op: Op): int {
    if op.Arrive? then op.x.time else newest
  }

  predicate InOrder(newest: int, ops: seq<Op>)
    decreases |ops|
  {
    ops == [] || (InOrderStep(newest, ops[0]) && InOrder(NewestAfter(newest, ops[0]), ops[1..]))
  }

  function SlideStep(v: seq<Entry>, op: Op): (r: seq<Entry>)
    requires |v| > 0
    ensures |r| > 0
  {
    match op
    case Arrive(x) => Push(v, x)
    case ChangeBacklog(n) => Fit(v, n)
    case _ => v
  }

  /** The same run on the abstract window. */
  function Slide(v: seq<Entry>, ops: seq<Op>): (r: seq<Entry>)
    requires |v| > 0
    decreases |ops|
  {
    if ops == [] then v else Slide(SlideStep(v, ops[0]), ops[1..])
  }

  lemma StepRefinesWindow(w: World, op: Op)
    requires |w.b.slots| > 0 && Quiet(w.b) && InOrderStep(Newest(w.b), op)
    ensures var b := Step(w, op).0.b;
            && Quiet(b)
            && Newest(b) == NewestAfter(Newest(w.b), op)
            && View(b) == SlideStep(View(w.b), op)
  {
    match op
    case Arrive(x) => ArrivalPushes(w.b, x);
    case ChangeBacklog(n) => ResizeFits(w.b, n);
  }

  lemma {:induction false} BacklogRefinesWindow(w: World, ops: seq<Op>)
    requires |w.b.slots| > 0 && Quiet(w.b) && InOrder(Newest(w.b), ops)
    ensures Quiet(Run(w, ops).b) && View(Run(w, ops).b) == Slide(View(w.b), ops)
    decreases |ops|
  {
    if ops != [] {
      StepRefinesWindow(w, ops[0]);
      BacklogRefinesWindow(Step(w, ops[0]).0, ops[1..]);
    }
  }

  // ------------------------------------------- closed form for arrivals alone

  function Entries(xs: seq<Sample>): (r: seq<Entry>)
    ensures |r| == |xs| && forall i :: 0 <= i < |xs| ==> r[i] == Some(xs[i])
  {
    seq(|xs|, i requires 0 <= i < |xs| => Some(xs[i]))
  }

  function Arrivals(xs: seq<Sample>): (r: seq<Op>)
    ensures |r| == |xs| && forall i :: 0 <= i < |xs| ==> r[i] == Arrive(xs[i])
  {
    seq(|xs|, i requires 0 <= i < |xs| => Arrive(xs[i]))
  }

  /** History before the first arrival: n-1 times nothing, then the default sample at time 0. */
  function Initial(n: Size, d: Data): (r: seq<Entry>)
    ensures |r| == n
  {
    Blank(n - 1) + [Some(Sample(0, d))]
  }

  ghost predicate TimeOrdered(xs: seq<Sample>) {
    && (forall i :: 0 <= i < |xs| ==> xs[i].time >= 0)
    && forall i, j :: 0 <= i < j < |xs| ==> xs[i].time <= xs[j].time
  }

  lemma {:induction false} ArrivalsInOrder(newest: int, xs: seq<Sample>)
    requires TimeOrdered(xs) && (|xs| > 0 ==> newest <= xs[0].time)
    ensures InOrder(newest, Arrivals(xs))
    decreases |xs|
  {
    if xs != [] {
      ArrivalsInOrder(xs[0].time, xs[1..]);
      assert Arrivals(xs)[1..] == Arrivals(xs[1..]);
    }
  }

  lemma PushFits(v: seq<Entry>, x: Sample, w: seq<Entry>)
    requires |v| > 0
    ensures Fit(Push(v, x) + w, |v|) == Fit(v + ([Some(x)] + w), |v|)
  {
    var p, q := Push(v, x) + w, v + ([Some(x)] + w);
    assert q[1..] == p;
    assert q[|w| + 1..] == p[|w|..];
  }

  lemma {:induction false} SlideIsSuffix(v: seq<Entry>, xs: seq<Sample>)
    requires |v| > 0
    ensures Slide(v, Arrivals(xs)) == Fit(v + Entries(xs), |v|)
    decreases |xs|
  {
    if xs == [] {
      assert v + Entries(xs) == v;
    } else {
      assert Arrivals(xs)[1..] == Arrivals(xs[1..]);
      SlideIsSuffix(Push(v, xs[0]), xs[1..]);
      PushFits(v, xs[0], Entries(xs[1..]));
      assert Entries(xs) == [Some(xs[0])] + Entries(xs[1..]);
    }
  }

  /**
    For every backlog size and every time-ordered series of arrivals, the
    backlog holds exactly the last n entries of the initial content followed
    by all arrivals.
   */
  lemma BacklogHoldsLastArrivals(n: Size, d: Data, xs: seq<Sample>)
    requires TimeOrdered(xs)
    ensures View(Run(World(Registered(n, d), multiset{}), Arrivals(xs)).b) == Fit(Initial(n, d) + Entries(xs), n)
  {
    RegisteredIsQuiet(n, d);
    ArrivalsInOrder(0, xs);
    BacklogRefinesWindow(World(Registered(n, d), multiset{}), Arrivals(xs));
    SlideIsSuffix(Initial(n, d), xs);
  }

  lemma RegisteredIsQuiet(n: Size, d: Data)
    ensures Quiet(Registered(n, d)) && Newest(Registered(n, d)) == 0
    ensures View(Registered(n, d)) == Initial(n, d)
  {
    var b := Registered(n, d);
    RegisteredShape(n, d);
    RegisteredIsAccounted(n, d);
    forall i | 0 <= i < n ensures View(b)[i] == Initial(n, d)[i] {
      if i < n - 1 {
        assert b.slots[i].tm == EMPTY;
      }
    }
  }

  lemma FitEndsWith(v: seq<Entry>, n: Size)
    requires v != []
    ensures Fit(v, n)[n - 1] == v[|v| - 1]
  {
  }

  /** The sample that locking the latest one hands out. */
  ghost predicate LatestIs(b: Backlog, x: Sample) {
    |b.slots| > 0 && var p := b.slots[SelectLatest(b.slots)].ref; p in b.memory && b.memory[p] == x
  }

  lemma LastEntryIsLatest(b: Backlog, v: seq<Entry>, n: Size, x: Sample)
    requires v != [] && v[|v| - 1] == Some(x) && View(b) == Fit(v, n)
    ensures LatestIs(b, x)
  {
    FitEndsWith(v, n);
    assert View(b)[n - 1] == EntryOf(b.memory, b.slots[n - 1]);
  }

  /** After time-ordered arrivals, locking the latest sample hands out the last that arrived, also among equal times. */
  lemma LatestIsLastArrival(n: Size, d: Data, xs: seq<Sample>)
    requires TimeOrdered(xs) && xs != []
    ensures LatestIs(Run(World(Registered(n, d), multiset{}), Arrivals(xs)).b, xs[|xs| - 1])
  {
    BacklogHoldsLastArrivals(n, d, xs);
    LastEntryIsLatest(Run(World(Registered(n, d), multiset{}), Arrivals(xs)).b,
                      Initial(n, d) + Entries(xs), n, xs[|xs| - 1]);
  }

  lemma ClearedEntry(b: Backlog, d: Data, i: nat)
    requires Valid(b) && i < |b.slots|
    ensures var r := Cleared(b, d);
            && r.slots[i].locks == 0
            && EntryOf(r.memory, r.slots[i]) == if i == |b.slots| - 1 then Some(Sample(0, d)) else None
  {
    ClearedSlot(b, d, i);
    assert b.slots[0] in b.slots;
  }

  /** ClearAll leaves what a registration leaves: nothing locked or trimmed, and only the default sample at time 0. */
  lemma ClearStartsAnew(b: Backlog, d: Data)
    requires Valid(b) && |b.slots| > 0
    ensures Quiet(Cleared(b, d)) && Newest(Cleared(b, d)) == 0
    ensures View(Cleared(b, d)) == Initial(|b.slots|, d)
  {
    var r, n := Cleared(b, d), |b.slots|;
    ClearedValid(b, d);
    ClearedLive(b, d);
    ClearedSlot(b, d, n - 1);
    forall i | 0 <= i < n ensures r.slots[i].locks == 0 && EntryOf(r.memory, r.slots[i]) == Initial(n, d)[i] {
      ClearedEntry(b, d, i);
    }
    SameView(r, Initial(n, d));
  }

  /** From ClearAll on, too, the backlog holds the last entries of the default sample and the arrivals since. */
  lemma ClearedHoldsLastArrivals(b: Backlog, d: Data, xs: seq<Sample>)
    requires Valid(b) && |b.slots| > 0 && TimeOrdered(xs)
    ensures View(Run(World(Cleared(b, d), multiset{}), Arrivals(xs)).b)
            == Fit(Initial(|b.slots|, d) + Entries(xs), |b.slots|)
  {
    ClearStartsAnew(b, d);
    ArrivalsInOrder(0, xs);
    BacklogRefinesWindow(World(Cleared(b, d), multiset{}), Arrivals(xs));
    SlideIsSuffix(Initial(|b.slots|, d), xs);
  }

  lemma LastStaysLast(s: seq<Slot>, x: Slot)
    requires Sorted(s) && |s| > 1 && x.tm < s[|s| - 1].tm
    ensures Insert(RemoveAt(s, 0), x)[|s| - 1] == s[|s| - 1]
  {
    var rest := RemoveAt(s, 0);
    assert rest[|s| - 2] == s[|s| - 1];
    InsertAt(rest, x, |s| - 1);
  }

  /** An arrival older than the newest sample leaves that one in the last place. */
  lemma NewestStaysLast(b: Backlog, x: Sample)
    requires Quiet(b) && |b.slots| > 1 && x.time < Newest(b)
    ensures var r := Reuse(b, 0, x);
            EntryOf(r.memory, r.slots[|b.slots| - 1]) != Some(x)
  {
    var was, y := b.slots[0], b.slots[|b.slots| - 1];
    LastStaysLast(b.slots, was.(tm := x.time));
    assert y in b.slots && y.ref != was.ref;
  }

  lemma SingleSlotPushes(b: Backlog, x: Sample)
    requires |b.slots| == 1 && x.time >= 0
    ensures View(Reuse(b, 0, x)) == Push(View(b), x)
  {
    var moved, r := b.slots[0].(tm := x.time), Reuse(b, 0, x);
    assert RemoveAt(b.slots, 0) == [];
    InsertLast([], moved);
    assert r.slots == [moved];
    assert Push(View(b), x) == [Some(x)];
    SameView(r, [Some(x)]);
  }

  /**
    Exactly when an arrival pushes the window: the backlog has a single slot,
    or the sample is not older than the newest one.
   */
  lemma ArrivalPushesIff(b: Backlog, x: Sample)
    requires Quiet(b) && x.time >= 0
    ensures View(Update(b, x).0) == Push(View(b), x) <==> |b.slots| == 1 || x.time >= Newest(b)
  {
    assert FirstReusable(b.slots) == 0 && Update(b, x).0 == Reuse(b, 0, x);
    if x.time >= Newest(b) {
      ArrivalPushes(b, x);
    } else if |b.slots| == 1 {
      SingleSlotPushes(b, x);
    } else {
      NewestStaysLast(b, x);
      assert View(Update(b, x).0)[|b.slots| - 1] != Some(x);
      assert Push(View(b), x)[|b.slots| - 1] == Some(x);
    }
  }

  lemma TwoArrivals(w: World, v: seq<Entry>, x: Sample, y: Sample)
    requires |w.b.slots| > 0 && |v| > 0
    ensures Run(w, Arrivals([x, y])) == Step(Step(w, Arrive(x)).0, Arrive(y)).0
    ensures Slide(v, Arrivals([x, y])) == Push(Push(v, x), y)
  {
    var ops := Arrivals([x, y]);
    assert ops[1..] == [Arrive(y)] && ops[1..][1..] == [];
    var w1, v1 := Step(w, Arrive(x)).0, Push(v, x);
    assert Run(w1, ops[1..]) == Run(Step(w1, Arrive(y)).0, []);
    assert Slide(v1, ops[1..]) == Slide(Push(v1, y), []);
  }

  /** A backlog of two and two arrivals out of order: not the last two entries of the history. */
  lemma OutOfOrderIsNoWindow(d: Data, x: Sample, y: Sample)
    requires x.time == 10 && y.time == 5
    ensures View(Run(World(Registered(2, d), multiset{}), Arrivals([x, y])).b)
            != Fit(Initial(2, d) + Entries([x, y]), 2)
  {
    var w := World(Registered(2, d), multiset{});
    RegisteredIsQuiet(2, d);
    ArrivalPushes(w.b, x);
    var w1 := Step(w, Arrive(x)).0;
    ArrivalPushesIff(w1.b, y);
    SlideIsSuffix(Initial(2, d), [x, y]);
    TwoArrivals(w, Initial(2, d), x, y);
  }
}
