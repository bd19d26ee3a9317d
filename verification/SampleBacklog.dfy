/**
  The backlog of one signal as a value: the time-ordered slots, the store of
  slots that were trimmed while locked, and the memory of the sample objects
  the slots point to.  The functions here specify the methods of the class in
  DataSampleBuffer.dfy; the lemmas say what the operations keep.
 */
module SampleBacklog {
  import opened Results

  /** Identity of a sample object: what a caller holds as a sample pointer. */
  type Ref = nat

  /** Sample content; it is only ever copied. */
  type Data = int

  /** The time of a slot that holds no received sample. */
  const EMPTY: int := -1

  datatype Sample = Sample(time: int, data: Data)

  datatype Slot = Slot(tm: int, ref: Ref, locks: int)

  datatype Backlog = Backlog(
    slots: seq<Slot>,
    deleted: seq<Slot>,
    memory: map<Ref, Sample>,
    nextRef: Ref,
    latest: int)

  // ---------------------------------------------------------------- ordering

  ghost predicate Sorted(s: seq<Slot>) {
    forall i, j :: 0 <= i < j < |s| ==> s[i].tm <= s[j].tm
  }

  /** First position whose time is not below `t`. */
  function LowerBound(s: seq<Slot>, t: int): (k: nat)
    ensures k <= |s|
    ensures forall i :: 0 <= i < k ==> s[i].tm < t
    ensures k < |s| ==> s[k].tm >= t
  {
    if s == [] || s[0].tm >= t then 0 else 1 + LowerBound(s[1..], t)
  }

  /** First position whose time is above `t`. */
  function UpperBound(s: seq<Slot>, t: int): (k: nat)
    ensures k <= |s|
    ensures forall i :: 0 <= i < k ==> s[i].tm <= t
    ensures k < |s| ==> s[k].tm > t
  {
    if s == [] || s[0].tm > t then 0 else 1 + UpperBound(s[1..], t)
  }

  /** Insertion into a multiset: behind all slots of the same time. */
  function Insert(s: seq<Slot>, x: Slot): (r: seq<Slot>)
    ensures |r| == |s| + 1
  {
    var k := UpperBound(s, x.tm);
    s[..k] + [x] + s[k..]
  }

  function RemoveAt(s: seq<Slot>, i: nat): (r: seq<Slot>)
    requires i < |s|
    ensures |r| == |s| - 1
  {
    s[..i] + s[i + 1..]
  }

  // -------------------------------------------------------------- references

  ghost function Refs(s: seq<Slot>): set<Ref> {
    set x | x in s :: x.ref
  }

  ghost predicate Distinct(s: seq<Slot>) {
    forall i, j :: 0 <= i < j < |s| ==> s[i].ref != s[j].ref
  }

  /** Times ascending and no sample object used twice. */
  ghost predicate Ordered(s: seq<Slot>) {
    Sorted(s) && Distinct(s)
  }

  lemma InsertMembers(s: seq<Slot>, x: Slot)
    ensures forall y :: y in Insert(s, x) <==> y in s || y == x
    ensures Refs(Insert(s, x)) == Refs(s) + {x.ref}
  {
    var k := UpperBound(s, x.tm);
    var r := Insert(s, x);
    forall y ensures y in r <==> y in s || y == x {
      assert s == s[..k] + s[k..];
    }
    forall p | p in Refs(s) + {x.ref} ensures p in Refs(r) {
      var y :| (y in s || y == x) && y.ref == p;
      assert y in r;
    }
  }

  lemma InsertAt(s: seq<Slot>, x: Slot, i: nat)
    requires i <= |s|
    ensures var k := UpperBound(s, x.tm);
            Insert(s, x)[i] == if i < k then s[i] else if i == k then x else s[i - 1]
  {
  }

  lemma InsertPair(s: seq<Slot>, x: Slot, i: nat, j: nat)
    requires Ordered(s) && x.ref !in Refs(s) && i < j <= |s|
    ensures Insert(s, x)[i].tm <= Insert(s, x)[j].tm && Insert(s, x)[i].ref != Insert(s, x)[j].ref
  {
    var k := UpperBound(s, x.tm);
    InsertAt(s, x, i);
    InsertAt(s, x, j);
    if i == k {
      assert s[j - 1] in s && s[k].tm <= s[j - 1].tm;
    } else if j == k {
      assert s[i] in s;
    }
  }

  lemma InsertOrdered(s: seq<Slot>, x: Slot)
    requires Ordered(s) && x.ref !in Refs(s)
    ensures Ordered(Insert(s, x))
  {
    var r := Insert(s, x);
    forall i, j | 0 <= i < j < |r| ensures r[i].tm <= r[j].tm && r[i].ref != r[j].ref {
      InsertPair(s, x, i, j);
    }
  }

  /** A slot that is not older than any other goes last. */
  lemma InsertLast(s: seq<Slot>, x: Slot)
    requires forall i :: 0 <= i < |s| ==> s[i].tm <= x.tm
    ensures Insert(s, x) == s + [x]
  {
    var k := UpperBound(s, x.tm);
    assert k == |s|;
    assert s[..k] == s && s[k..] == [];
  }

  lemma RemoveKeepsOrder(s: seq<Slot>, i: nat)
    requires Ordered(s) && i < |s|
    ensures Ordered(RemoveAt(s, i))
  {
    var r := RemoveAt(s, i);
    assert forall j :: 0 <= j < |r| ==> r[j] == s[if j < i then j else j + 1];
  }

  lemma RemoveMembers(s: seq<Slot>, i: nat, y: Slot)
    requires Distinct(s) && i < |s|
    ensures y in RemoveAt(s, i) <==> y in s && y != s[i]
    ensures y in RemoveAt(s, i) ==> y.ref != s[i].ref
  {
    var r := RemoveAt(s, i);
    if y in s && y != s[i] {
      var j :| 0 <= j < |s| && s[j] == y;
      assert y == if j < i then r[j] else r[j - 1];
    }
    if y in r {
      var j :| 0 <= j < |r| && r[j] == y;
      assert y == if j < i then s[j] else s[j + 1];
    }
  }

  lemma RemoveOrdered(s: seq<Slot>, i: nat)
    requires Ordered(s) && i < |s|
    ensures Ordered(RemoveAt(s, i))
    ensures forall y :: y in RemoveAt(s, i) <==> y in s && y != s[i]
    ensures Refs(RemoveAt(s, i)) == Refs(s) - {s[i].ref}
  {
    var r := RemoveAt(s, i);
    RemoveKeepsOrder(s, i);
    forall y ensures (y in r <==> y in s && y != s[i]) && (y in r ==> y.ref != s[i].ref) {
      RemoveMembers(s, i, y);
    }
    forall p ensures p in Refs(r) <==> p in Refs(s) - {s[i].ref} {
      if p in Refs(s) && p != s[i].ref {
        var y :| y in s && y.ref == p;
        assert y in r;
      }
    }
  }

  /** Changing only the lock count of slot `i`. */
  lemma RelockOrdered(s: seq<Slot>, i: nat, n: int)
    requires Ordered(s) && i < |s|
    ensures var r := s[i := s[i].(locks := n)];
            && Ordered(r)
            && Refs(r) == Refs(s)
            && forall y :: y in r <==> y == s[i].(locks := n) || (y in s && y != s[i])
  {
    var r := s[i := s[i].(locks := n)];
    assert forall j :: 0 <= j < |s| ==> r[j].ref == s[j].ref && r[j].tm == s[j].tm;
    forall y ensures y in r <==> y == r[i] || (y in s && y != s[i]) {
      if y in s && y != s[i] {
        var j :| 0 <= j < |s| && s[j] == y;
        assert r[j] == y;
      }
      if y in r && y != r[i] {
        var j :| 0 <= j < |r| && r[j] == y;
        assert s[j] == y && s[j].ref != s[i].ref;
      }
    }
    forall p ensures p in Refs(r) <==> p in Refs(s) {
      if p in Refs(r) {
        var j :| 0 <= j < |r| && r[j].ref == p;
        assert s[j] in s;
      }
      if p in Refs(s) {
        var j :| 0 <= j < |s| && s[j].ref == p;
        assert r[j] in r;
      }
    }
  }

  // --------------------------------------------------------------- invariant

  /**
    What every operation keeps: both stores are ordered, no sample object is
    used twice, the slot time is the sample's own time, the memory holds
    exactly the samples of the two stores, and the deleted-slot store keeps
    locked samples only.
   */
  ghost predicate Valid(b: Backlog) {
    && Ordered(b.slots)
    && Ordered(b.deleted)
    && Refs(b.slots) !! Refs(b.deleted)
    && b.memory.Keys == Refs(b.slots) + Refs(b.deleted)
    && (forall x :: x in b.slots ==> x.ref in b.memory && b.memory[x.ref].time == x.tm && 0 <= x.locks)
    && (forall x :: x in b.deleted ==> x.ref in b.memory && b.memory[x.ref].time == x.tm && 1 <= x.locks)
    && (forall p :: p in b.memory ==> p < b.nextRef)
  }

  /** The newest slot is a received sample and times are received or EMPTY. */
  ghost predicate Live(b: Backlog) {
    && |b.slots| > 0
    && b.slots[|b.slots| - 1].tm != EMPTY
    && (forall i :: 0 <= i < |b.slots| ==> b.slots[i].tm >= EMPTY)
  }

  // ------------------------------------------------------------------ update

  /** The first slot that is empty or unlocked; |s| if there is none. */
  function FirstReusable(s: seq<Slot>): (k: nat)
    ensures k <= |s|
    ensures forall i :: 0 <= i < k ==> s[i].tm != EMPTY && s[i].locks != 0
    ensures k < |s| ==> s[k].tm == EMPTY || s[k].locks == 0
  {
    if s == [] || s[0].tm == EMPTY || s[0].locks == 0 then 0 else 1 + FirstReusable(s[1..])
  }

  /** Reuses the storage of slot `k` for a sample that just arrived. */
  function Reuse(b: Backlog, k: nat, x: Sample): (r: Backlog)
    requires k < |b.slots|
    ensures |r.slots| == |b.slots|
  {
    var was := b.slots[k];
    b.(slots := Insert(RemoveAt(b.slots, k), was.(tm := x.time)),
       memory := b.memory[was.ref := x],
       latest := x.time)
  }

  function Update(b: Backlog, x: Sample): (r: (Backlog, Result))
  {
    var k := FirstReusable(b.slots);
    if k < |b.slots| then (Reuse(b, k, x), Ok) else (b, ResourceInUse)
  }

  /** A sample is refused exactly if every slot holds a received sample that is locked; then nothing changes. */
  lemma RefusedIffAllLocked(b: Backlog, x: Sample)
    requires Valid(b)
    ensures Update(b, x).1 != Ok <==> forall i :: 0 <= i < |b.slots| ==> b.slots[i].tm != EMPTY && b.slots[i].locks > 0
    ensures Update(b, x).1 != Ok ==> Update(b, x) == (b, ResourceInUse)
  {
    forall i | 0 <= i < |b.slots| ensures b.slots[i].locks >= 0 {
      assert b.slots[i] in b.slots;
    }
  }

  /** A slot that an arrival may take: it is empty, or nobody has locked it. */
  predicate Free(x: Slot) {
    x.tm == EMPTY || x.locks == 0
  }

  lemma FirstFreeIsOldest(s: seq<Slot>, y: Slot)
    requires Sorted(s) && y in s && Free(y)
    ensures var k := FirstReusable(s); k < |s| && Free(s[k]) && s[k].tm <= y.tm
  {
    var i :| 0 <= i < |s| && s[i] == y;
    assert i >= FirstReusable(s);
  }

  lemma ReuseMembers(s: seq<Slot>, k: nat, moved: Slot, y: Slot)
    requires Ordered(s) && k < |s|
    ensures y in Insert(RemoveAt(s, k), moved) <==> y == moved || (y in s && y != s[k])
  {
    RemoveOrdered(s, k);
    InsertMembers(RemoveAt(s, k), moved);
  }

  /** Insertion goes behind all slots that are not newer. */
  lemma InsertBehind(s: seq<Slot>, x: Slot)
    requires Sorted(s)
    ensures var k, r := UpperBound(s, x.tm), Insert(s, x);
            k < |r| && r[k] == x && forall i :: k < i < |r| ==> r[i].tm > x.tm
  {
    var k, r := UpperBound(s, x.tm), Insert(s, x);
    forall i | k < i < |r| ensures r[i].tm > x.tm {
      InsertAt(s, x, i);
      assert s[k].tm <= s[i - 1].tm;
    }
  }

  /**
    An arrival takes the oldest free slot and its sample object, which gets
    the content; it goes behind all slots that are not newer.  All other slots
    and sample objects stay as they are.
   */
  lemma ArrivalTakesOldestFree(b: Backlog, x: Sample) returns (was: Slot, at: nat)
    requires Ordered(b.slots) && Update(b, x).1 == Ok
    ensures was in b.slots && Free(was) && forall y :: y in b.slots && Free(y) ==> was.tm <= y.tm
    ensures var r, moved := Update(b, x).0, Slot(x.time, was.ref, was.locks);
            && (forall y :: y in r.slots <==> y == moved || (y in b.slots && y != was))
            && |r.slots| == |b.slots| && r.memory == b.memory[was.ref := x]
            && at < |r.slots| && r.slots[at] == moved && (forall i :: at < i < |r.slots| ==> r.slots[i].tm > x.time)
            && r.deleted == b.deleted && r.nextRef == b.nextRef && r.latest == x.time
  {
    var k := FirstReusable(b.slots);
    was := b.slots[k];
    var moved := was.(tm := x.time);
    at := UpperBound(RemoveAt(b.slots, k), x.time);
    RemoveKeepsOrder(b.slots, k);
    InsertBehind(RemoveAt(b.slots, k), moved);
    forall y | y in b.slots && Free(y) ensures was.tm <= y.tm {
      FirstFreeIsOldest(b.slots, y);
    }
    forall y ensures y in Update(b, x).0.slots <==> y == moved || (y in b.slots && y != was) {
      ReuseMembers(b.slots, k, moved, y);
    }
  }

  lemma ReuseValid(b: Backlog, k: nat, x: Sample)
    requires Valid(b) && k < |b.slots|
    ensures Valid(Reuse(b, k, x))
  {
    var was := b.slots[k];
    var rest := RemoveAt(b.slots, k);
    assert was in b.slots;
    RemoveOrdered(b.slots, k);
    InsertMembers(rest, was.(tm := x.time));
    InsertOrdered(rest, was.(tm := x.time));
    var r := Reuse(b, k, x);
    forall y | y in r.slots ensures y.ref in r.memory && r.memory[y.ref].time == y.tm {
      if y in rest {
        assert y.ref in Refs(rest);
      }
    }
    forall y | y in r.deleted ensures y.ref in r.memory && r.memory[y.ref].time == y.tm {
      assert y.ref in Refs(b.deleted) && was.ref in Refs(b.slots);
    }
  }

  // ------------------------------------------------------------------ resize

  /** Drops the oldest slot; a locked one moves to the deleted-slot store. */
  function DropOldest(b: Backlog): (r: Backlog)
    requires |b.slots| > 0
  {
    var x := b.slots[0];
    if x.locks > 0 then
      b.(slots := RemoveAt(b.slots, 0), deleted := Insert(b.deleted, x))
    else
      b.(slots := RemoveAt(b.slots, 0), memory := b.memory - {x.ref})
  }

  /** Adds one slot with a new sample object. */
  function AddSlot(b: Backlog, time: int, d: Data): (r: Backlog)
    ensures |r.slots| == |b.slots| + 1
  {
    b.(slots := Insert(b.slots, Slot(time, b.nextRef, 0)),
       memory := b.memory[b.nextRef := Sample(time, d)],
       nextRef := b.nextRef + 1)
  }

  function AddEmpty(b: Backlog): (r: Backlog)
  {
    AddSlot(b, EMPTY, 0)
  }

  function Shrink(b: Backlog, n: nat): (r: Backlog)
    ensures |r.slots| == if |b.slots| > n then n else |b.slots|
    decreases |b.slots|
  {
    if |b.slots| > n then Shrink(DropOldest(b), n) else b
  }

  function Grow(b: Backlog, n: nat): (r: Backlog)
    ensures |r.slots| == if |b.slots| < n then n else |b.slots|
    decreases n - |b.slots|
  {
    if |b.slots| < n then Grow(AddEmpty(b), n) else b
  }

  function Resize(b: Backlog, n: nat): (r: Backlog)
    ensures |r.slots| == n
  {
    Grow(Shrink(b, n), n)
  }

  lemma DropOldestValid(b: Backlog)
    requires Valid(b) && |b.slots| > 0
    ensures Valid(DropOldest(b))
  {
    var x := b.slots[0];
    var r := DropOldest(b);
    assert x in b.slots && x.ref in Refs(b.slots);
    RemoveOrdered(b.slots, 0);
    if x.locks > 0 {
      InsertMembers(b.deleted, x);
      InsertOrdered(b.deleted, x);
    }
    forall y | y in r.slots ensures y.ref in r.memory && r.memory[y.ref].time == y.tm {
      assert y.ref in Refs(r.slots);
    }
    forall y | y in r.deleted ensures y.ref in r.memory && r.memory[y.ref].time == y.tm {
      assert y.ref in Refs(r.deleted);
    }
  }

  lemma AddSlotValid(b: Backlog, time: int, d: Data)
    requires Valid(b)
    ensures Valid(AddSlot(b, time, d))
  {
    var x := Slot(time, b.nextRef, 0);
    assert b.nextRef !in b.memory.Keys;
    InsertMembers(b.slots, x);
    InsertOrdered(b.slots, x);
  }

  /** The sample objects of the slots that nobody has locked. */
  ghost function UnlockedRefs(s: seq<Slot>): (r: set<Ref>) {
    set x | x in s && x.locks <= 0 :: x.ref
  }

  lemma UnlockedRefsSplit(s: seq<Slot>)
    requires s != []
    ensures UnlockedRefs(s) == (if s[0].locks <= 0 then {s[0].ref} else {}) + UnlockedRefs(s[1..])
  {
    assert s == [s[0]] + s[1..];
    assert forall x :: x in s <==> x == s[0] || x in s[1..];
  }

  lemma DropOldestSetsAside(b: Backlog, y: Slot)
    requires |b.slots| > 0
    ensures y in DropOldest(b).deleted <==> y in b.deleted || (y == b.slots[0] && y.locks > 0)
  {
    InsertMembers(b.deleted, b.slots[0]);
  }

  lemma TailParts(s: seq<Slot>, n: nat)
    requires n < |s|
    ensures s[1..][|s[1..]| - n..] == s[|s| - n..]
    ensures s[1..][..|s[1..]| - n] == s[..|s| - n][1..]
    ensures s[..|s| - n] == [s[0]] + s[1..][..|s[1..]| - n]
  {
  }

  lemma {:induction false} ShrinkKeepsAt(b: Backlog, n: nat, i: nat)
    requires i < n <= |b.slots|
    ensures Shrink(b, n).slots[i] == b.slots[|b.slots| - n + i]
    decreases |b.slots|
  {
    if |b.slots| > n {
      ShrinkKeepsAt(DropOldest(b), n, i);
    }
  }

  lemma {:induction false} ShrinkKeepsRest(b: Backlog, n: nat)
    ensures Shrink(b, n).nextRef == b.nextRef && Shrink(b, n).latest == b.latest
    decreases |b.slots|
  {
    if |b.slots| > n {
      ShrinkKeepsRest(DropOldest(b), n);
    }
  }

  lemma {:induction false} ShrinkFreesUnlocked(b: Backlog, n: nat, p: Ref)
    requires n <= |b.slots|
    ensures p in Shrink(b, n).memory <==> p in b.memory && p !in UnlockedRefs(b.slots[..|b.slots| - n])
    ensures p in Shrink(b, n).memory ==> Shrink(b, n).memory[p] == b.memory[p]
    decreases |b.slots|
  {
    if |b.slots| > n {
      ShrinkFreesUnlocked(DropOldest(b), n, p);
      TailParts(b.slots, n);
      UnlockedRefsSplit(b.slots[..|b.slots| - n]);
    }
  }

  lemma {:induction false} ShrinkSetsAside(b: Backlog, n: nat, y: Slot)
    requires n <= |b.slots|
    ensures y in Shrink(b, n).deleted <==> y in b.deleted || (y in b.slots[..|b.slots| - n] && y.locks > 0)
    decreases |b.slots|
  {
    if |b.slots| > n {
      DropOldestSetsAside(b, y);
      ShrinkSetsAside(DropOldest(b), n, y);
      TailParts(b.slots, n);
    }
  }

  /**
    Shrinking drops the oldest slots and keeps the newest.  Of those dropped
    the locked ones are kept aside, with their locks and their sample objects;
    the objects of the others are gone.
   */
  lemma ShrinkDropsOldest(b: Backlog, n: nat)
    requires n <= |b.slots|
    ensures var r, k := Shrink(b, n), |b.slots| - n;
            && r.slots == b.slots[k..]
            && (forall y :: y in r.deleted <==> y in b.deleted || (y in b.slots[..k] && y.locks > 0))
            && r.memory == b.memory - UnlockedRefs(b.slots[..k])
            && r.nextRef == b.nextRef && r.latest == b.latest
  {
    forall i | 0 <= i < n ensures Shrink(b, n).slots[i] == b.slots[|b.slots| - n + i] {
      ShrinkKeepsAt(b, n, i);
    }
    ShrinkKeepsRest(b, n);
    var r := Shrink(b, n);
    forall p
      ensures p in r.memory <==> p in b.memory && p !in UnlockedRefs(b.slots[..|b.slots| - n])
      ensures p in r.memory ==> r.memory[p] == b.memory[p]
    {
      ShrinkFreesUnlocked(b, n, p);
    }
    forall y
      ensures y in r.deleted <==> y in b.deleted || (y in b.slots[..|b.slots| - n] && y.locks > 0)
    {
      ShrinkSetsAside(b, n, y);
    }
  }

  /** Growing keeps every slot and adds empty, unlocked ones with sample objects of their own. */
  lemma {:induction false} GrowAddsEmpty(b: Backlog, n: nat)
    requires Valid(b) && |b.slots| <= n
    ensures var r, k := Grow(b, n), n - |b.slots|;
            && (forall y :: y in r.slots <==>
                  y in b.slots || (b.nextRef <= y.ref < b.nextRef + k && y == Slot(EMPTY, y.ref, 0)))
            && (forall p :: p in r.memory <==> p in b.memory || b.nextRef <= p < b.nextRef + k)
            && (forall p :: p in r.memory ==> r.memory[p] == if p in b.memory then b.memory[p] else Sample(EMPTY, 0))
            && r.deleted == b.deleted && r.nextRef == b.nextRef + k && r.latest == b.latest
    decreases n - |b.slots|
  {
    if |b.slots| < n {
      AddSlotValid(b, EMPTY, 0);
      InsertMembers(b.slots, Slot(EMPTY, b.nextRef, 0));
      GrowAddsEmpty(AddEmpty(b), n);
    }
  }

  // ------------------------------------------------------------------- clear

  function Emptied(s: seq<Slot>): (r: seq<Slot>)
    ensures |r| == |s| && forall i :: 0 <= i < |s| ==> r[i] == Slot(EMPTY, s[i].ref, 0)
  {
    seq(|s|, i requires 0 <= i < |s| => Slot(EMPTY, s[i].ref, 0))
  }

  /**
    All slots empty and unlocked, the first one reused for the default sample
    at time 0; trimmed samples are dropped, locked or not.
   */
  function Cleared(b: Backlog, d: Data): (r: Backlog)
    requires |b.slots| > 0
    ensures |r.slots| == |b.slots|
  {
    var first := b.slots[0].ref;
    b.(slots := Emptied(b.slots)[1..] + [Slot(0, first, 0)],
       deleted := [],
       memory := map x | x in b.slots :: x.ref := if x.ref == first then Sample(0, d) else Sample(EMPTY, 0))
  }

  lemma ClearedSlot(b: Backlog, d: Data, i: nat)
    requires i < |b.slots|
    ensures var r, n := Cleared(b, d), |b.slots|;
            r.slots[i] == if i < n - 1 then Slot(EMPTY, b.slots[i + 1].ref, 0) else Slot(0, b.slots[0].ref, 0)
  {
  }

  lemma ClearedOrdered(b: Backlog, d: Data)
    requires Ordered(b.slots) && |b.slots| > 0
    ensures Ordered(Cleared(b, d).slots) && Refs(Cleared(b, d).slots) == Refs(b.slots)
  {
    var s, r := b.slots, Cleared(b, d).slots;
    forall i, j | 0 <= i < j < |r| ensures r[i].tm <= r[j].tm && r[i].ref != r[j].ref {
      ClearedSlot(b, d, i);
      ClearedSlot(b, d, j);
    }
    forall p ensures p in Refs(r) <==> p in Refs(s) {
      if p in Refs(s) {
        var i :| 0 <= i < |s| && s[i].ref == p;
        assert r[if i == 0 then |s| - 1 else i - 1].ref == p;
      }
      if p in Refs(r) {
        var i :| 0 <= i < |r| && r[i].ref == p;
        ClearedSlot(b, d, i);
        assert s[if i < |s| - 1 then i + 1 else 0] in s;
      }
    }
  }

  lemma ClearedSample(b: Backlog, d: Data, i: nat)
    requires Distinct(b.slots) && i < |b.slots|
    ensures var r := Cleared(b, d);
            var y := r.slots[i];
            y.locks == 0 && y.ref in r.memory && r.memory[y.ref].time == y.tm
  {
    var s := b.slots;
    ClearedSlot(b, d, i);
    assert s[if i < |s| - 1 then i + 1 else 0] in s;
  }

  lemma ClearedKeys(b: Backlog, d: Data)
    requires |b.slots| > 0
    ensures Cleared(b, d).memory.Keys == Refs(b.slots)
  {
  }

  lemma ClearedValid(b: Backlog, d: Data)
    requires Valid(b) && |b.slots| > 0
    ensures Valid(Cleared(b, d))
  {
    var r := Cleared(b, d);
    ClearedOrdered(b, d);
    ClearedKeys(b, d);
    forall y | y in r.slots ensures y.ref in r.memory && r.memory[y.ref].time == y.tm && y.locks == 0 {
      var i :| 0 <= i < |r.slots| && r.slots[i] == y;
      ClearedSample(b, d, i);
    }
  }

  // --------------------------------------------------------------- selection

  /** The newest slot. */
  function SelectLatest(s: seq<Slot>): (i: nat)
    requires |s| > 0
    ensures i < |s|
  {
    |s| - 1
  }

  /** No slot is newer than the latest one, and in a live backlog it holds a received or default sample. */
  lemma LatestIsNewest(b: Backlog)
    requires Sorted(b.slots) && |b.slots| > 0
    ensures forall x :: x in b.slots ==> x.tm <= b.slots[SelectLatest(b.slots)].tm
    ensures Live(b) ==> b.slots[SelectLatest(b.slots)].tm > EMPTY
  {
  }

  function ClampTime(t: int): (r: int)
  {
    if t < 0 then 0 else t
  }

  /** The nearest-sample search by lower bound and its predecessor. */
  function SelectNearest(s: seq<Slot>, time: int): (i: nat)
    requires |s| > 0
    ensures i < |s|
  {
    var t := ClampTime(time);
    var k := LowerBound(s, t);
    if k == |s| then
      |s| - 1
    else if s[k].tm == t || k == 0 || s[k - 1].tm == EMPTY || s[k].tm - t <= t - s[k - 1].tm then
      k
    else
      k - 1
  }

  /** The newest slot not later than the bound, if any. */
  function SelectUpperBound(s: seq<Slot>, t: int): (r: Option<nat>)
    ensures r.Some? ==> r.value < |s|
  {
    var k := UpperBound(s, t);
    if k == 0 then None else Some(k - 1)
  }

  function Distance(a: int, b: int): (d: nat)
    ensures d == a - b || d == b - a
  {
    if a < b then b - a else a - b
  }

  /**
    Reference definition of nearest selection by a full scan: a received
    sample, no received sample is closer to the requested time (clamped at
    0), and none that is equally close is newer.
   */
  ghost predicate IsNearest(s: seq<Slot>, time: int, i: nat) {
    var t := ClampTime(time);
    && i < |s|
    && s[i].tm != EMPTY
    && forall j :: 0 <= j < |s| && s[j].tm != EMPTY ==>
      Distance(s[i].tm, t) < Distance(s[j].tm, t)
      || (Distance(s[i].tm, t) == Distance(s[j].tm, t) && s[j].tm <= s[i].tm)
  }

  /** Distances grow with the order on either side of the requested time. */
  lemma DistanceMonotone(s: seq<Slot>, t: int, i: nat, j: nat)
    requires Sorted(s) && i <= j < |s|
    ensures t <= s[i].tm ==> Distance(s[i].tm, t) <= Distance(s[j].tm, t)
    ensures s[j].tm <= t ==> Distance(s[j].tm, t) <= Distance(s[i].tm, t)
    ensures s[i].tm <= s[j].tm
  {
  }

  /** The tree search agrees with the full scan in every live backlog. */
  lemma NearestIsMinimal(b: Backlog, time: int)
    requires Valid(b) && Live(b)
    ensures IsNearest(b.slots, time, SelectNearest(b.slots, time))
  {
    var s, t := b.slots, ClampTime(time);
    var k, i := LowerBound(s, t), SelectNearest(s, time);
    forall j | 0 <= j < |s| && s[j].tm != EMPTY
      ensures Distance(s[i].tm, t) < Distance(s[j].tm, t)
              || (Distance(s[i].tm, t) == Distance(s[j].tm, t) && s[j].tm <= s[i].tm)
    {
      NearestBeats(s, t, k, i, j);
    }
  }

  lemma NearestBeats(s: seq<Slot>, t: nat, k: nat, i: nat, j: nat)
    requires Sorted(s) && j < |s| && k == LowerBound(s, t) && i == SelectNearest(s, t)
    requires s[j].tm > EMPTY
    ensures Distance(s[i].tm, t) < Distance(s[j].tm, t)
            || (Distance(s[i].tm, t) == Distance(s[j].tm, t) && s[j].tm <= s[i].tm)
  {
    if j < k {
      DistanceMonotone(s, t, j, k - 1);
    } else {
      DistanceMonotone(s, t, k, j);
    }
  }

  /** Upper-bound selection is the newest slot at or before the bound. */
  lemma UpperBoundIsNewestBefore(b: Backlog, t: int)
    requires Valid(b)
    ensures match SelectUpperBound(b.slots, t)
            case None => forall j :: 0 <= j < |b.slots| ==> b.slots[j].tm > t
            case Some(i) => b.slots[i].tm <= t && forall j :: 0 <= j < |b.slots| && b.slots[j].tm <= t ==> j <= i
  {
    var k := UpperBound(b.slots, t);
    assert forall j :: k <= j < |b.slots| ==> b.slots[j].tm > t;
  }

  // ------------------------------------------------------------ lock, unlock

  function Relock(b: Backlog, i: nat, n: int): (r: Backlog)
    requires i < |b.slots|
    ensures |r.slots| == |b.slots|
  {
    b.(slots := b.slots[i := b.slots[i].(locks := n)])
  }

  function LockSlot(b: Backlog, i: nat): (r: Backlog)
    requires i < |b.slots|
  {
    Relock(b, i, b.slots[i].locks + 1)
  }

  /** Position of the slot of time `t` that points to `p`; |s| if there is none. */
  function FindSlot(s: seq<Slot>, p: Ref, t: int): (k: nat)
    ensures k <= |s|
    ensures k < |s| ==> s[k].ref == p && s[k].tm == t
    ensures forall i :: 0 <= i < k ==> s[i].ref != p || s[i].tm != t
  {
    if s == [] || (s[0].ref == p && s[0].tm == t) then 0 else 1 + FindSlot(s[1..], p, t)
  }

  /** Unlocking the sample object `p` whose own time is `t`. */
  function Unlock(b: Backlog, p: Ref, t: int): (r: (Backlog, Result))
  {
    var i := FindSlot(b.slots, p, t);
    if i < |b.slots| then
      if b.slots[i].locks > 0 then (Relock(b, i, b.slots[i].locks - 1), Ok) else (b, Failed)
    else
      var j := FindSlot(b.deleted, p, t);
      if j < |b.deleted| then (ReleaseDeleted(b, j), Ok) else (b, InvalidArg)
  }

  function ReleaseDeleted(b: Backlog, j: nat): (r: Backlog)
    requires j < |b.deleted|
  {
    var x := b.deleted[j];
    if x.locks - 1 == 0 then
      b.(deleted := RemoveAt(b.deleted, j), memory := b.memory - {x.ref})
    else
      b.(deleted := b.deleted[j := x.(locks := x.locks - 1)])
  }

  lemma RelockValid(b: Backlog, i: nat, n: nat)
    requires Valid(b) && i < |b.slots|
    ensures Valid(Relock(b, i, n))
  {
    assert b.slots[i] in b.slots;
    RelockOrdered(b.slots, i, n);
  }

  /** The last unlock of a deleted slot drops the slot and its sample object. */
  lemma DropDeletedValid(b: Backlog, j: nat)
    requires Valid(b) && j < |b.deleted|
    ensures Valid(b.(deleted := RemoveAt(b.deleted, j), memory := b.memory - {b.deleted[j].ref}))
  {
    var x, d := b.deleted[j], RemoveAt(b.deleted, j);
    assert x in b.deleted && x.ref in Refs(b.deleted);
    RemoveOrdered(b.deleted, j);
    forall y | y in b.slots ensures y.ref != x.ref {
      assert y.ref in Refs(b.slots);
    }
    forall y | y in d ensures y in b.deleted && y.ref != x.ref {
      assert y.ref in Refs(d);
    }
  }

  lemma RelockDeletedValid(b: Backlog, j: nat, n: nat)
    requires Valid(b) && j < |b.deleted| && n > 0
    ensures Valid(b.(deleted := b.deleted[j := b.deleted[j].(locks := n)]))
  {
    assert b.deleted[j] in b.deleted;
    RelockOrdered(b.deleted, j, n);
  }

  lemma ReleaseDeletedValid(b: Backlog, j: nat)
    requires Valid(b) && j < |b.deleted|
    ensures Valid(ReleaseDeleted(b, j))
  {
    var x := b.deleted[j];
    assert x in b.deleted;
    if x.locks == 1 {
      DropDeletedValid(b, j);
    } else {
      RelockDeletedValid(b, j, x.locks - 1);
    }
  }

  /** What the holder of a lock finds: the sample of the slot, in stores that are still in order. */
  lemma LockedSlotFacts(b: Backlog, i: nat)
    requires Valid(b) && i < |b.slots|
    ensures Sorted(LockSlot(b, i).slots) && Sorted(LockSlot(b, i).deleted)
    ensures b.slots[i].ref in b.memory && b.memory[b.slots[i].ref].time == b.slots[i].tm
  {
    assert b.slots[i] in b.slots;
    RelockValid(b, i, b.slots[i].locks + 1);
  }

  /** Locking and then unlocking the sample that was handed out changes nothing. */
  lemma LockUnlockRoundTrip(b: Backlog, i: nat)
    requires Valid(b) && i < |b.slots|
    ensures Unlock(LockSlot(b, i), b.slots[i].ref, b.slots[i].tm) == (b, Ok)
  {
    var c := LockSlot(b, i);
    var k := FindSlot(c.slots, b.slots[i].ref, b.slots[i].tm);
    assert b.slots[i] in b.slots;
    assert k == i by {
      assert c.slots[i].ref == b.slots[i].ref && c.slots[i].tm == b.slots[i].tm;
      assert forall j :: 0 <= j < i ==> c.slots[j].ref != b.slots[i].ref;
    }
    assert c.slots[i := b.slots[i]] == b.slots;
  }

  // ------------------------------------------------------------- time window

  ghost predicate InWindow(s: seq<Slot>, lo: int, hi: int) {
    exists i :: 0 <= i < |s| && lo <= s[i].tm <= hi
  }
}
