/**
  The sender: stamps every sample with a frame id and a sample number and
  counts only successful transmissions.
 */
module SignalCounter {
  import opened Results
  import opened DdbFrame

  /** Sample numbers are 16 bits wide and frame ids 64 bits; both wrap. */
  const SAMPLE_NUMBERS: nat := 0x1_0000
  const FRAME_IDS: nat := 0x1_0000_0000_0000_0000

  /** One call: the sample handed in, and whether the adapter transmits it. */
  datatype Attempt = Attempt(handle: int, sync: bool, data: Data, transmitted: bool)

  datatype Counter = Counter(handle: int, prevSync: bool, frameId: nat, number: nat)

  /** Frames count from 1 and samples from 0. */
  function Configured(handle: int): (c: Counter) {
    Counter(handle, true, 1, 0)
  }

  /** What goes on the wire: the stamps of the counter and the internal handle. */
  function Stamp(c: Counter, a: Attempt): (s: Sample) {
    Sample(c.handle, c.frameId, c.number, a.sync, a.data)
  }

  function Count(c: Counter, a: Attempt): (r: Counter) {
    if !a.transmitted then c.(prevSync := a.sync)
    else if a.sync then c.(prevSync := a.sync, number := 0, frameId := (c.frameId + 1) % FRAME_IDS)
    else c.(prevSync := a.sync, number := (c.number + 1) % SAMPLE_NUMBERS)
  }

  /** The samples that reach the wire in a series of calls. */
  function Sent(c: Counter, calls: seq<Attempt>): (r: seq<Sample>)
    decreases |calls|
  {
    if calls == [] then []
    else (if calls[0].transmitted then [Stamp(c, calls[0])] else []) + Sent(Count(c, calls[0]), calls[1..])
  }

  function Transmitted(calls: seq<Attempt>): (r: seq<Attempt>)
    ensures forall i :: 0 <= i < |r| ==> r[i].transmitted
  {
    if calls == [] then []
    else (if calls[0].transmitted then [calls[0]] else []) + Transmitted(calls[1..])
  }

  /** Whatever calls fail, the samples on the wire are numbered as if only the successful calls had been made. */
  lemma {:induction false} FailuresAreInvisible(c: Counter, d: Counter, calls: seq<Attempt>)
    requires c == d.(prevSync := c.prevSync)
    ensures Sent(c, calls) == Sent(d, Transmitted(calls))
    decreases |calls|
  {
    if calls != [] {
      var d' := if calls[0].transmitted then Count(d, calls[0]) else d;
      FailuresAreInvisible(Count(c, calls[0]), d', calls[1..]);
      if calls[0].transmitted {
        var t := Transmitted(calls);
        assert t[0] == calls[0] && t[1..] == Transmitted(calls[1..]);
        assert Sent(d, t) == [Stamp(d, t[0])] + Sent(Count(d, t[0]), t[1..]);
      } else {
        assert Transmitted(calls) == Transmitted(calls[1..]);
        assert Sent(c, calls) == Sent(Count(c, calls[0]), calls[1..]);
      }
    }
  }

  /** What is on the wire, apart from the numbers: the internal handle, and sync flag and data of the caller. */
  ghost predicate Carries(handle: int, a: Attempt, s: Sample) {
    s.handle == handle && s.sync == a.sync && s.data == a.data
  }

  /** One sample on the wire for each successful call, in order, with the data of that call. */
  lemma {:induction false} SentCarries(c: Counter, calls: seq<Attempt>)
    ensures |Sent(c, calls)| == |Transmitted(calls)|
    ensures forall i :: 0 <= i < |Sent(c, calls)| ==> Carries(c.handle, Transmitted(calls)[i], Sent(c, calls)[i])
    decreases |calls|
  {
    if calls != [] {
      SentCarries(Count(c, calls[0]), calls[1..]);
    }
  }

  // ---------------------------------------------------------- gap-free numbers

  /** The stamp that has to follow `s`. */
  predicate Follows(s: Sample, t: Sample) {
    if s.sync then t.frameId == s.frameId + 1 && t.number == 0
    else t.frameId == s.frameId && t.number == s.number + 1
  }

  /** Frames from 1, samples from 0, no gap, a new frame exactly behind a sync flag. */
  predicate GapFree(sent: seq<Sample>) {
    GapFreeFrom(1, 0, sent)
  }

  /** The first successful call that would need a number beyond its width, if any: the wrap-free condition. */
  predicate Fits(frameId: nat, number: nat, calls: seq<Attempt>)
    decreases |calls|
  {
    calls == []
    || (frameId < FRAME_IDS && number < SAMPLE_NUMBERS
        && if calls[0].sync then Fits(frameId + 1, 0, calls[1..]) else Fits(frameId, number + 1, calls[1..]))
  }

  lemma SentUnfolds(c: Counter, calls: seq<Attempt>)
    requires calls != [] && forall i :: 0 <= i < |calls| ==> calls[i].transmitted
    ensures var r := Sent(c, calls);
            r != [] && r[0] == Stamp(c, calls[0]) && r[1..] == Sent(Count(c, calls[0]), calls[1..])
  {
  }

  /** Gap-free from a given first stamp on. */
  predicate GapFreeFrom(frameId: nat, number: nat, sent: seq<Sample>) {
    && (|sent| > 0 ==> sent[0].frameId == frameId && sent[0].number == number)
    && forall i {:trigger sent[i]} :: 0 < i < |sent| ==> Follows(sent[i - 1], sent[i])
  }

  lemma GapFreeUnfolds(frameId: nat, number: nat, sent: seq<Sample>)
    requires sent != []
    ensures GapFreeFrom(frameId, number, sent) <==>
            && sent[0].frameId == frameId && sent[0].number == number
            && if sent[0].sync then GapFreeFrom(frameId + 1, 0, sent[1..])
               else GapFreeFrom(frameId, number + 1, sent[1..])
  {
    var rest := sent[1..];
    if GapFreeFrom(frameId, number, sent) {
      assert forall i {:trigger rest[i]} :: 0 < i < |rest| ==> Follows(sent[i], sent[i + 1]);
    }
    if sent[0].frameId == frameId && sent[0].number == number
       && if sent[0].sync then GapFreeFrom(frameId + 1, 0, rest) else GapFreeFrom(frameId, number + 1, rest) {
      forall i {:trigger sent[i]} | 0 < i < |sent| ensures Follows(sent[i - 1], sent[i]) {
        if i > 1 {
          assert Follows(rest[i - 2], rest[i - 1]);
        } else {
          assert sent[1] == rest[0];
        }
      }
    }
  }

  lemma NextFrameId(n: nat)
    ensures (n % FRAME_IDS + 1) % FRAME_IDS == (n + 1) % FRAME_IDS
    ensures n % FRAME_IDS == n <==> n < FRAME_IDS
  {
  }

  lemma NextNumber(n: nat)
    ensures (n % SAMPLE_NUMBERS + 1) % SAMPLE_NUMBERS == (n + 1) % SAMPLE_NUMBERS
    ensures n % SAMPLE_NUMBERS == n <==> n < SAMPLE_NUMBERS
  {
  }

  /** The numbering is gap-free exactly as long as neither number wraps. */
  lemma {:induction false} GapFreeFromIffFits(c: Counter, frameId: nat, number: nat, calls: seq<Attempt>)
    requires forall i :: 0 <= i < |calls| ==> calls[i].transmitted
    requires c.frameId == frameId % FRAME_IDS && c.number == number % SAMPLE_NUMBERS
    ensures GapFreeFrom(frameId, number, Sent(c, calls)) <==> Fits(frameId, number, calls)
    decreases |calls|
  {
    if calls != [] {
      var sent := Sent(c, calls);
      SentUnfolds(c, calls);
      GapFreeUnfolds(frameId, number, sent);
      var c' := Count(c, calls[0]);
      NextFrameId(frameId);
      NextNumber(number);
      if calls[0].sync {
        GapFreeFromIffFits(c', frameId + 1, 0, calls[1..]);
      } else {
        GapFreeFromIffFits(c', frameId, number + 1, calls[1..]);
      }
    }
  }

  /**
    For every pattern of failures: the numbering on the wire is gap-free if
    and only if no frame has more than 2^16 successful samples and the frame
    ids stay within 64 bits.
   */
  lemma GapFreeIffFits(handle: int, calls: seq<Attempt>)
    ensures GapFree(Sent(Configured(handle), calls)) <==> Fits(1, 0, Transmitted(calls))
  {
    var c := Configured(handle);
    FailuresAreInvisible(c, c, calls);
    GapFreeFromIffFits(c, 1, 0, Transmitted(calls));
  }

  // ------------------------------------------------- consequences for a reader

  /** What remains true of gap-free numbering when samples are lost. */
  ghost predicate Stream(r: seq<Sample>) {
    && (forall i :: 0 <= i < |r| ==> r[i].frameId > 0)
    && forall i, j :: 0 <= i < j < |r| ==> Before(r[i], r[j])
  }

  predicate Before(s: Sample, t: Sample) {
    s.frameId < t.frameId || (s.frameId == t.frameId && s.number < t.number && !s.sync)
  }

  lemma FollowsOrders(r: Sample, s: Sample, t: Sample, same: bool)
    requires Follows(s, t) && (if same then r == s else Before(r, s))
    ensures Before(r, t)
  {
  }

  lemma {:induction false} GapFreeOrders(sent: seq<Sample>, i: nat, j: nat)
    requires GapFree(sent) && i < j < |sent|
    ensures Before(sent[i], sent[j])
    decreases j - i
  {
    if i < j - 1 {
      GapFreeOrders(sent, i, j - 1);
    }
    assert Follows(sent[j - 1], sent[j]);
    FollowsOrders(sent[i], sent[j - 1], sent[j], i == j - 1);
  }

  lemma {:induction false} FrameIdPositive(sent: seq<Sample>, i: nat)
    requires GapFree(sent) && i < |sent|
    ensures sent[i].frameId > 0
  {
    if i > 0 {
      assert Follows(sent[i - 1], sent[i]);
      FrameIdPositive(sent, i - 1);
    }
  }

  /** Reception in order, with any losses: `at` gives the position of each received sample in the sent series. */
  ghost predicate Received(r: seq<Sample>, sent: seq<Sample>, at: seq<nat>) {
    && |at| == |r|
    && (forall i :: 0 <= i < |r| ==> at[i] < |sent| && r[i] == sent[at[i]])
    && forall i, j :: 0 <= i < j < |r| ==> at[i] < at[j]
  }

  lemma ReceptionIsStream(r: seq<Sample>, sent: seq<Sample>, at: seq<nat>)
    requires GapFree(sent) && Received(r, sent, at)
    ensures Stream(r)
  {
    forall i | 0 <= i < |r| ensures r[i].frameId > 0 {
      FrameIdPositive(sent, at[i]);
    }
    forall i, j | 0 <= i < j < |r| ensures Before(r[i], r[j]) {
      GapFreeOrders(sent, at[i], at[j]);
    }
  }

  /** Every smaller sample number of a frame was sent, too. */
  lemma {:induction false} EarlierNumbersSent(sent: seq<Sample>, i: nat, k: nat) returns (j: nat)
    requires GapFree(sent) && i < |sent| && k <= sent[i].number
    ensures j <= i && sent[j].frameId == sent[i].frameId && sent[j].number == k
    decreases i
  {
    if k == sent[i].number {
      j := i;
    } else {
      assert i > 0 && Follows(sent[i - 1], sent[i]);
      j := EarlierNumbersSent(sent, i - 1, k);
    }
  }

  lemma StampIsUnique(sent: seq<Sample>, i: nat, j: nat)
    requires GapFree(sent) && i < |sent| && j < |sent|
    requires sent[i].frameId == sent[j].frameId && sent[i].number == sent[j].number
    ensures i == j
  {
    if i < j {
      GapFreeOrders(sent, i, j);
    } else if j < i {
      GapFreeOrders(sent, j, i);
    }
  }

  // -------------------------------------------------------------------- class

  /** A sample object of the caller, with the fields SendNow writes. */
  class OutgoingSample {
    var handle: int
    var frameId: nat
    var number: nat
    const sync: bool
    const data: Data

    constructor (handle: int, sync: bool, data: Data)
      ensures this.handle == handle && this.sync == sync && this.data == data
    {
      this.handle, this.sync, this.data := handle, sync, data;
      frameId, number := 0, 0;
    }
  }

  class SignalCounter {
    var signalHandle: int
    var prevSync: bool
    var frameId: nat
    var number: nat

    ghost function Value(): (c: Counter)
      reads this
    {
      Counter(signalHandle, prevSync, frameId, number)
    }

    constructor ()
      ensures Value() == Counter(0, true, 0, 0)
    {
      signalHandle, prevSync, frameId, number := 0, true, 0, 0;
    }

    /**
      `complete` says that adapter, property tree and signal name are given;
      the registration at the adapter yields a result and the internal handle.
     */
    method Create(complete: bool, registered: Result, handle: int) returns (res: Result)
      modifies this
      ensures res == if complete then registered else Pointer
      ensures Value() == if res == Ok then Configured(handle) else old(Value())
    {
      if !complete {
        return Pointer;
      }
      res := registered;
      if res == Ok {
        signalHandle := handle;
        ConfigureSampleCounter();
      }
    }

    method ConfigureSampleCounter()
      modifies this`prevSync, this`frameId, this`number
      ensures Value() == Configured(old(signalHandle))
    {
      prevSync, frameId, number := true, 1, 0;
    }

    /** `transmit` is what the adapter does with the stamped sample. */
    method SendNow(sample: OutgoingSample, transmit: Sample -> Result) returns (res: Result, onWire: Sample)
      modifies this, sample
      ensures var a := Attempt(old(sample.handle), sample.sync, sample.data, res == Ok);
              && onWire == Stamp(old(Value()), a)
              && Value() == Count(old(Value()), a)
      ensures onWire.handle == old(signalHandle) && onWire.sync == sample.sync && onWire.data == sample.data
      ensures res == transmit(onWire)
      ensures sample.handle == old(sample.handle)
      ensures sample.frameId == onWire.frameId && sample.number == onWire.number
    {
      prevSync := sample.sync;
      sample.frameId := frameId;
      sample.number := number;
      var extHandle := sample.handle;
      sample.handle := signalHandle;
      onWire := Sample(sample.handle, sample.frameId, sample.number, sample.sync, sample.data);
      res := transmit(onWire);
      sample.handle := extHandle;
      if res == Ok {
        if prevSync {
          number := 0;
          frameId := (frameId + 1) % FRAME_IDS;
        } else {
          number := (number + 1) % SAMPLE_NUMBERS;
        }
      }
    }
  }
}
