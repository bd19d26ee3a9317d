/**
  The distributed data buffer: three frames that change places.  The receive
  callback fills the write frame, finished frames wait in the stock, the worker
  moves them to the read side.  The value `Core` and the functions on it are
  the atomic actions that DdbProtocol interleaves.
 */
module Ddb {
  import opened Results
  import opened DdbFrame

  datatype Strategy = DeliverIncomplete | DumpIncomplete

  /** The frames are numbered 0, 1, 2 in allocation order; read, stock and write say which is which. */
  datatype Core = Core(
    handle: int,
    frames: seq<Frame>,
    read: nat,
    stock: nat,
    write: nat,
    full: bool,
    permits: nat,
    strategy: Strategy,
    prevFrame: nat,
    prevNumber: nat,
    prevSync: bool)

  /** The three pointers are a permutation of the three allocated frames. */
  predicate Permuted(c: Core) {
    && |c.frames| == 3
    && c.read < 3 && c.stock < 3 && c.write < 3
    && c.read != c.stock && c.stock != c.write && c.read != c.write
  }

  // ------------------------------------------------------------ atomic actions

  /** A sample that ends an earlier frame whose sync flag was missed. */
  predicate ClosesPrevious(c: Core, s: Sample) {
    s.frameId > c.prevFrame && !c.prevSync
  }

  function AnalyseWrite(c: Core): (r: Core)
    requires Permuted(c)
    ensures Permuted(r)
  {
    c.(frames := c.frames[c.write := Analysed(c.frames[c.write])])
  }

  /** The frame is not handed over: incomplete frames are dumped. */
  predicate Dumps(c: Core)
    requires Permuted(c)
  {
    c.strategy == DumpIncomplete && GetValidCount(c.frames[c.write]) != GetFrameSize(c.frames[c.write])
  }

  function SwapWrite(c: Core): (r: Core) {
    c.(stock := c.write, write := c.stock)
  }

  function NotifyReady(c: Core): (r: Core) {
    if c.full then c else c.(permits := c.permits + 1)
  }

  function FillStock(c: Core): (r: Core) {
    c.(full := true)
  }

  function SwitchWrite(c: Core): (r: (Core, Result))
    requires Permuted(c)
    ensures Permuted(r.0)
  {
    if Dumps(c) then (c, OutOfRange)
    else (FillStock(NotifyReady(SwapWrite(c))), if c.full then ResourceInUse else Ok)
  }

  function Store(c: Core, s: Sample): (r: Core)
    requires Permuted(c)
    ensures Permuted(r)
  {
    c.(frames := c.frames[c.write := WithSample(c.frames[c.write], s).0])
  }

  function Remember(c: Core, s: Sample): (r: Core) {
    c.(prevFrame := s.frameId, prevNumber := s.number, prevSync := s.sync)
  }

  function CloseIf(close: bool, c: Core): (r: Core)
    requires Permuted(c)
    ensures Permuted(r)
  {
    if close then SwitchWrite(AnalyseWrite(c)).0 else c
  }

  /** The callback serves this sample: the buffer has memory and the handle matches. */
  predicate Accepts(c: Core, s: Sample)
    requires Permuted(c)
  {
    c.handle != 0 && |c.frames[c.write].cells| != 0 && s.handle == c.handle
  }

  /** The whole receive callback without interference. */
  function Receive(c: Core, s: Sample): (r: Core)
    requires Permuted(c)
    ensures Permuted(r)
  {
    if !Accepts(c, s) then c
    else Remember(CloseIf(s.sync, Store(CloseIf(ClosesPrevious(c, s), c), s)), s)
  }

  function SwitchRead(c: Core): (r: (Core, Result))
    requires Permuted(c)
    ensures Permuted(r.0)
  {
    if c.full then (c.(stock := c.read, read := c.stock, full := false), Ok) else (c, Empty)
  }

  function ResetAll(c: Core): (r: Core)
    requires Permuted(c)
    ensures Permuted(r)
  {
    c.(frames := [Invalidated(c.frames[0]), Invalidated(c.frames[1]), Invalidated(c.frames[2])],
       prevFrame := 0, prevNumber := 0, prevSync := true)
  }

  /** After a reset no frame shows a sample, also after an analysis, and no frame counts as left open. */
  lemma ResetHidesAll(c: Core, k: nat, i: nat)
    requires Permuted(c) && k < 3 && |c.frames[k].valid| == |c.frames[k].cells|
    ensures var r := ResetAll(c);
            && GetFrameSize(r.frames[k]) == 0 && !IsValidSample(r.frames[k], i)
            && GetFrameSize(Analysed(r.frames[k])) == 0 && !IsValidSample(Analysed(r.frames[k]), i)
            && |r.frames[k].cells| == |c.frames[k].cells|
            && forall s :: !ClosesPrevious(r, s)
  {
    var cells := ResetAll(c).frames[k].cells;
    assert forall j :: 0 <= j < |cells| ==> cells[j].frameId == 0;
    assert MaxId(cells) == 0;
    SizeNone(cells, 0);
  }

  /** What LockData hands to a reader: the read frame, or nothing while it is empty or not analysed. */
  function Readable(c: Core): (r: Option<nat>)
    requires Permuted(c)
  {
    if |c.frames[c.read].cells| != 0 && GetFrameSize(c.frames[c.read]) != 0 then Some(c.read) else None
  }

  /** A new buffer, before CreateEntry. */
  function Unconfigured(): (c: Core)
    ensures Permuted(c)
  {
    Core(0, [Fresh(0), Fresh(0), Fresh(0)], 0, 1, 2, false, 0, DeliverIncomplete, 0, 0, true)
  }

  /** A new buffer after CreateEntry. */
  function Created(handle: int, n: nat, strategy: Strategy): (c: Core)
    ensures Permuted(c)
    ensures c.handle == handle && c.strategy == strategy && !c.full
    ensures forall k :: 0 <= k < 3 ==> |c.frames[k].cells| == n && GetFrameSize(c.frames[k]) == 0
  {
    Core(handle, [Fresh(n), Fresh(n), Fresh(n)], 0, 1, 2, false, 0, strategy, 0, 0, true)
  }

  /** Without memory every sample is refused. */
  lemma UnconfiguredRefuses(s: Sample)
    ensures Receive(Unconfigured(), s) == Unconfigured()
  {
  }

  // -------------------------------------------------------------------- class

  class DataBuffer {
    const first: DataFrame
    const second: DataFrame
    const third: DataFrame
    var bufferRead: DataFrame
    var bufferStock: DataFrame
    var bufferWrite: DataFrame
    var handle: int
    var stockIsFull: bool
    var permits: nat
    var sharedLocks: nat
    var strategy: Strategy
    var prevFrameId: nat
    var prevSampleNumber: nat
    var prevSyncFlag: bool

    ghost predicate Valid()
      reads this, first, second, third
    {
      && first != second && second != third && first != third
      && {bufferRead, bufferStock, bufferWrite} == {first, second, third}
      && bufferRead != bufferStock && bufferStock != bufferWrite && bufferRead != bufferWrite
      && |first.valid| == |first.cells| && |second.valid| == |second.cells| && |third.valid| == |third.cells|
    }

    ghost function Index(f: DataFrame): (i: nat)
    {
      if f == first then 0 else if f == second then 1 else 2
    }

    ghost function Value(): (c: Core)
      reads this, first, second, third
      requires Valid()
      ensures Permuted(c)
      ensures c.frames[c.write] == bufferWrite.Value()
      ensures c.frames[c.read] == bufferRead.Value()
    {
      Core(handle, [first.Value(), second.Value(), third.Value()],
           Index(bufferRead), Index(bufferStock), Index(bufferWrite),
           stockIsFull, permits, strategy, prevFrameId, prevSampleNumber, prevSyncFlag)
    }

    constructor ()
      ensures Valid() && Value() == Unconfigured() && sharedLocks == 0
      ensures handle == 0 && !stockIsFull && permits == 0 && prevSyncFlag
      ensures |first.cells| == 0 && |second.cells| == 0 && |third.cells| == 0
      ensures fresh(first) && fresh(second) && fresh(third)
    {
      first := new DataFrame();
      second := new DataFrame();
      third := new DataFrame();
      bufferRead, bufferStock, bufferWrite := first, second, third;
      handle, strategy := 0, DeliverIncomplete;
      stockIsFull, permits, sharedLocks := false, 0, 0;
      prevFrameId, prevSampleNumber, prevSyncFlag := 0, 0, true;
    }

    /** The first configuration of a new buffer; refused arguments leave it without memory. */
    method CreateEntry(handle: int, n: nat, strategy: Strategy) returns (res: Result)
      requires Valid() && Value() == Unconfigured()
      modifies this, first, second, third
      ensures Valid() && sharedLocks == old(sharedLocks)
      ensures res == if handle == 0 || n == 0 then InvalidArg else Ok
      ensures Value() == if res == Ok then Created(handle, n, strategy) else old(Value())
      ensures res == Ok ==> this.handle == handle && this.strategy == strategy
    {
      if handle == 0 || n == 0 {
        return InvalidArg;
      }
      this.strategy := strategy;
      assert first.Value() == Fresh(0) && second.Value() == Fresh(0) && third.Value() == Fresh(0);
      bufferRead.InitMemory(n);
      bufferStock.InitMemory(n);
      bufferWrite.InitMemory(n);
      this.handle := handle;
      res := Ok;
    }

    /** The caller holds a shared lock afterwards in either case, also when there is no frame to read. */
    method LockData() returns (res: Result, frame: DataFrame?)
      requires Valid()
      modifies this`sharedLocks
      ensures Valid() && Value() == old(Value()) && sharedLocks == old(sharedLocks) + 1
      ensures res == Ok <==> |bufferRead.cells| != 0 && bufferRead.current && bufferRead.frameSize != 0
      ensures if res == Ok then frame == bufferRead else res == Empty && frame == null
      ensures res == Ok <==> Readable(Value()) == Some(Index(bufferRead))
    {
      sharedLocks := sharedLocks + 1;
      res, frame := Ok, bufferRead;
      var frameSize := if bufferRead.current then bufferRead.frameSize else 0;
      if |bufferRead.cells| == 0 || frameSize == 0 {
        res, frame := Empty, null;
      }
    }

    method UnlockData() returns (res: Result)
      requires Valid() && sharedLocks > 0
      modifies this`sharedLocks
      ensures Valid() && Value() == old(Value()) && sharedLocks == old(sharedLocks) - 1 && res == Ok
    {
      sharedLocks := sharedLocks - 1;
      res := Ok;
    }

    method AnalyseWriteFrame()
      requires Valid()
      modifies bufferWrite
      ensures Valid() && Value() == AnalyseWrite(old(Value()))
    {
      bufferWrite.AnalyseFrame();
    }

    method SwitchWriteBuffer() returns (res: Result)
      requires Valid()
      modifies this
      ensures Valid() && (Value(), res) == SwitchWrite(old(Value()))
      ensures res == if Dumps(old(Value())) then OutOfRange else if old(stockIsFull) then ResourceInUse else Ok
    {
      res := Ok;
      var validCount := if bufferWrite.current then bufferWrite.validCount else 0;
      var frameSize := if bufferWrite.current then bufferWrite.frameSize else 0;
      if strategy == DumpIncomplete && validCount != frameSize {
        res := OutOfRange;
      }
      if res == Ok {
        if stockIsFull {
          res := ResourceInUse;
        }
        bufferStock, bufferWrite := bufferWrite, bufferStock;
        if !stockIsFull {
          permits := permits + 1;
        }
        stockIsFull := true;
      }
    }

    method StoreSample(s: Sample) returns (res: Result)
      requires Valid()
      modifies bufferWrite
      ensures Valid() && Value() == Store(old(Value()), s)
      ensures res == if s.number < |old(bufferWrite.cells)| then Ok else Memory
    {
      res := bufferWrite.SetSample(s, Ok);
    }

    /** Analyses and hands over the write frame when `close` holds. */
    method CloseWriteFrame(close: bool)
      requires Valid()
      modifies this, first, second, third
      ensures Valid() && Value() == CloseIf(close, old(Value()))
    {
      if close {
        AnalyseWriteFrame();
        var ignored := SwitchWriteBuffer();
      }
    }

    method RememberSample(s: Sample)
      requires Valid()
      modifies this`prevFrameId, this`prevSampleNumber, this`prevSyncFlag
      ensures Valid() && Value() == Remember(old(Value()), s)
    {
      prevFrameId, prevSampleNumber, prevSyncFlag := s.frameId, s.number, s.sync;
    }

    method ReceiveSample(s: Sample)
      requires Valid() && Accepts(Value(), s)
      modifies this, first, second, third
      ensures Valid() && Value() == Receive(old(Value()), s)
    {
      CloseWriteFrame(s.frameId > prevFrameId && !prevSyncFlag);
      var ignored := StoreSample(s);
      CloseWriteFrame(s.sync);
      RememberSample(s);
    }

    /** The callback never reports an error to the transmission layer; a missing sample is ignored. */
    method Update(sample: Option<Sample>) returns (res: Result)
      requires Valid()
      modifies this, first, second, third
      ensures Valid() && res == Ok
      ensures Value() == if sample.Some? then Receive(old(Value()), sample.value) else old(Value())
    {
      if sample.Some? && handle != 0 && |bufferWrite.cells| != 0 && sample.value.handle == handle {
        ReceiveSample(sample.value);
      }
      res := Ok;
    }

    method SwitchReadBuffer() returns (res: Result)
      requires Valid()
      modifies this
      ensures Valid() && (Value(), res) == SwitchRead(old(Value()))
      ensures res == if old(stockIsFull) then Ok else Empty
    {
      res := Ok;
      if stockIsFull {
        bufferStock, bufferRead := bufferRead, bufferStock;
        stockIsFull := false;
      } else {
        res := Empty;
      }
    }

    method ResetData()
      requires Valid()
      modifies this, first, second, third
      ensures Valid() && Value() == ResetAll(old(Value()))
    {
      bufferRead.InvalidateData();
      bufferStock.InvalidateData();
      bufferWrite.InvalidateData();
      prevFrameId, prevSampleNumber, prevSyncFlag := 0, 0, true;
    }
  }
}
