/**
  One frame of the distributed data buffer: a fixed number of sample cells
  that are reused from frame to frame, and a validity mask computed when the
  frame is closed.
 */
module DdbFrame {
  import opened Results

  /** Payload of a transmitted sample; it is only ever copied. */
  type Data = int

  /** A sample on the wire, stamped by the sender. */
  datatype Sample = Sample(handle: int, frameId: nat, number: nat, sync: bool, data: Data)

  /** What a frame remembers of the sample last written to a position. */
  datatype Cell = Cell(frameId: nat, sync: bool, data: Data)

  datatype Frame = Frame(
    cells: seq<Cell>,
    valid: seq<bool>,
    frameId: nat,
    validCount: nat,
    frameSize: nat,
    current: bool)

  const BLANK := Cell(0, false, 0)

  function CellOf(s: Sample): (c: Cell) {
    Cell(s.frameId, s.sync, s.data)
  }

  function WithSample(f: Frame, s: Sample): (r: (Frame, Result))
    ensures |r.0.cells| == |f.cells|
  {
    if s.number < |f.cells| then
      (f.(cells := f.cells[s.number := CellOf(s)], current := false), Ok)
    else
      (f, Memory)
  }

  // ---------------------------------------------------------------- analysis

  /** The largest frame id among the cells; 0 if there is none. */
  function MaxId(cells: seq<Cell>): (m: nat)
    ensures forall i :: 0 <= i < |cells| ==> cells[i].frameId <= m
    ensures m == 0 || exists i :: 0 <= i < |cells| && cells[i].frameId == m
  {
    if cells == [] then 0 else
      var m := MaxId(cells[..|cells| - 1]);
      if cells[|cells| - 1].frameId > m then cells[|cells| - 1].frameId else m
  }

  function IsOf(m: nat, c: Cell): (b: bool) {
    m != 0 && c.frameId == m
  }

  function Mask(cells: seq<Cell>, m: nat): (v: seq<bool>)
    ensures |v| == |cells| && forall i :: 0 <= i < |cells| ==> v[i] == IsOf(m, cells[i])
  {
    seq(|cells|, i requires 0 <= i < |cells| => IsOf(m, cells[i]))
  }

  function CountTrue(v: seq<bool>): (n: nat)
    ensures n <= |v|
  {
    if v == [] then 0 else CountTrue(v[..|v| - 1]) + if v[|v| - 1] then 1 else 0
  }

  /** The size announced by the last cell of frame `m`: one more cell is expected unless it carries the sync flag. */
  function SizeOf(cells: seq<Cell>, m: nat): (n: nat)
    ensures n <= |cells| + 1
  {
    if cells == [] then 0
    else if IsOf(m, cells[|cells| - 1]) then |cells| + if cells[|cells| - 1].sync then 0 else 1
    else SizeOf(cells[..|cells| - 1], m)
  }

  function Analysed(f: Frame): (r: Frame)
    ensures r.cells == f.cells
  {
    var m := MaxId(f.cells);
    f.(valid := Mask(f.cells, m),
       frameId := m,
       validCount := CountTrue(Mask(f.cells, m)),
       frameSize := SizeOf(f.cells, m),
       current := true)
  }

  function Invalidated(f: Frame): (r: Frame)
    ensures |r.cells| == |f.cells|
  {
    f.(cells := seq(|f.cells|, _ => BLANK),
       valid := seq(|f.valid|, _ => false),
       frameSize := 0, validCount := 0, current := false)
  }

  /** A frame after InitMemory. */
  function Fresh(n: nat): (f: Frame)
    ensures |f.cells| == n
  {
    Frame(seq(n, _ => BLANK), seq(n, _ => false), 0, 0, 0, false)
  }

  // ---------------------------------------------------------------- accessors

  function IsValidSample(f: Frame, i: nat): (b: bool)
  {
    f.current && i < |f.cells| && i < |f.valid| && f.valid[i]
  }

  function GetValidCount(f: Frame): (n: nat) {
    if f.current then f.validCount else 0
  }

  function GetFrameSize(f: Frame): (n: nat) {
    if f.current then f.frameSize else 0
  }

  function IsComplete(f: Frame): (b: bool) {
    |f.cells| != 0 && f.current && f.frameSize == f.validCount
  }

  // ------------------------------------------------------------------ lemmas

  lemma {:induction false} CountFull(v: seq<bool>)
    ensures CountTrue(v) == |v| <==> forall i :: 0 <= i < |v| ==> v[i]
  {
    if v != [] {
      CountFull(v[..|v| - 1]);
    }
  }

  /**
    Completeness of a frame with received cells: the cells of the newest
    frame id are the positions 0..k, and the one at k carries the sync flag.
   */
  ghost predicate Unbroken(cells: seq<Cell>, m: nat, k: nat) {
    && k < |cells|
    && (forall i :: 0 <= i <= k ==> IsOf(m, cells[i]))
    && (forall i :: k < i < |cells| ==> !IsOf(m, cells[i]))
    && cells[k].sync
  }

  /** The frame reaches up to the last cell: it is complete when every cell belongs to it and the last carries the flag. */
  lemma LastCellOfFrame(cells: seq<Cell>, m: nat)
    requires cells != [] && IsOf(m, cells[|cells| - 1])
    ensures CountTrue(Mask(cells, m)) == SizeOf(cells, m) <==> Unbroken(cells, m, |cells| - 1)
  {
    var v := Mask(cells, m);
    CountFull(v);
    if Unbroken(cells, m, |cells| - 1) {
      assert forall i :: 0 <= i < |v| ==> v[i];
    }
    if CountTrue(v) == |v| && cells[|cells| - 1].sync {
      assert forall i :: 0 <= i < |cells| ==> v[i];
    }
  }

  /** A cell of another frame at the end changes nothing. */
  lemma LastCellOfOtherFrame(cells: seq<Cell>, m: nat)
    requires cells != [] && !IsOf(m, cells[|cells| - 1])
    ensures var init := cells[..|cells| - 1];
            && CountTrue(Mask(cells, m)) == CountTrue(Mask(init, m))
            && SizeOf(cells, m) == SizeOf(init, m)
            && forall k: nat :: Unbroken(cells, m, k) <==> Unbroken(init, m, k)
  {
    var init := cells[..|cells| - 1];
    assert Mask(cells, m)[..|init|] == Mask(init, m);
    forall k: nat ensures Unbroken(cells, m, k) <==> Unbroken(init, m, k) {
      assert forall i :: 0 <= i < |init| ==> init[i] == cells[i];
    }
  }

  lemma {:induction false} SizeMatchesCount(cells: seq<Cell>, m: nat)
    requires exists i :: 0 <= i < |cells| && IsOf(m, cells[i])
    ensures CountTrue(Mask(cells, m)) == SizeOf(cells, m) <==> exists k: nat :: Unbroken(cells, m, k)
  {
    var n := |cells| - 1;
    if IsOf(m, cells[n]) {
      LastCellOfFrame(cells, m);
      if k: nat :| Unbroken(cells, m, k) {
        assert k == n;
      }
    } else {
      var i :| 0 <= i < |cells| && IsOf(m, cells[i]);
      assert cells[..n][i] == cells[i];
      LastCellOfOtherFrame(cells, m);
      SizeMatchesCount(cells[..n], m);
    }
  }

  /** The documented meaning of a complete frame, for every frame with a received cell. */
  lemma CompleteIffUnbroken(f: Frame)
    requires MaxId(f.cells) != 0
    ensures IsComplete(Analysed(f)) <==> exists k: nat :: Unbroken(f.cells, MaxId(f.cells), k)
  {
    SizeMatchesCount(f.cells, MaxId(f.cells));
  }

  lemma {:induction false} CountNone(v: seq<bool>)
    requires forall i :: 0 <= i < |v| ==> !v[i]
    ensures CountTrue(v) == 0
  {
    if v != [] {
      CountNone(v[..|v| - 1]);
    }
  }

  lemma {:induction false} SizeNone(cells: seq<Cell>, m: nat)
    requires forall i :: 0 <= i < |cells| ==> !IsOf(m, cells[i])
    ensures SizeOf(cells, m) == 0
  {
    if cells != [] {
      SizeNone(cells[..|cells| - 1], m);
    }
  }

  /** A frame that never received a cell is nevertheless reported complete. */
  lemma EmptyFrameIsComplete(f: Frame)
    requires |f.cells| > 0 && MaxId(f.cells) == 0
    ensures IsComplete(Analysed(f)) && forall i: nat :: !IsValidSample(Analysed(f), i)
  {
    CountNone(Mask(f.cells, 0));
    SizeNone(f.cells, 0);
  }

  lemma {:induction false} SizeAtLast(cells: seq<Cell>, m: nat, k: nat)
    requires k < |cells| && IsOf(m, cells[k]) && forall i :: k < i < |cells| ==> !IsOf(m, cells[i])
    ensures SizeOf(cells, m) == if cells[k].sync then k + 1 else k + 2
  {
    if k < |cells| - 1 {
      SizeAtLast(cells[..|cells| - 1], m, k);
    }
  }

  lemma {:induction false} CountIsCardinality(v: seq<bool>)
    ensures CountTrue(v) == |set i | 0 <= i < |v| && v[i]|
  {
    var all := set i | 0 <= i < |v| && v[i];
    if v != [] {
      var n := |v| - 1;
      var front := v[..n];
      var part := set i | 0 <= i < |front| && front[i];
      CountIsCardinality(front);
      assert all == if v[n] then part + {n} else part;
    } else {
      assert all == {};
    }
  }

  /** What the counters of an analysed frame mean: the number of valid positions, and the size announced by the last one. */
  lemma CountersMean(f: Frame, k: nat)
    requires var r := Analysed(f); IsValidSample(r, k) && forall i :: k < i < |f.cells| ==> !IsValidSample(r, i)
    ensures var r := Analysed(f);
            && GetValidCount(r) == |set i | 0 <= i < |f.cells| && IsValidSample(r, i)|
            && GetFrameSize(r) == if f.cells[k].sync then k + 1 else k + 2
  {
    var r, m := Analysed(f), MaxId(f.cells);
    CountIsCardinality(r.valid);
    assert (set i | 0 <= i < |f.cells| && IsValidSample(r, i)) == set i | 0 <= i < |r.valid| && r.valid[i];
    forall i | k < i < |f.cells| ensures !IsOf(m, f.cells[i]) {
      assert !IsValidSample(r, i);
    }
    SizeAtLast(f.cells, m, k);
  }

  lemma {:induction false} SizeSome(cells: seq<Cell>, m: nat, i: nat)
    requires i < |cells| && IsOf(m, cells[i])
    ensures SizeOf(cells, m) > 0
  {
    if !IsOf(m, cells[|cells| - 1]) {
      SizeSome(cells[..|cells| - 1], m, i);
    }
  }

  ghost predicate Shows(f: Frame) {
    exists i: nat :: IsValidSample(f, i)
  }

  /** A frame has a size exactly if it shows a sample. */
  lemma HasSizeIffShows(f: Frame)
    requires f == Analysed(f)
    ensures |f.cells| != 0 && GetFrameSize(f) != 0 <==> Shows(f)
  {
    var m := MaxId(f.cells);
    if Shows(f) {
      var i: nat :| IsValidSample(f, i);
      assert f.valid[i] == IsOf(m, f.cells[i]);
      SizeSome(f.cells, m, i);
    } else {
      forall i | 0 <= i < |f.cells| ensures !IsOf(m, f.cells[i]) {
        assert f.valid == Mask(f.cells, m);
        assert !IsValidSample(f, i);
      }
      SizeNone(f.cells, m);
    }
  }

  /** New memory and invalidated frames show nothing, before and after an analysis. */
  lemma BlankShowsNothing(f: Frame, n: nat, i: nat)
    requires f == Fresh(n) || exists g :: f == Invalidated(g) && |g.cells| == |g.valid| == n
    ensures |f.cells| == |f.valid| == n && MaxId(f.cells) == 0
    ensures !f.current && f.validCount == 0 && f.frameSize == 0 && !IsComplete(f)
    ensures !IsValidSample(f, i) && GetValidCount(f) == 0 && GetFrameSize(f) == 0
    ensures !IsValidSample(Analysed(f), i) && GetValidCount(Analysed(f)) == 0 && GetFrameSize(Analysed(f)) == 0
    ensures i < n ==> !f.valid[i] && f.cells[i] == BLANK
  {
    assert forall j :: 0 <= j < n ==> f.cells[j] == BLANK;
    CountNone(Mask(f.cells, 0));
    SizeNone(f.cells, 0);
  }

  /** A stored sample is the only change of content, and the frame shows nothing until it is analysed again. */
  lemma StoringHides(f: Frame, s: Sample, i: nat)
    requires s.number < |f.cells|
    ensures var (r, res) := WithSample(f, s);
            && res == Ok && |r.cells| == |f.cells| && r.cells[s.number] == CellOf(s)
            && (i < |f.cells| && i != s.number ==> r.cells[i] == f.cells[i])
            && !IsValidSample(r, i) && GetValidCount(r) == 0 && GetFrameSize(r) == 0 && !IsComplete(r)
  {
  }

  /** How the counters grow by one cell. */
  lemma OneMoreCell(cells: seq<Cell>, i: nat, m: nat)
    requires i < |cells|
    ensures CountTrue(Mask(cells[..i + 1], m))
            == CountTrue(Mask(cells[..i], m)) + if IsOf(m, cells[i]) then 1 else 0
    ensures SizeOf(cells[..i + 1], m)
            == if IsOf(m, cells[i]) then (if cells[i].sync then i + 1 else i + 2) else SizeOf(cells[..i], m)
    ensures MaxId(cells[..i + 1])
            == if cells[i].frameId > MaxId(cells[..i]) then cells[i].frameId else MaxId(cells[..i])
  {
    assert cells[..i + 1][..i] == cells[..i];
    assert Mask(cells[..i + 1], m)[..i] == Mask(cells[..i], m);
  }

  // -------------------------------------------------------------------- class

  class DataFrame {
    var cells: seq<Cell>
    var valid: seq<bool>
    var frameId: nat
    var validCount: nat
    var frameSize: nat
    var current: bool

    ghost function Value(): (f: Frame)
      reads this
    {
      Frame(cells, valid, frameId, validCount, frameSize, current)
    }

    constructor ()
      ensures Value() == Fresh(0)
    {
      cells, valid := seq(0, _ => BLANK), seq(0, _ => false);
      frameId, validCount, frameSize, current := 0, 0, 0, false;
    }

    /** Memory for n samples; memory from before is given back first. */
    method InitMemory(n: nat)
      modifies this
      ensures Value() == Fresh(n).(frameId := old(frameId),
                                   validCount := if |old(cells)| != 0 then 0 else old(validCount),
                                   frameSize := if |old(cells)| != 0 then 0 else old(frameSize))
    {
      if |cells| != 0 {
        DeleteMemory();
      }
      cells, valid := seq(n, _ => BLANK), seq(n, _ => false);
      current := false;
    }

    method DeleteMemory()
      modifies this
      ensures Value() == Fresh(0).(frameId := old(frameId))
    {
      cells, valid := seq(0, _ => BLANK), seq(0, _ => false);
      frameSize, validCount, current := 0, 0, false;
    }

    /** `copied` is the result of copying the sample into the cell; a failure leaves a blank cell. */
    method SetSample(s: Sample, copied: Result) returns (res: Result)
      modifies this
      ensures copied == Ok ==> (Value(), res) == WithSample(old(Value()), s)
      ensures s.number < |old(cells)| ==> !current
      ensures copied != Ok ==>
                if s.number < |old(cells)| then
                  res == copied && Value() == old(Value()).(cells := old(cells)[s.number := BLANK], current := false)
                else
                  res == Memory && Value() == old(Value())
    {
      res := Ok;
      if s.number < |cells| {
        res := copied;
        cells := cells[s.number := CellOf(s)];
        current := false;
        if res != Ok {
          cells := cells[s.number := BLANK];
        }
      } else {
        res := Memory;
      }
    }

    method FindFrameId()
      modifies this`frameId
      ensures frameId == MaxId(cells)
    {
      frameId := 0;
      for i := 0 to |cells|
        invariant frameId == MaxId(cells[..i])
      {
        OneMoreCell(cells, i, 0);
        if cells[i].frameId > frameId {
          frameId := cells[i].frameId;
        }
      }
      assert cells[..|cells|] == cells;
    }

    method MarkSamples()
      requires |valid| == |cells| && frameId != 0
      modifies this`valid, this`validCount, this`frameSize
      ensures valid == Mask(cells, frameId)
      ensures validCount == CountTrue(Mask(cells, frameId))
      ensures frameSize == SizeOf(cells, frameId)
    {
      var cs, id := cells, frameId;
      validCount, frameSize := 0, 0;
      for i := 0 to |cs|
        invariant |valid| == |cs|
        invariant forall j :: 0 <= j < i ==> valid[j] == IsOf(id, cs[j])
        invariant validCount == CountTrue(Mask(cs[..i], id))
        invariant frameSize == SizeOf(cs[..i], id)
      {
        OneMoreCell(cs, i, id);
        if cs[i].frameId != id {
          valid := valid[i := false];
        } else {
          valid := valid[i := true];
          validCount := validCount + 1;
          frameSize := if cs[i].sync then i + 1 else i + 2;
        }
      }
      assert cs[..|cs|] == cs;
    }

    method AnalyseFrame()
      requires |valid| == |cells|
      modifies this
      ensures Value() == Analysed(old(Value()))
    {
      FindFrameId();
      validCount, frameSize := 0, 0;
      if frameId != 0 {
        MarkSamples();
      } else {
        for i := 0 to |cells|
          invariant cells == old(cells) && frameId == 0 && validCount == 0 && frameSize == 0
          invariant |valid| == |cells|
          invariant forall j :: 0 <= j < i ==> !valid[j]
        {
          valid := valid[i := false];
        }
        assert valid == Mask(cells, 0);
        CountNone(valid);
        SizeNone(cells, 0);
      }
      current := true;
    }

    method InvalidateData()
      modifies this
      ensures Value() == Invalidated(old(Value()))
    {
      for i := 0 to |cells|
        invariant |cells| == |old(cells)| && valid == old(valid) && frameId == old(frameId)
        invariant forall j :: 0 <= j < i ==> cells[j] == BLANK
      {
        cells := cells[i := BLANK];
      }
      for i := 0 to |valid|
        invariant |valid| == |old(valid)| && frameId == old(frameId)
        invariant |cells| == |old(cells)| && forall j :: 0 <= j < |cells| ==> cells[j] == BLANK
        invariant forall j :: 0 <= j < i ==> !valid[j]
      {
        valid := valid[i := false];
      }
      frameSize, validCount, current := 0, 0, false;
    }
  }
}
