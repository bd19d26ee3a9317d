/**
  What the receiving side keeps while it stores a stream of samples: they are
  grouped by frame, the write frame mirrors the pending group, and the frames
  that are handed over are the closed ones that the strategy lets pass.
 */
module DdbDelivery {
  import opened DdbFrame
  import opened Ddb
  import opened DdbProtocol
  import Sender = SignalCounter

  // ------------------------------------------------------------------ grouping

  function LastId(p: seq<Sample>): (id: nat) {
    if p == [] then 0 else p[|p| - 1].frameId
  }

  predicate LastSynced(p: seq<Sample>) {
    p == [] || p[|p| - 1].sync
  }

  function Flat(gs: seq<seq<Sample>>): (r: seq<Sample>) {
    if gs == [] then [] else Flat(gs[..|gs| - 1]) + gs[|gs| - 1]
  }

  /** A non-empty group of samples of one frame. */
  ghost predicate Uniform(g: seq<Sample>) {
    g != [] && forall i :: 0 <= i < |g| ==> g[i].frameId == g[0].frameId
  }

  ghost predicate Ascending(gs: seq<seq<Sample>>) {
    && (forall i :: 0 <= i < |gs| ==> Uniform(gs[i]))
    && forall i, j :: 0 <= i < j < |gs| ==> gs[i][0].frameId < gs[j][0].frameId
  }

  /** Closed groups and the pending one: the groups are the frames, in order. */
  function Groups(log: Log): (r: seq<seq<Sample>>) {
    log.closed + if log.pending == [] then [] else [log.pending]
  }

  ghost predicate Grouped(log: Log) {
    Flat(Groups(log)) == log.processed && Ascending(Groups(log))
  }

  /** The callback has stored its sample already. */
  predicate HasStored(pc: ReceiverPc) {
    pc.Commit? || ((pc.Close? || pc.Swap? || pc.Notify? || pc.Fill?) && pc.cause == Sync)
  }

  /** The remembered stamps are those of the last stored sample. */
  ghost predicate Remembers(st: State) {
    var p := st.log.processed;
    if HasStored(st.receiver) then
      p != [] && p[|p| - 1] == st.receiver.s
    else
      st.core.prevFrame == LastId(p) && st.core.prevSync == LastSynced(p)
  }

  /** Where the callback stands with the pending samples. */
  ghost predicate Progress(st: State) {
    var p, pending := st.log.processed, st.log.pending;
    match st.receiver
    case Idle => pending == [] <==> LastSynced(p)
    case Check(s) => pending == [] <==> LastSynced(p)
    case Close(s, cause) => pending != [] && if cause == Sync then s.sync else s.frameId > LastId(p)
    case Swap(s, cause) => pending != [] && if cause == Sync then s.sync else s.frameId > LastId(p)
    case Notify(s, cause) => pending == [] && if cause == Sync then s.sync else s.frameId > LastId(p)
    case Fill(s, cause) => pending == [] && if cause == Sync then s.sync else s.frameId > LastId(p)
    case Put(s) =>
      if pending == [] then LastSynced(p) || s.frameId > LastId(p)
      else s.frameId <= LastId(p) && !LastSynced(p)
    case Commit(s) => pending == [] <==> s.sync
  }

  ghost predicate Grouping(st: State) {
    Grouped(st.log) && Remembers(st) && Progress(st)
  }

  lemma FlatAppend(gs: seq<seq<Sample>>, g: seq<Sample>)
    ensures Flat(gs + [g]) == Flat(gs) + g
  {
    assert (gs + [g])[..|gs|] == gs;
  }

  lemma StreamPrefix(p: seq<Sample>, s: Sample)
    requires Sender.Stream(p + [s])
    ensures Sender.Stream(p)
    ensures p != [] ==> Sender.Before(p[|p| - 1], s)
  {
    var q := p + [s];
    assert forall i :: 0 <= i < |p| ==> q[i] == p[i];
    if p != [] {
      assert Sender.Before(q[|p| - 1], q[|p|]);
    }
  }

  lemma LastOfGroups(log: Log)
    requires Grouped(log) && log.processed != []
    ensures Groups(log) != [] && Groups(log)[|Groups(log)| - 1][0].frameId == LastId(log.processed)
  {
    var gs := Groups(log);
    var g := gs[|gs| - 1];
    assert log.processed == Flat(gs[..|gs| - 1]) + g;
    assert log.processed[|log.processed| - 1] == g[|g| - 1];
  }

  lemma LastOfPending(log: Log)
    requires Grouped(log) && log.pending != []
    ensures log.processed != [] && Uniform(log.pending) && log.pending[0].frameId == LastId(log.processed)
  {
    assert Groups(log)[|log.closed|] == log.pending;
    FlatAppend(log.closed, log.pending);
    LastOfGroups(log);
  }

  lemma LastIsNewest(gs: seq<seq<Sample>>, i: nat)
    requires Ascending(gs) && i < |gs|
    ensures gs[i] != [] && gs[|gs| - 1] != [] && gs[i][0].frameId <= gs[|gs| - 1][0].frameId
  {
    assert Uniform(gs[i]) && Uniform(gs[|gs| - 1]);
  }

  lemma AscendingAppended(gs: seq<seq<Sample>>, g: seq<Sample>)
    requires Ascending(gs) && Uniform(g)
    requires forall i :: 0 <= i < |gs| ==> gs[i] != [] && gs[i][0].frameId < g[0].frameId
    ensures Ascending(gs + [g])
  {
    var r := gs + [g];
    assert r[|gs|] == g;
    assert forall i :: 0 <= i < |gs| ==> r[i] == gs[i];
  }

  /** A sample of a newer frame opens a group. */
  lemma OpenGroup(gs: seq<seq<Sample>>, s: Sample)
    requires Ascending(gs) && (gs != [] ==> gs[|gs| - 1] != [] && gs[|gs| - 1][0].frameId < s.frameId)
    ensures Ascending(gs + [[s]]) && Flat(gs + [[s]]) == Flat(gs) + [s]
  {
    forall i | 0 <= i < |gs| ensures gs[i] != [] && gs[i][0].frameId < s.frameId {
      LastIsNewest(gs, i);
    }
    AscendingAppended(gs, [s]);
    FlatAppend(gs, [s]);
  }

  lemma AscendingReplaced(front: seq<seq<Sample>>, g: seq<Sample>, g': seq<Sample>)
    requires Ascending(front + [g]) && g != [] && Uniform(g') && g'[0].frameId == g[0].frameId
    ensures Ascending(front + [g'])
  {
    var gs, r := front + [g], front + [g'];
    assert gs[|front|] == g && r[|front|] == g';
    assert forall i :: 0 <= i < |front| ==> r[i] == gs[i];
    assert forall i :: 0 <= i < |r| ==> r[i] != [] && gs[i] != [] && r[i][0].frameId == gs[i][0].frameId;
  }

  lemma UniformExtended(g: seq<Sample>, s: Sample)
    requires Uniform(g) && g[0].frameId == s.frameId
    ensures Uniform(g + [s]) && (g + [s])[0] == g[0]
  {
  }

  lemma FlatExtended(front: seq<seq<Sample>>, g: seq<Sample>, s: Sample)
    ensures Flat(front + [g + [s]]) == Flat(front + [g]) + [s]
  {
    FlatAppend(front, g);
    FlatAppend(front, g + [s]);
    assert Flat(front) + (g + [s]) == (Flat(front) + g) + [s];
  }

  /** Storing a sample extends the pending group or opens a new one. */
  lemma PutGroups(log: Log, s: Sample)
    requires Grouped(log) && Sender.Stream(log.processed + [s])
    requires if log.pending == [] then LastSynced(log.processed) || s.frameId > LastId(log.processed)
             else s.frameId <= LastId(log.processed) && !LastSynced(log.processed)
    ensures Grouped(log.(processed := log.processed + [s], pending := log.pending + [s]))
  {
    StreamPrefix(log.processed, s);
    if log.pending == [] {
      assert log.pending + [s] == [s];
      PutOpens(log, s);
    } else {
      PutExtends(log, s);
    }
  }

  lemma PutOpens(log: Log, s: Sample)
    requires Grouped(log) && log.pending == []
    requires log.processed != [] ==> LastId(log.processed) < s.frameId
    ensures Grouped(log.(processed := log.processed + [s], pending := [s]))
  {
    assert Groups(log) == log.closed;
    GroupsEmptyIff(log);
    if log.processed != [] {
      LastOfGroups(log);
    }
    OpenGroup(log.closed, s);
  }

  lemma PutExtends(log: Log, s: Sample)
    requires Grouped(log) && log.pending != [] && s.frameId == LastId(log.processed)
    ensures Grouped(log.(processed := log.processed + [s], pending := log.pending + [s]))
  {
    LastOfPending(log);
    UniformExtended(log.pending, s);
    AscendingReplaced(log.closed, log.pending, log.pending + [s]);
    FlatExtended(log.closed, log.pending, s);
  }

  lemma GroupsEmptyIff(log: Log)
    requires Grouped(log)
    ensures Groups(log) == [] <==> log.processed == []
  {
    var gs := Groups(log);
    if gs != [] {
      assert Uniform(gs[|gs| - 1]);
    }
  }

  lemma CloseGroups(log: Log, f: Frame)
    requires Grouped(log) && log.pending != []
    ensures Grouped(CloseLog(log, f)) && Groups(CloseLog(log, f)) == Groups(log)
  {
    assert Groups(CloseLog(log, f)) == Groups(log);
  }

  lemma GroupedKept(st: State, a: Action)
    requires Permuted(st.core) && Grouped(st.log) && Progress(st) && Enabled(st, a)
    requires Sender.Stream(Next(st, a).log.processed)
    ensures Grouped(Next(st, a).log)
  {
    if a.DoPut? {
      PutGroups(st.log, st.receiver.s);
    } else if a.DoSwap? || (a.TrySwitch? && Dumps(st.core)) {
      CloseGroups(st.log, st.core.frames[st.core.write]);
    }
    var log, log' := st.log, Next(st, a).log;
    if !a.DoPut? && !a.DoSwap? && !(a.TrySwitch? && Dumps(st.core)) {
      assert Groups(log') == Groups(log) && log'.processed == log.processed;
    }
  }

  lemma RemembersKept(st: State, a: Action)
    requires Permuted(st.core) && Remembers(st) && Enabled(st, a) && !a.DoReset?
    ensures Remembers(Next(st, a))
  {
    if !a.Begin? && !a.CheckSample? && !a.TrySwitch? && !a.DoSwap? && !a.DoNotify? && !a.DoFill? && !a.DoPut? && !a.DoCommit? {
      OthersKeepProgress(st, a);
    }
  }

  lemma ReceiverProgressKept(st: State, a: Action)
    requires Permuted(st.core) && Remembers(st) && Progress(st) && Enabled(st, a)
    requires a.Begin? || a.CheckSample? || a.TrySwitch? || a.DoSwap? || a.DoNotify? || a.DoFill? || a.DoPut? || a.DoCommit?
    ensures Progress(Next(st, a))
  {
  }

  lemma OthersKeepProgress(st: State, a: Action)
    requires Permuted(st.core) && Enabled(st, a)
    requires !a.Begin? && !a.CheckSample? && !a.TrySwitch? && !a.DoSwap? && !a.DoNotify? && !a.DoFill? && !a.DoPut? && !a.DoCommit?
    ensures var r := Next(st, a);
            && r.receiver == st.receiver && r.log.processed == st.log.processed && r.log.pending == st.log.pending
            && (!a.DoReset? ==> r.core.prevFrame == st.core.prevFrame && r.core.prevSync == st.core.prevSync)
  {
  }

  lemma ProgressKept(st: State, a: Action)
    requires Permuted(st.core) && Remembers(st) && Progress(st) && Enabled(st, a) && !a.DoReset?
    ensures Progress(Next(st, a))
  {
    if a.Begin? || a.CheckSample? || a.TrySwitch? || a.DoSwap? || a.DoNotify? || a.DoFill? || a.DoPut? || a.DoCommit? {
      ReceiverProgressKept(st, a);
    } else {
      OthersKeepProgress(st, a);
    }
  }

  lemma GroupingKept(st: State, a: Action)
    requires Permuted(st.core) && Grouping(st) && Enabled(st, a)
    requires Sender.Stream(Next(st, a).log.processed) && !a.DoReset?
    ensures Grouping(Next(st, a))
  {
    GroupedKept(st, a);
    RemembersKept(st, a);
    ProgressKept(st, a);
  }

  // ------------------------------------------------------------------ contents

  ghost predicate Bounded(cells: seq<Cell>, m: nat) {
    forall i :: 0 <= i < |cells| ==> cells[i].frameId <= m
  }

  /**
    The cells of the group's frame are exactly the samples of the group that
    fit into the frame, each at its sample number.
   */
  ghost predicate Mirrors(group: seq<Sample>, cells: seq<Cell>) {
    && (forall j :: 0 <= j < |group| && group[j].number < |cells| ==> cells[group[j].number] == CellOf(group[j]))
    && (group != [] ==> forall i :: 0 <= i < |cells| && cells[i].frameId == group[0].frameId ==>
          exists j :: 0 <= j < |group| && group[j].number == i)
  }

  ghost predicate NumbersAscend(group: seq<Sample>) {
    forall i, j :: 0 <= i < j < |group| ==> group[i].number < group[j].number
  }

  lemma StoreMirrors(group: seq<Sample>, f: Frame, s: Sample)
    requires Mirrors(group, f.cells)
    requires group != [] ==> Uniform(group) && s.frameId == group[0].frameId
    requires group == [] ==> forall i :: 0 <= i < |f.cells| ==> f.cells[i].frameId < s.frameId
    requires NumbersAscend(group + [s])
    ensures Mirrors(group + [s], WithSample(f, s).0.cells)
  {
    var g, cells := group + [s], WithSample(f, s).0.cells;
    assert forall j :: 0 <= j < |group| ==> g[j] == group[j] && group[j].number < g[|group|].number;
    forall i | 0 <= i < |cells| && cells[i].frameId == g[0].frameId
      ensures exists j :: 0 <= j < |g| && g[j].number == i
    {
      if i == s.number {
        assert g[|group|].number == i;
      } else {
        assert group != [];
        var j :| 0 <= j < |group| && group[j].number == i;
        assert g[j].number == i;
      }
    }
  }

  ghost predicate Dims(c: Core, n: nat)
    requires Permuted(c)
  {
    forall k :: 0 <= k < 3 ==> |c.frames[k].cells| == n && |c.frames[k].valid| == n
  }

  ghost predicate AllBounded(c: Core, m: nat)
    requires Permuted(c)
  {
    forall k :: 0 <= k < 3 ==> Bounded(c.frames[k].cells, m)
  }

  ghost predicate Contents(st: State, n: nat)
    requires Permuted(st.core)
  {
    && Dims(st.core, n)
    && AllBounded(st.core, LastId(st.log.processed))
    && Mirrors(st.log.pending, st.core.frames[st.core.write].cells)
    && AnalysedWhenClosing(st)
  }

  lemma PendingAscends(log: Log)
    requires Grouped(log) && Sender.Stream(log.processed)
    ensures NumbersAscend(log.pending)
  {
    var p, g := log.processed, log.pending;
    if g != [] {
      FlatAppend(log.closed, g);
      var d := |p| - |g|;
      assert forall i :: 0 <= i < |g| ==> g[i] == p[d + i];
      forall i, j | 0 <= i < j < |g| ensures g[i].number < g[j].number {
        assert Sender.Before(p[d + i], p[d + j]);
        assert Uniform(Groups(log)[|log.closed|]);
      }
    }
  }

  /** The sample about to be stored continues the pending group, or is newer than everything stored. */
  lemma PutContinues(log: Log, s: Sample)
    requires Grouped(log) && Sender.Stream(log.processed + [s])
    requires if log.pending == [] then LastSynced(log.processed) || s.frameId > LastId(log.processed)
             else s.frameId <= LastId(log.processed) && !LastSynced(log.processed)
    ensures if log.pending == [] then s.frameId > LastId(log.processed)
            else Uniform(log.pending) && s.frameId == log.pending[0].frameId == LastId(log.processed)
    ensures NumbersAscend(log.pending + [s])
  {
    var log' := log.(processed := log.processed + [s], pending := log.pending + [s]);
    PutGroups(log, s);
    PendingAscends(log');
    StreamPrefix(log.processed, s);
    if log.processed == [] {
      assert log'.processed[0] == s;
    } else {
      LastOfGroups(log);
    }
    if log.pending != [] {
      assert Groups(log)[|log.closed|] == log.pending;
      assert log.processed != [] by {
        FlatAppend(log.closed, log.pending);
      }
    }
  }

  lemma PutMirrors(st: State, n: nat)
    requires Permuted(st.core) && Grouped(st.log) && Progress(st) && Contents(st, n) && st.receiver.Put?
    requires Sender.Stream(st.log.processed + [st.receiver.s])
    ensures Mirrors(st.log.pending + [st.receiver.s], Store(st.core, st.receiver.s).frames[st.core.write].cells)
  {
    PutContinues(st.log, st.receiver.s);
    assert Bounded(st.core.frames[st.core.write].cells, LastId(st.log.processed));
    StoreMirrors(st.log.pending, st.core.frames[st.core.write], st.receiver.s);
  }

  lemma PutBounded(st: State, n: nat)
    requires Permuted(st.core) && Grouped(st.log) && Progress(st) && Contents(st, n) && st.receiver.Put?
    requires Sender.Stream(st.log.processed + [st.receiver.s])
    ensures AllBounded(Store(st.core, st.receiver.s), LastId(st.log.processed + [st.receiver.s]))
  {
    var s, c := st.receiver.s, st.core;
    PutContinues(st.log, s);
    forall k | 0 <= k < 3 ensures Bounded(Store(c, s).frames[k].cells, s.frameId) {
      assert Bounded(c.frames[k].cells, LastId(st.log.processed));
    }
  }

  lemma PutContents(st: State, n: nat)
    requires Permuted(st.core) && Grouped(st.log) && Progress(st) && Contents(st, n) && st.receiver.Put?
    requires Sender.Stream(st.log.processed + [st.receiver.s])
    ensures Contents(Next(st, DoPut), n)
  {
    PutMirrors(st, n);
    PutBounded(st, n);
    var stored := Store(st.core, st.receiver.s);
    assert Dims(stored, n);
    if st.receiver.s.sync {
      AnalyseKeepsContents(stored, n, LastId(st.log.processed + [st.receiver.s]));
    }
  }

  lemma AnalyseKeepsContents(c: Core, n: nat, m: nat)
    requires Permuted(c) && Dims(c, n) && AllBounded(c, m)
    ensures var r := AnalyseWrite(c);
            && Dims(r, n) && AllBounded(r, m)
            && r.frames[r.write].cells == c.frames[c.write].cells
            && r.frames[r.write] == Analysed(r.frames[r.write])
  {
    var r := AnalyseWrite(c);
    assert forall k :: 0 <= k < 3 ==> r.frames[k].cells == c.frames[k].cells;
  }

  lemma OtherContents(st: State, a: Action, n: nat)
    requires Permuted(st.core) && Guards(st) && Progress(st) && Contents(st, n) && Enabled(st, a)
    requires !a.DoPut? && !a.CheckSample? && !a.DoReset?
    ensures Contents(Next(st, a), n)
  {
    assert Next(st, a).core.frames == st.core.frames;
    assert Next(st, a).log.processed == st.log.processed;
    if !a.DoSwap? && !a.TrySwitch? {
      assert Next(st, a).core.write == st.core.write;
      assert Next(st, a).log.pending == st.log.pending;
    }
  }

  lemma CheckContents(st: State, n: nat)
    requires Permuted(st.core) && Contents(st, n) && st.receiver.Check?
    ensures Contents(Next(st, CheckSample), n)
  {
    AnalyseKeepsContents(st.core, n, LastId(st.log.processed));
  }

  lemma ContentsKept(st: State, a: Action, n: nat)
    requires Permuted(st.core) && Guards(st) && Grouping(st) && Contents(st, n) && Enabled(st, a)
    requires Sender.Stream(Next(st, a).log.processed) && !a.DoReset?
    ensures Contents(Next(st, a), n)
  {
    if a.DoPut? {
      PutContents(st, n);
    } else if a.CheckSample? {
      CheckContents(st, n);
    } else {
      OtherContents(st, a, n);
    }
  }

  // ------------------------------------------------- closed and handed frames

  /** While no sample of the group fits, the cells are those from before the group. */
  ghost predicate Untouched(group: seq<Sample>, opening: seq<Cell>, cells: seq<Cell>) {
    (forall j :: 0 <= j < |group| ==> group[j].number >= |cells|) ==> cells == opening
  }

  ghost predicate OpeningIsKept(st: State)
    requires Permuted(st.core)
  {
    st.log.pending != [] ==> Untouched(st.log.pending, st.log.begun, st.core.frames[st.core.write].cells)
  }

  lemma PutKeepsOpening(st: State)
    requires Permuted(st.core) && OpeningIsKept(st) && st.receiver.Put?
    ensures OpeningIsKept(Next(st, DoPut))
  {
    var s, g := st.receiver.s, st.log.pending + [st.receiver.s];
    var f := st.core.frames[st.core.write];
    var r := Next(st, DoPut);
    assert r.core.frames[r.core.write].cells == WithSample(f, s).0.cells;
    if forall j :: 0 <= j < |g| ==> g[j].number >= |f.cells| {
      assert g[|g| - 1] == s;
      assert forall j :: 0 <= j < |st.log.pending| ==> g[j] == st.log.pending[j];
    }
  }

  lemma OpeningKept(st: State, a: Action)
    requires Permuted(st.core) && OpeningIsKept(st) && Enabled(st, a) && !a.DoReset?
    ensures OpeningIsKept(Next(st, a))
  {
    if a.DoPut? {
      PutKeepsOpening(st);
    } else {
      OthersKeepOpening(st, a);
    }
  }

  lemma OthersKeepOpening(st: State, a: Action)
    requires Permuted(st.core) && Enabled(st, a) && !a.DoPut? && !a.DoReset?
    ensures var r := Next(st, a);
            r.log.pending == [] ||
              (&& r.log.pending == st.log.pending && r.log.begun == st.log.begun
               && r.core.frames[r.core.write].cells == st.core.frames[st.core.write].cells)
  {
  }

  /** A frame at its closing carries its group and has been analysed. */
  ghost predicate ClosedOk(h: Handover, n: nat) {
    && Uniform(h.group)
    && |h.frame.cells| == n
    && h.frame == Analysed(h.frame)
    && Mirrors(h.group, h.frame.cells)
    && Bounded(h.frame.cells, h.group[0].frameId)
    && Untouched(h.group, h.opening, h.frame.cells)
  }

  /** The strategy lets a closed frame pass. */
  predicate Passes(f: Frame, strategy: Strategy) {
    strategy == DeliverIncomplete || f.validCount == f.frameSize
  }

  /** Reference definition of what is handed over: the closed frames that pass, in order. */
  function Chosen(hs: seq<Handover>, strategy: Strategy): (r: seq<Handover>) {
    if hs == [] then [] else
      var k := |hs| - 1;
      Chosen(hs[..k], strategy) + if Passes(hs[k].frame, strategy) then [hs[k]] else []
  }

  lemma ChosenAppend(hs: seq<Handover>, strategy: Strategy, h: Handover)
    ensures Chosen(hs + [h], strategy) == Chosen(hs, strategy) + if Passes(h.frame, strategy) then [h] else []
  {
    assert (hs + [h])[..|hs|] == hs;
  }

  /** Which closed frames are handed over. */
  lemma {:induction false} ChosenIff(hs: seq<Handover>, strategy: Strategy, h: Handover)
    ensures h in Chosen(hs, strategy) <==> h in hs && Passes(h.frame, strategy)
  {
    if hs != [] {
      var k := |hs| - 1;
      ChosenIff(hs[..k], strategy, h);
      assert hs == hs[..k] + [hs[k]];
    }
  }

  /** With DeliverIncomplete all closed frames are handed over. */
  lemma {:induction false} ChosenIsAll(hs: seq<Handover>, strategy: Strategy)
    requires strategy == DeliverIncomplete
    ensures Chosen(hs, strategy) == hs
  {
    if hs != [] {
      var front, h := hs[..|hs| - 1], hs[|hs| - 1];
      assert hs == front + [h];
      ChosenIsAll(front, strategy);
      ChosenAppend(front, strategy, h);
    }
  }

  /** Every closed frame is in order, and the handed-over frames are exactly those that pass. */
  ghost predicate HandedOver(log: Log, n: nat, strategy: Strategy) {
    && |log.ended| == |log.closed|
    && (forall i :: 0 <= i < |log.ended| ==> log.ended[i].group == log.closed[i] && ClosedOk(log.ended[i], n))
    && log.handed == Chosen(log.ended, strategy)
  }

  lemma CloseHandsOver(log: Log, h: Handover, n: nat, strategy: Strategy, log': Log)
    requires HandedOver(log, n, strategy) && ClosedOk(h, n) && h.group == log.pending
    requires log'.closed == log.closed + [log.pending] && log'.ended == log.ended + [h]
    requires log'.handed == log.handed + if Passes(h.frame, strategy) then [h] else []
    ensures HandedOver(log', n, strategy)
  {
    ChosenAppend(log.ended, strategy, h);
  }

  lemma PendingIsClosedOk(st: State, n: nat)
    requires Permuted(st.core) && Grouped(st.log) && Progress(st) && Contents(st, n) && OpeningIsKept(st)
    requires st.receiver.Close? || st.receiver.Swap?
    ensures ClosedOk(Handover(st.log.pending, st.log.begun, st.core.frames[st.core.write]), n)
  {
    LastOfPending(st.log);
    assert Bounded(st.core.frames[st.core.write].cells, LastId(st.log.processed));
  }

  lemma HandedOverKept(st: State, a: Action, n: nat)
    requires Permuted(st.core) && Grouping(st) && Contents(st, n) && OpeningIsKept(st) && Enabled(st, a)
    requires HandedOver(st.log, n, st.core.strategy)
    ensures HandedOver(Next(st, a).log, n, st.core.strategy)
    ensures Next(st, a).core.strategy == st.core.strategy
  {
    var f := st.core.frames[st.core.write];
    if a.DoSwap? || (a.TrySwitch? && Dumps(st.core)) {
      PendingIsClosedOk(st, n);
      assert f.current;
      CloseHandsOver(st.log, Handover(st.log.pending, st.log.begun, f), n, st.core.strategy, Next(st, a).log);
    } else {
      OthersKeepClosings(st, a);
    }
  }

  lemma OthersKeepClosings(st: State, a: Action)
    requires Permuted(st.core) && Enabled(st, a) && !a.DoSwap? && !(a.TrySwitch? && Dumps(st.core))
    ensures var r := Next(st, a);
            && r.log.handed == st.log.handed && r.log.closed == st.log.closed && r.log.ended == st.log.ended
            && r.core.strategy == st.core.strategy
  {
  }

  // -------------------------------------------------------------- whole runs

  /** Everything known about a run without ResetData whose stored samples are a stream. */
  ghost predicate Delivery(st: State, n: nat)
    requires Permuted(st.core)
  {
    && Guards(st) && Grouping(st) && Contents(st, n) && OpeningIsKept(st)
    && HandedOver(st.log, n, st.core.strategy)
  }

  lemma DeliveryKept(st: State, a: Action, n: nat)
    requires Permuted(st.core) && Delivery(st, n)
    requires Sender.Stream(Do(st, a).log.processed) && !Do(st, a).log.wasReset
    ensures Delivery(Do(st, a), n)
  {
    if Enabled(st, a) {
      GuardsKept(st, a);
      GroupingKept(st, a);
      ContentsKept(st, a, n);
      OpeningKept(st, a);
      HandedOverKept(st, a, n);
    }
  }

  lemma StepExtendsHistory(st: State, a: Action)
    requires Permuted(st.core)
    ensures st.log.processed <= Do(st, a).log.processed
  {
  }

  lemma {:induction false} RunExtendsHistory(st: State, actions: seq<Action>)
    requires Permuted(st.core)
    ensures st.log.processed <= Run(st, actions).log.processed
    decreases |actions|
  {
    if actions != [] {
      StepExtendsHistory(st, actions[0]);
      RunExtendsHistory(Do(st, actions[0]), actions[1..]);
    }
  }

  lemma StreamOfPrefix(p: seq<Sample>, q: seq<Sample>)
    requires p <= q && Sender.Stream(q)
    ensures Sender.Stream(p)
  {
    assert forall i :: 0 <= i < |p| ==> p[i] == q[i];
  }

  lemma {:induction false} RunDelivery(st: State, actions: seq<Action>, n: nat)
    requires Permuted(st.core) && Delivery(st, n)
    requires Sender.Stream(Run(st, actions).log.processed) && !Run(st, actions).log.wasReset
    ensures Delivery(Run(st, actions), n)
    decreases |actions|
  {
    if actions != [] {
      var st1 := Do(st, actions[0]);
      RunExtendsHistory(st1, actions[1..]);
      if st1.log.wasReset {
        RunRemembersReset(st1, actions[1..]);
      }
      StreamOfPrefix(st1.log.processed, Run(st, actions).log.processed);
      DeliveryKept(st, actions[0], n);
      RunDelivery(st1, actions[1..], n);
    }
  }

  lemma StartDelivery(handle: int, n: nat, strategy: Strategy)
    ensures Delivery(Start(handle, n, strategy), n)
  {
  }
}
