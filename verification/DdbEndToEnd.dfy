/**
  From SendNow to LockData: the guarantees of the whole chain for every pattern
  of failed transmissions, every loss on the channel and every interleaving on
  the receiving side.
 */
module DdbEndToEnd {
  import opened Results
  import opened DdbFrame
  import opened Ddb
  import opened DdbProtocol
  import opened DdbDelivery
  import opened DdbReception
  import Sender = SignalCounter

  // ------------------------------------------------ the callback splits by frame

  /** Reference definition: a series of samples split wherever the frame id changes. */
  function FramesOf(p: seq<Sample>): (gs: seq<seq<Sample>>)
    ensures p != [] ==> gs != []
  {
    if p == [] then [] else
      var init, s := p[..|p| - 1], p[|p| - 1];
      var gs := FramesOf(init);
      if init != [] && init[|init| - 1].frameId == s.frameId then
        gs[..|gs| - 1] + [gs[|gs| - 1] + [s]]
      else
        gs + [[s]]
  }

  lemma FramesOfAppend(p: seq<Sample>, s: Sample)
    ensures var gs := FramesOf(p);
            FramesOf(p + [s]) ==
              if p != [] && p[|p| - 1].frameId == s.frameId
              then gs[..|gs| - 1] + [gs[|gs| - 1] + [s]] else gs + [[s]]
  {
    assert (p + [s])[..|p|] == p;
  }

  lemma {:induction false} SplitIsUnique(gs: seq<seq<Sample>>)
    requires Ascending(gs)
    ensures FramesOf(Flat(gs)) == gs
    decreases |Flat(gs)|
  {
    if gs != [] {
      var front, g := gs[..|gs| - 1], gs[|gs| - 1];
      assert Uniform(g);
      var gi, s := g[..|g| - 1], g[|g| - 1];
      assert g == gi + [s] && gs == front + [gi + [s]];
      if gi == [] {
        assert gi + [s] == [s];
        SplitShorter(front, s);
        SplitIsUnique(front);
        SplitNew(front, s);
      } else {
        SplitLonger(front, gi, s);
        SplitIsUnique(front + [gi]);
        SplitMore(front, gi, s);
      }
    }
  }

  lemma SplitShorter(front: seq<seq<Sample>>, s: Sample)
    requires Ascending(front + [[s]])
    ensures Ascending(front)
    ensures Flat(front + [[s]]) == Flat(front) + [s]
  {
    var gs := front + [[s]];
    assert forall i :: 0 <= i < |front| ==> gs[i] == front[i];
    FlatAppend(front, [s]);
  }

  lemma SplitNew(front: seq<seq<Sample>>, s: Sample)
    requires Ascending(front + [[s]]) && Ascending(front) && FramesOf(Flat(front)) == front
    ensures FramesOf(Flat(front) + [s]) == front + [[s]]
  {
    var gs := front + [[s]];
    FramesOfAppend(Flat(front), s);
    if front != [] {
      FlatEnds(front);
      assert gs[|front| - 1] == front[|front| - 1] && gs[|front|] == [s];
    }
  }

  lemma SplitMore(front: seq<seq<Sample>>, gi: seq<Sample>, s: Sample)
    requires FramesOf(Flat(front + [gi])) == front + [gi]
    requires Flat(front + [gi]) != [] && Flat(front + [gi])[|Flat(front + [gi])| - 1].frameId == s.frameId
    ensures FramesOf(Flat(front + [gi]) + [s]) == front + [gi + [s]]
  {
    FramesOfAppend(Flat(front + [gi]), s);
    assert (front + [gi])[..|front|] == front;
  }

  lemma SplitLonger(front: seq<seq<Sample>>, gi: seq<Sample>, s: Sample)
    requires Ascending(front + [gi + [s]]) && gi != []
    ensures Ascending(front + [gi])
    ensures Flat(front + [gi + [s]]) == Flat(front + [gi]) + [s]
    ensures Flat(front + [gi]) != [] && Flat(front + [gi])[|Flat(front + [gi])| - 1].frameId == s.frameId
  {
    var gs, g := front + [gi + [s]], gi + [s];
    assert gs[|front|] == g && Uniform(gs[|front|]);
    assert forall i :: 0 <= i < |gi| ==> g[i] == gi[i];
    assert g[|gi|] == s && g[0] == gi[0];
    AscendingReplaced(front, g, gi);
    FlatExtended(front, gi, s);
    FlatAppend(front, gi);
  }

  lemma FlatEnds(gs: seq<seq<Sample>>)
    requires Ascending(gs) && gs != []
    ensures Flat(gs) != [] && Flat(gs)[|Flat(gs)| - 1].frameId == gs[|gs| - 1][0].frameId
  {
    var g := gs[|gs| - 1];
    assert Flat(gs) == Flat(gs[..|gs| - 1]) + g;
    assert Uniform(g);
  }

  /** The samples of a closed group are exactly the stored samples of its frame. */
  lemma {:induction false} FlatMembers(gs: seq<seq<Sample>>, s: Sample)
    ensures s in Flat(gs) <==> exists i :: 0 <= i < |gs| && s in gs[i]
  {
    if gs != [] {
      var front := gs[..|gs| - 1];
      FlatMembers(front, s);
      assert forall i :: 0 <= i < |front| ==> front[i] == gs[i];
    }
  }

  lemma GroupIsFrame(gs: seq<seq<Sample>>, i: nat, s: Sample)
    requires Ascending(gs) && i < |gs|
    ensures s in gs[i] <==> s in Flat(gs) && s.frameId == gs[i][0].frameId
  {
    FlatMembers(gs, s);
    assert Uniform(gs[i]);
    if k :| 0 <= k < |gs| && s in gs[k] {
      assert Uniform(gs[k]);
    }
  }

  // ----------------------------------------------------- masks tell what arrived

  ghost predicate Arrived(group: seq<Sample>, i: nat) {
    exists j :: 0 <= j < |group| && group[j].number == i
  }

  /** Every position of the frame is valid exactly if its sample arrived. */
  ghost predicate MaskIsExact(h: Handover) {
    forall i: nat :: i < |h.frame.cells| ==> (IsValidSample(h.frame, i) <==> Arrived(h.group, i))
  }

  ghost predicate SomeFits(h: Handover) {
    exists j :: 0 <= j < |h.group| && h.group[j].number < |h.frame.cells|
  }

  /** A closed frame that the strategy lets pass. */
  ghost predicate HandedOk(h: Handover, n: nat, strategy: Strategy) {
    ClosedOk(h, n) && Passes(h.frame, strategy)
  }

  lemma HandedIdIsNewest(h: Handover, n: nat, strategy: Strategy)
    requires HandedOk(h, n, strategy) && SomeFits(h) && h.group[0].frameId > 0
    ensures MaxId(h.frame.cells) == h.group[0].frameId
  {
    var j :| 0 <= j < |h.group| && h.group[j].number < |h.frame.cells|;
    assert h.frame.cells[h.group[j].number] == CellOf(h.group[j]);
  }

  lemma ExactWhenSomeFits(h: Handover, n: nat, strategy: Strategy)
    requires HandedOk(h, n, strategy) && SomeFits(h) && h.group[0].frameId > 0
    ensures MaskIsExact(h)
    ensures forall j :: 0 <= j < |h.group| && h.group[j].number < n ==>
              h.frame.cells[h.group[j].number] == CellOf(h.group[j])
  {
    HandedIdIsNewest(h, n, strategy);
    forall i: nat | i < |h.frame.cells| ensures IsValidSample(h.frame, i) <==> Arrived(h.group, i) {
      assert h.frame.valid[i] == IsOf(MaxId(h.frame.cells), h.frame.cells[i]);
      if Arrived(h.group, i) {
        var j :| 0 <= j < |h.group| && h.group[j].number == i;
        assert h.frame.cells[i] == CellOf(h.group[j]);
      }
    }
  }

  lemma NothingFits(h: Handover, n: nat)
    requires ClosedOk(h, n) && !SomeFits(h)
    ensures h.frame.cells == h.opening
    ensures forall i: nat :: i < n ==> !Arrived(h.group, i)
  {
    assert forall j :: 0 <= j < |h.group| ==> h.group[j].number >= |h.frame.cells|;
    forall i: nat | i < n ensures !Arrived(h.group, i) {
    }
  }

  /**
    The validity mask of a closed frame is exact if and only if some sample of
    the frame fits into the buffer, or the write frame held no sample when the
    frame began: otherwise the mask still shows an older frame.
   */
  lemma MaskIsExactIff(h: Handover, n: nat, strategy: Strategy)
    requires HandedOk(h, n, strategy) && h.group[0].frameId > 0
    ensures MaskIsExact(h) <==> SomeFits(h) || MaxId(h.opening) == 0
  {
    if SomeFits(h) {
      ExactWhenSomeFits(h, n, strategy);
    } else {
      NothingFits(h, n);
      var m := MaxId(h.frame.cells);
      assert h.frame.valid == Mask(h.frame.cells, m);
      if m != 0 {
        var i :| 0 <= i < |h.frame.cells| && h.frame.cells[i].frameId == m;
        assert IsValidSample(h.frame, i);
      }
    }
  }

  // ------------------------------------------------- complete means nothing lost

  /** The sync sample of the frame was sent, and every sample sent for the frame is in the group. */
  ghost predicate WholeFrameReceived(sent: seq<Sample>, group: seq<Sample>)
    requires group != []
  {
    && (exists i :: 0 <= i < |sent| && sent[i].frameId == group[0].frameId && sent[i].sync)
    && forall i :: 0 <= i < |sent| && sent[i].frameId == group[0].frameId ==> sent[i] in group
  }

  ghost predicate AllFit(h: Handover) {
    forall j :: 0 <= j < |h.group| ==> h.group[j].number < |h.frame.cells|
  }

  ghost predicate FromSender(sent: seq<Sample>, group: seq<Sample>) {
    forall j :: 0 <= j < |group| ==> group[j] in sent
  }

  /** No sample of a frame follows its sync sample. */
  lemma SyncIsLast(sent: seq<Sample>, a: nat, i: nat)
    requires Sender.GapFree(sent) && a < |sent| && i < |sent|
    requires sent[a].sync && sent[a].frameId == sent[i].frameId
    ensures sent[i].number <= sent[a].number
  {
    if a < i {
      Sender.GapFreeOrders(sent, a, i);
    } else if i < a {
      Sender.GapFreeOrders(sent, i, a);
    }
  }

  lemma UnbrokenMeansWhole(sent: seq<Sample>, h: Handover, k: nat)
    requires Sender.GapFree(sent) && FromSender(sent, h.group) && Uniform(h.group)
    requires Mirrors(h.group, h.frame.cells) && Unbroken(h.frame.cells, h.group[0].frameId, k)
    ensures WholeFrameReceived(sent, h.group) && AllFit(h)
  {
    var id, cells := h.group[0].frameId, h.frame.cells;
    assert IsOf(id, cells[k]);
    var j :| 0 <= j < |h.group| && h.group[j].number == k;
    assert cells[k] == CellOf(h.group[j]);
    var a :| 0 <= a < |sent| && sent[a] == h.group[j];
    forall i | 0 <= i < |sent| && sent[i].frameId == id ensures sent[i] in h.group {
      SyncIsLast(sent, a, i);
      assert IsOf(id, cells[sent[i].number]);
      var j' :| 0 <= j' < |h.group| && h.group[j'].number == sent[i].number;
      var i' :| 0 <= i' < |sent| && sent[i'] == h.group[j'];
      Sender.StampIsUnique(sent, i, i');
    }
    forall j' | 0 <= j' < |h.group| ensures h.group[j'].number < |cells| {
      var i' :| 0 <= i' < |sent| && sent[i'] == h.group[j'];
      SyncIsLast(sent, a, i');
    }
  }

  /** A sample of the frame that was sent is in its cell. */
  lemma SentIsInCell(sent: seq<Sample>, h: Handover, b: nat)
    requires h.group != [] && Mirrors(h.group, h.frame.cells) && AllFit(h)
    requires WholeFrameReceived(sent, h.group) && b < |sent| && sent[b].frameId == h.group[0].frameId
    ensures sent[b].number < |h.frame.cells| && h.frame.cells[sent[b].number] == CellOf(sent[b])
  {
    var j :| 0 <= j < |h.group| && h.group[j] == sent[b];
    assert h.group[j].number < |h.frame.cells|;
  }

  lemma NoneBeyondSync(sent: seq<Sample>, h: Handover, a: nat, m: nat)
    requires Sender.GapFree(sent) && FromSender(sent, h.group) && Uniform(h.group)
    requires Mirrors(h.group, h.frame.cells)
    requires a < |sent| && sent[a].frameId == h.group[0].frameId && sent[a].sync
    requires sent[a].number < m < |h.frame.cells|
    ensures !IsOf(h.group[0].frameId, h.frame.cells[m])
  {
    if IsOf(h.group[0].frameId, h.frame.cells[m]) {
      var j :| 0 <= j < |h.group| && h.group[j].number == m;
      var i :| 0 <= i < |sent| && sent[i] == h.group[j];
      SyncIsLast(sent, a, i);
      assert false;
    }
  }

  lemma WholeMeansUnbroken(sent: seq<Sample>, h: Handover) returns (k: nat)
    requires Sender.GapFree(sent) && FromSender(sent, h.group) && Uniform(h.group) && h.group[0].frameId > 0
    requires Mirrors(h.group, h.frame.cells)
    requires WholeFrameReceived(sent, h.group) && AllFit(h)
    ensures Unbroken(h.frame.cells, h.group[0].frameId, k)
  {
    var id, cells := h.group[0].frameId, h.frame.cells;
    var a :| 0 <= a < |sent| && sent[a].frameId == id && sent[a].sync;
    k := sent[a].number;
    SentIsInCell(sent, h, a);
    forall m: nat | m <= k ensures m < |cells| && IsOf(id, cells[m]) {
      var b := Sender.EarlierNumbersSent(sent, a, m);
      SentIsInCell(sent, h, b);
    }
    forall m: nat | k < m < |cells| ensures !IsOf(id, cells[m]) {
      NoneBeyondSync(sent, h, a, m);
    }
  }

  /** A handed-over frame reports complete exactly if no sample of the sent frame was lost or too many. */
  lemma CompleteIffNothingLost(sent: seq<Sample>, h: Handover, n: nat, strategy: Strategy)
    requires Sender.GapFree(sent) && FromSender(sent, h.group)
    requires HandedOk(h, n, strategy) && SomeFits(h) && h.group[0].frameId > 0
    ensures IsComplete(h.frame) <==> WholeFrameReceived(sent, h.group) && AllFit(h)
  {
    HandedIdIsNewest(h, n, strategy);
    CompleteIffUnbroken(h.frame);
    if IsComplete(h.frame) {
      var k: nat :| Unbroken(h.frame.cells, h.group[0].frameId, k);
      UnbrokenMeansWhole(sent, h, k);
    }
    if WholeFrameReceived(sent, h.group) && AllFit(h) {
      var k := WholeMeansUnbroken(sent, h);
    }
  }

  /** The completeness flag tells the truth about the sent frame. */
  ghost predicate FlagIsExact(sent: seq<Sample>, h: Handover)
    requires h.group != []
  {
    IsComplete(h.frame) <==> WholeFrameReceived(sent, h.group) && AllFit(h)
  }

  /** The newest frame whose cells are there is recognisably incomplete. */
  ghost predicate ShowsIncomplete(cells: seq<Cell>) {
    MaxId(cells) != 0 && !exists k: nat :: Unbroken(cells, MaxId(cells), k)
  }

  /**
    The completeness flag of a closed frame is right if and only if some
    sample of the frame fits into the buffer, or the cells that the write frame
    held when the frame began are an incomplete frame.
   */
  lemma FlagIsExactIff(sent: seq<Sample>, h: Handover, n: nat, strategy: Strategy)
    requires Sender.GapFree(sent) && FromSender(sent, h.group)
    requires HandedOk(h, n, strategy) && h.group[0].frameId > 0 && n > 0
    ensures FlagIsExact(sent, h) <==> SomeFits(h) || ShowsIncomplete(h.opening)
  {
    if SomeFits(h) {
      CompleteIffNothingLost(sent, h, n, strategy);
    } else {
      NothingFits(h, n);
      assert !(h.group[0].number < |h.frame.cells|);
      assert !AllFit(h);
      if MaxId(h.frame.cells) == 0 {
        EmptyFrameIsComplete(h.frame);
      } else {
        CompleteIffUnbroken(h.frame);
      }
    }
  }

  // ------------------------------------------------------------- main theorems

  /** The stored samples are from a gap-free sender, in order and with any losses; there was no reset. */
  ghost predicate Fed(st: State, sent: seq<Sample>, at: seq<nat>) {
    Sender.GapFree(sent) && Sender.Received(st.log.processed, sent, at) && !st.log.wasReset
  }

  /** The frames of a buffer. */
  ghost function FramesIn(c: Core): (r: set<Frame>) {
    set f | f in c.frames
  }

  /** A state from which the theorems hold: nothing is stored, nothing to be read, and no callback under way. */
  ghost predicate Begins(start: State, handle: int, n: nat) {
    && Permuted(start.core) && IsConfigured(start.core, handle, n)
    && Delivery(start, n)
    && ReadSide(start, FramesIn(start.core)) && Unreadable(FramesIn(start.core))
    && start.receiver == Idle && start.log == NO_HISTORY
  }

  /** A new buffer after CreateEntry. */
  lemma NewBufferBegins(handle: int, n: nat, strategy: Strategy)
    requires handle != 0 && n > 0
    ensures Begins(Start(handle, n, strategy), handle, n)
    ensures Start(handle, n, strategy).core.strategy == strategy
  {
    StartDelivery(handle, n, strategy);
    NewBufferReadSide(handle, n, strategy);
    var c := Start(handle, n, strategy).core;
    assert c.frames[c.read] in FramesIn(c);
  }

  /**
    The premise of the theorems: the callback receives what a gap-free sender
    sent, in order and with any losses, and the data is not reset.
   */
  ghost predicate Feeds(start: State, handle: int, n: nat, actions: seq<Action>, sent: seq<Sample>, at: seq<nat>) {
    && Begins(start, handle, n)
    && Sender.GapFree(sent)
    && Sender.Received(Offered(handle, start, actions), sent, at)
    && !Run(start, actions).log.wasReset
  }

  /** What the first part of a received series inherits. */
  lemma PrefixReceived(r: seq<Sample>, q: seq<Sample>, all: seq<Sample>, sent: seq<Sample>, at: seq<nat>)
    requires all == r + q && Sender.GapFree(sent) && Sender.Received(all, sent, at)
    ensures |r| <= |at| && Sender.Received(r, sent, at[..|r|])
    ensures Sender.Stream(all) && Sender.Stream(r)
  {
    assert forall i :: 0 <= i < |r| ==> all[i] == r[i];
    Sender.ReceptionIsStream(all, sent, at);
    StreamOfPrefix(r, all);
  }

  lemma FeedsDelivers(start: State, handle: int, n: nat, actions: seq<Action>, sent: seq<Sample>, at: seq<nat>)
    returns (at': seq<nat>)
    requires Feeds(start, handle, n, actions, sent, at)
    ensures var st := Run(start, actions);
            && Delivery(st, n) && st.core.strategy == start.core.strategy && Fed(st, sent, at')
            && st.log.processed + InFlight(handle, st.receiver) == Offered(handle, start, actions)
            && Sender.Stream(Offered(handle, start, actions))
  {
    var st := Run(start, actions);
    StoredSince(start, actions, handle, n);
    PrefixReceived(st.log.processed, InFlight(handle, st.receiver), Offered(handle, start, actions), sent, at);
    at' := at[..|st.log.processed|];
    BeginsDelivers(start, handle, n, actions);
    StrategyKept(start, actions);
  }

  lemma BeginsDelivers(start: State, handle: int, n: nat, actions: seq<Action>)
    requires Begins(start, handle, n)
    requires Sender.Stream(Run(start, actions).log.processed) && !Run(start, actions).log.wasReset
    ensures Delivery(Run(start, actions), n)
  {
    RunDelivery(start, actions, n);
  }

  lemma {:induction false} StrategyKept(st: State, actions: seq<Action>)
    requires Permuted(st.core)
    ensures Run(st, actions).core.strategy == st.core.strategy
    decreases |actions|
  {
    if actions != [] {
      StepKeepsStrategy(st, actions[0]);
      StrategyKept(Do(st, actions[0]), actions[1..]);
    }
  }

  lemma StepKeepsStrategy(st: State, a: Action)
    requires Permuted(st.core)
    ensures Do(st, a).core.strategy == st.core.strategy
  {
  }

  /** The sample on its way never belongs to a frame that is closed already. */
  lemma InFlightIsNewer(st: State, handle: int, i: nat, s: Sample)
    requires Grouping(st) && Sender.Stream(st.log.processed + [s])
    requires InFlight(handle, st.receiver) == [s] && i < |st.log.closed|
    ensures st.log.closed[i] != [] && s.frameId > st.log.closed[i][0].frameId
  {
    var log := st.log;
    var gs := Groups(log);
    assert gs[i] == log.closed[i];
    LastIsNewest(gs, i);
    GroupsEmptyIff(log);
    LastOfGroups(log);
    StreamPrefix(log.processed, s);
    if s.frameId == LastId(log.processed) {
      assert log.pending != [] && gs[|log.closed|] == log.pending;
    }
  }

  /** The closed groups are exactly the received samples of their frames, the one on its way included. */
  lemma ClosedIsReceivedFrame(st: State, handle: int, offered: seq<Sample>, i: nat, s: Sample)
    requires Grouping(st) && Sender.Stream(offered) && i < |st.log.closed|
    requires offered == st.log.processed + InFlight(handle, st.receiver)
    ensures st.log.closed[i] != []
    ensures s in st.log.closed[i] <==> s in offered && s.frameId == st.log.closed[i][0].frameId
  {
    var log := st.log;
    assert Groups(log)[i] == log.closed[i];
    GroupIsFrame(Groups(log), i, s);
    assert Uniform(Groups(log)[i]);
    if InFlight(handle, st.receiver) != [] {
      var x := InFlight(handle, st.receiver)[0];
      assert InFlight(handle, st.receiver) == [x];
      InFlightIsNewer(st, handle, i, x);
    }
  }

  lemma ClosedAreFrames(log: Log)
    requires Grouped(log)
    ensures FramesOf(log.processed) == log.closed + (if log.pending == [] then [] else [log.pending])
    ensures Ascending(log.closed)
  {
    var gs := Groups(log);
    SplitIsUnique(gs);
    assert forall i :: 0 <= i < |log.closed| ==> gs[i] == log.closed[i];
  }

  /**
    In every interleaving the closings of the callback are the frames of the
    received series: closed in order, each once and with all its received
    samples, and only the latest one may still be open.
   */
  lemma ClosingsAreFrames(start: State, handle: int, n: nat, actions: seq<Action>, sent: seq<Sample>, at: seq<nat>)
    requires Feeds(start, handle, n, actions, sent, at)
    ensures var st := Run(start, actions);
            var log, received := st.log, Offered(handle, start, actions);
            && received == log.processed + InFlight(handle, st.receiver)
            && FramesOf(log.processed) == log.closed + (if log.pending == [] then [] else [log.pending])
            && Ascending(log.closed)
            && forall i, s :: 0 <= i < |log.closed| ==>
                 (s in log.closed[i] <==> s in received && s.frameId == log.closed[i][0].frameId)
  {
    var at' := FeedsDelivers(start, handle, n, actions, sent, at);
    var st, received := Run(start, actions), Offered(handle, start, actions);
    ClosedAreFrames(st.log);
    forall i, s | 0 <= i < |st.log.closed|
      ensures s in st.log.closed[i] <==> s in received && s.frameId == st.log.closed[i][0].frameId
    {
      ClosedIsReceivedFrame(st, handle, received, i, s);
    }
  }

  /** Facts about the i-th closed frame in a run that fits a sender. */
  lemma ClosedFacts(st: State, n: nat, sent: seq<Sample>, at: seq<nat>, i: nat)
    requires Permuted(st.core) && Delivery(st, n) && Fed(st, sent, at) && i < |st.log.ended|
    ensures i < |st.log.closed| && st.log.ended[i].group == st.log.closed[i]
    ensures var h := st.log.ended[i];
            HandedOk(h, n, DeliverIncomplete) && h.group[0].frameId > 0 && FromSender(sent, h.group)
  {
    var log, g := st.log, st.log.closed[i];
    assert ClosedOk(log.ended[i], n);
    assert Groups(log)[i] == g;
    forall j | 0 <= j < |g| ensures g[j] in sent && g[j].frameId > 0 {
      GroupIsFrame(Groups(log), i, g[j]);
      var p :| 0 <= p < |log.processed| && log.processed[p] == g[j];
      Sender.FrameIdPositive(sent, at[p]);
    }
  }

  /**
    What a closed frame tells its reader.  Its group is one whole received
    frame.  If any sample of that frame fits into the buffer, the valid
    positions are exactly the received samples, with their content.  The mask
    and the completeness flag are right exactly under the conditions given,
    which are settled before the frame begins.
   */
  ghost predicate Truthful(h: Handover, received: seq<Sample>, sent: seq<Sample>) {
    && h.group != []
    && (forall s :: s in h.group <==> s in received && s.frameId == h.group[0].frameId)
    && (SomeFits(h) ==>
          forall j :: 0 <= j < |h.group| && h.group[j].number < |h.frame.cells| ==>
            h.frame.cells[h.group[j].number] == CellOf(h.group[j]))
    && (MaskIsExact(h) <==> SomeFits(h) || MaxId(h.opening) == 0)
    && (FlagIsExact(sent, h) <==> SomeFits(h) || ShowsIncomplete(h.opening))
  }

  /** In every interleaving every closed frame is truthful. */
  lemma ClosedIsTruthful(start: State, handle: int, n: nat, actions: seq<Action>,
                         sent: seq<Sample>, at: seq<nat>, i: nat)
    requires Feeds(start, handle, n, actions, sent, at)
    requires i < |Run(start, actions).log.ended|
    ensures Truthful(Run(start, actions).log.ended[i], Offered(handle, start, actions), sent)
  {
    var st, received := Run(start, actions), Offered(handle, start, actions);
    var at' := FeedsDelivers(start, handle, n, actions, sent, at);
    ClosedFacts(st, n, sent, at', i);
    var h := st.log.ended[i];
    forall s ensures s in h.group <==> s in received && s.frameId == h.group[0].frameId {
      ClosedIsReceivedFrame(st, handle, received, i, s);
    }
    if SomeFits(h) {
      ExactWhenSomeFits(h, n, DeliverIncomplete);
    }
    MaskIsExactIff(h, n, DeliverIncomplete);
    FlagIsExactIff(sent, h, n, DeliverIncomplete);
  }

  /** In every interleaving every frame handed over is truthful and was let pass by the strategy. */
  lemma HandedFramesAreTruthful(start: State, handle: int, n: nat, actions: seq<Action>,
                                sent: seq<Sample>, at: seq<nat>, k: nat)
    requires Feeds(start, handle, n, actions, sent, at)
    requires k < |Run(start, actions).log.handed|
    ensures var h := Run(start, actions).log.handed[k];
            && Truthful(h, Offered(handle, start, actions), sent)
            && (start.core.strategy == DumpIncomplete ==> IsComplete(h.frame))
  {
    var log := Run(start, actions).log;
    var at' := FeedsDelivers(start, handle, n, actions, sent, at);
    var h := log.handed[k];
    assert h in log.handed;
    ChosenIff(log.ended, start.core.strategy, h);
    var i :| 0 <= i < |log.ended| && log.ended[i] == h;
    ClosedIsTruthful(start, handle, n, actions, sent, at, i);
    assert ClosedOk(h, n);
  }

  /**
    Which closed frames are handed over: all of them with DeliverIncomplete,
    and with DumpIncomplete exactly those whose valid count is the frame size;
    if a sample of the frame fits, that is exactly the wholly received ones.
   */
  lemma HandedAreWholeFrames(start: State, handle: int, n: nat, actions: seq<Action>,
                             sent: seq<Sample>, at: seq<nat>, i: nat)
    requires Feeds(start, handle, n, actions, sent, at)
    requires i < |Run(start, actions).log.ended|
    ensures var log, strategy := Run(start, actions).log, start.core.strategy;
            var h := log.ended[i];
            && log.handed == Chosen(log.ended, strategy)
            && h.group != []
            && (h in log.handed <==> strategy == DeliverIncomplete || h.frame.validCount == h.frame.frameSize)
            && (SomeFits(h) && strategy == DumpIncomplete ==>
                  (h in log.handed <==> WholeFrameReceived(sent, h.group) && AllFit(h)))
  {
    var st := Run(start, actions);
    var at' := FeedsDelivers(start, handle, n, actions, sent, at);
    ClosedFacts(st, n, sent, at', i);
    var h := st.log.ended[i];
    ChosenIff(st.log.ended, start.core.strategy, h);
    if SomeFits(h) {
      CompleteIffNothingLost(sent, h, n, DeliverIncomplete);
    }
  }

  /** A closed frame shows a sample exactly if one of its own fits, or the write frame held one when it began. */
  lemma ShowsIff(h: Handover, n: nat, strategy: Strategy)
    requires HandedOk(h, n, strategy) && h.group[0].frameId > 0
    ensures Shows(h.frame) <==> SomeFits(h) || MaxId(h.opening) != 0
  {
    var m := MaxId(h.frame.cells);
    if SomeFits(h) {
      HandedIdIsNewest(h, n, strategy);
    } else {
      NothingFits(h, n);
    }
    assert h.frame.valid == Mask(h.frame.cells, m);
    if m != 0 {
      var i :| 0 <= i < |h.frame.cells| && h.frame.cells[i].frameId == m;
      assert IsValidSample(h.frame, i);
    }
  }

  /** Some frame was delivered, and of the last one a sample fits, or the write frame held one when it began. */
  ghost predicate LastDeliveredHolds(log: Log) {
    && log.delivered != [] && log.delivered[|log.delivered| - 1] < |log.handed|
    && var h := log.handed[log.delivered[|log.delivered| - 1]];
       SomeFits(h) || MaxId(h.opening) != 0
  }

  lemma HandedShowsIff(st: State, n: nat, sent: seq<Sample>, at: seq<nat>, k: nat)
    requires Permuted(st.core) && Delivery(st, n) && Fed(st, sent, at) && k < |st.log.handed|
    ensures var h := st.log.handed[k]; Shows(h.frame) <==> SomeFits(h) || MaxId(h.opening) != 0
  {
    var h := st.log.handed[k];
    assert h in st.log.handed;
    ChosenIff(st.log.ended, st.core.strategy, h);
    var i :| 0 <= i < |st.log.ended| && st.log.ended[i] == h;
    ClosedFacts(st, n, sent, at, i);
    ShowsIff(h, n, DeliverIncomplete);
  }

  /**
    Exactly when LockData gives a reader a frame, for a gap-free sender with
    any losses: a frame was delivered, and of the last one a sample fits into
    the buffer, or the write frame held a sample when that frame began.
   */
  lemma ReaderGetsFrameExactly(start: State, handle: int, n: nat, actions: seq<Action>,
                               sent: seq<Sample>, at: seq<nat>, i: nat)
    requires Feeds(start, handle, n, actions, sent, at) && Enabled(Run(start, actions), ReadPointer(i))
    ensures var st := Run(start, actions);
            var r := Next(st, ReadPointer(i));
            && i in r.readers
            && r.readers[i] == Holding(if LastDeliveredHolds(st.log) then Some(st.core.read) else None)
  {
    var st := Run(start, actions);
    var at' := FeedsDelivers(start, handle, n, actions, sent, at);
    ReaderGetsFrameIff(start, actions, FramesIn(start.core), i);
    if st.log.delivered != [] && st.log.delivered[|st.log.delivered| - 1] < |st.log.handed| {
      HandedShowsIff(st, n, sent, at', st.log.delivered[|st.log.delivered| - 1]);
    }
  }

  /** Reader i got a frame from LockData. */
  ghost predicate HasFrame(st: State, i: nat) {
    i in st.readers && st.readers[i].Holding? && st.readers[i].frame.Some?
  }

  /** The frame reader i got is the last delivered one, and it is truthful. */
  ghost predicate ReadsTruth(st: State, i: nat, received: seq<Sample>, sent: seq<Sample>)
    requires HasFrame(st, i)
  {
    var p, log := st.readers[i].frame.value, st.log;
    && log.delivered != [] && log.delivered[|log.delivered| - 1] < |log.handed|
    && var h := log.handed[log.delivered[|log.delivered| - 1]];
       && p < |st.core.frames| && st.core.frames[p] == h.frame
       && Truthful(h, received, sent)
       && (st.core.strategy == DumpIncomplete ==> IsComplete(h.frame))
  }

  /** The frame reader i got is the last delivered one. */
  ghost predicate ReadsLast(st: State, i: nat)
    requires HasFrame(st, i)
  {
    var p, log := st.readers[i].frame.value, st.log;
    && log.delivered != [] && log.delivered[|log.delivered| - 1] < |log.handed|
    && p < |st.core.frames| && st.core.frames[p] == log.handed[log.delivered[|log.delivered| - 1]].frame
  }

  lemma BeginsReads(start: State, handle: int, n: nat, actions: seq<Action>, i: nat)
    requires Begins(start, handle, n) && !Run(start, actions).log.wasReset && HasFrame(Run(start, actions), i)
    ensures ReadsLast(Run(start, actions), i)
  {
    ReaderSeesLastDelivered(start, actions, FramesIn(start.core), i);
  }

  lemma ReaderGetsTruth(start: State, handle: int, n: nat, actions: seq<Action>,
                        sent: seq<Sample>, at: seq<nat>, i: nat, k: nat)
    requires Feeds(start, handle, n, actions, sent, at)
    requires var st := Run(start, actions);
             && HasFrame(st, i) && ReadsLast(st, i)
             && k == st.log.delivered[|st.log.delivered| - 1]
    ensures ReadsTruth(Run(start, actions), i, Offered(handle, start, actions), sent)
  {
    StrategyKept(start, actions);
    HandedFramesAreTruthful(start, handle, n, actions, sent, at, k);
  }

  /**
    Every valid position of the frame shows the data of the successful call
    whose sample was sent with this number in this frame.
   */
  ghost predicate ShowsCallData(h: Handover, sent: seq<Sample>, calls: seq<Sender.Attempt>)
    requires |sent| == |calls| && h.group != []
  {
    forall p: nat :: IsValidSample(h.frame, p) ==>
      exists i :: 0 <= i < |sent| && sent[i].frameId == h.group[0].frameId && sent[i].number == p
                  && h.frame.cells[p].data == calls[i].data
  }

  /** A valid position of a truthful frame shows a sample that was sent with that number in that frame. */
  lemma TruthShowsSent(h: Handover, received: seq<Sample>, sent: seq<Sample>, at: seq<nat>, p: nat) returns (i: nat)
    requires Truthful(h, received, sent) && SomeFits(h) && Sender.Received(received, sent, at)
    requires IsValidSample(h.frame, p)
    ensures i < |sent| && sent[i].frameId == h.group[0].frameId && sent[i].number == p
    ensures h.frame.cells[p] == CellOf(sent[i])
  {
    assert Arrived(h.group, p);
    var j :| 0 <= j < |h.group| && h.group[j].number == p;
    assert h.group[j] in h.group;
    var k :| 0 <= k < |received| && received[k] == h.group[j];
    i := at[k];
  }

  lemma TruthShowsCallData(h: Handover, received: seq<Sample>, sent: seq<Sample>, at: seq<nat>,
                           c: Sender.Counter, calls: seq<Sender.Attempt>)
    requires Truthful(h, received, sent) && SomeFits(h) && Sender.Received(received, sent, at)
    requires sent == Sender.Sent(c, calls)
    ensures |sent| == |Sender.Transmitted(calls)| && ShowsCallData(h, sent, Sender.Transmitted(calls))
  {
    Sender.SentCarries(c, calls);
    forall p: nat | IsValidSample(h.frame, p)
      ensures exists i :: 0 <= i < |sent| && sent[i].frameId == h.group[0].frameId && sent[i].number == p
                          && h.frame.cells[p].data == Sender.Transmitted(calls)[i].data
    {
      var i := TruthShowsSent(h, received, sent, at, p);
      assert Sender.Carries(c.handle, Sender.Transmitted(calls)[i], sent[i]);
    }
  }

  /**
    From SendNow to LockData.  For every series of calls whose numbers do not
    wrap, every pattern of failed transmissions, every loss on the channel and
    every interleaving of the receiving side, from a new buffer or right after
    a reset on: the frame a reader got is the last delivered one, it is
    truthful, and if a sample of it fits, its valid positions show the data of
    the calls.
   */
  lemma FromSenderToReader(start: State, handle: int, n: nat, calls: seq<Sender.Attempt>, sent: seq<Sample>,
                           actions: seq<Action>, at: seq<nat>, i: nat)
    requires Begins(start, handle, n)
    requires Sender.Fits(1, 0, Sender.Transmitted(calls)) && sent == Sender.Sent(Sender.Configured(handle), calls)
    requires Sender.Received(Offered(handle, start, actions), sent, at)
    requires !Run(start, actions).log.wasReset && HasFrame(Run(start, actions), i)
    ensures ReadsTruth(Run(start, actions), i, Offered(handle, start, actions), sent)
    ensures |sent| == |Sender.Transmitted(calls)|
    ensures var log := Run(start, actions).log;
            var h := log.handed[log.delivered[|log.delivered| - 1]];
            SomeFits(h) ==> ShowsCallData(h, sent, Sender.Transmitted(calls))
  {
    Sender.GapFreeIffFits(handle, calls);
    Sender.SentCarries(Sender.Configured(handle), calls);
    var log := Run(start, actions).log;
    BeginsReads(start, handle, n, actions, i);
    ReaderGetsTruth(start, handle, n, actions, sent, at, i, log.delivered[|log.delivered| - 1]);
    var h := log.handed[log.delivered[|log.delivered| - 1]];
    if SomeFits(h) {
      TruthShowsCallData(h, Offered(handle, start, actions), sent, at, Sender.Configured(handle), calls);
    }
  }

  // ------------------------------------------------------------- after a reset

  /** What a reset finds and what it leaves: a configured buffer, and nobody in the callback. */
  ghost predicate Sized(c: Core, handle: int, n: nat)
    requires Permuted(c)
  {
    IsConfigured(c, handle, n) && Dims(c, n)
  }

  lemma SizedKept(st: State, a: Action, handle: int, n: nat)
    requires Permuted(st.core) && Sized(st.core, handle, n)
    ensures Sized(Do(st, a).core, handle, n)
  {
  }

  lemma {:induction false} RunSized(st: State, actions: seq<Action>, handle: int, n: nat)
    requires Permuted(st.core) && Sized(st.core, handle, n)
    ensures Sized(Run(st, actions).core, handle, n)
    decreases |actions|
  {
    if actions != [] {
      SizedKept(st, actions[0], handle, n);
      RunSized(Do(st, actions[0]), actions[1..], handle, n);
    }
  }

  /** The state right after a reset, with a history of its own. */
  function AfterReset(st: State): (r: State)
    requires Permuted(st.core) && Enabled(st, DoReset)
    ensures Permuted(r.core)
  {
    Next(st, DoReset).(log := NO_HISTORY)
  }

  lemma ResetDelivers(st: State, handle: int, n: nat)
    requires Permuted(st.core) && Guards(st) && Sized(st.core, handle, n) && Enabled(st, DoReset)
    ensures Delivery(AfterReset(st), n) && AfterReset(st).receiver == Idle
  {
    var r := AfterReset(st);
    GuardsKept(st, DoReset);
    SizedKept(st, DoReset, handle, n);
    assert Guards(r);
    assert forall k :: 0 <= k < 3 ==> Bounded(r.core.frames[k].cells, 0);
  }

  lemma ResetReadSide(st: State)
    requires Permuted(st.core) && Locks(st) && Enabled(st, DoReset)
    ensures var r := AfterReset(st);
            ReadSide(r, FramesIn(r.core)) && Unreadable(FramesIn(r.core))
  {
    var r := AfterReset(st);
    LocksKept(st, DoReset);
    assert Locks(r);
    assert st.readers.Keys == {};
    assert r.core.frames[r.core.read] in FramesIn(r.core) && r.core.frames[r.core.stock] in FramesIn(r.core);
  }

  lemma ResetBegins(st: State, handle: int, n: nat)
    requires Permuted(st.core) && Locks(st) && Sized(st.core, handle, n) && Enabled(st, DoReset)
    ensures Begins(AfterReset(st), handle, n)
  {
    SizedKept(st, DoReset, handle, n);
    ResetDelivers(st, handle, n);
    ResetReadSide(st);
  }

  /**
    The theorems hold anew after every reset, whatever happened before: what
    follows the reset is a run of its own, and its history is the only thing
    in which it differs from the run as a whole.
   */
  lemma ResetStartsAnew(handle: int, n: nat, strategy: Strategy, before: seq<Action>, after: seq<Action>)
    requires handle != 0 && n > 0
    requires Enabled(Run(Start(handle, n, strategy), before), DoReset)
    ensures var st := Run(Start(handle, n, strategy), before);
            var whole, own := Run(Next(st, DoReset), after), Run(AfterReset(st), after);
            && Begins(AfterReset(st), handle, n)
            && own.(log := whole.log) == whole
            && Offered(handle, AfterReset(st), after) == Offered(handle, Next(st, DoReset), after)
  {
    var start := Start(handle, n, strategy);
    var st := Run(start, before);
    RunInv(start, before);
    RunSized(start, before, handle, n);
    ResetBegins(st, handle, n);
    RunIgnoresHistory(Next(st, DoReset), NO_HISTORY, after);
    OfferedIgnoresHistory(handle, Next(st, DoReset), NO_HISTORY, after);
  }

  // ------------------------------------------------ what goes wrong on overrun

  lemma OneCell(c: Cell)
    ensures MaxId([c]) == c.frameId
    ensures CountTrue(Mask([c], c.frameId)) == if c.frameId != 0 then 1 else 0
    ensures SizeOf([c], c.frameId) == if c.frameId == 0 then 0 else if c.sync then 1 else 2
  {
    assert [c][..0] == [];
    assert Mask([c], c.frameId)[..0] == [];
  }

  /**
    Sample 0 of the first frame is lost and sample 1 exceeds a buffer of one
    sample: the frame that is handed over is empty and reports complete.
   */
  lemma OverrunLooksComplete(c: Core, s: Sample)
    requires c == Created(s.handle, 1, DeliverIncomplete) && s.handle != 0
    requires s.frameId == 1 && s.number == 1 && s.sync
    ensures var r := Receive(c, s);
            r.full && IsComplete(r.frames[r.stock]) && GetValidCount(r.frames[r.stock]) == 0
  {
    assert Accepts(c, s) && !ClosesPrevious(c, s);
    assert Store(c, s) == c;
    assert c.frames[c.write].cells == [BLANK];
    OneCell(BLANK);
  }

  /** A buffer of one sample receives a complete frame of one sample. */
  lemma WholeFrameOfOne(c: Core, s: Sample)
    requires Permuted(c) && Accepts(c, s) && c.prevSync && c.strategy == DeliverIncomplete
    requires |c.frames[c.write].cells| == 1 && s.number == 0 && s.sync
    ensures var r := Receive(c, s);
            && r.write == c.stock && r.stock == c.write && r.frames[r.write] == c.frames[c.stock]
            && r.frames[r.stock].cells == [CellOf(s)]
            && r.handle == c.handle && r.strategy == c.strategy && r.prevSync
  {
    assert Store(c, s).frames[c.write].cells == [CellOf(s)];
  }

  /** A sample beyond a buffer of one sample, while the write frame holds a sample of an older frame. */
  lemma OverrunOverOldSample(c: Core, s: Sample)
    requires Permuted(c) && Accepts(c, s) && c.prevSync && c.strategy == DeliverIncomplete
    requires |c.frames[c.write].cells| == 1 && 0 < c.frames[c.write].cells[0].frameId
    requires s.number >= 1 && s.sync
    ensures var r := Receive(c, s);
            && r.full && IsValidSample(r.frames[r.stock], 0) && r.frames[r.stock].cells == c.frames[c.write].cells
            && (c.frames[c.write].cells[0].sync ==> IsComplete(r.frames[r.stock]))
  {
    var cell := c.frames[c.write].cells[0];
    assert c.frames[c.write].cells == [cell];
    assert Store(c, s) == c;
    OneCell(cell);
  }

  /**
    A run that shows an old sample: two whole frames of one sample each, then
    a third one whose only received sample exceeds the buffer.  The frame that
    is handed over shows the sample of the first frame as valid and reports
    complete.
   */
  lemma OverrunShowsOldSample(handle: int, x: Data, y: Data, z: Data)
    requires handle != 0
    ensures var c := Created(handle, 1, DeliverIncomplete);
            var c1 := Receive(c, Sample(handle, 1, 0, true, x));
            var c2 := Receive(c1, Sample(handle, 2, 0, true, y));
            var r := Receive(c2, Sample(handle, 3, 1, true, z));
            && r.full && IsValidSample(r.frames[r.stock], 0) && IsComplete(r.frames[r.stock])
            && r.frames[r.stock].cells == [Cell(1, true, x)]
  {
    var c := Created(handle, 1, DeliverIncomplete);
    var s1, s2, s3 := Sample(handle, 1, 0, true, x), Sample(handle, 2, 0, true, y), Sample(handle, 3, 1, true, z);
    WholeFrameOfOne(c, s1);
    var c1 := Receive(c, s1);
    WholeFrameOfOne(c1, s2);
    OverrunOverOldSample(Receive(c1, s2), s3);
  }
}
