/**
 * Exactly-once, in-order delivery over every interleaving of commits, page suspensions,
 * refusals and closes: each subscriber has been handed exactly the in-scope journal
 * between where it began and its cursor, and whenever no replay loop of an open
 * subscriber is suspended its cursor has reached the last committed sequence.
 */
module EventStreamSafety {
  import opened Wrappers
  import opened EventStreamModel

  /** The Events among the frames handed over. */
  function EventsOf(log: seq<Frame>): seq<Event> {
    if log == [] then []
    else
      var last := log[|log| - 1];
      EventsOf(log[..|log| - 1]) + (if last.EventFrame? then [last.event] else [])
  }

  lemma EventsOfPlus(log: seq<Frame>, frame: Frame)
    ensures EventsOf(log + [frame]) == EventsOf(log) + if frame.EventFrame? then [frame.event] else []
  {
    assert (log + [frame])[..|log|] == log;
  }

  /** The cursor is the only position: what was handed over is the window up to it. */
  ghost predicate Positioned(j: seq<Event>, e: Entry) {
    && e.from <= e.cursor <= Max(e.from, LastSeq(j))
    && EventsOf(e.log) == Window(j, e.filter, e.from, e.cursor)
  }

  /** A `caught_up` frame tells the truth: every in-scope Event up to it came before it. */
  ghost predicate Truthful(j: seq<Event>, e: Entry) {
    && e.log != [] && e.log[0].Connected?
    && (forall k :: 0 <= k < |e.log| && e.log[k].CaughtUp? ==>
          && e.log[k].upTo <= e.cursor
          && EventsOf(e.log[..k]) == Window(j, e.filter, e.from, e.log[k].upTo))
  }

  /** The subscriber is told of the end exactly once. */
  ghost predicate EndedOnce(e: Entry) {
    |e.endings| == if e.open then 0 else 1
  }

  ghost predicate HandedOver(j: seq<Event>, e: Entry) {
    Positioned(j, e) && Truthful(j, e) && EndedOnce(e)
  }

  /** At most one replay loop, and `draining` says whether there is one. */
  ghost predicate OneLoop(e: Entry) {
    |e.loops| <= 1 && (e.draining <==> |e.loops| == 1)
  }

  ghost predicate EntryOk(j: seq<Event>, listening: bool, e: Entry) {
    && HandedOver(j, e) && OneLoop(e)
    && (listening && e.open && !e.draining ==> LastSeq(j) <= e.cursor)
  }

  /** What a subscription is about, and where its replay loop stands. */
  ghost predicate SameLoop(e: Entry, e': Entry) {
    e'.filter == e.filter && e'.from == e.from && e'.draining == e.draining && e'.again == e.again
      && e'.loops == e.loops
  }

  // ---------------------------------------------------------------------------
  // Frames
  // ---------------------------------------------------------------------------

  lemma PrefixesKept(log: seq<Frame>, frame: Frame)
    ensures forall k :: 0 <= k < |log| ==> (log + [frame])[..k] == log[..k]
    ensures (log + [frame])[..|log|] == log
  {
  }

  /** What was handed over is decided by the log and the cursor alone. */
  lemma SameLog(j: seq<Event>, e: Entry, e': Entry)
    requires Positioned(j, e) && Truthful(j, e)
    requires e'.log == e.log && e'.cursor == e.cursor && e'.from == e.from && e'.filter == e.filter
    ensures Positioned(j, e') && Truthful(j, e')
  {
    hide EventsOf, Window;
  }

  /** Any frame but an Event leaves the position alone; a `caught_up` frame must name it. */
  lemma Logged(j: seq<Event>, e: Entry, frame: Frame)
    requires Positioned(j, e) && Truthful(j, e) && !frame.EventFrame? && (frame.CaughtUp? ==> frame.upTo == e.cursor)
    ensures var e' := e.(log := e.log + [frame]); Positioned(j, e') && Truthful(j, e')
  {
    hide EventsOf, Window;
    EventsOfPlus(e.log, frame);
    PrefixesKept(e.log, frame);
  }

  /** The next in-scope Event moves the cursor and the log together. */
  lemma LoggedEvent(j: seq<Event>, e: Entry, event: Event)
    requires Positioned(j, e) && Truthful(j, e) && e.cursor <= event.number <= LastSeq(j)
    requires Window(j, e.filter, e.from, event.number) == Window(j, e.filter, e.from, e.cursor) + [event]
    ensures var e' := e.(cursor := event.number, log := e.log + [EventFrame(event)]);
      Positioned(j, e') && Truthful(j, e')
  {
    hide EventsOf, Window;
    EventsOfPlus(e.log, EventFrame(event));
    PrefixesKept(e.log, EventFrame(event));
  }

  /** Handing a frame over logs it and may end the subscription, once. */
  lemma SendShape(e: Entry, frame: Frame, peer: Peer)
    requires EndedOnce(e)
    ensures var e' := Send(e, frame, peer);
      && EndedOnce(e') && SameLoop(e, e') && e'.cursor == e.cursor && (e'.open ==> e.open)
      && e'.log == if e.open then e.log + [frame] else e.log
  {
  }

  lemma SendKeeps(j: seq<Event>, e: Entry, frame: Frame, peer: Peer)
    requires HandedOver(j, e) && !frame.EventFrame? && (frame.CaughtUp? ==> frame.upTo == e.cursor)
    ensures var e' := Send(e, frame, peer);
      HandedOver(j, e') && SameLoop(e, e') && e'.cursor == e.cursor && (e'.open ==> e.open)
  {
    SendShape(e, frame, peer);
    Logged(j, e, frame);
    hide Positioned, Truthful, EndedOnce, Send;
    SameLog(j, if e.open then e.(log := e.log + [frame]) else e, Send(e, frame, peer));
  }

  lemma SendEventKeeps(j: seq<Event>, e: Entry, event: Event, peer: Peer)
    requires HandedOver(j, e) && e.open && e.cursor <= event.number <= LastSeq(j)
    requires Window(j, e.filter, e.from, event.number) == Window(j, e.filter, e.from, e.cursor) + [event]
    ensures var e' := Send(e.(cursor := event.number), EventFrame(event), peer);
      HandedOver(j, e') && SameLoop(e, e') && e'.cursor == event.number
  {
    LoggedEvent(j, e, event);
    SendShape(e.(cursor := event.number), EventFrame(event), peer);
    hide Positioned, Truthful, EndedOnce, Send;
    SameLog(j, e.(cursor := event.number, log := e.log + [EventFrame(event)]),
            Send(e.(cursor := event.number), EventFrame(event), peer));
  }

  /** Where the cursor stands before the k-th Event of a page read at `start`. */
  function Before(page: seq<Event>, k: nat, start: nat): nat
    requires k <= |page|
  {
    if k == 0 then start else page[k - 1].number
  }

  /** The window from `from` up to the k-th Event of a page read after `start`. */
  lemma WindowTo(j: seq<Event>, filter: Filter, from: nat, start: nat, page: seq<Event>, k: nat)
    requires Journal(j) && from <= start && page <= Newer(j, filter, start) && k < |page|
    ensures start < page[k].number <= LastSeq(j)
    ensures Window(j, filter, from, page[k].number) == Window(j, filter, from, start) + page[..k + 1]
  {
    var newer := Newer(j, filter, start);
    assert page[k] == newer[k] && newer[..k + 1] == page[..k + 1];
    PrefixWindow(j, filter, start, LastSeq(j), k);
    SplitWindow(j, filter, from, start, page[k].number);
  }

  lemma PageOrdered(j: seq<Event>, filter: Filter, start: nat, page: seq<Event>, k: nat)
    requires Journal(j) && page <= Newer(j, filter, start) && 0 < k < |page|
    ensures page[k - 1].number <= page[k].number
  {
    var newer := Newer(j, filter, start);
    PrefixWindow(j, filter, start, LastSeq(j), k);
    var upTo := Window(j, filter, start, newer[k].number);
    assert upTo == newer[..k + 1] && upTo[k - 1] == page[k - 1] && newer[k] == page[k];
    assert Selected(upTo[k - 1], filter, start, newer[k].number);
  }

  /** A page read after `start` continues the window by one Event at a time. */
  lemma PageStep(j: seq<Event>, filter: Filter, from: nat, start: nat, page: seq<Event>, k: nat)
    requires Journal(j) && from <= start && page <= Newer(j, filter, start) && k < |page|
    ensures Before(page, k, start) <= page[k].number <= LastSeq(j)
    ensures Window(j, filter, from, page[k].number) == Window(j, filter, from, Before(page, k, start)) + [page[k]]
  {
    hide Newer, Window, Journal;
    WindowTo(j, filter, from, start, page, k);
    if k > 0 {
      WindowTo(j, filter, from, start, page, k - 1);
      PageOrdered(j, filter, start, page, k);
      assert page[..k + 1] == page[..k] + [page[k]];
    } else {
      assert page[..1] == [page[0]];
    }
  }

  lemma {:induction false} PageKeeps(j: seq<Event>, e: Entry, page: seq<Event>, k: nat, start: nat, peer: Peer)
    requires Journal(j) && HandedOver(j, e) && e.from <= start && page <= Newer(j, e.filter, start)
    requires k <= |page| && e.cursor == Before(page, k, start)
    ensures var (e', whole) := DeliverPage(e, page, k, peer);
      && HandedOver(j, e') && SameLoop(e, e') && (e'.open ==> e.open)
      && (whole ==> e'.cursor == Before(page, |page|, start))
      && (!whole ==> !e'.open)
    decreases |page| - k
  {
    hide HandedOver, Window, Newer;
    if k < |page| && e.open {
      PageStep(j, e.filter, e.from, start, page, k);
      SendEventKeeps(j, e, page[k], peer);
      PageKeeps(j, Send(e.(cursor := page[k].number), EventFrame(page[k]), peer), page, k + 1, start, peer);
    }
  }

  // ---------------------------------------------------------------------------
  // Segments
  // ---------------------------------------------------------------------------

  /** After a whole page that was all there is, nothing in scope lies between the cursor and the last sequence. */
  lemma NothingNewer(j: seq<Event>, filter: Filter, from: nat, start: nat)
    requires Journal(j) && from <= start
    ensures var newer := Newer(j, filter, start); var cursor := Before(newer, |newer|, start);
      && from <= cursor && Window(j, filter, from, Max(cursor, LastSeq(j))) == Window(j, filter, from, cursor)
  {
    var newer := Newer(j, filter, start);
    var n := |newer|;
    var cursor := Before(newer, n, start);
    if cursor < LastSeq(j) {
      SplitWindow(j, filter, from, cursor, LastSeq(j));
      if n > 0 {
        PrefixWindow(j, filter, start, LastSeq(j), n - 1);
        assert newer[n - 1] in newer && newer[..n] == newer;
        SplitWindow(j, filter, start, cursor, LastSeq(j));
      }
    }
  }

  lemma CatchUpKeeps(j: seq<Event>, e: Entry, start: nat)
    requires Journal(j) && HandedOver(j, e) && e.from <= start
    requires e.cursor == Before(Newer(j, e.filter, start), |Newer(j, e.filter, start)|, start)
    ensures HandedOver(j, e.(cursor := Max(e.cursor, LastSeq(j))))
  {
    NothingNewer(j, e.filter, e.from, start);
    hide Newer, Window, EventsOf;
  }

  /**
   * What a segment leaves behind: either a suspended loop, or an ended subscription, or a cursor at
   * the last committed sequence.
   */
  ghost predicate Settled(j: seq<Event>, e: Entry) {
    && HandedOver(j, e) && OneLoop(e)
    && (e.open && !e.draining ==> LastSeq(j) <= e.cursor)
  }

  lemma SegmentKeeps(j: seq<Event>, limit: nat, e: Entry, announced: bool, peer: Peer)
    requires Journal(j) && HandedOver(j, e) && e.draining && e.loops == []
    ensures var e' := Segment(j, limit, e, announced, peer);
      Settled(j, e') && e'.filter == e.filter && e'.from == e.from && (e'.open ==> e.open)
    decreases e.again
  {
    hide Positioned, Truthful, EndedOnce, Newer, Window, DeliverPage, Send;
    if e.open {
      var page := Read(j, e.filter, e.cursor, limit);
      assert e.from <= e.cursor by { PositionBound(j, e); }
      PageKeeps(j, e, page, 0, e.cursor, peer);
      var (delivered, whole) := DeliverPage(e, page, 0, peer);
      if whole && |page| < limit {
        CatchUpKeeps(j, delivered, e.cursor);
        var caught := delivered.(cursor := Max(delivered.cursor, LastSeq(j)));
        SendKeeps(j, caught, CaughtUp(caught.cursor), peer);
        var told := if announced then caught else Send(caught, CaughtUp(caught.cursor), peer);
        FlagsKeep(j, told, told.(again := false));
        FlagsKeep(j, told, told.(draining := false));
        if e.again {
          SegmentKeeps(j, limit, told.(again := false), announced || caught.open, peer);
        }
      } else {
        assert delivered.loops + [announced] == [announced];
        FlagsKeep(j, delivered, delivered.(draining := false));
        FlagsKeep(j, delivered, delivered.(loops := [announced]));
      }
    } else {
      FlagsKeep(j, e, e.(draining := false));
    }
  }

  lemma PositionBound(j: seq<Event>, e: Entry)
    requires HandedOver(j, e)
    ensures e.from <= e.cursor
  {
  }

  /** What was handed over does not depend on where the loop stands. */
  lemma FlagsKeep(j: seq<Event>, e: Entry, e': Entry)
    requires HandedOver(j, e) && e' == e.(draining := e'.draining, again := e'.again, loops := e'.loops)
    ensures HandedOver(j, e')
  {
    hide EventsOf, Window;
  }

  // ---------------------------------------------------------------------------
  // Steps at one subscriber
  // ---------------------------------------------------------------------------

  lemma ReplayKeeps(j: seq<Event>, limit: nat, e: Entry, peer: Peer)
    requires Journal(j) && HandedOver(j, e) && OneLoop(e)
    ensures Settled(j, Replay(j, limit, e, peer))
  {
    hide HandedOver, Segment;
    if e.draining {
      FlagsKeep(j, e, e.(again := true));
    } else {
      var started := e.(draining := true, again := false);
      FlagsKeep(j, e, started);
      SegmentKeeps(j, limit, started, false, peer);
    }
  }

  lemma ResumeKeeps(j: seq<Event>, limit: nat, e: Entry, k: nat, peer: Peer)
    requires Journal(j) && HandedOver(j, e) && OneLoop(e) && k < |e.loops|
    ensures Settled(j, Resume(j, limit, e, k, peer))
  {
    hide HandedOver, Segment;
    var resumed := e.(loops := e.loops[..k] + e.loops[k + 1..]);
    assert resumed.loops == [];
    FlagsKeep(j, e, resumed);
    SegmentKeeps(j, limit, resumed, e.loops[k], peer);
  }

  lemma SubscribeKeeps(j: seq<Event>, limit: nat, filter: Filter, afterSeq: int, peer: Peer)
    requires Journal(j)
    ensures Settled(j, Subscribe(j, limit, filter, afterSeq, peer))
  {
    var from := if afterSeq < 0 then 0 else afterSeq;
    var e := Send(Entry(filter, from, from, true, false, false, [], [], []), Connected(LastSeq(j)), peer);
    Greeted(j, filter, from, peer);
    hide HandedOver, Replay, Send;
    ReplayKeeps(j, limit, e, peer);
  }

  /** A new subscriber has its greeting and nothing else. */
  lemma Greeted(j: seq<Event>, filter: Filter, from: nat, peer: Peer)
    ensures var e := Send(Entry(filter, from, from, true, false, false, [], [], []), Connected(LastSeq(j)), peer);
      HandedOver(j, e) && OneLoop(e)
  {
    var e, greeting := Entry(filter, from, from, true, false, false, [], [], []), Connected(LastSeq(j));
    FirstLogged(j, e.(log := [greeting]));
    SendShape(e, greeting, peer);
    hide Positioned, Truthful, Send;
    assert [] + [greeting] == [greeting];
    SameLog(j, e.(log := [greeting]), Send(e, greeting, peer));
  }

  lemma FirstLogged(j: seq<Event>, e: Entry)
    requires e.log == [Connected(LastSeq(j))] && e.cursor == e.from
    ensures Positioned(j, e) && Truthful(j, e)
  {
    EmptyWindow(j, e.filter, e.from, e.from);
    EventsOfPlus([], Connected(LastSeq(j)));
    assert [] + [Connected(LastSeq(j))] == e.log;
  }

  lemma PublishKeeps(j: seq<Event>, listening: bool, e: Entry, scope: Scope, chunk: nat, peer: Peer)
    requires EntryOk(j, listening, e)
    ensures EntryOk(j, listening, Publish(e, scope, chunk, peer))
  {
    hide HandedOver;
    SendKeeps(j, e, Output(chunk), peer);
  }

  lemma EndKeeps(j: seq<Event>, listening: bool, e: Entry, reason: EndReason)
    requires EntryOk(j, listening, e)
    ensures EntryOk(j, listening, End(e, reason))
  {
    hide EventsOf, Window;
  }

  lemma BatchIsLater(j: seq<Event>, batch: seq<Event>)
    requires Journal(j + batch)
    ensures LastSeq(j) <= LastSeq(j + batch) && forall k :: 0 <= k < |batch| ==> LastSeq(j) < batch[k].number
  {
    var all := j + batch;
    forall k | 0 <= k < |batch| ensures LastSeq(j) < batch[k].number {
      assert batch[k] == all[|j| + k];
      if j != [] { assert all[|j| - 1] == j[|j| - 1]; }
    }
    if batch == [] { assert all == j; } else { assert all[|all| - 1] == batch[|batch| - 1]; }
  }

  /** A commit changes nothing that was handed over before it. */
  lemma CommitKeeps(j: seq<Event>, batch: seq<Event>, e: Entry)
    requires Journal(j) && Journal(j + batch) && HandedOver(j, e)
    ensures HandedOver(j + batch, e)
  {
    hide EventsOf, EndedOnce;
    BatchIsLater(j, batch);
    forall hi: nat | hi <= e.cursor ensures Window(j + batch, e.filter, e.from, hi) == Window(j, e.filter, e.from, hi) {
      AppendWindow(j, batch, e.filter, e.from, hi);
    }
    hide Window;
  }

  lemma NotifyKeeps(j: seq<Event>, batch: seq<Event>, limit: nat, listening: bool, e: Entry, peer: Peer)
    requires Journal(j) && Journal(j + batch) && EntryOk(j, listening, e)
    ensures EntryOk(j + batch, listening, if listening then Notify(j + batch, limit, e, peer) else e)
  {
    hide HandedOver, Journal;
    CommitKeeps(j, batch, e);
    if listening && e.open {
      ReplayKeeps(j + batch, limit, e, peer);
    }
  }
}
