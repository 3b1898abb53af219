/**
 * Whole runs of the event stream: subscriptions, commits, resumed replays, transient
 * output, client closes, disconnects and shutdown, in any order.
 */
module EventStreamRuns {
  import opened Wrappers
  import opened EventStreamModel
  import opened EventStreamSafety

  /** `listening` while the stream is attached to the transactor; a subscription's id is its index. */
  datatype State = State(journal: seq<Event>, listening: bool, entries: seq<Entry>)

  datatype Step =
    | SubscribeStep(filter: Filter, afterSeq: int, peer: Peer)
    | CommitStep(batch: seq<Event>, peers: nat -> Peer)
    | ResumeStep(id: nat, k: nat, peer: Peer)
    | PublishStep(scope: Scope, chunk: nat, peers: nat -> Peer)
    | CloseStep(id: nat)
    | DisconnectAllStep
    | ShutdownStep

  function NotifyAll(s: State, limit: nat, peers: nat -> Peer): seq<Entry> {
    seq(|s.entries|, i requires 0 <= i < |s.entries| =>
        if s.listening then Notify(s.journal, limit, s.entries[i], peers(i)) else s.entries[i])
  }

  function PublishAll(entries: seq<Entry>, scope: Scope, chunk: nat, peers: nat -> Peer): seq<Entry> {
    seq(|entries|, i requires 0 <= i < |entries| => Publish(entries[i], scope, chunk, peers(i)))
  }

  function EndAll(entries: seq<Entry>): seq<Entry> {
    seq(|entries|, i requires 0 <= i < |entries| => End(entries[i], Stream))
  }

  /** Only a batch that continues the journal can commit; a rolled-back transaction is no step at all. */
  ghost function Apply(s: State, limit: nat, step: Step): State {
    match step
    case SubscribeStep(filter, afterSeq, peer) =>
      s.(entries := s.entries + [Subscribe(s.journal, limit, filter, afterSeq, peer)])
    case CommitStep(batch, peers) =>
      if !Journal(s.journal + batch) then s
      else
        var committed := s.(journal := s.journal + batch);
        committed.(entries := NotifyAll(committed, limit, peers))
    case ResumeStep(id, k, peer) =>
      if id < |s.entries| && k < |s.entries[id].loops| then
        s.(entries := s.entries[id := Resume(s.journal, limit, s.entries[id], k, peer)])
      else s
    case PublishStep(scope, chunk, peers) => s.(entries := PublishAll(s.entries, scope, chunk, peers))
    case CloseStep(id) => if id < |s.entries| then s.(entries := s.entries[id := End(s.entries[id], Client)]) else s
    case DisconnectAllStep => s.(entries := EndAll(s.entries))
    case ShutdownStep => s.(entries := EndAll(s.entries), listening := false)
  }

  /** A run over a database that already holds `journal`. */
  ghost function After(journal: seq<Event>, limit: nat, steps: seq<Step>): State {
    if steps == [] then State(journal, true, [])
    else Apply(After(journal, limit, steps[..|steps| - 1]), limit, steps[|steps| - 1])
  }

  ghost predicate Inv(s: State) {
    Journal(s.journal) && forall i :: 0 <= i < |s.entries| ==> EntryOk(s.journal, s.listening, s.entries[i])
  }

  lemma StepKeeps(s: State, limit: nat, step: Step)
    requires Inv(s)
    ensures Inv(Apply(s, limit, step))
  {
    hide EntryOk, Subscribe, Resume, Notify, Publish, End;
    match step
    case SubscribeStep(filter, afterSeq, peer) =>
      SubscribeKeeps(s.journal, limit, filter, afterSeq, peer);
      SettledOk(s.journal, s.listening, Subscribe(s.journal, limit, filter, afterSeq, peer));
    case CommitStep(batch, peers) =>
      if Journal(s.journal + batch) {
        forall i | 0 <= i < |s.entries|
          ensures EntryOk(s.journal + batch, s.listening, Apply(s, limit, step).entries[i])
        {
          NotifyKeeps(s.journal, batch, limit, s.listening, s.entries[i], peers(i));
        }
      }
    case ResumeStep(id, k, peer) =>
      if id < |s.entries| && k < |s.entries[id].loops| {
        Parts(s.journal, s.listening, s.entries[id]);
        ResumeKeeps(s.journal, limit, s.entries[id], k, peer);
        SettledOk(s.journal, s.listening, Resume(s.journal, limit, s.entries[id], k, peer));
      }
    case PublishStep(scope, chunk, peers) =>
      forall i | 0 <= i < |s.entries| ensures EntryOk(s.journal, s.listening, Apply(s, limit, step).entries[i]) {
        PublishKeeps(s.journal, s.listening, s.entries[i], scope, chunk, peers(i));
      }
    case CloseStep(id) => if id < |s.entries| { EndKeeps(s.journal, s.listening, s.entries[id], Client); }
    case DisconnectAllStep => EndAllKeeps(s);
    case ShutdownStep => EndAllKeeps(s);
  }

  lemma EndAllKeeps(s: State)
    requires Inv(s)
    ensures Inv(s.(entries := EndAll(s.entries))) && Inv(s.(entries := EndAll(s.entries), listening := false))
  {
    hide HandedOver, OneLoop;
    forall i | 0 <= i < |s.entries| ensures EntryOk(s.journal, s.listening, EndAll(s.entries)[i]) {
      EndKeeps(s.journal, s.listening, s.entries[i], Stream);
    }
  }

  lemma SettledOk(j: seq<Event>, listening: bool, e: Entry)
    requires Settled(j, e)
    ensures EntryOk(j, listening, e)
  {
  }

  lemma Parts(j: seq<Event>, listening: bool, e: Entry)
    requires EntryOk(j, listening, e)
    ensures HandedOver(j, e) && OneLoop(e)
  {
  }

  lemma {:induction false} Reachable(journal: seq<Event>, limit: nat, steps: seq<Step>)
    requires Journal(journal)
    ensures Inv(After(journal, limit, steps))
  {
    if steps != [] {
      Reachable(journal, limit, steps[..|steps| - 1]);
      hide Inv, Apply;
      StepKeeps(After(journal, limit, steps[..|steps| - 1]), limit, steps[|steps| - 1]);
    }
  }

  // ---------------------------------------------------------------------------
  // What a subscriber can rely on
  // ---------------------------------------------------------------------------

  /**
   * In every reachable state, whatever the subscriber's callback did: it has been handed
   * exactly the in-scope Events of the journal after its start and up to its cursor, in
   * order; it was told of its end at most once; at most one replay loop runs for it; and
   * while the stream listens, an open subscriber with no loop suspended has its cursor
   * at the last committed sequence and has therefore been handed every one of them.
   */
  lemma DeliveredExactly(journal: seq<Event>, limit: nat, steps: seq<Step>, id: nat)
    requires Journal(journal) && id < |After(journal, limit, steps).entries|
    ensures var s := After(journal, limit, steps); var e := s.entries[id];
      && EventsOf(e.log) == Window(s.journal, e.filter, e.from, e.cursor)
      && |e.endings| == (if e.open then 0 else 1)
      && |e.loops| <= 1
      && (s.listening && e.open && e.loops == [] ==> EventsOf(e.log) == Newer(s.journal, e.filter, e.from))
  {
    Reachable(journal, limit, steps);
    hide Window, EventsOf, Truthful, After;
    var s := After(journal, limit, steps);
    assert EntryOk(s.journal, s.listening, s.entries[id]);
    AllNewer(s.journal, s.entries[id]);
  }

  /** A cursor at the last sequence covers everything after the start. */
  lemma AllNewer(j: seq<Event>, e: Entry)
    requires Journal(j) && Positioned(j, e)
    ensures LastSeq(j) <= e.cursor ==> EventsOf(e.log) == Newer(j, e.filter, e.from)
  {
    if LastSeq(j) <= e.cursor {
      OpenEnd(j, e.filter, e.from, e.cursor, LastSeq(j));
    }
  }

  /** No Event is handed over twice or out of order. */
  lemma {:induction false} WindowOrdered(j: seq<Event>, filter: Filter, lo: nat, hi: nat, a: nat, b: nat)
    requires Journal(j) && a < b < |Window(j, filter, lo, hi)|
    ensures Window(j, filter, lo, hi)[a].number < Window(j, filter, lo, hi)[b].number
  {
    Front(j);
    var front := Window(j[..|j| - 1], filter, lo, hi);
    if b < |front| {
      WindowOrdered(j[..|j| - 1], filter, lo, hi, a, b);
    } else {
      assert front[a] in front;
    }
  }

  /**
   * A `caught_up` frame is truthful for good: every in-scope Event up to it was handed over before
   * it, whatever has been committed since.
   */
  lemma CaughtUpIsTrue(journal: seq<Event>, limit: nat, steps: seq<Step>, id: nat, k: nat)
    requires Journal(journal) && id < |After(journal, limit, steps).entries|
    requires k < |After(journal, limit, steps).entries[id].log|
      && After(journal, limit, steps).entries[id].log[k].CaughtUp?
    ensures var s := After(journal, limit, steps); var e := s.entries[id];
      EventsOf(e.log[..k]) == Window(s.journal, e.filter, e.from, e.log[k].upTo)
  {
    Reachable(journal, limit, steps);
    hide Window, EventsOf, After, Positioned;
    var s := After(journal, limit, steps);
    assert EntryOk(s.journal, s.listening, s.entries[id]);
  }

  /**
   * While the stream listens, transient output reaches only subscribers that have been handed
   * everything committed so far.
   */
  lemma OutputOnlyWhenCaughtUp(s: State, scope: Scope, chunk: nat, peers: nat -> Peer, id: nat)
    requires Inv(s) && s.listening && id < |s.entries|
    ensures var e, e' := s.entries[id], PublishAll(s.entries, scope, chunk, peers)[id];
      && (e'.log == e.log || e'.log == e.log + [Output(chunk)])
      && (e'.log != e.log ==>
            e.open && Scoped(e.filter, scope) && EventsOf(e.log) == Newer(s.journal, e.filter, e.from))
  {
    hide Truthful, EndedOnce, Newer, EventsOf, Window;
    assert EntryOk(s.journal, s.listening, s.entries[id]);
    assert PublishAll(s.entries, scope, chunk, peers)[id] == Publish(s.entries[id], scope, chunk, peers(id));
    AllNewer(s.journal, s.entries[id]);
  }

  // ---------------------------------------------------------------------------
  // No lost wake-up, exactly
  // ---------------------------------------------------------------------------

  /** The subscriber is up to date, or a replay loop is under way, or it has ended. */
  predicate Served(j: seq<Event>, e: Entry) {
    !e.open || e.draining || LastSeq(j) <= e.cursor
  }

  /**
   * A commit past the cursor of an open, idle subscriber is served if and only if the
   * stream still listens: a subscription made after shutdown replays once and is never
   * carried live.
   */
  lemma CommitServed(s: State, limit: nat, batch: seq<Event>, peers: nat -> Peer, id: nat)
    requires Inv(s) && Journal(s.journal + batch) && id < |s.entries|
    requires s.entries[id].open && !s.entries[id].draining && s.entries[id].cursor < LastSeq(s.journal + batch)
    ensures Served(s.journal + batch, Apply(s, limit, CommitStep(batch, peers)).entries[id]) <==> s.listening
  {
    StepKeeps(s, limit, CommitStep(batch, peers));
    hide HandedOver, Journal, Replay;
    var s' := Apply(s, limit, CommitStep(batch, peers));
    assert EntryOk(s'.journal, s'.listening, s'.entries[id]);
  }

  // ---------------------------------------------------------------------------
  // Replays end
  // ---------------------------------------------------------------------------

  /** A loop that suspends again has handed over one more full page. */
  lemma SegmentShrinks(j: seq<Event>, limit: nat, e: Entry, announced: bool, peer: Peer)
    requires Journal(j) && HandedOver(j, e) && e.draining && e.loops == [] && limit > 0
    ensures var e' := Segment(j, limit, e, announced, peer);
      e'.loops != [] ==> |Newer(j, e.filter, e'.cursor)| + limit <= |Newer(j, e.filter, e.cursor)|
    decreases e.again
  {
    hide Positioned, Truthful, EndedOnce, Window, DeliverPage, Send;
    if e.open {
      var newer := Newer(j, e.filter, e.cursor);
      var page := Read(j, e.filter, e.cursor, limit);
      PositionBound(j, e);
      PageKeeps(j, e, page, 0, e.cursor, peer);
      var (delivered, whole) := DeliverPage(e, page, 0, peer);
      if whole && |page| >= limit {
        NewerSplits(j, e.filter, e.cursor, limit);
      } else if whole {
        CatchUpKeeps(j, delivered, e.cursor);
        var caught := delivered.(cursor := Max(delivered.cursor, LastSeq(j)));
        SendKeeps(j, caught, CaughtUp(caught.cursor), peer);
        SendLoops(caught, CaughtUp(caught.cursor), peer);
        var told := if announced then caught else Send(caught, CaughtUp(caught.cursor), peer);
        FlagsKeep(j, told, told.(again := false));
        NothingLeft(j, e.filter, caught.cursor);
        NoSuspension(j, limit, told.(again := false), announced || caught.open, peer);
      }
    }
  }

  lemma NewerSplits(j: seq<Event>, filter: Filter, cursor: nat, limit: nat)
    requires Journal(j) && 0 < limit <= |Newer(j, filter, cursor)|
    ensures var newer := Newer(j, filter, cursor); |Newer(j, filter, newer[limit - 1].number)| == |newer| - limit
  {
    var newer := Newer(j, filter, cursor);
    assert newer[limit - 1] in newer;
    PrefixWindow(j, filter, cursor, LastSeq(j), limit - 1);
    SplitWindow(j, filter, cursor, newer[limit - 1].number, LastSeq(j));
  }

  lemma NothingLeft(j: seq<Event>, filter: Filter, cursor: nat)
    requires Journal(j) && LastSeq(j) <= cursor
    ensures Newer(j, filter, cursor) == []
  {
    EmptyWindow(j, filter, cursor, LastSeq(j));
  }

  /** With nothing newer a segment runs to its end. */
  lemma NoSuspension(j: seq<Event>, limit: nat, e: Entry, announced: bool, peer: Peer)
    requires Newer(j, e.filter, e.cursor) == [] && !e.again && limit > 0 && e.loops == []
    ensures Segment(j, limit, e, announced, peer).loops == []
  {
    hide Newer, Send;
    SendLoops(e.(cursor := Max(e.cursor, LastSeq(j))), CaughtUp(Max(e.cursor, LastSeq(j))), peer);
  }

  lemma SendLoops(e: Entry, frame: Frame, peer: Peer)
    ensures Send(e, frame, peer).loops == e.loops
  {
  }

  /** The event loop coming back to the one suspended loop until none is left. */
  ghost function Drained(j: seq<Event>, limit: nat, e: Entry, peers: nat -> Peer, turns: nat): Entry
    decreases turns
  {
    if e.loops == [] || turns == 0 then e else Drained(j, limit, Resume(j, limit, e, 0, peers(turns)), peers, turns - 1)
  }

  /**
   * Without further commits a suspended replay ends after at most as many turns as Events
   * are left, and an open subscriber then has every in-scope Event of the journal.
   */
  lemma {:induction false} ReplayEnds(j: seq<Event>, limit: nat, listening: bool, e: Entry, peers: nat -> Peer,
                                      turns: nat)
    requires Journal(j) && EntryOk(j, listening, e) && limit > 0 && |Newer(j, e.filter, e.cursor)| < turns
    requires e.loops == [] && e.open ==> LastSeq(j) <= e.cursor
    ensures var e' := Drained(j, limit, e, peers, turns);
      && e'.loops == [] && e'.from == e.from && e'.filter == e.filter
      && (e'.open ==> EventsOf(e'.log) == Newer(j, e.filter, e.from))
    decreases turns
  {
    hide Truthful, Newer, EventsOf, Window, Segment;
    if e.loops == [] {
      AllNewer(j, e);
    } else {
      var resumed := e.(loops := e.loops[..0] + e.loops[1..]);
      assert resumed.loops == [];
      var e1 := Resume(j, limit, e, 0, peers(turns));
      FlagsKeep(j, e, resumed);
      SegmentKeeps(j, limit, resumed, e.loops[0], peers(turns));
      SegmentShrinks(j, limit, resumed, e.loops[0], peers(turns));
      SettledOk(j, listening, e1);
      if e1.loops == [] {
        AllNewer(j, e1);
      } else {
        ReplayEnds(j, limit, listening, e1, peers, turns - 1);
      }
    }
  }

  // ---------------------------------------------------------------------------
  // Logs only grow, and not after the end
  // ---------------------------------------------------------------------------

  ghost predicate Grown(e: Entry, e': Entry) {
    && e'.filter == e.filter && e'.from == e.from
    && e.log <= e'.log && e.endings <= e'.endings
    && (e'.open ==> e.open)
    && (!e.open ==> e'.log == e.log && e'.endings == e.endings)
  }

  lemma {:induction false} PageGrows(e: Entry, page: seq<Event>, k: nat, peer: Peer)
    requires k <= |page|
    ensures Grown(e, DeliverPage(e, page, k, peer).0)
    decreases |page| - k
  {
    if k < |page| && e.open {
      PageGrows(Send(e.(cursor := page[k].number), EventFrame(page[k]), peer), page, k + 1, peer);
    }
  }

  lemma SegmentGrows(j: seq<Event>, limit: nat, e: Entry, announced: bool, peer: Peer)
    ensures Grown(e, Segment(j, limit, e, announced, peer))
    decreases e.again
  {
    hide Read, DeliverPage;
    if e.open {
      var page := Read(j, e.filter, e.cursor, limit);
      PageGrows(e, page, 0, peer);
      var (delivered, whole) := DeliverPage(e, page, 0, peer);
      if whole && |page| < limit && e.again {
        var caught := delivered.(cursor := Max(delivered.cursor, LastSeq(j)));
        var told := if announced then caught else Send(caught, CaughtUp(caught.cursor), peer);
        assert told.again == e.again by { PageFlags(e, page, 0, peer); }
        SegmentGrows(j, limit, told.(again := false), announced || caught.open, peer);
      }
    }
  }

  lemma {:induction false} PageFlags(e: Entry, page: seq<Event>, k: nat, peer: Peer)
    requires k <= |page|
    ensures DeliverPage(e, page, k, peer).0.again == e.again
    decreases |page| - k
  {
    if k < |page| && e.open {
      PageFlags(Send(e.(cursor := page[k].number), EventFrame(page[k]), peer), page, k + 1, peer);
    }
  }

  /** No step takes a frame back, and none reaches a subscriber that has ended. */
  lemma NothingAfterTheEnd(s: State, limit: nat, step: Step, id: nat)
    requires id < |s.entries|
    ensures id < |Apply(s, limit, step).entries| && Grown(s.entries[id], Apply(s, limit, step).entries[id])
  {
    hide Segment, Journal, Grown;
    var e, s' := s.entries[id], Apply(s, limit, step);
    SelfGrown(e);
    match step
    case SubscribeStep(_, _, _) =>
    case CommitStep(batch, peers) =>
      if Journal(s.journal + batch) {
        NotifyGrows(s.journal + batch, limit, e, peers(id));
        assert s'.entries[id] == if s.listening then Notify(s.journal + batch, limit, e, peers(id)) else e;
      }
    case ResumeStep(i, k, peer) => if i == id && k < |e.loops| { ResumeGrows(s.journal, limit, e, k, peer); }
    case PublishStep(scope, chunk, peers) =>
      SendGrows(e, Output(chunk), peers(id));
      assert s'.entries[id] == Publish(e, scope, chunk, peers(id));
    case CloseStep(i) => EndGrows(e, Client);
    case DisconnectAllStep =>
      EndGrows(e, Stream);
      assert s'.entries[id] == End(e, Stream);
    case ShutdownStep =>
      EndGrows(e, Stream);
      assert s'.entries[id] == End(e, Stream);
  }

  lemma SelfGrown(e: Entry)
    ensures Grown(e, e)
  {
  }

  lemma EndGrows(e: Entry, reason: EndReason)
    ensures Grown(e, End(e, reason))
  {
  }

  lemma SendGrows(e: Entry, frame: Frame, peer: Peer)
    ensures Grown(e, Send(e, frame, peer))
  {
  }

  lemma ResumeGrows(j: seq<Event>, limit: nat, e: Entry, k: nat, peer: Peer)
    requires k < |e.loops|
    ensures Grown(e, Resume(j, limit, e, k, peer))
  {
    hide Segment;
    SegmentGrows(j, limit, e.(loops := e.loops[..k] + e.loops[k + 1..]), e.loops[k], peer);
  }

  lemma NotifyGrows(j: seq<Event>, limit: nat, e: Entry, peer: Peer)
    ensures Grown(e, Notify(j, limit, e, peer))
  {
    hide Segment;
    SegmentGrows(j, limit, e.(draining := true, again := false), false, peer);
  }
}
