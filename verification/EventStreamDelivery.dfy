/**
 * What each step of the event stream does at one subscriber, read off its log: which
 * frames it is handed and when it ends, which Events those are, when it is told that it
 * has caught up, and that the turns of the event loop finish every replay.
 */
module EventStreamDelivery {
  import opened Wrappers
  import opened EventStreamModel
  import opened EventStreamSafety
  import opened EventStreamRuns

  // ---------------------------------------------------------------------------
  // Frames and the end
  // ---------------------------------------------------------------------------

  /**
   * An ended subscriber is left alone. An open one is handed some frames, each but the
   * last accepted; it is open afterwards if and only if it accepted the last one too, and
   * otherwise it ended for its reply to that one.
   */
  ghost predicate Handed(e: Entry, e': Entry, peer: Peer) {
    && e'.filter == e.filter && e'.from == e.from && e.log <= e'.log
    && (!e.open ==> e'.log == e.log && e'.endings == e.endings && !e'.open)
    && (e.open ==>
          && (forall k :: |e.log| <= k < |e'.log| - 1 ==> peer(e'.log[k]) == Accepts)
          && (e'.open <==> e'.log == e.log || peer(e'.log[|e'.log| - 1]) == Accepts)
          && (e'.open ==> e'.endings == e.endings)
          && (!e'.open ==>
                e'.endings == e.endings + [if peer(e'.log[|e'.log| - 1]) == Refuses then Backpressure else Client]))
  }

  lemma HandedNothing(e: Entry, e': Entry, peer: Peer)
    requires e' == e.(cursor := e'.cursor, draining := e'.draining, again := e'.again, loops := e'.loops)
    ensures Handed(e, e', peer)
  {
  }

  lemma HandedOne(e: Entry, frame: Frame, peer: Peer)
    ensures Handed(e, Send(e, frame, peer), peer)
    ensures e.open ==> Send(e, frame, peer).log == e.log + [frame]
  {
  }

  lemma HandedMore(e: Entry, m: Entry, e': Entry, peer: Peer)
    requires Handed(e, m, peer) && Handed(m, e', peer)
    ensures Handed(e, e', peer)
  {
    if e.open && m.open && e'.log == m.log {
      assert e'.log == e.log <==> m.log == e.log;
    }
  }

  lemma {:induction false} HandedPage(e: Entry, page: seq<Event>, k: nat, peer: Peer)
    requires k <= |page|
    ensures Handed(e, DeliverPage(e, page, k, peer).0, peer)
    decreases |page| - k
  {
    HandedNothing(e, e, peer);
    if k < |page| && e.open {
      var moved := e.(cursor := page[k].number);
      var sent := Send(moved, EventFrame(page[k]), peer);
      HandedNothing(e, moved, peer);
      HandedOne(moved, EventFrame(page[k]), peer);
      HandedPage(sent, page, k + 1, peer);
      hide Handed, Send, DeliverPage;
      HandedMore(e, moved, sent, peer);
      HandedMore(e, sent, DeliverPage(sent, page, k + 1, peer).0, peer);
      assert DeliverPage(e, page, k, peer) == DeliverPage(sent, page, k + 1, peer) by { PageUnfolds(e, page, k, peer); }
    }
  }

  lemma PageUnfolds(e: Entry, page: seq<Event>, k: nat, peer: Peer)
    requires k < |page| && e.open
    ensures DeliverPage(e, page, k, peer) ==
            DeliverPage(Send(e.(cursor := page[k].number), EventFrame(page[k]), peer), page, k + 1, peer)
  {
  }

  lemma HandedSegment(j: seq<Event>, limit: nat, e: Entry, announced: bool, peer: Peer)
    ensures Handed(e, Segment(j, limit, e, announced, peer), peer)
    decreases e.again
  {
    SegmentPass(j, limit, e, announced, peer);
    HandedNothing(e, e.(draining := false), peer);
    hide Handed, Read, Send, LastSeq, Segment, Max;
    if e.open {
      var page := Read(j, e.filter, e.cursor, limit);
      var (delivered, whole) := DeliverPage(e, page, 0, peer);
      HandedPage(e, page, 0, peer);
      hide DeliverPage;
      if !whole {
        HandedThen(e, delivered, delivered.(draining := false), peer);
      } else if |page| >= limit {
        HandedThen(e, delivered, delivered.(loops := delivered.loops + [announced]), peer);
      } else {
        var caught := delivered.(cursor := Max(delivered.cursor, LastSeq(j)));
        var told := if announced then caught else Send(caught, CaughtUp(caught.cursor), peer);
        HandedThen(e, delivered, caught, peer);
        HandedTold(e, caught, CaughtUp(caught.cursor), peer);
        HandedThen(e, told, told.(draining := false), peer);
        if e.again {
          var once := told.(again := false);
          HandedThen(e, told, once, peer);
          HandedSegment(j, limit, once, announced || caught.open, peer);
          HandedMore(e, once, Segment(j, limit, once, announced || caught.open, peer), peer);
        }
      }
    }
  }

  lemma HandedThen(e: Entry, m: Entry, e': Entry, peer: Peer)
    requires Handed(e, m, peer)
    requires e' == m.(cursor := e'.cursor, draining := e'.draining, again := e'.again, loops := e'.loops)
    ensures Handed(e, e', peer)
  {
  }

  lemma HandedTold(e: Entry, m: Entry, frame: Frame, peer: Peer)
    requires Handed(e, m, peer)
    ensures Handed(e, Send(m, frame, peer), peer)
  {
    HandedOne(m, frame, peer);
    HandedMore(e, m, Send(m, frame, peer), peer);
  }

  lemma HandedReplay(j: seq<Event>, limit: nat, e: Entry, peer: Peer)
    ensures Handed(e, Replay(j, limit, e, peer), peer)
  {
    hide Segment, Handed;
    HandedNothing(e, e.(again := true), peer);
    var started := e.(draining := true, again := false);
    HandedNothing(e, started, peer);
    HandedSegment(j, limit, started, false, peer);
    HandedMore(e, started, Segment(j, limit, started, false, peer), peer);
  }

  lemma HandedResume(j: seq<Event>, limit: nat, e: Entry, k: nat, peer: Peer)
    requires k < |e.loops|
    ensures Handed(e, Resume(j, limit, e, k, peer), peer)
  {
    hide Segment, Handed;
    var resumed := e.(loops := e.loops[..k] + e.loops[k + 1..]);
    HandedNothing(e, resumed, peer);
    HandedSegment(j, limit, resumed, e.loops[k], peer);
    HandedMore(e, resumed, Segment(j, limit, resumed, e.loops[k], peer), peer);
  }

  // ---------------------------------------------------------------------------
  // Every step
  // ---------------------------------------------------------------------------

  /** Whose replies decide what a step leaves of subscriber `id`. */
  function PeerAt(step: Step, id: nat): Peer {
    match step
    case SubscribeStep(_, _, peer) => peer
    case CommitStep(_, peers) => peers(id)
    case ResumeStep(_, _, peer) => peer
    case PublishStep(_, _, peers) => peers(id)
    case _ => _ => Accepts
  }

  ghost predicate EndsEntries(step: Step) {
    step.CloseStep? || step.DisconnectAllStep? || step.ShutdownStep?
  }

  lemma OneMore(journal: seq<Event>, limit: nat, steps: seq<Step>, step: Step)
    ensures After(journal, limit, steps + [step]) == Apply(After(journal, limit, steps), limit, step)
  {
    hide Apply;
    assert (steps + [step])[..|steps|] == steps;
  }

  /**
   * A subscriber ends only for its own reply to the last frame it was handed, by its own
   * close, or with the stream; while it accepts, no commit, output or replay ends it.
   */
  lemma EndsOnlyByReply(journal: seq<Event>, limit: nat, steps: seq<Step>, step: Step, id: nat)
    requires id < |After(journal, limit, steps).entries| && !EndsEntries(step)
    ensures var s, s' := After(journal, limit, steps), After(journal, limit, steps + [step]);
      id < |s'.entries| && Handed(s.entries[id], s'.entries[id], PeerAt(step, id))
  {
    OneMore(journal, limit, steps, step);
    hide After;
    HandedBy(After(journal, limit, steps), limit, step, id);
  }

  lemma HandedBy(s: State, limit: nat, step: Step, id: nat)
    requires id < |s.entries| && !EndsEntries(step)
    ensures id < |Apply(s, limit, step).entries|
    ensures Handed(s.entries[id], Apply(s, limit, step).entries[id], PeerAt(step, id))
  {
    hide Handed, Send, Segment, Journal, Replay, Resume;
    var e := s.entries[id];
    HandedNothing(e, e, PeerAt(step, id));
    match step
    case SubscribeStep(_, _, _) =>
    case CommitStep(batch, peers) =>
      HandedReplay(s.journal + batch, limit, e, peers(id));
    case ResumeStep(i, k, peer) =>
      if i == id && k < |e.loops| { HandedResume(s.journal, limit, e, k, peer); }
    case PublishStep(scope, chunk, peers) =>
      HandedOne(e, Output(chunk), peers(id));
  }

  /** The stream listens from the beginning and until its shutdown. */
  lemma {:induction false} ListensUntilShutdown(journal: seq<Event>, limit: nat, steps: seq<Step>)
    ensures After(journal, limit, steps).listening <==> forall k :: 0 <= k < |steps| ==> !steps[k].ShutdownStep?
  {
    if steps != [] {
      var n := |steps| - 1;
      ListensUntilShutdown(journal, limit, steps[..n]);
      assert forall k :: 0 <= k < n ==> steps[k] == steps[..n][k];
      ListensOn(After(journal, limit, steps[..n]), limit, steps[n]);
      hide Apply;
    }
  }

  lemma ListensOn(s: State, limit: nat, step: Step)
    ensures Apply(s, limit, step).listening == (s.listening && !step.ShutdownStep?)
  {
    hide Subscribe, NotifyAll, Journal, Resume, PublishAll, EndAll, End;
  }

  /**
   * A close, a disconnect and the shutdown end exactly the open entries they name, with their
   * reason, and change nothing else.
   */
  lemma EndsExactly(journal: seq<Event>, limit: nat, steps: seq<Step>, step: Step, id: nat)
    requires id < |After(journal, limit, steps).entries| && EndsEntries(step)
    ensures var s, s' := After(journal, limit, steps), After(journal, limit, steps + [step]);
      && |s'.entries| == |s.entries| && s'.journal == s.journal
      && s'.listening == (s.listening && !step.ShutdownStep?)
      && var e := s.entries[id];
      && s'.entries[id] ==
           if e.open && (step.CloseStep? ==> step.id == id)
           then e.(open := false, endings := e.endings + [if step.CloseStep? then Client else Stream])
           else e
  {
    OneMore(journal, limit, steps, step);
    hide After;
  }

  /**
   * A new subscription is one more entry, with the filter and the clamped start it asked
   * for; its first frame is `connected` with the last committed sequence, and the first
   * replay follows under the same rule as every later one.
   */
  lemma SubscribedExactly(journal: seq<Event>, limit: nat, steps: seq<Step>, filter: Filter, afterSeq: int, peer: Peer)
    requires Journal(journal)
    ensures var s, s' :=
      After(journal, limit, steps), After(journal, limit, steps + [SubscribeStep(filter, afterSeq, peer)]);
      && |s'.entries| == |s.entries| + 1 && s'.entries[..|s.entries|] == s.entries
      && s'.journal == s.journal && s'.listening == s.listening
      && var e := s'.entries[|s.entries|];
      && e.filter == filter && e.from == (if afterSeq < 0 then 0 else afterSeq)
      && e.log != [] && e.log[0] == Connected(LastSeq(s.journal))
      && Handed(Entry(filter, e.from, e.from, true, false, false, [], [], []), e, peer)
      && (e.open && !e.draining ==> EventsOf(e.log) == Newer(s.journal, filter, e.from))
  {
    OneMore(journal, limit, steps, SubscribeStep(filter, afterSeq, peer));
    Reachable(journal, limit, steps);
    hide After;
    var s := After(journal, limit, steps);
    FirstFrames(s.journal, limit, filter, afterSeq, peer);
  }

  lemma FirstFrames(j: seq<Event>, limit: nat, filter: Filter, afterSeq: int, peer: Peer)
    requires Journal(j)
    ensures var e, from := Subscribe(j, limit, filter, afterSeq, peer), if afterSeq < 0 then 0 else afterSeq;
      && e.filter == filter && e.from == from && e.log != [] && e.log[0] == Connected(LastSeq(j))
      && Handed(Entry(filter, from, from, true, false, false, [], [], []), e, peer)
      && (e.open && !e.draining ==> EventsOf(e.log) == Newer(j, filter, from))
  {
    var from := if afterSeq < 0 then 0 else afterSeq;
    var blank := Entry(filter, from, from, true, false, false, [], [], []);
    var greeted := Send(blank, Connected(LastSeq(j)), peer);
    HandedOne(blank, Connected(LastSeq(j)), peer);
    HandedReplay(j, limit, greeted, peer);
    HandedMore(blank, greeted, Replay(j, limit, greeted, peer), peer);
    SubscribeKeeps(j, limit, filter, afterSeq, peer);
    var e := Subscribe(j, limit, filter, afterSeq, peer);
    SettledNewer(j, e);
    hide Replay, Send, EventsOf, Newer, Window, Settled;
    assert greeted.log == [Connected(LastSeq(j))] by { assert [] + [Connected(LastSeq(j))] == [Connected(LastSeq(j))]; }
  }

  lemma SettledNewer(j: seq<Event>, e: Entry)
    requires Journal(j) && Settled(j, e)
    ensures e.open && !e.draining ==> EventsOf(e.log) == Newer(j, e.filter, e.from)
  {
    AllNewer(j, e);
  }

  // ---------------------------------------------------------------------------
  // Transient output
  // ---------------------------------------------------------------------------

  /** The scope carries every part the filter names. */
  ghost predicate Matches(filter: Filter, scope: Scope) {
    && (filter.run == None || scope.run == filter.run)
    && (filter.conversation == None || scope.conversation == filter.conversation)
    && (filter.workspace == None || scope.workspace == filter.workspace)
  }

  lemma ScopedMatches(filter: Filter, scope: Scope)
    ensures Scoped(filter, scope) <==> Matches(filter, scope)
  {
  }

  /**
   * An output chunk reaches a subscriber if and only if it is open, in scope and not
   * replaying: it is then handed that one frame and stays open exactly when it accepts;
   * every other subscriber, and everything else of this one, is left as it was.
   */
  lemma PublishedExactly(journal: seq<Event>, limit: nat, steps: seq<Step>, scope: Scope, chunk: nat,
                         peers: nat -> Peer, id: nat)
    requires id < |After(journal, limit, steps).entries|
    ensures var s, s' :=
      After(journal, limit, steps), After(journal, limit, steps + [PublishStep(scope, chunk, peers)]);
      && |s'.entries| == |s.entries| && s'.journal == s.journal && s'.listening == s.listening
      && var e, e' := s.entries[id], s'.entries[id];
      var reached := e.open && Matches(e.filter, scope) && !e.draining;
      && (e'.log == e.log + [Output(chunk)] <==> reached)
      && (!reached ==> e' == e)
      && (reached ==> (e'.open <==> peers(id)(Output(chunk)) == Accepts))
      && (reached ==> e' == e.(log := e'.log, open := e'.open, endings := e'.endings))
  {
    OneMore(journal, limit, steps, PublishStep(scope, chunk, peers));
    hide After;
    var s := After(journal, limit, steps);
    var e := s.entries[id];
    ScopedMatches(e.filter, scope);
    assert |e.log + [Output(chunk)]| != |e.log|;
    assert PublishAll(s.entries, scope, chunk, peers)[id] == Publish(e, scope, chunk, peers(id));
  }

  // ---------------------------------------------------------------------------
  // Commits
  // ---------------------------------------------------------------------------

  /**
   * A commit appends its Events to the journal and adds no subscriber; it leaves alone
   * the ended ones, all of them once the stream no longer listens, and tells a replaying
   * one to read once more.
   */
  lemma CommittedExactly(journal: seq<Event>, limit: nat, steps: seq<Step>, batch: seq<Event>, peers: nat -> Peer,
                         id: nat)
    requires id < |After(journal, limit, steps).entries| && Journal(After(journal, limit, steps).journal + batch)
    ensures var s, s' := After(journal, limit, steps), After(journal, limit, steps + [CommitStep(batch, peers)]);
      && s'.journal == s.journal + batch && s'.listening == s.listening && |s'.entries| == |s.entries|
      && var e := s.entries[id];
      && (!e.open || !s.listening ==> s'.entries[id] == e)
      && (s.listening && e.open && e.draining ==> s'.entries[id] == e.(again := true))
  {
    OneMore(journal, limit, steps, CommitStep(batch, peers));
    hide After, Journal;
    var s := After(journal, limit, steps);
    var committed := s.(journal := s.journal + batch);
    assert s.listening ==>
      NotifyAll(committed, limit, peers)[id] == Notify(committed.journal, limit, s.entries[id], peers(id));
    assert !s.listening ==> NotifyAll(committed, limit, peers)[id] == s.entries[id];
  }

  /**
   * In every reachable state an Event of the journal has been handed over if and only if
   * it lies after the start and up to the cursor and carries every part of the scope that
   * the subscriber asked for.
   */
  lemma HandedOverExactly(journal: seq<Event>, limit: nat, steps: seq<Step>, id: nat, event: Event)
    requires Journal(journal) && id < |After(journal, limit, steps).entries|
    ensures var s := After(journal, limit, steps); var e := s.entries[id];
      EventFrame(event) in e.log <==>
        event in s.journal && e.from < event.number <= e.cursor && Matches(e.filter, event.scope)
  {
    DeliveredExactly(journal, limit, steps, id);
    hide After;
    var s := After(journal, limit, steps);
    var e := s.entries[id];
    FrameIsEvent(e.log, event);
    InWindow(s.journal, e.filter, e.from, e.cursor, event);
    ScopedMatches(e.filter, event.scope);
  }

  lemma {:induction false} FrameIsEvent(log: seq<Frame>, event: Event)
    ensures EventFrame(event) in log <==> event in EventsOf(log)
  {
    if log != [] {
      FrameIsEvent(log[..|log| - 1], event);
      assert log == log[..|log| - 1] + [log[|log| - 1]];
    }
  }

  lemma {:induction false} InWindow(j: seq<Event>, filter: Filter, lo: nat, hi: nat, event: Event)
    ensures event in Window(j, filter, lo, hi) <==> event in j && lo < event.number <= hi && Scoped(filter, event.scope)
  {
    if j != [] {
      InWindow(j[..|j| - 1], filter, lo, hi, event);
      assert j == j[..|j| - 1] + [j[|j| - 1]];
      WindowStep(j, filter, lo, hi);
      hide Window, Scoped;
    }
  }

  // ---------------------------------------------------------------------------
  // Catching up
  // ---------------------------------------------------------------------------

  /** How often the subscriber was told that it has caught up. */
  function Announced(log: seq<Frame>): nat {
    if log == [] then 0 else Announced(log[..|log| - 1]) + if log[|log| - 1].CaughtUp? then 1 else 0
  }

  lemma AnnouncedPlus(log: seq<Frame>, frame: Frame)
    ensures Announced(log + [frame]) == Announced(log) + if frame.CaughtUp? then 1 else 0
  {
    assert (log + [frame])[..|log|] == log;
  }

  lemma SendAnnounces(e: Entry, frame: Frame, peer: Peer)
    ensures var e' := Send(e, frame, peer);
      e.open ==> Announced(e'.log) == Announced(e.log) + if frame.CaughtUp? then 1 else 0
  {
    AnnouncedPlus(e.log, frame);
  }

  lemma {:induction false} PageAnnounces(e: Entry, page: seq<Event>, k: nat, peer: Peer)
    requires k <= |page|
    ensures var (e', _) := DeliverPage(e, page, k, peer);
      && Announced(e'.log) == Announced(e.log) && e'.loops == e.loops && e'.again == e.again
      && (e'.open ==> e.open)
    ensures DeliverPage(e, page, k, peer).0.open ==> DeliverPage(e, page, k, peer).1
    decreases |page| - k
  {
    hide Announced;
    if k < |page| && e.open {
      var moved := e.(cursor := page[k].number);
      SendAnnounces(moved, EventFrame(page[k]), peer);
      PageAnnounces(Send(moved, EventFrame(page[k]), peer), page, k + 1, peer);
    }
  }

  /** From a log with `before` announcements, a loop is suspended or has ended: it announces once, if it had not yet. */
  ghost predicate AnnouncedBy(e': Entry, announced: bool, before: nat) {
    && |e'.loops| <= 1
    && (e'.loops == [] ==> !e'.draining)
    && (e'.loops != [] ==>
          && (announced ==> e'.loops[0])
          && Announced(e'.log) == before + if e'.loops[0] && !announced then 1 else 0)
    && (e'.loops == [] && e'.open ==> Announced(e'.log) == before + if announced then 0 else 1)
  }

  lemma SegmentAnnounces(j: seq<Event>, limit: nat, e: Entry, announced: bool, peer: Peer)
    requires e.loops == []
    ensures AnnouncedBy(Segment(j, limit, e, announced, peer), announced, Announced(e.log))
    decreases e.again
  {
    SegmentPass(j, limit, e, announced, peer);
    hide Read, LastSeq, Segment, Max, Announced;
    if e.open {
      var page := Read(j, e.filter, e.cursor, limit);
      var (delivered, whole) := DeliverPage(e, page, 0, peer);
      PageAnnounces(e, page, 0, peer);
      hide DeliverPage;
      if whole && |page| < limit {
        var caught := delivered.(cursor := Max(delivered.cursor, LastSeq(j)));
        SendAnnounces(caught, CaughtUp(caught.cursor), peer);
        var told := if announced then caught else Send(caught, CaughtUp(caught.cursor), peer);
        if e.again {
          SegmentAnnounces(j, limit, told.(again := false), announced || caught.open, peer);
        }
      }
    }
  }

  lemma {:induction false} DrainedAnnounces(j: seq<Event>, limit: nat, e: Entry, peers: nat -> Peer, turns: nat,
                                            announced: bool,
                                            before: nat)
    requires AnnouncedBy(e, announced, before)
    ensures AnnouncedBy(Drained(j, limit, e, peers, turns), announced, before)
    decreases turns
  {
    hide Announced;
    if e.loops != [] && turns > 0 {
      var resumed := e.(loops := e.loops[..0] + e.loops[1..]);
      assert resumed.loops == [];
      SegmentAnnounces(j, limit, resumed, e.loops[0], peers(turns));
      hide Segment;
      DrainedAnnounces(j, limit, Resume(j, limit, e, 0, peers(turns)), peers, turns - 1, announced, before);
    }
  }

  // ---------------------------------------------------------------------------
  // The turns of the event loop
  // ---------------------------------------------------------------------------

  /** The event loop comes back to the suspended loop of subscriber `id` up to `turns` times. */
  function Resumes(id: nat, peers: nat -> Peer, turns: nat): seq<Step> {
    if turns == 0 then [] else [ResumeStep(id, 0, peers(turns))] + Resumes(id, peers, turns - 1)
  }

  lemma {:induction false} ResumesDrain(journal: seq<Event>, limit: nat, steps: seq<Step>, id: nat, peers: nat -> Peer,
                                        turns: nat)
    requires id < |After(journal, limit, steps).entries|
    ensures var s, s' := After(journal, limit, steps), After(journal, limit, steps + Resumes(id, peers, turns));
      && s'.journal == s.journal && |s'.entries| == |s.entries|
      && s'.entries[id] == Drained(s.journal, limit, s.entries[id], peers, turns)
    decreases turns
  {
    hide After, Apply, Drained;
    if turns == 0 {
      assert steps + Resumes(id, peers, turns) == steps;
      DrainStep(After(journal, limit, steps), limit, id, peers, turns);
    } else {
      var more := steps + [ResumeStep(id, 0, peers(turns))];
      OneMore(journal, limit, steps, ResumeStep(id, 0, peers(turns)));
      DrainStep(After(journal, limit, steps), limit, id, peers, turns);
      ResumesDrain(journal, limit, more, id, peers, turns - 1);
      assert steps + Resumes(id, peers, turns) == more + Resumes(id, peers, turns - 1);
    }
  }

  lemma DrainStep(s: State, limit: nat, id: nat, peers: nat -> Peer, turns: nat)
    requires id < |s.entries|
    ensures turns == 0 ==> Drained(s.journal, limit, s.entries[id], peers, turns) == s.entries[id]
    ensures turns > 0 ==>
      var s' := Apply(s, limit, ResumeStep(id, 0, peers(turns)));
      && s'.journal == s.journal && |s'.entries| == |s.entries|
      && Drained(s.journal, limit, s.entries[id], peers, turns) ==
            Drained(s.journal, limit, s'.entries[id], peers, turns - 1)
  {
    hide Resume;
    if turns > 0 { DrainedIdle(s.journal, limit, s.entries[id], peers, turns - 1); }
  }

  lemma DrainedIdle(j: seq<Event>, limit: nat, e: Entry, peers: nat -> Peer, turns: nat)
    ensures e.loops == [] ==> Drained(j, limit, e, peers, turns) == e
  {
  }

  /**
   * From any reachable state, as many turns of the event loop as Events are left, and one
   * more, finish the replay of a subscriber: no loop is left, and if it is still open it
   * has been handed every in-scope Event of the journal.
   */
  lemma TurnsFinish(journal: seq<Event>, limit: nat, steps: seq<Step>, id: nat, peers: nat -> Peer, turns: nat)
    requires Journal(journal) && limit > 0 && id < |After(journal, limit, steps).entries|
    requires var s := After(journal, limit, steps); var e := s.entries[id];
      (s.listening || e.loops != []) && |Newer(s.journal, e.filter, e.cursor)| < turns
    ensures var s, s' := After(journal, limit, steps), After(journal, limit, steps + Resumes(id, peers, turns));
      && id < |s'.entries| && s'.entries[id].loops == []
      && (s'.entries[id].open ==>
            EventsOf(s'.entries[id].log) == Newer(s.journal, s'.entries[id].filter, s'.entries[id].from))
  {
    Reachable(journal, limit, steps);
    ResumesDrain(journal, limit, steps, id, peers, turns);
    hide After, HandedOver;
    var s := After(journal, limit, steps);
    assert EntryOk(s.journal, s.listening, s.entries[id]);
    ReplayEnds(s.journal, limit, s.listening, s.entries[id], peers, turns);
  }

  /**
   * A commit that finds an open subscriber with no replay under way starts one, and by
   * the time it has ended the subscriber, if still open, was told exactly once more that
   * it has caught up; the first replay of a new subscription tells it exactly once.
   */
  lemma AnnouncedOnce(journal: seq<Event>, limit: nat, steps: seq<Step>, batch: seq<Event>, commit: nat -> Peer,
                      id: nat,
                      peers: nat -> Peer, turns: nat)
    requires Journal(journal) && Journal(After(journal, limit, steps).journal + batch)
    requires id < |After(journal, limit, steps).entries| && After(journal, limit, steps).listening
    requires After(journal, limit, steps).entries[id].open && !After(journal, limit, steps).entries[id].draining
    ensures var e := After(journal, limit, steps).entries[id];
      var s' := After(journal, limit, steps + [CommitStep(batch, commit)] + Resumes(id, peers, turns));
      && id < |s'.entries|
      && (s'.entries[id].open && s'.entries[id].loops == [] ==> Announced(s'.entries[id].log) == Announced(e.log) + 1)
  {
    Reachable(journal, limit, steps);
    OneMore(journal, limit, steps, CommitStep(batch, commit));
    var s := After(journal, limit, steps);
    var e := s.entries[id];
    hide After, Announced, Journal, HandedOver;
    assert EntryOk(s.journal, s.listening, e);
    var j := s.journal + batch;
    var started := e.(draining := true, again := false);
    SegmentAnnounces(j, limit, started, false, commit(id));
    assert Apply(s, limit, CommitStep(batch, commit)).entries[id] == Segment(j, limit, started, false, commit(id)) by {
      hide Segment;
      assert NotifyAll(s.(journal := j), limit, commit)[id] == Notify(j, limit, e, commit(id));
    }
    ResumesDrain(journal, limit, steps + [CommitStep(batch, commit)], id, peers, turns);
    DrainedAnnounces(j, limit, Segment(j, limit, started, false, commit(id)), peers, turns, false, Announced(e.log));
  }

  lemma AnnouncedFirst(journal: seq<Event>, limit: nat, steps: seq<Step>, filter: Filter, afterSeq: int, peer: Peer,
                       peers: nat -> Peer, turns: nat)
    ensures var id := |After(journal, limit, steps).entries|;
      var s' := After(journal, limit, steps + [SubscribeStep(filter, afterSeq, peer)] + Resumes(id, peers, turns));
      && id < |s'.entries|
      && (s'.entries[id].open && s'.entries[id].loops == [] ==> Announced(s'.entries[id].log) == 1)
  {
    OneMore(journal, limit, steps, SubscribeStep(filter, afterSeq, peer));
    var s := After(journal, limit, steps);
    hide After;
    var from := if afterSeq < 0 then 0 else afterSeq;
    var greeted := Send(Entry(filter, from, from, true, false, false, [], [], []), Connected(LastSeq(s.journal)), peer);
    SendAnnounces(Entry(filter, from, from, true, false, false, [], [], []), Connected(LastSeq(s.journal)), peer);
    var started := greeted.(draining := true, again := false);
    hide Announced;
    SegmentAnnounces(s.journal, limit, started, false, peer);
    hide Segment, Send;
    ResumesDrain(journal, limit, steps + [SubscribeStep(filter, afterSeq, peer)], |s.entries|, peers, turns);
    DrainedAnnounces(s.journal, limit, Segment(s.journal, limit, started, false, peer), peers, turns, false, 0);
  }
}
