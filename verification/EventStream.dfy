/**
 * The event stream as the objects it keeps: one mutable subscriber per subscription and
 * the stream that notifies them. Every method moves its fields exactly as the stream's
 * steps say.
 */
module EventStream {
  import opened Wrappers
  import Model = EventStreamModel
  import Runs = EventStreamRuns

  class Subscriber {
    const filter: Model.Filter
    const from: nat
    var cursor: nat
    var open: bool
    var draining: bool
    var again: bool
    var loops: seq<bool>
    var log: seq<Model.Frame>
    var endings: seq<Model.EndReason>

    ghost function View(): Model.Entry
      reads this
    {
      Model.Entry(filter, from, cursor, open, draining, again, loops, log, endings)
    }

    constructor (filter: Model.Filter, afterSeq: int)
      ensures View() == var start := (if afterSeq < 0 then 0 else afterSeq);
        Model.Entry(filter, start, start, true, false, false, [], [], [])
    {
      this.filter := filter;
      from, cursor := if afterSeq < 0 then 0 else afterSeq, if afterSeq < 0 then 0 else afterSeq;
      open, draining, again := true, false, false;
      loops, log, endings := [], [], [];
    }

    method End(reason: Model.EndReason)
      modifies this`open, this`endings
      ensures View() == Model.End(old(View()), reason)
    {
      if !open { return; }
      open := false;
      endings := endings + [reason];
    }

    method Send(frame: Model.Frame, peer: Model.Peer)
      modifies this`open, this`endings, this`log
      ensures View() == Model.Send(old(View()), frame, peer)
    {
      if !open { return; }
      log := log + [frame];
      var reply := peer(frame);
      if reply == Model.ClosesMeanwhile {
        End(Model.Client);
      }
      if reply == Model.Refuses {
        End(Model.Backpressure);
      }
    }

    /** The journal's query for this subscriber, over the rows in sequence order. */
    method ReadPage(j: seq<Model.Event>, limit: nat) returns (page: seq<Model.Event>)
      requires Model.Journal(j)
      ensures page == Model.Read(j, filter, cursor, limit)
    {
      page := [];
      ghost var last := Model.LastSeq(j);
      for k := 0 to |j|
        invariant page == Model.AtMost(Model.Window(j[..k], filter, cursor, last), limit)
      {
        assert j[..k + 1][..k] == j[..k];
        Model.WindowStep(j[..k + 1], filter, cursor, last);
        Model.UpToLast(j, k);
        Model.AtMostMore(Model.Window(j[..k], filter, cursor, last), j[k], limit);
        hide Model.Window, Model.AtMost, Model.Journal, Model.Scoped, Model.LastSeq;
        if |page| < limit && j[k].number > cursor && Model.Scoped(filter, j[k].scope) {
          page := page + [j[k]];
        }
      }
      assert j[..|j|] == j;
    }

    /** Hands a page over, the cursor following every Event; false when the subscription ended before the page did. */
    method HandOver(page: seq<Model.Event>, peer: Model.Peer) returns (whole: bool)
      modifies this`open, this`endings, this`log, this`cursor
      ensures (View(), whole) == Model.DeliverPage(old(View()), page, 0, peer)
    {
      for k := 0 to |page|
        invariant Model.DeliverPage(View(), page, k, peer) == Model.DeliverPage(old(View()), page, 0, peer)
      {
        if !open { return false; }
        cursor := page[k].number;
        Send(Model.EventFrame(page[k]), peer);
      }
      return true;
    }

    /** One pass of a replay loop: it ends, is suspended by a full page, or was told to read again. */
    method Pass(j: seq<Model.Event>, limit: nat, announcedBefore: bool, peer: Model.Peer)
      returns (announced: bool, running: bool)
      requires Model.Journal(j)
      modifies this
      ensures running ==>
        old(again) && !again
          && Model.Segment(j, limit, View(), announced, peer) ==
                Model.Segment(j, limit, old(View()), announcedBefore, peer)
      ensures !running ==> View() == Model.Segment(j, limit, old(View()), announcedBefore, peer)
    {
      Model.SegmentPass(j, limit, View(), announcedBefore, peer);
      hide Model.Segment, Model.Read, Model.DeliverPage, Model.Journal, Model.LastSeq;
      announced, running := announcedBefore, false;
      if !open {
        draining := false;
        return;
      }
      var page := ReadPage(j, limit);
      var whole := HandOver(page, peer);
      if !whole {
        draining := false;
        return;
      }
      if |page| >= limit {
        loops := loops + [announced];
        return;
      }
      cursor := Model.Max(cursor, Model.LastSeq(j));
      if !announced && open {
        announced := true;
        Send(Model.CaughtUp(cursor), peer);
      }
      if !again {
        draining := false;
        return;
      }
      again, running := false, true;
    }

    /** A replay loop up to its next await: it ends with nothing newer to read, and a full page suspends it. */
    method RunLoop(j: seq<Model.Event>, limit: nat, announcedBefore: bool, peer: Model.Peer)
      requires Model.Journal(j)
      modifies this
      ensures View() == Model.Segment(j, limit, old(View()), announcedBefore, peer)
    {
      ghost var left := Model.Segment(j, limit, View(), announcedBefore, peer);
      var announced, running := announcedBefore, true;
      while running
        invariant if running then Model.Segment(j, limit, View(), announced, peer) == left else View() == left
        decreases running, again
      {
        hide Model.Segment;
        announced, running := Pass(j, limit, announced, peer);
      }
    }

    method Replay(j: seq<Model.Event>, limit: nat, peer: Model.Peer)
      requires Model.Journal(j)
      modifies this
      ensures View() == Model.Replay(j, limit, old(View()), peer)
    {
      if draining {
        again := true;
        return;
      }
      draining, again := true, false;
      RunLoop(j, limit, false, peer);
    }

    /** The event loop comes back to a suspended replay. */
    method Resume(j: seq<Model.Event>, limit: nat, k: nat, peer: Model.Peer)
      requires Model.Journal(j) && k < |loops|
      modifies this
      ensures View() == Model.Resume(j, limit, old(View()), k, peer)
    {
      var announced := loops[k];
      loops := loops[..k] + loops[k + 1..];
      RunLoop(j, limit, announced, peer);
    }
  }

  /** Those of the first `n` entries that are open. */
  ghost function OpenOf(entries: seq<Model.Entry>, n: nat): set<int>
    requires n <= |entries|
  {
    set i | 0 <= i < n && entries[i].open
  }

  lemma CountOpen(entries: seq<Model.Entry>, n: nat)
    requires n < |entries|
    ensures |OpenOf(entries, n + 1)| == |OpenOf(entries, n)| + if entries[n].open then 1 else 0
  {
    var before, after := OpenOf(entries, n), OpenOf(entries, n + 1);
    if entries[n].open {
      assert after == before + {n};
    } else {
      assert after == before;
    }
  }

  class EventStream {
    const replayPage: nat
    var journal: seq<Model.Event>
    var listening: bool
    var subscribers: seq<Subscriber>

    /** The subscribers are distinct objects. */
    ghost predicate Valid()
      reads this
    {
      && Model.Journal(journal)
      && (forall i, k :: 0 <= i < k < |subscribers| ==> subscribers[i] != subscribers[k])
    }

    ghost function View(): Runs.State
      reads this, subscribers
    {
      Runs.State(journal, listening,
                 seq(|subscribers|, i requires 0 <= i < |subscribers| reads this, subscribers => subscribers[i].View()))
    }

    constructor (journal: seq<Model.Event>, replayPage: nat)
      requires Model.Journal(journal)
      ensures Valid() && View() == Runs.State(journal, true, []) && this.replayPage == replayPage
    {
      this.replayPage := replayPage;
      this.journal, listening, subscribers := journal, true, [];
    }

    method Subscribe(filter: Model.Filter, afterSeq: int, peer: Model.Peer) returns (entry: Subscriber)
      requires Valid()
      modifies this`subscribers
      ensures Valid() && fresh(entry) && subscribers == old(subscribers) + [entry]
      ensures View() == Runs.Apply(old(View()), replayPage, Runs.SubscribeStep(filter, afterSeq, peer))
    {
      entry := new Subscriber(filter, afterSeq);
      entry.Send(Model.Connected(Model.LastSeq(journal)), peer);
      entry.Replay(journal, replayPage, peer);
      subscribers := subscribers + [entry];
    }

    /** A transaction committed: every open subscriber reads on, or is told to read once more. */
    method Committed(batch: seq<Model.Event>, peers: nat -> Model.Peer)
      requires Valid() && Model.Journal(journal + batch)
      modifies this`journal, subscribers
      ensures Valid() && subscribers == old(subscribers)
      ensures View() == Runs.Apply(old(View()), replayPage, Runs.CommitStep(batch, peers))
    {
      journal := journal + batch;
      if !listening { return; }
      for i := 0 to |subscribers|
        invariant journal == old(journal) + batch
        invariant forall k :: 0 <= k < i ==>
          subscribers[k].View() == Model.Notify(journal, replayPage, old(subscribers[k].View()), peers(k))
        invariant forall k :: i <= k < |subscribers| ==> subscribers[k].View() == old(subscribers[k].View())
      {
        hide Model.Replay, Model.Journal;
        var entry := subscribers[i];
        if entry.open {
          entry.Replay(journal, replayPage, peers(i));
        }
      }
    }

    method PublishOutput(scope: Model.Scope, chunk: nat, peers: nat -> Model.Peer)
      requires Valid()
      modifies subscribers
      ensures Valid()
      ensures View() == Runs.Apply(old(View()), replayPage, Runs.PublishStep(scope, chunk, peers))
    {
      for i := 0 to |subscribers|
        invariant forall k :: 0 <= k < i ==>
          subscribers[k].View() == Model.Publish(old(subscribers[k].View()), scope, chunk, peers(k))
        invariant forall k :: i <= k < |subscribers| ==> subscribers[k].View() == old(subscribers[k].View())
      {
        hide Model.Send, Model.Scoped, Model.Journal;
        var entry := subscribers[i];
        if entry.open && Model.Scoped(entry.filter, scope) && !entry.draining {
          entry.Send(Model.Output(chunk), peers(i));
        }
      }
    }

    /** Ends every open subscription and reports how many there were. */
    method DisconnectAll() returns (ended: nat)
      requires Valid()
      modifies subscribers
      ensures Valid()
      ensures View() == Runs.Apply(old(View()), replayPage, Runs.DisconnectAllStep)
      ensures ended == |OpenOf(old(View()).entries, |subscribers|)|
    {
      ended := 0;
      for i := 0 to |subscribers|
        invariant ended == |OpenOf(old(View()).entries, i)|
        invariant forall k :: 0 <= k < i ==>
          subscribers[k].View() == Model.End(old(subscribers[k].View()), Model.Stream)
        invariant forall k :: i <= k < |subscribers| ==> subscribers[k].View() == old(subscribers[k].View())
      {
        CountOpen(old(View()).entries, i);
        if subscribers[i].open {
          subscribers[i].End(Model.Stream);
          ended := ended + 1;
        }
      }
    }

    method Close()
      requires Valid()
      modifies this`listening, subscribers
      ensures Valid()
      ensures View() == Runs.Apply(old(View()), replayPage, Runs.ShutdownStep)
    {
      var _ := DisconnectAll();
      listening := false;
    }
  }
}
