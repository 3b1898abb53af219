/**
 * The event stream: an append-only journal of committed Events, and subscribers that
 * replay it in pages after their own cursor and are then carried live by commit
 * notifications. A replay loop runs in segments, suspended between full pages; anything
 * may happen between two segments. What a subscriber does with a frame is arbitrary.
 */
module EventStreamModel {
  import opened Wrappers

  /** What an Event is scoped to; an absent part belongs to none. */
  datatype Scope = Scope(workspace: Option<nat>, conversation: Option<nat>, run: Option<nat>)

  /** A committed Event, named by its sequence number. */
  datatype Event = Event(number: nat, scope: Scope)

  datatype Filter = Filter(workspace: Option<nat>, conversation: Option<nat>, run: Option<nat>)

  predicate Scoped(filter: Filter, scope: Scope) {
    && (filter.run.Some? ==> scope.run == filter.run)
    && (filter.conversation.Some? ==> scope.conversation == filter.conversation)
    && (filter.workspace.Some? ==> scope.workspace == filter.workspace)
  }

  // ---------------------------------------------------------------------------
  // The journal
  // ---------------------------------------------------------------------------

  /** Sequence numbers are positive and strictly increasing. */
  ghost predicate Journal(j: seq<Event>) {
    && (forall k :: 0 <= k < |j| ==> 0 < j[k].number)
    && (forall i, k :: 0 <= i < k < |j| ==> j[i].number < j[k].number)
  }

  function LastSeq(j: seq<Event>): nat {
    if j == [] then 0 else j[|j| - 1].number
  }

  predicate Selected(e: Event, filter: Filter, lo: nat, hi: nat) {
    lo < e.number <= hi && Scoped(filter, e.scope)
  }

  /** The in-scope Events with a sequence in (lo, hi], in journal order. */
  function Window(j: seq<Event>, filter: Filter, lo: nat, hi: nat): (w: seq<Event>)
    ensures forall k :: 0 <= k < |w| ==> w[k] in j && Selected(w[k], filter, lo, hi)
  {
    if j == [] then []
    else
      var e := j[|j| - 1];
      Window(j[..|j| - 1], filter, lo, hi) + (if Selected(e, filter, lo, hi) then [e] else [])
  }

  /** Every in-scope Event committed after `cursor`. */
  function Newer(j: seq<Event>, filter: Filter, cursor: nat): seq<Event> {
    Window(j, filter, cursor, LastSeq(j))
  }

  /** The journal's query: the first `limit` in-scope Events after the cursor, in sequence order. */
  function Read(j: seq<Event>, filter: Filter, cursor: nat, limit: nat): seq<Event> {
    AtMost(Newer(j, filter, cursor), limit)
  }

  function AtMost(w: seq<Event>, limit: nat): seq<Event> {
    if |w| <= limit then w else w[..limit]
  }

  /** One Event more is taken while there is room. */
  lemma AtMostMore(w: seq<Event>, e: Event, limit: nat)
    ensures AtMost(w + [e], limit) == AtMost(w, limit) + if |AtMost(w, limit)| < limit then [e] else []
  {
  }

  lemma Front(j: seq<Event>)
    requires Journal(j) && j != []
    ensures Journal(j[..|j| - 1]) && LastSeq(j[..|j| - 1]) < LastSeq(j)
  {
  }

  lemma {:induction false} EmptyWindow(j: seq<Event>, filter: Filter, lo: nat, hi: nat)
    requires forall k :: 0 <= k < |j| ==> !(lo < j[k].number <= hi)
    ensures Window(j, filter, lo, hi) == []
  {
    if j != [] {
      EmptyWindow(j[..|j| - 1], filter, lo, hi);
    }
  }

  /** Beyond the last sequence the upper end of a window no longer matters. */
  lemma {:induction false} OpenEnd(j: seq<Event>, filter: Filter, lo: nat, hi: nat, hi': nat)
    requires Journal(j) && LastSeq(j) <= hi && LastSeq(j) <= hi'
    ensures Window(j, filter, lo, hi) == Window(j, filter, lo, hi')
  {
    if j != [] {
      Front(j);
      OpenEnd(j[..|j| - 1], filter, lo, hi, hi');
    }
  }

  lemma {:induction false} SplitWindow(j: seq<Event>, filter: Filter, lo: nat, mid: nat, hi: nat)
    requires Journal(j) && lo <= mid <= hi
    ensures Window(j, filter, lo, hi) == Window(j, filter, lo, mid) + Window(j, filter, mid, hi)
  {
    if j != [] {
      Front(j);
      var front, e := j[..|j| - 1], j[|j| - 1];
      SplitWindow(front, filter, lo, mid, hi);
      WindowStep(j, filter, lo, hi);
      WindowStep(j, filter, lo, mid);
      WindowStep(j, filter, mid, hi);
      if e.number <= mid {
        EmptyWindow(front, filter, mid, hi);
      }
      var left, right := Window(front, filter, lo, mid), Window(front, filter, mid, hi);
      hide Window, Scoped, Journal;
      JoinLast(left, right, e, Selected(e, filter, lo, mid), Selected(e, filter, mid, hi));
    }
  }

  /** An element added behind the right part, or behind the left one while the right one is empty, goes behind both. */
  lemma JoinLast(left: seq<Event>, right: seq<Event>, e: Event, inLeft: bool, inRight: bool)
    requires !(inLeft && inRight) && (inLeft ==> right == [])
    ensures (left + if inLeft then [e] else []) + (right + if inRight then [e] else []) ==
            left + right + if inLeft || inRight then [e] else []
  {
  }

  lemma UpToLast(j: seq<Event>, k: nat)
    requires Journal(j) && k < |j|
    ensures j[k].number <= LastSeq(j)
  {
  }

  lemma WindowStep(j: seq<Event>, filter: Filter, lo: nat, hi: nat)
    requires j != []
    ensures Window(j, filter, lo, hi) ==
            Window(j[..|j| - 1], filter, lo, hi) + if Selected(j[|j| - 1], filter, lo, hi) then [j[|j| - 1]] else []
  {
  }

  /** The Events of a window up to its k-th are the window that ends there. */
  lemma {:induction false} PrefixWindow(j: seq<Event>, filter: Filter, lo: nat, hi: nat, k: nat)
    requires Journal(j) && k < |Window(j, filter, lo, hi)|
    ensures var w := Window(j, filter, lo, hi); Window(j, filter, lo, w[k].number) == w[..k + 1]
  {
    Front(j);
    var front, e := j[..|j| - 1], j[|j| - 1];
    var w, w' := Window(j, filter, lo, hi), Window(front, filter, lo, hi);
    if k < |w'| {
      PrefixWindow(front, filter, lo, hi, k);
      assert w[k] == w'[k] && w'[k].number < e.number;
      assert w[..k + 1] == w'[..k + 1];
    } else {
      OpenEnd(front, filter, lo, e.number, hi);
      assert w[..k + 1] == w;
    }
  }

  lemma {:induction false} AppendWindow(j: seq<Event>, more: seq<Event>, filter: Filter, lo: nat, hi: nat)
    requires forall k :: 0 <= k < |more| ==> !(lo < more[k].number <= hi)
    ensures Window(j + more, filter, lo, hi) == Window(j, filter, lo, hi)
  {
    if more == [] {
      assert j + more == j;
    } else {
      var n := |more| - 1;
      AppendWindow(j, more[..n], filter, lo, hi);
      assert (j + more)[..|j + more| - 1] == j + more[..n];
    }
  }

  // ---------------------------------------------------------------------------
  // One subscriber
  // ---------------------------------------------------------------------------

  datatype Frame = Connected(lastSeq: nat) | EventFrame(event: Event) | CaughtUp(upTo: nat) | Output(chunk: nat)

  /** What a subscriber makes of a frame; one that throws refuses it. */
  datatype Reply = Accepts | Refuses | ClosesMeanwhile

  type Peer = Frame -> Reply

  datatype EndReason = Client | Backpressure | Stream

  /**
   * `from` is where the subscription began, `log` what was handed to `deliver`, `loops` the
   * suspended replay loops with their `announced` flags.
   */
  datatype Entry = Entry(
    filter: Filter, from: nat, cursor: nat, open: bool, draining: bool, again: bool,
    loops: seq<bool>, log: seq<Frame>, endings: seq<EndReason>)

  function End(e: Entry, reason: EndReason): Entry {
    if !e.open then e else e.(open := false, endings := e.endings + [reason])
  }

  function Send(e: Entry, frame: Frame, peer: Peer): Entry {
    if !e.open then e
    else
      var handed := e.(log := e.log + [frame]);
      match peer(frame)
      case Accepts => handed
      case Refuses => End(handed, Backpressure)
      case ClosesMeanwhile => End(handed, Client)
  }

  /** Hands over a page from its k-th Event on; false when the subscription ended before the page did. */
  function DeliverPage(e: Entry, page: seq<Event>, k: nat, peer: Peer): (Entry, bool)
    requires k <= |page|
    decreases |page| - k
  {
    if k == |page| then (e, true)
    else if !e.open then (e, false)
    else DeliverPage(Send(e.(cursor := page[k].number), EventFrame(page[k]), peer), page, k + 1, peer)
  }

  function Max(a: nat, b: nat): nat {
    if a >= b then a else b
  }

  /** A replay loop from the top of its inner loop to its next suspension or its return. */
  function Segment(j: seq<Event>, limit: nat, e: Entry, announced: bool, peer: Peer): Entry
    decreases e.again
  {
    if !e.open then e.(draining := false)
    else
      var page := Read(j, e.filter, e.cursor, limit);
      var (delivered, whole) := DeliverPage(e, page, 0, peer);
      if !whole then delivered.(draining := false)
      else if |page| >= limit then delivered.(loops := delivered.loops + [announced])
      else
        var caught := delivered.(cursor := Max(delivered.cursor, LastSeq(j)));
        var told := if announced then caught else Send(caught, CaughtUp(caught.cursor), peer);
        if !e.again then told.(draining := false)
        else Segment(j, limit, told.(again := false), announced || caught.open, peer)
  }

  /** One pass of the loop: it ends, is suspended, or goes round once more because it was told to read again. */
  lemma SegmentPass(j: seq<Event>, limit: nat, e: Entry, announced: bool, peer: Peer)
    ensures var page := Read(j, e.filter, e.cursor, limit);
      var (delivered, whole) := DeliverPage(e, page, 0, peer);
      var caught := delivered.(cursor := Max(delivered.cursor, LastSeq(j)));
      var told := if announced then caught else Send(caught, CaughtUp(caught.cursor), peer);
      Segment(j, limit, e, announced, peer) ==
        if !e.open then e.(draining := false)
        else if !whole then delivered.(draining := false)
        else if |page| >= limit then delivered.(loops := delivered.loops + [announced])
        else if !e.again then told.(draining := false)
        else Segment(j, limit, told.(again := false), announced || caught.open, peer)
  {
    hide Read, DeliverPage, Send, LastSeq;
  }

  function Replay(j: seq<Event>, limit: nat, e: Entry, peer: Peer): Entry {
    if e.draining then e.(again := true) else Segment(j, limit, e.(draining := true, again := false), false, peer)
  }

  /** The event loop comes back to the k-th suspended replay loop. */
  function Resume(j: seq<Event>, limit: nat, e: Entry, k: nat, peer: Peer): Entry
    requires k < |e.loops|
  {
    Segment(j, limit, e.(loops := e.loops[..k] + e.loops[k + 1..]), e.loops[k], peer)
  }

  function Subscribe(j: seq<Event>, limit: nat, filter: Filter, afterSeq: int, peer: Peer): Entry {
    var from := if afterSeq < 0 then 0 else afterSeq;
    var e := Entry(filter, from, from, true, false, false, [], [], []);
    Replay(j, limit, Send(e, Connected(LastSeq(j)), peer), peer)
  }

  /** One commit notification at one subscriber. */
  function Notify(j: seq<Event>, limit: nat, e: Entry, peer: Peer): Entry {
    if !e.open then e else Replay(j, limit, e, peer)
  }

  /** Transient output goes to an open subscriber in scope that is not replaying. */
  function Publish(e: Entry, scope: Scope, chunk: nat, peer: Peer): Entry {
    if !e.open || !Scoped(e.filter, scope) || e.draining then e else Send(e, Output(chunk), peer)
  }
}
