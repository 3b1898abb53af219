/**
 * One HTTP response attached to the event stream: whatever ends it, and however often,
 * the teardown happens once, the first reason stays, and nothing the attachment acquired
 * is left behind. Every call may call back synchronously: registering for the close,
 * writing the greeting, and the whole subscription before its handle exists.
 */
module SseAttachment {
  import opened Wrappers

  datatype EndReason = Client | Backpressure | Stream | Handler

  /**
   * `handle`: the subscription handle is known to `end`; `unregister`: the unregister
   * callback is; `listeners`, `heartbeat`, `entryOpen`: what is still held at the
   * transport, the timer and the stream; the two counters record calls made.
   */
  datatype State = State(
    closed: bool, reason: Option<EndReason>, handle: bool, unregister: bool,
    listeners: bool, heartbeat: bool, entryOpen: bool, transportEnds: nat, reported: seq<EndReason>)

  /** The one idempotent `end`; closing the handle makes the stream call back into an `end` that is already closed. */
  function End(s: State, why: EndReason): State {
    if s.closed then s
    else s.(closed := true, reason := Some(why), heartbeat := false,
            listeners := s.listeners && !s.unregister,
            entryOpen := s.entryOpen && !s.handle,
            transportEnds := s.transportEnds + 1, reported := s.reported + [why])
  }

  /** The stream ends its entry, if it is still open, and says why. */
  function StreamEnds(s: State, why: EndReason): State {
    if !s.entryOpen then s else End(s.(entryOpen := false), why)
  }

  /** What may happen between two instructions of anyone else. */
  datatype Incident =
    | PeerGone
    | HeartbeatTick(throws: bool)
    | Delivery(output: bool, behind: bool, throws: bool, overBound: bool)
    | StreamCloses(why: EndReason)
    | HandlerEnds

  /** The subscriber's answer to one frame: transient output is dropped, not written, once the socket is behind. */
  function Deliver(s: State, output: bool, behind: bool, throws: bool, overBound: bool): bool {
    !s.closed && ((output && behind) || (!throws && !overBound))
  }

  function Happen(s: State, i: Incident): State {
    match i
    case PeerGone => if s.listeners then End(s, Client) else s
    case HeartbeatTick(throws) => if s.heartbeat && !s.closed && throws then End(s, Client) else s
    case Delivery(output, behind, throws, overBound) =>
      if s.entryOpen && !Deliver(s, output, behind, throws, overBound) then StreamEnds(s, Backpressure) else s
    case StreamCloses(why) => StreamEnds(s, why)
    case HandlerEnds => End(s, Handler)
  }

  function HappenAll(s: State, incidents: seq<Incident>): State {
    if incidents == [] then s else Happen(HappenAll(s, incidents[..|incidents| - 1]), incidents[|incidents| - 1])
  }

  /** How the greeting's write went: it may call back before it returns or throws. */
  datatype Greeting = Greeting(during: seq<Incident>, throws: bool)

  /**
   * The attachment up to its return. `registering` is what happens inside the
   * registration for the close, `subscribing` what happens inside `subscribe`.
   */
  function Attach(registering: seq<Incident>, destroyed: bool, greeting: Greeting, subscribing: seq<Incident>): State {
    var start := State(false, None, false, false, true, true, false, 0, []);
    var registered := HappenAll(start, registering).(unregister := true);
    if destroyed then End(registered, Client)
    else
      var greeted := HappenAll(registered, greeting.during);
      if greeting.throws then End(greeted, Client) else Subscribe(greeted, subscribing)
  }

  /** The subscription: an attachment that ended inside it closes its entry as soon as it has the handle. */
  function Subscribe(s: State, subscribing: seq<Incident>): State {
    var subscribed := HappenAll(s.(entryOpen := true), subscribing);
    if subscribed.closed then StreamEnds(subscribed, Client) else subscribed.(handle := true)
  }

  // ---------------------------------------------------------------------------
  // What holds at every moment
  // ---------------------------------------------------------------------------

  /** The teardown ran once, with the reason it still reports. */
  ghost predicate TornDown(s: State) {
    s.closed && !s.heartbeat && s.transportEnds == 1 && s.reason.Some? && s.reported == [s.reason.value]
  }

  ghost predicate Untouched(s: State) {
    !s.closed && s.heartbeat && s.listeners && s.transportEnds == 0 && s.reason == None && s.reported == []
  }

  /** While the handle is unknown a closed attachment may still have an open entry; afterwards never. */
  ghost predicate Coherent(s: State) {
    && (TornDown(s) || Untouched(s))
    && (s.closed && s.handle ==> !s.entryOpen)
  }

  lemma HappenKeeps(s: State, i: Incident)
    requires Coherent(s)
    ensures var s' := Happen(s, i);
      && Coherent(s') && s'.handle == s.handle && s'.unregister == s.unregister
      && (s.closed ==> TornDown(s') && s'.reason == s.reason && s'.listeners == s.listeners)
      && (!s.closed && s'.closed ==> s'.listeners == (s.listeners && !s.unregister))
      && (s'.entryOpen ==> s.entryOpen) && (!s'.closed ==> s'.entryOpen == s.entryOpen)
  {
  }

  lemma {:induction false} HappenAllKeeps(s: State, incidents: seq<Incident>)
    requires Coherent(s)
    ensures var s' := HappenAll(s, incidents);
      && Coherent(s') && s'.handle == s.handle && s'.unregister == s.unregister
      && (s.closed ==> TornDown(s') && s'.reason == s.reason && s'.listeners == s.listeners)
      && (!s.closed && s'.closed ==> s'.listeners == (s.listeners && !s.unregister))
      && (s'.entryOpen ==> s.entryOpen) && (!s'.closed ==> s'.entryOpen == s.entryOpen)
  {
    if incidents != [] {
      HappenAllKeeps(s, incidents[..|incidents| - 1]);
      HappenKeeps(HappenAll(s, incidents[..|incidents| - 1]), incidents[|incidents| - 1]);
    }
  }

  /** What ends an attachment that has no stream entry yet: the peer's close, a heartbeat that throws, the handler. */
  predicate Ends(i: Incident) {
    i.PeerGone? || (i.HeartbeatTick? && i.throws) || i.HandlerEnds?
  }

  /** The end came while the transport was still registering its callback. */
  predicate ClosedWhileRegistering(registering: seq<Incident>) {
    exists k :: 0 <= k < |registering| && Ends(registering[k])
  }

  /** Before there is an entry, exactly those incidents close the attachment, and the others change nothing. */
  lemma {:induction false} ClosedByIncident(s: State, incidents: seq<Incident>)
    requires Untouched(s) && !s.entryOpen
    ensures var s' := HappenAll(s, incidents);
      if ClosedWhileRegistering(incidents) then s'.closed && !s'.entryOpen else s' == s
  {
    if incidents != [] {
      var n := |incidents| - 1;
      var front := incidents[..n];
      ClosedByIncident(s, front);
      assert incidents == front + [incidents[n]];
      assert ClosedWhileRegistering(incidents) <==> ClosedWhileRegistering(front) || Ends(incidents[n]) by {
        if ClosedWhileRegistering(front) {
          var k :| 0 <= k < |front| && Ends(front[k]);
          assert Ends(incidents[k]);
        }
      }
      hide ClosedWhileRegistering;
    }
  }

  /**
   * What the attachment is at any time after it returned: live with everything held, or ended with
   * what it held released.
   */
  ghost predicate LiveOrReleased(s: State, early: bool) {
    && (Untouched(s) ==> s.handle && s.unregister && s.entryOpen && !early)
    && (s.closed ==> TornDown(s) && !s.entryOpen && s.listeners == early)
    && (Untouched(s) || s.closed)
  }

  lemma AttachKeeps(registering: seq<Incident>, destroyed: bool, greeting: Greeting, subscribing: seq<Incident>)
    ensures LiveOrReleased(Attach(registering, destroyed, greeting, subscribing), ClosedWhileRegistering(registering))
  {
    var start := State(false, None, false, false, true, true, false, 0, []);
    HappenAllKeeps(start, registering);
    ClosedByIncident(start, registering);
    hide ClosedWhileRegistering;
    var registered := HappenAll(start, registering).(unregister := true);
    HappenAllKeeps(registered, greeting.during);
    var greeted := HappenAll(registered, greeting.during);
    HappenAllKeeps(greeted.(entryOpen := true), subscribing);
  }

  /**
   * Whatever happens in whatever order, during the attachment or after it: the teardown
   * runs at most once and keeps its first reason; once ended, the response was ended
   * once, the heartbeat is off and no stream entry is open; and the transport's
   * listeners are released if and only if neither the peer's close, nor a throwing
   * heartbeat, nor the handler's end came while they were being registered.
   */
  lemma {:induction false} ReleasedExactlyOnce(registering: seq<Incident>, destroyed: bool, greeting: Greeting,
                                               subscribing: seq<Incident>, later: seq<Incident>)
    ensures var s := HappenAll(Attach(registering, destroyed, greeting, subscribing), later);
      && |s.reported| == s.transportEnds == (if s.closed then 1 else 0)
      && (s.closed ==> s.reason == Some(s.reported[0]) && !s.heartbeat && !s.entryOpen)
      && (s.closed ==> (s.listeners <==> ClosedWhileRegistering(registering)))
      && (!s.closed ==> s.heartbeat && s.listeners && s.entryOpen && s.handle)
  {
    AttachKeeps(registering, destroyed, greeting, subscribing);
    HappenAllKeeps(Attach(registering, destroyed, greeting, subscribing), later);
  }

  /** The first reason is never rewritten. */
  lemma FirstReasonStays(registering: seq<Incident>, destroyed: bool, greeting: Greeting, subscribing: seq<Incident>,
                         later: seq<Incident>, evenLater: seq<Incident>)
    ensures var s := HappenAll(Attach(registering, destroyed, greeting, subscribing), later);
      s.closed ==> HappenAll(s, evenLater).reason == s.reason && HappenAll(s, evenLater).reported == s.reported
  {
    AttachKeeps(registering, destroyed, greeting, subscribing);
    HappenAllKeeps(Attach(registering, destroyed, greeting, subscribing), later);
    HappenAllKeeps(HappenAll(Attach(registering, destroyed, greeting, subscribing), later), evenLater);
  }

  /** A case in which listeners stay behind. */
  lemma ListenersLeftBehind()
    ensures var s := Attach([PeerGone], false, Greeting([], false), []); s.closed && s.listeners
  {
    var start := State(false, None, false, false, true, true, false, 0, []);
    assert [PeerGone][..0] == [] && HappenAll(start, []) == start;
    var registered := HappenAll(start, [PeerGone]).(unregister := true);
    assert HappenAll(registered, []) == registered
      && HappenAll(registered.(entryOpen := true), []) == registered.(entryOpen := true);
  }

  // ---------------------------------------------------------------------------
  // What ends it, and with which reason
  // ---------------------------------------------------------------------------

  /**
   * What an incident ends a live attachment with: the peer's close, a heartbeat that throws and the handler do so at
   * any time; with an entry at the stream so do the stream's own close and a written frame that throws or takes the
   * buffer over its bound. Output that is dropped because the socket is behind ends nothing.
   */
  function EndsWith(entry: bool, i: Incident): Option<EndReason> {
    match i
    case PeerGone => Some(Client)
    case HeartbeatTick(throws) => if throws then Some(Client) else None
    case Delivery(output, behind, throws, overBound) =>
      var written := !output || !behind;
      if entry && written && (throws || overBound) then Some(Backpressure) else None
    case StreamCloses(why) => if entry then Some(why) else None
    case HandlerEnds => Some(Handler)
  }

  /** The first of some incidents that ends the attachment, and with what. */
  function FirstEnd(entry: bool, incidents: seq<Incident>): Option<EndReason> {
    if incidents == [] then None
    else
      var earlier := FirstEnd(entry, incidents[..|incidents| - 1]);
      if earlier.Some? then earlier else EndsWith(entry, incidents[|incidents| - 1])
  }

  function Or(first: Option<EndReason>, second: Option<EndReason>): Option<EndReason> {
    if first.Some? then first else second
  }

  /** The state is ended with this reason, or as live as the one before. */
  ghost predicate EndedAs(s: State, s': State, why: Option<EndReason>) {
    if why.Some? then s'.closed && s'.reason == why else s' == s
  }

  lemma {:induction false} FirstEnds(s: State, incidents: seq<Incident>)
    requires Untouched(s)
    ensures EndedAs(s, HappenAll(s, incidents), FirstEnd(s.entryOpen, incidents))
  {
    if incidents != [] {
      FirstEnds(s, incidents[..|incidents| - 1]);
      HappenAllKeeps(s, incidents[..|incidents| - 1]);
    }
  }

  /** What ends the attachment while it is being made: in order, each only if nothing before it did. */
  function EndsAttaching(registering: seq<Incident>, destroyed: bool, greeting: Greeting, subscribing: seq<Incident>):
      Option<EndReason> {
    var client := Some(Client);
    Or(FirstEnd(false, registering),
       Or(if destroyed then client else None,
          Or(FirstEnd(false, greeting.during),
             Or(if greeting.throws then client else None, FirstEnd(true, subscribing)))))
  }

  lemma StaysEnded(s: State, incidents: seq<Incident>)
    requires TornDown(s) && (s.handle ==> !s.entryOpen)
    ensures HappenAll(s, incidents).closed && HappenAll(s, incidents).reason == s.reason
    ensures TornDown(HappenAll(s, incidents)) && HappenAll(s, incidents).handle == s.handle
  {
    HappenAllKeeps(s, incidents);
  }

  lemma AttachedAs(registering: seq<Incident>, destroyed: bool, greeting: Greeting, subscribing: seq<Incident>)
    ensures var s := Attach(registering, destroyed, greeting, subscribing);
      var why := EndsAttaching(registering, destroyed, greeting, subscribing);
      if why.Some? then s.closed && s.reason == why else Untouched(s) && s.entryOpen && s.handle
  {
    var start := State(false, None, false, false, true, true, false, 0, []);
    var registered := HappenAll(start, registering).(unregister := true);
    FirstEnds(start, registering);
    HappenAllKeeps(start, registering);
    if registered.closed {
      hide FirstEnd;
      StaysEnded(registered, greeting.during);
      var greeted := HappenAll(registered, greeting.during);
      StaysEnded(greeted.(entryOpen := true), subscribing);
    } else if !destroyed {
      FirstEnds(registered, greeting.during);
      HappenAllKeeps(registered, greeting.during);
      var greeted := HappenAll(registered, greeting.during);
      if greeted.closed {
        hide FirstEnd;
        StaysEnded(greeted.(entryOpen := true), subscribing);
      } else {
        FirstEnds(greeted.(entryOpen := true), subscribing);
        HappenAllKeeps(greeted.(entryOpen := true), subscribing);
      }
    }
  }

  /**
   * Whatever happens in whatever order, an attachment ends if and only if something ends it, and with the reason of
   * the first that does. So a live one is ended with `Backpressure` exactly by a written frame that throws or takes
   * the buffer over its bound, and by nothing else: not by a frame that is dropped, nor by a heartbeat that is written.
   */
  lemma EndedByTheFirst(registering: seq<Incident>, destroyed: bool, greeting: Greeting, subscribing: seq<Incident>,
                        later: seq<Incident>)
    ensures var s := HappenAll(Attach(registering, destroyed, greeting, subscribing), later);
      var why := Or(EndsAttaching(registering, destroyed, greeting, subscribing), FirstEnd(true, later));
      && s.reason == why
      && (s.closed <==> why.Some?)
  {
    AttachedAs(registering, destroyed, greeting, subscribing);
    AttachKeeps(registering, destroyed, greeting, subscribing);
    hide EndsAttaching, Attach, ClosedWhileRegistering;
    var s := Attach(registering, destroyed, greeting, subscribing);
    HappenAllKeeps(s, later);
    if !s.closed { FirstEnds(s, later); }
  }

  // ---------------------------------------------------------------------------
  // The attachment
  // ---------------------------------------------------------------------------

  class Attachment {
    var closed: bool
    var reason: Option<EndReason>
    var handle: bool
    var unregister: bool
    var listeners: bool
    var heartbeat: bool
    var entryOpen: bool
    var transportEnds: nat
    var reported: seq<EndReason>

    ghost function View(): State
      reads this
    {
      State(closed, reason, handle, unregister, listeners, heartbeat, entryOpen, transportEnds, reported)
    }

    constructor (registering: seq<Incident>, destroyed: bool, greeting: Greeting, subscribing: seq<Incident>)
      ensures View() == Attach(registering, destroyed, greeting, subscribing)
    {
      closed, reason, handle, unregister := false, None, false, false;
      heartbeat, listeners, entryOpen := true, true, false;
      transportEnds, reported := 0, [];
      new;
      hide HappenAll, End, Subscribe;
      Suffer(registering);
      unregister := true;
      if destroyed {
        EndWith(Client);
        return;
      }
      Suffer(greeting.during);
      if greeting.throws {
        EndWith(Client);
        return;
      }
      Open(subscribing);
    }

    method Open(subscribing: seq<Incident>)
      modifies this
      ensures View() == Subscribe(old(View()), subscribing)
    {
      hide HappenAll, StreamEnds;
      entryOpen := true;
      Suffer(subscribing);
      if closed {
        StreamEnd(Client);
      } else {
        handle := true;
      }
    }

    method EndWith(why: EndReason)
      modifies this
      ensures View() == End(old(View()), why)
    {
      if closed { return; }
      closed := true;
      reason := Some(why);
      heartbeat := false;
      if unregister {
        listeners := false;
      }
      if handle {
        entryOpen := false;
      }
      transportEnds := transportEnds + 1;
      reported := reported + [why];
    }

    method StreamEnd(why: EndReason)
      modifies this
      ensures View() == StreamEnds(old(View()), why)
    {
      if !entryOpen { return; }
      entryOpen := false;
      EndWith(why);
    }

    /** One callback, from whoever makes it. */
    method On(i: Incident)
      modifies this
      ensures View() == Happen(old(View()), i)
    {
      match i
      case PeerGone =>
        if listeners { EndWith(Client); }
      case HeartbeatTick(throws) =>
        if heartbeat && !closed && throws { EndWith(Client); }
      case Delivery(output, behind, throws, overBound) =>
        if entryOpen {
          var accepted := true;
          if closed {
            accepted := false;
          } else if !(output && behind) {
            accepted := !throws && !overBound;
          }
          if !accepted { StreamEnd(Backpressure); }
        }
      case StreamCloses(why) => StreamEnd(why);
      case HandlerEnds => EndWith(Handler);
    }

    method Suffer(incidents: seq<Incident>)
      modifies this
      ensures View() == HappenAll(old(View()), incidents)
    {
      for k := 0 to |incidents|
        invariant View() == HappenAll(old(View()), incidents[..k])
      {
        assert incidents[..k + 1][..k] == incidents[..k];
        On(incidents[k]);
      }
      assert incidents[..|incidents|] == incidents;
    }
  }
}
