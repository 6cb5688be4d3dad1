/**
 The event hub: a bounded ring for replay, a bounded broadcast channel for live events, and a
 cursor per subscriber that drops what it has already seen. Publishers take turns, but allocating
 an id, pushing to the ring and broadcasting are separate steps, interleaved with one subscriber's
 steps and with the ids other subscribers' resyncs take.
 */
module SseHub {
  import opened Common

  const RING_CAPACITY: nat := 512

  datatype Event = Event(id: nat, data: int)

  datatype Publishing = Idle | Allocated(event: Event) | Pushed(event: Event)

  /** `log` is everything ever broadcast; the channel retains its last `RING_CAPACITY` events. */
  datatype Hub = Hub(nextId: nat, ring: seq<Event>, log: seq<Event>, publishing: Publishing) {
    /** Everything ever pushed to the ring. */
    function All(): seq<Event> {
      if publishing.Pushed? then log + [publishing.event] else log
    }
  }

  const EMPTY_HUB := Hub(0, [], [], Idle)

  // ---------- Publishing ----------

  function AllocateId(h: Hub, data: int): Hub
    requires h.publishing.Idle?
  {
    h.(nextId := h.nextId + 1, publishing := Allocated(Event(h.nextId + 1, data)))
  }

  function PushRing(h: Hub): Hub
    requires h.publishing.Allocated?
  {
    var kept := if |h.ring| == RING_CAPACITY then h.ring[1..] else h.ring;
    h.(ring := kept + [h.publishing.event], publishing := Pushed(h.publishing.event))
  }

  function Broadcast(h: Hub): Hub
    requires h.publishing.Pushed?
  {
    h.(log := h.log + [h.publishing.event], publishing := Idle)
  }

  // ---------- Subscribing ----------

  /** What a client is sent: an event, or a request to reload everything. */
  datatype Item = Live(event: Event) | Resync(at: nat) {
    function Id(): nat {
      if Live? then event.id else at
    }
  }

  /** The events with an id above `id`, in order. */
  function After(events: seq<Event>, id: nat): seq<Event> {
    if events == [] then []
    else
      var n := |events| - 1;
      After(events[..n], id) + if events[n].id > id then [events[n]] else []
  }

  /** `replay_after`: the retained events after the cursor, and whether older ones were dropped. */
  function ReplayAfter(ring: seq<Event>, last: Option<nat>): (seq<Event>, bool) {
    if last.None? then ([], false)
    else (After(ring, last.value), ring != [] && last.value + 1 < ring[0].id)
  }

  /** The id of the last of the first `n` events, 0 when there is none. */
  function TopId(events: seq<Event>, n: nat): nat
    requires n <= |events|
  {
    if n == 0 then 0 else events[n - 1].id
  }

  function Lives(events: seq<Event>): (r: seq<Item>)
    ensures |r| == |events| && forall i :: 0 <= i < |r| ==> r[i] == Live(events[i])
  {
    seq(|events|, i requires 0 <= i < |events| => Live(events[i]))
  }

  /**
   A stream being read: what is left to replay, the channel position, the id cursor and what the
   client was sent. The rest is bookkeeping: `origin` is the id resumed from, `base` the id the
   client's view currently starts from, `issued` the highest id issued when that was fixed, and
   `seen` how much of the history the replay covered.
   */
  datatype Stream = Stream(replay: seq<Item>, pos: nat, last: nat, delivered: seq<Item>,
                           origin: nat, base: nat, issued: nat, seen: nat)

  datatype Subscriber =
    | Absent
    | Registered(start: Option<nat>, pos: nat, issued: nat)
    | Replayed(start: Option<nat>, pos: nat, issued: nat, items: seq<Event>, expired: bool, seen: nat)
    | Active(stream: Stream)

  function Register(h: Hub, start: Option<nat>): Subscriber {
    Registered(start, |h.log|, h.nextId)
  }

  function Replay(h: Hub, s: Subscriber): Subscriber
    requires s.Registered?
  {
    var (items, expired) := ReplayAfter(h.ring, s.start);
    Replayed(s.start, s.pos, s.issued, items, expired, |h.All()|)
  }

  /** An expired cursor gets a resync with a fresh id instead of the replay. */
  function Begin(h: Hub, s: Subscriber): (Hub, Stream)
    requires s.Replayed? && s.pos <= |h.log|
  {
    var last := if s.start.Some? then s.start.value else 0;
    var origin := if s.start.Some? then s.start.value else TopId(h.log, s.pos);
    if s.expired then
      (h.(nextId := h.nextId + 1),
       Stream([Resync(h.nextId + 1)], s.pos, last, [], origin, origin, s.issued, 0))
    else
      (h, Stream(Lives(s.items), s.pos, last, [], origin, origin, s.issued,
                 if s.start.Some? then s.seen else 0))
  }

  /** A resync moves the base: to its own id, or past everything the channel dropped. */
  function Deliver(h: Hub, s: Stream, item: Item): Stream
    requires s.pos <= |h.log|
  {
    if item.Id() <= s.last then s
    else if item.Live? then s.(last := item.Id(), delivered := s.delivered + [item])
    else
      var top := TopId(h.log, s.pos);
      s.(last := item.Id(), delivered := s.delivered + [item], seen := 0,
         base := if item.Id() > top then item.Id() else top, issued := h.nextId)
  }

  datatype Received = Message(event: Event) | Lagged | Nothing

  predicate Lags(h: Hub, s: Stream) {
    s.replay == [] && |h.log| > s.pos + RING_CAPACITY
  }

  function Receive(h: Hub, pos: nat): (Received, nat)
    requires pos <= |h.log|
  {
    if pos == |h.log| then (Nothing, pos)
    else if |h.log| - pos > RING_CAPACITY then (Lagged, |h.log| - RING_CAPACITY)
    else (Message(h.log[pos]), pos + 1)
  }

  /** One turn of the stream's loop: the replay first, then the channel. */
  function Pull(h: Hub, s: Stream): (r: Stream)
    requires s.pos <= |h.log|
  {
    if s.replay != [] then Deliver(h, s.(replay := s.replay[1..]), s.replay[0])
    else
      var (received, pos) := Receive(h, s.pos);
      match received
      case Nothing => s
      case Lagged => Deliver(h, s.(pos := pos), Resync(s.last + 1))
      case Message(event) => Deliver(h, s.(pos := pos), Live(event))
  }

  // ---------- Runs ----------

  datatype System = System(hub: Hub, subscriber: Subscriber)

  datatype Action =
    | DoAllocate(data: int) | DoPush | DoBroadcast | DoForeignResync
    | DoRegister(start: Option<nat>) | DoReplay | DoBegin | DoPull

  const START := System(EMPTY_HUB, Absent)

  /** How far into the log a subscriber's channel position is. */
  function Position(s: Subscriber): nat {
    match s
    case Absent => 0
    case Registered(_, pos, _) => pos
    case Replayed(_, pos, _, _, _, _) => pos
    case Active(stream) => stream.pos
  }

  function HubStep(h: Hub, a: Action): Hub {
    match a
    case DoAllocate(data) => if h.publishing.Idle? then AllocateId(h, data) else h
    case DoPush => if h.publishing.Allocated? then PushRing(h) else h
    case DoBroadcast => if h.publishing.Pushed? then Broadcast(h) else h
    case DoForeignResync => h.(nextId := h.nextId + 1)
    case _ => h
  }

  /** An action that is not enabled changes nothing. */
  function Step(s: System, a: Action): System {
    var System(h, sub) := s;
    match a
    case DoRegister(start) => if sub.Absent? then System(h, Register(h, start)) else s
    case DoReplay => if sub.Registered? then System(h, Replay(h, sub)) else s
    case DoBegin =>
      if sub.Replayed? && sub.pos <= |h.log| then
        var (h', stream) := Begin(h, sub);
        System(h', Active(stream))
      else s
    case DoPull =>
      if sub.Active? && sub.stream.pos <= |h.log| then System(h, Active(Pull(h, sub.stream))) else s
    case _ => System(HubStep(h, a), sub)
  }

  function Run(s: System, actions: seq<Action>): System
    decreases |actions|
  {
    if actions == [] then s else Run(Step(s, actions[0]), actions[1..])
  }

  // ---------- Invariants ----------

  ghost predicate Increasing(events: seq<Event>) {
    forall i, j :: 0 <= i < j < |events| ==> events[i].id < events[j].id
  }

  function LastOf(events: seq<Event>, count: nat): seq<Event> {
    events[SaturatingSub(|events|, count)..]
  }

  ghost predicate IdsWithin(events: seq<Event>, bound: nat) {
    forall i :: 0 <= i < |events| ==> 0 < events[i].id <= bound
  }

  ghost predicate HubInv(h: Hub) {
    && Increasing(h.All())
    && IdsWithin(h.All(), h.nextId)
    && h.ring == LastOf(h.All(), RING_CAPACITY)
    && (h.publishing.Allocated? ==> TopId(h.log, |h.log|) < h.publishing.event.id <= h.nextId)
  }

  /** The events sent since the last resync, or since the start when there was none. */
  function Since(items: seq<Item>): seq<Event> {
    if items == [] then []
    else
      var n := |items| - 1;
      if items[n].Resync? then [] else Since(items[..n]) + [items[n].event]
  }

  /** How much of the history the replay and the channel position cover. */
  function Covered(s: Stream): nat {
    if s.seen > s.pos then s.seen else s.pos
  }

  function LastId(events: seq<Event>, otherwise: nat): nat {
    if events == [] then otherwise else events[|events| - 1].id
  }

  /** The cursor stands at the last event sent; before one is sent, not beyond the base. */
  ghost predicate CursorInv(h: Hub, s: Stream)
    requires s.pos <= |h.log|
  {
    && s.last <= LastId(Since(s.delivered), s.base)
    && (Since(s.delivered) != [] ==> s.last == LastId(Since(s.delivered), s.base))
    && (s.base <= s.last || s.base <= TopId(h.log, s.pos))
  }

  /** What was sent and what is left to replay are together the covered events after the base. */
  ghost predicate FlowInv(h: Hub, s: Stream)
    requires s.pos <= |h.log|
  {
    && Covered(s) <= |h.All()|
    && exists rest :: s.replay == Lives(rest) && Since(s.delivered) + rest == After(h.All()[..Covered(s)], s.base)
  }

  /** A resync that replaced an expired replay is about to be sent. */
  ghost predicate ResyncPending(h: Hub, s: Stream)
    requires s.pos <= |h.log|
  {
    && s.delivered == []
    && (exists id: nat :: s.replay == [Resync(id)] && s.last < id <= h.nextId && TopId(h.log, s.pos) < id)
  }

  ghost predicate StreamInv(h: Hub, s: Stream) {
    && s.pos <= |h.log|
    && (ResyncPending(h, s) || (FlowInv(h, s) && CursorInv(h, s)))
  }

  ghost predicate SubscriberInv(h: Hub, s: Subscriber) {
    match s
    case Absent => true
    case Registered(_, pos, _) => pos <= |h.log|
    case Replayed(start, pos, _, items, expired, seen) =>
      && pos <= |h.log| && pos <= seen <= |h.All()|
      && (start.None? ==> items == [] && !expired)
      && (start.Some? && !expired ==> items == After(h.All()[..seen], start.value))
      && (start.Some? && expired ==> start.value <= h.nextId)
    case Active(stream) => StreamInv(h, stream)
  }

  ghost predicate Inv(s: System) {
    HubInv(s.hub) && SubscriberInv(s.hub, s.subscriber)
  }

  // ---------- Filtering by id ----------

  lemma {:induction false} AfterAppend(a: seq<Event>, b: seq<Event>, id: nat)
    ensures After(a + b, id) == After(a, id) + After(b, id)
  {
    if b == [] {
      assert a + b == a;
    } else {
      var n := |b| - 1;
      assert (a + b)[..|a| + n] == a + b[..n];
      AfterAppend(a, b[..n], id);
    }
  }

  lemma {:induction false} AfterNone(events: seq<Event>, id: nat)
    requires forall i :: 0 <= i < |events| ==> events[i].id <= id
    ensures After(events, id) == []
  {
    if events != [] {
      AfterNone(events[..|events| - 1], id);
    }
  }

  /** Exactly the events above the id, each once, in order. */
  lemma {:induction false} AfterIsOrdered(events: seq<Event>, id: nat)
    requires Increasing(events)
    ensures Increasing(After(events, id))
    ensures forall e :: e in After(events, id) <==> e in events && e.id > id
  {
    if events != [] {
      var n := |events| - 1;
      assert events == events[..n] + [events[n]];
      AfterIsOrdered(events[..n], id);
    }
  }

  lemma AfterOneMore(events: seq<Event>, k: nat, id: nat)
    requires k < |events|
    ensures After(events[..k + 1], id) == After(events[..k], id) + if events[k].id > id then [events[k]] else []
  {
    assert events[..k + 1][..k] == events[..k];
  }

  /** The ring answers for the whole history unless the cursor has expired. */
  lemma RingAnswers(all: seq<Event>, start: nat)
    requires Increasing(all)
    requires var ring := LastOf(all, RING_CAPACITY); ring == [] || start + 1 >= ring[0].id
    ensures After(LastOf(all, RING_CAPACITY), start) == After(all, start)
  {
    var cut := SaturatingSub(|all|, RING_CAPACITY);
    if all != [] {
      assert LastOf(all, RING_CAPACITY)[0] == all[cut];
      AfterNone(all[..cut], start);
      AfterAppend(all[..cut], all[cut..], start);
      assert all == all[..cut] + all[cut..];
    }
  }

  // ---------- Every step keeps the invariant ----------

  /** The hub only moves forward. */
  ghost predicate Extends(h: Hub, h': Hub) {
    h.log <= h'.log && h.All() <= h'.All() && h.nextId <= h'.nextId
  }

  lemma LogWithinAll(h: Hub)
    requires HubInv(h)
    ensures forall i :: 0 <= i < |h.log| ==> h.log[i] == h.All()[i]
  {
  }

  lemma AllocateKeepsHub(h: Hub, data: int)
    requires HubInv(h) && h.publishing.Idle?
    ensures HubInv(AllocateId(h, data)) && Extends(h, AllocateId(h, data))
  {
    TopIsIssued(h, |h.log|);
    assert AllocateId(h, data).All() == h.All();
  }

  lemma AppendIsLast(events: seq<Event>, event: Event, count: nat)
    requires count > 0
    ensures var kept := LastOf(events, count);
      LastOf(events + [event], count) == (if |kept| == count then kept[1..] else kept) + [event]
  {
  }

  lemma AppendIncreases(events: seq<Event>, event: Event)
    requires Increasing(events) && TopId(events, |events|) < event.id
    ensures Increasing(events + [event])
  {
    assert forall i :: 0 <= i < |events| ==> events[i].id <= events[|events| - 1].id;
  }

  lemma PushKeepsHub(h: Hub)
    requires HubInv(h) && h.publishing.Allocated?
    ensures HubInv(PushRing(h)) && Extends(h, PushRing(h))
  {
    var event, r := h.publishing.event, PushRing(h);
    assert h.All() == h.log && r.All() == h.log + [event];
    AppendIncreases(h.log, event);
    AppendIsLast(h.log, event, RING_CAPACITY);
    assert r.ring == LastOf(r.All(), RING_CAPACITY);
    AppendWithin(h.log, event, h.nextId);
  }

  lemma AppendWithin(events: seq<Event>, event: Event, bound: nat)
    requires IdsWithin(events, bound) && 0 < event.id <= bound
    ensures IdsWithin(events + [event], bound)
  {
  }

  lemma BroadcastKeepsHub(h: Hub)
    requires HubInv(h) && h.publishing.Pushed?
    ensures HubInv(Broadcast(h)) && Extends(h, Broadcast(h))
  {
    assert Broadcast(h).All() == h.All();
  }

  lemma HubStepKeepsHub(h: Hub, a: Action)
    requires HubInv(h)
    ensures HubInv(HubStep(h, a)) && Extends(h, HubStep(h, a))
  {
    match a {
      case DoAllocate(data) => if h.publishing.Idle? { AllocateKeepsHub(h, data); }
      case DoPush => if h.publishing.Allocated? { PushKeepsHub(h); }
      case DoBroadcast => if h.publishing.Pushed? { BroadcastKeepsHub(h); }
      case _ =>
        assert HubStep(h, a).All() == h.All();
    }
  }

  lemma HubGrowthKeepsStream(h: Hub, h': Hub, s: Stream)
    requires StreamInv(h, s)
    requires Extends(h, h')
    ensures StreamInv(h', s)
  {
    assert TopId(h'.log, s.pos) == TopId(h.log, s.pos);
    if ResyncPending(h, s) {
      assert ResyncPending(h', s);
    } else {
      assert h'.All()[..Covered(s)] == h.All()[..Covered(s)];
      assert FlowInv(h', s) && CursorInv(h', s);
    }
  }

  lemma HubGrowthKeepsSubscriber(h: Hub, h': Hub, s: Subscriber)
    requires SubscriberInv(h, s)
    requires Extends(h, h')
    ensures SubscriberInv(h', s)
  {
    match s
    case Active(stream) => HubGrowthKeepsStream(h, h', stream);
    case Replayed(_, _, _, _, _, seen) => assert h'.All()[..seen] == h.All()[..seen];
    case _ =>
  }

  lemma ReplayKeepsInv(h: Hub, s: Subscriber)
    requires HubInv(h) && s.Registered? && SubscriberInv(h, s)
    ensures SubscriberInv(h, Replay(h, s))
  {
    var all := h.All();
    assert all[..|all|] == all;
    if s.start.Some? {
      if h.ring != [] && s.start.value + 1 < h.ring[0].id {
        assert h.ring[0] == all[SaturatingSub(|all|, RING_CAPACITY)];
      } else {
        RingAnswers(all, s.start.value);
      }
    }
  }

  lemma BeginKeepsInv(h: Hub, s: Subscriber)
    requires HubInv(h) && s.Replayed? && SubscriberInv(h, s)
    ensures StreamInv(Begin(h, s).0, Begin(h, s).1)
    ensures HubInv(Begin(h, s).0) && h.All() == Begin(h, s).0.All() && h.log == Begin(h, s).0.log
  {
    var (h', stream) := Begin(h, s);
    assert h'.All() == h.All();
    TopIsIssued(h, s.pos);
    if s.expired {
      assert stream.replay == [Resync(h.nextId + 1)];
      assert ResyncPending(h', stream);
    } else {
      assert stream.replay == Lives(s.items);
      if s.start.None? {
        CoveredBelowTop(h, s.pos, TopId(h.log, s.pos));
      }
      assert Since(stream.delivered) + s.items == After(h.All()[..Covered(stream)], stream.base);
      assert FlowInv(h', stream) && CursorInv(h', stream);
    }
  }

  lemma TopIsIssued(h: Hub, pos: nat)
    requires HubInv(h) && pos <= |h.log|
    ensures TopId(h.log, pos) <= h.nextId
  {
    if pos > 0 {
      assert h.All()[pos - 1] == h.log[pos - 1];
    }
  }

  /** Nothing the channel has already passed lies above the base of a resync. */
  lemma CoveredBelowTop(h: Hub, pos: nat, base: nat)
    requires HubInv(h) && pos <= |h.log| && TopId(h.log, pos) <= base
    ensures After(h.All()[..pos], base) == []
  {
    var all := h.All();
    forall i | 0 <= i < pos ensures all[..pos][i].id <= base {
      assert all[pos - 1] == h.log[pos - 1];
    }
    AfterNone(all[..pos], base);
  }

  lemma ResyncKeepsInv(h: Hub, s: Stream, id: nat)
    requires HubInv(h) && s.pos <= |h.log| && s.last < id && s.replay == []
    ensures StreamInv(h, Deliver(h, s, Resync(id)))
  {
    var r := Deliver(h, s, Resync(id));
    CoveredBelowTop(h, s.pos, r.base);
    assert Since(r.delivered) == [];
    assert r.replay == Lives([]);
    assert h.log <= h.All();
    assert Since(r.delivered) + [] == After(h.All()[..Covered(r)], r.base);
    assert FlowInv(h, r) && CursorInv(h, r);
  }

  lemma SinceAppends(items: seq<Item>, event: Event)
    ensures Since(items + [Live(event)]) == Since(items) + [event]
  {
    assert (items + [Live(event)])[..|items|] == items;
  }

  lemma CoveredIsOrdered(h: Hub, s: Stream)
    requires HubInv(h) && s.pos <= |h.log| && FlowInv(h, s)
    ensures var covered := h.All()[..Covered(s)];
      Increasing(After(covered, s.base)) && forall e :: e in After(covered, s.base) <==> e in covered && e.id > s.base
  {
    AfterIsOrdered(h.All()[..Covered(s)], s.base);
  }

  /** Before anything is sent the base bounds the cursor; afterwards the last event sent does. */
  lemma CursorBelow(since: seq<Event>, rest: seq<Event>, base: nat, last: nat)
    requires Increasing(since + rest) && rest != []
    requires forall e :: e in since + rest ==> e.id > base
    requires last <= LastId(since, base)
    ensures last < rest[0].id && base < rest[0].id
  {
    var both := since + rest;
    assert both[|since|] == rest[0];
    if since != [] {
      assert both[|since| - 1] == since[|since| - 1];
    }
  }

  lemma SentKeepsFlow(h: Hub, s: Stream, rest: seq<Event>)
    requires s.pos <= |h.log| && Covered(s) <= |h.All()| && rest != [] && s.replay == Lives(rest)
    requires Since(s.delivered) + rest == After(h.All()[..Covered(s)], s.base)
    ensures FlowInv(h, s.(replay := s.replay[1..], delivered := s.delivered + [s.replay[0]], last := rest[0].id))
  {
    var since := Since(s.delivered);
    SinceAppends(s.delivered, rest[0]);
    assert (since + [rest[0]]) + rest[1..] == since + rest;
    assert s.replay[1..] == Lives(rest[1..]);
  }

  /** A replayed event lies above the cursor, so it is always sent. */
  lemma ReplayedKeepsInv(h: Hub, s: Stream)
    requires HubInv(h) && s.pos <= |h.log| && FlowInv(h, s) && CursorInv(h, s) && s.replay != []
    ensures FlowInv(h, Pull(h, s)) && CursorInv(h, Pull(h, s))
    ensures s.replay[0].Live? && Pull(h, s).delivered == s.delivered + [s.replay[0]]
  {
    var rest: seq<Event> :| s.replay == Lives(rest) && Since(s.delivered) + rest == After(h.All()[..Covered(s)], s.base);
    CoveredIsOrdered(h, s);
    CursorBelow(Since(s.delivered), rest, s.base, s.last);
    SentKeepsFlow(h, s, rest);
    SinceAppends(s.delivered, rest[0]);
    assert Pull(h, s) == s.(replay := s.replay[1..], delivered := s.delivered + [s.replay[0]], last := rest[0].id);
  }

  lemma DrainedIsExact(h: Hub, s: Stream)
    requires s.pos <= |h.log| && FlowInv(h, s) && s.replay == []
    ensures Since(s.delivered) == After(h.All()[..Covered(s)], s.base)
  {
    var rest: seq<Event> :| s.replay == Lives(rest) && Since(s.delivered) + rest == After(h.All()[..Covered(s)], s.base);
    assert Since(s.delivered) + rest == Since(s.delivered);
  }

  /** An event the replay covered is not above the cursor. */
  lemma ReplayedIsBelowCursor(h: Hub, s: Stream)
    requires HubInv(h) && s.pos < |h.log| && FlowInv(h, s) && CursorInv(h, s) && s.replay == []
    requires s.pos < s.seen
    ensures h.All()[s.pos].id <= s.last
  {
    var event, covered := h.All()[s.pos], h.All()[..Covered(s)];
    var since := Since(s.delivered);
    DrainedIsExact(h, s);
    CoveredIsOrdered(h, s);
    TopGrows(h, s.pos);
    LogWithinAll(h);
    assert covered[s.pos] == event;
    if event.id > s.base {
      assert event in since;
    }
  }

  /** An event beyond the replay is above everything sent. */
  lemma NewIsAboveSent(h: Hub, s: Stream)
    requires HubInv(h) && s.pos < |h.log| && FlowInv(h, s) && CursorInv(h, s) && s.replay == []
    requires s.pos >= s.seen
    ensures h.All()[s.pos].id > s.last <==> h.All()[s.pos].id > s.base
  {
    var all, since := h.All(), Since(s.delivered);
    DrainedIsExact(h, s);
    CoveredIsOrdered(h, s);
    LogWithinAll(h);
    if since != [] {
      assert since[|since| - 1] in all[..s.pos];
    }
  }

  /** With the replay used up, a live event is above the cursor exactly when it is new and above the base. */
  lemma CursorDecides(h: Hub, s: Stream)
    requires HubInv(h) && s.pos < |h.log| && FlowInv(h, s) && CursorInv(h, s) && s.replay == []
    ensures Since(s.delivered) == After(h.All()[..Covered(s)], s.base)
    ensures h.log[s.pos] == h.All()[s.pos]
    ensures h.log[s.pos].id > s.last <==> s.pos >= s.seen && h.log[s.pos].id > s.base
  {
    DrainedIsExact(h, s);
    LogWithinAll(h);
    if s.pos < s.seen {
      ReplayedIsBelowCursor(h, s);
    } else {
      NewIsAboveSent(h, s);
    }
  }

  lemma DrainedFlow(h: Hub, s: Stream)
    requires s.pos <= |h.log| && Covered(s) <= |h.All()| && s.replay == []
    requires Since(s.delivered) == After(h.All()[..Covered(s)], s.base)
    ensures FlowInv(h, s)
  {
    assert s.replay == Lives([]);
    assert Since(s.delivered) + [] == Since(s.delivered);
  }

  lemma TopGrows(h: Hub, pos: nat)
    requires HubInv(h) && pos < |h.log|
    ensures TopId(h.log, pos) <= TopId(h.log, pos + 1)
  {
    assert h.log <= h.All();
    assert pos > 0 ==> h.All()[pos - 1] == h.log[pos - 1] && h.All()[pos] == h.log[pos];
  }

  lemma SkippedKeepsInv(h: Hub, s: Stream)
    requires HubInv(h) && s.pos < |h.log| && FlowInv(h, s) && CursorInv(h, s) && s.replay == []
    requires h.log[s.pos].id <= s.last
    ensures var r := s.(pos := s.pos + 1); FlowInv(h, r) && CursorInv(h, r)
  {
    CursorDecides(h, s);
    TopGrows(h, s.pos);
    if s.pos >= s.seen {
      AfterOneMore(h.All(), s.pos, s.base);
    }
    DrainedFlow(h, s.(pos := s.pos + 1));
  }

  lemma SentKeepsInv(h: Hub, s: Stream)
    requires HubInv(h) && s.pos < |h.log| && FlowInv(h, s) && CursorInv(h, s) && s.replay == []
    requires h.log[s.pos].id > s.last
    ensures var event := h.log[s.pos];
      var r := s.(pos := s.pos + 1, last := event.id, delivered := s.delivered + [Live(event)]);
      FlowInv(h, r) && CursorInv(h, r)
  {
    var event := h.log[s.pos];
    CursorDecides(h, s);
    AfterOneMore(h.All(), s.pos, s.base);
    SinceAppends(s.delivered, event);
    DrainedFlow(h, s.(pos := s.pos + 1, last := event.id, delivered := s.delivered + [Live(event)]));
  }

  /** A live event is sent exactly when the replay has not covered it and it lies above the base. */
  lemma MessageKeepsInv(h: Hub, s: Stream)
    requires HubInv(h) && s.pos < |h.log| && FlowInv(h, s) && CursorInv(h, s) && s.replay == []
    requires !Lags(h, s)
    ensures FlowInv(h, Pull(h, s)) && CursorInv(h, Pull(h, s))
  {
    if h.log[s.pos].id <= s.last {
      SkippedKeepsInv(h, s);
    } else {
      SentKeepsInv(h, s);
    }
  }

  lemma PendingKeepsInv(h: Hub, s: Stream)
    requires HubInv(h) && s.pos <= |h.log| && ResyncPending(h, s)
    ensures StreamInv(h, Pull(h, s))
  {
    var id: nat :| s.replay == [Resync(id)] && s.last < id <= h.nextId && TopId(h.log, s.pos) < id;
    assert s.replay[1..] == [];
    ResyncKeepsInv(h, s.(replay := []), id);
  }

  lemma PullKeepsInv(h: Hub, s: Stream)
    requires HubInv(h) && StreamInv(h, s)
    ensures StreamInv(h, Pull(h, s))
  {
    if ResyncPending(h, s) {
      PendingKeepsInv(h, s);
    } else if s.replay != [] {
      ReplayedKeepsInv(h, s);
    } else if s.pos < |h.log| {
      LiveKeepsInv(h, s);
    }
  }

  lemma LiveKeepsInv(h: Hub, s: Stream)
    requires HubInv(h) && s.pos < |h.log| && FlowInv(h, s) && CursorInv(h, s) && s.replay == []
    ensures StreamInv(h, Pull(h, s))
  {
    if Lags(h, s) {
      ResyncKeepsInv(h, s.(pos := |h.log| - RING_CAPACITY), s.last + 1);
    } else {
      MessageKeepsInv(h, s);
    }
  }

  lemma ReadingKeepsInv(s: System)
    requires Inv(s)
    ensures Inv(Step(s, DoPull)) && Inv(Step(s, DoBegin)) && Inv(Step(s, DoReplay))
  {
    match s.subscriber {
      case Registered(_, _, _) => ReplayKeepsInv(s.hub, s.subscriber);
      case Replayed(_, _, _, _, _, _) => BeginKeepsInv(s.hub, s.subscriber);
      case Active(stream) => PullKeepsInv(s.hub, stream);
      case Absent =>
    }
  }

  lemma PublishingKeepsInv(s: System, a: Action)
    requires Inv(s)
    ensures Inv(System(HubStep(s.hub, a), s.subscriber))
  {
    HubStepKeepsHub(s.hub, a);
    HubGrowthKeepsSubscriber(s.hub, HubStep(s.hub, a), s.subscriber);
  }

  lemma StepKeepsInv(s: System, a: Action)
    requires Inv(s)
    ensures Inv(Step(s, a))
  {
    if a.DoPull? || a.DoBegin? || a.DoReplay? {
      ReadingKeepsInv(s);
    } else if !a.DoRegister? {
      PublishingKeepsInv(s, a);
    }
  }

  lemma {:induction false} RunKeepsInv(s: System, actions: seq<Action>)
    requires Inv(s)
    ensures Inv(Run(s, actions))
    decreases |actions|
  {
    if actions != [] {
      StepKeepsInv(s, actions[0]);
      RunKeepsInv(Step(s, actions[0]), actions[1..]);
    }
  }

  // ---------- What a subscriber is promised ----------

  ghost predicate SentInOrder(s: Stream) {
    && (forall i, j :: 0 <= i < j < |s.delivered| ==> s.delivered[i].Id() < s.delivered[j].Id())
    && (forall i :: 0 <= i < |s.delivered| ==> s.delivered[i].Id() <= s.last)
  }

  ghost predicate Unbroken(items: seq<Item>) {
    forall i :: 0 <= i < |items| ==> items[i].Live?
  }

  /** Until a resync is sent or about to be, the view starts where the client resumed. */
  ghost predicate OriginInv(s: Stream) {
    Unbroken(s.delivered) && Unbroken(s.replay) ==> s.base == s.origin
  }

  ghost predicate HistoryInv(s: System) {
    s.subscriber.Active? ==> SentInOrder(s.subscriber.stream) && OriginInv(s.subscriber.stream)
  }

  lemma UnbrokenSplits(items: seq<Item>, item: Item)
    ensures Unbroken(items + [item]) <==> Unbroken(items) && item.Live?
  {
    var both := items + [item];
    assert both[|items|] == item;
    assert forall i :: 0 <= i < |items| ==> both[i] == items[i];
  }

  lemma DeliverKeepsHistory(h: Hub, s: Stream, item: Item)
    requires s.pos <= |h.log| && SentInOrder(s)
    requires item.Resync? ==> item.at > s.last
    requires Unbroken(s.delivered) && Unbroken(s.replay) && item.Live? ==> s.base == s.origin
    ensures SentInOrder(Deliver(h, s, item)) && OriginInv(Deliver(h, s, item))
  {
    var r := Deliver(h, s, item);
    if item.Id() > s.last {
      UnbrokenSplits(s.delivered, item);
      assert r.replay == s.replay && r.origin == s.origin;
    }
  }

  lemma StepKeepsHistory(s: System, a: Action)
    requires Inv(s) && HistoryInv(s)
    ensures HistoryInv(Step(s, a))
  {
    if a.DoPull? && s.subscriber.Active? && s.subscriber.stream.pos <= |s.hub.log| {
      PullKeepsHistory(s.hub, s.subscriber.stream);
    }
  }

  lemma ResyncIsAboveCursor(h: Hub, s: Stream)
    requires StreamInv(h, s) && s.replay != [] && s.replay[0].Resync?
    ensures s.replay[0].at > s.last
  {
  }

  lemma PullKeepsHistory(h: Hub, s: Stream)
    requires StreamInv(h, s) && SentInOrder(s) && OriginInv(s)
    ensures SentInOrder(Pull(h, s)) && OriginInv(Pull(h, s))
  {
    if s.replay != [] {
      ReplayKeepsHistory(h, s);
    } else if s.pos < |h.log| {
      var (received, pos) := Receive(h, s.pos);
      var item := if received.Lagged? then Resync(s.last + 1) else Live(received.event);
      DeliverKeepsHistory(h, s.(pos := pos), item);
    }
  }

  lemma ReplayKeepsHistory(h: Hub, s: Stream)
    requires StreamInv(h, s) && SentInOrder(s) && OriginInv(s) && s.replay != []
    ensures SentInOrder(Pull(h, s)) && OriginInv(Pull(h, s))
  {
    var rest := s.(replay := s.replay[1..]);
    assert s.replay == [s.replay[0]] + rest.replay;
    assert Unbroken(rest.replay) && s.replay[0].Live? ==> Unbroken(s.replay);
    if s.replay[0].Resync? {
      ResyncIsAboveCursor(h, s);
    }
    DeliverKeepsHistory(h, rest, s.replay[0]);
  }

  lemma {:induction false} RunKeepsHistory(s: System, actions: seq<Action>)
    requires Inv(s) && HistoryInv(s)
    ensures HistoryInv(Run(s, actions))
    decreases |actions|
  {
    if actions != [] {
      StepKeepsInv(s, actions[0]);
      StepKeepsHistory(s, actions[0]);
      RunKeepsHistory(Step(s, actions[0]), actions[1..]);
    }
  }

  predicate CaughtUp(h: Hub, s: Stream) {
    s.replay == [] && s.pos == |h.log|
  }

  /** In every run, for every interleaving: what a client is sent has strictly increasing ids. */
  lemma DeliveredIdsIncrease(actions: seq<Action>)
    ensures var s := Run(START, actions);
      s.subscriber.Active? ==> SentInOrder(s.subscriber.stream)
  {
    StartHolds();
    RunKeepsHistory(START, actions);
  }

  /**
   In every run, what a client has been sent since its last resync is a prefix of the events above
   its base, with none missing and none twice; once it has caught up, it is all of those broadcast
   (and possibly the one already in the ring whose broadcast is still to come).
   */
  lemma NoGapNoRepeat(actions: seq<Action>)
    requires Run(START, actions).subscriber.Active?
    ensures var r := Run(START, actions);
      WithoutGaps(r.hub, r.subscriber.stream)
  {
    var r := Run(START, actions);
    StartHolds();
    RunKeepsInv(START, actions);
    SinceIsPrefix(r.hub, r.subscriber.stream);
  }

  ghost predicate WithoutGaps(h: Hub, s: Stream) {
    && Since(s.delivered) <= After(h.All(), s.base)
    && (CaughtUp(h, s) ==> After(h.log, s.base) <= Since(s.delivered))
  }

  lemma StartHolds()
    ensures Inv(START) && HistoryInv(START) && BaseIssued(START)
  {
  }

  lemma AfterOfPrefix(events: seq<Event>, n: nat, id: nat)
    requires n <= |events|
    ensures After(events[..n], id) <= After(events, id)
  {
    AfterAppend(events[..n], events[n..], id);
    assert events == events[..n] + events[n..];
  }

  lemma SinceIsPrefix(h: Hub, s: Stream)
    requires HubInv(h) && StreamInv(h, s)
    ensures WithoutGaps(h, s)
  {
    if !ResyncPending(h, s) {
      var all, since, n := h.All(), Since(s.delivered), Covered(s);
      var rest: seq<Event> :| s.replay == Lives(rest) && since + rest == After(all[..n], s.base);
      AfterOfPrefix(all, n, s.base);
      if CaughtUp(h, s) {
        assert since + rest == since;
        assert all[..n][..|h.log|] == h.log;
        AfterOfPrefix(all[..n], |h.log|, s.base);
      }
    }
  }

  ghost predicate ResumedFrom(s: Subscriber, id: nat) {
    match s
    case Absent => false
    case Registered(start, _, _) => start == Some(id)
    case Replayed(start, _, _, _, _, _) => start == Some(id)
    case Active(stream) => stream.origin == id
  }

  lemma {:induction false} RunKeepsResumed(s: System, actions: seq<Action>, id: nat)
    requires ResumedFrom(s.subscriber, id)
    ensures ResumedFrom(Run(s, actions).subscriber, id)
    decreases |actions|
  {
    if actions != [] {
      RunKeepsResumed(Step(s, actions[0]), actions[1..], id);
    }
  }

  lemma {:induction false} RunOfConcat(s: System, a: seq<Action>, b: seq<Action>)
    ensures Run(s, a + b) == Run(Run(s, a), b)
    decreases |a|
  {
    if a == [] {
      assert a + b == b;
    } else {
      assert (a + b)[1..] == a[1..] + b;
      RunOfConcat(Step(s, a[0]), a[1..], b);
    }
  }

  /**
   A client that resumed from an id, was never told to reload and has caught up was sent every event
   after that id exactly once, in order, and nothing else; whatever happened before it connected and
   however the publisher's steps fell between its own.
   */
  lemma ResumingMissesNothing(before: seq<Action>, id: nat, rest: seq<Action>)
    requires Run(START, before).subscriber.Absent?
    requires var System(h, sub) := Run(Step(Run(START, before), DoRegister(Some(id))), rest);
      sub.Active? && Unbroken(sub.stream.delivered) && CaughtUp(h, sub.stream) && !h.publishing.Pushed?
    ensures var System(h, sub) := Run(Step(Run(START, before), DoRegister(Some(id))), rest);
      sub.Active? && sub.stream.delivered == Lives(After(h.log, id))
  {
    var s := Run(START, before);
    var resumed := [DoRegister(Some(id))] + rest;
    RunOfConcat(START, before, resumed);
    RunFromFirst(s, DoRegister(Some(id)), rest);
    RunKeepsResumed(Step(s, DoRegister(Some(id))), rest, id);
    CaughtUpUnbroken(before + resumed);
  }

  lemma RunFromFirst(s: System, a: Action, rest: seq<Action>)
    ensures Run(s, [a] + rest) == Run(Step(s, a), rest)
  {
    assert ([a] + rest)[1..] == rest;
  }

  lemma CaughtUpUnbroken(actions: seq<Action>)
    requires var System(h, sub) := Run(START, actions);
      sub.Active? && Unbroken(sub.stream.delivered) && CaughtUp(h, sub.stream) && !h.publishing.Pushed?
    ensures var System(h, sub) := Run(START, actions);
      sub.Active? && sub.stream.delivered == Lives(After(h.log, sub.stream.origin))
  {
    StartHolds();
    RunKeepsHistory(START, actions);
    NoGapNoRepeat(actions);
    UnbrokenIsLives(Run(START, actions).subscriber.stream.delivered);
  }

  lemma {:induction false} UnbrokenIsLives(items: seq<Item>)
    requires Unbroken(items)
    ensures items == Lives(Since(items))
  {
    if items != [] {
      UnbrokenIsLives(items[..|items| - 1]);
    }
  }

  // ---------- When a resuming client is told to reload ----------

  /** Whether one of the 512 events pushed last is the one after this id, or there is none to miss. */
  predicate Reaches(all: seq<Event>, id: nat) {
    all == [] || all[if |all| > 512 then |all| - 512 else 0].id <= id + 1
  }

  /** From a ring that holds the last 512 events: what is replayed, and exactly when the cursor has expired. */
  lemma ReplayIsExact(h: Hub, id: nat)
    requires HubInv(h)
    ensures ReplayAfter(h.ring, Some(id)).1 <==> !Reaches(h.All(), id)
    ensures Reaches(h.All(), id) ==> ReplayAfter(h.ring, Some(id)).0 == After(h.All(), id)
  {
    var all := h.All();
    if all != [] {
      assert h.ring[0] == all[SaturatingSub(|all|, RING_CAPACITY)];
    }
    if Reaches(all, id) {
      RingAnswers(all, id);
    }
  }

  /** What was read of the ring is what it answered then. */
  ghost predicate ReadExactly(s: System) {
    s.subscriber.Replayed? ==>
      var Replayed(start, _, _, items, expired, seen) := s.subscriber;
      && seen <= |s.hub.All()|
      && (start.None? ==> items == [] && !expired)
      && (start.Some? ==>
            && (expired <==> !Reaches(s.hub.All()[..seen], start.value))
            && (!expired ==> items == After(s.hub.All()[..seen], start.value)))
  }

  lemma ReadingIsExact(h: Hub, s: Subscriber)
    requires HubInv(h) && s.Registered?
    ensures ReadExactly(System(h, Replay(h, s)))
  {
    assert h.All()[..|h.All()|] == h.All();
    if s.start.Some? {
      ReplayIsExact(h, s.start.value);
    }
  }

  lemma GrowthKeepsReading(h: Hub, h': Hub, s: Subscriber)
    requires ReadExactly(System(h, s)) && h.All() <= h'.All()
    ensures ReadExactly(System(h', s))
  {
    if s.Replayed? {
      assert h'.All()[..s.seen] == h.All()[..s.seen];
    }
  }

  lemma StepReadsExactly(s: System, a: Action)
    requires Inv(s) && ReadExactly(s)
    ensures ReadExactly(Step(s, a))
  {
    if a.DoReplay? && s.subscriber.Registered? {
      ReadingIsExact(s.hub, s.subscriber);
    } else {
      HubStepKeepsHub(s.hub, a);
      GrowthKeepsReading(s.hub, HubStep(s.hub, a), s.subscriber);
    }
  }

  lemma {:induction false} RunReadsExactly(s: System, actions: seq<Action>)
    requires Inv(s) && ReadExactly(s)
    ensures ReadExactly(Run(s, actions))
    decreases |actions|
  {
    if actions != [] {
      StepKeepsInv(s, actions[0]);
      StepReadsExactly(s, actions[0]);
      RunReadsExactly(Step(s, actions[0]), actions[1..]);
    }
  }

  /**
   In every run, a stream begins with a request to reload exactly when the client resumed from an id
   whose next event was no longer among the last 512 when the ring was read, and with all events
   after its id otherwise; a client that resumes from nothing gets neither.
   */
  lemma StreamBeginsExactly(actions: seq<Action>)
    requires Run(START, actions).subscriber.Replayed?
    ensures var r := Run(START, actions);
      var next := Step(r, DoBegin);
      var Replayed(start, pos, _, _, _, seen) := r.subscriber;
      && pos <= seen <= |r.hub.All()|
      && next.subscriber.Active? && next.subscriber.stream.delivered == [] && next.subscriber.stream.pos == pos
      && if start.Some? && !Reaches(r.hub.All()[..seen], start.value) then
           && next.subscriber.stream.replay == [Resync(r.hub.nextId + 1)]
           && next.hub == r.hub.(nextId := r.hub.nextId + 1)
         else
           && next.subscriber.stream.replay ==
                Lives(if start.Some? then After(r.hub.All()[..seen], start.value) else [])
           && next.hub == r.hub
  {
    StartHolds();
    RunKeepsInv(START, actions);
    RunReadsExactly(START, actions);
  }

  /** Connecting in one go: the ring is read as it stands. */
  lemma ConnectingReadsTheRing(actions: seq<Action>, id: nat)
    requires Run(START, actions).subscriber.Absent?
    ensures var r := Run(START, actions);
      var next := Step(Step(Step(r, DoRegister(Some(id))), DoReplay), DoBegin);
      next.subscriber.Active? && next.subscriber.stream.last == id &&
      next.subscriber.stream.replay ==
        if Reaches(r.hub.All(), id) then Lives(After(r.hub.All(), id)) else [Resync(r.hub.nextId + 1)]
  {
    StartHolds();
    RunKeepsInv(START, actions);
    ReplayIsExact(Run(START, actions).hub, id);
  }

  /** Nothing replayed, and nothing sent but what was broadcast from position p on. */
  ghost predicate OnlyFrom(s: System, p: nat) {
    match s.subscriber
    case Absent => false
    case Registered(start, pos, _) => start.None? && p <= pos
    case Replayed(start, pos, _, items, expired, _) => start.None? && p <= pos && items == [] && !expired
    case Active(stream) =>
      && stream.replay == [] && p <= stream.pos
      && forall i :: 0 <= i < |stream.delivered| && stream.delivered[i].Live? ==>
           stream.delivered[i].event in s.hub.log[if p <= |s.hub.log| then p else |s.hub.log|..]
  }

  lemma LaterStays(log: seq<Event>, log': seq<Event>, p: nat, e: Event)
    requires p <= |log| && log <= log' && e in log[p..]
    ensures e in log'[p..]
  {
    var i :| 0 <= i < |log[p..]| && log[p..][i] == e;
    assert log'[p..][i] == e;
  }

  lemma PullsFrom(h: Hub, s: Stream, p: nat)
    requires p <= s.pos <= |h.log| && s.replay == []
    requires forall i :: 0 <= i < |s.delivered| && s.delivered[i].Live? ==> s.delivered[i].event in h.log[p..]
    ensures var r := Pull(h, s);
      && r.replay == [] && p <= r.pos
      && forall i :: 0 <= i < |r.delivered| && r.delivered[i].Live? ==> r.delivered[i].event in h.log[p..]
  {
    if s.pos < |h.log| {
      assert h.log[p..][s.pos - p] == h.log[s.pos];
    }
  }

  lemma StepKeepsFrom(s: System, a: Action, p: nat)
    requires Inv(s) && OnlyFrom(s, p) && p <= |s.hub.log|
    ensures OnlyFrom(Step(s, a), p) && p <= |Step(s, a).hub.log|
  {
    HubStepKeepsHub(s.hub, a);
    if s.subscriber.Active? {
      var stream := s.subscriber.stream;
      if a.DoPull? {
        PullsFrom(s.hub, stream, p);
      } else {
        forall i | 0 <= i < |stream.delivered| && stream.delivered[i].Live?
          ensures stream.delivered[i].event in Step(s, a).hub.log[p..]
        {
          LaterStays(s.hub.log, Step(s, a).hub.log, p, stream.delivered[i].event);
        }
      }
    }
  }

  lemma {:induction false} RunKeepsFrom(s: System, actions: seq<Action>, p: nat)
    requires Inv(s) && OnlyFrom(s, p) && p <= |s.hub.log|
    ensures OnlyFrom(Run(s, actions), p)
    decreases |actions|
  {
    if actions != [] {
      StepKeepsInv(s, actions[0]);
      StepKeepsFrom(s, actions[0], p);
      RunKeepsFrom(Step(s, actions[0]), actions[1..], p);
    }
  }

  /** A client that resumes from nothing is sent only events that were broadcast after it connected. */
  lemma NewClientSeesOnlyLater(before: seq<Action>, rest: seq<Action>, e: Event)
    requires Run(START, before).subscriber.Absent? && e in Run(START, before).hub.log
    ensures var r := Run(Step(Run(START, before), DoRegister(None)), rest);
      r.subscriber.Active? ==> Live(e) !in r.subscriber.stream.delivered
  {
    var s := Run(START, before);
    var p := |s.hub.log|;
    var next := Step(s, DoRegister(None));
    StartHolds();
    RunKeepsInv(START, before);
    StepKeepsInv(s, DoRegister(None));
    RunKeepsFrom(next, rest, p);
    RunKeepsInv(next, rest);
    RunExtends(next, rest);
    NotAgain(s.hub.log, Run(next, rest).hub, e);
  }

  lemma StepExtends(s: System, a: Action)
    ensures s.hub.log <= Step(s, a).hub.log
  {
  }

  lemma {:induction false} RunExtends(s: System, actions: seq<Action>)
    ensures s.hub.log <= Run(s, actions).hub.log
    decreases |actions|
  {
    if actions != [] {
      var next := Step(s, actions[0]);
      StepExtends(s, actions[0]);
      RunExtends(next, actions[1..]);
      assert s.hub.log <= next.hub.log <= Run(next, actions[1..]).hub.log;
    }
  }

  /** Ids increase along the log, so no event comes twice in it. */
  lemma NotAgain(log: seq<Event>, h: Hub, e: Event)
    requires HubInv(h) && log <= h.log && e in log
    ensures e !in h.log[|log|..]
  {
    LogIsIncreasing(h);
    var i :| 0 <= i < |log| && log[i] == e;
    assert h.log[i] == e;
    forall j | 0 <= j < |h.log[|log|..]|
      ensures h.log[|log|..][j] != e
    {
      assert h.log[|log|..][j] == h.log[|log| + j];
    }
  }

  /** One turn of the loop: the replay first; behind by more than 512 events, a request to reload. */
  lemma TurnIsExact(h: Hub, s: Stream)
    requires s.pos <= |h.log|
    ensures var r := Pull(h, s);
      if s.replay != [] then
        r.replay == s.replay[1..] && r.pos == s.pos &&
        r.delivered == s.delivered + if s.replay[0].Id() > s.last then [s.replay[0]] else []
      else if s.pos == |h.log| then r == s
      else if |h.log| > s.pos + 512 then
        r.replay == [] && r.pos == |h.log| - 512 && r.delivered == s.delivered + [Resync(s.last + 1)]
      else
        r.replay == [] && r.pos == s.pos + 1 &&
        r.delivered == s.delivered + if h.log[s.pos].id > s.last then [Live(h.log[s.pos])] else []
    ensures Pull(h, s).last == if |Pull(h, s).delivered| > |s.delivered| then
              Pull(h, s).delivered[|s.delivered|].Id() else s.last
  {
  }

  // ---------- What a reload promises, and when it does not ----------

  /** The one step that breaks the promise: a lag when the cursor already stands at the newest id. */
  predicate Collides(s: System, a: Action) {
    && a.DoPull? && s.subscriber.Active? && Lags(s.hub, s.subscriber.stream)
    && s.subscriber.stream.last >= s.hub.nextId
  }

  predicate ResumesFromForeignId(s: System, a: Action) {
    a.DoRegister? && a.start.Some? && a.start.value > s.hub.nextId
  }

  predicate Orderly(s: System, actions: seq<Action>)
    decreases |actions|
  {
    actions == [] ||
    (!Collides(s, actions[0]) && !ResumesFromForeignId(s, actions[0]) && Orderly(Step(s, actions[0]), actions[1..]))
  }

  /** The client's view starts from an id that had been issued when that view was fixed. */
  ghost predicate BaseIssued(s: System) {
    var h := s.hub;
    match s.subscriber
    case Absent => true
    case Registered(start, pos, issued) =>
      pos <= |h.log| && issued <= h.nextId && TopId(h.log, pos) <= issued && (start.Some? ==> start.value <= issued)
    case Replayed(start, pos, issued, _, _, _) =>
      pos <= |h.log| && issued <= h.nextId && TopId(h.log, pos) <= issued && (start.Some? ==> start.value <= issued)
    case Active(stream) =>
      && stream.base <= stream.issued <= h.nextId
      && stream.last <= h.nextId
  }

  /**
   A lagging client is told to reload under the id after its cursor. Every event allocated from then
   on lies above its new base exactly when the cursor was still below the newest id issued.
   */
  lemma LagIsSafeIff(h: Hub, s: Stream)
    requires HubInv(h) && s.pos <= |h.log| && Lags(h, s)
    ensures Pull(h, s).delivered == s.delivered + [Resync(s.last + 1)]
    ensures Pull(h, s).issued == h.nextId
    ensures Pull(h, s).base <= h.nextId <==> s.last < h.nextId
  {
    TopIsIssued(h, |h.log| - RING_CAPACITY);
  }

  lemma PullKeepsBase(h: Hub, s: Stream)
    requires HubInv(h) && StreamInv(h, s) && s.base <= s.issued <= h.nextId && s.last <= h.nextId
    requires !(Lags(h, s) && s.last >= h.nextId)
    ensures var r := Pull(h, s); r.base <= r.issued <= h.nextId && r.last <= h.nextId
  {
    if Lags(h, s) {
      LagIsSafeIff(h, s);
    } else if ResyncPending(h, s) {
      TopIsIssued(h, s.pos);
    } else if s.replay != [] {
      var rest: seq<Event> :|
        s.replay == Lives(rest) && Since(s.delivered) + rest == After(h.All()[..Covered(s)], s.base);
      CoveredIsOrdered(h, s);
      assert (Since(s.delivered) + rest)[|Since(s.delivered)|] == rest[0];
      assert rest[0] in h.All();
    } else if s.pos < |h.log| {
      assert h.All()[s.pos] == h.log[s.pos];
    }
  }

  lemma StepKeepsBase(s: System, a: Action)
    requires Inv(s) && BaseIssued(s) && !Collides(s, a) && !ResumesFromForeignId(s, a)
    ensures BaseIssued(Step(s, a))
  {
    var System(h, sub) := s;
    match a {
      case DoRegister(_) => TopIsIssued(h, |h.log|);
      case DoReplay =>
      case DoBegin =>
      case DoPull => if sub.Active? { PullKeepsBase(h, sub.stream); }
      case _ => HubStepKeepsHub(h, a);
    }
  }

  lemma {:induction false} RunKeepsBase(s: System, actions: seq<Action>)
    requires Inv(s) && BaseIssued(s) && Orderly(s, actions)
    ensures BaseIssued(Run(s, actions))
    decreases |actions|
  {
    if actions != [] {
      StepKeepsInv(s, actions[0]);
      StepKeepsBase(s, actions[0]);
      RunKeepsBase(Step(s, actions[0]), actions[1..]);
    }
  }

  /**
   A client resuming from an id this hub issued, and never lagging with its cursor at the newest id,
   is sent every event whose id was allocated after it connected or was last told to reload.
   */
  lemma EveryLaterEventArrives(actions: seq<Action>)
    requires Orderly(START, actions)
    requires Run(START, actions).subscriber.Active?
    ensures var r := Run(START, actions);
      CaughtUp(r.hub, r.subscriber.stream) ==>
        forall e :: e in r.hub.log && e.id > r.subscriber.stream.issued ==> e in Since(r.subscriber.stream.delivered)
  {
    StartHolds();
    RunKeepsInv(START, actions);
    RunKeepsBase(START, actions);
    LaterEventsWereSent(Run(START, actions).hub, Run(START, actions).subscriber.stream);
  }

  lemma LaterEventsWereSent(h: Hub, s: Stream)
    requires HubInv(h) && StreamInv(h, s) && s.base <= s.issued
    ensures CaughtUp(h, s) ==> forall e :: e in h.log && e.id > s.issued ==> e in Since(s.delivered)
  {
    SinceIsPrefix(h, s);
    LogIsIncreasing(h);
    AfterIsOrdered(h.log, s.base);
    PrefixHolds(After(h.log, s.base), Since(s.delivered));
  }

  lemma PrefixHolds(a: seq<Event>, b: seq<Event>)
    ensures a <= b ==> forall e :: e in a ==> e in b
  {
  }

  lemma LogIsIncreasing(h: Hub)
    requires HubInv(h)
    ensures Increasing(h.log)
  {
    LogWithinAll(h);
  }

  /** Conversely nothing at or below the base is sent while that base stands. */
  lemma BelowTheBaseIsNeverSent(actions: seq<Action>, e: Event)
    requires Run(START, actions).subscriber.Active?
    requires e.id <= Run(START, actions).subscriber.stream.base
    ensures e !in Since(Run(START, actions).subscriber.stream.delivered)
  {
    var r := Run(START, actions);
    StartHolds();
    RunKeepsInv(START, actions);
    SinceIsPrefix(r.hub, r.subscriber.stream);
    AfterIsOrdered(r.hub.All(), r.subscriber.stream.base);
    PrefixHolds(Since(r.subscriber.stream.delivered), After(r.hub.All(), r.subscriber.stream.base));
  }

  // ---------- What a colliding lag costs ----------

  /** Whatever was sent stays sent. */
  ghost predicate SendsMore(s: Subscriber, s': Subscriber) {
    s.Active? ==> s'.Active? && s.stream.delivered <= s'.stream.delivered
  }

  lemma {:induction false} RunSendsMore(s: System, actions: seq<Action>)
    ensures SendsMore(s.subscriber, Run(s, actions).subscriber)
    decreases |actions|
  {
    if actions != [] {
      RunSendsMore(Step(s, actions[0]), actions[1..]);
    }
  }

  /** Only issued ids are sent as events. */
  ghost predicate SentAreIssued(h: Hub, items: seq<Item>) {
    forall i :: 0 <= i < |items| && items[i].Live? ==> items[i].event.id <= h.nextId
  }

  ghost predicate OnlyIssued(s: System) {
    match s.subscriber
    case Replayed(_, _, _, items, _, _) => SentAreIssued(s.hub, Lives(items))
    case Active(stream) => SentAreIssued(s.hub, stream.replay) && SentAreIssued(s.hub, stream.delivered)
    case _ => true
  }

  lemma {:induction false} AfterWithin(events: seq<Event>, id: nat, bound: nat)
    requires IdsWithin(events, bound)
    ensures IdsWithin(After(events, id), bound)
  {
    if events != [] {
      AfterWithin(events[..|events| - 1], id, bound);
    }
  }

  lemma PullKeepsIssued(h: Hub, s: Stream)
    requires HubInv(h) && s.pos <= |h.log| && SentAreIssued(h, s.replay) && SentAreIssued(h, s.delivered)
    ensures SentAreIssued(h, Pull(h, s).replay) && SentAreIssued(h, Pull(h, s).delivered)
  {
    LogWithinAll(h);
  }

  lemma StepKeepsIssued(s: System, a: Action)
    requires Inv(s) && OnlyIssued(s)
    ensures OnlyIssued(Step(s, a))
  {
    match a {
      case DoReplay =>
        if s.subscriber.Registered? && s.subscriber.start.Some? {
          AfterWithin(s.hub.ring, s.subscriber.start.value, s.hub.nextId);
        }
      case DoPull => if s.subscriber.Active? { PullKeepsIssued(s.hub, s.subscriber.stream); }
      case DoBegin =>
      case DoRegister(_) =>
      case _ => HubStepKeepsHub(s.hub, a);
    }
  }

  lemma {:induction false} RunKeepsIssued(s: System, actions: seq<Action>)
    requires Inv(s) && OnlyIssued(s)
    ensures OnlyIssued(Run(s, actions))
    decreases |actions|
  {
    if actions != [] {
      StepKeepsInv(s, actions[0]);
      StepKeepsIssued(s, actions[0]);
      RunKeepsIssued(Step(s, actions[0]), actions[1..]);
    }
  }

  /** After a request to reload under an id, no event up to that id is sent unless it was sent before. */
  lemma PassedOver(was: seq<Item>, at: nat, now: seq<Item>, e: Event)
    requires was + [Resync(at)] <= now && Live(e) !in was && e.id <= at
    requires forall i, j :: 0 <= i < j < |now| ==> now[i].Id() < now[j].Id()
    ensures Live(e) !in now
  {
    assert now[|was|] == Resync(at);
    assert forall i :: 0 <= i < |was| ==> now[i] == was[i];
  }

  lemma NeverAfterTheReload(s: System, rest: seq<Action>, was: seq<Item>, at: nat, e: Event)
    requires Inv(s) && HistoryInv(s) && s.subscriber.Active?
    requires s.subscriber.stream.delivered == was + [Resync(at)] && Live(e) !in was && e.id <= at
    ensures Run(s, rest).subscriber.Active? && Live(e) !in Run(s, rest).subscriber.stream.delivered
  {
    RunKeepsHistory(s, rest);
    RunSendsMore(s, rest);
    PassedOver(was, at, Run(s, rest).subscriber.stream.delivered, e);
  }

  lemma CollidingStep(s: System, next: System, was: seq<Item>, e: Event)
    requires Inv(s) && HistoryInv(s) && OnlyIssued(s) && Collides(s, DoPull) && next == Step(s, DoPull)
    requires was == s.subscriber.stream.delivered && s.hub.nextId < e.id
    ensures Inv(next) && HistoryInv(next) && next.subscriber.Active?
    ensures next.subscriber.stream.delivered == was + [Resync(s.subscriber.stream.last + 1)]
    ensures Live(e) !in was
  {
    StepKeepsInv(s, DoPull);
    StepKeepsHistory(s, DoPull);
    LagIsSafeIff(s.hub, s.subscriber.stream);
  }

  /**
   A lag that collides takes the next id for its request to reload: the event that is then published
   under it is never sent, whatever happens afterwards.
   */
  lemma CollidingLosesTheNextEvent(s: System, before: seq<Action>, rest: seq<Action>, e: Event)
    requires s == Run(START, before) && Collides(s, DoPull)
    requires s.hub.nextId < e.id <= s.subscriber.stream.last + 1
    ensures var r := Run(Step(s, DoPull), rest);
      r.subscriber.Active? && Live(e) !in r.subscriber.stream.delivered
  {
    StartHolds();
    RunKeepsInv(START, before);
    RunKeepsHistory(START, before);
    RunKeepsIssued(START, before);
    var next, was := Step(s, DoPull), s.subscriber.stream.delivered;
    CollidingStep(s, next, was, e);
    NeverAfterTheReload(next, rest, was, s.subscriber.stream.last + 1, e);
  }

  // ---------- A run in which an event is lost ----------

  const PUBLISH := [DoAllocate(0), DoPush, DoBroadcast]

  function Repeat(actions: seq<Action>, count: nat): seq<Action> {
    if count == 0 then [] else actions + Repeat(actions, count - 1)
  }

  /** An idle hub that has broadcast exactly the events 1 to n. */
  ghost predicate Published(h: Hub, n: nat) {
    && HubInv(h) && h.publishing.Idle? && h.nextId == n && |h.log| == n
    && forall i :: 0 <= i < n ==> h.log[i].id == i + 1
  }

  lemma RunOfThree(s: System, a: Action, b: Action, c: Action)
    ensures Run(s, [a, b, c]) == Step(Step(Step(s, a), b), c)
  {
    assert [a, b, c][1..] == [b, c] && [b, c][1..] == [c] && [c][1..] == [];
    assert Run(Step(s, a), [b, c]) == Run(Step(Step(s, a), b), [c]);
  }

  lemma PublishOnce(s: System)
    requires HubInv(s.hub) && s.hub.publishing.Idle?
    ensures Run(s, PUBLISH).subscriber == s.subscriber
    ensures PublishedOneMore(s.hub, Run(s, PUBLISH).hub)
  {
    RunOfThree(s, DoAllocate(0), DoPush, DoBroadcast);
    HubStepKeepsHub(s.hub, DoAllocate(0));
    HubStepKeepsHub(HubStep(s.hub, DoAllocate(0)), DoPush);
    HubStepKeepsHub(HubStep(HubStep(s.hub, DoAllocate(0)), DoPush), DoBroadcast);
  }

  ghost predicate PublishedOneMore(h: Hub, h': Hub) {
    && HubInv(h') && h'.publishing.Idle?
    && h'.nextId == h.nextId + 1 && h'.log == h.log + [Event(h.nextId + 1, 0)]
  }

  lemma PublishedGrows(h: Hub, h': Hub, n: nat)
    requires Published(h, n) && PublishedOneMore(h, h')
    ensures Published(h', n + 1)
  {
  }

  lemma {:induction false} PublishMany(s: System, n: nat, count: nat)
    requires Published(s.hub, n)
    ensures Run(s, Repeat(PUBLISH, count)).subscriber == s.subscriber
    ensures Published(Run(s, Repeat(PUBLISH, count)).hub, n + count)
    decreases count
  {
    if count > 0 {
      var next := Run(s, PUBLISH);
      PublishOnce(s);
      PublishedGrows(s.hub, next.hub, n);
      RunOfConcat(s, PUBLISH, Repeat(PUBLISH, count - 1));
      PublishMany(next, n + 1, count - 1);
    }
  }

  /** Messages at or below the cursor are read and dropped. */
  lemma {:induction false} PullsSkip(s: System, count: nat)
    requires s.subscriber.Active? && s.subscriber.stream.replay == []
    requires s.subscriber.stream.pos + count == |s.hub.log| && count <= RING_CAPACITY
    requires forall i :: 0 <= i < |s.hub.log| ==> s.hub.log[i].id <= s.subscriber.stream.last
    ensures Run(s, Repeat([DoPull], count)) ==
            System(s.hub, Active(s.subscriber.stream.(pos := |s.hub.log|)))
    decreases count
  {
    if count > 0 {
      var next := Step(s, DoPull);
      assert next == System(s.hub, Active(s.subscriber.stream.(pos := s.subscriber.stream.pos + 1)));
      assert Repeat([DoPull], count)[1..] == Repeat([DoPull], count - 1);
      PullsSkip(next, count - 1);
    }
  }

  const CONNECT_AND_LAG := [DoReplay, DoBegin, DoPull, DoPull, DoPull]

  lemma ConnectsExpired(s: System, h: Hub)
    requires Published(s.hub, RING_CAPACITY + 2) && s.subscriber == Registered(Some(1), 1, 1)
    requires h == s.hub.(nextId := 515)
    ensures Step(Step(s, DoReplay), DoBegin) == System(h, Active(Stream([Resync(515)], 1, 1, [], 1, 1, 1, 0)))
  {
    assert s.hub.All() == s.hub.log && s.hub.ring[0] == s.hub.log[2];
    assert h.log[0].id == 1 && h.log[2].id == 3;
    var s1 := Step(s, DoReplay);
    assert s1.subscriber.expired && s1.subscriber.pos == 1;
  }

  /** The expired cursor becomes a resync 515, the lag a resync 516, and event 3 is skipped. */
  lemma ConnectingAfterABurst(s: System)
    requires Published(s.hub, RING_CAPACITY + 2) && s.subscriber == Registered(Some(1), 1, 1)
    ensures Run(s, CONNECT_AND_LAG) ==
            System(s.hub.(nextId := 515), Active(Stream([], 3, 516, [Resync(515), Resync(516)], 1, 516, 515, 0)))
  {
    var h := s.hub.(nextId := 515);
    ConnectsExpired(s, h);
    PullsTwoResyncs(h, System(h, Active(Stream([Resync(515)], 1, 1, [], 1, 1, 1, 0))));
    RunOfFive(s, DoReplay, DoBegin, DoPull, DoPull, DoPull);
  }

  lemma PullsTwoResyncs(h: Hub, s2: System)
    requires h.nextId == 515 && |h.log| == RING_CAPACITY + 2 && h.log[0].id == 1 && h.log[1].id == 2 && h.log[2].id == 3
    requires s2 == System(h, Active(Stream([Resync(515)], 1, 1, [], 1, 1, 1, 0)))
    ensures Step(Step(Step(s2, DoPull), DoPull), DoPull) ==
            System(h, Active(Stream([], 3, 516, [Resync(515), Resync(516)], 1, 516, 515, 0)))
  {
    var first, second := [Resync(515)], [Resync(516)];
    assert first[1..] == [] && [] + first == first && first + second == [Resync(515), Resync(516)];
    assert TopId(h.log, 1) == 1 && TopId(h.log, 2) == 2;
    var s3 := Step(s2, DoPull);
    assert s3 == System(h, Active(Stream([], 1, 515, [Resync(515)], 1, 515, 515, 0)));
    var s4 := Step(s3, DoPull);
    assert s4 == System(h, Active(Stream([], 2, 516, [Resync(515), Resync(516)], 1, 516, 515, 0)));
  }

  lemma RunOfFive(s: System, a: Action, b: Action, c: Action, d: Action, e: Action)
    ensures Run(s, [a, b, c, d, e]) == Step(Step(Step(Step(Step(s, a), b), c), d), e)
  {
    assert [a, b, c, d, e][1..] == [b, c, d, e] && [b, c, d, e][1..] == [c, d, e];
    assert Run(Step(s, a), [b, c, d, e]) == Run(Step(Step(s, a), b), [c, d, e]);
    RunOfThree(Step(Step(s, a), b), c, d, e);
  }

  /** One event, a client resuming from it, and a burst of 513 before it reads anything. */
  lemma Burst(burst: nat) returns (actions: seq<Action>)
    requires burst == RING_CAPACITY + 1
    ensures var System(h, sub) := Run(START, actions);
      Published(h, RING_CAPACITY + 2) && sub == Registered(Some(1), 1, 1)
  {
    PublishOnce(START);
    var s := Run(START, PUBLISH);
    var registered := Step(s, DoRegister(Some(1)));
    PublishMany(registered, 1, burst);
    RunFromFirst(s, DoRegister(Some(1)), Repeat(PUBLISH, burst));
    actions := [DoRegister(Some(1))] + Repeat(PUBLISH, burst);
    RunOfConcat(START, PUBLISH, actions);
    actions := PUBLISH + actions;
  }

  /** After the lag, one more event: the one whose id the resync already used. */
  lemma BurstThenLag() returns (actions: seq<Action>)
    ensures var System(h, sub) := Run(START, actions);
      && HubInv(h) && h.publishing.Idle? && h.nextId == 516 && |h.log| == 515 && h.log[514] == Event(516, 0)
      && sub == Active(Stream([], 3, 516, [Resync(515), Resync(516)], 1, 516, 515, 0))
  {
    actions := Burst(RING_CAPACITY + 1);
    var s := Run(START, actions);
    ConnectingAfterABurst(s);
    RunOfConcat(START, actions, CONNECT_AND_LAG);
    actions := actions + CONNECT_AND_LAG;
    PublishOnce(Run(START, actions));
    RunOfConcat(START, actions, PUBLISH);
    actions := actions + PUBLISH;
  }

  lemma LostAfterPulls(pulls: nat) returns (actions: seq<Action>)
    requires pulls == RING_CAPACITY
    ensures LosesAnEvent(Run(START, actions))
  {
    actions := BurstThenLag();
    var s := Run(START, actions);
    assert s.hub.All() == s.hub.log;
    PullsSkip(s, pulls);
    RunOfConcat(START, actions, Repeat([DoPull], pulls));
    actions := actions + Repeat([DoPull], pulls);
  }

  /** The client has read everything and was told to reload at id 515, yet never hears of event 516. */
  ghost predicate LosesAnEvent(s: System) {
    && s.subscriber.Active? && CaughtUp(s.hub, s.subscriber.stream) && s.subscriber.stream.issued == 515
    && Event(516, 0) in s.hub.log
    && s.subscriber.stream.delivered == [Resync(515), Resync(516)]
  }

  lemma AnEventCanBeLost()
    ensures exists actions :: LosesAnEvent(Run(START, actions))
  {
    var actions := LostAfterPulls(RING_CAPACITY);
  }

  // ---------- The hub and a subscription as objects ----------

  class EventHub {
    var nextId: nat
    var ring: seq<Event>
    var log: seq<Event>
    var publishing: Publishing

    function View(): Hub
      reads this
    {
      Hub(nextId, ring, log, publishing)
    }

    constructor ()
      ensures View() == EMPTY_HUB
    {
      nextId, ring, log, publishing := 0, [], [], Idle;
    }

    method BeginPublish(data: int) returns (id: nat)
      requires publishing.Idle?
      modifies this
      ensures View() == AllocateId(old(View()), data) && id == nextId
    {
      nextId := nextId + 1;
      id := nextId;
      publishing := Allocated(Event(id, data));
    }

    method Push()
      requires publishing.Allocated?
      modifies this
      ensures View() == PushRing(old(View()))
    {
      if |ring| == RING_CAPACITY {
        ring := ring[1..];
      }
      ring := ring + [publishing.event];
      publishing := Pushed(publishing.event);
    }

    method Send()
      requires publishing.Pushed?
      modifies this
      ensures View() == Broadcast(old(View()))
    {
      log := log + [publishing.event];
      publishing := Idle;
    }

    /** Uninterrupted, the three steps number the event, retain it and broadcast it. */
    method Publish(data: int) returns (id: nat)
      requires HubInv(View()) && publishing.Idle?
      modifies this
      ensures HubInv(View()) && publishing.Idle?
      ensures id == nextId == old(nextId) + 1
      ensures log == old(log) + [Event(id, data)] && ring == LastOf(log, RING_CAPACITY)
    {
      ghost var h := View();
      id := BeginPublish(data);
      HubStepKeepsHub(h, DoAllocate(data));
      h := View();
      Push();
      HubStepKeepsHub(h, DoPush);
      h := View();
      Send();
      HubStepKeepsHub(h, DoBroadcast);
    }

    method ReplayEvents(last: Option<nat>) returns (items: seq<Event>, expired: bool)
      ensures (items, expired) == ReplayAfter(ring, last)
    {
      items, expired := [], false;
      if last.Some? {
        for i := 0 to |ring|
          invariant items == After(ring[..i], last.value)
        {
          AfterOneMore(ring, i, last.value);
          if ring[i].id > last.value {
            items := items + [ring[i]];
          }
        }
        assert ring[..|ring|] == ring;
        expired := ring != [] && last.value + 1 < ring[0].id;
      }
    }
  }

  /** What the stream yields next: turns of its loop until one sends something or nothing is left. */
  function Next(h: Hub, s: Stream): Stream
    requires s.pos <= |h.log|
    decreases |s.replay|, |h.log| - s.pos
  {
    var r := Pull(h, s);
    if r.delivered != s.delivered || CaughtUp(h, s) then r else Next(h, r)
  }

  class Subscription {
    var replay: seq<Item>
    var pos: nat
    var last: nat
    ghost var delivered: seq<Item>
    ghost var origin: nat
    ghost var base: nat
    ghost var issued: nat
    ghost var seen: nat

    ghost function View(): Stream
      reads this
    {
      Stream(replay, pos, last, delivered, origin, base, issued, seen)
    }

    constructor Subscribe(hub: EventHub, lastEventId: Option<nat>)
      modifies hub
      ensures hub.View() == Begin(old(hub.View()), Replay(old(hub.View()), Register(old(hub.View()), lastEventId))).0
      ensures View() == Begin(old(hub.View()), Replay(old(hub.View()), Register(old(hub.View()), lastEventId))).1
    {
      pos := |hub.log|;
      last := if lastEventId.Some? then lastEventId.value else 0;
      delivered := [];
      ghost var h := hub.View();
      ghost var stream := Begin(h, Replay(h, Register(h, lastEventId))).1;
      origin, base, issued, seen := stream.origin, stream.base, stream.issued, stream.seen;
      replay := [];
      new;
      var items, expired := hub.ReplayEvents(lastEventId);
      if expired {
        hub.nextId := hub.nextId + 1;
        replay := [Resync(hub.nextId)];
      } else {
        replay := Lives(items);
      }
    }

    /** The unfolded stream: skip what the cursor has passed, send the first item beyond it. */
    method Poll(hub: EventHub) returns (item: Option<Item>)
      requires pos <= |hub.log|
      modifies this
      ensures View() == Next(hub.View(), old(View()))
      ensures delivered == old(delivered) + if item.Some? then [item.value] else []
      ensures item.Some? ==> old(last) < item.value.Id() == last
      ensures item.None? ==> replay == [] && pos == |hub.log| && last == old(last)
    {
      item := None;
      while replay != [] || pos != |hub.log|
        invariant pos <= |hub.log| && delivered == old(delivered) && last == old(last)
        invariant Next(hub.View(), View()) == Next(hub.View(), old(View()))
        decreases |replay|, |hub.log| - pos
      {
        ghost var before := View();
        var candidate;
        if replay != [] {
          candidate, replay := replay[0], replay[1..];
        } else if |hub.log| - pos > RING_CAPACITY {
          pos := |hub.log| - RING_CAPACITY;
          candidate := Resync(last + 1);
        } else {
          candidate := Live(hub.log[pos]);
          pos := pos + 1;
        }
        ghost var after := Deliver(hub.View(), View(), candidate);
        assert after == Pull(hub.View(), before);
        if candidate.Id() > last {
          last := candidate.Id();
          delivered, base, issued, seen := after.delivered, after.base, after.issued, after.seen;
          return Some(candidate);
        }
      }
    }
  }
}
