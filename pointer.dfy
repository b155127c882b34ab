/** The gesture recogniser of www/pointer.mjs: pointer contacts are classified
    into tap, pan and pinch sessions whose lifecycle events are delivered to
    registered handlers. Coordinates are exact reals; the handlers themselves
    are plain identifiers and the recogniser records each delivery in a trace. */
module Pointer {
  import opened Util
  import opened Wrappers

  /** A DOM pointer event, reduced to what the recogniser reads. */
  datatype PointerEvent = PointerEvent(pointerId: int, clientX: real, clientY: real)

  function Coords(e: PointerEvent): Vec2
  {
    Vec2(e.clientX, e.clientY)
  }

  function Minus(a: Vec2, b: Vec2): Vec2
  {
    Vec2(a.x - b.x, a.y - b.y)
  }

  /** `midpoint`: the point halfway between `p1` and `p2`. */
  function Midpoint(p1: Vec2, p2: Vec2): (r: Vec2)
    ensures Minus(r, p1) == Minus(p2, r)
  {
    Vec2((p1.x + p2.x) / 2.0, (p1.y + p2.y) / 2.0)
  }

  /** The midpoint does not depend on the order of its ends. */
  lemma MidpointSymmetric(p1: Vec2, p2: Vec2)
    ensures Midpoint(p1, p2) == Midpoint(p2, p1)
  {
  }

  /** The midpoint is the only point equidistant from both ends along both axes. */
  lemma MidpointUnique(p1: Vec2, p2: Vec2, m: Vec2)
    requires Minus(m, p1) == Minus(p2, m)
    ensures m == Midpoint(p1, p2)
  {
    assert m.x - p1.x == p2.x - m.x;
    assert m.y - p1.y == p2.y - m.y;
  }

  // ---------------------------------------------------------------------
  // `point`: one tracked contact, with its latest event and the coordinates
  // it had before the latest update.

  datatype Point = Point(pointer: PointerEvent, prevX: real, prevY: real)

  /** `point(pointer)`: a fresh contact has not moved yet. */
  function NewPoint(pointer: PointerEvent): (r: Point)
    ensures Curr(r) == Coords(pointer) && Prev(r) == Coords(pointer)
    ensures Delta(r) == Vec2(0.0, 0.0)
  {
    Point(pointer, pointer.clientX, pointer.clientY)
  }

  /** The getter `curr`. */
  function Curr(pt: Point): Vec2
  {
    Coords(pt.pointer)
  }

  /** The getter `prev`. */
  function Prev(pt: Point): Vec2
  {
    Vec2(pt.prevX, pt.prevY)
  }

  /** The getter `delta`: how far the contact moved in its latest update. */
  function Delta(pt: Point): (r: Vec2)
    ensures Vec2(Prev(pt).x + r.x, Prev(pt).y + r.y) == Curr(pt)
  {
    Minus(Curr(pt), Prev(pt))
  }

  /** `update(p)`: the former current position becomes the previous one. */
  function UpdatePoint(pt: Point, p: PointerEvent): (r: Point)
    ensures Prev(r) == Curr(pt) && Curr(r) == Coords(p)
    ensures Delta(r) == Minus(Coords(p), Curr(pt))
  {
    Point(p, pt.pointer.clientX, pt.pointer.clientY)
  }

  /** Successive deltas add up: after two updates, the two deltas together
      span from the position before them to the latest one. */
  lemma DeltasCompose(pt: Point, p: PointerEvent, q: PointerEvent)
    ensures var d1, d2 := Delta(UpdatePoint(pt, p)), Delta(UpdatePoint(UpdatePoint(pt, p), q));
            Vec2(d1.x + d2.x, d1.y + d2.y) == Minus(Coords(q), Curr(pt))
  {
  }

  // ---------------------------------------------------------------------
  // `gesture`: two tracked contacts, kept in a map keyed by pointer id.

  datatype Gesture = Gesture(first: Point, second: Point)

  /** `gesture(pointer1, pointer2)`. */
  function NewGesture(p1: PointerEvent, p2: PointerEvent): (r: Gesture)
    ensures Curr(r.first) == Coords(p1) && Curr(r.second) == Coords(p2)
    ensures GestureDeltas(r) == if p1.pointerId == p2.pointerId then [Vec2(0.0, 0.0)] else [Vec2(0.0, 0.0), Vec2(0.0, 0.0)]
  {
    Gesture(NewPoint(p1), NewPoint(p2))
  }

  /** The getter `delta`: the map's values in insertion order; a second
      contact with the first one's id replaces it in the map. */
  function GestureDeltas(g: Gesture): seq<Vec2>
  {
    if g.first.pointer.pointerId == g.second.pointer.pointerId then [Delta(g.second)]
    else [Delta(g.first), Delta(g.second)]
  }

  /** One delta per distinct id, in insertion order: the second contact's
      comes last, and replaces the first's when both share an id. */
  lemma GestureDeltasById(g: Gesture)
    ensures var r := GestureDeltas(g);
            && (|r| == 1 <==> g.first.pointer.pointerId == g.second.pointer.pointerId)
            && 1 <= |r| <= 2 && r[|r| - 1] == Delta(g.second)
            && (|r| == 2 ==> r[0] == Delta(g.first))
  {
  }

  /** The getter `deltaMidpoint`: how far the midpoint moved. */
  function DeltaMidpoint(g: Gesture): (r: Vec2)
    ensures r == Midpoint(Delta(g.first), Delta(g.second))
  {
    var m1 := Midpoint(Curr(g.first), Curr(g.second));
    var m2 := Midpoint(Prev(g.first), Prev(g.second));
    Vec2(m1.x - m2.x, m1.y - m2.y)
  }

  /** `update(pointer)`: the contact with that id takes the event; an id
      the gesture does not track makes the source throw a `TypeError`,
      modelled as `None`. */
  function UpdateGesture(g: Gesture, p: PointerEvent): (r: Option<Gesture>)
    ensures r.None? <==> p.pointerId != g.first.pointer.pointerId && p.pointerId != g.second.pointer.pointerId
    ensures r.Some? ==> r.value.first.pointer.pointerId == g.first.pointer.pointerId &&
                        r.value.second.pointer.pointerId == g.second.pointer.pointerId
    ensures r.Some? && p.pointerId == g.second.pointer.pointerId ==>
              r.value == Gesture(g.first, UpdatePoint(g.second, p))
    ensures r.Some? && p.pointerId != g.second.pointer.pointerId ==>
              r.value == Gesture(UpdatePoint(g.first, p), g.second)
  {
    if p.pointerId == g.second.pointer.pointerId then Some(Gesture(g.first, UpdatePoint(g.second, p)))
    else if p.pointerId == g.first.pointer.pointerId then Some(Gesture(UpdatePoint(g.first, p), g.second))
    else None
  }

  /** Moving one contact of a pinch by `d` moves the midpoint by half of `d`. */
  lemma OneFingerMidpoint(g: Gesture, p: PointerEvent)
    requires p.pointerId == g.first.pointer.pointerId && p.pointerId != g.second.pointer.pointerId
    requires Delta(g.second) == Vec2(0.0, 0.0)
    ensures var d := Minus(Coords(p), Curr(g.first));
            DeltaMidpoint(UpdateGesture(g, p).value) == Vec2(d.x / 2.0, d.y / 2.0)
  {
  }

  // ---------------------------------------------------------------------
  // Payloads and handler channels.

  /** What a handler receives, besides the source event's `preventDefault`. */
  datatype Payload =
    | TapData(at: Vec2)
    | PanData(delta: Vec2)
    | PinchData(midpoint: Vec2, deltas: seq<Vec2>, deltaMidpoint: Vec2)

  /** `tap(pointer).data`: where the contact went down. */
  function TapPayload(e: PointerEvent): Payload
  {
    TapData(Coords(e))
  }

  /** `pan(pointer).data`, without the velocity. */
  function PanPayload(pt: Point): Payload
  {
    PanData(Delta(pt))
  }

  /** `gesture(..).data`, without the scale and `deltaXY`. */
  function PinchPayload(g: Gesture): (r: Payload)
    ensures r.PinchData? && r.deltaMidpoint == Midpoint(Delta(g.first), Delta(g.second))
    ensures r.midpoint == Midpoint(Curr(g.first), Curr(g.second))
  {
    PinchData(Midpoint(Curr(g.first), Curr(g.second)), GestureDeltas(g), DeltaMidpoint(g))
  }

  /** The seven handler lists of `callbacks`. */
  datatype Channel = Tap | Pinch | PinchStart | PinchEnd | Pan | PanStart | PanEnd

  function ChannelName(c: Channel): string
  {
    match c
    case Tap => "tap"
    case Pinch => "pinch"
    case PinchStart => "pinchStart"
    case PinchEnd => "pinchEnd"
    case Pan => "pan"
    case PanStart => "panStart"
    case PanEnd => "panEnd"
  }

  /** The list `callbacks[event]`, when it is one; every other name,
      inherited object properties included, names no list. */
  function ChannelOf(name: string): (r: Option<Channel>)
    ensures r.Some? ==> ChannelName(r.value) == name
  {
    if name == "tap" then Some(Tap)
    else if name == "pinch" then Some(Pinch)
    else if name == "pinchStart" then Some(PinchStart)
    else if name == "pinchEnd" then Some(PinchEnd)
    else if name == "pan" then Some(Pan)
    else if name == "panStart" then Some(PanStart)
    else if name == "panEnd" then Some(PanEnd)
    else None
  }

  /** Every channel is reachable under its own name. */
  lemma ChannelNamesRoundTrip(c: Channel)
    ensures ChannelOf(ChannelName(c)) == Some(c)
  {
  }

  type Handler = nat

  /** One handler invocation: which handler, on which channel, with what. */
  datatype Delivery = Delivery(handler: Handler, channel: Channel, payload: Payload)

  /** `callback(type, e, data)`: every handler of the channel, in
      registration order, receives the payload. */
  function Deliveries(handlers: seq<Handler>, c: Channel, data: Payload): (r: seq<Delivery>)
    ensures |r| == |handlers|
    ensures forall i :: 0 <= i < |r| ==> r[i] == Delivery(handlers[i], c, data)
  {
    seq(|handlers|, i requires 0 <= i < |handlers| => Delivery(handlers[i], c, data))
  }

  // ---------------------------------------------------------------------
  // The `events` map: pointer events keyed by id, in insertion order.

  function Ids(events: seq<PointerEvent>): set<int>
  {
    set i | 0 <= i < |events| :: events[i].pointerId
  }

  predicate DistinctIds(events: seq<PointerEvent>)
  {
    forall i, j :: 0 <= i < j < |events| ==> events[i].pointerId != events[j].pointerId
  }

  /** `events.set(e.pointerId, e)`. */
  function SetEvent(events: seq<PointerEvent>, e: PointerEvent): seq<PointerEvent>
  {
    if |events| == 0 then [e]
    else if events[0].pointerId == e.pointerId then [e] + events[1..]
    else [events[0]] + SetEvent(events[1..], e)
  }

  /** An id already present keeps its place and takes the new event; a new
      id goes last. */
  lemma SetEventPlace(events: seq<PointerEvent>, e: PointerEvent)
    requires DistinctIds(events)
    ensures e.pointerId in Ids(events) ==>
              |SetEvent(events, e)| == |events| &&
              forall i :: 0 <= i < |events| ==>
                SetEvent(events, e)[i] == if events[i].pointerId == e.pointerId then e else events[i]
    ensures e.pointerId !in Ids(events) ==> SetEvent(events, e) == events + [e]
  {
    if e.pointerId in Ids(events) {
      SetEventReplaces(events, e);
    } else {
      SetEventAppends(events, e);
    }
  }

  lemma {:induction false} SetEventReplaces(events: seq<PointerEvent>, e: PointerEvent)
    requires DistinctIds(events) && e.pointerId in Ids(events)
    ensures |SetEvent(events, e)| == |events|
    ensures forall i :: 0 <= i < |events| ==>
              SetEvent(events, e)[i] == if events[i].pointerId == e.pointerId then e else events[i]
  {
    IdsCons(events);
    var r := SetEvent(events, e);
    if events[0].pointerId == e.pointerId {
      assert r == [e] + events[1..];
      forall i | 0 < i < |events|
        ensures r[i] == events[i] && events[i].pointerId != e.pointerId
      {
      }
    } else {
      var tail := events[1..];
      assert DistinctIds(tail) by {
        forall i, j | 0 <= i < j < |tail|
          ensures tail[i].pointerId != tail[j].pointerId
        {
          assert tail[i] == events[i + 1] && tail[j] == events[j + 1];
        }
      }
      SetEventReplaces(tail, e);
      var rest := SetEvent(tail, e);
      assert r == [events[0]] + rest;
      forall i | 0 < i < |events|
        ensures r[i] == if events[i].pointerId == e.pointerId then e else events[i]
      {
        assert r[i] == rest[i - 1] && tail[i - 1] == events[i];
      }
    }
  }

  lemma {:induction false} SetEventAppends(events: seq<PointerEvent>, e: PointerEvent)
    requires e.pointerId !in Ids(events)
    ensures SetEvent(events, e) == events + [e]
  {
    if |events| > 0 {
      IdsCons(events);
      SetEventAppends(events[1..], e);
      assert events + [e] == [events[0]] + (events[1..] + [e]);
    }
  }

  /** Setting an event adds its id and keeps the ids unique. */
  lemma SetEventIds(events: seq<PointerEvent>, e: PointerEvent)
    requires DistinctIds(events)
    ensures Ids(SetEvent(events, e)) == Ids(events) + {e.pointerId}
    ensures DistinctIds(SetEvent(events, e))
    ensures |SetEvent(events, e)| == if e.pointerId in Ids(events) then |events| else |events| + 1
  {
    SetEventPlace(events, e);
    var r := SetEvent(events, e);
    if e.pointerId in Ids(events) {
      assert forall i :: 0 <= i < |r| ==> r[i].pointerId == events[i].pointerId;
    } else {
      assert forall i :: 0 <= i < |events| ==> r[i] == events[i];
      assert r[|events|] == e;
    }
  }

  lemma IdsCons(events: seq<PointerEvent>)
    requires |events| > 0
    ensures Ids(events) == {events[0].pointerId} + Ids(events[1..])
  {
    forall id | id in Ids(events)
      ensures id in {events[0].pointerId} + Ids(events[1..])
    {
      var i :| 0 <= i < |events| && events[i].pointerId == id;
      if i > 0 {
        assert events[1..][i - 1] == events[i];
      }
    }
    forall id | id in Ids(events[1..])
      ensures id in Ids(events)
    {
      var i :| 0 <= i < |events[1..]| && events[1..][i].pointerId == id;
      assert events[i + 1] == events[1..][i];
    }
  }

  /** `events.delete(id)`. */
  function DeleteEvent(events: seq<PointerEvent>, id: int): seq<PointerEvent>
  {
    if |events| == 0 then []
    else if events[0].pointerId == id then DeleteEvent(events[1..], id)
    else [events[0]] + DeleteEvent(events[1..], id)
  }

  /** Deleting drops the entry with that id and keeps the others in order;
      an absent id leaves the map as it is. */
  lemma {:induction false} DeleteEventPlace(events: seq<PointerEvent>, id: int)
    requires DistinctIds(events)
    ensures id !in Ids(events) ==> DeleteEvent(events, id) == events
    ensures forall k :: 0 <= k < |events| && events[k].pointerId == id ==>
              DeleteEvent(events, id) == events[..k] + events[k + 1..]
  {
    if |events| > 0 {
      IdsCons(events);
      DeleteEventPlace(events[1..], id);
      if events[0].pointerId == id {
        assert id !in Ids(events[1..]) by {
          forall i | 0 <= i < |events[1..]|
            ensures events[1..][i].pointerId != id
          {
            assert events[1..][i] == events[i + 1];
          }
        }
        forall k | 0 <= k < |events| && events[k].pointerId == id
          ensures DeleteEvent(events, id) == events[..k] + events[k + 1..]
        {
          assert k == 0;
        }
      } else {
        assert events == [events[0]] + events[1..];
        forall k | 0 <= k < |events| && events[k].pointerId == id
          ensures DeleteEvent(events, id) == events[..k] + events[k + 1..]
        {
          assert events[1..][k - 1].pointerId == id;
          SpliceCons(events, k);
        }
      }
    }
  }

  /** Cutting out entry `k > 0` keeps the head in front of the tail with
      its entry `k - 1` cut out. */
  lemma SpliceCons(events: seq<PointerEvent>, k: nat)
    requires 0 < k < |events|
    ensures events[..k] + events[k + 1..] == [events[0]] + (events[1..][..k - 1] + events[1..][k..])
  {
    assert events[..k] == [events[0]] + events[1..][..k - 1];
    assert events[k + 1..] == events[1..][k..];
  }

  /** Removing the entry at `k` removes exactly its id. */
  lemma RemoveAt(events: seq<PointerEvent>, k: nat)
    requires DistinctIds(events) && k < |events|
    ensures var r := events[..k] + events[k + 1..];
            Ids(r) == Ids(events) - {events[k].pointerId} && DistinctIds(r) && |r| == |events| - 1
  {
    var r := events[..k] + events[k + 1..];
    forall i | 0 <= i < |r|
      ensures r[i] == events[if i < k then i else i + 1]
    {
    }
    forall i, j | 0 <= i < j < |r|
      ensures r[i].pointerId != r[j].pointerId
    {
      assert r[i] == events[if i < k then i else i + 1];
      assert r[j] == events[if j < k then j else j + 1];
    }
    forall x | x in Ids(r)
      ensures x in Ids(events) - {events[k].pointerId}
    {
      var i :| 0 <= i < |r| && r[i].pointerId == x;
      assert r[i] == events[if i < k then i else i + 1];
    }
    forall x | x in Ids(events) - {events[k].pointerId}
      ensures x in Ids(r)
    {
      var i :| 0 <= i < |events| && events[i].pointerId == x;
      if i < k {
        assert r[i] == events[i];
      } else {
        assert r[i - 1] == events[i];
      }
    }
  }

  /** Deleting removes exactly that id and keeps the ids unique. */
  lemma DeleteEventIds(events: seq<PointerEvent>, id: int)
    requires DistinctIds(events)
    ensures Ids(DeleteEvent(events, id)) == Ids(events) - {id}
    ensures DistinctIds(DeleteEvent(events, id))
    ensures |DeleteEvent(events, id)| == if id in Ids(events) then |events| - 1 else |events|
  {
    DeleteEventPlace(events, id);
    if id in Ids(events) {
      var k :| 0 <= k < |events| && events[k].pointerId == id;
      RemoveAt(events, k);
    }
  }

  // ---------------------------------------------------------------------
  // `addPointerEvents`: the recogniser attached to one target.

  class Recognizer {
    /** `events`: the active contacts. */
    var events: seq<PointerEvent>
    /** `callbacks`: the handler lists. */
    var handlers: map<Channel, seq<Handler>>
    /** `_tap`, `_pan` and `_pinch`: the open sessions. */
    var tap: Option<PointerEvent>
    var pan: Option<Point>
    var pinch: Option<Gesture>
    /** The pinch update waiting for the debounce timer: only the latest one is delivered. */
    var pending: Option<Gesture>
    /** Every handler invocation so far. */
    var trace: seq<Delivery>

    /** What the handlers keep true between events: every channel has its
        list, contact ids are unique, a tap candidate is the only contact,
        a pan has a contact, and a pinch tracks two active contacts. */
    predicate Valid()
      reads this
    {
      (forall c :: c in handlers) &&
      DistinctIds(events) &&
      (tap.Some? ==> events == [tap.value]) &&
      (pan.Some? ==> |events| >= 1) &&
      (pinch.Some? ==>
         pinch.value.first.pointer.pointerId != pinch.value.second.pointer.pointerId &&
         pinch.value.first.pointer.pointerId in Ids(events) &&
         pinch.value.second.pointer.pointerId in Ids(events))
    }

    /** `addPointerEvents(target)`: no contacts, no handlers, no sessions. */
    constructor ()
      ensures Valid() && events == [] && trace == [] && pending == None
      ensures tap == None && pan == None && pinch == None
      ensures forall c :: handlers[c] == []
    {
      events := [];
      handlers := map[Tap := [], Pinch := [], PinchStart := [], PinchEnd := [], Pan := [], PanStart := [], PanEnd := []];
      tap, pan, pinch, pending := None, None, None, None;
      trace := [];
      new;
      forall c: Channel
        ensures c in handlers && handlers[c] == []
      {
        match c
        case Tap =>
        case Pinch =>
        case PinchStart =>
        case PinchEnd =>
        case Pan =>
        case PanStart =>
        case PanEnd =>
      }
    }

    /** `callback(type, e, data)`. */
    method Emit(c: Channel, data: Payload)
      requires c in handlers
      modifies this`trace
      ensures trace == old(trace) + Deliveries(handlers[c], c, data)
    {
      trace := trace + Deliveries(handlers[c], c, data);
    }

    /** `on(event, cb)`: append to a known channel; ignore other names. */
    method On(name: string, cb: Handler)
      requires Valid()
      modifies this`handlers
      ensures Valid()
      ensures ChannelOf(name).Some? ==> handlers == old(handlers)[ChannelOf(name).value := old(handlers)[ChannelOf(name).value] + [cb]]
      ensures ChannelOf(name).None? ==> handlers == old(handlers)
    {
      var c := ChannelOf(name);
      if c.Some? {
        handlers := handlers[c.value := handlers[c.value] + [cb]];
      }
    }

    /** `onPointerDown(e)`: the first contact opens a tap candidate; the
        second cancels it and starts a pinch over both contacts. */
    method OnPointerDown(e: PointerEvent)
      requires Valid()
      modifies this`events, this`tap, this`pinch, this`trace
      ensures Valid()
      ensures events == SetEvent(old(events), e)
      ensures |events| == 1 ==> tap == Some(e) && pinch == old(pinch) && trace == old(trace)
      ensures |events| == 2 ==>
                tap == None && pinch == Some(NewGesture(events[0], events[1])) &&
                trace == old(trace) + Deliveries(handlers[PinchStart], PinchStart, PinchPayload(pinch.value))
      ensures |events| > 2 ==> tap == old(tap) && pinch == old(pinch) && trace == old(trace)
    {
      SetEventIds(events, e);
      events := SetEvent(events, e);
      if |events| == 1 {
        tap := Some(e);
      }
      if |events| == 2 {
        tap := None;
        assert events[0].pointerId in Ids(events) && events[1].pointerId in Ids(events);
        pinch := Some(NewGesture(events[0], events[1]));
        Emit(PinchStart, PinchPayload(pinch.value));
      }
    }

    /** `onPointerMove(e)`: any move cancels the tap candidate. With one
        contact the first move opens a pan and later ones continue it; with
        two the pinch is updated and its delivery (re)scheduled. The source
        throws a `TypeError` when two contacts are active but no pinch
        tracks the moving pointer; `threw` reports that, and the event is
        then not recorded. */
    method OnPointerMove(e: PointerEvent) returns (threw: bool)
      requires Valid()
      modifies this`events, this`tap, this`pan, this`pinch, this`pending, this`trace
      ensures Valid() && tap == None
      ensures old(|events|) == 0 ==> !threw && events == old(events) && unchanged(this`pan, this`pinch, this`pending, this`trace)
      ensures old(|events|) == 1 ==>
                !threw && events == SetEvent(old(events), e) && pinch == old(pinch) && pending == old(pending) &&
                (old(pan).None? ==>
                   pan == Some(NewPoint(e)) &&
                   trace == old(trace) + Deliveries(handlers[PanStart], PanStart, PanPayload(pan.value))) &&
                (old(pan).Some? ==>
                   pan == Some(UpdatePoint(old(pan).value, e)) &&
                   trace == old(trace) + Deliveries(handlers[Pan], Pan, PanPayload(pan.value)))
      ensures old(|events|) == 2 ==>
                pan == old(pan) && trace == old(trace) &&
                (threw <==> old(pinch).None? || UpdateGesture(old(pinch).value, e).None?) &&
                (threw ==> events == old(events) && pinch == old(pinch) && pending == old(pending)) &&
                (!threw ==>
                   events == SetEvent(old(events), e) && pinch == UpdateGesture(old(pinch).value, e) &&
                   pending == pinch)
      ensures old(|events|) > 2 ==>
                !threw && events == SetEvent(old(events), e) && unchanged(this`pan, this`pinch, this`pending, this`trace)
    {
      tap := None;
      if |events| == 0 {
        return false;
      }
      if |events| == 1 {
        if pan.Some? {
          pan := Some(UpdatePoint(pan.value, e));
          Emit(Pan, PanPayload(pan.value));
        } else {
          pan := Some(NewPoint(e));
          Emit(PanStart, PanPayload(pan.value));
        }
      }
      if |events| == 2 {
        if pinch.None? {
          return true;
        }
        var g := UpdateGesture(pinch.value, e);
        if g.None? {
          return true;
        }
        pinch := g;
        pending := g;
      }
      SetEventIds(events, e);
      events := SetEvent(events, e);
      threw := false;
    }

    /** The debounce timer of `onGestureMove` expiring: the latest pending
        pinch update is delivered, once. */
    method PinchTimerFires()
      requires Valid()
      modifies this`pending, this`trace
      ensures Valid() && pending == None
      ensures old(pending).Some? ==> trace == old(trace) + Deliveries(handlers[Pinch], Pinch, PinchPayload(old(pending).value))
      ensures old(pending).None? ==> trace == old(trace)
    {
      if pending.Some? {
        Emit(Pinch, PinchPayload(pending.value));
        pending := None;
      }
    }

    /** `onPointerUp(e)`, also bound to cancel, leave and out: close a tap
        candidate with a tap, then end the pan and the pinch; every session
        is cleared and the contact forgotten. */
    method OnPointerUp(e: PointerEvent)
      requires Valid()
      modifies this`events, this`tap, this`pan, this`pinch, this`trace
      ensures Valid() && tap == None && pan == None && pinch == None
      ensures events == DeleteEvent(old(events), e.pointerId)
      ensures trace == old(trace) + EndDeliveries(old(tap), old(pan), old(pinch))
    {
      if tap.Some? {
        Emit(Tap, TapPayload(tap.value));
      }
      if pan.Some? {
        Emit(PanEnd, PanPayload(pan.value));
      }
      if pinch.Some? {
        Emit(PinchEnd, PinchPayload(pinch.value));
      }
      tap, pan, pinch := None, None, None;
      DeleteEventIds(events, e.pointerId);
      events := DeleteEvent(events, e.pointerId);
    }

    /** The deliveries a pointer-up makes for the open sessions, in order:
        tap, pan end, pinch end. */
    function EndDeliveries(tap: Option<PointerEvent>, pan: Option<Point>, pinch: Option<Gesture>): seq<Delivery>
      reads this`handlers
      requires forall c :: c in handlers
    {
      (if tap.Some? then Deliveries(handlers[Tap], Tap, TapPayload(tap.value)) else []) +
      (if pan.Some? then Deliveries(handlers[PanEnd], PanEnd, PanPayload(pan.value)) else []) +
      (if pinch.Some? then Deliveries(handlers[PinchEnd], PinchEnd, PinchPayload(pinch.value)) else [])
    }

    /** A pointer-up reaches every handler of each open session once:
        first the tap handlers, then the pan-end ones, then the pinch-end ones. */
    lemma EndDeliveriesOrder(tap: Option<PointerEvent>, pan: Option<Point>, pinch: Option<Gesture>)
      requires forall c :: c in handlers
      ensures var r := EndDeliveries(tap, pan, pinch);
              && |r| == (if tap.Some? then |handlers[Tap]| else 0) + (if pan.Some? then |handlers[PanEnd]| else 0) +
                        (if pinch.Some? then |handlers[PinchEnd]| else 0)
              && forall i, j :: 0 <= i < j < |r| ==> EndRank(r[i].channel) <= EndRank(r[j].channel)
    {
      var a := if tap.Some? then Deliveries(handlers[Tap], Tap, TapPayload(tap.value)) else [];
      var b := if pan.Some? then Deliveries(handlers[PanEnd], PanEnd, PanPayload(pan.value)) else [];
      var c := if pinch.Some? then Deliveries(handlers[PinchEnd], PinchEnd, PinchPayload(pinch.value)) else [];
      var r := a + b + c;
      assert EndDeliveries(tap, pan, pinch) == r;
      forall k | 0 <= k < |r|
        ensures EndRank(r[k].channel) == if k < |a| then 0 else if k < |a| + |b| then 1 else 2
      {
        if k < |a| {
          assert r[k] == a[k];
        } else if k < |a| + |b| {
          assert r[k] == b[k - |a|];
        } else {
          assert r[k] == c[k - |a| - |b|];
        }
      }
    }
  }

  /** The order in which a pointer-up reports its sessions. */
  function EndRank(c: Channel): nat
  {
    match c
    case Tap => 0
    case PanEnd => 1
    case _ => 2
  }

  /** A recognizer with the handler `h` on the `tap`, `panStart` and
      `panEnd` channels, and on no other. */
  method Subscribed(h: Handler) returns (r: Recognizer)
    ensures fresh(r) && r.Valid() && r.events == [] && r.trace == [] && r.pending == None
    ensures r.tap == None && r.pan == None && r.pinch == None
    ensures r.handlers[Tap] == [h] && r.handlers[PanStart] == [h] && r.handlers[PanEnd] == [h]
    ensures r.handlers[PinchEnd] == []
  {
    r := new Recognizer();
    r.On("tap", h);
    r.On("panStart", h);
    r.On("panEnd", h);
  }

  /** One handler receives one delivery. */
  lemma OneHandler(h: Handler, c: Channel, data: Payload)
    ensures Deliveries([h], c, data) == [Delivery(h, c, data)]
  {
  }

  /** A contact that goes down and up without moving is a tap at the
      point where it went down, and nothing else. */
  method TapWithoutMove(e: PointerEvent, h: Handler) returns (trace: seq<Delivery>)
    ensures trace == [Delivery(h, Tap, TapData(Coords(e)))]
  {
    var r := Subscribed(h);
    r.OnPointerDown(e);
    OneHandler(h, Tap, TapPayload(e));
    r.OnPointerUp(e);
    trace := r.trace;
  }

  /** A move between down and up turns the contact into a pan: it starts
      and ends, and no tap is delivered. The pan starts from the move
      itself, so both deliveries carry a zero delta wherever the move
      went. */
  method MoveCancelsTap(down: PointerEvent, move: PointerEvent, h: Handler) returns (trace: seq<Delivery>)
    requires move.pointerId == down.pointerId
    ensures trace == [Delivery(h, PanStart, PanData(Vec2(0.0, 0.0))), Delivery(h, PanEnd, PanData(Vec2(0.0, 0.0)))]
    ensures forall i :: 0 <= i < |trace| ==> trace[i].channel != Tap
  {
    var r := Subscribed(h);
    r.OnPointerDown(down);
    assert r.events == [down] && r.trace == [];
    var threw := r.OnPointerMove(move);
    assert r.tap == None && r.pinch == None && r.pan == Some(NewPoint(move));
    var start := Delivery(h, PanStart, PanData(Vec2(0.0, 0.0)));
    OneHandler(h, PanStart, PanPayload(NewPoint(move)));
    var end := Delivery(h, PanEnd, PanData(Vec2(0.0, 0.0)));
    OneHandler(h, PanEnd, PanPayload(NewPoint(move)));
    r.OnPointerUp(move);
    trace := r.trace;
    assert trace == [start] + [end];
  }
}
