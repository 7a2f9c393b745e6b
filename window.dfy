/** The input and listener bookkeeping of a window of the GUI framework
    (WindowQt.cpp, Window.hpp): the listener list and the order events are
    dispatched in, the events built from the window's mouse state, the
    wheel accumulator, the set of keys held down with the mouse-drag count,
    the deferred size while full screen, and the key flush on activation.
    Listeners are opaque: their answers to `handleEvent` are given as
    `Handlers`, and the calls they receive are recorded in `delivered`.
    The Qt widget is reduced to a record of the calls made on it. */
module Windows {
  import Keys

  datatype Vec2 = Vec2(x: int, y: int)

  /** `Vec2i(-1)`, the pending size when none is pending. */
  const NoSize: Vec2 := Vec2(-1, -1)
  const DefaultSize: Vec2 := Vec2(1024, 768)
  const Zero: Vec2 := Vec2(0, 0)

  function Sub(a: Vec2, b: Vec2): Vec2 {
    Vec2(a.x - b.x, a.y - b.y)
  }

  datatype EventType = AddListener | RemoveListener | Close | Resize | KeyDown | KeyUp
                     | Char | Mouse | Paint | PrePaint | PostPaint

  /** `Window::Event`; the `window` pointer is left out, and `keyUnicode`,
      which `createGenericEvent` always sets from `key`, is `KeyUnicode`. */
  datatype Event = Event(kind: EventType, key: string, chr: int, mouseKnown: bool,
                         mousePos: Vec2, mouseDelta: Vec2, mouseDragging: bool)

  /** The event's `keyUnicode`: `keyToUnicode(key)`. */
  function KeyUnicode(ev: Event): (cp: int)
    ensures 0 <= cp <= Keys.MaxCodePoint
    ensures ev.key == "" ==> cp == 0
  {
    assert Keys.CString("") == "";
    Keys.KeyCode(ev.key)
  }

  /** A listener pointer; 0 is NULL. */
  type Listener = nat

  /** How the listeners answer `handleEvent`: whether they consume the
      event, and whether handling it sets the framework's error. */
  datatype Handlers = Handlers(handles: (Listener, Event) -> bool, raisesError: (Listener, Event) -> bool)

  datatype Delivery = Delivery(listener: Listener, ev: Event)

  /** The calls on the Qt widget the model keeps. */
  datatype WidgetCall = ResizeWidget(size: Vec2) | ShowFullScreen | ShowNormal | ReleaseMouse

  /** Stand-ins for the key names `FW_KEY_MOUSE_LEFT`, `FW_KEY_MOUSE_MIDDLE`,
      `FW_KEY_MOUSE_RIGHT`, `FW_KEY_WHEEL_UP` and `FW_KEY_WHEEL_DOWN`. */
  const KeyMouseLeft: string := "Mouse Left"
  const KeyMouseMiddle: string := "Mouse Middle"
  const KeyMouseRight: string := "Mouse Right"
  const KeyWheelUp: string := "Wheel Up"
  const KeyWheelDown: string := "Wheel Down"

  const MouseKeys: set<string> := {KeyMouseLeft, KeyMouseMiddle, KeyMouseRight}

  datatype MouseButton = LeftButton | MidButton | RightButton | OtherButton

  /** The Qt events `event(QEvent*)` tells apart. `key` is what
      `qtkeyToKey` makes of a key event, `text` its text as UTF-16 units. */
  datatype QtEvent = QClose | QMouseMove(pos: Vec2) | QWheel(delta: int) | QLeave
                   | QKeyPress(key: string, text: seq<int>) | QKeyRelease(key: string, text: seq<int>)
                   | QMouseButtonPress(button: MouseButton) | QMouseButtonRelease(button: MouseButton)
                   | QFocusIn | QOther

  // ---------------------------------------------------------------------
  // Events

  /** `createGenericEvent(type, key, chr, mouseKnown, mousePos)` on a
      window whose mouse state is `knownNow`, `posNow` and `dragCount`. */
  function GenericEvent(kind: EventType, key: string, chr: int, mouseKnown: bool, mousePos: Vec2,
                        knownNow: bool, posNow: Vec2, dragCount: int): (ev: Event)
    ensures ev.kind == kind && ev.key == key && ev.chr == chr
    ensures ev.mouseKnown == mouseKnown && ev.mousePos == mousePos
    ensures !(mouseKnown && knownNow) ==> ev.mouseDelta == Zero
    ensures ev.mouseDragging <==> dragCount != 0
  {
    Event(kind, key, chr, mouseKnown, mousePos,
          if mouseKnown && knownNow then Sub(mousePos, posNow) else Zero, dragCount != 0)
  }

  /** `createKeyEvent(down, key)` on a window in the given mouse state. */
  function KeyEventAt(down: bool, key: string, known: bool, pos: Vec2, dragCount: int): Event {
    GenericEvent(if down then KeyDown else KeyUp, key, 0, known, pos, known, pos, dragCount)
  }

  /** `createCharEvent(chr)` on a window in the given mouse state. */
  function CharEventAt(chr: int, known: bool, pos: Vec2, dragCount: int): Event {
    GenericEvent(Char, "", chr, known, pos, known, pos, dragCount)
  }

  /** `createSimpleEvent(type)` on a window in the given mouse state. */
  function SimpleEventAt(kind: EventType, known: bool, pos: Vec2, dragCount: int): Event {
    GenericEvent(kind, "", 0, known, pos, known, pos, dragCount)
  }

  /** A key event for the name of a code point carries that code point. */
  lemma KeyEventCarriesCodePoint(cp: Keys.CodePoint, down: bool, known: bool, pos: Vec2, dragCount: int)
    ensures KeyUnicode(KeyEventAt(down, Keys.UnicodeToKey(cp), known, pos, dragCount)) == cp
  {
    Keys.KeyRoundTrip(cp);
  }

  /** A moved mouse event reports the motion from the position the window
      knew. */
  lemma MouseDeltaIsMotion(known: bool, pos: Vec2, posNow: Vec2, dragCount: int)
    ensures GenericEvent(Mouse, "", 0, true, pos, known, posNow, dragCount).mouseDelta
            == (if known then Vec2(pos.x - posNow.x, pos.y - posNow.y) else Zero)
  {
  }

  // ---------------------------------------------------------------------
  // Dispatch

  /** The listeners last to first. */
  function Reverse(s: seq<Listener>): (r: seq<Listener>)
    ensures |r| == |s|
  {
    if s == [] then [] else [s[|s| - 1]] + Reverse(s[..|s| - 1])
  }

  lemma {:induction false} ReverseAt(s: seq<Listener>, k: nat)
    requires k < |s|
    ensures Reverse(s)[k] == s[|s| - 1 - k]
  {
    if k > 0 {
      ReverseAt(s[..|s| - 1], k - 1);
    }
  }

  lemma {:induction false} ReverseReverse(s: seq<Listener>)
    ensures Reverse(Reverse(s)) == s
  {
    var r := Reverse(Reverse(s));
    forall k | 0 <= k < |s| ensures r[k] == s[k] {
      ReverseAt(Reverse(s), k);
      ReverseAt(s, |s| - 1 - k);
    }
  }

  /** Key, character and mouse events go to the last listener first. */
  predicate IsInputEvent(kind: EventType) {
    kind == KeyDown || kind == KeyUp || kind == Char || kind == Mouse
  }

  /** The order `postEvent` offers an event to the listeners. */
  function Order(listeners: seq<Listener>, kind: EventType): seq<Listener> {
    if IsInputEvent(kind) then Reverse(listeners) else listeners
  }

  /** The listeners `postEvent` calls, offered in `order`, and the error
      state afterwards: it stops before the next listener once the error
      is set, and after the first listener that consumes the event. */
  function Dispatch(order: seq<Listener>, ev: Event, h: Handlers, err: bool): (seq<Listener>, bool)
    decreases |order|
  {
    if err || order == [] then ([], err)
    else
      var l := order[0];
      var e := h.raisesError(l, ev);
      if h.handles(l, ev) then ([l], e)
      else
        var rest := Dispatch(order[1..], ev, h, e);
        ([l] + rest.0, rest.1)
  }

  /** The listeners called are a prefix of the order; all but the last
      neither consumed the event nor set the error; the dispatch stops
      early only at a listener that did one of the two; nobody is called
      once the error is set; and the error afterwards is the one the last
      listener called left. */
  lemma {:induction false} DispatchShape(order: seq<Listener>, ev: Event, h: Handlers, err: bool)
    ensures var r := Dispatch(order, ev, h, err);
      |r.0| <= |order| && r.0 == order[..|r.0|] &&
      (err ==> r == ([], true)) &&
      (forall i :: 0 <= i < |r.0| - 1 ==> !h.handles(r.0[i], ev) && !h.raisesError(r.0[i], ev)) &&
      (!err && order != [] ==> r.0 != []) &&
      (!err && 0 < |r.0| < |order| ==> h.handles(r.0[|r.0| - 1], ev) || h.raisesError(r.0[|r.0| - 1], ev)) &&
      r.1 == (err || (r.0 != [] && h.raisesError(r.0[|r.0| - 1], ev)))
    decreases |order|
  {
    if !err && order != [] && !h.handles(order[0], ev) {
      var e := h.raisesError(order[0], ev);
      DispatchShape(order[1..], ev, h, e);
      var rest := Dispatch(order[1..], ev, h, e);
      assert order[1..][..|rest.0|] == order[1..|rest.0| + 1];
      var r := Dispatch(order, ev, h, err);
      assert r.0 == [order[0]] + rest.0;
      forall i | 0 <= i < |r.0| - 1 ensures !h.handles(r.0[i], ev) && !h.raisesError(r.0[i], ev) {
        if i > 0 {
          assert r.0[i] == rest.0[i - 1];
        }
      }
    }
  }

  /** With no error and nobody consuming the event, every listener gets it. */
  lemma {:induction false} DispatchReachesAll(order: seq<Listener>, ev: Event, h: Handlers)
    requires forall i :: 0 <= i < |order| ==> !h.handles(order[i], ev) && !h.raisesError(order[i], ev)
    ensures Dispatch(order, ev, h, false) == (order, false)
    decreases |order|
  {
    if order != [] {
      DispatchReachesAll(order[1..], ev, h);
      assert [order[0]] + order[1..] == order;
    }
  }

  /** The `handleEvent` calls of the listeners `called`, in order. */
  function Deliveries(called: seq<Listener>, ev: Event): (d: seq<Delivery>)
    ensures |d| == |called|
  {
    if called == [] then [] else [Delivery(called[0], ev)] + Deliveries(called[1..], ev)
  }

  /** What leaves a window: every event given to `postEvent`, every
      `handleEvent` call on a listener, both in order, and the framework's
      error state (`hasError()`). */
  datatype Traffic = Traffic(posted: seq<Event>, delivered: seq<Delivery>, error: bool)

  /** One `handleEvent(ev)` call made directly on listener `l`. */
  function Notify(t: Traffic, l: Listener, ev: Event, h: Handlers): Traffic {
    t.(delivered := t.delivered + [Delivery(l, ev)], error := t.error || h.raisesError(l, ev))
  }

  /** The dispatch loop of `postEvent` over `ls`, first listener first:
      stop once the error is set, or after a listener consumes the event. */
  function OfferFront(t: Traffic, ls: seq<Listener>, ev: Event, h: Handlers): Traffic
    decreases |ls|
  {
    if t.error || ls == [] then t
    else if h.handles(ls[0], ev) then Notify(t, ls[0], ev, h)
    else OfferFront(Notify(t, ls[0], ev, h), ls[1..], ev, h)
  }

  /** The same loop, last listener first. */
  function OfferBack(t: Traffic, ls: seq<Listener>, ev: Event, h: Handlers): Traffic
    decreases |ls|
  {
    if t.error || ls == [] then t
    else if h.handles(ls[|ls| - 1], ev) then Notify(t, ls[|ls| - 1], ev, h)
    else OfferBack(Notify(t, ls[|ls| - 1], ev, h), ls[..|ls| - 1], ev, h)
  }

  /** One `postEvent(ev)` with the listeners `listeners`. */
  function Post(t: Traffic, listeners: seq<Listener>, ev: Event, h: Handlers): Traffic {
    var t' := t.(posted := t.posted + [ev]);
    if IsInputEvent(ev.kind) then OfferBack(t', listeners, ev, h) else OfferFront(t', listeners, ev, h)
  }

  /** The front loop makes exactly the calls of `Dispatch`, in order, and
      leaves its error state. */
  lemma {:induction false} OfferFrontDispatches(t: Traffic, ls: seq<Listener>, ev: Event, h: Handlers)
    ensures var r := Dispatch(ls, ev, h, t.error);
      OfferFront(t, ls, ev, h) == t.(delivered := t.delivered + Deliveries(r.0, ev), error := r.1)
    decreases |ls|
  {
    if !t.error && ls != [] {
      var l := ls[0];
      if !h.handles(l, ev) {
        var t1 := Notify(t, l, ev, h);
        OfferFrontDispatches(t1, ls[1..], ev, h);
        var rest := Dispatch(ls[1..], ev, h, t1.error);
        assert ([l] + rest.0)[1..] == rest.0;
        assert t.delivered + ([Delivery(l, ev)] + Deliveries(rest.0, ev))
               == (t.delivered + [Delivery(l, ev)]) + Deliveries(rest.0, ev);
      } else {
        assert [l][1..] == [];
      }
    } else {
      assert t.delivered + [] == t.delivered;
    }
  }

  /** The back loop makes exactly the calls of `Dispatch` over the reversed
      list, in order, and leaves its error state. */
  lemma {:induction false} OfferBackDispatches(t: Traffic, ls: seq<Listener>, ev: Event, h: Handlers)
    ensures var r := Dispatch(Reverse(ls), ev, h, t.error);
      OfferBack(t, ls, ev, h) == t.(delivered := t.delivered + Deliveries(r.0, ev), error := r.1)
    decreases |ls|
  {
    if !t.error && ls != [] {
      var l := ls[|ls| - 1];
      var init := ls[..|ls| - 1];
      assert Reverse(ls)[0] == l && Reverse(ls)[1..] == Reverse(init);
      if !h.handles(l, ev) {
        var t1 := Notify(t, l, ev, h);
        OfferBackDispatches(t1, init, ev, h);
        var rest := Dispatch(Reverse(init), ev, h, t1.error);
        assert ([l] + rest.0)[1..] == rest.0;
        assert t.delivered + ([Delivery(l, ev)] + Deliveries(rest.0, ev))
               == (t.delivered + [Delivery(l, ev)]) + Deliveries(rest.0, ev);
      } else {
        assert [l][1..] == [];
      }
    } else {
      assert t.delivered + [] == t.delivered;
    }
  }

  /** Posting records the event, then the calls `Dispatch` makes in the
      order of the event's kind, and the error state it leaves. */
  lemma PostDispatches(t: Traffic, listeners: seq<Listener>, ev: Event, h: Handlers)
    ensures var r := Dispatch(Order(listeners, ev.kind), ev, h, t.error);
      Post(t, listeners, ev, h) == Traffic(t.posted + [ev], t.delivered + Deliveries(r.0, ev), r.1)
  {
    var t' := t.(posted := t.posted + [ev]);
    if IsInputEvent(ev.kind) {
      OfferBackDispatches(t', listeners, ev, h);
    } else {
      OfferFrontDispatches(t', listeners, ev, h);
    }
  }

  /** Posting `evs` one after the other. */
  function PostEvents(t: Traffic, listeners: seq<Listener>, evs: seq<Event>, h: Handlers): Traffic {
    if evs == [] then t
    else Post(PostEvents(t, listeners, evs[..|evs| - 1], h), listeners, evs[|evs| - 1], h)
  }

  lemma PostEventsSnoc(t: Traffic, listeners: seq<Listener>, evs: seq<Event>, ev: Event, h: Handlers)
    ensures PostEvents(t, listeners, evs + [ev], h) == Post(PostEvents(t, listeners, evs, h), listeners, ev, h)
  {
    assert (evs + [ev])[..|evs|] == evs;
  }

  /** Posting records exactly the events posted, and only appends to the
      listener calls. */
  lemma {:induction false} PostEventsRecords(t: Traffic, listeners: seq<Listener>, evs: seq<Event>, h: Handlers)
    ensures PostEvents(t, listeners, evs, h).posted == t.posted + evs
    ensures |PostEvents(t, listeners, evs, h).delivered| >= |t.delivered|
    ensures PostEvents(t, listeners, evs, h).delivered[..|t.delivered|] == t.delivered
  {
    if evs != [] {
      var init := evs[..|evs| - 1];
      PostEventsRecords(t, listeners, init, h);
      var p := PostEvents(t, listeners, init, h);
      PostDispatches(p, listeners, evs[|evs| - 1], h);
      assert p.posted + [evs[|evs| - 1]] == t.posted + (init + [evs[|evs| - 1]]);
      assert init + [evs[|evs| - 1]] == evs;
      var q := PostEvents(t, listeners, evs, h);
      assert q.delivered[..|p.delivered|] == p.delivered;
      assert q.delivered[..|t.delivered|] == p.delivered[..|t.delivered|];
    }
  }

  /** Once the error is set, events are still recorded but no listener is
      called any more. */
  lemma {:induction false} PostEventsAfterError(t: Traffic, listeners: seq<Listener>, evs: seq<Event>, h: Handlers)
    requires t.error
    ensures PostEvents(t, listeners, evs, h).delivered == t.delivered
    ensures PostEvents(t, listeners, evs, h).error
    decreases |evs|
  {
    if evs != [] {
      PostEventsAfterError(t, listeners, evs[..|evs| - 1], h);
      PostDispatches(PostEvents(t, listeners, evs[..|evs| - 1], h), listeners, evs[|evs| - 1], h);
    }
  }

  // ---------------------------------------------------------------------
  // Listener list

  predicate NoDuplicates(s: seq<Listener>) {
    forall i, j :: 0 <= i < j < |s| ==> s[i] != s[j]
  }

  /** The list after `removeItem(l)`: the first occurrence taken out. */
  function Without(s: seq<Listener>, l: Listener): (r: seq<Listener>)
    ensures l in s ==> |r| == |s| - 1
    ensures l !in s ==> r == s
    ensures forall x :: x in r ==> x in s
    ensures forall x :: x in s && x != l ==> x in r
  {
    if s == [] then []
    else if s[0] == l then s[1..]
    else [s[0]] + Without(s[1..], l)
  }

  /** Removing from a list without duplicates removes the listener
      entirely and keeps the list free of duplicates. */
  lemma {:induction false} WithoutRemoves(s: seq<Listener>, l: Listener)
    requires NoDuplicates(s)
    ensures l !in Without(s, l) && NoDuplicates(Without(s, l))
    decreases |s|
  {
    if s != [] && s[0] != l {
      assert NoDuplicates(s[1..]) by {
        forall i, j | 0 <= i < j < |s[1..]| ensures s[1..][i] != s[1..][j] {
          assert s[1..][i] == s[i + 1] && s[1..][j] == s[j + 1];
        }
      }
      WithoutRemoves(s[1..], l);
      var r := Without(s, l);
      forall i, j | 0 <= i < j < |r| ensures r[i] != r[j] {
        if i == 0 {
          assert r[j] in Without(s[1..], l);
          assert s[0] !in s[1..] by {
            forall k | 0 <= k < |s[1..]| ensures s[1..][k] != s[0] {
              assert s[1..][k] == s[k + 1];
            }
          }
        } else {
          assert r[i] == Without(s[1..], l)[i - 1] && r[j] == Without(s[1..], l)[j - 1];
        }
      }
    } else if s != [] {
      assert l !in s[1..] by {
        forall k | 0 <= k < |s[1..]| ensures s[1..][k] != l {
          assert s[1..][k] == s[k + 1];
        }
      }
      forall i, j | 0 <= i < j < |s[1..]| ensures s[1..][i] != s[1..][j] {
        assert s[1..][i] == s[i + 1] && s[1..][j] == s[j + 1];
      }
    }
  }

  /** `removeListeners` notifies the listeners last to first. */
  function RemovalNotices(listeners: seq<Listener>, ev: Event): seq<Delivery> {
    if listeners == [] then []
    else [Delivery(listeners[|listeners| - 1], ev)] + RemovalNotices(listeners[..|listeners| - 1], ev)
  }

  /** Direct `handleEvent(ev)` calls on `listeners`, last to first. */
  function NotifyLastFirst(t: Traffic, listeners: seq<Listener>, ev: Event, h: Handlers): Traffic
    decreases |listeners|
  {
    if listeners == [] then t
    else NotifyLastFirst(Notify(t, listeners[|listeners| - 1], ev, h), listeners[..|listeners| - 1], ev, h)
  }

  /** Whether a removal notice to one of `listeners` sets the error. */
  predicate AnyRaises(listeners: seq<Listener>, ev: Event, h: Handlers) {
    exists l :: l in listeners && h.raisesError(l, ev)
  }

  /** Notifying the listeners last to first gives each one notice, in
      that order, and sets the error if any of them raises it. */
  lemma {:induction false} NotifyLastFirstEffect(t: Traffic, listeners: seq<Listener>, ev: Event, h: Handlers)
    ensures NotifyLastFirst(t, listeners, ev, h)
            == t.(delivered := t.delivered + RemovalNotices(listeners, ev),
                  error := t.error || AnyRaises(listeners, ev, h))
    decreases |listeners|
  {
    if listeners != [] {
      var x := listeners[|listeners| - 1];
      var init := listeners[..|listeners| - 1];
      NotifyLastFirstEffect(Notify(t, x, ev, h), init, ev, h);
      assert t.delivered + [Delivery(x, ev)] + RemovalNotices(init, ev) == t.delivered + RemovalNotices(listeners, ev);
      assert listeners == init + [x];
      assert AnyRaises(listeners, ev, h) == (h.raisesError(x, ev) || AnyRaises(init, ev, h));
    }
  }

  // ---------------------------------------------------------------------
  // Wheel

  /** `n` press and release pairs of `key`. */
  function PressRelease(key: string, n: nat, known: bool, pos: Vec2, dragCount: int): seq<Event> {
    if n == 0 then []
    else PressRelease(key, n - 1, known, pos, dragCount)
         + [KeyEventAt(true, key, known, pos, dragCount), KeyEventAt(false, key, known, pos, dragCount)]
  }

  /** `n` pairs are `2 * n` events alternating press and release. */
  lemma {:induction false} PressReleaseAt(key: string, n: nat, known: bool, pos: Vec2, dragCount: int)
    ensures |PressRelease(key, n, known, pos, dragCount)| == 2 * n
    ensures forall i :: 0 <= i < n ==>
      PressRelease(key, n, known, pos, dragCount)[2 * i] == KeyEventAt(true, key, known, pos, dragCount) &&
      PressRelease(key, n, known, pos, dragCount)[2 * i + 1] == KeyEventAt(false, key, known, pos, dragCount)
  {
    if n > 0 {
      PressReleaseAt(key, n - 1, known, pos, dragCount);
    }
  }

  /** Whole notches (120 units) in an accumulated wheel delta, positive
      upwards. */
  function Notches(acc: int): int {
    if acc >= 120 then acc / 120 else if acc <= -120 then -((-acc) / 120) else 0
  }

  /** What stays in the accumulator. */
  function WheelRest(acc: int): int {
    if acc >= 120 then acc % 120 else if acc <= -120 then -((-acc) % 120) else acc
  }

  /** The events a wheel delta posts. */
  function WheelEvents(acc: int, known: bool, pos: Vec2, dragCount: int): seq<Event> {
    if acc >= 120 then PressRelease(KeyWheelUp, acc / 120, known, pos, dragCount)
    else if acc <= -120 then PressRelease(KeyWheelDown, (-acc) / 120, known, pos, dragCount)
    else []
  }

  /** The delta is split into whole notches and a rest strictly inside
      (-120, 120) of the same sign, and nothing is lost. */
  lemma WheelSplits(acc: int)
    ensures -120 < WheelRest(acc) < 120
    ensures acc == 120 * Notches(acc) + WheelRest(acc)
    ensures acc >= 0 ==> WheelRest(acc) >= 0
    ensures acc <= 0 ==> WheelRest(acc) <= 0
    ensures |WheelEvents(acc, false, Zero, 0)| == 2 * (if acc >= 0 then Notches(acc) else -Notches(acc))
  {
    if acc >= 120 {
      PressReleaseAt(KeyWheelUp, acc / 120, false, Zero, 0);
    } else if acc <= -120 {
      assert -acc == 120 * ((-acc) / 120) + (-acc) % 120;
      PressReleaseAt(KeyWheelDown, (-acc) / 120, false, Zero, 0);
    }
  }

  lemma DivideByNotch(a: int, n: int, acc: int)
    requires a == acc + 120 * n && 0 <= acc < 120
    ensures n == a / 120 && acc == a % 120
  {
  }

  lemma DivideDownByNotch(a: int, n: int, acc: int)
    requires a == acc - 120 * n && -120 < acc <= 0
    ensures n == (-a) / 120 && acc == -((-a) % 120)
  {
    DivideByNotch(-a, n, -acc);
  }

  // ---------------------------------------------------------------------
  // Keys held down

  /** `order` visits every key of `keys` once (the set's slot order). */
  predicate EnumeratesKeys(keys: set<string>, order: seq<string>) {
    multiset(order) == multiset(keys)
  }

  /** An enumeration lists only held keys, every held key, and none twice. */
  lemma EnumeratesEachOnce(keys: set<string>, order: seq<string>)
    requires EnumeratesKeys(keys, order)
    ensures forall i :: 0 <= i < |order| ==> order[i] in keys
    ensures forall k :: k in keys ==> k in order
    ensures forall i, j :: 0 <= i < j < |order| ==> order[i] != order[j]
    ensures |order| == |keys|
  {
    forall i | 0 <= i < |order| ensures order[i] in keys {
      assert order[i] in multiset(order);
    }
    forall k | k in keys ensures k in order {
      assert k in multiset(keys);
    }
    forall i, j | 0 <= i < j < |order| ensures order[i] != order[j] {
      assert order == order[..i] + [order[i]] + order[i + 1..j] + [order[j]] + order[j + 1..];
      assert multiset(keys)[order[i]] <= 1;
    }
    assert |multiset(order)| == |order|;
  }

  /** The key-up events of the flush, one per held key. */
  function KeyUps(order: seq<string>, known: bool, pos: Vec2, dragCount: int): seq<Event> {
    if order == [] then []
    else KeyUps(order[..|order| - 1], known, pos, dragCount) + [KeyEventAt(false, order[|order| - 1], known, pos, dragCount)]
  }

  /** The flush releases exactly the keys of `order`, in that order. */
  lemma {:induction false} KeyUpsAt(order: seq<string>, known: bool, pos: Vec2, dragCount: int)
    ensures |KeyUps(order, known, pos, dragCount)| == |order|
    ensures forall i :: 0 <= i < |order| ==> KeyUps(order, known, pos, dragCount)[i] == KeyEventAt(false, order[i], known, pos, dragCount)
  {
    if order != [] {
      KeyUpsAt(order[..|order| - 1], known, pos, dragCount);
    }
  }

  /** The character events of a key press. */
  function CharEvents(text: seq<int>, known: bool, pos: Vec2, dragCount: int): seq<Event> {
    if text == [] then []
    else CharEvents(text[..|text| - 1], known, pos, dragCount) + [CharEventAt(text[|text| - 1], known, pos, dragCount)]
  }

  /** One character event per text unit, in order. */
  lemma {:induction false} CharEventsAt(text: seq<int>, known: bool, pos: Vec2, dragCount: int)
    ensures |CharEvents(text, known, pos, dragCount)| == |text|
    ensures forall i :: 0 <= i < |text| ==> CharEvents(text, known, pos, dragCount)[i] == CharEventAt(text[i], known, pos, dragCount)
  {
    if text != [] {
      CharEventsAt(text[..|text| - 1], known, pos, dragCount);
    }
  }

  /** The events of a key press or release: the key event when the key has
      a name, then one character event per text unit of a press. */
  function KeyInputEvents(down: bool, key: string, text: seq<int>, known: bool, pos: Vec2, dragCount: int): seq<Event> {
    (if key != "" then [KeyEventAt(down, key, known, pos, dragCount)] else [])
    + (if down then CharEvents(text, known, pos, dragCount) else [])
  }

  /** Posting `a` and then `b` is posting `a + b`. */
  lemma {:induction false} PostEventsConcat(t: Traffic, listeners: seq<Listener>, a: seq<Event>, b: seq<Event>, h: Handlers)
    ensures PostEvents(t, listeners, a + b, h) == PostEvents(PostEvents(t, listeners, a, h), listeners, b, h)
    decreases |b|
  {
    if b == [] {
      assert a + b == a;
    } else {
      var init := b[..|b| - 1];
      PostEventsConcat(t, listeners, a, init, h);
      assert (a + b)[..|a + b| - 1] == a + init;
      assert (a + b)[|a + b| - 1] == b[|b| - 1];
    }
  }

  /** Posting one more press and release pair. */
  lemma PostPressReleaseStep(t: Traffic, listeners: seq<Listener>, key: string, n: nat, known: bool, pos: Vec2,
                             dragCount: int, h: Handlers)
    ensures PostEvents(t, listeners, PressRelease(key, n + 1, known, pos, dragCount), h)
            == Post(Post(PostEvents(t, listeners, PressRelease(key, n, known, pos, dragCount), h), listeners,
                         KeyEventAt(true, key, known, pos, dragCount), h), listeners,
                    KeyEventAt(false, key, known, pos, dragCount), h)
  {
    var before := PressRelease(key, n, known, pos, dragCount);
    var press := KeyEventAt(true, key, known, pos, dragCount);
    var release := KeyEventAt(false, key, known, pos, dragCount);
    assert PressRelease(key, n + 1, known, pos, dragCount) == (before + [press]) + [release];
    PostEventsSnoc(t, listeners, before + [press], release, h);
    PostEventsSnoc(t, listeners, before, press, h);
  }

  /** The traffic after `n` notches of `key` posted from `t`, counted by
      notch. */
  function Notched(t: Traffic, listeners: seq<Listener>, key: string, n: nat, known: bool, pos: Vec2,
                   dragCount: int, h: Handlers): Traffic
  {
    if n == 0 then t
    else Post(Post(Notched(t, listeners, key, n - 1, known, pos, dragCount, h), listeners,
                   KeyEventAt(true, key, known, pos, dragCount), h), listeners,
              KeyEventAt(false, key, known, pos, dragCount), h)
  }

  /** Counting by notch is posting the press and release events. */
  lemma {:induction false} NotchedPostsPressRelease(t: Traffic, listeners: seq<Listener>, key: string, n: nat,
                                                   known: bool, pos: Vec2, dragCount: int, h: Handlers)
    ensures Notched(t, listeners, key, n, known, pos, dragCount, h)
            == PostEvents(t, listeners, PressRelease(key, n, known, pos, dragCount), h)
  {
    if n > 0 {
      NotchedPostsPressRelease(t, listeners, key, n - 1, known, pos, dragCount, h);
      PostPressReleaseStep(t, listeners, key, n - 1, known, pos, dragCount, h);
    }
  }

  /** The two wheel loops one after the other: the first leaves a rest in
      [0, 120) when it runs, so the second runs only when the first did not;
      together they leave the rest of `acc` and post its wheel events. */
  lemma WheelLoops(t0: Traffic, t1: Traffic, t2: Traffic, listeners: seq<Listener>, acc: int, acc1: int, acc2: int,
                   known: bool, pos: Vec2, dragCount: int, h: Handlers)
    requires acc < 120 ==> acc1 == acc && t1 == t0
    requires acc >= 120 ==> acc1 == acc % 120 && t1 == Notched(t0, listeners, KeyWheelUp, acc / 120, known, pos, dragCount, h)
    requires acc1 > -120 ==> acc2 == acc1 && t2 == t1
    requires acc1 <= -120 ==>
               acc2 == -((-acc1) % 120) && t2 == Notched(t1, listeners, KeyWheelDown, (-acc1) / 120, known, pos, dragCount, h)
    ensures acc2 == WheelRest(acc) && -120 < acc2 < 120
    ensures t2 == PostEvents(t0, listeners, WheelEvents(acc, known, pos, dragCount), h)
  {
    if acc >= 120 {
      NotchedPostsPressRelease(t0, listeners, KeyWheelUp, acc / 120, known, pos, dragCount, h);
    } else if acc <= -120 {
      NotchedPostsPressRelease(t0, listeners, KeyWheelDown, (-acc) / 120, known, pos, dragCount, h);
    }
  }

  /** Posting the key-up event of one more key. */
  lemma PostKeyUpStep(t: Traffic, listeners: seq<Listener>, order: seq<string>, i: nat, known: bool, pos: Vec2,
                      dragCount: int, h: Handlers)
    requires i < |order|
    ensures PostEvents(t, listeners, KeyUps(order[..i + 1], known, pos, dragCount), h)
            == Post(PostEvents(t, listeners, KeyUps(order[..i], known, pos, dragCount), h), listeners,
                    KeyEventAt(false, order[i], known, pos, dragCount), h)
  {
    assert order[..i + 1][..i] == order[..i];
    PostEventsSnoc(t, listeners, KeyUps(order[..i], known, pos, dragCount), KeyEventAt(false, order[i], known, pos, dragCount), h);
  }

  /** Posting the character event of one more text unit. */
  lemma PostCharStep(t: Traffic, listeners: seq<Listener>, text: seq<int>, i: nat, known: bool, pos: Vec2,
                     dragCount: int, h: Handlers)
    requires i < |text|
    ensures PostEvents(t, listeners, CharEvents(text[..i + 1], known, pos, dragCount), h)
            == Post(PostEvents(t, listeners, CharEvents(text[..i], known, pos, dragCount), h), listeners,
                    CharEventAt(text[i], known, pos, dragCount), h)
  {
    assert text[..i + 1][..i] == text[..i];
    PostEventsSnoc(t, listeners, CharEvents(text[..i], known, pos, dragCount), CharEventAt(text[i], known, pos, dragCount), h);
  }

  /** The key of a mouse button, the empty name for another button. */
  function ButtonKey(b: MouseButton): (k: string)
    ensures b != OtherButton ==> k in MouseKeys
  {
    match b
    case LeftButton => KeyMouseLeft
    case MidButton => KeyMouseMiddle
    case RightButton => KeyMouseRight
    case OtherButton => ""
  }

  /** Distinct buttons have distinct keys. */
  lemma ButtonKeysDistinct(a: MouseButton, b: MouseButton)
    requires a != OtherButton && b != OtherButton && a != b
    ensures ButtonKey(a) != ButtonKey(b)
  {
  }

  /** The drag count after a button press or release: up one for a newly
      held button, down one for a released held button. */
  function DragCountAfter(down: bool, key: string, keysDown: set<string>, dragCount: int): int {
    if down && key !in keysDown then dragCount + 1
    else if !down && key in keysDown then dragCount - 1
    else dragCount
  }

  function KeysAfter(down: bool, key: string, keysDown: set<string>): set<string> {
    if down then keysDown + {key} else keysDown - {key}
  }

  /** A press or release keeps the drag count equal to the number of mouse
      buttons held down, and pressing twice or releasing twice is the same
      as doing it once. */
  lemma DragCountTracksButtons(down: bool, key: string, keysDown: set<string>, dragCount: int)
    requires key in MouseKeys && dragCount == |keysDown * MouseKeys|
    ensures DragCountAfter(down, key, keysDown, dragCount) == |KeysAfter(down, key, keysDown) * MouseKeys|
    ensures KeysAfter(down, key, KeysAfter(down, key, keysDown)) == KeysAfter(down, key, keysDown)
    ensures DragCountAfter(down, key, KeysAfter(down, key, keysDown), DragCountAfter(down, key, keysDown, dragCount))
            == DragCountAfter(down, key, keysDown, dragCount)
  {
    if down && key !in keysDown {
      PressAddsButton(key, keysDown);
    } else if !down && key in keysDown {
      ReleaseRemovesButton(key, keysDown);
    } else {
      assert KeysAfter(down, key, keysDown) == keysDown;
    }
  }

  lemma PressAddsButton(key: string, keysDown: set<string>)
    requires key in MouseKeys && key !in keysDown
    ensures |(keysDown + {key}) * MouseKeys| == |keysDown * MouseKeys| + 1
  {
    var held := keysDown * MouseKeys;
    assert (keysDown + {key}) * MouseKeys == held + {key};
  }

  lemma ReleaseRemovesButton(key: string, keysDown: set<string>)
    requires key in MouseKeys && key in keysDown
    ensures |(keysDown - {key}) * MouseKeys| == |keysDown * MouseKeys| - 1
  {
    var rest := (keysDown - {key}) * MouseKeys;
    assert keysDown * MouseKeys == rest + {key};
  }

  /** A key that is not a mouse button leaves the mouse buttons held as
      they were. */
  lemma OtherKeyKeepsButtons(down: bool, key: string, keysDown: set<string>)
    requires key !in MouseKeys
    ensures KeysAfter(down, key, keysDown) * MouseKeys == keysDown * MouseKeys
  {
  }

  // ---------------------------------------------------------------------
  // Windows

  /** `s_inited` and `s_open`. */
  class OpenWindows {
    var inited: bool
    var open: seq<Window>

    ghost predicate Valid()
      reads this
    {
      !inited ==> open == []
    }

    constructor()
      ensures Valid() && !inited && open == []
    {
      inited := false;
      open := [];
    }

    /** `staticInit`, as far as the list of open windows goes. */
    method StaticInit()
      requires Valid()
      modifies this
      ensures Valid() && inited && open == old(open)
    {
      if inited {
        return;
      }
      inited := true;
      open := [];
    }

    /** `getNumOpen`. */
    method GetNumOpen() returns (n: nat)
      requires Valid()
      ensures n == (if inited then |open| else 0)
      ensures n == |open|
    {
      n := if inited then |open| else 0;
    }
  }

  class Window {
    const handlers: Handlers
    var listeners: seq<Listener>
    var isFullScreen: bool
    var pendingSize: Vec2
    var keysDown: set<string>
    var pendingKeyFlush: bool
    var mouseKnown: bool
    var mousePos: Vec2
    var mouseDragCount: int
    var mouseWheelAcc: int
    /** `incNestingLevel`'s counter. */
    var nestingLevel: int
    var traffic: Traffic
    var widgetCalls: seq<WidgetCall>

    /** No listener twice and none NULL. */
    ghost predicate ListenersValid()
      reads this`listeners
    {
      NoDuplicates(listeners) && 0 !in listeners
    }

    /** A pending size only while full screen. */
    ghost predicate SizeValid()
      reads this`isFullScreen, this`pendingSize
    {
      (pendingSize == NoSize || (pendingSize.x >= 0 && pendingSize.y >= 0)) &&
      (!isFullScreen ==> pendingSize == NoSize)
    }

    /** The drag count is the number of mouse buttons held, except while a
        key flush is pending, when it is 0. */
    ghost predicate ButtonsValid()
      reads this`pendingKeyFlush, this`mouseDragCount, this`keysDown
    {
      (pendingKeyFlush ==> mouseDragCount == 0) &&
      (!pendingKeyFlush ==> mouseDragCount == |keysDown * MouseKeys|)
    }

    /** The wheel accumulator holds less than a notch. */
    ghost predicate WheelValid()
      reads this`mouseWheelAcc
    {
      -120 < mouseWheelAcc < 120
    }

    ghost predicate Valid()
      reads this`listeners, this`isFullScreen, this`pendingSize, this`pendingKeyFlush,
            this`mouseDragCount, this`keysDown, this`mouseWheelAcc
    {
      ListenersValid() && SizeValid() && ButtonsValid() && WheelValid()
    }

    /** `Window()`: defaults, the default size applied to the widget, not
        full screen, and the window added to the open windows. */
    constructor(statics: OpenWindows, handlers: Handlers)
      requires statics.Valid()
      modifies statics
      ensures Valid() && statics.Valid()
      ensures this.handlers == handlers && listeners == [] && !isFullScreen && pendingSize == NoSize
      ensures keysDown == {} && !pendingKeyFlush && !mouseKnown && mousePos == Zero
      ensures mouseDragCount == 0 && mouseWheelAcc == 0 && nestingLevel == 0
      ensures traffic == Traffic([], [], false) && widgetCalls == [ResizeWidget(DefaultSize)]
      ensures statics.inited && statics.open == old(statics.open) + [this]
    {
      this.handlers := handlers;
      listeners := [];
      isFullScreen := false;
      pendingSize := NoSize;
      keysDown := {};
      pendingKeyFlush := false;
      mouseKnown := false;
      mousePos := Zero;
      mouseDragCount := 0;
      mouseWheelAcc := 0;
      nestingLevel := 0;
      traffic := Traffic([], [], false);
      widgetCalls := [];
      new;
      statics.StaticInit();
      SetSize(DefaultSize);
      SetFullScreen(false);
      statics.open := statics.open + [this];
    }

    // --- events

    /** `createGenericEvent`. */
    method CreateGenericEvent(kind: EventType, key: string, chr: int, known: bool, pos: Vec2) returns (ev: Event)
      ensures ev == GenericEvent(kind, key, chr, known, pos, mouseKnown, mousePos, mouseDragCount)
    {
      var delta := if known && mouseKnown then Sub(pos, mousePos) else Zero;
      ev := Event(kind, key, chr, known, pos, delta, IsMouseDragging());
    }

    /** `createSimpleEvent`. */
    method CreateSimpleEvent(kind: EventType) returns (ev: Event)
      ensures ev == SimpleEventAt(kind, mouseKnown, mousePos, mouseDragCount)
    {
      ev := CreateGenericEvent(kind, "", 0, mouseKnown, mousePos);
    }

    /** `createKeyEvent`. */
    method CreateKeyEvent(down: bool, key: string) returns (ev: Event)
      ensures ev == KeyEventAt(down, key, mouseKnown, mousePos, mouseDragCount)
    {
      ev := CreateGenericEvent(if down then KeyDown else KeyUp, key, 0, mouseKnown, mousePos);
    }

    /** `createCharEvent`. */
    method CreateCharEvent(chr: int) returns (ev: Event)
      ensures ev == CharEventAt(chr, mouseKnown, mousePos, mouseDragCount)
    {
      ev := CreateGenericEvent(Char, "", chr, mouseKnown, mousePos);
    }

    /** `createMouseEvent`. */
    method CreateMouseEvent(known: bool, pos: Vec2) returns (ev: Event)
      ensures ev == GenericEvent(Mouse, "", 0, known, pos, mouseKnown, mousePos, mouseDragCount)
    {
      ev := CreateGenericEvent(Mouse, "", 0, known, pos);
    }

    /** `isKeyDown`. */
    predicate IsKeyDown(key: string)
      reads this`keysDown
    {
      key in keysDown
    }

    /** `isMouseDragging`. */
    predicate IsMouseDragging()
      reads this`mouseDragCount
    {
      mouseDragCount != 0
    }

    /** With no key flush pending, dragging means some mouse button is held. */
    lemma DraggingMeansButtonHeld()
      requires Valid() && !pendingKeyFlush
      ensures IsMouseDragging() <==> exists k :: k in MouseKeys && IsKeyDown(k)
    {
      if IsMouseDragging() {
        var k :| k in keysDown * MouseKeys;
        assert k in MouseKeys && IsKeyDown(k);
      } else {
        assert keysDown * MouseKeys == {};
        forall k | k in MouseKeys ensures !IsKeyDown(k) {
          assert k !in keysDown * MouseKeys;
        }
      }
    }

    /** `postEvent(ev)`: record the event's mouse state, then offer it to
        the listeners in dispatch order until one consumes it or the error
        is set. */
    method PostEvent(ev: Event)
      modifies this`mouseKnown, this`mousePos, this`traffic
      ensures mouseKnown == ev.mouseKnown && mousePos == ev.mousePos
      ensures traffic == Post(old(traffic), listeners, ev, handlers)
    {
      mouseKnown := ev.mouseKnown;
      mousePos := ev.mousePos;
      traffic := traffic.(posted := traffic.posted + [ev]);
      if IsInputEvent(ev.kind) {
        OfferLastFirst(ev);
      } else {
        OfferFirstLast(ev);
      }
    }

    /** The dispatch loop of an input event: last listener first. */
    method OfferLastFirst(ev: Event)
      modifies this`traffic
      ensures traffic == OfferBack(old(traffic), listeners, ev, handlers)
    {
      var i := |listeners| - 1;
      assert listeners[..i + 1] == listeners;
      while i >= 0
        invariant -1 <= i < |listeners|
        invariant OfferBack(old(traffic), listeners, ev, handlers) == OfferBack(traffic, listeners[..i + 1], ev, handlers)
        decreases i
      {
        if traffic.error {
          break;
        }
        var l := listeners[i];
        assert listeners[..i + 1][i] == l && listeners[..i + 1][..i] == listeners[..i];
        traffic := Notify(traffic, l, ev, handlers);
        if handlers.handles(l, ev) {
          break;
        }
        i := i - 1;
      }
    }

    /** The dispatch loop of any other event: first listener first. */
    method OfferFirstLast(ev: Event)
      modifies this`traffic
      ensures traffic == OfferFront(old(traffic), listeners, ev, handlers)
    {
      var i := 0;
      while i < |listeners|
        invariant 0 <= i <= |listeners|
        invariant OfferFront(old(traffic), listeners, ev, handlers) == OfferFront(traffic, listeners[i..], ev, handlers)
      {
        if traffic.error {
          break;
        }
        var l := listeners[i];
        assert listeners[i..][0] == l && listeners[i..][1..] == listeners[i + 1..];
        traffic := Notify(traffic, l, ev, handlers);
        i := i + 1;
        if handlers.handles(l, ev) {
          break;
        }
      }
    }

    // --- listeners

    /** `addListener`: NULL and listeners already present are ignored;
        otherwise the listener is appended and told so. */
    method AddListener(l: Listener)
      requires ListenersValid()
      modifies this`listeners, this`traffic
      ensures ListenersValid()
      ensures l == 0 || l in old(listeners) ==> listeners == old(listeners) && traffic == old(traffic)
      ensures l != 0 && l !in old(listeners) ==>
                listeners == old(listeners) + [l] &&
                traffic == Notify(old(traffic), l, SimpleEventAt(EventType.AddListener, mouseKnown, mousePos, mouseDragCount), handlers)
    {
      if l == 0 || l in listeners {
        return;
      }
      listeners := listeners + [l];
      var ev := CreateSimpleEvent(EventType.AddListener);
      traffic := Notify(traffic, l, ev, handlers);
    }

    /** `removeListener`: absent listeners are ignored; otherwise the
        listener is taken out and told so. */
    method RemoveListener(l: Listener)
      requires ListenersValid()
      modifies this`listeners, this`traffic
      ensures ListenersValid()
      ensures l !in old(listeners) ==> listeners == old(listeners) && traffic == old(traffic)
      ensures l in old(listeners) ==>
                listeners == Without(old(listeners), l) && l !in listeners &&
                traffic == Notify(old(traffic), l, SimpleEventAt(EventType.RemoveListener, mouseKnown, mousePos, mouseDragCount), handlers)
    {
      if l !in listeners {
        return;
      }
      WithoutRemoves(listeners, l);
      listeners := Without(listeners, l);
      var ev := CreateSimpleEvent(EventType.RemoveListener);
      traffic := Notify(traffic, l, ev, handlers);
    }

    /** `removeListeners`: remove the last listener until none is left. */
    method RemoveListeners()
      requires ListenersValid()
      modifies this`listeners, this`traffic
      ensures ListenersValid() && listeners == []
      ensures traffic == NotifyLastFirst(old(traffic), old(listeners), SimpleEventAt(EventType.RemoveListener, mouseKnown, mousePos, mouseDragCount), handlers)
    {
      ghost var ev := SimpleEventAt(EventType.RemoveListener, mouseKnown, mousePos, mouseDragCount);
      while |listeners| > 0
        invariant ListenersValid()
        invariant NotifyLastFirst(traffic, listeners, ev, handlers) == NotifyLastFirst(old(traffic), old(listeners), ev, handlers)
        decreases |listeners|
      {
        var last := listeners[|listeners| - 1];
        WithoutLast(listeners);
        RemoveListener(last);
      }
    }

    // --- size and full screen

    /** `setSize`: deferred while full screen. */
    method SetSize(size: Vec2)
      requires SizeValid() && size.x >= 0 && size.y >= 0
      modifies this`pendingSize, this`widgetCalls
      ensures SizeValid()
      ensures isFullScreen ==> pendingSize == size && widgetCalls == old(widgetCalls)
      ensures !isFullScreen ==> pendingSize == old(pendingSize) && widgetCalls == old(widgetCalls) + [ResizeWidget(size)]
    {
      if isFullScreen {
        pendingSize := size;
        return;
      }
      widgetCalls := widgetCalls + [ResizeWidget(size)];
    }

    /** `setFullScreen`: nothing when unchanged; leaving full screen applies
        the pending size, if any, and clears it. */
    method SetFullScreen(isFull: bool)
      requires SizeValid()
      modifies this`isFullScreen, this`pendingSize, this`widgetCalls
      ensures SizeValid() && isFullScreen == isFull
      ensures old(isFullScreen) == isFull ==> pendingSize == old(pendingSize) && widgetCalls == old(widgetCalls)
      ensures !old(isFullScreen) && isFull ==> pendingSize == NoSize && widgetCalls == old(widgetCalls) + [ShowFullScreen]
      ensures old(isFullScreen) && !isFull ==>
                pendingSize == NoSize &&
                widgetCalls == old(widgetCalls) + [ShowNormal]
                               + (if old(pendingSize) != NoSize then [ResizeWidget(old(pendingSize))] else [])
    {
      if isFullScreen == isFull {
        return;
      }
      isFullScreen := isFull;
      if isFull {
        widgetCalls := widgetCalls + [ShowFullScreen];
      } else {
        widgetCalls := widgetCalls + [ShowNormal];
        if pendingSize.x != -1 {
          var size := pendingSize;
          pendingSize := NoSize;
          SetSize(size);
        }
      }
    }

    /** `toggleFullScreen`. */
    method ToggleFullScreen()
      requires SizeValid()
      modifies this`isFullScreen, this`pendingSize, this`widgetCalls
      ensures SizeValid() && isFullScreen == !old(isFullScreen)
      ensures !old(isFullScreen) ==> pendingSize == NoSize && widgetCalls == old(widgetCalls) + [ShowFullScreen]
      ensures old(isFullScreen) ==>
                pendingSize == NoSize &&
                widgetCalls == old(widgetCalls) + [ShowNormal]
                               + (if old(pendingSize) != NoSize then [ResizeWidget(old(pendingSize))] else [])
    {
      SetFullScreen(!isFullScreen);
    }

    // --- input

    /** The wheel case of `event(QEvent*)`: add the delta, then post a press
        and release of the wheel key per whole notch. */
    method Wheel(delta: int)
      requires WheelValid()
      modifies this`mouseWheelAcc, this`mouseKnown, this`mousePos, this`traffic
      ensures WheelValid() && mouseKnown == old(mouseKnown) && mousePos == old(mousePos)
      ensures mouseWheelAcc == WheelRest(old(mouseWheelAcc) + delta)
      ensures traffic == PostEvents(old(traffic), listeners, WheelEvents(old(mouseWheelAcc) + delta, mouseKnown, mousePos, mouseDragCount), handlers)
    {
      mouseWheelAcc := mouseWheelAcc + delta;
      ghost var acc := mouseWheelAcc;
      WheelUps();
      ghost var acc1, traffic1 := mouseWheelAcc, traffic;
      WheelDowns();
      WheelLoops(old(traffic), traffic1, traffic, listeners, acc, acc1, mouseWheelAcc, mouseKnown, mousePos, mouseDragCount, handlers);
    }

    /** One notch of a wheel loop: a press and a release of `key`, after
        `n` notches posted since `t0`. */
    method PostNotch(key: string, ghost t0: Traffic, ghost n: nat)
      requires traffic == Notched(t0, listeners, key, n, mouseKnown, mousePos, mouseDragCount, handlers)
      modifies this`mouseKnown, this`mousePos, this`traffic
      ensures mouseKnown == old(mouseKnown) && mousePos == old(mousePos)
      ensures traffic == Notched(t0, listeners, key, n + 1, mouseKnown, mousePos, mouseDragCount, handlers)
    {
      var press := CreateKeyEvent(true, key);
      PostEvent(press);
      var release := CreateKeyEvent(false, key);
      PostEvent(release);
    }

    /** The first wheel loop: a wheel-up press and release per notch while
        the accumulator holds one. */
    method WheelUps()
      modifies this`mouseWheelAcc, this`mouseKnown, this`mousePos, this`traffic
      ensures mouseKnown == old(mouseKnown) && mousePos == old(mousePos)
      ensures old(mouseWheelAcc) < 120 ==> mouseWheelAcc == old(mouseWheelAcc) && traffic == old(traffic)
      ensures old(mouseWheelAcc) >= 120 ==>
                mouseWheelAcc == old(mouseWheelAcc) % 120 &&
                traffic == Notched(old(traffic), listeners, KeyWheelUp, old(mouseWheelAcc) / 120, mouseKnown, mousePos, mouseDragCount, handlers)
    {
      ghost var ups := 0;
      while mouseWheelAcc >= 120
        invariant mouseKnown == old(mouseKnown) && mousePos == old(mousePos)
        invariant mouseWheelAcc == old(mouseWheelAcc) - 120 * ups && ups >= 0
        invariant ups > 0 ==> mouseWheelAcc >= 0
        invariant traffic == Notched(old(traffic), listeners, KeyWheelUp, ups, mouseKnown, mousePos, mouseDragCount, handlers)
        decreases mouseWheelAcc
      {
        PostNotch(KeyWheelUp, old(traffic), ups);
        mouseWheelAcc := mouseWheelAcc - 120;
        ups := ups + 1;
      }
      if ups > 0 {
        DivideByNotch(old(mouseWheelAcc), ups, mouseWheelAcc);
      }
    }

    /** The second wheel loop: a wheel-down press and release per notch
        while the accumulator holds minus one. */
    method WheelDowns()
      modifies this`mouseWheelAcc, this`mouseKnown, this`mousePos, this`traffic
      ensures mouseKnown == old(mouseKnown) && mousePos == old(mousePos)
      ensures old(mouseWheelAcc) > -120 ==> mouseWheelAcc == old(mouseWheelAcc) && traffic == old(traffic)
      ensures old(mouseWheelAcc) <= -120 ==>
                mouseWheelAcc == -((-old(mouseWheelAcc)) % 120) &&
                traffic == Notched(old(traffic), listeners, KeyWheelDown, (-old(mouseWheelAcc)) / 120, mouseKnown, mousePos, mouseDragCount, handlers)
    {
      ghost var downs := 0;
      while mouseWheelAcc <= -120
        invariant mouseKnown == old(mouseKnown) && mousePos == old(mousePos)
        invariant mouseWheelAcc == old(mouseWheelAcc) + 120 * downs && downs >= 0
        invariant downs > 0 ==> mouseWheelAcc <= 0
        invariant old(mouseWheelAcc) > -120 ==> downs == 0
        invariant traffic == Notched(old(traffic), listeners, KeyWheelDown, downs, mouseKnown, mousePos, mouseDragCount, handlers)
        decreases -mouseWheelAcc
      {
        PostNotch(KeyWheelDown, old(traffic), downs);
        mouseWheelAcc := mouseWheelAcc + 120;
        downs := downs + 1;
      }
      if downs > 0 {
        DivideDownByNotch(old(mouseWheelAcc), downs, mouseWheelAcc);
      }
    }

    /** The mouse-button cases of `event(QEvent*)`: track the button in the
        keys held down and the drag count, then post its key event; `false`
        for a button other than left, middle and right. */
    method MouseButtonInput(down: bool, b: MouseButton) returns (ok: bool)
      requires ButtonsValid() && !pendingKeyFlush
      modifies this`keysDown, this`mouseDragCount, this`widgetCalls, this`mouseKnown, this`mousePos, this`traffic
      ensures ButtonsValid() && ok == (b != OtherButton)
      ensures !ok ==> keysDown == old(keysDown) && mouseDragCount == old(mouseDragCount) && traffic == old(traffic) &&
                      widgetCalls == old(widgetCalls) && mouseKnown == old(mouseKnown) && mousePos == old(mousePos)
      ensures ok ==> keysDown == KeysAfter(down, ButtonKey(b), old(keysDown)) &&
                     mouseDragCount == DragCountAfter(down, ButtonKey(b), old(keysDown), old(mouseDragCount)) &&
                     mouseKnown == old(mouseKnown) && mousePos == old(mousePos) &&
                     traffic == Post(old(traffic), listeners, KeyEventAt(down, ButtonKey(b), mouseKnown, mousePos, mouseDragCount), handlers)
      ensures ok ==> widgetCalls == old(widgetCalls) + (if !down && ButtonKey(b) in old(keysDown) && mouseDragCount == 0 then [ReleaseMouse] else [])
    {
      if b == OtherButton {
        return false;
      }
      var key := ButtonKey(b);
      TrackButton(down, key);
      var ev := CreateKeyEvent(down, key);
      PostEvent(ev);
      ok := true;
    }

    /** The drag-status update of a mouse button: a newly pressed button
        is added and counted, a held button that is released is removed and
        uncounted, and the mouse is released with the last one. */
    method TrackButton(down: bool, key: string)
      requires ButtonsValid() && !pendingKeyFlush && key in MouseKeys
      modifies this`keysDown, this`mouseDragCount, this`widgetCalls
      ensures ButtonsValid()
      ensures keysDown == KeysAfter(down, key, old(keysDown))
      ensures mouseDragCount == DragCountAfter(down, key, old(keysDown), old(mouseDragCount))
      ensures widgetCalls == old(widgetCalls) + (if !down && key in old(keysDown) && mouseDragCount == 0 then [ReleaseMouse] else [])
    {
      DragCountTracksButtons(down, key, keysDown, mouseDragCount);
      if down && !(key in keysDown) {
        keysDown := keysDown + {key};
        mouseDragCount := mouseDragCount + 1;
      } else if !down && key in keysDown {
        keysDown := keysDown - {key};
        mouseDragCount := mouseDragCount - 1;
        if mouseDragCount == 0 {
          widgetCalls := widgetCalls + [ReleaseMouse];
        }
      }
    }

    /** The key cases of `event(QEvent*)`: post the key event of a named
        key and track it in the keys held down, then post a character event
        per text unit of a press. `key` comes from `qtkeyToKey`, which never
        names a mouse button. */
    method KeyInput(down: bool, key: string, text: seq<int>)
      requires ButtonsValid() && !pendingKeyFlush && key !in MouseKeys
      modifies this`keysDown, this`mouseKnown, this`mousePos, this`traffic
      ensures ButtonsValid() && mouseKnown == old(mouseKnown) && mousePos == old(mousePos)
      ensures keysDown == if key != "" then KeysAfter(down, key, old(keysDown)) else old(keysDown)
      ensures traffic == PostEvents(old(traffic), listeners, KeyInputEvents(down, key, text, mouseKnown, mousePos, mouseDragCount), handlers)
    {
      KeyHead(down, key);
      PostChars(down, text);
      PostEventsConcat(old(traffic), listeners, if key != "" then [KeyEventAt(down, key, mouseKnown, mousePos, mouseDragCount)] else [],
                       if down then CharEvents(text, mouseKnown, mousePos, mouseDragCount) else [], handlers);
    }

    /** The named-key half of a key event: its key event, and the keys held
        down updated. */
    method KeyHead(down: bool, key: string)
      requires ButtonsValid() && !pendingKeyFlush && key !in MouseKeys
      modifies this`keysDown, this`mouseKnown, this`mousePos, this`traffic
      ensures ButtonsValid() && mouseKnown == old(mouseKnown) && mousePos == old(mousePos)
      ensures keysDown == if key != "" then KeysAfter(down, key, old(keysDown)) else old(keysDown)
      ensures traffic == PostEvents(old(traffic), listeners, if key != "" then [KeyEventAt(down, key, mouseKnown, mousePos, mouseDragCount)] else [], handlers)
    {
      if |key| > 0 {
        var ev := CreateKeyEvent(down, key);
        PostEvent(ev);
        PostEventsSnoc(old(traffic), listeners, [], ev, handlers);
        assert [] + [ev] == [ev];
        TrackKey(down, key);
      }
    }

    /** The character loop of a key event: one character event per text
        unit, while the key is down. */
    method PostChars(down: bool, text: seq<int>)
      modifies this`mouseKnown, this`mousePos, this`traffic
      ensures mouseKnown == old(mouseKnown) && mousePos == old(mousePos)
      ensures traffic == PostEvents(old(traffic), listeners, if down then CharEvents(text, mouseKnown, mousePos, mouseDragCount) else [], handlers)
    {
      if !down {
        return;
      }
      var i := 0;
      assert text[..0] == [];
      while i < |text|
        invariant 0 <= i <= |text|
        invariant mouseKnown == old(mouseKnown) && mousePos == old(mousePos)
        invariant traffic == PostEvents(old(traffic), listeners, CharEvents(text[..i], mouseKnown, mousePos, mouseDragCount), handlers)
      {
        PostChar(text, i, old(traffic));
        i := i + 1;
      }
      assert text[..i] == text;
    }

    /** One turn of the character loop: the event of `text[i]`, after
        those of `text[..i]` posted since `t0`. */
    method PostChar(text: seq<int>, i: nat, ghost t0: Traffic)
      requires i < |text|
      requires traffic == PostEvents(t0, listeners, CharEvents(text[..i], mouseKnown, mousePos, mouseDragCount), handlers)
      modifies this`mouseKnown, this`mousePos, this`traffic
      ensures mouseKnown == old(mouseKnown) && mousePos == old(mousePos)
      ensures traffic == PostEvents(t0, listeners, CharEvents(text[..i + 1], mouseKnown, mousePos, mouseDragCount), handlers)
    {
      PostCharStep(t0, listeners, text, i, mouseKnown, mousePos, mouseDragCount, handlers);
      var ev := CreateCharEvent(text[i]);
      PostEvent(ev);
    }

    /** The `m_keysDown` update of a named key other than a mouse button. */
    method TrackKey(down: bool, key: string)
      requires ButtonsValid() && !pendingKeyFlush && key !in MouseKeys
      modifies this`keysDown
      ensures ButtonsValid() && keysDown == KeysAfter(down, key, old(keysDown))
    {
      OtherKeyKeepsButtons(down, key, keysDown);
      if down && !(key in keysDown) {
        keysDown := keysDown + {key};
      } else if !down && key in keysDown {
        keysDown := keysDown - {key};
      }
      assert keysDown == KeysAfter(down, key, old(keysDown));
    }

    /** The flush half of `event(bool)`: one key-up event per held key, in
        the set's slot order `order`, then no key is held. */
    method FlushKeys(order: seq<string>)
      requires EnumeratesKeys(keysDown, order)
      modifies this`keysDown, this`pendingKeyFlush, this`mouseKnown, this`mousePos, this`traffic
      ensures keysDown == {} && !pendingKeyFlush
      ensures mouseKnown == old(mouseKnown) && mousePos == old(mousePos)
      ensures traffic == PostEvents(old(traffic), listeners, KeyUps(order, mouseKnown, mousePos, mouseDragCount), handlers)
    {
      pendingKeyFlush := false;
      var i := 0;
      while i < |order|
        modifies this`mouseKnown, this`mousePos, this`traffic
        invariant 0 <= i <= |order|
        invariant mouseKnown == old(mouseKnown) && mousePos == old(mousePos)
        invariant traffic == PostEvents(old(traffic), listeners, KeyUps(order[..i], mouseKnown, mousePos, mouseDragCount), handlers)
      {
        PostKeyUp(order, i, old(traffic));
        i := i + 1;
      }
      assert order[..i] == order;
      keysDown := {};
    }

    /** One turn of the flush loop: the key-up event of `order[i]`, after
        those of `order[..i]` posted since `t0`. */
    method PostKeyUp(order: seq<string>, i: nat, ghost t0: Traffic)
      requires i < |order|
      requires traffic == PostEvents(t0, listeners, KeyUps(order[..i], mouseKnown, mousePos, mouseDragCount), handlers)
      modifies this`mouseKnown, this`mousePos, this`traffic
      ensures mouseKnown == old(mouseKnown) && mousePos == old(mousePos)
      ensures traffic == PostEvents(t0, listeners, KeyUps(order[..i + 1], mouseKnown, mousePos, mouseDragCount), handlers)
    {
      PostKeyUpStep(t0, listeners, order, i, mouseKnown, mousePos, mouseDragCount, handlers);
      var ev := CreateKeyEvent(false, order[i]);
      PostEvent(ev);
    }

    /** `event(bool activate)`: activation or discarding resets the mouse
        state and schedules a key flush, which runs when events are not
        being discarded; answers whether they are. */
    method Activate(activate: bool, discard: bool, order: seq<string>) returns (r: bool)
      requires ButtonsValid() && WheelValid() && EnumeratesKeys(keysDown, order)
      modifies this`keysDown, this`pendingKeyFlush, this`mouseKnown, this`mousePos, this`mouseDragCount,
               this`mouseWheelAcc, this`widgetCalls, this`traffic
      ensures ButtonsValid() && WheelValid() && r == discard && pendingKeyFlush == discard
      ensures mouseDragCount == (if activate || discard then 0 else old(mouseDragCount))
      ensures mouseWheelAcc == (if activate || discard then 0 else old(mouseWheelAcc))
      ensures mouseKnown == (if activate || discard then false else old(mouseKnown)) && mousePos == old(mousePos)
      ensures widgetCalls == old(widgetCalls) + (if (activate || discard) && old(mouseDragCount) != 0 then [ReleaseMouse] else [])
      ensures !discard && (activate || old(pendingKeyFlush)) ==>
                keysDown == {} &&
                traffic == PostEvents(old(traffic), listeners, KeyUps(order, mouseKnown, mousePos, mouseDragCount), handlers)
      ensures !(!discard && (activate || old(pendingKeyFlush))) ==> keysDown == old(keysDown) && traffic == old(traffic)
    {
      if activate || discard {
        if mouseDragCount != 0 {
          widgetCalls := widgetCalls + [ReleaseMouse];
        }
        pendingKeyFlush := true;
        mouseKnown := false;
        mouseDragCount := 0;
        mouseWheelAcc := 0;
      }
      if pendingKeyFlush && !discard {
        FlushKeys(order);
      }
      r := discard;
    }

    /** The body of `event(QEvent*)` after `incNestingLevel(1)`: the
        activation step, then the case of the event. `ok` is the answer;
        `early` tells the paths that return before `incNestingLevel(-1)`:
        discarded events, close and mouse move. */
    method Process(qe: QtEvent, discard: bool, order: seq<string>) returns (ok: bool, early: bool)
      requires Valid() && EnumeratesKeys(keysDown, order)
      requires (qe.QKeyPress? ==> qe.key !in MouseKeys) && (qe.QKeyRelease? ==> qe.key !in MouseKeys)
      modifies this`keysDown, this`pendingKeyFlush, this`mouseKnown, this`mousePos, this`mouseDragCount,
               this`mouseWheelAcc, this`widgetCalls, this`traffic
      ensures Valid()
      ensures early == (discard || qe.QClose? || qe.QMouseMove?)
      ensures ok == (discard || qe.QWheel? || qe.QLeave? || qe.QKeyPress? || qe.QKeyRelease? ||
                     ((qe.QMouseButtonPress? || qe.QMouseButtonRelease?) && qe.button != OtherButton))
    {
      var skip := Activate(qe == QFocusIn, discard, order);
      if skip {
        return true, true;
      }
      ok, early := HandleCase(qe);
    }

    /** The switch of `event(QEvent*)` on an event that is not discarded. */
    method HandleCase(qe: QtEvent) returns (ok: bool, early: bool)
      requires Valid() && !pendingKeyFlush
      requires (qe.QKeyPress? ==> qe.key !in MouseKeys) && (qe.QKeyRelease? ==> qe.key !in MouseKeys)
      modifies this`keysDown, this`mouseKnown, this`mousePos, this`mouseDragCount,
               this`mouseWheelAcc, this`widgetCalls, this`traffic
      ensures Valid()
      ensures early == (qe.QClose? || qe.QMouseMove?)
      ensures ok == (qe.QWheel? || qe.QLeave? || qe.QKeyPress? || qe.QKeyRelease? ||
                     ((qe.QMouseButtonPress? || qe.QMouseButtonRelease?) && qe.button != OtherButton))
    {
      early := false;
      match qe {
        case QClose =>
          var ev := CreateSimpleEvent(Close);
          PostEvent(ev);
          return false, true;
        case QMouseMove(pos) =>
          var ev := CreateMouseEvent(true, pos);
          PostEvent(ev);
          return false, true;
        case QWheel(delta) =>
          Wheel(delta);
          ok := true;
        case QLeave =>
          if mouseDragCount == 0 {
            var ev := CreateMouseEvent(false, Zero);
            PostEvent(ev);
          }
          ok := true;
        case QKeyPress(key, text) =>
          KeyInput(true, key, text);
          ok := true;
        case QKeyRelease(key, text) =>
          KeyInput(false, key, text);
          ok := true;
        case QMouseButtonPress(b) =>
          ok := MouseButtonInput(true, b);
        case QMouseButtonRelease(b) =>
          ok := MouseButtonInput(false, b);
        case QFocusIn =>
          ok := false;
        case QOther =>
          ok := false;
      }
    }

    /** `event(QEvent*)` as written: the early returns skip
        `incNestingLevel(-1)`. */
    method OnEvent(qe: QtEvent, discard: bool, order: seq<string>) returns (ok: bool)
      requires Valid() && EnumeratesKeys(keysDown, order)
      requires (qe.QKeyPress? ==> qe.key !in MouseKeys) && (qe.QKeyRelease? ==> qe.key !in MouseKeys)
      modifies this`keysDown, this`pendingKeyFlush, this`mouseKnown, this`mousePos, this`mouseDragCount,
               this`mouseWheelAcc, this`widgetCalls, this`traffic, this`nestingLevel
      ensures Valid()
      ensures nestingLevel == old(nestingLevel) + (if discard || qe.QClose? || qe.QMouseMove? then 1 else 0)
      ensures ok == (discard || qe.QWheel? || qe.QLeave? || qe.QKeyPress? || qe.QKeyRelease? ||
                     ((qe.QMouseButtonPress? || qe.QMouseButtonRelease?) && qe.button != OtherButton))
    {
      nestingLevel := nestingLevel + 1;
      var early;
      ok, early := Process(qe, discard, order);
      if !early {
        nestingLevel := nestingLevel - 1;
      }
    }

    /** `event(QEvent*)` with every path leaving the nesting level as it
        found it. */
    method OnEventBalanced(qe: QtEvent, discard: bool, order: seq<string>) returns (ok: bool)
      requires Valid() && EnumeratesKeys(keysDown, order)
      requires (qe.QKeyPress? ==> qe.key !in MouseKeys) && (qe.QKeyRelease? ==> qe.key !in MouseKeys)
      modifies this`keysDown, this`pendingKeyFlush, this`mouseKnown, this`mousePos, this`mouseDragCount,
               this`mouseWheelAcc, this`widgetCalls, this`traffic, this`nestingLevel
      ensures Valid() && nestingLevel == old(nestingLevel)
      ensures ok == (discard || qe.QWheel? || qe.QLeave? || qe.QKeyPress? || qe.QKeyRelease? ||
                     ((qe.QMouseButtonPress? || qe.QMouseButtonRelease?) && qe.button != OtherButton))
    {
      nestingLevel := nestingLevel + 1;
      var early;
      ok, early := Process(qe, discard, order);
      nestingLevel := nestingLevel - 1;
    }
  }

  lemma WithoutLast(s: seq<Listener>)
    requires s != [] && NoDuplicates(s)
    ensures Without(s, s[|s| - 1]) == s[..|s| - 1]
  {
    WithoutLastAt(s, |s| - 1);
  }

  lemma {:induction false} WithoutLastAt(s: seq<Listener>, n: nat)
    requires n == |s| - 1 && NoDuplicates(s)
    ensures Without(s, s[n]) == s[..n]
    decreases |s|
  {
    if n > 0 {
      assert s[0] != s[n];
      var t := s[1..];
      assert NoDuplicates(t) by {
        forall i, j | 0 <= i < j < |t| ensures t[i] != t[j] {
          assert t[i] == s[i + 1] && t[j] == s[j + 1];
        }
      }
      assert t[n - 1] == s[n];
      WithoutLastAt(t, n - 1);
      assert [s[0]] + t[..n - 1] == s[..n];
    }
  }

  /** Every listener gets one notice, last to first. */
  lemma {:induction false} RemovalNoticesAt(listeners: seq<Listener>, ev: Event)
    ensures |RemovalNotices(listeners, ev)| == |listeners|
    ensures forall k :: 0 <= k < |listeners| ==> RemovalNotices(listeners, ev)[k] == Delivery(listeners[|listeners| - 1 - k], ev)
  {
    if listeners != [] {
      RemovalNoticesAt(listeners[..|listeners| - 1], ev);
    }
  }

  /** The start of `event(QEvent*)` as written, on a close request: the
      nesting level is left one higher. */
  method CloseLeavesNestingRaised(statics: OpenWindows, handlers: Handlers) returns (before: int, after: int)
    requires statics.Valid()
    modifies statics
    ensures after == before + 1
  {
    var w := new Window(statics, handlers);
    before := w.nestingLevel;
    var ok := w.OnEvent(QClose, false, []);
    after := w.nestingLevel;
  }

  /** The same close request with the balanced version leaves it as it was. */
  method CloseKeepsNestingBalanced(statics: OpenWindows, handlers: Handlers) returns (before: int, after: int)
    requires statics.Valid()
    modifies statics
    ensures after == before
  {
    var w := new Window(statics, handlers);
    before := w.nestingLevel;
    var ok := w.OnEventBalanced(QClose, false, []);
    after := w.nestingLevel;
  }
}
