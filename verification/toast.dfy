/**
 * The toast event bus (ui/utils/toast.ts): a module-wide set of listeners
 * and a counter handing out toast ids. `showToast` sends a show event to
 * every listener and gives back a function that sends the matching hide
 * event. Listeners are functions in the source; here each is known by an id,
 * and what the bus sends is kept as a log of (listener, event) deliveries.
 */
module Toast {
  import opened Prelude

  /** `ToastType`. */
  datatype ToastType = Success | Error | Warning | Info

  /** `ToastPosition`, in the order of `TOAST_POSITIONS`. */
  datatype ToastPosition = TopRight | TopLeft | BottomRight | BottomLeft

  /** `ToastOptions`: every field optional. */
  datatype ToastOptions = ToastOptions(desc: Option<string>, timeout: Option<int>, position: Option<ToastPosition>)

  /** `ToastEvent`. */
  datatype ToastEvent =
    | ShowEvent(id: nat, msg: string, desc: Option<string>, variant: ToastType, position: ToastPosition, timeout: int)
    | HideEvent(id: nat)

  /** One event handed to one listener. */
  datatype Delivery = Delivery(listener: nat, event: ToastEvent)

  /** The show event of `showToast(msg, type, opts)`, its defaults filled in. */
  function ShowEventOf(id: nat, msg: string, variant: Option<ToastType>, opts: ToastOptions): ToastEvent
  {
    ShowEvent(id, msg, opts.desc,
      if variant.Some? then variant.value else Success,
      if opts.position.Some? then opts.position.value else TopRight,
      if opts.timeout.Some? then opts.timeout.value else 2000)
  }

  /** With nothing given, the toast is a success shown for 2000 ms at the top right. */
  lemma ShowEventDefaults(id: nat, msg: string)
    ensures ShowEventOf(id, msg, None, ToastOptions(None, None, None)) == ShowEvent(id, msg, None, Success, TopRight, 2000)
  {
  }

  /** Whatever the caller gives is kept. */
  lemma ShowEventKeepsGiven(id: nat, msg: string, variant: ToastType, desc: Option<string>, timeout: int, position: ToastPosition)
    ensures ShowEventOf(id, msg, Some(variant), ToastOptions(desc, Some(timeout), Some(position))) == ShowEvent(id, msg, desc, variant, position, timeout)
  {
  }

  /** `listeners.forEach(l => l(event))`: each listener, in the order it subscribed, gets the event once. */
  function Deliveries(listeners: seq<nat>, e: ToastEvent): (r: seq<Delivery>)
    ensures |r| == |listeners|
    ensures forall k :: 0 <= k < |r| ==> r[k] == Delivery(listeners[k], e)
  {
    seq(|listeners|, k requires 0 <= k < |listeners| => Delivery(listeners[k], e))
  }

  /** A JavaScript `Set` holds each listener once. */
  predicate NoDuplicates(xs: seq<nat>)
  {
    forall i, j :: 0 <= i < j < |xs| ==> xs[i] != xs[j]
  }

  /** `Set.delete`: the listener is gone and the others keep their order. */
  function Without(xs: seq<nat>, x: nat): (r: seq<nat>)
    ensures x !in r
    ensures forall y :: y in r <==> y in xs && y != x
    ensures NoDuplicates(xs) ==> NoDuplicates(r)
    ensures x !in xs ==> r == xs
  {
    if xs == [] then []
    else if xs[0] == x then Without(xs[1..], x)
    else
      var rest := Without(xs[1..], x);
      assert NoDuplicates(xs) ==> xs[0] !in xs[1..] && NoDuplicates(xs[1..]) by {
        if NoDuplicates(xs) {
          forall k | 0 <= k < |xs[1..]| ensures xs[1..][k] != xs[0] {
            assert xs[1..][k] == xs[k + 1];
          }
        }
      }
      [xs[0]] + rest
  }

  /** The bus: the listeners, the next id, and every delivery made so far. */
  class ToastBus {
    var listeners: seq<nat>
    var nextId: nat
    var delivered: seq<Delivery>

    /** Listeners are distinct, and every id sent so far was handed out before `nextId`. */
    predicate Valid()
      reads this
    {
      NoDuplicates(listeners) && nextId >= 1
      && forall k :: 0 <= k < |delivered| ==> delivered[k].event.id < nextId
    }

    /** `const listeners = new Set()`, `let nextId = 1`. */
    constructor ()
      ensures Valid()
      ensures listeners == [] && nextId == 1 && delivered == []
    {
      listeners := [];
      nextId := 1;
      delivered := [];
    }

    /** `_subscribeToast(listener)`: adding a listener already there changes nothing. */
    method Subscribe(listener: nat)
      requires Valid()
      modifies this
      ensures Valid()
      ensures listeners == if listener in old(listeners) then old(listeners) else old(listeners) + [listener]
      ensures nextId == old(nextId) && delivered == old(delivered)
    {
      if listener !in listeners {
        listeners := listeners + [listener];
      }
    }

    /** The function `_subscribeToast` returns: `listeners.delete(listener)`. */
    method Unsubscribe(listener: nat) returns (removed: bool)
      requires Valid()
      modifies this
      ensures Valid()
      ensures removed <==> listener in old(listeners)
      ensures listeners == Without(old(listeners), listener) && listener !in listeners
      ensures nextId == old(nextId) && delivered == old(delivered)
    {
      removed := listener in listeners;
      listeners := Without(listeners, listener);
    }

    /** Sends one event to every listener. */
    method Emit(e: ToastEvent)
      requires Valid() && e.id < nextId
      modifies this
      ensures Valid()
      ensures listeners == old(listeners) && nextId == old(nextId)
      ensures delivered == old(delivered) + Deliveries(listeners, e)
    {
      var i := 0;
      while i < |listeners|
        invariant 0 <= i <= |listeners|
        invariant listeners == old(listeners) && nextId == old(nextId)
        invariant delivered == old(delivered) + Deliveries(listeners[..i], e)
        invariant Valid()
      {
        assert Deliveries(listeners[..i + 1], e) == Deliveries(listeners[..i], e) + [Delivery(listeners[i], e)];
        delivered := delivered + [Delivery(listeners[i], e)];
        i := i + 1;
      }
      assert listeners[..i] == listeners;
    }

    /**
     * `showToast(msg, type, opts)`: outside a browser nothing happens and no
     * id is used; otherwise the next id goes to a show event sent to every
     * listener, and the id is returned for the cancel function.
     */
    method ShowToast(msg: string, variant: Option<ToastType>, opts: ToastOptions, hasWindow: bool) returns (id: Option<nat>)
      requires Valid()
      modifies this
      ensures Valid() && listeners == old(listeners)
      ensures !hasWindow ==> id.None? && nextId == old(nextId) && delivered == old(delivered)
      ensures hasWindow ==> id == Some(old(nextId)) && nextId == old(nextId) + 1
      ensures hasWindow ==> delivered == old(delivered) + Deliveries(listeners, ShowEventOf(id.value, msg, variant, opts))
      ensures id.Some? ==> forall k :: 0 <= k < |old(delivered)| ==> old(delivered)[k].event.id < id.value
    {
      if !hasWindow {
        return None;
      }
      var n := nextId;
      nextId := nextId + 1;
      Emit(ShowEventOf(n, msg, variant, opts));
      id := Some(n);
    }

    /** The cancel function `showToast` returns: a hide event for the same id, to every listener. */
    method Cancel(id: nat)
      requires Valid() && id < nextId
      modifies this
      ensures Valid() && listeners == old(listeners) && nextId == old(nextId)
      ensures delivered == old(delivered) + Deliveries(listeners, HideEvent(id))
    {
      Emit(HideEvent(id));
    }
  }

  /** Two toasts shown one after the other get increasing ids. */
  method ShowTwice(bus: ToastBus, first: string, second: string) returns (a: Option<nat>, b: Option<nat>)
    requires bus.Valid()
    modifies bus
    ensures bus.Valid()
    ensures a.Some? && b.Some? && a.value < b.value
  {
    a := bus.ShowToast(first, None, ToastOptions(None, None, None), true);
    b := bus.ShowToast(second, None, ToastOptions(None, None, None), true);
  }
}
