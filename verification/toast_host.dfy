/**
 * The toast host (ui/components/ToastHost/ToastHost.tsx): the list of toasts
 * on screen, changed by the bus's show and hide events, by each toast's
 * timer running out and by the end of its exit animation, and grouped by
 * corner for rendering. Timers and animations are modelled as the events
 * they end in.
 */
module ToastHost {
  import opened Prelude
  import opened Toast

  /** `ActiveToast`: `isIn` is false once the toast starts to leave. */
  datatype ActiveToast = ActiveToast(id: nat, msg: string, desc: Option<string>, variant: ToastType, position: ToastPosition, timeout: int, isIn: bool)

  /** `getPosClass`: the last position is the default branch. */
  function PosClass(position: ToastPosition): string
  {
    if position == TopRight then "toast-top toast-end"
    else if position == TopLeft then "toast-top toast-start"
    else if position == BottomRight then "toast-bottom toast-end"
    else "toast-bottom toast-start"
  }

  /** `getVariantClass`: the last type is the default branch. */
  function VariantClass(variant: ToastType): string
  {
    if variant == Success then "alert-success"
    else if variant == Error then "alert-error"
    else if variant == Warning then "alert-warning"
    else "alert-info"
  }

  /** Each corner gets its own classes. */
  lemma PosClassInjective(a: ToastPosition, b: ToastPosition)
    ensures PosClass(a) == PosClass(b) ==> a == b
  {
  }

  /** Each type gets its own alert variant. */
  lemma VariantClassInjective(a: ToastType, b: ToastType)
    ensures VariantClass(a) == VariantClass(b) ==> a == b
  {
  }

  /** The toast a show event adds, entering. */
  function Entering(e: ToastEvent): (t: ActiveToast)
    requires e.ShowEvent?
    ensures t.id == e.id && t.isIn && t.position == e.position && t.variant == e.variant
  {
    ActiveToast(e.id, e.msg, e.desc, e.variant, e.position, e.timeout, true)
  }

  /** `prev.map(t => t.id === id ? { ...t, isIn: false } : t)`. */
  function MarkOut(ts: seq<ActiveToast>, id: nat): (r: seq<ActiveToast>)
    ensures |r| == |ts|
    ensures forall k :: 0 <= k < |r| ==> r[k].id == ts[k].id && r[k].position == ts[k].position
    ensures forall k :: 0 <= k < |r| ==> (r[k].id == id ==> !r[k].isIn) && (r[k].id != id ==> r[k] == ts[k])
    ensures forall k :: 0 <= k < |r| ==> r[k] == ts[k].(isIn := r[k].isIn)
  {
    seq(|ts|, k requires 0 <= k < |ts| => if ts[k].id == id then ts[k].(isIn := false) else ts[k])
  }

  /** Hiding twice is hiding once. */
  lemma MarkOutIdempotent(ts: seq<ActiveToast>, id: nat)
    ensures MarkOut(MarkOut(ts, id), id) == MarkOut(ts, id)
  {
  }

  /** `prev.filter(x => x.id !== id)`. */
  function Remove(ts: seq<ActiveToast>, id: nat): (r: seq<ActiveToast>)
    ensures |r| <= |ts|
    ensures forall t :: t in r <==> t in ts && t.id != id
  {
    if ts == [] then []
    else (if ts[0].id == id then [] else [ts[0]]) + Remove(ts[1..], id)
  }

  /** Removing keeps the other toasts in their order: it distributes over concatenation. */
  lemma {:induction false} RemoveAppend(a: seq<ActiveToast>, b: seq<ActiveToast>, id: nat)
    ensures Remove(a + b, id) == Remove(a, id) + Remove(b, id)
  {
    if a == [] {
      assert a + b == b;
    } else {
      assert (a + b)[1..] == a[1..] + b;
      RemoveAppend(a[1..], b, id);
    }
  }

  /** Removing an id no toast carries changes nothing. */
  lemma {:induction false} RemoveAbsent(ts: seq<ActiveToast>, id: nat)
    requires forall k :: 0 <= k < |ts| ==> ts[k].id != id
    ensures Remove(ts, id) == ts
  {
    if ts != [] {
      RemoveAbsent(ts[1..], id);
    }
  }

  /** Once the exit animation ends, whether the toast had been hidden first makes no difference. */
  lemma {:induction false} RemoveMarkOut(ts: seq<ActiveToast>, id: nat)
    ensures Remove(MarkOut(ts, id), id) == Remove(ts, id)
  {
    if ts != [] {
      assert MarkOut(ts, id)[1..] == MarkOut(ts[1..], id);
      RemoveMarkOut(ts[1..], id);
    }
  }

  /** The toasts of one corner, in list order. */
  function OfPosition(ts: seq<ActiveToast>, p: ToastPosition): (r: seq<ActiveToast>)
    ensures |r| <= |ts|
  {
    if ts == [] then []
    else OfPosition(ts[..|ts| - 1], p) + (if ts[|ts| - 1].position == p then [ts[|ts| - 1]] else [])
  }

  /** A toast is in a corner's group exactly when it is on screen at that corner. */
  lemma {:induction false} OfPositionMembers(ts: seq<ActiveToast>, p: ToastPosition, t: ActiveToast)
    ensures t in OfPosition(ts, p) <==> t in ts && t.position == p
  {
    if ts != [] {
      var init := ts[..|ts| - 1];
      OfPositionMembers(init, p, t);
      assert ts == init + [ts[|ts| - 1]];
      assert t in ts <==> t in init || t == ts[|ts| - 1];
    }
  }

  /** Grouping keeps the order of the list: it distributes over concatenation. */
  lemma {:induction false} OfPositionAppend(a: seq<ActiveToast>, b: seq<ActiveToast>, p: ToastPosition)
    ensures OfPosition(a + b, p) == OfPosition(a, p) + OfPosition(b, p)
    decreases |b|
  {
    if b != [] {
      var init := b[..|b| - 1];
      assert (a + b)[..|a + b| - 1] == a + init;
      assert (a + b)[|a + b| - 1] == b[|b| - 1];
      OfPositionAppend(a, init, p);
    } else {
      assert a + b == a;
    }
  }

  /** Every toast is in exactly one group: the group sizes add up to the list's. */
  lemma {:induction false} GroupSizes(ts: seq<ActiveToast>)
    ensures |OfPosition(ts, TopRight)| + |OfPosition(ts, TopLeft)| + |OfPosition(ts, BottomRight)| + |OfPosition(ts, BottomLeft)| == |ts|
  {
    if ts != [] {
      GroupSizes(ts[..|ts| - 1]);
    }
  }

  /** `groups`: one list per corner. */
  datatype Groups = Groups(topRight: seq<ActiveToast>, topLeft: seq<ActiveToast>, bottomRight: seq<ActiveToast>, bottomLeft: seq<ActiveToast>)
  {
    function At(p: ToastPosition): seq<ActiveToast>
    {
      match p
      case TopRight => topRight
      case TopLeft => topLeft
      case BottomRight => bottomRight
      case BottomLeft => bottomLeft
    }

    /** `groups[t.position].push(t)`. */
    function Push(t: ActiveToast): (g: Groups)
      ensures g.At(t.position) == At(t.position) + [t]
      ensures forall p :: p != t.position ==> g.At(p) == At(p)
    {
      match t.position
      case TopRight => this.(topRight := topRight + [t])
      case TopLeft => this.(topLeft := topLeft + [t])
      case BottomRight => this.(bottomRight := bottomRight + [t])
      case BottomLeft => this.(bottomLeft := bottomLeft + [t])
    }
  }

  /** Toast ids on screen are distinct. */
  predicate UniqueIds(ts: seq<ActiveToast>)
  {
    forall i, j :: 0 <= i < j < |ts| ==> ts[i].id != ts[j].id
  }

  /** The host's state. */
  class Host {
    var toasts: seq<ActiveToast>

    /** No two toasts on screen share an id, so an id names one toast. */
    predicate Valid()
      reads this
    {
      UniqueIds(toasts)
    }

    /** `useState([])`. */
    constructor ()
      ensures Valid()
      ensures toasts == []
    {
      toasts := [];
    }

    /**
     * The listener: a show event appends an entering toast, a hide event
     * starts that toast's exit. The ids stay distinct when a shown id is
     * above every id on screen, as the bus's counter makes it.
     */
    method OnEvent(e: ToastEvent)
      modifies this
      ensures e.ShowEvent? ==> toasts == old(toasts) + [Entering(e)]
      ensures e.HideEvent? ==> toasts == MarkOut(old(toasts), e.id)
      ensures old(Valid()) && (e.ShowEvent? ==> forall k :: 0 <= k < |old(toasts)| ==> old(toasts)[k].id < e.id) ==> Valid()
    {
      if e.ShowEvent? {
        if Valid() && forall k :: 0 <= k < |toasts| ==> toasts[k].id < e.id {
          ShowKeepsIdsUnique(toasts, e);
        }
        toasts := toasts + [Entering(e)];
      }
      if e.HideEvent? {
        if Valid() {
          HideAndExitKeepIdsUnique(toasts, e.id);
        }
        toasts := MarkOut(toasts, e.id);
      }
    }

    /** The timer of toast `id` runs out: its exit starts. */
    method OnTimeout(id: nat)
      modifies this
      ensures toasts == MarkOut(old(toasts), id)
      ensures old(Valid()) ==> Valid()
    {
      if Valid() {
        HideAndExitKeepIdsUnique(toasts, id);
      }
      toasts := MarkOut(toasts, id);
    }

    /** The exit animation of toast `id` ends: it leaves the list. */
    method OnExited(id: nat)
      modifies this
      ensures toasts == Remove(old(toasts), id)
      ensures forall k :: 0 <= k < |toasts| ==> toasts[k].id != id
      ensures old(Valid()) ==> Valid()
    {
      if Valid() {
        HideAndExitKeepIdsUnique(toasts, id);
      }
      toasts := Remove(toasts, id);
      forall k | 0 <= k < |toasts| ensures toasts[k].id != id {
        assert toasts[k] in toasts;
      }
    }

    /** `for (const t of toasts) groups[t.position].push(t)`. */
    method GroupByPosition() returns (groups: Groups)
      ensures forall p :: groups.At(p) == OfPosition(toasts, p)
    {
      groups := Groups([], [], [], []);
      for i := 0 to |toasts|
        invariant forall p :: groups.At(p) == OfPosition(toasts[..i], p)
      {
        assert toasts[..i + 1][..i] == toasts[..i];
        groups := groups.Push(toasts[i]);
      }
      assert toasts[..|toasts|] == toasts;
    }
  }

  /** A show event with an id above every id on screen keeps the ids distinct, as the bus's counter ensures. */
  lemma ShowKeepsIdsUnique(ts: seq<ActiveToast>, e: ToastEvent)
    requires UniqueIds(ts) && e.ShowEvent?
    requires forall k :: 0 <= k < |ts| ==> ts[k].id < e.id
    ensures UniqueIds(ts + [Entering(e)])
  {
  }

  /** Hiding and removing keep the ids distinct. */
  lemma HideAndExitKeepIdsUnique(ts: seq<ActiveToast>, id: nat)
    requires UniqueIds(ts)
    ensures UniqueIds(MarkOut(ts, id))
    ensures UniqueIds(Remove(ts, id))
  {
    RemoveKeepsUnique(ts, id);
  }

  lemma {:induction false} RemoveKeepsUnique(ts: seq<ActiveToast>, id: nat)
    requires UniqueIds(ts)
    ensures UniqueIds(Remove(ts, id))
  {
    if ts != [] {
      RemoveKeepsUnique(ts[1..], id);
      var rest := Remove(ts[1..], id);
      forall k | 0 <= k < |rest| ensures rest[k].id != ts[0].id {
        assert rest[k] in ts[1..];
        var j :| 0 <= j < |ts[1..]| && ts[1..][j] == rest[k];
        assert ts[j + 1] == rest[k];
      }
    }
  }
}
