/**
  The toast notifications: the provider's list of visible toasts, identified by
  the clock reading at which each was pushed, and the hook that gives
  components access to it.
 */
module Toast {
  import opened JsValue
  import opened Http

  /** What a component asks to show; `dismissible` may be omitted. */
  datatype Spec = Spec(variant: string, title: string, description: string, dismissible: Option<bool>)

  /** A shown toast: the requested fields plus its `id`. */
  datatype Shown = Shown(spec: Spec, id: nat)

  /** Result of `pushToast`: the new list and whether auto-removal after five seconds was scheduled. */
  datatype Pushed = Pushed(toasts: seq<Shown>, removalScheduled: bool)

  /**
    `pushToast(toast)` at clock reading `nowMillis`: the toast is appended at the end with
    `id` set to the reading; auto-removal is scheduled unless `dismissible` is exactly `false`.
   */
  function PushToast(toasts: seq<Shown>, spec: Spec, nowMillis: nat): (r: Pushed)
    ensures |r.toasts| == |toasts| + 1
    ensures r.toasts[..|toasts|] == toasts
    ensures r.toasts[|toasts|] == Shown(spec, nowMillis)
    ensures r.removalScheduled <==> spec.dismissible != Some(false)
  {
    Pushed(toasts + [Shown(spec, nowMillis)], spec.dismissible != Some(false))
  }

  predicate HasId(toasts: seq<Shown>, id: nat) {
    exists i :: 0 <= i < |toasts| && toasts[i].id == id
  }

  /** `removeToast(id)`: every toast with that `id` goes, the others stay in order. */
  function RemoveToast(toasts: seq<Shown>, id: nat): (r: seq<Shown>)
    ensures !HasId(r, id)
    ensures forall t: Shown :: t.id != id ==> (t in r <==> t in toasts)
    ensures |r| <= |toasts|
  {
    if toasts == [] then []
    else if toasts[0].id == id then RemoveToast(toasts[1..], id)
    else [toasts[0]] + RemoveToast(toasts[1..], id)
  }

  /** Removing an id no toast carries leaves the list exactly as it was. */
  lemma {:induction false} RemoveAbsentId(toasts: seq<Shown>, id: nat)
    requires !HasId(toasts, id)
    ensures RemoveToast(toasts, id) == toasts
  {
    if toasts != [] {
      assert toasts[0].id != id;
      assert !HasId(toasts[1..], id) by {
        forall i | 0 <= i < |toasts[1..]| ensures toasts[1..][i].id != id {
          assert toasts[1..][i] == toasts[i + 1];
        }
      }
      RemoveAbsentId(toasts[1..], id);
      assert [toasts[0]] + toasts[1..] == toasts;
    }
  }

  lemma {:induction false} RemoveToastAppend(a: seq<Shown>, b: seq<Shown>, id: nat)
    ensures RemoveToast(a + b, id) == RemoveToast(a, id) + RemoveToast(b, id)
  {
    if a == [] {
      assert a + b == b;
    } else {
      assert (a + b)[0] == a[0];
      assert (a + b)[1..] == a[1..] + b;
      RemoveToastAppend(a[1..], b, id);
    }
  }

  /** Pushing a toast under a fresh id and removing that id gives back the earlier list. */
  lemma PushThenRemove(toasts: seq<Shown>, spec: Spec, nowMillis: nat)
    requires !HasId(toasts, nowMillis)
    ensures RemoveToast(PushToast(toasts, spec, nowMillis).toasts, nowMillis) == toasts
  {
    RemoveToastAppend(toasts, [Shown(spec, nowMillis)], nowMillis);
    RemoveAbsentId(toasts, nowMillis);
    assert [Shown(spec, nowMillis)][1..] == [];
  }

  /**
    Two toasts pushed within the same millisecond share an id, so the removal scheduled
    for the first also removes the second.
   */
  lemma SameMillisecondShareRemoval(toasts: seq<Shown>, a: Spec, b: Spec, nowMillis: nat)
    requires !HasId(toasts, nowMillis)
    ensures var twice := PushToast(PushToast(toasts, a, nowMillis).toasts, b, nowMillis).toasts;
      |twice| == |toasts| + 2 && RemoveToast(twice, nowMillis) == toasts
  {
    var once := PushToast(toasts, a, nowMillis).toasts;
    assert once == toasts + [Shown(a, nowMillis)];
    RemoveToastAppend(once, [Shown(b, nowMillis)], nowMillis);
    PushThenRemove(toasts, a, nowMillis);
    assert [Shown(b, nowMillis)][1..] == [];
  }

  /** The value the provider puts in context. */
  datatype Context = Context(toasts: seq<Shown>)

  const OutsideProvider := "useToast must be used within a ToastProvider"

  /** `useToast()`: the provider's context, or an error when there is no provider above. */
  function UseToast(context: Option<Context>): (r: Outcome<Context>)
    ensures context.Some? <==> r.Returned?
    ensures context.Some? ==> r.value == context.value
    ensures context.None? ==> r.message == OutsideProvider
  {
    match context
    case Some(c) => Returned(c)
    case None => Thrown(OutsideProvider)
  }
}
