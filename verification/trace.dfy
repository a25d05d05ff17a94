/**
  The outward effects of the bus, in the order it performs them, and the
  projections used to state routing properties over a trace.
 */
module Trace {
  import opened Messages

  /** One call the bus makes into its collaborators. `Handle(i, ctx)` is the
      invocation of the handler of the i-th subscription. */
  datatype Effect =
    | AttachOnMessage
    | StartServiceWorker
    | PostMessage(message: Message)
    | AdapterSubscribe(subject: string)
    | Handle(index: nat, ctx: Context)

  /** True for the two effects of the one-shot start. */
  predicate IsLifecycle(e: Effect) {
    e.AttachOnMessage? || e.StartServiceWorker?
  }

  /** The messages handed to the shared-worker adapter, in order. */
  function Posted(effects: seq<Effect>): seq<Message>
  {
    if effects == [] then []
    else (if effects[0].PostMessage? then [effects[0].message] else []) + Posted(effects[1..])
  }

  /** The subscription indices whose handler ran, in order. */
  function Handled(effects: seq<Effect>): seq<nat>
  {
    if effects == [] then []
    else (if effects[0].Handle? then [effects[0].index] else []) + Handled(effects[1..])
  }

  /** Each index occurs at most once and indices grow along the sequence. */
  predicate StrictlyIncreasing(s: seq<nat>) {
    forall k, l :: 0 <= k < l < |s| ==> s[k] < s[l]
  }

  lemma {:induction false} PostedAppend(a: seq<Effect>, b: seq<Effect>)
    ensures Posted(a + b) == Posted(a) + Posted(b)
  {
    if a == [] {
      assert a + b == b;
    } else {
      var head: seq<Message> := if a[0].PostMessage? then [a[0].message] else [];
      assert (a + b)[0] == a[0];
      assert (a + b)[1..] == a[1..] + b;
      PostedAppend(a[1..], b);
      assert Posted(a + b) == head + Posted(a[1..] + b);
      assert Posted(a) == head + Posted(a[1..]);
    }
  }

  lemma {:induction false} HandledAppend(a: seq<Effect>, b: seq<Effect>)
    ensures Handled(a + b) == Handled(a) + Handled(b)
  {
    if a == [] {
      assert a + b == b;
    } else {
      var head: seq<nat> := if a[0].Handle? then [a[0].index] else [];
      assert (a + b)[0] == a[0];
      assert (a + b)[1..] == a[1..] + b;
      HandledAppend(a[1..], b);
      assert Handled(a + b) == head + Handled(a[1..] + b);
      assert Handled(a) == head + Handled(a[1..]);
    }
  }

  /** A trace without PostMessage posts nothing. */
  lemma {:induction false} PostedNone(effects: seq<Effect>)
    requires forall k :: 0 <= k < |effects| ==> !effects[k].PostMessage?
    ensures Posted(effects) == []
  {
    if effects != [] {
      PostedNone(effects[1..]);
    }
  }

  /** A trace without Handle runs no handler. */
  lemma {:induction false} HandledNone(effects: seq<Effect>)
    requires forall k :: 0 <= k < |effects| ==> !effects[k].Handle?
    ensures Handled(effects) == []
  {
    if effects != [] {
      HandledNone(effects[1..]);
    }
  }

  /** In a trace made only of Handle effects, Handled lists their indices. */
  lemma {:induction false} HandledAll(effects: seq<Effect>)
    requires forall k :: 0 <= k < |effects| ==> effects[k].Handle?
    ensures |Handled(effects)| == |effects|
    ensures forall k :: 0 <= k < |effects| ==> Handled(effects)[k] == effects[k].index
  {
    if effects != [] {
      HandledAll(effects[1..]);
    }
  }

  /** Posts followed by handles: every handle carries `ctx`, every post
      comes before every handle, and nothing else occurs. */
  lemma PostsThenHandles(a: seq<Effect>, b: seq<Effect>, ctx: Context)
    requires forall k :: 0 <= k < |a| ==> a[k].PostMessage?
    requires forall k :: 0 <= k < |b| ==> b[k].Handle? && b[k].ctx == ctx
    ensures forall k :: 0 <= k < |a + b| ==> (a + b)[k].PostMessage? || (a + b)[k].Handle?
    ensures forall k :: 0 <= k < |a + b| && (a + b)[k].Handle? ==> (a + b)[k].ctx == ctx
    ensures forall p, q :: 0 <= p < |a + b| && 0 <= q < |a + b| && (a + b)[p].PostMessage? && (a + b)[q].Handle? ==> p < q
  {
    var e := a + b;
    forall k | 0 <= k < |e|
      ensures (k < |a| ==> e[k] == a[k]) && (|a| <= k ==> e[k] == b[k - |a|])
    {
    }
  }

  /** Effects that neither post nor handle, put in front of a trace, change
      nothing about what it posts and handles. */
  lemma PrefixKeepsProjections(pre: seq<Effect>, routed: seq<Effect>)
    requires forall k :: 0 <= k < |pre| ==> IsLifecycle(pre[k])
    ensures Posted(pre + routed) == Posted(routed)
    ensures Handled(pre + routed) == Handled(routed)
  {
    PostedAppend(pre, routed);
    HandledAppend(pre, routed);
    PostedNone(pre);
    HandledNone(pre);
  }

  /** ... nor with which context and in which order. */
  lemma PrefixKeepsOrder(pre: seq<Effect>, routed: seq<Effect>, ctx: Context)
    requires forall k :: 0 <= k < |pre| ==> IsLifecycle(pre[k])
    requires forall k :: 0 <= k < |routed| ==> routed[k].PostMessage? || routed[k].Handle?
    requires forall k :: 0 <= k < |routed| && routed[k].Handle? ==> routed[k].ctx == ctx
    requires forall p, q :: 0 <= p < |routed| && 0 <= q < |routed| && routed[p].PostMessage? && routed[q].Handle? ==> p < q
    ensures forall k :: 0 <= k < |pre + routed| && (pre + routed)[k].Handle? ==> (pre + routed)[k].ctx == ctx
    ensures forall p, q :: 0 <= p < |pre + routed| && 0 <= q < |pre + routed| && (pre + routed)[p].PostMessage? && (pre + routed)[q].Handle? ==> p < q
    ensures forall k :: |pre| <= k < |pre + routed| ==> !IsLifecycle((pre + routed)[k])
    ensures forall k :: 0 <= k < |pre + routed| ==> !(pre + routed)[k].AdapterSubscribe?
  {
    var e := pre + routed;
    var n := |pre|;
    forall k | 0 <= k < |e|
      ensures e[k].Handle? ==> e[k].ctx == ctx
      ensures !e[k].AdapterSubscribe?
      ensures n <= k ==> !IsLifecycle(e[k])
      ensures e[k].PostMessage? ==> n <= k && routed[k - n].PostMessage?
      ensures e[k].Handle? ==> n <= k && routed[k - n].Handle?
    {
      if k < n {
        assert e[k] == pre[k];
      } else {
        assert e[k] == routed[k - n];
      }
    }
    forall p, q | 0 <= p < |e| && 0 <= q < |e| && e[p].PostMessage? && e[q].Handle?
      ensures p < q
    {
      assert routed[p - n].PostMessage? && routed[q - n].Handle?;
    }
  }
}
