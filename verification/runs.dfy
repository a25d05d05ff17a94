/**
  Sequences of calls on one bus, and the properties that relate several
  calls: the one-shot start, request/reply correlation, single resolution,
  and how a subscription takes part in later publishes.
 */
module BusRuns {
  import opened Messages
  import opened Trace
  import opened Bus

  /** One call into the bus, from a caller or from the adapter. */
  datatype Call =
    | PublishCall(ctx: Context, scope: Scope)
    | RequestCall(ctx: Context, scope: Scope)
    | SubscribeCall(subject: string, handler: Handler, external: bool)
    | InboundCall(message: Message)

  /** One call, its result dropped. */
  function Apply(b: MessageBus, c: Call): (r: Step<()>)
    requires b.Valid()
    ensures r.bus.Valid() && Evolves(b, r.bus) && r.bus.started
    ensures LifecycleFirst(b, r.effects)
  {
    match c
    case PublishCall(ctx, scope) =>
      var s := Publish(b, ctx, scope);
      Step(s.bus, s.effects, ())
    case RequestCall(ctx, scope) =>
      var s := Request(b, ctx, scope);
      assert LifecycleFirst(b, Publish(b, ctx, scope).effects);
      Step(s.bus, s.effects, ())
    case SubscribeCall(subject, handler, external) =>
      var s := Subscribe(b, subject, handler, external);
      Step(s.bus, s.effects, ())
    case InboundCall(m) =>
      var s := HandleSharedWorkerMessage(b, m);
      Step(s.bus, s.effects, ())
  }

  /** The calls in order, with the concatenated trace. */
  function Run(b: MessageBus, calls: seq<Call>): (r: Step<()>)
    requires b.Valid()
    ensures r.bus.Valid() && Evolves(b, r.bus)
    ensures r.bus.started == (b.started || calls != [])
    ensures calls == [] ==> r.effects == []
    ensures calls != [] ==> LifecycleFirst(b, r.effects)
    decreases |calls|
  {
    if calls == [] then Step(b, [], ())
    else
      var first := Apply(b, calls[0]);
      var rest := Run(first.bus, calls[1..]);
      EvolvesTransitive(b, first.bus, rest.bus);
      LifecycleConcat(b, first.bus, first.effects, rest.effects);
      Step(rest.bus, first.effects + rest.effects, ())
  }

  /** A trace that starts `b`, followed by the trace of calls on the started
      bus, still starts `b` once and first. */
  lemma LifecycleConcat(b: MessageBus, b1: MessageBus, e1: seq<Effect>, e2: seq<Effect>)
    requires LifecycleFirst(b, e1) && b1.started
    requires e2 == [] || LifecycleFirst(b1, e2)
    ensures LifecycleFirst(b, e1 + e2)
  {
    var e := e1 + e2;
    var n := |StartEffects(b)|;
    assert e[..n] == e1[..n];
    forall k | n <= k < |e|
      ensures !IsLifecycle(e[k])
    {
      if k >= |e1| {
        assert e[k] == e2[k - |e1|];
      }
    }
  }

  /** Start is one-shot: over any sequence of calls on a new bus, the
      OnMessage handler is attached once and the worker started once, both
      before any other effect; the bus stays started. */
  lemma StartIsOneShot(name: string, calls: seq<Call>)
    ensures var r := Run(NewBus(name), calls);
      && r.bus.started == (calls != [])
      && multiset(r.effects)[AttachOnMessage] == (if calls == [] then 0 else 1)
      && multiset(r.effects)[StartServiceWorker] == (if calls == [] then 0 else 1)
      && (calls != [] ==> r.effects[0] == AttachOnMessage && r.effects[1] == StartServiceWorker)
  {
    var r := Run(NewBus(name), calls);
    if calls != [] {
      var e := r.effects;
      assert e == e[..2] + e[2..];
      assert AttachOnMessage !in e[2..] by {
        forall k | 0 <= k < |e[2..]| ensures e[2..][k] != AttachOnMessage {
          assert !IsLifecycle(e[k + 2]);
        }
      }
      assert StartServiceWorker !in e[2..] by {
        forall k | 0 <= k < |e[2..]| ensures e[2..][k] != StartServiceWorker {
          assert !IsLifecycle(e[k + 2]);
        }
      }
    }
  }

  /** Once started, no call attaches or starts anything again. */
  lemma StartedStaysQuiet(b: MessageBus, calls: seq<Call>)
    requires b.Valid() && b.started
    ensures var r := Run(b, calls);
      r.bus.started && forall k :: 0 <= k < |r.effects| ==> !IsLifecycle(r.effects[k])
  {
  }

  /** A request is resolved by a reply to its id: completed by a plain reply,
      faulted by an error reply, in either case without any effect. */
  lemma RequestResolvedByReply(b: MessageBus, ctx: Context, scope: Scope, reply: Context, replyScope: Scope)
    requires b.Valid()
    requires !ctx.message.IsReply()
    requires reply.message.replyTo == Some(ctx.message.id)
    ensures var q := Request(b, ctx, scope);
      var p := Publish(q.bus, reply, replyScope);
      && p.result.Resolved?
      && p.effects == []
      && p.bus.sources[q.result].status == (if reply.message.isError then Faulted(p.result.message) else Completed(p.result.message))
  {
  }

  /** A reply resolves the same whichever transport delivered it and
      whatever scope it was published with. */
  lemma ReplyIgnoresTransportAndScope(b: MessageBus, m: Message, t: Option<Transport>, scope: Scope)
    requires b.Valid() && m.IsReply()
    ensures var viaAdapter := HandleSharedWorkerMessage(b, m);
      var local := Publish(b, Context(m, t), scope);
      viaAdapter.bus == local.bus && viaAdapter.result == local.result && viaAdapter.effects == local.effects
  {
  }

  /** A second reply to a resolved request is rejected (SetResult and
      SetException throw) and changes nothing but the started flag. */
  lemma SecondReplyRejected(b: MessageBus, ctx: Context, scope: Scope, first: Context, second: Context, s1: Scope, s2: Scope)
    requires b.Valid()
    requires !ctx.message.IsReply()
    requires first.message.replyTo == Some(ctx.message.id)
    requires second.message.replyTo == Some(ctx.message.id)
    ensures var q := Request(b, ctx, scope);
      var p1 := Publish(q.bus, first, s1);
      var p2 := Publish(p1.bus, second, s2);
      p2.result.AlreadyResolved? && p2.bus == p1.bus && p2.effects == []
  {
  }

  /** Requesting twice under one id replaces the registration: a reply then
      resolves the second source and the first stays pending. */
  lemma SameIdOrphansEarlierRequest(b: MessageBus, ctx1: Context, ctx2: Context, scope: Scope, reply: Context, replyScope: Scope)
    requires b.Valid()
    requires !ctx1.message.IsReply() && !ctx2.message.IsReply()
    requires ctx1.message.id == ctx2.message.id
    requires reply.message.replyTo == Some(ctx1.message.id)
    ensures var q1 := Request(b, ctx1, scope);
      var q2 := Request(q1.bus, ctx2, scope);
      var p := Publish(q2.bus, reply, replyScope);
      && q1.result != q2.result
      && p.bus.sources[q1.result].status.Pending?
      && p.result.Resolved? && !p.bus.sources[q2.result].status.Pending?
  {
  }

  /** Whatever happens after a request, its source is resolved at most once
      and only by a reply whose replyTo is the request's id. */
  lemma {:induction false} RequestOnlyResolvedByItsReply(b: MessageBus, ctx: Context, scope: Scope, calls: seq<Call>, later: seq<Call>)
    requires b.Valid()
    ensures var q := Request(b, ctx, scope);
      var r1 := Run(q.bus, calls);
      var r2 := Run(r1.bus, later);
      && r1.bus.sources[q.result].id == ctx.message.id
      && (!r1.bus.sources[q.result].status.Pending? ==>
            && r1.bus.sources[q.result].status.reply.replyTo == Some(ctx.message.id)
            && r2.bus.sources[q.result] == r1.bus.sources[q.result])
  {
    var q := Request(b, ctx, scope);
    var r1 := Run(q.bus, calls);
    assert r1.bus.sources[q.result].id == q.bus.sources[q.result].id;
  }

  /** A new subscription runs last in the next local publish of a matching
      non-reply. */
  lemma SubscribeThenPublish(b: MessageBus, subject: string, h: Handler, external: bool, ctx: Context, scope: Scope)
    requires b.Valid()
    requires !ctx.message.IsReply() && BusSubscriptions in scope
    requires subject == "*" || subject == ctx.message.subject
    ensures var s := Subscribe(b, subject, h, external);
      var handled := Handled(Publish(s.bus, ctx, scope).effects);
      |handled| > 0 && handled[|handled| - 1] == |b.subscriptions|
  {
    var s := Subscribe(b, subject, h, external);
    var after := Publish(s.bus, ctx, scope);
    var c := ctx.(message := after.result.message);
    assert Routes(s.bus.subscriptions, c, scope, after.effects);
    assert s.bus.subscriptions[|b.subscriptions|].Matches(c);
    RoutedLast(s.bus.subscriptions, c, scope, after.effects);
  }

  /** When the last subscription matches, it is the last one handled. */
  lemma RoutedLast(subs: seq<Subscription>, c: Context, scope: Scope, e: seq<Effect>)
    requires Routes(subs, c, scope, e)
    requires BusSubscriptions in scope && |subs| > 0 && subs[|subs| - 1].Matches(c)
    ensures |Handled(e)| > 0 && Handled(e)[|Handled(e)| - 1] == |subs| - 1
  {
    LastOfIncreasing(Handled(e), |subs| - 1);
  }

  /** A strictly increasing sequence holding `n` and nothing above it ends
      with `n`. */
  lemma LastOfIncreasing(s: seq<nat>, n: nat)
    requires StrictlyIncreasing(s)
    requires n in s
    requires forall i :: i in s ==> i <= n
    ensures |s| > 0 && s[|s| - 1] == n
  {
    var k :| 0 <= k < |s| && s[k] == n;
    assert s[|s| - 1] in s;
    IncreasingMonotone(s, k, |s| - 1);
  }

  lemma IncreasingMonotone(s: seq<nat>, k: nat, l: nat)
    requires StrictlyIncreasing(s)
    requires k <= l < |s|
    ensures s[k] <= s[l]
  {
    if k < l {
      assert s[k] < s[l];
    }
  }

  /** Subscribing leaves unchanged which earlier subscriptions a later
      publish runs. */
  lemma SubscribeKeepsEarlierMatches(b: MessageBus, subject: string, h: Handler, external: bool, ctx: Context, scope: Scope)
    requires b.Valid()
    requires !ctx.message.IsReply()
    ensures var s := Subscribe(b, subject, h, external);
      var after := Handled(Publish(s.bus, ctx, scope).effects);
      var before := Handled(Publish(b, ctx, scope).effects);
      forall i :: 0 <= i < |b.subscriptions| ==> (i in after <==> i in before)
  {
    var s := Subscribe(b, subject, h, external);
    var after := Publish(s.bus, ctx, scope);
    var before := Publish(b, ctx, scope);
    assert after.result.message == before.result.message;
    var c := ctx.(message := after.result.message);
    assert Routes(s.bus.subscriptions, c, scope, after.effects);
    assert Routes(b.subscriptions, c, scope, before.effects);
    RoutesAgreeOnPrefix(b.subscriptions, s.bus.subscriptions, c, scope, before.effects, after.effects);
  }

  /** Two routings of one context over a list and its extension run the
      same subscriptions of the shorter list. */
  lemma RoutesAgreeOnPrefix(subs: seq<Subscription>, subs': seq<Subscription>, c: Context, scope: Scope,
                            e: seq<Effect>, e': seq<Effect>)
    requires subs <= subs'
    requires Routes(subs, c, scope, e) && Routes(subs', c, scope, e')
    ensures forall i :: 0 <= i < |subs| ==> (i in Handled(e') <==> i in Handled(e))
  {
    forall i | 0 <= i < |subs|
      ensures i in Handled(e') <==> i in Handled(e)
    {
      assert subs'[i] == subs[i];
    }
  }

  /** There is no de-duplication: two subscriptions to the same subject are
      both handled, in the order they were made. */
  lemma NoDeduplication(b: MessageBus, subject: string, h: Handler, ctx: Context)
    requires b.Valid()
    requires !ctx.message.IsReply() && ctx.message.subject == subject
    ensures var s1 := Subscribe(b, subject, h, false);
      var s2 := Subscribe(s1.bus, subject, h, false);
      var p := Publish(s2.bus, ctx, {BusSubscriptions});
      var handled := Handled(p.effects);
      && |b.subscriptions| in handled && |b.subscriptions| + 1 in handled
      && StrictlyIncreasing(handled)
      && Posted(p.effects) == []
  {
  }

  /** A context made from a payload is never a reply, so publishing it
      always fans out; a null payload fails before the bus is touched. */
  lemma CreatedContextFansOut(b: MessageBus, subject: string, p: Payload, freshId: string, scope: Scope)
    requires b.Valid()
    ensures CreateContext(subject, Null, freshId).Failure?
    ensures var c := CreateContext(subject, PayloadArg(p), freshId);
      c.Success? && Publish(b, c.value, scope).result.FannedOut?
  {
  }

  /** Stamping twice is stamping once. */
  lemma StampIdempotent(m: Message, name: string)
    ensures Stamp(Stamp(m, name), name) == Stamp(m, name)
  {
  }

  /** Subscribe "orders.created" with H1 and "*" with H2, then publish an
      "orders.created" message locally: both run once, in that order, and
      nothing is posted. */
  lemma OrdersCreatedScenario(name: string, id: string, h1: Handler, h2: Handler)
    ensures var b1 := Subscribe(NewBus(name), "orders.created", h1, false).bus;
      var b2 := Subscribe(b1, "*", h2, false).bus;
      var m := Message(id, "orders.created", None, None, None, false);
      var p := Publish(b2, Context(m, None), {BusSubscriptions});
      && Handled(p.effects) == [0, 1]
      && Posted(p.effects) == []
      && forall k :: 0 <= k < |p.effects| && p.effects[k].Handle? ==> p.effects[k].ctx.message.subject == "orders.created"
  {
    var b1 := Subscribe(NewBus(name), "orders.created", h1, false).bus;
    var b2 := Subscribe(b1, "*", h2, false).bus;
    var m := Message(id, "orders.created", None, None, None, false);
    TwoMatchingSubscribers(b2, Context(m, None), {BusSubscriptions});
  }

  lemma TwoMatchingSubscribers(b: MessageBus, ctx: Context, scope: Scope)
    requires b.Valid() && !ctx.message.IsReply() && scope == {BusSubscriptions}
    requires |b.subscriptions| == 2
    requires b.subscriptions[0].Matches(ctx) && b.subscriptions[1].Matches(ctx)
    ensures var p := Publish(b, ctx, scope);
      && Handled(p.effects) == [0, 1]
      && Posted(p.effects) == []
      && forall k :: 0 <= k < |p.effects| && p.effects[k].Handle? ==> p.effects[k].ctx.message.subject == ctx.message.subject
  {
    var p := Publish(b, ctx, scope);
    var c := ctx.(message := p.result.message);
    assert p.result.message.subject == ctx.message.subject;
    RoutedToBoth(b.subscriptions, c, scope, p.effects);
  }

  lemma RoutedToBoth(subs: seq<Subscription>, c: Context, scope: Scope, e: seq<Effect>)
    requires Routes(subs, c, scope, e)
    requires scope == {BusSubscriptions} && |subs| == 2
    requires subs[0].Matches(c) && subs[1].Matches(c)
    ensures Handled(e) == [0, 1] && Posted(e) == []
  {
    var handled := Handled(e);
    assert 0 in handled && 1 in handled;
    assert forall i :: i in handled ==> i < 2;
    StrictlyIncreasingBelowTwo(handled);
  }

  /** A strictly increasing sequence below 2 that holds 0 and 1 is [0, 1]. */
  lemma StrictlyIncreasingBelowTwo(s: seq<nat>)
    requires StrictlyIncreasing(s)
    requires 0 in s && 1 in s
    requires forall i :: i in s ==> i < 2
    ensures s == [0, 1]
  {
    var k0 :| 0 <= k0 < |s| && s[k0] == 0;
    var k1 :| 0 <= k1 < |s| && s[k1] == 1;
    IncreasingAtLeastIndex(s);
    assert s[|s| - 1] in s;
    assert k0 != k1;
    assert s[0] < s[1];
  }

  /** In a strictly increasing sequence of naturals each element is at
      least its position. */
  lemma {:induction false} IncreasingAtLeastIndex(s: seq<nat>)
    requires StrictlyIncreasing(s)
    ensures forall k :: 0 <= k < |s| ==> s[k] >= k
  {
    if |s| > 0 {
      var init := s[..|s| - 1];
      assert StrictlyIncreasing(init);
      IncreasingAtLeastIndex(init);
      if |s| > 1 {
        assert s[|s| - 2] == init[|s| - 2];
      }
    }
  }

  /** A "ping" request published everywhere, answered through the adapter:
      a plain reply completes it, an error reply faults it. */
  lemma PingScenario(isError: bool)
    ensures var b0 := NewBus("BlazorApp42");
      var ping := Message("req-1", "ping", None, None, None, false);
      var q := Request(b0, Context(ping, None), AllScopes);
      var pong := Message("rep-1", "ping", None, Some("worker"), Some("req-1"), isError);
      var p := HandleSharedWorkerMessage(q.bus, pong);
      && Posted(q.effects) == [ping.(from := Some("BlazorApp42"))]
      && p.effects == []
      && p.bus.sources[q.result].status == (if isError then Faulted(pong) else Completed(pong))
  {
    var b0 := NewBus("BlazorApp42");
    var ping := Message("req-1", "ping", None, None, None, false);
    var q := Request(b0, Context(ping, None), AllScopes);
    var pub := Publish(b0, Context(ping, None), AllScopes);
    assert pub.result.message == ping.(from := Some("BlazorApp42"));
    var pong := Message("rep-1", "ping", None, Some("worker"), Some("req-1"), isError);
    assert !IsWhiteSpace("worker"[0]);
    assert Stamp(pong, "BlazorApp42") == pong;
    assert q.bus.requests["req-1"] == q.result;
  }
}
