/**
  The routing and correlation engine of MessageBus, as pure transitions
  `(bus, inputs) -> Step(bus', effects, result)`.

  The bus state is the one-shot started flag, the ordered subscription
  list and the pending-request table. A TaskCompletionSource is an entry of
  `sources`; `requests` maps a correlation id to the source registered last
  under that id. Entries are never removed, as in the source.
 */
module Bus {
  import opened Messages
  import opened Trace

  /** The state of a TaskCompletionSource<Message>. */
  datatype Status = Pending | Completed(reply: Message) | Faulted(reply: Message)

  /** A completion source with the correlation id it was registered under. */
  datatype Source = Source(id: string, status: Status)

  /** The synchronous argument error of CreateContext. */
  datatype BusError = ArgumentNull

  datatype Result<+T> = Success(value: T) | Failure(error: BusError)

  /** What one Publish did with its message, which is always the stamped one. */
  datatype PublishOutcome =
    | FannedOut(message: Message)         // not a reply: routed by scope
    | Resolved(message: Message)          // a reply that completed or faulted a pending request
    | Unmatched(message: Message)         // a reply with no request under its id: dropped
    | AlreadyResolved(message: Message)   // a reply to a resolved request: SetResult/SetException throws

  /** The new state, the effects in the order performed, and the result. */
  datatype Step<+R> = Step(bus: MessageBus, effects: seq<Effect>, result: R)

  datatype MessageBus = MessageBus(
    name: string,
    started: bool,
    subscriptions: seq<Subscription>,
    requests: map<string, nat>,
    sources: seq<Source>)
  {
    /** Every registered correlation id refers to an allocated source
        registered under that id, and a resolved source holds a reply to
        the id it was registered under. */
    predicate Valid() {
      && (forall id :: id in requests ==> requests[id] < |sources| && sources[requests[id]].id == id)
      && (forall k :: 0 <= k < |sources| && !sources[k].status.Pending? ==>
            sources[k].status.reply.replyTo == Some(sources[k].id))
    }
  }

  /** A bus as constructed: not started, nothing registered. */
  function NewBus(name: string): (r: MessageBus)
    ensures r.Valid() && !r.started && r.name == name
    ensures r.subscriptions == [] && r.requests == map[] && r.sources == []
  {
    MessageBus(name, false, [], map[], [])
  }

  /** How a later state relates to an earlier one: the name is fixed, the
      started flag never falls back, subscriptions only grow at the end,
      request ids are never forgotten, and a resolved source never changes. */
  predicate Evolves(b: MessageBus, b': MessageBus) {
    && b'.name == b.name
    && (b.started ==> b'.started)
    && b.subscriptions <= b'.subscriptions
    && b.requests.Keys <= b'.requests.Keys
    && |b.sources| <= |b'.sources|
    && forall k :: 0 <= k < |b.sources| ==>
         && b'.sources[k].id == b.sources[k].id
         && (!b.sources[k].status.Pending? ==> b'.sources[k] == b.sources[k])
  }

  lemma EvolvesTransitive(b0: MessageBus, b1: MessageBus, b2: MessageBus)
    requires Evolves(b0, b1) && Evolves(b1, b2)
    ensures Evolves(b0, b2)
  {
  }

  /** The effects the start performs on a bus in state `b`. */
  function StartEffects(b: MessageBus): seq<Effect> {
    if b.started then [] else [AttachOnMessage, StartServiceWorker]
  }

  /** The trace opens with the start effects due in `b` and holds no other
      lifecycle effect. */
  predicate LifecycleFirst(b: MessageBus, effects: seq<Effect>) {
    && |StartEffects(b)| <= |effects|
    && effects[..|StartEffects(b)|] == StartEffects(b)
    && forall k :: |StartEffects(b)| <= k < |effects| ==> !IsLifecycle(effects[k])
  }

  /** Start: attach the inbound handler and start the worker, once. */
  function Start(b: MessageBus): (r: Step<()>)
    ensures r.bus.started
    ensures r.bus.(started := b.started) == b
    ensures b.Valid() ==> r.bus.Valid()
    ensures b.started <==> r.effects == []
    ensures !b.started ==> r.effects == [AttachOnMessage, StartServiceWorker]
    ensures LifecycleFirst(b, r.effects)
  {
    if b.started then Step(b, [], ())
    else
      ValidOnlyReadsTable(b, b.(started := true));
      Step(b.(started := true), [AttachOnMessage, StartServiceWorker], ())
  }

  /** The sender stamp: a null or white-space `from` becomes the bus name. */
  function Stamp(m: Message, name: string): (r: Message)
    ensures r.(from := m.from) == m
    ensures IsNullOrWhiteSpace(m.from) ==> r.from == Some(name)
    ensures !IsNullOrWhiteSpace(m.from) ==> r == m
  {
    m.(from := if IsNullOrWhiteSpace(m.from) then Some(name) else m.from)
  }

  /** The indices, from `from` on, of the subscriptions that match `ctx`,
      in registration order: the snapshot the source takes with ToList. */
  function Matching(subs: seq<Subscription>, ctx: Context, from: nat): (r: seq<nat>)
    requires from <= |subs|
    ensures StrictlyIncreasing(r)
    ensures forall k :: 0 <= k < |r| ==> from <= r[k] < |subs| && subs[r[k]].Matches(ctx)
    ensures forall i :: from <= i < |subs| && subs[i].Matches(ctx) ==> i in r
    decreases |subs| - from
  {
    if from == |subs| then []
    else if subs[from].Matches(ctx) then [from] + Matching(subs, ctx, from + 1)
    else Matching(subs, ctx, from + 1)
  }

  /** One Handle effect per index, in order, all with the same context. */
  function HandleEach(indices: seq<nat>, ctx: Context): (r: seq<Effect>)
    ensures |r| == |indices|
    ensures forall k :: 0 <= k < |r| ==> r[k] == Handle(indices[k], ctx)
  {
    seq(|indices|, k requires 0 <= k < |indices| => Handle(indices[k], ctx))
  }

  lemma HandleEachTrace(indices: seq<nat>, ctx: Context)
    ensures Handled(HandleEach(indices, ctx)) == indices
    ensures Posted(HandleEach(indices, ctx)) == []
  {
    var e := HandleEach(indices, ctx);
    HandledAll(e);
    PostedNone(e);
  }

  /** What a non-reply publish of `ctx` with `scope` over `subs` does: it
      posts the message once when the scope holds the shared worker and never
      otherwise; it runs exactly the subscriptions that match, each once, in
      registration order, all with `ctx`; and it posts before it handles. */
  ghost predicate Routes(subs: seq<Subscription>, ctx: Context, scope: Scope, e: seq<Effect>) {
    && Posted(e) == (if SharedWorker in scope then [ctx.message] else [])
    && StrictlyIncreasing(Handled(e))
    && (forall i :: i in Handled(e) <==> BusSubscriptions in scope && 0 <= i < |subs| && subs[i].Matches(ctx))
    && (forall k :: 0 <= k < |e| && e[k].Handle? ==> e[k].ctx == ctx)
    && (forall p, q :: 0 <= p < |e| && 0 <= q < |e| && e[p].PostMessage? && e[q].Handle? ==> p < q)
  }

  /** The fan-out of a non-reply: the shared-worker post first, when the
      scope allows it, then the matching local handlers. */
  function Route(subs: seq<Subscription>, ctx: Context, scope: Scope): (r: seq<Effect>)
    ensures Routes(subs, ctx, scope, r)
    ensures forall k :: 0 <= k < |r| ==> r[k].PostMessage? || r[k].Handle?
  {
    var posted := if SharedWorker in scope then [PostMessage(ctx.message)] else [];
    var indices := if BusSubscriptions in scope then Matching(subs, ctx, 0) else [];
    var handled := HandleEach(indices, ctx);
    RouteTrace(subs, ctx, scope, posted, indices, handled);
    posted + handled
  }

  lemma RouteTrace(subs: seq<Subscription>, ctx: Context, scope: Scope,
                   posted: seq<Effect>, indices: seq<nat>, handled: seq<Effect>)
    requires posted == if SharedWorker in scope then [PostMessage(ctx.message)] else []
    requires indices == if BusSubscriptions in scope then Matching(subs, ctx, 0) else []
    requires handled == HandleEach(indices, ctx)
    ensures Routes(subs, ctx, scope, posted + handled)
    ensures forall k :: 0 <= k < |posted + handled| ==> (posted + handled)[k].PostMessage? || (posted + handled)[k].Handle?
  {
    var r := posted + handled;
    assert Posted(r) == (if SharedWorker in scope then [ctx.message] else []) by {
      HandleEachTrace(indices, ctx);
      PostedAppend(posted, handled);
    }
    assert Handled(r) == indices by {
      HandleEachTrace(indices, ctx);
      HandledAppend(posted, handled);
      HandledNone(posted);
    }
    MatchingInScope(subs, ctx, scope, indices);
    PostsThenHandles(posted, handled, ctx);
  }

  /** The indices Route hands to HandleEach are exactly the matching ones. */
  lemma MatchingInScope(subs: seq<Subscription>, ctx: Context, scope: Scope, indices: seq<nat>)
    requires indices == if BusSubscriptions in scope then Matching(subs, ctx, 0) else []
    ensures StrictlyIncreasing(indices)
    ensures forall i :: i in indices <==> BusSubscriptions in scope && 0 <= i < |subs| && subs[i].Matches(ctx)
  {
  }

  /** The reply path: resolve the source registered under `m.replyTo`. */
  function Resolve(b: MessageBus, m: Message): (r: Step<PublishOutcome>)
    requires b.Valid() && m.IsReply()
    ensures r.bus.Valid() && Evolves(b, r.bus)
    ensures r.effects == []
    ensures r.result.message == m
    ensures r.bus.(sources := b.sources) == b
    ensures m.replyTo.value !in b.requests ==> r.result.Unmatched? && r.bus == b
    ensures m.replyTo.value in b.requests ==>
      var k := b.requests[m.replyTo.value];
      if b.sources[k].status.Pending? then
        r.result.Resolved? &&
        r.bus.sources == b.sources[k := b.sources[k].(status := if m.isError then Faulted(m) else Completed(m))]
      else
        r.result.AlreadyResolved? && r.bus == b
  {
    var id := m.replyTo.value;
    if id !in b.requests then Step(b, [], Unmatched(m))
    else
      var k := b.requests[id];
      if b.sources[k].status.Pending? then
        var status := if m.isError then Faulted(m) else Completed(m);
        Step(b.(sources := b.sources[k := b.sources[k].(status := status)]), [], Resolved(m))
      else Step(b, [], AlreadyResolved(m))
  }

  /** Prefixing a routed trace with the start effects keeps it routed. */
  lemma StartThenRoute(b: MessageBus, subs: seq<Subscription>, ctx: Context, scope: Scope, routed: seq<Effect>)
    requires Routes(subs, ctx, scope, routed)
    requires forall k :: 0 <= k < |routed| ==> routed[k].PostMessage? || routed[k].Handle?
    ensures LifecycleFirst(b, StartEffects(b) + routed)
    ensures Routes(subs, ctx, scope, StartEffects(b) + routed)
    ensures forall k :: 0 <= k < |StartEffects(b) + routed| ==> !(StartEffects(b) + routed)[k].AdapterSubscribe?
  {
    var pre := StartEffects(b);
    PrefixKeepsProjections(pre, routed);
    PrefixKeepsOrder(pre, routed, ctx);
    assert (pre + routed)[..|pre|] == pre;
  }

  /** Publish: start, stamp the sender, then resolve a reply or route by scope. */
  function Publish(b: MessageBus, ctx: Context, scope: Scope): (r: Step<PublishOutcome>)
    requires b.Valid()
    ensures r.bus.Valid() && Evolves(b, r.bus) && r.bus.started
    ensures LifecycleFirst(b, r.effects)
    // the stamp, on every path, replies included
    ensures r.result.message.(from := ctx.message.from) == ctx.message
    ensures r.result.message.from == if IsNullOrWhiteSpace(ctx.message.from) then Some(b.name) else ctx.message.from
    // only the request table's sources may change
    ensures r.bus.subscriptions == b.subscriptions && r.bus.requests == b.requests
    ensures |r.bus.sources| == |b.sources|
    // a reply is consumed without posting or handling
    ensures ctx.message.IsReply() ==> r.effects == StartEffects(b)
    ensures ctx.message.IsReply() ==>
      var id := ctx.message.replyTo.value;
      && (id !in b.requests ==> r.result.Unmatched? && r.bus.sources == b.sources)
      && (id in b.requests && b.sources[b.requests[id]].status.Pending? ==>
            && r.result.Resolved?
            && r.bus.sources == b.sources[b.requests[id] := Source(id,
                 if ctx.message.isError then Faulted(r.result.message) else Completed(r.result.message))])
      && (id in b.requests && !b.sources[b.requests[id]].status.Pending? ==>
            r.result.AlreadyResolved? && r.bus.sources == b.sources)
    // a non-reply is routed by scope
    ensures !ctx.message.IsReply() ==> r.result.FannedOut? && r.bus.sources == b.sources
    ensures !ctx.message.IsReply() ==> Routes(b.subscriptions, ctx.(message := r.result.message), scope, r.effects)
    ensures forall k :: 0 <= k < |r.effects| ==> !r.effects[k].AdapterSubscribe?
  {
    var s := Start(b);
    var m := Stamp(ctx.message, b.name);
    if m.IsReply() then
      var p := Resolve(s.bus, m);
      EvolvesTransitive(b, s.bus, p.bus);
      Step(p.bus, StartEffects(b), p.result)
    else
      var c := ctx.(message := m);
      var routed := Route(b.subscriptions, c, scope);
      StartThenRoute(b, b.subscriptions, c, scope, routed);
      Step(s.bus, StartEffects(b) + routed, FannedOut(m))
  }

  /** Request: register a fresh pending source under the message id, then
      publish. The result is the source, which a later reply resolves. */
  function Request(b: MessageBus, ctx: Context, scope: Scope): (r: Step<nat>)
    requires b.Valid()
    ensures r.bus.Valid() && Evolves(b, r.bus) && r.bus.started
    ensures r.result == |b.sources| && |r.bus.sources| == |b.sources| + 1
    ensures r.bus.requests == b.requests[ctx.message.id := r.result]
    ensures r.bus.subscriptions == b.subscriptions
    ensures r.bus.sources[r.result].id == ctx.message.id
    ensures !ctx.message.IsReply() ==> r.bus.sources == b.sources + [Source(ctx.message.id, Pending)]
    // the source is registered before the publish, so a reply that answers
    // its own id resolves the fresh source at once
    ensures ctx.message.IsReply() ==> r.bus.sources == Publish(Register(b, ctx.message.id), ctx, scope).bus.sources
    ensures ctx.message.replyTo == Some(ctx.message.id) ==> !r.bus.sources[r.result].status.Pending?
    // registering changes nothing about routing
    ensures r.effects == Publish(b, ctx, scope).effects
  {
    var s := Start(b);
    var registered := Register(s.bus, ctx.message.id);
    var p := Publish(registered, ctx, scope);
    EvolvesTransitive(b, s.bus, registered);
    EvolvesTransitive(b, registered, p.bus);
    PublishEffectsOnStarted(b, registered, ctx, scope);
    Step(p.bus, s.effects + p.effects, |b.sources|)
  }

  /** `requests[id] = new TaskCompletionSource()`: a fresh pending source,
      registered under `id` in place of any earlier one. */
  function Register(b: MessageBus, id: string): (r: MessageBus)
    requires b.Valid()
    ensures r.Valid() && Evolves(b, r)
    ensures r.requests == b.requests[id := |b.sources|]
    ensures r.sources == b.sources + [Source(id, Pending)]
    ensures r.name == b.name && r.started == b.started && r.subscriptions == b.subscriptions
  {
    b.(requests := b.requests[id := |b.sources|], sources := b.sources + [Source(id, Pending)])
  }

  /** On a started bus with the same name and subscriptions, a publish
      performs what it would perform on `b`, less the start. */
  lemma PublishEffectsOnStarted(b: MessageBus, b': MessageBus, ctx: Context, scope: Scope)
    requires b.Valid() && b'.Valid() && b'.started
    requires b'.name == b.name && b'.subscriptions == b.subscriptions
    ensures Publish(b, ctx, scope).effects == StartEffects(b) + Publish(b', ctx, scope).effects
  {
    var m := Stamp(ctx.message, b.name);
    if m.IsReply() {
      assert Publish(b', ctx, scope).effects == [];
      assert StartEffects(b) + [] == StartEffects(b);
    } else {
      var routed := Route(b.subscriptions, ctx.(message := m), scope);
      assert Publish(b', ctx, scope).effects == [] + routed;
      assert Publish(b, ctx, scope).effects == StartEffects(b) + routed;
      assert [] + routed == routed;
    }
  }

  /** The invariant reads only the request table and the sources. */
  lemma ValidOnlyReadsTable(b: MessageBus, b': MessageBus)
    requires b'.requests == b.requests && b'.sources == b.sources
    ensures b.Valid() <==> b'.Valid()
  {
  }

  /** Subscribe: append one subscription; with `external`, also register the
      subject with the adapter. */
  function Subscribe(b: MessageBus, subject: string, handler: Handler, external: bool): (r: Step<()>)
    ensures Evolves(b, r.bus) && r.bus.started && (b.Valid() ==> r.bus.Valid())
    ensures r.bus.subscriptions == b.subscriptions + [Subscription(subject, handler)]
    ensures r.bus.requests == b.requests && r.bus.sources == b.sources
    ensures LifecycleFirst(b, r.effects)
    ensures r.effects[|StartEffects(b)|..] == if external then [AdapterSubscribe(subject)] else []
  {
    var s := Start(b);
    var registered := s.bus.(subscriptions := s.bus.subscriptions + [Subscription(subject, handler)]);
    ValidOnlyReadsTable(b, registered);
    Step(registered, s.effects + if external then [AdapterSubscribe(subject)] else [], ())
  }

  /** The inbound adapter callback: republish with the shared-worker
      transport as origin and removed from the scope. */
  function HandleSharedWorkerMessage(b: MessageBus, m: Message): (r: Step<PublishOutcome>)
    requires b.Valid()
    ensures r.bus.Valid() && Evolves(b, r.bus) && r.bus.started
    ensures LifecycleFirst(b, r.effects)
    // the inbound message itself, stamped, and nothing registered
    ensures r.result.message == Stamp(m, b.name)
    ensures r.bus.subscriptions == b.subscriptions && r.bus.requests == b.requests
    // never echoed back onto the shared worker, and no adapter subscription
    ensures Posted(r.effects) == []
    ensures forall k :: 0 <= k < |r.effects| ==> !r.effects[k].AdapterSubscribe?
    // a non-reply takes the fan-out path and touches no request
    ensures !m.IsReply() ==> r.result.FannedOut? && r.bus.sources == b.sources
    // still delivered to every matching local subscription, with the
    // shared worker as the context's transport
    ensures !m.IsReply() ==>
      Routes(b.subscriptions, Context(r.result.message, Some(SharedWorker)), {BusSubscriptions}, r.effects)
  {
    var ctx := Context(m, Some(SharedWorker));
    var scope := Except(AllScopes, ctx.transport.value);
    assert scope == {BusSubscriptions};
    var r := Publish(b, ctx, scope);
    if m.IsReply() then
      PostedNone(r.effects);
      r
    else r
  }

  /** The argument of CreateContext(subject, object): null, a Message, or
      any other payload. */
  datatype Argument = Null | MessageArg(message: Message) | PayloadArg(payload: Payload)

  /** CreateContext(subject, message): reject null, wrap a Message as is,
      wrap any other payload in a new Message with id `freshId`. */
  function CreateContext(subject: string, arg: Argument, freshId: string): (r: Result<Context>)
    ensures arg.Null? <==> r.Failure?
    ensures r.Failure? ==> r.error == ArgumentNull
    ensures r.Success? ==> r.value.transport.None?
    ensures arg.MessageArg? ==> r.Success? && r.value.message == arg.message
    ensures arg.PayloadArg? ==> r.Success? && !r.value.message.IsReply() && !r.value.message.isError
    ensures arg.PayloadArg? ==>
      (r.Success? && r.value.message.id == freshId &&
       r.value.message.subject == subject && r.value.message.payload == Some(arg.payload))
  {
    match arg
    case Null => Failure(ArgumentNull)
    case MessageArg(m) => Success(Context(m, None))
    case PayloadArg(p) => Success(Context(NewMessage(freshId, subject, p), None))
  }

  /** CreateContext(message): a locally originated context, the same one the
      other overload builds when handed a Message. */
  function CreateContextFor(m: Message): (r: Context)
    ensures r.message == m && r.transport.None?
    ensures forall subject, id :: CreateContext(subject, MessageArg(m), id) == Success(r)
  {
    Context(m, None)
  }
}
