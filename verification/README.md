# MessageBus routing and correlation, in Dafny

This project models the core of `MessageBus` from GN.Blazor.SharedIndexedDB.
It is the in-process message bus of a Blazor application. It does three things:

- it delivers a message to the local subscriptions whose subject matches;
- it forwards the message to a browser SharedWorker through an adapter;
- it correlates request messages with the replies that come back.

The bus is modelled as an immutable state, `Bus.MessageBus`, with these parts:

- the name that stamps outgoing messages;
- the one-shot `started` flag;
- the ordered subscription list;
- the request table.

Every operation that touches the bus is a pure transition `(bus, inputs) -> Step(bus', effects, result)`; the two `CreateContext` overloads do not touch it and return a `Result` or a context.
`effects` is the ordered list of calls the bus makes into its collaborators:

- attaching the `OnMessage` handler;
- starting the worker;
- posting a message to the worker;
- registering an external subscription with the adapter;
- running the handler of the i-th subscription.

A `TaskCompletionSource<Message>` is an entry of `sources`, with status Pending, Completed or Faulted. `requests` maps a correlation id to the index of the source registered last under that id. An awaited request therefore corresponds to watching one index of `sources`.

Modules:

- `Messages` (messages.dfy): the message envelope, transports and scopes, contexts, subscriptions, and .NET's `string.IsNullOrWhiteSpace`.
- `Trace` (trace.dfy): the effect type, plus the projections `Posted` (the messages handed to the worker) and `Handled` (the subscription indices whose handler ran). Routing properties are stated through these two projections.
- `Bus` (bus.dfy): `Start`, `HandleSharedWorkerMessage`, `Publish` with its reply and routing paths, `Request`, `Subscribe`, and both `CreateContext` overloads. It also holds the representation invariant `Valid` and the evolution relation `Evolves`. `Start` changes only the started flag and keeps `Valid`; `Publish`, `Request`, `Subscribe` and `HandleSharedWorkerMessage` each keep `Valid` and establish `Evolves`.
- `BusRuns` (runs.dfy): arbitrary sequences of calls (`Run`), and the properties that relate several calls.

## Model

All source cells refer to `src/GN.Blazor.SharedIndexedDB/Messaging/MessageBus.cs`.

| member | source | states |
|---|---|---|
| Bus.NewBus | src/GN.Blazor.SharedIndexedDB/Messaging/MessageBus.cs:15-27 | A constructed bus carries the given name, is not started, and has no subscriptions, requests or sources; it satisfies the invariant. |
| Bus.Start | src/GN.Blazor.SharedIndexedDB/Messaging/MessageBus.cs:28-38 | After Start the bus is started, nothing else in the state changed, and the invariant is kept. It performs no effect if and only if it was already started; otherwise its effects are exactly: attach the inbound handler, then start the worker. |
| Bus.Stamp | src/GN.Blazor.SharedIndexedDB/Messaging/MessageBus.cs:49 | Only `From` can change. A null, empty or white-space `From` (by the .NET white-space set) becomes the bus name; any other message is returned unchanged. |
| Bus.Matching | src/GN.Blazor.SharedIndexedDB/Messaging/MessageBus.cs:72-73 | The snapshot of matching subscriptions: strictly increasing indices, every listed subscription matches, and every matching subscription is listed. |
| Bus.Route | src/GN.Blazor.SharedIndexedDB/Messaging/MessageBus.cs:66-74 | The message is posted exactly once when the scope contains SharedWorker and never otherwise. Exactly the matching subscriptions run, each once, in registration order, with the context. Posting precedes handling, and nothing else happens. |
| Bus.Resolve | src/GN.Blazor.SharedIndexedDB/Messaging/MessageBus.cs:50-65 | A reply to an unknown id changes nothing. A reply to a pending request completes it, or faults it when the reply is an error, carrying the reply. A reply to an already resolved request is rejected and changes nothing. There are no effects, and request entries are never removed. |
| Bus.Publish | src/GN.Blazor.SharedIndexedDB/Messaging/MessageBus.cs:45-80 | Starts the bus and stamps `From` on every path, before the reply test. A reply is consumed without posting or handling, and the three resolution cases hold on the stamped message. A non-reply is routed by scope as in `Route`, after the start effects. Subscriptions and the request table are untouched; no adapter subscription is made. |
| Bus.Register | src/GN.Blazor.SharedIndexedDB/Messaging/MessageBus.cs:85-86 | Adds a fresh Pending source and maps the message id to it, replacing any earlier mapping for that id. Everything else is kept. |
| Bus.Request | src/GN.Blazor.SharedIndexedDB/Messaging/MessageBus.cs:81-90 | Returns a new source that is registered under the message id, overwriting an earlier registration, before the message is published. It stays Pending unless the message is itself a reply; a reply is resolved exactly as a publish on the bus with the registration would resolve it, so a reply to its own id resolves the fresh source. Its effects are exactly those of publishing the same context. |
| Bus.Subscribe | src/GN.Blazor.SharedIndexedDB/Messaging/MessageBus.cs:91-106 | Starts the bus and appends exactly one subscription at the end, keeping the invariant. After the start effects, it emits exactly one adapter subscribe for the subject when `external` holds, and nothing otherwise. Requests are untouched. |
| Bus.HandleSharedWorkerMessage | src/GN.Blazor.SharedIndexedDB/Messaging/MessageBus.cs:39-44 | The inbound message, stamped like any publish, is never posted back to the worker, and no adapter subscription is made. A non-reply takes the fan-out path: it touches no request source and reaches every matching local subscription, with SharedWorker as the context's transport. Subscriptions and the request table are untouched. |
| Bus.CreateContext | src/GN.Blazor.SharedIndexedDB/Messaging/MessageBus.cs:108-114 | Fails with an argument-null error if and only if the argument is null. A Message is wrapped unchanged. Any other payload gets a new non-reply, non-error Message with the subject, the payload and a fresh id (built by `Messages.NewMessage`). The context has no origin transport. |
| Messages.NewMessage | src/GN.Blazor.SharedIndexedDB/Messaging/MessageBus.cs:112 | `new Message(subject, payload)`: a message that is not a reply, not an error and has no sender, carrying the subject, the payload and the generated id. |
| Bus.CreateContextFor | src/GN.Blazor.SharedIndexedDB/Messaging/MessageBus.cs:116-119 | Wraps the message with no transport. This agrees with the other overload applied to the same (non-null) Message, for every subject. |
| Messages.Except | src/GN.Blazor.SharedIndexedDB/Messaging/MessageBus.cs:42 | The scope minus one transport: that transport is absent, and every other transport is kept exactly. |
| BusRuns.Run | src/GN.Blazor.SharedIndexedDB/Messaging/MessageBus.cs:28-38 | Any sequence of calls keeps the invariant and only evolves the state. The bus is started if and only if it was started or some call was made. A non-empty run's trace opens with the start effects and holds no later lifecycle effect. |
| BusRuns.StartIsOneShot | src/GN.Blazor.SharedIndexedDB/Messaging/MessageBus.cs:28-38 | Over any sequence of calls on a new bus, the handler is attached exactly once and the worker started exactly once, as the first two effects. If no call is made, neither happens. |
| BusRuns.StartedStaysQuiet | src/GN.Blazor.SharedIndexedDB/Messaging/MessageBus.cs:31 | On a started bus, no sequence of calls attaches or starts anything. |
| BusRuns.RequestResolvedByReply | src/GN.Blazor.SharedIndexedDB/Messaging/MessageBus.cs:81-87 | After a request, a reply to its id resolves its source with no effect: Completed by a plain reply, Faulted by an error reply. |
| BusRuns.ReplyIgnoresTransportAndScope | src/GN.Blazor.SharedIndexedDB/Messaging/MessageBus.cs:39-65 | A reply has the same outcome, state and trace whether it arrives through the adapter or is published locally, with any scope. |
| BusRuns.SecondReplyRejected | src/GN.Blazor.SharedIndexedDB/Messaging/MessageBus.cs:52-63 | A second reply to an already resolved request is rejected, with no change of state and no effect. |
| BusRuns.SameIdOrphansEarlierRequest | src/GN.Blazor.SharedIndexedDB/Messaging/MessageBus.cs:85-86 | Two requests under one id: the reply resolves the later source and leaves the earlier one Pending. |
| BusRuns.RequestOnlyResolvedByItsReply | src/GN.Blazor.SharedIndexedDB/Messaging/MessageBus.cs:50-63 | After any calls, a request's source is resolved only by a reply whose replyTo is the request's id. Once resolved, it never changes again. |
| BusRuns.SubscribeThenPublish | src/GN.Blazor.SharedIndexedDB/Messaging/MessageBus.cs:93-95 | A new subscription is the last handler run by the next local publish of a non-reply whose subject it matches. |
| BusRuns.SubscribeKeepsEarlierMatches | src/GN.Blazor.SharedIndexedDB/Messaging/MessageBus.cs:95 | Subscribing does not change which of the earlier subscriptions a publish runs. |
| BusRuns.NoDeduplication | src/GN.Blazor.SharedIndexedDB/Messaging/MessageBus.cs:95 | Two subscriptions with the same subject and handler are both run, in the order they were made; a local-only publish posts nothing. |
| BusRuns.CreatedContextFansOut | src/GN.Blazor.SharedIndexedDB/Messaging/MessageBus.cs:108-114 | A null argument fails. A context made from a payload is never a reply, so publishing it always fans out. |
| BusRuns.StampIdempotent | src/GN.Blazor.SharedIndexedDB/Messaging/MessageBus.cs:49 | Stamping twice is stamping once, for every bus name. |
| BusRuns.OrdersCreatedScenario | src/GN.Blazor.SharedIndexedDB/Messaging/MessageBus.cs:70-74 | Subscribe "orders.created", then "*", then publish "orders.created" locally: both handlers run once, in subscription order, with that subject, and nothing is posted. |
| BusRuns.PingScenario | src/GN.Blazor.SharedIndexedDB/Messaging/MessageBus.cs:81-87 | A request published everywhere posts the stamped message once. The reply coming back through the adapter completes the request, or faults it when the reply is an error, with no effect. |

## Left out

- Logging, dependency injection and the service provider are not modelled; they do not affect routing.
- The random bus name from the constructor is a parameter of `NewBus`: randomness is not modelled.
- The `subscriptions` dictionary (line 15) and the commented-out code are not modelled: the dictionary is never used. The unused local at line 56 is also left out.
- Async scheduling is not modelled. Every operation runs to completion, in call order. Two concurrent callers both seeing `_started` false is not modelled, and neither are awaits that interleave.
- The adapter's internals, serialization and the worker are not modelled. They appear only as the effects `AttachOnMessage`, `StartServiceWorker`, `PostMessage` and `AdapterSubscribe`.
- Every adapter call is assumed to complete normally; a failing one is not modelled. This has two consequences the real program can show and the model does not:
  - If `StartServiceWorker` (line 35) throws, the handler is already attached (line 34) but `_started` stays false. The next call then attaches a second handler, so `BusRuns.StartIsOneShot` does not hold for such a run.
  - If `PostMessage` (line 68) throws, the local fan-out of lines 70-74 is skipped, whereas `Bus.Route` always runs it.
- Handlers are opaque. A handler running appears as a `Handle` effect; an exception it throws and a re-entrant call from it are not modelled.
- The awaitable result of `Request` is the index of its source, rather than a Task.
- A Faulted source carries the reply message itself, not the text of the exception built from it.
- A reply to an already resolved request yields the outcome `AlreadyResolved` instead of the exception that SetResult/SetException throw.
- `HandleSharedWorkerMessage` discards the Task that `Publish` returns; the model keeps the outcome in the result.
- The definitions of Message, MessageScope, MessageContext, BusSubscription, Transports and the adapter interface live in files outside this model.
  - messages.dfy reduces them to the fields and predicates the bus reads.
  - `Subscription.Matches` is taken to be: equal subjects, or the wildcard subject "*".
- The bus reference a context holds is not modelled.
- The stamp at line 49 writes `From` into the caller's `Message` object in place, so the caller and anyone else holding that object see the bus name afterwards. The model leaves the caller's context unchanged and returns the stamped copy in the outcome. Within one bus this makes no difference (`BusRuns.StampIdempotent`). Across buses it does: in the source, the first bus's name sticks to a shared message object, which the model does not show.
- `CreateContext(Message)` (lines 116-119) accepts null without a check, unlike the other overload (lines 110-111). The model's `Message` cannot be null, so a context wrapping null is not modelled, and `Bus.CreateContextFor` agrees with the other overload only for non-null messages.
- The id a new Message generates is the `freshId` parameter of `CreateContext`.
- Entries in `requests` are never removed (MessageBus.cs:50-65). An entry stays for good, so a second reply finds an already resolved source.
- `Source.id` records the id under which a source was registered. It is bookkeeping for the invariant; the source object has no such field.
