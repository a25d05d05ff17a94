/**
  The data the message bus routes: messages, delivery scopes, contexts and
  subscriptions. The source defines these types in files outside this model;
  they are reduced here to the fields and predicates the bus relies on.
 */
module Messages {

  /** A value that may be absent (a C# null reference). */
  datatype Option<+T> = None | Some(value: T)

  /** The channels a message can travel through. */
  datatype Transport = BusSubscriptions | SharedWorker

  /** A delivery scope: the set of transports a publish may use. */
  type Scope = set<Transport>

  /** The universal scope. */
  const AllScopes: Scope := {BusSubscriptions, SharedWorker}

  /** The scope without one transport; the receiver is left untouched. */
  function Except(scope: Scope, t: Transport): (r: Scope)
    ensures t !in r
    ensures r <= scope
    ensures forall x :: x != t ==> (x in r <==> x in scope)
  {
    scope - {t}
  }

  /** An opaque payload; the bus never looks inside it. */
  datatype Payload = Opaque(token: nat)

  /** The message envelope. `replyTo` present marks a reply. */
  datatype Message = Message(
    id: string,
    subject: string,
    payload: Option<Payload>,
    from: Option<string>,
    replyTo: Option<string>,
    isError: bool)
  {
    predicate IsReply() {
      replyTo.Some?
    }
  }

  /** A fresh, non-reply message for a subject and a payload; `id` is the
      correlation id the constructor generates. */
  function NewMessage(id: string, subject: string, payload: Payload): (m: Message)
    ensures !m.IsReply() && !m.isError && m.from.None?
    ensures m.id == id && m.subject == subject && m.payload == Some(payload)
  {
    Message(id, subject, Some(payload), None, None, false)
  }

  /** The characters .NET's char.IsWhiteSpace accepts: the space, line and
      paragraph separators of Unicode plus the control characters U+0009 to
      U+000D and U+0085. */
  predicate IsWhiteSpace(c: char) {
    || c == ' '
    || '\t' <= c <= '\r'
    || c == '\U{85}'
    || c == '\U{A0}'
    || c == '\U{1680}'
    || '\U{2000}' <= c <= '\U{200A}'
    || c == '\U{2028}'
    || c == '\U{2029}'
    || c == '\U{202F}'
    || c == '\U{205F}'
    || c == '\U{3000}'
  }

  /** string.IsNullOrWhiteSpace: absent, empty, or white space only. */
  predicate IsNullOrWhiteSpace(s: Option<string>) {
    s.None? || forall i :: 0 <= i < |s.value| ==> IsWhiteSpace(s.value[i])
  }

  /** A message together with the transport it arrived from (None for a
      message that originates on this bus). */
  datatype Context = Context(message: Message, transport: Option<Transport>)

  /** An opaque handler callback. */
  datatype Handler = Handler(token: nat)

  /** A subject pattern bound to a handler; "*" matches every subject. */
  datatype Subscription = Subscription(subject: string, handler: Handler)
  {
    predicate Matches(ctx: Context) {
      subject == "*" || subject == ctx.message.subject
    }
  }
}
