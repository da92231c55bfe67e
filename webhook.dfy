/** The Supabase-webhook-to-Kafka bridge: the webhook event and the Debezium-style change
    envelope built from it, the message-key rule, and the POST handler's decision over the
    producer's readiness flag. */
module SupabaseWebhook {
  import opened Maybe

  /** A JSON value as the body parser delivers it. Numbers are decimals (`real`). */
  datatype Json =
    | JNull
    | JBool(b: bool)
    | JNum(n: real)
    | JStr(s: string)
    | JArr(items: seq<Json>)
    | JObj(fields: map<string, Json>)

  /** JavaScript truthiness of a property read: `undefined` (None), `null`, `false`, `0`
      and `""` are falsy; every other value, every object and array included, is truthy. */
  predicate Truthy(v: Option<Json>)
  {
    match v
    case None => false
    case Some(JNull) => false
    case Some(JBool(b)) => b
    case Some(JNum(n)) => n != 0.0
    case Some(JStr(s)) => s != ""
    case Some(JArr(_)) => true
    case Some(JObj(_)) => true
  }

  /** JavaScript `a || b`: `a` when it is truthy, otherwise `b`. */
  function JsOr(a: Option<Json>, b: Option<Json>): (r: Option<Json>)
    ensures Truthy(a) ==> r == a
    ensures !Truthy(a) ==> r == b
  {
    if Truthy(a) then a else b
  }

  /** JavaScript `v || null`: the value when it is truthy, otherwise `null`. */
  function OrNull(v: Option<Json>): (r: Json)
    ensures r == JNull || Truthy(Some(r))
    ensures Truthy(v) <==> r != JNull
    ensures Truthy(v) ==> Some(r) == v
  {
    JsOr(v, Some(JNull)).value
  }

  /** JavaScript `v?.name`: `undefined` unless `v` is an object holding that property. */
  function Member(v: Json, name: string): (r: Option<Json>)
    ensures r.Some? <==> v.JObj? && name in v.fields
    ensures r.Some? ==> r.value == v.fields[name]
  {
    match v
    case JObj(m) => if name in m then Some(m[name]) else None
    case _ => None
  }

  /** An inbound Supabase database webhook; `None` is a property the body does not have. */
  datatype Webhook = Webhook(
    eventType: Option<string>,   // `type`
    table: Option<Json>,
    record: Option<Json>,
    oldRecord: Option<Json>)     // `old_record`

  /** The value `opMap[type] || 'u'` takes. A `type` naming a property that every object
      inherits from `Object.prototype` (`"toString"`, say) reads that inherited member,
      which is truthy, so the result is that member and not `'u'`. */
  datatype Op = Create | Update | Delete | Inherited(member: string)

  /** The letter an operation is published as, for the three table entries. */
  function Letter(op: Op): (c: string)
    requires !op.Inherited?
    ensures c in {"c", "u", "d"}
    ensures (c == "c" <==> op == Create) && (c == "u" <==> op == Update) && (c == "d" <==> op == Delete)
  {
    match op
    case Create => "c"
    case Update => "u"
    case Delete => "d"
  }

  /** The own properties of `opMap`. */
  const OpMap: map<string, Op> := map["INSERT" := Create, "UPDATE" := Update, "DELETE" := Delete]

  /** The properties every plain object inherits from `Object.prototype`. */
  const ObjectPrototypeKeys: set<string> := {
    "constructor", "hasOwnProperty", "isPrototypeOf", "propertyIsEnumerable",
    "toLocaleString", "toString", "valueOf", "__proto__",
    "__defineGetter__", "__defineSetter__", "__lookupGetter__", "__lookupSetter__"
  }

  /** The operation for a webhook type: the table entry, an inherited member for a
      prototype property name, and the update fallback otherwise. */
  function OpFor(eventType: Option<string>): Op
  {
    match eventType
    case None => Update
    case Some(t) =>
      if t in OpMap then OpMap[t]
      else if t in ObjectPrototypeKeys then Inherited(t)
      else Update
  }

  /** The three table entries map one to one onto c/u/d, and every other ordinary type,
      a missing one included, falls back to an update. */
  lemma OpTable(t: Option<string>)
    ensures OpFor(t) == Create <==> t == Some("INSERT")
    ensures OpFor(t) == Delete <==> t == Some("DELETE")
    ensures OpFor(t) == Update <==> (t == None || t == Some("UPDATE")
                                      || (t.value !in OpMap && t.value !in ObjectPrototypeKeys))
    ensures OpFor(t).Inherited? <==> t.Some? && t.value in ObjectPrototypeKeys
  {
    assert "INSERT" !in ObjectPrototypeKeys && "UPDATE" !in ObjectPrototypeKeys
        && "DELETE" !in ObjectPrototypeKeys;
  }

  /** For a `type` that is not an inherited property name, `op` is one of c, u, d. */
  lemma OpIsCud(t: Option<string>)
    requires t.None? || t.value !in ObjectPrototypeKeys
    ensures !OpFor(t).Inherited?
    ensures Letter(OpFor(t)) in {"c", "u", "d"}
  {
  }

  const CDC_TOPIC: string := "supabase-habit.public.tasks"
  const SOURCE_TAG: string := "supabase-webhook"

  datatype Schema = Schema(schemaType: string, optional: bool, name: string, version: int)

  datatype Source = Source(
    version: string, connector: string, name: string, tsMs: int,
    snapshot: string, db: string, schema: string, table: Option<Json>)

  datatype Payload = Payload(
    before: Json, after: Json, source: Source, op: Op, tsMs: int, transaction: Json)

  /** The change event: the nested `schema`/`payload` pair plus top-level copies of `op`,
      `before` and `after` and a top-level `source` tag string. */
  datatype Envelope = Envelope(
    schema: Schema, payload: Payload, op: Op, before: Json, after: Json, source: string)

  /** `transformToCDC(webhook)`. The two `Date.now()` readings are the parameters
      `sourceTsMs` (for `payload.source.ts_ms`) and `payloadTsMs` (for `payload.ts_ms`). */
  function TransformToCDC(w: Webhook, sourceTsMs: int, payloadTsMs: int): Envelope
  {
    var op := OpFor(w.eventType);
    Envelope(
      Schema("struct", false, "supabase-habit.public.tasks.Envelope", 1),
      Payload(
        OrNull(w.oldRecord),
        OrNull(w.record),
        Source("1.0.0", "supabase-webhook", "supabase-habit", sourceTsMs, "false",
               "postgres", "public", w.table),
        op,
        payloadTsMs,
        JNull),
      op,
      OrNull(w.oldRecord),
      OrNull(w.record),
      SOURCE_TAG)
  }

  /** Where each part of the envelope comes from: `op` from the type table, `before` from
      `old_record` and `after` from `record` when they are truthy (null otherwise), the
      top-level copies equal to the nested ones, the source block fixed apart from its clock
      reading and the table it passes through, and the schema fixed. */
  lemma TransformFields(w: Webhook, sourceTsMs: int, payloadTsMs: int)
    ensures var e := TransformToCDC(w, sourceTsMs, payloadTsMs);
      && e.op == e.payload.op == OpFor(w.eventType)
      && e.before == e.payload.before && e.after == e.payload.after
      && (Truthy(w.oldRecord) ==> Some(e.before) == w.oldRecord)
      && (!Truthy(w.oldRecord) ==> e.before == JNull)
      && (Truthy(w.record) ==> Some(e.after) == w.record)
      && (!Truthy(w.record) ==> e.after == JNull)
      && e.source == "supabase-webhook"
      && e.payload.source == Source("1.0.0", "supabase-webhook", "supabase-habit", sourceTsMs,
                                    "false", "postgres", "public", w.table)
      && e.payload.tsMs == payloadTsMs
      && e.payload.transaction == JNull
      && e.schema == Schema("struct", false, "supabase-habit.public.tasks.Envelope", 1)
  {
  }

  /** The transform is deterministic apart from its two timestamps. */
  lemma TransformOnlyTimestampsVary(w: Webhook, s1: int, p1: int, s2: int, p2: int)
    ensures var e1 := TransformToCDC(w, s1, p1);
            var e2 := TransformToCDC(w, s2, p2);
            e1.(payload := e1.payload.(tsMs := 0, source := e1.payload.source.(tsMs := 0)))
            == e2.(payload := e2.payload.(tsMs := 0, source := e2.payload.source.(tsMs := 0)))
  {
  }

  /** The message key: the `id` of `after`, falling back to the `id` of `before`, then null. */
  function MessageKey(e: Envelope): Json
  {
    JsOr(JsOr(Member(e.after, "id"), Member(e.before, "id")), Some(JNull)).value
  }

  /** The key is `after.id` when that is truthy, else `before.id` when that is truthy, else
      null; a falsy id (`""`, `0`, `false`, `null`) falls through to the next choice. */
  lemma MessageKeyChoice(e: Envelope)
    ensures Truthy(Member(e.after, "id")) ==> MessageKey(e) == e.after.fields["id"]
    ensures (!Truthy(Member(e.after, "id")) && Truthy(Member(e.before, "id")))
              ==> MessageKey(e) == e.before.fields["id"]
    ensures (!Truthy(Member(e.after, "id")) && !Truthy(Member(e.before, "id")))
              ==> MessageKey(e) == JNull
    ensures MessageKey(e) == JNull || Truthy(Some(MessageKey(e)))
  {
  }

  /** The key of a transformed webhook, read off the webhook itself. */
  lemma MessageKeyOfWebhook(w: Webhook, sourceTsMs: int, payloadTsMs: int)
    ensures var k := MessageKey(TransformToCDC(w, sourceTsMs, payloadTsMs));
      && (Truthy(w.record) && Truthy(Member(w.record.value, "id")) ==> k == w.record.value.fields["id"])
      && ((!(Truthy(w.record) && Truthy(Member(w.record.value, "id")))
             && Truthy(w.oldRecord) && Truthy(Member(w.oldRecord.value, "id")))
            ==> k == w.oldRecord.value.fields["id"])
      && ((!(Truthy(w.record) && Truthy(Member(w.record.value, "id")))
             && !(Truthy(w.oldRecord) && Truthy(Member(w.oldRecord.value, "id"))))
            ==> k == JNull)
  {
    var e := TransformToCDC(w, sourceTsMs, payloadTsMs);
    TransformFields(w, sourceTsMs, payloadTsMs);
    MessageKeyChoice(e);
  }

  datatype Headers = Headers(source: string, operation: Op)

  /** One Kafka message; the value is the envelope (its JSON text is not modelled). */
  datatype Message = Message(key: Json, value: Envelope, headers: Headers)

  /** The argument of one `producer.send` call. */
  datatype SendRequest = SendRequest(topic: string, messages: seq<Message>)

  /** The send request for one envelope: one message to the CDC topic. */
  function PublishRequest(e: Envelope): SendRequest
  {
    SendRequest(CDC_TOPIC, [Message(MessageKey(e), e, Headers(SOURCE_TAG, e.op))])
  }

  datatype Body = Success(operation: Op) | Failure(error: string)

  datatype Response = Response(status: int, body: Body)

  /** The bridge process: the readiness flag the connect callback sets, and the log of
      every `producer.send` call the handler has made. */
  class Bridge {
    var producerReady: bool
    var sendCalls: seq<SendRequest>

    /** Process start: not ready, nothing sent. */
    constructor ()
      ensures !producerReady && sendCalls == []
    {
      producerReady := false;
      sendCalls := [];
    }

    /** The `producer.connect()` success callback. A failed connect changes nothing. */
    method OnConnected()
      modifies this`producerReady
      ensures producerReady
    {
      producerReady := true;
    }

    /** `POST /webhook/supabase/tasks`. The outcome of the send is the parameter
        `sendError`: `None` when it resolves, `Some(message)` when it rejects. */
    method HandleWebhook(w: Webhook, sourceTsMs: int, payloadTsMs: int, sendError: Option<string>)
      returns (res: Response)
      modifies this`sendCalls
      ensures !producerReady ==>
        res == Response(503, Failure("Kafka not ready")) && sendCalls == old(sendCalls)
      ensures producerReady ==>
        var e := TransformToCDC(w, sourceTsMs, payloadTsMs);
        && sendCalls == old(sendCalls) + [PublishRequest(e)]
        && res == (if sendError.None? then Response(200, Success(e.op))
                   else Response(500, Failure(sendError.value)))
    {
      if !producerReady {
        return Response(503, Failure("Kafka not ready"));
      }
      var cdcEvent := TransformToCDC(w, sourceTsMs, payloadTsMs);
      sendCalls := sendCalls + [PublishRequest(cdcEvent)];
      if sendError.Some? {
        return Response(500, Failure(sendError.value));
      }
      res := Response(200, Success(cdcEvent.op));
    }
  }

  /** A successful publish carries exactly one message, to the CDC topic, whose
      `operation` header is the envelope's `op`, whose key follows the key rule and
      whose `source` header is the bridge's tag. */
  lemma PublishedMessage(w: Webhook, sourceTsMs: int, payloadTsMs: int)
    ensures var e := TransformToCDC(w, sourceTsMs, payloadTsMs);
            var req := PublishRequest(e);
      && req.topic == "supabase-habit.public.tasks"
      && |req.messages| == 1
      && req.messages[0].headers.operation == OpFor(w.eventType)
      && req.messages[0].headers.source == "supabase-webhook"
      && req.messages[0].key == MessageKey(e)
      && req.messages[0].value == e
  {
  }
}
