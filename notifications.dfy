/**
 * The notification endpoint (lambda/get_notifications/handler.py): healthcare
 * users poll the queue that report ingestion writes to, and acknowledge
 * messages by id.
 */
module Notifications {
  import opened Wrappers
  import Json
  import Upload

  /** A received queue message; a field the message lacks, or a body that is not JSON, is None. */
  datatype Message = Message(
    messageId: Option<string>, receiptHandle: Option<string>,
    body: Option<Json.Value>, attributes: Option<map<string, string>>)

  /** The notification handed to the page for one message. */
  datatype Notification = Notification(
    id: string, receiptHandle: string, kind: Json.Value, reportId: Json.Value,
    patientName: Json.Value, patientId: Json.Value, clinicId: Json.Value, timestamp: Json.Value,
    testCount: Json.Value, testSummary: Json.Value, hasRemarks: Json.Value, createdAt: Json.Value,
    messageAttributes: map<string, string>)

  /**
   * The notification for one message, or None when the message has no id, no
   * receipt handle, or a body that is not a JSON object (such messages are skipped).
   */
  function ParseMessage(m: Message): (n: Option<Notification>)
    ensures n.Some? <==> m.messageId.Some? && m.receiptHandle.Some? && m.body.Some? && m.body.value.Obj?
    ensures n.Some? ==> n.value.id == m.messageId.value && n.value.receiptHandle == m.receiptHandle.value
  {
    if m.messageId.None? || m.receiptHandle.None? || m.body.None? || !m.body.value.Obj? then None
    else
      var b := m.body.value.fields;
      Some(Notification(
        m.messageId.value, m.receiptHandle.value,
        MapGet(b, "type", Json.Str("UNKNOWN")), MapGet(b, "report_id", Json.Null),
        MapGet(b, "patient_name", Json.Null), MapGet(b, "patient_id", Json.Null),
        MapGet(b, "clinic_id", Json.Null), MapGet(b, "timestamp", Json.Null),
        MapGet(b, "test_count", Json.Int(0)), MapGet(b, "test_summary", Json.Arr([])),
        MapGet(b, "has_remarks", Json.Bool(false)), MapGet(b, "created_at", Json.Null),
        m.attributes.GetOr(map[])))
  }

  /** The notifications of the well-formed messages, in the order received. */
  function Parsed(messages: seq<Message>): (ns: seq<Notification>)
    ensures |ns| <= |messages|
  {
    if messages == [] then []
    else
      var init := Parsed(messages[..|messages| - 1]);
      match ParseMessage(messages[|messages| - 1])
      case Some(n) => init + [n]
      case None => init
  }

  /** A batch of well-formed messages loses none of them. */
  lemma {:induction false} ParsedKeepsWellFormed(messages: seq<Message>)
    requires forall i :: 0 <= i < |messages| ==> ParseMessage(messages[i]).Some?
    ensures |Parsed(messages)| == |messages|
    ensures forall i :: 0 <= i < |messages| ==> Parsed(messages)[i] == ParseMessage(messages[i]).value
  {
    if messages != [] {
      var init := messages[..|messages| - 1];
      ParsedKeepsWellFormed(init);
    }
  }

  /** Every notification comes from one of the messages, and the messages' ids are kept in order. */
  lemma {:induction false} ParsedFromMessages(messages: seq<Message>)
    ensures forall k :: 0 <= k < |Parsed(messages)| ==>
              exists i :: 0 <= i < |messages| && ParseMessage(messages[i]) == Some(Parsed(messages)[k])
  {
    if messages != [] {
      var init := messages[..|messages| - 1];
      ParsedFromMessages(init);
      var ns := Parsed(messages);
      forall k | 0 <= k < |ns|
        ensures exists i :: 0 <= i < |messages| && ParseMessage(messages[i]) == Some(ns[k])
      {
        var last := messages[|messages| - 1];
        if k < |Parsed(init)| {
          var i :| 0 <= i < |init| && ParseMessage(init[i]) == Some(Parsed(init)[k]);
          assert messages[i] == init[i];
          assert ns[k] == Parsed(init)[k];
        } else {
          assert ns == Parsed(init) + [ParseMessage(last).value];
          assert ParseMessage(messages[|messages| - 1]) == Some(ns[k]);
        }
      }
    } else {
      assert Parsed(messages) == [];
    }
  }

  /** `poll_notifications`: formats each received message, skipping the malformed ones. */
  method Poll(messages: seq<Message>) returns (notifications: seq<Notification>)
    ensures notifications == Parsed(messages)
  {
    notifications := [];
    for i := 0 to |messages|
      invariant notifications == Parsed(messages[..i])
    {
      assert messages[..i + 1][..i] == messages[..i];
      var m := messages[i];
      if m.messageId.None? || m.receiptHandle.None? || m.body.None? || !m.body.value.Obj? {
        continue;
      }
      var n := ParseMessage(m);
      notifications := notifications + [n.value];
    }
    assert messages[..|messages|] == messages;
  }

  /** How a message queued by report ingestion arrives, with the id and receipt handle the queue gives it. */
  function Delivered(out: Upload.Outgoing, id: string, handle: string): Message {
    Message(Some(id), Some(handle), Some(out.body), Some(out.attributes))
  }

  /**
   * A message queued by report ingestion reads back as the stored report it
   * announces: its type, report id and stamp, its patient and clinic ...
   */
  lemma NotificationRoundTripIdentity(item: Upload.Item, createdAt: string, queueUrl: string, id: string, handle: string)
    requires queueUrl != ""
    ensures var n := ParseMessage(Delivered(Upload.Notify(queueUrl, item, createdAt).value, id, handle));
            && n.Some? && n.value.id == id && n.value.receiptHandle == handle
            && n.value.kind == Json.Str("NEW_REPORT")
            && n.value.reportId == Json.Str(item.reportId)
            && n.value.timestamp == Json.Str(item.timestamp)
  {
  }

  lemma NotificationRoundTripPatient(item: Upload.Item, createdAt: string, queueUrl: string, id: string, handle: string)
    requires queueUrl != ""
    ensures var n := ParseMessage(Delivered(Upload.Notify(queueUrl, item, createdAt).value, id, handle));
            && n.Some?
            && n.value.patientName == Json.Str(item.patientName)
            && n.value.patientId == Json.Str(item.patientId)
            && n.value.clinicId == Json.Str(item.clinicId)
  {
  }

  /** ... and its test count, first tests, whether it has remarks, when it was sent, and its clinic attribute. */
  lemma NotificationRoundTripContents(item: Upload.Item, createdAt: string, queueUrl: string, id: string, handle: string)
    requires queueUrl != ""
    ensures var n := ParseMessage(Delivered(Upload.Notify(queueUrl, item, createdAt).value, id, handle));
            && n.Some?
            && n.value.testCount == Json.Int(|item.testResults|)
            && n.value.testSummary == Json.Arr(Upload.Summaries(item.testResults))
            && n.value.hasRemarks == Json.Bool(item.remarks != "")
            && n.value.createdAt == Json.Str(createdAt)
            && "ClinicId" in n.value.messageAttributes && n.value.messageAttributes["ClinicId"] == item.clinicId
  {
  }

  // ---------------------------------------------------------------------------
  // The handler

  /** The `pathParameters` of a request: absent, present but null, or a map. */
  datatype PathParameters = NoParameters | NullParameters | Parameters(params: map<string, string>)

  datatype Request = Request(httpMethod: Option<string>, claims: map<string, string>, pathParameters: PathParameters)

  datatype Body =
    | Empty
    | Error(message: string)
    | Polled(notifications: seq<Notification>, count: nat)
    | Acknowledged(messageId: string)

  datatype Response = Response(status: int, body: Body)

  const HealthcareRole := "healthcare"

  /** The caller's role, `user` when the claims carry none. */
  function Role(claims: map<string, string>): (role: string)
    ensures "custom:role" in claims ==> role == claims["custom:role"]
    ensures "custom:role" !in claims ==> role == "user"
  {
    if "custom:role" in claims then claims["custom:role"] else "user"
  }

  /** `acknowledge_notification`: a missing or empty id is refused; otherwise the id is echoed back. */
  function Acknowledge(messageId: Option<string>): (r: Response)
    ensures r.status == 200 <==> messageId.Some? && messageId.value != ""
    ensures r.status == 200 ==> r.body == Acknowledged(messageId.value)
    ensures r.status != 200 ==> r.status == 400
  {
    if messageId.None? || messageId.value == "" then Response(400, Error("Message ID required"))
    else Response(200, Acknowledged(messageId.value))
  }

  /** A request past the preflight answer, the claims check and the role check. */
  predicate Admitted(req: Request) {
    req.httpMethod != Some("OPTIONS") && req.claims != map[] && Role(req.claims) == HealthcareRole
  }

  /** `pathParameters.get('messageId')`. */
  function MessageId(params: map<string, string>): (id: Option<string>)
    ensures id.Some? <==> "messageId" in params
    ensures id.Some? ==> id.value == params["messageId"]
  {
    if "messageId" in params then Some(params["messageId"]) else None
  }

  /**
   * The handler: preflight requests are answered at once; then the caller must
   * carry claims (401) and the healthcare role (403), a queue must be
   * configured (500), and GET polls while DELETE acknowledges (405 otherwise).
   * `received` is the queue's answer, None when receiving raised.
   */
  method Handle(req: Request, queueUrl: string, received: Option<seq<Message>>) returns (r: Response)
    ensures req.httpMethod == Some("OPTIONS") ==> r == Response(200, Empty)
    ensures req.httpMethod != Some("OPTIONS") && req.claims == map[] ==> r.status == 401
    ensures req.httpMethod != Some("OPTIONS") && req.claims != map[] && Role(req.claims) != HealthcareRole ==> r.status == 403
    ensures Admitted(req) && queueUrl == "" ==> r.status == 500
    ensures r.status == 200 && req.httpMethod != Some("OPTIONS") ==> Admitted(req) && queueUrl != ""
    ensures r.status == 200 && req.httpMethod.GetOr("GET") == "GET"
            ==> received.Some? && r.body == Polled(Parsed(received.value), |Parsed(received.value)|)
    ensures Admitted(req) && queueUrl != "" && req.httpMethod.GetOr("GET") == "GET"
            ==> (received.Some? ==> r == Response(200, Polled(Parsed(received.value), |Parsed(received.value)|)))
                && (received.None? ==> r.status == 500)
    ensures Admitted(req) && queueUrl != "" && req.httpMethod == Some("DELETE")
            ==> (req.pathParameters.NullParameters? ==> r.status == 500)
                && (req.pathParameters.NoParameters? ==> r == Acknowledge(None))
                && (req.pathParameters.Parameters? ==> r == Acknowledge(MessageId(req.pathParameters.params)))
    ensures (Admitted(req) && queueUrl != "" && req.httpMethod.GetOr("GET") !in {"GET", "DELETE"}) ==> r.status == 405
  {
    if req.httpMethod == Some("OPTIONS") {
      return Response(200, Empty);
    }
    if req.claims == map[] {
      return Response(401, Error("Unauthorized"));
    }
    if Role(req.claims) != HealthcareRole {
      return Response(403, Error("Access denied. Healthcare role required."));
    }
    if queueUrl == "" {
      return Response(500, Error("SQS queue URL not configured"));
    }
    var verb := req.httpMethod.GetOr("GET");
    if verb == "GET" {
      if received.None? {
        return Response(500, Error("Internal server error"));
      }
      var notifications := Poll(received.value);
      return Response(200, Polled(notifications, |notifications|));
    } else if verb == "DELETE" {
      match req.pathParameters
      case NullParameters =>
        return Response(500, Error("Internal server error"));
      case NoParameters =>
        return Acknowledge(None);
      case Parameters(params) =>
        return Acknowledge(MessageId(params));
    } else {
      return Response(405, Error("Method not allowed"));
    }
  }
}
