/**
 * The event-queue client of tupler (tupler/tupler_zulip_client.py).
 *
 * HTTP is abstract: each operation returns the requests it would make, and
 * the decoded JSON bodies of the server's replies are inputs, consumed in order.
 * A Python KeyError or TypeError on a malformed reply becomes an `Err`.
 */
module ZulipClient {
  import opened Wrappers
  import opened Text

  /** A decoded JSON value. */
  datatype Json =
    | JNull
    | JBool(b: bool)
    | JInt(n: int)
    | JStr(s: string)
    | JArr(items: seq<Json>)
    | JObj(fields: map<string, Json>)

  /** The decoded body of one server reply: a JSON object. */
  type Reply = map<string, Json>

  datatype Credentials = Credentials(server: string, email: string, apiKey: string)

  /** A list recipient means a private message; a single name means a stream. */
  datatype Recipient = Stream(name: string) | Private(participants: seq<Json>)

  datatype Message = Message(eventId: int, sender: string, recipient: Recipient, subject: string, content: string)

  /** What the message loop yields: a message, or the marker that a poll cycle is over. */
  datatype Item = Msg(message: Message) | EndOfMessages

  /** Why an operation stopped: a missing key, a value of the wrong JSON type, or no reply left. */
  datatype Error = MissingKey(key: string) | WrongType(key: string) | NotAnObject | NoReply

  /** A request as the transport receives it (authentication is added by the transport). */
  datatype Request =
    | Get(url: string, params: map<string, Json>)
    | PostForm(url: string, form: map<string, string>)
    | PostBody(url: string, body: string)

  /** The client's position in the server's event queue. */
  datatype Cursor = Cursor(queueId: string, lastEventId: int)

  // ---------------------------------------------------------------------
  // Endpoints

  /** Endpoint types whose path differs from their name. */
  const Endpoints: map<string, string> := map["queue" := "register", "subscriptions" := "users/me/subscriptions"]

  function GetEndpoint(creds: Credentials, endpointType: string): (url: string)
    ensures endpointType == "queue" ==> url == creds.server + "/api/v1/register"
    ensures endpointType == "subscriptions" ==> url == creds.server + "/api/v1/users/me/subscriptions"
    ensures endpointType !in {"queue", "subscriptions"} ==> url == creds.server + "/api/v1/" + endpointType
  {
    var endpoint := if endpointType in Endpoints then Endpoints[endpointType] else endpointType;
    creds.server + "/api/v1/" + endpoint
  }

  /** The two renamed types are aliases of the paths they stand for. */
  lemma EndpointAliases(creds: Credentials)
    ensures GetEndpoint(creds, "queue") == GetEndpoint(creds, "register")
    ensures GetEndpoint(creds, "subscriptions") == GetEndpoint(creds, "users/me/subscriptions")
  {
  }

  /** Any other two types give two different endpoints. */
  lemma EndpointInjective(creds: Credentials, t1: string, t2: string)
    requires t1 !in Endpoints && t2 !in Endpoints
    requires GetEndpoint(creds, t1) == GetEndpoint(creds, t2)
    ensures t1 == t2
  {
    var prefix := creds.server + "/api/v1/";
    assert GetEndpoint(creds, t1)[|prefix|..] == t1;
    assert GetEndpoint(creds, t2)[|prefix|..] == t2;
  }

  // ---------------------------------------------------------------------
  // Registration and polling

  /** The registration: a form POST to the `register` endpoint asking for message events only. */
  function RegisterRequest(creds: Credentials): (r: Request)
    ensures r.PostForm? && r.url == creds.server + "/api/v1/register"
    ensures r.form.Keys == {"event_types"} && r.form["event_types"] == "[\"message\"]"
  {
    PostForm(GetEndpoint(creds, "queue"), map["event_types" := "[\"message\"]"])
  }

  /** The cursor in a registration reply. */
  function ReadCursor(reply: Reply): (r: Result<Cursor, Error>)
    ensures r.Ok? <==> "queue_id" in reply && reply["queue_id"].JStr?
                       && "last_event_id" in reply && reply["last_event_id"].JInt?
    ensures r.Ok? ==> reply["queue_id"] == JStr(r.value.queueId)
                      && reply["last_event_id"] == JInt(r.value.lastEventId)
  {
    if "queue_id" !in reply then Err(MissingKey("queue_id"))
    else if !reply["queue_id"].JStr? then Err(WrongType("queue_id"))
    else if "last_event_id" !in reply then Err(MissingKey("last_event_id"))
    else if !reply["last_event_id"].JInt? then Err(WrongType("last_event_id"))
    else Ok(Cursor(reply["queue_id"].s, reply["last_event_id"].n))
  }

  /** The non-blocking poll of the events endpoint at a cursor. */
  function EventsUrl(creds: Credentials, cur: Cursor): string
  {
    GetEndpoint(creds, "events") + "?queue_id=" + cur.queueId + "&last_event_id="
    + IntToString(cur.lastEventId) + "&dont_block=true"
  }

  /** The poll's URL is the `events` endpoint, `?`, and the event query encoded as a form. */
  lemma EventsUrlForm(creds: Credentials, cur: Cursor)
    ensures EventsUrl(creds, cur) == GetEndpoint(creds, "events") + ['?'] + FormBody(EventsQuery(cur))
  {
    EventsQueryBody(cur);
    EventsUrlGlue(GetEndpoint(creds, "events"), cur.queueId, IntToString(cur.lastEventId));
  }

  /** The poll is a GET without parameters: the cursor travels in the url. */
  function PollRequest(creds: Credentials, cur: Cursor): (r: Request)
    ensures r.Get? && r.params == map[] && r.url == EventsUrl(creds, cur)
  {
    Get(EventsUrl(creds, cur), map[])
  }

  /** The query of the poll URL, as form fields. */
  function EventsQuery(cur: Cursor): seq<(string, string)>
  {
    [("queue_id", cur.queueId), ("last_event_id", IntToString(cur.lastEventId)), ("dont_block", "true")]
  }

  /**
   * The poll URL carries exactly the cursor: cut at its first `?`, it is the
   * events endpoint followed by the three query fields, and the event id reads back.
   */
  lemma EventsUrlQuery(creds: Credentials, cur: Cursor)
    requires Lacks(creds.server, '?') && Lacks(cur.queueId, '&')
    ensures var url := EventsUrl(creds, cur);
            var k := IndexOf(url, '?');
            url[..k] == GetEndpoint(creds, "events")
            && ParseForm(url[k + 1..]) == EventsQuery(cur)
            && ParseInt(ParseForm(url[k + 1..])[1].1) == cur.lastEventId
  {
    var endpoint := GetEndpoint(creds, "events");
    var query := FormBody(EventsQuery(cur));
    var url := EventsUrl(creds, cur);
    EventsUrlForm(creds, cur);
    EventsUrlSplit(creds, cur);
    assert url[..|endpoint|] == endpoint;
    assert url[|endpoint| + 1..] == query;
    EventsQueryPlain(cur);
    FormRoundTrip(EventsQuery(cur));
    IntRoundTrip(cur.lastEventId);
  }

  lemma EventsQueryPlain(cur: Cursor)
    requires Lacks(cur.queueId, '&')
    ensures Plain(EventsQuery(cur))
  {
  }

  /** When the server address has no `?`, the first `?` of the poll URL is the one after the endpoint. */
  lemma EventsUrlSplit(creds: Credentials, cur: Cursor)
    requires Lacks(creds.server, '?')
    ensures IndexOf(EventsUrl(creds, cur), '?') == |GetEndpoint(creds, "events")|
  {
    var endpoint := GetEndpoint(creds, "events");
    var query := FormBody(EventsQuery(cur));
    EventsUrlForm(creds, cur);
    EventsEndpointPlain(creds);
    IndexOfJoin(endpoint, '?', query);
  }

  lemma EventsUrlGlue(e: string, q: string, n: string)
    ensures e + "?queue_id=" + q + "&last_event_id=" + n + "&dont_block=true"
            == e + ['?'] + ("queue_id=" + q + "&last_event_id=" + n + "&dont_block=true")
  {
  }

  lemma EventsEndpointPlain(creds: Credentials)
    requires Lacks(creds.server, '?')
    ensures Count('?', GetEndpoint(creds, "events")) == 0
  {
    CountAbsent('?', GetEndpoint(creds, "events"));
  }

  lemma EventsQueryBody(cur: Cursor)
    ensures FormBody(EventsQuery(cur))
            == "queue_id=" + cur.queueId + "&last_event_id=" + IntToString(cur.lastEventId) + "&dont_block=true"
  {
    FormBody3(EventsQuery(cur));
    EventsQueryGlue(cur.queueId, IntToString(cur.lastEventId));
  }

  lemma EventsQueryGlue(q: string, n: string)
    ensures "queue_id" + "=" + q + "&" + ("last_event_id" + "=" + n + "&" + ("dont_block" + "=" + "true"))
            == "queue_id=" + q + "&last_event_id=" + n + "&dont_block=true"
  {
  }

  /** A reply that says the queue is gone. */
  predicate IsStale(reply: Reply)
  {
    "result" in reply && reply["result"] == JStr("error")
  }

  /** A reply that hands over the list `events`. */
  predicate IsEvents(reply: Reply, events: seq<Json>)
  {
    "result" in reply && reply["result"] != JStr("error") && "events" in reply && reply["events"] == JArr(events)
  }

  /** The outcome of one poll: the requests made, the events (or why not), and the replies left. */
  datatype Poll = Poll(sent: seq<Request>, result: Result<seq<Json>, Error>, rest: seq<Reply>)

  /**
   * Polls at the cursor (queueId, lastEventId). A stale reply makes the client
   * register a new queue and poll again at the new cursor, recursively.
   */
  function GetEventsFromQueue(creds: Credentials, queueId: string, lastEventId: int, replies: seq<Reply>): (p: Poll)
    ensures |p.sent| > 0 && p.sent[0] == PollRequest(creds, Cursor(queueId, lastEventId))
    ensures |p.rest| <= |replies| && p.rest == replies[|replies| - |p.rest|..]
    // every request but a last unanswered one consumes exactly one reply
    ensures |replies| - |p.rest| == |p.sent| - (if p.result == Err(NoReply) then 1 else 0)
    decreases |replies|
  {
    var request := PollRequest(creds, Cursor(queueId, lastEventId));
    if replies == [] then Poll([request], Err(NoReply), [])
    else
      var reply := replies[0];
      if "result" !in reply then Poll([request], Err(MissingKey("result")), replies[1..])
      else if reply["result"] == JStr("error") then
        var register := RegisterRequest(creds);
        if |replies| == 1 then Poll([request, register], Err(NoReply), [])
        else match ReadCursor(replies[1])
          case Err(e) => Poll([request, register], Err(e), replies[2..])
          case Ok(cur) =>
            var p := GetEventsFromQueue(creds, cur.queueId, cur.lastEventId, replies[2..]);
            assert replies[2..][|replies| - 2 - |p.rest|..] == replies[|replies| - |p.rest|..];
            Poll([request, register] + p.sent, p.result, p.rest)
      else if "events" !in reply then Poll([request], Err(MissingKey("events")), replies[1..])
      else if !reply["events"].JArr? then Poll([request], Err(WrongType("events")), replies[1..])
      else Poll([request], Ok(reply["events"].items), replies[1..])
  }

  /** `rs` is a run of recoveries: a stale reply, then a registration, and so on. */
  predicate Recoveries(rs: seq<Reply>)
    decreases |rs|
  {
    rs == [] || (|rs| >= 2 && IsStale(rs[0]) && ReadCursor(rs[1]).Ok? && Recoveries(rs[2..]))
  }

  /**
   * The poll that ended with `result`, leaving `rest`, was answered properly:
   * on success, the last reply it consumed hands over the events list
   * unchanged, and the replies consumed before it were recoveries.
   */
  predicate Answered(replies: seq<Reply>, result: Result<seq<Json>, Error>, rest: seq<Reply>)
  {
    result.Ok? ==>
      && |rest| < |replies| && IsEvents(replies[|replies| - |rest| - 1], result.value)
      && Recoveries(replies[..|replies| - |rest| - 1])
  }

  /** Every poll is answered properly: events come only from the last reply, after recoveries. */
  lemma {:induction false} PollAnswered(creds: Credentials, queueId: string, lastEventId: int, replies: seq<Reply>)
    ensures var p := GetEventsFromQueue(creds, queueId, lastEventId, replies);
            Answered(replies, p.result, p.rest)
    decreases |replies|
  {
    var p := GetEventsFromQueue(creds, queueId, lastEventId, replies);
    PollFailures(creds, queueId, lastEventId, replies);
    if !p.result.Ok? {
      return;
    }
    if !IsStale(replies[0]) {
      PollFresh(creds, queueId, lastEventId, replies);
      return;
    }
    var cur := ReadCursor(replies[1]).value;
    PollAnswered(creds, cur.queueId, cur.lastEventId, replies[2..]);
    PollStale(creds, queueId, lastEventId, replies);
    var q := GetEventsFromQueue(creds, cur.queueId, cur.lastEventId, replies[2..]);
    RecoveryShift(replies, q.result, q.rest);
  }

  /** A recovery in front of a properly answered poll of the remaining replies keeps it properly answered. */
  lemma RecoveryShift(replies: seq<Reply>, result: Result<seq<Json>, Error>, rest: seq<Reply>)
    requires |replies| >= 2 && IsStale(replies[0]) && ReadCursor(replies[1]).Ok?
    requires Answered(replies[2..], result, rest)
    ensures Answered(replies, result, rest)
  {
    if result.Ok? {
      var k := |replies| - |rest| - 1;
      assert replies[2..][k - 2] == replies[k];
      assert replies[..k][2..] == replies[2..][..k - 2];
    }
  }

  /** A poll succeeds only on a reply with a result, and after a stale reply only when a registration follows. */
  lemma PollFailures(creds: Credentials, queueId: string, lastEventId: int, replies: seq<Reply>)
    ensures var p := GetEventsFromQueue(creds, queueId, lastEventId, replies);
            p.result.Ok? ==> |replies| > 0 && "result" in replies[0]
                             && (IsStale(replies[0]) ==> |replies| >= 2 && ReadCursor(replies[1]).Ok?)
  {
  }

  /** A reply that is not stale ends the poll, consuming that reply alone. */
  lemma PollFresh(creds: Credentials, queueId: string, lastEventId: int, replies: seq<Reply>)
    requires |replies| > 0 && "result" in replies[0] && !IsStale(replies[0])
    ensures var p := GetEventsFromQueue(creds, queueId, lastEventId, replies);
            Answered(replies, p.result, p.rest) && (p.result.Ok? ==> p.rest == replies[1..])
  {
    assert replies[..0] == [];
  }

  /** A stale reply followed by a registration continues the poll at the new cursor. */
  lemma PollStale(creds: Credentials, queueId: string, lastEventId: int, replies: seq<Reply>)
    requires |replies| >= 2 && IsStale(replies[0]) && ReadCursor(replies[1]).Ok?
    ensures var p := GetEventsFromQueue(creds, queueId, lastEventId, replies);
            var cur := ReadCursor(replies[1]).value;
            var q := GetEventsFromQueue(creds, cur.queueId, cur.lastEventId, replies[2..]);
            && p.sent == [PollRequest(creds, Cursor(queueId, lastEventId)), RegisterRequest(creds)] + q.sent
            && p.rest == q.rest && p.result == q.result
  {
  }

  /** A fresh reply with events: no recovery, the list comes back as it is. */
  lemma PollWithoutRecovery(creds: Credentials, cur: Cursor, replies: seq<Reply>, events: seq<Json>)
    requires |replies| > 0 && IsEvents(replies[0], events)
    ensures GetEventsFromQueue(creds, cur.queueId, cur.lastEventId, replies)
            == Poll([PollRequest(creds, cur)], Ok(events), replies[1..])
  {
  }

  /**
   * A stale reply, a registration of cursor `renewed`, then events: the events
   * arrive once, after a poll at the renewed cursor.
   */
  lemma StaleQueueRecovery(creds: Credentials, cur: Cursor, renewed: Cursor, stale: Reply,
                           registration: Reply, answer: Reply, events: seq<Json>, more: seq<Reply>)
    requires IsStale(stale) && ReadCursor(registration) == Ok(renewed) && IsEvents(answer, events)
    ensures GetEventsFromQueue(creds, cur.queueId, cur.lastEventId, [stale, registration, answer] + more)
            == Poll([PollRequest(creds, cur), RegisterRequest(creds), PollRequest(creds, renewed)], Ok(events), more)
  {
    var replies := [stale, registration, answer] + more;
    assert replies[2..] == [answer] + more;
    assert ([answer] + more)[1..] == more;
  }

  // ---------------------------------------------------------------------
  // The message normaliser

  /** How a recipient appears in a message's `display_recipient`. */
  function RecipientJson(r: Recipient): (j: Json)
  {
    match r
    case Stream(name) => JStr(name)
    case Private(participants) => JArr(participants)
  }

  /** The object `get_message` reads the fields from: the nested `message`, if there is one. */
  function MessageData(envelope: map<string, Json>): Json
  {
    if "message" in envelope then envelope["message"] else JObj(envelope)
  }

  /** `data` holds the four fields of `m`, with the JSON types the record needs. */
  predicate Carries(data: map<string, Json>, m: Message)
  {
    && "sender_full_name" in data && data["sender_full_name"] == JStr(m.sender)
    && "display_recipient" in data && data["display_recipient"] == RecipientJson(m.recipient)
    && "subject" in data && data["subject"] == JStr(m.subject)
    && "content" in data && data["content"] == JStr(m.content)
  }

  /** `raw` is an envelope (or bare message) that `get_message` accepts. */
  predicate WellFormed(raw: Json)
  {
    && raw.JObj?
    && MessageData(raw.fields).JObj?
    && var d := MessageData(raw.fields).fields;
    && "sender_full_name" in d && d["sender_full_name"].JStr?
    && "display_recipient" in d && (d["display_recipient"].JStr? || d["display_recipient"].JArr?)
    && "subject" in d && d["subject"].JStr?
    && "content" in d && d["content"].JStr?
    && "id" in raw.fields && raw.fields["id"].JInt?
  }

  function TextField(data: map<string, Json>, key: string): Result<string, Error>
  {
    if key !in data then Err(MissingKey(key))
    else if data[key].JStr? then Ok(data[key].s) else Err(WrongType(key))
  }

  function RecipientField(data: map<string, Json>): Result<Recipient, Error>
  {
    if "display_recipient" !in data then Err(MissingKey("display_recipient"))
    else match data["display_recipient"]
      case JStr(name) => Ok(Stream(name))
      case JArr(participants) => Ok(Private(participants))
      case _ => Err(WrongType("display_recipient"))
  }

  /**
   * One record from an event envelope `{id, message: {...}}` or a bare message:
   * the fields come from the nested object when there is one, the id always from the outside.
   */
  function GetMessage(raw: Json): (r: Result<Message, Error>)
    // the event id always comes from the outer object, even when the fields come from a nested one
    ensures r.Ok? ==> raw.JObj? && "id" in raw.fields && raw.fields["id"] == JInt(r.value.eventId)
  {
    if !raw.JObj? then Err(NotAnObject)
    else
      var envelope := raw.fields;
      var data := MessageData(envelope);
      if !data.JObj? then Err(WrongType("message"))
      else
        var sender :- TextField(data.fields, "sender_full_name");
        var recipient :- RecipientField(data.fields);
        var subject :- TextField(data.fields, "subject");
        var content :- TextField(data.fields, "content");
        if "id" !in envelope then Err(MissingKey("id"))
        else if !envelope["id"].JInt? then Err(WrongType("id"))
        else Ok(Message(envelope["id"].n, sender, recipient, subject, content))
  }

  /**
   * `get_message` accepts exactly the well-formed envelopes, and then its record
   * holds the four fields of the object it reads from.
   */
  lemma GetMessageShape(raw: Json)
    ensures GetMessage(raw).Ok? <==> WellFormed(raw)
    ensures GetMessage(raw).Ok? ==> Carries(MessageData(raw.fields).fields, GetMessage(raw).value)
  {
  }

  /** The wrapped envelope of a stream message normalises to one record; its content stays as it is. */
  lemma WrappedEnvelopeExample()
    ensures GetMessage(JObj(map["id" := JInt(5), "message" := JObj(map[
              "sender_full_name" := JStr("X"), "display_recipient" := JStr("general"),
              "subject" := JStr("t"), "content" := JStr("<p>hi</p>")])]))
            == Ok(Message(5, "X", Stream("general"), "t", "<p>hi</p>"))
  {
  }

  /** A private message keeps its list of participants as its recipient. */
  lemma PrivateMessageExample(a: Json, b: Json)
    ensures GetMessage(JObj(map["id" := JInt(7), "sender_full_name" := JStr("A"),
              "display_recipient" := JArr([a, b]), "subject" := JStr(""), "content" := JStr("yo")]))
            == Ok(Message(7, "A", Private([a, b]), "", "yo"))
  {
  }

  /** The records of a list of events, up to the first that `get_message` refuses. */
  datatype Normalized = Normalized(messages: seq<Message>, failure: Option<Error>)

  function NormalizeAll(events: seq<Json>): (r: Normalized)
    ensures |r.messages| <= |events|
    ensures forall i :: 0 <= i < |r.messages| ==> GetMessage(events[i]) == Ok(r.messages[i])
    ensures r.failure.None? ==> |r.messages| == |events|
    ensures r.failure.Some? ==> |r.messages| < |events| && GetMessage(events[|r.messages|]) == Err(r.failure.value)
  {
    if events == [] then Normalized([], None)
    else match GetMessage(events[0])
      case Err(e) => Normalized([], Some(e))
      case Ok(m) =>
        var rest := NormalizeAll(events[1..]);
        Normalized([m] + rest.messages, rest.failure)
  }

  /** The contract of NormalizeAll determines it: all accepted up to i, then i refused or the end. */
  lemma {:induction false} NormalizedPrefix(events: seq<Json>, messages: seq<Message>, failure: Option<Error>)
    requires |messages| <= |events|
    requires forall i :: 0 <= i < |messages| ==> GetMessage(events[i]) == Ok(messages[i])
    requires failure.None? ==> |messages| == |events|
    requires failure.Some? ==> |messages| < |events| && GetMessage(events[|messages|]) == Err(failure.value)
    ensures NormalizeAll(events) == Normalized(messages, failure)
    decreases |events|
  {
    if events != [] && messages != [] {
      assert GetMessage(events[0]) == Ok(messages[0]);
      var tail, received := events[1..], messages[1..];
      assert forall i :: 0 <= i < |received| ==> GetMessage(tail[i]) == Ok(received[i]) by {
        forall i | 0 <= i < |received| ensures GetMessage(tail[i]) == Ok(received[i]) {
          assert tail[i] == events[i + 1];
        }
      }
      if failure.Some? {
        assert tail[|received|] == events[|messages|];
      }
      NormalizedPrefix(tail, received, failure);
      assert [messages[0]] + received == messages;
    }
  }

  function Messages(ms: seq<Message>): (items: seq<Item>)
    ensures |items| == |ms| && forall i :: 0 <= i < |ms| ==> items[i] == Msg(ms[i])
  {
    seq(|ms|, i requires 0 <= i < |ms| => Msg(ms[i]))
  }

  /** How many idle markers `items` holds. */
  function CountIdle(items: seq<Item>): nat
  {
    if items == [] then 0 else CountIdle(items[..|items| - 1]) + (if items[|items| - 1] == EndOfMessages then 1 else 0)
  }

  lemma {:induction false} CountIdleAppend(a: seq<Item>, b: seq<Item>)
    ensures CountIdle(a + b) == CountIdle(a) + CountIdle(b)
    decreases |b|
  {
    if b == [] {
      assert a + b == a;
    } else {
      assert (a + b)[..|a + b| - 1] == a + b[..|b| - 1];
      CountIdleAppend(a, b[..|b| - 1]);
    }
  }

  lemma {:induction false} CountIdleMessages(ms: seq<Message>)
    ensures CountIdle(Messages(ms)) == 0
    decreases |ms|
  {
    if ms != [] {
      assert Messages(ms)[..|ms| - 1] == Messages(ms[..|ms| - 1]);
      CountIdleMessages(ms[..|ms| - 1]);
    }
  }

  /** The event id of the last message among `items`, or `last` if there is none. */
  function LastEventId(items: seq<Item>, last: int): int
  {
    if items == [] then last
    else if items[|items| - 1].Msg? then items[|items| - 1].message.eventId
    else LastEventId(items[..|items| - 1], last)
  }

  lemma LastEventIdMessages(ms: seq<Message>, last: int)
    ensures LastEventId(Messages(ms), last) == if ms == [] then last else ms[|ms| - 1].eventId
  {
  }

  // ---------------------------------------------------------------------
  // The message loop

  /** One pass of the `while True` body: poll, yield each message, then the idle marker. */
  datatype CycleResult = CycleResult(items: seq<Item>, sent: seq<Request>, next: Cursor, rest: seq<Reply>, failure: Option<Error>)

  function Cycle(creds: Credentials, cur: Cursor, replies: seq<Reply>): (c: CycleResult)
    // a recovered cursor is never handed back: the queue id stays
    ensures c.next.queueId == cur.queueId
    // after the messages, the last event id is that of the last one yielded
    ensures c.next.lastEventId == LastEventId(c.items, cur.lastEventId)
    // a cycle that ends normally ends with exactly one idle marker, after all its messages
    ensures c.failure.None? ==> |c.items| > 0 && c.items[|c.items| - 1] == EndOfMessages
    ensures forall i :: 0 <= i < |c.items| - (if c.failure.None? then 1 else 0) ==> c.items[i].Msg?
    ensures CountIdle(c.items) == if c.failure.None? then 1 else 0
  {
    var p := GetEventsFromQueue(creds, cur.queueId, cur.lastEventId, replies);
    match p.result
    case Err(e) => CycleResult([], p.sent, cur, p.rest, Some(e))
    case Ok(events) =>
      var n := NormalizeAll(events);
      var items := CycleItems(n);
      CycleResult(items, p.sent, Cursor(cur.queueId, LastEventId(items, cur.lastEventId)), p.rest, n.failure)
  }

  /** The items one cycle yields from its records: each message, then the idle marker unless a record was refused. */
  function CycleItems(n: Normalized): (items: seq<Item>)
    ensures n.failure.None? ==> |items| == |n.messages| + 1 && items[|items| - 1] == EndOfMessages
    ensures n.failure.Some? ==> |items| == |n.messages|
    ensures forall i :: 0 <= i < |n.messages| ==> items[i] == Msg(n.messages[i])
    ensures CountIdle(items) == if n.failure.None? then 1 else 0
  {
    var items := Messages(n.messages);
    CountIdleMessages(n.messages);
    if n.failure.None? then
      CountIdleAppend(items, [EndOfMessages]);
      assert CountIdle([EndOfMessages]) == 1;
      items + [EndOfMessages]
    else items
  }

  /** The messages of a cycle are those of the events received, all of them and in the order received. */
  lemma CycleReceivedOrder(creds: Credentials, cur: Cursor, replies: seq<Reply>)
    ensures var p := GetEventsFromQueue(creds, cur.queueId, cur.lastEventId, replies);
            var c := Cycle(creds, cur, replies);
            && c.sent == p.sent && c.rest == p.rest
            && (p.result.Err? ==> c.items == [] && c.failure == Some(p.result.error))
            && (p.result.Ok? ==> forall i :: 0 <= i < |c.items| && c.items[i].Msg? ==>
                  i < |p.result.value| && GetMessage(p.result.value[i]) == Ok(c.items[i].message))
            && (p.result.Ok? && c.failure.None? ==> |c.items| == |p.result.value| + 1)
  {
  }

  /** The last item of two runs put together is the second's, or the first's when the second is empty. */
  lemma LastOfAppend(a: seq<Item>, b: seq<Item>)
    requires |a| > 0
    ensures (a + b)[|a + b| - 1] == if b == [] then a[|a| - 1] else b[|b| - 1]
  {
  }

  /** What `cycles` passes of the loop yield and send, from cursor `cur`. */
  datatype Outcome = Outcome(items: seq<Item>, sent: seq<Request>, cursor: Cursor, rest: seq<Reply>, failure: Option<Error>)

  function Cycles(creds: Credentials, cur: Cursor, replies: seq<Reply>, cycles: nat): (o: Outcome)
    ensures o.cursor.queueId == cur.queueId
    // one idle marker per completed poll cycle, whether or not it had events
    ensures o.failure.None? ==> CountIdle(o.items) == cycles
    ensures o.failure.Some? ==> CountIdle(o.items) < cycles
    ensures o.failure.None? && cycles > 0 ==> |o.items| > 0 && o.items[|o.items| - 1] == EndOfMessages
    decreases cycles
  {
    if cycles == 0 then Outcome([], [], cur, replies, None)
    else
      var c := Cycle(creds, cur, replies);
      if c.failure.Some? then Outcome(c.items, c.sent, c.next, c.rest, c.failure)
      else
        var o := Cycles(creds, c.next, c.rest, cycles - 1);
        CountIdleAppend(c.items, o.items);
        LastOfAppend(c.items, o.items);
        Outcome(c.items + o.items, c.sent + o.sent, o.cursor, o.rest, o.failure)
  }

  /** What `message_loop` yields and sends over its first `cycles` poll cycles. */
  datatype Run = Run(items: seq<Item>, sent: seq<Request>, failure: Option<Error>)

  function LoopRun(creds: Credentials, replies: seq<Reply>, cycles: nat): (r: Run)
    // the registration is sent first, then the first poll at the registered cursor
    ensures |r.sent| > 0 && r.sent[0] == RegisterRequest(creds)
    ensures |replies| > 0 && ReadCursor(replies[0]).Ok? && cycles > 0 ==>
              |r.sent| > 1 && r.sent[1] == PollRequest(creds, ReadCursor(replies[0]).value)
    // one idle marker per completed cycle
    ensures r.failure.None? ==> CountIdle(r.items) == cycles
  {
    if replies == [] then Run([], [RegisterRequest(creds)], Some(NoReply))
    else match ReadCursor(replies[0])
      case Err(e) => Run([], [RegisterRequest(creds)], Some(e))
      case Ok(cur) =>
        var o := Cycles(creds, cur, replies[1..], cycles);
        var sent := [RegisterRequest(creds)] + o.sent;
        assert sent[0] == RegisterRequest(creds) && sent[1..] == o.sent;
        if cycles > 0 then CyclesFirstPoll(creds, cur, replies[1..], cycles); Run(o.items, sent, o.failure)
        else Run(o.items, sent, o.failure)
  }

  lemma CyclesStep(creds: Credentials, cur: Cursor, replies: seq<Reply>, cycles: nat)
    requires cycles > 0
    ensures var c := Cycle(creds, cur, replies);
            var o := Cycles(creds, c.next, c.rest, cycles - 1);
            Cycles(creds, cur, replies, cycles)
            == if c.failure.Some? then Outcome(c.items, c.sent, c.next, c.rest, c.failure)
               else Outcome(c.items + o.items, c.sent + o.sent, o.cursor, o.rest, o.failure)
  {
  }

  /** A cycle whose poll was answered with `events`. */
  lemma CycleOfEvents(creds: Credentials, cur: Cursor, replies: seq<Reply>, events: seq<Json>)
    requires GetEventsFromQueue(creds, cur.queueId, cur.lastEventId, replies).result == Ok(events)
    ensures var p := GetEventsFromQueue(creds, cur.queueId, cur.lastEventId, replies);
            var n := NormalizeAll(events);
            var items := Messages(n.messages) + (if n.failure.None? then [EndOfMessages] else []);
            Cycle(creds, cur, replies)
            == CycleResult(items, p.sent, Cursor(cur.queueId, LastEventId(items, cur.lastEventId)), p.rest, n.failure)
  {
    var p := GetEventsFromQueue(creds, cur.queueId, cur.lastEventId, replies);
    var n := NormalizeAll(events);
    CycleItemsShape(n);
    assert Cycle(creds, cur, replies)
           == CycleResult(CycleItems(n), p.sent, Cursor(cur.queueId, LastEventId(CycleItems(n), cur.lastEventId)), p.rest, n.failure);
  }

  lemma CycleItemsShape(n: Normalized)
    ensures CycleItems(n) == Messages(n.messages) + (if n.failure.None? then [EndOfMessages] else [])
  {
    if n.failure.Some? {
      assert Messages(n.messages) + [] == Messages(n.messages);
    }
  }

  lemma MessagesAppend(ms: seq<Message>, m: Message)
    ensures Messages(ms + [m]) == Messages(ms) + [Msg(m)]
  {
  }

  lemma LastEventIdIdle(items: seq<Item>, last: int)
    ensures LastEventId(items + [EndOfMessages], last) == LastEventId(items, last)
  {
    assert (items + [EndOfMessages])[..|items|] == items;
  }

  /**
   * `message_loop` run for at most `cycles` poll cycles against the replies
   * `replies`: the queue id is set once, at registration; only the last event id moves.
   */
  method MessageLoop(creds: Credentials, replies: seq<Reply>, cycles: nat)
    returns (items: seq<Item>, sent: seq<Request>, failure: Option<Error>)
    ensures Run(items, sent, failure) == LoopRun(creds, replies, cycles)
  {
    items, sent, failure := [], [RegisterRequest(creds)], None;
    if replies == [] {
      failure := Some(NoReply);
      return;
    }
    var registered := ReadCursor(replies[0]);
    if registered.Err? {
      failure := Some(registered.error);
      return;
    }
    ghost var whole := Cycles(creds, registered.value, replies[1..], cycles);
    var queueId, lastEventId := registered.value.queueId, registered.value.lastEventId;
    var rest := replies[1..];
    var remaining := cycles;
    while remaining > 0
      invariant queueId == registered.value.queueId
      invariant Following(creds, whole, items, sent, Cycles(creds, Cursor(queueId, lastEventId), rest, remaining))
    {
      ghost var cur, before, itemsBefore, sentBefore := Cursor(queueId, lastEventId), rest, items, sent;
      var yielded, polled, cycleFailure;
      yielded, polled, lastEventId, rest, cycleFailure := PollCycle(creds, queueId, lastEventId, rest);
      items, sent := items + yielded, sent + polled;
      remaining := remaining - 1;
      FollowingStep(creds, whole, itemsBefore, sentBefore, cur, before, remaining,
                    CycleResult(yielded, polled, Cursor(queueId, lastEventId), rest, cycleFailure));
      if cycleFailure.Some? {
        failure := cycleFailure;
        return;
      }
    }
  }

  /** One pass of the loop body at cursor (queueId, lastEventId): poll, then yield each message and the idle marker. */
  method PollCycle(creds: Credentials, queueId: string, lastEventId: int, replies: seq<Reply>)
    returns (items: seq<Item>, sent: seq<Request>, newLastEventId: int, rest: seq<Reply>, failure: Option<Error>)
    ensures CycleResult(items, sent, Cursor(queueId, newLastEventId), rest, failure)
            == Cycle(creds, Cursor(queueId, lastEventId), replies)
  {
    var poll := GetEventsFromQueue(creds, queueId, lastEventId, replies);
    items, sent, newLastEventId, rest, failure := [], poll.sent, lastEventId, poll.rest, None;
    if poll.result.Err? {
      failure := Some(poll.result.error);
      return;
    }
    var events := poll.result.value;
    var received: seq<Message> := [];
    var i := 0;
    while i < |events|
      invariant 0 <= i <= |events| && |received| == i
      invariant forall j :: 0 <= j < i ==> GetMessage(events[j]) == Ok(received[j])
      invariant items == Messages(received)
      invariant newLastEventId == LastEventId(Messages(received), lastEventId)
    {
      var message := GetMessage(events[i]);
      if message.Err? {
        NormalizedPrefix(events, received, Some(message.error));
        CycleOfEvents(creds, Cursor(queueId, lastEventId), replies, events);
        failure := Some(message.error);
        return;
      }
      MessagesAppend(received, message.value);
      newLastEventId := message.value.eventId;
      items := items + [Msg(message.value)];
      received := received + [message.value];
      i := i + 1;
    }
    NormalizedPrefix(events, received, None);
    LastEventIdIdle(Messages(received), lastEventId);
    CycleOfEvents(creds, Cursor(queueId, lastEventId), replies, events);
    items := items + [EndOfMessages];
  }

  lemma FollowingStep(creds: Credentials, whole: Outcome, items: seq<Item>, sent: seq<Request>,
                      cur: Cursor, replies: seq<Reply>, left: nat, c: CycleResult)
    requires Following(creds, whole, items, sent, Cycles(creds, cur, replies, left + 1))
    requires c == Cycle(creds, cur, replies)
    ensures c.failure.Some? ==> whole.items == items + c.items && [RegisterRequest(creds)] + whole.sent == sent + c.sent
                                && whole.failure == c.failure
    ensures c.failure.None? ==> Following(creds, whole, items + c.items, sent + c.sent, Cycles(creds, c.next, c.rest, left))
  {
    CyclesStep(creds, cur, replies, left + 1);
    var o := Cycles(creds, c.next, c.rest, left);
    if c.failure.None? {
      var all := Cycles(creds, cur, replies, left + 1);
      assert all.items == c.items + o.items && all.sent == c.sent + o.sent && all.failure == o.failure;
      Assoc(items, c.items, o.items);
      Assoc(sent, c.sent, o.sent);
    }
  }

  /** `o` is what is left of `whole` once `items` are yielded and `sent` (after registering) is sent. */
  ghost predicate Following(creds: Credentials, whole: Outcome, items: seq<Item>, sent: seq<Request>, o: Outcome)
  {
    whole.items == items + o.items && [RegisterRequest(creds)] + whole.sent == sent + o.sent
    && whole.failure == o.failure
  }

  /** A first cycle that recovers from a stale queue hands the renewed cursor to no one:
   *  the next cycle polls the registered queue id, at the last event id yielded. */
  lemma RecoveredCursorDiscarded(creds: Credentials, cur: Cursor, renewed: Cursor, stale: Reply, registration: Reply,
                                 answer: Reply, events: seq<Json>, more: seq<Reply>, cycles: nat)
    requires IsStale(stale) && ReadCursor(registration) == Ok(renewed) && IsEvents(answer, events)
    requires NormalizeAll(events).failure.None? && cycles >= 2
    ensures var o := Cycles(creds, cur, [stale, registration, answer] + more, cycles);
            var ms := NormalizeAll(events).messages;
            && |o.sent| > 3
            && o.sent[..3] == [PollRequest(creds, cur), RegisterRequest(creds), PollRequest(creds, renewed)]
            && o.sent[3] == PollRequest(creds, Cursor(cur.queueId, if ms == [] then cur.lastEventId else ms[|ms| - 1].eventId))
  {
    var replies := [stale, registration, answer] + more;
    RecoveryCycle(creds, cur, renewed, stale, registration, answer, events, more);
    var c := Cycle(creds, cur, replies);
    CyclesStep(creds, cur, replies, cycles);
    CyclesFirstPoll(creds, c.next, c.rest, cycles - 1);
    var later := Cycles(creds, c.next, c.rest, cycles - 1);
    assert Cycles(creds, cur, replies, cycles).sent == c.sent + later.sent;
  }

  /** The first cycle of that run: poll, register, poll again, and the cursor keeps the registered queue id. */
  lemma RecoveryCycle(creds: Credentials, cur: Cursor, renewed: Cursor, stale: Reply, registration: Reply,
                      answer: Reply, events: seq<Json>, more: seq<Reply>)
    requires IsStale(stale) && ReadCursor(registration) == Ok(renewed) && IsEvents(answer, events)
    requires NormalizeAll(events).failure.None?
    ensures var c := Cycle(creds, cur, [stale, registration, answer] + more);
            var ms := NormalizeAll(events).messages;
            && c.failure.None?
            && c.sent == [PollRequest(creds, cur), RegisterRequest(creds), PollRequest(creds, renewed)]
            && c.next == Cursor(cur.queueId, if ms == [] then cur.lastEventId else ms[|ms| - 1].eventId)
  {
    var replies := [stale, registration, answer] + more;
    StaleQueueRecovery(creds, cur, renewed, stale, registration, answer, events, more);
    CycleOfEvents(creds, cur, replies, events);
    var ms := NormalizeAll(events).messages;
    LastEventIdIdle(Messages(ms), cur.lastEventId);
    LastEventIdMessages(ms, cur.lastEventId);
  }

  /** Every run of one cycle or more starts with a poll at its cursor. */
  lemma CyclesFirstPoll(creds: Credentials, cur: Cursor, replies: seq<Reply>, cycles: nat)
    requires cycles > 0
    ensures var o := Cycles(creds, cur, replies, cycles);
            |o.sent| > 0 && o.sent[0] == PollRequest(creds, cur)
  {
    CyclesStep(creds, cur, replies, cycles);
    CycleReceivedOrder(creds, cur, replies);
  }

  /** An answered poll with no events still yields the idle marker, and the cursor stays. */
  lemma EmptyCycle(creds: Credentials, cur: Cursor, answer: Reply, more: seq<Reply>)
    requires IsEvents(answer, [])
    ensures Cycle(creds, cur, [answer] + more) == CycleResult([EndOfMessages], [PollRequest(creds, cur)], cur, more, None)
  {
    PollWithoutRecovery(creds, cur, [answer] + more, []);
    assert ([answer] + more)[1..] == more;
    CycleOfEvents(creds, cur, [answer] + more, []);
  }

  // ---------------------------------------------------------------------
  // The HTML text of unread messages

  /**
   * The text buffer of the HTML parser: the parser hands each run of text
   * between tags to `HandleData`, which appends it.
   */
  class MessageContentParser {
    var buffer: string

    constructor()
      ensures buffer == ""
    {
      buffer := "";
    }

    method HandleData(data: string)
      modifies this
      ensures buffer == old(buffer) + data
    {
      buffer := buffer + data;
    }

    method Collect() returns (s: string)
      ensures s == buffer
    {
      s := buffer;
    }
  }

  /**
   * The text of a message's content. `tokenize` stands for the HTML tokenizer:
   * it gives the runs of text it reports, in order, while fed the markup.
   */
  function HtmlText(message: Json, tokenize: string -> seq<string>): (r: Result<string, Error>)
    ensures r.Ok? <==> message.JObj? && "content" in message.fields && message.fields["content"].JStr?
    ensures r.Ok? ==> r.value == Concat(tokenize(message.fields["content"].s))
  {
    if !message.JObj? then Err(NotAnObject)
    else if "content" !in message.fields then Err(MissingKey("content"))
    else match message.fields["content"]
      case JStr(markup) => Ok(Concat(tokenize(markup)))
      case _ => Err(WrongType("content"))
  }

  /** Feeds the content to a new parser and collects the runs of text it reported. */
  method ParseHtmlContent(message: Json, tokenize: string -> seq<string>) returns (r: Result<string, Error>)
    ensures r == HtmlText(message, tokenize)
  {
    if !message.JObj? {
      return Err(NotAnObject);
    }
    if "content" !in message.fields {
      return Err(MissingKey("content"));
    }
    if !message.fields["content"].JStr? {
      return Err(WrongType("content"));
    }
    var chunks := tokenize(message.fields["content"].s);
    var parser := new MessageContentParser();
    var i := 0;
    while i < |chunks|
      invariant 0 <= i <= |chunks|
      invariant parser.buffer == Concat(chunks[..i])
    {
      assert chunks[..i + 1][..i] == chunks[..i];
      parser.HandleData(chunks[i]);
      i := i + 1;
    }
    assert chunks[..i] == chunks;
    var text := parser.Collect();
    r := Ok(text);
  }

  /** A tokenizer that reports the whole content as one run leaves it as it is. */
  lemma HtmlTextOfPlainRun(message: Json, tokenize: string -> seq<string>)
    requires message.JObj? && "content" in message.fields && message.fields["content"].JStr?
    requires tokenize(message.fields["content"].s) == [message.fields["content"].s]
    ensures HtmlText(message, tokenize) == Ok(message.fields["content"].s)
  {
    ConcatSingle(message.fields["content"].s);
  }

  /** One unread message with its top-level `content` replaced by its text. */
  function StripOne(raw: Json, tokenize: string -> seq<string>): (r: Result<Json, Error>)
    ensures r.Err? <==> HtmlText(raw, tokenize).Err?
  {
    var text :- HtmlText(raw, tokenize);
    Ok(JObj(raw.fields["content" := JStr(text)]))
  }

  /** Every message rewritten in turn, up to the first whose content cannot be read. */
  function StripContents(ms: seq<Json>, tokenize: string -> seq<string>): (r: Result<seq<Json>, Error>)
    ensures r.Ok? ==> |r.value| == |ms| && forall i :: 0 <= i < |ms| ==> StripOne(ms[i], tokenize) == Ok(r.value[i])
  {
    if ms == [] then Ok([])
    else
      var head :- StripOne(ms[0], tokenize);
      var tail :- StripContents(ms[1..], tokenize);
      Ok([head] + tail)
  }

  lemma {:induction false} StripContentsAll(ms: seq<Json>, out: seq<Json>, tokenize: string -> seq<string>)
    requires |out| == |ms| && forall i :: 0 <= i < |ms| ==> StripOne(ms[i], tokenize) == Ok(out[i])
    ensures StripContents(ms, tokenize) == Ok(out)
    decreases |ms|
  {
    if ms != [] {
      assert StripOne(ms[0], tokenize) == Ok(out[0]);
      forall i | 0 <= i < |ms| - 1
        ensures StripOne(ms[1..][i], tokenize) == Ok(out[1..][i])
      {
        assert ms[1..][i] == ms[i + 1];
      }
      StripContentsAll(ms[1..], out[1..], tokenize);
      assert [out[0]] + out[1..] == out;
    }
  }

  lemma {:induction false} StripContentsFails(ms: seq<Json>, k: nat, tokenize: string -> seq<string>)
    requires k < |ms| && StripOne(ms[k], tokenize).Err?
    requires forall j :: 0 <= j < k ==> StripOne(ms[j], tokenize).Ok?
    ensures StripContents(ms, tokenize) == Err(StripOne(ms[k], tokenize).error)
    decreases k
  {
    if k > 0 {
      assert StripOne(ms[0], tokenize).Ok?;
      forall j | 0 <= j < k - 1
        ensures StripOne(ms[1..][j], tokenize).Ok?
      {
        assert ms[1..][j] == ms[j + 1];
      }
      assert ms[1..][k - 1] == ms[k];
      StripContentsFails(ms[1..], k - 1, tokenize);
    }
  }

  /** The history query for unread messages: first-unread anchor, with the given window around it. */
  function UnreadRequest(creds: Credentials, previousMessages: int, followingMessages: int): Request
  {
    GetOldMessages(creds, 0, previousMessages, followingMessages, true)
  }

  /** The records of the unread messages in a history reply, each with its content's text. */
  function UnreadMessages(reply: Reply, tokenize: string -> seq<string>): (r: Result<seq<Message>, Error>)
    ensures r.Ok? ==> "messages" in reply && reply["messages"].JArr? && |r.value| == |reply["messages"].items|
    // each record is that of the listed message after its content was rewritten to text
    ensures r.Ok? ==> forall i :: 0 <= i < |r.value| ==>
                        StripOne(reply["messages"].items[i], tokenize).Ok?
                        && GetMessage(StripOne(reply["messages"].items[i], tokenize).value) == Ok(r.value[i])
  {
    if "messages" !in reply then Err(MissingKey("messages"))
    else if !reply["messages"].JArr? then Err(WrongType("messages"))
    else
      var rewritten :- StripContents(reply["messages"].items, tokenize);
      var n := NormalizeAll(rewritten);
      if n.failure.Some? then Err(n.failure.value) else Ok(n.messages)
  }

  /**
   * `get_unread_messages`: the history request, then the contents of the listed
   * messages rewritten in place, one at a time, then one record per message.
   */
  method GetUnreadMessages(creds: Credentials, previousMessages: int, followingMessages: int, reply: Reply,
                           tokenize: string -> seq<string>)
    returns (request: Request, r: Result<seq<Message>, Error>)
    ensures request == UnreadRequest(creds, previousMessages, followingMessages)
    ensures r == UnreadMessages(reply, tokenize)
  {
    request := GetOldMessages(creds, 0, previousMessages, followingMessages, true);
    if "messages" !in reply {
      return request, Err(MissingKey("messages"));
    }
    if !reply["messages"].JArr? {
      return request, Err(WrongType("messages"));
    }
    var listed := reply["messages"].items;
    var unread := new Json[|listed|](i requires 0 <= i < |listed| => listed[i]);
    var i := 0;
    while i < unread.Length
      invariant 0 <= i <= unread.Length == |listed|
      invariant forall j :: 0 <= j < i ==> StripOne(listed[j], tokenize) == Ok(unread[j])
      invariant unread[i..] == listed[i..]
    {
      assert unread[i] == unread[i..][0] == listed[i];
      var text := ParseHtmlContent(unread[i], tokenize);
      if text.Err? {
        StripContentsFails(listed, i, tokenize);
        return request, Err(text.error);
      }
      ghost var before := unread[..];
      unread[i] := JObj(unread[i].fields["content" := JStr(text.value)]);
      assert unread[i + 1..] == before[i + 1..];
      i := i + 1;
    }
    StripContentsAll(listed, unread[..], tokenize);
    var n := NormalizeAll(unread[..]);
    if n.failure.Some? {
      return request, Err(n.failure.value);
    }
    r := Ok(n.messages);
  }

  /** A bare unread message keeps its record, except that its content is the text of its markup. */
  lemma UnreadContentIsText(raw: Json, m: Message, tokenize: string -> seq<string>)
    requires raw.JObj? && "message" !in raw.fields && GetMessage(raw) == Ok(m)
    ensures StripOne(raw, tokenize).Ok?
    ensures GetMessage(StripOne(raw, tokenize).value) == Ok(m.(content := Concat(tokenize(m.content))))
  {
    var s := StripOne(raw, tokenize).value;
    assert "message" !in s.fields;
  }

  /** In an envelope only the top-level content is rewritten: the record keeps the nested, raw content. */
  lemma UnreadEnvelopeKeepsRawContent(raw: Json, m: Message, tokenize: string -> seq<string>)
    requires raw.JObj? && "message" in raw.fields && GetMessage(raw) == Ok(m)
    requires "content" in raw.fields && raw.fields["content"].JStr?
    ensures StripOne(raw, tokenize).Ok? && GetMessage(StripOne(raw, tokenize).value) == Ok(m)
  {
    var s := StripOne(raw, tokenize).value;
    assert s.fields["message"] == raw.fields["message"];
    assert s.fields["id"] == raw.fields["id"];
  }

  // ---------------------------------------------------------------------
  // History queries

  /** The query parameters of `get_old_messages`. */
  function OldMessagesParams(anchor: int, numBefore: int, numAfter: int, useFirstUnreadAnchor: bool)
    : (params: map<string, Json>)
    ensures params.Keys == {"anchor", "num_before", "num_after"}
                           + (if useFirstUnreadAnchor then {"use_first_unread_anchor", "narrow"} else {})
    ensures params["anchor"] == JInt(anchor) && params["num_before"] == JInt(numBefore)
            && params["num_after"] == JInt(numAfter)
    ensures useFirstUnreadAnchor ==> params["use_first_unread_anchor"] == JStr("true") && params["narrow"] == JStr("[]")
  {
    var params := map["anchor" := JInt(anchor), "num_before" := JInt(numBefore), "num_after" := JInt(numAfter)];
    if useFirstUnreadAnchor then params["use_first_unread_anchor" := JStr("true")]["narrow" := JStr("[]")]
    else params
  }

  /** The flag adds its two parameters and changes none of the three others. */
  lemma OldMessagesFlagOnlyAdds(anchor: int, numBefore: int, numAfter: int)
    ensures OldMessagesParams(anchor, numBefore, numAfter, true) - {"use_first_unread_anchor", "narrow"}
            == OldMessagesParams(anchor, numBefore, numAfter, false)
  {
    var with := OldMessagesParams(anchor, numBefore, numAfter, true);
    var without := OldMessagesParams(anchor, numBefore, numAfter, false);
    assert (with - {"use_first_unread_anchor", "narrow"}).Keys == without.Keys;
  }

  function GetOldMessages(creds: Credentials, anchor: int, numBefore: int, numAfter: int, useFirstUnreadAnchor: bool)
    : (r: Request)
    ensures r.Get? && r.url == creds.server + "/api/v1/messages"
  {
    Get(GetEndpoint(creds, "messages"), OldMessagesParams(anchor, numBefore, numAfter, useFirstUnreadAnchor))
  }

  // ---------------------------------------------------------------------
  // Subscriptions

  /** A list of stream names is taken as it is; any other value is one name. */
  function SubscriptionList(streamNames: Json): (names: seq<Json>)
    ensures streamNames.JArr? ==> names == streamNames.items
    ensures !streamNames.JArr? ==> names == [streamNames]
  {
    match streamNames
    case JArr(items) => items
    case _ => [streamNames]
  }

  /** The list of subscription objects, one `{"name": n}` per name. */
  function SubscriptionJson(names: seq<Json>): (j: Json)
    ensures j.JArr? && |j.items| == |names|
    ensures forall i :: 0 <= i < |names| ==> j.items[i] == JObj(map["name" := names[i]])
  {
    JArr(seq(|names|, i requires 0 <= i < |names| => JObj(map["name" := names[i]])))
  }

  /** The body of the subscribe request; `dumps` stands for the JSON encoder. */
  function SubscriptionBody(names: seq<Json>, dumps: Json -> string): (body: string)
    ensures body == FormBody([("subscriptions", dumps(SubscriptionJson(names)))])
  {
    "subscriptions=" + dumps(SubscriptionJson(names))
  }

  function SubscribeToStreams(creds: Credentials, streamNames: Json, dumps: Json -> string): (r: Request)
    ensures r.PostBody? && r.url == creds.server + "/api/v1/users/me/subscriptions"
  {
    PostBody(GetEndpoint(creds, "subscriptions"), SubscriptionBody(SubscriptionList(streamNames), dumps))
  }

  /** The subscribe body is one form field, `subscriptions`, holding the encoded list. */
  lemma SubscriptionBodyField(names: seq<Json>, dumps: Json -> string)
    requires Lacks(dumps(SubscriptionJson(names)), '&')
    ensures ParseForm(SubscriptionBody(names, dumps)) == [("subscriptions", dumps(SubscriptionJson(names)))]
  {
    FormRoundTrip([("subscriptions", dumps(SubscriptionJson(names)))]);
  }

  /** The request of `get_subscriptions`: a GET of the `users/me/subscriptions` endpoint, without parameters. */
  function GetSubscriptionsRequest(creds: Credentials): (r: Request)
    ensures r.Get? && r.url == creds.server + "/api/v1/users/me/subscriptions" && r.params == map[]
  {
    Get(GetEndpoint(creds, "subscriptions"), map[])
  }

  /** The `name` of each subscription, up to the first that has none. */
  function SubscriptionNames(subscriptions: seq<Json>): (r: Result<seq<Json>, Error>)
    ensures r.Ok? ==> |r.value| == |subscriptions|
    ensures r.Ok? ==> forall i :: 0 <= i < |subscriptions| ==>
                        subscriptions[i].JObj? && "name" in subscriptions[i].fields
                        && r.value[i] == subscriptions[i].fields["name"]
  {
    if subscriptions == [] then Ok([])
    else
      var s := subscriptions[0];
      if !s.JObj? then Err(NotAnObject)
      else if "name" !in s.fields then Err(MissingKey("name"))
      else
        var rest :- SubscriptionNames(subscriptions[1..]);
        Ok([s.fields["name"]] + rest)
  }

  /** The stream names in a subscriptions reply. */
  function GetSubscriptions(reply: Reply): (r: Result<seq<Json>, Error>)
    ensures r.Ok? ==> "subscriptions" in reply && reply["subscriptions"].JArr?
    ensures r.Ok? ==> var subs := reply["subscriptions"].items;
                      |r.value| == |subs| && forall i :: 0 <= i < |subs| ==>
                        subs[i].JObj? && "name" in subs[i].fields && r.value[i] == subs[i].fields["name"]
  {
    if "subscriptions" !in reply then Err(MissingKey("subscriptions"))
    else if !reply["subscriptions"].JArr? then Err(WrongType("subscriptions"))
    else SubscriptionNames(reply["subscriptions"].items)
  }

  /** Reading names back from the subscription objects built for them gives the names. */
  lemma {:induction false} SubscriptionNamesRoundTrip(names: seq<Json>)
    ensures SubscriptionNames(SubscriptionJson(names).items) == Ok(names)
    decreases |names|
  {
    if names != [] {
      var items := SubscriptionJson(names).items;
      assert items[1..] == SubscriptionJson(names[1..]).items;
      assert items[0] == JObj(map["name" := names[0]]);
      SubscriptionNamesRoundTrip(names[1..]);
      assert [names[0]] + names[1..] == names;
    }
  }

  /** A reply listing the subscriptions built from a request's names gives back those names. */
  lemma SubscriptionsRoundTrip(streamNames: Json)
    ensures GetSubscriptions(map["subscriptions" := SubscriptionJson(SubscriptionList(streamNames))])
            == Ok(SubscriptionList(streamNames))
  {
    SubscriptionNamesRoundTrip(SubscriptionList(streamNames));
  }

  // ---------------------------------------------------------------------
  // Sending messages

  /** The form payload of a stream message: the three values are put in as they are. */
  function StreamPayload(stream: string, subject: string, content: string): (body: string)
    ensures body == FormBody(StreamFields(stream, subject, content))
  {
    FormBody4(StreamFields(stream, subject, content));
    StreamPayloadGlue(stream, subject, content);
    "type=stream&to=" + stream + "&subject=" + subject + "&content=" + content
  }

  /** The form payload of a private message, likewise unescaped. */
  function PrivatePayload(recipient: string, content: string): (body: string)
    ensures body == FormBody(PrivateFields(recipient, content))
  {
    FormBody3(PrivateFields(recipient, content));
    PrivatePayloadGlue(recipient, content);
    "type=private&to=" + recipient + "&content=" + content
  }

  function StreamFields(stream: string, subject: string, content: string): seq<(string, string)>
  {
    [("type", "stream"), ("to", stream), ("subject", subject), ("content", content)]
  }

  function PrivateFields(recipient: string, content: string): seq<(string, string)>
  {
    [("type", "private"), ("to", recipient), ("content", content)]
  }

  function SendStreamMessage(creds: Credentials, stream: string, subject: string, content: string): (r: Request)
    ensures r.PostBody? && r.url == creds.server + "/api/v1/messages"
  {
    PostBody(GetEndpoint(creds, "messages"), StreamPayload(stream, subject, content))
  }

  function SendPrivateMessage(creds: Credentials, recipient: string, content: string): (r: Request)
    ensures r.PostBody? && r.url == creds.server + "/api/v1/messages"
  {
    PostBody(GetEndpoint(creds, "messages"), PrivatePayload(recipient, content))
  }

  lemma StreamPayloadGlue(s: string, t: string, c: string)
    ensures "type" + "=" + "stream" + "&" + ("to" + "=" + s + "&" + ("subject" + "=" + t + "&" + ("content" + "=" + c)))
            == "type=stream&to=" + s + "&subject=" + t + "&content=" + c
  {
  }

  lemma PrivatePayloadGlue(r: string, c: string)
    ensures "type" + "=" + "private" + "&" + ("to" + "=" + r + "&" + ("content" + "=" + c))
            == "type=private&to=" + r + "&content=" + c
  {
  }

  /** With no `&` in the values, the stream payload reads back as its four fields. */
  lemma StreamPayloadRoundTrip(stream: string, subject: string, content: string)
    requires Lacks(stream, '&') && Lacks(subject, '&') && Lacks(content, '&')
    ensures ParseForm(StreamPayload(stream, subject, content)) == StreamFields(stream, subject, content)
  {
    FormRoundTrip(StreamFields(stream, subject, content));
  }

  /** With no `&` in the values, the private payload reads back as its three fields. */
  lemma PrivatePayloadRoundTrip(recipient: string, content: string)
    requires Lacks(recipient, '&') && Lacks(content, '&')
    ensures ParseForm(PrivatePayload(recipient, content)) == PrivateFields(recipient, content)
  {
    FormRoundTrip(PrivateFields(recipient, content));
  }

  /** Nothing is escaped: every `&` in a value starts one more form field. */
  lemma StreamPayloadFieldCount(stream: string, subject: string, content: string)
    ensures |ParseForm(StreamPayload(stream, subject, content))|
            == 4 + Count('&', stream) + Count('&', subject) + Count('&', content)
  {
    var fields := StreamFields(stream, subject, content);
    CountFormBodyCons(fields);
    CountFormBodyCons(fields[1..]);
    CountFormBodyCons(fields[1..][1..]);
    assert fields[1..][1..][1..] == [("content", content)];
    CountField(("content", content));
    CountAbsent('&', "stream");
  }

  lemma PrivatePayloadFieldCount(recipient: string, content: string)
    ensures |ParseForm(PrivatePayload(recipient, content))| == 3 + Count('&', recipient) + Count('&', content)
  {
    var fields := PrivateFields(recipient, content);
    CountFormBodyCons(fields);
    CountFormBodyCons(fields[1..]);
    assert fields[1..][1..] == [("content", content)];
    CountField(("content", content));
    CountAbsent('&', "private");
  }
}
