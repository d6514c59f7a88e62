/** `RequestIdMiddleware` (infra/serve_http.py): the body of a POST to the MCP path is buffered, checked,
    and replayed. JSON decoding is a parameter. After its last message a stream reports a disconnect. */
module RequestIds {
  import opened Options

  type Bytes = seq<bv8>

  datatype Message = Request(body: Bytes, more: bool) | Other(kind: string)

  const DISCONNECT := Other("http.disconnect")

  datatype Json =
    | JNull | JBool(b: bool) | JInt(n: int) | JFraction(x: real) | JString(s: string)
    | JArray(items: seq<Json>) | JObject(fields: map<string, Json>)

  predicate IdIsValid(value: Json) { value.JString? || value.JInt? }

  predicate HasInvalidId(item: Json) {
    item.JObject? && "id" in item.fields && !IdIsValid(item.fields["id"])
  }

  /** One message or a batch of them; a body that is not JSON is left to the app. */
  predicate InvalidIdPresent(document: Option<Json>) {
    match document
    case None => false
    case Some(JArray(items)) => exists item :: item in items && HasInvalidId(item)
    case Some(item) => HasInvalidId(item)
  }

  function At(messages: seq<Message>, i: nat): Message {
    if i < |messages| then messages[i] else DISCONNECT
  }

  function BodyOf(m: Message): Bytes { if m.Request? then m.body else [] }

  /** The bytes of the first k messages. */
  function Body(messages: seq<Message>, k: nat): Bytes {
    if k == 0 then [] else Body(messages, k - 1) + BodyOf(At(messages, k - 1))
  }

  datatype Reason = TooLarge | InvalidId

  /** Forward: the app is called, and will first be handed the buffered messages. */
  datatype Outcome = Reject(reason: Reason) | Forward(buffered: seq<Message>)

  class Stream {
    const messages: seq<Message>
    var pos: nat

    constructor (messages: seq<Message>)
      ensures this.messages == messages && pos == 0
    {
      this.messages := messages;
      pos := 0;
    }

    method Receive() returns (m: Message)
      modifies this
      ensures pos == old(pos) + 1 && m == At(messages, old(pos))
    {
      m := if pos < |messages| then messages[pos] else DISCONNECT;
      pos := pos + 1;
    }
  }

  /** The k-th message asks for another one: a body part, within the ceiling so far, with more to come. */
  predicate Continues(messages: seq<Message>, ceiling: int, k: nat) {
    At(messages, k).Request? && |Body(messages, k + 1)| <= ceiling && At(messages, k).more
  }

  /** How many messages are pulled: up to the first that does not continue. */
  function Pulled(messages: seq<Message>, ceiling: int, k: nat): (n: nat)
    ensures n > k && !Continues(messages, ceiling, n - 1)
    ensures forall j :: k <= j < n - 1 ==> Continues(messages, ceiling, j)
    decreases |messages| - k
  {
    if Continues(messages, ceiling, k) then Pulled(messages, ceiling, k + 1) else k + 1
  }

  function Decide(messages: seq<Message>, ceiling: int, idLimit: int, decode: Bytes -> Option<Json>): Outcome {
    var n := Pulled(messages, ceiling, 0);
    var last, body := At(messages, n - 1), Body(messages, n);
    if last.Request? && |body| > ceiling then Reject(TooLarge)
    else if last.Request? && |body| <= idLimit && InvalidIdPresent(decode(body)) then Reject(InvalidId)
    else Forward(Prefix(messages, n))
  }

  function Prefix(messages: seq<Message>, n: nat): (p: seq<Message>)
    ensures |p| == n && forall i :: 0 <= i < n ==> p[i] == At(messages, i)
  {
    if n == 0 then [] else Prefix(messages, n - 1) + [At(messages, n - 1)]
  }

  function JoinBodies(buffered: seq<Message>): Bytes {
    if buffered == [] then []
    else JoinBodies(buffered[..|buffered| - 1]) + BodyOf(buffered[|buffered| - 1])
  }

  lemma {:induction false} JoinOfPrefix(messages: seq<Message>, n: nat)
    ensures JoinBodies(Prefix(messages, n)) == Body(messages, n)
  {
    hide BodyOf, At;
    if n > 0 {
      var p := Prefix(messages, n);
      assert p == Prefix(messages, n - 1) + [At(messages, n - 1)];
      assert p[..n - 1] == Prefix(messages, n - 1) && p[n - 1] == At(messages, n - 1);
      JoinOfPrefix(messages, n - 1);
    }
  }

  lemma NoBodyYet(messages: seq<Message>)
    ensures Body(messages, 0) == []
  {
  }

  lemma BodyOneMore(messages: seq<Message>, k: nat)
    ensures Body(messages, k + 1) == Body(messages, k) + BodyOf(At(messages, k))
  {
  }

  /** The buffering loop and the two checks, on a POST to the MCP path. */
  method Admit(stream: Stream, ceiling: int, idLimit: int, decode: Bytes -> Option<Json>) returns (outcome: Outcome)
    requires stream.pos == 0
    modifies stream
    ensures outcome == Decide(stream.messages, ceiling, idLimit, decode)
    ensures stream.pos == Pulled(stream.messages, ceiling, 0)
  {
    hide InvalidIdPresent, JoinBodies, Body;
    var buffered: seq<Message> := [];
    var total := 0;
    var complete := false;
    NoBodyYet(stream.messages);
    while true
      invariant stream.pos == |buffered| && buffered == Prefix(stream.messages, |buffered|)
      invariant total == |Body(stream.messages, |buffered|)|
      invariant !complete
      invariant Pulled(stream.messages, ceiling, 0) == Pulled(stream.messages, ceiling, |buffered|)
      decreases |stream.messages| - |buffered|
    {
      ghost var k := |buffered|;
      var message := stream.Receive();
      buffered := buffered + [message];
      BodyOneMore(stream.messages, k);
      assert buffered == Prefix(stream.messages, k + 1);
      if !message.Request? { break; }
      total := total + |message.body|;
      if total > ceiling {
        return Reject(TooLarge);
      }
      if !message.more {
        complete := true;
        break;
      }
    }
    JoinOfPrefix(stream.messages, |buffered|);
    if complete && total <= idLimit && InvalidIdPresent(decode(JoinBodies(buffered))) {
      return Reject(InvalidId);
    }
    outcome := Forward(buffered);
  }

  /** What JSON-RPC does not allow as an id: a null, a boolean, a fraction, an array or an object. */
  predicate BadId(value: Json) { value.JNull? || value.JBool? || value.JFraction? || value.JArray? || value.JObject? }

  /** A message by itself, or one of a batch. */
  predicate IsMessage(document: Option<Json>, item: Json) {
    document.Some? && if document.value.JArray? then item in document.value.items else item == document.value
  }

  ghost predicate CarriesBadId(document: Option<Json>) {
    exists item :: IsMessage(document, item) && item.JObject? && "id" in item.fields && BadId(item.fields["id"])
  }

  lemma BadIdIsInvalid(document: Option<Json>)
    ensures InvalidIdPresent(document) <==> CarriesBadId(document)
  {
    if InvalidIdPresent(document) {
      if document.value.JArray? {
        var item :| item in document.value.items && HasInvalidId(item);
        assert IsMessage(document, item);
      } else {
        assert IsMessage(document, document.value);
      }
    }
  }

  /** The body is the bytes of the messages one after another. */
  lemma {:induction false} BodyIsInOrder(messages: seq<Message>, k: nat, j: nat)
    requires j < k
    ensures |Body(messages, j)| <= |Body(messages, j + 1)| <= |Body(messages, k)|
    ensures Body(messages, k)[|Body(messages, j)|..|Body(messages, j + 1)|] ==
              if At(messages, j).Request? then At(messages, j).body else []
    ensures |Body(messages, 0)| == 0
  {
    if j < k - 1 { BodyIsInOrder(messages, k - 1, j); }
  }

  /** Only a body that passes the ceiling, found with the least number of messages, or a complete body
      within the id-check limit that decodes to an invalid id is rejected; everything else is forwarded. */
  lemma RejectionIsExact(messages: seq<Message>, ceiling: int, idLimit: int, decode: Bytes -> Option<Json>, n: nat)
    requires n > 0 && !Continues(messages, ceiling, n - 1)
    requires forall j :: 0 <= j < n - 1 ==> Continues(messages, ceiling, j)
    ensures Pulled(messages, ceiling, 0) == n
    ensures Decide(messages, ceiling, idLimit, decode) == Reject(TooLarge) <==>
              At(messages, n - 1).Request? && |Body(messages, n)| > ceiling
              && forall j :: 1 <= j < n ==> |Body(messages, j)| <= ceiling
    ensures Decide(messages, ceiling, idLimit, decode) == Reject(InvalidId) <==>
              At(messages, n - 1).Request? && !At(messages, n - 1).more
              && |Body(messages, n)| <= ceiling && |Body(messages, n)| <= idLimit
              && CarriesBadId(decode(Body(messages, n)))
    ensures Decide(messages, ceiling, idLimit, decode).Forward? ==>
              Decide(messages, ceiling, idLimit, decode).buffered == Prefix(messages, n)
  {
    BadIdIsInvalid(decode(Body(messages, n)));
    var p := Pulled(messages, ceiling, 0);
    assert p == n by { assert !Continues(messages, ceiling, p - 1); }
    forall j | 1 <= j < n ensures |Body(messages, j)| <= ceiling {
      assert Continues(messages, ceiling, j - 1);
    }
  }

  /** replaying_receive: the buffered messages first, then whatever the client still sends. */
  class Replay {
    const buffered: seq<Message>
    const stream: Stream
    var next: nat
    ghost var calls: nat

    ghost predicate Valid()
      reads this, stream
    {
      && next <= |buffered| && buffered == Prefix(stream.messages, |buffered|)
      && (next < |buffered| ==> calls == next && stream.pos == |buffered|)
      && (next == |buffered| ==> calls == stream.pos)
    }

    constructor (buffered: seq<Message>, stream: Stream)
      requires stream.pos == |buffered| && buffered == Prefix(stream.messages, |buffered|)
      requires buffered != []
      ensures Valid() && calls == 0 && this.stream == stream
    {
      this.buffered, this.stream := buffered, stream;
      next, calls := 0, 0;
    }

    /** The app's i-th receive returns the client's i-th message. */
    method Receive() returns (m: Message)
      requires Valid()
      modifies this, stream
      ensures Valid() && calls == old(calls) + 1
      ensures m == At(stream.messages, old(calls))
    {
      if next < |buffered| {
        m := buffered[next];
        next := next + 1;
      } else {
        m := stream.Receive();
      }
      calls := calls + 1;
    }
  }

  /** What an app sees that receives k times: the incoming stream, unless it was rejected before the call. */
  method Serve(messages: seq<Message>, ceiling: int, idLimit: int, decode: Bytes -> Option<Json>, k: nat)
    returns (outcome: Outcome, seen: seq<Message>)
    ensures outcome == Decide(messages, ceiling, idLimit, decode)
    ensures seen == if outcome.Forward? then Prefix(messages, k) else []
  {
    var stream := new Stream(messages);
    outcome := Admit(stream, ceiling, idLimit, decode);
    seen := [];
    if outcome.Forward? {
      var replay := new Replay(outcome.buffered, stream);
      for i := 0 to k
        invariant replay.Valid() && replay.calls == i && replay.stream == stream && stream.messages == messages
        invariant seen == Prefix(messages, i)
      {
        var m := replay.Receive();
        seen := seen + [m];
      }
    }
  }
}
