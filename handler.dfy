/** The `GET /api/generate` handler of server/routes.ts (lines 13-156):
    the query guard, the signed upstream payload, and the choice of the
    200, 400 or 500 response. The upstream call itself is an input. */
module Handler {

  import opened Wrappers
  import opened Strings
  import opened JsonValues
  import opened Normalizer
  import opened SharedRoutes

  const JoinUrl: string := "https://t.me/Playz_hacking"
  const MissingQueryError: string := "Missing query parameter 'q'"

  datatype ChatTurn = ChatTurn(role: string, content: string)

  /** A hex SHA-256 digest, known only by the text it digests. */
  datatype Signature = Sha256Hex(preimage: string)

  /** The body posted upstream (lines 53-61). */
  datatype Payload = Payload(messages: seq<ChatTurn>, time: nat, pass: Json, sign: Signature)

  /** What a `catch` receives: an `Error` with its message, or anything
      else. */
  datatype Thrown = ErrorObject(message: string) | NonError

  /** How the upstream call ends: `fetch` rejects (network failure, or the
      abort after 10 seconds); a response arrives with its status and its
      body text; or a response arrives and reading its body rejects. */
  datatype Upstream =
    | Rejected(reason: Thrown)
    | Responded(status: nat, body: string)
    | BodyRejected(status: nat, reason: Thrown)

  /** The HTTP status code and the JSON body sent back to the client. */
  datatype HttpResponse = HttpResponse(code: nat, body: Json)

  /** The text that is signed (line 42). */
  function SignPreimage(time: nat, q: string): string {
    Decimal(time) + ":" + q + ":"
  }

  /** The signed text determines both the timestamp and the query. */
  lemma SignPreimageInjective(t1: nat, q1: string, t2: nat, q2: string)
    requires SignPreimage(t1, q1) == SignPreimage(t2, q2)
    ensures t1 == t2 && q1 == q2
  {
    var d1, d2 := Decimal(t1), Decimal(t2);
    var p := SignPreimage(t1, q1);
    assert p == d1 + ":" + q1 + ":" == d2 + ":" + q2 + ":";
    assert p[|d1|] == ':' && p[|d2|] == ':';
    assert forall i :: 0 <= i < |d1| ==> p[i] == d1[i];
    assert forall i :: 0 <= i < |d2| ==> p[i] == d2[i];
    assert |d1| == |d2|;
    assert d1 == p[..|d1|] == d2;
    DecimalInjective(t1, t2);
    assert q1 == p[|d1| + 1..|p| - 1] == q2;
  }

  /** `error instanceof Error ? error.message : "Unknown error"`. */
  function ErrorMessage(t: Thrown): string {
    match t
    case ErrorObject(m) => m
    case NonError => "Unknown error"
  }

  /** `response.ok`. */
  predicate StatusOk(status: nat) {
    200 <= status <= 299
  }

  /** The 400 answer of lines 15-21. */
  function MissingQueryResponse(): (res: HttpResponse)
    ensures res.code == 400 && WellFormedResponse(res)
    ensures Field(res, "error") == Some(JString(MissingQueryError))
  {
    var ms := [
        ("error", JString(MissingQueryError)),
        ("status", JNumber(400.0)),
        ("successful", JString("failed"))];
    LookupAt(ms, "status", 1);
    LookupAt(ms, "successful", 2);
    LookupAt(ms, "error", 0);
    HttpResponse(400, JObject(ms))
  }

  /** The 200 answer of lines 140-145, carrying `v`. */
  function SuccessResponse(v: Json): (res: HttpResponse)
    ensures res.code == 200 && WellFormedResponse(res) && Field(res, "response") == Some(v)
  {
    var ms := [
        ("Join", JString(JoinUrl)),
        ("response", v),
        ("status", JNumber(200.0)),
        ("successful", JString("success"))];
    LookupAt(ms, "status", 2);
    LookupAt(ms, "successful", 3);
    LookupAt(ms, "Join", 0);
    LookupAt(ms, "response", 1);
    HttpResponse(200, JObject(ms))
  }

  /** The 500 answer of lines 147-153, carrying `message`. */
  function FailureResponse(message: string): (res: HttpResponse)
    ensures res.code == 500 && WellFormedResponse(res) && Field(res, "response") == Some(JString(message))
  {
    var ms := [
        ("Join", JString(JoinUrl)),
        ("response", JString(message)),
        ("status", JNumber(500.0)),
        ("successful", JString("failed"))];
    LookupAt(ms, "status", 2);
    LookupAt(ms, "successful", 3);
    LookupAt(ms, "Join", 0);
    LookupAt(ms, "response", 1);
    HttpResponse(500, JObject(ms))
  }

  function Field(res: HttpResponse, key: string): Option<Json> {
    Get(Some(res.body), key)
  }

  /** What every response of the handler satisfies: the body's `status`
      repeats the HTTP code, `successful` is "success" exactly for 200,
      `Join` carries the invite URL on 200 and 500 and is absent on 400,
      and a 500 answers with a string. */
  predicate WellFormedResponse(res: HttpResponse) {
    (res.code == 200 || res.code == 400 || res.code == 500) &&
    Field(res, "status") == Some(JNumber(res.code as real)) &&
    Field(res, "successful") == Some(JString(if res.code == 200 then "success" else "failed")) &&
    (res.code == 400 <==> Field(res, "Join").None?) &&
    (res.code != 400 ==> Field(res, "Join") == Some(JString(JoinUrl))) &&
    (res.code == 500 ==> Field(res, "response").Some? && Field(res, "response").value.JString?)
  }

  /** The handler for one request. `q` is `req.query.q`, `now` is
      `Date.now()`, `prompt` the fixed system prompt, `upstream` how the
      call ends and `parse` stands for `JSON.parse`. `sent` lists the
      payloads posted upstream. */
  method Handle(q: Option<string>, now: nat, prompt: string, upstream: Upstream, parse: Parser)
    returns (sent: seq<Payload>, res: HttpResponse)
    ensures |sent| <= 1
    ensures sent == [] <==> !QueryValid(q)
    ensures sent == [] ==> res == MissingQueryResponse()
    ensures sent != [] ==>
      sent[0].messages == [ChatTurn("system", prompt), ChatTurn("user", q.value)] &&
      sent[0].time == now && sent[0].pass == JNull &&
      sent[0].sign == Sha256Hex(Decimal(sent[0].time) + ":" + q.value + ":")
    ensures sent != [] && upstream.Rejected? ==>
      res == FailureResponse(ErrorMessage(upstream.reason))
    ensures sent != [] && !upstream.Rejected? && !StatusOk(upstream.status) ==>
      res == FailureResponse("API returned " + Decimal(upstream.status))
    ensures sent != [] && upstream.BodyRejected? && StatusOk(upstream.status) ==>
      res == FailureResponse(ErrorMessage(upstream.reason))
    ensures sent != [] && upstream.Responded? && StatusOk(upstream.status) ==>
      res == SuccessResponse(Normalized(upstream.body, parse))
    ensures res.code == 200 <==> sent != [] && upstream.Responded? && StatusOk(upstream.status)
    ensures WellFormedResponse(res)
  {
    if q.None? || q.value == "" {
      sent := [];
      res := MissingQueryResponse();
      return;
    }
    var rawMessage := q.value;
    var timestamp := now;
    var sign := Sha256Hex(SignPreimage(timestamp, rawMessage));
    var data := Payload([ChatTurn("system", prompt), ChatTurn("user", rawMessage)], timestamp, JNull, sign);
    sent := [data];
    match upstream
    case Rejected(reason) =>
      res := FailureResponse(ErrorMessage(reason));
    case Responded(status, body) =>
      if !StatusOk(status) {
        res := FailureResponse(ErrorMessage(ErrorObject("API returned " + Decimal(status))));
      } else {
        var ashlynn := NormalizeBody(body, parse);
        res := SuccessResponse(ashlynn);
      }
    case BodyRejected(status, reason) =>
      if !StatusOk(status) {
        res := FailureResponse(ErrorMessage(ErrorObject("API returned " + Decimal(status))));
      } else {
        res := FailureResponse(ErrorMessage(reason));
      }
  }

  /** A 200 body satisfies the 200 schema. */
  lemma SuccessMatchesSchema(v: Json)
    ensures Accepts200(SuccessResponse(v).body)
  {
  }

  /** The 400 body satisfies the 400 schema. */
  lemma MissingQueryMatchesSchema()
    ensures Accepts400(MissingQueryResponse().body)
  {
  }

  /** No 500 body satisfies the 500 schema: it carries `response` where the
      schema requires `error`. */
  lemma ServerErrorBodyFailsSchema(message: string)
    ensures !Accepts500(FailureResponse(message).body)
  {
    FailureBody(message);
    NoErrorMember(message);
  }

  /** The 500 body, member by member. */
  lemma FailureBody(message: string)
    ensures FailureResponse(message).body == JObject([
      ("Join", JString(JoinUrl)), ("response", JString(message)),
      ("status", JNumber(500.0)), ("successful", JString("failed"))])
  {
  }

  /** A body with the 500 body's members has no `error` member. */
  lemma NoErrorMember(message: string)
    ensures !Accepts500(JObject([
      ("Join", JString(JoinUrl)), ("response", JString(message)),
      ("status", JNumber(500.0)), ("successful", JString("failed"))]))
  {
  }
}
