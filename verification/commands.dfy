/** The outcome `send_cmd` reports for one POST to the command relay. The request
    itself is not modelled; `Response` is what it produced: an HTTP status with its
    body text, or the exception it raised. */
module Commands {
  import opened Wrappers
  import opened Decimal

  datatype Response = Status(code: int, body: string) | TransportError(error: string)

  /** `(ok, message)` as returned to the button handlers. */
  datatype Outcome = Outcome(ok: bool, message: string)

  /** How much of an error body is shown. */
  const BodyLimit: nat := 200

  /** Python's `text[:n]`. */
  function Truncate(text: string, n: nat): (r: string)
    ensures |r| == Min(|text|, n)
    ensures r == text[..|r|]
  {
    if |text| <= n then text else text[..n]
  }

  predicate IsSuccess(code: int) {
    200 <= code < 300
  }

  function SuccessMessage(code: int): (message: string) {
    "OK (" + IntToString(code) + ")"
  }

  function FailureMessage(code: int, body: string): (message: string) {
    "HTTP " + IntToString(code) + ": " + Truncate(body, BodyLimit)
  }

  /** The classification in `send_cmd`: a 2xx status succeeds with "OK (<status>)",
      any other status fails with "HTTP <status>: " and the first 200 characters of
      the body, and a raised exception fails with its own text. */
  function Classify(resp: Response): (o: Outcome)
    ensures o.ok <==> resp.Status? && IsSuccess(resp.code)
    ensures resp.TransportError? ==> o.message == resp.error
    ensures resp.Status? && IsSuccess(resp.code) ==> o.message == SuccessMessage(resp.code)
    ensures resp.Status? && !IsSuccess(resp.code) ==> o.message == FailureMessage(resp.code, resp.body)
  {
    match resp
    case Status(code, body) =>
      if IsSuccess(code) then Outcome(true, SuccessMessage(code))
      else Outcome(false, FailureMessage(code, body))
    case TransportError(e) => Outcome(false, e)
  }

  /** Reads the status code back out of a message of either HTTP form. */
  function StatusOf(message: string): (code: Option<int>) {
    if |message| >= 5 && message[..4] == "OK (" && message[|message| - 1] == ')' then
      ParseInt(message[4..|message| - 1])
    else if |message| >= 5 && message[..5] == "HTTP " then
      var rest := message[5..];
      ParseInt(rest[..NumberSpan(rest)])
    else None
  }

  /** The status code is embedded in the message of every HTTP outcome, success or
      failure, and can be read back from it. */
  lemma StatusRecoverable(resp: Response)
    requires resp.Status?
    ensures StatusOf(Classify(resp).message) == Some(resp.code)
  {
    var code := resp.code;
    var digits := IntToString(code);
    var m := Classify(resp).message;
    ParseIntRoundTrip(code);
    if IsSuccess(code) {
      assert m == "OK (" + digits + ")";
      assert m[..4] == "OK (";
      assert m[4..|m| - 1] == digits;
    } else {
      var tail := ": " + Truncate(resp.body, BodyLimit);
      assert m == "HTTP " + (digits + tail);
      assert m[..4] != "OK (" by { assert m[0] == 'H'; }
      assert m[..5] == "HTTP ";
      var rest := m[5..];
      assert rest == digits + tail;
      NumberSpanOfInt(code, tail);
      assert rest[..NumberSpan(rest)] == digits;
    }
  }

  /** Two HTTP responses whose outcomes read the same carried the same status. */
  lemma OutcomeDistinguishesStatus(a: Response, b: Response)
    requires a.Status? && b.Status?
    requires Classify(a) == Classify(b)
    ensures a.code == b.code
  {
    StatusRecoverable(a);
    StatusRecoverable(b);
  }

  /** A failure message never carries more than 200 characters of the body, and
      carries the whole body when it is that short. */
  lemma FailureMessageBounded(code: int, body: string)
    ensures |FailureMessage(code, body)| == 7 + |IntToString(code)| + Min(|body|, BodyLimit)
    ensures |body| <= BodyLimit ==> FailureMessage(code, body) == "HTTP " + IntToString(code) + ": " + body
  {
  }

  /** A relay answering 204 to a `set_rgb` command yields success with "OK (204)". */
  lemma NoContentSucceeds(body: string)
    ensures Classify(Status(204, body)) == Outcome(true, "OK (204)")
  {
  }

  /** A server error fails, with 500 in its message. */
  lemma ServerErrorFails(body: string)
    ensures Classify(Status(500, body)).ok == false
    ensures Classify(Status(500, body)).message == "HTTP 500: " + Truncate(body, BodyLimit)
  {
  }
}
