/**
 * What each `AwClient` method makes of the reply to its request. The transport
 * is not modelled: a reply is either a transport failure or a status with the
 * whole body text. JSON decoding is a parameter (`decode`), giving `None` when
 * the body does not decode into the expected type.
 */
module Responses {
  import opened Wrappers
  import opened Numerals

  /** An HTTP status code as the HTTP library admits it (three digits). */
  type StatusCode = n: int | 100 <= n <= 999 witness 200

  datatype Reply = TransportFailure | Response(status: StatusCode, body: string)

  /** The kinds of `reqwest::Error` the client passes on. */
  datatype RequestError = Transport | HttpStatus(code: StatusCode) | Decode

  /** `error_for_status` rejects client errors (4xx) and server errors (5xx), nothing else. */
  predicate IsErrorStatus(status: StatusCode) {
    400 <= status <= 599
  }

  /** The body is decoded whatever the status: `get_buckets`, `get_events`, `get_info`. */
  function Decoded<T>(reply: Reply, decode: string -> Option<T>): (r: Result<T, RequestError>)
    ensures r.Ok? <==> reply.Response? && decode(reply.body).Some?
    ensures r.Ok? ==> r.value == decode(reply.body).value
    ensures reply.TransportFailure? ==> r == Err(Transport)
    ensures reply.Response? && decode(reply.body).None? ==> r == Err(Decode)
  {
    match reply
    case TransportFailure => Err(Transport)
    case Response(_, body) =>
      match decode(body)
      case None => Err(Decode)
      case Some(v) => Ok(v)
  }

  /** `get_bucket`: a 4xx or 5xx status is an error before the body is looked at. */
  function GetBucket<T>(reply: Reply, decode: string -> Option<T>): (r: Result<T, RequestError>)
    ensures reply.Response? && IsErrorStatus(reply.status) ==> r == Err(HttpStatus(reply.status))
    ensures r.Ok? <==> reply.Response? && !IsErrorStatus(reply.status) && decode(reply.body).Some?
    ensures r.Ok? ==> r.value == decode(reply.body).value
    ensures reply.TransportFailure? ==> r == Err(Transport)
    ensures reply.Response? && !IsErrorStatus(reply.status) && decode(reply.body).None? ==> r == Err(Decode)
  {
    match reply
    case TransportFailure => Err(Transport)
    case Response(status, body) =>
      if IsErrorStatus(status) then Err(HttpStatus(status))
      else
        match decode(body)
        case None => Err(Decode)
        case Some(v) => Ok(v)
  }

  /**
   * `create_bucket`, `delete_bucket`, `insert_event(s)`, `heartbeat`,
   * `delete_event`: only a transport failure is an error; the status is ignored.
   */
  function Acknowledged(reply: Reply): (r: Result<(), RequestError>)
    ensures r.Ok? <==> reply.Response?
    ensures reply.TransportFailure? ==> r == Err(Transport)
  {
    match reply
    case TransportFailure => Err(Transport)
    case Response(_, _) => Ok(())
  }

  /** `get_bucket` is the unchecked decoding behind a status gate. */
  lemma GetBucketIsGatedDecoding<T>(reply: Reply, decode: string -> Option<T>)
    ensures GetBucket(reply, decode)
            == if reply.Response? && IsErrorStatus(reply.status) then Err(HttpStatus(reply.status))
               else Decoded(reply, decode)
  {
  }

  /** On an error status, `get_bucket`'s result does not depend on the decoder: the body is never decoded. */
  lemma GetBucketErrorIgnoresBody<T>(status: StatusCode, body: string, d1: string -> Option<T>, d2: string -> Option<T>)
    requires IsErrorStatus(status)
    ensures GetBucket(Response(status, body), d1) == GetBucket(Response(status, body), d2)
  {
  }

  /** A 404 whose body happens to decode is an error for `get_bucket` but a value for the unchecked calls. */
  lemma NotFoundDiffers<T>(body: string, decode: string -> Option<T>)
    requires decode(body).Some?
    ensures GetBucket(Response(404, body), decode) == Err(HttpStatus(404))
    ensures Decoded(Response(404, body), decode) == Ok(decode(body).value)
  {
  }

  /** The outcome of `get_event_count`: a count, an error, or a panic over an unreadable body. */
  datatype CountOutcome = Count(n: i64) | Failed(error: RequestError) | Panic(cause: IntErrorKind)

  /**
   * `get_event_count`: the status gate, then the trimmed body parsed as an `i64`;
   * a body that does not parse aborts with a panic instead of giving a count.
   */
  function GetEventCount(reply: Reply): (r: CountOutcome)
    ensures reply.TransportFailure? ==> r == Failed(Transport)
    ensures reply.Response? && IsErrorStatus(reply.status) ==> r == Failed(HttpStatus(reply.status))
    ensures r.Panic? ==> reply.Response? && !IsErrorStatus(reply.status)
  {
    match reply
    case TransportFailure => Failed(Transport)
    case Response(status, body) =>
      if IsErrorStatus(status) then Failed(HttpStatus(status))
      else
        match ParseI64(Trim(body))
        case Ok(count) => Count(count)
        case Err(kind) => Panic(kind)
  }

  /**
   * Past the status gate, `get_event_count` gives `v` exactly when the trimmed body
   * is an optional sign and one or more digits whose value `v` fits in `i64`;
   * every other body panics, never a default count.
   */
  lemma GetEventCountSpec(status: StatusCode, body: string)
    requires !IsErrorStatus(status)
    ensures var r := GetEventCount(Response(status, body));
      var t := Trim(body);
      && (r.Count? <==> IsNumeral(t) && MIN_I64 <= NumeralValue(t) <= MAX_I64)
      && (r.Count? ==> r.n == NumeralValue(t))
      && (!r.Count? ==> r.Panic?)
  {
    ParseI64Spec(Trim(body));
  }

  /**
   * A count the server writes in decimal, with any whitespace around it, is read
   * back as that count.
   */
  lemma GetEventCountReadsRendered(status: StatusCode, pre: string, v: i64, post: string)
    requires !IsErrorStatus(status)
    requires AllWhitespace(pre) && AllWhitespace(post)
    ensures GetEventCount(Response(status, pre + IntText(v) + post)) == Count(v)
  {
    var t := IntText(v);
    assert !IsWhitespace(t[0]) && !IsWhitespace(t[|t| - 1]) by {
      assert t[0] == '-' || IsDigit(t[0]);
      assert |t| - 1 == 0 || IsDigit(t[|t| - 1]);
    }
    TrimPadded(pre, t, post);
    IntTextRoundTrip(v);
  }

  /** A body whose trimmed text `i64::from_str` refuses panics with the reason it gives. */
  lemma PanicOfTrimmed(status: StatusCode, body: string, t: string, cause: IntErrorKind)
    requires !IsErrorStatus(status) && Trim(body) == t && ParseI64(t) == Err(cause)
    ensures GetEventCount(Response(status, body)) == Panic(cause)
  {
  }

  /** A body whose trimmed text `i64::from_str` accepts gives that count. */
  lemma CountOfTrimmed(status: StatusCode, body: string, t: string, v: i64)
    requires !IsErrorStatus(status) && Trim(body) == t && ParseI64(t) == Ok(v)
    ensures GetEventCount(Response(status, body)) == Count(v)
  {
  }

  /** `" 42\n"` gives 42. */
  lemma GetEventCountPaddedExample()
    ensures GetEventCount(Response(200, " 42\n")) == Count(42)
  {
    TrimExample();
    ParseI64AcceptExamples();
    CountOfTrimmed(200, " 42\n", "42", 42);
  }

  /** A body with no whitespace at its ends that `i64::from_str` refuses panics with the reason it gives. */
  lemma PanicOfBare(status: StatusCode, body: string, cause: IntErrorKind)
    requires !IsErrorStatus(status) && ParseI64(body) == Err(cause)
    requires body != [] ==> !IsWhitespace(body[0]) && !IsWhitespace(body[|body| - 1])
    ensures GetEventCount(Response(status, body)) == Panic(cause)
  {
    assert body == "" + body + "";
    TrimPadded("", body, "");
    PanicOfTrimmed(status, body, body, cause);
  }

  /** A word, the empty body and a lone sign each panic; nothing of them becomes a count. */
  lemma GetEventCountRejectExamples()
    ensures GetEventCount(Response(200, "abc")) == Panic(InvalidDigit)
    ensures GetEventCount(Response(200, "")) == Panic(Empty)
    ensures GetEventCount(Response(200, "-")) == Panic(InvalidDigit)
  {
    ParseI64RejectExamples();
    PanicOfBare(200, "abc", InvalidDigit);
    PanicOfBare(200, "", Empty);
    PanicOfBare(200, "-", InvalidDigit);
  }

  /** A 404 fails before the body is read, even when the body is a number. */
  lemma GetEventCountNotFoundExample()
    ensures GetEventCount(Response(404, "42")) == Failed(HttpStatus(404))
  {
  }

  /** A count past `i64::MAX` is no count: it panics with an overflow. */
  lemma GetEventCountTooLarge(status: StatusCode, n: nat)
    requires !IsErrorStatus(status) && n > MAX_I64
    ensures GetEventCount(Response(status, NatText(n))) == Panic(PosOverflow)
  {
    var ds := NatText(n);
    assert IsDigit(ds[0]) && IsDigit(ds[|ds| - 1]);
    ParseI64OutOfRange(n);
    PanicOfBare(status, ds, PosOverflow);
  }

  /** A negative count past `i64::MIN` is no count: it panics with an overflow. */
  lemma GetEventCountTooSmall(status: StatusCode, n: nat)
    requires !IsErrorStatus(status) && n > -MIN_I64
    ensures GetEventCount(Response(status, "-" + NatText(n))) == Panic(NegOverflow)
  {
    var ds := NatText(n);
    var neg := "-" + ds;
    assert neg[0] == '-' && neg[|neg| - 1] == ds[|ds| - 1] && IsDigit(ds[|ds| - 1]);
    ParseI64OutOfRange(n);
    PanicOfBare(status, neg, NegOverflow);
  }
}
