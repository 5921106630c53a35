# aw-client-rust: request shaping and reply interpretation

This project models the deterministic core of `AwClient`, the asynchronous HTTP
client for the ActivityWatch time-tracking server (`aw-client-rust/src/lib.rs`),
and proves properties of it in Dafny.

An `AwClient` holds a base URL and an identity: the client name and the host name.
Each of its methods forms one HTTP request against the REST API under `/api/0/`.
It then reads the reply into a typed result. The model splits each method into those two halves:

- **Request shaping** (module `Requests`). A request is a value: its HTTP method
  (`verb`), the URL text, the query pairs appended to the URL, and the value
  serialized as the JSON body. URLs are formed by plain concatenation onto the
  base URL, exactly as the source's `format!` calls do. `get_events` appends its
  query pairs step by step, so it is a method with a query variable that grows by
  up to three appends. The optional `start`, `stop` and `limit` arguments are sent
  in that order, under the keys `start`, `end` and `limit`.
- **Reply interpretation** (module `Responses`). A reply is either a transport
  failure or a status with the body text. `get_bucket` and `get_event_count`
  reject a 4xx/5xx status before looking at the body. `get_buckets`, `get_events`
  and `get_info` decode the body whatever the status. The mutating calls succeed
  on any reply that arrives. `get_event_count` trims the body and parses it as an
  `i64`. A body that does not parse aborts the call with a panic, modelled as the
  outcome `Panic(cause)`, never as a count.
- **Client construction** (module `Client`): `AwClient::new` hands
  `http://{host}:{port}` to the URL parser and keeps the parsed URL, the name and
  the local host name.
- **Standard-library text conversions** (module `Numerals`): the `Display` of
  `u64` and `i64`, `str::trim` with the Unicode White_Space set, and
  `i64::from_str`. `i64::from_str` is modelled step by step: an optional sign, then
  digits read left to right. A non-digit gives `InvalidDigit`. A step past the
  range gives `PosOverflow` or `NegOverflow`, whichever error comes first.
- `Models` holds stand-ins for the `aw_models` records (`Bucket`, `Event`,
  `BucketMetadata`). `Strings` holds the text inverses used to read a URL back
  into its parts (`Between`, `LastIndexOf`). `Wrappers` holds `Option`, `Result`
  and the integer widths.

The base URL is an opaque string: its serialized form, whatever the URL parser
made of `http://{host}:{port}`. Nothing is added to it or stripped from it. So
when that serialization ends in `/`, every request URL carries `//` after it
(`Requests.TrailingSlashIsKept`).

## Model

| member | source | states |
|---|---|---|
| `Client.New` | aw-client-rust/src/lib.rs:38-51 | the client exists exactly when the URL parser accepts `http://{host}:{port}` and the HTTP client can be built; a URL error comes first; a failed build after a good parse is a build error; the client keeps the parsed URL, the given name and the local host name |
| `Client.BaseUrlText` | aw-client-rust/src/lib.rs:39 | the `http://{host}:{port}` text handed to the URL parser; what it contains is stated by `Client.BaseUrlTextSplits` |
| `Client.BaseUrlTextSplits` | aw-client-rust/src/lib.rs:39 | the text given to the URL parser splits at its last `:` into `http://` + host and a decimal text that reads back as the port |
| `Models.DefaultMetadata` | aw-client-rust/src/lib.rs:89 | default bucket metadata has no fields |
| `Requests.GetBucket` | aw-client-rust/src/lib.rs:53-54 | GET, no query, no body, on the bucket root followed by exactly the bucket name |
| `Requests.GetBuckets` | aw-client-rust/src/lib.rs:66-67 | GET on the bucket root itself, which is the bucket URL of the empty name |
| `Requests.CreateBucket` | aw-client-rust/src/lib.rs:71-73 | POST of the bucket as body to the bucket root followed by exactly the bucket's id |
| `Requests.SimpleBucket` | aw-client-rust/src/lib.rs:82-93 | the bucket record `create_bucket_simple` builds; its ten fields are stated by `Requests.CreateBucketSimpleShape` |
| `Requests.CreateBucketSimple` | aw-client-rust/src/lib.rs:77-94 | POST of a bucket to the bucket root followed by exactly the given name |
| `Requests.DeleteBucket` | aw-client-rust/src/lib.rs:97-101 | DELETE, no query, no body, on the bucket root followed by exactly the bucket name |
| `Requests.BucketOperationsShareUrl` | aw-client-rust/src/lib.rs:53-101 | `get_bucket`, `create_bucket` (through `bucket.id`) and `delete_bucket` all address `baseurl + "/api/0/buckets/" + id`; they differ only in GET, POST and DELETE |
| `Requests.CreateBucketTargetsItsId` | aw-client-rust/src/lib.rs:71-73 | the URL a bucket is posted to always names the id of the bucket in the body |
| `Requests.CreateBucketSimpleShape` | aw-client-rust/src/lib.rs:82-94 | `create_bucket_simple(n, t)` posts to the URL of `n` the bucket with id `n`, type `t`, the client's name and host name, empty data, default metadata, and no bid, events, created or last-updated time |
| `Requests.GetEvents` | aw-client-rust/src/lib.rs:103-129 | GET on the bucket's `/events` URL; key `start` holds the RFC 3339 text of `start` exactly when it is given; `end` holds that of `stop` exactly when it is given; `limit` holds the decimal text of `limit` exactly when it is given; no `stop` key; one pair per given argument, in the order start, end, limit; all absent gives no query |
| `Requests.InsertEvent` | aw-client-rust/src/lib.rs:131-136 | the request equals `insert_events` of the one-element list `[event]`: same URL, same body |
| `Requests.InsertEvents` | aw-client-rust/src/lib.rs:138-142 | POST of the whole event list to the bucket root followed by exactly the name and `/events` |
| `Requests.Heartbeat` | aw-client-rust/src/lib.rs:144-156 | POST of the single event, not a list, to the bucket root, the name, then `/heartbeat?pulsetime=` and the pulse-time text |
| `Requests.DeleteEvent` | aw-client-rust/src/lib.rs:158-165 | DELETE on the bucket root, the name, `/events/` and the decimal event id |
| `Requests.GetEventCount` | aw-client-rust/src/lib.rs:167-168 | GET on the bucket root, the name, then `/events/count` |
| `Requests.GetInfo` | aw-client-rust/src/lib.rs:184-185 | GET on the base URL followed by exactly `/api/0/info` |
| `Requests.EventRefOfShape` | aw-client-rust/src/lib.rs:159-162 | a URL of the event-URL shape reads back into its bucket name and the number after its last `/`, if that text parses |
| `Requests.DeleteEventUrlReadsBack` | aw-client-rust/src/lib.rs:158-162 | the `delete_event(b, k)` URL reads back as exactly `(b, k)`, for every bucket name (slashes included) and every `i64` id (negative ones included) |
| `Requests.DeleteEventUrlInjective` | aw-client-rust/src/lib.rs:158-162 | two `delete_event` URLs are equal only for the same bucket and the same id |
| `Requests.CountUrlNamesNoEvent` | aw-client-rust/src/lib.rs:167-168 | the event-count URL does not read as an event URL |
| `Requests.CountUrlIsNoEventUrl` | aw-client-rust/src/lib.rs:158-168 | no `delete_event` URL equals any `get_event_count` URL |
| `Requests.TrailingSlashIsKept` | aw-client-rust/src/lib.rs:54 | a base URL ending in `/` is kept as it is, giving `//` before `api` |
| `Responses.Decoded` | aw-client-rust/src/lib.rs:66-69 | `get_buckets`, `get_events`, `get_info`: a value exactly when a reply arrived and its body decodes, whatever the status; that value is the decoded body; a transport failure is `Transport`, a body that does not decode is `Decode` |
| `Responses.GetBucket` | aw-client-rust/src/lib.rs:53-64 | a 4xx/5xx status is `HttpStatus(status)`; a value exactly when the status is not 4xx/5xx and the body decodes; a transport failure is `Transport`; an undecodable body past the status check is `Decode` |
| `Responses.Acknowledged` | aw-client-rust/src/lib.rs:71-75 | the mutating calls succeed exactly when a reply arrived, whatever its status; a transport failure is `Transport` |
| `Responses.IsErrorStatus` | aw-client-rust/src/lib.rs:60 | the statuses `error_for_status` rejects: client errors 400-499 and server errors 500-599, nothing else; used by `Responses.GetBucket` and `Responses.GetEventCount` |
| `Responses.GetBucketIsGatedDecoding` | aw-client-rust/src/lib.rs:55-62 | `get_bucket` is the decoding of `get_buckets`/`get_info` placed behind the status check |
| `Responses.GetBucketErrorIgnoresBody` | aw-client-rust/src/lib.rs:60 | on a 4xx/5xx status, `get_bucket`'s result does not depend on the decoder: the body is never decoded |
| `Responses.NotFoundDiffers` | aw-client-rust/src/lib.rs:53-69 | a 404 whose body decodes is an error for `get_bucket` and a value for the unchecked calls |
| `Responses.GetEventCount` | aw-client-rust/src/lib.rs:167-182 | a transport failure or a 4xx/5xx status is an error before parsing; a panic happens only past the status check |
| `Responses.GetEventCountSpec` | aw-client-rust/src/lib.rs:174-181 | past the status check, the result is `Count(v)` exactly when the trimmed body is an optional sign and digits whose value `v` fits in `i64`; every other body panics |
| `Responses.GetEventCountReadsRendered` | aw-client-rust/src/lib.rs:175-181 | a count written in decimal, with any whitespace around it, is read back as that count |
| `Responses.CountOfTrimmed` | aw-client-rust/src/lib.rs:177-178 | a body whose trimmed text parses gives that count |
| `Responses.PanicOfTrimmed` | aw-client-rust/src/lib.rs:177-179 | a body whose trimmed text does not parse panics with the parser's reason |
| `Responses.PanicOfBare` | aw-client-rust/src/lib.rs:177-179 | a body with no whitespace at its ends that does not parse panics with the parser's reason |
| `Responses.GetEventCountPaddedExample` | aw-client-rust/src/lib.rs:177-178 | `" 42\n"` gives 42 |
| `Responses.GetEventCountRejectExamples` | aw-client-rust/src/lib.rs:177-179 | `"abc"`, `""` and `"-"` panic |
| `Responses.GetEventCountNotFoundExample` | aw-client-rust/src/lib.rs:174 | a 404 fails even when its body is a number |
| `Responses.GetEventCountTooLarge` | aw-client-rust/src/lib.rs:177-179 | a count past `i64::MAX` panics with `PosOverflow` |
| `Responses.GetEventCountTooSmall` | aw-client-rust/src/lib.rs:177-179 | a negative count past `i64::MIN` panics with `NegOverflow` |
| `Numerals.NatText` | aw-client-rust/src/lib.rs:126 | `u64` `Display`: one or more digits, no leading zero |
| `Numerals.NatTextValue` | aw-client-rust/src/lib.rs:126 | the digits written for `n` have the value `n` |
| `Numerals.IntText` | aw-client-rust/src/lib.rs:159-162 | `i64` `Display`: starts with `-` exactly when negative, digits everywhere else, at least one digit, no leading zero |
| `Numerals.IntTextRoundTrip` | aw-client-rust/src/lib.rs:159-162 | `i64::from_str` reads back what `i64`'s `Display` writes, for every `i64` |
| `Numerals.IsWhitespace` | aw-client-rust/src/lib.rs:177 | `char::is_whitespace` as `trim` uses it: the Unicode White_Space code points |
| `Numerals.TrimStart` | aw-client-rust/src/lib.rs:177 | keeps a suffix; what it drops is all whitespace; what it keeps does not start with whitespace |
| `Numerals.TrimEnd` | aw-client-rust/src/lib.rs:177 | keeps a prefix; what it drops is all whitespace; what it keeps does not end with whitespace |
| `Numerals.Trim` | aw-client-rust/src/lib.rs:177 | the trimmed text is no longer than the input and has no whitespace at either end |
| `Numerals.TrimPadded` | aw-client-rust/src/lib.rs:177 | trimming removes exactly the whitespace around a text whose ends are not whitespace |
| `Numerals.TrimExample` | aw-client-rust/src/lib.rs:177 | `" 42\n"` trims to `"42"` |
| `Numerals.AccumulatePos` | aw-client-rust/src/lib.rs:177 | the digit loop succeeds only on all-digit text and fails only with `InvalidDigit` or `PosOverflow` |
| `Numerals.AccumulateNeg` | aw-client-rust/src/lib.rs:177 | the digit loop after `-` succeeds only on all-digit text and fails only with `InvalidDigit` or `NegOverflow` |
| `Numerals.AccumulatePosValue` | aw-client-rust/src/lib.rs:177 | on digits, the loop gives the positional value, or `PosOverflow` when that value passes `i64::MAX` |
| `Numerals.AccumulateNegValue` | aw-client-rust/src/lib.rs:177 | on digits after `-`, the loop gives the negated value, or `NegOverflow` when it passes `i64::MIN` |
| `Numerals.ParseI64` | aw-client-rust/src/lib.rs:177 | `i64::from_str`: `Empty` exactly on the empty text; success only on a numeral; the full characterization is `Numerals.ParseI64Spec` |
| `Numerals.ParseI64Spec` | aw-client-rust/src/lib.rs:177 | `i64::from_str` succeeds exactly on an optional sign followed by one or more digits whose value fits in `i64`, and returns that value |
| `Numerals.ParseI64SpecPlus` | aw-client-rust/src/lib.rs:177 | after a `+`, parsing succeeds exactly on digits whose value is at most `i64::MAX`, giving that value |
| `Numerals.ParseI64SpecMinus` | aw-client-rust/src/lib.rs:177 | after a `-`, parsing succeeds exactly on digits whose negated value is at least `i64::MIN`, giving that value |
| `Numerals.ParseI64SpecUnsigned` | aw-client-rust/src/lib.rs:177 | without a sign, parsing succeeds exactly on digits whose value fits in `i64`; the empty text and a lone sign are refused |
| `Numerals.ParseI64OutOfRange` | aw-client-rust/src/lib.rs:177-179 | digit texts past `i64::MAX`, and negated ones past `i64::MIN`, are refused as overflows |
| `Numerals.ParseI64AcceptExamples` | aw-client-rust/src/lib.rs:177 | `"42"` and `"+42"` give 42, `"-7"` gives -7 |
| `Numerals.ParseI64RejectExamples` | aw-client-rust/src/lib.rs:177-179 | `"abc"`, `"4 2"` and `"count"` are invalid digits; `""` is empty; `"-"` alone is an invalid digit |

## Left out

- The HTTP transport and async execution are left out. This covers `reqwest::Client`, `.send().await` and the tokio runtime. A reply is an input. A body that cannot be read counts as a transport failure. The 120-second timeout at lib.rs:41-43 is part of building the transport; only whether that build succeeds is modelled, as the `transportBuilt` argument of `Client.New`.
- JSON serialization and deserialization through serde are left out. Request bodies are kept as the values that would be serialized. Decoding is the `decode` argument, where `None` stands for a decode error.
- The `aw_models` crate is not part of this model. `Bucket` and `Event` carry the fields the client sets or passes through. `BucketMetadata` is kept as an opaque field map whose default is empty. `Info` is any type the decoder produces.
- `Url::parse` validation and normalization are left out. The base URL is the parser's output string, taken from the `parseUrl` argument of `Client.New`. The parse-and-unwrap at lib.rs:110-113 becomes the `urlParses` precondition of `Requests.GetEvents`. The URL the parser would re-serialize is not modelled.
- The form-urlencoding done by `query_pairs_mut` is left out. Query pairs are kept unencoded, in the order they are appended.
- `chrono`'s `to_rfc3339` (lib.rs:118, 122) is the `rfc3339` argument of `Requests.GetEvents`.
- `heartbeat`'s `f64` pulse time (lib.rs:148-152) is given as its `Display` text. Floating-point formatting is not modelled.
- `get_hostname` (lib.rs:33-35) is an operating-system call. Its result is the `localHostname` argument of `Client.New`.
- The `Debug` implementation (lib.rs:27-31) is left out.
- The `blocking` module (lib.rs:8) is not part of this model.
- Charset handling in `.text()` is left out. The count body is given as a string.
- `Requests.CreateBucketSimple`: its own contract names only the method, the kind of body and the target URL. The bucket's fields are stated by `Requests.CreateBucketSimpleShape`.
