/**
 * The request each `AwClient` method sends: HTTP method, URL, the query pairs
 * appended to it, and the JSON body (as the value that is serialized). Every
 * URL is formed by plain concatenation onto the base URL, exactly as the
 * source's `format!` calls do: no slash is added or removed.
 */
module Requests {
  import opened Wrappers
  import opened Numerals
  import opened Strings
  import opened Models
  import opened Client

  datatype Method = Get | Post | Delete

  /** The value serialized as the JSON body. */
  datatype Payload =
    | NoPayload
    | BucketPayload(bucket: Bucket)
    | EventListPayload(events: seq<Event>)
    | EventPayload(event: Event)

  /** A `(key, value)` pair appended with `query_pairs_mut().append_pair`, before form-encoding. */
  type QueryPair = (string, string)

  datatype Request = Request(verb: Method, url: string, query: seq<QueryPair>, payload: Payload)

  /** Where the bucket collection lives: every bucket URL starts here. */
  function BucketsRoot(c: AwClient): string {
    c.baseurl + "/api/0/buckets/"
  }

  // ---------------------------------------------------------------------------
  // Buckets

  /** `get_bucket`: GET on the bucket's own URL. */
  function GetBucket(c: AwClient, bucketname: string): (req: Request)
    ensures req.verb == Get && req.query == [] && req.payload == NoPayload
    ensures Between(req.url, BucketsRoot(c), "") == Some(bucketname)
  {
    var url := c.baseurl + "/api/0/buckets/" + bucketname;
    assert Between(url, BucketsRoot(c), "") == Some(bucketname) by {
      assert url == BucketsRoot(c) + bucketname + "";
      BetweenOf(BucketsRoot(c), bucketname, "");
    }
    Request(Get, url, [], NoPayload)
  }

  /** `get_buckets`: GET on the collection, which is the bucket URL of the empty name. */
  function GetBuckets(c: AwClient): (req: Request)
    ensures req.verb == Get && req.query == [] && req.payload == NoPayload
    ensures Between(req.url, BucketsRoot(c), "") == Some("")
  {
    Request(Get, c.baseurl + "/api/0/buckets/", [], NoPayload)
  }

  /** `create_bucket`: POST of the bucket to the URL named by the bucket's own id. */
  function CreateBucket(c: AwClient, bucket: Bucket): (req: Request)
    ensures req.verb == Post && req.query == [] && req.payload == BucketPayload(bucket)
    ensures Between(req.url, BucketsRoot(c), "") == Some(bucket.id)
  {
    var url := c.baseurl + "/api/0/buckets/" + bucket.id;
    assert Between(url, BucketsRoot(c), "") == Some(bucket.id) by {
      assert url == BucketsRoot(c) + bucket.id + "";
      BetweenOf(BucketsRoot(c), bucket.id, "");
    }
    Request(Post, url, [], BucketPayload(bucket))
  }

  /** The bucket `create_bucket_simple` builds from a name, a type and the client's identity. */
  function SimpleBucket(c: AwClient, bucketname: string, buckettype: string): Bucket {
    Bucket(
      bid := None,
      id := bucketname,
      client := c.name,
      bucketType := buckettype,
      hostname := c.hostname,
      data := map[],
      metadata := DefaultMetadata(),
      events := None,
      created := None,
      lastUpdated := None)
  }

  /** `create_bucket_simple`: `create_bucket` of the bucket built from the name and the type. */
  function CreateBucketSimple(c: AwClient, bucketname: string, buckettype: string): (req: Request)
    ensures req.verb == Post && req.payload.BucketPayload?
    ensures Between(req.url, BucketsRoot(c), "") == Some(bucketname)
  {
    CreateBucket(c, SimpleBucket(c, bucketname, buckettype))
  }

  /** `delete_bucket`: DELETE on the bucket's own URL. */
  function DeleteBucket(c: AwClient, bucketname: string): (req: Request)
    ensures req.verb == Delete && req.query == [] && req.payload == NoPayload
    ensures Between(req.url, BucketsRoot(c), "") == Some(bucketname)
  {
    var url := c.baseurl + "/api/0/buckets/" + bucketname;
    assert Between(url, BucketsRoot(c), "") == Some(bucketname) by {
      assert url == BucketsRoot(c) + bucketname + "";
      BetweenOf(BucketsRoot(c), bucketname, "");
    }
    Request(Delete, url, [], NoPayload)
  }

  /** Fetching, creating and deleting a bucket all address the same URL; only the HTTP method differs. */
  lemma BucketOperationsShareUrl(c: AwClient, bucketname: string, bucket: Bucket)
    requires bucket.id == bucketname
    ensures GetBucket(c, bucketname).url == CreateBucket(c, bucket).url == DeleteBucket(c, bucketname).url
    ensures GetBucket(c, bucketname).url == BucketsRoot(c) + bucketname
    ensures GetBucket(c, bucketname).verb == Get
    ensures CreateBucket(c, bucket).verb == Post
    ensures DeleteBucket(c, bucketname).verb == Delete
  {
  }

  /** A bucket posted by `create_bucket` is always posted to the URL of its own id. */
  lemma CreateBucketTargetsItsId(c: AwClient, bucket: Bucket)
    ensures var req := CreateBucket(c, bucket);
      req.payload.BucketPayload? && Between(req.url, BucketsRoot(c), "") == Some(req.payload.bucket.id)
  {
  }

  /**
   * `create_bucket_simple(n, t)` posts, to the URL of `n`, the bucket with id `n`,
   * type `t`, the client's name and host name, no data, default metadata, and
   * no bid, events, creation or update time.
   */
  lemma CreateBucketSimpleShape(c: AwClient, bucketname: string, buckettype: string)
    ensures var req := CreateBucketSimple(c, bucketname, buckettype);
      && req.url == GetBucket(c, bucketname).url
      && req.payload.BucketPayload?
      && var b := req.payload.bucket;
      && b.id == bucketname && b.bucketType == buckettype
      && b.client == c.name && b.hostname == c.hostname
      && |b.data| == 0 && b.metadata == DefaultMetadata()
      && b.bid.None? && b.events.None? && b.created.None? && b.lastUpdated.None?
  {
  }

  // ---------------------------------------------------------------------------
  // Events

  /** The first value appended under `key`, if any. */
  function Lookup(query: seq<QueryPair>, key: string): Option<string>
    decreases |query|
  {
    if query == [] then None
    else if query[0].0 == key then Some(query[0].1)
    else Lookup(query[1..], key)
  }

  /** Appending one pair leaves earlier lookups alone and answers for its key when it had no value yet. */
  lemma {:induction false} LookupAppend(query: seq<QueryPair>, k: string, v: string, key: string)
    ensures Lookup(query + [(k, v)], key)
            == if Lookup(query, key).Some? then Lookup(query, key)
               else if k == key then Some(v) else None
    decreases |query|
  {
    if query != [] {
      assert (query + [(k, v)])[1..] == query[1..] + [(k, v)];
      LookupAppend(query[1..], k, v, key);
    }
  }

  /** The position of each `get_events` query key in the order the source appends them. */
  function KeyRank(key: string): nat {
    if key == "start" then 0
    else if key == "end" then 1
    else if key == "limit" then 2
    else 3
  }

  function Present<T>(o: Option<T>): nat {
    if o.Some? then 1 else 0
  }

  /**
   * `get_events`: GET on the bucket's events URL, appending `start`, then `end`
   * (the `stop` argument), then `limit`, each only when it is given. The
   * timestamps are written by `rfc3339`, the limit as decimal text.
   * `urlParses` is the URL parser's verdict, which the source unwraps.
   */
  method GetEvents(
    c: AwClient, bucketname: string,
    start: Option<Timestamp>, stop: Option<Timestamp>, limit: Option<u64>,
    rfc3339: Timestamp -> string, urlParses: string -> bool) returns (req: Request)
    requires urlParses(c.baseurl + "/api/0/buckets/" + bucketname + "/events")
    ensures req.verb == Get && req.payload == NoPayload
    ensures Between(req.url, BucketsRoot(c), "/events") == Some(bucketname)
    ensures Lookup(req.query, "start") == if start.Some? then Some(rfc3339(start.value)) else None
    ensures Lookup(req.query, "end") == if stop.Some? then Some(rfc3339(stop.value)) else None
    ensures Lookup(req.query, "limit") == if limit.Some? then Some(NatText(limit.value)) else None
    ensures Lookup(req.query, "stop") == None
    ensures |req.query| == Present(start) + Present(stop) + Present(limit)
    ensures forall i :: 0 <= i < |req.query| ==> KeyRank(req.query[i].0) < 3
    ensures forall i, j :: 0 <= i < j < |req.query| ==> KeyRank(req.query[i].0) < KeyRank(req.query[j].0)
    ensures start.None? && stop.None? && limit.None? ==> req.query == []
  {
    var url := c.baseurl + "/api/0/buckets/" + bucketname + "/events";
    BetweenOf(BucketsRoot(c), bucketname, "/events");
    var query: seq<QueryPair> := [];
    if start.Some? {
      LookupAppend(query, "start", rfc3339(start.value), "start");
      LookupAppend(query, "start", rfc3339(start.value), "end");
      LookupAppend(query, "start", rfc3339(start.value), "limit");
      LookupAppend(query, "start", rfc3339(start.value), "stop");
      query := query + [("start", rfc3339(start.value))];
    }
    if stop.Some? {
      LookupAppend(query, "end", rfc3339(stop.value), "start");
      LookupAppend(query, "end", rfc3339(stop.value), "end");
      LookupAppend(query, "end", rfc3339(stop.value), "limit");
      LookupAppend(query, "end", rfc3339(stop.value), "stop");
      query := query + [("end", rfc3339(stop.value))];
    }
    if limit.Some? {
      LookupAppend(query, "limit", NatText(limit.value), "start");
      LookupAppend(query, "limit", NatText(limit.value), "end");
      LookupAppend(query, "limit", NatText(limit.value), "limit");
      LookupAppend(query, "limit", NatText(limit.value), "stop");
      query := query + [("limit", NatText(limit.value))];
    }
    req := Request(Get, url, query, NoPayload);
  }

  /** `insert_event`: POST of a one-element event list to the bucket's events URL. */
  function InsertEvent(c: AwClient, bucketname: string, event: Event): (req: Request)
    ensures req == InsertEvents(c, bucketname, [event])
    ensures req.payload.EventListPayload? && req.payload.events == [event]
  {
    Request(Post, c.baseurl + "/api/0/buckets/" + bucketname + "/events", [], EventListPayload([event]))
  }

  /** `insert_events`: POST of the whole event list to the bucket's events URL. */
  function InsertEvents(c: AwClient, bucketname: string, events: seq<Event>): (req: Request)
    ensures req.verb == Post && req.query == [] && req.payload == EventListPayload(events)
    ensures Between(req.url, BucketsRoot(c), "/events") == Some(bucketname)
  {
    Request(Post, c.baseurl + "/api/0/buckets/" + bucketname + "/events", [], EventListPayload(events))
  }

  /**
   * `heartbeat`: POST of the single event (not a list) to the bucket's heartbeat
   * URL, whose query is written into the URL text. `pulsetimeText` is the
   * `Display` of the `f64` pulse time, which is not modelled.
   */
  function Heartbeat(c: AwClient, bucketname: string, event: Event, pulsetimeText: string): (req: Request)
    ensures req.verb == Post && req.query == [] && req.payload == EventPayload(event)
    ensures Between(req.url, BucketsRoot(c), "/heartbeat?pulsetime=" + pulsetimeText) == Some(bucketname)
  {
    var url := c.baseurl + "/api/0/buckets/" + bucketname + "/heartbeat?pulsetime=" + pulsetimeText;
    assert Between(url, BucketsRoot(c), "/heartbeat?pulsetime=" + pulsetimeText) == Some(bucketname) by {
      assert url == BucketsRoot(c) + bucketname + ("/heartbeat?pulsetime=" + pulsetimeText);
      BetweenOf(BucketsRoot(c), bucketname, "/heartbeat?pulsetime=" + pulsetimeText);
    }
    Request(Post, url, [], EventPayload(event))
  }

  /** `delete_event`: DELETE on the bucket's events URL followed by '/' and the decimal event id. */
  function DeleteEvent(c: AwClient, bucketname: string, eventId: i64): (req: Request)
    ensures req.verb == Delete && req.query == [] && req.payload == NoPayload
    ensures Between(req.url, BucketsRoot(c), "/events/" + IntText(eventId)) == Some(bucketname)
  {
    var url := c.baseurl + "/api/0/buckets/" + bucketname + "/events/" + IntText(eventId);
    assert Between(url, BucketsRoot(c), "/events/" + IntText(eventId)) == Some(bucketname) by {
      assert url == BucketsRoot(c) + bucketname + ("/events/" + IntText(eventId));
      BetweenOf(BucketsRoot(c), bucketname, "/events/" + IntText(eventId));
    }
    Request(Delete, url, [], NoPayload)
  }

  /** `get_event_count`: GET on the bucket's events URL followed by `/count`. */
  function GetEventCount(c: AwClient, bucketname: string): (req: Request)
    ensures req.verb == Get && req.query == [] && req.payload == NoPayload
    ensures Between(req.url, BucketsRoot(c), "/events/count") == Some(bucketname)
  {
    Request(Get, c.baseurl + "/api/0/buckets/" + bucketname + "/events/count", [], NoPayload)
  }

  /** `get_info`: GET on the server's info URL. */
  function GetInfo(c: AwClient): (req: Request)
    ensures req.verb == Get && req.query == [] && req.payload == NoPayload
    ensures Between(req.url, c.baseurl, "") == Some("/api/0/info")
  {
    var url := c.baseurl + "/api/0/info";
    assert Between(url, c.baseurl, "") == Some("/api/0/info") by {
      assert url == c.baseurl + "/api/0/info" + "";
      BetweenOf(c.baseurl, "/api/0/info", "");
    }
    Request(Get, url, [], NoPayload)
  }

  /**
   * Reads an event URL back into its bucket name and event id: the id is the
   * text after the last '/', the bucket name what lies between the bucket root
   * and `/events/`.
   */
  function EventRefOf(c: AwClient, url: string): Option<(string, i64)> {
    match Between(url, BucketsRoot(c), "")
    case None => None
    case Some(rest) =>
      match LastIndexOf(rest, '/')
      case None => None
      case Some(i) =>
        match (Between(rest[..i + 1], "", "/events/"), ParseI64(rest[i + 1..]))
        case (Some(bucketname), Ok(eventId)) => Some((bucketname, eventId))
        case _ => None
  }

  /** A URL of the shape of an event URL reads back into its bucket name and the number after the last '/'. */
  lemma EventRefOfShape(c: AwClient, bucketname: string, tail: string)
    requires '/' !in tail
    ensures EventRefOf(c, BucketsRoot(c) + bucketname + "/events/" + tail)
            == if ParseI64(tail).Ok? then Some((bucketname, ParseI64(tail).value)) else None
  {
    var rest := bucketname + "/events/" + tail;
    assert BucketsRoot(c) + bucketname + "/events/" + tail == BucketsRoot(c) + rest + "";
    BetweenOf(BucketsRoot(c), rest, "");
    assert rest == (bucketname + "/events") + ['/'] + tail;
    LastIndexOfSplit(bucketname + "/events", '/', tail);
    var i := |bucketname + "/events"|;
    assert rest[..i + 1] == "" + bucketname + "/events/";
    BetweenOf("", bucketname, "/events/");
    assert rest[i + 1..] == tail;
  }

  /**
   * The URL of `delete_event(b, k)` names `b` and `k` and nothing else, for every
   * bucket name (slashes included) and every id (negative ones included).
   */
  lemma DeleteEventUrlReadsBack(c: AwClient, bucketname: string, eventId: i64)
    ensures EventRefOf(c, DeleteEvent(c, bucketname, eventId).url) == Some((bucketname, eventId))
  {
    var idText := IntText(eventId);
    assert '/' !in idText by {
      assert forall i :: 0 <= i < |idText| ==> idText[i] == '-' || IsDigit(idText[i]);
    }
    assert DeleteEvent(c, bucketname, eventId).url == BucketsRoot(c) + bucketname + "/events/" + idText;
    EventRefOfShape(c, bucketname, idText);
    IntTextRoundTrip(eventId);
  }

  /** Distinct buckets or ids give distinct `delete_event` URLs. */
  lemma DeleteEventUrlInjective(c: AwClient, b1: string, k1: i64, b2: string, k2: i64)
    requires DeleteEvent(c, b1, k1).url == DeleteEvent(c, b2, k2).url
    ensures b1 == b2 && k1 == k2
  {
    DeleteEventUrlReadsBack(c, b1, k1);
    DeleteEventUrlReadsBack(c, b2, k2);
  }

  /** The event-count URL of a bucket is never the URL of an event, whatever the bucket and id. */
  lemma CountUrlIsNoEventUrl(c: AwClient, bucketname: string, other: string, eventId: i64)
    ensures GetEventCount(c, bucketname).url != DeleteEvent(c, other, eventId).url
  {
    CountUrlNamesNoEvent(c, bucketname);
    DeleteEventUrlReadsBack(c, other, eventId);
  }

  /** The event-count URL does not read as an event URL: its last segment is no number. */
  lemma CountUrlNamesNoEvent(c: AwClient, bucketname: string)
    ensures EventRefOf(c, GetEventCount(c, bucketname).url).None?
  {
    assert GetEventCount(c, bucketname).url == BucketsRoot(c) + bucketname + "/events/" + "count";
    ParseI64RejectExamples();
    EventRefOfShape(c, bucketname, "count");
  }

  /**
   * Nothing is stripped from the base URL: when its serialization ends in '/',
   * every bucket URL carries a doubled slash right after it.
   */
  lemma TrailingSlashIsKept(c: AwClient, bucketname: string)
    requires |c.baseurl| > 0 && c.baseurl[|c.baseurl| - 1] == '/'
    ensures var url := GetBucket(c, bucketname).url;
      url[|c.baseurl| - 1..|c.baseurl| + 1] == "//"
  {
    var url := GetBucket(c, bucketname).url;
    assert url[|c.baseurl| - 1] == '/';
    assert url[|c.baseurl|] == '/';
  }
}
