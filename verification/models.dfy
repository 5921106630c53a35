/**
 * The records the client sends and receives (the `aw_models` crate).
 * Their JSON form is not modelled: a request carries them as values.
 */
module Models {
  import opened Wrappers

  /** An instant in UTC (`DateTime<Utc>`), as nanoseconds since the Unix epoch. */
  datatype Timestamp = Timestamp(unixNanos: int)

  /** A value of a free-form JSON `data` map, kept as its JSON text: the client never looks inside. */
  type JsonText = string

  /** A timestamped interval with its payload; `id` is assigned by the server. */
  datatype Event = Event(
    id: Option<i64>,
    timestamp: Timestamp,
    durationNanos: int,
    data: map<string, JsonText>)

  /** The nested metadata of a bucket, as its field map. */
  datatype BucketMetadata = BucketMetadata(fields: map<string, JsonText>)

  /** `BucketMetadata::default()`: no fields set. */
  function DefaultMetadata(): (m: BucketMetadata)
    ensures |m.fields| == 0
  {
    BucketMetadata(map[])
  }

  /** A named, typed container of events (`_type` is `bucketType` here). */
  datatype Bucket = Bucket(
    bid: Option<i64>,
    id: string,
    bucketType: string,
    client: string,
    hostname: string,
    created: Option<Timestamp>,
    data: map<string, JsonText>,
    metadata: BucketMetadata,
    events: Option<seq<Event>>,
    lastUpdated: Option<Timestamp>)
}
