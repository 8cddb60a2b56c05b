/** The static schema of the converter: for every measurement, its tag keys in
    declared order and the declared type of each of its field keys. */
module Schema {
  import opened Wrappers

  /** The measurements the schema declares. */
  datatype Measurement =
    | ActiveStreams | Backlog | ChannelStatus | ClientBuffer | ClientError
    | ClientSysinfo | DecoderInfo | ServerInfo | Ssim | VideoAcked
    | VideoSent | VideoSize

  /** The three type constructors the field table uses: `int`, `float` and `str`. */
  datatype FieldType = IntType | FloatType | StrType

  /** The name a measurement has in the database. */
  function Name(m: Measurement): string {
    match m
    case ActiveStreams => "active_streams"
    case Backlog => "backlog"
    case ChannelStatus => "channel_status"
    case ClientBuffer => "client_buffer"
    case ClientError => "client_error"
    case ClientSysinfo => "client_sysinfo"
    case DecoderInfo => "decoder_info"
    case ServerInfo => "server_info"
    case Ssim => "ssim"
    case VideoAcked => "video_acked"
    case VideoSent => "video_sent"
    case VideoSize => "video_size"
  }

  /** The measurement a database name denotes, if the schema declares it. */
  function Parse(name: string): (r: Option<Measurement>)
    ensures r.Some? ==> Name(r.value) == name
  {
    if name == "active_streams" then Some(ActiveStreams)
    else if name == "backlog" then Some(Backlog)
    else if name == "channel_status" then Some(ChannelStatus)
    else if name == "client_buffer" then Some(ClientBuffer)
    else if name == "client_error" then Some(ClientError)
    else if name == "client_sysinfo" then Some(ClientSysinfo)
    else if name == "decoder_info" then Some(DecoderInfo)
    else if name == "server_info" then Some(ServerInfo)
    else if name == "ssim" then Some(Ssim)
    else if name == "video_acked" then Some(VideoAcked)
    else if name == "video_sent" then Some(VideoSent)
    else if name == "video_size" then Some(VideoSize)
    else None
  }

  /** Every declared measurement is found again from its name. */
  lemma ParseName(m: Measurement)
    ensures Parse(Name(m)) == Some(m)
  {
  }

  /** Tag keys per measurement, in the order that builds the dedup tuple. */
  function TagKeys(m: Measurement): seq<string> {
    match m
    case ActiveStreams => ["channel", "server_id"]
    case Backlog => ["channel"]
    case ChannelStatus => ["channel"]
    case ClientBuffer => ["channel", "server_id"]
    case ClientError => []
    case ClientSysinfo => ["server_id"]
    case DecoderInfo => ["channel"]
    case ServerInfo => ["server_id"]
    case Ssim => ["channel", "format"]
    case VideoAcked => ["channel", "server_id"]
    case VideoSent => ["channel", "server_id"]
    case VideoSize => ["channel", "format"]
  }

  /** Field keys per measurement, with the type each value is coerced to. */
  function FieldTypes(m: Measurement): map<string, FieldType> {
    match m
    case ActiveStreams => map["count" := IntType, "expt_id" := IntType]
    case Backlog => map["canonical_cnt" := IntType, "working_cnt" := IntType]
    case ChannelStatus => map["selected_rate" := FloatType, "snr" := FloatType]
    case ClientBuffer =>
      map["buffer" := FloatType, "cum_rebuf" := FloatType, "event" := StrType,
          "expt_id" := IntType, "init_id" := IntType, "user" := StrType]
    case ClientError => map["error" := StrType, "init_id" := IntType, "user" := StrType]
    case ClientSysinfo =>
      map["browser" := StrType, "expt_id" := IntType, "init_id" := IntType,
          "ip" := StrType, "os" := StrType, "screen_height" := IntType,
          "screen_width" := IntType, "user" := StrType]
    case DecoderInfo =>
      map["due" := IntType, "filler_fields" := IntType, "timestamp" := IntType]
    case ServerInfo => map["server_id_1" := IntType]
    case Ssim => map["ssim_index" := FloatType, "timestamp" := IntType]
    case VideoAcked =>
      map["buffer" := FloatType, "cum_rebuffer" := FloatType, "expt_id" := IntType,
          "init_id" := IntType, "ssim_index" := FloatType, "user" := StrType,
          "video_ts" := IntType]
    case VideoSent =>
      map["buffer" := FloatType, "cum_rebuffer" := FloatType, "cwnd" := IntType,
          "delivery_rate" := IntType, "expt_id" := IntType, "format" := StrType,
          "in_flight" := IntType, "init_id" := IntType, "min_rtt" := IntType,
          "rtt" := IntType, "size" := IntType, "ssim_index" := FloatType,
          "user" := StrType, "video_ts" := IntType]
    case VideoSize => map["size" := IntType, "timestamp" := IntType]
  }

  /** The declaration of one measurement: its tag keys in order and its typed
      field keys. */
  datatype Decl = Decl(tagKeys: seq<string>, fieldTypes: map<string, FieldType>)

  function DeclOf(m: Measurement): Decl {
    Decl(TagKeys(m), FieldTypes(m))
  }

  /** The measurements that may lack `server_id` and must never have their
      timestamps shifted. */
  predicate Restricted(m: Measurement) {
    m == ClientBuffer || m == VideoSent || m == VideoAcked
  }

  /** The tag key that may be missing, and whose synthetic value then breaks ties. */
  const ServerIdKey := "server_id"

  /** The key that carries the point's timestamp. */
  const TimeKey := "time"

  /** A declared tag key `k` of measurement `m` may be absent from a raw point. */
  predicate MayBeMissing(m: Measurement, k: string) {
    k == ServerIdKey && Restricted(m)
  }

  /** No key of `tags` is repeated and none is also a field key. */
  predicate Declared(tags: seq<string>, fields: map<string, FieldType>) {
    (forall i :: 0 <= i < |tags| ==> tags[i] !in fields) &&
    (forall i, j :: 0 <= i < j < |tags| ==> tags[i] != tags[j])
  }

  /** Every measurement declares each tag once and never as a field too, and
      each restricted measurement declares `server_id` as a tag. */
  lemma SchemaWellFormed(m: Measurement)
    ensures Declared(TagKeys(m), FieldTypes(m))
    ensures Restricted(m) ==> ServerIdKey in TagKeys(m)
  {
  }
}
