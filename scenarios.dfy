/** Worked conversions of single points, for any coercion of `int` and
    `float` values (none of these points has a field). A run converts each
    point with the tuples of the points before it committed, so a pair of
    cases below shows what a run of two equal points does. */
module Scenarios {
  import opened Wrappers
  import opened Schema
  import opened Points
  import opened Dedup
  import opened Classify
  import opened Convert

  /** A point whose one column is a tag files it among the tags. */
  lemma ClassifyOneTag(m: Measurement, d: Decl, cols: seq<Column>, tags0: map<string, string>, coerce: Coercion)
    requires |cols| == 1 && Relevant(cols[0]) && Normalize(m, cols[0].0) in d.tagKeys
    ensures ClassifyAll(m, d, cols, tags0, coerce) == Ok((tags0[Normalize(m, cols[0].0) := Show(cols[0].1)], map[]))
  {
    assert cols[..0] == [];
  }

  /** A point whose two columns are tags files both among the tags, the
      second one last. */
  lemma ClassifyTwoTags(m: Measurement, d: Decl, cols: seq<Column>, tags0: map<string, string>, coerce: Coercion)
    requires |cols| == 2 && Relevant(cols[0]) && Normalize(m, cols[0].0) in d.tagKeys
    requires Relevant(cols[1]) && Normalize(m, cols[1].0) in d.tagKeys
    ensures ClassifyAll(m, d, cols, tags0, coerce)
      == Ok((tags0[Normalize(m, cols[0].0) := Show(cols[0].1)][Normalize(m, cols[1].0) := Show(cols[1].1)], map[]))
  {
    ClassifyOneTag(m, d, cols[..1], tags0, coerce);
  }

  /** A `client_buffer` point with a channel and no `server_id`. */
  function BufferPoint(): RawPoint {
    RawPoint(5, [("channel", Str("c"))])
  }

  /** Its candidate tuple holds the synthetic id 1 in the `server_id` slot. */
  lemma BufferCandidate()
    ensures CandidateOf(ClientBuffer, TagKeys(ClientBuffer), BufferPoint())
      == Ok(Candidate(Key(5, ["c", "1"]), Some(1)))
  {
    var cols := BufferPoint().columns;
    var keys := TagKeys(ClientBuffer);
    assert keys == ["channel", "server_id"] && keys[1..] == ["server_id"] && keys[1..][1..] == [];
    assert NatToString(1) == "1";
    assert Lookup(cols, "channel") == Some(Str("c"));
    assert Lookup(cols[1..], "server_id") == None;
    assert Lookup(cols, "server_id") == None;
    assert TagTuple(ClientBuffer, [], cols, ["c", "1"], Some(1)) == Ok((["c", "1"], Some(1)));
    assert ["c"] + [NatToString(1)] == ["c", "1"];
    assert TagTuple(ClientBuffer, keys[1..], cols, ["c"], None) == Ok((["c", "1"], Some(1)));
    assert [] + [Show(Str("c"))] == ["c"];
  }

  /** The point gets the synthetic id 1 when nothing is committed, and 2 when
      the tuple with id 1 is: two such points in a row get 1 and 2. */
  lemma BufferPointsGetSyntheticIds(coerce: Coercion, seen: set<Key>, id: nat)
    requires (seen == {} && id == 1) || (seen == {Key(5, ["c", "1"])} && id == 2)
    ensures ConvertPoint(ClientBuffer, DeclOf(ClientBuffer), seen, BufferPoint(), coerce)
      == Ok((Key(5, ["c", NatToString(id)]),
             OutPoint("client_buffer", 5, map["channel" := "c", "server_id" := NatToString(id)], map[])))
  {
    var d := DeclOf(ClientBuffer);
    var cols := BufferPoint().columns;
    var first := Key(5, ["c", "1"]);
    assert NatToString(1) == "1" && NatToString(2) == "2";
    assert WithId(first, 1, 1) == first && WithId(first, 1, 2) == Key(5, ["c", "2"]);
    assert Resolve(ClientBuffer, seen, Candidate(first, Some(1))) == Ok(Resolution(Key(5, ["c", NatToString(id)]), Some(id)));
    BufferCandidate();
    assert !EndsWithOne("channel") && Normalize(ClientBuffer, "channel") == "channel";
    assert Relevant(cols[0]) && "channel" in d.tagKeys;
    ClassifyOneTag(ClientBuffer, d, cols, map[ServerIdKey := NatToString(id)], coerce);
    assert map[ServerIdKey := NatToString(id)]["channel" := "c"]
      == map["channel" := "c", "server_id" := NatToString(id)];
  }

  /** An `ssim` point with its channel and format. */
  function SsimPoint(): RawPoint {
    RawPoint(5, [("channel", Str("c")), ("format", Str("f"))])
  }

  /** Its candidate tuple is its time, channel and format, without a slot. */
  lemma SsimCandidate()
    ensures CandidateOf(Ssim, TagKeys(Ssim), SsimPoint()) == Ok(Candidate(Key(5, ["c", "f"]), None))
  {
    var cols := SsimPoint().columns;
    var keys := TagKeys(Ssim);
    assert keys == ["channel", "format"] && keys[1..] == ["format"] && keys[1..][1..] == [];
    assert Lookup(cols, "channel") == Some(Str("c"));
    assert Lookup(cols[1..], "format") == Some(Str("f"));
    assert Lookup(cols, "format") == Some(Str("f"));
    assert TagTuple(Ssim, [], cols, ["c", "f"], None) == Ok((["c", "f"], None));
    assert ["c"] + [Show(Str("f"))] == ["c", "f"];
    assert TagTuple(Ssim, keys[1..], cols, ["c"], None) == Ok((["c", "f"], None));
    assert [] + [Show(Str("c"))] == ["c"];
  }

  /** The `ssim` point keeps its time when nothing is committed, and is moved
      one microsecond later when its tuple is: of two such points in a row,
      the second is moved. */
  lemma SsimCollisionShiftsTime(coerce: Coercion, seen: set<Key>, time: int)
    requires (seen == {} && time == 5) || (seen == {Key(5, ["c", "f"])} && time == 6)
    ensures ConvertPoint(Ssim, DeclOf(Ssim), seen, SsimPoint(), coerce)
      == Ok((Key(time, ["c", "f"]), OutPoint("ssim", time, map["channel" := "c", "format" := "f"], map[])))
  {
    var d := DeclOf(Ssim);
    var cols := SsimPoint().columns;
    var first := Key(5, ["c", "f"]);
    SsimCandidate();
    assert Shifted(first, 0) == first && Shifted(first, 1) == Key(6, ["c", "f"]);
    assert Resolve(Ssim, seen, Candidate(first, None)) == Ok(Resolution(Key(time, ["c", "f"]), None));
    assert !EndsWithOne("channel") && !EndsWithOne("format");
    assert Relevant(cols[0]) && Relevant(cols[1]) && "channel" in d.tagKeys && "format" in d.tagKeys;
    ClassifyTwoTags(Ssim, d, cols, map[], coerce);
    assert map[]["channel" := "c"]["format" := "f"] == map["channel" := "c", "format" := "f"];
  }

  /** An `ssim` point whose `channel` column is present but null. */
  function NullChannelPoint(): RawPoint {
    RawPoint(5, [("channel", Null), ("format", Str("f"))])
  }

  /** The null channel enters the tuple as the text "None" but is left out of
      the emitted tags: the point converts, and a second such point is moved
      one microsecond later. */
  lemma NullChannelConverted(coerce: Coercion, seen: set<Key>, time: int)
    requires (seen == {} && time == 5) || (seen == {Key(5, ["None", "f"])} && time == 6)
    ensures ConvertPoint(Ssim, DeclOf(Ssim), seen, NullChannelPoint(), coerce)
      == Ok((Key(time, ["None", "f"]), OutPoint("ssim", time, map["format" := "f"], map[])))
  {
    var d := DeclOf(Ssim);
    var cols := NullChannelPoint().columns;
    var keys := TagKeys(Ssim);
    assert keys == ["channel", "format"] && keys[1..] == ["format"] && keys[1..][1..] == [];
    assert Lookup(cols, "channel") == Some(Null);
    assert Lookup(cols[1..], "format") == Some(Str("f"));
    assert Lookup(cols, "format") == Some(Str("f"));
    assert TagTuple(Ssim, [], cols, ["None", "f"], None) == Ok((["None", "f"], None));
    assert ["None"] + [Show(Str("f"))] == ["None", "f"];
    assert TagTuple(Ssim, keys[1..], cols, ["None"], None) == Ok((["None", "f"], None));
    assert [] + [Show(Null)] == ["None"];
    var first := Key(5, ["None", "f"]);
    assert CandidateOf(Ssim, keys, NullChannelPoint()) == Ok(Candidate(first, None));
    assert Shifted(first, 0) == first && Shifted(first, 1) == Key(6, ["None", "f"]);
    assert Resolve(Ssim, seen, Candidate(first, None)) == Ok(Resolution(Key(time, ["None", "f"]), None));
    assert !EndsWithOne("format");
    assert !Relevant(cols[0]) && Relevant(cols[1]) && "format" in d.tagKeys;
    assert cols[..1] == [cols[0]] && cols[..1][..0] == [];
    assert ClassifyAll(Ssim, d, cols[..1], map[], coerce) == Ok((map[], map[]));
  }

  /** A `video_sent` point with its channel and `server_id`. */
  function SentPoint(): RawPoint {
    RawPoint(5, [("channel", Str("c")), ("server_id", Int(7))])
  }

  /** Its candidate tuple is its time, channel and `server_id`, without a slot. */
  lemma SentCandidate()
    ensures CandidateOf(VideoSent, TagKeys(VideoSent), SentPoint()) == Ok(Candidate(Key(5, ["c", "7"]), None))
  {
    var cols := SentPoint().columns;
    var keys := TagKeys(VideoSent);
    assert NatToString(7) == "7" && Show(Int(7)) == "7";
    assert keys == ["channel", "server_id"] && keys[1..] == ["server_id"] && keys[1..][1..] == [];
    assert Lookup(cols, "channel") == Some(Str("c"));
    assert Lookup(cols[1..], "server_id") == Some(Int(7));
    assert Lookup(cols, "server_id") == Some(Int(7));
    assert TagTuple(VideoSent, [], cols, ["c", "7"], None) == Ok((["c", "7"], None));
    assert ["c"] + [Show(Int(7))] == ["c", "7"];
    assert TagTuple(VideoSent, keys[1..], cols, ["c"], None) == Ok((["c", "7"], None));
    assert [] + [Show(Str("c"))] == ["c"];
  }

  /** A `video_sent` point with the tuple of a committed one aborts the
      conversion, since a `video_sent` timestamp is never shifted. */
  lemma SentCollisionAborts(coerce: Coercion)
    ensures ConvertPoint(VideoSent, DeclOf(VideoSent), {Key(5, ["c", "7"])}, SentPoint(), coerce)
      == Err(ShiftForbidden("video_sent"))
  {
    SentCandidate();
    assert Resolve(VideoSent, {Key(5, ["c", "7"])}, Candidate(Key(5, ["c", "7"]), None))
      == Err(ShiftForbidden("video_sent"));
  }

  /** Converted after a tuple with the synthetic id 1, the point keeps its
      tuple and is emitted with its own channel and `server_id`. */
  lemma SentPointConverted(coerce: Coercion)
    ensures ConvertPoint(VideoSent, DeclOf(VideoSent), {Key(5, ["c", "1"])}, SentPoint(), coerce)
      == Ok((Key(5, ["c", "7"]), OutPoint("video_sent", 5, map["channel" := "c", "server_id" := "7"], map[])))
  {
    var d := DeclOf(VideoSent);
    var cols := SentPoint().columns;
    SentCandidate();
    assert Resolve(VideoSent, {Key(5, ["c", "1"])}, Candidate(Key(5, ["c", "7"]), None))
      == Ok(Resolution(Key(5, ["c", "7"]), None));
    assert Show(Int(7)) == "7";
    assert !EndsWithOne("channel") && !EndsWithOne("server_id");
    assert Relevant(cols[0]) && Relevant(cols[1]) && "channel" in d.tagKeys && "server_id" in d.tagKeys;
    ClassifyTwoTags(VideoSent, d, cols, map[], coerce);
    assert map[]["channel" := "c"]["server_id" := "7"] == map["channel" := "c", "server_id" := "7"];
  }

  /** A `video_sent` point without `server_id` but with a `server_id_1` column. */
  function SuffixedPoint(): RawPoint {
    RawPoint(5, [("channel", Str("c")), ("server_id_1", Int(7))])
  }

  /** Its candidate tuple holds the synthetic id 1, since the point has no
      `server_id` column. */
  lemma SuffixedCandidate()
    ensures CandidateOf(VideoSent, TagKeys(VideoSent), SuffixedPoint()) == Ok(Candidate(Key(5, ["c", "1"]), Some(1)))
  {
    var cols := SuffixedPoint().columns;
    var keys := TagKeys(VideoSent);
    assert NatToString(1) == "1";
    assert keys == ["channel", "server_id"] && keys[1..] == ["server_id"] && keys[1..][1..] == [];
    assert Lookup(cols, "channel") == Some(Str("c"));
    assert cols[1..][1..] == [];
    assert Lookup(cols[1..], "server_id") == None;
    assert Lookup(cols, "server_id") == None;
    assert TagTuple(VideoSent, [], cols, ["c", "1"], Some(1)) == Ok((["c", "1"], Some(1)));
    assert ["c"] + [NatToString(1)] == ["c", "1"];
    assert TagTuple(VideoSent, keys[1..], cols, ["c"], None) == Ok((["c", "1"], Some(1)));
    assert [] + [Show(Str("c"))] == ["c"];
  }

  /** The point commits the synthetic id 1 in its tuple, while the
      `server_id` tag it is emitted with is the value of `server_id_1`. */
  lemma ServerIdColumnOverridesSyntheticId(coerce: Coercion)
    ensures ConvertPoint(VideoSent, DeclOf(VideoSent), {}, SuffixedPoint(), coerce)
      == Ok((Key(5, ["c", "1"]), OutPoint("video_sent", 5, map["channel" := "c", "server_id" := "7"], map[])))
  {
    var d := DeclOf(VideoSent);
    var cols := SuffixedPoint().columns;
    var first := Key(5, ["c", "1"]);
    assert NatToString(1) == "1" && NatToString(7) == "7" && Show(Int(7)) == "7";
    SuffixedCandidate();
    assert WithId(first, 1, 1) == first;
    assert Resolve(VideoSent, {}, Candidate(first, Some(1))) == Ok(Resolution(first, Some(1)));
    assert EndsWithOne("server_id_1") && Normalize(VideoSent, "server_id_1") == "server_id";
    assert !EndsWithOne("channel");
    assert Relevant(cols[0]) && Relevant(cols[1]) && "channel" in d.tagKeys && "server_id" in d.tagKeys;
    ClassifyTwoTags(VideoSent, d, cols, map[ServerIdKey := "1"], coerce);
    assert map[ServerIdKey := "1"]["channel" := "c"]["server_id" := "7"]
      == map["channel" := "c", "server_id" := "7"];
  }

  /** The `server_id_1` point followed by the `server_id` point: the second
      is converted with the first one's tuple committed, the two tuples
      differ, and yet both points are emitted with the same measurement,
      timestamp, tags and fields. */
  lemma DistinctTuplesSameEmittedPoint(coerce: Coercion)
    ensures var first := ConvertPoint(VideoSent, DeclOf(VideoSent), {}, SuffixedPoint(), coerce);
      && first.Ok?
      && var second := ConvertPoint(VideoSent, DeclOf(VideoSent), {first.value.0}, SentPoint(), coerce);
      && second.Ok?
      && first.value.0 != second.value.0
      && first.value.1 == second.value.1
  {
    ServerIdColumnOverridesSyntheticId(coerce);
    SentPointConverted(coerce);
  }

  /** A measurement the schema does not declare fails on its first point,
      and converts to nothing when it has no point. */
  lemma UndeclaredMeasurement(coerce: Coercion)
    ensures Conversion("cpu", [RawPoint(0, [])], coerce) == Run([], [], Some(UnknownMeasurement("cpu")))
    ensures Conversion("cpu", [], coerce) == Run([], [], None)
  {
    assert Parse("cpu") == None;
  }

  /** A `backlog` point without its channel aborts the conversion. */
  lemma MissingChannelAborts(coerce: Coercion)
    ensures Conversion("backlog", [RawPoint(0, [("working_cnt", Int(1))])], coerce).error
      == Some(MissingTag("channel"))
  {
    var p := RawPoint(0, [("working_cnt", Int(1))]);
    assert Lookup(p.columns, "channel").None?;
    assert PointStep(Backlog, DeclOf(Backlog), coerce)({}, p) == Err(MissingTag("channel"));
  }
}
