/** The second half of a point's conversion: every key other than `time` whose
    value is not null is normalised and then filed as a tag (its printed value),
    as a field (its value coerced to the declared type), or rejected. */
module Classify {
  import opened Wrappers
  import opened Schema
  import opened Points

  /** Tags and fields of the point being built. */
  type Tables = (map<string, string>, map<string, Typed>)

  predicate EndsWithOne(k: string) {
    |k| >= 2 && k[|k| - 2..] == "_1"
  }

  /** Key normalisation: outside `server_info`, a trailing "_1" is dropped. */
  function Normalize(m: Measurement, k: string): (n: string)
    ensures m == ServerInfo || !EndsWithOne(k) ==> n == k
    ensures m != ServerInfo && EndsWithOne(k) ==> n + "_1" == k
  {
    if m != ServerInfo && EndsWithOne(k) then k[..|k| - 2] else k
  }

  /** `cwnd_1` of `video_sent` becomes `cwnd`; `server_id_1` of `server_info`
      stays as it is; a key without the suffix is unchanged. */
  lemma NormalizeExamples()
    ensures Normalize(VideoSent, "cwnd_1") == "cwnd"
    ensures Normalize(ServerInfo, "server_id_1") == "server_id_1"
    ensures Normalize(VideoSent, "cwnd") == "cwnd"
  {
    assert EndsWithOne("cwnd_1");
    assert !EndsWithOne("cwnd");
  }

  /** No declared tag of `d` is `time` or loses a suffix to normalisation:
      a column carrying a tag's own key feeds that tag unless it is null. */
  predicate PlainTags(m: Measurement, d: Decl) {
    forall i :: 0 <= i < |d.tagKeys| ==> d.tagKeys[i] != TimeKey && Normalize(m, d.tagKeys[i]) == d.tagKeys[i]
  }

  /** The declared tags of every measurement are plain. */
  lemma SchemaTagsPlain(m: Measurement)
    ensures PlainTags(m, DeclOf(m))
  {
    assert !EndsWithOne("channel") && !EndsWithOne("server_id") && !EndsWithOne("format");
  }

  /** The column is one the classification looks at: not `time`, not null. */
  predicate Relevant(col: Column) {
    col.0 != TimeKey && !col.1.Null?
  }

  /** The column is skipped, or can be filed as a tag or as a coercible field. */
  predicate Classifiable(m: Measurement, d: Decl, col: Column, coerce: Coercion) {
    var k := Normalize(m, col.0);
    !Relevant(col) || k in d.tagKeys
    || (k in d.fieldTypes && Coerce(coerce, d.fieldTypes[k], col.1).Some?)
  }

  /** The error a column that is not classifiable aborts with. */
  function Failure(m: Measurement, d: Decl, col: Column): Error {
    var k := Normalize(m, col.0);
    if k in d.fieldTypes then CoercionFailed(k) else Unclassifiable(k)
  }

  /** Files one column. */
  function Place(m: Measurement, d: Decl, col: Column, t: Tables, coerce: Coercion): Result<Tables, Error> {
    if !Relevant(col) then Ok(t)
    else
      var k := Normalize(m, col.0);
      if k in d.tagKeys then Ok((t.0[k := Show(col.1)], t.1))
      else if k in d.fieldTypes then
        match Coerce(coerce, d.fieldTypes[k], col.1)
        case Some(x) => Ok((t.0, t.1[k := x]))
        case None => Err(CoercionFailed(k))
      else Err(Unclassifiable(k))
  }

  /** Files the columns in order, starting from the tags `tags0`. */
  function ClassifyAll(m: Measurement, d: Decl, cols: seq<Column>, tags0: map<string, string>,
                       coerce: Coercion): Result<Tables, Error>
    decreases |cols|
  {
    if cols == [] then Ok((tags0, map[]))
    else
      var t :- ClassifyAll(m, d, cols[..|cols| - 1], tags0, coerce);
      Place(m, d, cols[|cols| - 1], t, coerce)
  }

  /** The tables after a successful classification of a non-empty column list
      are those of all but the last column with the last one filed: a tag is
      set when the column is a tag, a field when it is any other key. */
  lemma PlaceLast(m: Measurement, d: Decl, cols: seq<Column>, tags0: map<string, string>, coerce: Coercion)
    requires cols != [] && ClassifyAll(m, d, cols, tags0, coerce).Ok?
    ensures ClassifyAll(m, d, cols[..|cols| - 1], tags0, coerce).Ok?
    ensures var before := ClassifyAll(m, d, cols[..|cols| - 1], tags0, coerce).value;
      var t := ClassifyAll(m, d, cols, tags0, coerce).value;
      var col := cols[|cols| - 1];
      var k := Normalize(m, col.0);
      && (Relevant(col) && k in d.tagKeys ==> t.0 == before.0[k := Show(col.1)] && t.1 == before.1)
      && (Relevant(col) && k !in d.tagKeys ==>
            && k in d.fieldTypes && t.0 == before.0
            && Coerce(coerce, d.fieldTypes[k], col.1) == Some(t.1[k])
            && t.1 == before.1[k := t.1[k]])
      && (!Relevant(col) ==> t == before)
  {
  }

  /** Once a prefix of the columns has failed, the whole run fails the same way. */
  lemma {:induction false} ErrorPersists(m: Measurement, d: Decl, cols: seq<Column>, n: nat,
                                         tags0: map<string, string>, coerce: Coercion)
    requires n <= |cols| && ClassifyAll(m, d, cols[..n], tags0, coerce).Err?
    ensures ClassifyAll(m, d, cols, tags0, coerce) == ClassifyAll(m, d, cols[..n], tags0, coerce)
    decreases |cols| - n
  {
    if n == |cols| {
      assert cols[..n] == cols;
    } else {
      var init := cols[..|cols| - 1];
      assert init[..n] == cols[..n];
      ErrorPersists(m, d, init, n, tags0, coerce);
    }
  }

  /** Filing one column succeeds exactly when it is classifiable, and
      otherwise fails with its error. */
  lemma PlaceOutcome(m: Measurement, d: Decl, col: Column, t: Tables, coerce: Coercion)
    ensures Place(m, d, col, t, coerce).Ok? <==> Classifiable(m, d, col, coerce)
    ensures Place(m, d, col, t, coerce).Err? ==> Place(m, d, col, t, coerce).error == Failure(m, d, col)
  {
  }

  /** Classification succeeds exactly when every column is classifiable. */
  lemma {:induction false} ClassifyOk(m: Measurement, d: Decl, cols: seq<Column>,
                                      tags0: map<string, string>, coerce: Coercion)
    ensures ClassifyAll(m, d, cols, tags0, coerce).Ok? <==> forall i :: 0 <= i < |cols| ==> Classifiable(m, d, cols[i], coerce)
    decreases |cols|
  {
    if cols != [] {
      var init := cols[..|cols| - 1];
      ClassifyOk(m, d, init, tags0, coerce);
      assert forall i :: 0 <= i < |init| ==> init[i] == cols[i];
      var r0 := ClassifyAll(m, d, init, tags0, coerce);
      if r0.Ok? {
        PlaceOutcome(m, d, cols[|cols| - 1], r0.value, coerce);
      }
    }
  }

  /** A failed classification stops with the error of the first column that
      is not classifiable. */
  lemma {:induction false} ClassifyFirstFailure(m: Measurement, d: Decl, cols: seq<Column>,
                                                tags0: map<string, string>, coerce: Coercion)
    requires ClassifyAll(m, d, cols, tags0, coerce).Err?
    ensures exists i :: 0 <= i < |cols| && !Classifiable(m, d, cols[i], coerce)
                        && (forall j :: 0 <= j < i ==> Classifiable(m, d, cols[j], coerce))
                        && ClassifyAll(m, d, cols, tags0, coerce).error == Failure(m, d, cols[i])
    decreases |cols|
  {
    var init := cols[..|cols| - 1];
    var last := |cols| - 1;
    var r0 := ClassifyAll(m, d, init, tags0, coerce);
    if r0.Err? {
      ClassifyFirstFailure(m, d, init, tags0, coerce);
      var i :| 0 <= i < |init| && !Classifiable(m, d, init[i], coerce)
               && (forall j :: 0 <= j < i ==> Classifiable(m, d, init[j], coerce))
               && r0.error == Failure(m, d, init[i]);
      assert forall j :: 0 <= j <= i ==> init[j] == cols[j];
    } else {
      ClassifyOk(m, d, init, tags0, coerce);
      PlaceOutcome(m, d, cols[last], r0.value, coerce);
      assert forall j :: 0 <= j < last ==> init[j] == cols[j];
      assert !Classifiable(m, d, cols[last], coerce);
    }
  }

  /** Column `i` is looked at and its key normalises to `k`. */
  predicate Feeds(m: Measurement, cols: seq<Column>, i: int, k: string) {
    0 <= i < |cols| && Relevant(cols[i]) && Normalize(m, cols[i].0) == k
  }

  /** Column `i` is the last column that feeds `k`. */
  predicate LastFeed(m: Measurement, cols: seq<Column>, i: int, k: string) {
    Feeds(m, cols, i, k) && forall j :: i < j < |cols| ==> !Feeds(m, cols, j, k)
  }

  /** The last feed of `k` among all but the last column stays the last feed
      when the last column does not feed `k`. */
  lemma LastFeedExtends(m: Measurement, cols: seq<Column>, i: int, k: string)
    requires cols != [] && LastFeed(m, cols[..|cols| - 1], i, k) && !Feeds(m, cols, |cols| - 1, k)
    ensures LastFeed(m, cols, i, k)
  {
    var init := cols[..|cols| - 1];
    forall j | i < j < |cols| ensures !Feeds(m, cols, j, k) {
      if j < |init| {
        assert init[j] == cols[j] && !Feeds(m, init, j, k);
      }
    }
    assert init[i] == cols[i];
  }

  /** No column feeds `k` when none of all but the last does and the last
      does not either. */
  lemma NoFeedExtends(m: Measurement, cols: seq<Column>, init: seq<Column>, k: string)
    requires cols != [] && init == cols[..|cols| - 1] && !Feeds(m, cols, |cols| - 1, k)
    requires forall i :: !Feeds(m, init, i, k)
    ensures forall i :: !Feeds(m, cols, i, k)
  {
    forall i ensures !Feeds(m, cols, i, k) {
      if 0 <= i < |init| {
        assert init[i] == cols[i] && !Feeds(m, init, i, k);
      }
    }
  }

  /** After a successful classification, every column looked at has its key
      in exactly one place: in the tags when it is a declared tag, otherwise
      in the fields. */
  lemma {:induction false} ColumnsPlaced(m: Measurement, d: Decl, cols: seq<Column>,
                                         tags0: map<string, string>, coerce: Coercion)
    requires ClassifyAll(m, d, cols, tags0, coerce).Ok?
    ensures var t := ClassifyAll(m, d, cols, tags0, coerce).value;
      forall i :: 0 <= i < |cols| && Relevant(cols[i]) ==>
        var k := Normalize(m, cols[i].0);
        if k in d.tagKeys then k in t.0 && k !in t.1 else k in t.1
    decreases |cols|
  {
    if cols != [] {
      var init := cols[..|cols| - 1];
      ColumnsPlaced(m, d, init, tags0, coerce);
      TablesDeclared(m, d, init, tags0, coerce);
      PlaceLast(m, d, cols, tags0, coerce);
      var t := ClassifyAll(m, d, cols, tags0, coerce).value;
      forall i | 0 <= i < |cols| - 1 && Relevant(cols[i])
        ensures var k := Normalize(m, cols[i].0);
          if k in d.tagKeys then k in t.0 && k !in t.1 else k in t.1
      {
        assert init[i] == cols[i];
      }
    }
  }

  /** After a successful classification, the fields hold only declared fields
      that are not tags, and the tags only declared tags and the starting ones. */
  lemma {:induction false} TablesDeclared(m: Measurement, d: Decl, cols: seq<Column>,
                                          tags0: map<string, string>, coerce: Coercion)
    requires ClassifyAll(m, d, cols, tags0, coerce).Ok?
    ensures var t := ClassifyAll(m, d, cols, tags0, coerce).value;
      && (forall k :: k in t.1 ==> k in d.fieldTypes && k !in d.tagKeys)
      && (forall k :: k in t.0 ==> k in tags0 || k in d.tagKeys)
    decreases |cols|
  {
    if cols != [] {
      TablesDeclared(m, d, cols[..|cols| - 1], tags0, coerce);
      PlaceLast(m, d, cols, tags0, coerce);
    }
  }

  /** A successful classification keeps every starting tag key. */
  lemma {:induction false} StartTagsKept(m: Measurement, d: Decl, cols: seq<Column>,
                                         tags0: map<string, string>, coerce: Coercion)
    requires ClassifyAll(m, d, cols, tags0, coerce).Ok?
    ensures forall k :: k in tags0 ==> k in ClassifyAll(m, d, cols, tags0, coerce).value.0
    decreases |cols|
  {
    if cols != [] {
      StartTagsKept(m, d, cols[..|cols| - 1], tags0, coerce);
    }
  }

  /** Tag `k` of a successful classification holds the printed value of the
      last column feeding it, or keeps its starting value when no column does. */
  lemma {:induction false} TagValue(m: Measurement, d: Decl, cols: seq<Column>,
                                    tags0: map<string, string>, coerce: Coercion, k: string)
    requires forall k :: k in tags0 ==> k in d.tagKeys
    requires ClassifyAll(m, d, cols, tags0, coerce).Ok?
    requires k in ClassifyAll(m, d, cols, tags0, coerce).value.0
    ensures var tags := ClassifyAll(m, d, cols, tags0, coerce).value.0;
      || (exists i :: LastFeed(m, cols, i, k) && tags[k] == Show(cols[i].1))
      || (k in tags0 && tags[k] == tags0[k] && forall i :: !Feeds(m, cols, i, k))
    decreases |cols|
  {
    if cols != [] {
      var init := cols[..|cols| - 1];
      var last := |cols| - 1;
      TablesDeclared(m, d, cols, tags0, coerce);
      PlaceLast(m, d, cols, tags0, coerce);
      var before := ClassifyAll(m, d, init, tags0, coerce).value.0;
      var tags := ClassifyAll(m, d, cols, tags0, coerce).value.0;
      var col := cols[last];
      if Relevant(col) && Normalize(m, col.0) == k && k in d.tagKeys {
        assert LastFeed(m, cols, last, k);
      } else {
        assert k in d.tagKeys && !Feeds(m, cols, last, k);
        assert k in before && tags[k] == before[k];
        TagValue(m, d, init, tags0, coerce, k);
        if i :| LastFeed(m, init, i, k) && before[k] == Show(init[i].1) {
          LastFeedExtends(m, cols, i, k);
        } else {
          NoFeedExtends(m, cols, init, k);
        }
      }
    }
  }

  /** After a successful classification, each tag holds the printed value of
      the last column feeding it, or keeps its starting value when no column
      does. */
  lemma ClassifyTagValues(m: Measurement, d: Decl, cols: seq<Column>,
                          tags0: map<string, string>, coerce: Coercion)
    requires forall k :: k in tags0 ==> k in d.tagKeys
    requires ClassifyAll(m, d, cols, tags0, coerce).Ok?
    ensures var tags := ClassifyAll(m, d, cols, tags0, coerce).value.0;
      forall k :: k in tags ==>
        (exists i :: LastFeed(m, cols, i, k) && tags[k] == Show(cols[i].1))
        || (k in tags0 && tags[k] == tags0[k] && forall i :: !Feeds(m, cols, i, k))
  {
    var tags := ClassifyAll(m, d, cols, tags0, coerce).value.0;
    forall k | k in tags
      ensures (exists i :: LastFeed(m, cols, i, k) && tags[k] == Show(cols[i].1))
           || (k in tags0 && tags[k] == tags0[k] && forall i :: !Feeds(m, cols, i, k))
    {
      TagValue(m, d, cols, tags0, coerce, k);
    }
  }

  /** A declared tag fed only by columns carrying its own key, and fed by at
      least one, is emitted with the printed value of that key's column. */
  lemma EmittedTagOfPresentKey(m: Measurement, d: Decl, cols: seq<Column>,
                               tags0: map<string, string>, coerce: Coercion, key: string)
    requires forall k :: k in tags0 ==> k in d.tagKeys
    requires ClassifyAll(m, d, cols, tags0, coerce).Ok?
    requires UniqueKeys(cols) && key in d.tagKeys
    requires forall j :: Feeds(m, cols, j, key) ==> cols[j].0 == key
    requires exists j :: Feeds(m, cols, j, key)
    ensures var tags := ClassifyAll(m, d, cols, tags0, coerce).value.0;
      key in tags && Lookup(cols, key).Some? && tags[key] == Show(Lookup(cols, key).value)
  {
    var j0 :| Feeds(m, cols, j0, key);
    ColumnsPlaced(m, d, cols, tags0, coerce);
    ClassifyTagValues(m, d, cols, tags0, coerce);
    var tags := ClassifyAll(m, d, cols, tags0, coerce).value.0;
    assert key in tags;
    var j :| LastFeed(m, cols, j, key) && tags[key] == Show(cols[j].1);
    LookupFinds(cols, j);
  }

  /** Field `k` of a successful classification is a declared field that is
      not a tag, and holds the coerced value of the last column feeding it. */
  lemma {:induction false} FieldValue(m: Measurement, d: Decl, cols: seq<Column>,
                                      tags0: map<string, string>, coerce: Coercion, k: string)
    requires cols != [] && ClassifyAll(m, d, cols, tags0, coerce).Ok?
    requires k in ClassifyAll(m, d, cols, tags0, coerce).value.1
    ensures var fields := ClassifyAll(m, d, cols, tags0, coerce).value.1;
      k in d.fieldTypes && k !in d.tagKeys &&
      exists i :: LastFeed(m, cols, i, k) && Coerce(coerce, d.fieldTypes[k], cols[i].1) == Some(fields[k])
    decreases |cols|
  {
    var init := cols[..|cols| - 1];
    var last := |cols| - 1;
    PlaceLast(m, d, cols, tags0, coerce);
    var before := ClassifyAll(m, d, init, tags0, coerce).value.1;
    var fields := ClassifyAll(m, d, cols, tags0, coerce).value.1;
    var col := cols[last];
    if Relevant(col) && Normalize(m, col.0) == k && k !in d.tagKeys {
      assert LastFeed(m, cols, last, k);
    } else {
      assert k in before && fields[k] == before[k];
      FieldValue(m, d, init, tags0, coerce, k);
      var i :| LastFeed(m, init, i, k) && Coerce(coerce, d.fieldTypes[k], init[i].1) == Some(before[k]);
      assert !Feeds(m, cols, last, k);
      LastFeedExtends(m, cols, i, k);
    }
  }

  /** After a successful classification, each field holds the coerced value of
      the last column feeding it. */
  lemma ClassifyFieldValues(m: Measurement, d: Decl, cols: seq<Column>,
                            tags0: map<string, string>, coerce: Coercion)
    requires ClassifyAll(m, d, cols, tags0, coerce).Ok?
    ensures var fields := ClassifyAll(m, d, cols, tags0, coerce).value.1;
      forall k :: k in fields ==>
        k in d.fieldTypes && k !in d.tagKeys &&
        exists i :: LastFeed(m, cols, i, k) && Coerce(coerce, d.fieldTypes[k], cols[i].1) == Some(fields[k])
  {
    var fields := ClassifyAll(m, d, cols, tags0, coerce).value.1;
    forall k | k in fields
      ensures k in d.fieldTypes && k !in d.tagKeys &&
        exists i :: LastFeed(m, cols, i, k) && Coerce(coerce, d.fieldTypes[k], cols[i].1) == Some(fields[k])
    {
      FieldValue(m, d, cols, tags0, coerce, k);
    }
  }

  /** The key loop of a point: files the columns the way ClassifyAll describes. */
  method ClassifyColumns(m: Measurement, d: Decl, cols: seq<Column>, tags0: map<string, string>,
                         coerce: Coercion) returns (r: Result<Tables, Error>)
    ensures r == ClassifyAll(m, d, cols, tags0, coerce)
  {
    var tags, fields := tags0, map[];
    for i := 0 to |cols|
      invariant ClassifyAll(m, d, cols[..i], tags0, coerce) == Ok((tags, fields))
    {
      assert cols[..i + 1][..i] == cols[..i];
      var (key, v) := cols[i];
      if key == TimeKey || v.Null? {
        continue;
      }
      var k := Normalize(m, key);
      if k in d.tagKeys {
        tags := tags[k := Show(v)];
      } else if k in d.fieldTypes {
        var x := Coerce(coerce, d.fieldTypes[k], v);
        if x.None? {
          r := Err(CoercionFailed(k));
          ErrorPersists(m, d, cols, i + 1, tags0, coerce);
          return;
        }
        fields := fields[k := x.value];
      } else {
        r := Err(Unclassifiable(k));
        ErrorPersists(m, d, cols, i + 1, tags0, coerce);
        return;
      }
    }
    assert cols[..|cols|] == cols;
    r := Ok((tags, fields));
  }
}
