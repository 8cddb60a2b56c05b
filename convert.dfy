/** The conversion of one measurement: each raw point gets a dedup tuple not
    yet committed, is reclassified into tags and fields, and is emitted; the
    emitted points are written in batches. Any error aborts the conversion. */
module Convert {
  import opened Wrappers
  import opened Schema
  import opened Points
  import opened Dedup
  import opened Classify
  import opened Batching

  /** What converting a sequence of points produces: the committed tuples and
      the emitted points, one per converted point, and the error that stopped
      the conversion, if one did. */
  datatype Run = Run(keys: seq<Key>, points: seq<OutPoint>, error: Option<Error>)

  /** The tags a point starts with: the synthetic `server_id`, when one was used. */
  function SyntheticTags(res: Resolution): map<string, string> {
    if res.syntheticId.Some? then map[ServerIdKey := NatToString(res.syntheticId.value)] else map[]
  }

  /** Converts one raw point of measurement `m`, declared by `d`, given the
      tuples already committed: the tuple it commits and the point it emits. */
  function ConvertPoint(m: Measurement, d: Decl, seen: set<Key>, pt: RawPoint, coerce: Coercion): Result<(Key, OutPoint), Error> {
    var cand :- CandidateOf(m, d.tagKeys, pt);
    var res :- Resolve(m, seen, cand);
    var t :- ClassifyAll(m, d, pt.columns, SyntheticTags(res), coerce);
    Ok((res.key, OutPoint(Name(m), res.key.time, t.0, t.1)))
  }

  /** The conversion of one point given the tuples already committed. */
  type Step = (set<Key>, RawPoint) -> Result<(Key, OutPoint), Error>

  /** The step of measurement `m` under declaration `d`. */
  function PointStep(m: Measurement, d: Decl, coerce: Coercion): Step {
    (seen, pt) => ConvertPoint(m, d, seen, pt, coerce)
  }

  /** The step of `m` converts each point as ConvertPoint does. */
  lemma PointStepConverts(m: Measurement, d: Decl, coerce: Coercion)
    ensures forall seen, pt {:trigger ConvertPoint(m, d, seen, pt, coerce)} ::
      PointStep(m, d, coerce)(seen, pt) == ConvertPoint(m, d, seen, pt, coerce)
  {
  }

  /** Converts the points in order, committing each point's tuple before the next. */
  function RunFrom(step: Step, seen: set<Key>, pts: seq<RawPoint>): Run
    decreases |pts|
  {
    if pts == [] then Run([], [], None)
    else match step(seen, pts[0])
      case Err(e) => Run([], [], Some(e))
      case Ok(r) =>
        var rest := RunFrom(step, seen + {r.0}, pts[1..]);
        Run([r.0] + rest.keys, [r.1] + rest.points, rest.error)
  }

  /** The conversion of the points of the measurement called `name`: the
      schema lookup fails on the first point when the name is not declared,
      so an undeclared measurement without points converts to nothing. */
  function Conversion(name: string, points: seq<RawPoint>, coerce: Coercion): Run {
    if points == [] then Run([], [], None)
    else match Parse(name)
      case None => Run([], [], Some(UnknownMeasurement(name)))
      case Some(m) => RunFrom(PointStep(m, DeclOf(m), coerce), {}, points)
  }

  /** A converted point commits a tuple that was not yet committed; the
      emitted point belongs to the measurement and carries the tuple's
      timestamp, which is never earlier than the raw one and equal to it for
      the three restricted measurements. */
  lemma PointCommitsFreshKey(m: Measurement, d: Decl, seen: set<Key>, pt: RawPoint, coerce: Coercion)
    requires ConvertPoint(m, d, seen, pt, coerce).Ok?
    ensures var (k, o) := ConvertPoint(m, d, seen, pt, coerce).value;
      && k !in seen && |k.tags| == |d.tagKeys|
      && o.measurement == Name(m) && o.time == k.time && pt.time <= k.time
      && (Restricted(m) ==> k.time == pt.time)
  {
    CandidateSpec(m, d.tagKeys, pt);
    var cand := CandidateOf(m, d.tagKeys, pt).value;
    ResolveSpec(m, seen, cand);
  }

  /** A point lacking `server_id` is accepted only for a restricted
      measurement; its emitted tags then have `server_id`, and when no column
      of the point normalises to `server_id` its value is the synthetic id
      committed in the tuple. */
  lemma SyntheticServerId(m: Measurement, d: Decl, seen: set<Key>, pt: RawPoint, coerce: Coercion, i: nat)
    requires Declared(d.tagKeys, d.fieldTypes)
    requires ConvertPoint(m, d, seen, pt, coerce).Ok?
    requires Lookup(pt.columns, ServerIdKey).None?
    requires i < |d.tagKeys| && d.tagKeys[i] == ServerIdKey
    ensures var (k, o) := ConvertPoint(m, d, seen, pt, coerce).value;
      && Restricted(m)
      && ServerIdKey in o.tags
      && ((forall j :: !Feeds(m, pt.columns, j, ServerIdKey)) ==> o.tags[ServerIdKey] == k.tags[i])
  {
    CandidateSpec(m, d.tagKeys, pt);
    var cand := CandidateOf(m, d.tagKeys, pt).value;
    assert !Accepted(m, pt.columns, d.tagKeys[i]) ==> false;
    // The slot holds `server_id`, declared only once: it is slot `i`.
    assert cand.slot == Some(i);
    ResolveSpec(m, seen, cand);
    var res := Resolve(m, seen, cand).value;
    var id := res.syntheticId.value;
    var tags0 := SyntheticTags(res);
    assert tags0 == map[ServerIdKey := NatToString(id)];
    StartTagsKept(m, d, pt.columns, tags0, coerce);
    ClassifyTagValues(m, d, pt.columns, tags0, coerce);
    var t := ClassifyAll(m, d, pt.columns, tags0, coerce).value;
    if forall j :: !Feeds(m, pt.columns, j, ServerIdKey) {
      assert t.0[ServerIdKey] == NatToString(id) == res.key.tags[i];
    }
  }

  /** An emitted tag agrees with the tuple committed for the point when every
      column feeding that tag carries the tag's own key and one does: the
      point is emitted under the very tag values it was deduplicated by. */
  lemma EmittedTagMatchesTuple(m: Measurement, d: Decl, seen: set<Key>, pt: RawPoint, coerce: Coercion, i: nat)
    requires Declared(d.tagKeys, d.fieldTypes)
    requires ConvertPoint(m, d, seen, pt, coerce).Ok?
    requires UniqueKeys(pt.columns)
    requires i < |d.tagKeys|
    requires forall j :: Feeds(m, pt.columns, j, d.tagKeys[i]) ==> pt.columns[j].0 == d.tagKeys[i]
    requires exists j :: Feeds(m, pt.columns, j, d.tagKeys[i])
    ensures var (k, o) := ConvertPoint(m, d, seen, pt, coerce).value;
      d.tagKeys[i] in o.tags && o.tags[d.tagKeys[i]] == k.tags[i]
  {
    var j0 :| Feeds(m, pt.columns, j0, d.tagKeys[i]);
    LookupFinds(pt.columns, j0);
    var cand := CandidateOf(m, d.tagKeys, pt).value;
    TupleTagOfPresentKey(m, seen, d.tagKeys, pt, i);
    var res := Resolve(m, seen, cand).value;
    EmittedTagOfPresentKey(m, d, pt.columns, SyntheticTags(res), coerce, d.tagKeys[i]);
  }

  /** Each declared tag of `pt` is fed only by columns carrying the tag's own
      key, which no other column of the point shares. */
  predicate TagsFedByOwnKey(m: Measurement, d: Decl, pt: RawPoint) {
    && UniqueKeys(pt.columns)
    && forall i, j :: 0 <= i < |d.tagKeys| && 0 <= j < |pt.columns| && Feeds(m, pt.columns, j, d.tagKeys[i]) ==>
         pt.columns[j].0 == d.tagKeys[i]
  }

  /** The emitted point `o` carries the timestamp of tuple `k` and, under
      each declared tag, the tuple's text at that tag's position; a tag it
      lacks is one the tuple holds as the text of a null value. */
  predicate EmittedAs(d: Decl, k: Key, o: OutPoint) {
    && o.time == k.time && |k.tags| == |d.tagKeys|
    && forall i :: 0 <= i < |d.tagKeys| ==>
         if d.tagKeys[i] in o.tags then o.tags[d.tagKeys[i]] == k.tags[i] else k.tags[i] == Show(Null)
  }

  /** Two points emitted as their tuples with the same timestamp and tags come
      from the same tuple. */
  lemma EmittedAsDetermines(d: Decl, k1: Key, o1: OutPoint, k2: Key, o2: OutPoint)
    requires EmittedAs(d, k1, o1) && EmittedAs(d, k2, o2)
    ensures o1.time == o2.time && o1.tags == o2.tags ==> k1 == k2
  {
    if o1.time == o2.time && o1.tags == o2.tags {
      forall i | 0 <= i < |k1.tags| ensures k1.tags[i] == k2.tags[i] {
        if d.tagKeys[i] in o1.tags {
          assert k1.tags[i] == o1.tags[d.tagKeys[i]] == k2.tags[i];
        }
      }
    }
  }

  /** A declared tag whose column is present but null, and which no other
      column feeds, is left out of the emitted point, while the tuple holds
      the text "None" for it. */
  lemma EmittedNullTag(m: Measurement, d: Decl, seen: set<Key>, pt: RawPoint, coerce: Coercion, i: nat)
    requires PlainTags(m, d)
    requires ConvertPoint(m, d, seen, pt, coerce).Ok?
    requires UniqueKeys(pt.columns)
    requires i < |d.tagKeys| && Lookup(pt.columns, d.tagKeys[i]).Some?
    requires forall j :: !Feeds(m, pt.columns, j, d.tagKeys[i])
    ensures var (k, o) := ConvertPoint(m, d, seen, pt, coerce).value;
      i < |k.tags| && d.tagKeys[i] !in o.tags && k.tags[i] == Show(Null)
  {
    PointCommitsFreshKey(m, d, seen, pt, coerce);
    var key := d.tagKeys[i];
    var j :| 0 <= j < |pt.columns| && pt.columns[j].0 == key;
    LookupFinds(pt.columns, j);
    assert !Feeds(m, pt.columns, j, key);
    assert pt.columns[j].1 == Null;
    var cand := CandidateOf(m, d.tagKeys, pt).value;
    TupleTagOfPresentKey(m, seen, d.tagKeys, pt, i);
    var res := Resolve(m, seen, cand).value;
    var tags0 := SyntheticTags(res);
    assert key !in tags0 && forall t :: t in tags0 ==> t in d.tagKeys;
    ClassifyTagValues(m, d, pt.columns, tags0, coerce);
  }

  /** A point whose tags are fed by their own keys is emitted as the tuple it
      commits. */
  lemma PointEmittedAsTuple(m: Measurement, d: Decl, seen: set<Key>, pt: RawPoint, coerce: Coercion)
    requires Declared(d.tagKeys, d.fieldTypes) && PlainTags(m, d)
    requires ConvertPoint(m, d, seen, pt, coerce).Ok?
    requires TagsFedByOwnKey(m, d, pt)
    ensures var (k, o) := ConvertPoint(m, d, seen, pt, coerce).value; EmittedAs(d, k, o)
  {
    var (k, o) := ConvertPoint(m, d, seen, pt, coerce).value;
    PointCommitsFreshKey(m, d, seen, pt, coerce);
    CandidateSpec(m, d.tagKeys, pt);
    forall i | 0 <= i < |d.tagKeys|
      ensures if d.tagKeys[i] in o.tags then o.tags[d.tagKeys[i]] == k.tags[i] else k.tags[i] == Show(Null)
    {
      if exists j :: Feeds(m, pt.columns, j, d.tagKeys[i]) {
        EmittedTagMatchesTuple(m, d, seen, pt, coerce, i);
      } else if Lookup(pt.columns, d.tagKeys[i]).Some? {
        EmittedNullTag(m, d, seen, pt, coerce, i);
      } else {
        // A missing tag was accepted, so it is the excused `server_id`.
        assert Accepted(m, pt.columns, d.tagKeys[i]);
        SyntheticServerId(m, d, seen, pt, coerce, i);
      }
    }
  }

  /** The step commits only tuples not committed before, and emits each point
      under the name `name` at its tuple's timestamp, never earlier than the
      raw one. */
  ghost predicate CommitsFresh(step: Step, name: string) {
    forall seen, pt :: step(seen, pt).Ok? ==>
      var (k, o) := step(seen, pt).value;
      k !in seen && o.measurement == name && o.time == k.time && pt.time <= k.time
  }

  /** The conversion of every measurement commits fresh tuples. */
  lemma PointStepCommitsFresh(m: Measurement, d: Decl, coerce: Coercion)
    ensures CommitsFresh(PointStep(m, d, coerce), Name(m))
  {
    forall seen, pt | PointStep(m, d, coerce)(seen, pt).Ok?
      ensures var (k, o) := PointStep(m, d, coerce)(seen, pt).value;
        k !in seen && o.measurement == Name(m) && o.time == k.time && pt.time <= k.time
    {
      PointCommitsFreshKey(m, d, seen, pt, coerce);
    }
  }

  /** With a step that commits fresh tuples, a run emits one point per
      committed tuple, under the measurement's name and at that tuple's
      timestamp, never earlier than the raw point, and converts every point
      when it does not fail. */
  lemma {:induction false} RunEmits(step: Step, name: string, seen: set<Key>, pts: seq<RawPoint>)
    requires CommitsFresh(step, name)
    ensures var r := RunFrom(step, seen, pts);
      && |r.keys| == |r.points| <= |pts|
      && (r.error.None? ==> |r.keys| == |pts|)
      && (forall i :: 0 <= i < |r.keys| ==>
            r.points[i].measurement == name && r.points[i].time == r.keys[i].time && pts[i].time <= r.points[i].time)
    decreases |pts|
  {
    if pts != [] && step(seen, pts[0]).Ok? {
      var (k, o) := step(seen, pts[0]).value;
      RunEmits(step, name, seen + {k}, pts[1..]);
      var rest := RunFrom(step, seen + {k}, pts[1..]);
      var r := RunFrom(step, seen, pts);
      assert r.keys == [k] + rest.keys && r.points == [o] + rest.points;
      forall i | 0 < i < |r.keys|
        ensures r.points[i].measurement == name && r.points[i].time == r.keys[i].time && pts[i].time <= r.points[i].time
      {
        assert r.keys[i] == rest.keys[i - 1] && r.points[i] == rest.points[i - 1] && pts[i] == pts[1..][i - 1];
      }
    }
  }

  /** None of `keys` is in `seen`. */
  predicate NoneIn(keys: seq<Key>, seen: set<Key>) {
    forall i :: 0 <= i < |keys| ==> keys[i] !in seen
  }

  /** No tuple occurs twice in `keys`. */
  predicate Distinct(keys: seq<Key>) {
    forall i, j :: 0 <= i < j < |keys| ==> keys[i] != keys[j]
  }

  /** With a step that commits fresh tuples, a run commits pairwise distinct
      tuples, none of them committed before. */
  lemma {:induction false} RunKeysFresh(step: Step, name: string, seen: set<Key>, pts: seq<RawPoint>)
    requires CommitsFresh(step, name)
    ensures NoneIn(RunFrom(step, seen, pts).keys, seen) && Distinct(RunFrom(step, seen, pts).keys)
    decreases |pts|
  {
    if pts != [] && step(seen, pts[0]).Ok? {
      var k := step(seen, pts[0]).value.0;
      var seen' := seen + {k};
      RunKeysFresh(step, name, seen', pts[1..]);
      var rest := RunFrom(step, seen', pts[1..]);
      var r := RunFrom(step, seen, pts);
      assert r.keys == [k] + rest.keys && k !in seen;
      assert NoneIn(rest.keys, seen') && Distinct(rest.keys);
      forall i | 0 < i < |r.keys| ensures r.keys[i] !in seen' {
        assert r.keys[i] == rest.keys[i - 1];
      }
      forall i, j | 0 <= i < j < |r.keys| ensures r.keys[i] != r.keys[j] {
        assert r.keys[j] == rest.keys[j - 1];
        if i > 0 {
          assert r.keys[i] == rest.keys[i - 1];
        }
      }
    }
  }

  /** The conversion of a measurement writes no tuple twice, emits every
      point under the measurement's name, and converts every point when it
      does not fail. */
  lemma ConversionCommitsDistinctKeys(name: string, points: seq<RawPoint>, coerce: Coercion)
    ensures var r := Conversion(name, points, coerce);
      && |r.keys| == |r.points| <= |points|
      && (r.error.None? ==> |r.keys| == |points|)
      && (forall i, j :: 0 <= i < j < |r.keys| ==> r.keys[i] != r.keys[j])
      && (forall i :: 0 <= i < |r.points| ==> r.points[i].measurement == name)
  {
    if points != [] && Parse(name).Some? {
      var m := Parse(name).value;
      PointStepCommitsFresh(m, DeclOf(m), coerce);
      RunEmits(PointStep(m, DeclOf(m), coerce), Name(m), {}, points);
      RunKeysFresh(PointStep(m, DeclOf(m), coerce), Name(m), {}, points);
      assert Distinct(Conversion(name, points, coerce).keys);
    }
  }

  /** The step emits every point whose tags are fed by their own keys as the
      tuple it commits. */
  ghost predicate EmitsAsTuple(step: Step, m: Measurement, d: Decl) {
    forall seen, pt :: TagsFedByOwnKey(m, d, pt) && step(seen, pt).Ok? ==>
      EmittedAs(d, step(seen, pt).value.0, step(seen, pt).value.1)
  }

  /** The step of every measurement emits points as their tuples. */
  lemma PointStepEmitsAsTuple(m: Measurement, coerce: Coercion)
    ensures EmitsAsTuple(PointStep(m, DeclOf(m), coerce), m, DeclOf(m))
  {
    SchemaWellFormed(m);
    SchemaTagsPlain(m);
    forall seen, pt | TagsFedByOwnKey(m, DeclOf(m), pt) && PointStep(m, DeclOf(m), coerce)(seen, pt).Ok?
      ensures EmittedAs(DeclOf(m), PointStep(m, DeclOf(m), coerce)(seen, pt).value.0,
                        PointStep(m, DeclOf(m), coerce)(seen, pt).value.1)
    {
      PointEmittedAsTuple(m, DeclOf(m), seen, pt, coerce);
    }
  }

  /** In a run over points whose tags are fed by their own keys, every point
      is emitted as the tuple committed for it. */
  lemma {:induction false} RunEmitsAsTuples(step: Step, m: Measurement, d: Decl, seen: set<Key>, pts: seq<RawPoint>)
    requires EmitsAsTuple(step, m, d)
    requires forall i :: 0 <= i < |pts| ==> TagsFedByOwnKey(m, d, pts[i])
    ensures var r := RunFrom(step, seen, pts);
      |r.keys| == |r.points| && forall i :: 0 <= i < |r.keys| ==> EmittedAs(d, r.keys[i], r.points[i])
    decreases |pts|
  {
    if pts != [] && step(seen, pts[0]).Ok? {
      var (k, o) := step(seen, pts[0]).value;
      assert TagsFedByOwnKey(m, d, pts[0]);
      assert forall i :: 0 <= i < |pts[1..]| ==> pts[1..][i] == pts[i + 1];
      RunEmitsAsTuples(step, m, d, seen + {k}, pts[1..]);
      var rest := RunFrom(step, seen + {k}, pts[1..]);
      var r := RunFrom(step, seen, pts);
      assert r.keys == [k] + rest.keys && r.points == [o] + rest.points;
      forall i | 0 < i < |r.keys| ensures EmittedAs(d, r.keys[i], r.points[i]) {
        assert r.keys[i] == rest.keys[i - 1] && r.points[i] == rest.points[i - 1];
      }
    }
  }

  /** When every point's tags are fed by their own keys, no two points of a
      measurement are emitted with the same timestamp and tags, so none
      overwrites another on upload. */
  lemma ConversionEmitsDistinctPoints(m: Measurement, points: seq<RawPoint>, coerce: Coercion)
    requires forall i :: 0 <= i < |points| ==> TagsFedByOwnKey(m, DeclOf(m), points[i])
    ensures var r := Conversion(Name(m), points, coerce);
      forall a, b :: 0 <= a < b < |r.points| ==> r.points[a].time != r.points[b].time || r.points[a].tags != r.points[b].tags
  {
    ParseName(m);
    var d := DeclOf(m);
    var step := PointStep(m, d, coerce);
    PointStepCommitsFresh(m, d, coerce);
    PointStepEmitsAsTuple(m, coerce);
    RunKeysFresh(step, Name(m), {}, points);
    RunEmitsAsTuples(step, m, d, {}, points);
    var r := Conversion(Name(m), points, coerce);
    assert points != [] ==> r == RunFrom(step, {}, points);
    forall a, b | 0 <= a < b < |r.points|
      ensures r.points[a].time != r.points[b].time || r.points[a].tags != r.points[b].tags
    {
      EmittedAsDetermines(d, r.keys[a], r.points[a], r.keys[b], r.points[b]);
    }
  }

  /** The tuples `keys` and points `points` followed by the run `r`. */
  function After(keys: seq<Key>, points: seq<OutPoint>, r: Run): Run {
    Run(keys + r.keys, points + r.points, r.error)
  }

  /** A run that has emitted `keys` and `points` and converts the next point
      successfully goes on from the tuples committed so far plus that point's. */
  lemma RunAdvances(step: Step, seen: set<Key>, pts: seq<RawPoint>, keys: seq<Key>, points: seq<OutPoint>)
    requires pts != [] && step(seen, pts[0]).Ok?
    ensures var (k, o) := step(seen, pts[0]).value;
      After(keys, points, RunFrom(step, seen, pts))
        == After(keys + [k], points + [o], RunFrom(step, seen + {k}, pts[1..]))
  {
    var (k, o) := step(seen, pts[0]).value;
    var rest := RunFrom(step, seen + {k}, pts[1..]);
    assert keys + ([k] + rest.keys) == (keys + [k]) + rest.keys;
    assert points + ([o] + rest.points) == (points + [o]) + rest.points;
  }

  /** The body of the point loop: builds the point's tuple, resolves its
      collisions, and files its columns. */
  method ConvertOne(m: Measurement, d: Decl, seen: set<Key>, pt: RawPoint, coerce: Coercion)
    returns (r: Result<(Key, OutPoint), Error>)
    ensures r == ConvertPoint(m, d, seen, pt, coerce)
  {
    var cand := BuildCandidate(m, d.tagKeys, pt);
    if cand.Err? {
      return Err(cand.error);
    }
    var res := ResolveCollisions(m, seen, cand.value);
    if res.Err? {
      return Err(res.error);
    }
    var key := res.value.key;
    var tables := ClassifyColumns(m, d, pt.columns, SyntheticTags(res.value), coerce);
    if tables.Err? {
      return Err(tables.error);
    }
    return Ok((key, OutPoint(Name(m), key.time, tables.value.0, tables.value.1)));
  }

  /** Appends an emitted point to the pending batch and writes the batch
      once it holds BatchSize points. */
  method Collect(written: seq<seq<OutPoint>>, body: seq<OutPoint>, out: OutPoint)
    returns (written': seq<seq<OutPoint>>, body': seq<OutPoint>)
    requires |body| < BatchSize
    requires forall j :: 0 <= j < |written| ==> |written[j]| == BatchSize
    ensures Flatten(written') + body' == Flatten(written) + body + [out]
    ensures |body'| < BatchSize && written <= written'
    ensures forall j :: 0 <= j < |written'| ==> |written'[j]| == BatchSize
  {
    written', body' := written, body + [out];
    if |body'| >= BatchSize {
      FlattenAppend(written', body');
      written', body' := written' + [body'], [];
    }
  }

  /** Writes the pending batch, if it holds any point. */
  method Flush(written: seq<seq<OutPoint>>, body: seq<OutPoint>) returns (written': seq<seq<OutPoint>>)
    requires |body| < BatchSize
    requires forall j :: 0 <= j < |written| ==> |written[j]| == BatchSize
    ensures written' == Batches(Flatten(written) + body)
  {
    FullThenRest(written, body);
    written' := written;
    if body != [] {
      written' := written' + [body];
    }
  }

  /** The point loop of `convert_measurement` for a declared measurement:
      converts the points in order and writes them in batches. It returns the
      batches written and the error that aborted it, if any; batches written
      before an abort stay written, the partly filled batch does not. */
  method ConvertPoints(m: Measurement, d: Decl, points: seq<RawPoint>, coerce: Coercion, ghost step: Step)
    returns (written: seq<seq<OutPoint>>, error: Option<Error>)
    requires forall seen, pt {:trigger ConvertPoint(m, d, seen, pt, coerce)} ::
      step(seen, pt) == ConvertPoint(m, d, seen, pt, coerce)
    ensures var r := RunFrom(step, {}, points);
      && error == r.error
      && written == Batches(if error.None? then r.points else WholeBatches(r.points))
  {
    var body: seq<OutPoint> := [];
    var seen: set<Key> := {};
    ghost var keys: seq<Key> := [];
    ghost var emitted: seq<OutPoint> := [];
    written, error := [], None;
    var i := 0;
    while i < |points|
      invariant 0 <= i <= |points|
      invariant RunFrom(step, {}, points) == After(keys, emitted, RunFrom(step, seen, points[i..]))
      invariant Flatten(written) + body == emitted
      invariant |body| < BatchSize
      invariant forall j :: 0 <= j < |written| ==> |written[j]| == BatchSize
    {
      assert points[i..][0] == points[i] && points[i..][1..] == points[i + 1..];
      var next := ConvertOne(m, d, seen, points[i], coerce);
      if next.Err? {
        error := Some(next.error);
        break;
      }
      var (key, out) := next.value;
      RunAdvances(step, seen, points[i..], keys, emitted);
      seen := seen + {key};
      written, body := Collect(written, body, out);
      keys, emitted := keys + [key], emitted + [out];
      i := i + 1;
    }
    ghost var r := RunFrom(step, {}, points);
    if i == |points| {
      assert points[i..] == [];
      assert r.points == emitted + [] == emitted;
      written := Flush(written, body);
    } else {
      assert r.points == emitted + [] == emitted;
      FullBatchesOnly(written, body);
    }
  }

  /** `convert_measurement`: looks the measurement up in the schema, then
      converts and writes its points; every write holds between one and
      BatchSize points. */
  method ConvertMeasurement(name: string, points: seq<RawPoint>, coerce: Coercion)
    returns (written: seq<seq<OutPoint>>, error: Option<Error>)
    ensures var r := Conversion(name, points, coerce);
      && error == r.error
      && written == Batches(if error.None? then r.points else WholeBatches(r.points))
    ensures forall j :: 0 <= j < |written| ==> 0 < |written[j]| <= BatchSize
  {
    var parsed := Parse(name);
    if parsed.None? {
      written, error := [], if points == [] then None else Some(UnknownMeasurement(name));
      return;
    }
    var m := parsed.value;
    PointStepConverts(m, DeclOf(m), coerce);
    written, error := ConvertPoints(m, DeclOf(m), points, coerce, PointStep(m, DeclOf(m), coerce));
    ghost var r := Conversion(name, points, coerce);
    BatchesShape(if error.None? then r.points else WholeBatches(r.points));
  }
}
