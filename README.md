# Tag-to-field conversion of Puffer telemetry, modelled in Dafny

This project models the core of `src/scripts/convert_tag_to_field.py`.
The script migrates every measurement of an InfluxDB database to a new schema.
The schema lists, for each of twelve measurements, which keys are tags (in a
fixed order) and which are fields (each with the type its value is converted
to).

For one measurement (`convert_measurement`), the script does this for each
point in order:

- It builds the point's dedup tuple: the timestamp, then one text per declared
  tag. Only `client_buffer`, `video_sent` and `video_acked` may lack
  `server_id`; such a point gets the synthetic id 1 in that position.
- While the tuple has already been committed, it either bumps the synthetic id
  or moves the timestamp one microsecond later. Moving the timestamp is fatal
  for those three measurements.
- It commits the tuple.
- It files every other non-null key as a tag or as a typed field. Outside
  `server_info`, a trailing `_1` is dropped from the key first.
- It emits the point. Writes happen every 1000 points, plus a final partial
  write.

`main` cuts the requested range of dates into one-day windows and converts
each window.

Each loop of the source is a method with a loop. It is proved equal to a
function that specifies it:

- `BuildCandidate` against `CandidateOf`;
- `ResolveCollisions` against `Resolve`;
- `ClassifyColumns` against `ClassifyAll`;
- `ConvertPoints` / `ConvertMeasurement` against `Conversion`, `RunFrom` and
  `Batches`;
- `DayWindows` against its window arithmetic.

The properties are lemmas about those functions. The main one is that a
conversion never commits the same dedup tuple twice. The others:

- the first free id, or the least timestamp shift, is chosen;
- the conversion fails exactly on the errors the script exits on;
- every key is placed in tags or fields;
- the last column feeding a key wins;
- an emitted point carries the tag values of its tuple when only columns with
  a tag's own key feed it; a tag whose column is null is left out of the point
  and held as "None" in the tuple. So no two emitted points of a measurement
  coincide;
- the batch shapes.

Modules:

- `Schema`: tables `tag_keys` and `field_keys`.
- `Points`: raw and emitted points, `str()`, the errors.
- `Dedup`: the tuple and the collision loop.
- `Classify`: the key loop.
- `Batching`: the writes.
- `Convert`: the point loop of `convert_measurement`.
- `Windows`: the loop in `main`.
- `Scenarios`: concrete conversions.

Where the code does something a reader would not expect, the model follows
the code:

- **Raw `server_id_1` column.** A point of `video_sent` (or `client_buffer`,
  `video_acked`) without `server_id` gets a synthetic id in its tuple.
  However, a raw `server_id_1` column normalises to `server_id` and then
  overwrites that tag in the emitted point. A reader would expect the
  synthetic value committed in the tuple to win.
  - `Scenarios.ServerIdColumnOverridesSyntheticId` shows the override.
  - `Scenarios.DistinctTuplesSameEmittedPoint` shows its consequence: two
    points with distinct tuples are emitted with the same timestamp and tags.
- **Undeclared measurement.** It fails only when it has a point, since the
  schema lookup happens inside the point loop.
- **Writes.** They are made in batches of 1000, not all at once. On an abort,
  the full batches already written stay written and the pending partial batch
  is lost.
- **Day windows.** The day loop would leave out a trailing part of the range
  shorter than a day. `main` never gives it one: both dates are taken at hour
  11 (lines 238-243), so the range is a whole number of days. `DayWindows`
  accepts any pair of hours and covers a whole-day range exactly.

## Model

| member | source | states |
|---|---|---|
| Schema.TagKeys | src/scripts/convert_tag_to_field.py:23-36 | the tag keys of each of the twelve measurements, in the order that builds the dedup tuple |
| Schema.FieldTypes | src/scripts/convert_tag_to_field.py:38-82 | the fields of each measurement, each with the type `int`, `float` or `str` its value is converted to |
| Schema.Parse | src/scripts/convert_tag_to_field.py:98 | looking a name up in the schema finds only the measurement of that name; an undeclared name finds none, where Python raises `KeyError` |
| Schema.ParseName | src/scripts/convert_tag_to_field.py:23-36 | every declared measurement name is found again in the schema, as the measurement it names |
| Schema.SchemaWellFormed | src/scripts/convert_tag_to_field.py:23-82 | every measurement declares each tag once and never also as a field; the three measurements that may lack `server_id` declare it as a tag |
| Points.Show | src/scripts/convert_tag_to_field.py:100 | Python's `str()` of a raw value: "None", the string itself, a decimal integer with its sign, a float's printed text, "True" or "False" |
| Points.Lookup | src/scripts/convert_tag_to_field.py:99-100 | a key is found in a raw point exactly when some column of the point has that key |
| Points.NatToStringInjective | src/scripts/convert_tag_to_field.py:120-122 | distinct synthetic ids print as distinct tag texts |
| Points.LookupFinds | src/scripts/convert_tag_to_field.py:99-100 | with unique keys, looking up a column's key finds that column's value |
| Points.Coerce | src/scripts/convert_tag_to_field.py:155-157 | calling `str` on a field value always succeeds with its printed text; with a sound `int`/`float`, a successful coercion yields the declared type |
| Dedup.TagTuple | src/scripts/convert_tag_to_field.py:98-113 | the tag loop appends one text per declared tag to the tuple and keeps the synthetic slot on a position holding "1" |
| Dedup.CandidateOf | src/scripts/convert_tag_to_field.py:97-113 | the candidate tuple is the timestamp followed by the tag loop's texts, with the slot it recorded |
| Dedup.TagTupleOk | src/scripts/convert_tag_to_field.py:98-109 | the tag loop succeeds exactly when every declared tag is in the point or excused |
| Dedup.TagTupleFirstMissing | src/scripts/convert_tag_to_field.py:98-109 | a failed tag loop names the first declared tag, in declared order, that is absent and not excused |
| Dedup.TagTupleTexts | src/scripts/convert_tag_to_field.py:98-112 | each position of the tuple holds the printed value of its declared tag, or "1" for the absent one |
| Dedup.TagTupleSlotAbsent | src/scripts/convert_tag_to_field.py:110-113 | a synthetic slot is recorded only at the position of an absent tag |
| Dedup.TagTupleSlotSet | src/scripts/convert_tag_to_field.py:110-113 | a synthetic slot is recorded whenever some declared tag is absent |
| Dedup.TagTupleKeepsSlot | src/scripts/convert_tag_to_field.py:110-113 | once recorded, the synthetic slot stays recorded to the end of the tag loop |
| Dedup.CandidateSpec | src/scripts/convert_tag_to_field.py:97-113 | the candidate is the timestamp followed by one text per declared tag in order; it fails exactly when a tag other than an excused `server_id` is absent, naming the first such tag in declared order; the slot is present exactly when a tag is absent, and it is the position of `server_id` |
| Dedup.BuildCandidate | src/scripts/convert_tag_to_field.py:94-113 | the tag loop computes CandidateOf |
| Dedup.IdsBound | src/scripts/convert_tag_to_field.py:116-122 | n colliding synthetic ids mean at least n committed tuples, so bumping the id terminates |
| Dedup.ShiftsBound | src/scripts/convert_tag_to_field.py:116-129 | n colliding shifts mean at least n committed tuples, so shifting the timestamp terminates |
| Dedup.FirstFreeId | src/scripts/convert_tag_to_field.py:116-122 | the id chosen is not yet committed and every id below it, from 1, is |
| Dedup.FirstFreeShift | src/scripts/convert_tag_to_field.py:116-129 | the shift chosen frees the tuple and every smaller shift collides |
| Dedup.TupleTagOfPresentKey | src/scripts/convert_tag_to_field.py:98-131 | a tag the point has keeps its printed value in the committed tuple, and a synthetic id is used only when `server_id` is missing from the point and declared |
| Dedup.Resolve | src/scripts/convert_tag_to_field.py:116-131 | the collision loop: with a slot, the least free id from 1; without one, an error for a restricted measurement whose tuple is committed, else the least free shift of the timestamp |
| Dedup.ResolveSpec | src/scripts/convert_tag_to_field.py:116-131 | resolution fails exactly when a restricted measurement collides without a synthetic slot, with that measurement's error; otherwise the tuple is not yet committed; with a slot only the slot changes, to the least free id; without one only the timestamp moves, by the least free shift, and never for a restricted measurement |
| Dedup.ResolveCollisions | src/scripts/convert_tag_to_field.py:116-131 | the collision loop computes Resolve |
| Classify.Place | src/scripts/convert_tag_to_field.py:142-159 | one key is skipped when it is `time` or null, else filed as a tag with its printed value, as a field with its coerced value, or rejected with that key's error |
| Classify.ClassifyAll | src/scripts/convert_tag_to_field.py:141-159 | the key loop files the keys in order, starting from the synthetic tags, and stops at the first error |
| Classify.SchemaTagsPlain | src/scripts/convert_tag_to_field.py:23-36 | no declared tag is `time` or ends in "_1", so a column with a tag's own key feeds that tag unless it is null |
| Classify.Normalize | src/scripts/convert_tag_to_field.py:148-151 | outside `server_info` a key ending in "_1" loses exactly that suffix; any other key is unchanged |
| Classify.NormalizeExamples | src/scripts/convert_tag_to_field.py:148-151 | `cwnd_1` of `video_sent` becomes `cwnd`; `server_id_1` of `server_info` stays |
| Classify.PlaceLast | src/scripts/convert_tag_to_field.py:141-157 | the last column sets a tag to its printed value when it is a tag, a field to its coerced value otherwise, and is skipped when it is `time` or null |
| Classify.ErrorPersists | src/scripts/convert_tag_to_field.py:153-159 | once a prefix of the keys has failed, the whole key loop fails with the same error |
| Classify.PlaceOutcome | src/scripts/convert_tag_to_field.py:141-159 | filing one key succeeds exactly when it is skipped, a declared tag, or a field whose value converts, and fails otherwise with the error for that key |
| Classify.ClassifyOk | src/scripts/convert_tag_to_field.py:141-159 | the key loop succeeds exactly when every key is classifiable |
| Classify.ClassifyFirstFailure | src/scripts/convert_tag_to_field.py:141-159 | a failed key loop stops with the error of the first key that is not classifiable |
| Classify.ColumnsPlaced | src/scripts/convert_tag_to_field.py:153-157 | after success, every key looked at is in the tags when it is a declared tag (and then not in the fields), and in the fields otherwise |
| Classify.TablesDeclared | src/scripts/convert_tag_to_field.py:138-157 | after success, the fields hold only declared fields that are not tags, and the tags only declared tags and the synthetic `server_id` |
| Classify.StartTagsKept | src/scripts/convert_tag_to_field.py:138-139 | the synthetic `server_id` tag set before the key loop is still a tag after it |
| Classify.LastFeedExtends | src/scripts/convert_tag_to_field.py:141-154 | the last key feeding a tag stays the last one when a later key does not feed it |
| Classify.NoFeedExtends | src/scripts/convert_tag_to_field.py:141-154 | a tag no key feeds stays unfed when a later key does not feed it |
| Classify.TagValue | src/scripts/convert_tag_to_field.py:138-154 | a tag holds the printed value of the last key feeding it, or keeps its synthetic value when no key does |
| Classify.ClassifyTagValues | src/scripts/convert_tag_to_field.py:138-154 | the above for every tag of the emitted point |
| Classify.EmittedTagOfPresentKey | src/scripts/convert_tag_to_field.py:141-154 | a declared tag fed only by columns with its own key, and by at least one, is emitted with the printed value of that key's column |
| Classify.FieldValue | src/scripts/convert_tag_to_field.py:155-157 | a field is a declared non-tag field holding the coerced value of the last key feeding it |
| Classify.ClassifyFieldValues | src/scripts/convert_tag_to_field.py:155-157 | the above for every field of the emitted point |
| Classify.ClassifyColumns | src/scripts/convert_tag_to_field.py:141-159 | the key loop computes ClassifyAll, stopping at the first key that is not classifiable |
| Batching.Batches | src/scripts/convert_tag_to_field.py:168-173 | the writes of a measurement: full batches of 1000 points, then the remainder when there is one |
| Batching.BatchesShape | src/scripts/convert_tag_to_field.py:168-173 | the writes concatenate back to the emitted points; each holds 1 to 1000 points, all but the last exactly 1000, and there are ceil(n/1000) of them |
| Batching.FlattenFull | src/scripts/convert_tag_to_field.py:168-170 | full writes hold 1000 points each |
| Batching.FullThenRest | src/scripts/convert_tag_to_field.py:168-173 | writing each full batch as it fills and then the remainder gives exactly Batches of all points |
| Batching.FullBatchesOnly | src/scripts/convert_tag_to_field.py:168-170 | on an abort, the writes made are the full batches of the points emitted so far |
| Batching.FlattenAppend | src/scripts/convert_tag_to_field.py:168-170 | writing one more batch appends its points to those written |
| Convert.ConvertPoint | src/scripts/convert_tag_to_field.py:94-166 | one iteration of the point loop: the candidate tuple, its resolution against the committed tuples, the key loop from the synthetic `server_id`, and the emitted point at the tuple's timestamp |
| Convert.RunFrom | src/scripts/convert_tag_to_field.py:92-166 | the point loop: each point is converted with the tuples of the points before it committed, and the first error stops the loop |
| Convert.Conversion | src/scripts/convert_tag_to_field.py:85-166 | the conversion of a measurement by name; an undeclared name fails on its first point, as the `KeyError` at line 98 does, and converts nothing when there is none |
| Convert.PointCommitsFreshKey | src/scripts/convert_tag_to_field.py:116-166 | a converted point commits a tuple not yet committed, with one text per declared tag; it is emitted under the measurement's name at the tuple's timestamp, never earlier than the raw one, and unchanged for the restricted measurements |
| Convert.SyntheticServerId | src/scripts/convert_tag_to_field.py:104-154 | a point of a measurement that declares `server_id` but lacks it converts only for a restricted measurement; it is emitted with a `server_id` tag, which is the id committed in its tuple when no key normalises to `server_id` |
| Convert.EmittedTagMatchesTuple | src/scripts/convert_tag_to_field.py:97-166 | a point is emitted, under a tag fed by its own key, with the text its committed tuple holds for that tag |
| Convert.EmittedNullTag | src/scripts/convert_tag_to_field.py:98-154 | a declared tag whose column is present but null, and fed by no other column, is left out of the emitted point while the tuple holds "None" for it |
| Convert.EmittedAsDetermines | src/scripts/convert_tag_to_field.py:131-166 | two points emitted as their tuples with the same timestamp and tags come from the same tuple |
| Convert.PointEmittedAsTuple | src/scripts/convert_tag_to_field.py:97-166 | a point whose tags are fed only by columns with their own keys is emitted at its tuple's timestamp, every tag holding the tuple's text for it, the synthetic `server_id` included, and every tag it lacks held as "None" in the tuple |
| Convert.PointStepEmitsAsTuple | src/scripts/convert_tag_to_field.py:97-166 | the point conversion of every measurement emits such points as their tuples |
| Convert.PointStepCommitsFresh | src/scripts/convert_tag_to_field.py:116-166 | the point conversion of every measurement commits only fresh tuples |
| Convert.RunEmits | src/scripts/convert_tag_to_field.py:92-166 | the point loop emits one point per committed tuple, under the measurement's name and at that tuple's timestamp, never earlier than the raw one, and converts every point when it does not abort |
| Convert.RunKeysFresh | src/scripts/convert_tag_to_field.py:90-131 | the point loop commits pairwise distinct tuples, none committed before it |
| Convert.ConversionCommitsDistinctKeys | src/scripts/convert_tag_to_field.py:85-166 | converting a measurement never commits a dedup tuple twice, emits every point under its name, and converts every point when it does not fail |
| Convert.RunEmitsAsTuples | src/scripts/convert_tag_to_field.py:92-166 | in the point loop every such point is emitted as the tuple committed for it |
| Convert.ConversionEmitsDistinctPoints | src/scripts/convert_tag_to_field.py:85-166 | when every point's tags are fed only by columns with their own keys (null tag columns included), no two emitted points of a measurement share timestamp and tags, so none overwrites another |
| Convert.RunAdvances | src/scripts/convert_tag_to_field.py:92-131 | after one converted point, the rest of the loop goes on with that point's tuple committed |
| Convert.ConvertOne | src/scripts/convert_tag_to_field.py:94-166 | one iteration of the point loop computes ConvertPoint |
| Convert.Collect | src/scripts/convert_tag_to_field.py:161-170 | appending a point and writing at 1000 keeps written plus pending equal to all emitted points, the pending batch below 1000, and every write full |
| Convert.Flush | src/scripts/convert_tag_to_field.py:172-173 | the final write makes the writes exactly Batches of the emitted points |
| Convert.ConvertPoints | src/scripts/convert_tag_to_field.py:89-173 | the point loop returns the run's error, and writes Batches of the emitted points, or only their full batches when it aborts |
| Convert.ConvertMeasurement | src/scripts/convert_tag_to_field.py:85-173 | `convert_measurement` returns the conversion's error and writes as above, each write holding 1 to 1000 points |
| Windows.DayWindows | src/scripts/convert_tag_to_field.py:245-260 | fails exactly when the end is not after the start; otherwise the windows are consecutive days from the start, the last ending no later than the end, with less than a day left over, none when the range is whole days, and there are (end - start) div 24 of them |
| Windows.WindowCount | src/scripts/convert_tag_to_field.py:248-252 | the number of whole days that fit in the range is (end - start) div 24 |
| Scenarios.BufferCandidate | src/scripts/convert_tag_to_field.py:97-113 | a `client_buffer` point without `server_id` has candidate tuple (5, "c", "1") with its slot at position 1 |
| Scenarios.BufferPointsGetSyntheticIds | src/scripts/convert_tag_to_field.py:116-139 | that point gets the id 1 with nothing committed and the id 2 once (5, "c", "1") is committed, and is emitted with that `server_id` |
| Scenarios.SsimCandidate | src/scripts/convert_tag_to_field.py:97-100 | an `ssim` point's tuple is its time, channel and format, with no slot |
| Scenarios.SsimCollisionShiftsTime | src/scripts/convert_tag_to_field.py:116-129 | an `ssim` point keeps its time with nothing committed and is moved one microsecond later when its tuple is committed |
| Scenarios.NullChannelConverted | src/scripts/convert_tag_to_field.py:97-166 | an `ssim` point with a null `channel` column commits the tuple (5, "None", "f"), or (6, "None", "f") when that one is committed, and is emitted without a `channel` tag |
| Scenarios.SentCandidate | src/scripts/convert_tag_to_field.py:97-100 | a `video_sent` point's tuple is its time, channel and `server_id`, with no slot |
| Scenarios.SentCollisionAborts | src/scripts/convert_tag_to_field.py:124-128 | a `video_sent` point whose tuple is committed aborts the conversion |
| Scenarios.SentPointConverted | src/scripts/convert_tag_to_field.py:116-154 | a `video_sent` point whose tuple is free keeps its time and is emitted with its own tags |
| Scenarios.SuffixedCandidate | src/scripts/convert_tag_to_field.py:97-113 | a `video_sent` point with `server_id_1` but no `server_id` gets the synthetic id 1 in its tuple |
| Scenarios.ServerIdColumnOverridesSyntheticId | src/scripts/convert_tag_to_field.py:138-154 | that point commits id 1 but is emitted with `server_id` "7", the value of its `server_id_1` column |
| Scenarios.DistinctTuplesSameEmittedPoint | src/scripts/convert_tag_to_field.py:116-166 | a `server_id_1` point and a `server_id` point commit distinct tuples yet are emitted identically |
| Scenarios.ClassifyOneTag | src/scripts/convert_tag_to_field.py:153-154 | a point whose one key is a tag emits that tag with its printed value |
| Scenarios.ClassifyTwoTags | src/scripts/convert_tag_to_field.py:153-154 | a point whose two keys are tags emits both, the second filed last |
| Scenarios.UndeclaredMeasurement | src/scripts/convert_tag_to_field.py:92-98 | a measurement missing from the schema fails on its first point and converts to nothing when it has none |
| Scenarios.MissingChannelAborts | src/scripts/convert_tag_to_field.py:98-109 | a `backlog` point without `channel` aborts with that tag named |

## Left out

- Reading points from InfluxDB and writing batches to it (lines 87, 169 and 173). The points are a parameter, and the writes are returned as a sequence of batches.
- The diagnostics written to stderr. Each `sys.exit` becomes an `Error` value; the measurement name missing from `tag_keys`, which raises `KeyError`, becomes `UnknownMeasurement`.
- Timestamps. `np.datetime64` and its text form become an integer number of microseconds, and one tick of `np.timedelta64(1, 'u')` is `+ 1`.
- Dates in `main`. `strptime`/`strftime` and `timedelta(days=1)` become integer hours with a day of 24; the date format has hour precision.
- Python's `int()` and `float()` on field values. They are a function parameter, `None` where Python raises, since their parsing rules are not part of this code. `str()` is modelled.
- Floating-point values. They are kept as the text `str()` prints for them.
- `convert` (lines 176-220), called once per window: download, restore, backup, upload, `sleep` and the list of measurements. It is external I/O; `DayWindows` returns the windows it would be called with.
- Argument parsing, the YAML settings and the database connection in `main`. They are I/O.
- Key order and uniqueness of a raw point. A raw point is an ordered list of columns, in the dict's iteration order. Python dict keys are unique; the model does not require it, and `Lookup` takes the first column with a key. Only the lemmas relating emitted tags to the tuple assume it, as `UniqueKeys`.
