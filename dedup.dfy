/** The dedup tuple of a point, (timestamp, tag values in declared order), and
    the loop that moves a colliding tuple to one not yet committed: by bumping a
    synthetic `server_id` when the point had none, else by shifting the
    timestamp one microsecond at a time. */
module Dedup {
  import opened Wrappers
  import opened Schema
  import opened Points

  /** A dedup tuple: the timestamp followed by the tag values. */
  datatype Key = Key(time: int, tags: seq<string>)

  /** A freshly built tuple; `slot`, when present, is the index among the tag
      values of the synthetic `server_id`. */
  datatype Candidate = Candidate(key: Key, slot: Option<nat>)

  /** The committed tuple, and the synthetic id it carries when it has one. */
  datatype Resolution = Resolution(key: Key, syntheticId: Option<nat>)

  /** The synthetic slot, if any, is a tag position holding the first synthetic id. */
  predicate SlotFits(tags: seq<string>, slot: Option<nat>) {
    slot.Some? ==> slot.value < |tags| && tags[slot.value] == NatToString(1)
  }

  /** The text the tuple gets for tag `k`: the printed value, or the first
      synthetic id when the point lacks the key. */
  function TagText(columns: seq<Column>, k: string): string {
    match Lookup(columns, k)
    case Some(v) => Show(v)
    case None => NatToString(1)
  }

  /** Appends the tag values for `keys` to `acc`, stopping at the first absent
      tag that is not excused. */
  function TagTuple(m: Measurement, keys: seq<string>, columns: seq<Column>,
                    acc: seq<string>, slot: Option<nat>): (r: Result<(seq<string>, Option<nat>), Error>)
    requires SlotFits(acc, slot)
    ensures r.Ok? ==> |r.value.0| == |acc| + |keys| && acc <= r.value.0 && SlotFits(r.value.0, r.value.1)
    decreases |keys|
  {
    if keys == [] then Ok((acc, slot))
    else match Lookup(columns, keys[0])
      case Some(v) => TagTuple(m, keys[1..], columns, acc + [Show(v)], slot)
      case None =>
        if MayBeMissing(m, keys[0])
        then TagTuple(m, keys[1..], columns, acc + [NatToString(1)], Some(|acc|))
        else Err(MissingTag(keys[0]))
  }

  /** The candidate tuple of a point of measurement `m`, whose declared tag
      keys are `keys`. */
  function CandidateOf(m: Measurement, keys: seq<string>, pt: RawPoint): (r: Result<Candidate, Error>)
    ensures r.Ok? ==> SlotFits(r.value.key.tags, r.value.slot)
  {
    var t :- TagTuple(m, keys, pt.columns, [], None);
    Ok(Candidate(Key(pt.time, t.0), t.1))
  }

  /** Tag `k` is in the point, or its absence is excused. */
  predicate Accepted(m: Measurement, columns: seq<Column>, k: string) {
    Lookup(columns, k).Some? || MayBeMissing(m, k)
  }

  /** The slot after the tag loop files key `k` behind `acc`. */
  function NextSlot(columns: seq<Column>, k: string, acc: seq<string>, slot: Option<nat>): Option<nat> {
    if Lookup(columns, k).Some? then slot else Some(|acc|)
  }

  /** One accepted key: the tag loop goes on with that key's text appended. */
  lemma TagTupleStep(m: Measurement, keys: seq<string>, columns: seq<Column>,
                     acc: seq<string>, slot: Option<nat>)
    requires SlotFits(acc, slot)
    requires keys != [] && Accepted(m, columns, keys[0])
    ensures SlotFits(acc + [TagText(columns, keys[0])], NextSlot(columns, keys[0], acc, slot))
    ensures TagTuple(m, keys, columns, acc, slot)
      == TagTuple(m, keys[1..], columns, acc + [TagText(columns, keys[0])], NextSlot(columns, keys[0], acc, slot))
  {
  }

  /** The tag loop succeeds exactly when every declared tag is in the point
      or excused. */
  lemma {:induction false} TagTupleOk(m: Measurement, keys: seq<string>, columns: seq<Column>,
                                      acc: seq<string>, slot: Option<nat>)
    requires SlotFits(acc, slot)
    ensures TagTuple(m, keys, columns, acc, slot).Ok? <==> forall i :: 0 <= i < |keys| ==> Accepted(m, columns, keys[i])
    decreases |keys|
  {
    if keys != [] && Accepted(m, columns, keys[0]) {
      TagTupleStep(m, keys, columns, acc, slot);
      TagTupleOk(m, keys[1..], columns, acc + [TagText(columns, keys[0])], NextSlot(columns, keys[0], acc, slot));
      assert forall i :: 0 <= i < |keys[1..]| ==> keys[1..][i] == keys[i + 1];
    }
  }

  /** A failed tag loop names the first declared tag, in declared order, that
      is absent without excuse. */
  lemma {:induction false} TagTupleFirstMissing(m: Measurement, keys: seq<string>, columns: seq<Column>,
                                                acc: seq<string>, slot: Option<nat>)
    requires SlotFits(acc, slot)
    requires TagTuple(m, keys, columns, acc, slot).Err?
    ensures exists i :: 0 <= i < |keys| && !Accepted(m, columns, keys[i])
                        && (forall j :: 0 <= j < i ==> Accepted(m, columns, keys[j]))
                        && TagTuple(m, keys, columns, acc, slot).error == MissingTag(keys[i])
    decreases |keys|
  {
    if Accepted(m, columns, keys[0]) {
      var next := acc + [TagText(columns, keys[0])];
      var slot' := NextSlot(columns, keys[0], acc, slot);
      TagTupleStep(m, keys, columns, acc, slot);
      TagTupleFirstMissing(m, keys[1..], columns, next, slot');
      var e := TagTuple(m, keys[1..], columns, next, slot').error;
      var i :| 0 <= i < |keys[1..]| && !Accepted(m, columns, keys[1..][i])
               && (forall j :: 0 <= j < i ==> Accepted(m, columns, keys[1..][j]))
               && e == MissingTag(keys[1..][i]);
      assert forall j :: 0 <= j <= i ==> keys[1..][j] == keys[j + 1];
      assert forall j :: 0 <= j < i + 1 ==> Accepted(m, columns, keys[j]);
    } else {
      assert !Accepted(m, columns, keys[0]) && TagTuple(m, keys, columns, acc, slot).error == MissingTag(keys[0]);
    }
  }

  /** Position |acc| + i of a successful tuple holds the text of the i-th key. */
  lemma {:induction false} TagTupleTexts(m: Measurement, keys: seq<string>, columns: seq<Column>,
                                         acc: seq<string>, slot: Option<nat>)
    requires SlotFits(acc, slot)
    requires TagTuple(m, keys, columns, acc, slot).Ok?
    ensures var t := TagTuple(m, keys, columns, acc, slot).value.0;
      forall i :: 0 <= i < |keys| ==> t[|acc| + i] == TagText(columns, keys[i])
    decreases |keys|
  {
    if keys != [] {
      assert Accepted(m, columns, keys[0]);
      var next := acc + [TagText(columns, keys[0])];
      var slot' := NextSlot(columns, keys[0], acc, slot);
      TagTupleStep(m, keys, columns, acc, slot);
      TagTupleTexts(m, keys[1..], columns, next, slot');
      var t := TagTuple(m, keys[1..], columns, next, slot').value.0;
      assert t == TagTuple(m, keys, columns, acc, slot).value.0;
      assert next <= t && t[|acc|] == next[|acc|];
      forall i | 0 < i < |keys| ensures t[|acc| + i] == TagText(columns, keys[i]) {
        assert keys[1..][i - 1] == keys[i] && t[|next| + (i - 1)] == TagText(columns, keys[1..][i - 1]);
      }
    }
  }

  /** A successful tuple records a new slot only for an absent key. */
  lemma {:induction false} TagTupleSlotAbsent(m: Measurement, keys: seq<string>, columns: seq<Column>,
                                              acc: seq<string>, slot: Option<nat>)
    requires SlotFits(acc, slot)
    requires TagTuple(m, keys, columns, acc, slot).Ok?
    ensures var s := TagTuple(m, keys, columns, acc, slot).value.1;
      s != slot ==> exists i :: 0 <= i < |keys| && s == Some(|acc| + i) && Lookup(columns, keys[i]).None?
    decreases |keys|
  {
    if keys != [] {
      assert Accepted(m, columns, keys[0]);
      var next := acc + [TagText(columns, keys[0])];
      var slot' := NextSlot(columns, keys[0], acc, slot);
      TagTupleStep(m, keys, columns, acc, slot);
      TagTupleSlotAbsent(m, keys[1..], columns, next, slot');
      var s := TagTuple(m, keys, columns, acc, slot).value.1;
      if s != slot' {
        var j :| 0 <= j < |keys[1..]| && s == Some(|next| + j) && Lookup(columns, keys[1..][j]).None?;
        assert s == Some(|acc| + (j + 1)) && Lookup(columns, keys[j + 1]).None?;
      }
    }
  }

  /** A successful tuple records a slot whenever some key is absent. */
  lemma {:induction false} TagTupleSlotSet(m: Measurement, keys: seq<string>, columns: seq<Column>,
                                           acc: seq<string>, slot: Option<nat>)
    requires SlotFits(acc, slot)
    requires TagTuple(m, keys, columns, acc, slot).Ok?
    requires exists i :: 0 <= i < |keys| && Lookup(columns, keys[i]).None?
    ensures TagTuple(m, keys, columns, acc, slot).value.1.Some?
    decreases |keys|
  {
    assert Accepted(m, columns, keys[0]);
    var next := acc + [TagText(columns, keys[0])];
    var slot' := NextSlot(columns, keys[0], acc, slot);
    TagTupleStep(m, keys, columns, acc, slot);
    if Lookup(columns, keys[0]).None? {
      TagTupleKeepsSlot(m, keys[1..], columns, next, slot');
    } else {
      var i :| 0 <= i < |keys| && Lookup(columns, keys[i]).None?;
      assert keys[1..][i - 1] == keys[i];
      TagTupleSlotSet(m, keys[1..], columns, next, slot');
    }
  }

  /** Once recorded, a slot stays recorded. */
  lemma {:induction false} TagTupleKeepsSlot(m: Measurement, keys: seq<string>, columns: seq<Column>,
                                             acc: seq<string>, slot: Option<nat>)
    requires SlotFits(acc, slot) && slot.Some?
    requires TagTuple(m, keys, columns, acc, slot).Ok?
    ensures TagTuple(m, keys, columns, acc, slot).value.1.Some?
    decreases |keys|
  {
    if keys != [] {
      assert Accepted(m, columns, keys[0]);
      TagTupleStep(m, keys, columns, acc, slot);
      TagTupleKeepsSlot(m, keys[1..], columns, acc + [TagText(columns, keys[0])], NextSlot(columns, keys[0], acc, slot));
    }
  }

  /** The candidate tuple is the timestamp followed by one text per declared tag,
      in declared order; a point lacking a declared tag is rejected, naming the
      first such tag, unless the tag is `server_id` of a restricted
      measurement, which then gets the synthetic id 1 and a recorded slot. */
  lemma CandidateSpec(m: Measurement, keys: seq<string>, pt: RawPoint)
    ensures var r := CandidateOf(m, keys, pt);
      && (r.Ok? <==> forall i :: 0 <= i < |keys| ==> Accepted(m, pt.columns, keys[i]))
      && (r.Err? ==> exists i :: 0 <= i < |keys| && !Accepted(m, pt.columns, keys[i])
                                  && (forall j :: 0 <= j < i ==> Accepted(m, pt.columns, keys[j]))
                                  && r.error == MissingTag(keys[i]))
      && (r.Ok? ==> r.value.key.time == pt.time && |r.value.key.tags| == |keys|)
      && (r.Ok? ==> forall i :: 0 <= i < |keys| ==> r.value.key.tags[i] == TagText(pt.columns, keys[i]))
      && (r.Ok? ==> (r.value.slot.Some? <==> exists i :: 0 <= i < |keys| && Lookup(pt.columns, keys[i]).None?))
      && (r.Ok? && r.value.slot.Some? ==>
            r.value.slot.value < |keys| && keys[r.value.slot.value] == ServerIdKey
            && Lookup(pt.columns, ServerIdKey).None?)
  {
    TagTupleOk(m, keys, pt.columns, [], None);
    var r := CandidateOf(m, keys, pt);
    if r.Err? {
      TagTupleFirstMissing(m, keys, pt.columns, [], None);
    }
    if r.Ok? {
      TagTupleTexts(m, keys, pt.columns, [], None);
      TagTupleSlotAbsent(m, keys, pt.columns, [], None);
      if exists i :: 0 <= i < |keys| && Lookup(pt.columns, keys[i]).None? {
        TagTupleSlotSet(m, keys, pt.columns, [], None);
      }
    }
    if r.Ok? && r.value.slot.Some? {
      var i :| 0 <= i < |keys| && r.value.slot == Some(i) && Lookup(pt.columns, keys[i]).None?;
      assert MayBeMissing(m, keys[i]);
    }
  }

  /** The tag loop of a point: builds the candidate tuple the way
      CandidateOf describes. */
  method BuildCandidate(m: Measurement, keys: seq<string>, pt: RawPoint) returns (r: Result<Candidate, Error>)
    ensures r == CandidateOf(m, keys, pt)
  {
    var tags: seq<string> := [];
    var slot: Option<nat> := None;
    for i := 0 to |keys|
      invariant |tags| == i && SlotFits(tags, slot)
      invariant TagTuple(m, keys, pt.columns, [], None) == TagTuple(m, keys[i..], pt.columns, tags, slot)
    {
      match Lookup(pt.columns, keys[i])
      case Some(v) =>
        tags := tags + [Show(v)];
      case None =>
        if !MayBeMissing(m, keys[i]) {
          return Err(MissingTag(keys[i]));
        }
        tags := tags + [NatToString(1)];
        slot := Some(|tags| - 1);
    }
    return Ok(Candidate(Key(pt.time, tags), slot));
  }

  /** The tuple `k` with synthetic id `id` written into tag position `i`. */
  function WithId(k: Key, i: nat, id: nat): Key
    requires i < |k.tags|
  {
    Key(k.time, k.tags[i := NatToString(id)])
  }

  /** The tuple `k` with its timestamp moved `d` microseconds later. */
  function Shifted(k: Key, d: nat): Key {
    Key(k.time + d, k.tags)
  }

  /** `n` distinct tuples all in `seen` means `seen` has at least `n` members. */
  lemma {:induction false} DistinctInSeen(seen: set<Key>, f: nat -> Key, n: nat)
    requires forall a: nat, b: nat :: a < b < n ==> f(a) != f(b)
    requires forall j: nat :: j < n ==> f(j) in seen
    ensures n <= |seen|
  {
    if n > 0 {
      var rest := seen - {f(n - 1)};
      forall j: nat | j < n - 1 ensures f(j) in rest {
        assert f(j) != f(n - 1);
      }
      DistinctInSeen(rest, f, n - 1);
    }
  }

  /** Ids 1..n all collided: there are at least n committed tuples. */
  lemma IdsBound(seen: set<Key>, k: Key, i: nat, n: nat)
    requires i < |k.tags|
    requires forall j :: 1 <= j <= n ==> WithId(k, i, j) in seen
    ensures n <= |seen|
  {
    var f := (j: nat) => WithId(k, i, j + 1);
    forall a: nat, b: nat | a < b < n ensures f(a) != f(b) {
      if f(a) == f(b) {
        assert f(a).tags[i] == NatToString(a + 1) && f(b).tags[i] == NatToString(b + 1);
        NatToStringInjective(a + 1, b + 1);
      }
    }
    forall j: nat | j < n ensures f(j) in seen {
      assert 1 <= j + 1 <= n;
    }
    DistinctInSeen(seen, f, n);
  }

  /** Shifts 0..n-1 all collided: there are at least n committed tuples. */
  lemma ShiftsBound(seen: set<Key>, k: Key, n: nat)
    requires forall j :: 0 <= j < n ==> Shifted(k, j) in seen
    ensures n <= |seen|
  {
    var f := (j: nat) => Shifted(k, j);
    assert forall a: nat, b: nat :: a < b < n ==> f(a).time != f(b).time;
    DistinctInSeen(seen, f, n);
  }

  /** The least synthetic id from `id` on whose tuple is not yet committed,
      given that every id below `id` collided. */
  function FirstFreeId(seen: set<Key>, k: Key, i: nat, id: nat): (r: nat)
    requires i < |k.tags| && 1 <= id
    requires forall j :: 1 <= j < id ==> WithId(k, i, j) in seen
    ensures id <= r && WithId(k, i, r) !in seen
    ensures forall j :: 1 <= j < r ==> WithId(k, i, j) in seen
    decreases |seen| - id
  {
    if WithId(k, i, id) !in seen then id
    else
      IdsBound(seen, k, i, id);
      FirstFreeId(seen, k, i, id + 1)
  }

  /** The least shift from `d` on whose tuple is not yet committed, given that
      every smaller shift collided. */
  function FirstFreeShift(seen: set<Key>, k: Key, d: nat): (r: nat)
    requires forall j :: 0 <= j < d ==> Shifted(k, j) in seen
    ensures d <= r && Shifted(k, r) !in seen
    ensures forall j :: 0 <= j < r ==> Shifted(k, j) in seen
    decreases |seen| - d
  {
    if Shifted(k, d) !in seen then d
    else
      ShiftsBound(seen, k, d + 1);
      FirstFreeShift(seen, k, d + 1)
  }

  /** Where the collision loop leaves a candidate: with a synthetic slot, the
      first id from 1 up whose tuple is free; without one, the first free
      shift of the timestamp, except that a restricted measurement whose
      candidate collides is an error. */
  function Resolve(m: Measurement, seen: set<Key>, c: Candidate): Result<Resolution, Error>
    requires SlotFits(c.key.tags, c.slot)
  {
    match c.slot
    case Some(i) =>
      var id := FirstFreeId(seen, c.key, i, 1);
      Ok(Resolution(WithId(c.key, i, id), Some(id)))
    case None =>
      if Restricted(m) && c.key in seen then Err(ShiftForbidden(Name(m)))
      else
        assert c.key == Shifted(c.key, 0);
        Ok(Resolution(Shifted(c.key, FirstFreeShift(seen, c.key, 0)), None))
  }

  /** Resolution fails exactly for a restricted measurement whose tuple,
      without a synthetic slot, collides; otherwise the resolved tuple is not
      committed yet. With a slot, only the slot changes, to the least id from
      1 up whose tuple is free; without one, only the timestamp moves forward,
      by the least number of microseconds that frees the tuple, and not at
      all for a restricted measurement. */
  lemma ResolveSpec(m: Measurement, seen: set<Key>, c: Candidate)
    requires SlotFits(c.key.tags, c.slot)
    ensures var r := Resolve(m, seen, c);
      && (r.Err? <==> c.slot.None? && Restricted(m) && c.key in seen)
      && (r.Err? ==> r.error == ShiftForbidden(Name(m)))
      && (r.Ok? ==> r.value.key !in seen && |r.value.key.tags| == |c.key.tags|)
      && (r.Ok? && c.slot.Some? ==>
            var i := c.slot.value;
            && r.value.syntheticId.Some? && 1 <= r.value.syntheticId.value
            && r.value.key.time == c.key.time
            && r.value.key.tags[i] == NatToString(r.value.syntheticId.value)
            && (forall j :: 0 <= j < |c.key.tags| && j != i ==> r.value.key.tags[j] == c.key.tags[j])
            && (forall id :: 1 <= id < r.value.syntheticId.value ==> WithId(c.key, i, id) in seen))
      && (r.Ok? && c.slot.None? ==>
            && r.value.syntheticId.None?
            && r.value.key.tags == c.key.tags && c.key.time <= r.value.key.time
            && (forall d :: 0 <= d < r.value.key.time - c.key.time ==> Shifted(c.key, d) in seen)
            && (Restricted(m) ==> r.value.key == c.key))
  {
  }

  /** A tag the point has keeps, in the committed tuple, the text it has in
      the candidate; a synthetic id is only used when `server_id` is declared
      and missing from the point. */
  lemma TupleTagOfPresentKey(m: Measurement, seen: set<Key>, keys: seq<string>, pt: RawPoint, i: nat)
    requires CandidateOf(m, keys, pt).Ok?
    requires Resolve(m, seen, CandidateOf(m, keys, pt).value).Ok?
    requires i < |keys| && Lookup(pt.columns, keys[i]).Some?
    ensures var res := Resolve(m, seen, CandidateOf(m, keys, pt).value).value;
      && i < |res.key.tags| && res.key.tags[i] == Show(Lookup(pt.columns, keys[i]).value)
      && (res.syntheticId.Some? ==> ServerIdKey in keys && Lookup(pt.columns, ServerIdKey).None?)
  {
    CandidateSpec(m, keys, pt);
    var cand := CandidateOf(m, keys, pt).value;
    ResolveSpec(m, seen, cand);
    if cand.slot.Some? {
      assert cand.slot.value != i;
    }
  }

  /** The collision loop: while the tuple is already committed, bump the
      synthetic id, or else shift the timestamp by one microsecond, failing for
      a restricted measurement. */
  method ResolveCollisions(m: Measurement, seen: set<Key>, c: Candidate) returns (r: Result<Resolution, Error>)
    requires SlotFits(c.key.tags, c.slot)
    ensures r == Resolve(m, seen, c)
  {
    var key := c.key;
    var fakeId: Option<nat> := if c.slot.Some? then Some(1) else None;
    ghost var shift: nat := 0;
    while key in seen
      invariant fakeId.Some? <==> c.slot.Some?
      invariant c.slot.Some? ==>
        var i := c.slot.value;
        && 1 <= fakeId.value && key == WithId(c.key, i, fakeId.value)
        && forall j :: 1 <= j < fakeId.value ==> WithId(c.key, i, j) in seen
      invariant c.slot.None? ==>
        && key == Shifted(c.key, shift)
        && (forall j :: 0 <= j < shift ==> Shifted(c.key, j) in seen)
        && (Restricted(m) ==> shift == 0)
      decreases |seen| - (if c.slot.Some? then fakeId.value else shift)
    {
      if fakeId.Some? {
        IdsBound(seen, c.key, c.slot.value, fakeId.value);
        fakeId := Some(fakeId.value + 1);
        key := Key(key.time, key.tags[c.slot.value := NatToString(fakeId.value)]);
      } else {
        if Restricted(m) {
          return Err(ShiftForbidden(Name(m)));
        }
        ShiftsBound(seen, c.key, shift + 1);
        key := Key(key.time + 1, key.tags);
        shift := shift + 1;
      }
    }
    r := Ok(Resolution(key, fakeId));
    if c.slot.Some? {
      var first := FirstFreeId(seen, c.key, c.slot.value, 1);
      assert WithId(c.key, c.slot.value, first) !in seen && WithId(c.key, c.slot.value, fakeId.value) !in seen;
    } else {
      var first := FirstFreeShift(seen, c.key, 0);
      assert Shifted(c.key, first) !in seen && Shifted(c.key, shift) !in seen;
    }
  }
}
