/** How emitted points are grouped into writes: a batch is written whenever
    1000 points have accumulated, and a last, partial batch at the end. */
module Batching {

  /** Points per write. */
  const BatchSize := 1000

  /** The batches, concatenated in order. */
  function Flatten<T>(bs: seq<seq<T>>): seq<T> {
    if bs == [] then [] else bs[0] + Flatten(bs[1..])
  }

  /** The writes the converter makes for the points `s`: full batches of
      BatchSize points, then the remainder if there is one. */
  function Batches<T>(s: seq<T>): seq<seq<T>>
    decreases |s|
  {
    if |s| == 0 then []
    else if |s| <= BatchSize then [s]
    else [s[..BatchSize]] + Batches(s[BatchSize..])
  }

  /** Every batch is non-empty and at most BatchSize long, all but the last
      are full, there are ceil(|s| / BatchSize) of them, and concatenated they
      give back `s`. */
  lemma {:induction false} BatchesShape<T>(s: seq<T>)
    ensures var bs := Batches(s);
      && Flatten(bs) == s
      && (forall i :: 0 <= i < |bs| ==> 0 < |bs[i]| <= BatchSize)
      && (forall i :: 0 <= i < |bs| - 1 ==> |bs[i]| == BatchSize)
      && |bs| == (|s| + BatchSize - 1) / BatchSize
    decreases |s|
  {
    if |s| > BatchSize {
      var rest := Batches(s[BatchSize..]);
      BatchesShape(s[BatchSize..]);
      assert Batches(s) == [s[..BatchSize]] + rest;
      assert Flatten(Batches(s)) == s[..BatchSize] + Flatten(rest);
      assert forall i :: 1 <= i < |Batches(s)| ==> Batches(s)[i] == rest[i - 1];
    }
  }

  /** Full batches have BatchSize points each. */
  lemma {:induction false} FlattenFull<T>(w: seq<seq<T>>)
    requires forall i :: 0 <= i < |w| ==> |w[i]| == BatchSize
    ensures |Flatten(w)| == BatchSize * |w|
    decreases |w|
  {
    if w != [] {
      FlattenFull(w[1..]);
    }
  }

  /** Flushing full batches as they fill and then a remainder shorter than a
      batch writes exactly Batches of everything. */
  lemma {:induction false} FullThenRest<T>(w: seq<seq<T>>, rest: seq<T>)
    requires forall i :: 0 <= i < |w| ==> |w[i]| == BatchSize
    requires |rest| <= BatchSize
    ensures Batches(Flatten(w) + rest) == w + (if rest == [] then [] else [rest])
    decreases |w|
  {
    if w != [] {
      var tail := Flatten(w[1..]) + rest;
      FullThenRest(w[1..], rest);
      FlattenFull(w[1..]);
      var s := Flatten(w) + rest;
      assert s == w[0] + tail;
      if tail == [] {
        assert w[1..] == [] && rest == [];
        assert s == w[0];
        assert w == [w[0]];
      } else {
        assert |s| > BatchSize;
        assert s[..BatchSize] == w[0] && s[BatchSize..] == tail;
        assert Batches(s) == [w[0]] + Batches(tail);
        assert w == [w[0]] + w[1..];
      }
    } else {
      assert Flatten(w) + rest == rest;
    }
  }

  /** The points of `s` that fill whole batches. */
  function WholeBatches<T>(s: seq<T>): seq<T> {
    s[..|s| - |s| % BatchSize]
  }

  /** When a conversion aborts, the full batches already flushed are the
      batches of the emitted points that fill whole batches. */
  lemma FullBatchesOnly<T>(w: seq<seq<T>>, body: seq<T>)
    requires forall i :: 0 <= i < |w| ==> |w[i]| == BatchSize
    requires |body| < BatchSize
    ensures Batches(WholeBatches(Flatten(w) + body)) == w
  {
    FlattenFull(w);
    FullThenRest(w, []);
    var s := Flatten(w) + body;
    assert |s| % BatchSize == |body|;
    assert WholeBatches(s) == Flatten(w) + [];
  }

  lemma FlattenAppend<T>(w: seq<seq<T>>, b: seq<T>)
    ensures Flatten(w + [b]) == Flatten(w) + b
    decreases |w|
  {
    if w != [] {
      assert (w + [b])[1..] == w[1..] + [b];
    }
  }
}
