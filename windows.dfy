/** The outer loop of the migration: the requested range of hours is cut
    into consecutive one-day windows, each converted on its own. Times are
    whole hours, the precision of the dates the migration is given. */
module Windows {
  import opened Wrappers

  /** Hours in one window. */
  const HoursPerDay := 24

  /** The range is rejected when its end is not after its start. */
  datatype WindowError = EndNotAfterStart

  /** The windows converted for the range from `start` to `end`: one window
      of a day per iteration, from `start` on, as long as the window ends no
      later than `end`. It fails when `end` is not after `start`. The windows
      are consecutive, each a day long, and together they cover the range but
      for a tail shorter than a day; a range of whole days, such as the one
      between two dates taken at the same hour, is covered entirely. */
  method DayWindows(start: int, end: int) returns (r: Result<seq<(int, int)>, WindowError>)
    ensures r.Err? <==> end <= start
    ensures r.Ok? ==>
      var w := r.value;
      && (forall i :: 0 <= i < |w| ==> w[i] == (start + HoursPerDay * i, start + HoursPerDay * (i + 1)))
      && start + HoursPerDay * |w| <= end < start + HoursPerDay * (|w| + 1)
      && |w| == (end - start) / HoursPerDay
      && ((end - start) % HoursPerDay == 0 ==> start + HoursPerDay * |w| == end)
  {
    if end <= start {
      return Err(EndNotAfterStart);
    }
    var w: seq<(int, int)> := [];
    var s := start;
    while true
      invariant s == start + HoursPerDay * |w| <= end
      invariant forall i :: 0 <= i < |w| ==> w[i] == (start + HoursPerDay * i, start + HoursPerDay * (i + 1))
      decreases end - s
    {
      var e := s + HoursPerDay;
      if e > end {
        break;
      }
      w := w + [(s, e)];
      s := e;
    }
    WindowCount(start, end, |w|);
    return Ok(w);
  }

  /** `n` whole days fit between `start` and `end`, and no more, exactly when
      `n` is the number of hours between them divided by a day. */
  lemma WindowCount(start: int, end: int, n: nat)
    requires start + HoursPerDay * n <= end < start + HoursPerDay * (n + 1)
    ensures n == (end - start) / HoursPerDay
  {
    var q := (end - start) / HoursPerDay;
    assert end - start == HoursPerDay * q + (end - start) % HoursPerDay;
  }
}
