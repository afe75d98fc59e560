/** The headline trend of the overview (app.py:223-236): the mean of the
    last seven entries of the daily series against the mean of the first
    seven of its last fourteen entries, reported as a direction and a
    non-negative percentage. Means are exact rationals here. */
module Trend {
  import Grouping

  /** The number of series entries in each window. */
  const Window: nat := 7

  function Values(series: seq<Grouping.Entry<int>>): (xs: seq<int>)
    ensures |xs| == |series|
    ensures forall k :: 0 <= k < |series| ==> xs[k] == series[k].amount
  {
    seq(|series|, k requires 0 <= k < |series| => series[k].amount)
  }

  function Sum(xs: seq<int>): int
    decreases |xs|
  {
    if |xs| == 0 then 0 else xs[0] + Sum(xs[1..])
  }

  /** pandas `Series.mean()` of a non-empty series. */
  function Mean(xs: seq<int>): real
    requires |xs| > 0
  {
    Sum(xs) as real / |xs| as real
  }

  /** pandas' tail: the last `k` entries, or all of them when there are fewer. */
  function Tail<T>(s: seq<T>, k: nat): (r: seq<T>)
    ensures |r| == if |s| < k then |s| else k
    ensures r == s[|s| - |r|..]
  {
    if |s| <= k then s else s[|s| - k..]
  }

  /** pandas' head: the first `k` entries, or all of them when there are fewer. */
  function Head<T>(s: seq<T>, k: nat): (r: seq<T>)
    ensures |r| == if |s| < k then |s| else k
    ensures r == s[..|r|]
  {
    if |s| <= k then s else s[..k]
  }

  /** The recent window: the last seven entries. */
  function RecentWindow<T>(series: seq<T>): (r: seq<T>)
    ensures |series| >= Window ==> |r| == Window && r == series[|series| - Window..]
  {
    Tail(series, Window)
  }

  /** The previous window, the first seven of the last fourteen entries:
      the seven entries just before the recent window when there are at
      least fourteen, and the first seven entries when there are fewer;
      and so, for 8 to 13 entries, it shares entries with the recent
      window. */
  function PreviousWindow<T>(series: seq<T>): (p: seq<T>)
    ensures |series| >= 2 * Window ==>
              p == series[|series| - 2 * Window..|series| - Window]
    ensures Window <= |series| < 2 * Window ==> p == series[..Window]
    ensures |series| < Window ==> p == series
  {
    Head(Tail(series, 2 * Window), Window)
  }

  /** From fourteen entries on, the two windows are adjacent and disjoint:
      together they are exactly the last fourteen entries. */
  lemma WindowsAdjacent<T>(series: seq<T>)
    requires |series| >= 2 * Window
    ensures PreviousWindow(series) + RecentWindow(series) == series[|series| - 2 * Window..]
  {
  }

  /** With 8 to 13 entries the windows overlap in `14 - n` entries: the end of
      the previous window is the start of the recent one. */
  lemma WindowsOverlap<T>(series: seq<T>)
    requires Window < |series| < 2 * Window
    ensures PreviousWindow(series)[|series| - Window..]
            == RecentWindow(series)[..2 * Window - |series|]
  {
  }

  /** The trend percentage of app.py:223-233. */
  function TrendPct(series: seq<Grouping.Entry<int>>): (pct: real)
    // too short a history: no trend
    ensures |series| <= Window ==> pct == 0.0
    // no positive baseline (the guard is `prev_avg > 0`): no trend
    ensures |series| > Window && Mean(Values(PreviousWindow(series))) <= 0.0 ==> pct == 0.0
    // otherwise the relative change of the recent mean over the previous mean, in percent
    ensures |series| > Window && Mean(Values(PreviousWindow(series))) > 0.0 ==>
              pct * Mean(Values(PreviousWindow(series)))
              == (Mean(Values(RecentWindow(series))) - Mean(Values(PreviousWindow(series)))) * 100.0
    // the sign says which mean is larger; ties count as no fall
    ensures pct >= 0.0 <==>
              |series| <= Window
              || Mean(Values(PreviousWindow(series))) <= 0.0
              || Mean(Values(RecentWindow(series))) >= Mean(Values(PreviousWindow(series)))
  {
    if |series| > Window then
      Change(Mean(Values(PreviousWindow(series))), Mean(Values(RecentWindow(series))))
    else 0.0
  }

  /** The percentage change from the mean `prev` to the mean `recent`, or 0
      when `prev` is not positive (app.py:229-233). */
  function Change(prev: real, recent: real): (pct: real)
    ensures prev <= 0.0 ==> pct == 0.0
    ensures prev > 0.0 ==> pct * prev == (recent - prev) * 100.0
    ensures pct >= 0.0 <==> prev <= 0.0 || recent >= prev
  {
    if prev > 0.0 then
      var q := (recent - prev) / prev;
      assert q * prev == recent - prev;
      assert q >= 0.0 <==> recent >= prev by {
        if recent >= prev {
          assert q >= 0.0;
        } else {
          assert q < 0.0;
        }
      }
      q * 100.0
    else 0.0
  }

  datatype Direction = Up | Down

  /** What the headline shows: "上涨" (Up) or "下降" (Down), and a magnitude. */
  datatype Report = Report(direction: Direction, percent: real)

  /** The value the report stands for: the magnitude, negated for a fall. */
  function Signed(r: Report): real
  {
    if r.direction == Up then r.percent else -r.percent
  }

  /** The headline's direction and displayed magnitude (app.py:235-236). */
  function Describe(pct: real): (r: Report)
    ensures r.direction == Up <==> pct >= 0.0
    ensures r.percent >= 0.0
    ensures Signed(r) == pct
  {
    Report(if pct >= 0.0 then Up else Down, if pct >= 0.0 then pct else -pct)
  }

  /** The headline trend of a daily series. */
  function Analyze(series: seq<Grouping.Entry<int>>): (r: Report)
    ensures |series| <= Window ==> r == Report(Up, 0.0)
    ensures r.direction == Up <==>
              |series| <= Window
              || Mean(Values(PreviousWindow(series))) <= 0.0
              || Mean(Values(RecentWindow(series))) >= Mean(Values(PreviousWindow(series)))
    ensures r.percent >= 0.0
    // the headline stands for the signed change, shown as its absolute value
    ensures Signed(r) == TrendPct(series)
  {
    if |series| > Window then
      Headline(Mean(Values(PreviousWindow(series))), Mean(Values(RecentWindow(series))))
    else
      Describe(0.0)
  }

  /** The headline for a long enough history with means `prev` and `recent`. */
  function Headline(prev: real, recent: real): (r: Report)
    ensures prev <= 0.0 ==> r == Report(Up, 0.0)
    ensures prev > 0.0 ==> r.percent * prev == Distance(recent, prev) * 100.0
    ensures r.direction == Up <==> prev <= 0.0 || recent >= prev
    ensures r.percent >= 0.0
    ensures Signed(r) == Change(prev, recent)
  {
    var pct := Change(prev, recent);
    Magnitude(pct, prev, recent);
    Describe(pct)
  }

  /** A positive baseline fixes the displayed magnitude: scaled by the
      baseline it is the distance of the two means, in percent. */
  lemma Magnitude(pct: real, prev: real, recent: real)
    requires prev > 0.0 ==> pct * prev == (recent - prev) * 100.0
    ensures prev > 0.0 ==> Describe(pct).percent * prev == Distance(recent, prev) * 100.0
  {
    if prev > 0.0 {
      if pct >= 0.0 {
        assert recent >= prev by {
          assert (recent - prev) * 100.0 >= 0.0;
        }
      } else {
        assert recent < prev by {
          assert (recent - prev) * 100.0 < 0.0;
        }
        assert -pct * prev == (prev - recent) * 100.0;
      }
    }
  }

  /** How far apart two means are. */
  function Distance(a: real, b: real): real
  {
    if a >= b then a - b else b - a
  }
}
