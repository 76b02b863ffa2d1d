/** Splitting a closed integer range into consecutive fixed-width windows.

    Both planners of the repository have this shape: window starts run
    lo, lo + step, lo + 2*step, ... while they stay strictly below hi, and a
    window starting at s ends at min(s + step - 1, hi).  The hour-chunk
    planner of deribit_fetcher/fetch_futures.py uses it on timestamps, the
    trade-sequence planner of future.py on sequence numbers.  Because the
    starts must stay strictly below hi, the point hi itself is left out
    whenever hi - lo is a multiple of step. */
module Windows {
  import opened Trades

  /** A closed range [lo, hi]. */
  datatype Window = Window(lo: int, hi: int)

  function Min(a: int, b: int): int { if a <= b then a else b }

  /** The windows in the order they are produced. */
  function Plan(lo: int, hi: int, step: nat): (ws: seq<Window>)
    requires step > 0
    ensures ws == [] <==> hi <= lo
    decreases hi - lo
  {
    if lo < hi then [Window(lo, Min(lo + step - 1, hi))] + Plan(lo + step, hi, step)
    else []
  }

  /** Point x lies in some window of ws. */
  predicate Covered(ws: seq<Window>, x: int)
  {
    exists k :: 0 <= k < |ws| && ws[k].lo <= x <= ws[k].hi
  }

  /** The k-th window starts at lo + k*step, and there is a k-th window
      exactly when that start is still below hi. */
  lemma {:induction false} PlanAt(lo: int, hi: int, step: nat, k: nat)
    requires step > 0
    ensures k < |Plan(lo, hi, step)| <==> lo + k * step < hi
    ensures k < |Plan(lo, hi, step)| ==>
              Plan(lo, hi, step)[k] == Window(lo + k * step, Min(lo + k * step + step - 1, hi))
    decreases hi - lo
  {
    if lo < hi && k > 0 {
      PlanAt(lo + step, hi, step, k - 1);
      assert lo + step + (k - 1) * step == lo + k * step;
    } else if lo >= hi {
      assert lo + k * step >= lo;
    }
  }

  /** Every window lies inside [lo, hi], is non-empty and holds at most
      step points. */
  lemma {:induction false} PlanBounds(lo: int, hi: int, step: nat)
    requires step > 0
    ensures forall w :: w in Plan(lo, hi, step) ==>
              lo <= w.lo <= w.hi <= hi && w.hi - w.lo + 1 <= step
    decreases hi - lo
  {
    if lo < hi {
      PlanBounds(lo + step, hi, step);
    }
  }

  /** Each window starts one past the end of the previous one. */
  lemma {:induction false} PlanContiguous(lo: int, hi: int, step: nat)
    requires step > 0
    ensures forall k :: 0 < k < |Plan(lo, hi, step)| ==>
              Plan(lo, hi, step)[k].lo == Plan(lo, hi, step)[k - 1].hi + 1
    decreases hi - lo
  {
    if lo < hi {
      var ws := Plan(lo, hi, step);
      var rest := Plan(lo + step, hi, step);
      PlanContiguous(lo + step, hi, step);
      if rest != [] {
        assert ws[1] == rest[0] == Window(lo + step, Min(lo + step + step - 1, hi));
        assert ws[0].hi == lo + step - 1;
      }
      forall k | 1 < k < |ws|
        ensures ws[k].lo == ws[k - 1].hi + 1
      {
        assert ws[k] == rest[k - 1] && ws[k - 1] == rest[k - 2];
      }
    }
  }

  /** Windows never overlap: an earlier window ends before a later one starts. */
  lemma PlanDisjoint(lo: int, hi: int, step: nat, i: nat, j: nat)
    requires step > 0
    requires i < j < |Plan(lo, hi, step)|
    ensures Plan(lo, hi, step)[i].hi < Plan(lo, hi, step)[j].lo
    decreases j - i
  {
    var ws := Plan(lo, hi, step);
    PlanContiguous(lo, hi, step);
    if i + 1 < j {
      PlanDisjoint(lo, hi, step, i, j - 1);
      PlanBounds(lo, hi, step);
      assert ws[j - 1] in ws;
    }
  }

  lemma MulAtLeast(d: int, step: nat)
    requires d >= 1
    ensures d * step >= step
  {
    assert d * step == step + (d - 1) * step;
  }

  /** Euclidean remainders are unique. */
  lemma ModUnique(x: int, step: nat, q: int, r: int)
    requires step > 0 && x == q * step + r && 0 <= r < step
    ensures x % step == r
  {
    var q0, r0 := x / step, x % step;
    assert x == q0 * step + r0;
    var d := q - q0;
    assert d * step == q * step - q0 * step;
    assert d * step == r0 - r;
    if d >= 1 {
      MulAtLeast(d, step);
    } else if d <= -1 {
      MulAtLeast(-d, step);
    }
  }

  lemma ModShift(a: int, step: nat)
    requires step > 0
    ensures (a + step) % step == a % step
  {
    var q, r := a / step, a % step;
    ModUnique(a + step, step, q + 1, r);
  }

  lemma ModSmall(d: int, step: nat)
    requires step > 0 && 0 < d <= step
    ensures d % step == 0 <==> d == step
  {
    if d < step {
      assert d / step == 0;
    }
  }

  /** Exactly the points of [lo, hi) are covered, plus hi itself unless
      hi - lo is a multiple of step (which includes the case lo == hi). */
  lemma {:induction false} PlanCovers(lo: int, hi: int, step: nat, x: int)
    requires step > 0
    ensures Covered(Plan(lo, hi, step), x) <==>
              lo <= x < hi || (x == hi && lo < hi && (hi - lo) % step != 0)
    decreases hi - lo
  {
    if lo < hi {
      var ws := Plan(lo, hi, step);
      var rest := Plan(lo + step, hi, step);
      assert ws == [ws[0]] + rest;
      PlanCovers(lo + step, hi, step, x);
      ModShift(hi - (lo + step), step);
      if Covered(rest, x) {
        var k :| 0 <= k < |rest| && rest[k].lo <= x <= rest[k].hi;
        assert ws[k + 1] == rest[k];
      }
      if Covered(ws, x) && !(ws[0].lo <= x <= ws[0].hi) {
        var k :| 0 <= k < |ws| && ws[k].lo <= x <= ws[k].hi;
        assert rest[k - 1] == ws[k];
      }
      if lo + step >= hi {
        ModSmall(hi - lo, step);
      }
    }
  }

  /** The rows written to the file of one window (a time chunk or a range
      of sequence numbers): the file name is built from the window. */
  datatype ChunkFile = ChunkFile(window: Window, trades: seq<Trade>)

  /** A file whose window precedes every window of an ordered list of files
      can be put in front of it. */
  lemma ConsOrdered(f: ChunkFile, ws: seq<Window>, tail: seq<ChunkFile>)
    requires forall x :: x in tail ==> x.window in ws
    requires forall w :: w in ws ==> f.window.hi < w.lo
    requires forall i, j :: 0 <= i < j < |tail| ==> tail[i].window.hi < tail[j].window.lo
    ensures forall i, j :: 0 <= i < j < |[f] + tail| ==> ([f] + tail)[i].window.hi < ([f] + tail)[j].window.lo
  {
    forall i, j | 0 <= i < j < |[f] + tail|
      ensures ([f] + tail)[i].window.hi < ([f] + tail)[j].window.lo
    {
      assert ([f] + tail)[j] == tail[j - 1];
      if i == 0 {
        assert tail[j - 1] in tail;
      } else {
        assert ([f] + tail)[i] == tail[i - 1];
      }
    }
  }
}
