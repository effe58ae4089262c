/** Which WindowPoSt deadlines a full alert check looks at. */
module DeadlineWalk {
  import opened Basics

  /** Chain metadata of a miner's current deadline. */
  datatype Info = Info(index: nat, count: nat, periodStart: int, open: int, window: int, period: int)

  /** One closed deadline that needs a proof check. */
  datatype Check = Check(periodStart: int, deadline: nat, closeEpoch: int)

  const FINALITY_BUFFER := 5

  /** First epoch before the alert window; `interval` is the epochs in one full alert interval. */
  function From(head: int, interval: nat): int {
    if head - interval - 1 > 0 then head - interval - 1 else 0
  }

  function To(head: int): int {
    head - FINALITY_BUFFER
  }

  /** The consistency test the check itself makes. */
  predicate Consistent(i: Info) {
    i.count != 0 && i.window > 0 && i.period == i.count * i.window
  }

  /** What the chain guarantees of the current deadline at a given head. */
  predicate Current(i: Info, head: int) {
    i.index < i.count && i.open == i.periodStart + i.index * i.window && i.open <= head < i.open + i.window
  }

  predicate PeriodsApart(a: int, b: int, m: int, period: int) {
    a == b + m * period
  }

  /** c names a real deadline of the miner: a whole number of proving periods away, and its close. */
  ghost predicate Deadline(i: Info, c: Check) {
    && c.deadline < i.count && c.closeEpoch == c.periodStart + (c.deadline + 1) * i.window
    && exists m: int :: PeriodsApart(c.periodStart, i.periodStart, m, i.period)
  }

  ghost predicate ClosedIn(i: Info, c: Check, from: int, to: int) {
    Deadline(i, c) && from < c.closeEpoch <= to
  }

  // ---------- Arithmetic of the deadline grid ----------

  /** A deadline's number, counted from deadline 0 of the current period. */
  lemma DeadlineNumber(i: Info, c: Check) returns (g: int, m: int)
    requires Consistent(i) && Deadline(i, c)
    ensures g == m * i.count + c.deadline && PeriodsApart(c.periodStart, i.periodStart, m, i.period)
    ensures c.closeEpoch == i.periodStart + (g + 1) * i.window
  {
    m :| PeriodsApart(c.periodStart, i.periodStart, m, i.period);
    g := m * i.count + c.deadline;
    calc {
      c.closeEpoch;
      i.periodStart + m * (i.count * i.window) + (c.deadline + 1) * i.window;
      i.periodStart + (m * i.count) * i.window + (c.deadline + 1) * i.window;
      i.periodStart + (m * i.count + c.deadline + 1) * i.window;
    }
  }

  /** Grid points less than one step apart are the same point, and have the same coordinates. */
  lemma SameNumber(w: int, count: int, start: int, g: int, h: int, m: int, n: int, a: int, b: int, x: int, y: int)
    requires w > 0 && x == start + (g + 1) * w && y == start + (h + 1) * w && -w < x - y < w
    requires g == m * count + a && h == n * count + b && 0 <= a < count && 0 <= b < count
    ensures x == y && m == n && a == b
  {
    assert x - y == (g - h) * w;
    SmallMultiple(g - h, w);
    assert (m - n) * count == b - a;
    SmallMultiple(m - n, count);
  }

  /** Two deadlines closing less than one window apart are the same. */
  lemma SameClose(i: Info, c: Check, d: Check)
    requires Consistent(i) && Deadline(i, c) && Deadline(i, d)
    requires -i.window < c.closeEpoch - d.closeEpoch < i.window
    ensures c == d
  {
    var g, m := DeadlineNumber(i, c);
    var h, n := DeadlineNumber(i, d);
    SameNumber(i.window, i.count, i.periodStart, g, h, m, n, c.deadline, d.deadline, c.closeEpoch, d.closeEpoch);
  }

  /** The deadline just before c. */
  function Before(i: Info, c: Check): Check
    requires i.count > 0
  {
    if c.deadline == 0 then Check(c.periodStart - i.period, i.count - 1, c.closeEpoch - i.window)
    else Check(c.periodStart, c.deadline - 1, c.closeEpoch - i.window)
  }

  lemma BeforeIsDeadline(i: Info, c: Check)
    requires Consistent(i) && Deadline(i, c)
    ensures Deadline(i, Before(i, c))
  {
    var b := Before(i, c);
    var m: int :| PeriodsApart(c.periodStart, i.periodStart, m, i.period);
    if c.deadline == 0 {
      assert (m - 1) * i.period == m * i.period - i.period;
      assert PeriodsApart(b.periodStart, i.periodStart, m - 1, i.period);
    } else {
      assert (c.deadline - 1 + 1) * i.window == (c.deadline + 1) * i.window - i.window;
      assert PeriodsApart(b.periodStart, i.periodStart, m, i.period);
    }
  }

  /** The last deadline to close before the current one opened. */
  function Previous(i: Info): Check
    requires i.count > 0
  {
    if i.index == 0 then Check(i.periodStart - i.period, i.count - 1, i.open)
    else Check(i.periodStart, i.index - 1, i.open)
  }

  lemma PreviousIsDeadline(i: Info, head: int)
    requires Consistent(i) && Current(i, head)
    ensures Deadline(i, Previous(i))
  {
    var p := Previous(i);
    if i.index == 0 {
      assert PeriodsApart(p.periodStart, i.periodStart, -1, i.period);
    } else {
      assert PeriodsApart(p.periodStart, i.periodStart, 0, i.period);
    }
  }

  // ---------- The walk ----------

  /** Between two neighbours on the grid nothing closes. */
  lemma OnlyOneNew(i: Info, c: Check, d: Check)
    requires Consistent(i) && Deadline(i, c) && Deadline(i, d) && c.closeEpoch - i.window < d.closeEpoch <= c.closeEpoch
    ensures d == c
  {
    SameClose(i, d, c);
  }

  /** The closed-deadline enumeration for one miner: an error on inconsistent metadata, otherwise
      exactly the deadlines that closed in the alert window, each once, latest first. */
  method ClosedDeadlines(i: Info, head: int, interval: nat) returns (r: Result<seq<Check>>)
    requires head >= 0 && (Consistent(i) ==> Current(i, head))
    ensures r.Err? <==> !Consistent(i)
    ensures r.Ok? ==> forall c :: c in r.value <==> ClosedIn(i, c, From(head, interval), To(head))
    ensures r.Ok? ==> forall c :: c in r.value <==>
      Deadline(i, c) && c.closeEpoch > 0 && head - interval <= c.closeEpoch <= head - 5
    ensures r.Ok? ==> forall a, b :: 0 <= a < b < |r.value| ==> r.value[a].closeEpoch > r.value[b].closeEpoch
  {
    var from, to := From(head, interval), To(head);
    if i.count == 0 || i.window <= 0 || i.period != i.count * i.window {
      return Err;
    }
    var closeEpoch := i.open;
    var deadlineIndex := (i.index + i.count - 1) % i.count;
    WrapOnce(i.index + i.count - 1, i.count);
    var periodStart := i.periodStart;
    if i.index == 0 {
      periodStart := periodStart - i.period;
    }
    PreviousIsDeadline(i, head);
    forall c | ClosedIn(i, c, closeEpoch, to) ensures false {
      SameClose(i, c, Previous(i));
    }
    var checks: seq<Check> := [];
    while closeEpoch > from
      invariant from < closeEpoch + i.window && closeEpoch <= i.open && 0 <= deadlineIndex < i.count
      invariant Deadline(i, Check(periodStart, deadlineIndex, closeEpoch))
      invariant forall c :: c in checks <==> ClosedIn(i, c, closeEpoch, to)
      invariant forall a, b :: 0 <= a < b < |checks| ==> checks[a].closeEpoch > checks[b].closeEpoch
      decreases closeEpoch - from
    {
      ghost var here := Check(periodStart, deadlineIndex, closeEpoch);
      ghost var before := checks;
      if closeEpoch <= to {
        checks := checks + [Check(periodStart, deadlineIndex, closeEpoch)];
      }
      BeforeIsDeadline(i, here);
      forall c ensures c in checks <==> ClosedIn(i, c, closeEpoch - i.window, to) {
        if ClosedIn(i, c, closeEpoch - i.window, to) && !ClosedIn(i, c, closeEpoch, to) {
          OnlyOneNew(i, here, c);
        }
        if c in checks && c !in before {
          assert c == here;
        }
      }
      forall a | 0 <= a < |before| ensures before[a].closeEpoch > closeEpoch {
        assert before[a] in before;
      }
      closeEpoch := closeEpoch - i.window;
      if deadlineIndex == 0 {
        deadlineIndex := i.count - 1;
        periodStart := periodStart - i.period;
      } else {
        deadlineIndex := deadlineIndex - 1;
      }
    }
    ghost var last := Check(periodStart, deadlineIndex, closeEpoch);
    forall c | ClosedIn(i, c, closeEpoch, to) ensures from < c.closeEpoch {
      if c.closeEpoch <= from {
        SameClose(i, c, last);
      }
    }
    return Ok(checks);
  }

  // ---------- Coverage over successive checks ----------

  /** Heads of successive full checks. */
  predicate Heads(heads: seq<int>) {
    heads != [] && heads[0] >= 0 && forall i, j :: 0 <= i <= j < |heads| ==> heads[i] <= heads[j]
  }

  predicate Reaches(earlier: int, later: int, interval: nat) {
    later - earlier <= interval - 4 || later <= interval + 1
  }

  /** No two consecutive checks are further apart than their windows reach. */
  predicate NoGap(heads: seq<int>, interval: nat) {
    forall j :: 1 <= j < |heads| ==> Reaches(heads[j - 1], heads[j], interval)
  }

  predicate Within(e: int, head: int, interval: nat) {
    From(head, interval) < e <= To(head)
  }

  predicate Covered(heads: seq<int>, interval: nat, e: int) {
    exists i :: 0 <= i < |heads| && Within(e, heads[i], interval)
  }

  lemma {:induction false} EpochCovered(heads: seq<int>, interval: nat, e: int, n: nat) returns (i: nat)
    requires Heads(heads) && NoGap(heads, interval) && n < |heads|
    requires From(heads[0], interval) < e <= To(heads[n])
    ensures i <= n && Within(e, heads[i], interval)
  {
    if Within(e, heads[n], interval) {
      i := n;
    } else {
      assert n > 0;
      assert Reaches(heads[n - 1], heads[n], interval);
      i := EpochCovered(heads, interval, e, n - 1);
    }
  }

  /** A miner whose proving-period grid does not move: `base` is any of its period starts. */
  datatype Miner = Miner(base: int, count: nat, window: int)

  ghost predicate InfoOf(m: Miner, head: int, i: Info) {
    && i.count == m.count && i.window == m.window && Consistent(i) && Current(i, head)
    && exists k: int :: PeriodsApart(i.periodStart, m.base, k, i.period)
  }

  ghost predicate MinerDeadline(m: Miner, c: Check) {
    Deadline(Info(0, m.count, m.base, m.base, m.window, m.count * m.window), c)
  }

  /** Whatever the current deadline, the miner has the same deadlines. */
  lemma SameGrid(m: Miner, head: int, i: Info, c: Check)
    requires InfoOf(m, head, i)
    ensures Deadline(i, c) <==> MinerDeadline(m, c)
  {
    var k: int :| PeriodsApart(i.periodStart, m.base, k, i.period);
    if Deadline(i, c) {
      var j: int :| PeriodsApart(c.periodStart, i.periodStart, j, i.period);
      assert (j + k) * i.period == j * i.period + k * i.period;
      assert PeriodsApart(c.periodStart, m.base, j + k, i.period);
    }
    if MinerDeadline(m, c) {
      var j: int :| PeriodsApart(c.periodStart, m.base, j, m.count * m.window);
      assert (j - k) * i.period == j * i.period - k * i.period;
      assert PeriodsApart(c.periodStart, i.periodStart, j - k, i.period);
    }
  }

  /** Some check of the sequence looks at deadline c. */
  ghost predicate Examined(infos: seq<Info>, heads: seq<int>, interval: nat, c: Check)
    requires |infos| == |heads|
  {
    exists i :: 0 <= i < |heads| && ClosedIn(infos[i], c, From(heads[i], interval), To(heads[i]))
  }

  ghost predicate Sequence(m: Miner, infos: seq<Info>, heads: seq<int>) {
    Heads(heads) && |infos| == |heads| && forall i :: 0 <= i < |heads| ==> InfoOf(m, heads[i], infos[i])
  }

  /** Checks close enough together examine every deadline that closed between the first window's
      start and the last window's end. */
  lemma EveryDeadlineExamined(m: Miner, infos: seq<Info>, heads: seq<int>, interval: nat, c: Check)
    requires Sequence(m, infos, heads) && NoGap(heads, interval)
    requires MinerDeadline(m, c) && From(heads[0], interval) < c.closeEpoch <= To(heads[|heads| - 1])
    ensures Examined(infos, heads, interval, c)
  {
    var i := EpochCovered(heads, interval, c.closeEpoch, |heads| - 1);
    SameGrid(m, heads[i], infos[i], c);
  }

  /** A gap always hides something: the epoch just before the later window is in no window at all,
      so a deadline closing then goes unexamined. */
  lemma GapMissesADeadline(m: Miner, infos: seq<Info>, heads: seq<int>, interval: nat, i: nat, c: Check)
    requires Sequence(m, infos, heads) && interval >= 4 && i + 1 < |heads|
    requires !Reaches(heads[i], heads[i + 1], interval)
    requires MinerDeadline(m, c) && c.closeEpoch == From(heads[i + 1], interval)
    ensures From(heads[0], interval) < c.closeEpoch <= To(heads[|heads| - 1])
    ensures !Examined(infos, heads, interval, c)
  {
    assert heads[0] <= heads[i] && heads[i + 1] <= heads[|heads| - 1];
    forall j | 0 <= j < |heads| ensures !ClosedIn(infos[j], c, From(heads[j], interval), To(heads[j])) {
      if j <= i { assert heads[j] <= heads[i]; } else { assert heads[i + 1] <= heads[j]; }
    }
  }

  /** Every closing epoch is seen, for every miner grid, if and only if no two consecutive checks are
      more than interval-4 epochs apart (or the chain is younger than one interval). */
  lemma CoverageExactly(heads: seq<int>, interval: nat)
    requires Heads(heads) && interval >= 4
    ensures NoGap(heads, interval) <==>
      forall e :: From(heads[0], interval) < e <= To(heads[|heads| - 1]) ==> Covered(heads, interval, e)
  {
    if NoGap(heads, interval) {
      forall e | From(heads[0], interval) < e <= To(heads[|heads| - 1]) ensures Covered(heads, interval, e) {
        var i := EpochCovered(heads, interval, e, |heads| - 1);
      }
    } else {
      var n :| 1 <= n < |heads| && !Reaches(heads[n - 1], heads[n], interval);
      var e := From(heads[n], interval);
      assert heads[0] <= heads[n - 1] && heads[n] <= heads[|heads| - 1];
      forall j | 0 <= j < |heads| ensures !Within(e, heads[j], interval) {
        if j < n { assert heads[j] <= heads[n - 1]; } else { assert heads[n] <= heads[j]; }
      }
      assert !Covered(heads, interval, e);
    }
  }
}
