/** Choosing a chain node for each attempt of a proxied call, and retrying on others. */
module ProviderRetry {
  import opened Basics

  const MAX_ATTEMPTS := 5
  const ALL_BAD := -1

  // ---------- Choosing a provider ----------

  predicate IsHealthy(bad: seq<bool>, i: int) {
    0 <= i < |bad| && !bad[i]
  }

  /** r is the first healthy provider met going round from `start`. */
  predicate FirstFrom(bad: seq<bool>, start: nat, r: int) {
    && IsHealthy(bad, r)
    && if r >= start then forall i :: start <= i < r ==> !IsHealthy(bad, i)
       else (forall i :: start <= i < |bad| ==> !IsHealthy(bad, i)) && forall i :: 0 <= i < r ==> !IsHealthy(bad, i)
  }

  predicate NoneHealthy(bad: seq<bool>) {
    forall i :: 0 <= i < |bad| ==> bad[i]
  }

  method NextHealthyProvider(bad: seq<bool>, start: nat) returns (r: int)
    requires start <= |bad|
    ensures r == ALL_BAD <==> NoneHealthy(bad)
    ensures r != ALL_BAD ==> FirstFrom(bad, start, r)
  {
    for i := 0 to |bad|
      invariant forall k :: start <= k < start + i && k < |bad| ==> bad[k]
      invariant forall k :: 0 <= k < start + i - |bad| ==> bad[k]
    {
      WrapOnce(start + i, |bad|);
      var idx := (start + i) % |bad|;
      if !bad[idx] {
        return idx;
      }
    }
    return ALL_BAD;
  }

  // ---------- One call ----------

  datatype Outcome = Success | Retryable | Fatal

  /** What the world does during a call: the health flags at each attempt, how the chosen provider
      answers, and whether the caller has given up by then. */
  datatype World = World(health: nat -> seq<bool>, answer: (nat, nat) -> Outcome, cancelled: nat -> bool)

  datatype End = Returned | Exhausted | Cancelled | NoProvider

  /** The provider a single-node context has settled on, if any. */
  class NodeContext {
    var node: Option<nat>

    constructor ()
      ensures node == None
    {
      node := None;
    }
  }

  /** Attempt i failed in a way that leads to another try. */
  predicate TriesOn(w: World, log: seq<nat>, i: nat)
    requires i < |log|
  {
    w.answer(i, log[i]) == Retryable && !w.cancelled(i)
  }

  /** The attempts made so far, each on the next healthy provider after the last. */
  predicate Attempts(w: World, n: nat, log: seq<nat>) {
    && 0 < |log| <= MAX_ATTEMPTS
    && (forall i :: 0 <= i < |log| ==> log[i] < n)
    && (forall i :: 1 <= i < |log| ==> FirstFrom(w.health(i), log[i - 1] + 1, log[i]))
    && (forall i :: 0 <= i < |log| - 1 ==> TriesOn(w, log, i))
  }

  lemma OneMoreAttempt(w: World, n: nat, log: seq<nat>, p: nat)
    requires Attempts(w, n, log) && |log| < MAX_ATTEMPTS && TriesOn(w, log, |log| - 1) && p < n
    requires FirstFrom(w.health(|log|), log[|log| - 1] + 1, p)
    ensures Attempts(w, n, log + [p])
  {
    forall i | 0 <= i < |log| ensures TriesOn(w, log + [p], i) {
      assert TriesOn(w, log, i);
    }
  }

  predicate EndsWith(w: World, log: seq<nat>, end: End)
    requires log != []
  {
    var last := |log| - 1;
    match end
    case Returned => w.answer(last, log[last]) != Retryable
    case Cancelled => w.answer(last, log[last]) == Retryable && w.cancelled(last)
    case Exhausted => |log| == MAX_ATTEMPTS && TriesOn(w, log, last)
    case NoProvider => |log| < MAX_ATTEMPTS && TriesOn(w, log, last) && NoneHealthy(w.health(|log|))
  }

  /** Why a call ends is decided by its last attempt: an answer that is no retryable error, a caller
      who gave up, five attempts made, or nobody left to try.  Every earlier attempt met a retryable
      error while the caller was waiting. */
  lemma EndExactly(w: World, n: nat, log: seq<nat>, end: End)
    requires Attempts(w, n, log) && EndsWith(w, log, end)
    ensures var last := |log| - 1; var retryable := w.answer(last, log[last]) == Retryable;
      && (end == Returned <==> !retryable)
      && (end == Cancelled <==> retryable && w.cancelled(last))
      && (end == Exhausted <==> retryable && !w.cancelled(last) && |log| == 5)
      && (end == NoProvider <==> retryable && !w.cancelled(last) && |log| < 5)
    ensures forall i: nat :: i < |log| - 1 ==> w.answer(i, log[i]) == Retryable && !w.cancelled(i)
  {
    forall i: nat | i < |log| - 1 ensures w.answer(i, log[i]) == Retryable && !w.cancelled(i) {
      assert TriesOn(w, log, i);
    }
  }

  predicate SameProviders(w: World, n: nat)
  {
    n > 0 && forall i: nat :: i < MAX_ATTEMPTS ==> |w.health(i)| == n
  }

  /** Where a call starts: a settled node if there is one, else the first healthy provider, else
      the random pick. */
  predicate StartsAt(w: World, dice: nat, settled: Option<nat>, start: nat) {
    if settled.Some? then start == settled.value
    else if NoneHealthy(w.health(0)) then start == dice
    else FirstFrom(w.health(0), 0, start)
  }

  /** The retry loop around one call, for an ordinary context (null) or a single-node one.
      `dice` is the random pick made when every provider looks unhealthy. */
  method Call(w: World, n: nat, dice: nat, ctx: NodeContext?) returns (log: seq<nat>, end: End)
    requires SameProviders(w, n) && dice < n && (ctx != null && ctx.node.Some? ==> ctx.node.value < n)
    modifies ctx
    ensures Attempts(w, n, log) && EndsWith(w, log, end)
    ensures StartsAt(w, dice, if ctx == null then None else old(ctx.node), log[0])
    ensures ctx != null ==> ctx.node == Some(log[|log| - 1])
  {
    var first := NextHealthyProvider(w.health(0), 0);
    var preferred: nat := if first == ALL_BAD then dice else first;
    if ctx != null {
      if ctx.node.None? {
        ctx.node := Some(preferred);
      } else {
        preferred := ctx.node.value;
      }
    }
    ghost var start := preferred;
    log := [];
    for i := 0 to MAX_ATTEMPTS
      invariant |log| == i && preferred < n
      invariant i == 0 ==> preferred == start
      invariant i > 0 ==> Attempts(w, n, log) && TriesOn(w, log, i - 1) && log[0] == start && preferred == log[i - 1]
      invariant ctx != null ==> ctx.node == Some(preferred)
    {
      if i > 0 {
        var pp := NextHealthyProvider(w.health(i), preferred + 1);
        if pp == ALL_BAD {
          return log, NoProvider;
        }
        preferred := pp;
        if ctx != null {
          ctx.node := Some(preferred);
        }
      }
      if i > 0 {
        OneMoreAttempt(w, n, log, preferred);
      }
      log := log + [preferred];
      var answer := w.answer(i, preferred);
      if answer != Retryable {
        return log, Returned;
      }
      if w.cancelled(i) {
        return log, Cancelled;
      }
    }
    return log, Exhausted;
  }

  /** Two calls on one single-node context: the second starts where the first ended. */
  method CallTwice(w: World, w': World, n: nat, dice: nat, dice': nat, ctx: NodeContext)
    returns (log: seq<nat>, log': seq<nat>)
    requires SameProviders(w, n) && SameProviders(w', n) && dice < n && dice' < n
    requires ctx.node.Some? ==> ctx.node.value < n
    modifies ctx
    ensures Attempts(w, n, log) && Attempts(w', n, log') && StartsAt(w, dice, old(ctx.node), log[0])
    ensures log'[0] == log[|log| - 1] && ctx.node == Some(log'[|log'| - 1])
  {
    var end;
    log, end := Call(w, n, dice, ctx);
    log', end := Call(w', n, dice', ctx);
  }

  // ---------- Going round the healthy providers ----------

  function HealthyList(bad: seq<bool>, n: nat): (hs: seq<nat>)
    requires n <= |bad|
    ensures forall i :: 0 <= i < |hs| ==> hs[i] < n && IsHealthy(bad, hs[i])
    ensures forall i, j :: 0 <= i < j < |hs| ==> hs[i] < hs[j]
    ensures forall p: nat :: p < n && IsHealthy(bad, p) ==> p in hs
  {
    if n == 0 then [] else HealthyList(bad, n - 1) + if bad[n - 1] then [] else [n - 1]
  }

  function Healthy(bad: seq<bool>): seq<nat> {
    HealthyList(bad, |bad|)
  }

  function NextIndex(j: nat, h: nat): nat {
    if j + 1 == h then 0 else j + 1
  }

  /** After the j-th healthy provider comes the next one, round and round. */
  lemma NextInList(bad: seq<bool>, j: nat, r: int)
    requires j < |Healthy(bad)| && FirstFrom(bad, Healthy(bad)[j] + 1, r)
    ensures r == Healthy(bad)[NextIndex(j, |Healthy(bad)|)]
  {
    var hs := Healthy(bad);
    var k: nat :| k < |hs| && hs[k] == r;
    var q := NextIndex(j, |hs|);
    assert IsHealthy(bad, hs[q]);
    assert j + 1 < |hs| ==> hs[j] < hs[j + 1];
    assert k > 0 ==> hs[0] < hs[k];
  }

  function IndexAt(j: nat, h: nat, i: nat): (k: nat)
    requires j < h
    ensures k < h
  {
    if i == 0 then j else NextIndex(IndexAt(j, h, i - 1), h)
  }

  lemma {:induction false} IndexBeforeWrap(j: nat, h: nat, i: nat)
    requires j < h && i <= h
    ensures IndexAt(j, h, i) == if j + i < h then j + i else j + i - h
  {
    if i > 0 {
      IndexBeforeWrap(j, h, i - 1);
    }
  }

  /** The log repeats with the number of healthy providers as its period. */
  lemma {:induction false} IndexPeriod(j: nat, h: nat, i: nat)
    requires j < h
    ensures IndexAt(j, h, i + h) == IndexAt(j, h, i)
  {
    if i == 0 {
      IndexBeforeWrap(j, h, h);
    } else {
      IndexPeriod(j, h, i - 1);
    }
  }

  function Touched(log: seq<nat>): set<nat> {
    set p | p in log
  }

  lemma {:induction false} DistinctCount(log: seq<nat>)
    requires forall a, b :: 0 <= a < b < |log| ==> log[a] != log[b]
    ensures |Touched(log)| == |log|
  {
    if log != [] {
      var k := |log| - 1;
      DistinctCount(log[..k]);
      assert Touched(log) == Touched(log[..k]) + {log[k]};
      assert log[k] !in log[..k];
    }
  }

  /** A walk over healthy providers, each the next one after the last. */
  predicate GoesRound(bad: seq<bool>, path: seq<nat>) {
    && (forall i :: 0 <= i < |path| ==> IsHealthy(bad, path[i]))
    && (forall i :: 1 <= i < |path| ==> FirstFrom(bad, path[i - 1] + 1, path[i]))
  }

  lemma {:induction false} PathAt(bad: seq<bool>, path: seq<nat>, j: nat, i: nat)
    requires GoesRound(bad, path) && i < |path| && j < |Healthy(bad)| && path[0] == Healthy(bad)[j]
    ensures path[i] == Healthy(bad)[IndexAt(j, |Healthy(bad)|, i)]
  {
    if i > 0 {
      PathAt(bad, path, j, i - 1);
      NextInList(bad, IndexAt(j, |Healthy(bad)|, i - 1), path[i]);
    }
  }

  lemma FirstRoundDistinct(bad: seq<bool>, path: seq<nat>, j: nat, m: nat)
    requires GoesRound(bad, path) && path != [] && j < |Healthy(bad)| && path[0] == Healthy(bad)[j]
    requires m <= |path| && m <= |Healthy(bad)|
    ensures |Touched(path[..m])| == m
  {
    var h := |Healthy(bad)|;
    forall a, b | 0 <= a < b < m ensures path[..m][a] != path[..m][b] {
      PathAt(bad, path, j, a);
      PathAt(bad, path, j, b);
      IndexBeforeWrap(j, h, a);
      IndexBeforeWrap(j, h, b);
    }
    DistinctCount(path[..m]);
  }

  /** Such a walk touches as many different providers as it can. */
  lemma RoundTouches(bad: seq<bool>, path: seq<nat>)
    requires GoesRound(bad, path) && path != []
    ensures |Touched(path)| == if |path| < |Healthy(bad)| then |path| else |Healthy(bad)|
  {
    var hs := Healthy(bad);
    assert IsHealthy(bad, path[0]) && path[0] in hs;
    var j: nat :| j < |hs| && hs[j] == path[0];
    var m := if |path| < |hs| then |path| else |hs|;
    FirstRoundDistinct(bad, path, j, m);
    SubsetSize(Touched(path[..m]), Touched(path));
    DistinctCount(hs);
    SubsetSize(Touched(path), Touched(hs));
    if |path| < |hs| {
      assert path[..m] == path;
    }
  }

  /** And repeats with the number of healthy providers as its period. */
  lemma RoundRepeats(bad: seq<bool>, path: seq<nat>, i: nat)
    requires GoesRound(bad, path) && i + |Healthy(bad)| < |path|
    ensures path[i + |Healthy(bad)|] == path[i]
  {
    var hs := Healthy(bad);
    assert IsHealthy(bad, path[0]) && path[0] in hs;
    var j: nat :| j < |hs| && hs[j] == path[0];
    PathAt(bad, path, j, i);
    PathAt(bad, path, j, i + |hs|);
    IndexPeriod(j, |hs|, i);
  }

  // ---------- Calls under steady health ----------

  predicate Steady(w: World, bad: seq<bool>) {
    forall i: nat :: i < MAX_ATTEMPTS ==> w.health(i) == bad
  }

  lemma LogGoesRound(w: World, bad: seq<bool>, log: seq<nat>, s: nat)
    requires Steady(w, bad) && Attempts(w, |bad|, log) && s < |log| && (s > 0 || IsHealthy(bad, log[0]))
    ensures GoesRound(bad, log[s..])
  {
    var path := log[s..];
    forall i: nat | 1 <= i < |log| ensures FirstFrom(bad, log[i - 1] + 1, log[i]) {
      assert w.health(i) == bad;
    }
    forall i | 0 <= i < |path| ensures IsHealthy(bad, path[i]) {
      assert path[i] == log[s + i];
      assert s + i > 0 ==> FirstFrom(bad, log[s + i - 1] + 1, log[s + i]);
    }
  }

  /** From its first healthy attempt on, and at the latest from the second, a call visits healthy
      providers only, in cyclic order, and as many different ones as it can. */
  lemma CallGoesRound(w: World, bad: seq<bool>, log: seq<nat>, s: nat)
    requires Steady(w, bad) && Attempts(w, |bad|, log) && s < |log| && (s > 0 || IsHealthy(bad, log[0]))
    ensures GoesRound(bad, log[s..])
    ensures |Touched(log[s..])| == if |log| - s < |Healthy(bad)| then |log| - s else |Healthy(bad)|
    ensures forall i :: s <= i && i + |Healthy(bad)| < |log| ==> log[i + |Healthy(bad)|] == log[i]
  {
    LogGoesRound(w, bad, log, s);
    RoundTouches(bad, log[s..]);
    forall i | s <= i && i + |Healthy(bad)| < |log| ensures log[i + |Healthy(bad)|] == log[i] {
      RoundRepeats(bad, log[s..], i - s);
    }
  }

  /** A call that only ever meets retryable errors and is not cancelled makes exactly five attempts
      when any provider is healthy, and exactly one when none is, whatever the random pick. */
  lemma RetryBudget(w: World, bad: seq<bool>, log: seq<nat>, end: End)
    requires Steady(w, bad) && Attempts(w, |bad|, log) && EndsWith(w, log, end)
    requires forall i: nat, p: nat :: w.answer(i, p) == Retryable
    requires forall i: nat :: !w.cancelled(i)
    ensures if NoneHealthy(bad) then |log| == 1 && end == NoProvider else |log| == MAX_ATTEMPTS && end == Exhausted
  {
    assert |log| > 1 ==> FirstFrom(w.health(1), log[0] + 1, log[1]);
    if end == NoProvider {
      assert w.health(|log|) == bad;
    }
  }

  /** An ordinary call that meets only retryable errors and is not cancelled, while some provider is
      healthy: five attempts, only on healthy providers, in cyclic order, on as many different ones
      as there are, up to five. */
  lemma OrdinaryCall(w: World, bad: seq<bool>, dice: nat, log: seq<nat>, end: End)
    requires Steady(w, bad) && !NoneHealthy(bad)
    requires Attempts(w, |bad|, log) && EndsWith(w, log, end) && StartsAt(w, dice, None, log[0])
    requires forall i: nat, p: nat :: w.answer(i, p) == Retryable
    requires forall i: nat :: !w.cancelled(i)
    ensures |log| == 5 && end == Exhausted && GoesRound(bad, log)
    ensures |Touched(log)| == if 5 < |Healthy(bad)| then 5 else |Healthy(bad)|
  {
    RetryBudget(w, bad, log, end);
    assert w.health(0) == bad;
    CallGoesRound(w, bad, log, 0);
    assert log[0..] == log;
  }
}
