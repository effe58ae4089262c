/** What the throttle guarantees over whole timed runs: any interleaving of offences of any
    IP, blocked-checks and background cleanups. */
module IpOffenseRuns {
  import opened Basics
  import opened IpOffenseThrottle

  datatype Event =
    | Record(ip: string, offense: string, now: int)
    | LongestBlock(ip: string, now: int)
    | CleanupAll(now: int)

  function Step(policies: Policies, st: State, ev: Event, cleaning: bool): State {
    match ev
    case Record(ip, o, now) => Recorded(policies, st, ip, o, now, cleaning).0
    case LongestBlock(ip, now) => if cleaning && ip != "" then SweptIp(policies, st, ip, now) else st
    case CleanupAll(now) => if cleaning then SweptAll(policies, st, now) else st
  }

  function After(policies: Policies, evs: seq<Event>, cleaning: bool): State {
    if evs == [] then map[]
    else Step(policies, After(policies, evs[..|evs| - 1], cleaning), evs[|evs| - 1], cleaning)
  }

  /** The answer of the `Record` call at position i. */
  function Answer(policies: Policies, evs: seq<Event>, i: nat, cleaning: bool): Verdict
    requires i < |evs| && evs[i].Record?
  {
    Recorded(policies, After(policies, evs[..i], cleaning), evs[i].ip, evs[i].offense, evs[i].now, cleaning).1
  }

  /** The answers the blocked-check at position i may give. */
  predicate MayAnswer(policies: Policies, evs: seq<Event>, i: nat, cleaning: bool, v: Verdict)
    requires i < |evs| && evs[i].LongestBlock?
  {
    var st := After(policies, evs[..i + 1], cleaning);
    LongestOf(policies, if evs[i].ip == "" then map[] else OffensesOf(st, evs[i].ip), evs[i].now, v)
  }

  predicate Timed(evs: seq<Event>) {
    && (forall i :: 0 <= i < |evs| ==> ZERO_TIME <= evs[i].now)
    && (forall i, j :: 0 <= i <= j < |evs| ==> evs[i].now <= evs[j].now)
  }

  // ---------- One entry at a time ----------

  datatype Touch = Untouched | Brushed | Struck

  /** How an event bears on the entry of one IP and offence. */
  function TouchOf(policies: Policies, ev: Event, ip: string, o: string): Touch {
    match ev
    case Record(ip', o', _) =>
      if o' !in policies || ip' != ip then Untouched else if o' == o then Struck else Brushed
    case LongestBlock(ip', _) => if ip' != ip then Untouched else Brushed
    case CleanupAll(_) => Brushed
  }

  function Brush(p: Policy, oe: Option<Entry>, now: int, cleaning: bool): Option<Entry> {
    if cleaning && oe.Some? && Expired(oe.value, p, now) then None else oe
  }

  function Local(p: Policy, oe: Option<Entry>, t: Touch, now: int, cleaning: bool): Option<Entry> {
    match t
    case Untouched => oe
    case Brushed => Brush(p, oe, now, cleaning)
    case Struck => Some(Strike(p, FreshOr(Brush(p, oe, now, cleaning), now), now).0)
  }

  lemma ViewSwept(policies: Policies, st: State, ip: string, o: string, now: int)
    requires o in policies
    ensures View(SweptIp(policies, st, ip, now), ip, o) == Brush(policies[o], View(st, ip, o), now, true)
    ensures View(SweptAll(policies, st, now), ip, o) == Brush(policies[o], View(st, ip, o), now, true)
  {
    if ip in st {
      var offs := Swept(policies, st[ip], now);
      assert offs == map[] ==> o !in offs;
    }
  }

  lemma ViewSweptOther(policies: Policies, st: State, ip': string, ip: string, o: string, now: int)
    requires ip' != ip
    ensures View(SweptIp(policies, st, ip', now), ip, o) == View(st, ip, o)
  {
  }

  /** Each entry evolves on its own: other IPs and offences only sweep it. */
  lemma Projection(policies: Policies, st: State, ev: Event, cleaning: bool, ip: string, o: string)
    requires o in policies && ip != ""
    ensures View(Step(policies, st, ev, cleaning), ip, o)
         == Local(policies[o], View(st, ip, o), TouchOf(policies, ev, ip, o), ev.now, cleaning)
    ensures TouchOf(policies, ev, ip, o) == Struck ==>
      Recorded(policies, st, ip, o, ev.now, cleaning).1
        == Strike(policies[o], FreshOr(Brush(policies[o], View(st, ip, o), ev.now, cleaning), ev.now), ev.now).1
  {
    ViewSwept(policies, st, ip, o, ev.now);
    match ev
    case Record(ip', o', now) =>
      if ip' != ip { ViewSweptOther(policies, st, ip', ip, o, now); }
    case LongestBlock(ip', now) =>
      if ip' != ip { ViewSweptOther(policies, st, ip', ip, o, now); }
    case CleanupAll(_) =>
  }

  predicate Strikes(policies: Policies, evs: seq<Event>, i: nat, ip: string, o: string) {
    i < |evs| && TouchOf(policies, evs[i], ip, o) == Struck
  }

  /** The entry of one IP and offence after the first n events. */
  function Trace(policies: Policies, evs: seq<Event>, n: nat, cleaning: bool, ip: string, o: string): Option<Entry>
    requires n <= |evs| && o in policies
  {
    if n == 0 then None
    else
      var ev := evs[n - 1];
      Local(policies[o], Trace(policies, evs, n - 1, cleaning, ip, o), TouchOf(policies, ev, ip, o), ev.now, cleaning)
  }

  function Told(policies: Policies, evs: seq<Event>, i: nat, cleaning: bool, ip: string, o: string): Verdict
    requires i < |evs| && o in policies
  {
    var now := evs[i].now;
    var swept := Brush(policies[o], Trace(policies, evs, i, cleaning, ip, o), now, cleaning);
    Strike(policies[o], FreshOr(swept, now), now).1
  }

  /** The throttle as a whole behaves at each entry as that entry's own trace. */
  lemma {:induction false} TraceIsView(policies: Policies, evs: seq<Event>, n: nat, cleaning: bool, ip: string,
                                       o: string)
    requires n <= |evs| && o in policies && ip != ""
    ensures View(After(policies, evs[..n], cleaning), ip, o) == Trace(policies, evs, n, cleaning, ip, o)
    ensures Strikes(policies, evs, n, ip, o) ==>
      Answer(policies, evs, n, cleaning) == Told(policies, evs, n, cleaning, ip, o)
  {
    if n > 0 {
      TraceIsView(policies, evs, n - 1, cleaning, ip, o);
      assert evs[..n][..n - 1] == evs[..n - 1];
      Projection(policies, After(policies, evs[..n - 1], cleaning), evs[n - 1], cleaning, ip, o);
    }
    if Strikes(policies, evs, n, ip, o) {
      Projection(policies, After(policies, evs[..n], cleaning), evs[n], cleaning, ip, o);
    }
  }

  /** Shape of a stored entry: it counts between 1 and Hits-1 offences, or it is what a block left. */
  predicate Shaped(p: Policy, e: Entry, now: int) {
    && e.windowStart <= now
    && (e.hits == 0 ==> e.blockedUntil == e.windowStart + p.block)
    && 0 <= e.hits && (e.hits > 0 ==> e.hits < p.hits && e.blockedUntil <= now)
  }

  lemma {:induction false} TraceShaped(policies: Policies, evs: seq<Event>, n: nat, cleaning: bool, ip: string,
                                       o: string, now: int)
    requires o in policies && n <= |evs| && Timed(evs)
    requires n == 0 || evs[n - 1].now <= now
    ensures Trace(policies, evs, n, cleaning, ip, o).Some? ==>
      Shaped(policies[o], Trace(policies, evs, n, cleaning, ip, o).value, now)
  {
    if n > 0 {
      TraceShaped(policies, evs, n - 1, cleaning, ip, o, evs[n - 1].now);
    }
  }

  // ---------- How many offences can pass unblocked ----------

  function StrikeCount(policies: Policies, evs: seq<Event>, a: nat, b: nat, ip: string, o: string): nat
    requires a <= b <= |evs|
    decreases b
  {
    if a == b then 0
    else StrikeCount(policies, evs, a, b - 1, ip, o) + if Strikes(policies, evs, b - 1, ip, o) then 1 else 0
  }

  /** No offence of this IP and kind in positions a..b-1 was answered with a block. */
  predicate Unblocked(policies: Policies, evs: seq<Event>, a: nat, b: nat, ip: string, o: string)
    requires a <= b <= |evs|
  {
    forall i :: a <= i < b && Strikes(policies, evs, i, ip, o) ==> !Answer(policies, evs, i, true).blocked
  }

  predicate ToldUnblocked(policies: Policies, evs: seq<Event>, a: nat, b: nat, ip: string, o: string)
    requires a <= b <= |evs| && o in policies
  {
    forall i :: a <= i < b && Strikes(policies, evs, i, ip, o) ==> !Told(policies, evs, i, true, ip, o).blocked
  }

  lemma UnblockedAsTold(policies: Policies, evs: seq<Event>, a: nat, b: nat, ip: string, o: string)
    requires a <= b <= |evs| && o in policies && ip != ""
    ensures Unblocked(policies, evs, a, b, ip, o) == ToldUnblocked(policies, evs, a, b, ip, o)
  {
    forall i | a <= i < b { TraceIsView(policies, evs, i, true, ip, o); }
  }

  /** Bookkeeping for the bound: an old window hides one earlier hit, a new one at most Hits-2 others. */
  ghost predicate Paid(p: Policy, oe: Option<Entry>, c: nat, t0: int) {
    c > 0 ==>
      && oe.Some? && oe.value.hits > 0 && t0 - p.window < oe.value.windowStart
      && c <= if oe.value.windowStart >= t0 then oe.value.hits + p.hits - 2 else oe.value.hits - 1
  }

  lemma {:induction false} StretchPaid(policies: Policies, evs: seq<Event>, a: nat, b: nat, ip: string, o: string,
                                       t0: int)
    requires Timed(evs) && a <= b <= |evs| && o in policies
    requires forall i :: a <= i < b ==> t0 <= evs[i].now && evs[i].now - t0 < policies[o].window
    requires ToldUnblocked(policies, evs, a, b, ip, o)
    ensures Paid(policies[o], Trace(policies, evs, b, true, ip, o), StrikeCount(policies, evs, a, b, ip, o), t0)
    decreases b
  {
    if a < b {
      StretchPaid(policies, evs, a, b - 1, ip, o, t0);
      TraceShaped(policies, evs, b - 1, true, ip, o, evs[b - 1].now);
    }
  }

  function Patience(p: Policy): nat {
    if p.hits <= 1 then 0 else 2 * p.hits - 3
  }

  /** In any run, fewer than Window apart, at most 2*Hits-3 offences of one IP and kind pass
      unblocked (none when Hits <= 1), whatever else happens in between. */
  lemma UnblockedBound(policies: Policies, evs: seq<Event>, a: nat, b: nat, ip: string, o: string)
    requires Timed(evs) && a < b <= |evs| && o in policies && ip != ""
    requires evs[b - 1].now - evs[a].now < policies[o].window
    requires Unblocked(policies, evs, a, b, ip, o)
    ensures StrikeCount(policies, evs, a, b, ip, o) <= Patience(policies[o])
  {
    UnblockedAsTold(policies, evs, a, b, ip, o);
    StretchPaid(policies, evs, a, b, ip, o, evs[a].now);
    TraceShaped(policies, evs, b, true, ip, o, evs[b - 1].now);
  }

  /** The same as an alarm: 2*Hits-1 offences closer than Window (indeed one fewer) include a blocked one. */
  lemma BurstIsBlocked(policies: Policies, evs: seq<Event>, a: nat, b: nat, ip: string, o: string)
    requires Timed(evs) && a < b <= |evs| && o in policies && ip != ""
    requires evs[b - 1].now - evs[a].now < policies[o].window
    requires StrikeCount(policies, evs, a, b, ip, o) > Patience(policies[o])
    ensures exists i :: a <= i < b && Strikes(policies, evs, i, ip, o) && Answer(policies, evs, i, true).blocked
  {
    if Unblocked(policies, evs, a, b, ip, o) {
      UnblockedBound(policies, evs, a, b, ip, o);
    }
  }

  // ---------- The bound is met ----------

  function Again(ip: string, o: string, now: int, n: nat): seq<Event> {
    seq(n, _ => Record(ip, o, now))
  }

  /** n further unblocked offences at one instant. */
  lemma {:induction false} CountUp(policies: Policies, evs: seq<Event>, pre: nat, n: nat, cleaning: bool, ip: string,
                                   o: string, now: int, e: Entry)
    requires o in policies && pre + n <= |evs|
    requires forall i :: pre <= i < pre + n ==> evs[i] == Record(ip, o, now)
    requires Trace(policies, evs, pre, cleaning, ip, o) == Some(e)
    requires e.hits > 0 && e.blockedUntil <= now && e.windowStart <= now < e.windowStart + policies[o].window
    requires e.hits + n < policies[o].hits
    ensures Trace(policies, evs, pre + n, cleaning, ip, o) == Some(e.(hits := e.hits + n))
    ensures forall i :: pre <= i < pre + n ==> !Told(policies, evs, i, cleaning, ip, o).blocked
    ensures StrikeCount(policies, evs, pre, pre + n, ip, o) == n
    decreases n
  {
    if n > 0 {
      CountUp(policies, evs, pre, n - 1, cleaning, ip, o, now, e);
      assert Strikes(policies, evs, pre + n - 1, ip, o);
    }
  }

  lemma {:induction false} StrikeCountSplit(policies: Policies, evs: seq<Event>, a: nat, m: nat, b: nat, ip: string,
                                            o: string)
    requires a <= m <= b <= |evs|
    ensures StrikeCount(policies, evs, a, b, ip, o)
      == StrikeCount(policies, evs, a, m, ip, o) + StrikeCount(policies, evs, m, b, ip, o)
    decreases b
  {
    if m < b {
      StrikeCountSplit(policies, evs, a, m, b - 1, ip, o);
    }
  }

  /** An offence Window or more after the window started opens a new window. */
  lemma Roll(policies: Policies, evs: seq<Event>, i: nat, cleaning: bool, ip: string, o: string, e: Entry)
    requires o in policies && i < |evs| && evs[i] == Record(ip, o, evs[i].now)
    requires Trace(policies, evs, i, cleaning, ip, o) == Some(e) && e.hits > 0 && e.blockedUntil <= evs[i].now
    requires cleaning ==> e.blockedUntil == ZERO_TIME
    requires 0 < policies[o].window <= evs[i].now - e.windowStart && policies[o].hits >= 2
    ensures Trace(policies, evs, i + 1, cleaning, ip, o) == Some(Entry(1, evs[i].now, e.blockedUntil))
    ensures !Told(policies, evs, i, cleaning, ip, o).blocked
  {
  }

  /** One offence at t0, Hits-2 at the end of its window and Hits-1 at the start of the next. */
  function PatientRun(p: Policy, ip: string, o: string, t0: int): seq<Event>
    requires p.hits >= 2 && p.window >= 2
  {
    [Record(ip, o, t0)] + Again(ip, o, t0 + p.window - 1, p.hits - 2) + Again(ip, o, t0 + p.window, p.hits - 1)
  }

  predicate IsPatient(p: Policy, evs: seq<Event>, ip: string, o: string, t0: int) {
    && p.hits >= 2 && p.window >= 2 && t0 >= ZERO_TIME
    && |evs| == 2 * p.hits - 2 && evs[0] == Record(ip, o, t0)
    && (forall i :: 1 <= i < p.hits - 1 ==> evs[i] == Record(ip, o, t0 + p.window - 1))
    && (forall i :: p.hits - 1 <= i < |evs| ==> evs[i] == Record(ip, o, t0 + p.window))
  }

  lemma PatientRunShape(p: Policy, ip: string, o: string, t0: int)
    requires p.hits >= 2 && p.window >= 2 && t0 >= ZERO_TIME
    ensures IsPatient(p, PatientRun(p, ip, o, t0), ip, o, t0)
  {
  }

  lemma PatientFirstWindow(policies: Policies, evs: seq<Event>, ip: string, o: string, t0: int)
    requires o in policies && IsPatient(policies[o], evs, ip, o, t0)
    ensures var m := policies[o].hits - 1;
      && Trace(policies, evs, m, true, ip, o) == Some(Entry(m, t0, 0))
      && ToldUnblocked(policies, evs, 1, m, ip, o) && StrikeCount(policies, evs, 1, m, ip, o) == m - 1
  {
    var p := policies[o];
    assert Trace(policies, evs, 0, true, ip, o) == None;
    assert Trace(policies, evs, 1, true, ip, o) == Some(Entry(1, t0, 0));
    CountUp(policies, evs, 1, p.hits - 2, true, ip, o, t0 + p.window - 1, Entry(1, t0, 0));
  }

  /** The offence that opens the second window. */
  lemma PatientRolls(policies: Policies, evs: seq<Event>, ip: string, o: string, t0: int)
    requires o in policies && IsPatient(policies[o], evs, ip, o, t0)
    requires Trace(policies, evs, policies[o].hits - 1, true, ip, o) == Some(Entry(policies[o].hits - 1, t0, 0))
    ensures var m, next := policies[o].hits - 1, t0 + policies[o].window;
      && Trace(policies, evs, m + 1, true, ip, o) == Some(Entry(1, next, 0))
      && !Told(policies, evs, m, true, ip, o).blocked && StrikeCount(policies, evs, m, m + 1, ip, o) == 1
  {
    var m := policies[o].hits - 1;
    Roll(policies, evs, m, true, ip, o, Entry(m, t0, 0));
    assert StrikeCount(policies, evs, m, m + 1, ip, o) == StrikeCount(policies, evs, m, m, ip, o) + 1;
  }

  /** The offences that follow it. */
  lemma PatientFills(policies: Policies, evs: seq<Event>, ip: string, o: string, t0: int)
    requires o in policies && IsPatient(policies[o], evs, ip, o, t0)
    requires Trace(policies, evs, policies[o].hits, true, ip, o) == Some(Entry(1, t0 + policies[o].window, 0))
    ensures ToldUnblocked(policies, evs, policies[o].hits, |evs|, ip, o)
    ensures StrikeCount(policies, evs, policies[o].hits, |evs|, ip, o) == policies[o].hits - 2
  {
    var h, next := policies[o].hits, t0 + policies[o].window;
    CountUp(policies, evs, h, h - 2, true, ip, o, next, Entry(1, next, 0));
  }

  lemma PatientSecondWindow(policies: Policies, evs: seq<Event>, ip: string, o: string, t0: int)
    requires o in policies && IsPatient(policies[o], evs, ip, o, t0)
    requires Trace(policies, evs, policies[o].hits - 1, true, ip, o) == Some(Entry(policies[o].hits - 1, t0, 0))
    ensures var m := policies[o].hits - 1;
      && ToldUnblocked(policies, evs, m, |evs|, ip, o) && StrikeCount(policies, evs, m, |evs|, ip, o) == m
  {
    var m := policies[o].hits - 1;
    PatientRolls(policies, evs, ip, o, t0);
    PatientFills(policies, evs, ip, o, t0);
    StrikeCountSplit(policies, evs, m, m + 1, |evs|, ip, o);
  }

  lemma PatientRunPasses(policies: Policies, evs: seq<Event>, ip: string, o: string, t0: int)
    requires o in policies && IsPatient(policies[o], evs, ip, o, t0)
    ensures ToldUnblocked(policies, evs, 1, |evs|, ip, o)
    ensures StrikeCount(policies, evs, 1, |evs|, ip, o) == Patience(policies[o])
  {
    PatientFirstWindow(policies, evs, ip, o, t0);
    PatientSecondWindow(policies, evs, ip, o, t0);
    StrikeCountSplit(policies, evs, 1, policies[o].hits - 1, |evs|, ip, o);
  }

  lemma PatientTimed(p: Policy, evs: seq<Event>, ip: string, o: string, t0: int)
    requires IsPatient(p, evs, ip, o, t0)
    ensures Timed(evs) && 1 < |evs| && evs[0].now == t0 && evs[|evs| - 1].now - evs[1].now < p.window
  {
  }

  /** No smaller bound would do, whenever the run starts: one early offence, Hits-2 at the end of its
      window and Hits-1 at the start of the next are all let through, the last 2*Hits-3 within one
      nanosecond. */
  lemma UnblockedBoundIsTight(policies: Policies, ip: string, o: string, t0: int)
    requires o in policies && ip != "" && policies[o].hits >= 2 && policies[o].window >= 2 && t0 >= ZERO_TIME
    ensures var evs := PatientRun(policies[o], ip, o, t0);
      && Timed(evs) && 1 < |evs| && evs[0].now == t0
      && evs[|evs| - 1].now - evs[1].now < policies[o].window
      && Unblocked(policies, evs, 1, |evs|, ip, o)
      && StrikeCount(policies, evs, 1, |evs|, ip, o) == Patience(policies[o])
  {
    var evs := PatientRun(policies[o], ip, o, t0);
    PatientRunShape(policies[o], ip, o, t0);
    PatientTimed(policies[o], evs, ip, o, t0);
    PatientRunPasses(policies, evs, ip, o, t0);
    UnblockedAsTold(policies, evs, 1, |evs|, ip, o);
  }
}
