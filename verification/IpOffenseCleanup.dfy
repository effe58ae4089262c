/** Deleting expired entries changes no answer, exactly under a condition on the policies. */
module IpOffenseCleanup {
  import opened Basics
  import opened IpOffenseThrottle
  import opened IpOffenseRuns
  import opened IpOffenseBlocks

  /** A block outlives its window, or the window cannot matter. */
  predicate Harmless(p: Policy) {
    p.hits <= 1 || p.window <= p.block || p.window <= 1
  }

  const DEFAULT_POLICY := Policy(5, 60_000_000_000, 300_000_000_000, "too many requests for unavailable data sets")

  /** What the deleting throttle (d) and the keeping one (k) may disagree on between calls: an
      entry already deleted must be one that the next offence would restart anyway, and the ends
      of past blocks are irrelevant. */
  predicate Alike(p: Policy, d: Option<Entry>, k: Option<Entry>, now: int) {
    if k.None? then d.None?
    else if d.None? then
      k.value.blockedUntil <= now
      && (p.hits <= 1 || now - k.value.windowStart >= p.window || (k.value.hits == 0 && k.value.windowStart == now))
    else
      && d.value.hits == k.value.hits && d.value.windowStart == k.value.windowStart
      && (d.value.blockedUntil == k.value.blockedUntil || (d.value.blockedUntil <= now && k.value.blockedUntil <= now))
  }

  lemma AlikeLater(p: Policy, d: Option<Entry>, k: Option<Entry>, now: int, later: int)
    requires Alike(p, d, k, now) && now <= later && Harmless(p)
    requires k.Some? ==> Shaped(p, k.value, now)
    ensures Alike(p, d, k, later)
  {
  }

  /** One step of both throttles from alike entries: same answer, alike entries. */
  lemma AlikeStep(p: Policy, d: Option<Entry>, k: Option<Entry>, t: Touch, now: int)
    requires Alike(p, d, k, now) && Harmless(p) && ZERO_TIME <= now
    requires k.Some? ==> Shaped(p, k.value, now)
    ensures Alike(p, Local(p, d, t, now, true), Local(p, k, t, now, false), now)
    ensures Strike(p, FreshOr(Brush(p, d, now, true), now), now).1 == Strike(p, FreshOr(k, now), now).1
  {
  }

  /** Both throttles stay alike along any run, before and after each event. */
  lemma {:induction false} AlikeAt(policies: Policies, evs: seq<Event>, n: nat, ip: string, o: string)
    requires Timed(evs) && n < |evs| && o in policies && Harmless(policies[o])
    ensures var d, k := Trace(policies, evs, n, true, ip, o), Trace(policies, evs, n, false, ip, o);
      Alike(policies[o], d, k, evs[n].now) && (k.Some? ==> Shaped(policies[o], k.value, evs[n].now))
    ensures Told(policies, evs, n, true, ip, o) == Told(policies, evs, n, false, ip, o)
    ensures var d, k := Trace(policies, evs, n + 1, true, ip, o), Trace(policies, evs, n + 1, false, ip, o);
      Alike(policies[o], d, k, evs[n].now)
  {
    var d, k := Trace(policies, evs, n, true, ip, o), Trace(policies, evs, n, false, ip, o);
    TraceShaped(policies, evs, n, false, ip, o, evs[n].now);
    if n > 0 {
      AlikeAt(policies, evs, n - 1, ip, o);
      TraceShaped(policies, evs, n, false, ip, o, evs[n - 1].now);
      AlikeLater(policies[o], d, k, evs[n - 1].now, evs[n].now);
    }
    AlikeStep(policies[o], d, k, TouchOf(policies, evs[n], ip, o), evs[n].now);
  }

  predicate SameBlock(d: Option<Entry>, k: Option<Entry>, now: int) {
    InForce(d, now) || InForce(k, now) ==> d.Some? && k.Some? && d.value.blockedUntil == k.value.blockedUntil
  }

  /** Blocked-checks answer alike when the same blocks are in force. */
  lemma SameBlocksSameAnswers(policies: Policies, d: State, k: State, ip: string, now: int, v: Verdict)
    requires forall o :: SameBlock(View(d, ip, o), View(k, ip, o), now)
    requires LongestOf(policies, OffensesOf(d, ip), now, v)
    ensures LongestOf(policies, OffensesOf(k, ip), now, v)
  {
    var ds, ks := OffensesOf(d, ip), OffensesOf(k, ip);
    assert forall o :: o in ks ==> View(k, ip, o) == Some(ks[o]);
    assert forall o :: o in ds ==> View(d, ip, o) == Some(ds[o]);
    if v.blocked {
      var o := LongestBlames(policies, d, ip, now, v);
      assert o in ks && ks[o].blockedUntil - now == v.retryAfter;
    }
  }

  lemma {:induction false} OnlyKnownWhenKept(policies: Policies, evs: seq<Event>, ip: string, o: string)
    ensures View(After(policies, evs, false), ip, o).Some? ==> o in policies
  {
    if evs != [] {
      OnlyKnownWhenKept(policies, evs[..|evs| - 1], ip, o);
    }
  }

  /** The two throttles give the same answers at position i. */
  ghost predicate SameAnswers(policies: Policies, evs: seq<Event>, i: nat)
    requires i < |evs|
  {
    && (evs[i].Record? ==> Answer(policies, evs, i, true) == Answer(policies, evs, i, false))
    && (evs[i].LongestBlock? ==>
          forall v :: MayAnswer(policies, evs, i, true, v) <==> MayAnswer(policies, evs, i, false, v))
  }

  ghost predicate CleanupInvisible(policies: Policies) {
    forall evs, i: nat :: Timed(evs) && i < |evs| ==> SameAnswers(policies, evs, i)
  }

  lemma SameBlocks(policies: Policies, evs: seq<Event>, i: nat, o: string)
    requires Timed(evs) && i < |evs| && evs[i].LongestBlock? && evs[i].ip != ""
    requires forall o :: o in policies ==> Harmless(policies[o])
    ensures SameBlock(View(After(policies, evs[..i + 1], true), evs[i].ip, o),
                      View(After(policies, evs[..i + 1], false), evs[i].ip, o), evs[i].now)
  {
    OnlyKnownOffenses(policies, evs[..i + 1], evs[i].ip, o);
    OnlyKnownWhenKept(policies, evs[..i + 1], evs[i].ip, o);
    if o in policies {
      AlikeAt(policies, evs, i, evs[i].ip, o);
      TraceIsView(policies, evs, i + 1, true, evs[i].ip, o);
      TraceIsView(policies, evs, i + 1, false, evs[i].ip, o);
    }
  }

  lemma HarmlessIsInvisible(policies: Policies, evs: seq<Event>, i: nat)
    requires Timed(evs) && i < |evs|
    requires forall o :: o in policies ==> Harmless(policies[o])
    ensures SameAnswers(policies, evs, i)
  {
    if evs[i].Record? {
      var ip, o := evs[i].ip, evs[i].offense;
      if o in policies && ip != "" {
        AlikeAt(policies, evs, i, ip, o);
        TraceIsView(policies, evs, i, true, ip, o);
        TraceIsView(policies, evs, i, false, ip, o);
      }
    } else if evs[i].LongestBlock? && evs[i].ip != "" {
      var d, k := After(policies, evs[..i + 1], true), After(policies, evs[..i + 1], false);
      forall o ensures SameBlock(View(d, evs[i].ip, o), View(k, evs[i].ip, o), evs[i].now) {
        SameBlocks(policies, evs, i, o);
      }
      forall v ensures MayAnswer(policies, evs, i, true, v) <==> MayAnswer(policies, evs, i, false, v) {
        if MayAnswer(policies, evs, i, true, v) { SameBlocksSameAnswers(policies, d, k, evs[i].ip, evs[i].now, v); }
        if MayAnswer(policies, evs, i, false, v) {
          assert forall o :: SameBlock(View(k, evs[i].ip, o), View(d, evs[i].ip, o), evs[i].now)
                             == SameBlock(View(d, evs[i].ip, o), View(k, evs[i].ip, o), evs[i].now);
          SameBlocksSameAnswers(policies, k, d, evs[i].ip, evs[i].now, v);
        }
      }
    }
  }

  // ---------- The condition is needed ----------

  function Pause(p: Policy): int {
    if p.block < 1 then 1 else p.block
  }

  /** Earn a block at t0, offend once when it is over but its window is not, then Hits-1 times one
      Window after the block began. */
  function TellTale(p: Policy, ip: string, o: string, t0: int): seq<Event>
    requires p.hits >= 2
  {
    Again(ip, o, t0, p.hits) + [Record(ip, o, t0 + Pause(p))] + Again(ip, o, t0 + p.window, p.hits - 1)
  }

  predicate IsTellTale(p: Policy, evs: seq<Event>, ip: string, o: string, t0: int) {
    && !Harmless(p) && t0 >= ZERO_TIME
    && |evs| == 2 * p.hits && evs[p.hits] == Record(ip, o, t0 + Pause(p))
    && (forall i :: 0 <= i < p.hits ==> evs[i] == Record(ip, o, t0))
    && (forall i :: p.hits < i < |evs| ==> evs[i] == Record(ip, o, t0 + p.window))
  }

  lemma TellTaleShape(p: Policy, ip: string, o: string, t0: int)
    requires !Harmless(p) && t0 >= ZERO_TIME
    ensures IsTellTale(p, TellTale(p, ip, o, t0), ip, o, t0) && Timed(TellTale(p, ip, o, t0))
  {
  }

  lemma TellTaleBlock(policies: Policies, evs: seq<Event>, ip: string, o: string, cleaning: bool, t0: int)
    requires o in policies && IsTellTale(policies[o], evs, ip, o, t0)
    ensures Trace(policies, evs, policies[o].hits, cleaning, ip, o) == Some(Entry(0, t0, t0 + policies[o].block))
  {
    assert Trace(policies, evs, 0, cleaning, ip, o) == None;
    CountUp(policies, evs, 1, policies[o].hits - 2, cleaning, ip, o, t0, Entry(1, t0, 0));
  }

  lemma TellTaleKept(policies: Policies, evs: seq<Event>, ip: string, o: string, t0: int)
    requires o in policies && IsTellTale(policies[o], evs, ip, o, t0)
    ensures !Told(policies, evs, |evs| - 1, false, ip, o).blocked
  {
    var p := policies[o];
    TellTaleBlock(policies, evs, ip, o, false, t0);
    var h, end := p.hits, t0 + p.block;
    assert Trace(policies, evs, h + 1, false, ip, o) == Some(Entry(1, t0, end));
    Roll(policies, evs, h + 1, false, ip, o, Entry(1, t0, end));
    CountUp(policies, evs, h + 2, h - 2, false, ip, o, t0 + p.window, Entry(1, t0 + p.window, end));
  }

  lemma TellTaleDeleted(policies: Policies, evs: seq<Event>, ip: string, o: string, t0: int)
    requires o in policies && IsTellTale(policies[o], evs, ip, o, t0)
    ensures Told(policies, evs, |evs| - 1, true, ip, o).blocked
  {
    var p := policies[o];
    TellTaleBlock(policies, evs, ip, o, true, t0);
    var h, again := p.hits, t0 + Pause(p);
    assert Trace(policies, evs, h + 1, true, ip, o) == Some(Entry(1, again, 0));
    CountUp(policies, evs, h + 1, h - 2, true, ip, o, t0 + p.window, Entry(1, again, 0));
    assert Trace(policies, evs, 2 * h - 1, true, ip, o) == Some(Entry(h - 1, again, 0));
  }

  ghost predicate ToldApart(policies: Policies, evs: seq<Event>, i: nat, ip: string, o: string) {
    && o in policies && Strikes(policies, evs, i, ip, o)
    && Told(policies, evs, i, true, ip, o) != Told(policies, evs, i, false, ip, o)
  }

  lemma DifferentlyTold(policies: Policies, evs: seq<Event>, i: nat, ip: string, o: string)
    requires ip != "" && ToldApart(policies, evs, i, ip, o)
    ensures !SameAnswers(policies, evs, i)
  {
    TraceIsView(policies, evs, i, true, ip, o);
    TraceIsView(policies, evs, i, false, ip, o);
  }

  lemma TellTaleTellsApart(policies: Policies, evs: seq<Event>, ip: string, o: string, t0: int)
    requires o in policies && IsTellTale(policies[o], evs, ip, o, t0)
    ensures ToldApart(policies, evs, |evs| - 1, ip, o)
  {
    TellTaleKept(policies, evs, ip, o, t0);
    TellTaleDeleted(policies, evs, ip, o, t0);
  }

  lemma TellTaleRun(policies: Policies, o: string, ip: string, t0: int)
    requires o in policies && !Harmless(policies[o]) && t0 >= ZERO_TIME
    ensures var evs := TellTale(policies[o], ip, o, t0);
      Timed(evs) && |evs| > 0 && evs[0].now == t0 && ToldApart(policies, evs, |evs| - 1, ip, o)
  {
    var evs := TellTale(policies[o], ip, o, t0);
    TellTaleShape(policies[o], ip, o, t0);
    TellTaleTellsApart(policies, evs, ip, o, t0);
  }

  /** Under any other policy, for every starting time and IP, a run of that one IP and offence shows
      the deletion. */
  lemma HarmfulShows(policies: Policies, o: string, ip: string, t0: int) returns (evs: seq<Event>)
    requires o in policies && !Harmless(policies[o]) && ip != "" && t0 >= ZERO_TIME
    ensures evs == TellTale(policies[o], ip, o, t0)
    ensures Timed(evs) && |evs| > 0 && evs[0].now == t0 && !SameAnswers(policies, evs, |evs| - 1)
  {
    TellTaleRun(policies, o, ip, t0);
    evs := TellTale(policies[o], ip, o, t0);
    DifferentlyTold(policies, evs, |evs| - 1, ip, o);
  }

  /** Deletion never shows in an answer, in any run, if and only if every policy is harmless. */
  lemma CleanupInvisibleExactly(policies: Policies)
    ensures CleanupInvisible(policies) <==> forall o :: o in policies ==> Harmless(policies[o])
  {
    if forall o :: o in policies ==> Harmless(policies[o]) {
      forall evs, i: nat | Timed(evs) && i < |evs| ensures SameAnswers(policies, evs, i) {
        HarmlessIsInvisible(policies, evs, i);
      }
    } else {
      var o :| o in policies && !Harmless(policies[o]);
      var evs := HarmfulShows(policies, o, "203.0.113.10", ZERO_TIME);
    }
  }

  /** The shipped policy is harmless. */
  lemma DefaultPolicyCleansInvisibly()
    ensures CleanupInvisible(map["bad_dataset_add" := DEFAULT_POLICY])
  {
    CleanupInvisibleExactly(map["bad_dataset_add" := DEFAULT_POLICY]);
  }

  /** In numbers: after a minute without offences, the fifth offence of an IP within a minute is
      answered with a block of five minutes. */
  lemma FifthInAMinute(evs: seq<Event>, a: nat, i: nat, ip: string)
    requires Timed(evs) && ip != "" && a <= i < |evs|
    requires var policies := map["bad_dataset_add" := DEFAULT_POLICY];
      && Opens(policies, evs, a, ip, "bad_dataset_add") && Unblocked(policies, evs, a, i, ip, "bad_dataset_add")
      && evs[i] == Record(ip, "bad_dataset_add", evs[i].now) && evs[i].now - evs[a].now < 60_000_000_000
      && StrikeCount(policies, evs, a, i + 1, ip, "bad_dataset_add") == 5
    ensures Answer(map["bad_dataset_add" := DEFAULT_POLICY], evs, i, true)
      == Verdict(true, 300_000_000_000, "too many requests for unavailable data sets")
  {
    BurstEarnsBlock(map["bad_dataset_add" := DEFAULT_POLICY], evs, a, i, ip, "bad_dataset_add");
  }
}
