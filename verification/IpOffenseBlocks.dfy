/** Every block is earned, every block lasts, and nothing else is ever refused. */
module IpOffenseBlocks {
  import opened Basics
  import opened IpOffenseThrottle
  import opened IpOffenseRuns

  predicate InForce(oe: Option<Entry>, now: int) {
    oe.Some? && now < oe.value.blockedUntil
  }

  /** The call at position i is an offence that starts a block (rather than meeting one). */
  predicate Imposes(policies: Policies, evs: seq<Event>, i: nat, ip: string, o: string) {
    && Strikes(policies, evs, i, ip, o)
    && Answer(policies, evs, i, true).blocked
    && !InForce(View(After(policies, evs[..i], true), ip, o), evs[i].now)
  }

  predicate TraceImposes(policies: Policies, evs: seq<Event>, i: nat, ip: string, o: string)
    requires o in policies
  {
    && Strikes(policies, evs, i, ip, o)
    && Told(policies, evs, i, true, ip, o).blocked
    && !InForce(Trace(policies, evs, i, true, ip, o), evs[i].now)
  }

  lemma ImposesAsTraced(policies: Policies, evs: seq<Event>, i: nat, ip: string, o: string)
    requires o in policies && ip != "" && i < |evs|
    ensures Imposes(policies, evs, i, ip, o) == TraceImposes(policies, evs, i, ip, o)
  {
    TraceIsView(policies, evs, i, true, ip, o);
  }

  /** What an offence is told: the time left of a block in force, the whole of a block it starts, and
      nothing otherwise. */
  lemma OffenseIsTold(policies: Policies, evs: seq<Event>, i: nat, ip: string, o: string)
    requires Timed(evs) && o in policies && ip != "" && i < |evs| && Strikes(policies, evs, i, ip, o)
    ensures var oe, now := View(After(policies, evs[..i], true), ip, o), evs[i].now;
      Answer(policies, evs, i, true)
        == if InForce(oe, now) then Verdict(true, oe.value.blockedUntil - now, policies[o].reason)
           else if Imposes(policies, evs, i, ip, o) then Verdict(true, policies[o].block, policies[o].reason)
           else Verdict(false, 0, policies[o].reason)
  {
    TraceIsView(policies, evs, i, true, ip, o);
  }

  /** An unknown offence or an empty IP is told nothing, and changes nothing. */
  lemma StrangersAreIgnored(policies: Policies, evs: seq<Event>, i: nat, cleaning: bool)
    requires i < |evs| && evs[i].Record? && (evs[i].offense !in policies || evs[i].ip == "")
    ensures Answer(policies, evs, i, cleaning)
      == Verdict(false, 0, if evs[i].offense in policies then policies[evs[i].offense].reason else "")
    ensures After(policies, evs[..i + 1], cleaning) == After(policies, evs[..i], cleaning)
  {
    assert evs[..i + 1][..i] == evs[..i];
  }

  /** The offences an entry counts are real: as many as it says, since its window started. */
  lemma {:induction false} WindowOrigin(policies: Policies, evs: seq<Event>, n: nat, ip: string, o: string)
    returns (a: nat)
    requires Timed(evs) && o in policies && n <= |evs|
    ensures Trace(policies, evs, n, true, ip, o).Some? && Trace(policies, evs, n, true, ip, o).value.hits > 0 ==>
      var e := Trace(policies, evs, n, true, ip, o).value;
      && a < n && Strikes(policies, evs, a, ip, o) && evs[a].now == e.windowStart
      && StrikeCount(policies, evs, a, n, ip, o) == e.hits
      && ToldUnblocked(policies, evs, a, n, ip, o)
  {
    a := 0;
    if n > 0 {
      a := WindowOrigin(policies, evs, n - 1, ip, o);
      TraceShaped(policies, evs, n - 1, true, ip, o, evs[n - 1].now);
      var oe := Trace(policies, evs, n, true, ip, o);
      if oe.Some? && oe.value.hits == 1 && Strikes(policies, evs, n - 1, ip, o)
          && !Told(policies, evs, n - 1, true, ip, o).blocked {
        a := n - 1;
        assert StrikeCount(policies, evs, a, n - 1, ip, o) == 0;
      }
    }
  }

  function Required(p: Policy): nat {
    if p.hits <= 1 then 1 else p.hits
  }

  /** Positions a..i hold exactly the offences that earn a block at i. */
  predicate Earned(policies: Policies, evs: seq<Event>, a: nat, i: nat, ip: string, o: string)
    requires o in policies && i < |evs|
  {
    && a <= i && Strikes(policies, evs, a, ip, o)
    && StrikeCount(policies, evs, a, i + 1, ip, o) == Required(policies[o])
    && Unblocked(policies, evs, a, i, ip, o)
    && (policies[o].hits > 1 ==> evs[i].now - evs[a].now < policies[o].window)
  }

  /** A new block answers exactly Hits offences of that IP and kind, the last one just now, none
      refused before, all within one Window. */
  lemma BlocksAreEarned(policies: Policies, evs: seq<Event>, i: nat, ip: string, o: string)
    requires Timed(evs) && o in policies && ip != "" && i < |evs| && Imposes(policies, evs, i, ip, o)
    ensures exists a: nat :: Earned(policies, evs, a, i, ip, o)
  {
    ImposesAsTraced(policies, evs, i, ip, o);
    TraceShaped(policies, evs, i, true, ip, o, evs[i].now);
    var a := WindowOrigin(policies, evs, i, ip, o);
    if policies[o].hits <= 1 {
      assert StrikeCount(policies, evs, i, i, ip, o) == 0;
      assert StrikeCount(policies, evs, i, i + 1, ip, o) == 1;
      assert Earned(policies, evs, i, i, ip, o);
    } else {
      UnblockedAsTold(policies, evs, a, i, ip, o);
      assert StrikeCount(policies, evs, a, i + 1, ip, o) == policies[o].hits;
      assert Earned(policies, evs, a, i, ip, o);
    }
  }

  // ---------- What earns a block ----------

  /** Every window starts with an offence. */
  lemma {:induction false} WindowHasOffense(policies: Policies, evs: seq<Event>, n: nat, ip: string, o: string)
    returns (j: nat)
    requires o in policies && n <= |evs| && Trace(policies, evs, n, true, ip, o).Some?
    ensures j < n && Strikes(policies, evs, j, ip, o)
    ensures evs[j].now == Trace(policies, evs, n, true, ip, o).value.windowStart
  {
    var before := Trace(policies, evs, n - 1, true, ip, o);
    if before.Some? && before.value.windowStart == Trace(policies, evs, n, true, ip, o).value.windowStart {
      j := WindowHasOffense(policies, evs, n - 1, ip, o);
    } else {
      j := n - 1;
    }
  }

  /** No offence of that IP and kind lies less than a Window before position a. */
  predicate Opens(policies: Policies, evs: seq<Event>, a: nat, ip: string, o: string)
    requires o in policies && a < |evs|
  {
    && Strikes(policies, evs, a, ip, o)
    && forall j :: 0 <= j < a && Strikes(policies, evs, j, ip, o) ==> evs[a].now - evs[j].now >= policies[o].window
  }

  lemma OpensWindow(policies: Policies, evs: seq<Event>, a: nat, ip: string, o: string)
    requires Timed(evs) && o in policies && a < |evs| && Opens(policies, evs, a, ip, o) && policies[o].hits > 1
    requires policies[o].window > 0 && !Told(policies, evs, a, true, ip, o).blocked
    ensures var oe := Trace(policies, evs, a + 1, true, ip, o);
      oe.Some? && oe.value.hits == 1 && oe.value.windowStart == evs[a].now && oe.value.blockedUntil <= evs[a].now
  {
    if Trace(policies, evs, a, true, ip, o).Some? {
      var j := WindowHasOffense(policies, evs, a, ip, o);
    }
  }

  /** From there on the entry counts every offence. */
  lemma {:induction false} WindowCounts(policies: Policies, evs: seq<Event>, a: nat, n: nat, ip: string, o: string)
    requires Timed(evs) && o in policies && a < n <= |evs| && Opens(policies, evs, a, ip, o) && policies[o].hits > 1
    requires evs[n - 1].now - evs[a].now < policies[o].window && ToldUnblocked(policies, evs, a, n, ip, o)
    ensures var oe := Trace(policies, evs, n, true, ip, o);
      && oe.Some? && oe.value.windowStart == evs[a].now && oe.value.blockedUntil <= evs[n - 1].now
      && oe.value.hits == StrikeCount(policies, evs, a, n, ip, o) > 0
    decreases n
  {
    if n == a + 1 {
      OpensWindow(policies, evs, a, ip, o);
      assert StrikeCount(policies, evs, a, a, ip, o) == 0;
    } else {
      WindowCounts(policies, evs, a, n - 1, ip, o);
      assert Strikes(policies, evs, n - 1, ip, o) ==> !Told(policies, evs, n - 1, true, ip, o).blocked;
    }
  }

  /** The other way: after a quiet Window, the Hits-th offence within one Window is answered with a
      block, and starts it. */
  lemma BurstEarnsBlock(policies: Policies, evs: seq<Event>, a: nat, i: nat, ip: string, o: string)
    requires Timed(evs) && o in policies && ip != "" && a <= i < |evs| && Opens(policies, evs, a, ip, o)
    requires policies[o].hits > 1 && Earned(policies, evs, a, i, ip, o) && Strikes(policies, evs, i, ip, o)
    ensures Imposes(policies, evs, i, ip, o)
    ensures Answer(policies, evs, i, true) == Verdict(true, policies[o].block, policies[o].reason)
  {
    assert a < i;
    UnblockedAsTold(policies, evs, a, i, ip, o);
    WindowCounts(policies, evs, a, i, ip, o);
    TraceIsView(policies, evs, i, true, ip, o);
    assert StrikeCount(policies, evs, a, i + 1, ip, o) == StrikeCount(policies, evs, a, i, ip, o) + 1;
    OffenseIsTold(policies, evs, i, ip, o);
  }

  // ---------- Blocks last ----------

  /** While a block is in force nothing changes its end. */
  lemma {:induction false} BlockStands(policies: Policies, evs: seq<Event>, i: nat, m: nat, ip: string, o: string)
    requires Timed(evs) && o in policies && i < m < |evs| && TraceImposes(policies, evs, i, ip, o)
    requires evs[m].now < evs[i].now + policies[o].block
    ensures Trace(policies, evs, m, true, ip, o) == Some(Entry(0, evs[i].now, evs[i].now + policies[o].block))
    decreases m
  {
    if i + 1 < m {
      BlockStands(policies, evs, i, m - 1, ip, o);
    }
  }

  lemma LongestSees(policies: Policies, st: State, ip: string, o: string, now: int, v: Verdict)
    requires InForce(View(st, ip, o), now) && LongestOf(policies, OffensesOf(st, ip), now, v)
    ensures v.blocked && v.retryAfter >= View(st, ip, o).value.blockedUntil - now
  {
  }

  function Left(policies: Policies, evs: seq<Event>, i: nat, m: nat, o: string): int
    requires i < |evs| && m < |evs| && o in policies
  {
    evs[i].now + policies[o].block - evs[m].now
  }

  /** Before t + Block every further offence of that kind is refused, whatever happens in between. */
  lemma BlocksLast(policies: Policies, evs: seq<Event>, i: nat, m: nat, ip: string, o: string)
    requires Timed(evs) && o in policies && ip != "" && i < m < |evs| && Imposes(policies, evs, i, ip, o)
    requires 0 < Left(policies, evs, i, m, o) && Strikes(policies, evs, m, ip, o)
    ensures Answer(policies, evs, m, true) == Verdict(true, Left(policies, evs, i, m, o), policies[o].reason)
  {
    ImposesAsTraced(policies, evs, i, ip, o);
    BlockStands(policies, evs, i, m, ip, o);
    TraceIsView(policies, evs, m, true, ip, o);
  }

  /** A block imposed at i still shows after a blocked-check at m that comes before its end. */
  lemma {:induction false} BlockShows(policies: Policies, evs: seq<Event>, i: nat, m: nat, ip: string, o: string)
    requires Timed(evs) && o in policies && ip != "" && i < m < |evs| && TraceImposes(policies, evs, i, ip, o)
    requires 0 < Left(policies, evs, i, m, o) && evs[m].LongestBlock?
    ensures var e := View(After(policies, evs[..m + 1], true), ip, o);
      InForce(e, evs[m].now) && e.value.blockedUntil == evs[i].now + policies[o].block
  {
    BlockStands(policies, evs, i, m, ip, o);
    TraceIsView(policies, evs, m + 1, true, ip, o);
  }

  /** Before t + Block every blocked-check of that IP refuses it, for at least the time left. */
  lemma BlocksRefuse(policies: Policies, evs: seq<Event>, i: nat, m: nat, ip: string, o: string, v: Verdict)
    requires Timed(evs) && o in policies && ip != "" && i < m < |evs| && Imposes(policies, evs, i, ip, o)
    requires 0 < Left(policies, evs, i, m, o) && evs[m] == LongestBlock(ip, evs[m].now)
    requires MayAnswer(policies, evs, m, true, v)
    ensures v.blocked && v.retryAfter >= Left(policies, evs, i, m, o)
  {
    ImposesAsTraced(policies, evs, i, ip, o);
    BlockShows(policies, evs, i, m, ip, o);
    LongestSees(policies, After(policies, evs[..m + 1], true), ip, o, evs[m].now, v);
  }

  /** Any block in force was imposed by some earlier offence. */
  lemma {:induction false} BlockHasCause(policies: Policies, evs: seq<Event>, n: nat, ip: string, o: string, now: int)
    returns (i: nat)
    requires Timed(evs) && o in policies && n <= |evs| && ZERO_TIME <= now && (n == 0 || evs[n - 1].now <= now)
    requires InForce(Trace(policies, evs, n, true, ip, o), now)
    ensures i < n && TraceImposes(policies, evs, i, ip, o)
    ensures Trace(policies, evs, n, true, ip, o).value.blockedUntil == evs[i].now + policies[o].block
  {
    if TraceImposes(policies, evs, n - 1, ip, o) {
      i := n - 1;
    } else {
      i := BlockHasCause(policies, evs, n - 1, ip, o, evs[n - 1].now);
    }
  }

  lemma {:induction false} OnlyKnownOffenses(policies: Policies, evs: seq<Event>, ip: string, o: string)
    ensures View(After(policies, evs, true), ip, o).Some? ==> o in policies
  {
    if evs != [] {
      var st := After(policies, evs[..|evs| - 1], true);
      OnlyKnownOffenses(policies, evs[..|evs| - 1], ip, o);
      match evs[|evs| - 1]
      case Record(ip', o', now) =>
        if ip' != ip { ViewSweptOther(policies, st, ip', ip, o, now); }
      case LongestBlock(ip', now) =>
        if ip' != ip { ViewSweptOther(policies, st, ip', ip, o, now); }
      case CleanupAll(_) =>
    }
  }

  /** The offence at position i still accounts for the refusal v of the request at position m. */
  predicate Explains(policies: Policies, evs: seq<Event>, i: nat, m: nat, o: string, v: Verdict)
    requires m < |evs| && evs[m].LongestBlock?
  {
    && i < m && o in policies && Imposes(policies, evs, i, evs[m].ip, o)
    && v.retryAfter == Left(policies, evs, i, m, o) && v.reason == policies[o].reason
  }

  lemma LongestBlames(policies: Policies, st: State, ip: string, now: int, v: Verdict) returns (o: string)
    requires LongestOf(policies, OffensesOf(st, ip), now, v) && v.blocked
    ensures View(st, ip, o).Some? && View(st, ip, o).value.blockedUntil - now == v.retryAfter > 0
    ensures v.reason == if o in policies then policies[o].reason else ""
  {
    var offs := OffensesOf(st, ip);
    o :| o in offs && offs[o].blockedUntil - now == v.retryAfter
         && v.reason == (if o in policies then policies[o].reason else "");
  }

  lemma ShownHasCause(policies: Policies, evs: seq<Event>, m: nat, ip: string, o: string) returns (i: nat)
    requires Timed(evs) && m < |evs| && evs[m].LongestBlock? && ip != "" && o in policies
    requires InForce(View(After(policies, evs[..m + 1], true), ip, o), evs[m].now)
    ensures i < m && Imposes(policies, evs, i, ip, o)
    ensures View(After(policies, evs[..m + 1], true), ip, o).value.blockedUntil == evs[i].now + policies[o].block
  {
    TraceIsView(policies, evs, m + 1, true, ip, o);
    i := BlockHasCause(policies, evs, m + 1, ip, o, evs[m].now);
    ImposesAsTraced(policies, evs, i, ip, o);
  }

  /** A refused request was refused for an offence kind whose block is still running, and that
      block was imposed by an earlier offence of the same IP. */
  lemma RefusalsHaveCause(policies: Policies, evs: seq<Event>, m: nat, v: Verdict)
    requires Timed(evs) && m < |evs| && evs[m].LongestBlock? && MayAnswer(policies, evs, m, true, v) && v.blocked
    ensures exists i: nat, o :: Explains(policies, evs, i, m, o, v)
  {
    var ip, now := evs[m].ip, evs[m].now;
    var o := LongestBlames(policies, After(policies, evs[..m + 1], true), ip, now, v);
    OnlyKnownOffenses(policies, evs[..m + 1], ip, o);
    var i := ShownHasCause(policies, evs, m, ip, o);
    assert Explains(policies, evs, i, m, o, v);
  }
}
