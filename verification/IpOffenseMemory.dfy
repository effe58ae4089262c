/** What the throttle remembers: no entry outlives its use, and no recent offence is forgotten. */
module IpOffenseMemory {
  import opened Basics
  import opened IpOffenseThrottle
  import opened IpOffenseRuns
  import opened IpOffenseBlocks

  /** The offence at position i still matters at time now: it started a block that is running, or it
      was let through and lies less than two Windows back. */
  predicate Matters(policies: Policies, evs: seq<Event>, i: nat, ip: string, o: string, now: int)
    requires o in policies
  {
    && Strikes(policies, evs, i, ip, o)
    && ((Imposes(policies, evs, i, ip, o) && now < evs[i].now + policies[o].block)
        || (!Answer(policies, evs, i, true).blocked && now - evs[i].now < 2 * policies[o].window))
  }

  /** Position n sweeps the entries of an IP without adding to this one. */
  predicate Sweeps(policies: Policies, evs: seq<Event>, n: nat, ip: string, o: string) {
    n < |evs| && TouchOf(policies, evs[n], ip, o) == Brushed
  }

  lemma RunningBlockMatters(policies: Policies, evs: seq<Event>, n: nat, ip: string, o: string) returns (i: nat)
    requires Timed(evs) && o in policies && ip != "" && n < |evs|
    requires InForce(Trace(policies, evs, n, true, ip, o), evs[n].now)
    ensures i < n && Matters(policies, evs, i, ip, o, evs[n].now)
  {
    i := BlockHasCause(policies, evs, n, ip, o, evs[n].now);
    ImposesAsTraced(policies, evs, i, ip, o);
  }

  lemma CountMatters(policies: Policies, evs: seq<Event>, n: nat, ip: string, o: string) returns (i: nat)
    requires Timed(evs) && o in policies && ip != "" && n < |evs|
    requires var oe := Trace(policies, evs, n, true, ip, o);
      oe.Some? && oe.value.hits > 0 && evs[n].now - oe.value.windowStart < 2 * policies[o].window
    ensures i < n && Matters(policies, evs, i, ip, o, evs[n].now)
  {
    i := WindowOrigin(policies, evs, n, ip, o);
    TraceIsView(policies, evs, i, true, ip, o);
    assert !Told(policies, evs, i, true, ip, o).blocked;
  }

  /** Whatever is still there after a sweep is there for an offence that still matters. */
  lemma {:induction false} KeptForAReason(policies: Policies, evs: seq<Event>, n: nat, ip: string, o: string)
    requires Timed(evs) && o in policies && ip != "" && Sweeps(policies, evs, n, ip, o)
    requires View(After(policies, evs[..n + 1], true), ip, o).Some?
    ensures exists i :: 0 <= i < n && Matters(policies, evs, i, ip, o, evs[n].now)
  {
    TraceIsView(policies, evs, n + 1, true, ip, o);
    if InForce(Trace(policies, evs, n, true, ip, o), evs[n].now) {
      var i := RunningBlockMatters(policies, evs, n, ip, o);
    } else {
      var i := CountMatters(policies, evs, n, ip, o);
    }
  }

  /** The count an unblocked offence went into is kept for as long as no block ends it. */
  lemma {:induction false} CountStays(policies: Policies, evs: seq<Event>, i: nat, n: nat, ip: string, o: string)
    requires Timed(evs) && o in policies && i < n <= |evs| && Strikes(policies, evs, i, ip, o)
    requires ToldUnblocked(policies, evs, i, n, ip, o) && evs[n - 1].now - evs[i].now < policies[o].window
    ensures var oe := Trace(policies, evs, n, true, ip, o);
      oe.Some? && oe.value.hits > 0 && evs[i].now - oe.value.windowStart < policies[o].window
    decreases n
  {
    TraceShaped(policies, evs, n - 1, true, ip, o, evs[n - 1].now);
    if n == i + 1 {
      assert !Told(policies, evs, i, true, ip, o).blocked;
    } else {
      CountStays(policies, evs, i, n - 1, ip, o);
      assert Strikes(policies, evs, n - 1, ip, o) ==> !Told(policies, evs, n - 1, true, ip, o).blocked;
    }
  }

  lemma CountRemembered(policies: Policies, evs: seq<Event>, i: nat, n: nat, ip: string, o: string)
    requires Timed(evs) && o in policies && i < n && Sweeps(policies, evs, n, ip, o)
    requires Strikes(policies, evs, i, ip, o) && ToldUnblocked(policies, evs, i, n, ip, o)
    requires evs[n].now - evs[i].now < policies[o].window
    ensures Trace(policies, evs, n + 1, true, ip, o).Some?
  {
    CountStays(policies, evs, i, n, ip, o);
  }

  lemma BlockRemembered(policies: Policies, evs: seq<Event>, i: nat, n: nat, ip: string, o: string)
    requires Timed(evs) && o in policies && i < n && Sweeps(policies, evs, n, ip, o)
    requires TraceImposes(policies, evs, i, ip, o) && evs[n].now < evs[i].now + policies[o].block
    ensures Trace(policies, evs, n + 1, true, ip, o).Some?
  {
    BlockStands(policies, evs, i, n, ip, o);
  }

  /** No sweep forgets an offence less than a Window back that was let through, unless a block came of
      it, nor one whose block is running. */
  lemma {:induction false} RecentIsRemembered(policies: Policies, evs: seq<Event>, i: nat, n: nat, ip: string,
                                              o: string)
    requires Timed(evs) && o in policies && ip != "" && i < n && Sweeps(policies, evs, n, ip, o)
    requires Strikes(policies, evs, i, ip, o)
    requires (Imposes(policies, evs, i, ip, o) && evs[n].now < evs[i].now + policies[o].block)
      || (Unblocked(policies, evs, i, n, ip, o) && evs[n].now - evs[i].now < policies[o].window)
    ensures View(After(policies, evs[..n + 1], true), ip, o).Some?
  {
    TraceIsView(policies, evs, n + 1, true, ip, o);
    if Imposes(policies, evs, i, ip, o) && evs[n].now < evs[i].now + policies[o].block {
      ImposesAsTraced(policies, evs, i, ip, o);
      BlockRemembered(policies, evs, i, n, ip, o);
    } else {
      UnblockedAsTold(policies, evs, i, n, ip, o);
      CountRemembered(policies, evs, i, n, ip, o);
    }
  }

  /** A single offence is forgotten by a cleanup exactly from two Windows after it on. */
  lemma {:induction false} OneOffenseForgotten(policies: Policies, ip: string, o: string, t0: int, t: int)
    requires o in policies && ip != "" && policies[o].hits > 1 && ZERO_TIME <= t0 <= t
    ensures After(policies, [Record(ip, o, t0), CleanupAll(t)], true) == map[] <==> t - t0 >= 2 * policies[o].window
  {
    var evs := [Record(ip, o, t0), CleanupAll(t)];
    assert evs[..1] == [Record(ip, o, t0)] && evs[..1][..0] == [];
    var e := Entry(1, t0, ZERO_TIME);
    assert After(policies, evs[..1], true) == map[ip := map[o := e]];
    var offs := Swept(policies, map[o := e], t);
    assert o in offs <==> t - t0 < 2 * policies[o].window;
    assert forall x :: x in offs ==> x == o;
  }
}
