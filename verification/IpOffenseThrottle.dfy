/** The per-IP offence throttle: tumbling windows of counted offences, temporary
    blocks, and deletion of entries that no longer matter.

    Times are nanoseconds since Go's zero time, so the zero `time.Time` is 0 and no
    clock reading lies before it.  The clock is read once per call. */
module IpOffenseThrottle {
  import opened Basics

  datatype Policy = Policy(hits: int, window: int, block: int, reason: string)

  datatype Entry = Entry(hits: int, windowStart: int, blockedUntil: int)

  datatype Verdict = Verdict(blocked: bool, retryAfter: int, reason: string)

  type Policies = map<string, Policy>
  type Offenses = map<string, Entry>
  type State = map<string, Offenses>

  const ZERO_TIME := 0

  /** An entry that may be deleted: its block is over and it counts nothing recent. */
  predicate Expired(e: Entry, p: Policy, now: int) {
    e.blockedUntil <= now && !(e.hits > 0 && now - e.windowStart < p.window * 2)
  }

  predicate Kept(policies: Policies, offs: Offenses, o: string, now: int)
    requires o in offs
  {
    o in policies && !Expired(offs[o], policies[o], now)
  }

  function Swept(policies: Policies, offs: Offenses, now: int): Offenses {
    map o | o in offs && Kept(policies, offs, o, now) :: offs[o]
  }

  function SweptIp(policies: Policies, st: State, ip: string, now: int): State {
    if ip !in st then st
    else
      var offs := Swept(policies, st[ip], now);
      if offs == map[] then st - {ip} else st[ip := offs]
  }

  function SweptAll(policies: Policies, st: State, now: int): State {
    map ip | ip in st && Swept(policies, st[ip], now) != map[] :: Swept(policies, st[ip], now)
  }

  /** What one offence does to its entry, and what the caller is told. */
  function Strike(p: Policy, e: Entry, now: int): (Entry, Verdict) {
    if now < e.blockedUntil then
      (e, Verdict(true, e.blockedUntil - now, p.reason))
    else
      var rolled := if now - e.windowStart >= p.window then e.(hits := 0, windowStart := now) else e;
      if rolled.hits + 1 < p.hits then
        (rolled.(hits := rolled.hits + 1), Verdict(false, 0, p.reason))
      else
        (Entry(0, now, now + p.block), Verdict(true, p.block, p.reason))
  }

  function View(st: State, ip: string, o: string): Option<Entry> {
    if ip in st && o in st[ip] then Some(st[ip][o]) else None
  }

  function FreshOr(oe: Option<Entry>, now: int): Entry {
    if oe.Some? then oe.value else Entry(0, now, ZERO_TIME)
  }

  function Put(st: State, ip: string, o: string, e: Entry): State {
    st[ip := (if ip in st then st[ip] else map[])[o := e]]
  }

  /** The whole effect of `Record`.  With `cleaning` off this is the throttle that never
      deletes an entry, the reference against which deletion is judged. */
  function Recorded(policies: Policies, st: State, ip: string, o: string, now: int, cleaning: bool): (State, Verdict) {
    if o !in policies then (st, Verdict(false, 0, ""))
    else if ip == "" then (st, Verdict(false, 0, policies[o].reason))
    else
      var swept := if cleaning then SweptIp(policies, st, ip, now) else st;
      var struck := Strike(policies[o], FreshOr(View(swept, ip, o), now), now);
      (Put(swept, ip, o, struck.0), struck.1)
  }

  /** The answers `longestBlock` may give for the offences of one IP.  The reason is that of
      some longest block: Go's map order decides which when several are equally long. */
  predicate LongestOf(policies: Policies, offs: Offenses, now: int, v: Verdict) {
    if v.blocked then
      && (exists o :: o in offs && offs[o].blockedUntil - now == v.retryAfter
                      && v.reason == (if o in policies then policies[o].reason else ""))
      && v.retryAfter > 0
      && (forall o :: o in offs ==> offs[o].blockedUntil - now <= v.retryAfter)
    else
      v == Verdict(false, 0, "") && (forall o :: o in offs ==> offs[o].blockedUntil <= now)
  }

  function OffensesOf(st: State, ip: string): Offenses {
    if ip in st then st[ip] else map[]
  }

  /** The entries of one IP that a sweep deletes: those of unknown offences, and those whose block is
      over and which count nothing or whose window began two windows ago.  Other IPs stay as they are,
      and no IP is left without entries. */
  lemma SweepIsExact(policies: Policies, st: State, ip: string, now: int, o: string)
    ensures View(st, ip, o).Some? ==>
      var e, swept := View(st, ip, o).value, View(SweptIp(policies, st, ip, now), ip, o);
      var goes := o !in policies
        || (e.blockedUntil <= now && (e.hits <= 0 || now - e.windowStart >= 2 * policies[o].window));
      swept == if goes then None else Some(e)
    ensures View(st, ip, o).None? ==> View(SweptIp(policies, st, ip, now), ip, o).None?
    ensures SweptIp(policies, st, ip, now) - {ip} == st - {ip}
    ensures ip in SweptIp(policies, st, ip, now) ==> SweptIp(policies, st, ip, now)[ip] != map[]
  {
    if ip in st {
      var offs := Swept(policies, st[ip], now);
      assert offs == map[] ==> o !in offs;
    }
  }

  class Throttle {
    const policies: Policies
    var state: State

    constructor (policies: Policies)
      ensures this.policies == policies && state == map[]
    {
      this.policies := policies;
      state := map[];
    }

    method CleanupIpLocked(ip: string, now: int)
      modifies this
      ensures state == SweptIp(policies, old(state), ip, now)
    {
      if ip !in state {
        return;
      }
      var offenses := state[ip];
      var todo := offenses.Keys;
      ghost var all := offenses;
      while todo != {}
        invariant todo <= all.Keys
        invariant forall o :: o in offenses <==> o in all && (o in todo || Kept(policies, all, o, now))
        invariant forall o :: o in offenses ==> offenses[o] == all[o]
        invariant state == old(state)
        decreases |todo|
      {
        var o :| o in todo;
        todo := todo - {o};
        if o !in policies || Expired(offenses[o], policies[o], now) {
          offenses := offenses - {o};
        }
      }
      assert offenses == Swept(policies, all, now);
      if offenses == map[] {
        state := state - {ip};
      } else {
        state := state[ip := offenses];
      }
    }

    method CleanupAll(now: int)
      modifies this
      ensures state == SweptAll(policies, old(state), now)
    {
      var todo := state.Keys;
      while todo != {}
        invariant todo <= old(state).Keys
        invariant forall ip :: ip in state ==>
          ip in old(state) && state[ip] == if ip in todo then old(state)[ip] else Swept(policies, old(state)[ip], now)
        invariant forall ip :: ip in old(state) ==>
          (ip in state <==> ip in todo || Swept(policies, old(state)[ip], now) != map[])
        decreases |todo|
      {
        var ip :| ip in todo;
        CleanupIpLocked(ip, now);
        todo := todo - {ip};
      }
      assert state == SweptAll(policies, old(state), now);
    }

    method Record(ip: string, offense: string, now: int)
      returns (blocked: bool, retryAfter: int, reason: string)
      modifies this
      ensures (state, Verdict(blocked, retryAfter, reason)) == Recorded(policies, old(state), ip, offense, now, true)
      ensures offense !in policies ==> (blocked, retryAfter, reason) == (false, 0, "")
      ensures offense in policies ==> reason == policies[offense].reason
      ensures ip == "" ==> !blocked && retryAfter == 0
      ensures offense !in policies || ip == "" ==> state == old(state)
    {
      if offense !in policies {
        return false, 0, "";
      }
      var policy := policies[offense];
      if ip == "" {
        return false, 0, policy.reason;
      }
      CleanupIpLocked(ip, now);
      var swept := state;
      var offenses := if ip in state then state[ip] else map[];
      var st := if offense in offenses then offenses[offense] else Entry(0, now, ZERO_TIME);
      state := state[ip := offenses[offense := st]];
      if now < st.blockedUntil {
        return true, st.blockedUntil - now, policy.reason;
      }
      if now - st.windowStart >= policy.window {
        st := st.(hits := 0, windowStart := now);
      }
      st := st.(hits := st.hits + 1);
      state := swept[ip := offenses[offense := st]];
      if st.hits < policy.hits {
        return false, 0, policy.reason;
      }
      st := Entry(0, now, now + policy.block);
      state := swept[ip := offenses[offense := st]];
      return true, policy.block, policy.reason;
    }

    method LongestBlock(ip: string, now: int)
      returns (blocked: bool, retryAfter: int, reason: string)
      modifies this
      ensures state == if ip == "" then old(state) else SweptIp(policies, old(state), ip, now)
      ensures LongestOf(policies, if ip == "" then map[] else OffensesOf(state, ip), now,
                        Verdict(blocked, retryAfter, reason))
    {
      blocked, retryAfter, reason := false, 0, "";
      if ip == "" {
        return;
      }
      CleanupIpLocked(ip, now);
      if ip !in state {
        return;
      }
      var offenses := state[ip];
      var todo := offenses.Keys;
      ghost var done: Offenses := map[];
      while todo != {}
        invariant todo <= offenses.Keys
        invariant done == map o | o in offenses && o !in todo :: offenses[o]
        invariant LongestOf(policies, done, now, Verdict(blocked, retryAfter, reason))
        decreases |todo|
      {
        var o :| o in todo;
        todo := todo - {o};
        ghost var before := done;
        done := done[o := offenses[o]];
        var st := offenses[o];
        if now < st.blockedUntil {
          var remaining := st.blockedUntil - now;
          if !blocked || remaining > retryAfter {
            blocked, retryAfter := true, remaining;
            reason := if o in policies then policies[o].reason else "";
            assert o in done;
          } else {
            ghost var w :| w in before && before[w].blockedUntil - now == retryAfter
                     && reason == (if w in policies then policies[w].reason else "");
            assert w in done;
          }
        }
      }
      assert done == offenses;
    }
  }
}
