/** Exactly when grouping keeps its two promises, for given network limits: no sector gets lost, and
    none is extended past its own maximum lifetime. */
module ExtensionLimits {
  import opened Basics
  import opened ExtensionGroups

  /** A live sector as the chain reports it: activated by now, not expired, its lifetime one of those
      the network grants. */
  predicate Live(p: Plan, s: Sector, lives: set<int>) {
    s.lifetime in lives && 0 <= s.activation <= p.currEpoch <= s.expiration
  }

  /** A sector number stands for one sector. */
  predicate Consistent(sis: seq<Sector>) {
    forall i, j :: 0 <= i < j < |sis| && sis[i].number == sis[j].number ==> sis[i] == sis[j]
  }

  /** What the command is run on: the flag, the network's limits, and live sectors. */
  predicate Setting(p: Plan, sis: seq<Sector>, tolerance: int, maxExtension: int, lives: set<int>) {
    && p.tolerance == tolerance && p.maxExtension == maxExtension && Consistent(sis)
    && forall s :: s in sis ==> Live(p, s, lives)
  }

  // ---------- Where bucket keys and members come from ----------

  predicate IsTarget(p: Plan, s: Sector, e: int) {
    !NotWorthIt(p, s) && Clamped(p, s) == e
  }

  ghost predicate KeysAreTargets(p: Plan, sis: seq<Sector>, ext: Extensions) {
    forall g :: HasGroup(ext, g) ==> exists s :: s in sis && IsTarget(p, s, g.expiration)
  }

  lemma StepKey(p: Plan, ext: Extensions, s: Sector, ext': Extensions, g: Group)
    requires SectorStep(p, ext, s, ext') && HasGroup(ext', g)
    ensures HasGroup(ext, g) || IsTarget(p, s, g.expiration)
  {
  }

  /** Every bucket key is the clamped target of some sector worth extending. */
  lemma {:induction false} GroupedKeys(p: Plan, sis: seq<Sector>, ext: Extensions)
    requires Grouped(p, sis, ext)
    ensures KeysAreTargets(p, sis, ext)
  {
    if sis != [] {
      var k := |sis| - 1;
      var prev :| LastStep(p, sis, prev, ext) && Grouped(p, sis[..k], prev);
      GroupedKeys(p, sis[..k], prev);
      forall g | HasGroup(ext, g) ensures exists s :: s in sis && IsTarget(p, s, g.expiration) {
        StepKey(p, prev, sis[k], ext, g);
        if HasGroup(prev, g) {
          var s :| s in sis[..k] && IsTarget(p, s, g.expiration);
          assert s in sis;
        } else {
          assert sis[k] in sis;
        }
      }
    }
  }

  /** The sector's own target is the expiration, or within tolerance of it. */
  predicate Near(p: Plan, s: Sector, e: int) {
    !NotWorthIt(p, s) && (Clamped(p, s) == e || WithinTolerance(Clamped(p, s), e, p.tolerance))
  }

  predicate InGroup(ext: Extensions, g: Group, n: nat) {
    HasGroup(ext, g) && n in ext[g.location][g.expiration]
  }

  ghost predicate MembersAreNear(p: Plan, sis: seq<Sector>, ext: Extensions) {
    forall g, n :: InGroup(ext, g, n) ==> exists s :: s in sis && s.number == n && Near(p, s, g.expiration)
  }

  lemma StepMember(p: Plan, ext: Extensions, s: Sector, ext': Extensions, g: Group, n: nat)
    requires SectorStep(p, ext, s, ext') && InGroup(ext', g, n)
    ensures InGroup(ext, g, n) || (s.number == n && Near(p, s, g.expiration))
  {
  }

  /** Whatever the tolerance, a member of a bucket is a sector worth extending whose target is near. */
  lemma {:induction false} GroupedMembers(p: Plan, sis: seq<Sector>, ext: Extensions)
    requires Grouped(p, sis, ext)
    ensures MembersAreNear(p, sis, ext)
  {
    if sis != [] {
      var k := |sis| - 1;
      var prev :| LastStep(p, sis, prev, ext) && Grouped(p, sis[..k], prev);
      GroupedMembers(p, sis[..k], prev);
      forall g, n | InGroup(ext, g, n) ensures exists s :: s in sis && s.number == n && Near(p, s, g.expiration) {
        StepMember(p, prev, sis[k], ext, g, n);
        if InGroup(prev, g, n) {
          var s :| s in sis[..k] && s.number == n && Near(p, s, g.expiration);
          assert s in sis;
        } else {
          assert sis[k] in sis;
        }
      }
    }
  }

  // ---------- Maximum lifetimes ----------

  /** No sector is grouped past its own maximum lifetime. */
  ghost predicate NoneOverstays(sis: seq<Sector>, ext: Extensions) {
    forall g, s: Sector :: s in sis && InGroup(ext, g, s.number) ==> g.expiration <= MaxLife(s)
  }

  /** What the help text promises, for every choice of live sectors and target and every map order. */
  ghost predicate RespectsMaxLife(tolerance: int, maxExtension: int, lives: set<int>) {
    forall p: Plan, sis, ext ::
      Setting(p, sis, tolerance, maxExtension, lives) && Grouped(p, sis, ext) ==> NoneOverstays(sis, ext)
  }

  /** Nobody can gain more than the tolerance by over one epoch. */
  predicate LeavesNoRoom(tolerance: int, maxExtension: int, lives: set<int>) {
    tolerance + 1 >= maxExtension || forall life :: life in lives ==> tolerance + 1 >= life
  }

  lemma OneTarget(p: Plan, s: Sector, lives: set<int>)
    requires Live(p, s, lives) && !NotWorthIt(p, s) && p.tolerance >= 0
    requires LeavesNoRoom(p.tolerance, p.maxExtension, lives)
    ensures Clamped(p, s) == p.currEpoch + p.tolerance + 1
  {
  }

  lemma {:induction false} SectorOf(sis: seq<Sector>, s: Sector, t: Sector)
    requires Consistent(sis) && s in sis && t in sis && s.number == t.number
    ensures s == t
  {
    var i :| 0 <= i < |sis| && sis[i] == s;
    var j :| 0 <= j < |sis| && sis[j] == t;
    assert i < j ==> sis[i] == sis[j];
    assert j < i ==> sis[j] == sis[i];
  }

  lemma StaysWithin(p: Plan, sis: seq<Sector>, ext: Extensions, lives: set<int>, g: Group, s: Sector)
    requires Setting(p, sis, p.tolerance, p.maxExtension, lives) && Grouped(p, sis, ext)
    requires p.tolerance <= 0 || LeavesNoRoom(p.tolerance, p.maxExtension, lives)
    requires s in sis && InGroup(ext, g, s.number)
    ensures g.expiration <= MaxLife(s)
  {
    GroupedMembers(p, sis, ext);
    var t :| t in sis && t.number == s.number && Near(p, t, g.expiration);
    SectorOf(sis, s, t);
    if p.tolerance > 0 {
      GroupedKeys(p, sis, ext);
      var u :| u in sis && IsTarget(p, u, g.expiration);
      OneTarget(p, u, lives);
      OneTarget(p, s, lives);
    }
  }

  const SHARED := Location(0, 0)

  function TightPlan(tolerance: int, maxExtension: int, now: int): Plan {
    Plan(now, maxExtension, ToEpoch(now + maxExtension), tolerance, map[1 := SHARED, 2 := SHARED])
  }

  /** Two sectors of one partition that expire now; one may live one epoch longer than the other, and
      both just long enough to be worth extending. */
  function TightSectors(tolerance: int, life: int, now: int): seq<Sector> {
    [Sector(1, now + tolerance + 2 - life, now, life), Sector(2, now + tolerance + 1 - life, now, life)]
  }

  function Together(e: int): Extensions {
    map[SHARED := map[e := [1, 2]]]
  }

  lemma TightGrouping(tolerance: int, maxExtension: int, life: int, now: int)
    requires tolerance > 0 && tolerance + 2 <= maxExtension && tolerance + 2 <= life
    ensures var p, sis := TightPlan(tolerance, maxExtension, now), TightSectors(tolerance, life, now);
      Grouped(p, sis, Together(now + tolerance + 2))
  {
    var p, sis, e := TightPlan(tolerance, maxExtension, now), TightSectors(tolerance, life, now), now + tolerance + 2;
    var one, two: Extensions := map[SHARED := map[e := [1]]], Together(e);
    assert sis[..1] == [sis[0]] && [sis[0]][..0] == [];
    assert one == map[][SHARED := map[e := [1]]] && LastStep(p, [sis[0]], map[], one);
    assert Grouped(p, [sis[0]], one);
    assert one[SHARED][e] + [2] == [1, 2];
    assert two[SHARED] == one[SHARED][e := one[SHARED][e] + [2]] && two == one[SHARED := two[SHARED]];
    assert e in one[SHARED] && WithinTolerance(e - 1, e, tolerance);
    assert Added(one[SHARED], e - 1, 2, tolerance, two[SHARED]);
    assert LastStep(p, sis, one, two);
  }

  /** Under any limits that leave room, at any epoch at which such sectors can exist, the second
      sector of two is grouped one epoch past its maximum lifetime. */
  lemma OverstaysByTolerance(tolerance: int, maxExtension: int, lives: set<int>, life: int, now: int)
    requires tolerance > 0 && tolerance + 2 <= maxExtension && tolerance + 2 <= life && life in lives && life <= now
    ensures var p, sis := TightPlan(tolerance, maxExtension, now), TightSectors(tolerance, life, now);
      && Setting(p, sis, tolerance, maxExtension, lives) && Grouped(p, sis, Together(now + tolerance + 2))
      && !NoneOverstays(sis, Together(now + tolerance + 2))
  {
    var sis, e := TightSectors(tolerance, life, now), now + tolerance + 2;
    TightGrouping(tolerance, maxExtension, life, now);
    var bucket := Together(e)[SHARED][e];
    assert bucket[1] == 2 && InGroup(Together(e), Group(SHARED, e), sis[1].number) && sis[1] in sis;
  }

  /** The help text promises extensions "while not exceeding each sector's max life".  For given
      network limits that holds if and only if the tolerance is not positive, or so large that it
      leaves no room for two different new expirations. */
  lemma MaxLifeRespectedExactly(tolerance: int, maxExtension: int, lives: set<int>)
    ensures RespectsMaxLife(tolerance, maxExtension, lives) <==>
      tolerance <= 0 || LeavesNoRoom(tolerance, maxExtension, lives)
  {
    if tolerance <= 0 || LeavesNoRoom(tolerance, maxExtension, lives) {
      forall p: Plan, sis, ext | Setting(p, sis, tolerance, maxExtension, lives) && Grouped(p, sis, ext)
        ensures NoneOverstays(sis, ext)
      {
        forall g, s: Sector | s in sis && InGroup(ext, g, s.number) ensures g.expiration <= MaxLife(s) {
          StaysWithin(p, sis, ext, lives, g, s);
        }
      }
    } else {
      var life :| life in lives && tolerance + 1 < life;
      OverstaysByTolerance(tolerance, maxExtension, lives, life, life);
    }
  }

  const EPOCHS_IN_DAY := 2880

  /** With the limits the help text names, 1278 days and five years: only without a positive
      tolerance, or with one of at least 1278 days less an epoch. */
  lemma HelpTextHoldsExactly(tolerance: int)
    ensures RespectsMaxLife(tolerance, 1278 * EPOCHS_IN_DAY, {5 * 365 * EPOCHS_IN_DAY}) <==>
      tolerance <= 0 || tolerance >= 1278 * EPOCHS_IN_DAY - 1
  {
    MaxLifeRespectedExactly(tolerance, 1278 * EPOCHS_IN_DAY, {5 * 365 * EPOCHS_IN_DAY});
    assert 5 * 365 * EPOCHS_IN_DAY in {5 * 365 * EPOCHS_IN_DAY};
  }

  // ---------- Nothing lost, nothing doubled ----------

  /** Pooling the groups gives back the sectors worth extending, for every choice and map order. */
  ghost predicate Conserves(tolerance: int, maxExtension: int, lives: set<int>) {
    forall p: Plan, sis, ext, gs ::
      Setting(p, sis, tolerance, maxExtension, lives) && Grouped(p, sis, ext) && AllGroups(ext, gs) ==>
        PoolOf(ext, gs) == multiset(Worthy(p, sis))
  }

  lemma {:induction false} NothingWorthy(p: Plan, sis: seq<Sector>, ext: Extensions)
    requires Grouped(p, sis, ext) && forall s :: s in sis ==> NotWorthIt(p, s)
    ensures ext == map[] && Worthy(p, sis) == []
  {
    if sis != [] {
      var k := |sis| - 1;
      var prev :| LastStep(p, sis, prev, ext) && Grouped(p, sis[..k], prev);
      NothingWorthy(p, sis[..k], prev);
      assert sis[k] in sis;
    }
  }

  function LossyPlan(tolerance: int, maxExtension: int, now: int): Plan {
    Plan(now, maxExtension, ToEpoch(now + 1), tolerance, map[1 := SHARED, 2 := SHARED])
  }

  function LossySectors(life: int, now: int): seq<Sector> {
    [Sector(1, now, now, life), Sector(2, now, now, life)]
  }

  function SecondOnly(e: int): Extensions {
    map[SHARED := map[e := [2]]]
  }

  lemma LossyGrouping(tolerance: int, maxExtension: int, life: int, now: int)
    requires tolerance < 0 < maxExtension && 0 < life
    ensures Grouped(LossyPlan(tolerance, maxExtension, now), LossySectors(life, now), SecondOnly(now + 1))
  {
    var p, sis := LossyPlan(tolerance, maxExtension, now), LossySectors(life, now);
    var one, two: Extensions := map[SHARED := map[now + 1 := [1]]], SecondOnly(now + 1);
    assert sis[..1] == [sis[0]] && [sis[0]][..0] == [];
    assert one == map[][SHARED := map[now + 1 := [1]]] && LastStep(p, [sis[0]], map[], one);
    assert Grouped(p, [sis[0]], one);
    assert two[SHARED] == one[SHARED][now + 1 := [2]] && two == one[SHARED := two[SHARED]];
    assert Added(one[SHARED], now + 1, 2, tolerance, two[SHARED]);
    assert LastStep(p, sis, one, two);
  }

  lemma LossyPools(tolerance: int, maxExtension: int, life: int, now: int)
    requires tolerance < 0 < maxExtension && 0 < life
    ensures var ext := SecondOnly(now + 1);
      && AllGroups(ext, [Group(SHARED, now + 1)])
      && PoolOf(ext, [Group(SHARED, now + 1)])[1] == 0
      && multiset(Worthy(LossyPlan(tolerance, maxExtension, now), LossySectors(life, now)))[1] == 1
  {
    var p, sis := LossyPlan(tolerance, maxExtension, now), LossySectors(life, now);
    var ext, gs := SecondOnly(now + 1), [Group(SHARED, now + 1)];
    assert gs[..0] == [] && PoolOf(ext, gs) == multiset{} + multiset([2]);
    assert sis[..1] == [sis[0]] && [sis[0]][..0] == [];
    assert Worthy(p, [sis[0]]) == [1] && Worthy(p, sis) == [1, 2];
  }

  lemma PoolsAllWorthy(p: Plan, sis: seq<Sector>, ext: Extensions, gs: seq<Group>, lives: set<int>)
    requires Setting(p, sis, p.tolerance, p.maxExtension, lives) && Grouped(p, sis, ext) && AllGroups(ext, gs)
    requires p.tolerance >= 0 || p.maxExtension <= 0 || forall life :: life in lives ==> life <= 0
    ensures PoolOf(ext, gs) == multiset(Worthy(p, sis))
  {
    if p.tolerance >= 0 {
      NothingLostOrDoubled(p, sis, ext, gs);
    } else {
      NothingWorthy(p, sis, ext);
      assert gs != [] ==> HasGroup(ext, gs[0]);
    }
  }

  /** With a negative tolerance, at any epoch, the second of two like sectors replaces the first. */
  lemma LosesASector(tolerance: int, maxExtension: int, lives: set<int>, life: int, now: int)
    requires tolerance < 0 < maxExtension && 0 < life && life in lives && 0 <= now
    ensures var p, sis := LossyPlan(tolerance, maxExtension, now), LossySectors(life, now);
      var ext, gs := SecondOnly(now + 1), [Group(SHARED, now + 1)];
      && Setting(p, sis, tolerance, maxExtension, lives) && Grouped(p, sis, ext) && AllGroups(ext, gs)
      && PoolOf(ext, gs) != multiset(Worthy(p, sis))
  {
    LossyGrouping(tolerance, maxExtension, life, now);
    LossyPools(tolerance, maxExtension, life, now);
  }

  /** For given network limits, grouping loses and doubles no sector if and only if the tolerance is
      not negative or no sector can be worth extending at all. */
  lemma ConservesExactly(tolerance: int, maxExtension: int, lives: set<int>)
    ensures Conserves(tolerance, maxExtension, lives) <==>
      tolerance >= 0 || maxExtension <= 0 || forall life :: life in lives ==> life <= 0
  {
    if tolerance >= 0 || maxExtension <= 0 || forall life :: life in lives ==> life <= 0 {
      forall p: Plan, sis, ext, gs
        | Setting(p, sis, tolerance, maxExtension, lives) && Grouped(p, sis, ext) && AllGroups(ext, gs)
        ensures PoolOf(ext, gs) == multiset(Worthy(p, sis))
      {
        PoolsAllWorthy(p, sis, ext, gs, lives);
      }
    } else {
      var life :| life in lives && life > 0;
      LosesASector(tolerance, maxExtension, lives, life, 0);
    }
  }
}
