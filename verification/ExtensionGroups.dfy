/** Grouping sectors by (partition, new expiration) for one expiration-extension run. */
module ExtensionGroups {
  import opened Basics

  datatype Location = Location(deadline: nat, partition: nat)

  /** `lifetime` is the maximum lifetime the network allows for this sector's proof type. */
  datatype Sector = Sector(number: nat, activation: int, expiration: int, lifetime: int)

  datatype Target = ToEpoch(epoch: int) | ByEpochs(delta: int)

  datatype Plan = Plan(currEpoch: int, maxExtension: int, target: Target, tolerance: int, locations: map<nat, Location>)

  type Bucket = map<int, seq<nat>>
  type Extensions = map<Location, Bucket>

  predicate WithinTolerance(a: int, b: int, tolerance: int) {
    (if a - b < 0 then b - a else a - b) <= tolerance
  }

  function MaxLife(s: Sector): int {
    s.activation + s.lifetime
  }

  /** The target clamped to the maximum extension and to the sector's own maximum lifetime. */
  function Clamped(p: Plan, s: Sector): int {
    var want := match p.target case ToEpoch(e) => e case ByEpochs(d) => s.expiration + d;
    var soon := if want > p.currEpoch + p.maxExtension then p.currEpoch + p.maxExtension else want;
    if soon > MaxLife(s) then MaxLife(s) else soon
  }

  predicate NotWorthIt(p: Plan, s: Sector) {
    Clamped(p, s) <= s.expiration || WithinTolerance(Clamped(p, s), s.expiration, p.tolerance)
  }

  // ---------- What a sector is meant to get ----------

  /** An expiration no later than asked for, than the network extends to now, and than the sector's
      own maximum lifetime. */
  predicate Allowed(p: Plan, s: Sector, e: int) {
    && (p.target.ToEpoch? ==> e <= p.target.epoch) && (p.target.ByEpochs? ==> e <= s.expiration + p.target.delta)
    && e <= p.currEpoch + p.maxExtension && e <= s.activation + s.lifetime
  }

  ghost predicate Best(p: Plan, s: Sector, e: int) {
    Allowed(p, s, e) && forall x :: Allowed(p, s, x) ==> x <= e
  }

  /** The expiration aimed at is the latest allowed one, whichever flag asked for it. */
  lemma ClampedIsBest(p: Plan, s: Sector, e: int)
    ensures e == Clamped(p, s) <==> Best(p, s, e)
  {
    assert Allowed(p, s, Clamped(p, s));
  }

  /** The best a sector can get is later than what it has, by more than the tolerance. */
  ghost predicate WorthExtending(p: Plan, s: Sector) {
    exists best :: Best(p, s, best) && best > s.expiration && best - s.expiration > p.tolerance
  }

  lemma WorthExactly(p: Plan, s: Sector)
    ensures NotWorthIt(p, s) <==> !WorthExtending(p, s)
  {
    ClampedIsBest(p, s, Clamped(p, s));
    forall best | Best(p, s, best) ensures best == Clamped(p, s) {
      ClampedIsBest(p, s, best);
    }
  }

  // ---------- Every outcome the map iteration order allows ----------

  /** Adding a sector to a partition's buckets: to some bucket within tolerance, if there is one. */
  ghost predicate Added(es: Bucket, newExp: int, n: nat, tolerance: int, es': Bucket) {
    if exists e :: e in es && WithinTolerance(newExp, e, tolerance) then
      exists e :: e in es && WithinTolerance(newExp, e, tolerance) && es' == es[e := es[e] + [n]]
    else
      es' == es[newExp := [n]]
  }

  ghost predicate SectorStep(p: Plan, ext: Extensions, s: Sector, ext': Extensions) {
    if NotWorthIt(p, s) then ext' == ext
    else
      && s.number in p.locations
      && var l := p.locations[s.number];
         if l !in ext then ext' == ext[l := map[Clamped(p, s) := [s.number]]]
         else l in ext' && ext' == ext[l := ext'[l]] && Added(ext[l], Clamped(p, s), s.number, p.tolerance, ext'[l])
  }

  ghost predicate LastStep(p: Plan, sis: seq<Sector>, prev: Extensions, ext: Extensions)
    requires sis != []
  {
    SectorStep(p, prev, sis[|sis| - 1], ext)
  }

  /** ext is a possible grouping of the sectors, in their order. */
  ghost predicate Grouped(p: Plan, sis: seq<Sector>, ext: Extensions) {
    if sis == [] then ext == map[]
    else exists prev :: LastStep(p, sis, prev, ext) && Grouped(p, sis[..|sis| - 1], prev)
  }

  // ---------- The loop ----------

  lemma EmptyOrNot(keys: set<int>)
    ensures keys == {} || exists e :: e in keys
  {
    if forall e :: e !in keys {
      assert keys == {};
    }
  }

  method AddToBucket(es: Bucket, newExp: int, n: nat, tolerance: int) returns (es': Bucket)
    ensures Added(es, newExp, n, tolerance, es')
  {
    es' := es;
    var added := false;
    var todo := es.Keys;
    while todo != {}
      invariant todo <= es.Keys
      invariant !added
      invariant es' == es
      invariant forall e :: e in es && e !in todo ==> !WithinTolerance(newExp, e, tolerance)
      decreases |todo|
    {
      EmptyOrNot(todo);
      var e :| e in todo;
      todo := todo - {e};
      if WithinTolerance(newExp, e, tolerance) {
        es' := es'[e := es'[e] + [n]];
        added := true;
        break;
      }
    }
    if !added {
      es' := es'[newExp := [n]];
    }
  }

  method GroupSectors(p: Plan, sis: seq<Sector>) returns (r: Result<Extensions>)
    ensures r.Ok? ==> Grouped(p, sis, r.value)
    ensures r.Err? <==> exists s :: s in sis && WorthExtending(p, s) && s.number !in p.locations
  {
    forall s | s in sis ensures NotWorthIt(p, s) <==> !WorthExtending(p, s) {
      WorthExactly(p, s);
    }
    var extensions: Extensions := map[];
    for i := 0 to |sis|
      invariant Grouped(p, sis[..i], extensions)
      invariant forall s :: s in sis[..i] ==> NotWorthIt(p, s) || s.number in p.locations
    {
      var si := sis[i];
      ghost var before := extensions;
      assert sis[..i + 1][..i] == sis[..i] && sis[..i + 1] == sis[..i] + [si];
      if !NotWorthIt(p, si) {
        var newExp := Clamped(p, si);
        if si.number !in p.locations {
          return Err;
        }
        var l := p.locations[si.number];
        if l !in extensions {
          extensions := extensions[l := map[newExp := [si.number]]];
        } else {
          var es := AddToBucket(extensions[l], newExp, si.number, p.tolerance);
          extensions := extensions[l := es];
        }
      }
      assert LastStep(p, sis[..i + 1], before, extensions);
    }
    assert sis[..|sis|] == sis;
    return Ok(extensions);
  }

  // ---------- Where each sector went ----------

  datatype Group = Group(location: Location, expiration: int)
  datatype Place = Skipped | In(group: Group)

  /** The numbers of the sectors placed in a group, in their order. */
  function Members(sis: seq<Sector>, place: seq<Place>, g: Group): seq<nat>
    requires |sis| == |place|
  {
    if sis == [] then []
    else
      Members(sis[..|sis| - 1], place[..|sis| - 1], g)
        + if place[|sis| - 1] == In(g) then [sis[|sis| - 1].number] else []
  }

  predicate HasGroup(ext: Extensions, g: Group) {
    g.location in ext && g.expiration in ext[g.location]
  }

  /** The promise for one sector and the group it was given. */
  predicate WellPlaced(p: Plan, s: Sector, place: Place) {
    if place.Skipped? then NotWorthIt(p, s)
    else
      var e := place.group.expiration;
      && !NotWorthIt(p, s) && s.number in p.locations && place.group.location == p.locations[s.number]
      && s.expiration < e <= p.currEpoch + p.maxExtension
      && WithinTolerance(e, Clamped(p, s), p.tolerance)
      && e <= MaxLife(s) + p.tolerance
  }

  /** The same in terms of what the sector is meant to get: it lies in that partition, gains, and ends
      up within the tolerance of the best it can get. */
  ghost predicate Gains(p: Plan, s: Sector, g: Group) {
    && s.number in p.locations && p.locations[s.number] == g.location
    && s.expiration < g.expiration <= p.currEpoch + p.maxExtension && WorthExtending(p, s)
    && exists best :: Best(p, s, best) && best - p.tolerance <= g.expiration <= best + p.tolerance
  }

  lemma PlacedGains(p: Plan, s: Sector, place: Place)
    requires WellPlaced(p, s, place)
    ensures if place.In? then Gains(p, s, place.group) else !WorthExtending(p, s)
  {
    WorthExactly(p, s);
    ClampedIsBest(p, s, Clamped(p, s));
  }

  ghost predicate Placement(p: Plan, sis: seq<Sector>, ext: Extensions, place: seq<Place>) {
    && |place| == |sis|
    && (forall i :: 0 <= i < |sis| ==> WellPlaced(p, sis[i], place[i]))
    && (forall g :: HasGroup(ext, g) <==> In(g) in place)
    && (forall g :: HasGroup(ext, g) ==> ext[g.location][g.expiration] == Members(sis, place, g))
  }

  lemma MembersExtend(sis: seq<Sector>, place: seq<Place>, s: Sector, q: Place, g: Group)
    requires |sis| == |place|
    ensures Members(sis + [s], place + [q], g) == Members(sis, place, g) + if q == In(g) then [s.number] else []
  {
    assert (sis + [s])[..|sis|] == sis && (place + [q])[..|sis|] == place;
  }

  lemma {:induction false} NoMembers(sis: seq<Sector>, place: seq<Place>, g: Group)
    requires |sis| == |place| && In(g) !in place
    ensures Members(sis, place, g) == []
  {
    if sis != [] {
      NoMembers(sis[..|sis| - 1], place[..|sis| - 1], g);
    }
  }

  /** Bucket keys are targets of sectors, so they respect the extension limit. */
  predicate KeysBounded(p: Plan, ext: Extensions) {
    forall l, e :: l in ext && e in ext[l] ==> e <= p.currEpoch + p.maxExtension
  }

  lemma {:induction false} GroupedKeysBounded(p: Plan, sis: seq<Sector>, ext: Extensions)
    requires Grouped(p, sis, ext)
    ensures KeysBounded(p, ext)
  {
    if sis != [] {
      var prev :| LastStep(p, sis, prev, ext) && Grouped(p, sis[..|sis| - 1], prev);
      GroupedKeysBounded(p, sis[..|sis| - 1], prev);
    }
  }

  /** The group one more sector goes to. */
  lemma StepPlace(p: Plan, ext: Extensions, s: Sector, ext': Extensions) returns (q: Place)
    requires SectorStep(p, ext, s, ext') && KeysBounded(p, ext) && p.tolerance >= 0
    ensures WellPlaced(p, s, q)
    ensures forall g :: HasGroup(ext', g) <==> HasGroup(ext, g) || q == In(g)
    ensures forall g :: HasGroup(ext', g) ==>
      ext'[g.location][g.expiration]
        == (if HasGroup(ext, g) then ext[g.location][g.expiration] else []) + if q == In(g) then [s.number] else []
  {
    if NotWorthIt(p, s) {
      q := Skipped;
    } else {
      var l, c := p.locations[s.number], Clamped(p, s);
      if l in ext && exists e :: e in ext[l] && WithinTolerance(c, e, p.tolerance) {
        var e :| e in ext[l] && WithinTolerance(c, e, p.tolerance) && ext'[l] == ext[l][e := ext[l][e] + [s.number]];
        q := In(Group(l, e));
      } else {
        assert WithinTolerance(c, c, p.tolerance);
        q := In(Group(l, c));
      }
    }
  }

  /** However Go iterates its maps: every sector worth extending is in exactly one group, every
      group holds exactly the sectors placed in it, and each placement keeps its promises. */
  lemma {:induction false} GroupingPlaces(p: Plan, sis: seq<Sector>, ext: Extensions) returns (place: seq<Place>)
    requires Grouped(p, sis, ext) && p.tolerance >= 0
    ensures Placement(p, sis, ext, place)
  {
    if sis == [] {
      place := [];
    } else {
      var k := |sis| - 1;
      var prev :| LastStep(p, sis, prev, ext) && Grouped(p, sis[..k], prev);
      var before := GroupingPlaces(p, sis[..k], prev);
      GroupedKeysBounded(p, sis[..k], prev);
      var q := StepPlace(p, prev, sis[k], ext);
      place := before + [q];
      assert sis[..k] + [sis[k]] == sis;
      forall g | HasGroup(ext, g) ensures ext[g.location][g.expiration] == Members(sis, place, g) {
        MembersExtend(sis[..k], before, sis[k], q, g);
        if !HasGroup(prev, g) { NoMembers(sis[..k], before, g); }
      }
    }
  }

  // ---------- Nothing lost, nothing doubled ----------

  function Worthy(p: Plan, sis: seq<Sector>): seq<nat> {
    if sis == [] then []
    else Worthy(p, sis[..|sis| - 1]) + if NotWorthIt(p, sis[|sis| - 1]) then [] else [sis[|sis| - 1].number]
  }

  lemma {:induction false} WorthyAre(p: Plan, sis: seq<Sector>, n: nat)
    ensures n in Worthy(p, sis) <==> exists s :: s in sis && s.number == n && WorthExtending(p, s)
  {
    if sis != [] {
      var k := |sis| - 1;
      WorthyAre(p, sis[..k], n);
      WorthExactly(p, sis[k]);
      assert sis == sis[..k] + [sis[k]];
    }
  }

  function Pooled(sis: seq<Sector>, place: seq<Place>, gs: seq<Group>): multiset<nat>
    requires |sis| == |place|
  {
    if gs == [] then multiset{}
    else Pooled(sis, place, gs[..|gs| - 1]) + multiset(Members(sis, place, gs[|gs| - 1]))
  }

  predicate Distinct(gs: seq<Group>) {
    forall i, j :: 0 <= i < j < |gs| ==> gs[i] != gs[j]
  }

  ghost predicate AllGroups(ext: Extensions, order: seq<Group>) {
    Distinct(order) && forall g :: g in order <==> HasGroup(ext, g)
  }

  lemma Push(a: seq<nat>, x: nat)
    ensures multiset(a + [x]) == multiset(a) + multiset{x}
  {
  }

  lemma PushedLast(rest: multiset<nat>, here: seq<nat>, x: nat)
    ensures rest + multiset(here + [x]) == (rest + multiset(here)) + multiset{x}
  {
  }

  lemma PushedBefore(rest: multiset<nat>, here: seq<nat>, x: nat)
    ensures (rest + multiset{x}) + multiset(here) == (rest + multiset(here)) + multiset{x}
  {
  }

  lemma {:induction false} EmptyPool(gs: seq<Group>)
    ensures Pooled([], [], gs) == multiset{}
  {
    if gs != [] {
      EmptyPool(gs[..|gs| - 1]);
    }
  }

  /** A sector placed in a group that is not pooled changes nothing. */
  lemma {:induction false} PoolElsewhere(sis: seq<Sector>, place: seq<Place>, s: Sector, q: Place, gs: seq<Group>)
    requires |sis| == |place| && forall g :: g in gs ==> q != In(g)
    ensures Pooled(sis + [s], place + [q], gs) == Pooled(sis, place, gs)
  {
    if gs != [] {
      var k := |gs| - 1;
      MembersExtend(sis, place, s, q, gs[k]);
      PoolElsewhere(sis, place, s, q, gs[..k]);
      assert Members(sis + [s], place + [q], gs[k]) == Members(sis, place, gs[k]);
    }
  }

  /** A sector placed in a pooled group adds itself once. */
  lemma {:induction false} PoolExtend(sis: seq<Sector>, place: seq<Place>, s: Sector, g: Group, gs: seq<Group>)
    requires |sis| == |place| && Distinct(gs) && g in gs
    ensures Pooled(sis + [s], place + [In(g)], gs) == Pooled(sis, place, gs) + multiset{s.number}
  {
    var k := |gs| - 1;
    var rest, here := Pooled(sis, place, gs[..k]), Members(sis, place, gs[k]);
    MembersExtend(sis, place, s, In(g), gs[k]);
    if g == gs[k] {
      PoolElsewhere(sis, place, s, In(g), gs[..k]);
      PushedLast(rest, here, s.number);
    } else {
      PoolExtend(sis, place, s, g, gs[..k]);
      assert Members(sis + [s], place + [In(g)], gs[k]) == here;
      PushedBefore(rest, here, s.number);
    }
  }

  ghost predicate PlacedWithin(p: Plan, sis: seq<Sector>, place: seq<Place>, gs: seq<Group>) {
    && |sis| == |place| && Distinct(gs)
    && forall i :: 0 <= i < |sis| ==> WellPlaced(p, sis[i], place[i]) && (place[i].In? ==> place[i].group in gs)
  }

  lemma PoolStart(p: Plan, gs: seq<Group>)
    ensures Pooled([], [], gs) == multiset(Worthy(p, []))
  {
    EmptyPool(gs);
    assert Worthy(p, []) == [];
  }

  lemma PoolStep(p: Plan, sis: seq<Sector>, place: seq<Place>, s: Sector, q: Place, gs: seq<Group>)
    requires |sis| == |place| && Distinct(gs) && (q.In? ==> q.group in gs) && WellPlaced(p, s, q)
    requires Pooled(sis, place, gs) == multiset(Worthy(p, sis))
    ensures Pooled(sis + [s], place + [q], gs) == multiset(Worthy(p, sis + [s]))
  {
    assert (sis + [s])[..|sis|] == sis;
    if q.In? {
      PoolExtend(sis, place, s, q.group, gs);
      Push(Worthy(p, sis), s.number);
    } else {
      PoolElsewhere(sis, place, s, q, gs);
      assert Worthy(p, sis + [s]) == Worthy(p, sis);
    }
  }

  lemma {:induction false} PlacementPools(p: Plan, sis: seq<Sector>, place: seq<Place>, gs: seq<Group>)
    requires PlacedWithin(p, sis, place, gs)
    ensures Pooled(sis, place, gs) == multiset(Worthy(p, sis))
  {
    if sis == [] {
      assert place == [];
      PoolStart(p, gs);
    } else {
      var k := |sis| - 1;
      var s, q := sis[k], place[k];
      assert sis == sis[..k] + [s] && place == place[..k] + [q] && WellPlaced(p, sis[k], place[k]);
      PlacementPools(p, sis[..k], place[..k], gs);
      PoolStep(p, sis[..k], place[..k], s, q, gs);
    }
  }

  /** All the sectors of some groups together, with multiplicity. */
  function PoolOf(ext: Extensions, gs: seq<Group>): multiset<nat>
    requires forall g :: g in gs ==> HasGroup(ext, g)
  {
    if gs == [] then multiset{}
    else
      var g := gs[|gs| - 1];
      assert g in gs && HasGroup(ext, g);
      PoolOf(ext, gs[..|gs| - 1]) + multiset(ext[g.location][g.expiration])
  }

  lemma {:induction false} PoolOfMembers(p: Plan, sis: seq<Sector>, ext: Extensions, place: seq<Place>, gs: seq<Group>)
    requires Placement(p, sis, ext, place) && forall g :: g in gs ==> HasGroup(ext, g)
    ensures PoolOf(ext, gs) == Pooled(sis, place, gs)
  {
    if gs != [] {
      PoolOfMembers(p, sis, ext, place, gs[..|gs| - 1]);
    }
  }

  /** For every map order, pooling all groups gives back exactly the sectors worth extending, with
      multiplicity. */
  lemma NothingLostOrDoubled(p: Plan, sis: seq<Sector>, ext: Extensions, gs: seq<Group>)
    requires Grouped(p, sis, ext) && p.tolerance >= 0 && AllGroups(ext, gs)
    ensures PoolOf(ext, gs) == multiset(Worthy(p, sis))
  {
    var place := GroupingPlaces(p, sis, ext);
    forall i | 0 <= i < |sis| && place[i].In? ensures place[i].group in gs {
      assert place[i] in place;
    }
    PlacementPools(p, sis, place, gs);
    PoolOfMembers(p, sis, ext, place, gs);
  }

  // ---------- No more groups than needed ----------

  /** Two expirations of one partition are further apart than the tolerance. */
  ghost predicate Apart(ext: Extensions, tolerance: int) {
    forall l, a, b :: l in ext && a in ext[l] && b in ext[l] && a < b ==> b - a > tolerance
  }

  lemma StepApart(p: Plan, ext: Extensions, s: Sector, ext': Extensions)
    requires SectorStep(p, ext, s, ext') && Apart(ext, p.tolerance)
    ensures Apart(ext', p.tolerance)
  {
  }

  /** However Go iterates its maps, sectors whose expirations could be shared share one: no two groups
      of a partition are within tolerance of each other. */
  lemma {:induction false} GroupsApart(p: Plan, sis: seq<Sector>, ext: Extensions)
    requires Grouped(p, sis, ext)
    ensures Apart(ext, p.tolerance)
  {
    if sis != [] {
      var prev :| LastStep(p, sis, prev, ext) && Grouped(p, sis[..|sis| - 1], prev);
      GroupsApart(p, sis[..|sis| - 1], prev);
      StepApart(p, prev, sis[|sis| - 1], ext);
    }
  }

  // ---------- Buckets and the sign of the tolerance ----------

  /** Adding a sector keeps every earlier bucket, its members in place. */
  ghost predicate KeepsBuckets(tolerance: int) {
    forall es, newExp, n, es' ::
      Added(es, newExp, n, tolerance, es') ==> forall e :: e in es ==> e in es' && es[e] <= es'[e]
  }

  /** Earlier sectors survive later ones if and only if the tolerance flag is not negative: with a
      negative one, a second sector with the same target replaces the first. */
  lemma BucketsKeptExactly(tolerance: int)
    ensures KeepsBuckets(tolerance) <==> tolerance >= 0
  {
    if tolerance < 0 {
      var es, es': Bucket := map[100 := [1]], map[100 := [2]];
      assert es[100 := [2]] == es';
      assert Added(es, 100, 2, tolerance, es');
      assert es[100][0] != es'[100][0];
    } else {
      forall es, newExp, n, es' | Added(es, newExp, n, tolerance, es')
        ensures forall e :: e in es ==> e in es' && es[e] <= es'[e]
      {
        assert newExp in es ==> WithinTolerance(newExp, newExp, tolerance);
      }
    }
  }
}
