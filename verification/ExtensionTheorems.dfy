/** What an expiration-extension run as a whole guarantees about its messages. */
module ExtensionTheorems {
  import opened ExtensionGroups
  import opened ExtensionMessages

  ghost predicate Within(chain: Chain, ext: Extensions, size: nat, g: Group, b: seq<nat>, m: Message)
    requires size > 0
  {
    HasGroup(ext, g) && b in Batches(ext[g.location][g.expiration], size)
      && MessageOf(chain, g.location, g.expiration, b, m)
  }

  lemma {:induction false} RenderedFrom(chain: Chain, l: Location, newExp: int, batches: seq<seq<nat>>,
                                        msgs: seq<Message>, m: Message)
    returns (b: seq<nat>)
    requires Renders(chain, l, newExp, batches, msgs) && m in msgs
    ensures b in batches && MessageOf(chain, l, newExp, b, m) && !Silent(chain, newExp, b)
  {
    var last := batches[|batches| - 1];
    if !Silent(chain, newExp, last) && msgs[|msgs| - 1] == m {
      b := last;
    } else if Silent(chain, newExp, last) {
      b := RenderedFrom(chain, l, newExp, batches[..|batches| - 1], msgs, m);
    } else {
      b := RenderedFrom(chain, l, newExp, batches[..|batches| - 1], msgs[..|msgs| - 1], m);
    }
  }

  lemma InEitherPart(params: seq<Message>, k: nat, m: Message)
    requires k <= |params| && m in params
    ensures m in params[..k] || m in params[k..]
  {
    assert params == params[..k] + params[k..];
  }

  /** Every message comes from one batch of one group. */
  lemma {:induction false} MessageHasBatch(chain: Chain, ext: Extensions, size: nat, order: seq<Group>,
                                           params: seq<Message>, m: Message)
    returns (g: Group, b: seq<nat>)
    requires size > 0 && RendersAll(chain, ext, size, order, params) && m in params
    ensures g in order && Within(chain, ext, size, g, b, m) && !Silent(chain, g.expiration, b)
  {
    g := order[|order| - 1];
    var k :| 0 <= k <= |params| && LastGroup(chain, ext, size, g, params, k)
             && RendersAll(chain, ext, size, order[..|order| - 1], params[..k]);
    InEitherPart(params, k, m);
    if m in params[k..] {
      b := RenderedFrom(chain, g.location, g.expiration, Batches(ext[g.location][g.expiration], size), params[k..], m);
    } else {
      g, b := MessageHasBatch(chain, ext, size, order[..|order| - 1], params[..k], m);
    }
  }

  lemma {:induction false} BatchRendered(chain: Chain, l: Location, newExp: int, batches: seq<seq<nat>>,
                                         msgs: seq<Message>, b: seq<nat>)
    returns (m: Message)
    requires Renders(chain, l, newExp, batches, msgs) && b in batches && !Silent(chain, newExp, b)
    ensures m in msgs && MessageOf(chain, l, newExp, b, m)
  {
    var last := batches[|batches| - 1];
    if last == b {
      m := msgs[|msgs| - 1];
    } else if Silent(chain, newExp, last) {
      m := BatchRendered(chain, l, newExp, batches[..|batches| - 1], msgs, b);
    } else {
      m := BatchRendered(chain, l, newExp, batches[..|batches| - 1], msgs[..|msgs| - 1], b);
    }
  }

  lemma {:induction false} GroupRendered(chain: Chain, ext: Extensions, size: nat, order: seq<Group>,
                                         params: seq<Message>, g: Group, b: seq<nat>)
    returns (m: Message)
    requires size > 0 && RendersAll(chain, ext, size, order, params) && g in order && HasGroup(ext, g)
    requires b in Batches(ext[g.location][g.expiration], size) && !Silent(chain, g.expiration, b)
    ensures m in params && MessageOf(chain, g.location, g.expiration, b, m)
  {
    var last := order[|order| - 1];
    var k :| 0 <= k <= |params| && LastGroup(chain, ext, size, last, params, k)
             && RendersAll(chain, ext, size, order[..|order| - 1], params[..k]);
    assert params == params[..k] + params[k..];
    if last == g {
      m := BatchRendered(chain, g.location, g.expiration, Batches(ext[g.location][g.expiration], size), params[k..], b);
    } else {
      m := GroupRendered(chain, ext, size, order[..|order| - 1], params[..k], g, b);
    }
  }

  lemma {:induction false} InSomeBatch(bs: seq<seq<nat>>, n: nat)
    requires n in Joined(bs)
    ensures exists b :: b in bs && n in b
  {
    if n !in bs[0] {
      InSomeBatch(bs[1..], n);
    }
  }

  lemma {:induction false} BatchInGroup(bs: seq<seq<nat>>, b: seq<nat>, n: nat)
    requires b in bs && n in b
    ensures n in Joined(bs)
  {
    if bs[0] != b {
      BatchInGroup(bs[1..], b, n);
    }
  }

  lemma {:induction false} SetOfSeq(s: set<nat>, b: seq<nat>)
    requires forall n :: n in s ==> n in b
    ensures |s| <= |b|
  {
    if s != {} {
      var n :| n in s;
      var i :| 0 <= i < |b| && b[i] == n;
      var rest := b[..i] + b[i + 1..];
      forall x | x in s - {n} ensures x in rest {
        var j :| 0 <= j < |b| && b[j] == x;
        assert x == if j < i then rest[j] else rest[j - 1];
      }
      SetOfSeq(s - {n}, rest);
    }
  }

  lemma {:induction false} SplitOf(scs: seq<SectorClaim>, sc: SectorClaim)
    requires sc in scs
    ensures sc.number in Numbers(scs)
  {
    if scs[|scs| - 1] != sc {
      SplitOf(scs[..|scs| - 1], sc);
    }
  }

  lemma {:induction false} DeclaredInBatch(chain: Chain, newExp: int, batch: seq<nat>, n: nat)
    ensures n in DeclaredOf(chain, newExp, batch) <==> n in batch && Declared(chain, newExp, n)
  {
    if batch != [] {
      DeclaredInBatch(chain, newExp, batch[..|batch| - 1], n);
      assert batch == batch[..|batch| - 1] + [batch[|batch| - 1]];
    }
  }

  lemma NamesSomeone(chain: Chain, l: Location, newExp: int, b: seq<nat>, m: Message)
    requires MessageOf(chain, l, newExp, b, m) && !Silent(chain, newExp, b)
    ensures m.sectors != {}
  {
    var n :| n in b && Listed(chain, newExp, n);
    assert n in m.sectors;
  }

  /** Every message names at most `size` distinct sectors, and every claim split it carries is for
      one of them and splits that sector's claims by the chain's rules. */
  lemma MessagesAreBounded(chain: Chain, ext: Extensions, size: nat, order: seq<Group>, params: seq<Message>,
                           m: Message)
    requires size > 0 && RendersAll(chain, ext, size, order, params) && m in params
    ensures 0 < |m.sectors| <= size
    ensures forall sc :: sc in m.claims ==> sc.number in m.sectors && GoodSplit(chain, m.newExpiration, sc)
  {
    var g, b := MessageHasBatch(chain, ext, size, order, params, m);
    BatchesJoin(ext[g.location][g.expiration], size);
    SetOfSeq(m.sectors, b);
    forall sc | sc in m.claims ensures sc.number in m.sectors {
      SplitOf(m.claims, sc);
      DeclaredInBatch(chain, m.newExpiration, b, sc.number);
      assert Claims(chain, sc.number)[0] in Claims(chain, sc.number);
    }
    NamesSomeone(chain, g.location, g.expiration, b, m);
  }

  /** The claim does not stand in the way of the new expiration: it outlives it, or it may be dropped
      because its minimum term is over, the sector is in its last 30 days, and the flag says so. */
  predicate Fits(chain: Chain, n: nat, newExp: int, id: nat) {
    && id in chain.claims
    && var c := chain.claims[id];
       || c.termStart + c.termMax > newExp
       || (chain.dropClaims && n in chain.expirations && chain.currEpoch > c.termStart + c.termMin
           && chain.currEpoch > chain.expirations[n] - 30 * 2880)
  }

  lemma PassesExactly(chain: Chain, n: nat, newExp: int, id: nat)
    ensures Passes(FateOf(chain, n, newExp, id)) <==> Fits(chain, n, newExp, id)
  {
  }

  /** A sector is named if and only if it has no entry among the claims, or its first claim fits; it
      gets a split if and only if it has claims and all of them fit. */
  lemma NamedExactly(chain: Chain, newExp: int, batch: seq<nat>, sectors: set<nat>, claims: seq<SectorClaim>, n: nat)
    requires BatchIs(chain, newExp, batch, sectors, claims) && n in batch
    ensures n in sectors <==>
      n !in chain.claimIds || (chain.claimIds[n] != [] && Fits(chain, n, newExp, chain.claimIds[n][0]))
    ensures n in Numbers(claims) <==>
      && n in chain.claimIds && chain.claimIds[n] != []
      && forall id :: id in chain.claimIds[n] ==> Fits(chain, n, newExp, id)
  {
    DeclaredInBatch(chain, newExp, batch, n);
    forall id ensures Passes(FateOf(chain, n, newExp, id)) <==> Fits(chain, n, newExp, id) {
      PassesExactly(chain, n, newExp, id);
    }
  }

  /** A sector with claims is named without a claim split exactly when its first claim passes and a
      later one does not: the sector is already on the list when the scan gives up on it. */
  lemma NamedWithoutSplitExactly(chain: Chain, newExp: int, batch: seq<nat>, sectors: set<nat>,
                                 claims: seq<SectorClaim>, n: nat)
    requires BatchIs(chain, newExp, batch, sectors, claims) && n in batch && Claims(chain, n) != []
    ensures n in sectors && n !in Numbers(claims) <==>
      && Fits(chain, n, newExp, Claims(chain, n)[0])
      && exists id :: id in Claims(chain, n) && !Fits(chain, n, newExp, id)
  {
    NamedExactly(chain, newExp, batch, sectors, claims, n);
  }

  // ---------- A skipped sector that is named all the same ----------

  const PARTITION := Location(0, 0)

  /** The moment and the network's limits a run meets. */
  datatype Network = Network(now: int, maxExtension: int, life: int) {
    predicate Usable() {
      0 <= now && 0 < maxExtension && 0 < life
    }

    /** As far as a sector activated now may be extended. */
    function Furthest(): int {
      now + if maxExtension < life then maxExtension else life
    }
  }

  function SkipPlan(net: Network): Plan {
    Plan(net.now, net.maxExtension, ToEpoch(net.now + net.maxExtension), 0, map[1 := PARTITION])
  }

  function SkipSectors(net: Network): seq<Sector> {
    [Sector(1, net.now, net.now, net.life)]
  }

  function SkipGroups(e: int): Extensions {
    map[PARTITION := map[e := [1]]]
  }

  /** Claim 7 outlives the new expiration by an epoch; claim 8 ends with it and may not be dropped. */
  function SkipChain(net: Network): Chain {
    var term := net.Furthest() - net.now;
    Chain(map[1 := [7, 8]], map[7 := Claim(net.now, 0, term + 1), 8 := Claim(net.now, 0, term)], map[1 := net.now],
          net.now, false)
  }

  function SkipMessage(e: int): Message {
    Message(PARTITION, {1}, [], e)
  }

  lemma SkippedIsGrouped(net: Network)
    requires net.Usable()
    ensures var e := net.Furthest();
      Grouped(SkipPlan(net), SkipSectors(net), SkipGroups(e)) && AllGroups(SkipGroups(e), [Group(PARTITION, e)])
  {
    var p, sis, e := SkipPlan(net), SkipSectors(net), net.Furthest();
    assert sis[..0] == [];
    assert SkipGroups(e) == map[][PARTITION := map[e := [1]]];
    assert LastStep(p, sis, map[], SkipGroups(e)) && Grouped(p, [], map[]);
  }

  lemma SkippedFates(net: Network)
    requires net.Usable()
    ensures var chain, e := SkipChain(net), net.Furthest();
      && FateOf(chain, 1, e, 7) == Maintain && FateOf(chain, 1, e, 8) == Block
      && Claims(chain, 1) == [7, 8] && Listed(chain, e, 1) && !Declared(chain, e, 1) && !Faulty(chain, e, 1)
  {
    var chain, ids := SkipChain(net), [7, 8];
    assert Claims(chain, 1) == ids && ids[1] in ids;
    StopUnique(chain, 1, net.Furthest(), ids, 1);
  }

  lemma SkippedMessage(net: Network)
    requires net.Usable()
    ensures var chain, e := SkipChain(net), net.Furthest();
      MessageOf(chain, PARTITION, e, [1], SkipMessage(e)) && !Silent(chain, e, [1])
  {
    SkippedFates(net);
    assert [1][..0] == [] && [1][0] in [1];
    assert DeclaredOf(SkipChain(net), net.Furthest(), [1]) == [];
    assert Numbers([]) == [];
  }

  lemma BatchesOfOne()
    ensures Batches([1], 1) == [[1]]
  {
    assert FirstBatch([1], 1) == [1] && [1][1..] == [];
  }

  lemma SkippedIsRendered(net: Network)
    requires net.Usable()
    ensures var e := net.Furthest();
      RendersAll(SkipChain(net), SkipGroups(e), 1, [Group(PARTITION, e)], [SkipMessage(e)])
  {
    SkippedMessage(net);
    BatchesOfOne();
    var chain, e := SkipChain(net), net.Furthest();
    var g, params := Group(PARTITION, e), [SkipMessage(e)];
    assert [[1]][..0] == [] && params[..0] == [] && params[0..] == params && [g][..0] == [];
    assert Renders(chain, PARTITION, e, [], []);
    assert Renders(chain, PARTITION, e, [[1]], params);
    assert LastGroup(chain, SkipGroups(e), 1, g, params, 0) && RendersAll(chain, SkipGroups(e), 1, [], []);
  }

  /** At any epoch and under any limits: one sector whose first claim may be kept and whose second
      stands in the way.  The scan skips it, the run succeeds, and its only message names the sector,
      without a split. */
  lemma SkippedSectorIsNamed(net: Network)
    requires net.Usable()
    ensures var chain, e := SkipChain(net), net.Furthest();
      && Grouped(SkipPlan(net), SkipSectors(net), SkipGroups(e)) && AllGroups(SkipGroups(e), [Group(PARTITION, e)])
      && !(exists g :: AnyFaulty(chain, SkipGroups(e), g))
      && RendersAll(chain, SkipGroups(e), 1, [Group(PARTITION, e)], [SkipMessage(e)])
      && FateOf(chain, 1, e, 8) == Block && 1 in SkipMessage(e).sectors && SkipMessage(e).claims == []
  {
    SkippedIsGrouped(net);
    SkippedFates(net);
    SkippedIsRendered(net);
  }

  lemma {:induction false} MemberIsPlaced(sis: seq<Sector>, place: seq<Place>, g: Group, n: nat) returns (i: nat)
    requires |sis| == |place| && n in Members(sis, place, g)
    ensures i < |sis| && sis[i].number == n && place[i] == In(g)
  {
    var k := |sis| - 1;
    if place[k] == In(g) && sis[k].number == n {
      i := k;
    } else {
      i := MemberIsPlaced(sis[..k], place[..k], g, n);
    }
  }

  lemma {:induction false} PlacedIsMember(sis: seq<Sector>, place: seq<Place>, i: nat)
    requires |sis| == |place| && i < |sis| && place[i].In?
    ensures sis[i].number in Members(sis, place, place[i].group)
  {
    var k := |sis| - 1;
    if i < k {
      PlacedIsMember(sis[..k], place[..k], i);
    }
  }

  /** From sectors to messages, for every map order: a sector named in a message is one of the
      requested sectors, sits in that partition, and gets an expiration strictly later than its
      own, within the extension limit, within the tolerance of the latest it may get, and at most
      `tolerance` past its maximum lifetime. */
  lemma NamedSectorsGain(p: Plan, sis: seq<Sector>, ext: Extensions, chain: Chain, size: nat, order: seq<Group>,
                         params: seq<Message>, m: Message, n: nat)
    requires size > 0 && p.tolerance >= 0 && Grouped(p, sis, ext) && RendersAll(chain, ext, size, order, params)
    requires m in params && n in m.sectors
    ensures exists i :: 0 <= i < |sis| && sis[i].number == n && Gains(p, sis[i], Group(m.location, m.newExpiration))
              && WellPlaced(p, sis[i], In(Group(m.location, m.newExpiration)))
  {
    var place := GroupingPlaces(p, sis, ext);
    var g, b := MessageHasBatch(chain, ext, size, order, params, m);
    var numbers := ext[g.location][g.expiration];
    BatchesJoin(numbers, size);
    BatchInGroup(Batches(numbers, size), b, n);
    var i := MemberIsPlaced(sis, place, g, n);
    assert WellPlaced(p, sis[i], place[i]);
    PlacedGains(p, sis[i], place[i]);
  }

  /** Some message extends sector n to the group's expiration. */
  ghost predicate Names(params: seq<Message>, g: Group, n: nat) {
    exists m :: m in params && m.location == g.location && m.newExpiration == g.expiration && n in m.sectors
  }

  /** A member of a group is named in one of its messages exactly when its claims let it be listed. */
  lemma MemberNamedExactly(chain: Chain, ext: Extensions, size: nat, order: seq<Group>, params: seq<Message>,
                           g: Group, n: nat)
    requires size > 0 && AllGroups(ext, order) && RendersAll(chain, ext, size, order, params)
    requires HasGroup(ext, g) && n in ext[g.location][g.expiration]
    ensures Names(params, g, n) <==> Listed(chain, g.expiration, n)
  {
    if m :| m in params && m.location == g.location && m.newExpiration == g.expiration && n in m.sectors {
      var h, b := MessageHasBatch(chain, ext, size, order, params, m);
    }
    if Listed(chain, g.expiration, n) {
      var numbers := ext[g.location][g.expiration];
      BatchesJoin(numbers, size);
      InSomeBatch(Batches(numbers, size), n);
      var b :| b in Batches(numbers, size) && n in b;
      var m := GroupRendered(chain, ext, size, order, params, g, b);
      assert n in m.sectors;
    }
  }

  /** And the other way: every sector worth extending has a group at an expiration that suits it,
      and is named in one of that group's messages exactly when its claims let it be listed. */
  lemma WorthySectorsAreNamed(p: Plan, sis: seq<Sector>, ext: Extensions, chain: Chain, size: nat, order: seq<Group>,
                              params: seq<Message>, i: nat)
    requires size > 0 && p.tolerance >= 0 && Grouped(p, sis, ext)
    requires AllGroups(ext, order) && RendersAll(chain, ext, size, order, params)
    requires i < |sis| && WorthExtending(p, sis[i])
    ensures exists g ::
      && WellPlaced(p, sis[i], In(g)) && Gains(p, sis[i], g)
      && (Names(params, g, sis[i].number) <==> Listed(chain, g.expiration, sis[i].number))
  {
    var place := GroupingPlaces(p, sis, ext);
    assert WellPlaced(p, sis[i], place[i]) && place[i] in place;
    PlacedGains(p, sis[i], place[i]);
    var g := place[i].group;
    assert HasGroup(ext, g);
    PlacedIsMember(sis, place, i);
    MemberNamedExactly(chain, ext, size, order, params, g, sis[i].number);
    assert WellPlaced(p, sis[i], In(g));
  }

  // ---------- At most once ----------

  /** How many messages name sector n. */
  function Mentions(params: seq<Message>, n: nat): nat {
    if params == [] then 0 else Mentions(params[..|params| - 1], n) + if n in params[|params| - 1].sectors then 1 else 0
  }

  lemma {:induction false} MentionsAdd(a: seq<Message>, b: seq<Message>, n: nat)
    ensures Mentions(a + b, n) == Mentions(a, n) + Mentions(b, n)
  {
    if b == [] {
      assert a + b == a;
    } else {
      assert (a + b)[..|a + b| - 1] == a + b[..|b| - 1];
      MentionsAdd(a, b[..|b| - 1], n);
    }
  }

  lemma {:induction false} JoinedLast(bs: seq<seq<nat>>)
    requires bs != []
    ensures Joined(bs) == Joined(bs[..|bs| - 1]) + bs[|bs| - 1]
  {
    if |bs| > 1 {
      JoinedLast(bs[1..]);
      assert bs[1..][..|bs| - 2] == bs[..|bs| - 1][1..];
    }
  }

  /** The messages of one group name a sector at most as often as the group holds it. */
  lemma {:induction false} GroupMentions(chain: Chain, l: Location, newExp: int, batches: seq<seq<nat>>,
                                         msgs: seq<Message>, n: nat)
    requires Renders(chain, l, newExp, batches, msgs)
    ensures Mentions(msgs, n) <= multiset(Joined(batches))[n]
  {
    if batches != [] {
      var last := batches[|batches| - 1];
      JoinedLast(batches);
      if Silent(chain, newExp, last) {
        GroupMentions(chain, l, newExp, batches[..|batches| - 1], msgs, n);
      } else {
        GroupMentions(chain, l, newExp, batches[..|batches| - 1], msgs[..|msgs| - 1], n);
        assert n in msgs[|msgs| - 1].sectors ==> n in last && n in multiset(last);
      }
    }
  }

  lemma SlicedMentions(chain: Chain, l: Location, newExp: int, numbers: seq<nat>, size: nat, msgs: seq<Message>, n: nat)
    requires size > 0 && Renders(chain, l, newExp, Batches(numbers, size), msgs)
    ensures Mentions(msgs, n) <= multiset(numbers)[n]
  {
    GroupMentions(chain, l, newExp, Batches(numbers, size), msgs, n);
    BatchesJoin(numbers, size);
  }

  lemma MentionsSplit(params: seq<Message>, k: nat, n: nat)
    requires k <= |params|
    ensures Mentions(params, n) == Mentions(params[..k], n) + Mentions(params[k..], n)
  {
    MentionsAdd(params[..k], params[k..], n);
    assert params[..k] + params[k..] == params;
  }

  lemma LastGroupMentions(chain: Chain, ext: Extensions, size: nat, g: Group, params: seq<Message>, k: nat, n: nat)
    requires size > 0 && HasGroup(ext, g) && k <= |params| && LastGroup(chain, ext, size, g, params, k)
    ensures Mentions(params, n) <= Mentions(params[..k], n) + multiset(ext[g.location][g.expiration])[n]
  {
    MentionsSplit(params, k, n);
    SlicedMentions(chain, g.location, g.expiration, ext[g.location][g.expiration], size, params[k..], n);
  }

  lemma {:induction false} AllMentions(chain: Chain, ext: Extensions, size: nat, order: seq<Group>,
                                       params: seq<Message>, n: nat)
    requires size > 0 && RendersAll(chain, ext, size, order, params) && forall g :: g in order ==> HasGroup(ext, g)
    ensures Mentions(params, n) <= PoolOf(ext, order)[n]
  {
    if order != [] {
      var front, g := order[..|order| - 1], order[|order| - 1];
      var k :| 0 <= k <= |params| && LastGroup(chain, ext, size, g, params, k)
               && RendersAll(chain, ext, size, front, params[..k]);
      AllMentions(chain, ext, size, front, params[..k], n);
      LastGroupMentions(chain, ext, size, g, params, k, n);
    }
  }

  /** A sector is named in at most as many messages as it was asked for and worth extending. */
  lemma NamedNoMoreThanAsked(p: Plan, sis: seq<Sector>, ext: Extensions, chain: Chain, size: nat, order: seq<Group>,
                             params: seq<Message>, n: nat)
    requires size > 0 && p.tolerance >= 0 && Grouped(p, sis, ext)
    requires AllGroups(ext, order) && RendersAll(chain, ext, size, order, params)
    ensures Mentions(params, n) <= multiset(Worthy(p, sis))[n]
  {
    AllMentions(chain, ext, size, order, params, n);
    NothingLostOrDoubled(p, sis, ext, order);
  }

  predicate DistinctNumbers(sis: seq<Sector>) {
    forall i, j :: 0 <= i < j < |sis| ==> sis[i].number != sis[j].number
  }

  lemma {:induction false} WorthyOnce(p: Plan, sis: seq<Sector>, n: nat)
    requires DistinctNumbers(sis)
    ensures multiset(Worthy(p, sis))[n] <= 1
    ensures n in Worthy(p, sis) ==> exists i :: 0 <= i < |sis| && sis[i].number == n
  {
    if sis != [] {
      WorthyOnce(p, sis[..|sis| - 1], n);
    }
  }

  lemma {:induction false} Mentioned(params: seq<Message>, i: nat, n: nat)
    requires i < |params| && n in params[i].sectors
    ensures Mentions(params, n) >= 1
  {
    if i < |params| - 1 {
      Mentioned(params[..|params| - 1], i, n);
    }
  }

  lemma {:induction false} TwoMentions(params: seq<Message>, i: nat, j: nat, n: nat)
    requires i < j < |params| && n in params[i].sectors && n in params[j].sectors
    ensures Mentions(params, n) >= 2
  {
    var k := |params| - 1;
    if j == k {
      Mentioned(params[..k], i, n);
    } else {
      TwoMentions(params[..k], i, j, n);
    }
  }

  /** When the sectors asked for are different, no two messages name the same sector. */
  lemma MessagesAreDisjoint(p: Plan, sis: seq<Sector>, ext: Extensions, chain: Chain, size: nat, order: seq<Group>,
                            params: seq<Message>, i: nat, j: nat)
    requires size > 0 && p.tolerance >= 0 && Grouped(p, sis, ext) && DistinctNumbers(sis)
    requires AllGroups(ext, order) && RendersAll(chain, ext, size, order, params) && i < j < |params|
    ensures params[i].sectors !! params[j].sectors
  {
    forall n | n in params[i].sectors ensures n !in params[j].sectors {
      NamedNoMoreThanAsked(p, sis, ext, chain, size, order, params, n);
      WorthyOnce(p, sis, n);
      if n in params[j].sectors {
        TwoMentions(params, i, j, n);
      }
    }
  }
}
