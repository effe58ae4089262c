/** Turning groups of sectors into extension messages: batches of bounded size, and for each
    sector the split of its verified claims into maintained and dropped ones. */
module ExtensionMessages {
  import opened Basics
  import opened ExtensionGroups

  datatype Claim = Claim(termStart: int, termMin: int, termMax: int)

  /** What the chain says: claim ids by sector, the claims, and each active sector's expiration. */
  datatype Chain = Chain(claimIds: map<nat, seq<nat>>, claims: map<nat, Claim>, expirations: map<nat, int>,
                         currEpoch: int, dropClaims: bool)

  datatype SectorClaim = SectorClaim(number: nat, maintain: seq<nat>, drop: seq<nat>)

  datatype Message = Message(location: Location, sectors: set<nat>, claims: seq<SectorClaim>, newExpiration: int)

  /** 30 days of 2880 epochs. */
  const END_OF_LIFE_CLAIM_DROP_PERIOD := 86_400

  datatype Fate = Maintain | Drop | Block | Unknown

  /** Outlives the new expiration. */
  predicate Outlives(c: Claim, newExp: int) {
    c.termStart + c.termMax > newExp
  }

  /** FIP-0045: the claim's minimum term is over and the sector is in its last 30 days. */
  predicate Droppable(c: Claim, chain: Chain, expiration: int) {
    chain.dropClaims && chain.currEpoch > c.termStart + c.termMin
    && chain.currEpoch > expiration - END_OF_LIFE_CLAIM_DROP_PERIOD
  }

  function FateOf(chain: Chain, n: nat, newExp: int, id: nat): Fate {
    if id !in chain.claims then Unknown
    else if Outlives(chain.claims[id], newExp) then Maintain
    else if n !in chain.expirations then Unknown
    else if Droppable(chain.claims[id], chain, chain.expirations[n]) then Drop
    else Block
  }

  predicate Passes(f: Fate) {
    f == Maintain || f == Drop
  }

  /** How many claims are handled before one stops the sector. */
  function Stop(chain: Chain, n: nat, newExp: int, ids: seq<nat>): (k: nat)
    ensures k <= |ids|
    ensures forall i :: 0 <= i < k ==> Passes(FateOf(chain, n, newExp, ids[i]))
    ensures k < |ids| ==> !Passes(FateOf(chain, n, newExp, ids[k]))
  {
    if ids == [] || !Passes(FateOf(chain, n, newExp, ids[0])) then 0 else 1 + Stop(chain, n, newExp, ids[1..])
  }

  lemma StopUnique(chain: Chain, n: nat, newExp: int, ids: seq<nat>, k: nat)
    requires k <= |ids|
    requires forall i :: 0 <= i < k ==> Passes(FateOf(chain, n, newExp, ids[i]))
    requires k < |ids| ==> !Passes(FateOf(chain, n, newExp, ids[k]))
    ensures Stop(chain, n, newExp, ids) == k
  {
  }

  function Select(chain: Chain, n: nat, newExp: int, ids: seq<nat>, f: Fate): seq<nat> {
    if ids == [] then []
    else
      Select(chain, n, newExp, ids[..|ids| - 1], f)
        + if FateOf(chain, n, newExp, ids[|ids| - 1]) == f then [ids[|ids| - 1]] else []
  }

  lemma SelectExtend(chain: Chain, n: nat, newExp: int, ids: seq<nat>, id: nat, f: Fate)
    ensures Select(chain, n, newExp, ids + [id], f)
         == Select(chain, n, newExp, ids, f) + if FateOf(chain, n, newExp, id) == f then [id] else []
  {
    assert (ids + [id])[..|ids|] == ids;
  }

  /** What the per-sector scan leaves behind. */
  datatype Scan = Scan(mentions: nat, blocked: bool, maintain: seq<nat>, drop: seq<nat>)

  /** What the loop body decides about one claim; Unknown stands for the two lookup errors. */
  method JudgeClaim(chain: Chain, n: nat, newExp: int, id: nat) returns (f: Fate)
    ensures f == Maintain <==> id in chain.claims && chain.claims[id].termStart + chain.claims[id].termMax > newExp
    ensures f == Drop <==>
      && id in chain.claims && chain.claims[id].termStart + chain.claims[id].termMax <= newExp
      && chain.dropClaims && chain.currEpoch > chain.claims[id].termStart + chain.claims[id].termMin
      && n in chain.expirations && chain.currEpoch > chain.expirations[n] - 30 * 2880
    ensures f == Unknown <==>
      || id !in chain.claims
      || (chain.claims[id].termStart + chain.claims[id].termMax <= newExp && n !in chain.expirations)
  {
    if id !in chain.claims {
      return Unknown;
    }
    var claim := chain.claims[id];
    if claim.termStart + claim.termMax > newExp {
      return Maintain;
    }
    if n !in chain.expirations {
      return Unknown;
    }
    if !chain.dropClaims || chain.currEpoch <= claim.termStart + claim.termMin
       || chain.currEpoch <= chain.expirations[n] - END_OF_LIFE_CLAIM_DROP_PERIOD {
      return Block;
    }
    return Drop;
  }

  /** What scanning the first k claims leaves behind. */
  function ScanOf(chain: Chain, n: nat, newExp: int, ids: seq<nat>, k: nat): Scan
    requires k <= |ids|
  {
    Scan(k, k < |ids|, Select(chain, n, newExp, ids[..k], Maintain), Select(chain, n, newExp, ids[..k], Drop))
  }

  lemma ScanOneMore(chain: Chain, n: nat, newExp: int, ids: seq<nat>, i: nat, f: Fate)
    requires i < |ids|
    ensures Select(chain, n, newExp, ids[..i + 1], f)
         == Select(chain, n, newExp, ids[..i], f) + if FateOf(chain, n, newExp, ids[i]) == f then [ids[i]] else []
  {
    assert ids[..i + 1] == ids[..i] + [ids[i]];
    SelectExtend(chain, n, newExp, ids[..i], ids[i], f);
  }

  /** The claim loop for one sector that has claims.  `mentions` counts how often the sector was
      appended to the list of sectors to extend: once per claim handled. */
  method ScanClaims(chain: Chain, n: nat, newExp: int, ids: seq<nat>) returns (r: Result<Scan>)
    ensures var k := Stop(chain, n, newExp, ids);
      && (r.Err? <==> k < |ids| && FateOf(chain, n, newExp, ids[k]) == Unknown)
      && (r.Ok? ==> r.value == ScanOf(chain, n, newExp, ids, k))
  {
    var maintain, drop: seq<nat> := [], [];
    var mentions := 0;
    for i := 0 to |ids|
      invariant mentions == i && forall j :: 0 <= j < i ==> Passes(FateOf(chain, n, newExp, ids[j]))
      invariant maintain == Select(chain, n, newExp, ids[..i], Maintain)
      invariant drop == Select(chain, n, newExp, ids[..i], Drop)
    {
      var fate := JudgeClaim(chain, n, newExp, ids[i]);
      assert fate == FateOf(chain, n, newExp, ids[i]);
      if !Passes(fate) {
        StopUnique(chain, n, newExp, ids, i);
        return if fate == Unknown then Err else Ok(Scan(mentions, true, maintain, drop));
      }
      ScanOneMore(chain, n, newExp, ids, i, Maintain);
      ScanOneMore(chain, n, newExp, ids, i, Drop);
      if fate == Maintain {
        maintain := maintain + [ids[i]];
      } else {
        drop := drop + [ids[i]];
      }
      mentions := mentions + 1;
    }
    StopUnique(chain, n, newExp, ids, |ids|);
    return Ok(Scan(mentions, false, maintain, drop));
  }

  // ---------- Batches ----------

  function Claims(chain: Chain, n: nat): seq<nat> {
    if n in chain.claimIds then chain.claimIds[n] else []
  }

  /** The sector makes it into the message's sector set. */
  predicate Listed(chain: Chain, newExp: int, n: nat) {
    n !in chain.claimIds || (Claims(chain, n) != [] && Passes(FateOf(chain, n, newExp, Claims(chain, n)[0])))
  }

  /** The message carries a claim split for the sector. */
  predicate Declared(chain: Chain, newExp: int, n: nat) {
    Claims(chain, n) != [] && forall id :: id in Claims(chain, n) ==> Passes(FateOf(chain, n, newExp, id))
  }

  /** The scan meets a claim it cannot look up. */
  predicate Faulty(chain: Chain, newExp: int, n: nat) {
    var ids := Claims(chain, n);
    var k := Stop(chain, n, newExp, ids);
    k < |ids| && FateOf(chain, n, newExp, ids[k]) == Unknown
  }

  /** A disjoint split of all the sector's claims by what the chain rules say of each. */
  predicate GoodSplit(chain: Chain, newExp: int, sc: SectorClaim) {
    var ids := Claims(chain, sc.number);
    && sc.maintain == Select(chain, sc.number, newExp, ids, Maintain)
    && sc.drop == Select(chain, sc.number, newExp, ids, Drop)
    && multiset(sc.maintain) + multiset(sc.drop) == multiset(ids)
    && (forall id :: id in sc.maintain ==>
          id in chain.claims && chain.claims[id].termStart + chain.claims[id].termMax > newExp)
    && (forall id :: id in sc.drop ==>
          && id in chain.claims && chain.claims[id].termStart + chain.claims[id].termMax <= newExp
          && chain.dropClaims && chain.currEpoch > chain.claims[id].termStart + chain.claims[id].termMin
          && sc.number in chain.expirations && chain.currEpoch > chain.expirations[sc.number] - 30 * 2880)
  }

  lemma {:induction false} SelectMembers(chain: Chain, n: nat, newExp: int, ids: seq<nat>, f: Fate)
    ensures forall id :: id in Select(chain, n, newExp, ids, f) ==> FateOf(chain, n, newExp, id) == f
  {
    if ids != [] {
      SelectMembers(chain, n, newExp, ids[..|ids| - 1], f);
    }
  }

  lemma {:induction false} SelectSplits(chain: Chain, n: nat, newExp: int, ids: seq<nat>)
    requires forall id :: id in ids ==> Passes(FateOf(chain, n, newExp, id))
    ensures multiset(Select(chain, n, newExp, ids, Maintain)) + multiset(Select(chain, n, newExp, ids, Drop))
      == multiset(ids)
    ensures |Select(chain, n, newExp, ids, Maintain)| + |Select(chain, n, newExp, ids, Drop)| == |ids|
  {
    if ids != [] {
      var k := |ids| - 1;
      var rest, id := ids[..k], ids[k];
      assert ids == rest + [id] && id in ids;
      SelectSplits(chain, n, newExp, rest);
      SelectExtend(chain, n, newExp, rest, id, Maintain);
      SelectExtend(chain, n, newExp, rest, id, Drop);
    }
  }

  lemma MaintainedOutlive(chain: Chain, n: nat, newExp: int, ids: seq<nat>)
    ensures forall id :: id in Select(chain, n, newExp, ids, Maintain) ==>
      id in chain.claims && Outlives(chain.claims[id], newExp)
  {
    SelectMembers(chain, n, newExp, ids, Maintain);
  }

  lemma DroppedAreDroppable(chain: Chain, n: nat, newExp: int, ids: seq<nat>)
    ensures forall id :: id in Select(chain, n, newExp, ids, Drop) ==>
      && id in chain.claims && !Outlives(chain.claims[id], newExp)
      && n in chain.expirations && Droppable(chain.claims[id], chain, chain.expirations[n])
  {
    SelectMembers(chain, n, newExp, ids, Drop);
  }

  /** When every claim passes, the selected claims are a good split, empty only without claims. */
  lemma SplitIsGood(chain: Chain, newExp: int, n: nat)
    requires forall id :: id in Claims(chain, n) ==> Passes(FateOf(chain, n, newExp, id))
    ensures var ids := Claims(chain, n);
      var m, d := Select(chain, n, newExp, ids, Maintain), Select(chain, n, newExp, ids, Drop);
      GoodSplit(chain, newExp, SectorClaim(n, m, d)) && (|m| + |d| != 0 <==> ids != [])
  {
    SelectSplits(chain, n, newExp, Claims(chain, n));
    MaintainedOutlive(chain, n, newExp, Claims(chain, n));
    DroppedAreDroppable(chain, n, newExp, Claims(chain, n));
  }

  /** Where the scan stops tells whether the sector is named, declared or faulty. */
  lemma StopMeans(chain: Chain, newExp: int, n: nat)
    requires n in chain.claimIds
    ensures var ids := chain.claimIds[n]; var k := Stop(chain, n, newExp, ids);
      && (Listed(chain, newExp, n) <==> k > 0)
      && (Declared(chain, newExp, n) <==> k == |ids| > 0)
      && (k == |ids| ==> ids[..k] == ids && forall id :: id in ids ==> Passes(FateOf(chain, n, newExp, id)))
  {
    var ids := chain.claimIds[n];
    var k := Stop(chain, n, newExp, ids);
    assert k < |ids| ==> ids[k] in ids;
  }

  function Numbers(scs: seq<SectorClaim>): seq<nat> {
    if scs == [] then [] else Numbers(scs[..|scs| - 1]) + [scs[|scs| - 1].number]
  }

  function DeclaredOf(chain: Chain, newExp: int, batch: seq<nat>): seq<nat> {
    if batch == [] then []
    else
      DeclaredOf(chain, newExp, batch[..|batch| - 1])
        + if Declared(chain, newExp, batch[|batch| - 1]) then [batch[|batch| - 1]] else []
  }

  /** What a batch's sector set and claim splits are. */
  ghost predicate BatchIs(chain: Chain, newExp: int, batch: seq<nat>, sectors: set<nat>, claims: seq<SectorClaim>) {
    && (forall n :: n in sectors <==> n in batch && Listed(chain, newExp, n))
    && Numbers(claims) == DeclaredOf(chain, newExp, batch)
    && (forall sc :: sc in claims ==> GoodSplit(chain, newExp, sc))
  }

  lemma BatchExtend(chain: Chain, newExp: int, batch: seq<nat>, n: nat, sectors: set<nat>, claims: seq<SectorClaim>,
                    named: set<nat>, split: seq<SectorClaim>)
    requires BatchIs(chain, newExp, batch, sectors, claims)
    requires named == if Listed(chain, newExp, n) then {n} else {}
    requires
      if Declared(chain, newExp, n) then |split| == 1 && split[0].number == n && GoodSplit(chain, newExp, split[0])
      else split == []
    ensures BatchIs(chain, newExp, batch + [n], sectors + named, claims + split)
  {
    assert (batch + [n])[..|batch|] == batch;
    if Declared(chain, newExp, n) {
      assert (claims + split)[..|claims|] == claims;
    } else {
      assert claims + split == claims;
    }
  }

  /** One sector of a batch: whether it is named in the message, and its claim split if it gets one. */
  method ScanSector(chain: Chain, newExp: int, n: nat) returns (r: Result<(set<nat>, seq<SectorClaim>)>)
    ensures r.Err? <==> Faulty(chain, newExp, n)
    ensures r.Ok? ==> r.value.0 == if Listed(chain, newExp, n) then {n} else {}
    ensures r.Ok? ==>
      if Declared(chain, newExp, n) then
        |r.value.1| == 1 && r.value.1[0].number == n && GoodSplit(chain, newExp, r.value.1[0])
      else r.value.1 == []
  {
    if n !in chain.claimIds {
      return Ok(({n}, []));
    }
    StopMeans(chain, newExp, n);
    var scan := ScanClaims(chain, n, newExp, chain.claimIds[n]);
    if scan.Err? {
      r := Err;
    } else {
      var named: set<nat> := if scan.value.mentions > 0 then {n} else {};
      var split: seq<SectorClaim> := [];
      if !scan.value.blocked {
        SplitIsGood(chain, newExp, n);
        if |scan.value.maintain| + |scan.value.drop| != 0 {
          split := [SectorClaim(n, scan.value.maintain, scan.value.drop)];
        }
      }
      r := Ok((named, split));
    }
  }

  ghost predicate SomeFaulty(chain: Chain, newExp: int, numbers: seq<nat>) {
    exists n :: n in numbers && Faulty(chain, newExp, n)
  }

  lemma FaultyMore(chain: Chain, newExp: int, batch: seq<nat>, i: nat)
    requires i < |batch|
    ensures SomeFaulty(chain, newExp, batch[..i + 1]) <==>
      SomeFaulty(chain, newExp, batch[..i]) || Faulty(chain, newExp, batch[i])
    ensures Faulty(chain, newExp, batch[i]) ==> SomeFaulty(chain, newExp, batch)
  {
    assert batch[..i + 1] == batch[..i] + [batch[i]];
    assert batch[i] in batch && batch[i] in batch[..i + 1];
  }

  method ScanBatch(chain: Chain, newExp: int, batch: seq<nat>) returns (r: Result<(set<nat>, seq<SectorClaim>)>)
    ensures r.Err? <==> SomeFaulty(chain, newExp, batch)
    ensures r.Ok? ==> BatchIs(chain, newExp, batch, r.value.0, r.value.1)
  {
    var sectors: set<nat> := {};
    var claims: seq<SectorClaim> := [];
    for i := 0 to |batch|
      invariant BatchIs(chain, newExp, batch[..i], sectors, claims)
      invariant !SomeFaulty(chain, newExp, batch[..i])
    {
      FaultyMore(chain, newExp, batch, i);
      var one := ScanSector(chain, newExp, batch[i]);
      if one.Err? {
        return Err;
      }
      assert batch[..i + 1] == batch[..i] + [batch[i]];
      BatchExtend(chain, newExp, batch[..i], batch[i], sectors, claims, one.value.0, one.value.1);
      sectors, claims := sectors + one.value.0, claims + one.value.1;
    }
    assert batch[..|batch|] == batch;
    return Ok((sectors, claims));
  }

  function FirstBatch(numbers: seq<nat>, size: nat): seq<nat> {
    if |numbers| <= size then numbers else numbers[..size]
  }

  /** Consecutive slices of at most `size`. */
  function Batches(numbers: seq<nat>, size: nat): seq<seq<nat>>
    requires size > 0
  {
    if numbers == [] then []
    else [FirstBatch(numbers, size)] + Batches(numbers[|FirstBatch(numbers, size)|..], size)
  }

  function Joined(bs: seq<seq<nat>>): seq<nat> {
    if bs == [] then [] else bs[0] + Joined(bs[1..])
  }

  /** Batches concatenate back to the group, none is empty or too long, and all but the last are as
      long as they may be. */
  lemma {:induction false} BatchesJoin(numbers: seq<nat>, size: nat)
    requires size > 0
    ensures Joined(Batches(numbers, size)) == numbers
    ensures forall b :: b in Batches(numbers, size) ==> 0 < |b| <= size
    ensures forall i :: 0 <= i < |Batches(numbers, size)| - 1 ==> |Batches(numbers, size)[i]| == size
  {
    if numbers != [] {
      var b := FirstBatch(numbers, size);
      BatchesJoin(numbers[|b|..], size);
      assert numbers == b + numbers[|b|..];
    }
  }

  /** A batch that yields no message. */
  predicate Silent(chain: Chain, newExp: int, batch: seq<nat>) {
    forall n :: n in batch ==> !Listed(chain, newExp, n)
  }

  ghost predicate MessageOf(chain: Chain, l: Location, newExp: int, batch: seq<nat>, m: Message) {
    m.location == l && m.newExpiration == newExp && BatchIs(chain, newExp, batch, m.sectors, m.claims)
  }

  /** The messages of one batch: one if it names any sector, otherwise none. */
  ghost predicate MessagesOf(chain: Chain, l: Location, newExp: int, batch: seq<nat>, msgs: seq<Message>) {
    if Silent(chain, newExp, batch) then msgs == [] else |msgs| == 1 && MessageOf(chain, l, newExp, batch, msgs[0])
  }

  /** The messages of one group: one for each batch that names any sector, in order. */
  ghost predicate Renders(chain: Chain, l: Location, newExp: int, batches: seq<seq<nat>>, msgs: seq<Message>) {
    if batches == [] then msgs == []
    else if Silent(chain, newExp, batches[|batches| - 1]) then
      Renders(chain, l, newExp, batches[..|batches| - 1], msgs)
    else
      && msgs != [] && MessageOf(chain, l, newExp, batches[|batches| - 1], msgs[|msgs| - 1])
      && Renders(chain, l, newExp, batches[..|batches| - 1], msgs[..|msgs| - 1])
  }

  lemma RendersExtend(chain: Chain, l: Location, newExp: int, batches: seq<seq<nat>>, msgs: seq<Message>,
                      batch: seq<nat>, more: seq<Message>)
    requires Renders(chain, l, newExp, batches, msgs)
    requires MessagesOf(chain, l, newExp, batch, more)
    ensures Renders(chain, l, newExp, batches + [batch], msgs + more)
  {
    assert (batches + [batch])[..|batches|] == batches;
    if Silent(chain, newExp, batch) {
      assert msgs + more == msgs;
    } else {
      assert (msgs + more)[..|msgs|] == msgs;
    }
  }

  /** A declared sector is always listed, so a batch without listed sectors has no splits either. */
  lemma {:induction false} SilentUndeclared(chain: Chain, newExp: int, batch: seq<nat>)
    requires Silent(chain, newExp, batch)
    ensures DeclaredOf(chain, newExp, batch) == []
  {
    if batch != [] {
      var n := batch[|batch| - 1];
      SilentUndeclared(chain, newExp, batch[..|batch| - 1]);
      assert Claims(chain, n) != [] ==> Claims(chain, n)[0] in Claims(chain, n);
      assert !Listed(chain, newExp, n);
    }
  }

  lemma EmptyMeansSilent(chain: Chain, newExp: int, batch: seq<nat>, sectors: set<nat>, claims: seq<SectorClaim>)
    requires BatchIs(chain, newExp, batch, sectors, claims)
    ensures sectors == {} && claims == [] <==> Silent(chain, newExp, batch)
  {
    if Silent(chain, newExp, batch) {
      SilentUndeclared(chain, newExp, batch);
    } else {
      var n :| n in batch && Listed(chain, newExp, n);
      assert n in sectors;
    }
  }

  /** The message of one batch, if it has any sector to name. */
  method BatchMessage(chain: Chain, l: Location, newExp: int, batch: seq<nat>) returns (r: Result<seq<Message>>)
    ensures r.Err? <==> SomeFaulty(chain, newExp, batch)
    ensures r.Ok? ==> MessagesOf(chain, l, newExp, batch, r.value)
  {
    var one := ScanBatch(chain, newExp, batch);
    if one.Err? {
      return Err;
    }
    EmptyMeansSilent(chain, newExp, batch, one.value.0, one.value.1);
    if one.value.0 == {} && one.value.1 == [] {
      return Ok([]);
    }
    return Ok([Message(l, one.value.0, one.value.1, newExp)]);
  }

  lemma FaultySlice(chain: Chain, newExp: int, numbers: seq<nat>, i: nat, end: nat)
    requires i <= end <= |numbers|
    ensures SomeFaulty(chain, newExp, numbers[i..end]) ==> SomeFaulty(chain, newExp, numbers)
    ensures var before, here := SomeFaulty(chain, newExp, numbers[..i]), SomeFaulty(chain, newExp, numbers[i..end]);
      SomeFaulty(chain, newExp, numbers[..end]) ==> before || here
  {
    assert numbers[..end] == numbers[..i] + numbers[i..end];
  }

  lemma BatchesMove(done: seq<seq<nat>>, batch: seq<nat>, rest: seq<seq<nat>>)
    ensures done + [batch] + rest == done + ([batch] + rest)
  {
  }

  lemma NextBatch(numbers: seq<nat>, i: nat, size: nat)
    requires size > 0 && i < |numbers|
    ensures var end := if i + size > |numbers| then |numbers| else i + size;
      Batches(numbers[i..], size) == [numbers[i..end]] + Batches(numbers[end..], size)
  {
    var end := if i + size > |numbers| then |numbers| else i + size;
    var rest := numbers[i..];
    var b := FirstBatch(rest, size);
    assert b == numbers[i..end] && rest[|b|..] == numbers[end..];
  }

  /** The slicing loop for one group. */
  method GroupMessages(chain: Chain, l: Location, newExp: int, numbers: seq<nat>, size: nat)
    returns (r: Result<seq<Message>>)
    requires size > 0
    ensures r.Err? <==> SomeFaulty(chain, newExp, numbers)
    ensures r.Ok? ==> Renders(chain, l, newExp, Batches(numbers, size), r.value)
  {
    var msgs: seq<Message> := [];
    ghost var done: seq<seq<nat>> := [];
    var i := 0;
    assert numbers[0..] == numbers;
    while i < |numbers|
      invariant 0 <= i <= |numbers|
      invariant done + Batches(numbers[i..], size) == Batches(numbers, size)
      invariant Renders(chain, l, newExp, done, msgs)
      invariant !SomeFaulty(chain, newExp, numbers[..i])
      decreases |numbers| - i
    {
      var end := if i + size > |numbers| then |numbers| else i + size;
      var batch := numbers[i..end];
      NextBatch(numbers, i, size);
      FaultySlice(chain, newExp, numbers, i, end);
      var more := BatchMessage(chain, l, newExp, batch);
      if more.Err? {
        return Err;
      }
      RendersExtend(chain, l, newExp, done, msgs, batch, more.value);
      BatchesMove(done, batch, Batches(numbers[end..], size));
      msgs, done, i := msgs + more.value, done + [batch], end;
    }
    assert numbers[..|numbers|] == numbers && done + [] == done;
    return Ok(msgs);
  }

  // ---------- All groups ----------

  ghost predicate LastGroup(chain: Chain, ext: Extensions, size: nat, g: Group, params: seq<Message>, k: nat)
    requires size > 0 && HasGroup(ext, g) && k <= |params|
  {
    Renders(chain, g.location, g.expiration, Batches(ext[g.location][g.expiration], size), params[k..])
  }

  /** params holds the messages of the groups in `order`, group by group. */
  ghost predicate RendersAll(chain: Chain, ext: Extensions, size: nat, order: seq<Group>, params: seq<Message>)
    requires size > 0
  {
    if order == [] then params == []
    else
      var g := order[|order| - 1];
      HasGroup(ext, g) && exists k :: 0 <= k <= |params| && LastGroup(chain, ext, size, g, params, k)
                                      && RendersAll(chain, ext, size, order[..|order| - 1], params[..k])
  }

  ghost predicate AnyFaulty(chain: Chain, ext: Extensions, g: Group) {
    HasGroup(ext, g) && SomeFaulty(chain, g.expiration, ext[g.location][g.expiration])
  }

  /** Groups handled so far: distinct, sound, and rendered. */
  ghost predicate Handled(chain: Chain, ext: Extensions, size: nat, order: seq<Group>, params: seq<Message>)
    requires size > 0
  {
    && Distinct(order) && RendersAll(chain, ext, size, order, params)
    && forall g :: g in order ==> HasGroup(ext, g) && !AnyFaulty(chain, ext, g)
  }

  lemma RendersAllExtend(chain: Chain, ext: Extensions, size: nat, order: seq<Group>, params: seq<Message>, g: Group,
                         msgs: seq<Message>)
    requires size > 0 && HasGroup(ext, g) && RendersAll(chain, ext, size, order, params)
    requires Renders(chain, g.location, g.expiration, Batches(ext[g.location][g.expiration], size), msgs)
    ensures RendersAll(chain, ext, size, order + [g], params + msgs)
  {
    var k := |params|;
    assert (order + [g])[..|order|] == order && (params + msgs)[..k] == params && (params + msgs)[k..] == msgs;
    assert LastGroup(chain, ext, size, g, params + msgs, k);
  }

  lemma HandledExtend(chain: Chain, ext: Extensions, size: nat, order: seq<Group>, params: seq<Message>, g: Group,
                      msgs: seq<Message>)
    requires size > 0 && Handled(chain, ext, size, order, params)
    requires HasGroup(ext, g) && !AnyFaulty(chain, ext, g) && g !in order
    requires Renders(chain, g.location, g.expiration, Batches(ext[g.location][g.expiration], size), msgs)
    ensures Handled(chain, ext, size, order + [g], params + msgs)
  {
    RendersAllExtend(chain, ext, size, order, params, g, msgs);
  }

  /** The inner loop: the groups of one partition, in whatever order its map gives. */
  method PartitionMessages(chain: Chain, ext: Extensions, size: nat, l: Location, before: seq<Message>,
                           ghost seen: seq<Group>)
    returns (r: Result<seq<Message>>, ghost order: seq<Group>)
    requires size > 0 && l in ext && Handled(chain, ext, size, seen, before)
    requires forall g :: g in seen ==> g.location != l
    ensures r.Ok? ==> Handled(chain, ext, size, order, r.value)
    ensures r.Ok? ==> forall g :: g in order <==> g in seen || (g.location == l && HasGroup(ext, g))
    ensures r.Err? ==> exists g :: AnyFaulty(chain, ext, g)
  {
    var params := before;
    order := seen;
    var exps := ext[l].Keys;
    while exps != {}
      invariant exps <= ext[l].Keys && Handled(chain, ext, size, order, params)
      invariant forall g :: g in order <==> g in seen || (g.location == l && HasGroup(ext, g) && g.expiration !in exps)
      decreases |exps|
    {
      EmptyOrNot(exps);
      var newExp :| newExp in exps;
      exps := exps - {newExp};
      ghost var g := Group(l, newExp);
      var one := GroupMessages(chain, l, newExp, ext[l][newExp], size);
      if one.Err? {
        assert AnyFaulty(chain, ext, g);
        return Err, order;
      }
      HandledExtend(chain, ext, size, order, params, g, one.value);
      params := params + one.value;
      order := order + [g];
    }
    return Ok(params), order;
  }

  /** The outer loop, over partitions. */
  method BuildMessages(chain: Chain, ext: Extensions, size: nat)
    returns (r: Result<seq<Message>>, ghost order: seq<Group>)
    requires size > 0
    ensures r.Err? <==> exists g :: AnyFaulty(chain, ext, g)
    ensures r.Ok? ==> AllGroups(ext, order) && RendersAll(chain, ext, size, order, r.value)
  {
    var params: seq<Message> := [];
    order := [];
    var todo := ext.Keys;
    while todo != {}
      invariant todo <= ext.Keys && Handled(chain, ext, size, order, params)
      invariant forall g :: g in order <==> HasGroup(ext, g) && g.location !in todo
      decreases |todo|
    {
      var l :| l in todo;
      todo := todo - {l};
      var one, order' := PartitionMessages(chain, ext, size, l, params, order);
      if one.Err? {
        return Err, order;
      }
      params, order := one.value, order';
    }
    return Ok(params), order;
  }
}
