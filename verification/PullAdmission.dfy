/** What admission guarantees in every run of the pull tables: the caps hold, a lone client cannot
    starve a newcomer, and a request key always means the same pull. */
module PullAdmission {
  import opened Basics
  import opened PullLedger
  import opened PullProtocol
  import opened PullRefs

  lemma UnionSize<T>(a: set<T>, b: set<T>)
    ensures |a + b| <= |a| + |b|
  {
    assert a + b == a + (b - a);
    SubsetSize(b - a, b);
  }

  // ---------- The caps ----------

  ghost predicate Capped(d: Db) {
    |ActiveKeys(d)| <= GLOBAL_LIMIT && forall c :: |ClientKeys(d, c)| <= BorrowLimit()
  }

  /** Every item active in e was active in d, for the same piece and client. */
  ghost predicate Shrinks(d: Db, e: Db) {
    forall id :: id in e.items && Active(e.items[id]) ==>
      && id in d.items && Active(d.items[id]) && d.items[id].rawSize == e.items[id].rawSize
      && (id.fetchId in e.pulls ==> id.fetchId in d.pulls && d.pulls[id.fetchId].client == e.pulls[id.fetchId].client)
  }

  lemma ShrinkingStaysCapped(d: Db, e: Db)
    requires Capped(d) && Shrinks(d, e)
    ensures Capped(e)
  {
    SubsetSize(ActiveKeys(e), ActiveKeys(d));
    forall c ensures |ClientKeys(e, c)| <= BorrowLimit() {
      assert ClientKeys(e, c) <= ClientKeys(d, c);
      SubsetSize(ClientKeys(e, c), ClientKeys(d, c));
    }
  }

  lemma DropShrinks(d: Db, gone: set<nat>)
    ensures Shrinks(d, DropRefs(d, gone))
  {
  }

  lemma ReleaseDropShrinks(d: Db, ids: set<ItemId>, fail: bool, gone: set<nat>)
    ensures Shrinks(d, DropRefs(Release(d, ids, fail), gone))
  {
  }

  lemma CleanOwnedShrinks(d: Db, p: nat)
    ensures Shrinks(d, CleanOwned(d, p))
  {
    CleanedSameIds(d, p);
    forall id | id in d.items ensures CleanOwned(d, p).items[id].rawSize == d.items[id].rawSize
                                      && Active(CleanOwned(d, p).items[id]) == Active(d.items[id]) {
      CleanedItem(d, p, id);
    }
  }

  lemma ClaimShrinks(d: Db, k: PieceKey, c: Claim)
    requires Claims(d, k, c)
    ensures Shrinks(d, c.db)
  {
    if c.cleaned {
      var p :| RowFor(d, p, k) && !d.rows[p].complete && PullOwned(d, p, k) && ClaimsDirectly(CleanOwned(d, p), k, c);
      CleanOwnedShrinks(d, p);
      ClaimedRowsOnly(CleanOwned(d, p), k, c);
    } else {
      ClaimedRowsOnly(d, k, c);
    }
  }

  lemma AttachShrinks(c: Claim, given: map<ItemId, nat>)
    ensures Shrinks(c.db, Attach(c, given))
  {
  }

  lemma CompleteShrinks(d: Db, id: ItemId, p: nat)
    requires id in d.items
    ensures Shrinks(d, CompleteItem(d, id, p))
  {
  }

  lemma SweepShrinks(d: Db, now: int)
    requires KeyedWell(d) && d.promoted <= d.refs.Keys
    ensures Shrinks(d, FiveDay(d, now))
  {
    FiveDaySweeps(d, now);
  }

  lemma DeleteShrinks(d: Db, gone: set<nat>)
    ensures Shrinks(d, DeleteRows(d, gone))
  {
  }

  lemma ExpireShrinks(d: Db, stale: set<ItemId>)
    ensures Shrinks(d, Expire(d, stale))
  {
    var e := ExpireItems(d, stale);
    ReleaseDropShrinks(d, stale, true, RefsOf(d, stale) - d.promoted - HeldRefs(Release(d, stale, true)));
    DeleteShrinks(e, IdleSkipped(e, OwnedRows(d, stale)));
  }

  lemma SameItemsShrink(d: Db, s: Step, d': Db)
    requires Next(d, s, d')
    requires s.RowArrives? || s.RowFinishes? || s.ForeignRef? || s.ForeignPromote?
    ensures Shrinks(d, d')
  {
    assert d'.items == d.items && d'.pulls == d.pulls;
  }

  /** Only admission adds active pieces. */
  lemma OtherStepsShrink(d: Db, s: Step, d': Db)
    requires KeyedWell(d) && d.promoted <= d.refs.Keys && Next(d, s, d') && !s.Create?
    ensures Shrinks(d, d')
  {
    match s
    case Pulls(k, c, given) => ClaimShrinks(d, k, c); AttachShrinks(c, given);
    case CleansOwned(p) => CleanOwnedShrinks(d, p);
    case Expires(stale) => ExpireShrinks(d, stale);
    case Sweeps(now) => SweepShrinks(d, now);
    case Collects(r) => DropShrinks(d, {r});
    case ForeignDrop(r) => DropShrinks(d, {r});
    case Completes(id, p) => CompleteShrinks(d, id, p);
    case Fails(_) =>
    case RowArrives(_, _) => SameItemsShrink(d, s, d');
    case RowFinishes(_) => SameItemsShrink(d, s, d');
    case RowLeaves(p) => DeleteShrinks(d, {p});
    case ForeignRef(_) => SameItemsShrink(d, s, d');
    case ForeignPromote(_) => SameItemsShrink(d, s, d');
  }

  /** d' is d with a new pull of this client and its items. */
  ghost predicate Adds(d: Db, d': Db, id: nat, pieces: seq<Piece>, client: string) {
    && KeyedWell(d) && id == d.nextPull && id in d'.pulls && d'.pulls[id].client == client
    && (forall x :: x in d.pulls ==> x in d'.pulls && d'.pulls[x] == d.pulls[x])
    && ItemsAdded(d.items, d'.items, id, pieces)
  }

  /** An item after admission was there before, or is one of the request's pieces. */
  lemma AddedItem(d: Db, d': Db, id: nat, pieces: seq<Piece>, client: string, x: ItemId)
    requires Adds(d, d', id, pieces, client) && x in d'.items
    ensures x in d.items || (HeldBy(d', x, client) && KeyOf(x, d'.items[x]) in Incoming(pieces))
    ensures x in d.items ==> d'.items[x] == d.items[x] && forall c :: HeldBy(d', x, c) == HeldBy(d, x, c)
  {
    if x !in d.items {
      var p :| p in pieces && x == ItemIdOf(id, p);
    }
  }

  lemma PieceAdded(d: Db, d': Db, id: nat, pieces: seq<Piece>, client: string, k: PieceKey) returns (x: ItemId)
    requires Adds(d, d', id, pieces, client) && k in Incoming(pieces)
    ensures x in d'.items && HeldBy(d', x, client) && KeyOf(x, d'.items[x]) == k
  {
    var p :| p in pieces && k == PieceKey(p.cid, p.rawSize);
    x := ItemIdOf(id, p);
  }

  lemma AddsActive(d: Db, d': Db, id: nat, pieces: seq<Piece>, client: string)
    requires Adds(d, d', id, pieces, client)
    ensures ActiveKeys(d') == ActiveKeys(d) + Incoming(pieces)
  {
    forall k | k in Incoming(pieces) ensures k in ActiveKeys(d') {
      var x := PieceAdded(d, d', id, pieces, client, k);
    }
    forall k | k in ActiveKeys(d') ensures k in ActiveKeys(d) + Incoming(pieces) {
      var x :| x in d'.items && Active(d'.items[x]) && k == KeyOf(x, d'.items[x]);
      AddedItem(d, d', id, pieces, client, x);
    }
    forall k | k in ActiveKeys(d) ensures k in ActiveKeys(d') {
      var x :| x in d.items && Active(d.items[x]) && k == KeyOf(x, d.items[x]);
      assert x in d'.items;
    }
  }

  lemma AddsHeld(d: Db, d': Db, id: nat, pieces: seq<Piece>, client: string, c: string)
    requires Adds(d, d', id, pieces, client)
    ensures ClientKeys(d', c) == ClientKeys(d, c) + if c == client then Incoming(pieces) else {}
  {
    forall k | c == client && k in Incoming(pieces) ensures k in ClientKeys(d', c) {
      var x := PieceAdded(d, d', id, pieces, client, k);
    }
    forall k | k in ClientKeys(d', c) ensures k in ClientKeys(d, c) || (c == client && k in Incoming(pieces)) {
      var x :| x in d'.items && HeldBy(d', x, c) && k == KeyOf(x, d'.items[x]);
      AddedItem(d, d', id, pieces, client, x);
    }
    forall k | k in ClientKeys(d, c) ensures k in ClientKeys(d', c) {
      var x :| x in d.items && HeldBy(d, x, c) && k == KeyOf(x, d.items[x]);
      assert x in d'.items && HeldBy(d', x, c);
    }
  }

  /** Admission adds exactly the request's pieces, to exactly its client. */
  lemma AdmissionAdds(d: Db, key: PullKey, client: string, pieces: seq<Piece>, now: int, d': Db, id: nat)
    requires KeyedWell(d) && CreateSpec(d, key, client, pieces, now, d', Admitted(id))
    ensures ActiveKeys(d') == ActiveKeys(d) + Incoming(pieces)
    ensures ClientKeys(d', client) == ClientKeys(d, client) + Incoming(pieces)
    ensures forall c :: c != client ==> ClientKeys(d', c) == ClientKeys(d, c)
  {
    assert Adds(d, d', id, pieces, client);
    AddsActive(d, d', id, pieces, client);
    AddsHeld(d, d', id, pieces, client, client);
    forall c | c != client ensures ClientKeys(d', c) == ClientKeys(d, c) {
      AddsHeld(d, d', id, pieces, client, c);
    }
  }

  lemma AdmissionStaysCapped(d: Db, client: string, incoming: set<PieceKey>, d': Db)
    requires Capped(d) && Backpressure(d, client, incoming) == None
    requires ActiveKeys(d') == ActiveKeys(d) + incoming && ClientKeys(d', client) == ClientKeys(d, client) + incoming
    requires forall c :: c != client ==> ClientKeys(d', c) == ClientKeys(d, c)
    ensures Capped(d')
  {
    if incoming == {} {
      assert ActiveKeys(d') == ActiveKeys(d) && ClientKeys(d', client) == ClientKeys(d, client);
    }
  }

  lemma CreateStaysCapped(d: Db, key: PullKey, client: string, pieces: seq<Piece>, now: int, d': Db, r: CreateResult)
    requires KeyedWell(d) && Capped(d) && CreateSpec(d, key, client, pieces, now, d', r)
    ensures Capped(d')
  {
    if r.Admitted? {
      AdmissionAdds(d, key, client, pieces, now, d', r.id);
      AdmissionStaysCapped(d, client, Incoming(pieces), d');
    } else {
      ShrinkingStaysCapped(d, d');
    }
  }

  /** In every run, at every moment: at most 120 unique active pieces, at most 108 of one client. */
  lemma {:induction false} CapsHold(states: seq<Db>, steps: seq<Step>, n: nat)
    requires Run(states, steps) && n < |states|
    ensures |ActiveKeys(states[n])| <= 120 && forall c :: |ClientKeys(states[n], c)| <= 108
  {
    if n > 0 {
      CapsHold(states, steps, n - 1);
      RunKeeps(states, steps, n - 1);
      var d, s, d' := states[n - 1], steps[n - 1], states[n];
      assert Goes(states, steps, n - 1);
      if s.Create? {
        CreateStaysCapped(d, s.key, s.client, s.pieces, s.now, d', s.result);
      } else {
        OtherStepsShrink(d, s, d');
        ShrinkingStaysCapped(d, d');
      }
    }
  }

  // ---------- Newcomers ----------

  /** A client with nothing active and a small request is judged by the global cap alone. */
  lemma NewcomerExactly(d: Db, client: string, incoming: set<PieceKey>)
    requires ClientKeys(d, client) == {} && |incoming| <= PER_CLIENT_LIMIT && |ActiveKeys(d)| <= GLOBAL_LIMIT
    ensures Backpressure(d, client, incoming) == None <==> |ActiveKeys(d) + incoming| <= GLOBAL_LIMIT
  {
    assert ClientKeys(d, client) + incoming == incoming;
    assert ActiveKeys(d) + {} == ActiveKeys(d);
  }

  /** What a request comes to, in every run, as the tables stand. */
  lemma OutcomeExactly(states: seq<Db>, steps: seq<Step>, i: nat)
    requires Run(states, steps) && i < |steps| && steps[i].Create?
    ensures var d, s := states[i], steps[i];
      var known := exists a :: a in d.pulls && d.pulls[a].key == s.key;
      var room := s.pieces == [] || HasRoom(d, s.client, Incoming(s.pieces));
      && (s.result.Existing? <==> known)
      && (s.result.Refused? <==> !known && !room)
      && (s.result.InsertFailed? <==> !known && room && !Insertable(s.pieces))
      && (s.result.Admitted? <==> !known && room && Insertable(s.pieces))
  {
    assert Goes(states, steps, i);
    BackpressureExactly(states[i], steps[i].client, Incoming(steps[i].pieces));
    NoneIncoming(steps[i].pieces);
  }

  /** What the other clients hold is what each of them holds. */
  lemma OtherKeysAre(d: Db, client: string, k: PieceKey)
    ensures k in OtherKeys(d, client) <==> exists c :: c != client && k in ClientKeys(d, c)
  {
    if k in OtherKeys(d, client) {
      var id :| id in d.items && HeldByOther(d, id, client) && k == KeyOf(id, d.items[id]);
      assert HeldBy(d, id, d.pulls[id.fetchId].client);
      assert k in ClientKeys(d, d.pulls[id.fetchId].client);
    }
    if c :| c != client && k in ClientKeys(d, c) {
      var id :| id in d.items && HeldBy(d, id, c) && k == KeyOf(id, d.items[id]);
      assert HeldByOther(d, id, client);
    }
  }

  lemma NoOthers(d: Db, client: string)
    requires KeyedWell(d) && OtherKeys(d, client) == {}
    ensures ActiveKeys(d) == ClientKeys(d, client)
  {
    forall id | id in d.items && Active(d.items[id]) ensures HeldBy(d, id, client) {
      assert KeyOf(id, d.items[id]) !in OtherKeys(d, client);
    }
  }

  /** While nobody else holds anything, a client may borrow up to 108 pieces, and no more. */
  lemma LoneClientBorrows(states: seq<Db>, steps: seq<Step>, i: nat)
    requires Run(states, steps) && i < |steps| && steps[i].Create? && Insertable(steps[i].pieces)
    requires forall k :: k in states[i].pulls ==> states[i].pulls[k].key != steps[i].key
    requires forall c :: c != steps[i].client ==> ClientKeys(states[i], c) == {}
    ensures steps[i].result.Admitted? <==>
      |ClientKeys(states[i], steps[i].client) + Incoming(steps[i].pieces)| <= 108
  {
    var d, c, inc := states[i], steps[i].client, Incoming(steps[i].pieces);
    RunKeeps(states, steps, i);
    CapsHold(states, steps, i);
    OutcomeExactly(states, steps, i);
    NoneIncoming(steps[i].pieces);
    forall k ensures k !in OtherKeys(d, c) {
      OtherKeysAre(d, c, k);
    }
    assert OtherKeys(d, c) == {};
    NoOthers(d, c);
    assert inc == {} ==> ClientKeys(d, c) + inc == ClientKeys(d, c);
  }

  /** Borrowing never starves a newcomer: whatever one client has borrowed, a request of at most
      ten pieces from any other client is admitted. */
  lemma LoneBorrowerStarvesNobody(states: seq<Db>, steps: seq<Step>, n: nat, lone: string, client: string,
                                  key: PullKey, pieces: seq<Piece>, now: int, d': Db, r: CreateResult)
    requires Run(states, steps) && n < |states| && client != lone
    requires forall id :: id in states[n].items && Active(states[n].items[id]) ==> HeldBy(states[n], id, lone)
    requires forall k :: k in states[n].pulls ==> states[n].pulls[k].key != key
    requires |Incoming(pieces)| <= 10 && Insertable(pieces)
    requires CreateSpec(states[n], key, client, pieces, now, d', r)
    ensures r.Admitted?
  {
    var d := states[n];
    CapsHold(states, steps, n);
    assert ActiveKeys(d) == ClientKeys(d, lone);
    assert ClientKeys(d, client) == {};
    UnionSize(ActiveKeys(d), Incoming(pieces));
    NewcomerExactly(d, client, Incoming(pieces));
  }

  // ---------- One request, one pull ----------

  ghost predicate KeyIs(d: Db, a: nat, key: PullKey) {
    a < d.nextPull && (a in d.pulls ==> d.pulls[a].key == key)
  }

  /** Pull records change only by admission and by the five-day cleanup. */
  lemma PullsKept(d: Db, s: Step, d': Db)
    requires Next(d, s, d') && !s.Create? && !s.Sweeps?
    ensures d'.pulls == d.pulls && d'.nextPull == d.nextPull
  {
  }

  lemma KeyStays(d: Db, s: Step, d': Db, a: nat, key: PullKey)
    requires Next(d, s, d') && KeyIs(d, a, key)
    ensures KeyIs(d', a, key)
  {
    if !s.Create? && !s.Sweeps? {
      PullsKept(d, s, d');
    }
  }

  lemma KeyStaysAt(states: seq<Db>, steps: seq<Step>, i: nat, a: nat, key: PullKey)
    requires Run(states, steps) && i < |steps| && KeyIs(states[i], a, key)
    ensures KeyIs(states[i + 1], a, key)
  {
    assert Goes(states, steps, i);
    KeyStays(states[i], steps[i], states[i + 1], a, key);
  }

  lemma {:induction false} KeyStaysAlong(states: seq<Db>, steps: seq<Step>, i: nat, j: nat, a: nat, key: PullKey)
    requires Run(states, steps) && i <= j < |states| && KeyIs(states[i], a, key)
    ensures KeyIs(states[j], a, key)
    decreases j
  {
    if i < j {
      KeyStaysAlong(states, steps, i, j - 1, a, key);
      KeyStaysAt(states, steps, j - 1, a, key);
    }
  }

  lemma SecondAskFinds(d: Db, key: PullKey, client: string, pieces: seq<Piece>, now: int, d': Db, r: CreateResult,
                       a: nat)
    requires Keyed(d) && CreateSpec(d, key, client, pieces, now, d', r) && a in d.pulls && d.pulls[a].key == key
    ensures r == Existing(a) && SameTables(d, d')
  {
  }

  lemma FirstAskNames(d: Db, key: PullKey, client: string, pieces: seq<Piece>, now: int, d': Db, r: CreateResult)
    requires KeyedWell(d) && CreateSpec(d, key, client, pieces, now, d', r) && (r.Admitted? || r.Existing?)
    ensures KeyIs(d', r.id, key)
  {
  }

  /** Asking again with the same key, any time later in any run, finds the same pull as long as
      its record lives, and changes nothing. */
  lemma SameKeySamePull(states: seq<Db>, steps: seq<Step>, i: nat, j: nat)
    requires Run(states, steps) && i < j < |steps| && steps[i].Create? && steps[j].Create?
      && steps[i].key == steps[j].key
    requires steps[i].result.Admitted? || steps[i].result.Existing?
    requires steps[i].result.id in states[j].pulls
    ensures steps[j].result == Existing(steps[i].result.id)
    ensures SameTables(states[j], states[j + 1])
  {
    var s, t := steps[i], steps[j];
    RunKeeps(states, steps, i);
    RunKeeps(states, steps, j);
    assert Goes(states, steps, i) && Goes(states, steps, j);
    FirstAskNames(states[i], s.key, s.client, s.pieces, s.now, states[i + 1], s.result);
    KeyStaysAlong(states, steps, i + 1, j, s.result.id, s.key);
    SecondAskFinds(states[j], t.key, t.client, t.pieces, t.now, states[j + 1], t.result, s.result.id);
  }

  /** A refusal leaves every table as it was, and the wait it asks for, one to five minutes, fits how
      far the request exceeds the limit. */
  lemma RefusalChangesNothing(states: seq<Db>, steps: seq<Step>, i: nat)
    requires Run(states, steps) && i < |steps| && steps[i].Create? && steps[i].result.Refused?
    ensures SameTables(states[i], states[i + 1])
    ensures var d, c, inc := states[i], steps[i].client, Incoming(steps[i].pieces);
      && (|ActiveKeys(d) + inc| > 120
          || (|ClientKeys(d, c) + inc| > 10 && |ClientKeys(d, c) + inc| + |OtherKeys(d, c)| > 108))
      && Excess(d, c, inc) > 0 && WaitFits(steps[i].result.retryAfter, Excess(d, c, inc))
  {
    assert Goes(states, steps, i);
    BackpressureExactly(states[i], steps[i].client, Incoming(steps[i].pieces));
  }
}
