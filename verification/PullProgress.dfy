/** The pull tables never get stuck: from every reachable state PullPiece can serve any piece, and
    every admitted item can still be completed. */
module PullProgress {
  import opened Basics
  import opened PieceSizes
  import opened PullLedger
  import opened PullProtocol
  import opened PullRefs
  import opened PullEffects

  // ---------- A task can always attach ----------

  /** An earlier task created a row for the piece and did not finish it. */
  ghost predicate StaleRow(d: Db, k: PieceKey, p: nat) {
    RowFor(d, p, k) && !d.rows[p].complete && PullOwned(d, p, k)
  }

  /** The items a task for the piece attaches: the active ones without a ref, or all active ones when
      a stale row has to be cleaned first. */
  ghost predicate Chosen(d: Db, k: PieceKey, id: ItemId) {
    && id in d.items && Active(d.items[id]) && KeyOf(id, d.items[id]) == k
    && (d.items[id].ref.None? || exists p :: StaleRow(d, k, p))
  }

  /** There is always a row to claim, once a stale one is out of the way. */
  lemma DirectClaimPossible(d: Db, k: PieceKey, cleaned: bool) returns (c: Claim)
    requires forall p :: !StaleRow(d, k, p)
    ensures c.cleaned == cleaned && ClaimsDirectly(d, k, c)
  {
    if p :| RowFor(d, p, k) {
      assert !StaleRow(d, k, p);
      c := Claim(d, p, false, cleaned);
    } else {
      c := Claim(NewRow(d, k, true), d.nextRow, true, cleaned);
    }
  }

  lemma SameRow(d: Db, k: PieceKey, p: nat, q: nat)
    requires Inv(d) && RowFor(d, p, k) && RowFor(d, q, k)
    ensures p == q
  {
    assert SamePiece(d.rows[p], d.rows[q]);
  }

  /** Cleaning leaves no stale row for the piece. */
  lemma CleanedOnce(d: Db, k: PieceKey, p: nat)
    requires Inv(d) && StaleRow(d, k, p)
    ensures forall q :: !StaleRow(CleanOwned(d, p), k, q)
  {
    CleanedNotOwned(d, p, k);
    forall q | RowFor(CleanOwned(d, p), q, k) ensures q == p {
      CleanedRow(d, p, q);
      SameRow(d, k, p, q);
    }
  }

  lemma ClaimPossible(d: Db, k: PieceKey) returns (c: Claim)
    requires Inv(d)
    ensures Claims(d, k, c) && (c.cleaned <==> exists p :: StaleRow(d, k, p))
  {
    if p :| StaleRow(d, k, p) {
      CleanedOnce(d, k, p);
      c := DirectClaimPossible(CleanOwned(d, p), k, true);
    } else {
      c := DirectClaimPossible(d, k, false);
    }
  }

  /** A claim cleans exactly when there is a stale row. */
  lemma CleansExactly(d: Db, k: PieceKey, c: Claim)
    requires Inv(d) && Claims(d, k, c)
    ensures c.cleaned <==> exists p :: StaleRow(d, k, p)
  {
    if c.cleaned {
      var p :| RowFor(d, p, k) && !d.rows[p].complete && PullOwned(d, p, k) && ClaimsDirectly(CleanOwned(d, p), k, c);
      assert StaleRow(d, k, p);
    } else if p :| StaleRow(d, k, p) {
      assert RowFor(d, p, k);
      SameRow(d, k, p, c.row);
    }
  }

  /** Numbers for a set of items, consecutive from n. */
  lemma {:induction false} Numbering(ids: set<ItemId>, n: nat) returns (given: map<ItemId, nat>)
    ensures given.Keys == ids
    ensures forall id :: id in given ==> n <= given[id] < n + |ids|
    ensures forall a, b :: a in given && b in given && a != b ==> given[a] != given[b]
  {
    if ids == {} {
      given := map[];
    } else {
      var id :| id in ids;
      var rest := Numbering(ids - {id}, n);
      given := rest[id := n + |ids| - 1];
    }
  }

  lemma ClaimKeepsItem(d: Db, k: PieceKey, c: Claim, id: ItemId)
    requires Inv(d) && Claims(d, k, c) && id in d.items
    ensures id in c.db.items && Active(c.db.items[id]) == Active(d.items[id])
    ensures KeyOf(id, c.db.items[id]) == KeyOf(id, d.items[id])
    ensures !c.cleaned ==> c.db.items[id] == d.items[id]
  {
    if c.cleaned {
      var p :| RowFor(d, p, k) && !d.rows[p].complete && PullOwned(d, p, k) && ClaimsDirectly(CleanOwned(d, p), k, c);
      CleanedItem(d, p, id);
      ClaimedRowsOnly(CleanOwned(d, p), k, c);
    } else {
      ClaimedRowsOnly(d, k, c);
    }
  }

  /** In every reachable state, for every piece and any choice among its items that need a ref, a task
      can give each of them one. */
  lemma PullAlwaysPossible(states: seq<Db>, steps: seq<Step>, n: nat, k: PieceKey, ids: set<ItemId>)
    returns (c: Claim, given: map<ItemId, nat>)
    requires Run(states, steps) && n < |states| && forall id :: id in ids ==> Chosen(states[n], k, id)
    ensures given.Keys == ids && Next(states[n], Pulls(k, c, given), Attach(c, given))
  {
    var d := states[n];
    RunKeeps(states, steps, n);
    c := ClaimPossible(d, k);
    given := Numbering(ids, c.db.nextRef);
    assert |given| == |given.Keys|;
    forall id | id in given
      ensures id in c.db.items && Active(c.db.items[id]) && KeyOf(id, c.db.items[id]) == k
      ensures c.db.items[id].ref.None? || c.cleaned
    {
      assert Chosen(d, k, id);
      ClaimKeepsItem(d, k, c, id);
    }
  }

  /** And only such items are ever attached. */
  lemma OnlyChosenAttached(states: seq<Db>, steps: seq<Step>, n: nat, id: ItemId)
    requires Run(states, steps) && n < |steps| && steps[n].Pulls? && id in steps[n].given
    ensures Chosen(states[n], steps[n].k, id)
  {
    var d, s := states[n], steps[n];
    RunKeeps(states, steps, n);
    assert Goes(states, steps, n);
    ClaimKeepsRefs(d, s.k, s.claim);
    ClaimKeepsItem(d, s.k, s.claim, id);
    CleansExactly(d, s.k, s.claim);
  }

  // ---------- Every item can still be completed ----------

  /** The run goes on by one step. */
  lemma RunGoesOn(states: seq<Db>, steps: seq<Step>, s: Step, d': Db)
    requires Run(states, steps) && Next(states[|steps|], s, d')
    ensures Run(states + [d'], steps + [s])
  {
    var more, went := states + [d'], steps + [s];
    forall i: nat | i < |went| ensures Goes(more, went, i) {
      assert i < |steps| ==> Goes(states, steps, i);
    }
  }

  /** A run that ends in d with a row for the piece of item id. */
  ghost predicate RunTo(states: seq<Db>, steps: seq<Step>, id: ItemId, p: nat) {
    && Run(states, steps)
    && var d := states[|steps|];
       id in d.items && Active(d.items[id]) && RowFor(d, p, KeyOf(id, d.items[id]))
  }

  /** A task creates a row for an item whose piece has none. */
  lemma CreateRow(states: seq<Db>, steps: seq<Step>, id: ItemId)
    returns (states': seq<Db>, steps': seq<Step>, p: nat)
    requires Run(states, steps) && id in states[|steps|].items && Active(states[|steps|].items[id])
    requires forall q :: !RowFor(states[|steps|], q, KeyOf(id, states[|steps|].items[id]))
    ensures RunTo(states', steps', id, p) && states <= states' && steps <= steps'
  {
    var n := |steps|;
    var k := KeyOf(id, states[n].items[id]);
    RunKeeps(states, steps, n);
    assert ItemSound(states[n], id);
    var c, given := PullAlwaysPossible(states, steps, n, k, {id});
    RunGoesOn(states, steps, Pulls(k, c, given), Attach(c, given));
    states', steps', p := states + [Attach(c, given)], steps + [Pulls(k, c, given)], c.row;
    PullGivesOwnRef(states', steps', n, id);
    FlagsMoveOnlyBy(states', steps', n, id);
  }

  lemma GetRow(states: seq<Db>, steps: seq<Step>, id: ItemId)
    returns (states': seq<Db>, steps': seq<Step>, p: nat)
    requires Run(states, steps) && id in states[|steps|].items && Active(states[|steps|].items[id])
    ensures RunTo(states', steps', id, p) && states <= states' && steps <= steps'
  {
    var d := states[|steps|];
    if q :| RowFor(d, q, KeyOf(id, d.items[id])) {
      states', steps', p := states, steps, q;
    } else {
      states', steps', p := CreateRow(states, steps, id);
    }
  }

  lemma FinishRow(states: seq<Db>, steps: seq<Step>, id: ItemId, p: nat)
    returns (states': seq<Db>, steps': seq<Step>)
    requires RunTo(states, steps, id, p)
    ensures RunTo(states', steps', id, p) && states <= states' && steps <= steps'
    ensures states'[|steps'|].rows[p].complete
  {
    var d := states[|steps|];
    var e := d.(rows := d.rows[p := d.rows[p].(complete := true)]);
    RunGoesOn(states, steps, RowFinishes(p), e);
    states', steps' := states + [e], steps + [RowFinishes(p)];
  }

  /** Any run can go on so that a given active item is completed: no admitted item is ever stuck. */
  lemma EveryItemCanComplete(states: seq<Db>, steps: seq<Step>, id: ItemId)
    returns (states': seq<Db>, steps': seq<Step>)
    requires Run(states, steps) && id in states[|steps|].items && Active(states[|steps|].items[id])
    ensures Run(states', steps') && states <= states' && steps <= steps'
    ensures id in states'[|steps'|].items && states'[|steps'|].items[id].complete
  {
    var s1, t1, p := GetRow(states, steps, id);
    var s2, t2 := FinishRow(s1, t1, id, p);
    var e := CompleteItem(s2[|t2|], id, p);
    RunGoesOn(s2, t2, Completes(id, p), e);
    states', steps' := s2 + [e], t2 + [Completes(id, p)];
  }
}
