/** Referential soundness of the pull tables in every run: no ref is lost, none is shared, and
    completing a pull never collides with the uniqueness of pdp_piecerefs. */
module PullRefs {
  import opened Basics
  import opened PullLedger
  import opened PullProtocol

  ghost predicate Keyed(d: Db) {
    KeyedWell(d) && forall a, b :: a in d.pulls && b in d.pulls && d.pulls[a].key == d.pulls[b].key ==> a == b
  }

  predicate SamePiece(a: Row, b: Row) {
    a.cid == b.cid && a.padded == b.padded
  }

  ghost predicate RowsSound(d: Db) {
    && (forall p :: p in d.rows ==> p < d.nextRow)
    && (forall p, q ::
          p in d.rows && q in d.rows && SamePiece(d.rows[p], d.rows[q]) ==> p == q)
    && (forall r :: r in d.refs ==> r < d.nextRef && d.refs[r] in d.rows)
    && d.promoted <= d.refs.Keys && d.foreign <= d.refs.Keys
  }

  ghost predicate ItemSound(d: Db, id: ItemId)
    requires id in d.items
  {
    var it := d.items[id];
    && !(it.complete && it.failed)
    && (it.ref.Some? ==>
          var r := it.ref.value;
          r in d.refs && r !in d.foreign && RowFor(d, d.refs[r], KeyOf(id, it)) && (it.complete <==> r in d.promoted))
    && (it.owned.Some? ==>
          && it.owned.value in d.rows
          && if it.complete then d.rows[it.owned.value].complete
             else it.ref.Some? && d.refs[it.ref.value] == it.owned.value)
  }

  /** Every unfinished item of a piece hangs on the row PullPiece created for it, or none does. */
  ghost predicate Agree(d: Db, a: ItemId, b: ItemId)
    requires a in d.items && b in d.items
  {
    var x, y := d.items[a], d.items[b];
    !x.complete && x.owned.Some? && x.owned.value in d.rows && !d.rows[x.owned.value].complete
    && !y.complete && y.ref.Some? && KeyOf(a, x) == KeyOf(b, y)
    ==> y.owned == x.owned
  }

  /** No two items hold the same ref. */
  ghost predicate Apart(d: Db, a: ItemId, b: ItemId)
    requires a in d.items && b in d.items
  {
    a != b && d.items[a].ref.Some? ==> d.items[a].ref != d.items[b].ref
  }

  ghost predicate ItemsSound(d: Db) {
    && (forall id {:trigger ItemSound(d, id)} :: id in d.items ==> ItemSound(d, id))
    && (forall a, b {:trigger Apart(d, a, b)} :: a in d.items && b in d.items ==> Apart(d, a, b))
    && (forall a, b {:trigger Agree(d, a, b)} :: a in d.items && b in d.items ==> Agree(d, a, b))
  }

  ghost predicate Sound(d: Db) {
    Keyed(d) && RowsSound(d) && ItemsSound(d)
  }

  ghost predicate Held(d: Db, r: nat) {
    exists id :: id in d.items && d.items[id].ref == Some(r)
  }

  /** Every ref made for a pull is held by a pull item or promoted, save those listed. */
  ghost predicate Accounted(d: Db, but: set<nat>) {
    forall r {:trigger Held(d, r)} :: r in d.refs ==> r in d.foreign || r in d.promoted || r in but || Held(d, r)
  }

  ghost predicate Inv(d: Db) {
    Sound(d) && Accounted(d, {})
  }

  // ---------- Deleting refs ----------

  lemma DropKeepsSound(d: Db, gone: set<nat>)
    requires Sound(d)
    requires forall id :: id in d.items && PointsInto(d.items[id], gone) ==> d.items[id].complete
    ensures Sound(DropRefs(d, gone))
  {
    var e := DropRefs(d, gone);
    forall id | id in e.items ensures ItemSound(e, id) {
      assert ItemSound(d, id);
    }
    forall a, b | a in e.items && b in e.items ensures Agree(e, a, b) && Apart(e, a, b) {
      assert Agree(d, a, b) && Apart(d, a, b);
    }
  }

  lemma DropKeepsAccounted(d: Db, gone: set<nat>)
    requires Accounted(d, gone)
    ensures Accounted(DropRefs(d, gone), {})
  {
    var e := DropRefs(d, gone);
    forall r | r in e.refs && r !in e.foreign && r !in e.promoted ensures Held(e, r) {
      assert Held(d, r);
      var id :| id in d.items && d.items[id].ref == Some(r);
      assert e.items[id].ref == Some(r);
    }
  }

  // ---------- Changes nobody notices ----------

  /** Changes to rows and foreign refs that no pull item notices. */
  ghost predicate Unnoticed(d: Db, e: Db) {
    && e == d.(rows := e.rows, refs := e.refs, promoted := e.promoted, foreign := e.foreign, nextRef := e.nextRef)
    && e.rows.Keys == d.rows.Keys && d.refs.Keys <= e.refs.Keys
    && (forall p :: p in d.rows ==> e.rows[p].cid == d.rows[p].cid && e.rows[p].padded == d.rows[p].padded
                                    && (d.rows[p].complete ==> e.rows[p].complete))
    && (forall r :: r in d.refs ==> e.refs[r] == d.refs[r] && (r in e.foreign <==> r in d.foreign)
                                    && (r !in d.foreign ==> (r in e.promoted <==> r in d.promoted)))
    && (forall r :: r in e.refs && r !in d.refs ==> r in e.foreign)
    && RowsSound(e)
  }

  lemma UnnoticedKeeps(d: Db, e: Db)
    requires Inv(d) && Unnoticed(d, e)
    ensures Inv(e)
  {
    forall id | id in e.items ensures ItemSound(e, id) {
      assert ItemSound(d, id);
    }
    forall a, b | a in e.items && b in e.items ensures Agree(e, a, b) && Apart(e, a, b) {
      assert Agree(d, a, b) && Apart(d, a, b) && ItemSound(d, a);
    }
    forall r | r in e.refs && r !in e.foreign && r !in e.promoted ensures Held(e, r) {
      assert Held(d, r);
    }
  }

  // ---------- Deleting rows and handing them back ----------

  lemma DeleteKeepsItem(d: Db, gone: set<nat>, id: ItemId)
    requires Inv(d) && id in d.items && forall p :: p in gone ==> !RowOccupied(d, p)
    ensures ItemSound(DeleteRows(d, gone), id)
    ensures !d.items[id].complete ==> DeleteRows(d, gone).items[id] == d.items[id]
  {
    assert ItemSound(d, id);
  }

  lemma DeleteKeepsPairs(d: Db, gone: set<nat>, a: ItemId, b: ItemId)
    requires Inv(d) && a in d.items && b in d.items && forall p :: p in gone ==> !RowOccupied(d, p)
    ensures Agree(DeleteRows(d, gone), a, b) && Apart(DeleteRows(d, gone), a, b)
  {
    assert Agree(d, a, b) && Apart(d, a, b);
    DeleteKeepsItem(d, gone, a);
    DeleteKeepsItem(d, gone, b);
  }

  lemma DeleteKeeps(d: Db, gone: set<nat>)
    requires Inv(d) && forall p :: p in gone ==> !RowOccupied(d, p)
    ensures Inv(DeleteRows(d, gone))
  {
    var e := DeleteRows(d, gone);
    forall r | r in e.refs ensures e.refs[r] in e.rows {
      assert RowOccupied(d, d.refs[r]);
    }
    forall id | id in e.items ensures ItemSound(e, id) {
      DeleteKeepsItem(d, gone, id);
    }
    forall a, b | a in e.items && b in e.items ensures Agree(e, a, b) && Apart(e, a, b) {
      DeleteKeepsPairs(d, gone, a, b);
    }
    forall r | r in e.refs && r !in e.foreign && r !in e.promoted ensures Held(e, r) {
      assert Held(d, r);
      var x :| x in d.items && d.items[x].ref == Some(r);
      assert e.items[x].ref == Some(r);
    }
  }

  lemma HandBackKeeps(d: Db, ps: set<nat>)
    requires Inv(d)
    ensures Inv(HandBack(d, ps))
  {
    var e := HandBack(d, ps);
    assert e.rows.Keys == d.rows.Keys;
    UnnoticedKeeps(d, e);
  }

  // ---------- Detaching items ----------

  ghost predicate Unfinished(d: Db, ids: set<ItemId>) {
    forall id :: id in ids ==> id in d.items && !d.items[id].complete
  }

  lemma ReleasedItemSound(d: Db, ids: set<ItemId>, fail: bool, id: ItemId)
    requires ItemsSound(d) && Unfinished(d, ids) && id in d.items
    ensures ItemSound(Release(d, ids, fail), id)
  {
    assert ItemSound(d, id);
  }

  lemma ReleasedAgree(d: Db, ids: set<ItemId>, fail: bool, a: ItemId, b: ItemId)
    requires ItemsSound(d) && a in d.items && b in d.items
    ensures Agree(Release(d, ids, fail), a, b) && Apart(Release(d, ids, fail), a, b)
  {
    assert Agree(d, a, b) && Apart(d, a, b);
  }

  lemma ReleaseKeepsSound(d: Db, ids: set<ItemId>, fail: bool)
    requires Sound(d) && Unfinished(d, ids)
    ensures Sound(Release(d, ids, fail))
  {
    var e := Release(d, ids, fail);
    assert e.items.Keys == d.items.Keys;
    forall id | id in e.items ensures ItemSound(e, id) {
      ReleasedItemSound(d, ids, fail, id);
    }
    forall a, b | a in e.items && b in e.items ensures Agree(e, a, b) && Apart(e, a, b) {
      ReleasedAgree(d, ids, fail, a, b);
    }
  }

  lemma ReleaseAccounts(d: Db, ids: set<ItemId>, fail: bool, but: set<nat>)
    requires Accounted(d, {}) && RefsOf(d, ids) <= but
    ensures Accounted(Release(d, ids, fail), but)
  {
    var e := Release(d, ids, fail);
    forall r | r in e.refs && r !in e.foreign && r !in e.promoted && r !in but ensures Held(e, r) {
      assert Held(d, r);
      var id :| id in d.items && d.items[id].ref == Some(r);
      assert e.items[id].ref == Some(r);
    }
  }

  /** Releasing unfinished items and deleting exactly the refs they held loses nothing. */
  lemma ReleaseAndDrop(d: Db, ids: set<ItemId>, fail: bool, gone: set<nat>)
    requires Inv(d) && Unfinished(d, ids)
    requires RefsOf(d, ids) <= gone
    requires forall id :: id in d.items && id !in ids ==> !PointsInto(d.items[id], gone)
    ensures Inv(DropRefs(Release(d, ids, fail), gone))
  {
    ReleaseKeepsSound(d, ids, fail);
    ReleaseAccounts(d, ids, fail, gone);
    DropKeepsSound(Release(d, ids, fail), gone);
    DropKeepsAccounted(Release(d, ids, fail), gone);
  }

  lemma OpenOwnedRecorded(d: Db, p: nat)
    requires Sound(d)
    ensures RefsOf(d, OpenOwned(d, p)) <= Recorded(d, p) - d.promoted
    ensures forall id :: id in d.items && id !in OpenOwned(d, p) ==>
              !PointsInto(d.items[id], Recorded(d, p) - d.promoted)
  {
    forall r | r in RefsOf(d, OpenOwned(d, p)) ensures r in Recorded(d, p) - d.promoted {
      var id :| id in OpenOwned(d, p) && d.items[id].ref == Some(r);
      assert ItemSound(d, id) && id in OwnedItems(d, p);
    }
    forall id | id in d.items && id !in OpenOwned(d, p) ensures !PointsInto(d.items[id], Recorded(d, p) - d.promoted) {
      assert ItemSound(d, id);
      if PointsInto(d.items[id], Recorded(d, p)) {
        var other :| other in OwnedItems(d, p) && d.items[other].ref == d.items[id].ref;
        assert Apart(d, other, id) && ItemSound(d, other);
      }
    }
  }

  lemma CleanOwnedKeeps(d: Db, p: nat)
    requires Inv(d)
    ensures Inv(CleanOwned(d, p))
  {
    OpenOwnedRecorded(d, p);
    ReleaseAndDrop(d, OpenOwned(d, p), false, Recorded(d, p) - d.promoted);
    var e := DropRefs(Release(d, OpenOwned(d, p), false), Recorded(d, p) - d.promoted);
    DeleteKeeps(e, Idle(e, {p}));
    HandBackKeeps(DeleteRows(e, Idle(e, {p})), {p});
  }

  lemma NotHeldElsewhere(d: Db, stale: set<ItemId>, id: ItemId)
    requires ItemsSound(d) && id in stale && id in d.items && d.items[id].ref.Some?
    ensures d.items[id].ref.value !in HeldRefs(Release(d, stale, true))
  {
    var e := Release(d, stale, true);
    forall x | x in e.items && x != id ensures e.items[x].ref != d.items[id].ref {
      assert Apart(d, id, x);
    }
  }

  lemma ExpireItemsKeeps(d: Db, stale: set<ItemId>)
    requires Inv(d) && Unfinished(d, stale)
    ensures Inv(ExpireItems(d, stale))
  {
    var e := Release(d, stale, true);
    var gone := RefsOf(d, stale) - d.promoted - HeldRefs(e);
    forall r | r in RefsOf(d, stale) ensures r in gone {
      var id :| id in stale && d.items[id].ref == Some(r);
      assert ItemSound(d, id);
      NotHeldElsewhere(d, stale, id);
    }
    forall id | id in d.items && id !in stale ensures !PointsInto(d.items[id], gone) {
      forall other | other in stale ensures Apart(d, other, id) {
      }
    }
    ReleaseAndDrop(d, stale, true, gone);
  }

  lemma ExpireKeeps(d: Db, stale: set<ItemId>)
    requires Inv(d) && Unfinished(d, stale)
    ensures Inv(Expire(d, stale))
  {
    ExpireItemsKeeps(d, stale);
    var e := ExpireItems(d, stale);
    DeleteKeeps(e, IdleSkipped(e, OwnedRows(d, stale)));
    HandBackKeeps(DeleteRows(e, IdleSkipped(e, OwnedRows(d, stale))), OwnedRows(d, stale));
  }

  // ---------- Claiming a row and attaching to it ----------

  lemma NewRowKeeps(d: Db, k: PieceKey, skip: bool)
    requires Inv(d) && forall p :: !RowFor(d, p, k)
    ensures Inv(NewRow(d, k, skip))
  {
    var e := NewRow(d, k, skip);
    forall p, q | p in e.rows && q in e.rows && e.rows[p].cid == e.rows[q].cid && e.rows[p].padded == e.rows[q].padded
      ensures p == q
    {
      assert !RowFor(d, p, k) && !RowFor(d, q, k);
    }
    forall id | id in e.items ensures ItemSound(e, id) {
      assert ItemSound(d, id);
    }
    forall a, b | a in e.items && b in e.items ensures Agree(e, a, b) && Apart(e, a, b) {
      assert Agree(d, a, b) && Apart(d, a, b) && ItemSound(d, a);
    }
    forall r | r in e.refs && r !in e.foreign && r !in e.promoted ensures Held(e, r) {
      assert Held(d, r);
    }
  }

  /** What a claim guarantees: nobody else's unfinished items of this piece hang on the claimed row. */
  ghost predicate Claimed(c: Claim, k: PieceKey) {
    && Inv(c.db) && RowFor(c.db, c.row, k)
    && (c.created ==> forall r :: r in c.db.refs ==> c.db.refs[r] != c.row)
    && (!c.created ==> c.db.rows[c.row].complete || !PullOwned(c.db, c.row, k))
  }

  lemma ClaimsDirectlyKeeps(d: Db, k: PieceKey, c: Claim)
    requires Inv(d) && ClaimsDirectly(d, k, c)
    ensures Claimed(c, k)
  {
    if c.created {
      NewRowKeeps(d, k, true);
    }
  }

  /** After cleaning the stale row of a piece, none of its unfinished items still points anywhere. */
  lemma CleanedLetsGo(d: Db, p: nat, k: PieceKey, id: ItemId)
    requires Inv(d) && RowFor(d, p, k) && !d.rows[p].complete && PullOwned(d, p, k)
    requires id in d.items && !d.items[id].complete && KeyOf(id, d.items[id]) == k
    ensures id in CleanOwned(d, p).items && CleanOwned(d, p).items[id].ref.None?
  {
    var owner :| owner in d.items && d.items[owner].owned == Some(p) && KeyOf(owner, d.items[owner]) == k;
    assert ItemSound(d, owner) && Agree(d, owner, id);
    assert d.items[id].ref.Some? ==> id in OpenOwned(d, p);
    CleanedItem(d, p, id);
  }

  lemma CleanedNotOwned(d: Db, p: nat, k: PieceKey)
    requires Inv(d) && p in d.rows && !d.rows[p].complete
    ensures !PullOwned(CleanOwned(d, p), p, k)
  {
    CleanedSameIds(d, p);
    forall x | x in d.items ensures CleanOwned(d, p).items[x].owned != Some(p) {
      assert ItemSound(d, x);
      CleanedItem(d, p, x);
    }
  }

  lemma ClaimKeeps(d: Db, k: PieceKey, c: Claim, given: map<ItemId, nat>)
    requires Inv(d) && Claims(d, k, c) && Attachable(c, k, given)
    ensures Claimed(c, k)
    ensures forall id :: id in given ==> id in c.db.items && c.db.items[id].ref.None?
  {
    if c.cleaned {
      var p :| RowFor(d, p, k) && !d.rows[p].complete && PullOwned(d, p, k) && ClaimsDirectly(CleanOwned(d, p), k, c);
      CleanOwnedKeeps(d, p);
      ClaimsDirectlyKeeps(CleanOwned(d, p), k, c);
      forall id | id in given ensures c.db.items[id].ref.None? {
        ClaimedRowsOnly(CleanOwned(d, p), k, c);
        CleanedSameIds(d, p);
        CleanedItem(d, p, id);
        CleanedLetsGo(d, p, k, id);
      }
    } else {
      ClaimsDirectlyKeeps(d, k, c);
    }
  }

  ghost predicate Ready(c: Claim, k: PieceKey, given: map<ItemId, nat>) {
    && Claimed(c, k) && Fresh(c.db, given)
    && forall id :: id in given ==>
         id in c.db.items && Active(c.db.items[id]) && KeyOf(id, c.db.items[id]) == k && c.db.items[id].ref.None?
  }

  lemma AttachedItemSound(c: Claim, k: PieceKey, given: map<ItemId, nat>, id: ItemId)
    requires Ready(c, k, given) && id in c.db.items
    ensures ItemSound(Attach(c, given), id)
  {
    var d, e := c.db, Attach(c, given);
    assert ItemSound(d, id);
    if id in given {
      assert given[id] in given.Values;
    } else if d.items[id].ref.Some? {
      assert d.items[id].ref.value !in given.Values;
    }
  }

  lemma AttachedAgree(c: Claim, k: PieceKey, given: map<ItemId, nat>, a: ItemId, b: ItemId)
    requires Ready(c, k, given) && a in c.db.items && b in c.db.items
    ensures Agree(Attach(c, given), a, b)
  {
    assert Agree(c.db, a, b) && ItemSound(c.db, a) && ItemSound(c.db, b);
  }

  lemma AttachedApart(c: Claim, k: PieceKey, given: map<ItemId, nat>, a: ItemId, b: ItemId)
    requires Ready(c, k, given) && a in c.db.items && b in c.db.items
    ensures Apart(Attach(c, given), a, b)
  {
    assert Apart(c.db, a, b) && ItemSound(c.db, a) && ItemSound(c.db, b);
  }

  lemma AttachRows(c: Claim, k: PieceKey, given: map<ItemId, nat>)
    requires Ready(c, k, given)
    ensures Keyed(Attach(c, given)) && RowsSound(Attach(c, given))
  {
    var d, e := c.db, Attach(c, given);
    forall r | r in e.refs ensures r < e.nextRef && e.refs[r] in e.rows {
      if r in given.Values {
        var id :| id in given && given[id] == r;
      }
    }
  }

  lemma AttachItems(c: Claim, k: PieceKey, given: map<ItemId, nat>)
    requires Ready(c, k, given)
    ensures ItemsSound(Attach(c, given))
  {
    var d, e := c.db, Attach(c, given);
    assert e.items.Keys == d.items.Keys;
    forall id | id in e.items ensures ItemSound(e, id) {
      AttachedItemSound(c, k, given, id);
    }
    forall a, b | a in e.items && b in e.items ensures Agree(e, a, b) && Apart(e, a, b) {
      AttachedAgree(c, k, given, a, b);
      AttachedApart(c, k, given, a, b);
    }
  }

  lemma AttachAccounts(c: Claim, k: PieceKey, given: map<ItemId, nat>)
    requires Ready(c, k, given)
    ensures Accounted(Attach(c, given), {})
  {
    var d, e := c.db, Attach(c, given);
    forall r | r in e.refs && r !in e.foreign && r !in e.promoted ensures Held(e, r) {
      if r in given.Values {
        var id :| id in given && given[id] == r;
        assert e.items[id].ref == Some(r);
      } else {
        assert Held(d, r);
        var id :| id in d.items && d.items[id].ref == Some(r);
        assert e.items[id].ref == Some(r);
      }
    }
  }

  lemma PullKeeps(d: Db, k: PieceKey, c: Claim, given: map<ItemId, nat>)
    requires Inv(d) && Claims(d, k, c) && Fresh(c.db, given) && Attachable(c, k, given)
    ensures Inv(Attach(c, given))
  {
    ClaimKeeps(d, k, c, given);
    AttachRows(c, k, given);
    AttachItems(c, k, given);
    AttachAccounts(c, k, given);
  }

  // ---------- Completing, failing, and the rest ----------

  lemma CompletedItemSound(d: Db, id: ItemId, p: nat, x: ItemId)
    requires Inv(d) && id in d.items && Active(d.items[id]) && RowFor(d, p, KeyOf(id, d.items[id]))
      && d.rows[p].complete
    requires x in d.items
    ensures ItemSound(CompleteItem(d, id, p), x)
    ensures CompleteItem(d, id, p).items[x].ref == d.items[x].ref
      || (x == id && CompleteItem(d, id, p).items[x].ref == Some(d.nextRef))
  {
    assert ItemSound(d, id) && ItemSound(d, x) && Apart(d, id, x);
  }

  lemma CompleteKeepsSound(d: Db, id: ItemId, p: nat)
    requires Inv(d) && id in d.items && Active(d.items[id]) && RowFor(d, p, KeyOf(id, d.items[id]))
      && d.rows[p].complete
    ensures Sound(CompleteItem(d, id, p))
  {
    var e := CompleteItem(d, id, p);
    forall x | x in e.items ensures ItemSound(e, x) {
      CompletedItemSound(d, id, p, x);
    }
    forall a, b | a in e.items && b in e.items ensures Agree(e, a, b) && Apart(e, a, b) {
      assert Agree(d, a, b) && Apart(d, a, b) && ItemSound(d, a) && ItemSound(d, b);
    }
    assert ItemSound(d, id);
  }

  lemma CompleteKeeps(d: Db, id: ItemId, p: nat)
    requires Inv(d) && id in d.items && Active(d.items[id]) && RowFor(d, p, KeyOf(id, d.items[id]))
      && d.rows[p].complete
    ensures Inv(CompleteItem(d, id, p))
  {
    var e := CompleteItem(d, id, p);
    CompleteKeepsSound(d, id, p);
    forall r | r in e.refs && r !in e.foreign && r !in e.promoted ensures Held(e, r) {
      assert Held(d, r);
      var x :| x in d.items && d.items[x].ref == Some(r);
      assert e.items[x].ref == Some(r);
    }
  }

  lemma FailKeeps(d: Db, id: ItemId)
    requires Inv(d) && id in d.items && Active(d.items[id])
    ensures Inv(d.(items := d.items[id := d.items[id].(failed := true)]))
  {
    var e := d.(items := d.items[id := d.items[id].(failed := true)]);
    forall x | x in e.items ensures ItemSound(e, x) {
      assert ItemSound(d, x);
    }
    forall a, b | a in e.items && b in e.items ensures Agree(e, a, b) && Apart(e, a, b) {
      assert Agree(d, a, b) && Apart(d, a, b);
    }
    forall r | r in e.refs && r !in e.foreign && r !in e.promoted ensures Held(e, r) {
      assert Held(d, r);
      var x :| x in d.items && d.items[x].ref == Some(r);
      assert e.items[x].ref == Some(r);
    }
  }

  lemma CollectKeeps(d: Db, r: nat)
    requires Inv(d) && (r in d.promoted || r in d.foreign)
    ensures Inv(DropRefs(d, {r}))
  {
    forall id | id in d.items && PointsInto(d.items[id], {r}) ensures d.items[id].complete {
      assert ItemSound(d, id);
    }
    DropKeepsSound(d, {r});
    DropKeepsAccounted(d, {r});
  }

  lemma RowFinishKeeps(d: Db, p: nat)
    requires Inv(d) && p in d.rows
    ensures Inv(d.(rows := d.rows[p := d.rows[p].(complete := true)]))
  {
    var e := d.(rows := d.rows[p := d.rows[p].(complete := true)]);
    assert e.rows.Keys == d.rows.Keys;
    UnnoticedKeeps(d, e);
  }

  lemma ForeignRefKeeps(d: Db, p: nat)
    requires Inv(d) && p in d.rows
    ensures Inv(d.(refs := d.refs[d.nextRef := p], foreign := d.foreign + {d.nextRef}, nextRef := d.nextRef + 1))
  {
    UnnoticedKeeps(d, d.(refs := d.refs[d.nextRef := p], foreign := d.foreign + {d.nextRef}, nextRef := d.nextRef + 1));
  }

  lemma ForeignPromoteKeeps(d: Db, r: nat)
    requires Inv(d) && r in d.foreign
    ensures Inv(d.(promoted := d.promoted + {r}))
  {
    UnnoticedKeeps(d, d.(promoted := d.promoted + {r}));
  }

  lemma RefusedKeeps(d: Db, d': Db)
    requires Inv(d) && SameTables(d, d')
    ensures Inv(d')
  {
    forall id | id in d'.items ensures ItemSound(d', id) {
      assert ItemSound(d, id);
    }
    forall a, b | a in d'.items && b in d'.items ensures Agree(d', a, b) && Apart(d', a, b) {
      assert Agree(d, a, b) && Apart(d, a, b);
    }
    forall r | r in d'.refs && r !in d'.foreign && r !in d'.promoted ensures Held(d', r) {
      assert Held(d, r);
    }
  }

  lemma AdmittedItems(d: Db, d': Db, id: nat, pieces: seq<Piece>)
    requires Inv(d) && d' == d.(pulls := d'.pulls, items := d'.items, nextPull := d'.nextPull)
    requires ItemsAdded(d.items, d'.items, id, pieces)
    ensures ItemsSound(d') && Accounted(d', {})
  {
    forall id | id in d'.items ensures ItemSound(d', id) {
      if id in d.items { assert ItemSound(d, id); }
    }
    forall a, b | a in d'.items && b in d'.items ensures Agree(d', a, b) && Apart(d', a, b) {
      if a in d.items && b in d.items { assert Agree(d, a, b) && Apart(d, a, b); }
    }
    forall r | r in d'.refs && r !in d'.foreign && r !in d'.promoted ensures Held(d', r) {
      assert Held(d, r);
      var x :| x in d.items && d.items[x].ref == Some(r);
      assert d'.items[x].ref == Some(r);
    }
  }

  lemma CreateKeeps(d: Db, key: PullKey, client: string, pieces: seq<Piece>, now: int, d': Db, r: CreateResult)
    requires Inv(d) && CreateSpec(d, key, client, pieces, now, d', r)
    ensures Inv(d')
  {
    if r.Admitted? {
      AdmittedItems(d, d', r.id, pieces);
    } else {
      RefusedKeeps(d, d');
    }
  }

  // ---------- The five-day cleanup ----------

  lemma SweptItems(d: Db, now: int, e: Db)
    requires Inv(d) && SweepSpec(d, now, e)
    ensures ItemsSound(e)
  {
    forall id | id in e.items ensures ItemSound(e, id) {
      assert ItemSound(d, id);
      if e.items[id].ref.Some? {
        assert Live(d, id, now);
        assert HeldSince(d, e.items[id].ref.value, now);
      }
    }
    forall a, b | a in e.items && b in e.items ensures Agree(e, a, b) && Apart(e, a, b) {
      assert Agree(d, a, b) && Apart(d, a, b);
    }
  }

  lemma ForeignNotHeld(d: Db, r: nat)
    requires Inv(d) && r in d.foreign
    ensures forall x :: x in d.items ==> d.items[x].ref != Some(r)
  {
    forall x | x in d.items ensures d.items[x].ref != Some(r) {
      assert ItemSound(d, x);
    }
  }

  lemma SweepKeeps(d: Db, now: int, e: Db)
    requires Inv(d) && SweepSpec(d, now, e)
    ensures Inv(e)
  {
    SweptItems(d, now, e);
    forall r | r in d.foreign ensures r in e.refs {
      ForeignNotHeld(d, r);
    }
    forall r | r in e.refs && r !in e.foreign && r !in e.promoted ensures Held(e, r) {
      assert Held(d, r);
      var x :| x in d.items && d.items[x].ref == Some(r);
      assert Old(d, x, now) || Live(d, x, now);
      assert HeldSince(d, r, now);
      var y :| y in d.items && d.items[y].ref == Some(r) && Live(d, y, now);
      assert e.items[y].ref == Some(r);
    }
  }

  // ---------- Every run ----------

  lemma StepKeeps(d: Db, s: Step, d': Db)
    requires Inv(d) && Next(d, s, d')
    ensures Inv(d')
  {
    match s
    case Create(key, client, pieces, now, r) => CreateKeeps(d, key, client, pieces, now, d', r);
    case Pulls(k, c, given) => PullKeeps(d, k, c, given);
    case CleansOwned(p) => CleanOwnedKeeps(d, p);
    case Completes(id, p) => CompleteKeeps(d, id, p);
    case Fails(id) => FailKeeps(d, id);
    case Expires(stale) => ExpireKeeps(d, stale);
    case Sweeps(now) => FiveDaySweeps(d, now); SweepKeeps(d, now, d');
    case Collects(r) => CollectKeeps(d, r);
    case RowArrives(k, skip) => NewRowKeeps(d, k, skip);
    case RowFinishes(p) => RowFinishKeeps(d, p);
    case RowLeaves(p) => DeleteKeeps(d, {p});
    case ForeignRef(p) => ForeignRefKeeps(d, p);
    case ForeignPromote(r) => ForeignPromoteKeeps(d, r);
    case ForeignDrop(r) => CollectKeeps(d, r);
  }

  lemma {:induction false} RunKeeps(states: seq<Db>, steps: seq<Step>, n: nat)
    requires Run(states, steps) && n < |states|
    ensures Inv(states[n])
  {
    if n > 0 {
      RunKeeps(states, steps, n - 1);
      assert Goes(states, steps, n - 1);
      StepKeeps(states[n - 1], steps[n - 1], states[n]);
    }
  }

  /** In every run: a pull's refs never leak.  Each ref not made by another subsystem is held by
      exactly one pull item or is promoted, and every pointer points at a ref that exists. */
  lemma NoRefLeaks(states: seq<Db>, steps: seq<Step>, n: nat, r: nat)
    requires Run(states, steps) && n < |states|
    requires r in states[n].refs && r !in states[n].foreign && r !in states[n].promoted
    ensures var items := states[n].items;
      && (exists id :: id in items && items[id].ref == Some(r) && !items[id].complete)
      && (forall a, b :: a in items && b in items && items[a].ref == items[b].ref == Some(r) ==> a == b)
  {
    var d := states[n];
    RunKeeps(states, steps, n);
    assert Held(d, r);
    var id :| id in d.items && d.items[id].ref == Some(r);
    assert ItemSound(d, id);
    forall a, b | a in d.items && b in d.items && d.items[a].ref == d.items[b].ref == Some(r) ensures a == b {
      assert Apart(d, a, b);
    }
  }

  /** In every run no foreign key dangles: refs point at rows, piecerefs at refs, items at pulls, and
      an item's two pointers at a ref and at a row. */
  lemma NoDanglingPointer(states: seq<Db>, steps: seq<Step>, n: nat)
    requires Run(states, steps) && n < |states|
    ensures var d := states[n];
      && d.promoted <= d.refs.Keys && d.refs.Values <= d.rows.Keys
      && forall id :: id in d.items ==>
           && id.fetchId in d.pulls
           && (d.items[id].ref.Some? ==> d.items[id].ref.value in d.refs)
           && (d.items[id].owned.Some? ==> d.items[id].owned.value in d.rows)
  {
    var d := states[n];
    RunKeeps(states, steps, n);
    forall id | id in d.items
      ensures d.items[id].ref.Some? ==> d.items[id].ref.value in d.refs
      ensures d.items[id].owned.Some? ==> d.items[id].owned.value in d.rows
    {
      assert ItemSound(d, id);
    }
  }

  /** Completing an item never violates the uniqueness of pdp_piecerefs.piece_ref. */
  lemma PromotionNeverCollides(states: seq<Db>, steps: seq<Step>, n: nat, id: ItemId)
    requires Run(states, steps) && n < |states| && id in states[n].items && Active(states[n].items[id])
    ensures var it := states[n].items[id];
      if it.ref.Some? then it.ref.value !in states[n].promoted else states[n].nextRef !in states[n].refs
  {
    RunKeeps(states, steps, n);
    assert ItemSound(states[n], id);
  }

  /** A retry that first cleans a stale row finds every item of the piece detached, so the refs it
      attaches overwrite no pointer, and the cleaned row is not still pull-owned. */
  lemma RetryOverwritesNothing(states: seq<Db>, steps: seq<Step>, n: nat, k: PieceKey, p: nat, id: ItemId)
    requires Run(states, steps) && n < |states|
    requires RowFor(states[n], p, k) && !states[n].rows[p].complete && PullOwned(states[n], p, k)
    requires id in states[n].items && !states[n].items[id].complete && KeyOf(id, states[n].items[id]) == k
    ensures CleanOwned(states[n], p).items[id].ref.None?
    ensures !PullOwned(CleanOwned(states[n], p), p, k)
  {
    var d := states[n];
    RunKeeps(states, steps, n);
    CleanedLetsGo(d, p, k, id);
    CleanedNotOwned(d, p, k);
  }

  /** At most one pull per idempotency key, ever. */
  lemma OnePullPerKey(states: seq<Db>, steps: seq<Step>, n: nat, a: nat, b: nat)
    requires Run(states, steps) && n < |states|
    requires a in states[n].pulls && b in states[n].pulls && states[n].pulls[a].key == states[n].pulls[b].key
    ensures a == b
  {
    RunKeeps(states, steps, n);
  }
}
