/** What the PullPiece transactions achieve in sound tables: exactly the intended items and refs
    change, and nothing made by other subsystems is touched. */
module PullEffects {
  import opened Basics
  import opened PullLedger
  import opened PullProtocol
  import opened PullRefs
  import opened PieceSizes

  /** The refs recorded on a pull-owned row and not promoted are those of its unfinished items. */
  lemma RecordedAreOpen(d: Db, p: nat)
    requires Inv(d)
    ensures Recorded(d, p) - d.promoted == RefsOf(d, OpenOwned(d, p))
  {
    OpenOwnedRecorded(d, p);
    forall r | r in Recorded(d, p) - d.promoted ensures r in RefsOf(d, OpenOwned(d, p)) {
      var id :| id in OwnedItems(d, p) && d.items[id].ref == Some(r);
      assert ItemSound(d, id);
      assert id in OpenOwned(d, p);
    }
  }

  /** The refs of unfinished items were made for pulls and are not promoted. */
  lemma OpenRefsAreOurs(d: Db, ids: set<ItemId>)
    requires Inv(d) && Unfinished(d, ids)
    ensures RefsOf(d, ids) !! d.promoted && RefsOf(d, ids) !! d.foreign && RefsOf(d, ids) <= d.refs.Keys
  {
    forall r | r in RefsOf(d, ids) ensures r !in d.promoted && r !in d.foreign && r in d.refs {
      var id :| id in ids && d.items[id].ref == Some(r);
      assert ItemSound(d, id);
    }
  }

  predicate HeldAmong(d: Db, ids: set<ItemId>, r: nat) {
    exists id :: id in ids && id in d.items && d.items[id].ref == Some(r)
  }

  /** Exactly these items let go of their refs and of the row made for them, and with `fail` end as
      failed; exactly the refs they held are gone.  Nothing else changes but rows. */
  ghost predicate LetGo(d: Db, ids: set<ItemId>, fail: bool, e: Db) {
    && e == d.(items := e.items, rows := e.rows, refs := e.refs) && e.items.Keys == d.items.Keys
    && (forall id :: id in d.items ==>
          e.items[id] == if id !in ids then d.items[id]
                         else d.items[id].(ref := None, owned := None, failed := fail || d.items[id].failed))
    && (forall r :: r in e.refs <==> r in d.refs && !HeldAmong(d, ids, r))
    && (forall r :: r in e.refs ==> e.refs[r] == d.refs[r])
  }

  lemma OthersPointElsewhere(d: Db, ids: set<ItemId>, id: ItemId)
    requires Inv(d) && Unfinished(d, ids) && id in d.items && id !in ids
    ensures !PointsInto(d.items[id], RefsOf(d, ids))
  {
    forall other | other in ids ensures Apart(d, other, id) {
    }
  }

  lemma ReleasedLetGo(d: Db, ids: set<ItemId>, fail: bool)
    requires Inv(d) && Unfinished(d, ids)
    ensures LetGo(d, ids, fail, DropRefs(Release(d, ids, fail), RefsOf(d, ids)))
  {
    OpenRefsAreOurs(d, ids);
    forall id | id in d.items && id !in ids ensures !PointsInto(d.items[id], RefsOf(d, ids)) {
      OthersPointElsewhere(d, ids, id);
    }
  }

  /** An unfinished row nothing refers to is nobody's: deleting it changes no item. */
  lemma DeletedUnnoticed(d: Db, gone: set<nat>)
    requires Inv(d) && forall p :: p in gone ==> p in d.rows && !d.rows[p].complete && !RowOccupied(d, p)
    ensures DeleteRows(d, gone).items == d.items
  {
    forall id | id in d.items ensures DeleteRows(d, gone).items[id] == d.items[id] {
      assert ItemSound(d, id);
      DeleteKeepsItem(d, gone, id);
    }
  }

  /** What becomes of row p: an unfinished one of ps is handed back to ParkPiece if something refers
      to it, and otherwise deleted if it was kept from ParkPiece or `all` are.  Any other row stays. */
  ghost predicate SettledRow(before: map<nat, Row>, ps: set<nat>, all: bool, e: Db, p: nat)
    requires p in before
  {
    if p in ps && !before[p].complete && !RowOccupied(e, p) && (all || before[p].skip) then p !in e.rows
    else
      && p in e.rows
      && e.rows[p] == if p in ps && !before[p].complete && RowOccupied(e, p) then before[p].(skip := false)
                      else before[p]
  }

  ghost predicate RowsSettled(before: map<nat, Row>, ps: set<nat>, all: bool, e: Db) {
    e.rows.Keys <= before.Keys && forall p :: p in before ==> SettledRow(before, ps, all, e, p)
  }

  /** The rows to delete among ps. */
  function ToDelete(d: Db, ps: set<nat>, all: bool): set<nat> {
    if all then Idle(d, ps) else IdleSkipped(d, ps)
  }

  lemma SettlesRow(d: Db, ps: set<nat>, all: bool, p: nat)
    requires p in d.rows
    ensures SettledRow(d.rows, ps, all, HandBack(DeleteRows(d, ToDelete(d, ps, all)), ps), p)
  {
    assert HandBack(DeleteRows(d, ToDelete(d, ps, all)), ps).refs == d.refs;
  }

  lemma SettlingSettles(d: Db, ps: set<nat>, all: bool)
    requires Inv(d)
    ensures var e := HandBack(DeleteRows(d, ToDelete(d, ps, all)), ps);
      e == d.(rows := e.rows) && RowsSettled(d.rows, ps, all, e)
  {
    DeletedUnnoticed(d, ToDelete(d, ps, all));
    forall p | p in d.rows ensures SettledRow(d.rows, ps, all, HandBack(DeleteRows(d, ToDelete(d, ps, all)), ps), p) {
      SettlesRow(d, ps, all, p);
    }
  }

  lemma LetGoKeptByRows(d: Db, ids: set<ItemId>, fail: bool, e: Db, rows: map<nat, Row>)
    requires LetGo(d, ids, fail, e)
    ensures LetGo(d, ids, fail, e.(rows := rows))
  {
  }

  /** Cleaning a pull-owned row detaches exactly the unfinished items hung on it and deletes exactly
      their refs; refs of other subsystems and promoted ones stay.  An unfinished row goes if nothing
      refers to it, and is handed back to ParkPiece otherwise. */
  lemma CleaningIsExact(d: Db, p: nat)
    requires Inv(d)
    ensures LetGo(d, set id | id in d.items && !d.items[id].complete && d.items[id].owned == Some(p), false,
                  CleanOwned(d, p))
    ensures RowsSettled(d.rows, {p}, true, CleanOwned(d, p))
  {
    RecordedAreOpen(d, p);
    var ids := OpenOwned(d, p);
    var e := DropRefs(Release(d, ids, false), RefsOf(d, ids));
    ReleasedLetGo(d, ids, false);
    OpenOwnedRecorded(d, p);
    ReleaseAndDrop(d, ids, false, RefsOf(d, ids));
    SettlingSettles(e, {p}, true);
    LetGoKeptByRows(d, ids, false, e, CleanOwned(d, p).rows);
  }

  /** The refs an expiry deletes are exactly those of the expired items. */
  lemma ExpiredRefs(d: Db, stale: set<ItemId>)
    requires Inv(d) && Unfinished(d, stale)
    ensures RefsOf(d, stale) - d.promoted - HeldRefs(Release(d, stale, true)) == RefsOf(d, stale)
  {
    OpenRefsAreOurs(d, stale);
    forall r | r in RefsOf(d, stale) ensures r !in HeldRefs(Release(d, stale, true)) {
      var id :| id in stale && d.items[id].ref == Some(r);
      NotHeldElsewhere(d, stale, id);
    }
  }

  lemma ExpiredItems(d: Db, stale: set<ItemId>)
    requires Inv(d) && Unfinished(d, stale)
    ensures var e := ExpireItems(d, stale); Inv(e) && LetGo(d, stale, true, e) && e.rows == d.rows
  {
    ExpiredRefs(d, stale);
    ExpireItemsKeeps(d, stale);
    ReleasedLetGo(d, stale, true);
  }

  /** Expiry fails exactly the stale items, deletes exactly their refs, and leaves none of the rows
      PullPiece created for them both unfinished and kept from ParkPiece. */
  lemma ExpiryIsExact(d: Db, stale: set<ItemId>)
    requires Inv(d) && Unfinished(d, stale)
    ensures LetGo(d, stale, true, Expire(d, stale))
    ensures RowsSettled(d.rows, set p | p in d.rows && exists id :: id in stale && d.items[id].owned == Some(p), false,
                        Expire(d, stale))
  {
    var e, ps := ExpireItems(d, stale), OwnedRows(d, stale);
    ExpiredItems(d, stale);
    SettlingSettles(e, ps, false);
    LetGoKeptByRows(d, stale, true, e, Expire(d, stale).rows);
  }

  // ---------- Claiming and attaching ----------

  /** A claim creates a row for the piece, unfinished and kept from ParkPiece, exactly when there is
      none; nothing else changes. */
  lemma DirectClaimIsExact(d: Db, k: PieceKey, c: Claim)
    requires Inv(d) && ClaimsDirectly(d, k, c)
    ensures c.created <==> forall p :: !RowFor(d, p, k)
    ensures c.created ==>
      && c.row !in d.rows && c.db.rows == d.rows[c.row := Row(k.cid, Padded(k.rawSize), false, true)]
      && c.db == d.(rows := c.db.rows, nextRow := c.row + 1)
    ensures !c.created ==> RowFor(d, c.row, k) && c.db == d
  {
  }

  /** The chosen items get their new refs and, when the row was created for them, the row; no other
      item changes. */
  ghost predicate ItemsAttached(c: Claim, given: map<ItemId, nat>, e: Db) {
    && e.items.Keys == c.db.items.Keys
    && (forall id :: id in c.db.items && id !in given ==> e.items[id] == c.db.items[id])
    && (forall id :: id in given ==>
          && id in c.db.items
          && e.items[id] == c.db.items[id].(ref := Some(given[id]), owned := if c.created then Some(c.row) else None))
  }

  /** The new refs are exactly those given out, all to the claimed row. */
  ghost predicate RefsAttached(c: Claim, given: map<ItemId, nat>, e: Db) {
    && (forall r :: r in e.refs <==> r in c.db.refs || r in given.Values)
    && (forall r :: r in e.refs ==> e.refs[r] == if r in given.Values then c.row else c.db.refs[r])
    && given.Values !! c.db.refs.Keys
  }

  /** What attaching does after a claim: nothing but that. */
  ghost predicate Attached(c: Claim, given: map<ItemId, nat>, e: Db) {
    && e == c.db.(items := e.items, refs := e.refs, nextRef := e.nextRef)
    && ItemsAttached(c, given, e) && RefsAttached(c, given, e)
  }

  lemma UnattachedUnowned(c: Claim, k: PieceKey, given: map<ItemId, nat>, id: ItemId)
    requires Ready(c, k, given) && id in given
    ensures c.db.items[id].owned == None
  {
    assert ItemSound(c.db, id);
  }

  lemma AttachesItems(c: Claim, k: PieceKey, given: map<ItemId, nat>)
    requires Ready(c, k, given)
    ensures ItemsAttached(c, given, Attach(c, given))
  {
    forall id | id in given ensures c.db.items[id].owned == None {
      UnattachedUnowned(c, k, given, id);
    }
  }

  lemma AttachesRefs(c: Claim, k: PieceKey, given: map<ItemId, nat>)
    requires Ready(c, k, given)
    ensures RefsAttached(c, given, Attach(c, given))
  {
    forall r | r in given.Values ensures r !in c.db.refs {
      var id :| id in given && given[id] == r;
    }
  }

  lemma PullAttaches(d: Db, k: PieceKey, c: Claim, given: map<ItemId, nat>)
    requires Inv(d) && Claims(d, k, c) && Fresh(c.db, given) && Attachable(c, k, given)
    ensures Attached(c, given, Attach(c, given))
  {
    ClaimKeeps(d, k, c, given);
    AttachesItems(c, k, given);
    AttachesRefs(c, k, given);
  }

  lemma CreatedIsNew(d: Db, k: PieceKey, c: Claim)
    requires Inv(d) && Claims(d, k, c) && c.created
    ensures c.row !in d.rows && c.row in c.db.rows && !c.db.rows[c.row].complete && c.db.rows[c.row].skip
  {
    if c.cleaned {
      var p :| RowFor(d, p, k) && !d.rows[p].complete && PullOwned(d, p, k) && ClaimsDirectly(CleanOwned(d, p), k, c);
      CleanedRow(d, p, c.row);
    }
  }

  lemma ClaimKeepsItemFlags(d: Db, k: PieceKey, c: Claim, id: ItemId)
    requires Claims(d, k, c) && id in d.items
    ensures id in c.db.items && c.db.items[id].complete == d.items[id].complete
    ensures c.db.items[id].failed == d.items[id].failed
  {
    if c.cleaned {
      var p :| RowFor(d, p, k) && !d.rows[p].complete && PullOwned(d, p, k) && ClaimsDirectly(CleanOwned(d, p), k, c);
      CleanedItem(d, p, id);
      ClaimedRowsOnly(CleanOwned(d, p), k, c);
    } else {
      ClaimedRowsOnly(d, k, c);
    }
  }

  /** In any run, PullPiece changes exactly the items it chooses.  Each ends up with a ref that did not
      exist before, that points at the row of its piece, and that no other item holds; and with that
      row as its own, new, unfinished and kept from ParkPiece, exactly when the task created it. */
  lemma PullGivesOwnRef(states: seq<Db>, steps: seq<Step>, n: nat, id: ItemId)
    requires Run(states, steps) && n < |steps| && steps[n].Pulls? && id in steps[n].given
    ensures var d, e, r, c := states[n], states[n + 1], steps[n].given[id], steps[n].claim;
      && id in d.items && id in e.items && e.items[id].ref == Some(r)
      && r !in d.refs && r in e.refs && e.refs[r] == c.row && RowFor(e, c.row, KeyOf(id, e.items[id]))
      && (forall x :: x in e.items && e.items[x].ref == Some(r) ==> x == id)
      && e.items[id].owned == (if c.created then Some(c.row) else None)
      && (c.created ==> c.row !in d.rows && !e.rows[c.row].complete && e.rows[c.row].skip)
      && Attached(c, steps[n].given, e)
  {
    var d, e, s := states[n], states[n + 1], steps[n];
    RunKeeps(states, steps, n);
    RunKeeps(states, steps, n + 1);
    assert Goes(states, steps, n);
    ClaimKeepsRefs(d, s.k, s.claim);
    PullAttaches(d, s.k, s.claim, s.given);
    if s.claim.created {
      CreatedIsNew(d, s.k, s.claim);
    }
    assert ItemSound(e, id);
    forall x | x in e.items && e.items[x].ref == Some(s.given[id]) ensures x == id {
      assert Apart(e, x, id);
    }
  }

  // ---------- Finishing ----------

  /** A completed item ends up holding a newly promoted ref to the complete row of its piece: the one
      it had, or else a new one.  No other item, ref or row changes. */
  lemma CompletionServes(d: Db, id: ItemId, p: nat)
    requires Inv(d) && id in d.items && Active(d.items[id]) && RowFor(d, p, KeyOf(id, d.items[id]))
      && d.rows[p].complete
    ensures var e := CompleteItem(d, id, p); var it := e.items[id];
      && e == d.(items := d.items[id := it], refs := e.refs, promoted := e.promoted, nextRef := e.nextRef)
      && it == d.items[id].(complete := true, ref := it.ref) && it.ref.Some?
      && (if d.items[id].ref.Some? then it.ref == d.items[id].ref && e.refs == d.refs
          else it.ref.value !in d.refs && e.refs == d.refs[it.ref.value := p])
      && it.ref.value in e.refs && e.refs[it.ref.value] == p
      && it.ref.value !in d.promoted && e.promoted == d.promoted + {it.ref.value}
  {
    assert ItemSound(d, id);
  }

  /** Collecting a promoted ref removes it, its promotion and the pointers to it, and nothing else. */
  lemma CollectionIsExact(d: Db, r: nat, e: Db)
    requires Next(d, Collects(r), e)
    ensures e == d.(items := e.items, refs := d.refs - {r}, promoted := d.promoted - {r}, foreign := d.foreign - {r})
    ensures e.items.Keys == d.items.Keys
    ensures forall id :: id in d.items ==>
      e.items[id] == if d.items[id].ref == Some(r) then d.items[id].(ref := None) else d.items[id]
  {
  }

  /** The step's share in an item's flags: the one way to complete, and the two ways to fail. */
  ghost predicate FlagsMoved(d: Db, s: Step, d': Db, id: ItemId)
    requires id in d.items && id in d'.items
  {
    && (d'.items[id].complete <==> d.items[id].complete || (s.Completes? && s.id == id))
    && (d'.items[id].failed <==>
          d.items[id].failed || (s.Fails? && s.id == id) || (s.Expires? && id in s.stale))
  }

  lemma PullMovesNoFlag(d: Db, s: Step, d': Db, id: ItemId)
    requires Inv(d) && Next(d, s, d') && s.Pulls? && id in d.items && id in d'.items
    ensures FlagsMoved(d, s, d', id)
  {
    PullAttaches(d, s.k, s.claim, s.given);
    ClaimKeepsItemFlags(d, s.k, s.claim, id);
  }

  lemma ExpiryMovesFlags(d: Db, s: Step, d': Db, id: ItemId)
    requires Inv(d) && Next(d, s, d') && s.Expires? && id in d.items && id in d'.items
    ensures FlagsMoved(d, s, d', id)
  {
    ExpiryIsExact(d, s.stale);
  }

  lemma SweepMovesNoFlag(d: Db, s: Step, d': Db, id: ItemId)
    requires Inv(d) && Next(d, s, d') && s.Sweeps? && id in d.items && id in d'.items
    ensures FlagsMoved(d, s, d', id)
  {
    FiveDaySweeps(d, s.now);
  }

  lemma PlainFlags(d: Db, s: Step, d': Db, id: ItemId)
    requires Next(d, s, d') && !s.Pulls? && !s.Expires? && !s.Sweeps? && !s.CleansOwned?
      && id in d.items && id in d'.items
    ensures FlagsMoved(d, s, d', id)
  {
  }

  /** In any run, an item becomes complete only by completing it, and fails only by a permanent
      failure or by expiry; and each of them has that effect. */
  lemma FlagsMoveOnlyBy(states: seq<Db>, steps: seq<Step>, n: nat, id: ItemId)
    requires Run(states, steps) && n < |steps| && id in states[n].items && id in states[n + 1].items
    ensures FlagsMoved(states[n], steps[n], states[n + 1], id)
  {
    var d, s, d' := states[n], steps[n], states[n + 1];
    RunKeeps(states, steps, n);
    assert Goes(states, steps, n);
    match s
    case Pulls(_, _, _) => PullMovesNoFlag(d, s, d', id);
    case CleansOwned(p) => CleanedItem(d, p, id);
    case Expires(_) => ExpiryMovesFlags(d, s, d', id);
    case Sweeps(_) => SweepMovesNoFlag(d, s, d', id);
    case _ => PlainFlags(d, s, d', id);
  }

  /** A permanent failure leaves the item's ref in place and changes nothing else. */
  lemma FailureIsExact(states: seq<Db>, steps: seq<Step>, n: nat)
    requires Run(states, steps) && n < |steps| && steps[n].Fails?
    ensures var d, e, id := states[n], states[n + 1], steps[n].id;
      id in d.items && e == d.(items := d.items[id := d.items[id].(failed := true)])
  {
    assert Goes(states, steps, n);
  }
}
