/** Everything that moves in the pull tables: admission, the PullPiece task with its retries and
    expiries, the five-day cleanup, piece collection, and other subsystems sharing parked rows.
    Each step is one database transaction. */
module PullProtocol {
  import opened Basics
  import opened PullLedger
  import opened PieceSizes

  // ---------- Pieces of transactions ----------

  function Cleared(it: Item): Item {
    it.(ref := None, owned := None)
  }

  predicate RowOccupied(d: Db, p: nat) {
    exists r :: r in d.refs && d.refs[r] == p
  }

  // ---------- PullPiece ----------

  predicate PullOwned(d: Db, p: nat, k: PieceKey) {
    exists id :: id in d.items && d.items[id].owned == Some(p) && KeyOf(id, d.items[id]) == k
  }

  function OwnedItems(d: Db, p: nat): set<ItemId> {
    set id | id in d.items && d.items[id].owned == Some(p)
  }

  function OpenOwned(d: Db, p: nat): set<ItemId> {
    set id | id in d.items && !d.items[id].complete && d.items[id].owned == Some(p)
  }

  /** Refs to the row recorded on items PullPiece attached to it. */
  function Recorded(d: Db, p: nat): set<nat> {
    set r | r in RefsOf(d, OwnedItems(d, p)) && r in d.refs && d.refs[r] == p
  }

  /** The chosen items let go of their refs; with `fail` they also end as failed. */
  function Release(d: Db, ids: set<ItemId>, fail: bool): Db {
    d.(items := map id | id in d.items ::
      if id in ids then Cleared(d.items[id]).(failed := fail || d.items[id].failed) else d.items[id])
  }

  predicate OwnedIn(it: Item, ps: set<nat>) {
    it.owned.Some? && it.owned.value in ps
  }

  /** Deleting rows nulls the owner marks that point at them. */
  function DeleteRows(d: Db, gone: set<nat>): Db {
    d.(rows := d.rows - gone,
       items := map id | id in d.items ::
         if OwnedIn(d.items[id], gone) then d.items[id].(owned := None) else d.items[id])
  }

  /** Of these rows, the unfinished ones nothing refers to. */
  function Idle(d: Db, ps: set<nat>): set<nat> {
    set p | p in ps && p in d.rows && !d.rows[p].complete && !RowOccupied(d, p)
  }

  /** Of these rows, the unfinished ones something still refers to become ParkPiece's to finish. */
  function HandBack(d: Db, ps: set<nat>): Db {
    d.(rows := map p | p in d.rows ::
      if p in ps && !d.rows[p].complete && RowOccupied(d, p) then d.rows[p].(skip := false) else d.rows[p])
  }

  /** cleanupPullCreatedParkedPieceTx: detach the items PullPiece attached to its own row, delete
      the refs recorded there unless promoted, and then the row itself if nothing refers to it;
      otherwise hand it back to ParkPiece. */
  function CleanOwned(d: Db, p: nat): Db {
    var e := DropRefs(Release(d, OpenOwned(d, p), false), Recorded(d, p) - d.promoted);
    HandBack(DeleteRows(e, Idle(e, {p})), {p})
  }

  predicate RowFor(d: Db, p: nat, k: PieceKey) {
    p in d.rows && d.rows[p].cid == k.cid && d.rows[p].padded == Padded(k.rawSize)
  }

  /** A claim on the parked row of a piece: which row, whether this task created it, whether a
      stale pull-owned row was cleaned first. */
  datatype Claim = Claim(db: Db, row: nat, created: bool, cleaned: bool)

  function NewRow(d: Db, k: PieceKey, skip: bool): Db {
    d.(rows := d.rows[d.nextRow := Row(k.cid, Padded(k.rawSize), false, skip)], nextRow := d.nextRow + 1)
  }

  ghost predicate ClaimsDirectly(d: Db, k: PieceKey, c: Claim) {
    if c.created then
      (forall p :: !RowFor(d, p, k)) && c.row == d.nextRow && c.db == NewRow(d, k, true)
    else
      RowFor(d, c.row, k) && (d.rows[c.row].complete || !PullOwned(d, c.row, k)) && c.db == d
  }

  ghost predicate Claims(d: Db, k: PieceKey, c: Claim) {
    if c.cleaned then
      exists p :: RowFor(d, p, k) && !d.rows[p].complete && PullOwned(d, p, k)
        && ClaimsDirectly(CleanOwned(d, p), k, c)
    else
      ClaimsDirectly(d, k, c)
  }

  /** Every chosen item gets its own fresh ref to the claimed row. */
  function Attach(c: Claim, given: map<ItemId, nat>): Db {
    var d := c.db;
    d.(refs := d.refs + (map r | r in given.Values :: c.row),
       items := map id | id in d.items ::
         if id !in given then d.items[id]
         else
           d.items[id].(ref := Some(given[id]), owned := if c.created then Some(c.row) else d.items[id].owned),
       nextRef := d.nextRef + |given|)
  }

  /** Ids handed out by the ref sequence: distinct and next in line. */
  predicate Fresh(d: Db, given: map<ItemId, nat>) {
    && (forall id :: id in given ==> d.nextRef <= given[id] < d.nextRef + |given|)
    && (forall a, b :: a in given && b in given && a != b ==> given[a] != given[b])
  }

  predicate Attachable(c: Claim, k: PieceKey, given: map<ItemId, nat>) {
    forall id :: id in given ==>
      && id in c.db.items && Active(c.db.items[id]) && KeyOf(id, c.db.items[id]) == k
      && (c.db.items[id].ref.None? || c.cleaned)
  }

  /** completePullItemWithParkedPiece. */
  function CompleteItem(d: Db, id: ItemId, p: nat): Db
    requires id in d.items
  {
    var it := d.items[id];
    if it.ref.Some? then
      d.(items := d.items[id := it.(complete := true)], promoted := d.promoted + {it.ref.value})
    else
      d.(items := d.items[id := it.(complete := true, ref := Some(d.nextRef))],
         refs := d.refs[d.nextRef := p], promoted := d.promoted + {d.nextRef}, nextRef := d.nextRef + 1)
  }

  function HeldRefs(d: Db): set<nat> {
    RefsOf(d, set id | id in d.items && Active(d.items[id]))
  }

  /** Rows PullPiece created for some of these items. */
  function OwnedRows(d: Db, ids: set<ItemId>): set<nat> {
    set id | id in ids && id in d.items && d.items[id].owned.Some? :: d.items[id].owned.value
  }

  /** The skipped ones among the idle rows. */
  function IdleSkipped(d: Db, ps: set<nat>): set<nat> {
    set p | p in Idle(d, ps) && d.rows[p].skip
  }

  /** The chosen items end as failed and let go of their refs, which are deleted unless promoted or
      attached to an active item. */
  function ExpireItems(d: Db, stale: set<ItemId>): Db {
    var e := Release(d, stale, true);
    DropRefs(e, RefsOf(d, stale) - d.promoted - HeldRefs(e))
  }

  /** expireStalePullItems: fail the unfinished items and release their refs; then delete the rows
      PullPiece created for them where nothing refers to them, and hand back the others. */
  function Expire(d: Db, stale: set<ItemId>): Db {
    var e := ExpireItems(d, stale);
    HandBack(DeleteRows(e, IdleSkipped(e, OwnedRows(d, stale))), OwnedRows(d, stale))
  }

  // ---------- Steps and runs ----------

  datatype Step =
    | Create(key: PullKey, client: string, pieces: seq<Piece>, now: int, result: CreateResult)
    | Pulls(k: PieceKey, claim: Claim, given: map<ItemId, nat>)
    | CleansOwned(row: nat)
    | Completes(id: ItemId, row: nat)
    | Fails(id: ItemId)
    | Expires(stale: set<ItemId>)
    | Sweeps(now: int)
    | Collects(ref: nat)
    | RowArrives(k: PieceKey, skip: bool)
    | RowFinishes(row: nat)
    | RowLeaves(row: nat)
    | ForeignRef(row: nat)
    | ForeignPromote(ref: nat)
    | ForeignDrop(ref: nat)

  ghost predicate Next(d: Db, s: Step, d': Db) {
    match s
    case Create(key, client, pieces, now, r) => CreateSpec(d, key, client, pieces, now, d', r)
    case Pulls(k, c, given) =>
      Claims(d, k, c) && Fresh(c.db, given) && Attachable(c, k, given) && d' == Attach(c, given)
    case CleansOwned(p) => d' == CleanOwned(d, p)
    case Completes(id, p) =>
      && id in d.items && Active(d.items[id]) && RowFor(d, p, KeyOf(id, d.items[id])) && d.rows[p].complete
      && d' == CompleteItem(d, id, p)
    case Fails(id) =>
      id in d.items && Active(d.items[id]) && d' == d.(items := d.items[id := d.items[id].(failed := true)])
    case Expires(stale) =>
      (forall id :: id in stale ==> id in d.items && !d.items[id].complete) && d' == Expire(d, stale)
    case Sweeps(now) => d' == FiveDay(d, now)
    case Collects(r) => r in d.promoted && d' == DropRefs(d, {r})
    case RowArrives(k, skip) => (forall p :: !RowFor(d, p, k)) && d' == NewRow(d, k, skip)
    case RowFinishes(p) => p in d.rows && d' == d.(rows := d.rows[p := d.rows[p].(complete := true)])
    case RowLeaves(p) => p in d.rows && !RowOccupied(d, p) && d' == DeleteRows(d, {p})
    case ForeignRef(p) =>
      && p in d.rows
      && d' == d.(refs := d.refs[d.nextRef := p], foreign := d.foreign + {d.nextRef}, nextRef := d.nextRef + 1)
    case ForeignPromote(r) => r in d.foreign && d' == d.(promoted := d.promoted + {r})
    case ForeignDrop(r) => r in d.foreign && d' == DropRefs(d, {r})
  }

  ghost predicate Goes(states: seq<Db>, steps: seq<Step>, i: nat)
    requires i < |steps| && |states| == |steps| + 1
  {
    Next(states[i], steps[i], states[i + 1])
  }

  /** A run: each state is a step away from the one before, starting from empty tables. */
  ghost predicate Run(states: seq<Db>, steps: seq<Step>) {
    && |states| == |steps| + 1 && states[0] == EMPTY
    && forall i: nat {:trigger Goes(states, steps, i)} :: i < |steps| ==> Goes(states, steps, i)
  }

  /** A direct claim changes at most the rows. */
  lemma ClaimedRowsOnly(d: Db, k: PieceKey, c: Claim)
    requires ClaimsDirectly(d, k, c)
    ensures c.db == d.(rows := c.db.rows, nextRow := c.db.nextRow)
  {
  }

  /** What cleaning a row may do to an item, depending on whether it is unfinished and owned. */
  predicate Detached(it: Item, was: Item, open: bool) {
    && it.rawSize == was.rawSize && it.complete == was.complete && it.failed == was.failed
    && (open ==> it.ref.None? && it.owned.None?)
    && (it.ref.None? || it.ref == was.ref) && (it.owned.None? || it.owned == was.owned)
  }

  lemma CleanedItem(d: Db, p: nat, id: ItemId)
    requires id in d.items
    ensures id in CleanOwned(d, p).items
    ensures Detached(CleanOwned(d, p).items[id], d.items[id], id in OpenOwned(d, p))
  {
  }

  lemma CleanedSameIds(d: Db, p: nat)
    ensures CleanOwned(d, p).items.Keys == d.items.Keys && CleanOwned(d, p).pulls == d.pulls
  {
  }

  /** Cleaning makes no row, and changes at most whether one is kept from ParkPiece. */
  lemma CleanedRow(d: Db, p: nat, q: nat)
    ensures CleanOwned(d, p).nextRow == d.nextRow
    ensures q in CleanOwned(d, p).rows ==>
      q in d.rows && CleanOwned(d, p).rows[q] == d.rows[q].(skip := CleanOwned(d, p).rows[q].skip)
  {
  }

  /** Claiming a row makes no ref and moves no ref sequence. */
  lemma ClaimKeepsRefs(d: Db, k: PieceKey, c: Claim)
    requires Claims(d, k, c)
    ensures c.db.nextRef == d.nextRef && c.db.items.Keys == d.items.Keys
    ensures forall r :: r in c.db.refs ==> r in d.refs && c.db.refs[r] == d.refs[r]
  {
    if c.cleaned {
      var p :| RowFor(d, p, k) && !d.rows[p].complete && PullOwned(d, p, k) && ClaimsDirectly(CleanOwned(d, p), k, c);
      CleanedSameIds(d, p);
      ClaimedRowsOnly(CleanOwned(d, p), k, c);
    } else {
      ClaimedRowsOnly(d, k, c);
    }
  }
}
