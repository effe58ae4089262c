/** The tables behind SP-to-SP pulls, and the admission transaction that fills them. */
module PullLedger {
  import opened Basics

  /** Admission and scheduling count pieces by this key, not by source URL. */
  datatype PieceKey = PieceKey(cid: string, rawSize: nat)

  /** Idempotency key of a pull request. */
  datatype PullKey = PullKey(service: string, extraDataHash: seq<bv8>, dataSet: nat, recordKeeper: string)

  datatype Pull = Pull(key: PullKey, client: string, createdAt: int)

  datatype ItemId = ItemId(fetchId: nat, cid: string, url: string)

  /** One row of pdp_piece_pull_items.  `ref` is parked_piece_ref; `owned` is pull_parked_piece_id,
      set when PullPiece itself created the parked row. */
  datatype Item = Item(rawSize: nat, complete: bool, failed: bool, ref: Option<nat>, owned: Option<nat>)

  /** An active row of parked_pieces.  Rows are unique by CID and padded size.  While `skip` is set
      ParkPiece leaves the row to whoever created it. */
  datatype Row = Row(cid: string, padded: nat, complete: bool, skip: bool)

  /** `refs` maps parked_piece_refs to their row, `promoted` is the set of refs in pdp_piecerefs.
      Refs made by other subsystems are listed in `foreign`.  The three counters are the
      database's id sequences, which no rollback undoes. */
  datatype Db = Db(
    pulls: map<nat, Pull>,
    items: map<ItemId, Item>,
    rows: map<nat, Row>,
    refs: map<nat, nat>,
    promoted: set<nat>,
    foreign: set<nat>,
    nextPull: nat,
    nextRef: nat,
    nextRow: nat)

  const EMPTY := Db(map[], map[], map[], map[], {}, {}, 1, 1, 1)

  datatype Piece = Piece(cid: string, rawSize: nat, url: string)

  const GLOBAL_LIMIT := 120
  const PER_CLIENT_LIMIT := 10
  const SOLO_PERCENTAGE := 90
  const RETRY_MIN := 60
  const RETRY_MAX := 300
  const RETRY_STEP_PIECES := 10
  const FIVE_DAYS := 432_000

  // ---------- Counting ----------

  predicate Active(it: Item) {
    !it.complete && !it.failed
  }

  function KeyOf(id: ItemId, it: Item): PieceKey {
    PieceKey(id.cid, it.rawSize)
  }

  function ActiveKeys(d: Db): set<PieceKey> {
    set id | id in d.items && Active(d.items[id]) :: KeyOf(id, d.items[id])
  }

  /** Active items joined to a pull of this client. */
  predicate HeldBy(d: Db, id: ItemId, client: string) {
    id in d.items && Active(d.items[id]) && id.fetchId in d.pulls && d.pulls[id.fetchId].client == client
  }

  predicate HeldByOther(d: Db, id: ItemId, client: string) {
    id in d.items && Active(d.items[id]) && id.fetchId in d.pulls && d.pulls[id.fetchId].client != client
  }

  function ClientKeys(d: Db, client: string): set<PieceKey> {
    set id | id in d.items && HeldBy(d, id, client) :: KeyOf(id, d.items[id])
  }

  function OtherKeys(d: Db, client: string): set<PieceKey> {
    set id | id in d.items && HeldByOther(d, id, client) :: KeyOf(id, d.items[id])
  }

  /** A piece asked for twice, be it from two URLs, counts once. */
  function Incoming(pieces: seq<Piece>): (keys: set<PieceKey>)
    ensures forall k :: k in keys <==> exists p :: p in pieces && p.cid == k.cid && p.rawSize == k.rawSize
  {
    set p | p in pieces :: PieceKey(p.cid, p.rawSize)
  }

  // ---------- Admission policy ----------

  function BorrowLimit(): nat {
    GLOBAL_LIMIT * SOLO_PERCENTAGE / 100
  }

  function EffectiveClientLimit(otherPending: nat): (r: nat)
    ensures PER_CLIENT_LIMIT <= r <= BorrowLimit()
    ensures if otherPending <= 98 then r + otherPending == 108 else r == 10
  {
    if BorrowLimit() - otherPending < PER_CLIENT_LIMIT then PER_CLIENT_LIMIT else BorrowLimit() - otherPending
  }

  /** A wait of a minute per started ten pieces too many, and of five minutes from the fifth ten on. */
  predicate WaitFits(wait: int, over: int) {
    && 60 <= wait <= 300 && wait % 60 == 0
    && (over <= 0 ==> wait == 60)
    && (over > 0 ==> over > (wait / 60 - 1) * 10 && (wait < 300 ==> over <= wait / 60 * 10))
  }

  function RetryAfter(pending: nat, limit: nat): (r: int)
    ensures WaitFits(r, pending - limit)
  {
    var over := pending - limit;
    if over <= 0 then RETRY_MIN
    else
      var retryAfter := (1 + (over - 1) / RETRY_STEP_PIECES) * 60;
      if retryAfter < RETRY_MIN then RETRY_MIN
      else if retryAfter > RETRY_MAX then RETRY_MAX
      else retryAfter
  }

  /** Room for the pieces: at most 120 in all, and for this client at most 10, or as many as leave
      it within 108 together with what the other clients hold. */
  predicate HasRoom(d: Db, client: string, incoming: set<PieceKey>) {
    var held := |ClientKeys(d, client) + incoming|;
    |ActiveKeys(d) + incoming| <= 120 && (held <= 10 || held + |OtherKeys(d, client)| <= 108)
  }

  /** How far the pieces exceed the limit they are refused for, the global one first. */
  function Excess(d: Db, client: string, incoming: set<PieceKey>): int {
    var all, held := |ActiveKeys(d) + incoming|, |ClientKeys(d, client) + incoming|;
    var others := |OtherKeys(d, client)|;
    if all > 120 then all - 120 else if others > 98 then held - 10 else held + others - 108
  }

  /** What `enforceBackpressure` answers for a set of unique incoming pieces. */
  function Backpressure(d: Db, client: string, incoming: set<PieceKey>): Option<int> {
    if incoming == {} then None
    else
      var globalPending := |ActiveKeys(d) + incoming|;
      var clientPending := |ClientKeys(d, client) + incoming|;
      var clientLimit := EffectiveClientLimit(|OtherKeys(d, client)|);
      if globalPending > GLOBAL_LIMIT then Some(RetryAfter(globalPending, GLOBAL_LIMIT))
      else if clientPending > clientLimit then Some(RetryAfter(clientPending, clientLimit))
      else None
  }

  /** In numbers: who is admitted, and how long the others are told to wait. */
  lemma BackpressureExactly(d: Db, client: string, incoming: set<PieceKey>)
    ensures Backpressure(d, client, incoming) == None <==> incoming == {} || HasRoom(d, client, incoming)
    ensures Backpressure(d, client, incoming).Some? ==>
      WaitFits(Backpressure(d, client, incoming).value, Excess(d, client, incoming))
  {
  }

  // ---------- The transaction ----------

  datatype CreateResult =
    | Existing(id: nat)
    | Refused(id: nat, retryAfter: int)
    | Admitted(id: nat)
    | InsertFailed(id: nat)

  function ItemIdOf(id: nat, p: Piece): ItemId {
    ItemId(id, p.cid, p.url)
  }

  function NewItem(p: Piece): Item {
    Item(p.rawSize, false, false, None, None)
  }

  /** No two pieces collide on the primary key of the items table. */
  predicate Insertable(pieces: seq<Piece>) {
    forall i, j :: 0 <= i < j < |pieces| ==> pieces[i].cid != pieces[j].cid || pieces[i].url != pieces[j].url
  }

  /** The items inserted for a pull, whatever was there before. */
  ghost predicate ItemsAdded(before: map<ItemId, Item>, after: map<ItemId, Item>, id: nat, pieces: seq<Piece>) {
    && (forall k :: k in after <==> k in before || exists p :: p in pieces && k == ItemId(id, p.cid, p.url))
    && (forall k :: k in before ==> after[k] == before[k])
    && (forall p :: p in pieces ==> after[ItemId(id, p.cid, p.url)] == Item(p.rawSize, false, false, None, None))
  }

  /** Only an id sequence moved: every table reads as before. */
  predicate SameTables(d: Db, d': Db) {
    d' == d.(nextPull := d'.nextPull) && d.nextPull <= d'.nextPull
  }

  ghost predicate CreateSpec(d: Db, key: PullKey, client: string, pieces: seq<Piece>, now: int, d': Db,
                             r: CreateResult) {
    match r
    case Existing(id) => id in d.pulls && d.pulls[id].key == key && SameTables(d, d')
    case Refused(id, wait) =>
      && (forall k :: k in d.pulls ==> d.pulls[k].key != key) && SameTables(d, d')
      && Backpressure(d, client, Incoming(pieces)) == Some(wait)
    case InsertFailed(id) =>
      && (forall k :: k in d.pulls ==> d.pulls[k].key != key) && SameTables(d, d')
      && Backpressure(d, client, Incoming(pieces)) == None && !Insertable(pieces)
    case Admitted(id) =>
      && (forall k :: k in d.pulls ==> d.pulls[k].key != key)
      && Backpressure(d, client, Incoming(pieces)) == None && Insertable(pieces)
      && id == d.nextPull
      && d' == d.(pulls := d.pulls[id := Pull(key, client, now)], items := d'.items, nextPull := id + 1)
      && ItemsAdded(d.items, d'.items, id, pieces)
  }

  /** Ids in use are behind the sequence, and items belong to existing pulls. */
  predicate KeyedWell(d: Db) {
    && (forall id :: id in d.pulls ==> id < d.nextPull)
    && (forall k :: k in d.items ==> k.fetchId in d.pulls)
  }

  // ---------- Deleting refs ----------

  predicate PointsInto(it: Item, gone: set<nat>) {
    it.ref.Some? && it.ref.value in gone
  }

  /** Deleting refs also deletes their pdp_piecerefs rows and nulls pointers to them. */
  function DropRefs(d: Db, gone: set<nat>): Db {
    d.(refs := d.refs - gone, promoted := d.promoted - gone, foreign := d.foreign - gone,
       items := map id | id in d.items ::
         if PointsInto(d.items[id], gone) then d.items[id].(ref := None) else d.items[id])
  }

  function RefsOf(d: Db, ids: set<ItemId>): set<nat> {
    set id | id in ids && id in d.items && d.items[id].ref.Some? :: d.items[id].ref.value
  }

  // ---------- Five-day cleanup ----------

  predicate Old(d: Db, id: ItemId, now: int) {
    id.fetchId in d.pulls && d.pulls[id.fetchId].createdAt < now - FIVE_DAYS
  }

  predicate Live(d: Db, id: ItemId, now: int) {
    id.fetchId in d.pulls && d.pulls[id.fetchId].createdAt >= now - FIVE_DAYS
  }

  function OldRefs(d: Db, now: int): set<nat> {
    var aged := RefsOf(d, set id | id in d.items && Old(d, id, now));
    var live := RefsOf(d, set id | id in d.items && Live(d, id, now));
    aged * d.refs.Keys - d.promoted - live
  }

  /** First statement of the cleanup. */
  function WithoutOldRefs(d: Db, now: int): Db {
    DropRefs(d, OldRefs(d, now))
  }

  /** Second statement: deleting a pull deletes its items. */
  function WithoutOldPulls(d: Db, now: int): Db {
    d.(pulls := map k | k in d.pulls && d.pulls[k].createdAt >= now - FIVE_DAYS :: d.pulls[k],
       items := map id | id in d.items && !Old(d, id, now) :: d.items[id])
  }

  function FiveDay(d: Db, now: int): Db {
    WithoutOldPulls(WithoutOldRefs(d, now), now)
  }

  predicate HeldSince(d: Db, r: nat, now: int) {
    exists id :: id in d.items && d.items[id].ref == Some(r) && Live(d, id, now)
  }

  predicate HeldBefore(d: Db, r: nat, now: int) {
    exists id :: id in d.items && d.items[id].ref == Some(r) && Old(d, id, now)
  }

  /** What the cleanup achieves: old pulls go with their items, younger ones are untouched, no
      promoted ref disappears, and a ref goes exactly when only old pulls still held it. */
  ghost predicate SweepSpec(d: Db, now: int, e: Db) {
    && (forall k :: k in e.pulls <==> k in d.pulls && d.pulls[k].createdAt >= now - 5 * 24 * 3600)
    && (forall k :: k in e.pulls ==> e.pulls[k] == d.pulls[k])
    && (forall id :: id in e.items <==> id in d.items && id.fetchId in e.pulls)
    && (forall id :: id in e.items ==> e.items[id] == d.items[id])
    && (forall r :: r in e.refs <==> r in d.refs && (r in d.promoted || !HeldBefore(d, r, now) || HeldSince(d, r, now)))
    && (forall r :: r in e.refs ==> e.refs[r] == d.refs[r] && (r in e.foreign <==> r in d.foreign))
    && e.foreign <= d.foreign && e.promoted == d.promoted
    && e == d.(pulls := e.pulls, items := e.items, refs := e.refs, promoted := e.promoted, foreign := e.foreign)
  }

  lemma OldRefsAre(d: Db, now: int, r: nat)
    ensures r in OldRefs(d, now) <==> r in d.refs && HeldBefore(d, r, now) && r !in d.promoted && !HeldSince(d, r, now)
  {
    var aged := set id | id in d.items && Old(d, id, now);
    var live := set id | id in d.items && Live(d, id, now);
    assert r in RefsOf(d, aged) <==> exists id :: id in aged && d.items[id].ref == Some(r);
    assert r in RefsOf(d, live) <==> exists id :: id in live && d.items[id].ref == Some(r);
    if HeldBefore(d, r, now) {
      var id :| id in d.items && d.items[id].ref == Some(r) && Old(d, id, now);
      assert id in aged;
    }
    if HeldSince(d, r, now) {
      var id :| id in d.items && d.items[id].ref == Some(r) && Live(d, id, now);
      assert id in live;
    }
  }

  /** The two statements with their cascades do exactly what the cleanup is for. */
  lemma FiveDaySweeps(d: Db, now: int)
    requires KeyedWell(d) && d.promoted <= d.refs.Keys
    ensures SweepSpec(d, now, FiveDay(d, now))
  {
    var e := FiveDay(d, now);
    forall r
      ensures r in OldRefs(d, now) <==>
        r in d.refs && HeldBefore(d, r, now) && r !in d.promoted && !HeldSince(d, r, now)
    {
      OldRefsAre(d, now, r);
    }
    forall id | id in e.items ensures e.items[id] == d.items[id] {
      assert Live(d, id, now);
    }
  }

  // ---------- The store ----------

  lemma IncomingMore(pieces: seq<Piece>, i: nat)
    requires i < |pieces|
    ensures Incoming(pieces[..i + 1]) == Incoming(pieces[..i]) + {PieceKey(pieces[i].cid, pieces[i].rawSize)}
  {
    assert pieces[..i + 1] == pieces[..i] + [pieces[i]];
  }

  /** The deduplicating loop of `enforceBackpressure`. */
  method UniqueKeys(pieces: seq<Piece>) returns (unique: seq<PieceKey>)
    ensures (set k | k in unique) == Incoming(pieces)
    ensures forall i, j :: 0 <= i < j < |unique| ==> unique[i] != unique[j]
  {
    unique := [];
    var seen: set<PieceKey> := {};
    for i := 0 to |pieces|
      invariant seen == Incoming(pieces[..i]) && seen == (set k | k in unique)
      invariant forall a, b :: 0 <= a < b < |unique| ==> unique[a] != unique[b]
    {
      IncomingMore(pieces, i);
      var key := PieceKey(pieces[i].cid, pieces[i].rawSize);
      if key in seen {
        continue;
      }
      seen := seen + {key};
      unique := unique + [key];
    }
    assert pieces[..|pieces|] == pieces;
  }

  lemma NoneIncoming(pieces: seq<Piece>)
    ensures Incoming(pieces) == {} <==> pieces == []
  {
    assert pieces != [] ==> PieceKey(pieces[0].cid, pieces[0].rawSize) in Incoming(pieces);
  }

  /** Its counts and limits: refused exactly without room, for a wait that fits the excess. */
  method EnforceBackpressure(tx: Db, client: string, pieces: seq<Piece>) returns (wait: Option<int>)
    ensures wait == Backpressure(tx, client, Incoming(pieces))
    ensures wait == None <==> pieces == [] || HasRoom(tx, client, Incoming(pieces))
    ensures wait.Some? ==> WaitFits(wait.value, Excess(tx, client, Incoming(pieces)))
  {
    var unique := UniqueKeys(pieces);
    var incoming := set k | k in unique;
    NoneIncoming(pieces);
    BackpressureExactly(tx, client, incoming);
    if |unique| == 0 {
      assert incoming == {};
      return None;
    }
    assert unique[0] in incoming;
    var globalPending := |ActiveKeys(tx) + incoming|;
    var clientPending := |ClientKeys(tx, client) + incoming|;
    var otherPending := |OtherKeys(tx, client)|;
    if globalPending > GLOBAL_LIMIT {
      return Some(RetryAfter(globalPending, GLOBAL_LIMIT));
    }
    var clientLimit := EffectiveClientLimit(otherPending);
    if clientPending > clientLimit {
      return Some(RetryAfter(clientPending, clientLimit));
    }
    return None;
  }

  lemma Distinct(pieces: seq<Piece>, i: nat, id: nat, before: map<ItemId, Item>, after: map<ItemId, Item>)
    requires i < |pieces| && ItemsAdded(before, after, id, pieces[..i]) && Insertable(pieces[..i])
    requires ItemIdOf(id, pieces[i]) !in after
    ensures Insertable(pieces[..i + 1])
    ensures ItemsAdded(before, after[ItemIdOf(id, pieces[i]) := NewItem(pieces[i])], id, pieces[..i + 1])
  {
    var all := pieces[..i + 1];
    assert all == pieces[..i] + [pieces[i]];
    forall a, b | 0 <= a < b < |all| ensures all[a].cid != all[b].cid || all[a].url != all[b].url {
      if b == i {
        assert pieces[a] in pieces[..i];
        assert ItemIdOf(id, pieces[a]) in after;
      } else {
        assert pieces[..i][a] == all[a] && pieces[..i][b] == all[b];
      }
    }
    forall p | p in pieces[..i] ensures ItemIdOf(id, p) in after {
    }
  }

  /** The inserting loop; `ok` is false when a row collides and the transaction must roll back. */
  method InsertItems(before: map<ItemId, Item>, pullId: nat, pieces: seq<Piece>)
    returns (ok: bool, items: map<ItemId, Item>)
    requires forall k :: k in before ==> k.fetchId != pullId
    ensures ok == Insertable(pieces)
    ensures ok ==> ItemsAdded(before, items, pullId, pieces)
  {
    items := before;
    for i := 0 to |pieces|
      invariant ItemsAdded(before, items, pullId, pieces[..i])
      invariant Insertable(pieces[..i])
    {
      var k := ItemIdOf(pullId, pieces[i]);
      if k in items {
        ghost var p :| p in pieces[..i] && k == ItemIdOf(pullId, p);
        ghost var j :| 0 <= j < i && pieces[j] == p;
        return false, items;
      }
      Distinct(pieces, i, pullId, before, items);
      items := items[k := NewItem(pieces[i])];
    }
    assert pieces[..|pieces|] == pieces;
    return true, items;
  }

  /** The admission transaction.  Every path that does not commit leaves the tables as they were. */
  method CreateTransaction(tx: Db, key: PullKey, client: string, pieces: seq<Piece>, now: int)
    returns (r: CreateResult, after: Db)
    requires KeyedWell(tx)
    ensures CreateSpec(tx, key, client, pieces, now, after, r)
  {
    var pullId := tx.nextPull;
    after := tx.(nextPull := pullId + 1);
    if id :| id in tx.pulls && tx.pulls[id].key == key {
      r := Existing(id);
    } else {
      var wait := EnforceBackpressure(tx, client, pieces);
      if wait.Some? {
        r := Refused(pullId, wait.value);
      } else {
        var ok, items := InsertItems(tx.items, pullId, pieces);
        if ok {
          after := after.(pulls := tx.pulls[pullId := Pull(key, client, now)], items := items);
          r := Admitted(pullId);
        } else {
          r := InsertFailed(pullId);
        }
      }
    }
  }

  class PullStore {
    var db: Db

    constructor ()
      ensures db == EMPTY
    {
      db := EMPTY;
    }

    method CreatePullWithPieces(key: PullKey, client: string, pieces: seq<Piece>, now: int) returns (r: CreateResult)
      requires KeyedWell(db)
      modifies this
      ensures CreateSpec(old(db), key, client, pieces, now, db, r)
    {
      var after: Db;
      r, after := CreateTransaction(db, key, client, pieces, now);
      db := after;
    }

    /** The pull-record transaction of the periodic cleanup. */
    method CleanupOldPulls(now: int)
      requires KeyedWell(db) && db.promoted <= db.refs.Keys
      modifies this
      ensures SweepSpec(old(db), now, db)
    {
      FiveDaySweeps(db, now);
      db := WithoutOldRefs(db, now);
      db := WithoutOldPulls(db, now);
    }
  }
}
