/** The status of a pull, computed from its items, and what it means over a run. */
module PullStatus {
  import opened PullLedger
  import opened PullProtocol
  import opened PullRefs
  import opened PullAdmission

  /** `Unrecognized` stands for any other status string. */
  datatype Status = Pending | InProgress | Retrying | Complete | Failed | Unrecognized

  predicate Terminal(s: Status) {
    s == Complete || s == Failed
  }

  /** What the scheduler's tables say about an item's task. */
  datatype TaskView = TaskView(hasTask: bool, taskExists: bool, retries: int)

  function StatusFromItem(complete: bool, failed: bool, task: TaskView): (s: Status)
    ensures Terminal(s) <==> complete || failed
    ensures s == Failed <==> failed
    ensures s == Pending <==> !complete && !failed && !(task.hasTask && task.taskExists)
    ensures s == Retrying <==> !complete && !failed && task.hasTask && task.taskExists && task.retries > 0
    ensures s == InProgress <==> !complete && !failed && task.hasTask && task.taskExists && task.retries <= 0
  {
    if failed then Failed
    else if complete then Complete
    else if !task.hasTask then Pending
    else if task.taskExists then if task.retries > 0 then Retrying else InProgress
    else Pending
  }

  predicate AllTerminal(ps: seq<Status>) {
    forall p :: p in ps ==> Terminal(p)
  }

  /** What the batch status promises: terminal only when every piece is, and then complete as soon
      as one piece is; otherwise the most active kind of work still going on. */
  predicate OverallIs(ps: seq<Status>, s: Status) {
    && (Terminal(s) <==> ps != [] && AllTerminal(ps))
    && (s == Complete <==> AllTerminal(ps) && Complete in ps)
    && (s == Failed <==> ps != [] && forall p :: p in ps ==> p == Failed)
    && (s == Retrying <==> Retrying in ps)
    && (s == InProgress <==> Retrying !in ps && InProgress in ps)
    && s != Unrecognized
  }

  lemma OverallIsUnique(ps: seq<Status>, s: Status, t: Status)
    requires OverallIs(ps, s) && OverallIs(ps, t)
    ensures s == t
  {
  }

  // ---------- The documented order ----------

  /** How bad a status is by the documented order: failed, retrying, in progress, pending, complete. */
  function Badness(s: Status): nat {
    match s
    case Failed => 4
    case Retrying => 3
    case InProgress => 2
    case Complete => 0
    case _ => 1
  }

  /** s is the worst status among the pieces. */
  predicate Worst(ps: seq<Status>, s: Status) {
    s in ps && forall p :: p in ps ==> Badness(p) <= Badness(s)
  }

  /** The batch status is the documented worst case if and only if failed pieces come only together:
      no piece failed, or all did. */
  lemma DocumentedOrderExactly(ps: seq<Status>, s: Status)
    requires ps != [] && Unrecognized !in ps && OverallIs(ps, s)
    ensures Worst(ps, s) <==> (Failed in ps ==> forall p :: p in ps ==> p == Failed)
  {
    assert ps[0] in ps;
  }

  /** One failed piece and one complete one: the comment promises failed, the code says complete. */
  lemma DocumentedOrderFails()
    ensures OverallIs([Failed, Complete], Complete) && Worst([Failed, Complete], Failed)
    ensures !Worst([Failed, Complete], Complete)
  {
    var ps := [Failed, Complete];
    assert ps[0] == Failed && ps[1] == Complete;
  }

  class PullResponse {
    var status: Status
    var pieces: seq<Status>

    constructor (pieces: seq<Status>)
      ensures this.pieces == pieces
    {
      this.pieces := pieces;
      status := Pending;
    }

    method ComputeOverallStatus()
      modifies this`status
      ensures OverallIs(pieces, status)
    {
      if |pieces| == 0 {
        status := Pending;
        return;
      }
      var completeCount, failedCount := 0, 0;
      var hasPending, hasInProgress, hasRetrying := false, false, false;
      for i := 0 to |pieces|
        invariant 0 <= completeCount && 0 <= failedCount && completeCount + failedCount <= i
        invariant completeCount > 0 <==> Complete in pieces[..i]
        invariant failedCount == i <==> forall k :: 0 <= k < i ==> pieces[k] == Failed
        invariant hasRetrying <==> Retrying in pieces[..i]
        invariant hasInProgress <==> InProgress in pieces[..i]
        invariant hasPending <==> Pending in pieces[..i] || Unrecognized in pieces[..i]
      {
        assert pieces[..i + 1] == pieces[..i] + [pieces[i]];
        match pieces[i] {
          case Complete => completeCount := completeCount + 1;
          case Failed => failedCount := failedCount + 1;
          case Retrying => hasRetrying := true;
          case InProgress => hasInProgress := true;
          case Pending => hasPending := true;
          case Unrecognized => hasPending := true;
        }
      }
      assert pieces[..|pieces|] == pieces;
      assert pieces[0] in pieces;
      if hasRetrying {
        status := Retrying;
      } else if hasInProgress {
        status := InProgress;
      } else if hasPending {
        status := Pending;
      } else if failedCount == |pieces| {
        status := Failed;
      } else {
        status := if completeCount > 0 then Complete else Pending;
      }
    }
  }

  // ---------- Status over a run ----------

  /** ids lists the items of a pull, and ps their statuses under some view of the tasks. */
  ghost predicate Reports(d: Db, pull: nat, ids: seq<ItemId>, tasks: seq<TaskView>, ps: seq<Status>) {
    && |ids| == |tasks| == |ps|
    && (forall id :: id in ids <==> id in d.items && id.fetchId == pull)
    && (forall i :: 0 <= i < |ids| ==>
          ids[i] in d.items && ps[i] == StatusFromItem(d.items[ids[i]].complete, d.items[ids[i]].failed, tasks[i]))
  }

  /** A finished item of a surviving pull stays as it is, and the pull keeps its items. */
  ghost predicate FlagsKept(d: Db, e: Db, a: nat) {
    && (forall id: ItemId :: id.fetchId == a ==> (id in d.items <==> id in e.items))
    && (forall id: ItemId :: id.fetchId == a && id in d.items && id in e.items && !Active(d.items[id]) ==>
          e.items[id].complete == d.items[id].complete && e.items[id].failed == d.items[id].failed)
  }

  lemma ReleaseDropKeepsFlags(d: Db, ids: set<ItemId>, fail: bool, gone: set<nat>, a: nat)
    requires fail ==> forall id :: id in ids ==> id in d.items && !d.items[id].complete
    ensures FlagsKept(d, DropRefs(Release(d, ids, fail), gone), a)
  {
  }

  lemma ExpireKeepsFlags(d: Db, stale: set<ItemId>, a: nat)
    requires forall id :: id in stale ==> id in d.items && !d.items[id].complete
    ensures FlagsKept(d, Expire(d, stale), a)
  {
    ReleaseDropKeepsFlags(d, stale, true, RefsOf(d, stale) - d.promoted - HeldRefs(Release(d, stale, true)), a);
  }

  lemma CleanOwnedKeepsFlags(d: Db, p: nat, a: nat)
    ensures FlagsKept(d, CleanOwned(d, p), a)
  {
    CleanedSameIds(d, p);
    forall id | id in d.items ensures CleanOwned(d, p).items[id].complete == d.items[id].complete
                                      && CleanOwned(d, p).items[id].failed == d.items[id].failed {
      CleanedItem(d, p, id);
    }
  }

  lemma AttachKeepsFlags(c: Claim, given: map<ItemId, nat>, a: nat)
    ensures FlagsKept(c.db, Attach(c, given), a)
  {
  }

  lemma FlagsKeptTwice(d: Db, e: Db, f: Db, a: nat)
    requires FlagsKept(d, e, a) && FlagsKept(e, f, a)
    ensures FlagsKept(d, f, a)
  {
  }

  lemma ClaimKeepsFlags(d: Db, k: PieceKey, c: Claim, a: nat)
    requires Claims(d, k, c)
    ensures FlagsKept(d, c.db, a)
  {
    if c.cleaned {
      var p :| RowFor(d, p, k) && !d.rows[p].complete && PullOwned(d, p, k) && ClaimsDirectly(CleanOwned(d, p), k, c);
      CleanOwnedKeepsFlags(d, p, a);
      ClaimedRowsOnly(CleanOwned(d, p), k, c);
    } else {
      ClaimedRowsOnly(d, k, c);
    }
  }

  lemma SweepKeepsFlags(d: Db, now: int, a: nat)
    requires KeyedWell(d) && d.promoted <= d.refs.Keys && a in FiveDay(d, now).pulls
    ensures FlagsKept(d, FiveDay(d, now), a)
  {
    FiveDaySweeps(d, now);
  }

  lemma CreateKeepsFlags(d: Db, key: PullKey, client: string, pieces: seq<Piece>, now: int, d': Db, r: CreateResult,
                         a: nat)
    requires KeyedWell(d) && CreateSpec(d, key, client, pieces, now, d', r) && a in d.pulls
    ensures FlagsKept(d, d', a)
  {
  }

  lemma PlainStepKeepsFlags(d: Db, s: Step, d': Db, a: nat)
    requires Next(d, s, d')
    requires s.RowArrives? || s.RowFinishes? || s.RowLeaves? || s.ForeignRef? || s.ForeignPromote? || s.Completes?
      || s.Fails?
    ensures FlagsKept(d, d', a)
  {
  }

  lemma DropKeepsFlags(d: Db, gone: set<nat>, a: nat)
    ensures FlagsKept(d, DropRefs(d, gone), a)
  {
  }

  lemma StepKeepsFlags(d: Db, s: Step, d': Db, a: nat)
    requires KeyedWell(d) && d.promoted <= d.refs.Keys && Next(d, s, d') && a in d.pulls && a in d'.pulls
    ensures FlagsKept(d, d', a)
  {
    match s
    case Create(key, client, pieces, now, r) => CreateKeepsFlags(d, key, client, pieces, now, d', r, a);
    case Pulls(k, c, given) =>
      ClaimKeepsFlags(d, k, c, a);
      AttachKeepsFlags(c, given, a);
      FlagsKeptTwice(d, c.db, d', a);
    case CleansOwned(p) => CleanOwnedKeepsFlags(d, p, a);
    case Expires(stale) => ExpireKeepsFlags(d, stale, a);
    case Sweeps(now) => SweepKeepsFlags(d, now, a);
    case Collects(r) => DropKeepsFlags(d, {r}, a);
    case ForeignDrop(r) => DropKeepsFlags(d, {r}, a);
    case _ => PlainStepKeepsFlags(d, s, d', a);
  }

  lemma GoneForGood(d: Db, s: Step, d': Db, a: nat)
    requires Next(d, s, d') && a < d.nextPull && a !in d.pulls
    ensures a < d'.nextPull && a !in d'.pulls
  {
    if !s.Create? && !s.Sweeps? {
      PullsKept(d, s, d');
    }
  }

  lemma StillNumbered(d: Db, s: Step, d': Db, a: nat)
    requires Next(d, s, d') && a < d.nextPull
    ensures a < d'.nextPull
  {
    if !s.Create? && !s.Sweeps? {
      PullsKept(d, s, d');
    }
  }

  lemma RunKeyed(states: seq<Db>, steps: seq<Step>, n: nat)
    requires Run(states, steps) && n < |states|
    ensures KeyedWell(states[n]) && states[n].promoted <= states[n].refs.Keys
  {
    RunKeeps(states, steps, n);
  }

  /** What one step may do to a pull: remove it for good, or leave its finished items alone. */
  ghost predicate Steady(d: Db, d': Db, a: nat) {
    a < d.nextPull ==>
      && a < d'.nextPull && (a !in d.pulls ==> a !in d'.pulls)
      && (a in d.pulls && a in d'.pulls ==> FlagsKept(d, d', a))
  }

  lemma SteadyStep(states: seq<Db>, steps: seq<Step>, k: nat, a: nat)
    requires Run(states, steps) && k < |steps|
    ensures Steady(states[k], states[k + 1], a)
  {
    var d, s, d' := states[k], steps[k], states[k + 1];
    assert Goes(states, steps, k);
    RunKeyed(states, steps, k);
    if a < d.nextPull {
      StillNumbered(d, s, d', a);
      if a !in d.pulls {
        GoneForGood(d, s, d', a);
      } else if a in d'.pulls {
        StepKeepsFlags(d, s, d', a);
      }
    }
  }

  lemma {:induction false} SteadyAlong(states: seq<Db>, i: nat, j: nat, a: nat)
    requires i <= j < |states| && a in states[i].pulls && a < states[i].nextPull
    requires forall k :: i <= k < j ==> Steady(states[k], states[k + 1], a)
    ensures a < states[j].nextPull
    ensures a in states[j].pulls ==> FlagsKept(states[i], states[j], a)
    decreases j
  {
    if i < j {
      SteadyAlong(states, i, j - 1, a);
      assert Steady(states[j - 1], states[j - 1 + 1], a);
      if a in states[j].pulls {
        FlagsKeptTwice(states[i], states[j - 1], states[j], a);
      }
    }
  }

  lemma FlagsKeptAlong(states: seq<Db>, steps: seq<Step>, i: nat, j: nat, a: nat)
    requires Run(states, steps) && i <= j < |states| && a in states[i].pulls && a in states[j].pulls
    ensures FlagsKept(states[i], states[j], a)
  {
    RunKeyed(states, steps, i);
    forall k | i <= k < j ensures Steady(states[k], states[k + 1], a) {
      SteadyStep(states, steps, k, a);
    }
    SteadyAlong(states, i, j, a);
  }

  /** The overall status is terminal exactly when the pull has items and none is still active. */
  lemma TerminalMeansIdle(d: Db, a: nat, ids: seq<ItemId>, tasks: seq<TaskView>, ps: seq<Status>, s: Status)
    requires Reports(d, a, ids, tasks, ps) && OverallIs(ps, s)
    ensures Terminal(s) <==> ids != [] && forall id :: id in d.items && id.fetchId == a ==> !Active(d.items[id])
  {
    forall id | id in d.items && id.fetchId == a ensures AllTerminal(ps) ==> !Active(d.items[id]) {
      var i :| 0 <= i < |ids| && ids[i] == id;
      assert ps[i] in ps;
    }
    if forall id :: id in d.items && id.fetchId == a ==> !Active(d.items[id]) {
      forall p | p in ps ensures Terminal(p) {
        var i :| 0 <= i < |ps| && ps[i] == p;
        assert ids[i] in ids;
      }
    }
  }

  lemma FailedReported(d: Db, a: nat, ids: seq<ItemId>, tasks: seq<TaskView>, ps: seq<Status>)
    requires Reports(d, a, ids, tasks, ps)
    ensures Unrecognized !in ps
    ensures Failed !in ps <==> forall id :: id in d.items && id.fetchId == a ==> !d.items[id].failed
    ensures (forall p :: p in ps ==> p == Failed) <==>
      forall id :: id in d.items && id.fetchId == a ==> d.items[id].failed
  {
    forall id | id in d.items && id.fetchId == a
      ensures d.items[id].failed ==> Failed in ps
      ensures !d.items[id].failed ==> exists p :: p in ps && p != Failed
    {
      var i :| 0 <= i < |ids| && ids[i] == id;
      assert ps[i] in ps;
    }
    forall p | p in ps
      ensures p != Unrecognized
      ensures exists id :: id in d.items && id.fetchId == a && (p == Failed <==> d.items[id].failed)
    {
      var i :| 0 <= i < |ps| && ps[i] == p;
      assert ids[i] in ids;
    }
  }

  /** For a pull with items, in terms of the ledger: the answer is the documented worst case if and
      only if none of its items failed or all of them did. */
  lemma ReportedWorstExactly(d: Db, a: nat, ids: seq<ItemId>, tasks: seq<TaskView>, ps: seq<Status>, s: Status)
    requires Reports(d, a, ids, tasks, ps) && OverallIs(ps, s) && ids != []
    ensures Worst(ps, s) <==>
      (forall id :: id in d.items && id.fetchId == a ==> !d.items[id].failed)
      || (forall id :: id in d.items && id.fetchId == a ==> d.items[id].failed)
  {
    FailedReported(d, a, ids, tasks, ps);
    DocumentedOrderExactly(ps, s);
    assert ps[0] in ps;
  }

  lemma SameStatuses(d: Db, e: Db, a: nat, ids: seq<ItemId>, tasks: seq<TaskView>, ps: seq<Status>,
                     ids': seq<ItemId>, tasks': seq<TaskView>, ps': seq<Status>, p: Status)
    requires Reports(d, a, ids, tasks, ps) && Reports(e, a, ids', tasks', ps') && FlagsKept(d, e, a)
    requires forall id :: id in d.items && id.fetchId == a ==> !Active(d.items[id])
    requires p in ps'
    ensures p in ps
  {
    var i :| 0 <= i < |ps'| && ps'[i] == p;
    assert ids'[i] in ids';
    var k :| 0 <= k < |ids| && ids[k] == ids'[i];
    assert ps[k] == p;
  }

  lemma SameStatusesBack(d: Db, e: Db, a: nat, ids: seq<ItemId>, tasks: seq<TaskView>, ps: seq<Status>,
                         ids': seq<ItemId>, tasks': seq<TaskView>, ps': seq<Status>, p: Status)
    requires Reports(d, a, ids, tasks, ps) && Reports(e, a, ids', tasks', ps') && FlagsKept(d, e, a)
    requires forall id :: id in d.items && id.fetchId == a ==> !Active(d.items[id])
    requires p in ps
    ensures p in ps'
  {
    var i :| 0 <= i < |ps| && ps[i] == p;
    assert ids[i] in ids;
    var k :| 0 <= k < |ids'| && ids'[k] == ids[i];
    assert ps'[k] == p;
  }

  lemma OverallOfSame(ps: seq<Status>, s: Status, ps': seq<Status>, s': Status)
    requires OverallIs(ps, s) && OverallIs(ps', s') && ps != [] && ps' != []
    requires forall p :: p in ps <==> p in ps'
    ensures s == s'
  {
    assert AllTerminal(ps) == AllTerminal(ps');
  }

  /** Once a client has been told complete or failed, every later answer says the same, in every
      run, for as long as the pull record lives. */
  lemma TerminalForGood(states: seq<Db>, steps: seq<Step>, i: nat, j: nat, a: nat,
                        ids: seq<ItemId>, tasks: seq<TaskView>, ps: seq<Status>, s: Status,
                        ids': seq<ItemId>, tasks': seq<TaskView>, ps': seq<Status>, s': Status)
    requires Run(states, steps) && i <= j < |states| && a in states[i].pulls && a in states[j].pulls
    requires Reports(states[i], a, ids, tasks, ps) && OverallIs(ps, s) && Terminal(s)
    requires Reports(states[j], a, ids', tasks', ps') && OverallIs(ps', s')
    ensures s' == s
  {
    var d, e := states[i], states[j];
    FlagsKeptAlong(states, steps, i, j, a);
    TerminalMeansIdle(d, a, ids, tasks, ps, s);
    forall p ensures p in ps <==> p in ps' {
      if p in ps { SameStatusesBack(d, e, a, ids, tasks, ps, ids', tasks', ps', p); }
      if p in ps' { SameStatuses(d, e, a, ids, tasks, ps, ids', tasks', ps', p); }
    }
    assert ps[0] in ps;
    OverallOfSame(ps, s, ps', s');
  }
}
