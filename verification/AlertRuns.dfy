/** Alert runs interleaved with everything that raises and resolves alerts.  A run collects,
    marks what stays local, sends, and marks what was sent; runs do not overlap, but any of the
    other calls may fall between its steps. */
module AlertRuns {
  import opened Basics
  import opened AlertQueue

  /** Where the current run stands.  `asOf` is the number of episodes begun when it collected. */
  datatype Phase =
    | Idle
    | Collected(refs: Refs, sends: bool, asOf: nat)
    | LocalMarked(refs: Refs, sends: bool, asOf: nat)
    | SentOut(refs: Refs, asOf: nat)

  datatype State = State(t: Tables, phase: Phase)

  datatype Step =
    | Emit(system: string, subsystem: string, message: string)
    | Activate(key: CondKey, text: string)
    | Resolve(key: CondKey)
    | Collect(mutes: seq<Mute>, plugins: bool, refs: Refs, sends: bool)
    | MarkLocal
    | Send
    | MarkSent
    | Finish
    | Abort

  const START := State(EMPTY, Idle)

  ghost predicate Next(s: State, a: Step, s': State) {
    match a
    case Emit(sys, sub, msg) => s' == s.(t := Emitted(s.t, sys, sub, msg))
    case Activate(k, msg) => s' == s.(t := Activated(s.t, k, msg))
    case Resolve(k) => s' == s.(t := ResolvedCondition(s.t, k))
    case Collect(mutes, plugins, refs, sends) =>
      && s.phase.Idle? && Collects(s.t, mutes, plugins, refs)
      && (refs.sentEvents != [] || refs.sentConds != [] ==> sends) && (sends ==> plugins)
      && s' == s.(phase := Collected(refs, sends, s.t.nextEpisode))
    case MarkLocal =>
      && s.phase.Collected?
      && var p := s.phase;
         s' == State(Marked(s.t, p.refs.localEvents, p.refs.localConds, false), LocalMarked(p.refs, p.sends, p.asOf))
    case Send => s.phase.LocalMarked? && s.phase.sends && s' == s.(phase := SentOut(s.phase.refs, s.phase.asOf))
    case MarkSent =>
      s.phase.SentOut? && s' == State(Marked(s.t, s.phase.refs.sentEvents, s.phase.refs.sentConds, true), Idle)
    case Finish => s.phase.LocalMarked? && !s.phase.sends && s' == s.(phase := Idle)
    case Abort => !s.phase.Idle? && s' == s.(phase := Idle)
  }

  ghost predicate Run(states: seq<State>, steps: seq<Step>) {
    && |states| == |steps| + 1 && states[0] == START
    && forall i :: 0 <= i < |steps| ==> Next(states[i], steps[i], states[i + 1])
  }

  // ---------- Episodes ----------

  /** Every row has an episode of its own, and a resolved episode is over. */
  ghost predicate Numbered(t: Tables) {
    && (forall k :: k in t.conditions ==> t.conditions[k].episode < t.nextEpisode)
    && (forall j, k ::
          j in t.conditions && k in t.conditions && t.conditions[j].episode == t.conditions[k].episode ==> j == k)
    && (forall i :: 0 <= i < |t.resolved| ==> t.resolved[i].episode < t.nextEpisode)
    && (forall i, k :: 0 <= i < |t.resolved| && k in t.conditions ==> t.resolved[i].episode != t.conditions[k].episode)
    && (forall i, j :: 0 <= i < j < |t.resolved| ==> t.resolved[i].episode != t.resolved[j].episode)
  }

  lemma MarkingKeepsNumbered(t: Tables, ids: seq<nat>, keys: seq<CondKey>, out: bool)
    requires Numbered(t)
    ensures Numbered(Marked(t, ids, keys, out))
  {
  }

  lemma ActivationKeepsNumbered(t: Tables, k: CondKey, message: string)
    requires Numbered(t)
    ensures Numbered(Activated(t, k, message))
  {
  }

  lemma ResolutionKeepsNumbered(t: Tables, k: CondKey)
    requires Numbered(t)
    ensures Numbered(ResolvedCondition(t, k))
  {
  }

  lemma StepNumbered(s: State, a: Step, s': State)
    requires Numbered(s.t) && Next(s, a, s')
    ensures Numbered(s'.t)
  {
    match a
    case Activate(k, msg) => ActivationKeepsNumbered(s.t, k, msg);
    case Resolve(k) => ResolutionKeepsNumbered(s.t, k);
    case MarkLocal => MarkingKeepsNumbered(s.t, s.phase.refs.localEvents, s.phase.refs.localConds, false);
    case MarkSent => MarkingKeepsNumbered(s.t, s.phase.refs.sentEvents, s.phase.refs.sentConds, true);
    case _ =>
  }

  lemma {:induction false} RunNumbered(states: seq<State>, steps: seq<Step>, n: nat)
    requires Run(states, steps) && n < |states|
    ensures Numbered(states[n].t)
  {
    if n > 0 {
      RunNumbered(states, steps, n - 1);
      StepNumbered(states[n - 1], steps[n - 1], states[n]);
    }
  }

  // ---------- At most once ----------

  function Outstanding(p: Phase): seq<CondKey> {
    match p
    case Idle => []
    case Collected(refs, _, _) => refs.localConds + refs.sentConds
    case LocalMarked(refs, sends, _) => if sends then refs.sentConds else []
    case SentOut(refs, _) => refs.sentConds
  }

  function OutstandingEvents(p: Phase): seq<nat> {
    match p
    case Idle => []
    case Collected(refs, _, _) => refs.localEvents + refs.sentEvents
    case LocalMarked(refs, sends, _) => if sends then refs.sentEvents else []
    case SentOut(refs, _) => refs.sentEvents
  }

  /** The run in progress will send if it has anything to send. */
  predicate SendsItsOwn(p: Phase) {
    p.Collected? && (p.refs.sentConds != [] || p.refs.sentEvents != []) ==> p.sends
  }

  /** Collection step a, taken from s, selects the condition episode e. */
  predicate Selects(s: State, a: Step, e: nat) {
    a.Collect? && exists k :: k in s.t.conditions && PendingCond(s.t, k) && s.t.conditions[k].episode == e
  }

  predicate SelectsEvent(s: State, a: Step, id: nat) {
    a.Collect? && PendingEvent(s.t, id)
  }

  /** A row of episode e, if it still exists, is marked or about to be. */
  ghost predicate TakenCare(s: State, e: nat) {
    && e < s.t.nextEpisode && SendsItsOwn(s.phase)
    && forall k :: k in s.t.conditions && s.t.conditions[k].episode == e ==>
         s.t.conditions[k].notified || k in Outstanding(s.phase)
  }

  ghost predicate EventTakenCare(s: State, id: nat) {
    && id < |s.t.events| && SendsItsOwn(s.phase)
    && (s.t.events[id].sent.Some? || id in OutstandingEvents(s.phase))
  }

  lemma SelectionTakesCare(s: State, a: Step, s': State, e: nat)
    requires Numbered(s.t) && Next(s, a, s') && Selects(s, a, e)
    ensures TakenCare(s', e)
  {
  }

  lemma CareLasts(s: State, a: Step, s': State, e: nat)
    requires TakenCare(s, e) && Next(s, a, s') && !a.Abort?
    ensures TakenCare(s', e)
  {
  }

  lemma EventSelectionTakesCare(s: State, a: Step, s': State, id: nat)
    requires Next(s, a, s') && SelectsEvent(s, a, id)
    ensures EventTakenCare(s', id)
  {
  }

  lemma EventCareLasts(s: State, a: Step, s': State, id: nat)
    requires EventTakenCare(s, id) && Next(s, a, s') && !a.Abort?
    ensures EventTakenCare(s', id)
  {
  }

  predicate NoAbort(steps: seq<Step>, i: nat, j: nat) {
    forall m :: i < m < j && m < |steps| ==> !steps[m].Abort?
  }

  lemma {:induction false} CareAlong(states: seq<State>, steps: seq<Step>, i: nat, j: nat, e: nat)
    requires Run(states, steps) && i < j < |states| && Selects(states[i], steps[i], e) && NoAbort(steps, i, j)
    ensures TakenCare(states[j], e)
    decreases j
  {
    if j == i + 1 {
      RunNumbered(states, steps, i);
      SelectionTakesCare(states[i], steps[i], states[j], e);
    } else {
      CareAlong(states, steps, i, j - 1, e);
      CareLasts(states[j - 1], steps[j - 1], states[j], e);
    }
  }

  /** However calls and runs interleave, a condition episode selected twice was selected the
      second time only because a run broke off in between. */
  lemma EpisodeSelectedOnce(states: seq<State>, steps: seq<Step>, i: nat, j: nat, e: nat)
    requires Run(states, steps) && i < j < |steps|
    requires Selects(states[i], steps[i], e) && Selects(states[j], steps[j], e)
    ensures exists m :: i < m < j && steps[m].Abort?
  {
    assert Next(states[j], steps[j], states[j + 1]);
    if NoAbort(steps, i, j) {
      CareAlong(states, steps, i, j, e);
    }
  }

  lemma {:induction false} EventCareAlong(states: seq<State>, steps: seq<Step>, i: nat, j: nat, id: nat)
    requires Run(states, steps) && i < j < |states| && SelectsEvent(states[i], steps[i], id) && NoAbort(steps, i, j)
    ensures EventTakenCare(states[j], id)
    decreases j
  {
    if j == i + 1 {
      EventSelectionTakesCare(states[i], steps[i], states[j], id);
    } else {
      EventCareAlong(states, steps, i, j - 1, id);
      EventCareLasts(states[j - 1], steps[j - 1], states[j], id);
    }
  }

  /** The same for one-shot events. */
  lemma EventSelectedOnce(states: seq<State>, steps: seq<Step>, i: nat, j: nat, id: nat)
    requires Run(states, steps) && i < j < |steps|
    requires SelectsEvent(states[i], steps[i], id) && SelectsEvent(states[j], steps[j], id)
    ensures exists m :: i < m < j && steps[m].Abort?
  {
    assert Next(states[j], steps[j], states[j + 1]);
    if NoAbort(steps, i, j) {
      EventCareAlong(states, steps, i, j, id);
    }
  }

  // ---------- Marks that stay ----------

  /** Whatever has been recorded as sent, locally or to plugins, stays recorded that way. */
  ghost predicate Stays(t: Tables, t': Tables) {
    && |t.events| <= |t'.events| && t.nextEpisode <= t'.nextEpisode
    && (forall i :: 0 <= i < |t.events| && t.events[i].sent.Some? ==> t'.events[i] == t.events[i])
    && t.resolved <= t'.resolved
  }

  lemma StepStays(s: State, a: Step, s': State)
    requires Next(s, a, s')
    ensures Stays(s.t, s'.t)
  {
  }

  lemma {:induction false} RecordsStay(states: seq<State>, steps: seq<Step>, i: nat, j: nat)
    requires Run(states, steps) && i <= j < |states|
    ensures Stays(states[i].t, states[j].t)
    decreases j
  {
    if i < j {
      RecordsStay(states, steps, i, j - 1);
      StepStays(states[j - 1], steps[j - 1], states[j]);
    }
  }

  // ---------- Repeat counts ----------

  /** Step a, leading to s', activates the episode e. */
  predicate Activates(a: Step, s': State, e: nat) {
    a.Activate? && ValidKey(a.key) && a.text != "" && a.key in s'.t.conditions && s'.t.conditions[a.key].episode == e
  }

  function Activations(states: seq<State>, steps: seq<Step>, n: nat, e: nat): nat
    requires |states| == |steps| + 1 && n <= |steps|
  {
    if n == 0 then 0 else Activations(states, steps, n - 1, e) + if Activates(steps[n - 1], states[n], e) then 1 else 0
  }

  ghost predicate RowCounted(states: seq<State>, steps: seq<Step>, n: nat, k: CondKey)
    requires |states| == |steps| + 1 && n <= |steps|
  {
    var t := states[n].t;
    k in t.conditions ==> t.conditions[k].repeatCount + 1 == Activations(states, steps, n, t.conditions[k].episode)
  }

  ghost predicate HistoryCounted(states: seq<State>, steps: seq<Step>, n: nat, i: nat)
    requires |states| == |steps| + 1 && n <= |steps|
  {
    var t := states[n].t;
    i < |t.resolved| ==> t.resolved[i].repeatCount + 1 == Activations(states, steps, n, t.resolved[i].episode)
  }

  ghost predicate NotBegun(states: seq<State>, steps: seq<Step>, n: nat, e: nat)
    requires |states| == |steps| + 1 && n <= |steps|
  {
    e >= states[n].t.nextEpisode ==> Activations(states, steps, n, e) == 0
  }

  /** Every row's repeat count is one less than the activations of its episode. */
  ghost predicate Counted(states: seq<State>, steps: seq<Step>, n: nat)
    requires |states| == |steps| + 1 && n <= |steps|
  {
    && (forall k :: RowCounted(states, steps, n, k))
    && (forall i: nat :: HistoryCounted(states, steps, n, i))
    && (forall e: nat :: NotBegun(states, steps, n, e))
  }

  predicate SameCount(c: Condition, d: Condition) {
    c.episode == d.episode && c.repeatCount == d.repeatCount
  }

  predicate RetiredFrom(r: Resolved, c: Condition) {
    r.episode == c.episode && r.repeatCount == c.repeatCount
  }

  /** The history row r is a running condition of t, retired. */
  predicate Retires(t: Tables, r: Resolved) {
    exists k :: k in t.conditions && RetiredFrom(r, t.conditions[k])
  }

  lemma RowsKept(s: State, a: Step, s': State)
    requires Next(s, a, s') && !a.Activate?
    ensures s'.t.nextEpisode == s.t.nextEpisode
    ensures forall k :: k in s'.t.conditions ==> k in s.t.conditions && SameCount(s'.t.conditions[k], s.t.conditions[k])
    ensures s.t.resolved <= s'.t.resolved
    ensures forall i :: |s.t.resolved| <= i < |s'.t.resolved| ==> Retires(s.t, s'.t.resolved[i])
  {
  }

  /** A step other than an activation changes no count, and rows keep theirs. */
  lemma QuietStepCounts(states: seq<State>, steps: seq<Step>, n: nat)
    requires Run(states, steps) && n < |steps| && Counted(states, steps, n) && !steps[n].Activate?
    ensures Counted(states, steps, n + 1)
  {
    var t, t', m := states[n].t, states[n + 1].t, n + 1;
    RowsKept(states[n], steps[n], states[n + 1]);
    forall k ensures RowCounted(states, steps, m, k) {
      assert RowCounted(states, steps, n, k);
    }
    forall i: nat ensures HistoryCounted(states, steps, m, i) {
      assert HistoryCounted(states, steps, n, i);
      if |t.resolved| <= i < |t'.resolved| {
        var r := t'.resolved[i];
        assert Retires(t, r);
        var k :| k in t.conditions && RetiredFrom(r, t.conditions[k]);
        assert RowCounted(states, steps, n, k);
      } else if i < |t.resolved| {
        assert t'.resolved[i] == t.resolved[i];
      }
    }
    forall e: nat ensures NotBegun(states, steps, m, e) {
      assert NotBegun(states, steps, n, e);
    }
  }

  lemma ActivationCounts(states: seq<State>, steps: seq<Step>, n: nat)
    requires Run(states, steps) && n < |steps| && Counted(states, steps, n)
    requires steps[n].Activate? && Numbered(states[n].t)
    ensures Counted(states, steps, n + 1)
  {
    var t, m := states[n].t, n + 1;
    assert Next(states[n], steps[n], states[n + 1]);
    forall x ensures RowCounted(states, steps, m, x) {
      assert RowCounted(states, steps, n, x) && NotBegun(states, steps, n, t.nextEpisode);
    }
    forall i: nat ensures HistoryCounted(states, steps, m, i) {
      assert HistoryCounted(states, steps, n, i);
    }
    forall e: nat ensures NotBegun(states, steps, m, e) {
      assert NotBegun(states, steps, n, e);
    }
  }

  lemma {:induction false} RunCounted(states: seq<State>, steps: seq<Step>, n: nat)
    requires Run(states, steps) && n <= |steps|
    ensures Counted(states, steps, n)
  {
    if n > 0 {
      RunCounted(states, steps, n - 1);
      RunNumbered(states, steps, n - 1);
      if steps[n - 1].Activate? {
        ActivationCounts(states, steps, n - 1);
      } else {
        QuietStepCounts(states, steps, n - 1);
      }
    }
  }

  /** A resolved condition's history row says how often it was raised: its repeat count is the
      number of activations of that episode, less the first.  No episode has two history rows. */
  lemma ResolvedRowsCount(states: seq<State>, steps: seq<Step>, n: nat, i: nat)
    requires Run(states, steps) && n <= |steps| && i < |states[n].t.resolved|
    ensures states[n].t.resolved[i].repeatCount == Activations(states, steps, n, states[n].t.resolved[i].episode) - 1
    ensures var rs := states[n].t.resolved; forall j :: 0 <= j < |rs| && rs[j].episode == rs[i].episode ==> j == i
  {
    RunCounted(states, steps, n);
    RunNumbered(states, steps, n);
    assert HistoryCounted(states, steps, n, i);
  }

  // ---------- Whom a mark hits ----------

  function RefsOf(p: Phase): seq<CondKey>
    requires !p.Idle?
  {
    p.refs.localConds + p.refs.sentConds
  }

  /** In the course of a run, a collected key's row is the collected one exactly while its episode
      is older than the collection. */
  ghost predicate SameRowWhileOlder(t0: Tables, s: State) {
    !s.phase.Idle? ==>
      && s.phase.asOf == t0.nextEpisode <= s.t.nextEpisode
      && (forall k :: k in RefsOf(s.phase) ==> PendingCond(t0, k))
      && (forall k :: k in t0.conditions ==> t0.conditions[k].episode < t0.nextEpisode)
      && (forall k :: k in s.t.conditions && k in RefsOf(s.phase) ==>
            (s.t.conditions[k].episode < s.phase.asOf <==> s.t.conditions[k].episode == t0.conditions[k].episode))
  }

  lemma CollectStartsRun(s: State, a: Step, s': State)
    requires Numbered(s.t) && Next(s, a, s') && a.Collect?
    ensures SameRowWhileOlder(s.t, s')
  {
  }

  lemma RunContinues(t0: Tables, s: State, a: Step, s': State)
    requires SameRowWhileOlder(t0, s) && !s.phase.Idle? && Next(s, a, s')
    ensures SameRowWhileOlder(t0, s')
  {
  }

  /** The run in progress in s began with the collection step a taken from s0. */
  predicate CollectedBy(s: State, s0: State, a: Step) {
    a.Collect? && !s.phase.Idle? && s.phase.refs == a.refs && s.phase.asOf == s0.t.nextEpisode
  }

  lemma {:induction false} CurrentCollection(states: seq<State>, steps: seq<Step>, n: nat) returns (i: nat)
    requires Run(states, steps) && n < |states| && !states[n].phase.Idle?
    ensures i < n && CollectedBy(states[n], states[i], steps[i]) && SameRowWhileOlder(states[i].t, states[n])
  {
    assert Next(states[n - 1], steps[n - 1], states[n]);
    if steps[n - 1].Collect? {
      i := n - 1;
      RunNumbered(states, steps, i);
      CollectStartsRun(states[i], steps[i], states[n]);
    } else {
      i := CurrentCollection(states, steps, n - 1);
      RunContinues(states[i].t, states[n - 1], steps[n - 1], states[n]);
    }
  }

  /** When a run comes to mark a collected key, the row it finds is the episode it selected if and
      only if that episode began before the collection; otherwise the mark silences an episode
      nobody was told about. */
  lemma MarkHitsSelectedExactly(states: seq<State>, steps: seq<Step>, n: nat, k: CondKey)
    requires Run(states, steps) && n < |states| && !states[n].phase.Idle?
    requires k in RefsOf(states[n].phase) && k in states[n].t.conditions
    ensures exists i :: 0 <= i < n && CollectedBy(states[n], states[i], steps[i])
                        && (states[n].t.conditions[k].episode < states[n].phase.asOf
                            <==> Selects(states[i], steps[i], states[n].t.conditions[k].episode))
  {
    var i := CurrentCollection(states, steps, n);
    RunNumbered(states, steps, i);
    assert k in states[i].t.conditions && PendingCond(states[i].t, k);
  }

  // ---------- Whatever is marked was listed ----------

  /** Collection step a lists event id, for sending or for the local record. */
  predicate ListsEvent(a: Step, id: nat, out: bool) {
    a.Collect? && if out then id in a.refs.sentEvents else id in a.refs.localEvents
  }

  predicate ListsCond(a: Step, k: CondKey) {
    a.Collect? && (k in a.refs.localConds || k in a.refs.sentConds)
  }

  /** Only a mark of a listed event changes an event. */
  lemma EventMarkedBy(s: State, a: Step, s': State, id: nat)
    requires Next(s, a, s') && id < |s.t.events| && s.t.events[id].sent.None? && s'.t.events[id].sent.Some?
    ensures !s.phase.Idle?
    ensures if s'.t.events[id].sent.value then s.phase.SentOut? && id in s.phase.refs.sentEvents
            else id in s.phase.refs.localEvents
    ensures s'.t.events[id] == s.t.events[id].(sent := s'.t.events[id].sent)
  {
  }

  /** A run that has sent something out did so after its collection. */
  lemma {:induction false} SentBefore(states: seq<State>, steps: seq<Step>, n: nat) returns (i: nat, m: nat)
    requires Run(states, steps) && n < |states| && states[n].phase.SentOut?
    ensures i < m < n && CollectedBy(states[n], states[i], steps[i]) && steps[m].Send?
  {
    assert Next(states[n - 1], steps[n - 1], states[n]);
    if steps[n - 1].Send? {
      m := n - 1;
      i := CurrentCollection(states, steps, n - 1);
    } else {
      i, m := SentBefore(states, steps, n - 1);
    }
  }

  /** The mark of an event at step n goes back to a collection that listed it, and to a send if it says
      that the event went to the plugins. */
  ghost predicate Accounted(states: seq<State>, steps: seq<Step>, n: nat, id: nat, out: bool, i: nat)
    requires |states| == |steps| + 1 && n <= |steps|
  {
    && i < n && SelectsEvent(states[i], steps[i], id) && ListsEvent(steps[i], id, out)
    && (out ==> exists m :: i < m < n && steps[m].Send?)
  }

  lemma MarkAccounted(states: seq<State>, steps: seq<Step>, n: nat, id: nat) returns (i: nat)
    requires Run(states, steps) && n < |steps| && id < |states[n].t.events|
    requires states[n].t.events[id].sent.None? && states[n + 1].t.events[id].sent.Some?
    ensures Accounted(states, steps, n + 1, id, states[n + 1].t.events[id].sent.value, i)
  {
    assert Next(states[n], steps[n], states[n + 1]);
    EventMarkedBy(states[n], steps[n], states[n + 1], id);
    if states[n + 1].t.events[id].sent.value {
      var m;
      i, m := SentBefore(states, steps, n);
    } else {
      i := CurrentCollection(states, steps, n);
    }
    assert Next(states[i], steps[i], states[i + 1]);
  }

  lemma AccountedLater(states: seq<State>, steps: seq<Step>, n: nat, id: nat, out: bool, i: nat)
    requires |states| == |steps| + 1 && n < |steps| && Accounted(states, steps, n, id, out, i)
    ensures Accounted(states, steps, n + 1, id, out, i)
  {
  }

  /** In every run an event stays pending until a collection lists it, and is recorded as sent to
      plugins only if that collection listed it for sending and a send followed. */
  lemma {:induction false} MarkedEventWasListed(states: seq<State>, steps: seq<Step>, n: nat, id: nat)
    requires Run(states, steps) && n < |states| && id < |states[n].t.events| && states[n].t.events[id].sent.Some?
    ensures exists i :: Accounted(states, steps, n, id, states[n].t.events[id].sent.value, i)
  {
    assert n > 0;
    assert Next(states[n - 1], steps[n - 1], states[n]);
    StepStays(states[n - 1], steps[n - 1], states[n]);
    if id < |states[n - 1].t.events| && states[n - 1].t.events[id].sent.Some? {
      MarkedEventWasListed(states, steps, n - 1, id);
      var out := states[n].t.events[id].sent.value;
      var i :| Accounted(states, steps, n - 1, id, out, i);
      AccountedLater(states, steps, n - 1, id, out, i);
    } else {
      var i := MarkAccounted(states, steps, n - 1, id);
    }
  }

  lemma CondMarkedBy(s: State, a: Step, s': State, k: CondKey)
    requires Next(s, a, s') && k in s'.t.conditions && s'.t.conditions[k].notified
    requires !(k in s.t.conditions && s.t.conditions[k].notified)
    ensures !s.phase.Idle? && k in RefsOf(s.phase)
  {
  }

  /** A condition that is marked was listed, under its key, by some collection. */
  lemma {:induction false} MarkedCondWasListed(states: seq<State>, steps: seq<Step>, n: nat, k: CondKey)
    requires Run(states, steps) && n < |states| && k in states[n].t.conditions && states[n].t.conditions[k].notified
    ensures exists i :: 0 <= i < n && ListsCond(steps[i], k)
  {
    assert n > 0;
    assert Next(states[n - 1], steps[n - 1], states[n]);
    if k in states[n - 1].t.conditions && states[n - 1].t.conditions[k].notified {
      MarkedCondWasListed(states, steps, n - 1, k);
    } else {
      CondMarkedBy(states[n - 1], steps[n - 1], states[n], k);
      var i := CurrentCollection(states, steps, n - 1);
      assert ListsCond(steps[i], k);
    }
  }

  // ---------- What a finished run has done ----------

  /** The run in progress will mark event id this way. */
  predicate WillMark(p: Phase, id: nat, out: bool) {
    match p
    case Idle => false
    case Collected(refs, sends, _) => if out then sends && id in refs.sentEvents && id !in refs.localEvents
                                      else id in refs.localEvents
    case LocalMarked(refs, sends, _) => out && sends && id in refs.sentEvents
    case SentOut(refs, _) => out && id in refs.sentEvents
  }

  ghost predicate OnItsWay(s: State, id: nat, out: bool) {
    && id < |s.t.events|
    && (s.t.events[id].sent == Some(out) || (s.t.events[id].sent.None? && WillMark(s.phase, id, out)))
  }

  lemma WayGoesOn(s: State, a: Step, s': State, id: nat, out: bool)
    requires OnItsWay(s, id, out) && Next(s, a, s') && !a.Abort?
    ensures OnItsWay(s', id, out)
  {
  }

  lemma {:induction false} WayAlong(states: seq<State>, steps: seq<Step>, i: nat, j: nat, id: nat)
    requires Run(states, steps) && i < j < |states| && SelectsEvent(states[i], steps[i], id) && NoAbort(steps, i, j)
    ensures OnItsWay(states[j], id, EventGoesOut(states[i].t, steps[i].mutes, steps[i].plugins, id))
    decreases j
  {
    assert Next(states[i], steps[i], states[i + 1]);
    if i + 1 < j {
      WayAlong(states, steps, i, j - 1, id);
      WayGoesOn(states[j - 1], steps[j - 1], states[j], id,
                EventGoesOut(states[i].t, steps[i].mutes, steps[i].plugins, id));
    }
  }

  /** Once a run has come to its end without breaking off, every event that was pending when it began
      is recorded: as sent to plugins exactly when there are plugins and nothing mutes it. */
  lemma FinishedRunRecords(states: seq<State>, steps: seq<Step>, i: nat, j: nat, id: nat)
    requires Run(states, steps) && i < j < |states| && SelectsEvent(states[i], steps[i], id)
    requires NoAbort(steps, i, j) && states[j].phase.Idle?
    ensures var e := states[i].t.events[id];
      && id < |states[j].t.events|
      && states[j].t.events[id].sent == Some(steps[i].plugins && !Muted(e.name, e.message, steps[i].mutes))
  {
    WayAlong(states, steps, i, j, id);
  }

  /** And every condition episode that was pending then is marked, unless it is over. */
  lemma FinishedRunMarks(states: seq<State>, steps: seq<Step>, i: nat, j: nat, e: nat, k: CondKey)
    requires Run(states, steps) && i < j < |states| && Selects(states[i], steps[i], e)
    requires NoAbort(steps, i, j) && states[j].phase.Idle?
    requires k in states[j].t.conditions && states[j].t.conditions[k].episode == e
    ensures states[j].t.conditions[k].notified
  {
    CareAlong(states, steps, i, j, e);
  }

  // ---------- A run can always end ----------

  lemma RunGoesOn(states: seq<State>, steps: seq<Step>, a: Step, s': State)
    requires Run(states, steps) && Next(states[|steps|], a, s')
    ensures Run(states + [s'], steps + [a])
  {
  }

  /** What is left of the run in progress. */
  function LeftOf(p: Phase): seq<Step> {
    match p
    case Idle => []
    case Collected(_, sends, _) => if sends then [MarkLocal, Send, MarkSent] else [MarkLocal, Finish]
    case LocalMarked(_, sends, _) => if sends then [Send, MarkSent] else [Finish]
    case SentOut(_, _) => [MarkSent]
  }

  /** A run in progress can always be brought to its end, step by step and without breaking off. */
  lemma {:induction false} RunCanEnd(states: seq<State>, steps: seq<Step>) returns (states': seq<State>)
    requires Run(states, steps)
    ensures Run(states', steps + LeftOf(states[|steps|].phase)) && states <= states'
    ensures states'[|states'| - 1].phase.Idle?
    decreases |LeftOf(states[|steps|].phase)|
  {
    var s := states[|steps|];
    var rest := LeftOf(s.phase);
    if rest == [] {
      states' := states;
      assert steps + rest == steps;
    } else {
      var s' := match s.phase
        case Collected(refs, sends, asOf) =>
          State(Marked(s.t, refs.localEvents, refs.localConds, false), LocalMarked(refs, sends, asOf))
        case LocalMarked(refs, sends, asOf) => if sends then s.(phase := SentOut(refs, asOf)) else s.(phase := Idle)
        case SentOut(refs, _) => State(Marked(s.t, refs.sentEvents, refs.sentConds, true), Idle)
        case Idle => s;
      RunGoesOn(states, steps, rest[0], s');
      states' := RunCanEnd(states + [s'], steps + [rest[0]]);
      assert LeftOf(s'.phase) == rest[1..];
      assert steps + [rest[0]] + rest[1..] == steps + rest;
    }
  }

  // ---------- Two runs that show the limits ----------

  /** A condition resolved and raised again between collection and marking is marked as notified
      although no collection ever selected it. */
  lemma SilencedEpisode(k: CondKey) returns (states: seq<State>, steps: seq<Step>)
    requires ValidKey(k)
    ensures Run(states, steps) && states[|steps|].phase.Idle?
    ensures k in states[|steps|].t.conditions && states[|steps|].t.conditions[k].notified
    ensures forall i :: 0 <= i < |steps| ==> !Selects(states[i], steps[i], states[|steps|].t.conditions[k].episode)
  {
    var refs := Refs([], [], [], [k]);
    var down := Activate(k, "down");
    steps := [down, Collect([], true, refs, true), Resolve(k), down, MarkLocal, Send, MarkSent];
    var s1 := State(Activated(EMPTY, k, "down"), Idle);
    var s2 := s1.(phase := Collected(refs, true, 1));
    var s3 := s2.(t := ResolvedCondition(s2.t, k));
    var s4 := s3.(t := Activated(s3.t, k, "down"));
    var s5 := State(Marked(s4.t, [], [], false), LocalMarked(refs, true, 1));
    var s6 := s5.(phase := SentOut(refs, 1));
    var s7 := State(Marked(s6.t, [], [k], true), Idle);
    states := [START, s1, s2, s3, s4, s5, s6, s7];
  }

  /** A run that breaks off between sending and marking is repeated: the same episode is selected
      twice. */
  lemma BrokenRunRepeats(k: CondKey) returns (states: seq<State>, steps: seq<Step>)
    requires ValidKey(k)
    ensures Run(states, steps) && |steps| == 6
    ensures Selects(states[1], steps[1], 0) && Selects(states[5], steps[5], 0)
  {
    var refs := Refs([], [], [], [k]);
    var collect := Collect([], true, refs, true);
    steps := [Activate(k, "down"), collect, MarkLocal, Send, Abort, collect];
    var s1 := State(Activated(EMPTY, k, "down"), Idle);
    var s2 := s1.(phase := Collected(refs, true, 1));
    var s3 := State(Marked(s2.t, [], [], false), LocalMarked(refs, true, 1));
    var s4 := s3.(phase := SentOut(refs, 1));
    var s5 := s4.(phase := Idle);
    assert s3.t.conditions == s1.t.conditions && s3.t.events == s1.t.events;
    assert PendingCond(s1.t, k) && PendingCond(s5.t, k);
    states := [START, s1, s2, s3, s4, s5, s5.(phase := Collected(refs, true, 1))];
  }
}
