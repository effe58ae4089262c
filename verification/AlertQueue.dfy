/** The alert tables: one-shot events, ongoing conditions, and the calls and alert runs that
    change them. */
module AlertQueue {
  import opened Basics

  datatype CondKey = CondKey(system: string, subsystem: string, condition: string)

  /** A row of alert_conditions.  `episode` numbers the rows in the order they were created; it
      stands for the row's identity across a resolve and a new activation. */
  datatype Condition = Condition(message: string, repeatCount: nat, notified: bool, episode: nat)

  /** A row of alert_history with kind 'event'; `sent` is None while sent_at is null, then whether
      it went to plugins. */
  datatype Event = Event(name: string, message: string, sent: Option<bool>)

  /** A row of alert_history with kind 'condition'. */
  datatype Resolved = Resolved(key: CondKey, episode: nat, repeatCount: nat)

  datatype Tables = Tables(
    conditions: map<CondKey, Condition>,
    events: seq<Event>,
    resolved: seq<Resolved>,
    nextEpisode: nat)

  const EMPTY := Tables(map[], [], [], 0)

  function AlertName(k: CondKey): string {
    k.system + "_" + k.subsystem + "_" + k.condition
  }

  predicate ValidKey(k: CondKey) {
    k.system != "" && k.subsystem != "" && k.condition != ""
  }

  // ---------- Calls from the rest of the system ----------

  function Emitted(t: Tables, system: string, subsystem: string, message: string): Tables {
    if system == "" || subsystem == "" || message == "" then t
    else t.(events := t.events + [Event(system + "_" + subsystem, message, None)])
  }

  /** Insert, or bump the row in place: the notification mark and the episode stay. */
  function Activated(t: Tables, k: CondKey, message: string): Tables {
    if !ValidKey(k) || message == "" then t
    else if k in t.conditions then
      var c := t.conditions[k];
      t.(conditions := t.conditions[k := c.(message := message, repeatCount := c.repeatCount + 1)])
    else
      t.(conditions := t.conditions[k := Condition(message, 0, false, t.nextEpisode)], nextEpisode := t.nextEpisode + 1)
  }

  /** Move the row, if any, to the history. */
  function ResolvedCondition(t: Tables, k: CondKey): Tables {
    if !ValidKey(k) || k !in t.conditions then t
    else
      t.(conditions := t.conditions - {k},
         resolved := t.resolved + [Resolved(k, t.conditions[k].episode, t.conditions[k].repeatCount)])
  }

  // ---------- Mutes ----------

  datatype Mute = Mute(name: string, pattern: Option<string>)

  predicate OccursAt(s: string, sub: string, i: nat) {
    i + |sub| <= |s| && s[i..i + |sub|] == sub
  }

  predicate Contains(s: string, sub: string) {
    exists i :: 0 <= i <= |s| && OccursAt(s, sub, i)
  }

  predicate Around(s: string, before: string, sub: string, behind: string) {
    s == before + sub + behind
  }

  lemma ContainsExactly(s: string, sub: string)
    ensures Contains(s, sub) <==> exists before, behind :: Around(s, before, sub, behind)
  {
    if i :| 0 <= i <= |s| && OccursAt(s, sub, i) {
      assert Around(s, s[..i], sub, s[i + |sub|..]);
    }
    if before, behind :| Around(s, before, sub, behind) {
      assert OccursAt(s, sub, |before|);
    }
  }

  predicate MutedBy(m: Mute, name: string, message: string) {
    && (m.name == name || m.name == "others")
    && (m.pattern.None? || m.pattern.value == "" || Contains(message, m.pattern.value))
  }

  predicate Muted(name: string, message: string, mutes: seq<Mute>) {
    exists m :: m in mutes && MutedBy(m, name, message)
  }

  method IsAlertMuted(name: string, message: string, mutes: seq<Mute>) returns (muted: bool)
    ensures muted == Muted(name, message, mutes)
    ensures muted <==> exists m ::
      && m in mutes && (m.name == name || m.name == "others")
      && (m.pattern.None? || m.pattern.value == "" || Contains(message, m.pattern.value))
  {
    for i := 0 to |mutes|
      invariant forall j :: 0 <= j < i ==> !MutedBy(mutes[j], name, message)
    {
      var mute := mutes[i];
      if mute.name != name && mute.name != "others" {
        continue;
      }
      if mute.pattern.None? || mute.pattern.value == "" {
        assert MutedBy(mutes[i], name, message);
        return true;
      }
      if Contains(message, mute.pattern.value) {
        assert MutedBy(mutes[i], name, message);
        return true;
      }
    }
    return false;
  }

  // ---------- Collecting ----------

  datatype Refs = Refs(localEvents: seq<nat>, sentEvents: seq<nat>, localConds: seq<CondKey>, sentConds: seq<CondKey>)

  predicate PendingEvent(t: Tables, id: nat) {
    id < |t.events| && t.events[id].sent.None?
  }

  predicate PendingCond(t: Tables, k: CondKey) {
    k in t.conditions && !t.conditions[k].notified
  }

  /** Goes to the plugins rather than being recorded locally only. */
  predicate EventGoesOut(t: Tables, mutes: seq<Mute>, plugins: bool, id: nat)
    requires id < |t.events|
  {
    plugins && !Muted(t.events[id].name, t.events[id].message, mutes)
  }

  predicate CondGoesOut(t: Tables, mutes: seq<Mute>, plugins: bool, k: CondKey) {
    k in t.conditions && plugins && !Muted(AlertName(k), t.conditions[k].message, mutes)
  }

  /** What a collection yields: every pending row in exactly one list, the right one. */
  ghost predicate Collects(t: Tables, mutes: seq<Mute>, plugins: bool, refs: Refs) {
    && (forall id :: id in refs.localEvents <==> PendingEvent(t, id) && !EventGoesOut(t, mutes, plugins, id))
    && (forall id :: id in refs.sentEvents <==> PendingEvent(t, id) && EventGoesOut(t, mutes, plugins, id))
    && (forall k :: k in refs.localConds <==> PendingCond(t, k) && !CondGoesOut(t, mutes, plugins, k))
    && (forall k :: k in refs.sentConds <==> PendingCond(t, k) && CondGoesOut(t, mutes, plugins, k))
  }

  /** The pending event puts the name x into the payload. */
  predicate EventNames(t: Tables, mutes: seq<Mute>, id: nat, x: string) {
    PendingEvent(t, id) && x == t.events[id].name && !Muted(x, t.events[id].message, mutes)
  }

  predicate CondNames(t: Tables, mutes: seq<Mute>, k: CondKey, x: string) {
    && PendingCond(t, k) && x == k.system + "_" + k.subsystem + "_" + k.condition
    && !Muted(x, t.conditions[k].message, mutes)
  }

  // ---------- Marking ----------

  function MarkedEvents(t: Tables, ids: seq<nat>, toPlugins: bool): Tables {
    t.(events := seq(|t.events|, i requires 0 <= i < |t.events| =>
      if i in ids && t.events[i].sent.None? then t.events[i].(sent := Some(toPlugins)) else t.events[i]))
  }

  function MarkedConds(t: Tables, keys: seq<CondKey>): Tables {
    t.(conditions := map k | k in t.conditions ::
      if k in keys then t.conditions[k].(notified := true) else t.conditions[k])
  }

  function Marked(t: Tables, ids: seq<nat>, keys: seq<CondKey>, toPlugins: bool): Tables {
    MarkedConds(MarkedEvents(t, ids, toPlugins), keys)
  }

  /** Row by row: an event changes exactly when it is named and pending, a condition exactly when it is
      named, and then only in its mark. */
  lemma MarkedExactly(t: Tables, ids: seq<nat>, keys: seq<CondKey>, toPlugins: bool)
    ensures var m := Marked(t, ids, keys, toPlugins);
      && m == t.(events := m.events, conditions := m.conditions)
      && |m.events| == |t.events| && m.conditions.Keys == t.conditions.Keys
      && (forall i: nat :: i < |t.events| ==>
            m.events[i] == if i in ids && PendingEvent(t, i) then t.events[i].(sent := Some(toPlugins))
                           else t.events[i])
      && (forall k :: k in t.conditions ==>
            m.conditions[k] == if k in keys then t.conditions[k].(notified := true) else t.conditions[k])
  {
  }

  class AlertTables {
    var t: Tables

    constructor ()
      ensures t == EMPTY
    {
      t := EMPTY;
    }

    method EmitEvent(system: string, subsystem: string, message: string) returns (ok: bool)
      modifies this
      ensures t == Emitted(old(t), system, subsystem, message)
      ensures ok <==> system != "" && subsystem != "" && message != ""
      ensures !ok ==> t == old(t)
      ensures ok ==>
        && old(t.events) < t.events && |t.events| == |old(t.events)| + 1 && PendingEvent(t, |old(t.events)|)
        && t.events[|old(t.events)|].name == system + "_" + subsystem
        && t.events[|old(t.events)|].message == message
        && t == old(t).(events := t.events)
    {
      if system == "" || subsystem == "" || message == "" {
        return false;
      }
      t := t.(events := t.events + [Event(system + "_" + subsystem, message, None)]);
      return true;
    }

    method ActivateCondition(k: CondKey, message: string) returns (ok: bool)
      modifies this
      ensures t == Activated(old(t), k, message)
      ensures ok <==> k.system != "" && k.subsystem != "" && k.condition != "" && message != ""
      ensures !ok ==> t == old(t)
      ensures forall j :: j != k ==> (j in t.conditions <==> j in old(t.conditions))
      ensures forall j :: j != k && j in t.conditions ==> t.conditions[j] == old(t.conditions[j])
      ensures t.events == old(t.events) && t.resolved == old(t.resolved)
      ensures ok ==> k in t.conditions && t.conditions[k].message == message
      ensures ok && k in old(t.conditions) ==>
        && k in t.conditions && t.nextEpisode == old(t.nextEpisode)
        && t.conditions[k].episode == old(t.conditions[k].episode)
        && t.conditions[k].notified == old(t.conditions[k].notified)
        && t.conditions[k].repeatCount == old(t.conditions[k].repeatCount) + 1
      ensures ok && k !in old(t.conditions) ==>
        && PendingCond(t, k) && t.conditions[k].repeatCount == 0
        && t.conditions[k].episode == old(t.nextEpisode) < t.nextEpisode
    {
      if k.system == "" || k.subsystem == "" || k.condition == "" || message == "" {
        return false;
      }
      if k in t.conditions {
        var c := t.conditions[k];
        t := t.(conditions := t.conditions[k := c.(message := message, repeatCount := c.repeatCount + 1)]);
      } else {
        t := t.(conditions := t.conditions[k := Condition(message, 0, false, t.nextEpisode)],
          nextEpisode := t.nextEpisode + 1);
      }
      return true;
    }

    method ResolveCondition(k: CondKey) returns (ok: bool)
      modifies this
      ensures t == ResolvedCondition(old(t), k)
      ensures ok <==> k.system != "" && k.subsystem != "" && k.condition != ""
      ensures t == old(t).(conditions := t.conditions, resolved := t.resolved)
      ensures forall j :: j in t.conditions <==> j in old(t.conditions) && !(ok && j == k)
      ensures forall j :: j in t.conditions ==> t.conditions[j] == old(t.conditions[j])
      ensures ok && k in old(t.conditions) ==>
        t.resolved == old(t.resolved) + [Resolved(k, old(t.conditions[k]).episode, old(t.conditions[k]).repeatCount)]
      ensures !ok || k !in old(t.conditions) ==> t == old(t)
    {
      if k.system == "" || k.subsystem == "" || k.condition == "" {
        return false;
      }
      if k in t.conditions {
        var c := t.conditions[k];
        t := t.(conditions := t.conditions - {k}, resolved := t.resolved + [Resolved(k, c.episode, c.repeatCount)]);
      }
      return true;
    }

    /** The event half of collectQueuedAlerts; `names` are the alert names put into the payload. */
    method CollectEvents(mutes: seq<Mute>, plugins: bool) returns (local: seq<nat>, sent: seq<nat>, names: set<string>)
      ensures forall id :: id in local <==> PendingEvent(t, id) && !EventGoesOut(t, mutes, plugins, id)
      ensures forall id :: id in sent <==> PendingEvent(t, id) && EventGoesOut(t, mutes, plugins, id)
      ensures forall x :: x in names <==> exists id :: EventNames(t, mutes, id, x)
    {
      local, sent, names := [], [], {};
      for id := 0 to |t.events|
        invariant forall i: nat :: i in local <==> i < id && PendingEvent(t, i) && !EventGoesOut(t, mutes, plugins, i)
        invariant forall i: nat :: i in sent <==> i < id && PendingEvent(t, i) && EventGoesOut(t, mutes, plugins, i)
        invariant forall x :: x in names <==> exists i: nat :: i < id && EventNames(t, mutes, i, x)
      {
        if t.events[id].sent.None? {
          var muted := IsAlertMuted(t.events[id].name, t.events[id].message, mutes);
          if muted {
            local := local + [id];
          } else {
            assert EventNames(t, mutes, id, t.events[id].name);
            names := names + {t.events[id].name};
            if plugins {
              sent := sent + [id];
            } else {
              local := local + [id];
            }
          }
        }
      }
    }

    /** The condition half; `pending` lists the rows not yet notified. */
    method CollectConds(mutes: seq<Mute>, plugins: bool, pending: seq<CondKey>)
      returns (local: seq<CondKey>, sent: seq<CondKey>, names: set<string>)
      requires forall k :: k in pending <==> PendingCond(t, k)
      ensures forall k :: k in local <==> PendingCond(t, k) && !CondGoesOut(t, mutes, plugins, k)
      ensures forall k :: k in sent <==> PendingCond(t, k) && CondGoesOut(t, mutes, plugins, k)
      ensures forall x :: x in names <==> exists k :: CondNames(t, mutes, k, x)
    {
      local, sent, names := [], [], {};
      for i := 0 to |pending|
        invariant forall k :: k in local <==> k in pending[..i] && !CondGoesOut(t, mutes, plugins, k)
        invariant forall k :: k in sent <==> k in pending[..i] && CondGoesOut(t, mutes, plugins, k)
        invariant forall x :: x in names <==> exists k :: k in pending[..i] && CondNames(t, mutes, k, x)
      {
        var k := pending[i];
        assert pending[..i + 1] == pending[..i] + [k] && k in pending;
        var muted := IsAlertMuted(AlertName(k), t.conditions[k].message, mutes);
        if muted {
          local := local + [k];
        } else {
          assert CondNames(t, mutes, k, AlertName(k));
          names := names + {AlertName(k)};
          if plugins {
            sent := sent + [k];
          } else {
            local := local + [k];
          }
        }
      }
      assert pending[..|pending|] == pending;
    }

    /** Every pending row ends in exactly one list, and a run with anything to send has a payload. */
    method CollectQueuedAlerts(mutes: seq<Mute>, plugins: bool, pending: seq<CondKey>)
      returns (refs: Refs, details: set<string>)
      requires forall k :: k in pending <==> PendingCond(t, k)
      ensures Collects(t, mutes, plugins, refs)
      ensures forall x ::
        x in details <==> (exists id :: EventNames(t, mutes, id, x)) || (exists k :: CondNames(t, mutes, k, x))
      ensures refs.sentEvents != [] || refs.sentConds != [] ==> details != {}
      ensures forall id: nat :: id < |t.events| && t.events[id].sent.None? ==>
        Muted(t.events[id].name, t.events[id].message, mutes) || t.events[id].name in details
      ensures forall x :: x in details ==>
        || (exists id: nat :: id < |t.events| && t.events[id].name == x && !Muted(x, t.events[id].message, mutes))
        || (exists k :: k in t.conditions && AlertName(k) == x && !Muted(x, t.conditions[k].message, mutes))
      ensures forall id: nat :: id < |t.events| && t.events[id].sent.None? ==>
        (id in refs.sentEvents <==> plugins && !Muted(t.events[id].name, t.events[id].message, mutes))
      ensures forall k :: k in t.conditions && !t.conditions[k].notified ==>
        (k in refs.sentConds <==> plugins && !Muted(AlertName(k), t.conditions[k].message, mutes))
    {
      var localEvents, sentEvents, names := CollectEvents(mutes, plugins);
      var localConds, sentConds, more := CollectConds(mutes, plugins, pending);
      refs, details := Refs(localEvents, sentEvents, localConds, sentConds), names + more;
      forall id: nat | PendingEvent(t, id) && !Muted(t.events[id].name, t.events[id].message, mutes)
        ensures t.events[id].name in details
      {
        assert EventNames(t, mutes, id, t.events[id].name);
      }
      if sentEvents != [] {
        assert sentEvents[0] in sentEvents;
        assert EventNames(t, mutes, sentEvents[0], t.events[sentEvents[0]].name);
        assert t.events[sentEvents[0]].name in details;
      } else if sentConds != [] {
        assert sentConds[0] in sentConds;
        assert CondNames(t, mutes, sentConds[0], AlertName(sentConds[0]));
        assert AlertName(sentConds[0]) in details;
      }
    }

    /** markQueuedAlertsProcessed: one update for the events, one per condition key. */
    method MarkQueuedAlertsProcessed(ids: seq<nat>, keys: seq<CondKey>, toPlugins: bool)
      modifies this
      ensures t == Marked(old(t), ids, keys, toPlugins)
      ensures t == old(t).(events := t.events, conditions := t.conditions)
      ensures |t.events| == |old(t.events)| && t.conditions.Keys == old(t.conditions).Keys
      ensures forall i: nat :: i < |t.events| ==>
        t.events[i] == if i in ids && PendingEvent(old(t), i) then old(t.events[i]).(sent := Some(toPlugins))
                       else old(t.events[i])
      ensures forall k :: k in t.conditions ==>
        t.conditions[k] == if k in keys then old(t.conditions[k]).(notified := true) else old(t.conditions[k])
    {
      if |ids| > 0 {
        t := MarkedEvents(t, ids, toPlugins);
      }
      assert t == MarkedEvents(old(t), ids, toPlugins);
      ghost var evented := t;
      for i := 0 to |keys|
        invariant t == MarkedConds(evented, keys[..i])
      {
        assert keys[..i + 1] == keys[..i] + [keys[i]];
        if keys[i] in t.conditions && !t.conditions[keys[i]].notified {
          t := t.(conditions := t.conditions[keys[i] := t.conditions[keys[i]].(notified := true)]);
        }
        assert t.conditions == MarkedConds(evented, keys[..i + 1]).conditions;
      }
      assert keys[..|keys|] == keys;
      MarkedExactly(old(t), ids, keys, toPlugins);
    }
  }
}
