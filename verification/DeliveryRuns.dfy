/**
 Notifications over whole runs: where every due alert ends up, how many a channel receives
 in an hour, and how far apart two notifications of one incident are.
 */
module DeliveryRuns {
  import opened Prelude
  import opened Identity
  import opened IncidentStore
  import opened Throttling
  import opened Alerts
  import opened AlertRuns

  /** The incident an ingested event lands on: the open one, or the one it opens. */
  ghost function Target(db: DB, e: Event): int {
    match OpenId(db, GroupFingerprint(e))
    case Some(id) => id
    case None => db.nextId
  }

  /** A notification is due unless the event is deduplicated into a recently notified incident. */
  ghost predicate Due(cfg: Settings, db: DB, step: Step) {
    step.Ingest? &&
    match OpenId(db, GroupFingerprint(step.e))
    case Some(id) => !WithinWindow(cfg, db.rows[id], step.now)
    case None => true
  }

  /** The store call, if any, whose failure ends this ingest before it can notify. */
  ghost predicate Interrupted(db: DB, step: Step)
    requires step.Ingest?
  {
    || step.fail == Some(AtGet)
    || (step.fail == Some(AtAddMember) && step.e.url != "")
    || step.fail == if OpenId(db, GroupFingerprint(step.e)).Some? then Some(AtUpdate) else Some(AtOpen)
  }

  ghost predicate Notifies(cfg: Settings, db: DB, step: Step) {
    Due(cfg, db, step) && !Interrupted(db, step)
  }

  /** What a step adds to the log and does to the windows. */
  lemma StepDelivers(cfg: Settings, st: State, step: Step)
    ensures var after := Apply(cfg, st, step);
      if Notifies(cfg, st.db, step) then
        var v := AllowSpec(cfg.hourlyCap, st.windows, step.clk, ThrottleKey(cfg, step.e), step.e.severity);
        && |after.log| == |st.log| + 1 && after.log[..|st.log|] == st.log && after.windows == v.windows
        && var d := after.log[|st.log|];
           && d.event == step.e && d.incident == Target(st.db, step.e) && d.at == step.now && d.clk == step.clk
           && d.key == ThrottleKey(cfg, step.e) && d.fate == FateOf(cfg, step.e.severity, v.admitted)
      else after.log == st.log && after.windows == st.windows
  {}

  // ---------- Conservation ----------

  ghost function DueCount(cfg: Settings, steps: seq<Step>): nat {
    if steps == [] then 0
    else
      var init := steps[..|steps| - 1];
      DueCount(cfg, init) + if Due(cfg, Run(cfg, init).db, steps[|steps| - 1]) then 1 else 0
  }

  function Count(log: seq<Delivery>, fate: Fate): nat {
    if log == [] then 0
    else Count(log[..|log| - 1], fate) + if log[|log| - 1].fate == fate then 1 else 0
  }

  /** When may an alert be dispatched, buffered for the digest, or silenced? */
  predicate Proper(cfg: Settings, d: Delivery) {
    && (d.event.severity == Critical ==> d.fate == Dispatched)
    && (!cfg.digestSink || cfg.hourlyCap <= 0 ==> d.fate == Dispatched)
    && (d.fate == Digested ==> cfg.digestSeverities.None? || d.event.severity in cfg.digestSeverities.value)
    && (d.fate == Suppressed ==> cfg.digestSeverities.Some? && d.event.severity !in cfg.digestSeverities.value)
  }

  lemma {:induction false} RunIsProper(cfg: Settings, steps: seq<Step>)
    ensures forall k :: 0 <= k < |Run(cfg, steps).log| ==> Proper(cfg, Run(cfg, steps).log[k])
  {
    if steps != [] {
      var init, step := steps[..|steps| - 1], steps[|steps| - 1];
      RunIsProper(cfg, init);
      var log := Run(cfg, init).log;
      StepDelivers(cfg, Run(cfg, init), step);
      assert forall k :: 0 <= k < |log| ==> Run(cfg, steps).log[k] == log[k];
    }
  }

  /**
   Conservation: with succeeding store calls every due notification was handed to the
   dispatcher, buffered for the digest, or silenced - each exactly once.
   */
  lemma {:induction false} DeliveryAccounting(cfg: Settings, steps: seq<Step>)
    requires forall i :: 0 <= i < |steps| ==> StoreUp(steps[i])
    ensures var log := Run(cfg, steps).log;
            DueCount(cfg, steps) == |log| == Count(log, Dispatched) + Count(log, Digested) + Count(log, Suppressed)
  {
    if steps != [] {
      var init, step := steps[..|steps| - 1], steps[|steps| - 1];
      DeliveryAccounting(cfg, init);
      StepDelivers(cfg, Run(cfg, init), step);
    }
  }

  /** Without a digest sink nothing is held back: every due notification is dispatched. */
  lemma {:induction false} NoSinkDispatchesAll(cfg: Settings, steps: seq<Step>)
    requires !cfg.digestSink
    requires forall i :: 0 <= i < |steps| ==> StoreUp(steps[i])
    ensures Count(Run(cfg, steps).log, Dispatched) == DueCount(cfg, steps)
  {
    if steps != [] {
      var init, step := steps[..|steps| - 1], steps[|steps| - 1];
      NoSinkDispatchesAll(cfg, init);
      StepDelivers(cfg, Run(cfg, init), step);
    }
  }

  // ---------- Messages per channel ----------

  /** When non-critical messages went out to a channel, across all incidents. */
  function Sends(log: seq<Delivery>, key: string): seq<int> {
    if log == [] then []
    else
      var earlier, d := Sends(log[..|log| - 1], key), log[|log| - 1];
      if d.key == key && d.event.severity != Critical && d.fate == Dispatched then earlier + [d.clk] else earlier
  }

  /** The throttle's clock, read inside its mutex, does not go back. */
  ghost predicate ClockForward(steps: seq<Step>) {
    forall i, j :: 0 <= i <= j < |steps| && steps[i].Ingest? && steps[j].Ingest? ==> steps[i].clk <= steps[j].clk
  }

  ghost predicate NoLaterThan(steps: seq<Step>, clock: int) {
    forall i :: 0 <= i < |steps| && steps[i].Ingest? ==> steps[i].clk <= clock
  }

  lemma NotifyTracks(cfg: Settings, st: State, step: Step, key: string, clock: int)
    requires cfg.digestSink && cfg.hourlyCap > 0 && Notifies(cfg, st.db, step) && clock <= step.clk
    requires Tracks(WindowOf(st.windows, key), Sends(st.log, key), clock) && Capped(Sends(st.log, key), cfg.hourlyCap)
    ensures var after := Apply(cfg, st, step);
            Tracks(WindowOf(after.windows, key), Sends(after.log, key), step.clk)
              && Capped(Sends(after.log, key), cfg.hourlyCap)
  {
    var after := Apply(cfg, st, step);
    StepDelivers(cfg, st, step);
    var own := ThrottleKey(cfg, step.e);
    if key == own && step.e.severity != Critical {
      AllowTracks(cfg.hourlyCap, st.windows, Sends(st.log, key), clock, Call(step.clk, key, step.e.severity));
    } else {
      assert Sends(after.log, key) == Sends(st.log, key);
      assert WindowOf(after.windows, key) == WindowOf(st.windows, key);
      TracksLater(WindowOf(st.windows, key), Sends(st.log, key), clock, step.clk);
    }
  }

  lemma {:induction false} RunTracksSends(cfg: Settings, steps: seq<Step>, key: string, clock: int)
    requires cfg.digestSink && cfg.hourlyCap > 0 && ClockForward(steps) && NoLaterThan(steps, clock)
    ensures Tracks(WindowOf(Run(cfg, steps).windows, key), Sends(Run(cfg, steps).log, key), clock)
    ensures Capped(Sends(Run(cfg, steps).log, key), cfg.hourlyCap)
  {
    if steps == [] {
      EmptyTracks(clock, cfg.hourlyCap);
    } else {
      var init, step := steps[..|steps| - 1], steps[|steps| - 1];
      var st, after := Run(cfg, init), Run(cfg, steps);
      assert forall i :: 0 <= i < |init| ==> init[i] == steps[i];
      if Notifies(cfg, st.db, step) {
        assert NoLaterThan(init, step.clk);
        RunTracksSends(cfg, init, key, step.clk);
        NotifyTracks(cfg, st, step, key, step.clk);
        TracksLater(WindowOf(after.windows, key), Sends(after.log, key), step.clk, clock);
      } else {
        RunTracksSends(cfg, init, key, clock);
        StepDelivers(cfg, st, step);
      }
    }
  }

  /**
   With a digest sink and a positive cap, no channel receives more than cap non-critical
   messages in any rolling half-open hour, however many incidents and sites route to it and
   whichever store calls fail.
   */
  lemma ChannelCap(cfg: Settings, steps: seq<Step>, key: string, t: int)
    requires cfg.digestSink && cfg.hourlyCap > 0 && ClockForward(steps)
    ensures InHour(Sends(Run(cfg, steps).log, key), t) <= cfg.hourlyCap
  {
    var clock := LatestClock(steps);
    RunTracksSends(cfg, steps, key, clock);
  }

  lemma {:induction false} LatestClock(steps: seq<Step>) returns (clock: int)
    ensures NoLaterThan(steps, clock)
  {
    if steps == [] {
      clock := 0;
    } else {
      var init, step := steps[..|steps| - 1], steps[|steps| - 1];
      clock := LatestClock(init);
      if step.Ingest? && step.clk > clock {
        clock := step.clk;
      }
      assert forall i :: 0 <= i < |init| ==> steps[i] == init[i];
    }
  }

  // ---------- Dedup spacing ----------

  /** The times at which an incident was notified. */
  function Times(log: seq<Delivery>, id: int): seq<int> {
    if log == [] then []
    else
      var earlier, d := Times(log[..|log| - 1], id), log[|log| - 1];
      if d.incident == id then earlier + [d.at] else earlier
  }

  ghost predicate Spaced(times: seq<int>, gap: int) {
    forall k :: 0 < k < |times| ==> times[k] - times[k - 1] >= gap
  }

  /** The row remembers the last notification that went into the log. */
  ghost predicate Remembers(st: State, id: int) {
    var times := Times(st.log, id);
    times != [] ==> id in st.db.rows && st.db.rows[id].lastNotified == Some(times[|times| - 1])
  }

  /** A step that lands nowhere on a row leaves its count and its last notification alone. */
  ghost predicate SameRow(db: DB, after: DB, id: int) {
    id in db.rows ==>
      id in after.rows && after.rows[id].affected == db.rows[id].affected
        && after.rows[id].lastNotified == db.rows[id].lastNotified
  }

  /** The row of the open incident after an event landed on it, unless its update was cut off. */
  lemma AccrueRow(cfg: Settings, st: State, e: Event, own: int, now: int, clk: int, fail: Option<Stage>, id: int)
    requires ValidDB(st.db) && own in st.db.rows
    ensures var after := AccrueSpec(cfg, st, e, own, now, clk, fail).state.db;
      && after.rows.Keys == st.db.rows.Keys && after.nextId == st.db.nextId
      && if id == own && fail != Some(AtUpdate) && !(fail == Some(AtAddMember) && e.url != "")
         then after.rows[id].affected == st.db.rows[id].affected + 1
              && after.rows[id].lastNotified ==
                if WithinWindow(cfg, st.db.rows[id], now) then st.db.rows[id].lastNotified else Some(now)
         else SameRow(st.db, after, id)
  {}

  lemma OpenRow(cfg: Settings, st: State, e: Event, now: int, clk: int, fail: Option<Stage>, id: int)
    requires ValidDB(st.db)
    ensures var after := OpenSpec(cfg, st, e, now, clk, fail).state.db;
      if fail == Some(AtOpen) then after == st.db
      else
        && after.rows.Keys == st.db.rows.Keys + {st.db.nextId} && after.nextId == st.db.nextId + 1
        && after.rows[st.db.nextId].affected == 1 && after.rows[st.db.nextId].lastNotified == Some(now)
        && SameRow(st.db, after, id)
  {}

  lemma ResolveRow(st: State, e: Event, now: int, fail: Option<Stage>, id: int)
    requires ValidDB(st.db)
    ensures var after := ResolveSpec(st, e, now, fail).state.db;
      after.rows.Keys == st.db.rows.Keys && after.nextId == st.db.nextId && SameRow(st.db, after, id)
  {
    var after := ResolveSpec(st, e, now, fail).state.db;
    if after.rows != st.db.rows {
      var own := OpenId(st.db, GroupFingerprint(e)).value;
      assert after == Close(RemoveMember(st.db, own, e.url), own, now, false);
    }
  }

  lemma SweepRow(cfg: Settings, db: DB, now: int, missed: set<int>, id: int)
    ensures var after := SweepSpec(cfg, db, now, missed);
      after.rows.Keys == db.rows.Keys && after.nextId == db.nextId && SameRow(db, after, id)
  {}

  lemma QuietRow(cfg: Settings, st: State, step: Step, id: int)
    requires ValidDB(st.db) && !step.Ingest?
    ensures var after := Apply(cfg, st, step).db;
      after.rows.Keys == st.db.rows.Keys && after.nextId == st.db.nextId && SameRow(st.db, after, id)
  {
    if step.Resolve? {
      ResolveRow(st, step.e, step.now, step.fail, id);
    } else {
      SweepRow(cfg, st.db, step.now, step.missed, id);
    }
  }

  /** How a step can move an incident's memory of its last notification. */
  lemma StepRemembers(cfg: Settings, st: State, step: Step, id: int)
    requires ValidDB(st.db) && id < st.db.nextId
    ensures var after := Apply(cfg, st, step);
      && st.db.nextId <= after.db.nextId
      && (id in st.db.rows ==> id in after.db.rows)
      && (id in st.db.rows ==>
            if Notifies(cfg, st.db, step) && Target(st.db, step.e) == id
            then after.db.rows[id].lastNotified == Some(step.now) && !WithinWindow(cfg, st.db.rows[id], step.now)
            else after.db.rows[id].lastNotified == st.db.rows[id].lastNotified)
  {
    if step.Ingest? {
      match OpenId(st.db, GroupFingerprint(step.e))
      case Some(own) => AccrueRow(cfg, st, step.e, own, step.now, step.clk, step.fail, id);
      case None => OpenRow(cfg, st, step.e, step.now, step.clk, step.fail, id);
    } else {
      QuietRow(cfg, st, step, id);
    }
  }

  lemma FreshRemembers(cfg: Settings, st: State, step: Step)
    requires ValidDB(st.db) && Notifies(cfg, st.db, step) && Target(st.db, step.e) == st.db.nextId
    ensures var after := Apply(cfg, st, step);
      && st.db.nextId in after.db.rows && after.db.nextId == st.db.nextId + 1
      && after.db.rows[st.db.nextId].lastNotified == Some(step.now)
  {}

  lemma TimesStep(cfg: Settings, st: State, step: Step, id: int)
    requires ValidDB(st.db)
    ensures Times(Apply(cfg, st, step).log, id) ==
      if Notifies(cfg, st.db, step) && Target(st.db, step.e) == id then Times(st.log, id) + [step.now]
      else Times(st.log, id)
    ensures Apply(cfg, st, step).db.nextId >= st.db.nextId
  {
    StepDelivers(cfg, st, step);
  }

  lemma {:induction false} RunRemembers(cfg: Settings, steps: seq<Step>, id: int)
    ensures var st := Run(cfg, steps);
      && Spaced(Times(st.log, id), cfg.dedupWindow) && Remembers(st, id)
      && (id >= st.db.nextId ==> Times(st.log, id) == [])
  {
    if steps != [] {
      var init, step := steps[..|steps| - 1], steps[|steps| - 1];
      var st, after := Run(cfg, init), Run(cfg, steps);
      RunRemembers(cfg, init, id);
      RunKeepsValid(cfg, init);
      TimesStep(cfg, st, step, id);
      if id < st.db.nextId {
        StepRemembers(cfg, st, step, id);
      } else if Notifies(cfg, st.db, step) && id == st.db.nextId == Target(st.db, step.e) {
        FreshRemembers(cfg, st, step);
      }
    }
  }

  lemma {:induction false} SpacedFromFirst(times: seq<int>, gap: int, n: nat)
    requires Spaced(times, gap) && n < |times|
    ensures times[n] >= times[0] + n * gap
  {
    if n > 0 {
      SpacedFromFirst(times, gap, n - 1);
      assert n * gap == (n - 1) * gap + gap;
    }
  }

  /**
   Dedup spacing, with no assumption on the clock: successive notifications of an incident
   are at least DedupWindow apart, so the n-th comes no earlier than n windows after the
   first - also when readings reach the critical section out of order or store calls fail.
   */
  lemma DedupSpacing(cfg: Settings, steps: seq<Step>, id: int, n: nat)
    requires n < |Times(Run(cfg, steps).log, id)|
    ensures var times := Times(Run(cfg, steps).log, id);
            && (n > 0 ==> times[n] - times[n - 1] >= cfg.dedupWindow)
            && times[n] >= times[0] + n * cfg.dedupWindow
  {
    RunRemembers(cfg, steps, id);
    SpacedFromFirst(Times(Run(cfg, steps).log, id), cfg.dedupWindow, n);
  }

  // ---------- The affected count ----------

  /** How many events landed on an incident. */
  ghost function Hits(cfg: Settings, steps: seq<Step>, id: int): nat {
    if steps == [] then 0
    else
      var init, step := steps[..|steps| - 1], steps[|steps| - 1];
      Hits(cfg, init, id) + if step.Ingest? && Target(Run(cfg, init).db, step.e) == id then 1 else 0
  }

  lemma StepCounts(cfg: Settings, st: State, step: Step, id: int)
    requires ValidDB(st.db) && StoreUp(step) && (id in st.db.rows || id >= st.db.nextId)
    ensures var after := Apply(cfg, st, step).db;
      var hit := step.Ingest? && Target(st.db, step.e) == id;
      && (id in after.rows || id >= after.nextId)
      && (id in after.rows <==> id in st.db.rows || hit)
      && (id in after.rows ==>
            after.rows[id].affected == (if id in st.db.rows then st.db.rows[id].affected else 0) + if hit then 1 else 0)
  {
    if step.Ingest? {
      match OpenId(st.db, GroupFingerprint(step.e))
      case Some(own) => AccrueRow(cfg, st, step.e, own, step.now, step.clk, step.fail, id);
      case None => OpenRow(cfg, st, step.e, step.now, step.clk, step.fail, id);
    } else {
      QuietRow(cfg, st, step, id);
    }
  }

  lemma {:induction false} RunCounts(cfg: Settings, steps: seq<Step>, id: int)
    requires id >= 1 && forall i :: 0 <= i < |steps| ==> StoreUp(steps[i])
    ensures var db := Run(cfg, steps).db;
      && (id in db.rows || id >= db.nextId)
      && (if id in db.rows then db.rows[id].affected == Hits(cfg, steps, id) else Hits(cfg, steps, id) == 0)
  {
    if steps != [] {
      var init, step := steps[..|steps| - 1], steps[|steps| - 1];
      RunCounts(cfg, init, id);
      RunKeepsValid(cfg, init);
      StepCounts(cfg, Run(cfg, init), step, id);
    }
  }

  /** With succeeding store calls AffectedCount is the number of events ingested into the incident. */
  lemma AffectedCountIsExact(cfg: Settings, steps: seq<Step>, id: int)
    requires forall i :: 0 <= i < |steps| ==> StoreUp(steps[i])
    requires id >= 1 && id in Run(cfg, steps).db.rows
    ensures Run(cfg, steps).db.rows[id].affected == Hits(cfg, steps, id)
  {
    RunCounts(cfg, steps, id);
  }
}
