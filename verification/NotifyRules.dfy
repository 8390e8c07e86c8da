/**
 When an event is told of, and what it is told with: re-notification after the dedup window, the number of
 related events, and the identity a row keeps from the event that opened it.
 */
module NotifyRules {
  import opened Prelude
  import opened Identity
  import opened IncidentStore
  import opened Alerts
  import opened AlertRuns
  import opened DeliveryRuns

  // ---------- Re-notification ----------

  /** With succeeding store calls every incident has been told of. */
  lemma {:induction false} EachWasTold(cfg: Settings, steps: seq<Step>, id: int)
    requires (forall i :: 0 <= i < |steps| ==> StoreUp(steps[i])) && id in Run(cfg, steps).db.rows
    ensures Times(Run(cfg, steps).log, id) != []
  {
    if steps != [] {
      var init, step := steps[..|steps| - 1], steps[|steps| - 1];
      RunKeepsValid(cfg, init);
      TimesStep(cfg, Run(cfg, init), step, id);
      if id in Run(cfg, init).db.rows {
        EachWasTold(cfg, init, id);
      } else {
        NewRowsAreTold(cfg, Run(cfg, init), step, id);
      }
    }
  }

  lemma NewRowsAreTold(cfg: Settings, st: State, step: Step, id: int)
    requires ValidDB(st.db) && StoreUp(step) && id !in st.db.rows && id in Apply(cfg, st, step).db.rows
    ensures Notifies(cfg, st.db, step) && Target(st.db, step.e) == id
  {
    if !step.Ingest? {
      QuietRow(cfg, st, step, id);
    } else {
      match OpenId(st.db, GroupFingerprint(step.e))
      case Some(own) => AccrueRow(cfg, st, step.e, own, step.now, step.clk, step.fail, id);
      case None => OpenRow(cfg, st, step.e, step.now, step.clk, step.fail, id);
    }
  }

  /** One more entry, on this incident, about this event, at this time. */
  ghost predicate ToldOnce(before: seq<Delivery>, after: seq<Delivery>, id: int, e: Event, now: int) {
    && |after| == |before| + 1 && after[..|before|] == before
    && after[|before|].incident == id && after[|before|].event == e && after[|before|].at == now
  }

  /** Rows that remember: what the row says of the last notification is what the log says. */
  lemma OpenRowRemembers(cfg: Settings, steps: seq<Step>, id: int)
    requires (forall i :: 0 <= i < |steps| ==> StoreUp(steps[i])) && id in Run(cfg, steps).db.rows
    ensures var st := Run(cfg, steps);
      var times := Times(st.log, id);
      times != [] && st.db.rows[id].lastNotified == Some(times[|times| - 1])
  {
    EachWasTold(cfg, steps, id);
    RunRemembers(cfg, steps, id);
  }

  /**
   In a run with succeeding store calls: an event that finds no open incident opens one and is told of; one
   that finds its incident open is told of if and only if the last time the incident was told of lies at least
   DedupWindow back.
   */
  lemma RenotifiesAfterWindow(cfg: Settings, steps: seq<Step>, step: Step)
    requires (forall i :: 0 <= i < |steps| ==> StoreUp(steps[i])) && StoreUp(step) && step.Ingest?
    ensures var st, after, fp := Run(cfg, steps), Run(cfg, steps + [step]), GroupFingerprint(step.e);
      match OpenId(st.db, fp)
      case None =>
        && ToldOnce(st.log, after.log, st.db.nextId, step.e, step.now)
        && st.db.nextId !in st.db.rows && IsOpen(after.db, fp, st.db.nextId)
      case Some(id) =>
        var times := Times(st.log, id);
        && times != [] && IsOpen(after.db, fp, id)
        && if step.now - times[|times| - 1] >= cfg.dedupWindow then ToldOnce(st.log, after.log, id, step.e, step.now)
           else after.log == st.log
  {
    var st, fp := Run(cfg, steps), GroupFingerprint(step.e);
    assert (steps + [step])[..|steps|] == steps;
    RunKeepsValid(cfg, steps);
    StepTells(cfg, st, step);
    IngestLeavesOpen(cfg, st, step);
    if OpenId(st.db, fp).Some? {
      OpenRowRemembers(cfg, steps, OpenId(st.db, fp).value);
    }
  }

  /** The same of one step, by what the row says of the last notification. */
  lemma StepTells(cfg: Settings, st: State, step: Step)
    requires ValidDB(st.db) && StoreUp(step) && step.Ingest?
    ensures var after := Apply(cfg, st, step);
      match OpenId(st.db, GroupFingerprint(step.e))
      case None => ToldOnce(st.log, after.log, st.db.nextId, step.e, step.now)
      case Some(id) =>
        var last := st.db.rows[id].lastNotified;
        if last.None? || step.now - last.value >= cfg.dedupWindow then ToldOnce(st.log, after.log, id, step.e, step.now)
        else after.log == st.log
  {
    StepDelivers(cfg, st, step);
  }

  lemma IngestLeavesOpen(cfg: Settings, st: State, step: Step)
    requires ValidDB(st.db) && StoreUp(step) && step.Ingest?
    ensures IsOpen(Apply(cfg, st, step).db, GroupFingerprint(step.e), Target(st.db, step.e))
  {}

  /** Resolves and sweeps tell nobody and leave the throttle alone. */
  lemma OnlyIngestsTell(cfg: Settings, st: State, step: Step)
    requires !step.Ingest?
    ensures Apply(cfg, st, step).log == st.log && Apply(cfg, st, step).windows == st.windows
  {}

  // ---------- What a notification says ----------

  /** The i-th step is the event that opened the incident. */
  ghost predicate OpenedBy(cfg: Settings, steps: seq<Step>, id: int, i: nat) {
    && i < |steps| && steps[i].Ingest?
    && OpenId(Run(cfg, steps[..i]).db, GroupFingerprint(steps[i].e)) == None && Run(cfg, steps[..i]).db.nextId == id
  }

  /** The row has the site, the type, the severity and the time of an event. */
  predicate HasIdentityOf(row: Alert, e: Event, now: int) {
    && row.siteID == e.siteID && row.fingerprint == GroupFingerprint(e) && row.groupKey == e.site + "|" + e.changeType
    && row.severity == e.severity && row.firstDetected == now
  }

  predicate SameOrigin(a: Alert, b: Alert) {
    && a.siteID == b.siteID && a.fingerprint == b.fingerprint && a.groupKey == b.groupKey && a.severity == b.severity
    && a.firstDetected == b.firstDetected
  }

  /** No step changes what a row took from the event that opened it; a new row takes it from its own. */
  lemma StepKeepsOrigin(cfg: Settings, st: State, step: Step, id: int)
    requires ValidDB(st.db) && id in Apply(cfg, st, step).db.rows
    ensures var after := Apply(cfg, st, step).db.rows[id];
      if id in st.db.rows then SameOrigin(after, st.db.rows[id])
      else
        && step.Ingest? && OpenId(st.db, GroupFingerprint(step.e)) == None && id == st.db.nextId
        && HasIdentityOf(after, step.e, step.now)
  {
    match step {
      case Ingest(e, now, clk, fail) => IngestKeepsOrigin(cfg, st, step, id);
      case Resolve(e, now, fail) => ResolveKeepsOrigin(st, e, now, fail, id);
      case Sweep(now, missed) =>
    }
  }

  lemma ResolveKeepsOrigin(st: State, e: Event, now: int, fail: Option<Stage>, id: int)
    requires ValidDB(st.db)
    ensures var after := ResolveSpec(st, e, now, fail).state.db;
      after.rows.Keys == st.db.rows.Keys && (id in st.db.rows ==> SameOrigin(after.rows[id], st.db.rows[id]))
  {
    match OpenId(st.db, GroupFingerprint(e))
    case None =>
    case Some(own) => assert RemoveMember(st.db, own, e.url).rows == st.db.rows;
  }

  lemma AccrueKeepsOrigin(cfg: Settings, st: State, e: Event, own: int, now: int, clk: int, fail: Option<Stage>,
                          id: int)
    requires ValidDB(st.db) && own in st.db.rows
    ensures var after := AccrueSpec(cfg, st, e, own, now, clk, fail).state.db;
      after.rows.Keys == st.db.rows.Keys && (id in st.db.rows ==> SameOrigin(after.rows[id], st.db.rows[id]))
  {
    var joined := JoinMember(st.db, own, e.url);
    assert joined.rows == st.db.rows;
    UpdateKeepsOrigin(cfg, joined, own, now, id);
  }

  lemma UpdateKeepsOrigin(cfg: Settings, db: DB, own: int, now: int, id: int)
    requires own in db.rows
    ensures var after := Update(db, own, Accrued(cfg, db.rows[own], now));
      after.rows.Keys == db.rows.Keys && (id in db.rows ==> SameOrigin(after.rows[id], db.rows[id]))
  {}

  lemma OpenKeepsOrigin(cfg: Settings, st: State, e: Event, now: int, clk: int, fail: Option<Stage>, id: int)
    requires ValidDB(st.db)
    ensures var after := OpenSpec(cfg, st, e, now, clk, fail).state.db;
      && (id in st.db.rows ==> id in after.rows && after.rows[id] == st.db.rows[id])
      && (id in after.rows && id !in st.db.rows ==> id == st.db.nextId && HasIdentityOf(after.rows[id], e, now))
  {
    assert GroupKey(e.site, e.changeType) == e.site + "|" + e.changeType;
  }

  lemma IngestKeepsOrigin(cfg: Settings, st: State, step: Step, id: int)
    requires ValidDB(st.db) && step.Ingest? && id in Apply(cfg, st, step).db.rows
    ensures var after := Apply(cfg, st, step).db.rows[id];
      if id in st.db.rows then SameOrigin(after, st.db.rows[id])
      else
        && OpenId(st.db, GroupFingerprint(step.e)) == None && id == st.db.nextId
        && HasIdentityOf(after, step.e, step.now)
  {
    match OpenId(st.db, GroupFingerprint(step.e))
    case Some(own) => AccrueKeepsOrigin(cfg, st, step.e, own, step.now, step.clk, step.fail, id);
    case None => OpenKeepsOrigin(cfg, st, step.e, step.now, step.clk, step.fail, id);
  }

  /** Every row was opened by one event of the run and still has its site, type, severity and time. */
  lemma {:induction false} RowKeepsOrigin(cfg: Settings, steps: seq<Step>, id: int) returns (i: nat)
    requires id in Run(cfg, steps).db.rows
    ensures OpenedBy(cfg, steps, id, i) && HasIdentityOf(Run(cfg, steps).db.rows[id], steps[i].e, steps[i].now)
  {
    var n := |steps| - 1;
    var init := steps[..n];
    RunKeepsValid(cfg, init);
    StepKeepsOrigin(cfg, Run(cfg, init), steps[n], id);
    if id in Run(cfg, init).db.rows {
      i := RowKeepsOrigin(cfg, init, id);
      assert init[..i] == steps[..i];
    } else {
      i := n;
    }
  }

  /**
   What a notification says: how many events landed on its incident before this one, and its site and type,
   which are those of the event.
   */
  lemma NotificationIsRight(cfg: Settings, steps: seq<Step>, step: Step)
    requires (forall i :: 0 <= i < |steps| ==> StoreUp(steps[i])) && StoreUp(step) && step.Ingest?
    requires NUL !in step.e.changeType && forall i :: 0 <= i < |steps| && steps[i].Ingest? ==>
      NUL !in steps[i].e.changeType
    requires |Run(cfg, steps + [step]).log| > |Run(cfg, steps).log|
    ensures var log, n := Run(cfg, steps + [step]).log, |Run(cfg, steps).log|;
      && log[n].related == Hits(cfg, steps, log[n].incident)
      && log[n].groupKey == step.e.site + "|" + step.e.changeType
      && log[n].clk == step.clk
  {
    var st, fp := Run(cfg, steps), GroupFingerprint(step.e);
    assert (steps + [step])[..|steps|] == steps;
    RunKeepsValid(cfg, steps);
    NoHitsYet(cfg, steps);
    EntryFields(cfg, st, step);
    if OpenId(st.db, fp).Some? {
      var id := OpenId(st.db, fp).value;
      var i := RowKeepsOrigin(cfg, steps, id);
      FingerprintIsIdentity(steps[i].e, step.e);
      IdsArePositive(cfg, steps);
      RunCounts(cfg, steps, id);
    }
  }

  /** What an entry takes from the row its event landed on, or opened. */
  lemma EntryFields(cfg: Settings, st: State, step: Step)
    requires ValidDB(st.db) && StoreUp(step) && step.Ingest? && |Apply(cfg, st, step).log| > |st.log|
    ensures var d := Apply(cfg, st, step).log[|st.log|];
      d.clk == step.clk &&
      match OpenId(st.db, GroupFingerprint(step.e))
      case Some(id) =>
        d.incident == id && d.related == (if st.db.rows[id].affected >= 0 then st.db.rows[id].affected else 0)
        && d.groupKey == st.db.rows[id].groupKey
      case None =>
        d.incident == st.db.nextId && d.related == 0 && d.groupKey == step.e.site + "|" + step.e.changeType
  {}

  /** Nothing has landed on an incident that is still to be opened. */
  lemma NoHitsYet(cfg: Settings, steps: seq<Step>)
    requires forall i :: 0 <= i < |steps| ==> StoreUp(steps[i])
    ensures var id := Run(cfg, steps).db.nextId; id >= 1 && Hits(cfg, steps, id) == 0
  {
    RunKeepsValid(cfg, steps);
    IdsArePositive(cfg, steps);
    RunCounts(cfg, steps, Run(cfg, steps).db.nextId);
  }

  lemma {:induction false} IdsArePositive(cfg: Settings, steps: seq<Step>)
    ensures Run(cfg, steps).db.nextId >= 1 && forall id :: id in Run(cfg, steps).db.rows ==> id >= 1
  {
    if steps != [] {
      var init, step := steps[..|steps| - 1], steps[|steps| - 1];
      IdsArePositive(cfg, init);
      RunKeepsValid(cfg, init);
      forall id | id in Run(cfg, steps).db.rows ensures id >= 1 {
        StepKeepsOrigin(cfg, Run(cfg, init), step, id);
      }
      TimesStep(cfg, Run(cfg, init), step, 0);
    }
  }

  // ---------- What each step does to the row it is about ----------

  /** An event that lands refreshes its incident and counts. */
  lemma LandingRefreshes(cfg: Settings, st: State, step: Step)
    requires ValidDB(st.db) && StoreUp(step) && step.Ingest?
    ensures var id, after := Target(st.db, step.e), Apply(cfg, st, step).db;
      && id in after.rows && after.rows[id].open && after.rows[id].lastUpdated == step.now
      && after.rows[id].affected == (if id in st.db.rows && OpenId(st.db, GroupFingerprint(step.e)).Some?
                                     then st.db.rows[id].affected + 1 else 1)
      && (OpenId(st.db, GroupFingerprint(step.e)).None? ==> after.rows[id].autoClosed == None)
  {}

  /** The last recovery closes the incident, as recovered and not as automatic; any other leaves every row. */
  lemma RecoveryCloses(cfg: Settings, st: State, step: Step)
    requires ValidDB(st.db) && StoreUp(step) && step.Resolve?
    ensures var after := Apply(cfg, st, step).db;
      match OpenId(st.db, GroupFingerprint(step.e))
      case None => after == st.db
      case Some(id) =>
        if Members(st.db, id) - {step.e.url} != {} then after.rows == st.db.rows
        else after.rows == st.db.rows[id := st.db.rows[id].(open := false, lastUpdated := step.now)]
  {
    match OpenId(st.db, GroupFingerprint(step.e))
    case None =>
    case Some(id) =>
      var left := RemoveMember(st.db, id, step.e.url);
      MembersKeepValid(st.db, id, step.e.url);
      assert Members(left, id) == Members(st.db, id) - {step.e.url} && left.rows == st.db.rows;
  }

  /** A sweep that is not cut short closes exactly what has been idle for IncidentAutoClose, and stamps it. */
  lemma SweepClosesIdle(cfg: Settings, db: DB, now: int, id: int)
    ensures var after := SweepSpec(cfg, db, now, {});
      && after.rows.Keys == db.rows.Keys && after.members == db.members && after.nextId == db.nextId
      && (id in db.rows ==>
            after.rows[id] == if db.rows[id].open && now - db.rows[id].lastUpdated >= cfg.autoClose
                              then db.rows[id].(open := false, lastUpdated := now, autoClosed := Some(now))
                              else db.rows[id])
  {}

  // ---------- Failures ----------

  /** An ingest fails exactly if a call it gets to fails; a store failure tells nobody. */
  lemma IngestFails(cfg: Settings, st: State, step: Step)
    requires step.Ingest?
    ensures var o := IngestSpec(cfg, st, step.e, step.now, step.clk, step.fail);
      var isOpen, n := OpenId(st.db, GroupFingerprint(step.e)).Some?, |st.log|;
      && (o.failed <==>
            || step.fail == Some(AtGet) || (step.fail == Some(AtAddMember) && step.e.url != "")
            || (step.fail == Some(AtUpdate) && isOpen) || (step.fail == Some(AtOpen) && !isOpen)
            || (step.fail == Some(AtDispatch) && |o.state.log| > n && o.state.log[n].fate == Dispatched))
      && (o.failed && step.fail != Some(AtDispatch) ==> o.state.log == st.log && o.state.windows == st.windows)
      && (o.failed && (step.fail == Some(AtGet) || step.fail == Some(AtOpen)) ==> o.state == st)
      && (o.failed && isOpen && step.fail != Some(AtDispatch) ==> o.state.db.rows == st.db.rows)
  {}

  /** So does a resolve, which gets to the close only with the last member. */
  lemma ResolveFails(st: State, e: Event, now: int, fail: Option<Stage>)
    requires ValidDB(st.db)
    ensures var o, open := ResolveSpec(st, e, now, fail), OpenId(st.db, GroupFingerprint(e));
      && (o.failed <==>
            || fail == Some(AtGet) || (open.Some? && fail == Some(AtRemove))
            || (open.Some? && fail == Some(AtClose) && Members(st.db, open.value) - {e.url} == {}))
      && (o.failed ==> o.state.db.rows == st.db.rows)
      && (o.failed && fail != Some(AtClose) ==> o.state == st)
  {
    var open := OpenId(st.db, GroupFingerprint(e));
    if open.Some? {
      var left := RemoveMember(st.db, open.value, e.url);
      assert Members(left, open.value) == Members(st.db, open.value) - {e.url} && left.rows == st.db.rows;
    }
  }
}
