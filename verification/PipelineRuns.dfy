/**
 Whole runs of the incident state machine: what holds after any sequence of ingests,
 resolves and auto-close sweeps, starting from empty tables.
 */
module AlertRuns {
  import opened Prelude
  import opened Identity
  import opened IncidentStore
  import opened Alerts

  datatype Step =
    | Ingest(e: Event, now: int, clk: int, fail: Option<Stage>)
    | Resolve(e: Event, now: int, fail: Option<Stage>)
    | Sweep(now: int, missed: set<int>)

  ghost function Apply(cfg: Settings, st: State, step: Step): State {
    match step
    case Ingest(e, now, clk, fail) => IngestSpec(cfg, st, e, now, clk, fail).state
    case Resolve(e, now, fail) => ResolveSpec(st, e, now, fail).state
    case Sweep(now, missed) => st.(db := SweepSpec(cfg, st.db, now, missed))
  }

  const INITIAL := State(EMPTY_DB, map[], [])

  ghost function Run(cfg: Settings, steps: seq<Step>): State {
    if steps == [] then INITIAL
    else Apply(cfg, Run(cfg, steps[..|steps| - 1]), steps[|steps| - 1])
  }

  /** No store call fails; the dispatcher still may. */
  predicate StoreUp(step: Step) {
    step.Sweep? || step.fail == None || step.fail == Some(AtDispatch)
  }

  // ---------- At most one open incident per fingerprint ----------

  lemma IngestKeepsValid(cfg: Settings, st: State, e: Event, now: int, clk: int, fail: Option<Stage>)
    requires ValidDB(st.db)
    ensures ValidDB(IngestSpec(cfg, st, e, now, clk, fail).state.db)
  {
    match OpenId(st.db, GroupFingerprint(e))
    case Some(id) =>
      MembersKeepValid(st.db, id, e.url);
      UpdateKeepsValid(JoinMember(st.db, id, e.url), id, Accrued(cfg, st.db.rows[id], now));
    case None =>
      InsertKeepsValid(st.db, NewIncident(e, now));
      MembersKeepValid(Insert(st.db, NewIncident(e, now)), st.db.nextId, e.url);
  }

  lemma ResolveKeepsValid(st: State, e: Event, now: int, fail: Option<Stage>)
    requires ValidDB(st.db)
    ensures ValidDB(ResolveSpec(st, e, now, fail).state.db)
  {
    match OpenId(st.db, GroupFingerprint(e))
    case None =>
    case Some(id) =>
      MembersKeepValid(st.db, id, e.url);
      CloseKeepsValid(RemoveMember(st.db, id, e.url), id, now, false);
  }

  lemma SweepKeepsValid(cfg: Settings, db: DB, now: int, missed: set<int>)
    requires ValidDB(db)
    ensures ValidDB(SweepSpec(cfg, db, now, missed))
    ensures forall fp, id :: IsOpen(SweepSpec(cfg, db, now, missed), fp, id)
                        <==> IsOpen(db, fp, id) && (Stale(cfg, db.rows[id], now) ==> id in missed)
  {
    assert forall fp, id :: IsOpen(SweepSpec(cfg, db, now, missed), fp, id)
                        <==> IsOpen(db, fp, id) && (Stale(cfg, db.rows[id], now) ==> id in missed);
  }

  /** Whatever the clocks read and whichever calls fail. */
  lemma {:induction false} RunKeepsValid(cfg: Settings, steps: seq<Step>)
    ensures ValidDB(Run(cfg, steps).db)
  {
    if steps != [] {
      var init, step := steps[..|steps| - 1], steps[|steps| - 1];
      RunKeepsValid(cfg, init);
      var st := Run(cfg, init);
      match step
      case Ingest(e, now, clk, fail) => IngestKeepsValid(cfg, st, e, now, clk, fail);
      case Resolve(e, now, fail) => ResolveKeepsValid(st, e, now, fail);
      case Sweep(now, missed) => SweepKeepsValid(cfg, st.db, now, missed);
    }
  }

  // ---------- Refinement: a map from fingerprints to sets of member URLs ----------

  /** The abstract value of one fingerprint: None when nothing is open for it. */
  ghost function View(db: DB, fp: string): Option<set<string>> {
    match OpenId(db, fp)
    case None => None
    case Some(id) => Some(Members(db, id))
  }

  function Join(view: Option<set<string>>, url: string): Option<set<string>> {
    Some(view.GetOr({}) + if url == "" then {} else {url})
  }

  function Leave(view: Option<set<string>>, url: string): Option<set<string>> {
    match view
    case None => None
    case Some(urls) => if urls - {url} == {} then None else Some(urls - {url})
  }

  lemma ViewFrame(db: DB, after: DB, fp: string)
    requires OpenId(after, fp) == OpenId(db, fp)
    requires OpenId(db, fp).Some? ==> Members(after, OpenId(db, fp).value) == Members(db, OpenId(db, fp).value)
    ensures View(after, fp) == View(db, fp)
  {}

  /** Two fingerprints never share an open incident. */
  lemma OpenIdsDiffer(db: DB, fp: string, fp2: string)
    requires fp != fp2 && OpenId(db, fp).Some?
    ensures OpenId(db, fp2) != OpenId(db, fp)
  {}

  lemma AccrueRefines(cfg: Settings, st: State, e: Event, id: int, now: int, clk: int, fail: Option<Stage>, fp: string)
    requires ValidDB(st.db) && (fail == None || fail == Some(AtDispatch))
    requires OpenId(st.db, GroupFingerprint(e)) == Some(id)
    ensures var after := AccrueSpec(cfg, st, e, id, now, clk, fail).state.db;
            View(after, fp) == if fp == GroupFingerprint(e) then Join(View(st.db, fp), e.url) else View(st.db, fp)
  {
    var own := GroupFingerprint(e);
    var joined := JoinMember(st.db, id, e.url);
    MembersKeepValid(st.db, id, e.url);
    UpdateKeepsValid(joined, id, Accrued(cfg, st.db.rows[id], now));
    var after := AccrueSpec(cfg, st, e, id, now, clk, fail).state.db;
    assert after == Update(joined, id, Accrued(cfg, st.db.rows[id], now));
    if fp != own {
      OpenIdsDiffer(st.db, own, fp);
      ViewFrame(st.db, after, fp);
    } else {
      assert OpenId(after, own) == Some(id);
      assert Members(after, id) == Members(st.db, id) + if e.url == "" then {} else {e.url};
    }
  }

  lemma OpenRefines(cfg: Settings, st: State, e: Event, now: int, clk: int, fail: Option<Stage>, fp: string)
    requires ValidDB(st.db) && (fail == None || fail == Some(AtDispatch))
    requires OpenId(st.db, GroupFingerprint(e)) == None
    ensures var after := OpenSpec(cfg, st, e, now, clk, fail).state.db;
            View(after, fp) == if fp == GroupFingerprint(e) then Join(View(st.db, fp), e.url) else View(st.db, fp)
  {
    var inserted := Insert(st.db, NewIncident(e, now));
    InsertKeepsValid(st.db, NewIncident(e, now));
    MembersKeepValid(inserted, st.db.nextId, e.url);
    var after := OpenSpec(cfg, st, e, now, clk, fail).state.db;
    assert after == JoinMember(inserted, st.db.nextId, e.url);
    if fp != GroupFingerprint(e) {
      ViewFrame(st.db, after, fp);
    } else {
      assert OpenId(after, fp) == Some(st.db.nextId);
      assert Members(after, st.db.nextId) == {} + if e.url == "" then {} else {e.url};
    }
  }

  /** Ingest adds the URL to its fingerprint's set, opening it if need be, and touches no other. */
  lemma IngestRefines(cfg: Settings, st: State, e: Event, now: int, clk: int, fail: Option<Stage>, fp: string)
    requires ValidDB(st.db) && (fail == None || fail == Some(AtDispatch))
    ensures var after := IngestSpec(cfg, st, e, now, clk, fail).state.db;
            View(after, fp) == if fp == GroupFingerprint(e) then Join(View(st.db, fp), e.url) else View(st.db, fp)
  {
    match OpenId(st.db, GroupFingerprint(e))
    case Some(id) => AccrueRefines(cfg, st, e, id, now, clk, fail, fp);
    case None => OpenRefines(cfg, st, e, now, clk, fail, fp);
  }

  /** Resolve takes the URL out and closes the incident when nothing is left. */
  lemma ResolveRefines(st: State, e: Event, now: int, fail: Option<Stage>, fp: string)
    requires ValidDB(st.db) && (fail == None || fail == Some(AtDispatch))
    ensures var after := ResolveSpec(st, e, now, fail).state.db;
            View(after, fp) == if fp == GroupFingerprint(e) then Leave(View(st.db, fp), e.url) else View(st.db, fp)
  {
    var own := GroupFingerprint(e);
    var after := ResolveSpec(st, e, now, fail).state.db;
    match OpenId(st.db, own)
    case None =>
    case Some(id) =>
      MembersKeepValid(st.db, id, e.url);
      CloseKeepsValid(RemoveMember(st.db, id, e.url), id, now, false);
      if fp != own {
        OpenIdsDiffer(st.db, own, fp);
        ViewFrame(st.db, after, fp);
      }
  }

  /** A sweep only closes: a fingerprint keeps its set or loses its incident. */
  lemma SweepRefines(cfg: Settings, db: DB, now: int, missed: set<int>, fp: string)
    requires ValidDB(db)
    ensures var after := View(SweepSpec(cfg, db, now, missed), fp); after == View(db, fp) || after == None
  {
    SweepKeepsValid(cfg, db, now, missed);
  }

  // ---------- The URLs that are broken, read off the history alone ----------

  predicate Breaks(step: Step, fp: string, url: string) {
    step.Ingest? && GroupFingerprint(step.e) == fp && step.e.url == url
  }

  predicate Mends(step: Step, fp: string, url: string) {
    step.Resolve? && GroupFingerprint(step.e) == fp && step.e.url == url
  }

  /** The URL was reported after it was last resolved, if it ever was. */
  ghost predicate IsBroken(steps: seq<Step>, fp: string, url: string) {
    exists i :: 0 <= i < |steps| && Breaks(steps[i], fp, url) && forall j :: i < j < |steps| ==>
      !Mends(steps[j], fp, url)
  }

  lemma WasBroken(steps: seq<Step>, step: Step, fp: string, url: string)
    requires IsBroken(steps + [step], fp, url)
    ensures Breaks(step, fp, url) || (IsBroken(steps, fp, url) && !Mends(step, fp, url))
  {
    var all := steps + [step];
    assert all[|steps|] == step && forall j :: 0 <= j < |steps| ==> all[j] == steps[j];
    var i :| 0 <= i < |all| && Breaks(all[i], fp, url) && forall j :: i < j < |all| ==> !Mends(all[j], fp, url);
    if i < |steps| {
      assert Breaks(steps[i], fp, url) && !Mends(all[|steps|], fp, url);
    }
  }

  lemma IsBrokenStep(steps: seq<Step>, step: Step, fp: string, url: string)
    ensures IsBroken(steps + [step], fp, url)
       <==> Breaks(step, fp, url) || (IsBroken(steps, fp, url) && !Mends(step, fp, url))
  {
    var all := steps + [step];
    assert all[|steps|] == step && forall j :: 0 <= j < |steps| ==> all[j] == steps[j];
    if IsBroken(all, fp, url) {
      WasBroken(steps, step, fp, url);
    }
    if IsBroken(steps, fp, url) && !Mends(step, fp, url) {
      var i :| 0 <= i < |steps| && Breaks(steps[i], fp, url) && forall j :: i < j < |steps| ==>
        !Mends(steps[j], fp, url);
      assert Breaks(all[i], fp, url);
    }
    if Breaks(step, fp, url) {
      assert Breaks(all[|steps|], fp, url);
    }
  }

  /** Every ingested event names a URL, and no store call fails. */
  predicate Plain(step: Step) {
    StoreUp(step) && (step.Ingest? ==> step.e.url != "")
  }

  /** The tables say of a fingerprint exactly what the history says. */
  ghost predicate Agrees(db: DB, steps: seq<Step>, fp: string) {
    match OpenId(db, fp)
    case None => forall url :: url != "" ==> !IsBroken(steps, fp, url)
    case Some(id) =>
      && Members(db, id) != {} && "" !in Members(db, id)
      && forall url :: url != "" ==> (url in Members(db, id) <==> IsBroken(steps, fp, url))
  }

  /** With sweeps: every member is broken, though not every broken URL need still be a member. */
  ghost predicate Bounded(db: DB, steps: seq<Step>, fp: string) {
    OpenId(db, fp).Some? ==>
      OpenMembers(db, fp) != {} && forall url :: url in OpenMembers(db, fp) ==> IsBroken(steps, fp, url)
  }

  lemma StepKeepsBounded(cfg: Settings, st: State, steps: seq<Step>, step: Step, fp: string)
    requires ValidDB(st.db) && Plain(step) && Bounded(st.db, steps, fp)
    ensures Bounded(Apply(cfg, st, step).db, steps + [step], fp)
  {
    forall url ensures IsBroken(steps + [step], fp, url)
                  <==> Breaks(step, fp, url) || (IsBroken(steps, fp, url) && !Mends(step, fp, url)) {
      IsBrokenStep(steps, step, fp, url);
    }
    match step
    case Ingest(e, now, clk, fail) => IngestRefines(cfg, st, e, now, clk, fail, fp);
    case Resolve(e, now, fail) => ResolveRefines(st, e, now, fail, fp);
    case Sweep(now, missed) => SweepRefines(cfg, st.db, now, missed, fp);
  }

  lemma IngestKeepsAgreement(cfg: Settings, st: State, steps: seq<Step>, step: Step, fp: string)
    requires ValidDB(st.db) && Plain(step) && step.Ingest? && Agrees(st.db, steps, fp)
    ensures Agrees(Apply(cfg, st, step).db, steps + [step], fp)
  {
    forall url ensures IsBroken(steps + [step], fp, url) <==> Breaks(step, fp, url) || IsBroken(steps, fp, url) {
      IsBrokenStep(steps, step, fp, url);
    }
    IngestRefines(cfg, st, step.e, step.now, step.clk, step.fail, fp);
  }

  lemma ResolveKeepsAgreement(cfg: Settings, st: State, steps: seq<Step>, step: Step, fp: string)
    requires ValidDB(st.db) && Plain(step) && step.Resolve? && Agrees(st.db, steps, fp)
    ensures Agrees(Apply(cfg, st, step).db, steps + [step], fp)
  {
    forall url ensures IsBroken(steps + [step], fp, url) <==> IsBroken(steps, fp, url) && !Mends(step, fp, url) {
      IsBrokenStep(steps, step, fp, url);
    }
    ResolveRefines(st, step.e, step.now, step.fail, fp);
  }

  lemma StepKeepsAgreement(cfg: Settings, st: State, steps: seq<Step>, step: Step, fp: string)
    requires ValidDB(st.db) && Plain(step) && !step.Sweep? && Agrees(st.db, steps, fp)
    ensures Agrees(Apply(cfg, st, step).db, steps + [step], fp)
  {
    if step.Ingest? {
      IngestKeepsAgreement(cfg, st, steps, step, fp);
    } else {
      ResolveKeepsAgreement(cfg, st, steps, step, fp);
    }
  }

  /**
   Refinement over whole runs: without sweeps, an incident is open for a fingerprint iff some
   URL of it is broken, and its member rows are exactly the broken URLs.
   */
  lemma {:induction false} RunAgrees(cfg: Settings, steps: seq<Step>, fp: string)
    requires forall i :: 0 <= i < |steps| ==> Plain(steps[i]) && !steps[i].Sweep?
    ensures Agrees(Run(cfg, steps).db, steps, fp)
  {
    if steps == [] {
      assert OpenId(EMPTY_DB, fp) == None;
    } else {
      var init, step := steps[..|steps| - 1], steps[|steps| - 1];
      RunAgrees(cfg, init, fp);
      RunKeepsValid(cfg, init);
      StepKeepsAgreement(cfg, Run(cfg, init), init, step, fp);
      assert steps == init + [step];
    }
  }

  /** With auto-close sweeps anywhere, complete or cut short, members stay among the broken URLs. */
  lemma {:induction false} RunBounded(cfg: Settings, steps: seq<Step>, fp: string)
    requires forall i :: 0 <= i < |steps| ==> Plain(steps[i])
    ensures Bounded(Run(cfg, steps).db, steps, fp)
  {
    if steps == [] {
      assert OpenId(EMPTY_DB, fp) == None;
    } else {
      var init, step := steps[..|steps| - 1], steps[|steps| - 1];
      RunBounded(cfg, init, fp);
      RunKeepsValid(cfg, init);
      StepKeepsBounded(cfg, Run(cfg, init), init, step, fp);
      assert steps == init + [step];
    }
  }

  /**
   The condition on URLs is exact: ingesting an event keeps the agreement iff the event names
   a URL or its incident was open already. A URL-less event opens an incident with no member.
   */
  lemma AgreementNeedsUrl(cfg: Settings, st: State, steps: seq<Step>, step: Step)
    requires ValidDB(st.db) && step.Ingest? && StoreUp(step)
    requires Agrees(st.db, steps, GroupFingerprint(step.e))
    ensures var fp := GroupFingerprint(step.e);
            Agrees(Apply(cfg, st, step).db, steps + [step], fp) <==> step.e.url != "" || OpenId(st.db, fp).Some?
  {
    var fp := GroupFingerprint(step.e);
    if step.e.url != "" {
      StepKeepsAgreement(cfg, st, steps, step, fp);
    } else {
      forall url ensures url != "" ==> (IsBroken(steps + [step], fp, url) <==> IsBroken(steps, fp, url)) {
        IsBrokenStep(steps, step, fp, url);
      }
      IngestRefines(cfg, st, step.e, step.now, step.clk, step.fail, fp);
    }
  }
}
