/**
 The access gate over whole runs (internal/alerts/access.go): which URLs are members of the
 operational incidents, whatever else the pipeline ingests and resolves in between.
 */
module AccessRuns {
  import opened Prelude
  import opened Identity
  import opened IncidentStore
  import opened Alerts
  import opened AlertRuns

  /** A fetch passing the gate, or any other step of the pipeline. */
  datatype Action =
    | Gate(siteID: int, site: string, url: string, fc: FetchClass, env: Environment, env2: Environment)
    | Other(step: Step)

  function OperationalFingerprint(site: string, changeType: string): string {
    GroupFingerprint(OperationalEvent(0, site, "", changeType))
  }

  predicate IsOperational(changeType: string) {
    changeType == MONITORING_BLOCKED || changeType == MONITORING_UNREACHABLE
  }

  lemma OperationalTypesDiffer()
    ensures MONITORING_BLOCKED != MONITORING_UNREACHABLE
    ensures NUL !in MONITORING_BLOCKED && NUL !in MONITORING_UNREACHABLE
  {
    assert |MONITORING_BLOCKED| == 18 && |MONITORING_UNREACHABLE| == 22;
  }

  /** Operational fingerprints are told apart by site and change type, and see no URL. */
  lemma OperationalFingerprints(siteID: int, site: string, url: string, ct: string, site2: string, ct2: string)
    requires IsOperational(ct) && IsOperational(ct2)
    ensures GroupFingerprint(OperationalEvent(siteID, site, url, ct)) == OperationalFingerprint(site2, ct2)
       <==> site == site2 && ct == ct2
  {
    OperationalTypesDiffer();
    FingerprintIsIdentity(OperationalEvent(siteID, site, url, ct), OperationalEvent(0, site2, "", ct2));
  }

  /** The pipeline steps an action amounts to. */
  function Expand(a: Action): seq<Step> {
    match a
    case Other(step) => [step]
    case Gate(siteID, site, url, fc, env, env2) =>
      match OperationalChangeType(fc)
      case Some(ct) => [Ingest(OperationalEvent(siteID, site, url, ct), env.now, env.clk, env.fail)]
      case None => [Resolve(OperationalEvent(siteID, site, url, MONITORING_BLOCKED), env.now, env.fail)]
                   + [Resolve(OperationalEvent(siteID, site, url, MONITORING_UNREACHABLE), env2.now, env2.fail)]
  }

  function ExpandAll(actions: seq<Action>): seq<Step> {
    if actions == [] then [] else ExpandAll(actions[..|actions| - 1]) + Expand(actions[|actions| - 1])
  }

  ghost function Act(cfg: Settings, st: State, a: Action): State {
    match a
    case Other(step) => Apply(cfg, st, step)
    case Gate(siteID, site, url, fc, env, env2) => GateSpec(cfg, st, siteID, site, url, fc, env, env2).state
  }

  ghost function RunActions(cfg: Settings, actions: seq<Action>): State {
    if actions == [] then INITIAL
    else Act(cfg, RunActions(cfg, actions[..|actions| - 1]), actions[|actions| - 1])
  }

  /** At most the dispatcher fails. */
  predicate DispatchOnly(fail: Option<Stage>) {
    fail == None || fail == Some(AtDispatch)
  }

  /** No store call fails, gated fetches name their URL, and nothing else poses as operational. */
  predicate Tame(a: Action) {
    match a
    case Gate(_, _, url, _, env, env2) => url != "" && DispatchOnly(env.fail) && DispatchOnly(env2.fail)
    case Other(step) =>
      && !step.Sweep? && Plain(step) && NUL !in step.e.changeType
      && !(step.e.severity == Critical && IsOperational(step.e.changeType))
  }

  lemma RunAppend(cfg: Settings, steps: seq<Step>, step: Step)
    ensures Run(cfg, steps + [step]) == Apply(cfg, Run(cfg, steps), step)
  {
    assert (steps + [step])[..|steps|] == steps;
  }

  /** The gate is the pipeline steps it expands to. */
  lemma ActionIsSteps(cfg: Settings, steps: seq<Step>, a: Action)
    requires Tame(a)
    ensures Act(cfg, Run(cfg, steps), a) == Run(cfg, steps + Expand(a))
  {
    var more := Expand(a);
    RunAppend(cfg, steps, more[0]);
    if a.Gate? && a.fc.FetchOk? {
      OkIsTwoResolves(cfg, Run(cfg, steps), a);
      RunAppend(cfg, steps + [more[0]], more[1]);
      assert steps + more == steps + [more[0]] + [more[1]];
    } else {
      assert more == [more[0]];
    }
  }

  lemma OkIsTwoResolves(cfg: Settings, st: State, a: Action)
    requires a.Gate? && a.fc.FetchOk? && Tame(a)
    ensures Act(cfg, st, a) == Apply(cfg, Apply(cfg, st, Expand(a)[0]), Expand(a)[1])
  {
    var blocked := OperationalEvent(a.siteID, a.site, a.url, MONITORING_BLOCKED);
    NeverFails(st, blocked, a.env.now, a.env.fail);
  }

  lemma NeverFails(st: State, e: Event, now: int, fail: Option<Stage>)
    requires DispatchOnly(fail)
    ensures !ResolveSpec(st, e, now, fail).failed
  {}

  lemma {:induction false} ActionsAreSteps(cfg: Settings, actions: seq<Action>)
    requires forall i :: 0 <= i < |actions| ==> Tame(actions[i])
    ensures RunActions(cfg, actions) == Run(cfg, ExpandAll(actions))
  {
    if actions != [] {
      var init := actions[..|actions| - 1];
      ActionsAreSteps(cfg, init);
      ActionIsSteps(cfg, ExpandAll(init), actions[|actions| - 1]);
    }
  }

  lemma {:induction false} ExpandedArePlain(actions: seq<Action>)
    requires forall i :: 0 <= i < |actions| ==> Tame(actions[i])
    ensures forall i :: 0 <= i < |ExpandAll(actions)| ==> Plain(ExpandAll(actions)[i]) && !ExpandAll(actions)[i].Sweep?
  {
    if actions != [] {
      ExpandedArePlain(actions[..|actions| - 1]);
      var more := Expand(actions[|actions| - 1]);
      assert forall i :: 0 <= i < |more| ==> Plain(more[i]) && !more[i].Sweep?;
    }
  }

  /** The fetch classes that are to raise an operational incident: blocked, softly or hard, or unreachable. */
  function ClassesOf(ct: string): set<FetchClass> {
    if ct == MONITORING_BLOCKED then {SoftBlock, HardBlock} else {Unreachable}
  }

  predicate Classifies(a: Action, site: string, url: string, classes: set<FetchClass>) {
    a.Gate? && a.site == site && a.url == url && a.fc in classes
  }

  predicate Clears(a: Action, site: string, url: string) {
    a.Gate? && a.site == site && a.url == url && a.fc.FetchOk?
  }

  /** One of the classes was seen for the URL after the URL's last ok fetch. */
  ghost predicate SeenSinceOk(actions: seq<Action>, site: string, url: string, classes: set<FetchClass>) {
    exists i :: 0 <= i < |actions| && Classifies(actions[i], site, url, classes)
             && forall j :: i < j < |actions| ==> !Clears(actions[j], site, url)
  }

  lemma SeenStep(actions: seq<Action>, a: Action, site: string, url: string, classes: set<FetchClass>)
    ensures SeenSinceOk(actions + [a], site, url, classes)
       <==> Classifies(a, site, url, classes) || (SeenSinceOk(actions, site, url, classes) && !Clears(a, site, url))
  {
    var all := actions + [a];
    assert all[|actions|] == a && forall j :: 0 <= j < |actions| ==> all[j] == actions[j];
    if SeenSinceOk(all, site, url, classes) {
      var i :| 0 <= i < |all| && Classifies(all[i], site, url, classes) && forall j :: i < j < |all| ==>
        !Clears(all[j], site, url);
      if i < |actions| {
        assert Classifies(actions[i], site, url, classes) && !Clears(all[|actions|], site, url);
      }
    }
    if SeenSinceOk(actions, site, url, classes) && !Clears(a, site, url) {
      var i :| 0 <= i < |actions| && Classifies(actions[i], site, url, classes)
        && forall j :: i < j < |actions| ==> !Clears(actions[j], site, url);
      assert Classifies(all[i], site, url, classes);
    }
    if Classifies(a, site, url, classes) {
      assert Classifies(all[|actions|], site, url, classes);
    }
  }

  /** One action, seen from an operational fingerprint. */
  lemma ActionIsBroken(steps: seq<Step>, a: Action, site: string, url: string, ct: string)
    requires Tame(a) && IsOperational(ct)
    ensures var fp := OperationalFingerprint(site, ct);
      IsBroken(steps + Expand(a), fp, url) <==>
        Classifies(a, site, url, ClassesOf(ct)) || (IsBroken(steps, fp, url) && !Clears(a, site, url))
  {
    var fp := OperationalFingerprint(site, ct);
    var more := Expand(a);
    OperationalTypesDiffer();
    match a
    case Other(step) =>
      FingerprintIsIdentity(step.e, OperationalEvent(0, site, "", ct));
      IsBrokenStep(steps, step, fp, url);
    case Gate(siteID, gsite, gurl, fc, env, env2) =>
      OperationalFingerprints(siteID, gsite, gurl, MONITORING_BLOCKED, site, ct);
      OperationalFingerprints(siteID, gsite, gurl, MONITORING_UNREACHABLE, site, ct);
      IsBrokenStep(steps, more[0], fp, url);
      if |more| == 1 {
        assert more == [more[0]];
      } else {
        IsBrokenStep(steps + [more[0]], more[1], fp, url);
        assert steps + more == steps + [more[0]] + [more[1]];
      }
  }

  lemma {:induction false} BrokenIsSeen(actions: seq<Action>, site: string, url: string, ct: string)
    requires IsOperational(ct)
    requires forall i :: 0 <= i < |actions| ==> Tame(actions[i])
    ensures IsBroken(ExpandAll(actions), OperationalFingerprint(site, ct), url) <==>
      SeenSinceOk(actions, site, url, ClassesOf(ct))
  {
    if actions != [] {
      var init, a := actions[..|actions| - 1], actions[|actions| - 1];
      BrokenIsSeen(init, site, url, ct);
      ActionIsBroken(ExpandAll(init), a, site, url, ct);
      SeenStep(init, a, site, url, ClassesOf(ct));
      assert actions == init + [a];
    }
  }

  lemma MembersAreSeen(cfg: Settings, actions: seq<Action>, site: string, url: string, ct: string)
    requires IsOperational(ct) && url != ""
    requires forall i :: 0 <= i < |actions| ==> Tame(actions[i])
    ensures var db, fp := RunActions(cfg, actions).db, OperationalFingerprint(site, ct);
      && (url in OpenMembers(db, fp) <==> SeenSinceOk(actions, site, url, ClassesOf(ct)))
      && (OpenId(db, fp).Some? <==> exists u :: u != "" && SeenSinceOk(actions, site, u, ClassesOf(ct)))
  {
    var fp := OperationalFingerprint(site, ct);
    ActionsAreSteps(cfg, actions);
    ExpandedArePlain(actions);
    RunAgrees(cfg, ExpandAll(actions), fp);
    forall u ensures IsBroken(ExpandAll(actions), fp, u) <==> SeenSinceOk(actions, site, u, ClassesOf(ct)) {
      BrokenIsSeen(actions, site, u, ct);
    }
    var db := RunActions(cfg, actions).db;
    if OpenId(db, fp).Some? {
      var u :| u in OpenMembers(db, fp);
    }
  }

  /**
   After any run of gated fetches and other events, without auto-close: a URL is a member of its
   site's monitoring_blocked incident iff a soft or hard block came after its last ok fetch, and of
   monitoring_unreachable iff an unreachable fetch did; and each incident is open iff it has such a URL.
   */
  lemma GateMembers(cfg: Settings, actions: seq<Action>, site: string, url: string)
    requires url != "" && forall i :: 0 <= i < |actions| ==> Tame(actions[i])
    ensures var db, fp := RunActions(cfg, actions).db, OperationalFingerprint(site, MONITORING_BLOCKED);
      && (url in OpenMembers(db, fp) <==> SeenSinceOk(actions, site, url, {SoftBlock, HardBlock}))
      && (OpenId(db, fp).Some? <==> exists u :: u != "" && SeenSinceOk(actions, site, u, {SoftBlock, HardBlock}))
    ensures var db, fp := RunActions(cfg, actions).db, OperationalFingerprint(site, MONITORING_UNREACHABLE);
      && (url in OpenMembers(db, fp) <==> SeenSinceOk(actions, site, url, {Unreachable}))
      && (OpenId(db, fp).Some? <==> exists u :: u != "" && SeenSinceOk(actions, site, u, {Unreachable}))
  {
    OperationalTypesDiffer();
    MembersAreSeen(cfg, actions, site, url, MONITORING_BLOCKED);
    MembersAreSeen(cfg, actions, site, url, MONITORING_UNREACHABLE);
  }

  /**
   The gate lets a fetch through exactly if it is ok, and fails exactly if a call it makes fails; a first
   recovery that fails leaves the second undone.
   */
  lemma GateVerdict(cfg: Settings, st: State, a: Action)
    requires a.Gate? && ValidDB(st.db)
    ensures var o := GateSpec(cfg, st, a.siteID, a.site, a.url, a.fc, a.env, a.env2);
      && (o.handled <==> a.fc != FetchOk)
      && (a.fc != FetchOk ==> (o.failed <==>
            IngestSpec(cfg, st, Expand(a)[0].e, a.env.now, a.env.clk, a.env.fail).failed))
      && (a.fc == FetchOk ==>
            var first := ResolveSpec(st, Expand(a)[0].e, a.env.now, a.env.fail);
            if first.failed then o.failed && o.state == first.state
            else o.failed <==> ResolveSpec(first.state, Expand(a)[1].e, a.env2.now, a.env2.fail).failed)
  {}

  lemma OperationalKeys(site: string)
    ensures GroupKey(site, MONITORING_UNREACHABLE) == site + "|monitoring_unreachable"
    ensures GroupKey(site, MONITORING_BLOCKED) == site + "|monitoring_blocked"
  {
    assert "|" + "monitoring_unreachable" == "|monitoring_unreachable";
    assert "|" + "monitoring_blocked" == "|monitoring_blocked";
  }

  lemma OpensItsRow(cfg: Settings, st: State, e: Event, now: int, clk: int, fail: Option<Stage>)
    requires DispatchOnly(fail)
    ensures OpenSpec(cfg, st, e, now, clk, fail).state.db.rows == st.db.rows[st.db.nextId := NewIncident(e, now)]
  {}

  /** The incident a bad fetch opens: critical, of its own site, dated by the gate's clock. */
  lemma GateOpens(cfg: Settings, st: State, a: Action)
    requires a.Gate? && a.fc != FetchOk && ValidDB(st.db) && DispatchOnly(a.env.fail)
    requires OpenId(st.db, GroupFingerprint(Expand(a)[0].e)) == None
    ensures var after, id := Act(cfg, st, a).db, st.db.nextId;
      && id !in st.db.rows && id in after.rows
      && var row := after.rows[id];
        && row.open && row.siteID == a.siteID && row.severity == Critical && row.firstDetected == a.env.now
        && row.groupKey == a.site + (if a.fc == Unreachable then "|monitoring_unreachable" else "|monitoring_blocked")
  {
    var e := Expand(a)[0].e;
    assert Act(cfg, st, a) == OpenSpec(cfg, st, e, a.env.now, a.env.clk, a.env.fail).state;
    OpensItsRow(cfg, st, e, a.env.now, a.env.clk, a.env.fail);
    OperationalKeys(a.site);
  }

  /** A gated fetch leaves every incident that is not one of its site's two operational ones alone. */
  lemma GateTouchesOnlyItsOwn(cfg: Settings, st: State, a: Action, fp: string)
    requires a.Gate? && Tame(a) && ValidDB(st.db)
    requires fp != OperationalFingerprint(a.site, MONITORING_BLOCKED)
    requires fp != OperationalFingerprint(a.site, MONITORING_UNREACHABLE)
    ensures View(Act(cfg, st, a).db, fp) == View(st.db, fp)
  {
    match OperationalChangeType(a.fc)
    case Some(ct) =>
      IngestRefines(cfg, st, OperationalEvent(a.siteID, a.site, a.url, ct), a.env.now, a.env.clk, a.env.fail, fp);
    case None =>
      var blocked := OperationalEvent(a.siteID, a.site, a.url, MONITORING_BLOCKED);
      var first := ResolveSpec(st, blocked, a.env.now, a.env.fail).state;
      ResolveRefines(st, blocked, a.env.now, a.env.fail, fp);
      ResolveKeepsValid(st, blocked, a.env.now, a.env.fail);
      ResolveRefines(first, OperationalEvent(a.siteID, a.site, a.url, MONITORING_UNREACHABLE), a.env2.now, a.env2.fail,
                     fp);
  }
}
