/**
 The incident state machine (internal/alerts/pipeline.go, timers.go, access.go).

 The specification is a function of the tables, the throttle windows and the delivery log.
 The clock and the failures of the store and of the dispatcher are inputs: `now` is read
 before the fingerprint lock is taken, `clk` is the throttle's own reading, and `fail` names
 the first call that fails, if any.
 */
module Alerts {
  import opened Prelude
  import opened Identity
  import opened IncidentStore
  import opened Throttling

  datatype Settings = Settings(
    dedupWindow: int, hourlyCap: int, autoClose: int,
    digestSink: bool, digestSeverities: Option<set<Severity>>,
    route: Event -> Option<string>)

  datatype Stage = AtGet | AtAddMember | AtUpdate | AtOpen | AtDispatch | AtRemove | AtClose

  /** What became of a notification that was due. */
  datatype Fate = Dispatched | Digested | Suppressed

  datatype Delivery = Delivery(
    fate: Fate, event: Event, incident: int, groupKey: string, related: int,
    at: int, key: string, clk: int)

  datatype State = State(db: DB, windows: map<string, seq<int>>, log: seq<Delivery>)

  datatype Outcome = Outcome(state: State, failed: bool)

  // ---------- Specification ----------

  /** The routed channel if there is one, else a bucket per site and severity. */
  function ThrottleKey(cfg: Settings, e: Event): string {
    match cfg.route(e)
    case Some(channel) => channel
    case None => GroupKey(e.site, SeverityName(e.severity))
  }

  function FateOf(cfg: Settings, severity: Severity, admitted: bool): Fate {
    if admitted || !cfg.digestSink then Dispatched
    else if cfg.digestSeverities.None? || severity in cfg.digestSeverities.value then Digested
    else Suppressed
  }

  function Deliver(cfg: Settings, st: State, e: Event, id: int, inc: Alert, now: int, clk: int): State {
    var key := ThrottleKey(cfg, e);
    var v := AllowSpec(cfg.hourlyCap, st.windows, clk, key, e.severity);
    var related := if inc.affected >= 1 then inc.affected - 1 else 0;
    var d := Delivery(FateOf(cfg, e.severity, v.admitted), e, id, inc.groupKey, related, now, key, clk);
    State(st.db, v.windows, st.log + [d])
  }

  /** Only an alert that is handed to the dispatcher can see the dispatcher fail. */
  function Notify(cfg: Settings, st: State, e: Event, id: int, inc: Alert, now: int, clk: int,
                  fail: Option<Stage>): Outcome {
    var after := Deliver(cfg, st, e, id, inc, now, clk);
    Outcome(after, fail == Some(AtDispatch) && after.log[|after.log| - 1].fate == Dispatched)
  }

  function JoinMember(db: DB, id: int, url: string): DB {
    if url == "" then db else AddMember(db, id, url)
  }

  predicate WithinWindow(cfg: Settings, row: Alert, now: int) {
    row.lastNotified.Some? && now - row.lastNotified.value < cfg.dedupWindow
  }

  function NewIncident(e: Event, now: int): Alert {
    Alert(e.siteID, GroupFingerprint(e), GroupKey(e.site, e.changeType), e.severity, true, 1, now, now, Some(now), None)
  }

  function Accrued(cfg: Settings, row: Alert, now: int): Alert {
    var bumped := row.(affected := row.affected + 1, lastUpdated := now);
    if WithinWindow(cfg, row, now) then bumped else bumped.(lastNotified := Some(now))
  }

  /** An event that finds its incident open: it accrues, and notifies again outside the window. */
  function AccrueSpec(cfg: Settings, st: State, e: Event, id: int, now: int, clk: int, fail: Option<Stage>): Outcome
    requires id in st.db.rows
  {
    if e.url != "" && fail == Some(AtAddMember) then Outcome(st, true)
    else
      var joined := JoinMember(st.db, id, e.url);
      if fail == Some(AtUpdate) then Outcome(st.(db := joined), true)
      else
        var row := st.db.rows[id];
        var inc := Accrued(cfg, row, now);
        var updated := st.(db := Update(joined, id, inc));
        if WithinWindow(cfg, row, now) then Outcome(updated, false)
        else Notify(cfg, updated, e, id, inc, now, clk, fail)
  }

  /** An event that finds no open incident: it opens one and notifies. */
  function OpenSpec(cfg: Settings, st: State, e: Event, now: int, clk: int, fail: Option<Stage>): Outcome {
    if fail == Some(AtOpen) then Outcome(st, true)
    else
      var id, inc := st.db.nextId, NewIncident(e, now);
      var inserted := st.(db := Insert(st.db, inc));
      if e.url != "" && fail == Some(AtAddMember) then Outcome(inserted, true)
      else
        var joined := inserted.(db := JoinMember(inserted.db, id, e.url));
        Notify(cfg, joined, e, id, inc, now, clk, fail)
  }

  ghost function IngestSpec(cfg: Settings, st: State, e: Event, now: int, clk: int, fail: Option<Stage>): Outcome {
    if fail == Some(AtGet) then Outcome(st, true)
    else
      match OpenId(st.db, GroupFingerprint(e))
      case Some(id) => AccrueSpec(cfg, st, e, id, now, clk, fail)
      case None => OpenSpec(cfg, st, e, now, clk, fail)
  }

  ghost function ResolveSpec(st: State, e: Event, now: int, fail: Option<Stage>): Outcome {
    if fail == Some(AtGet) then Outcome(st, true)
    else
      match OpenId(st.db, GroupFingerprint(e))
      case None => Outcome(st, false)
      case Some(id) =>
        if fail == Some(AtRemove) then Outcome(st, true)
        else
          var left := st.(db := RemoveMember(st.db, id, e.url));
          if |Members(left.db, id)| > 0 then Outcome(left, false)
          else if fail == Some(AtClose) then Outcome(left, true)
          else Outcome(left.(db := Close(left.db, id, now, false)), false)
  }

  predicate Stale(cfg: Settings, row: Alert, now: int) {
    row.open && now - row.lastUpdated >= cfg.autoClose
  }

  /** The auto-close sweep, of which a store failure may leave some stale incidents `missed`. */
  function SweepSpec(cfg: Settings, db: DB, now: int, missed: set<int>): DB {
    db.(rows := map id | id in db.rows ::
      if Stale(cfg, db.rows[id], now) && id !in missed
      then db.rows[id].(open := false, lastUpdated := now, autoClosed := Some(now))
      else db.rows[id])
  }

  /** The sweep wants to close this incident, and the store fails to. */
  predicate CloseFails(cfg: Settings, db: DB, now: int, fails: int -> bool, id: int) {
    id in db.rows && Stale(cfg, db.rows[id], now) && fails(id)
  }

  ghost predicate SomeCloseFails(cfg: Settings, db: DB, now: int, fails: int -> bool) {
    exists id :: CloseFails(cfg, db, now, fails, id)
  }

  // ---------- The access gate ----------

  datatype FetchClass = FetchOk | SoftBlock | HardBlock | Unreachable

  function OperationalChangeType(fc: FetchClass): Option<string> {
    match fc
    case SoftBlock => Some(MONITORING_BLOCKED)
    case HardBlock => Some(MONITORING_BLOCKED)
    case Unreachable => Some(MONITORING_UNREACHABLE)
    case FetchOk => None
  }

  function OperationalEvent(siteID: int, site: string, url: string, changeType: string): Event {
    Event(siteID, site, url, changeType, Critical)
  }

  /** Each of the two resolves of an ok fetch has its own clock reading and may fail on its own. */
  datatype Environment = Environment(now: int, clk: int, fail: Option<Stage>)

  datatype GateOutcome = GateOutcome(state: State, handled: bool, failed: bool)

  ghost function GateSpec(cfg: Settings, st: State, siteID: int, site: string, url: string, fc: FetchClass,
                          env: Environment, env2: Environment): GateOutcome
  {
    match OperationalChangeType(fc)
    case Some(ct) =>
      var o := IngestSpec(cfg, st, OperationalEvent(siteID, site, url, ct), env.now, env.clk, env.fail);
      GateOutcome(o.state, true, o.failed)
    case None =>
      var first := ResolveSpec(st, OperationalEvent(siteID, site, url, MONITORING_BLOCKED), env.now, env.fail);
      if first.failed then GateOutcome(first.state, false, true)
      else
        var second := ResolveSpec(first.state, OperationalEvent(siteID, site, url, MONITORING_UNREACHABLE), env2.now,
                                  env2.fail);
        GateOutcome(second.state, false, second.failed)
  }

  // ---------- The pipeline object ----------

  class Pipeline {
    const cfg: Settings
    const store: Store
    const th: Throttle
    var log: seq<Delivery>  // the calls made to the dispatcher and the digest sink, and the silenced alerts

    ghost predicate Valid()
      reads this, store, th, th.repr
    {
      && th.Valid() && th.cap == cfg.hourlyCap
      && (this as object) !in th.repr && (store as object) !in th.repr
      && ValidDB(store.State())
    }

    ghost function Contents(): State
      reads this, store, th
    {
      State(store.State(), th.windows, log)
    }

    constructor (cfg: Settings)
      ensures Valid() && this.cfg == cfg
      ensures Contents() == State(EMPTY_DB, map[], [])
    {
      this.cfg := cfg;
      store := new Store();
      th := new Throttle(cfg.hourlyCap);
      log := [];
    }

    method MaybeDispatch(e: Event, id: int, inc: Alert, now: int, clk: int, fail: Option<Stage>) returns (failed: bool)
      requires Valid()
      modifies this`log, th.repr
      ensures Valid() && store.State() == old(store.State()) && fresh(th.repr - old(th.repr))
      ensures Outcome(Contents(), failed) == Notify(cfg, old(Contents()), e, id, inc, now, clk, fail)
    {
      var key := ThrottleKey(cfg, e);
      var admitted := th.Allow(clk, key, e.severity);
      var related := inc.affected - 1;
      if related < 0 {
        related := 0;
      }
      if !admitted && cfg.digestSink {
        if cfg.digestSeverities == None || e.severity in cfg.digestSeverities.value {
          log := log + [Delivery(Digested, e, id, inc.groupKey, related, now, key, clk)];
        } else {
          log := log + [Delivery(Suppressed, e, id, inc.groupKey, related, now, key, clk)];
        }
        return false;
      }
      log := log + [Delivery(Dispatched, e, id, inc.groupKey, related, now, key, clk)];
      return fail == Some(AtDispatch);
    }

    method Ingest(e: Event, now: int, clk: int, fail: Option<Stage>) returns (failed: bool)
      requires Valid()
      modifies this`log, store, th.repr
      ensures Valid() && fresh(th.repr - old(th.repr))
      ensures Outcome(Contents(), failed) == IngestSpec(cfg, old(Contents()), e, now, clk, fail)
    {
      var fp := GroupFingerprint(e);
      var got := store.GetOpenIncident(fp, fail == Some(AtGet));
      match got {
        case LookupFailed =>
          failed := true;
        case Found(id, row) =>
          failed := Accrue(e, id, row, now, clk, fail);
        case NoneOpen =>
          failed := Open(e, now, clk, fail);
      }
    }

    method AddMember(id: int, url: string, fails: bool) returns (ok: bool)
      requires Valid()
      modifies store
      ensures Valid()
      ensures ok == !(url != "" && fails)
      ensures Contents() ==
        if ok then old(Contents()).(db := JoinMember(old(store.State()), id, url)) else old(Contents())
    {
      if url == "" {
        return true;
      }
      MembersKeepValid(store.State(), id, url);
      ok := store.AddAlertMember(id, url, fails);
    }

    /** The branch of Ingest for an incident that is already open. */
    method Accrue(e: Event, id: int, row: Alert, now: int, clk: int, fail: Option<Stage>) returns (failed: bool)
      requires Valid() && id in store.rows && row == store.rows[id]
      modifies this`log, store, th.repr
      ensures Valid() && fresh(th.repr - old(th.repr))
      ensures Outcome(Contents(), failed) == AccrueSpec(cfg, old(Contents()), e, id, now, clk, fail)
    {
      var ok := AddMember(id, e.url, fail == Some(AtAddMember));
      if !ok {
        return true;
      }
      var cur := row;
      cur := cur.(affected := cur.affected + 1, lastUpdated := now);
      var withinWindow := cur.lastNotified.Some? && now - cur.lastNotified.value < cfg.dedupWindow;
      if !withinWindow {
        cur := cur.(lastNotified := Some(now));
      }
      UpdateKeepsValid(store.State(), id, cur);
      ok := store.UpdateIncident(id, cur, fail == Some(AtUpdate));
      if !ok {
        return true;
      }
      if withinWindow {
        return false;
      }
      failed := MaybeDispatch(e, id, cur, now, clk, fail);
    }

    /** The branch of Ingest for an incident that is not open yet. */
    method Open(e: Event, now: int, clk: int, fail: Option<Stage>) returns (failed: bool)
      requires Valid() && OpenId(store.State(), GroupFingerprint(e)) == None
      modifies this`log, store, th.repr
      ensures Valid() && fresh(th.repr - old(th.repr))
      ensures Outcome(Contents(), failed) == OpenSpec(cfg, old(Contents()), e, now, clk, fail)
    {
      var inc := Alert(e.siteID, GroupFingerprint(e), GroupKey(e.site, e.changeType), e.severity, true, 1, now, now,
                       Some(now), None);
      InsertKeepsValid(store.State(), inc);
      var id := store.OpenIncident(inc, fail == Some(AtOpen));
      if id.None? {
        return true;
      }
      var ok := AddMember(id.value, e.url, fail == Some(AtAddMember));
      if !ok {
        return true;
      }
      failed := MaybeDispatch(e, id.value, inc, now, clk, fail);
    }

    method Resolve(e: Event, now: int, fail: Option<Stage>) returns (failed: bool)
      requires Valid()
      modifies store
      ensures Valid()
      ensures Outcome(Contents(), failed) == ResolveSpec(old(Contents()), e, now, fail)
    {
      var got := store.GetOpenIncident(GroupFingerprint(e), fail == Some(AtGet));
      match got {
        case LookupFailed =>
          failed := true;
        case NoneOpen =>
          failed := false;
        case Found(id, _) =>
          MembersKeepValid(store.State(), id, e.url);
          var remaining := store.RemoveAlertMember(id, e.url, fail == Some(AtRemove));
          if remaining.None? {
            return true;
          }
          if remaining.value > 0 {
            return false;
          }
          CloseKeepsValid(store.State(), id, now, false);
          var ok := store.CloseIncident(id, now, false, fail == Some(AtClose));
          failed := !ok;
      }
    }

    /** The idempotency probe: is this URL already a member of its open incident? None is the store's error. */
    method HasOpenMember(e: Event, fails: bool) returns (member: Option<bool>)
      requires Valid()
      ensures member.None? <==> e.url != "" && fails
      ensures member.Some? ==>
        (member.value <==> e.url != "" && e.url in OpenMembers(store.State(), GroupFingerprint(e)))
    {
      if e.url == "" {
        return Some(false);
      }
      member := store.HasOpenIncidentMember(GroupFingerprint(e), e.url, fails);
    }

    /** The access gate: the SEO events of a fetch that was not ok are dropped. */
    method HandleFetchClass(siteID: int, site: string, url: string, fc: FetchClass, suppressedSEO: seq<Event>,
                            env: Environment, env2: Environment)
      returns (handled: bool, failed: bool)
      requires Valid()
      modifies this`log, store, th.repr
      ensures Valid() && fresh(th.repr - old(th.repr))
      ensures GateOutcome(Contents(), handled, failed) == GateSpec(cfg, old(Contents()), siteID, site, url, fc, env,
                                                                   env2)
    {
      var ct := OperationalChangeType(fc);
      if ct.Some? {
        failed := Ingest(OperationalEvent(siteID, site, url, ct.value), env.now, env.clk, env.fail);
        return true, failed;
      }
      var types := [MONITORING_BLOCKED, MONITORING_UNREACHABLE];
      var envs := [env, env2];
      ghost var first := ResolveSpec(Contents(), OperationalEvent(siteID, site, url, types[0]), env.now, env.fail);
      for k := 0 to 2
        invariant Valid() && th.repr == old(th.repr) && unchanged(th)
        invariant k == 0 ==> Contents() == old(Contents())
        invariant k == 1 ==> Contents() == first.state && !first.failed
        invariant k == 2 ==> !first.failed
        invariant k == 2 ==>
          Outcome(Contents(), false) == ResolveSpec(first.state, OperationalEvent(siteID, site, url, types[1]),
                                                    env2.now, env2.fail)
      {
        var stuck := Resolve(OperationalEvent(siteID, site, url, types[k]), envs[k].now, envs[k].fail);
        if stuck {
          return false, true;
        }
      }
      return false, false;
    }

    /** The body of the sweep's loop, on an incident that was open when the sweep began with `db`. */
    method CloseIfStale(id: int, lastUpdated: int, now: int, fails: bool, ghost db: DB, ghost missed: set<int>)
      returns (ok: bool)
      requires Valid() && store.State() == SweepSpec(cfg, db, now, missed)
      requires id in db.rows && db.rows[id].open && db.rows[id].lastUpdated == lastUpdated
      modifies store
      ensures Valid() && ok == !(Stale(cfg, db.rows[id], now) && fails)
      ensures store.State() == SweepSpec(cfg, db, now, if ok then missed - {id} else missed)
    {
      if now - lastUpdated >= cfg.autoClose {
        CloseKeepsValid(store.State(), id, now, true);
        SweepOne(cfg, db, now, missed, id);
        ok := store.CloseIncident(id, now, true, fails);
      } else {
        SweepKeeps(cfg, db, now, missed, missed - {id});
        ok := true;
      }
    }

    /**
     The sweep goes through its listing and ends at the first stale incident whose close fails: it has
     closed the stale ones before that one, and no other.
     */
    method AutoCloseStale(now: int, listFails: bool, fails: int -> bool)
      returns (failed: bool, listed: seq<int>, reached: nat)
      requires Valid()
      modifies store
      ensures Valid() && reached <= |listed|
      ensures failed <==> listFails || SomeCloseFails(cfg, old(store.State()), now, fails)
      ensures listFails ==> listed == []
      ensures !listFails ==> forall id :: id in listed <==> id in old(store.rows) && old(store.rows)[id].open
      ensures
        Contents() == old(Contents()).(db := SweepSpec(cfg, old(store.State()), now,
                                                       LeftOver(old(store.State()), listed[..reached])))
      ensures forall i :: 0 <= i < reached ==> !CloseFails(cfg, old(store.State()), now, fails, listed[i])
      ensures failed && !listFails ==>
        reached < |listed| && CloseFails(cfg, old(store.State()), now, fails, listed[reached])
      ensures !failed ==> store.State() == SweepSpec(cfg, old(store.State()), now, {})
    {
      ghost var db := store.State();
      var snapshot := store.rows;
      failed, listed, reached := true, [], 0;
      SweepKeeps(cfg, db, now, LeftOver(db, []), {});
      var open := store.ListOpenIncidents(listFails);
      if open.None? {
        return;
      }
      listed := open.value;
      while reached < |listed|
        invariant Valid() && unchanged(th) && unchanged(th.repr) && reached <= |listed|
        invariant store.State() == SweepSpec(cfg, db, now, LeftOver(db, listed[..reached]))
        invariant forall i :: 0 <= i < reached ==> !CloseFails(cfg, db, now, fails, listed[i])
      {
        var id := listed[reached];
        assert id in listed;
        LeftOverNext(db, listed, reached);
        var ok := CloseIfStale(id, snapshot[id].lastUpdated, now, fails(id), db, LeftOver(db, listed[..reached]));
        if !ok {
          assert CloseFails(cfg, db, now, fails, id);
          return;
        }
        reached := reached + 1;
      }
      failed := false;
      assert listed[..|listed|] == listed;
      SweepKeeps(cfg, db, now, LeftOver(db, listed), {});
    }
  }

  /** The incidents a sweep has not come to. */
  function LeftOver(db: DB, done: seq<int>): set<int> {
    set id | id in db.rows && id !in done
  }

  lemma LeftOverNext(db: DB, listed: seq<int>, i: nat)
    requires i < |listed|
    ensures LeftOver(db, listed[..i + 1]) == LeftOver(db, listed[..i]) - {listed[i]}
  {
    assert listed[..i + 1] == listed[..i] + [listed[i]];
  }

  /** Which incidents a sweep missed matters only for the stale ones. */
  lemma SweepKeeps(cfg: Settings, db: DB, now: int, missed: set<int>, missed2: set<int>)
    ensures (forall id :: id in db.rows && Stale(cfg, db.rows[id], now) ==> (id in missed <==> id in missed2))
            ==> SweepSpec(cfg, db, now, missed) == SweepSpec(cfg, db, now, missed2)
    ensures missed == db.rows.Keys ==> SweepSpec(cfg, db, now, missed) == db
  {
    if forall id :: id in db.rows && Stale(cfg, db.rows[id], now) ==> (id in missed <==> id in missed2) {
      assert SweepSpec(cfg, db, now, missed).rows == SweepSpec(cfg, db, now, missed2).rows;
    }
    if missed == db.rows.Keys {
      assert SweepSpec(cfg, db, now, missed).rows == db.rows;
    }
  }

  /** One close of the loop, on a stale incident, takes it out of the missed ones. */
  lemma SweepOne(cfg: Settings, db: DB, now: int, missed: set<int>, id: int)
    requires id in db.rows && Stale(cfg, db.rows[id], now)
    ensures Close(SweepSpec(cfg, db, now, missed), id, now, true) == SweepSpec(cfg, db, now, missed - {id})
  {
    var swept := SweepSpec(cfg, db, now, missed);
    assert Close(swept, id, now, true).rows == SweepSpec(cfg, db, now, missed - {id}).rows;
  }
}
