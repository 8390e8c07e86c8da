/**
 The interleaved incident calls of IncidentRaces with their notifications. A call that owes one asks
 the throttle, which decides under its own mutex, and then carries the decision out - hands over to the
 dispatcher or the digest, or drops - all while it still holds the lock of its fingerprint. The windows, the
 decisions and their carrying out are shared by all fingerprints.
 */
module DispatchRaces {
  import opened Prelude
  import opened Identity
  import opened IncidentStore
  import opened Alerts
  import opened AlertRuns
  import opened IncidentRaces

  /** What a notification that is due will be about. */
  datatype Notice = Notice(id: int, inc: Alert)

  datatype Full = Full(
    core: Sys, windows: map<string, seq<int>>, log: seq<Delivery>,  // the decisions, in the throttle's order
    owing: map<nat, Notice>,                // the workers that have yet to ask the throttle
    pending: map<nat, nat>, sent: seq<nat>,  // the decisions to be carried out, and those carried out in that order
    lin: seq<Step>, whose: seq<nat>)  // the calls in the order of their last effects, and their workers

  datatype Turn = Base(l: Label) | Dispatch(w: nat) | Carry(w: nat)

  /** The notice a worker owes after its next store call. */
  function NoticeOf(cfg: Settings, wk: Worker): Option<Notice> {
    match wk.pc
    case Joined(id, row) => if WithinWindow(cfg, row, wk.now) then None else Some(Notice(id, Accrued(cfg, row, wk.now)))
    case Inserted(id) => Some(Notice(id, NewIncident(wk.e, wk.now)))
    case _ => None
  }

  /** Whether the worker's next store call is its last effect. */
  ghost predicate IsLast(cfg: Settings, db: DB, wk: Worker) {
    match wk.pc
    case Locked => wk.kind == Resolving && OpenId(db, Fp(wk)) == None
    case SawOpen(id, _) => wk.kind == Resolving && Members(RemoveMember(db, id, wk.e.url), id) != {}
    case Joined(_, row) => WithinWindow(cfg, row, wk.now)
    case Removed(_) => true
    case _ => false
  }

  predicate Calling(s: Sys, l: Label) {
    l.Work? && l.w < |s.workers| && Inside(s.workers[l.w]) && !s.workers[l.w].pc.Finishing?
  }

  ghost predicate Can(cfg: Settings, f: Full, m: Turn) {
    match m
    case Base(l) => Enabled(cfg, f.core, l) && (l.Work? ==> l.w !in f.owing && l.w !in f.pending)
    case Dispatch(w) => w in f.owing && w < |f.core.workers|
    case Carry(w) => w in f.pending
  }

  function Landed(f: Full, w: nat): Full
    requires w < |f.core.workers|
  {
    f.(lin := f.lin + [CallOf(f.core.workers[w])], whose := f.whose + [w])
  }

  ghost function Next(cfg: Settings, f: Full, m: Turn): Full
    requires Can(cfg, f, m)
  {
    match m
    case Base(l) =>
      var g := f.(core := Do(cfg, f.core, l));
      if !Calling(f.core, l) || l.fails then g
      else
        var wk := f.core.workers[l.w];
        if IsLast(cfg, f.core.db, wk) then Landed(g, l.w)
        else if NoticeOf(cfg, wk).Some? then g.(owing := f.owing[l.w := NoticeOf(cfg, wk).value])
        else g
    case Dispatch(w) =>
      var wk, n := f.core.workers[w], f.owing[w];
      var st := Deliver(cfg, State(f.core.db, f.windows, f.log), wk.e, n.id, n.inc, wk.now, wk.clk);
      Landed(f.(windows := st.windows, log := st.log, owing := f.owing - {w}, pending := f.pending[w := |f.log|]), w)
    case Carry(w) => f.(sent := f.sent + [f.pending[w]], pending := f.pending - {w})
  }

  ghost predicate Leads(cfg: Settings, f: Full, turns: seq<Turn>, g: Full)
    decreases |turns|
  {
    if turns == [] then g == f
    else Can(cfg, f, turns[0]) && Leads(cfg, Next(cfg, f, turns[0]), turns[1..], g)
  }

  ghost predicate Started(f: Full) {
    && Initial(f.core) && f.windows == map[] && f.log == [] && f.lin == [] && f.whose == []
    && f.owing == map[] && f.pending == map[] && f.sent == []
  }

  predicate Undisturbed(f: Full) {
    !f.core.swept && !f.core.faulted
  }

  // ---------- What the tables show of a fingerprint ----------

  datatype Incident = Incident(row: Alert, urls: set<string>)

  /** The open incident with its members, whatever its id. */
  ghost function Shown(db: DB, fp: string): Option<Incident> {
    match OpenId(db, fp)
    case None => None
    case Some(id) => Some(Incident(db.rows[id], Members(db, id)))
  }

  function With(urls: set<string>, url: string): set<string> {
    if url == "" then urls else urls + {url}
  }

  /** The row an ingest leaves, and notifies about. */
  function IngestedRow(cfg: Settings, v: Option<Incident>, e: Event, now: int): Alert {
    match v
    case None => NewIncident(e, now)
    case Some(i) => Accrued(cfg, i.row, now)
  }

  function Ingested(cfg: Settings, v: Option<Incident>, e: Event, now: int): Option<Incident> {
    Some(Incident(IngestedRow(cfg, v, e, now), With(if v.Some? then v.value.urls else {}, e.url)))
  }

  function Resolved(v: Option<Incident>, url: string): Option<Incident> {
    if v.None? || v.value.urls - {url} == {} then None else Some(v.value.(urls := v.value.urls - {url}))
  }

  predicate Quiet(cfg: Settings, v: Option<Incident>, now: int) {
    v.Some? && WithinWindow(cfg, v.value.row, now)
  }

  lemma ShownFrame(db: DB, after: DB, fp: string, other: string)
    requires ValidDB(db) && ValidDB(after) && TouchesOnly(db, after, fp) && other != fp
    ensures Shown(after, other) == Shown(db, other)
  {
    FrameOpen(db, after, fp, other);
  }

  // ---------- What each statement does to it ----------

  lemma JoinShows(db: DB, fp: string, id: int, url: string)
    requires ValidDB(db) && IsOpen(db, fp, id)
    ensures var after := JoinMember(db, id, url);
      && ValidDB(after) && TouchesOnly(db, after, fp) && after.rows == db.rows && IsOpen(after, fp, id)
      && Shown(after, fp) == Some(Incident(db.rows[id], With(Members(db, id), url)))
  {
    MembersKeepValid(db, id, url);
  }

  lemma LeaveShows(db: DB, fp: string, id: int, url: string)
    requires ValidDB(db) && IsOpen(db, fp, id)
    ensures var after := RemoveMember(db, id, url);
      && ValidDB(after) && TouchesOnly(db, after, fp) && after.rows == db.rows && IsOpen(after, fp, id)
      && Members(after, id) == Members(db, id) - {url}
      && Shown(after, fp) == Some(Incident(db.rows[id], Members(db, id) - {url}))
  {
    MembersKeepValid(db, id, url);
  }

  lemma UpdateShows(cfg: Settings, db: DB, fp: string, id: int, now: int)
    requires ValidDB(db) && IsOpen(db, fp, id)
    ensures var after := Update(db, id, Accrued(cfg, db.rows[id], now));
      && ValidDB(after) && TouchesOnly(db, after, fp)
      && Shown(after, fp) == Some(Incident(Accrued(cfg, db.rows[id], now), Members(db, id)))
  {
    UpdateKeepsValid(db, id, Accrued(cfg, db.rows[id], now));
    assert IsOpen(Update(db, id, Accrued(cfg, db.rows[id], now)), fp, id);
  }

  lemma InsertShows(db: DB, e: Event, now: int)
    requires ValidDB(db) && OpenId(db, GroupFingerprint(e)) == None
    ensures var fp, after := GroupFingerprint(e), Insert(db, NewIncident(e, now));
      && ValidDB(after) && TouchesOnly(db, after, fp) && IsOpen(after, fp, db.nextId)
      && Members(after, db.nextId) == {} && Shown(after, fp) == Some(Incident(NewIncident(e, now), {}))
  {
    InsertKeepsValid(db, NewIncident(e, now));
  }

  lemma CloseShows(db: DB, fp: string, id: int, at: int)
    requires ValidDB(db) && IsOpen(db, fp, id)
    ensures var after := Close(db, id, at, false);
      ValidDB(after) && TouchesOnly(db, after, fp) && Shown(after, fp) == None
  {
    CloseKeepsValid(db, id, at, false);
    var after := Close(db, id, at, false);
    assert forall j :: IsOpen(after, fp, j) ==> IsOpen(db, fp, j) && j != id;
  }

  lemma TouchTwice(a: DB, b: DB, c: DB, fp: string)
    requires TouchesOnly(a, b, fp) && TouchesOnly(b, c, fp)
    ensures TouchesOnly(a, c, fp)
  {}

  // ---------- One call at a time ----------

  lemma IngestShows(cfg: Settings, st: State, e: Event, now: int, clk: int)
    requires ValidDB(st.db)
    ensures var fp, after := GroupFingerprint(e), IngestSpec(cfg, st, e, now, clk, None).state.db;
      ValidDB(after) && TouchesOnly(st.db, after, fp) && Shown(after, fp) == Ingested(cfg, Shown(st.db, fp), e, now)
  {
    var fp := GroupFingerprint(e);
    match OpenId(st.db, fp)
    case Some(id) =>
      var joined := JoinMember(st.db, id, e.url);
      JoinShows(st.db, fp, id, e.url);
      UpdateShows(cfg, joined, fp, id, now);
      TouchTwice(st.db, joined, Update(joined, id, Accrued(cfg, st.db.rows[id], now)), fp);
    case None =>
      var inserted := Insert(st.db, NewIncident(e, now));
      InsertShows(st.db, e, now);
      JoinShows(inserted, fp, st.db.nextId, e.url);
      TouchTwice(st.db, inserted, JoinMember(inserted, st.db.nextId, e.url), fp);
  }

  lemma ResolveShows(st: State, e: Event, now: int)
    requires ValidDB(st.db)
    ensures var fp, after := GroupFingerprint(e), ResolveSpec(st, e, now, None).state.db;
      ValidDB(after) && TouchesOnly(st.db, after, fp) && Shown(after, fp) == Resolved(Shown(st.db, fp), e.url)
  {
    var fp := GroupFingerprint(e);
    if OpenId(st.db, fp).Some? {
      var id := OpenId(st.db, fp).value;
      var left := RemoveMember(st.db, id, e.url);
      LeaveShows(st.db, fp, id, e.url);
      if Members(left, id) == {} {
        CloseShows(left, fp, id, now);
        TouchTwice(st.db, left, Close(left, id, now, false), fp);
      }
    }
  }

  predicate SameDelivery(a: Delivery, b: Delivery) {
    a == b.(incident := a.incident)
  }

  /** Equal up to the ids of the incidents. */
  predicate SameLog(a: seq<Delivery>, b: seq<Delivery>) {
    |a| == |b| && forall i :: 0 <= i < |a| ==> SameDelivery(a[i], b[i])
  }

  /** What an ingest does to the windows and the log depends on what is shown, not on ids. */
  lemma IngestTells(cfg: Settings, st: State, e: Event, now: int, clk: int)
    requires ValidDB(st.db)
    ensures var v, after := Shown(st.db, GroupFingerprint(e)), IngestSpec(cfg, st, e, now, clk, None).state;
      if Quiet(cfg, v, now) then after.windows == st.windows && after.log == st.log
      else
        var told := Deliver(cfg, st, e, 0, IngestedRow(cfg, v, e, now), now, clk);
        after.windows == told.windows && SameLog(after.log, told.log)
  {}

  /** Nor does what it appends to the log. */
  lemma DeliverSame(cfg: Settings, a: State, b: State, e: Event, i: int, j: int, inc: Alert, now: int, clk: int)
    requires a.windows == b.windows && SameLog(a.log, b.log)
    ensures var x, y := Deliver(cfg, a, e, i, inc, now, clk), Deliver(cfg, b, e, j, inc, now, clk);
      x.windows == y.windows && SameLog(x.log, y.log)
  {}

  lemma SameLogTwice(a: seq<Delivery>, b: seq<Delivery>, c: seq<Delivery>)
    requires SameLog(a, b) && SameLog(c, b)
    ensures SameLog(a, c)
  {
    forall i | 0 <= i < |a| ensures SameDelivery(a[i], c[i]) {
      assert SameDelivery(a[i], b[i]) && SameDelivery(c[i], b[i]);
    }
  }
}
