/**
 When the unlocked auto-close sweep (internal/alerts/timers.go) does what it is for, under every
 interleaving: exactly when what is closed stays closed, and exactly when what it closes is stale.
 */
module SweepOrder {
  import opened Prelude
  import opened IncidentStore
  import opened Alerts
  import opened IncidentRaces

  // ---------- A closed incident stays closed ----------

  predicate Closed(s: Sys, id: int) {
    id in s.db.rows && !s.db.rows[id].open
  }

  /** An ingest that has read the incident as open and has not written it back yet. */
  predicate Holding(wk: Worker, id: int) {
    wk.kind == Ingesting && (wk.pc.SawOpen? || wk.pc.Joined?) && wk.pc.id == id
  }

  predicate Poised(s: Sys, id: int) {
    exists w :: 0 <= w < |s.workers| && Holding(s.workers[w], id)
  }

  /** One store call, next to a closed incident its caller does not hold. */
  lemma CallLeavesClosed(cfg: Settings, db: DB, wk: Worker, fails: bool, id: int)
    requires ValidDB(db) && Inside(wk) && !wk.pc.Finishing? && KnowsDb(db, wk)
    requires id in db.rows && !db.rows[id].open && !Holding(wk, id)
    ensures var f := Call(cfg, db, wk, fails);
      id in f.db.rows && !f.db.rows[id].open && !Holding(wk.(pc := f.pc), id)
  {}

  lemma StepLeavesClosed(cfg: Settings, s: Sys, l: Label, id: int)
    requires Inv(s) && Enabled(cfg, s, l) && Closed(s, id) && !Poised(s, id)
    ensures Closed(Do(cfg, s, l), id) && !Poised(Do(cfg, s, l), id)
  {
    var t := Do(cfg, s, l);
    if l.Work? && Inside(s.workers[l.w]) && !s.workers[l.w].pc.Finishing? {
      assert WorkerOk(s.db, s.hist, s.swept, s.workers[l.w]);
      CallLeavesClosed(cfg, s.db, s.workers[l.w], l.fails, id);
    }
    forall w | 0 <= w < |t.workers| ensures !Holding(t.workers[w], id) {
      assert !Holding(s.workers[w], id);
    }
  }

  lemma {:induction false} RunLeavesClosed(cfg: Settings, s: Sys, labels: seq<Label>, t: Sys, id: int)
    requires Inv(s) && Reaches(cfg, s, labels, t) && Closed(s, id) && !Poised(s, id)
    ensures Closed(t, id) && !Poised(t, id)
    decreases |labels|
  {
    if labels != [] {
      StepLeavesClosed(cfg, s, labels[0], id);
      StepKeepsInv(cfg, s, labels[0]);
      RunLeavesClosed(cfg, Do(cfg, s, labels[0]), labels[1..], t, id);
    }
  }

  lemma UpdateReopens(cfg: Settings, s: Sys, w: nat, id: int)
    requires Inv(s) && w < |s.workers| && s.workers[w].pc.Joined? && s.workers[w].pc.id == id
    ensures Enabled(cfg, s, Work(w, false))
    ensures var db := Do(cfg, s, Work(w, false)).db; id in db.rows && db.rows[id].open
  {
    assert WorkerOk(s.db, s.hist, s.swept, s.workers[w]);
  }

  lemma JoinHolds(cfg: Settings, s: Sys, w: nat, id: int)
    requires Inv(s) && w < |s.workers| && Holding(s.workers[w], id) && s.workers[w].pc.SawOpen?
    ensures Enabled(cfg, s, Work(w, false))
    ensures var pc := Do(cfg, s, Work(w, false)).workers[w].pc; pc.Joined? && pc.id == id
  {}

  /** An ingest that holds the incident opens it with its own next calls. */
  lemma HolderReopens(cfg: Settings, s: Sys, w: nat, id: int) returns (labels: seq<Label>, t: Sys)
    requires Inv(s) && w < |s.workers| && Holding(s.workers[w], id)
    ensures Reaches(cfg, s, labels, t) && id in t.db.rows && t.db.rows[id].open
  {
    var go := Work(w, false);
    if s.workers[w].pc.Joined? {
      UpdateReopens(cfg, s, w, id);
      labels, t := [go], Do(cfg, s, go);
      OneStep(cfg, s, go);
    } else {
      JoinHolds(cfg, s, w, id);
      StepKeepsInv(cfg, s, go);
      var s1 := Do(cfg, s, go);
      UpdateReopens(cfg, s1, w, id);
      OneStep(cfg, s1, go);
      labels, t := [go] + [go], Do(cfg, s1, go);
      assert labels[1..] == [go];
    }
  }

  lemma OneStep(cfg: Settings, s: Sys, l: Label)
    requires Enabled(cfg, s, l)
    ensures Reaches(cfg, s, [l], Do(cfg, s, l))
  {
    assert [l][1..] == [] && Reaches(cfg, Do(cfg, s, l), [], Do(cfg, s, l));
  }

  /** Closed now and in every continuation. */
  ghost predicate ClosedForGood(cfg: Settings, s: Sys, id: int) {
    forall labels, t :: Reaches(cfg, s, labels, t) ==> Closed(t, id)
  }

  lemma UnlessPoised(cfg: Settings, s: Sys, id: int)
    requires Inv(s) && Closed(s, id) && !Poised(s, id)
    ensures ClosedForGood(cfg, s, id)
  {
    forall labels, t | Reaches(cfg, s, labels, t) ensures Closed(t, id) {
      RunLeavesClosed(cfg, s, labels, t, id);
    }
  }

  /**
   A closed incident stays closed, whatever happens from here on, if and only if no ingest has read
   it as open without having written it back.
   */
  lemma StaysClosed(cfg: Settings, s0: Sys, before: seq<Label>, s: Sys, id: int)
    requires Initial(s0) && Reaches(cfg, s0, before, s) && Closed(s, id)
    ensures ClosedForGood(cfg, s, id) <==> !Poised(s, id)
  {
    InitialInv(s0);
    ReachableInv(cfg, s0, before, s);
    if Poised(s, id) {
      var w :| 0 <= w < |s.workers| && Holding(s.workers[w], id);
      var labels, t := HolderReopens(cfg, s, w, id);
    } else {
      UnlessPoised(cfg, s, id);
    }
  }

  // ---------- What a sweep closes is stale ----------

  /** What a step writes into the row of an incident that is there: a refresh, or a close. */
  datatype Write = Refreshed(at: int) | Shut(at: int)

  /** A worker's next write to the row. */
  function CallWrites(wk: Worker, fails: bool, id: int): Option<Write> {
    if fails then None
    else
      match wk.pc
      case Joined(i, _) => if i == id then Some(Refreshed(wk.now)) else None
      case Removed(i) => if i == id then Some(Shut(wk.now)) else None
      case _ => None
  }

  /** A step's write to the row. */
  function WriteOf(cfg: Settings, s: Sys, l: Label, id: int): Option<Write> {
    match l
    case Work(w, fails) => if w < |s.workers| then CallWrites(s.workers[w], fails, id) else None
    case CloseNext(k, fails) =>
      if k < |s.sweepers| && !fails && s.sweepers[k].Walking? && s.sweepers[k].listed != []
         && s.sweepers[k].listed[0].0 == id && s.sweepers[k].now - s.sweepers[k].listed[0].1 >= cfg.autoClose
      then Some(Shut(s.sweepers[k].now)) else None
    case ListOpen(_, _) => None
  }

  /** The last write to the row in a run. */
  ghost function LastWrite(cfg: Settings, s: Sys, labels: seq<Label>, id: int): Option<Write>
    decreases |labels|
  {
    if labels == [] || !Enabled(cfg, s, labels[0]) then None
    else
      var later := LastWrite(cfg, Do(cfg, s, labels[0]), labels[1..], id);
      if later.Some? then later else WriteOf(cfg, s, labels[0], id)
  }

  /** A row after a write, given how it was. */
  ghost predicate Follows(before: Alert, after: Alert, w: Option<Write>) {
    match w
    case None => after == before
    case Some(Refreshed(at)) => after.open && after.lastUpdated == at
    case Some(Shut(at)) => !after.open && after.lastUpdated == at
  }

  lemma CallFollows(cfg: Settings, db: DB, wk: Worker, fails: bool, id: int)
    requires ValidDB(db) && Inside(wk) && !wk.pc.Finishing? && KnowsDb(db, wk) && id in db.rows
    ensures var after := Call(cfg, db, wk, fails).db;
      id in after.rows && Follows(db.rows[id], after.rows[id], CallWrites(wk, fails, id))
  {}

  lemma StepFollows(cfg: Settings, s: Sys, l: Label, id: int)
    requires Inv(s) && Enabled(cfg, s, l) && id in s.db.rows
    ensures id in Do(cfg, s, l).db.rows
    ensures Follows(s.db.rows[id], Do(cfg, s, l).db.rows[id], WriteOf(cfg, s, l, id))
  {
    if l.Work? && Inside(s.workers[l.w]) && !s.workers[l.w].pc.Finishing? {
      assert WorkerOk(s.db, s.hist, s.swept, s.workers[l.w]);
      CallFollows(cfg, s.db, s.workers[l.w], l.fails, id);
    }
  }

  /** Over any run an incident's row is what the last write to it made it. */
  lemma {:induction false} RowFollows(cfg: Settings, s: Sys, labels: seq<Label>, t: Sys, id: int)
    requires Inv(s) && Reaches(cfg, s, labels, t) && id in s.db.rows
    ensures id in t.db.rows && Follows(s.db.rows[id], t.db.rows[id], LastWrite(cfg, s, labels, id))
    decreases |labels|
  {
    if labels != [] {
      StepFollows(cfg, s, labels[0], id);
      StepKeepsInv(cfg, s, labels[0]);
      RowFollows(cfg, Do(cfg, s, labels[0]), labels[1..], t, id);
    }
  }

  /** A sweep that has listed only walks on through its list. */
  lemma {:induction false} WalksOn(cfg: Settings, s: Sys, labels: seq<Label>, t: Sys, k: nat)
    requires Reaches(cfg, s, labels, t) && k < |s.sweepers| && s.sweepers[k].Walking?
    ensures k < |t.sweepers| && t.sweepers[k].Walking? && t.sweepers[k].now == s.sweepers[k].now
    ensures forall entry :: entry in t.sweepers[k].listed ==> entry in s.sweepers[k].listed
    decreases |labels|
  {
    if labels != [] {
      WalksOn(cfg, Do(cfg, s, labels[0]), labels[1..], t, k);
    }
  }

  lemma SomeEntry(listed: seq<(int, int)>)
    ensures listed != [] ==> exists entry :: entry in listed
  {
    if listed != [] {
      assert listed[0] in listed;
    }
  }

  /** A close that fails ends its sweep: whatever happens from then on, it never comes to close anything again. */
  lemma FailureEndsSweep(cfg: Settings, s: Sys, k: nat, labels: seq<Label>, t: Sys, fails: bool)
    requires Enabled(cfg, s, CloseNext(k, true)) && s.sweepers[k].now - s.sweepers[k].listed[0].1 >= cfg.autoClose
    requires Reaches(cfg, Do(cfg, s, CloseNext(k, true)), labels, t)
    ensures !Enabled(cfg, t, CloseNext(k, fails)) && Do(cfg, s, CloseNext(k, true)).db == s.db
  {
    WalksOn(cfg, Do(cfg, s, CloseNext(k, true)), labels, t, k);
    SomeEntry(t.sweepers[k].listed);
  }

  /**
   A sweep lists, anything happens, and it comes to close an incident of its list. The incident is
   open and stale at that moment if and only if nobody has written its row since, or the last write
   was a refresh that is itself old enough by the sweep's clock.
   */
  lemma ClosesStale(cfg: Settings, s0: Sys, before: seq<Label>, s: Sys, k: nat, listed: seq<(int, int)>,
                    labels: seq<Label>, t: Sys)
    requires Initial(s0) && Reaches(cfg, s0, before, s) && Enabled(cfg, s, ListOpen(k, listed))
    requires Reaches(cfg, Do(cfg, s, ListOpen(k, listed)), labels, t) && Enabled(cfg, t, CloseNext(k, false))
    requires t.sweepers[k].now - t.sweepers[k].listed[0].1 >= cfg.autoClose
    ensures var id, now := t.sweepers[k].listed[0].0, t.sweepers[k].now;
      && WriteOf(cfg, t, CloseNext(k, false), id) == Some(Shut(now))
      && id in t.db.rows
      && (Stale(cfg, t.db.rows[id], now) <==>
            match LastWrite(cfg, Do(cfg, s, ListOpen(k, listed)), labels, id)
            case None => true
            case Some(Refreshed(at)) => now - at >= cfg.autoClose
            case Some(Shut(_)) => false)
  {
    InitialInv(s0);
    ReachableInv(cfg, s0, before, s);
    var l := ListOpen(k, listed);
    StepKeepsInv(cfg, s, l);
    var s1 := Do(cfg, s, l);
    WalksOn(cfg, s1, labels, t, k);
    var entry := t.sweepers[k].listed[0];
    assert entry in s1.sweepers[k].listed;
    var i :| 0 <= i < |listed| && listed[i] == entry;
    RowFollows(cfg, s1, labels, t, entry.0);
  }
}
