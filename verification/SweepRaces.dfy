/**
 Two runs in which the unlocked auto-close sweep (internal/alerts/timers.go:21-34) crosses an
 Ingest of the same incident. Neither opens a second incident, but each leaves a state that
 the sweep and the ingest could not leave one after the other.
 */
module SweepRaces {
  import opened Prelude
  import opened Identity
  import opened IncidentStore
  import opened Alerts
  import opened AlertRuns
  import opened IncidentRaces

  const FIRST := Event(1, "s", "u1", "t", Warning)
  const SECOND := Event(1, "s", "u2", "t", Warning)
  const SHARED := GroupFingerprint(FIRST)

  /** An ingest at time 0, one at the moment its incident turns stale, and a sweep then. */
  function Start(cfg: Settings): Sys {
    Sys(EMPTY_DB, map[],
        [Worker(Ingesting, FIRST, 0, 0, Waiting), Worker(Ingesting, SECOND, cfg.autoClose, 0, Waiting)],
        [Idle(cfg.autoClose)], [], [], false, false)
  }

  ghost predicate Reachable(cfg: Settings, s: Sys) {
    exists labels :: Reaches(cfg, Start(cfg), labels, s)
  }

  lemma {:induction false} ReachesAppend(cfg: Settings, s: Sys, labels: seq<Label>, t: Sys, l: Label)
    requires Reaches(cfg, s, labels, t) && Enabled(cfg, t, l)
    ensures Reaches(cfg, s, labels + [l], Do(cfg, t, l))
    decreases |labels|
  {
    if labels == [] {
      assert labels + [l] == [l] && Reaches(cfg, Do(cfg, t, l), [], Do(cfg, t, l));
    } else {
      ReachesAppend(cfg, Do(cfg, s, labels[0]), labels[1..], t, l);
      assert (labels + [l])[1..] == labels[1..] + [l];
    }
  }

  lemma Advance(cfg: Settings, s: Sys, l: Label)
    requires Reachable(cfg, s) && Enabled(cfg, s, l)
    ensures Reachable(cfg, Do(cfg, s, l))
  {
    var labels :| Reaches(cfg, Start(cfg), labels, s);
    ReachesAppend(cfg, Start(cfg), labels, s, l);
  }

  function FirstRow(): Alert {
    NewIncident(FIRST, 0)
  }

  /** The tables while the first incident stands alone. */
  function OneIncident(row: Alert, urls: set<string>): DB {
    DB(map[1 := row], map[1 := urls], 2)
  }

  lemma OnlyIncident(row: Alert, urls: set<string>)
    requires row.fingerprint == SHARED
    ensures OpenId(OneIncident(row, urls), SHARED) == if row.open then Some(1) else None
    ensures Members(OneIncident(row, urls), 1) == urls
  {
    if row.open {
      assert IsOpen(OneIncident(row, urls), SHARED, 1);
    }
  }

  lemma SameFingerprint()
    ensures GroupFingerprint(SECOND) == SHARED
  {
    FingerprintElidesUrl(FIRST, SECOND.url);
  }

  /** A reachable state, described by its tables, the two calls' positions, the sweep and the lock holder. */
  ghost predicate At(cfg: Settings, s: Sys, db: DB, a: PC, b: PC, sweep: Sweeper, holder: Option<nat>, swept: bool) {
    && Reachable(cfg, s)
    && s.db == db && s.swept == swept && s.sweepers == [sweep]
    && s.workers == [Start(cfg).workers[0].(pc := a), Start(cfg).workers[1].(pc := b)]
    && s.locks == match holder case None => map[] case Some(w) => map[SHARED := w]
  }

  lemma LockStep(cfg: Settings, s: Sys, w: nat, db: DB, a: PC, b: PC, sweep: Sweeper, swept: bool) returns (t: Sys)
    requires At(cfg, s, db, a, b, sweep, None, swept) && w < 2 && s.workers[w].pc == Waiting
    ensures At(cfg, t, db, if w == 0 then Locked else a, if w == 1 then Locked else b, sweep, Some(w), swept)
    ensures t.hist == s.hist
  {
    SameFingerprint();
    Advance(cfg, s, Work(w, false));
    t := Do(cfg, s, Work(w, false));
  }

  lemma UnlockStep(cfg: Settings, s: Sys, w: nat, db: DB, a: PC, b: PC, sweep: Sweeper, swept: bool) returns (t: Sys)
    requires At(cfg, s, db, a, b, sweep, Some(w), swept) && w < 2 && s.workers[w].pc == Finishing
    ensures At(cfg, t, db, if w == 0 then Done else a, if w == 1 then Done else b, sweep, None, swept)
    ensures t.hist == s.hist
  {
    SameFingerprint();
    Advance(cfg, s, Work(w, false));
    t := Do(cfg, s, Work(w, false));
    assert t.locks == map[];
  }

  lemma CallStep(cfg: Settings, s: Sys, w: nat, f: Effect, db: DB, a: PC, b: PC, sweep: Sweeper, swept: bool)
    returns (t: Sys)
    requires At(cfg, s, db, a, b, sweep, Some(w), swept) && w < 2
    requires IncidentRaces.Inside(s.workers[w]) && !s.workers[w].pc.Finishing?
    requires f == Call(cfg, db, s.workers[w], false)
    ensures At(cfg, t, f.db, if w == 0 then f.pc else a, if w == 1 then f.pc else b, sweep, Some(w), swept)
    ensures t.hist == if f.called then s.hist + [CallOf(s.workers[w])] else s.hist
  {
    Advance(cfg, s, Work(w, false));
    t := Do(cfg, s, Work(w, false));
  }

  const JUST_U1 := OneIncident(FirstRow(), {"u1"})

  /** The first ingest opens the incident and returns. */
  lemma FirstIngest(cfg: Settings) returns (s: Sys)
    ensures At(cfg, s, JUST_U1, Done, Waiting, Idle(cfg.autoClose), None, false)
  {
    var sweep := Idle(cfg.autoClose);
    var wk := Start(cfg).workers[0];
    s := Start(cfg);
    assert Reaches(cfg, s, [], s);
    s := LockStep(cfg, s, 0, EMPTY_DB, Waiting, Waiting, sweep, false);
    assert Call(cfg, EMPTY_DB, wk.(pc := Locked), false) == Effect(SawNone, EMPTY_DB, false, false);
    s := CallStep(cfg, s, 0, Effect(SawNone, EMPTY_DB, false, false), EMPTY_DB, Locked, Waiting, sweep, false);
    var opened1 := Insert(EMPTY_DB, FirstRow());
    s := CallStep(cfg, s, 0, Effect(Inserted(1), opened1, false, false), EMPTY_DB, SawNone, Waiting, sweep, false);
    assert JoinMember(opened1, 1, "u1") == JUST_U1 by { assert {} + {"u1"} == {"u1"}; }
    s := CallStep(cfg, s, 0, Effect(Finishing, JUST_U1, true, false), opened1, Inserted(1), Waiting, sweep, false);
    s := UnlockStep(cfg, s, 0, JUST_U1, Finishing, Waiting, sweep, false);
  }

  /** The sweep lists the incident, which has just turned stale. */
  lemma Listing(cfg: Settings, s: Sys, b: PC, holder: Option<nat>) returns (t: Sys)
    requires At(cfg, s, JUST_U1, Done, b, Idle(cfg.autoClose), holder, false)
    ensures At(cfg, t, JUST_U1, Done, b, Walking(cfg.autoClose, [(1, 0)]), holder, false) && t.hist == s.hist
  {
    assert [(1, 0)][0].0 == 1;
    Advance(cfg, s, ListOpen(0, [(1, 0)]));
    t := Do(cfg, s, ListOpen(0, [(1, 0)]));
  }

  lemma Closing(cfg: Settings, s: Sys, db: DB, b: PC, holder: Option<nat>) returns (t: Sys)
    requires At(cfg, s, db, Done, b, Walking(cfg.autoClose, [(1, 0)]), holder, false)
    ensures At(cfg, t, Close(db, 1, cfg.autoClose, true), Done, b, Walking(cfg.autoClose, []), holder, true)
    ensures t.hist == s.hist
    ensures Enabled(cfg, s, CloseNext(0, false)) && t == Do(cfg, s, CloseNext(0, false))
  {
    assert [(1, 0)][1..] == [];
    Advance(cfg, s, CloseNext(0, false));
    t := Do(cfg, s, CloseNext(0, false));
  }

  /** The second ingest takes the lock and finds the incident open. */
  lemma SecondLooksUp(cfg: Settings) returns (s: Sys)
    ensures At(cfg, s, JUST_U1, Done, SawOpen(1, FirstRow()), Idle(cfg.autoClose), Some(1), false)
  {
    s := FirstIngest(cfg);
    s := LockStep(cfg, s, 1, JUST_U1, Done, Waiting, Idle(cfg.autoClose), false);
    OnlyIncident(FirstRow(), {"u1"});
    SameFingerprint();
    assert Call(cfg, JUST_U1, Start(cfg).workers[1].(pc := Locked), false) ==
      Effect(SawOpen(1, FirstRow()), JUST_U1, false, false);
    s := CallStep(cfg, s, 1, Effect(SawOpen(1, FirstRow()), JUST_U1, false, false), JUST_U1, Done, Locked,
                  Idle(cfg.autoClose), false);
  }

  /** From there the second ingest adds its URL, updates the row and returns. */
  lemma SecondFinishes(cfg: Settings, s: Sys, row: Alert, sweep: Sweeper, swept: bool)
    returns (t: Sys, row2: Alert)
    requires At(cfg, s, OneIncident(row, {"u1"}), Done, SawOpen(1, FirstRow()), sweep, Some(1), swept)
    ensures row2 == Update(OneIncident(row, {"u1", "u2"}), 1, Accrued(cfg, FirstRow(), cfg.autoClose)).rows[1]
    ensures At(cfg, t, OneIncident(row2, {"u1", "u2"}), Done, Done, sweep, None, swept)
    ensures t.hist == s.hist + [Ingest(SECOND, cfg.autoClose, 0, None)]
  {
    var before, joined := OneIncident(row, {"u1"}), OneIncident(row, {"u1", "u2"});
    assert JoinMember(before, 1, "u2") == joined by { assert {"u1"} + {"u2"} == {"u1", "u2"}; }
    t := CallStep(cfg, s, 1, Effect(Joined(1, FirstRow()), joined, true, false), before, Done, SawOpen(1, FirstRow()),
                  sweep, swept);
    var updated := Update(joined, 1, Accrued(cfg, FirstRow(), cfg.autoClose));
    t := CallStep(cfg, t, 1, Effect(Finishing, updated, false, false), joined, Done, Joined(1, FirstRow()), sweep,
                  swept);
    t := UnlockStep(cfg, t, 1, updated, Done, Finishing, sweep, swept);
    row2 := updated.rows[1];
    assert updated == OneIncident(row2, {"u1", "u2"});
  }

  /**
   The sweep closes the incident between the lookup and the update of an ingest; the update
   writes back the status it read. The incident is open again, and the stamp of its automatic
   closing is gone.
   */
  lemma IngestReopensSwept(cfg: Settings)
    ensures exists s, t ::
      && Reachable(cfg, s) && 1 in s.db.rows && !s.db.rows[1].open && s.db.rows[1].autoClosed == Some(cfg.autoClose)
      && Reachable(cfg, t) && t.swept && t.locks == map[]
      && IsOpen(t.db, SHARED, 1) && t.db.rows[1].autoClosed == None && Members(t.db, 1) == {"u1", "u2"}
  {
    var s := SecondLooksUp(cfg);
    s := Listing(cfg, s, SawOpen(1, FirstRow()), Some(1));
    s := Closing(cfg, s, JUST_U1, SawOpen(1, FirstRow()), Some(1));
    var closed := Close(JUST_U1, 1, cfg.autoClose, true);
    assert closed == OneIncident(closed.rows[1], {"u1"});
    var t, _ := SecondFinishes(cfg, s, closed.rows[1], Walking(cfg.autoClose, []), true);
  }

  /**
   The sweep closes from a list made before an ingest refreshed the incident: what it closes is
   not stale, and the URL just reported is left without an open incident.
   */
  lemma SweepClosesFresh(cfg: Settings)
    requires cfg.autoClose > 0
    ensures exists s, t ::
      && Reachable(cfg, s) && IsOpen(s.db, SHARED, 1) && !Stale(cfg, s.db.rows[1], cfg.autoClose)
      && Enabled(cfg, s, CloseNext(0, false)) && t == Do(cfg, s, CloseNext(0, false)) && Reachable(cfg, t)
      && IsBroken(t.hist, SHARED, "u2") && OpenId(t.db, SHARED) == None
  {
    var s := SecondLooksUp(cfg);
    s := Listing(cfg, s, SawOpen(1, FirstRow()), Some(1));
    var hist := s.hist;
    var row;
    s, row := SecondFinishes(cfg, s, FirstRow(), Walking(cfg.autoClose, [(1, 0)]), false);
    OnlyIncident(row, {"u1", "u2"});
    var t := Closing(cfg, s, s.db, Done, None);
    var closed := Close(s.db, 1, cfg.autoClose, true);
    OnlyIncident(closed.rows[1], {"u1", "u2"});
    assert closed == OneIncident(closed.rows[1], {"u1", "u2"});
    SameFingerprint();
    IsBrokenStep(hist, Ingest(SECOND, cfg.autoClose, 0, None), SHARED, "u2");
  }
}
