/**
 Interleavings of concurrent Ingest and Resolve calls and of the auto-close sweep.

 Every store call of pipeline.go is one atomic step. Workers hold the lock of their
 fingerprint from just before GetOpenIncident until they return; sweeps take no lock. Any
 store call may fail, any clock may read anything, and the scheduler is arbitrary.
 */
module IncidentRaces {
  import opened Prelude
  import opened Identity
  import opened IncidentStore
  import opened Alerts
  import opened AlertRuns

  datatype Kind = Ingesting | Resolving

  /** Where a call stands: what it has learned so far and which store call comes next. */
  datatype PC =
    | Waiting                     // the lock comes next
    | Locked                      // GetOpenIncident comes next
    | SawNone                     // OpenIncident comes next
    | SawOpen(id: int, row: Alert)  // AddAlertMember or RemoveAlertMember comes next
    | Joined(id: int, row: Alert)   // UpdateIncident comes next
    | Inserted(id: int)           // AddAlertMember comes next
    | Removed(id: int)            // CloseIncident comes next
    | Finishing                   // the unlock comes next
    | Done

  datatype Worker = Worker(kind: Kind, e: Event, now: int, clk: int, pc: PC)

  /** A sweep lists the open incidents once and then closes the stale ones of its list. */
  datatype Sweeper = Idle(now: int) | Walking(now: int, listed: seq<(int, int)>)

  datatype Sys = Sys(
    db: DB, locks: map<string, nat>, workers: seq<Worker>, sweepers: seq<Sweeper>,
    hist: seq<Step>,  // the calls that have taken effect on a member set, in that order
    took: seq<nat>,   // and the workers that made them
    swept: bool, faulted: bool)

  function Fp(wk: Worker): string {
    GroupFingerprint(wk.e)
  }

  predicate Inside(wk: Worker) {
    !wk.pc.Waiting? && !wk.pc.Done?
  }

  function CallOf(wk: Worker): Step {
    if wk.kind == Ingesting then Ingest(wk.e, wk.now, wk.clk, None) else Resolve(wk.e, wk.now, None)
  }

  datatype Label =
    | Work(w: nat, fails: bool)
    | ListOpen(k: nat, listed: seq<(int, int)>)
    | CloseNext(k: nat, fails: bool)

  // ---------- The step function ----------

  /** What the next store call of a lock holder does: its new position, tables and history. */
  datatype Effect = Effect(pc: PC, db: DB, called: bool, faulted: bool)

  ghost function Call(cfg: Settings, db: DB, wk: Worker, fails: bool): Effect
    requires Inside(wk) && !wk.pc.Finishing?
  {
    match wk.pc
    case Locked =>
      if fails then Effect(Finishing, db, false, true)
      else (match OpenId(db, Fp(wk))
            case Some(id) => Effect(SawOpen(id, db.rows[id]), db, false, false)
            case None => if wk.kind == Ingesting then Effect(SawNone, db, false, false)
                         else Effect(Finishing, db, true, false))
    case SawOpen(id, row) =>
      if fails then Effect(Finishing, db, false, true)
      else if wk.kind == Ingesting then Effect(Joined(id, row), JoinMember(db, id, wk.e.url), true, false)
      else
        var left := RemoveMember(db, id, wk.e.url);
        Effect(if |Members(left, id)| > 0 then Finishing else Removed(id), left, true, false)
    case Joined(id, row) =>
      if fails then Effect(Finishing, db, false, true)
      else Effect(Finishing, Update(db, id, Accrued(cfg, row, wk.now)), false, false)
    case SawNone =>
      if fails then Effect(Finishing, db, false, true)
      else Effect(Inserted(db.nextId), Insert(db, NewIncident(wk.e, wk.now)), false, false)
    case Inserted(id) =>
      if fails then Effect(Finishing, db, false, true)
      else Effect(Finishing, JoinMember(db, id, wk.e.url), true, false)
    case Removed(id) =>
      if fails then Effect(Finishing, db, false, true)
      else Effect(Finishing, Close(db, id, wk.now, false), false, false)
  }

  function Move(s: Sys, w: nat, pc: PC): Sys
    requires w < |s.workers|
  {
    s.(workers := s.workers[w := s.workers[w].(pc := pc)])
  }

  ghost function Take(s: Sys, w: nat, f: Effect): Sys
    requires w < |s.workers|
  {
    Move(s, w, f.pc).(db := f.db, faulted := s.faulted || f.faulted,
                      hist := if f.called then s.hist + [CallOf(s.workers[w])] else s.hist,
                      took := if f.called then s.took + [w] else s.took)
  }

  ghost predicate Enabled(cfg: Settings, s: Sys, l: Label) {
    match l
    case Work(w, _) => w < |s.workers| && !s.workers[w].pc.Done?
      && (s.workers[w].pc.Waiting? ==> Fp(s.workers[w]) !in s.locks)
    case ListOpen(k, listed) =>
      && k < |s.sweepers| && s.sweepers[k].Idle?
      && (forall i :: 0 <= i < |listed| ==> listed[i].0 in s.db.rows && s.db.rows[listed[i].0].open
                                            && listed[i].1 == s.db.rows[listed[i].0].lastUpdated)
      && (forall id :: id in s.db.rows && s.db.rows[id].open ==> exists i :: 0 <= i < |listed| && listed[i].0 == id)
    case CloseNext(k, _) => k < |s.sweepers| && s.sweepers[k].Walking? && s.sweepers[k].listed != []
  }

  ghost function Do(cfg: Settings, s: Sys, l: Label): Sys
    requires Enabled(cfg, s, l)
  {
    match l
    case Work(w, fails) =>
      var wk := s.workers[w];
      if wk.pc.Waiting? then Move(s, w, Locked).(locks := s.locks[Fp(wk) := w])
      else if wk.pc.Finishing? then Move(s, w, Done).(locks := s.locks - {Fp(wk)})
      else Take(s, w, Call(cfg, s.db, wk, fails))
    case ListOpen(k, listed) =>
      s.(sweepers := s.sweepers[k := Walking(s.sweepers[k].now, listed)])
    case CloseNext(k, fails) =>
      var sw := s.sweepers[k];
      var (id, lastUpdated) := sw.listed[0];
      if sw.now - lastUpdated < cfg.autoClose then s.(sweepers := s.sweepers[k := sw.(listed := sw.listed[1..])])
      else if fails then s.(sweepers := s.sweepers[k := sw.(listed := [])], faulted := true)
      else s.(sweepers := s.sweepers[k := sw.(listed := sw.listed[1..])], db := Close(s.db, id, sw.now, true),
              swept := true)
  }

  predicate Initial(s: Sys) {
    && s.db == EMPTY_DB && s.locks == map[] && s.hist == [] && s.took == [] && !s.swept && !s.faulted
    && (forall w :: 0 <= w < |s.workers| ==> s.workers[w].pc.Waiting?)
    && (forall k :: 0 <= k < |s.sweepers| ==> s.sweepers[k].Idle?)
  }

  /** A schedule takes `s` through `labels` to `t`. */
  ghost predicate Reaches(cfg: Settings, s: Sys, labels: seq<Label>, t: Sys)
    decreases |labels|
  {
    if labels == [] then t == s
    else
      Enabled(cfg, s, labels[0]) && Reaches(cfg, Do(cfg, s, labels[0]), labels[1..], t)
  }

  /** Every event that is ingested names a URL. */
  predicate UrlsNamed(s: Sys) {
    forall w :: 0 <= w < |s.workers| && s.workers[w].kind == Ingesting ==> s.workers[w].e.url != ""
  }

  // ---------- The invariant ----------

  /** Each lock has one holder, and only holders are in their critical sections. */
  ghost predicate LocksOk(s: Sys) {
    && (forall w :: 0 <= w < |s.workers| && Inside(s.workers[w]) ==>
         Fp(s.workers[w]) in s.locks && s.locks[Fp(s.workers[w])] == w)
    && (forall fp :: fp in s.locks ==>
         s.locks[fp] < |s.workers| && Inside(s.workers[s.locks[fp]]) && Fp(s.workers[s.locks[fp]]) == fp)
  }

  /** The incident is the only one of its fingerprint that is or may come to be open. */
  ghost predicate Holds(db: DB, fp: string, id: int) {
    id in db.rows && db.rows[id].fingerprint == fp && forall j :: IsOpen(db, fp, j) ==> j == id
  }

  /** What a worker learned under its lock is still true, sweep or no sweep. */
  ghost predicate KnowsDb(db: DB, wk: Worker) {
    match wk.pc
    case SawNone => wk.kind == Ingesting && OpenId(db, Fp(wk)) == None
    case SawOpen(id, row) => Holds(db, Fp(wk), id) && row.open
    case Joined(id, row) => wk.kind == Ingesting && Holds(db, Fp(wk), id) && row.open
    case Inserted(id) => wk.kind == Ingesting && Holds(db, Fp(wk), id)
    case Removed(id) => wk.kind == Resolving && Holds(db, Fp(wk), id) && Members(db, id) == {}
    case _ => true
  }

  ghost predicate OnlyBroken(db: DB, hist: seq<Step>, fp: string, id: int) {
    forall url :: url in Members(db, id) ==> url != "" && IsBroken(hist, fp, url)
  }

  /** The incident a worker is working on, if it has one. */
  function Working(wk: Worker): Option<int> {
    match wk.pc
    case SawOpen(id, _) => Some(id)
    case Joined(id, _) => Some(id)
    case Inserted(id) => Some(id)
    case Removed(id) => Some(id)
    case _ => None
  }

  ghost predicate WorkerOk(db: DB, hist: seq<Step>, swept: bool, wk: Worker) {
    && KnowsDb(db, wk)
    && (Working(wk).Some? ==>
          OnlyBroken(db, hist, Fp(wk), Working(wk).value) && (!swept ==> IsOpen(db, Fp(wk), Working(wk).value)))
  }

  ghost predicate MembersBounded(db: DB, hist: seq<Step>, fp: string) {
    forall id :: IsOpen(db, fp, id) ==> OnlyBroken(db, hist, fp, id)
  }

  ghost predicate MembersComplete(db: DB, hist: seq<Step>, fp: string) {
    forall url :: url != "" && IsBroken(hist, fp, url) ==> url in OpenMembers(db, fp)
  }

  /** A call that is between inserting an incident and giving it its first member, or about to close it. */
  predicate InBetween(wk: Worker, fp: string, id: int) {
    Fp(wk) == fp && (wk.pc == Inserted(id) || wk.pc == Removed(id))
  }

  ghost predicate NoneEmpty(s: Sys, fp: string) {
    forall id :: IsOpen(s.db, fp, id) && Members(s.db, id) == {} ==>
      exists w :: 0 <= w < |s.workers| && InBetween(s.workers[w], fp, id)
  }

  /** Nothing has been swept or has failed, and every ingested event names a URL. */
  predicate Clean(s: Sys) {
    !s.swept && !s.faulted && UrlsNamed(s)
  }

  ghost predicate Inv(s: Sys) {
    && ValidDB(s.db) && LocksOk(s)
    && (forall w :: 0 <= w < |s.workers| ==> WorkerOk(s.db, s.hist, s.swept, s.workers[w]))
    && (forall fp :: MembersBounded(s.db, s.hist, fp))
    && (!s.swept ==> forall fp :: MembersComplete(s.db, s.hist, fp))
    && (Clean(s) ==> forall fp :: NoneEmpty(s, fp))
  }

  lemma InitialInv(s: Sys)
    requires Initial(s)
    ensures Inv(s)
  {}

  // ---------- A store call touches one fingerprint only ----------

  ghost predicate TouchesOnly(db: DB, after: DB, fp: string) {
    && (forall id :: id in db.rows && db.rows[id].fingerprint != fp ==>
          id in after.rows && after.rows[id] == db.rows[id] && Members(after, id) == Members(db, id))
    && (forall id :: id in after.rows && after.rows[id].fingerprint != fp ==>
         id in db.rows && db.rows[id].fingerprint != fp)
  }

  lemma FrameOpen(db: DB, after: DB, fp: string, other: string)
    requires ValidDB(db) && ValidDB(after) && TouchesOnly(db, after, fp) && other != fp
    ensures forall id :: IsOpen(after, other, id) <==> IsOpen(db, other, id)
    ensures forall id :: IsOpen(db, other, id) ==> Members(after, id) == Members(db, id)
    ensures OpenId(after, other) == OpenId(db, other) && OpenMembers(after, other) == OpenMembers(db, other)
  {
    if OpenId(db, other).Some? {
      assert IsOpen(after, other, OpenId(db, other).value);
    }
  }

  lemma FrameBroken(hist: seq<Step>, call: Step, other: string)
    requires !call.Sweep? && GroupFingerprint(call.e) != other
    ensures forall url :: IsBroken(hist + [call], other, url) <==> IsBroken(hist, other, url)
  {
    forall url ensures IsBroken(hist + [call], other, url) <==> IsBroken(hist, other, url) {
      IsBrokenStep(hist, call, other, url);
    }
  }

  lemma FrameWorker(db: DB, after: DB, hist: seq<Step>, hist2: seq<Step>, swept: bool, fp: string, wk: Worker)
    requires ValidDB(db) && ValidDB(after) && TouchesOnly(db, after, fp) && Fp(wk) != fp
    requires forall url :: IsBroken(hist2, Fp(wk), url) <==> IsBroken(hist, Fp(wk), url)
    requires WorkerOk(db, hist, swept, wk)
    ensures WorkerOk(after, hist2, swept, wk)
  {
    FrameOpen(db, after, fp, Fp(wk));
  }

  // ---------- One store call of a lock holder ----------

  /** What a lock holder may rely on for its own fingerprint; `clean` says nothing swept or failed yet. */
  ghost predicate Local(db: DB, hist: seq<Step>, swept: bool, clean: bool, wk: Worker) {
    && ValidDB(db) && WorkerOk(db, hist, swept, wk) && (clean ==> !swept)
    && (clean && wk.kind == Ingesting ==> wk.e.url != "")
    && MembersBounded(db, hist, Fp(wk))
    && (!swept ==> MembersComplete(db, hist, Fp(wk)))
    && (clean ==> forall id :: IsOpen(db, Fp(wk), id) && Members(db, id) == {} ==> InBetween(wk, Fp(wk), id))
  }

  ghost predicate LocalOk(s: Sys, w: nat, f: Effect)
    requires w < |s.workers|
  {
    var wk := s.workers[w].(pc := f.pc);
    var t := Take(s, w, f);
    Inside(wk) && TouchesOnly(s.db, f.db, Fp(wk)) && Local(t.db, t.hist, t.swept, Clean(t), wk)
  }

  lemma OtherWorkers(s: Sys, w: nat, f: Effect, v: nat)
    requires Inv(s) && w < |s.workers| && Inside(s.workers[w]) && LocalOk(s, w, f)
    requires v < |s.workers| && v != w
    ensures WorkerOk(f.db, Take(s, w, f).hist, s.swept, s.workers[v])
  {
    var wk, other := s.workers[w], s.workers[v];
    if Inside(other) {
      assert Fp(other) != Fp(wk);
      FrameBroken(s.hist, CallOf(wk), Fp(other));
      FrameWorker(s.db, f.db, s.hist, Take(s, w, f).hist, s.swept, Fp(wk), other);
    }
  }

  /** Moving workers about does not change their calls. */
  lemma NamesStay(s: Sys, t: Sys)
    requires |s.workers| == |t.workers|
    requires forall v :: 0 <= v < |s.workers| ==>
      s.workers[v].kind == t.workers[v].kind && s.workers[v].e == t.workers[v].e
    ensures UrlsNamed(s) <==> UrlsNamed(t)
  {
    assert UrlsNamed(s) ==>
      forall v :: 0 <= v < |t.workers| && t.workers[v].kind == Ingesting ==> s.workers[v].e.url != "";
    assert UrlsNamed(t) ==>
      forall v :: 0 <= v < |s.workers| && s.workers[v].kind == Ingesting ==> t.workers[v].e.url != "";
  }

  lemma OtherFingerprints(s: Sys, w: nat, f: Effect, fp: string)
    requires Inv(s) && w < |s.workers| && Inside(s.workers[w]) && LocalOk(s, w, f)
    ensures var t := Take(s, w, f);
      && MembersBounded(t.db, t.hist, fp)
      && (!t.swept ==> MembersComplete(t.db, t.hist, fp))
      && (Clean(t) ==> NoneEmpty(t, fp))
  {
    var t, own := Take(s, w, f), Fp(s.workers[w]);
    if fp == own {
      if Clean(t) {
        forall id | IsOpen(t.db, fp, id) && Members(t.db, id) == {} ensures InBetween(t.workers[w], fp, id) {}
      }
    } else {
      FrameBroken(s.hist, CallOf(s.workers[w]), fp);
      FrameOpen(s.db, f.db, own, fp);
      assert MembersBounded(s.db, s.hist, fp);
      assert !s.swept ==> MembersComplete(s.db, s.hist, fp);
      if Clean(t) {
        NamesStay(s, t);
        assert NoneEmpty(s, fp);
        forall id | IsOpen(t.db, fp, id) && Members(t.db, id) == {}
          ensures exists v :: 0 <= v < |t.workers| && InBetween(t.workers[v], fp, id)
        {
          var v :| 0 <= v < |s.workers| && InBetween(s.workers[v], fp, id);
          assert InBetween(t.workers[v], fp, id);
        }
      }
    }
  }

  lemma TakeKeepsInv(s: Sys, w: nat, f: Effect)
    requires Inv(s) && w < |s.workers| && Inside(s.workers[w]) && LocalOk(s, w, f)
    ensures Inv(Take(s, w, f))
  {
    var t := Take(s, w, f);
    forall v | 0 <= v < |t.workers| ensures WorkerOk(t.db, t.hist, t.swept, t.workers[v]) {
      if v != w {
        OtherWorkers(s, w, f, v);
      }
    }
    forall fp
      ensures MembersBounded(t.db, t.hist, fp)
      ensures !t.swept ==> MembersComplete(t.db, t.hist, fp)
      ensures Clean(t) ==> NoneEmpty(t, fp)
    {
      OtherFingerprints(s, w, f, fp);
    }
    LocksAfterMove(s, w, f.pc);
  }

  lemma LocksAfterMove(s: Sys, w: nat, pc: PC)
    requires LocksOk(s) && w < |s.workers| && Inside(s.workers[w]) && Inside(s.workers[w].(pc := pc))
    ensures LocksOk(Move(s, w, pc))
  {}

  /** Only the lock holder can be in between on its own fingerprint. */
  lemma InvIsLocal(s: Sys, w: nat)
    requires Inv(s) && w < |s.workers| && Inside(s.workers[w])
    ensures Local(s.db, s.hist, s.swept, Clean(s), s.workers[w])
  {
    var fp := Fp(s.workers[w]);
    assert MembersBounded(s.db, s.hist, fp);
    assert !s.swept ==> MembersComplete(s.db, s.hist, fp);
    if Clean(s) {
      assert NoneEmpty(s, fp);
      forall id | IsOpen(s.db, fp, id) && Members(s.db, id) == {} ensures InBetween(s.workers[w], fp, id) {
        var v :| 0 <= v < |s.workers| && InBetween(s.workers[v], fp, id);
        assert Inside(s.workers[v]) && s.locks[fp] == v;
      }
    }
  }

  // Each kind of call keeps the facts of its own fingerprint. `hist2` is the history after it.

  ghost predicate CallOk(cfg: Settings, db: DB, hist: seq<Step>, swept: bool, clean: bool, wk: Worker, fails: bool)
    requires Inside(wk) && !wk.pc.Finishing?
  {
    var f := Call(cfg, db, wk, fails);
    var wk2 := wk.(pc := f.pc);
    && Inside(wk2) && TouchesOnly(db, f.db, Fp(wk))
    && Local(f.db, if f.called then hist + [CallOf(wk)] else hist, swept, clean && !f.faulted, wk2)
  }

  lemma FailedCall(cfg: Settings, db: DB, hist: seq<Step>, swept: bool, clean: bool, wk: Worker)
    requires Inside(wk) && !wk.pc.Finishing? && Local(db, hist, swept, clean, wk)
    ensures CallOk(cfg, db, hist, swept, clean, wk, true)
  {}

  /** How a call that takes effect moves the set of broken URLs. */
  lemma EffectOnBroken(hist: seq<Step>, wk: Worker)
    ensures forall url ::
      (IsBroken(hist + [CallOf(wk)], Fp(wk), url)
       <==> if wk.kind == Ingesting then IsBroken(hist, Fp(wk), url) || url == wk.e.url
            else IsBroken(hist, Fp(wk), url) && url != wk.e.url)
  {
    forall url ensures IsBroken(hist + [CallOf(wk)], Fp(wk), url)
      <==> if wk.kind == Ingesting then IsBroken(hist, Fp(wk), url) || url == wk.e.url
           else IsBroken(hist, Fp(wk), url) && url != wk.e.url
    {
      IsBrokenStep(hist, CallOf(wk), Fp(wk), url);
    }
  }

  lemma LookupCall(cfg: Settings, db: DB, hist: seq<Step>, swept: bool, clean: bool, wk: Worker)
    requires wk.pc.Locked? && Local(db, hist, swept, clean, wk)
    ensures CallOk(cfg, db, hist, swept, clean, wk, false)
  {
    EffectOnBroken(hist, wk);
  }

  lemma InsertCall(cfg: Settings, db: DB, hist: seq<Step>, swept: bool, clean: bool, wk: Worker)
    requires wk.pc.SawNone? && Local(db, hist, swept, clean, wk)
    ensures CallOk(cfg, db, hist, swept, clean, wk, false)
  {
    var after := Insert(db, NewIncident(wk.e, wk.now));
    InsertKeepsValid(db, NewIncident(wk.e, wk.now));
    assert IsOpen(after, Fp(wk), db.nextId) && Members(after, db.nextId) == {};
    assert forall id :: IsOpen(after, Fp(wk), id) ==> id == db.nextId;
    assert !swept ==> forall url :: url != "" ==> !IsBroken(hist, Fp(wk), url);
  }

  ghost function MemberChanged(db: DB, wk: Worker, id: int): DB {
    if wk.kind == Ingesting then JoinMember(db, id, wk.e.url) else RemoveMember(db, id, wk.e.url)
  }

  /** What adding or removing the caller's URL does to the tables. */
  lemma MemberTables(db: DB, wk: Worker, id: int)
    requires ValidDB(db) && id in db.rows && db.rows[id].fingerprint == Fp(wk)
    ensures var after := MemberChanged(db, wk, id);
      && ValidDB(after) && TouchesOnly(db, after, Fp(wk)) && after.rows == db.rows
      && (forall j :: j != id ==> Members(after, j) == Members(db, j))
      && Members(after, id) == (if wk.kind == Resolving then Members(db, id) - {wk.e.url}
                                else if wk.e.url == "" then Members(db, id) else Members(db, id) + {wk.e.url})
  {
    MembersKeepValid(db, id, wk.e.url);
  }

  /** And to the incident it holds, against the history with the call. */
  lemma MemberChange(db: DB, hist: seq<Step>, swept: bool, clean: bool, wk: Worker, id: int)
    requires Local(db, hist, swept, clean, wk) && Working(wk) == Some(id)
    ensures var after := MemberChanged(db, wk, id);
      var hist2 := hist + [CallOf(wk)];
      && Holds(after, Fp(wk), id)
      && OnlyBroken(after, hist2, Fp(wk), id)
      && MembersBounded(after, hist2, Fp(wk))
      && (!swept ==> IsOpen(after, Fp(wk), id) && MembersComplete(after, hist2, Fp(wk)))
  {
    var fp, after := Fp(wk), MemberChanged(db, wk, id);
    EffectOnBroken(hist, wk);
    MemberTables(db, wk, id);
    assert forall p, j :: IsOpen(after, p, j) <==> IsOpen(db, p, j);
    if !swept {
      assert IsOpen(db, fp, id) && OpenId(db, fp) == Some(id) && OpenId(after, fp) == Some(id);
    }
  }

  /** Adding the caller's URL to the incident it holds. */
  lemma JoinCall(cfg: Settings, db: DB, hist: seq<Step>, swept: bool, clean: bool, wk: Worker)
    requires wk.pc.Inserted? || (wk.pc.SawOpen? && wk.kind == Ingesting)
    requires Local(db, hist, swept, clean, wk)
    ensures CallOk(cfg, db, hist, swept, clean, wk, false)
  {
    MemberTables(db, wk, wk.pc.id);
    MemberChange(db, hist, swept, clean, wk, wk.pc.id);
  }

  /** The update writes the status it read: it also reopens an incident swept in the meantime. */
  lemma UpdateCall(cfg: Settings, db: DB, hist: seq<Step>, swept: bool, clean: bool, wk: Worker)
    requires wk.pc.Joined? && Local(db, hist, swept, clean, wk)
    ensures CallOk(cfg, db, hist, swept, clean, wk, false)
  {
    var fp, id := Fp(wk), wk.pc.id;
    var after := Update(db, id, Accrued(cfg, wk.pc.row, wk.now));
    assert forall p, j :: IsOpen(after, p, j) <==> IsOpen(db, p, j) || (p == fp && j == id);
    assert ValidDB(after);
    assert forall j :: Members(after, j) == Members(db, j);
    assert IsOpen(after, fp, id);
    assert !swept ==> OpenId(db, fp) == Some(id) by { if !swept { assert IsOpen(db, fp, id); } }
  }

  lemma RemoveCall(cfg: Settings, db: DB, hist: seq<Step>, swept: bool, clean: bool, wk: Worker)
    requires wk.pc.SawOpen? && wk.kind == Resolving && Local(db, hist, swept, clean, wk)
    ensures CallOk(cfg, db, hist, swept, clean, wk, false)
  {
    var id := wk.pc.id;
    MemberTables(db, wk, id);
    MemberChange(db, hist, swept, clean, wk, id);
    var after := RemoveMember(db, id, wk.e.url);
    var pc := if |Members(after, id)| > 0 then Finishing else Removed(id);
    assert Call(cfg, db, wk, false) == Effect(pc, after, true, false);
    assert KnowsDb(after, wk.(pc := pc));
    assert WorkerOk(after, hist + [CallOf(wk)], swept, wk.(pc := pc));
    assert forall j :: IsOpen(after, Fp(wk), j) ==> j == id;
  }

  lemma CloseCall(cfg: Settings, db: DB, hist: seq<Step>, swept: bool, clean: bool, wk: Worker)
    requires wk.pc.Removed? && Local(db, hist, swept, clean, wk)
    ensures CallOk(cfg, db, hist, swept, clean, wk, false)
  {
    var fp, id := Fp(wk), wk.pc.id;
    var after := Close(db, id, wk.now, false);
    CloseKeepsValid(db, id, wk.now, false);
    assert forall p, j :: IsOpen(after, p, j) <==> IsOpen(db, p, j) && j != id;
    assert forall j :: !IsOpen(after, fp, j);
    assert !swept ==> OpenMembers(db, fp) == {} by { if !swept { assert IsOpen(db, fp, id); } }
  }

  lemma CallKeepsLocal(cfg: Settings, db: DB, hist: seq<Step>, swept: bool, clean: bool, wk: Worker, fails: bool)
    requires Inside(wk) && !wk.pc.Finishing? && Local(db, hist, swept, clean, wk)
    ensures CallOk(cfg, db, hist, swept, clean, wk, fails)
  {
    if fails {
      FailedCall(cfg, db, hist, swept, clean, wk);
    } else {
      match wk.pc
      case Locked => LookupCall(cfg, db, hist, swept, clean, wk);
      case SawOpen(_, _) =>
        if wk.kind == Ingesting {
          JoinCall(cfg, db, hist, swept, clean, wk);
        } else {
          RemoveCall(cfg, db, hist, swept, clean, wk);
        }
      case Joined(_, _) => UpdateCall(cfg, db, hist, swept, clean, wk);
      case SawNone => InsertCall(cfg, db, hist, swept, clean, wk);
      case Inserted(_) => JoinCall(cfg, db, hist, swept, clean, wk);
      case Removed(_) => CloseCall(cfg, db, hist, swept, clean, wk);
    }
  }

  lemma CallKeepsInv(cfg: Settings, s: Sys, w: nat, fails: bool)
    requires Inv(s) && w < |s.workers| && Inside(s.workers[w]) && !s.workers[w].pc.Finishing?
    ensures Inv(Take(s, w, Call(cfg, s.db, s.workers[w], fails)))
  {
    InvIsLocal(s, w);
    NamesStay(s, Take(s, w, Call(cfg, s.db, s.workers[w], fails)));
    CallKeepsLocal(cfg, s.db, s.hist, s.swept, Clean(s), s.workers[w], fails);
    TakeKeepsInv(s, w, Call(cfg, s.db, s.workers[w], fails));
  }

  // ---------- Locking, unlocking and sweeping ----------

  lemma LockKeepsInv(s: Sys, w: nat)
    requires Inv(s) && w < |s.workers| && s.workers[w].pc.Waiting? && Fp(s.workers[w]) !in s.locks
    ensures Inv(Move(s, w, Locked).(locks := s.locks[Fp(s.workers[w]) := w]))
  {
    var t := Move(s, w, Locked).(locks := s.locks[Fp(s.workers[w]) := w]);
    assert LocksOk(t);
    PassingKeepsInv(s, t, w, Locked);
  }

  lemma UnlockKeepsInv(s: Sys, w: nat)
    requires Inv(s) && w < |s.workers| && s.workers[w].pc.Finishing?
    ensures Inv(Move(s, w, Done).(locks := s.locks - {Fp(s.workers[w])}))
  {
    var t := Move(s, w, Done).(locks := s.locks - {Fp(s.workers[w])});
    LocksAfterUnlock(s, w);
    PassingKeepsInv(s, t, w, Done);
  }

  lemma LocksAfterUnlock(s: Sys, w: nat)
    requires LocksOk(s) && w < |s.workers| && s.workers[w].pc.Finishing?
    ensures LocksOk(Move(s, w, Done).(locks := s.locks - {Fp(s.workers[w])}))
  {}

  lemma PassingWorkers(s: Sys, t: Sys, w: nat, pc: PC)
    requires Inv(s) && w < |s.workers| && t == Move(s, w, pc).(locks := t.locks) && (pc.Locked? || pc.Done?)
    ensures forall v :: 0 <= v < |t.workers| ==> WorkerOk(t.db, t.hist, t.swept, t.workers[v])
  {
    forall v | 0 <= v < |t.workers| ensures WorkerOk(t.db, t.hist, t.swept, t.workers[v]) {
      assert WorkerOk(s.db, s.hist, s.swept, s.workers[v]);
    }
  }

  /** Moving between positions that hold no incident only has to keep the locks right. */
  lemma PassingKeepsInv(s: Sys, t: Sys, w: nat, pc: PC)
    requires Inv(s) && w < |s.workers| && t == Move(s, w, pc).(locks := t.locks) && LocksOk(t)
    requires Working(s.workers[w]).None? && (pc.Locked? || pc.Done?)
    ensures Inv(t)
  {
    PassingWorkers(s, t, w, pc);
    assert forall fp :: MembersBounded(s.db, s.hist, fp);
    assert !s.swept ==> forall fp :: MembersComplete(s.db, s.hist, fp);
    NamesStay(s, t);
    PassingKeepsInBetween(s, t, w);
  }

  /** A move between positions that hold no incident hides no half-made one. */
  lemma PassingKeepsInBetween(s: Sys, t: Sys, w: nat)
    requires w < |s.workers| == |t.workers| && s.db == t.db
    requires forall v :: 0 <= v < |s.workers| && v != w ==> t.workers[v] == s.workers[v]
    requires Working(s.workers[w]).None?
    ensures forall fp :: NoneEmpty(s, fp) ==> NoneEmpty(t, fp)
  {
    forall fp | NoneEmpty(s, fp) ensures NoneEmpty(t, fp) {
      forall id | IsOpen(s.db, fp, id) && Members(s.db, id) == {}
        ensures exists v :: 0 <= v < |t.workers| && InBetween(t.workers[v], fp, id)
      {
        var v :| 0 <= v < |s.workers| && InBetween(s.workers[v], fp, id);
        assert InBetween(t.workers[v], fp, id);
      }
    }
  }

  lemma SweepKeepsWorker(db: DB, hist: seq<Step>, swept: bool, wk: Worker, id: int, now: int)
    requires ValidDB(db) && WorkerOk(db, hist, swept, wk)
    ensures WorkerOk(Close(db, id, now, true), hist, true, wk)
  {
    var after := Close(db, id, now, true);
    CloseKeepsValid(db, id, now, true);
    assert forall p, j :: IsOpen(after, p, j) ==> IsOpen(db, p, j);
    assert forall j :: Members(after, j) == Members(db, j);
  }

  /** The unlocked close: nobody else's knowledge depends on an incident staying open. */
  lemma SweepKeepsInv(s: Sys, sweepers: seq<Sweeper>, id: int, now: int)
    requires Inv(s)
    ensures Inv(s.(sweepers := sweepers, db := Close(s.db, id, now, true), swept := true))
  {
    var after := Close(s.db, id, now, true);
    CloseKeepsValid(s.db, id, now, true);
    forall w | 0 <= w < |s.workers| ensures WorkerOk(after, s.hist, true, s.workers[w]) {
      SweepKeepsWorker(s.db, s.hist, s.swept, s.workers[w], id, now);
    }
    forall fp ensures MembersBounded(after, s.hist, fp) {
      assert MembersBounded(s.db, s.hist, fp);
      assert forall j :: IsOpen(after, fp, j) ==> IsOpen(s.db, fp, j);
      assert forall j :: Members(after, j) == Members(s.db, j);
    }
  }

  lemma StepKeepsInv(cfg: Settings, s: Sys, l: Label)
    requires Inv(s) && Enabled(cfg, s, l)
    ensures Inv(Do(cfg, s, l))
  {
    match l
    case Work(w, fails) =>
      if s.workers[w].pc.Waiting? {
        LockKeepsInv(s, w);
      } else if s.workers[w].pc.Finishing? {
        UnlockKeepsInv(s, w);
      } else {
        CallKeepsInv(cfg, s, w, fails);
      }
    case ListOpen(k, listed) =>
      SweepersDoNotMatter(s, Do(cfg, s, l).sweepers, s.faulted);
    case CloseNext(k, fails) =>
      var sw := s.sweepers[k];
      if sw.now - sw.listed[0].1 < cfg.autoClose || fails {
        SweepersDoNotMatter(s, Do(cfg, s, l).sweepers, Do(cfg, s, l).faulted);
      } else {
        SweepKeepsInv(s, Do(cfg, s, l).sweepers, sw.listed[0].0, sw.now);
      }
  }

  lemma SweepersDoNotMatter(s: Sys, sweepers: seq<Sweeper>, faulted: bool)
    requires Inv(s) && (s.faulted ==> faulted)
    ensures Inv(s.(sweepers := sweepers, faulted := faulted))
  {
    var t := s.(sweepers := sweepers, faulted := faulted);
    assert Clean(t) ==> forall fp :: NoneEmpty(s, fp) ==> NoneEmpty(t, fp);
  }

  lemma {:induction false} ReachableInv(cfg: Settings, s: Sys, labels: seq<Label>, t: Sys)
    requires Inv(s) && Reaches(cfg, s, labels, t)
    ensures Inv(t)
    decreases |labels|
  {
    if labels != [] {
      StepKeepsInv(cfg, s, labels[0]);
      ReachableInv(cfg, Do(cfg, s, labels[0]), labels[1..], t);
    }
  }
}
