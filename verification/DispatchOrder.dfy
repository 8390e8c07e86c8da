/**
 Linearizability of concurrent incident calls, notifications included: the interleaved machine of
 DispatchRaces simulates running the calls one at a time, in the order of their last effects.
 */
module DispatchOrder {
  import opened Prelude
  import opened IncidentStore
  import opened Alerts
  import opened AlertRuns
  import opened IncidentRaces
  import opened DispatchRaces
  import Buckets
  import DeliveryRuns

  // ---------- Simulation: the tables next to those of the serial run ----------

  function Owes(f: Full, w: nat): Option<Notice> {
    if w in f.owing then Some(f.owing[w]) else None
  }

  /** What is shown (c), next to what the serial run shows (v), while a call is under way on the fingerprint. */
  predicate Mid(cfg: Settings, c: Option<Incident>, v: Option<Incident>, wk: Worker, owes: Option<Notice>) {
    match wk.pc
    case SawOpen(_, row) => c == v && v.Some? && v.value.row == row
    case Joined(_, row) => v.Some? && v.value.row == row && c == Some(Incident(row, With(v.value.urls, wk.e.url)))
    case Inserted(_) => v.None? && c == Some(Incident(NewIncident(wk.e, wk.now), {}))
    case Removed(_) => v.Some? && v.value.urls - {wk.e.url} == {} && c == Some(v.value.(urls := {}))
    case Finishing =>
      if owes.None? then c == v
      else
        && wk.kind == Ingesting && !Quiet(cfg, v, wk.now)
        && c == Ingested(cfg, v, wk.e, wk.now) && owes.value.inc == IngestedRow(cfg, v, wk.e, wk.now)
    case _ => c == v
  }

  ghost predicate SimAt(cfg: Settings, f: Full, db: DB, fp: string) {
    var c, v := Shown(f.core.db, fp), Shown(db, fp);
    if fp in f.core.locks then
      var w := f.core.locks[fp];
      w < |f.core.workers| && Mid(cfg, c, v, f.core.workers[w], Owes(f, w))
    else c == v
  }

  ghost predicate Sim(cfg: Settings, f: Full, st: State) {
    && ValidDB(st.db) && f.windows == st.windows && SameLog(f.log, st.log)
    && (forall w :: w in f.owing ==> w < |f.core.workers| && f.core.workers[w].pc.Finishing?)
    && forall fp :: SimAt(cfg, f, st.db, fp)
  }

  /** What a call makes of what is shown. */
  function Effected(cfg: Settings, v: Option<Incident>, wk: Worker): Option<Incident> {
    if wk.kind == Ingesting then Ingested(cfg, v, wk.e, wk.now) else Resolved(v, wk.e.url)
  }

  ghost predicate Ready(cfg: Settings, db: DB, wk: Worker, v: Option<Incident>) {
    && ValidDB(db) && Inside(wk) && !wk.pc.Finishing? && KnowsDb(db, wk)
    && (Working(wk).Some? ==> IsOpen(db, Fp(wk), Working(wk).value))
    && Mid(cfg, Shown(db, Fp(wk)), v, wk, None)
  }

  /** The next store call of a worker whose fingerprint is in step with the serial run. */
  ghost predicate StaysInStep(cfg: Settings, db: DB, wk: Worker, v: Option<Incident>)
    requires Inside(wk) && !wk.pc.Finishing?
  {
    var f := Call(cfg, db, wk, false);
    && ValidDB(f.db) && TouchesOnly(db, f.db, Fp(wk))
    && if IsLast(cfg, db, wk) then
         f.pc.Finishing? && Shown(f.db, Fp(wk)) == Effected(cfg, v, wk)
           && (wk.kind == Ingesting ==> Quiet(cfg, v, wk.now))
       else
         (f.pc.Finishing? <==> NoticeOf(cfg, wk).Some?)
           && Mid(cfg, Shown(f.db, Fp(wk)), v, wk.(pc := f.pc), NoticeOf(cfg, wk))
  }

  lemma LookupInStep(cfg: Settings, db: DB, wk: Worker, v: Option<Incident>)
    requires Ready(cfg, db, wk, v) && wk.pc.Locked?
    ensures StaysInStep(cfg, db, wk, v)
  {}

  lemma JoinInStep(cfg: Settings, db: DB, wk: Worker, v: Option<Incident>)
    requires Ready(cfg, db, wk, v) && (wk.pc.Inserted? || (wk.pc.SawOpen? && wk.kind == Ingesting))
    ensures StaysInStep(cfg, db, wk, v)
  {
    JoinShows(db, Fp(wk), wk.pc.id, wk.e.url);
  }

  lemma UpdateInStep(cfg: Settings, db: DB, wk: Worker, v: Option<Incident>)
    requires Ready(cfg, db, wk, v) && wk.pc.Joined?
    ensures StaysInStep(cfg, db, wk, v)
  {
    UpdateShows(cfg, db, Fp(wk), wk.pc.id, wk.now);
  }

  lemma LeaveInStep(cfg: Settings, db: DB, wk: Worker, v: Option<Incident>)
    requires Ready(cfg, db, wk, v) && wk.pc.SawOpen? && wk.kind == Resolving
    ensures StaysInStep(cfg, db, wk, v)
  {
    LeaveShows(db, Fp(wk), wk.pc.id, wk.e.url);
  }

  lemma CallInStep(cfg: Settings, db: DB, wk: Worker, v: Option<Incident>)
    requires Ready(cfg, db, wk, v)
    ensures StaysInStep(cfg, db, wk, v)
  {
    match wk.pc {
      case Locked => LookupInStep(cfg, db, wk, v);
      case SawOpen(_, _) =>
        if wk.kind == Ingesting {
          JoinInStep(cfg, db, wk, v);
        } else {
          LeaveInStep(cfg, db, wk, v);
        }
      case Joined(_, _) => UpdateInStep(cfg, db, wk, v);
      case SawNone => InsertShows(db, wk.e, wk.now);
      case Inserted(_) => JoinInStep(cfg, db, wk, v);
      case Removed(id) => CloseShows(db, Fp(wk), id, wk.now);
    }
  }

  /** A call on its own: what is shown of its fingerprint, and whom it tells. */
  lemma SerialCall(cfg: Settings, st: State, wk: Worker)
    requires ValidDB(st.db)
    ensures var v, after := Shown(st.db, Fp(wk)), Apply(cfg, st, CallOf(wk));
      && ValidDB(after.db) && TouchesOnly(st.db, after.db, Fp(wk))
      && Shown(after.db, Fp(wk)) == Effected(cfg, v, wk)
      && if wk.kind == Ingesting && !Quiet(cfg, v, wk.now) then
           var told := Deliver(cfg, st, wk.e, 0, IngestedRow(cfg, v, wk.e, wk.now), wk.now, wk.clk);
           after.windows == told.windows && SameLog(after.log, told.log)
         else after.windows == st.windows && after.log == st.log
  {
    if wk.kind == Ingesting {
      IngestShows(cfg, st, wk.e, wk.now, wk.clk);
      IngestTells(cfg, st, wk.e, wk.now, wk.clk);
    } else {
      ResolveShows(st, wk.e, wk.now);
    }
  }

  /** Nothing that worker w does on its own fingerprint is seen from another. */
  lemma OthersInStep(cfg: Settings, f: Full, g: Full, db: DB, db2: DB, w: nat, fp: string)
    requires LocksOk(f.core) && w < |f.core.workers| == |g.core.workers| && fp != Fp(f.core.workers[w])
    requires SimAt(cfg, f, db, fp)
    requires forall v :: 0 <= v < |f.core.workers| && v != w ==>
      g.core.workers[v] == f.core.workers[v] && Owes(g, v) == Owes(f, v)
    requires fp in g.core.locks <==> fp in f.core.locks
    requires fp in f.core.locks ==> g.core.locks[fp] == f.core.locks[fp]
    requires Shown(g.core.db, fp) == Shown(f.core.db, fp) && Shown(db2, fp) == Shown(db, fp)
    ensures SimAt(cfg, g, db2, fp)
  {}

  /** The serial run after a turn. */
  ghost function Follow(cfg: Settings, f: Full, m: Turn, st: State): State
    requires Can(cfg, f, m)
  {
    var g := Next(cfg, f, m);
    if |g.lin| == |f.lin| then st else Apply(cfg, st, g.lin[|f.lin|])
  }

  /** Only worker w moves, and it keeps its lock. */
  ghost predicate OnlyMoves(f: Full, g: Full, w: nat) {
    && w < |f.core.workers| == |g.core.workers| && g.core.locks == f.core.locks
    && (forall v :: 0 <= v < |f.core.workers| && v != w ==>
         g.core.workers[v] == f.core.workers[v] && Owes(g, v) == Owes(f, v))
    && (forall v :: v in g.owing ==> v in f.owing || v == w)
    && (w in g.owing ==> g.core.workers[w].pc.Finishing?)
  }

  /** A step of the lock holder keeps its own fingerprint in step, and touches no other. */
  lemma SimFromOwn(cfg: Settings, f: Full, g: Full, st: State, st2: State, w: nat)
    requires Inv(f.core) && Sim(cfg, f, st) && OnlyMoves(f, g, w) && Inside(f.core.workers[w])
    requires ValidDB(g.core.db) && TouchesOnly(f.core.db, g.core.db, Fp(f.core.workers[w]))
    requires ValidDB(st2.db) && TouchesOnly(st.db, st2.db, Fp(f.core.workers[w]))
    requires g.windows == st2.windows && SameLog(g.log, st2.log)
    requires SimAt(cfg, g, st2.db, Fp(f.core.workers[w]))
    ensures Sim(cfg, g, st2)
  {
    var own := Fp(f.core.workers[w]);
    forall v | v in g.owing ensures v < |g.core.workers| && g.core.workers[v].pc.Finishing? {
      assert v != w ==> Owes(g, v) == Owes(f, v);
    }
    forall fp | fp != own ensures SimAt(cfg, g, st2.db, fp) {
      assert SimAt(cfg, f, st.db, fp);
      ShownFrame(f.core.db, g.core.db, own, fp);
      ShownFrame(st.db, st2.db, own, fp);
      OthersInStep(cfg, f, g, st.db, st2.db, w, fp);
    }
  }

  /** What worker w's next store call makes of everything. */
  ghost predicate Called(cfg: Settings, f: Full, w: nat, g: Full)
    requires Calling(f.core, Work(w, false))
  {
    var wk := f.core.workers[w];
    var e, last := Call(cfg, f.core.db, wk, false), IsLast(cfg, f.core.db, wk);
    && g.core.db == e.db && g.core.locks == f.core.locks && g.core.workers == f.core.workers[w := wk.(pc := e.pc)]
    && g.windows == f.windows && g.log == f.log
    && g.owing == (if !last && NoticeOf(cfg, wk).Some? then f.owing[w := NoticeOf(cfg, wk).value] else f.owing)
    && g.lin == (if last then f.lin + [CallOf(wk)] else f.lin)
    && g.whose == (if last then f.whose + [w] else f.whose)
  }

  lemma CallTurn(cfg: Settings, f: Full, w: nat)
    requires Calling(f.core, Work(w, false)) && Can(cfg, f, Base(Work(w, false)))
    ensures Called(cfg, f, w, Next(cfg, f, Base(Work(w, false))))
  {}

  /** The serial run after a call of worker w. */
  ghost function SerialNext(cfg: Settings, f: Full, st: State, w: nat): State
    requires Calling(f.core, Work(w, false))
  {
    if IsLast(cfg, f.core.db, f.core.workers[w]) then Apply(cfg, st, CallOf(f.core.workers[w])) else st
  }

  lemma OwnCalled(cfg: Settings, f: Full, g: Full, st: State, w: nat)
    requires Inv(f.core) && Sim(cfg, f, st) && !f.core.swept && Calling(f.core, Work(w, false)) && Called(cfg, f, w, g)
    ensures var own, st2 := Fp(f.core.workers[w]), SerialNext(cfg, f, st, w);
      && ValidDB(g.core.db) && TouchesOnly(f.core.db, g.core.db, own)
      && ValidDB(st2.db) && TouchesOnly(st.db, st2.db, own) && st2.windows == st.windows && st2.log == st.log
      && SimAt(cfg, g, st2.db, own)
  {
    var wk := f.core.workers[w];
    assert w !in f.owing;
    assert WorkerOk(f.core.db, f.core.hist, f.core.swept, wk);
    assert SimAt(cfg, f, st.db, Fp(wk));
    CallInStep(cfg, f.core.db, wk, Shown(st.db, Fp(wk)));
    if IsLast(cfg, f.core.db, wk) {
      SerialCall(cfg, st, wk);
    }
  }

  lemma SimCalled(cfg: Settings, f: Full, g: Full, st: State, w: nat)
    requires Inv(f.core) && Sim(cfg, f, st) && !f.core.swept && Calling(f.core, Work(w, false)) && Called(cfg, f, w, g)
    requires OnlyMoves(f, g, w)
    ensures Sim(cfg, g, SerialNext(cfg, f, st, w))
  {
    OwnCalled(cfg, f, g, st, w);
    SimFromOwn(cfg, f, g, st, SerialNext(cfg, f, st, w), w);
  }

  lemma CalledMoves(cfg: Settings, f: Full, g: Full, st: State, w: nat)
    requires Sim(cfg, f, st) && Calling(f.core, Work(w, false)) && Called(cfg, f, w, g)
    ensures OnlyMoves(f, g, w)
  {
    assert w !in f.owing;
  }

  lemma SimCall(cfg: Settings, f: Full, st: State, w: nat)
    requires Inv(f.core) && Sim(cfg, f, st) && !f.core.swept && Calling(f.core, Work(w, false))
    requires Can(cfg, f, Base(Work(w, false)))
    ensures Sim(cfg, Next(cfg, f, Base(Work(w, false))), Follow(cfg, f, Base(Work(w, false)), st))
  {
    var m := Base(Work(w, false));
    CallTurn(cfg, f, w);
    CalledMoves(cfg, f, Next(cfg, f, m), st, w);
    SimCalled(cfg, f, Next(cfg, f, m), st, w);
  }

  /** What worker w's notification makes of everything. */
  ghost predicate Notified(cfg: Settings, f: Full, w: nat, g: Full)
    requires w in f.owing && w < |f.core.workers|
  {
    var wk, n := f.core.workers[w], f.owing[w];
    var told := Deliver(cfg, State(f.core.db, f.windows, f.log), wk.e, n.id, n.inc, wk.now, wk.clk);
    && g.core == f.core && g.windows == told.windows && g.log == told.log && g.owing == f.owing - {w}
    && g.lin == f.lin + [CallOf(wk)] && g.whose == f.whose + [w]
  }

  lemma OwnNotified(cfg: Settings, f: Full, g: Full, st: State, w: nat)
    requires Inv(f.core) && Sim(cfg, f, st) && w in f.owing && w < |f.core.workers| && Notified(cfg, f, w, g)
    ensures var wk, st2 := f.core.workers[w], Apply(cfg, st, CallOf(f.core.workers[w]));
      && ValidDB(st2.db) && TouchesOnly(st.db, st2.db, Fp(wk)) && SimAt(cfg, g, st2.db, Fp(wk))
      && wk.kind == Ingesting
      && var told := Deliver(cfg, st, wk.e, 0, f.owing[w].inc, wk.now, wk.clk);
        st2.windows == told.windows && SameLog(st2.log, told.log)
  {
    assert SimAt(cfg, f, st.db, Fp(f.core.workers[w]));
    SerialCall(cfg, st, f.core.workers[w]);
  }

  lemma NotifiedMoves(cfg: Settings, f: Full, g: Full, w: nat)
    requires w in f.owing && w < |f.core.workers| && Notified(cfg, f, w, g)
    ensures OnlyMoves(f, g, w)
  {}

  lemma SimNotified(cfg: Settings, f: Full, g: Full, st: State, w: nat)
    requires Inv(f.core) && Sim(cfg, f, st) && w in f.owing && w < |f.core.workers| && Notified(cfg, f, w, g)
    ensures Sim(cfg, g, Apply(cfg, st, CallOf(f.core.workers[w])))
  {
    var wk, n := f.core.workers[w], f.owing[w];
    var st2 := Apply(cfg, st, CallOf(wk));
    OwnNotified(cfg, f, g, st, w);
    DeliverSame(cfg, State(f.core.db, f.windows, f.log), st, wk.e, n.id, 0, n.inc, wk.now, wk.clk);
    SameLogTwice(g.log, Deliver(cfg, st, wk.e, 0, n.inc, wk.now, wk.clk).log, st2.log);
    NotifiedMoves(cfg, f, g, w);
    SimFromOwn(cfg, f, g, st, st2, w);
  }

  lemma SimDispatch(cfg: Settings, f: Full, st: State, w: nat)
    requires Inv(f.core) && Sim(cfg, f, st) && Can(cfg, f, Dispatch(w))
    ensures Sim(cfg, Next(cfg, f, Dispatch(w)), Follow(cfg, f, Dispatch(w), st))
  {
    assert Notified(cfg, f, w, Next(cfg, f, Dispatch(w)));
    SimNotified(cfg, f, Next(cfg, f, Dispatch(w)), st, w);
  }

  /** Taking or giving back a lock. */
  lemma SimPass(cfg: Settings, f: Full, g: Full, st: State, w: nat, pc: PC, locks: map<string, nat>)
    requires Inv(f.core) && Sim(cfg, f, st) && w < |f.core.workers| && w !in f.owing
    requires g == f.(core := IncidentRaces.Move(f.core, w, pc).(locks := locks))
    requires var own, wk := Fp(f.core.workers[w]), f.core.workers[w];
      || (wk.pc.Waiting? && own !in f.core.locks && pc == Locked && locks == f.core.locks[own := w])
      || (wk.pc.Finishing? && pc == Done && locks == f.core.locks - {own})
    ensures Sim(cfg, g, st)
  {
    var own := Fp(f.core.workers[w]);
    assert SimAt(cfg, f, st.db, own);
    assert SimAt(cfg, g, st.db, own);
    forall fp | fp != own ensures SimAt(cfg, g, st.db, fp) {
      assert SimAt(cfg, f, st.db, fp);
      OthersInStep(cfg, f, g, st.db, st.db, w, fp);
    }
  }

  /** A sweep that closes nothing, or a decision being carried out. */
  lemma SimIdle(cfg: Settings, f: Full, g: Full, st: State)
    requires Sim(cfg, f, st) && g == f.(core := g.core, pending := g.pending, sent := g.sent)
    requires g.core.db == f.core.db && g.core.locks == f.core.locks && g.core.workers == f.core.workers
    ensures Sim(cfg, g, st)
  {
    forall fp ensures SimAt(cfg, g, st.db, fp) {
      assert SimAt(cfg, f, st.db, fp);
    }
  }

  lemma FaultShows(cfg: Settings, f: Full, w: nat)
    requires Calling(f.core, Work(w, true)) && Can(cfg, f, Base(Work(w, true)))
    ensures !Undisturbed(Next(cfg, f, Base(Work(w, true))))
  {}

  lemma SimWork(cfg: Settings, f: Full, st: State, w: nat, fails: bool)
    requires var m := Base(Work(w, fails));
      Inv(f.core) && Sim(cfg, f, st) && Can(cfg, f, m) && Undisturbed(f) && Undisturbed(Next(cfg, f, m))
    ensures var m := Base(Work(w, fails)); Sim(cfg, Next(cfg, f, m), Follow(cfg, f, m, st))
  {
    var wk := f.core.workers[w];
    if Calling(f.core, Work(w, fails)) {
      if fails {
        FaultShows(cfg, f, w);
      } else {
        SimCall(cfg, f, st, w);
      }
    } else if wk.pc.Waiting? {
      SimPass(cfg, f, Next(cfg, f, Base(Work(w, fails))), st, w, Locked, f.core.locks[Fp(wk) := w]);
    } else {
      SimPass(cfg, f, Next(cfg, f, Base(Work(w, fails))), st, w, Done, f.core.locks - {Fp(wk)});
    }
  }

  lemma SimTurn(cfg: Settings, f: Full, st: State, m: Turn)
    requires Inv(f.core) && Sim(cfg, f, st) && Can(cfg, f, m) && Undisturbed(f) && Undisturbed(Next(cfg, f, m))
    ensures Sim(cfg, Next(cfg, f, m), Follow(cfg, f, m, st))
  {
    match m {
      case Dispatch(w) => SimDispatch(cfg, f, st, w);
      case Base(Work(w, fails)) => SimWork(cfg, f, st, w, fails);
      case _ => SimIdle(cfg, f, Next(cfg, f, m), st);
    }
  }

  /** The history grows at its end, by one call at most. */
  lemma HistoryGrows(cfg: Settings, f: Full, m: Turn)
    requires Can(cfg, f, m)
    ensures var g := Next(cfg, f, m);
      (g.lin == f.lin || g.lin == f.lin + [g.lin[|f.lin|]]) && f.lin <= g.lin && f.whose <= g.whose
  {}

  lemma FlagsStay(cfg: Settings, f: Full, m: Turn)
    requires Can(cfg, f, m)
    ensures Undisturbed(Next(cfg, f, m)) ==> Undisturbed(f)
  {}

  lemma RunFollows(cfg: Settings, f: Full, m: Turn)
    requires Can(cfg, f, m)
    ensures Follow(cfg, f, m, Run(cfg, f.lin)) == Run(cfg, Next(cfg, f, m).lin)
  {
    HistoryGrows(cfg, f, m);
    var g := Next(cfg, f, m);
    if g.lin != f.lin {
      assert g.lin[..|f.lin|] == f.lin;
    }
  }

  lemma InvTurn(cfg: Settings, f: Full, m: Turn)
    requires Inv(f.core) && Can(cfg, f, m)
    ensures Inv(Next(cfg, f, m).core)
  {
    if m.Base? {
      StepKeepsInv(cfg, f.core, m.l);
    }
  }

  lemma {:induction false} Grows(cfg: Settings, f: Full, turns: seq<Turn>, g: Full)
    requires Leads(cfg, f, turns, g)
    ensures f.lin <= g.lin && f.whose <= g.whose && (Undisturbed(g) ==> Undisturbed(f))
    decreases |turns|
  {
    if turns != [] {
      HistoryGrows(cfg, f, turns[0]);
      FlagsStay(cfg, f, turns[0]);
      Grows(cfg, Next(cfg, f, turns[0]), turns[1..], g);
    }
  }

  // ---------- Every call lands once ----------

  /** The call has had its last effect. */
  predicate HasLanded(f: Full, w: nat)
    requires w < |f.core.workers|
  {
    f.core.workers[w].pc.Done? || (f.core.workers[w].pc.Finishing? && w !in f.owing)
  }

  ghost predicate LandsOnce(f: Full) {
    && |f.whose| == |f.lin|
    && (forall i :: 0 <= i < |f.whose| ==>
         f.whose[i] < |f.core.workers| && f.lin[i] == CallOf(f.core.workers[f.whose[i]]))
    && (forall i, j :: 0 <= i < j < |f.whose| ==> f.whose[i] != f.whose[j])
    && (forall w :: 0 <= w < |f.core.workers| ==> (HasLanded(f, w) <==> w in f.whose))
    && (forall w :: w in f.owing ==> w < |f.core.workers| && f.core.workers[w].pc.Finishing?)
  }

  lemma CallLands(cfg: Settings, db: DB, wk: Worker)
    requires Inside(wk) && !wk.pc.Finishing? && KnowsDb(db, wk)
    ensures var pc := Call(cfg, db, wk, false).pc;
      !pc.Done? && (pc.Finishing? <==> IsLast(cfg, db, wk) || NoticeOf(cfg, wk).Some?)
  {}

  /** One worker moves; it is put on record if and only if it lands. */
  lemma LandsOnceTo(f: Full, g: Full, w: nat)
    requires LandsOnce(f) && w < |f.core.workers| == |g.core.workers|
    requires g.core.workers == f.core.workers[w := g.core.workers[w]]
    requires CallOf(g.core.workers[w]) == CallOf(f.core.workers[w])
    requires forall v :: v != w ==> (v in g.owing <==> v in f.owing)
    requires w in g.owing ==> g.core.workers[w].pc.Finishing?
    requires if HasLanded(g, w) && !HasLanded(f, w)
             then g.lin == f.lin + [CallOf(f.core.workers[w])] && g.whose == f.whose + [w]
             else g.lin == f.lin && g.whose == f.whose && HasLanded(g, w) == HasLanded(f, w)
    ensures LandsOnce(g)
  {
    forall v | 0 <= v < |g.core.workers| ensures HasLanded(g, v) <==> v in g.whose {
      assert v != w ==> HasLanded(g, v) == HasLanded(f, v);
      assert v in f.whose + [w] <==> v in f.whose || v == w;
    }
  }

  lemma LandCall(cfg: Settings, f: Full, w: nat)
    requires Inv(f.core) && LandsOnce(f) && Calling(f.core, Work(w, false)) && Can(cfg, f, Base(Work(w, false)))
    ensures LandsOnce(Next(cfg, f, Base(Work(w, false))))
  {
    assert WorkerOk(f.core.db, f.core.hist, f.core.swept, f.core.workers[w]);
    CallLands(cfg, f.core.db, f.core.workers[w]);
    CallTurn(cfg, f, w);
    LandsOnceTo(f, Next(cfg, f, Base(Work(w, false))), w);
  }

  /** Taking or giving back a lock lands nothing. */
  lemma LandPass(cfg: Settings, f: Full, w: nat, fails: bool)
    requires LandsOnce(f) && Can(cfg, f, Base(Work(w, fails))) && !Calling(f.core, Work(w, fails))
    ensures LandsOnce(Next(cfg, f, Base(Work(w, fails))))
  {
    LandsOnceTo(f, Next(cfg, f, Base(Work(w, fails))), w);
  }

  lemma LandDispatch(cfg: Settings, f: Full, w: nat)
    requires LandsOnce(f) && Can(cfg, f, Dispatch(w))
    ensures LandsOnce(Next(cfg, f, Dispatch(w)))
  {
    assert Notified(cfg, f, w, Next(cfg, f, Dispatch(w)));
    LandsOnceTo(f, Next(cfg, f, Dispatch(w)), w);
  }

  lemma LandIdle(f: Full, g: Full)
    requires LandsOnce(f) && g == f.(core := g.core, pending := g.pending, sent := g.sent)
    requires g.core.workers == f.core.workers
    ensures LandsOnce(g)
  {
    assert forall w :: 0 <= w < |f.core.workers| ==> HasLanded(g, w) == HasLanded(f, w);
  }

  lemma LandTurn(cfg: Settings, f: Full, m: Turn)
    requires Inv(f.core) && LandsOnce(f) && Can(cfg, f, m) && Undisturbed(Next(cfg, f, m))
    ensures LandsOnce(Next(cfg, f, m))
  {
    match m {
      case Dispatch(w) => LandDispatch(cfg, f, w);
      case Base(Work(w, fails)) =>
        if !Calling(f.core, m.l) {
          LandPass(cfg, f, w, fails);
        } else if fails {
          FaultShows(cfg, f, w);
        } else {
          LandCall(cfg, f, w);
        }
      case _ => LandIdle(f, Next(cfg, f, m));
    }
  }

  lemma {:induction false} Simulates(cfg: Settings, f: Full, turns: seq<Turn>, g: Full)
    requires Inv(f.core) && LandsOnce(f) && Sim(cfg, f, Run(cfg, f.lin)) && Leads(cfg, f, turns, g) && Undisturbed(g)
    ensures LandsOnce(g) && Sim(cfg, g, Run(cfg, g.lin)) && Inv(g.core)
    decreases |turns|
  {
    if turns != [] {
      var f1 := Next(cfg, f, turns[0]);
      Grows(cfg, f, turns, g);
      Grows(cfg, f1, turns[1..], g);
      SimTurn(cfg, f, Run(cfg, f.lin), turns[0]);
      RunFollows(cfg, f, turns[0]);
      LandTurn(cfg, f, turns[0]);
      InvTurn(cfg, f, turns[0]);
      Simulates(cfg, f1, turns[1..], g);
    }
  }

  lemma StartedIsInStep(cfg: Settings, f: Full)
    requires Started(f)
    ensures Inv(f.core) && LandsOnce(f) && Sim(cfg, f, Run(cfg, f.lin))
  {
    InitialInv(f.core);
    assert Run(cfg, []) == INITIAL;
  }

  /**
   Linearizability, notifications included: without failures of the store and closes by a sweep there is
   an order of the calls that have had their last effect - each returned call once, none that has not
   begun - and running them in it one at a time gives the same throttle windows, the same log up to incident
   ids, and the same open incident, row and members, of every fingerprint nobody is working on.
   */
  lemma Linearizable(cfg: Settings, f0: Full, turns: seq<Turn>, f: Full)
    requires Started(f0) && Leads(cfg, f0, turns, f) && Undisturbed(f)
    ensures var serial := Run(cfg, f.lin);
      && f.windows == serial.windows && SameLog(f.log, serial.log)
      && forall fp :: fp !in f.core.locks ==> Shown(f.core.db, fp) == Shown(serial.db, fp)
    ensures |f.whose| == |f.lin| && forall i, j :: 0 <= i < j < |f.whose| ==> f.whose[i] != f.whose[j]
    ensures forall i :: 0 <= i < |f.whose| ==>
      f.whose[i] < |f.core.workers| && f.lin[i] == CallOf(f.core.workers[f.whose[i]])
    ensures forall w :: 0 <= w < |f.core.workers| && f.core.workers[w].pc.Done? ==> w in f.whose
    ensures forall w :: 0 <= w < |f.core.workers| && f.core.workers[w].pc.Waiting? ==> w !in f.whose
  {
    StartedIsInStep(cfg, f0);
    Simulates(cfg, f0, turns, f);
    forall fp | fp !in f.core.locks ensures Shown(f.core.db, fp) == Shown(Run(cfg, f.lin).db, fp) {
      assert SimAt(cfg, f, Run(cfg, f.lin).db, fp);
    }
    forall w | 0 <= w < |f.core.workers|
      ensures (f.core.workers[w].pc.Done? ==> w in f.whose) && (f.core.workers[w].pc.Waiting? ==> w !in f.whose)
    {
      assert HasLanded(f, w) <==> w in f.whose;
    }
  }

  lemma InOrder(f: Full, g: Full, i: nat, j: nat)
    requires LandsOnce(f) && LandsOnce(g) && f.whose <= g.whose && i < |g.whose| && j < |g.whose|
    requires g.whose[i] in f.whose && g.whose[j] !in f.whose
    ensures i < j
  {
    var k :| 0 <= k < |f.whose| && f.whose[k] == g.whose[i];
    assert forall n :: 0 <= n < |f.whose| ==> f.whose[n] == g.whose[n];
  }

  lemma BothLand(cfg: Settings, f0: Full, before: seq<Turn>, f: Full, after: seq<Turn>, g: Full)
    requires Started(f0) && Leads(cfg, f0, before, f) && Leads(cfg, f, after, g) && Undisturbed(g)
    ensures LandsOnce(f) && LandsOnce(g) && f.lin <= g.lin && f.whose <= g.whose
  {
    Grows(cfg, f, after, g);
    StartedIsInStep(cfg, f0);
    Simulates(cfg, f0, before, f);
    Simulates(cfg, f, after, g);
  }

  /** The order respects real time: a call that has returned comes before one that has not begun. */
  lemma RealTimeOrder(cfg: Settings, f0: Full, before: seq<Turn>, f: Full, after: seq<Turn>, g: Full, i: nat, j: nat)
    requires Started(f0) && Leads(cfg, f0, before, f) && Leads(cfg, f, after, g) && Undisturbed(g)
    requires i < |g.whose| && j < |g.whose| && g.whose[i] < |f.core.workers| && g.whose[j] < |f.core.workers|
    requires f.core.workers[g.whose[i]].pc.Done? && f.core.workers[g.whose[j]].pc.Waiting?
    ensures i < j && f.lin <= g.lin
  {
    BothLand(cfg, f0, before, f, after, g);
    assert HasLanded(f, g.whose[i]) && !HasLanded(f, g.whose[j]);
    InOrder(f, g, i, j);
  }

  // ---------- What is proved of serial runs holds of these ----------

  lemma {:induction false} SameSends(cfg: Settings, a: seq<Delivery>, b: seq<Delivery>, to: Buckets.Bucket)
    requires SameLog(a, b)
    ensures Buckets.SendsTo(cfg, a, to) == Buckets.SendsTo(cfg, b, to)
  {
    if a != [] {
      var n := |a| - 1;
      SameSends(cfg, a[..n], b[..n], to);
      assert SameDelivery(a[n], b[n]);
    }
  }

  lemma {:induction false} SameCounts(a: seq<Delivery>, b: seq<Delivery>, fate: Fate)
    requires SameLog(a, b)
    ensures DeliveryRuns.Count(a, fate) == DeliveryRuns.Count(b, fate)
  {
    if a != [] {
      var n := |a| - 1;
      SameCounts(a[..n], b[..n], fate);
      assert SameDelivery(a[n], b[n]);
    }
  }

  /**
   With concurrent callers too, no channel, and no unrouted site at a severity, gets more than cap
   non-critical messages in any rolling hour; and every notification that was due is dispatched, digested
   or suppressed exactly once.
   */
  lemma ConcurrentDelivery(cfg: Settings, f0: Full, turns: seq<Turn>, f: Full, to: Buckets.Bucket, t: int)
    requires Started(f0) && Leads(cfg, f0, turns, f) && Undisturbed(f)
    ensures cfg.digestSink && cfg.hourlyCap > 0 && DeliveryRuns.ClockForward(f.lin) ==>
      Throttling.InHour(Buckets.SendsTo(cfg, f.log, to), t) <= cfg.hourlyCap
    ensures DeliveryRuns.DueCount(cfg, f.lin) == |f.log|
      == DeliveryRuns.Count(f.log, Dispatched) + DeliveryRuns.Count(f.log, Digested)
         + DeliveryRuns.Count(f.log, Suppressed)
  {
    Linearizable(cfg, f0, turns, f);
    var log := Run(cfg, f.lin).log;
    SameSends(cfg, f.log, log, to);
    if cfg.digestSink && cfg.hourlyCap > 0 && DeliveryRuns.ClockForward(f.lin) {
      Buckets.CapPerBucket(cfg, f.lin, to, t);
    }
    assert forall i :: 0 <= i < |f.lin| ==> StoreUp(f.lin[i]);
    DeliveryRuns.DeliveryAccounting(cfg, f.lin);
    SameCounts(f.log, log, Dispatched);
    SameCounts(f.log, log, Digested);
    SameCounts(f.log, log, Suppressed);
  }

  /** And a non-critical alert goes out if and only if its bucket was not full at the decision. */
  lemma ConcurrentVerdict(cfg: Settings, f0: Full, turns: seq<Turn>, f: Full, k: nat)
    requires Started(f0) && Leads(cfg, f0, turns, f) && Undisturbed(f) && k < |f.log|
    requires cfg.digestSink && cfg.hourlyCap > 0 && DeliveryRuns.ClockForward(f.lin) && Buckets.NamesApart(cfg)
    ensures Buckets.Exact(cfg, f.log, k)
  {
    Linearizable(cfg, f0, turns, f);
    var log := Run(cfg, f.lin).log;
    Buckets.HeldBackWhenFull(cfg, f.lin, k);
    assert SameDelivery(f.log[k], log[k]);
    SameSends(cfg, f.log[..k], log[..k], Buckets.BucketOf(cfg, log[k].event));
  }

  // ---------- Every decision is carried out once ----------

  /** Of n decisions, each has been carried out, or is for one worker to carry out, and only once. */
  ghost predicate Split(n: nat, pending: map<nat, nat>, sent: seq<nat>) {
    && (forall i :: 0 <= i < |sent| ==> sent[i] < n)
    && (forall i, j :: 0 <= i < j < |sent| ==> sent[i] != sent[j])
    && (forall w :: w in pending ==> pending[w] < n && pending[w] !in sent)
    && (forall v, w :: v in pending && w in pending && v != w ==> pending[v] != pending[w])
    && (forall i :: 0 <= i < n ==> i in sent || i in pending.Values)
  }

  lemma SplitMore(n: nat, pending: map<nat, nat>, sent: seq<nat>, w: nat)
    requires Split(n, pending, sent) && w !in pending
    ensures Split(n + 1, pending[w := n], sent)
  {
    forall i | 0 <= i < n + 1 ensures i in sent || i in pending[w := n].Values {
      if i == n {
        assert pending[w := n][w] == i;
      } else if i !in sent {
        var v :| v in pending && pending[v] == i;
        assert pending[w := n][v] == i;
      }
    }
  }

  lemma SplitDone(n: nat, pending: map<nat, nat>, sent: seq<nat>, w: nat)
    requires Split(n, pending, sent) && w in pending
    ensures Split(n, pending - {w}, sent + [pending[w]])
  {
    var rest, more := pending - {w}, sent + [pending[w]];
    assert more[|sent|] == pending[w];
    forall i | 0 <= i < n ensures i in more || i in rest.Values {
      if i in sent {
        var k :| 0 <= k < |sent| && sent[k] == i;
        assert more[k] == i;
      } else if i != pending[w] {
        var v :| v in pending && pending[v] == i;
        assert rest[v] == i;
      }
    }
  }

  /** Only workers that have made their store calls owe a question to the throttle or a decision. */
  ghost predicate OnTheWayOut(f: Full) {
    && (forall w :: w in f.owing ==> w < |f.core.workers| && f.core.workers[w].pc.Finishing?)
    && (forall w :: w in f.pending ==> w !in f.owing && w < |f.core.workers| && f.core.workers[w].pc.Finishing?)
  }

  ghost predicate CarriedOnce(f: Full) {
    OnTheWayOut(f) && Split(|f.log|, f.pending, f.sent)
  }

  lemma CarryDispatch(cfg: Settings, f: Full, w: nat)
    requires CarriedOnce(f) && Can(cfg, f, Dispatch(w))
    ensures CarriedOnce(Next(cfg, f, Dispatch(w)))
  {
    assert |Next(cfg, f, Dispatch(w)).log| == |f.log| + 1;
    SplitMore(|f.log|, f.pending, f.sent, w);
  }

  lemma CarryOut(cfg: Settings, f: Full, w: nat)
    requires CarriedOnce(f) && Can(cfg, f, Carry(w))
    ensures CarriedOnce(Next(cfg, f, Carry(w)))
  {
    SplitDone(|f.log|, f.pending, f.sent, w);
  }

  /** One worker moves that has nothing to carry out. */
  lemma OutTo(f: Full, g: Full, w: nat)
    requires OnTheWayOut(f) && w < |f.core.workers| == |g.core.workers| && w !in f.pending && g.pending == f.pending
    requires g.core.workers == f.core.workers[w := g.core.workers[w]]
    requires forall v :: v in g.owing && v != w ==> v in f.owing
    requires w in g.owing ==> g.core.workers[w].pc.Finishing?
    ensures OnTheWayOut(g)
  {
    forall v | v in g.pending ensures v !in g.owing && g.core.workers[v].pc.Finishing? {
      assert g.core.workers[v] == f.core.workers[v];
    }
  }

  lemma OutCall(cfg: Settings, f: Full, w: nat)
    requires OnTheWayOut(f) && Can(cfg, f, Base(Work(w, false))) && Calling(f.core, Work(w, false))
    requires KnowsDb(f.core.db, f.core.workers[w])
    ensures OnTheWayOut(Next(cfg, f, Base(Work(w, false))))
  {
    CallLands(cfg, f.core.db, f.core.workers[w]);
    CallTurn(cfg, f, w);
    OutTo(f, Next(cfg, f, Base(Work(w, false))), w);
  }

  lemma OutBase(cfg: Settings, f: Full, l: Label)
    requires OnTheWayOut(f) && Can(cfg, f, Base(l)) && (Calling(f.core, l) ==> KnowsDb(f.core.db, f.core.workers[l.w]))
    ensures OnTheWayOut(Next(cfg, f, Base(l)))
  {
    if l.Work? {
      if Calling(f.core, l) && !l.fails {
        OutCall(cfg, f, l.w);
      } else {
        OutTo(f, Next(cfg, f, Base(l)), l.w);
      }
    }
  }

  lemma CarriesNothing(cfg: Settings, f: Full, l: Label)
    requires Can(cfg, f, Base(l))
    ensures var g := Next(cfg, f, Base(l)); g.log == f.log && g.pending == f.pending && g.sent == f.sent
  {}

  /** A store call, a lock step or a step of a sweep decides and carries out nothing. */
  lemma CarryBase(cfg: Settings, f: Full, l: Label)
    requires CarriedOnce(f) && Can(cfg, f, Base(l)) && (Calling(f.core, l) ==> KnowsDb(f.core.db, f.core.workers[l.w]))
    ensures CarriedOnce(Next(cfg, f, Base(l)))
  {
    OutBase(cfg, f, l);
    CarriesNothing(cfg, f, l);
  }

  lemma {:induction false} CarriesOut(cfg: Settings, f: Full, turns: seq<Turn>, g: Full)
    requires Inv(f.core) && CarriedOnce(f) && Leads(cfg, f, turns, g)
    ensures CarriedOnce(g)
    decreases |turns|
  {
    if turns != [] {
      match turns[0] {
        case Dispatch(w) => CarryDispatch(cfg, f, w);
        case Carry(w) => CarryOut(cfg, f, w);
        case Base(l) =>
          assert Calling(f.core, l) ==> WorkerOk(f.core.db, f.core.hist, f.core.swept, f.core.workers[l.w]);
          CarryBase(cfg, f, l);
      }
      InvTurn(cfg, f, turns[0]);
      CarriesOut(cfg, Next(cfg, f, turns[0]), turns[1..], g);
    }
  }

  /**
   Whatever fails and whatever a sweep closes: no decision is carried out twice, and once no call is on
   its way out each has been - the order of carrying out is a permutation of the decisions.
   */
  lemma EachCarriedOutOnce(cfg: Settings, f0: Full, turns: seq<Turn>, f: Full)
    requires Started(f0) && Leads(cfg, f0, turns, f)
    ensures forall i :: 0 <= i < |f.sent| ==> f.sent[i] < |f.log|
    ensures forall i, j :: 0 <= i < j < |f.sent| ==> f.sent[i] != f.sent[j]
    ensures (forall w :: 0 <= w < |f.core.workers| ==> !f.core.workers[w].pc.Finishing?)
      ==> forall i :: 0 <= i < |f.log| ==> i in f.sent
  {
    InitialInv(f0.core);
    CarriesOut(cfg, f0, turns, f);
    if forall w :: 0 <= w < |f.core.workers| ==> !f.core.workers[w].pc.Finishing? {
      assert forall w :: w !in f.pending;
      assert f.pending.Values == {};
    }
  }
}
