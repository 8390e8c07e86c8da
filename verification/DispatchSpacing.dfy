/**
 Dedup spacing under every interleaving, with failures and sweeps: successive notifications of an incident
 are a window apart, because the row's memory of the last one is written under the fingerprint's lock only.
 */
module DispatchSpacing {
  import opened Prelude
  import opened IncidentStore
  import opened Alerts
  import opened IncidentRaces
  import opened DispatchRaces
  import DispatchOrder
  import opened DeliveryRuns

  /** What the row says about the last notification. */
  function Memory(db: DB, id: int): Option<int> {
    if id in db.rows then db.rows[id].lastNotified else None
  }

  function Told(f: Full, id: int): seq<int> {
    Times(f.log, id)
  }

  /** Worker w is on the incident: between learning of it and having asked the throttle. */
  predicate About(f: Full, w: nat, id: int) {
    && w < |f.core.workers|
    && (Working(f.core.workers[w]) == Some(id) || (w in f.owing && f.owing[w].id == id))
  }

  /** Whoever owes a notification has made its store calls, and on its own fingerprint. */
  ghost predicate Placed(f: Full) {
    forall w :: w in f.owing ==>
      && w < |f.core.workers| && f.core.workers[w].pc.Finishing?
      && f.owing[w].id in f.core.db.rows && f.core.db.rows[f.owing[w].id].fingerprint == Fp(f.core.workers[w])
  }

  lemma AboutOwn(f: Full, w: nat, id: int)
    requires Inv(f.core) && Placed(f) && About(f, w, id)
    ensures Inside(f.core.workers[w]) && id in f.core.db.rows && f.core.db.rows[id].fingerprint == Fp(f.core.workers[w])
  {
    assert WorkerOk(f.core.db, f.core.hist, f.core.swept, f.core.workers[w]);
  }

  /** One worker at a time is on an incident. */
  lemma OneAbout(f: Full, id: int, v: nat, w: nat)
    requires Inv(f.core) && Placed(f) && About(f, v, id) && About(f, w, id)
    ensures v == w
  {
    AboutOwn(f, v, id);
    AboutOwn(f, w, id);
  }

  predicate Apart(times: seq<int>, now: int, gap: int) {
    times != [] ==> now - times[|times| - 1] >= gap
  }

  /** What a worker on the incident knows of the row's memory. */
  predicate Mindful(cfg: Settings, f: Full, id: int, w: nat)
    requires w < |f.core.workers|
  {
    var wk, memory := f.core.workers[w], Memory(f.core.db, id);
    match wk.pc
    case SawOpen(i, row) => i == id ==> row.lastNotified == memory
    case Joined(i, row) => i == id ==> row.lastNotified == memory
    case Inserted(i) => i == id ==> memory == Some(wk.now) && Told(f, id) == []
    case Finishing => w in f.owing && f.owing[w].id == id ==>
      memory == Some(wk.now) && Apart(Told(f, id), wk.now, cfg.dedupWindow)
    case _ => true
  }

  /** The notifications of an incident are spaced, and unless one is owed the row remembers the last. */
  ghost predicate Remembered(cfg: Settings, f: Full, id: int) {
    && Spaced(Told(f, id), cfg.dedupWindow)
    && (Told(f, id) != [] ==> id in f.core.db.rows)
    && (forall w :: 0 <= w < |f.core.workers| ==> Mindful(cfg, f, id, w))
    && (Told(f, id) != [] && (forall w :: w in f.owing ==> f.owing[w].id != id) ==>
          Memory(f.core.db, id) == Some(Told(f, id)[|Told(f, id)| - 1]))
  }

  // ---------- One worker moves ----------

  /** Worker w moves; the log and what the others do and owe stay. */
  ghost predicate Shifted(f: Full, g: Full, w: nat) {
    && w < |f.core.workers| == |g.core.workers| && g.log == f.log
    && (forall v :: 0 <= v < |f.core.workers| && v != w ==> g.core.workers[v] == f.core.workers[v])
    && (forall v :: v != w ==> DispatchOrder.Owes(g, v) == DispatchOrder.Owes(f, v))
  }

  lemma Bystander(f: Full, g: Full, id: int, w: nat, v: nat)
    requires Shifted(f, g, w) && v != w
    ensures About(g, v, id) <==> About(f, v, id)
  {
    assert DispatchOrder.Owes(g, v) == DispatchOrder.Owes(f, v);
  }

  /** A worker that is not on the incident, before or after, and leaves the row's memory alone. */
  lemma Beside(cfg: Settings, f: Full, g: Full, id: int, w: nat)
    requires Shifted(f, g, w) && Remembered(cfg, f, id) && !About(f, w, id) && !About(g, w, id)
    requires (id in f.core.db.rows ==> id in g.core.db.rows) && Memory(g.core.db, id) == Memory(f.core.db, id)
    ensures Remembered(cfg, g, id)
  {
    forall v | 0 <= v < |g.core.workers| ensures Mindful(cfg, g, id, v) {
      assert Mindful(cfg, f, id, v);
      if v != w {
        assert DispatchOrder.Owes(g, v) == DispatchOrder.Owes(f, v);
      }
    }
    if forall v :: v in g.owing ==> g.owing[v].id != id {
      forall v | v in f.owing ensures f.owing[v].id != id {
        assert v != w ==> DispatchOrder.Owes(g, v) == DispatchOrder.Owes(f, v);
      }
    }
  }

  /** Of the workers only w is on the incident, and it knows what it has to. */
  lemma Alone(cfg: Settings, f: Full, g: Full, id: int, w: nat)
    requires Shifted(f, g, w) && Spaced(Told(f, id), cfg.dedupWindow)
    requires forall v :: v != w ==> !About(f, v, id)
    requires Mindful(cfg, g, id, w) && (Told(f, id) != [] ==> id in g.core.db.rows)
    requires Told(f, id) != [] && !(w in g.owing && g.owing[w].id == id) ==>
      Memory(g.core.db, id) == Some(Told(f, id)[|Told(f, id)| - 1])
    ensures Remembered(cfg, g, id)
  {
    forall v | 0 <= v < |g.core.workers| ensures Mindful(cfg, g, id, v) {
      if v != w {
        Bystander(f, g, id, w, v);
      }
    }
  }

  lemma NobodyElse(f: Full, g: Full, id: int, w: nat)
    requires Inv(f.core) && Inv(g.core) && Placed(f) && Placed(g) && Shifted(f, g, w)
    requires About(f, w, id) || About(g, w, id)
    ensures forall v :: v != w ==> !About(f, v, id)
  {
    forall v: nat | v != w && About(f, v, id) ensures false {
      Bystander(f, g, id, w, v);
      if About(f, w, id) {
        OneAbout(f, id, v, w);
      } else {
        OneAbout(g, id, v, w);
      }
    }
  }

  // ---------- A store call ----------

  /** What a worker's next call, failed or not, does to the memory of an incident. */
  lemma CallMemory(cfg: Settings, db: DB, wk: Worker, fails: bool, id: int)
    requires ValidDB(db) && Inside(wk) && !wk.pc.Finishing? && KnowsDb(db, wk)
    ensures var after := Call(cfg, db, wk, fails).db;
      && (id in db.rows ==>
            && id in after.rows && after.rows[id].fingerprint == db.rows[id].fingerprint
            && Memory(after, id) ==
               if wk.pc.Joined? && wk.pc.id == id && !fails then Accrued(cfg, wk.pc.row, wk.now).lastNotified
               else Memory(db, id))
      && (id !in db.rows && id in after.rows ==>
            wk.pc.SawNone? && !fails && id == db.nextId && Memory(after, id) == Some(wk.now))
  {}

  lemma CalledShifts(cfg: Settings, f: Full, g: Full, w: nat)
    requires Calling(f.core, Work(w, false)) && DispatchOrder.Called(cfg, f, w, g)
    ensures Shifted(f, g, w)
  {}

  /** After a call the worker knows what it has to, and otherwise the row remembers. */
  lemma OwnCall(cfg: Settings, f: Full, g: Full, id: int, w: nat)
    requires Inv(f.core) && Placed(f) && Remembered(cfg, f, id) && Calling(f.core, Work(w, false))
    requires DispatchOrder.Called(cfg, f, w, g) && (forall v :: v != w ==> !About(f, v, id))
    ensures Mindful(cfg, g, id, w) && (Told(f, id) != [] ==> id in g.core.db.rows)
    ensures Told(f, id) != [] && !(w in g.owing && g.owing[w].id == id) ==>
      Memory(g.core.db, id) == Some(Told(f, id)[|Told(f, id)| - 1])
  {
    var wk := f.core.workers[w];
    assert WorkerOk(f.core.db, f.core.hist, f.core.swept, wk);
    assert Mindful(cfg, f, id, w);
    CallMemory(cfg, f.core.db, wk, false, id);
    NobodyOwes(f, id, w);
  }

  lemma NobodyOwes(f: Full, id: int, w: nat)
    requires Placed(f) && w < |f.core.workers| && !f.core.workers[w].pc.Finishing? && forall v :: v != w ==>
      !About(f, v, id)
    ensures w !in f.owing && forall v :: v in f.owing ==> f.owing[v].id != id
  {
    forall v | v in f.owing ensures f.owing[v].id != id {
      assert !About(f, v, id) || v == w;
    }
  }

  lemma CallRemembers(cfg: Settings, f: Full, g: Full, id: int, w: nat)
    requires Inv(f.core) && Inv(g.core) && Placed(f) && Placed(g) && Remembered(cfg, f, id)
    requires Calling(f.core, Work(w, false)) && DispatchOrder.Called(cfg, f, w, g)
    ensures Remembered(cfg, g, id)
  {
    CalledShifts(cfg, f, g, w);
    if About(f, w, id) || About(g, w, id) {
      NobodyElse(f, g, id, w);
      OwnCall(cfg, f, g, id, w);
      Alone(cfg, f, g, id, w);
    } else {
      assert WorkerOk(f.core.db, f.core.hist, f.core.swept, f.core.workers[w]);
      CallMemory(cfg, f.core.db, f.core.workers[w], false, id);
      Beside(cfg, f, g, id, w);
    }
  }

  /** A worker that drops out, or takes or gives back its lock, and leaves the tables as they are. */
  lemma PassRemembers(cfg: Settings, f: Full, g: Full, id: int, w: nat)
    requires Inv(f.core) && Inv(g.core) && Placed(f) && Placed(g) && Remembered(cfg, f, id) && Shifted(f, g, w)
    requires w !in f.owing && w !in g.owing && g.core.db == f.core.db
    requires var pc := g.core.workers[w].pc; pc.Locked? || pc.Finishing? || pc.Done?
    ensures Remembered(cfg, g, id)
  {
    if About(f, w, id) {
      NobodyElse(f, g, id, w);
      forall v | v in f.owing ensures f.owing[v].id != id {
        assert !About(f, v, id) || v == w;
      }
      Alone(cfg, f, g, id, w);
    } else {
      Beside(cfg, f, g, id, w);
    }
  }

  // ---------- Every turn ----------

  lemma PassShifts(cfg: Settings, f: Full, w: nat, fails: bool)
    requires Can(cfg, f, Base(Work(w, fails))) && (fails || !Calling(f.core, Work(w, fails)))
    ensures var g := Next(cfg, f, Base(Work(w, fails)));
      && Shifted(f, g, w) && g.owing == f.owing && g.core.db == f.core.db
      && var pc := g.core.workers[w].pc; pc.Locked? || pc.Finishing? || pc.Done?
  {}

  /** A step of a sweep keeps what every row remembers. */
  lemma SweepKeeps(cfg: Settings, f: Full, l: Label, id: int)
    requires Can(cfg, f, Base(l)) && !l.Work?
    ensures var g := Next(cfg, f, Base(l));
      && g == f.(core := g.core) && g.core.workers == f.core.workers
      && (id in f.core.db.rows ==>
           id in g.core.db.rows && g.core.db.rows[id].fingerprint == f.core.db.rows[id].fingerprint)
      && Memory(g.core.db, id) == Memory(f.core.db, id)
  {}

  /** What is shown to this proof is as it was. */
  lemma SameRemembers(cfg: Settings, f: Full, g: Full, id: int)
    requires Remembered(cfg, f, id) && g.core.workers == f.core.workers && g.owing == f.owing && g.log == f.log
    requires (id in f.core.db.rows ==> id in g.core.db.rows) && Memory(g.core.db, id) == Memory(f.core.db, id)
    ensures Remembered(cfg, g, id)
  {
    forall v | 0 <= v < |g.core.workers| ensures Mindful(cfg, g, id, v) {
      assert Mindful(cfg, f, id, v);
    }
  }

  lemma NotifiedTells(cfg: Settings, f: Full, g: Full, id: int, w: nat)
    requires w in f.owing && w < |f.core.workers| && DispatchOrder.Notified(cfg, f, w, g)
    ensures Told(g, id) == if f.owing[w].id == id then Told(f, id) + [f.core.workers[w].now] else Told(f, id)
  {
    assert g.log[..|f.log|] == f.log;
  }

  /** The notification of another incident. */
  lemma NotifyOther(cfg: Settings, f: Full, g: Full, id: int, w: nat)
    requires Remembered(cfg, f, id) && w in f.owing && f.owing[w].id != id
    requires g.core == f.core && g.owing == f.owing - {w} && Told(g, id) == Told(f, id)
    ensures Remembered(cfg, g, id)
  {
    forall v | 0 <= v < |g.core.workers| ensures Mindful(cfg, g, id, v) {
      assert Mindful(cfg, f, id, v);
    }
    if forall v :: v in g.owing ==> g.owing[v].id != id {
      assert forall v :: v in f.owing ==> v == w || v in g.owing;
    }
  }

  /** Its own: the row remembers what has just been told, and nobody else is on the incident. */
  lemma NotifyOwn(cfg: Settings, f: Full, g: Full, id: int, w: nat)
    requires Inv(f.core) && Placed(f) && Remembered(cfg, f, id) && w in f.owing && f.owing[w].id == id
    requires w < |f.core.workers| && Told(g, id) == Told(f, id) + [f.core.workers[w].now]
    requires g.core == f.core && g.owing == f.owing - {w}
    ensures Remembered(cfg, g, id)
  {
    assert Mindful(cfg, f, id, w);
    forall v | 0 <= v < |g.core.workers| ensures Mindful(cfg, g, id, v) {
      if About(f, v, id) {
        OneAbout(f, id, v, w);
      }
    }
  }

  lemma NotifyRemembers(cfg: Settings, f: Full, g: Full, id: int, w: nat)
    requires Inv(f.core) && Placed(f) && Remembered(cfg, f, id)
    requires w in f.owing && w < |f.core.workers| && DispatchOrder.Notified(cfg, f, w, g)
    ensures Remembered(cfg, g, id)
  {
    NotifiedTells(cfg, f, g, id, w);
    if f.owing[w].id == id {
      NotifyOwn(cfg, f, g, id, w);
    } else {
      NotifyOther(cfg, f, g, id, w);
    }
  }

  lemma PlacedTurn(cfg: Settings, f: Full, m: Turn)
    requires Inv(f.core) && Placed(f) && Can(cfg, f, m)
    ensures Placed(Next(cfg, f, m))
  {
    match m {
      case Base(l) => PlacedBase(cfg, f, l);
      case _ =>
    }
  }

  lemma PlacedSweep(cfg: Settings, f: Full, l: Label)
    requires Placed(f) && Can(cfg, f, Base(l)) && !l.Work?
    ensures Placed(Next(cfg, f, Base(l)))
  {
    forall v | v in f.owing
      ensures f.owing[v].id in Next(cfg, f, Base(l)).core.db.rows
      ensures Next(cfg, f, Base(l)).core.db.rows[f.owing[v].id].fingerprint == Fp(f.core.workers[v])
    {
      SweepKeeps(cfg, f, l, f.owing[v].id);
    }
    SweepKeeps(cfg, f, l, 0);
  }

  lemma PlacedPass(f: Full, g: Full, w: nat)
    requires Placed(f) && Shifted(f, g, w) && w !in f.owing && g.owing == f.owing && g.core.db == f.core.db
    ensures Placed(g)
  {}

  lemma PlacedBase(cfg: Settings, f: Full, l: Label)
    requires Inv(f.core) && Placed(f) && Can(cfg, f, Base(l))
    ensures Placed(Next(cfg, f, Base(l)))
  {
    if !l.Work? {
      PlacedSweep(cfg, f, l);
    } else if Calling(f.core, l) && !l.fails {
      DispatchOrder.CallTurn(cfg, f, l.w);
      PlacedCall(cfg, f, Next(cfg, f, Base(l)), l.w);
    } else {
      PassShifts(cfg, f, l.w, l.fails);
      PlacedPass(f, Next(cfg, f, Base(l)), l.w);
    }
  }

  lemma PlacedCall(cfg: Settings, f: Full, g: Full, w: nat)
    requires Inv(f.core) && Placed(f) && Calling(f.core, Work(w, false)) && DispatchOrder.Called(cfg, f, w, g)
    ensures Placed(g)
  {
    var wk := f.core.workers[w];
    assert WorkerOk(f.core.db, f.core.hist, f.core.swept, wk);
    forall v | v in g.owing
      ensures v < |g.core.workers| && g.core.workers[v].pc.Finishing?
      ensures g.owing[v].id in g.core.db.rows && g.core.db.rows[g.owing[v].id].fingerprint == Fp(g.core.workers[v])
    {
      CallMemory(cfg, f.core.db, wk, false, g.owing[v].id);
    }
  }

  lemma BaseRemembers(cfg: Settings, f: Full, l: Label, id: int)
    requires Inv(f.core) && Placed(f) && Remembered(cfg, f, id) && Can(cfg, f, Base(l))
    ensures Remembered(cfg, Next(cfg, f, Base(l)), id)
  {
    var g := Next(cfg, f, Base(l));
    DispatchOrder.InvTurn(cfg, f, Base(l));
    PlacedBase(cfg, f, l);
    if !l.Work? {
      SweepKeeps(cfg, f, l, id);
      SameRemembers(cfg, f, g, id);
    } else if Calling(f.core, l) && !l.fails {
      DispatchOrder.CallTurn(cfg, f, l.w);
      CallRemembers(cfg, f, g, id, l.w);
    } else {
      PassShifts(cfg, f, l.w, l.fails);
      PassRemembers(cfg, f, g, id, l.w);
    }
  }

  lemma TurnRemembers(cfg: Settings, f: Full, m: Turn, id: int)
    requires Inv(f.core) && Placed(f) && Remembered(cfg, f, id) && Can(cfg, f, m)
    ensures Remembered(cfg, Next(cfg, f, m), id)
  {
    match m {
      case Base(l) => BaseRemembers(cfg, f, l, id);
      case Dispatch(w) =>
        assert DispatchOrder.Notified(cfg, f, w, Next(cfg, f, m));
        NotifyRemembers(cfg, f, Next(cfg, f, m), id, w);
      case Carry(_) => SameRemembers(cfg, f, Next(cfg, f, m), id);
    }
  }

  lemma {:induction false} StaysRemembered(cfg: Settings, f: Full, turns: seq<Turn>, g: Full, id: int)
    requires Inv(f.core) && Placed(f) && Remembered(cfg, f, id) && Leads(cfg, f, turns, g)
    ensures Remembered(cfg, g, id)
    decreases |turns|
  {
    if turns != [] {
      TurnRemembers(cfg, f, turns[0], id);
      PlacedTurn(cfg, f, turns[0]);
      DispatchOrder.InvTurn(cfg, f, turns[0]);
      StaysRemembered(cfg, Next(cfg, f, turns[0]), turns[1..], g, id);
    }
  }

  /**
   However calls and sweeps interleave, whatever fails and whatever the clocks read: successive
   notifications of an incident are at least DedupWindow apart, so the n-th comes no earlier than n
   windows after the first.
   */
  lemma ConcurrentSpacing(cfg: Settings, f0: Full, turns: seq<Turn>, f: Full, id: int, n: nat)
    requires Started(f0) && Leads(cfg, f0, turns, f) && n < |Times(f.log, id)|
    ensures var times := Times(f.log, id);
      && (n > 0 ==> times[n] - times[n - 1] >= cfg.dedupWindow)
      && times[n] >= times[0] + n * cfg.dedupWindow
  {
    InitialInv(f0.core);
    StaysRemembered(cfg, f0, turns, f, id);
    SpacedFromFirst(Times(f.log, id), cfg.dedupWindow, n);
  }
}
