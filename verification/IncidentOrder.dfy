/**
 What holds of concurrent Ingest and Resolve calls and sweeps under every interleaving: exclusion,
 tables that follow the order in which the calls took effect, and linearizability.
 */
module IncidentOrder {
  import opened IncidentStore
  import opened Alerts
  import opened AlertRuns
  import opened IncidentRaces

  // ---------- What holds under every interleaving ----------

  /**
   At most one worker per fingerprint is between its lookup and its last write, and at most
   one incident per fingerprint is ever open: the store's unique index never has to reject.
   */
  lemma MutualExclusion(cfg: Settings, s0: Sys, labels: seq<Label>, s: Sys)
    requires Initial(s0) && Reaches(cfg, s0, labels, s)
    ensures forall v, w ::
      0 <= v < |s.workers| && 0 <= w < |s.workers| && Inside(s.workers[v]) && Inside(s.workers[w]) ==>
      Fp(s.workers[v]) == Fp(s.workers[w]) ==> v == w
    ensures forall fp, i, j :: IsOpen(s.db, fp, i) && IsOpen(s.db, fp, j) ==> i == j
  {
    InitialInv(s0);
    ReachableInv(cfg, s0, labels, s);
  }

  /**
   Member rows against the history of calls in the order they took effect. Always: a member of
   an open incident is broken. Until a sweep has closed something: the members are exactly the
   broken URLs, also after failures. And for a fingerprint nobody is working on, with no failure
   either and every ingested event naming a URL: an incident is open iff some URL is broken.
   */
  lemma TablesFollowHistory(cfg: Settings, s0: Sys, labels: seq<Label>, s: Sys, fp: string)
    requires Initial(s0) && Reaches(cfg, s0, labels, s)
    ensures forall url :: url in OpenMembers(s.db, fp) ==> IsBroken(s.hist, fp, url)
    ensures !s.swept ==> forall url :: url != "" ==> (url in OpenMembers(s.db, fp) <==> IsBroken(s.hist, fp, url))
    ensures Clean(s) && fp !in s.locks ==> Agrees(s.db, s.hist, fp)
  {
    InitialInv(s0);
    ReachableInv(cfg, s0, labels, s);
    assert MembersBounded(s.db, s.hist, fp);
    assert !s.swept ==> MembersComplete(s.db, s.hist, fp);
    if OpenId(s.db, fp).Some? && Clean(s) && fp !in s.locks {
      var id := OpenId(s.db, fp).value;
      assert NoneEmpty(s, fp);
      assert forall w :: 0 <= w < |s.workers| ==> !InBetween(s.workers[w], fp, id);
    }
  }

  // ---------- Every call takes effect once, while it holds its lock ----------

  predicate Taken(pc: PC) {
    pc.Joined? || pc.Removed? || pc.Finishing? || pc.Done?
  }

  ghost predicate HistoryOk(s: Sys) {
    && |s.took| == |s.hist|
    && (forall i :: 0 <= i < |s.took| ==> s.took[i] < |s.workers|)
    && (forall i :: 0 <= i < |s.took| ==> s.hist[i] == CallOf(s.workers[s.took[i]]) && Taken(s.workers[s.took[i]].pc))
    && (forall i, j :: 0 <= i < j < |s.took| ==> s.took[i] != s.took[j])
    && (!s.faulted ==> forall w :: 0 <= w < |s.workers| && Taken(s.workers[w].pc) ==> w in s.took)
  }

  /** A call takes effect by leaving the positions before its effect, once. */
  ghost predicate TakesOnce(pc: PC, f: Effect) {
    && (f.called ==> !Taken(pc) && Taken(f.pc))
    && (Taken(pc) ==> Taken(f.pc))
    && (!f.called && !f.faulted ==> Taken(f.pc) == Taken(pc))
  }

  lemma CallTakesOnce(cfg: Settings, db: DB, wk: Worker, fails: bool)
    requires Inside(wk) && !wk.pc.Finishing? && KnowsDb(db, wk)
    ensures TakesOnce(wk.pc, Call(cfg, db, wk, fails))
  {}

  lemma EffectKeepsHistory(s: Sys, w: nat, f: Effect)
    requires HistoryOk(s) && w < |s.workers| && TakesOnce(s.workers[w].pc, f)
    ensures HistoryOk(Take(s, w, f))
  {
    var t := Take(s, w, f);
    assert f.called ==> t.took[|s.took|] == w;
  }

  lemma CallKeepsHistory(cfg: Settings, s: Sys, w: nat, fails: bool)
    requires HistoryOk(s) && w < |s.workers| && Inside(s.workers[w]) && !s.workers[w].pc.Finishing?
    requires KnowsDb(s.db, s.workers[w])
    ensures HistoryOk(Take(s, w, Call(cfg, s.db, s.workers[w], fails)))
  {
    CallTakesOnce(cfg, s.db, s.workers[w], fails);
    EffectKeepsHistory(s, w, Call(cfg, s.db, s.workers[w], fails));
  }

  lemma PassingKeepsHistory(s: Sys, w: nat, pc: PC, locks: map<string, nat>)
    requires HistoryOk(s) && w < |s.workers|
    requires (s.workers[w].pc.Waiting? && pc.Locked?) || (s.workers[w].pc.Finishing? && pc.Done?)
    ensures HistoryOk(Move(s, w, pc).(locks := locks))
  {}

  lemma StepKeepsHistory(cfg: Settings, s: Sys, l: Label)
    requires Inv(s) && HistoryOk(s) && Enabled(cfg, s, l)
    ensures HistoryOk(Do(cfg, s, l))
  {
    if l.Work? {
      var wk := s.workers[l.w];
      if wk.pc.Waiting? {
        PassingKeepsHistory(s, l.w, Locked, s.locks[Fp(wk) := l.w]);
      } else if wk.pc.Finishing? {
        PassingKeepsHistory(s, l.w, Done, s.locks - {Fp(wk)});
      } else {
        assert WorkerOk(s.db, s.hist, s.swept, wk);
        CallKeepsHistory(cfg, s, l.w, l.fails);
      }
    }
  }

  lemma {:induction false} ReachableHistory(cfg: Settings, s: Sys, labels: seq<Label>, t: Sys)
    requires Inv(s) && HistoryOk(s) && Reaches(cfg, s, labels, t)
    ensures HistoryOk(t)
    decreases |labels|
  {
    if labels != [] {
      StepKeepsInv(cfg, s, labels[0]);
      StepKeepsHistory(cfg, s, labels[0]);
      ReachableHistory(cfg, Do(cfg, s, labels[0]), labels[1..], t);
    }
  }

  /** The history only grows at its end, so the order of effects respects real time. */
  lemma {:induction false} HistoryGrows(cfg: Settings, s: Sys, labels: seq<Label>, t: Sys)
    requires Reaches(cfg, s, labels, t)
    ensures s.hist <= t.hist && s.took <= t.took
    decreases |labels|
  {
    if labels != [] {
      StepGrows(cfg, s, labels[0]);
      HistoryGrows(cfg, Do(cfg, s, labels[0]), labels[1..], t);
    }
  }

  lemma StepGrows(cfg: Settings, s: Sys, l: Label)
    requires Enabled(cfg, s, l)
    ensures s.hist <= Do(cfg, s, l).hist && s.took <= Do(cfg, s, l).took
  {}

  lemma HistoryIsPlain(s: Sys)
    requires UrlsNamed(s) && HistoryOk(s)
    ensures forall i :: 0 <= i < |s.hist| ==> Plain(s.hist[i]) && !s.hist[i].Sweep?
  {
    forall i | 0 <= i < |s.hist| ensures Plain(s.hist[i]) && !s.hist[i].Sweep? {
      assert s.workers[s.took[i]].kind == Ingesting ==> s.workers[s.took[i]].e.url != "";
    }
  }

  /**
   Linearizability: without failures and sweeps, each returned call appears in the history
   exactly once, a call that has not begun does not, and for every fingerprint nobody is working
   on, if every ingested event names a URL, the interleaved tables show what running that history
   one call at a time would show.
   */
  lemma Linearizable(cfg: Settings, s0: Sys, labels: seq<Label>, s: Sys, fp: string)
    requires Initial(s0) && Reaches(cfg, s0, labels, s)
    requires !s.swept && !s.faulted
    ensures forall w :: 0 <= w < |s.workers| && s.workers[w].pc.Done? ==> w in s.took
    ensures forall w :: 0 <= w < |s.workers| && s.workers[w].pc.Waiting? ==> w !in s.took
    ensures |s.took| == |s.hist| && (forall i, j :: 0 <= i < j < |s.took| ==> s.took[i] != s.took[j])
    ensures forall i :: 0 <= i < |s.hist| ==> s.took[i] < |s.workers| && s.hist[i] == CallOf(s.workers[s.took[i]])
    ensures UrlsNamed(s) && fp !in s.locks ==> View(s.db, fp) == View(Run(cfg, s.hist).db, fp)
  {
    InitialInv(s0);
    ReachableInv(cfg, s0, labels, s);
    ReachableHistory(cfg, s0, labels, s);
    TablesFollowHistory(cfg, s0, labels, s, fp);
    if UrlsNamed(s) && fp !in s.locks {
      HistoryIsPlain(s);
      RunAgrees(cfg, s.hist, fp);
      SameView(s.db, Run(cfg, s.hist).db, s.hist, fp);
    }
  }

  lemma SameView(a: DB, b: DB, hist: seq<Step>, fp: string)
    requires Agrees(a, hist, fp) && Agrees(b, hist, fp)
    ensures View(a, fp) == View(b, fp)
  {
    AgreeingMembers(a, hist, fp);
    AgreeingMembers(b, hist, fp);
    assert OpenMembers(a, fp) == OpenMembers(b, fp);
  }

  lemma AgreeingMembers(db: DB, hist: seq<Step>, fp: string)
    requires Agrees(db, hist, fp)
    ensures forall url :: url in OpenMembers(db, fp) <==> url != "" && IsBroken(hist, fp, url)
    ensures OpenId(db, fp).Some? <==> OpenMembers(db, fp) != {}
  {}
}
