/**
 The hourly cap as a recipient sees it: by the channel an event is routed to or, where none is, by site and
 severity. What maybeDispatch looks up is a string; here is what it stands for.
 */
module Buckets {
  import opened Prelude
  import opened Identity
  import opened Throttling
  import opened Alerts
  import opened AlertRuns
  import opened DeliveryRuns

  datatype Bucket = Channel(name: string) | Unrouted(site: string, severity: Severity)

  function BucketOf(cfg: Settings, e: Event): Bucket {
    match cfg.route(e)
    case Some(name) => Channel(name)
    case None => Unrouted(e.site, e.severity)
  }

  function KeyOf(b: Bucket): string {
    match b
    case Channel(name) => name
    case Unrouted(site, severity) => site + "|" + SeverityName(severity)
  }

  /** When non-critical messages went out to a bucket, across all incidents. */
  function SendsTo(cfg: Settings, log: seq<Delivery>, b: Bucket): seq<int> {
    if log == [] then []
    else
      var earlier, d := SendsTo(cfg, log[..|log| - 1], b), log[|log| - 1];
      if BucketOf(cfg, d.event) == b && d.event.severity != Critical && d.fate == Dispatched then earlier + [d.clk]
      else earlier
  }

  /** No channel is named like the bucket of unrouted events. */
  ghost predicate NamesApart(cfg: Settings) {
    forall e, site, severity :: cfg.route(e) != Some(KeyOf(Unrouted(site, severity)))
  }

  lemma UnroutedKeysDiffer(site: string, severity: Severity, site2: string, severity2: Severity)
    ensures KeyOf(Unrouted(site, severity)) == KeyOf(Unrouted(site2, severity2)) <==>
      site == site2 && severity == severity2
  {
    var a, b := KeyOf(Unrouted(site, severity)), KeyOf(Unrouted(site2, severity2));
    var v, v2 := SeverityName(severity), SeverityName(severity2);
    if a == b {
      assert a[|a| - 1] == v[|v| - 1] && b[|b| - 1] == v2[|v2| - 1];
      LastLetters(severity, severity2);
      assert a[..|site|] == site && b[..|site2|] == site2;
    }
  }

  lemma LastLetters(v: Severity, w: Severity)
    ensures SeverityName(v)[|SeverityName(v)| - 1] == SeverityName(w)[|SeverityName(w)| - 1] <==> v == w
  {
    assert "critical"[7] == 'l' && "warning"[6] == 'g' && "info"[3] == 'o';
  }

  lemma BucketsDiffer(cfg: Settings, d: Event, e: Event)
    requires NamesApart(cfg)
    ensures KeyOf(BucketOf(cfg, d)) == KeyOf(BucketOf(cfg, e)) <==> BucketOf(cfg, d) == BucketOf(cfg, e)
  {
    UnroutedKeysDiffer(d.site, d.severity, e.site, e.severity);
    assert cfg.route(d) != Some(KeyOf(Unrouted(e.site, e.severity)));
    assert cfg.route(e) != Some(KeyOf(Unrouted(d.site, d.severity)));
  }

  // ---------- The log is keyed by buckets ----------

  ghost predicate Keyed(cfg: Settings, log: seq<Delivery>) {
    forall k :: 0 <= k < |log| ==> log[k].key == KeyOf(BucketOf(cfg, log[k].event))
  }

  lemma {:induction false} RunIsKeyed(cfg: Settings, steps: seq<Step>)
    ensures Keyed(cfg, Run(cfg, steps).log)
  {
    if steps != [] {
      var init, step := steps[..|steps| - 1], steps[|steps| - 1];
      RunIsKeyed(cfg, init);
      StepDelivers(cfg, Run(cfg, init), step);
      var log, after := Run(cfg, init).log, Run(cfg, steps).log;
      assert forall k :: 0 <= k < |log| ==> after[k] == log[k];
    }
  }

  /** What went to a bucket is among what was counted under its key. */
  lemma {:induction false} SendsAreCounted(cfg: Settings, log: seq<Delivery>, b: Bucket, t: int)
    requires Keyed(cfg, log)
    ensures InHour(SendsTo(cfg, log, b), t) <= InHour(Sends(log, KeyOf(b)), t)
  {
    if log != [] {
      var init, d := log[..|log| - 1], log[|log| - 1];
      SendsAreCounted(cfg, init, b, t);
      InHourAppend(SendsTo(cfg, init, b), d.clk, t);
      InHourAppend(Sends(init, KeyOf(b)), d.clk, t);
    }
  }

  /** And nothing else was, if no channel has another bucket's key. */
  lemma {:induction false} NothingElseIsCounted(cfg: Settings, log: seq<Delivery>, e: Event)
    requires Keyed(cfg, log) && NamesApart(cfg)
    ensures SendsTo(cfg, log, BucketOf(cfg, e)) == Sends(log, KeyOf(BucketOf(cfg, e)))
  {
    if log != [] {
      NothingElseIsCounted(cfg, log[..|log| - 1], e);
      BucketsDiffer(cfg, log[|log| - 1].event, e);
    }
  }

  /**
   With a digest sink and a cap, no channel receives more than cap non-critical messages in any rolling
   hour, however many incidents and sites are routed to it and whichever store calls fail; nor does a site
   at a severity that is not routed.
   */
  lemma CapPerBucket(cfg: Settings, steps: seq<Step>, b: Bucket, t: int)
    requires cfg.digestSink && cfg.hourlyCap > 0 && ClockForward(steps)
    ensures InHour(SendsTo(cfg, Run(cfg, steps).log, b), t) <= cfg.hourlyCap
  {
    RunIsKeyed(cfg, steps);
    SendsAreCounted(cfg, Run(cfg, steps).log, b, t);
    ChannelCap(cfg, steps, KeyOf(b), t);
  }

  // ---------- Only a full bucket holds an event back ----------

  lemma {:induction false} SendsInThePast(cfg: Settings, steps: seq<Step>, key: string, clock: int)
    requires NoLaterThan(steps, clock)
    ensures forall k :: 0 <= k < |Sends(Run(cfg, steps).log, key)| ==> Sends(Run(cfg, steps).log, key)[k] <= clock
  {
    if steps != [] {
      var init, step := steps[..|steps| - 1], steps[|steps| - 1];
      assert forall i :: 0 <= i < |init| ==> init[i] == steps[i];
      SendsInThePast(cfg, init, key, clock);
      StepDelivers(cfg, Run(cfg, init), step);
    }
  }

  /** The throttle's verdict on the next non-critical call, read off the log. */
  lemma VerdictFromLog(cfg: Settings, steps: seq<Step>, e: Event, clk: int)
    requires cfg.digestSink && cfg.hourlyCap > 0 && ClockForward(steps) && NoLaterThan(steps, clk)
    requires NamesApart(cfg) && e.severity != Critical
    ensures var st := Run(cfg, steps);
      AllowSpec(cfg.hourlyCap, st.windows, clk, ThrottleKey(cfg, e), e.severity).admitted
      <==> InHour(SendsTo(cfg, st.log, BucketOf(cfg, e)), clk) < cfg.hourlyCap
  {
    var key, log := KeyOf(BucketOf(cfg, e)), Run(cfg, steps).log;
    RunIsKeyed(cfg, steps);
    NothingElseIsCounted(cfg, log, e);
    RunTracksSends(cfg, steps, key, clk);
    VerdictFromHistory(cfg.hourlyCap, Run(cfg, steps).windows, Sends(log, key), clk, Call(clk, key, e.severity));
    SendsInThePast(cfg, steps, key, clk);
    TrailingIsInHour(Sends(log, key), clk);
  }

  /** A non-critical entry went out exactly if its own bucket was not full. */
  ghost predicate Exact(cfg: Settings, log: seq<Delivery>, k: nat)
    requires k < |log|
  {
    log[k].event.severity != Critical ==>
      (log[k].fate == Dispatched <==>
         InHour(SendsTo(cfg, log[..k], BucketOf(cfg, log[k].event)), log[k].clk) < cfg.hourlyCap)
  }

  /**
   With a digest sink and a cap a non-critical alert goes out if and only if fewer than cap went to its own
   channel - or, unrouted, from its site at its severity - in the hour before it.
   */
  lemma {:induction false} HeldBackWhenFull(cfg: Settings, steps: seq<Step>, k: nat)
    requires cfg.digestSink && cfg.hourlyCap > 0 && ClockForward(steps) && NamesApart(cfg)
    requires k < |Run(cfg, steps).log|
    ensures Exact(cfg, Run(cfg, steps).log, k)
  {
    var init, step := steps[..|steps| - 1], steps[|steps| - 1];
    var st, after := Run(cfg, init), Run(cfg, steps);
    assert forall i :: 0 <= i < |init| ==> init[i] == steps[i];
    StepDelivers(cfg, st, step);
    if k < |st.log| {
      HeldBackWhenFull(cfg, init, k);
      assert after.log[..k] == st.log[..k] && after.log[k] == st.log[k];
    } else if step.e.severity != Critical {
      assert after.log[..k] == st.log;
      assert NoLaterThan(init, step.clk);
      VerdictFromLog(cfg, init, step.e, step.clk);
    }
  }
}
