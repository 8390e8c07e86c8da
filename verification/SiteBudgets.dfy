/**
 Reconcile with the real budgets: what a pass leaves in the rows of sites without a proof
 (internal/cli/reconcile.go with internal/config/throttle.go).
 */
module SiteBudgets {
  import opened Prelude
  import opened ConfigEdits
  import opened SiteStore
  import opened Reconcile
  import CrawlBudget

  /** The row values reconcileSites resolves for an entry: whole seconds and a concurrency. */
  function RowBudget(cfg: CrawlBudget.Config, duration: string -> Option<int>, site: SiteConfig,
                     state: ProofState): Budget {
    var r := CrawlBudget.ResolveCrawl(cfg, CrawlBudget.Site(site.speed, None, duration(site.minInterval)),
                                      state == Verified);
    Budget(CrawlBudget.Quo(r.minInterval, CrawlBudget.SECOND), r.conc)
  }

  ghost predicate Resolves(env: Env, cfg: CrawlBudget.Config, duration: string -> Option<int>) {
    forall site, state :: env.budget(site, state) == RowBudget(cfg, duration, site, state)
  }

  predicate WithinFloor(cfg: CrawlBudget.Config, b: Budget) {
    && b.minInterval >= CrawlBudget.Quo(CrawlBudget.ThrottleFloor(cfg).minInterval, CrawlBudget.SECOND)
    && 1 <= b.concurrency <= CrawlBudget.ThrottleFloor(cfg).conc
  }

  lemma UnverifiedBudget(cfg: CrawlBudget.Config, duration: string -> Option<int>, site: SiteConfig, state: ProofState)
    requires state != Verified
    ensures WithinFloor(cfg, RowBudget(cfg, duration, site, state))
  {
    var s := CrawlBudget.Site(site.speed, None, duration(site.minInterval));
    CrawlBudget.UnverifiedStaysWithinFloor(cfg, s);
    var floor, resolved := CrawlBudget.ThrottleFloor(cfg), CrawlBudget.ResolveCrawl(cfg, s, false);
    CrawlBudget.DivMonotone(floor.minInterval, resolved.minInterval, CrawlBudget.SECOND);
  }

  /**
   After a successful pass every enabled site that is not verified runs within the unverified floor,
   whatever its entry says, whatever its row held before, and even if its proof could not be read.
   */
  lemma UnverifiedRowsAreThrottled(env: Env, cfg: CrawlBudget.Config, duration: string -> Option<int>,
                                   sites: seq<SiteConfig>, row: Row)
    requires Resolves(env, cfg, duration) && Budgeted(env, sites, row, false) && row.proof.state != Verified
    ensures WithinFloor(cfg, row.budget)
  {
    var i :| 0 <= i < |sites| && sites[i].url == row.baseURL && BudgetFrom(env, sites[i], row, false);
    UnverifiedBudget(cfg, duration, sites[i], Tier(row.proof.state));
    UnverifiedBudget(cfg, duration, sites[i], Throttled);
  }

  /** The budget of the verified tier: the entry's own interval before the default, and the configured concurrency. */
  predicate VerifiedTier(cfg: CrawlBudget.Config, own: Option<int>, b: Budget) {
    var interval := if CrawlBudget.Positive(own) then own.value else cfg.minInterval.GetOr(10 * CrawlBudget.MINUTE);
    && b.concurrency == (if cfg.conc > 0 then cfg.conc else 2)
    && b.minInterval == CrawlBudget.Quo(interval, CrawlBudget.SECOND)
  }

  ghost predicate HasVerifiedTier(cfg: CrawlBudget.Config, duration: string -> Option<int>, sites: seq<SiteConfig>,
                                  row: Row) {
    exists i :: 0 <= i < |sites| && sites[i].url == row.baseURL
      && (forall j :: i < j < |sites| ==> sites[j].url != row.baseURL)
             && VerifiedTier(cfg, duration(sites[i].minInterval), row.budget)
  }

  /** A verified site gets the verified tier of its last entry, if its proof could be read. */
  lemma VerifiedRowsAreLifted(env: Env, cfg: CrawlBudget.Config, duration: string -> Option<int>,
                              sites: seq<SiteConfig>, row: Row)
    requires Resolves(env, cfg, duration) && Budgeted(env, sites, row, true) && row.proof.state == Verified
    ensures HasVerifiedTier(cfg, duration, sites, row)
  {
    var i :| 0 <= i < |sites| && sites[i].url == row.baseURL && BudgetFrom(env, sites[i], row, true)
      && forall j :: i < j < |sites| ==> sites[j].url != row.baseURL;
    var s := CrawlBudget.Site(sites[i].speed, None, duration(sites[i].minInterval));
    CrawlBudget.VerifiedGetsItsConfiguration(cfg, s);
    assert VerifiedTier(cfg, duration(sites[i].minInterval), row.budget);
  }

  /** The pass itself, with these budgets. */
  method ReconcileThrottles(db: SiteDB, env: Env, cfg: CrawlBudget.Config, ghost duration: string -> Option<int>,
                            sites: seq<SiteConfig>)
    returns (ok: bool)
    requires db.Valid() && Resolves(env, cfg, duration)
    modifies db
    ensures db.Valid() && Keeps(old(db.rows), db.rows)
    ensures ok ==> Converged(env, sites, db.rows)
    ensures ok ==> forall i :: i in db.rows && db.rows[i].enabled && db.rows[i].proof.state != Verified ==>
      WithinFloor(cfg, db.rows[i].budget)
    ensures ok && db.Smooth(old(db.ops)) ==>
      forall i :: i in db.rows && db.rows[i].enabled && db.rows[i].proof.state == Verified ==>
        HasVerifiedTier(cfg, duration, sites, db.rows[i])
  {
    ok := ReconcileSites(db, env, sites);
    if ok {
      forall i | i in db.rows && db.rows[i].enabled && db.rows[i].proof.state != Verified
        ensures WithinFloor(cfg, db.rows[i].budget)
      {
        UnverifiedRowsAreThrottled(env, cfg, duration, sites, db.rows[i]);
      }
      if db.Smooth(old(db.ops)) {
        forall i | i in db.rows && db.rows[i].enabled && db.rows[i].proof.state == Verified
          ensures HasVerifiedTier(cfg, duration, sites, db.rows[i])
        {
          VerifiedRowsAreLifted(env, cfg, duration, sites, db.rows[i]);
        }
      }
    }
  }
}
