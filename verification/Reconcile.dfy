/**
 reconcileSites (internal/cli/reconcile.go): bringing the sites table in line with the configured
 sites, whatever store operation fails on the way.
 */
module Reconcile {
  import opened ConfigEdits
  import opened SiteStore

  /** What a reconcile depends on besides the table: URL validation and budget resolution. */
  datatype Env = Env(validURL: string -> bool, budget: (SiteConfig, ProofState) -> Budget)

  predicate Admitted(env: Env, url: string) {
    url != "" && env.validURL(url)
  }

  /** The admitted base URLs among the first n entries. */
  ghost function WantedOf(env: Env, sites: seq<SiteConfig>, n: nat): set<string>
    requires n <= |sites|
  {
    set i | 0 <= i < n && Admitted(env, sites[i].url) :: sites[i].url
  }

  /** The base URLs the configuration asks for. */
  ghost function Wanted(env: Env, sites: seq<SiteConfig>): set<string> {
    WantedOf(env, sites, |sites|)
  }

  ghost predicate On(rows: Rows, url: string) {
    exists i :: i in rows && rows[i].baseURL == url && rows[i].enabled
  }

  /** A record without a state reads as no proof. */
  function Tier(state: ProofState): ProofState {
    if state == Other("") then Throttled else state
  }

  /** The budget a site entry gives: that of the row's proof - or, unless exact, of no proof if it could not be read. */
  ghost predicate BudgetFrom(env: Env, site: SiteConfig, row: Row, exact: bool) {
    row.budget == env.budget(site, Tier(row.proof.state)) || (!exact && row.budget == env.budget(site, Throttled))
  }

  /** The last of the first n entries with the row's URL gives its budget. */
  ghost predicate BudgetedBy(env: Env, sites: seq<SiteConfig>, n: nat, row: Row, exact: bool)
    requires n <= |sites|
  {
    exists i :: 0 <= i < n && sites[i].url == row.baseURL && BudgetFrom(env, sites[i], row, exact)
             && forall j :: i < j < n ==> sites[j].url != row.baseURL
  }

  ghost predicate Budgeted(env: Env, sites: seq<SiteConfig>, row: Row, exact: bool) {
    BudgetedBy(env, sites, |sites|, row, exact)
  }

  /** No row goes, no row changes its URL or its proof, and a new row has a new URL. */
  ghost predicate Keeps(before: Rows, after: Rows) {
    && (forall i :: i in before ==>
         i in after && after[i].baseURL == before[i].baseURL && after[i].proof == before[i].proof)
    && forall i :: i in after && i !in before ==> !Has(before, after[i].baseURL)
  }

  ghost predicate OnlyEnables(before: Rows, after: Rows) {
    Keeps(before, after) && forall i :: i in before && before[i].enabled ==> after[i].enabled
  }

  lemma OnlyEnablesTwice(a: Rows, b: Rows, c: Rows)
    requires OnlyEnables(a, b) && OnlyEnables(b, c)
    ensures OnlyEnables(a, c)
  {
    forall i | i in c && i !in a ensures !Has(a, c[i].baseURL) {
      if i !in b {
        forall j | j in a ensures a[j].baseURL != c[i].baseURL {
          assert j in b;
        }
      }
    }
  }

  method VerificationState(db: SiteDB, id: int) returns (s: ProofState)
    requires id in db.rows
    modifies db`ops
    ensures db.ops == old(db.ops) + 1
    ensures s == if db.faulty(old(db.ops)) then Throttled else Tier(db.rows[id].proof.state)
  {
    var rec := db.GetVerification(id);
    s := if rec.None? then Throttled else Tier(rec.value.state);
  }

  /** What an entry does to the table, when it does not end in an error. */
  ghost predicate Settled(env: Env, site: SiteConfig, rows: Rows, exact: bool) {
    On(rows, site.url) && forall i :: i in rows && rows[i].baseURL == site.url ==> BudgetFrom(env, site, rows[i], exact)
  }

  ghost predicate OnlyAbout(url: string, before: Rows, after: Rows) {
    && (forall i :: i in before && before[i].baseURL != url ==> i in after && after[i] == before[i])
    && forall i :: i in after && i !in before ==> after[i].baseURL == url
  }

  /** The row of an entry: enabled again, or inserted with the budget of an unproven site. */
  method ResolveRow(db: SiteDB, env: Env, site: SiteConfig) returns (ok: bool, id: int, existed: bool)
    requires db.Valid() && Admitted(env, site.url)
    modifies db
    ensures db.Valid() && OnlyEnables(old(db.rows), db.rows) && OnlyAbout(site.url, old(db.rows), db.rows)
    ensures old(db.ops) <= db.ops && (db.Smooth(old(db.ops)) ==> ok)
    ensures ok ==> id in db.rows && db.rows[id].baseURL == site.url && db.rows[id].enabled
    ensures ok && !existed ==> db.rows[id].budget == env.budget(site, Throttled) && db.rows[id].proof == NO_PROOF
    ensures old(db.ops) < db.ops && (db.faulty(old(db.ops)) ==> !ok && db.rows == old(db.rows))
  {
    ok, id, existed := false, 0, false;
    var existing := db.GetSiteByBaseURL(site.url);
    match existing {
      case Found(found) =>
        id, existed := found, true;
        ok := db.SetSiteEnabled(id, true);
      case NotFound =>
        ok, id := db.AddSite(site.url, env.budget(site, Throttled));
      case Failed =>
    }
  }

  /** The budget of a row that was there already; one just inserted has the budget of an unproven site. */
  method Rebudget(db: SiteDB, env: Env, site: SiteConfig, id: int, existed: bool) returns (ok: bool)
    requires db.Valid() && id in db.rows && db.rows[id].baseURL == site.url && db.rows[id].enabled
    requires !existed ==> db.rows[id].budget == env.budget(site, Throttled) && db.rows[id].proof == NO_PROOF
    modifies db`ops, db`rows
    ensures db.Valid() && db.rows.Keys == old(db.rows.Keys)
    ensures exists b :: db.rows == old(db.rows)[id := old(db.rows)[id].(budget := b)]
    ensures old(db.ops) <= db.ops && (db.Smooth(old(db.ops)) ==> ok)
    ensures ok ==> BudgetFrom(env, site, db.rows[id], db.Smooth(old(db.ops)))
  {
    var state := VerificationState(db, id);
    ok := true;
    if existed {
      ok := db.SetSiteThrottle(id, env.budget(site, state));
    }
    assert db.rows == old(db.rows)[id := old(db.rows)[id].(budget := db.rows[id].budget)];
  }

  /** One entry: the row is there, enabled and budgeted, or the pass stops with an error. */
  method ReconcileOne(db: SiteDB, env: Env, site: SiteConfig) returns (ok: bool)
    requires db.Valid() && Admitted(env, site.url)
    modifies db
    ensures db.Valid() && OnlyEnables(old(db.rows), db.rows) && OnlyAbout(site.url, old(db.rows), db.rows)
    ensures old(db.ops) <= db.ops && (db.Smooth(old(db.ops)) ==> ok)
    ensures ok ==> Settled(env, site, db.rows, db.Smooth(old(db.ops)))
    ensures old(db.ops) < db.ops && (db.faulty(old(db.ops)) ==> !ok && db.rows == old(db.rows))
  {
    var id, existed;
    ok, id, existed := ResolveRow(db, env, site);
    if ok {
      ok := Rebudget(db, env, site, id, existed);
    }
    if ok {
      ok := WriteElsewhere(db);
    }
  }

  /** The homepage row and the segments: writes that can fail but do not touch the sites table. */
  method WriteElsewhere(db: SiteDB) returns (ok: bool)
    modifies db`ops
    ensures old(db.ops) <= db.ops && (db.Smooth(old(db.ops)) ==> ok)
  {
    ok := db.Attempt();
    if ok {
      ok := db.Attempt();
    }
  }

  /** What the pass has done for the first n entries. */
  ghost predicate Done(env: Env, sites: seq<SiteConfig>, n: nat, rows: Rows, exact: bool) {
    && n <= |sites|
    && (forall url :: url in WantedOf(env, sites, n) ==> On(rows, url))
    && forall i :: i in rows && rows[i].baseURL in WantedOf(env, sites, n) ==> BudgetedBy(env, sites, n, rows[i], exact)
  }

  lemma WantedNext(env: Env, sites: seq<SiteConfig>, n: nat)
    requires n < |sites|
    ensures WantedOf(env, sites, n + 1) ==
      WantedOf(env, sites, n) + (if Admitted(env, sites[n].url) then {sites[n].url} else {})
  {}

  lemma DoneNext(env: Env, sites: seq<SiteConfig>, n: nat, before: Rows, after: Rows, was: bool, exact: bool)
    requires Done(env, sites, n, before, was) && n < |sites| && Admitted(env, sites[n].url) && (exact ==> was)
    requires OnlyEnables(before, after) && OnlyAbout(sites[n].url, before, after)
    requires Settled(env, sites[n], after, exact)
    ensures Done(env, sites, n + 1, after, exact)
  {
    WantedNext(env, sites, n);
    forall url | url in WantedOf(env, sites, n) ensures On(after, url) {
      var i :| i in before && before[i].baseURL == url && before[i].enabled;
      assert i in after;
    }
    forall i | i in after && after[i].baseURL in WantedOf(env, sites, n + 1)
      ensures BudgetedBy(env, sites, n + 1, after[i], exact)
    {
      if after[i].baseURL == sites[n].url {
        assert BudgetFrom(env, sites[n], after[i], exact);
      } else {
        assert after[i] == before[i];
        BudgetedStill(env, sites, n, before[i], was, exact);
      }
    }
  }

  /** An entry with another URL does not change which entry gives a row its budget. */
  lemma BudgetedStill(env: Env, sites: seq<SiteConfig>, n: nat, row: Row, was: bool, exact: bool)
    requires n < |sites| && BudgetedBy(env, sites, n, row, was) && (exact ==> was) && sites[n].url != row.baseURL
    ensures BudgetedBy(env, sites, n + 1, row, exact)
  {
    var k :| 0 <= k < n && sites[k].url == row.baseURL && BudgetFrom(env, sites[k], row, was)
      && forall j :: k < j < n ==> sites[j].url != row.baseURL;
    assert BudgetFrom(env, sites[k], row, exact);
  }

  /** An entry that is not admitted is passed over. */
  lemma DoneSkip(env: Env, sites: seq<SiteConfig>, n: nat, rows: Rows, exact: bool)
    requires Done(env, sites, n, rows, exact) && n < |sites| && !Admitted(env, sites[n].url)
    ensures Done(env, sites, n + 1, rows, exact)
  {
    WantedNext(env, sites, n);
    forall i | i in rows
      && rows[i].baseURL in WantedOf(env, sites, n) ensures BudgetedBy(env, sites, n + 1, rows[i], exact) {
      BudgetedStill(env, sites, n, rows[i], exact, exact);
    }
  }

  /** The n-th entry: reconciled if it is admitted, passed over otherwise. */
  method EnableEntry(db: SiteDB, env: Env, sites: seq<SiteConfig>, n: nat, ghost was: bool) returns (ok: bool)
    requires db.Valid() && n < |sites| && Done(env, sites, n, db.rows, was)
    modifies db
    ensures db.Valid() && OnlyEnables(old(db.rows), db.rows)
    ensures forall i :: i in db.rows && i !in old(db.rows) ==> db.rows[i].baseURL in Wanted(env, sites)
    ensures old(db.ops) <= db.ops && (db.Smooth(old(db.ops)) ==> ok)
    ensures ok ==> Done(env, sites, n + 1, db.rows, was && db.Smooth(old(db.ops)))
    ensures if old(db.ops) == db.ops then ok && db.rows == old(db.rows)
            else db.faulty(old(db.ops)) ==> !ok && db.rows == old(db.rows)
  {
    ok := true;
    if Admitted(env, sites[n].url) {
      ghost var before := db.rows;
      ok := ReconcileOne(db, env, sites[n]);
      if ok {
        DoneNext(env, sites, n, before, db.rows, was, was && db.Smooth(old(db.ops)));
      }
    } else {
      DoneSkip(env, sites, n, db.rows, was);
      DoneLess(env, sites, n + 1, db.rows, was, was && db.Smooth(old(db.ops)));
    }
  }

  lemma DoneLess(env: Env, sites: seq<SiteConfig>, n: nat, rows: Rows, was: bool, exact: bool)
    requires Done(env, sites, n, rows, was) && (exact ==> was)
    ensures Done(env, sites, n, rows, exact)
  {
    forall i | i in rows
      && rows[i].baseURL in WantedOf(env, sites, n) ensures BudgetedBy(env, sites, n, rows[i], exact) {
      var k :| 0 <= k < n && sites[k].url == rows[i].baseURL && BudgetFrom(env, sites[k], rows[i], was)
        && forall j :: k < j < n ==> sites[j].url != rows[i].baseURL;
      assert BudgetFrom(env, sites[k], rows[i], exact);
    }
  }

  /** The first loop: every admitted entry in order, stopping at the first store error. */
  method EnableConfigured(db: SiteDB, env: Env, sites: seq<SiteConfig>) returns (ok: bool, inConfig: set<string>)
    requires db.Valid()
    modifies db
    ensures db.Valid() && OnlyEnables(old(db.rows), db.rows)
    ensures forall i :: i in db.rows && i !in old(db.rows) ==> db.rows[i].baseURL in Wanted(env, sites)
    ensures old(db.ops) <= db.ops && (db.Smooth(old(db.ops)) ==> ok)
    ensures ok ==> Done(env, sites, |sites|, db.rows, db.Smooth(old(db.ops))) && inConfig == Wanted(env, sites)
    ensures !ok ==> old(db.ops) < db.ops
    ensures (ok && old(db.ops) == db.ops) || db.faulty(old(db.ops)) ==> db.rows == old(db.rows)
    ensures ok && old(db.ops) < db.ops ==> !db.faulty(old(db.ops))
  {
    ok, inConfig := true, {};
    for n := 0 to |sites|
      invariant db.Valid() && OnlyEnables(old(db.rows), db.rows)
      invariant forall i :: i in db.rows && i !in old(db.rows) ==> db.rows[i].baseURL in Wanted(env, sites)
      invariant Done(env, sites, n, db.rows, db.Smooth(old(db.ops)))
      invariant inConfig == WantedOf(env, sites, n) && old(db.ops) <= db.ops
      invariant if old(db.ops) == db.ops then db.rows == old(db.rows) else !db.faulty(old(db.ops))
    {
      WantedNext(env, sites, n);
      if Admitted(env, sites[n].url) {
        inConfig := inConfig + {sites[n].url};
      }
      ghost var before, ops, was := db.rows, db.ops, db.Smooth(old(db.ops));
      ok := EnableEntry(db, env, sites, n, was);
      OnlyEnablesTwice(old(db.rows), before, db.rows);
      if !ok {
        return;
      }
      assert db.Smooth(old(db.ops)) <==> was && db.Smooth(ops);
    }
    ok := true;
  }

  /** What dropping rows out of configuration may change: the enabled flag of unwanted rows. */
  ghost predicate OnlyDisables(wanted: set<string>, before: Rows, after: Rows) {
    && after.Keys == before.Keys
    && forall i :: i in before ==>
         after[i] == before[i] || (before[i].baseURL !in wanted && after[i] == before[i].(enabled := false))
  }

  /** The second loop: disable, never delete, the rows whose URL is not configured. */
  method DisableOthers(db: SiteDB, inConfig: set<string>, ids: seq<int>) returns (ok: bool)
    requires db.Valid() && Enumerates(ids, db.rows.Keys)
    modifies db
    ensures db.Valid() && OnlyDisables(inConfig, old(db.rows), db.rows)
    ensures old(db.ops) <= db.ops && (db.Smooth(old(db.ops)) ==> ok)
    ensures ok ==> forall i :: i in db.rows && db.rows[i].enabled ==> db.rows[i].baseURL in inConfig
  {
    for k := 0 to |ids|
      invariant db.Valid() && OnlyDisables(inConfig, old(db.rows), db.rows) && old(db.ops) <= db.ops
      invariant forall j :: 0 <= j < k ==>
        ids[j] in db.rows && (db.rows[ids[j]].enabled ==> db.rows[ids[j]].baseURL in inConfig)
    {
      var id := ids[k];
      if db.rows[id].enabled && db.rows[id].baseURL !in inConfig {
        ok := db.SetSiteEnabled(id, false);
        if !ok {
          return;
        }
      }
    }
    ok := true;
  }

  /** Every row is enabled exactly if it is wanted, and every wanted URL has a row. */
  ghost predicate Converged(env: Env, sites: seq<SiteConfig>, rows: Rows) {
    && (forall i :: i in rows ==> (rows[i].enabled <==> rows[i].baseURL in Wanted(env, sites)))
    && forall url :: url in Wanted(env, sites) ==> Has(rows, url)
  }

  method ReconcileSites(db: SiteDB, env: Env, sites: seq<SiteConfig>) returns (ok: bool)
    requires db.Valid()
    modifies db
    ensures db.Valid() && Keeps(old(db.rows), db.rows)
    ensures forall i :: i in db.rows && i !in old(db.rows) ==> db.rows[i].baseURL in Wanted(env, sites)
    // Whatever fails, no configured site that was enabled is disabled.
    ensures forall i :: i in old(db.rows) && old(db.rows[i].enabled) ==>
      old(db.rows[i].baseURL) in Wanted(env, sites) ==> db.rows[i].enabled
    // Without a fault the pass goes through.
    ensures old(db.ops) < db.ops && (db.Smooth(old(db.ops)) ==> ok)
    // A fault at the very first operation ends the pass before it has done anything.
    ensures db.faulty(old(db.ops)) ==> !ok && db.rows == old(db.rows)
    ensures ok ==> Converged(env, sites, db.rows)
    // Enabled rows have the budget of their last entry and, if no operation failed, of their own proof.
    ensures ok ==> forall i :: i in db.rows && db.rows[i].enabled ==>
      Budgeted(env, sites, db.rows[i], db.Smooth(old(db.ops)))
  {
    var inConfig;
    ok, inConfig := EnableConfigured(db, env, sites);
    if !ok {
      return;
    }
    ghost var middle, smooth := db.rows, db.Smooth(old(db.ops));
    var ids := db.ListSites();
    if ids.None? {
      return false;
    }
    ok := DisableOthers(db, inConfig, ids.value);
    if ok {
      ConvergedAfter(env, sites, middle, db.rows, smooth, db.Smooth(old(db.ops)));
    }
  }

  lemma ConvergedAfter(env: Env, sites: seq<SiteConfig>, middle: Rows, after: Rows, was: bool, exact: bool)
    requires UniqueURLs(middle) && Done(env, sites, |sites|, middle, was) && (exact ==> was)
    requires OnlyDisables(Wanted(env, sites), middle, after)
    requires forall i :: i in after && after[i].enabled ==> after[i].baseURL in Wanted(env, sites)
    ensures Converged(env, sites, after)
    ensures forall i :: i in after && after[i].enabled ==> Budgeted(env, sites, after[i], exact)
  {
    forall i | i in after && after[i].baseURL in Wanted(env, sites) ensures after[i].enabled {
      assert On(middle, middle[i].baseURL);
    }
    forall url | url in Wanted(env, sites) ensures Has(after, url) {
      var i :| i in middle && middle[i].baseURL == url && middle[i].enabled;
      assert i in after;
    }
  }

  /** Converged: the enabled base URLs are the wanted ones. */
  lemma ConvergedIsExact(env: Env, sites: seq<SiteConfig>, rows: Rows)
    requires Converged(env, sites, rows)
    ensures EnabledURLs(rows) == Wanted(env, sites)
  {
    forall url | url in Wanted(env, sites) ensures url in EnabledURLs(rows) {
      var i :| i in rows && rows[i].baseURL == url;
    }
  }

  /** A second pass over the same configuration adds no row and changes no enabled flag. */
  lemma SecondPassIsQuiet(env: Env, sites: seq<SiteConfig>, first: Rows, second: Rows)
    requires Converged(env, sites, first) && Keeps(first, second) && Converged(env, sites, second)
    requires forall i :: i in second && i !in first ==> second[i].baseURL in Wanted(env, sites)
    ensures second.Keys == first.Keys
    ensures forall i :: i in first ==> second[i].enabled == first[i].enabled
  {
    assert forall i :: i in second && second[i].baseURL in Wanted(env, sites) ==> Has(first, second[i].baseURL);
    assert forall i :: i in second.Keys <==> i in first.Keys;
  }
}
