/**
 Two daemons in which an add whose reload failed, repeated, lists its URL twice: one whose file does not
 load, made so through the control plane, and one whose store fails once.
 */
module HookRetries {
  import opened Prelude
  import opened Decimal
  import opened YamlTree
  import opened ConfigEdits
  import opened ConfigWriters
  import opened SiteStore
  import opened Reconcile
  import opened Hooks

  const PAGE_CAP := "defaults.discovery.max_pages_per_site"

  /** Part of what the loader checks: the page cap, if there is one, is an integer. */
  predicate PageCapReads(f: File) {
    && LoadRoot(f).Some?
    && var cap := GetPath(LoadRoot(f).value, Segments(PAGE_CAP));
      cap.Some? && !IsNull(cap.value) ==> ParseInt(cap.value.value).Some?
  }

  /** An add leaves the page cap alone. */
  lemma AddKeepsPageCap(f: File, site: SiteConfig)
    requires ProperFile(f) && ConfigEdits.AddSite(f, site).Some?
    ensures PageCapReads(ConfigEdits.AddSite(f, site).value) == PageCapReads(f)
  {
    var path := Segments(PAGE_CAP);
    PathOfMaxPages();
    SettableMissesProtected(path, ["sites"]);
    assert path[0] != "sites";
    AddLoads(f, site);
    LoadedIsProper(f);
    AddKeepsPath(LoadRoot(f).value, site, path);
  }

  lemma AddKeepsPath(root: Y, site: SiteConfig, path: seq<string>)
    requires Proper(root) && IsMapping(root) && AddSiteRoot(root, site).Some? && path != [] && path[0] != "sites"
    ensures var r := AddSiteRoot(root, site).value;
      LoadRoot(Document(r)) == Some(r) && GetPath(r, path) == GetPath(root, path)
  {
    AddSiteUrls(root, site, path[0]);
  }

  /** The control plane takes any text for the page cap; a word makes a file that does not load. */
  lemma WordForPageCap(f: File, site: SiteConfig)
    requires ProperFile(f) && ConfigEdits.AddSite(f, site).Some?
    ensures Allowed(PAGE_CAP) && SetKey(f, PAGE_CAP, "many").Some?
    ensures var g := SetKey(f, PAGE_CAP, "many").value;
      && ProperFile(g) && !PageCapReads(g) && FileUrls(g) == FileUrls(f) && ConfigEdits.AddSite(g, site).Some?
  {
    PageCapAllowed();
    AddableStill(f, PAGE_CAP, "many", site);
    AllowedKeyIsHarmless(f, PAGE_CAP, "many", []);
    ManyIsNoNumber();
  }

  lemma ManyIsNoNumber()
    ensures ParseInt("many").None? && !IsNull(InferScalar("many")) && InferScalar("many").value == "many"
  {
    assert "many"[0] == 'm';
    assert !('0' <= "many"[0] <= '9');
  }

  /** A key that is let through does not keep a site from being added. */
  lemma AddableStill(f: File, key: string, value: string, site: SiteConfig)
    requires ProperFile(f) && Allowed(key) && ConfigEdits.AddSite(f, site).Some?
    ensures SetKey(f, key, value).Some? && ConfigEdits.AddSite(SetKey(f, key, value).value, site).Some?
  {
    AddSiteSucceeds(f, site);
    AllowedKeyIsHarmless(f, key, value, ["sites"]);
    var g := SetKey(f, key, value).value;
    OneKeyPath(LoadRoot(f).value, "sites");
    OneKeyPath(LoadRoot(g).value, "sites");
    AddSiteSucceeds(g, site);
  }

  lemma TwoMoreAdds(f: File, site: SiteConfig)
    requires ProperFile(f) && ConfigEdits.AddSite(f, site).Some?
    ensures PageCapReads(ConfigEdits.AddSite(f, site).value) == PageCapReads(f)
    ensures PageCapReads(Twice(f, site)) == PageCapReads(f)
  {
    AddKeepsPageCap(f, site);
    AddKeepsUnique(f, site);
    SecondAdd(f, site);
    AddKeepsPageCap(ConfigEdits.AddSite(f, site).value, site);
  }

  /** set_config with a word for the page cap: the file is written and does not load. */
  method SetWordForPageCap(d: Daemon, ghost req: SiteConfig) returns (r: Outcome)
    requires d.db.Valid() && d.Faultless() && d.Addable(req) && d.loads == PageCapReads
    modifies d, d.config, d.db
    ensures r == ReloadFailed && d.db.Valid() && d.Faultless() && d.Addable(req) && d.db.rows == old(d.db.rows)
    ensures !PageCapReads(d.config.file) && FileUrls(d.config.file) == old(FileUrls(d.config.file))
  {
    WordForPageCap(d.config.file, req);
    r := d.SetConfig(PAGE_CAP, "many");
  }

  lemma FirstAdd(site: SiteConfig)
    ensures ProperFile(Missing) && FileUrls(Missing) == [] && PageCapReads(Missing)
    ensures ConfigEdits.AddSite(Missing, site).Some?
  {
    AddSiteSucceeds(Missing, site);
    PathOfMaxPages();
  }

  method NewDaemon(faulty: nat -> bool) returns (d: Daemon)
    ensures fresh(d) && fresh(d.config) && fresh(d.db) && d.loads == PageCapReads && d.db.Valid()
    ensures d.config.file == Missing && d.db.rows == map[] && d.db.ops == 0 && d.db.faulty == faulty
    ensures (forall n :: !d.config.failing(n)) && forall u :: d.env.validURL(u)
  {
    var config := new ConfigFile(Missing, n => false);
    var db := new SiteDB(faulty);
    d := new Daemon(Env(u => true, (s, p) => Budget(0, 0)), PageCapReads, config, db);
  }

  const REQUEST := SiteConfig("u", "", "", "", 0)

  /** Setting the page cap to a word and then adding a site twice: nothing is enabled and the site is listed twice. */
  method DuplicateByRetry() returns (d: Daemon, cap: Outcome, first: Outcome, second: Outcome)
    ensures fresh(d) && d.loads == PageCapReads
    ensures cap == ReloadFailed && first == ReloadFailed && second == ReloadFailed
    ensures FileUrls(d.config.file) == ["u", "u"] && d.db.rows == map[]
  {
    d := NewDaemon(n => false);
    FirstAdd(REQUEST);
    cap := SetWordForPageCap(d, REQUEST);
    TwoMoreAdds(d.config.file, REQUEST);
    first, second := d.RetryDuplicates(REQUEST);
    assert [] + ["u", "u"] == ["u", "u"];
  }

  /** A store that is busy once: the second add is accepted, and the site is listed twice. */
  method AcceptedDuplicate() returns (d: Daemon, first: Outcome, second: Outcome)
    ensures fresh(d) && d.loads == PageCapReads && first == ReloadFailed && second == Accepted
    ensures FileUrls(d.config.file) == ["u", "u"] && InStep(d.env, d.config.file, d.db.rows)
  {
    d := NewDaemon(n => n == 1);
    FirstAdd(REQUEST);
    TwoMoreAdds(Missing, REQUEST);
    first, second := d.RetryAccepted(REQUEST);
    assert [] + ["u", "u"] == ["u", "u"];
  }
}
