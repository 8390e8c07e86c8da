/**
 The config-mutating hooks of the daemon (internal/cli/run.go): each edits config.yaml and reloads it
 into the sites table while holding cfgWriteMu, so each is one call here. Together they keep the
 file and the table in agreement.
 */
module Hooks {
  import opened Prelude
  import opened Decimal
  import opened YamlTree
  import opened ConfigEdits
  import opened SearchConsole
  import opened ConfigWriters
  import opened SiteStore
  import opened Reconcile

  function SitesOf(items: seq<Y>): (sites: seq<SiteConfig>)
    ensures |sites| == |items| && forall i :: 0 <= i < |sites| ==> sites[i].url == UrlOf(items[i])
  {
    seq(|items|, i requires 0 <= i < |items| => ReadSite(items[i]))
  }

  /** The configured sites of a file. */
  function ConfiguredSites(f: File): seq<SiteConfig> {
    match LoadRoot(f)
    case None => []
    case Some(root) => SitesOf(Sites(root))
  }

  ghost function ValidUrls(env: Env, urls: seq<string>): set<string> {
    set u | u in urls && Admitted(env, u)
  }

  lemma WantedIsValid(env: Env, f: File)
    ensures Wanted(env, ConfiguredSites(f)) == ValidUrls(env, FileUrls(f))
  {
    var sites, urls := ConfiguredSites(f), FileUrls(f);
    assert |sites| == |urls| && forall i :: 0 <= i < |sites| ==> sites[i].url == urls[i];
    forall u | u in ValidUrls(env, urls) ensures u in Wanted(env, sites) {
      var i :| 0 <= i < |urls| && urls[i] == u;
      assert sites[i].url == u;
    }
  }

  ghost predicate NoRepeats(urls: seq<string>) {
    forall i, j :: 0 <= i < j < |urls| ==> urls[i] != urls[j]
  }

  /** The file lists no URL twice, and the enabled sites are its valid URLs. */
  ghost predicate Agrees(env: Env, f: File, enabled: set<string>) {
    && ProperFile(f) && LoadRoot(f).Some?
    && NoRepeats(FileUrls(f))
    && enabled == ValidUrls(env, FileUrls(f))
  }

  ghost predicate Agree(env: Env, f: File, rows: Rows) {
    Agrees(env, f, EnabledURLs(rows))
  }

  /** The enabled sites are the file's valid URLs. */
  ghost predicate InStep(env: Env, f: File, rows: Rows) {
    EnabledURLs(rows) == ValidUrls(env, FileUrls(f))
  }

  datatype Request = Add(site: SiteConfig) | Remove(id: int, purge: bool) | Set(key: string, value: string)

  /** Unfinished: all went through but the last store call, the lookup of the new id or the purge. */
  datatype Outcome = Rejected | Errored | ReloadFailed | Unfinished | Accepted {
    predicate Reloaded() {
      this == Unfinished || this == Accepted
    }
  }

  // ---------- What the edits do to the list of URLs ----------

  lemma AddKeepsUnique(f: File, site: SiteConfig)
    requires ProperFile(f) && AddSite(f, site).Some?
    ensures var g := AddSite(f, site).value;
      && ProperFile(g) && LoadRoot(g).Some?
      && FileUrls(g) == FileUrls(f) + [site.url]
      && (NoRepeats(FileUrls(f)) && site.url !in FileUrls(f) ==> NoRepeats(FileUrls(g)))
  {
    LoadedIsProper(f);
    AddSiteUrls(LoadRoot(f).value, site, "sites");
  }

  lemma AddedRoot(root: Y, site: SiteConfig)
    requires IsMapping(root) && AddSiteRoot(root, site).Some?
    ensures var r := AddSiteRoot(root, site).value;
      && IsMapping(r) && !IsNull(r) && Listable(r, "sites") && Sites(r) == Sites(root) + [SiteNode(site)]
  {
    var list := ListUnder(root, "sites").value;
    SetGet(root, "sites", Append(list, SiteNode(site)), "sites");
    assert list.kind == SequenceNode && list.content == Sites(root);
  }

  lemma AddLoads(f: File, site: SiteConfig)
    requires ProperFile(f) && ConfigEdits.AddSite(f, site).Some?
    ensures LoadRoot(f).Some? && IsMapping(LoadRoot(f).value) && AddSiteRoot(LoadRoot(f).value, site).Some?
    ensures ConfigEdits.AddSite(f, site).value == Document(AddSiteRoot(LoadRoot(f).value, site).value)
  {
    LoadedIsProper(f);
  }

  /** The list an add leaves under sites. */
  lemma AddedList(f: File, site: SiteConfig)
    requires ProperFile(f) && ConfigEdits.AddSite(f, site).Some?
    ensures var g := ConfigEdits.AddSite(f, site).value;
      && LoadRoot(f).Some? && LoadRoot(g).Some?
      && Sites(LoadRoot(g).value) == Sites(LoadRoot(f).value) + [SiteNode(site)]
      && Listable(LoadRoot(g).value, "sites")
  {
    AddLoads(f, site);
    AddedRoot(LoadRoot(f).value, site);
  }

  /** What the loader reads after an add: the sites from before, and the new one with all its fields. */
  lemma AddReadsBack(f: File, site: SiteConfig)
    requires ProperFile(f) && ConfigEdits.AddSite(f, site).Some? && -MAX_INT64 - 1 <= site.speed <= MAX_INT64
    ensures ConfiguredSites(ConfigEdits.AddSite(f, site).value) == ConfiguredSites(f) + [site]
  {
    AddedList(f, site);
    ConfigEdits.SiteReadsBack(site);
    SitesSnoc(Sites(LoadRoot(f).value), SiteNode(site));
  }

  lemma SitesSnoc(items: seq<Y>, item: Y)
    ensures SitesOf(items + [item]) == SitesOf(items) + [ReadSite(item)]
  {}

  function DropSite(sites: seq<SiteConfig>, url: string): seq<SiteConfig> {
    if sites == [] then []
    else if sites[0].url == url then DropSite(sites[1..], url)
    else [sites[0]] + DropSite(sites[1..], url)
  }

  lemma SitesCons(item: Y, items: seq<Y>)
    ensures SitesOf([item] + items) == [ReadSite(item)] + SitesOf(items)
  {}

  lemma {:induction false} DropReads(items: seq<Y>, url: string)
    requires url != ""
    ensures SitesOf(DropUrl(items, url)) == DropSite(SitesOf(items), url)
  {
    if items != [] {
      var rest := items[1..];
      DropReads(rest, url);
      assert items == [items[0]] + rest;
      SitesCons(items[0], rest);
      SitesCons(items[0], DropUrl(rest, url));
      DropCons(ReadSite(items[0]), SitesOf(rest), url);
      HasUrlIsUrlOf(items[0], url);
    }
  }

  lemma DropCons(site: SiteConfig, sites: seq<SiteConfig>, url: string)
    ensures DropSite([site] + sites, url) ==
      if site.url == url then DropSite(sites, url) else [site] + DropSite(sites, url)
  {
    assert ([site] + sites)[1..] == sites;
  }

  /** The list a remove leaves under sites. */
  lemma RemovedList(f: File, url: string)
    requires ProperFile(f) && LoadRoot(f).Some?
    ensures var g := RemoveSite(f, url).value;
      LoadRoot(g).Some? && Sites(LoadRoot(g).value) == DropUrl(Sites(LoadRoot(f).value), url)
  {
    LoadedIsProper(f);
    var root := LoadRoot(f).value;
    DropUrlKeeps(Sites(root), url);
    if SiteListed(root, url) {
      var list := MapValue(root, "sites").value;
      SetGet(root, "sites", list.(content := DropUrl(list.content, url)), "sites");
    }
  }

  /** What the loader reads after a remove: the other sites, with all their fields, in order. */
  lemma RemoveReadsBack(f: File, url: string)
    requires ProperFile(f) && LoadRoot(f).Some? && url != ""
    ensures ConfiguredSites(RemoveSite(f, url).value) == DropSite(ConfiguredSites(f), url)
  {
    RemovedList(f, url);
    DropReads(Sites(LoadRoot(f).value), url);
  }

  lemma {:induction false} WithoutKeeps(urls: seq<string>, url: string)
    ensures forall u :: u in ConfigEdits.Without(urls, url) <==> u in urls && u != url
    ensures NoRepeats(urls) ==> NoRepeats(ConfigEdits.Without(urls, url))
  {
    if urls != [] {
      WithoutKeeps(urls[1..], url);
      assert forall u :: u in urls <==> u == urls[0] || u in urls[1..];
      if NoRepeats(urls) {
        assert urls[0] !in urls[1..];
      }
    }
  }

  lemma RemoveKeepsUnique(f: File, url: string)
    requires ProperFile(f) && LoadRoot(f).Some? && url != ""
    ensures RemoveSite(f, url).Some?
    ensures var g := RemoveSite(f, url).value;
      && ProperFile(g) && LoadRoot(g).Some?
      && FileUrls(g) == ConfigEdits.Without(FileUrls(f), url)
      && (NoRepeats(FileUrls(f)) ==> NoRepeats(FileUrls(g)))
  {
    LoadedIsProper(f);
    var root := LoadRoot(f).value;
    RemoveSiteUrls(root, url, "sites");
    WithoutKeeps(FileUrls(f), url);
    if !SiteListed(root, url) {
      NothingToRemove(root, url);
    }
  }

  /** Should a URL that was not listed have been added twice, one remove takes both entries out. */
  lemma RemoveTakesBoth(f: File, site: SiteConfig)
    requires ProperFile(f) && ConfigEdits.AddSite(f, site).Some? && site.url != "" && site.url !in FileUrls(f)
    ensures var once := ConfigEdits.AddSite(f, site).value;
      && ConfigEdits.AddSite(once, site).Some?
      && FileUrls(RemoveSite(ConfigEdits.AddSite(once, site).value, site.url).GetOr(f)) == FileUrls(f)
  {
    AddKeepsUnique(f, site);
    var once := ConfigEdits.AddSite(f, site).value;
    SecondAdd(f, site);
    AddKeepsUnique(once, site);
    RemoveKeepsUnique(ConfigEdits.AddSite(once, site).value, site.url);
    assert FileUrls(f) + [site.url] + [site.url] == FileUrls(f) + [site.url, site.url];
    NotListed(FileUrls(f), site.url);
  }

  function Twice(f: File, site: SiteConfig): File {
    var once := ConfigEdits.AddSite(f, site).GetOr(f);
    ConfigEdits.AddSite(once, site).GetOr(once)
  }

  lemma SecondAdd(f: File, site: SiteConfig)
    requires ProperFile(f) && ConfigEdits.AddSite(f, site).Some?
    ensures ConfigEdits.AddSite(ConfigEdits.AddSite(f, site).value, site).Some?
  {
    AddedList(f, site);
    AddSiteSucceeds(ConfigEdits.AddSite(f, site).value, site);
  }

  lemma {:induction false} NotListed(urls: seq<string>, url: string)
    requires url !in urls
    ensures ConfigEdits.Without(urls + [url, url], url) == urls
  {
    if urls == [] {
      assert urls + [url, url] == [url, url] && [url, url][1..] == [url] && [url][1..] == [];
      assert ConfigEdits.Without([url], url) == [];
      assert ConfigEdits.Without([url, url], url) == [];
    } else {
      assert (urls + [url, url])[1..] == urls[1..] + [url, url];
      NotListed(urls[1..], url);
    }
  }

  lemma ListedTwice(urls: seq<string>, url: string)
    ensures urls + [url] + [url] == urls + [url, url] && !NoRepeats(urls + [url, url])
  {
    var n := |urls|;
    assert (urls + [url, url])[n] == url && (urls + [url, url])[n + 1] == url;
  }

  lemma AddKeepsUniqueIf(f: File, site: SiteConfig)
    requires ProperFile(f)
    ensures ConfigEdits.AddSite(f, site).Some? ==>
      var g := ConfigEdits.AddSite(f, site).value;
      && ProperFile(g) && LoadRoot(g).Some?
      && FileUrls(g) == FileUrls(f) + [site.url]
      && (NoRepeats(FileUrls(f)) && site.url !in FileUrls(f) ==> NoRepeats(FileUrls(g)))
  {
    if ConfigEdits.AddSite(f, site).Some? {
      AddKeepsUnique(f, site);
    }
  }

  lemma RemoveKeepsUniqueIf(f: File, url: string)
    requires ProperFile(f) && url != ""
    ensures RemoveSite(f, url).Some? == LoadRoot(f).Some?
    ensures RemoveSite(f, url).Some? ==>
      var g := RemoveSite(f, url).value;
      && ProperFile(g) && LoadRoot(g).Some?
      && FileUrls(g) == ConfigEdits.Without(FileUrls(f), url)
      && (NoRepeats(FileUrls(f)) ==> NoRepeats(FileUrls(g)))
  {
    if LoadRoot(f).Some? {
      RemoveKeepsUnique(f, url);
    }
  }

  lemma HarmlessIf(f: File, key: string, value: string)
    requires ProperFile(f) && Allowed(key)
    ensures SetKey(f, key, value).Some? == LoadRoot(f).Some?
    ensures SetKey(f, key, value).Some? ==>
      var g := SetKey(f, key, value).value;
      ProperFile(g) && LoadRoot(g).Some? && FileUrls(g) == FileUrls(f)
  {
    if LoadRoot(f).Some? {
      AllowedKeyIsHarmless(f, key, value, []);
    }
  }

  lemma EnabledRow(rows: Rows, id: int)
    requires UniqueURLs(rows) && id in rows && rows[id].baseURL in EnabledURLs(rows)
    ensures rows[id].enabled
  {
    var i :| i in rows && rows[i].enabled && rows[i].baseURL == rows[id].baseURL;
  }

  /** Deleting a row that is not enabled leaves the enabled URLs alone. */
  lemma PurgeIsQuiet(rows: Rows, id: int)
    ensures id in rows && !rows[id].enabled ==> EnabledURLs(rows - {id}) == EnabledURLs(rows)
  {
    if id in rows && !rows[id].enabled {
      forall u | u in EnabledURLs(rows) ensures u in EnabledURLs(rows - {id}) {
        var i :| i in rows && rows[i].enabled && rows[i].baseURL == u;
        assert i in rows - {id};
      }
    }
  }

  class Daemon {
    const env: Env
    /** Whether config.Load accepts a file; it never accepts one without a root mapping. */
    const loads: File -> bool
    const config: ConfigFile
    const db: SiteDB
    var live: seq<SiteConfig>

    constructor (env: Env, loads: File -> bool, config: ConfigFile, db: SiteDB)
      ensures this.env == env && this.loads == loads && this.config == config && this.db == db
    {
      this.env, this.loads, this.config, this.db, live := env, loads, config, db, [];
    }

    /** Whether an add, or a remove, gets its edit into the file. */
    ghost predicate CanAdd(req: SiteConfig)
      reads config
    {
      ConfigEdits.AddSite(config.file, req).Some? && config.Writable()
    }

    ghost predicate CanRemove(url: string)
      reads config
    {
      ConfigEdits.RemoveSite(config.file, url).Some? && (HasSite(config.file, url) ==> config.Writable())
    }

    /** reload: load the file, then reconcile the table with what was loaded. */
    method Reload() returns (ok: bool)
      requires db.Valid()
      modifies this, db
      ensures db.Valid() && Keeps(old(db.rows), db.rows) && old(db.ops) <= db.ops
      ensures ok ==> LoadRoot(config.file).Some? && loads(config.file)
      // What was loaded is live even if the table could not be brought in line with it.
      ensures live ==
        if LoadRoot(config.file).Some? && loads(config.file) then ConfiguredSites(config.file) else old(live)
      ensures ok ==> InStep(env, config.file, db.rows)
      ensures ok ==> forall url :: url in ValidUrls(env, FileUrls(config.file)) ==> Has(db.rows, url)
      ensures LoadRoot(config.file).Some? && loads(config.file) && db.Smooth(old(db.ops)) ==> ok
      ensures !(LoadRoot(config.file).Some? && loads(config.file)) ==> !ok && db.rows == old(db.rows)
      // A fault at the reload's first store call leaves the table as it was.
      ensures LoadRoot(config.file).Some? && loads(config.file) ==> old(db.ops) < db.ops
      ensures db.faulty(old(db.ops)) ==> !ok && db.rows == old(db.rows)
      ensures forall i :: i in old(db.rows) && old(db.rows[i].enabled) ==>
        old(db.rows[i].baseURL) in ValidUrls(env, FileUrls(config.file)) ==> db.rows[i].enabled
    {
      if LoadRoot(config.file).None? || !loads(config.file) {
        return false;
      }
      live := ConfiguredSites(config.file);
      WantedIsValid(env, config.file);
      ok := ReconcileSites(db, env, live);
      if ok {
        ConvergedIsExact(env, live, db.rows);
      }
    }

    /** addSiteDuplicateErr on the result of the lookup: only an enabled row is a duplicate. */
    method CheckDuplicate(url: string) returns (r: Outcome)
      requires db.Valid()
      modifies db`ops
      ensures db.ops == old(db.ops) + 1
      ensures r ==
        if db.faulty(old(db.ops)) then Errored else if url in EnabledURLs(db.rows) then Rejected else Accepted
    {
      var existing := db.GetSiteByBaseURL(url);
      match existing
      case Failed => r := Errored;
      case NotFound => r := Accepted;
      case Found(id) => r := if db.rows[id].enabled then Rejected else Accepted;
    }

    /** The add_site hook. */
    method AddSite(req: SiteConfig) returns (r: Outcome, id: Option<int>)
      requires db.Valid() && ProperFile(config.file)
      modifies this, config, db
      ensures db.Valid() && ProperFile(config.file) && Keeps(old(db.rows), db.rows) && old(db.ops) <= db.ops
      ensures r == Rejected <==>
        !Admitted(env, req.url) || (req.url in old(EnabledURLs(db.rows)) && !db.faulty(old(db.ops)))
      ensures r == Errored <==>
        Admitted(env, req.url)
          && (db.faulty(old(db.ops)) || (req.url !in old(EnabledURLs(db.rows)) && !old(CanAdd(req))))
      ensures r == Rejected || r == Errored ==> config.file == old(config.file) && db.rows == old(db.rows)
      ensures r == ReloadFailed || r.Reloaded() ==>
        ConfigEdits.AddSite(old(config.file), req) == Some(config.file)
        && FileUrls(config.file) == old(FileUrls(config.file)) + [req.url]
      ensures r == ReloadFailed && !loads(config.file) ==> db.rows == old(db.rows)
      ensures r != Rejected && r != Errored && db.faulty(old(db.ops) + 1) ==>
        r == ReloadFailed && db.rows == old(db.rows)
      ensures r != Rejected && r != Errored && loads(config.file) ==> old(db.ops) + 1 < db.ops
      ensures r.Reloaded() ==> loads(config.file) && InStep(env, config.file, db.rows)
      ensures r.Reloaded() && old(Agree(env, config.file, db.rows)) ==> Agree(env, config.file, db.rows)
      // Past its check, without a store fault and with a file that loads, it is accepted.
      ensures r != Rejected && r != Errored && db.Smooth(old(db.ops)) && loads(config.file) ==> r == Accepted
      ensures r == Accepted <==> id.Some?
      ensures id.Some? ==> id.value in db.rows && db.rows[id.value].baseURL == req.url && db.rows[id.value].enabled
    {
      id := None;
      if !Admitted(env, req.url) {
        return Rejected, None;
      }
      r := CheckDuplicate(req.url);
      if r != Accepted {
        return;
      }
      r := WriteSite(req);
      if r == Accepted {
        id := FindEnabled(req.url);
        r := if id.Some? then Accepted else Unfinished;
      }
    }

    /** The part of add_site between its check and the last lookup: edit, then reload. */
    method WriteSite(req: SiteConfig) returns (r: Outcome)
      requires db.Valid() && ProperFile(config.file) && Admitted(env, req.url)
      modifies this, config, db
      ensures db.Valid() && ProperFile(config.file) && Keeps(old(db.rows), db.rows) && old(db.ops) <= db.ops
      ensures r == Errored || r == ReloadFailed || r == Accepted
      ensures r == Errored <==> !old(CanAdd(req))
      ensures r == Errored ==> config.file == old(config.file) && db.rows == old(db.rows)
      ensures r != Errored ==>
        ConfigEdits.AddSite(old(config.file), req) == Some(config.file)
        && FileUrls(config.file) == old(FileUrls(config.file)) + [req.url]
      ensures r == ReloadFailed && !loads(config.file) ==> db.rows == old(db.rows)
      ensures r != Errored && db.faulty(old(db.ops)) ==> r == ReloadFailed && db.rows == old(db.rows)
      ensures r != Errored && loads(config.file) ==> old(db.ops) < db.ops
      ensures r == Accepted ==> loads(config.file) && InStep(env, config.file, db.rows)
      ensures r == Accepted ==> Has(db.rows, req.url) && req.url in EnabledURLs(db.rows)
      ensures r == Accepted && old(Agree(env, config.file, db.rows)) && req.url !in old(EnabledURLs(db.rows)) ==>
        Agree(env, config.file, db.rows)
      ensures r != Errored && db.Smooth(old(db.ops)) && loads(config.file) ==> r == Accepted
    {
      AddKeepsUniqueIf(config.file, req);
      var wrote := config.AddSiteYAML(req);
      if !wrote {
        return Errored;
      }
      var ok := Reload();
      assert req.url in FileUrls(config.file);
      r := if ok then Accepted else ReloadFailed;
    }

    /** The id add_site answers with, of a URL the reload has just enabled. */
    method FindEnabled(url: string) returns (id: Option<int>)
      requires db.Valid() && Has(db.rows, url) && url in EnabledURLs(db.rows)
      modifies db`ops
      ensures db.Valid() && db.ops == old(db.ops) + 1 && id.Some? == !db.faulty(old(db.ops))
      ensures id.Some? ==> id.value in db.rows && db.rows[id.value].baseURL == url && db.rows[id.value].enabled
    {
      var row := db.GetSiteByBaseURL(url);
      id := None;
      if row.Found? {
        id := Some(row.id);
        EnabledRow(db.rows, row.id);
      }
    }

    /** The remove_site hook; purging deletes the row after the reload has disabled it. */
    method RemoveSite(id: int, purge: bool) returns (r: Outcome)
      requires db.Valid() && ProperFile(config.file)
      modifies this, config, db
      ensures db.Valid() && ProperFile(config.file) && old(db.ops) <= db.ops
      ensures r != Rejected
      ensures r == Errored <==>
        db.faulty(old(db.ops)) || id !in old(db.rows) || !old(CanRemove(db.rows[id].baseURL))
      ensures r == Errored ==> config.file == old(config.file) && db.rows == old(db.rows)
      ensures r != Errored ==>
        ConfigEdits.RemoveSite(old(config.file), old(db.rows[id].baseURL)) == Some(config.file)
        && FileUrls(config.file) == ConfigEdits.Without(old(FileUrls(config.file)), old(db.rows[id].baseURL))
      ensures r.Reloaded() ==> InStep(env, config.file, db.rows) && old(db.rows[id].baseURL) !in EnabledURLs(db.rows)
      ensures r.Reloaded() && old(Agree(env, config.file, db.rows)) ==> Agree(env, config.file, db.rows)
      // The row goes exactly if it is to be purged and everything went through.
      ensures r == Unfinished ==> purge
      ensures r != Errored ==> (id !in db.rows <==> purge && r == Accepted)
      ensures r != Errored && db.Smooth(old(db.ops)) && loads(config.file) ==> r == Accepted
    {
      r := Errored;
      var url := db.GetSite(id);
      if url.None? {
        return;
      }
      r := RemoveURL(url.value);
      if r == Accepted && purge {
        PurgeIsQuiet(db.rows, id);
        var ok := db.DeleteSite(id);
        r := if ok then Accepted else Unfinished;
      }
    }

    /** The part of remove_site between its lookup and the purge: edit, then reload. */
    method RemoveURL(url: string) returns (r: Outcome)
      requires db.Valid() && ProperFile(config.file) && url != ""
      modifies this, config, db
      ensures db.Valid() && ProperFile(config.file) && Keeps(old(db.rows), db.rows) && old(db.ops) <= db.ops
      ensures r == Errored || r == ReloadFailed || r == Accepted
      ensures r == Errored <==> !old(CanRemove(url))
      ensures r == Errored ==> config.file == old(config.file) && db.rows == old(db.rows)
      ensures r != Errored ==>
        ConfigEdits.RemoveSite(old(config.file), url) == Some(config.file)
        && FileUrls(config.file) == ConfigEdits.Without(old(FileUrls(config.file)), url)
      ensures r == Accepted ==> InStep(env, config.file, db.rows) && url !in EnabledURLs(db.rows)
      ensures r == Accepted && old(Agree(env, config.file, db.rows)) ==> Agree(env, config.file, db.rows)
      ensures r != Errored && db.Smooth(old(db.ops)) && loads(config.file) ==> r == Accepted
    {
      RemoveKeepsUniqueIf(config.file, url);
      WithoutKeeps(FileUrls(config.file), url);
      var wrote, found := config.RemoveSiteYAML(url);
      if !wrote {
        return Errored;
      }
      var ok := Reload();
      r := if ok then Accepted else ReloadFailed;
    }

    /** The set_config hook. */
    method SetConfig(key: string, value: string) returns (r: Outcome)
      requires db.Valid() && ProperFile(config.file)
      modifies this, config, db
      ensures db.Valid() && ProperFile(config.file) && old(db.ops) <= db.ops
      ensures r == Rejected <==> !Allowed(key)
      ensures r == Errored <==> Allowed(key) && (LoadRoot(old(config.file)).None? || !old(config.Writable()))
      ensures r == Rejected || r == Errored ==> config.file == old(config.file) && db.rows == old(db.rows)
      ensures r == ReloadFailed || r == Accepted ==>
        SetKey(old(config.file), key, value) == Some(config.file)
        && FileUrls(config.file) == old(FileUrls(config.file))
      ensures r != Unfinished && (r == Accepted ==> loads(config.file) && InStep(env, config.file, db.rows))
      ensures r == ReloadFailed && !loads(config.file) ==> db.rows == old(db.rows)
      ensures r == Accepted && old(Agree(env, config.file, db.rows)) ==> Agree(env, config.file, db.rows)
      ensures r != Rejected && r != Errored && db.Smooth(old(db.ops)) && loads(config.file) ==> r == Accepted
    {
      if !Allowed(key) {
        return Rejected;
      }
      HarmlessIf(config.file, key, value);
      var wrote := config.SetKeyYAML(key, value);
      if !wrote {
        return Errored;
      }
      var ok := Reload();
      r := if ok then Accepted else ReloadFailed;
    }

    /**
     An add whose reload failed, repeated. If the second call gets past its checks, it is turned away
     exactly if the first one got as far as enabling the row; otherwise the URL is listed twice. That is
     always so if what failed was the loading of the file.
     */
    method RetryAdd(req: SiteConfig) returns (first: Outcome, second: Outcome, between: Rows)
      requires db.Valid() && ProperFile(config.file) && Admitted(env, req.url)
      modifies this, config, db
      ensures db.Valid() && ProperFile(config.file) && Keeps(old(db.rows), between) && Keeps(between, db.rows)
      ensures first == ReloadFailed && second != Errored ==> (second == Rejected <==> req.url in EnabledURLs(between))
      ensures first == ReloadFailed && (second == Rejected || second == Errored) ==>
        FileUrls(config.file) == old(FileUrls(config.file)) + [req.url]
      ensures first == ReloadFailed && second != Errored && second != Rejected ==>
        FileUrls(config.file) == old(FileUrls(config.file)) + [req.url, req.url] && !NoRepeats(FileUrls(config.file))
      ensures first == ReloadFailed && second != Errored ==>
        !loads(ConfigEdits.AddSite(old(config.file), req).GetOr(Missing)) ==>
        between == old(db.rows) && second != Rejected
      ensures first != ReloadFailed ==> second == first && between == db.rows
    {
      var id;
      first, id := AddSite(req);
      second, between := first, db.rows;
      if first == ReloadFailed {
        ghost var once := FileUrls(config.file);
        second, id := AddSite(req);
        if second != Errored && second != Rejected {
          ListedTwice(old(FileUrls(config.file)), req.url);
          assert FileUrls(config.file) == once + [req.url];
        }
      }
    }

    /** No write ever fails, and no store call from here on. */
    ghost predicate Faultless()
      reads this, db`ops
    {
      (forall n :: db.ops <= n ==> !db.faulty(n)) && (forall n :: !config.failing(n))
    }

    /** A request that passes the checks of add_site and whose edit can be made. */
    ghost predicate Addable(req: SiteConfig)
      reads this, config, db
    {
      && ProperFile(config.file) && ConfigEdits.AddSite(config.file, req).Some?
      && Admitted(env, req.url) && req.url !in EnabledURLs(db.rows)
    }

    /** An add that passes its checks when nothing fails but, perhaps, the load. */
    method AddFaultless(req: SiteConfig) returns (r: Outcome)
      requires db.Valid() && Faultless() && Addable(req)
      modifies this, config, db
      ensures db.Valid() && ProperFile(config.file) && Faultless()
      ensures r == if loads(config.file) then Accepted else ReloadFailed
      ensures config.file == ConfigEdits.AddSite(old(config.file), req).value
      ensures FileUrls(config.file) == old(FileUrls(config.file)) + [req.url]
      ensures if r == Accepted then InStep(env, config.file, db.rows) else db.rows == old(db.rows)
    {
      var id;
      r, id := AddSite(req);
    }

    /** An add whose reload meets the one fault there is, at its first store call. */
    method AddInterrupted(req: SiteConfig) returns (r: Outcome)
      requires db.Valid() && Addable(req) && loads(ConfigEdits.AddSite(config.file, req).value)
      requires (forall n :: db.ops <= n ==> (db.faulty(n) <==> n == db.ops + 1)) && (forall n :: !config.failing(n))
      modifies this, config, db
      ensures db.Valid() && ProperFile(config.file) && Faultless()
      ensures r == ReloadFailed && db.rows == old(db.rows)
      ensures config.file == ConfigEdits.AddSite(old(config.file), req).value
      ensures FileUrls(config.file) == old(FileUrls(config.file)) + [req.url]
    {
      var id;
      r, id := AddSite(req);
    }

    /** A file that does not load, with the site once or twice: every add fails, and every add lists it again. */
    method RetryDuplicates(req: SiteConfig) returns (first: Outcome, second: Outcome)
      requires db.Valid() && Faultless() && Addable(req)
      requires !loads(ConfigEdits.AddSite(config.file, req).value) && !loads(Twice(config.file, req))
      modifies this, config, db
      ensures db.Valid() && first == ReloadFailed && second == ReloadFailed && db.rows == old(db.rows)
      ensures config.file == Twice(old(config.file), req)
      ensures FileUrls(config.file) == old(FileUrls(config.file)) + [req.url, req.url]
    {
      SecondAdd(config.file, req);
      first := AddFaultless(req);
      second := AddFaultless(req);
      ListedTwice(old(FileUrls(config.file)), req.url);
    }

    /** A file that loads, and a store that fails once, at the reload's first call: the second add is accepted. */
    method RetryAccepted(req: SiteConfig) returns (first: Outcome, second: Outcome)
      requires db.Valid() && Addable(req)
      requires (forall n :: db.ops <= n ==> (db.faulty(n) <==> n == db.ops + 1)) && (forall n :: !config.failing(n))
      requires loads(ConfigEdits.AddSite(config.file, req).value) && loads(Twice(config.file, req))
      modifies this, config, db
      ensures db.Valid() && first == ReloadFailed && second == Accepted && InStep(env, config.file, db.rows)
      ensures config.file == Twice(old(config.file), req)
      ensures FileUrls(config.file) == old(FileUrls(config.file)) + [req.url, req.url]
    {
      SecondAdd(config.file, req);
      first := AddInterrupted(req);
      second := AddFaultless(req);
      ListedTwice(old(FileUrls(config.file)), req.url);
    }

    method Handle(req: Request) returns (r: Outcome)
      requires db.Valid() && Agree(env, config.file, db.rows)
      modifies this, config, db
      ensures db.Valid() && (r != ReloadFailed ==> Agree(env, config.file, db.rows))
    {
      match req
      case Add(site) =>
        var id;
        r, id := AddSite(site);
      case Remove(id, purge) =>
        r := RemoveSite(id, purge);
      case Set(key, value) =>
        r := SetConfig(key, value);
    }

    /** Any run of requests in lock order, up to the first failed reload: file and table agree after each. */
    method Serve(requests: seq<Request>) returns (served: nat)
      requires db.Valid() && Agree(env, config.file, db.rows)
      modifies this, config, db
      ensures db.Valid() && served <= |requests|
      ensures served == |requests| ==> Agree(env, config.file, db.rows)
    {
      served := 0;
      while served < |requests|
        invariant served <= |requests| && db.Valid() && Agree(env, config.file, db.rows)
      {
        var r := Handle(requests[served]);
        if r == ReloadFailed {
          return;
        }
        served := served + 1;
      }
    }
  }
}
