/**
 The config.yaml writers of internal/config/mutate.go as the source runs them: parse the file into
 a node tree, walk it, update nodes in place, write the tree back. Each is proved to compute the
 edit that ConfigEdits, SetupWriters, Routes or SearchConsole defines on the document.
 */
module ConfigWriters {
  import opened Prelude
  import opened YamlTree
  import opened YamlHeap
  import opened ConfigEdits
  import opened SetupWriters
  import opened Routes
  import opened SearchConsole
  import opened TreeEdits
  import opened SetupEdits

  /** The file is there, loads, and lists the URL. */
  predicate HasSite(f: File, url: string) {
    f != Missing && LoadRoot(f).Some? && SiteListed(LoadRoot(f).value, url)
  }

  method BuildSite(site: SiteConfig) returns (n: Node, ghost s: Snap)
    ensures n == s.node && Holds(s) && fresh(s.repr) && Doc(s) == SiteNode(site)
  {
    n, s := BuildFields(SiteFields(site));
  }

  /** The body of AddSiteYAML. */
  method AddSiteTo(root: Node, site: SiteConfig, ghost s: Snap) returns (ok: bool, ghost whole: Snap)
    requires root == s.node && Holds(s) && root.kind == MappingNode
    modifies s.repr
    ensures ok == AddSiteRoot(Doc(s), site).Some?
    ensures ok ==> Holds(whole) && whole.node == root && AddSiteRoot(Doc(s), site) == Some(Doc(whole))
  {
    ok, whole := false, s;
    var list, p, ls := EnsureList(root, "sites", s);
    if list == null {
      return;
    }
    var item, ks := BuildSite(site);
    whole := AppendItem(list, item, p, ls, ks);
    ok := true;
  }

  /** The body of RemoveSiteYAML: the matching entries go, if there are any. */
  method RemoveSiteTo(root: Node, url: string, ghost s: Snap) returns (found: bool, ghost whole: Snap)
    requires root == s.node && Holds(s)
    modifies s.repr
    ensures found == SiteListed(Doc(s), url)
    ensures found ==> Holds(whole) && whole.node == root && Doc(whole) == RemoveSiteRoot(Doc(s), url)
  {
    found, whole := false, s;
    var list, p, ls := FindList(root, "sites", s);
    if list == null {
      return;
    }
    var any, kept, kids := Sift(list, url, ls);
    found := any;
    SiftedRoot(Doc(s), Doc(ls), Docs(kids), url, found);
    if found {
      whole := SetContent(list, kept, p, ls, kids);
    }
  }

  /** The file on disk; its n-th write fails, leaving it as it was, exactly if failing(n). */
  class ConfigFile {
    const failing: nat -> bool
    var writes: nat
    var file: File

    constructor (file: File, failing: nat -> bool)
      ensures this.file == file && this.failing == failing && writes == 0
    {
      this.file, this.failing, writes := file, failing, 0;
    }

    /** Whether the next write goes through. */
    predicate Writable()
      reads this`writes
    {
      !failing(writes)
    }

    /** Marshal and replace the file; the replacement is atomic. */
    method WriteDocRoot(root: Node, ghost s: Snap) returns (ok: bool)
      requires root == s.node && Holds(s)
      modifies this
      ensures ok == old(Writable())
      ensures file == if ok then Document(Doc(s)) else old(file)
    {
      var y := Render(root, s);
      ok := Writable();
      writes := writes + 1;
      if ok {
        file := Document(y);
      }
    }

    /** SetKeyYAML. */
    method SetKeyYAML(key: string, value: string) returns (ok: bool)
      modifies this
      ensures ok == (SetKey(old(file), key, value).Some? && old(Writable()))
      ensures file == if ok then SetKey(old(file), key, value).value else old(file)
    {
      var parts := SplitDotted(key);
      if |parts| == 0 {
        return false;
      }
      var root, missing, s := LoadDocRoot(file);
      if root == null {
        return false;
      }
      var cur, p, cs := Walk(root, parts, s, InferScalar(value));
      ghost var whole := SetLeaf(cur, parts[|parts| - 1], InferScalar(value), p, cs);
      ok := WriteDocRoot(root, whole);
    }

    /** AddSiteYAML. */
    method AddSiteYAML(site: SiteConfig) returns (ok: bool)
      modifies this
      ensures ok == (AddSite(old(file), site).Some? && old(Writable()))
      ensures file == if ok then AddSite(old(file), site).value else old(file)
    {
      var root, missing, s := LoadDocRoot(file);
      if root == null {
        return false;
      }
      ghost var whole;
      ok, whole := AddSiteTo(root, site, s);
      if ok {
        ok := WriteDocRoot(root, whole);
      }
    }

    /** RemoveSiteYAML: the file is rewritten only if an entry matched. */
    method RemoveSiteYAML(url: string) returns (ok: bool, found: bool)
      modifies this
      ensures ok == (RemoveSite(old(file), url).Some? && (HasSite(old(file), url) ==> old(Writable())))
      ensures found == (ok && HasSite(old(file), url)) && (!found ==> file == old(file))
      ensures file == if ok then RemoveSite(old(file), url).value else old(file)
    {
      ok, found := true, false;
      var root, missing, s := LoadDocRoot(file);
      if root == null {
        return false, false;
      }
      if missing {
        return;
      }
      ghost var whole;
      found, whole := RemoveSiteTo(root, url, s);
      if found {
        ok := WriteDocRoot(root, whole);
        found := ok;
      }
    }

    /** AddNotifierYAML. */
    method AddNotifierYAML(n: Notifier) returns (ok: bool)
      modifies this
      ensures ok == (AddNotifier(old(file), n).Some? && old(Writable()))
      ensures ok ==> AddNotifier(old(file), n) == Some(file)
      ensures !ok ==> file == old(file)
    {
      var root, missing, s := LoadDocRoot(file);
      if root == null {
        return false;
      }
      ghost var whole;
      ok, whole := AddNotifierTo(root, n, s);
      if ok {
        ok := WriteDocRoot(root, whole);
      }
    }

    /** AddRouteYAML. */
    method AddRouteYAML(r: Route) returns (ok: bool)
      modifies this
      ensures ok == (AddRoute(old(file), r).Some? && old(Writable()))
      ensures ok ==> AddRoute(old(file), r) == Some(file)
      ensures !ok ==> file == old(file)
    {
      var root, missing, s := LoadDocRoot(file);
      if root == null {
        return false;
      }
      ghost var whole;
      ok, whole := AddRouteTo(root, r, s);
      if ok {
        ok := WriteDocRoot(root, whole);
      }
    }

    /** SetSiteGSCYAML. */
    method SetSiteGSCYAML(url: string, g: GSC) returns (ok: bool, found: bool)
      modifies this
      ensures ok == (LoadRoot(old(file)).Some? && (HasSite(old(file), url) ==> old(Writable())))
      ensures found == (ok && HasSite(old(file), url))
      ensures file == if found then Document(WriteRoot(LoadRoot(old(file)).value, url, g)) else old(file)
      ensures ok ==> SetSiteGSC(old(file), url, g) == Some(file)
    {
      ok, found := true, false;
      var root, missing, s := LoadDocRoot(file);
      if root == null {
        return false, false;
      }
      if missing {
        return;
      }
      ghost var whole;
      found, whole := SetGSCTo(root, url, g, s);
      if found {
        ok := WriteDocRoot(root, whole);
        found := ok;
      }
    }
  }
}
