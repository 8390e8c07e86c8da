/**
 The per-site Search Console block: what internal/config/gsc.go accepts, and that
 SetSiteGSCYAML (internal/config/mutate.go) always leaves exactly the block it was given.
 */
module SearchConsole {
  import opened Prelude
  import opened YamlTree
  import opened ConfigEdits

  datatype GSC = GSC(property: string, auth: string, keyFile: string, tokenFile: string)

  predicate IsConfigured(g: GSC) {
    g.property != "" || g.auth != "" || g.keyFile != "" || g.tokenFile != ""
  }

  /** validateGSCProperty; whether the rest parses as an http or https URL with a host is a parameter. */
  predicate PropertyOk(property: string, isWebUrl: string -> bool) {
    var domain := "sc-domain:";
    if property == "" then false
    else if domain <= property then
      var rest := property[|domain|..];
      rest != "" && forall c :: c in rest ==> c !in {'/', ' ', '\t'}
    else isWebUrl(property)
  }

  predicate Valid(g: GSC, isWebUrl: string -> bool) {
    && PropertyOk(g.property, isWebUrl)
    && (if g.auth == "service_account" then g.keyFile != "" && g.tokenFile == ""
        else g.auth == "oauth2" && g.tokenFile != "" && g.keyFile == "")
  }

  /** ValidateGSC on one site's block: an absent block is fine. */
  predicate Acceptable(g: GSC, isWebUrl: string -> bool) {
    IsConfigured(g) ==> Valid(g, isWebUrl)
  }

  /** The block as the loader reads it. */
  function ReadBlock(b: Y): GSC {
    GSC(Text(b, "property"), Text(b, "auth"), Text(b, "service_account_key_file"), Text(b, "oauth_token_file"))
  }

  function SiteBlock(item: Y): GSC {
    match MapValue(item, "gsc")
    case None => GSC("", "", "", "")
    case Some(b) => ReadBlock(b)
  }

  function SetOrDelete(m: Y, key: string, value: string): Y {
    if value != "" then SetMapValue(m, key, Str(value)) else DeleteMapKey(m, key)
  }

  function WriteBlock(b: Y, g: GSC): Y {
    var b1 := SetMapValue(SetMapValue(b, "property", Str(g.property)), "auth", Str(g.auth));
    SetOrDelete(SetOrDelete(b1, "service_account_key_file", g.keyFile), "oauth_token_file", g.tokenFile)
  }

  function WriteSite(item: Y, g: GSC): Y {
    SetMapValue(item, "gsc", WriteBlock(Step(item, "gsc"), g))
  }

  function FirstUrl(items: seq<Y>, url: string): (i: nat)
    ensures i <= |items| && (i < |items| ==> HasUrl(items[i], url)) && forall j :: 0 <= j < i ==> !HasUrl(items[j], url)
  {
    if items == [] || HasUrl(items[0], url) then 0 else 1 + FirstUrl(items[1..], url)
  }

  /** The first site with the URL gets the edit; the walk stops there. */
  function WriteItems(items: seq<Y>, url: string, g: GSC): seq<Y> {
    var i := FirstUrl(items, url);
    if i < |items| then items[i := WriteSite(items[i], g)] else items
  }

  function WriteRoot(root: Y, url: string, g: GSC): Y
    requires SiteListed(root, url)
  {
    var list := MapValue(root, "sites").value;
    SetMapValue(root, "sites", list.(content := WriteItems(list.content, url, g)))
  }

  /** SetSiteGSCYAML: None is an error; without such a site the file stays as it is. */
  function SetSiteGSC(f: File, url: string, g: GSC): Option<File> {
    match LoadRoot(f)
    case None => None
    case Some(root) => if f != Missing && SiteListed(root, url) then Some(Document(WriteRoot(root, url, g)))
                       else Some(f)
  }

  // ---------- The block ----------

  lemma SetOrDeleteReads(m: Y, key: string, value: string, other: string)
    requires Proper(m) && m.kind == MappingNode
    ensures var r := SetOrDelete(m, key, value);
      && Proper(r) && r.kind == MappingNode
      && MapValue(r, key) == (if value != "" then Some(Str(value)) else None)
      && (other != key ==> MapValue(r, other) == MapValue(m, other))
  {
    if value != "" {
      SetGet(m, key, Str(value), key);
      SetGet(m, key, Str(value), other);
      SetKeepsProper(m, key, Str(value));
    } else {
      DeleteGet(m, key, key);
      DeleteGet(m, key, other);
      DeleteKeepsProper(m, key);
    }
  }

  predicate OwnKey(key: string) {
    key in {"property", "auth", "service_account_key_file", "oauth_token_file"}
  }

  predicate Carries(b: Y, g: GSC) {
    && MapValue(b, "property") == Some(Str(g.property)) && MapValue(b, "auth") == Some(Str(g.auth))
    && MapValue(b, "service_account_key_file") == (if g.keyFile != "" then Some(Str(g.keyFile)) else None)
    && MapValue(b, "oauth_token_file") == (if g.tokenFile != "" then Some(Str(g.tokenFile)) else None)
  }

  /** Whatever was in the block before, it reads as given; its other keys are untouched. */
  lemma BlockReadsBack(b: Y, g: GSC, other: string)
    requires Proper(b) && b.kind == MappingNode
    ensures Proper(WriteBlock(b, g)) && WriteBlock(b, g).kind == MappingNode
    ensures Carries(WriteBlock(b, g), g) && ReadBlock(WriteBlock(b, g)) == g
    ensures !OwnKey(other) ==> MapValue(WriteBlock(b, g), other) == MapValue(b, other)
  {
    var b1 := SetMapValue(b, "property", Str(g.property));
    var b2 := SetMapValue(b1, "auth", Str(g.auth));
    var b3 := SetOrDelete(b2, "service_account_key_file", g.keyFile);
    SetReadsNode(b, "property", Str(g.property), other);
    SetReadsNode(b1, "auth", Str(g.auth), other);
    SetReadsNode(b1, "auth", Str(g.auth), "property");
    SetOrDeleteReads(b2, "service_account_key_file", g.keyFile, other);
    SetOrDeleteReads(b2, "service_account_key_file", g.keyFile, "property");
    SetOrDeleteReads(b2, "service_account_key_file", g.keyFile, "auth");
    SetOrDeleteReads(b3, "oauth_token_file", g.tokenFile, other);
    SetOrDeleteReads(b3, "oauth_token_file", g.tokenFile, "property");
    SetOrDeleteReads(b3, "oauth_token_file", g.tokenFile, "auth");
    SetOrDeleteReads(b3, "oauth_token_file", g.tokenFile, "service_account_key_file");
  }

  /** A block that reads as given, key by key, is a fixed point. */
  lemma WriteIsFixed(b: Y, g: GSC)
    requires Carries(b, g)
    ensures WriteBlock(b, g) == b
  {
    GetSet(b, "property", Str(g.property));
    GetSet(b, "auth", Str(g.auth));
    if g.keyFile != "" {
      GetSet(b, "service_account_key_file", Str(g.keyFile));
    }
    if g.tokenFile != "" {
      GetSet(b, "oauth_token_file", Str(g.tokenFile));
    }
  }

  // ---------- The site and the file ----------

  lemma SiteReadsBack(item: Y, g: GSC)
    requires Proper(item) && item.kind == MappingNode
    ensures var w := WriteSite(item, g);
      && Proper(w) && w.kind == MappingNode
      && SiteBlock(w) == g
      && MapValue(w, "url") == MapValue(item, "url")
      && WriteSite(w, g) == w
  {
    var b := Step(item, "gsc");
    ProperChild(item, "gsc");
    BlockReadsBack(b, g, "");
    var block := WriteBlock(b, g);
    SetReadsNode(item, "gsc", block, "url");
    WriteIsFixed(block, g);
    GetSet(WriteSite(item, g), "gsc", block);
  }

  lemma SetReadsNode(m: Y, key: string, v: Y, other: string)
    requires Proper(m) && m.kind == MappingNode && Proper(v)
    ensures var r := SetMapValue(m, key, v);
      && Proper(r) && r.kind == MappingNode
      && MapValue(r, key) == Some(v)
      && (other != key ==> MapValue(r, other) == MapValue(m, other))
  {
    SetGet(m, key, v, key);
    SetGet(m, key, v, other);
    SetKeepsProper(m, key, v);
  }

  /** The sites of a document, as nodes. */
  function Sites(root: Y): seq<Y> {
    match MapValue(root, "sites")
    case Some(list) => if list.kind == SequenceNode then list.content else []
    case None => []
  }

  /** The block GSCForBaseURL finds: that of the first site with the URL. */
  function BlockFor(items: seq<Y>, url: string): GSC {
    var i := FirstUrl(items, url);
    if i < |items| then SiteBlock(items[i]) else GSC("", "", "", "")
  }

  predicate AllProper(items: seq<Y>) {
    forall i :: 0 <= i < |items| ==> Proper(items[i])
  }

  predicate SameUrl(y: Y, z: Y) {
    y.kind == z.kind == MappingNode && MapValue(y, "url") == MapValue(z, "url")
  }

  /** Rewriting one entry without touching its URL. */
  lemma {:induction false} SameFirst(items: seq<Y>, i: nat, y: Y, url: string)
    requires i < |items| && SameUrl(items[i], y)
    ensures FirstUrl(items[i := y], url) == FirstUrl(items, url)
    ensures UrlsOf(items[i := y]) == UrlsOf(items)
  {
    assert HasUrl(items[i], url) == HasUrl(y, url) && UrlOf(items[i]) == UrlOf(y);
    if i > 0 && !HasUrl(items[0], url) {
      SameFirst(items[1..], i - 1, y, url);
      assert items[i := y][1..] == items[1..][i - 1 := y];
    } else if i == 0 {
      assert items[i := y][1..] == items[1..];
    }
  }

  lemma WriteItemsReads(items: seq<Y>, url: string, g: GSC, otherUrl: string)
    requires AllProper(items) && FirstUrl(items, url) < |items|
    ensures var after := WriteItems(items, url, g);
      && AllProper(after)
      && FirstUrl(after, url) == FirstUrl(items, url)
      && BlockFor(after, url) == g
      && (otherUrl != url ==> BlockFor(after, otherUrl) == BlockFor(items, otherUrl))
      && UrlsOf(after) == UrlsOf(items)
      && WriteItems(after, url, g) == after
  {
    var i := FirstUrl(items, url);
    SiteReadsBack(items[i], g);
    SameFirst(items, i, WriteSite(items[i], g), url);
    SameFirst(items, i, WriteSite(items[i], g), otherUrl);
  }

  lemma ListedHasFirst(root: Y, url: string)
    ensures SiteListed(root, url) <==> FirstUrl(Sites(root), url) < |Sites(root)|
  {
    var i := FirstUrl(Sites(root), url);
    if i < |Sites(root)| {
      assert Sites(root)[i] in Sites(root);
    }
  }

  lemma SitesAreProper(root: Y)
    requires Proper(root)
    ensures AllProper(Sites(root))
  {
    ProperChild(root, "sites");
  }

  lemma SitesWritten(root: Y, url: string, g: GSC, other: string)
    requires Proper(root) && root.kind == MappingNode && SiteListed(root, url)
    ensures var r := WriteRoot(root, url, g);
      && Proper(r) && r.kind == MappingNode
      && Sites(r) == WriteItems(Sites(root), url, g) && SiteUrls(r) == UrlsOf(Sites(r))
      && MapValue(r, "sites") == Some(MapValue(root, "sites").value.(content := Sites(r)))
      && (other != "sites" ==> MapValue(r, other) == MapValue(root, other))
  {
    ListedHasFirst(root, url);
    ProperChild(root, "sites");
    var list := MapValue(root, "sites").value;
    WriteItemsReads(list.content, url, g, url);
    SetReadsNode(root, "sites", list.(content := WriteItems(list.content, url, g)), other);
  }

  lemma WrittenTwice(root: Y, url: string, g: GSC)
    requires Proper(root) && root.kind == MappingNode && SiteListed(root, url)
    ensures SiteListed(WriteRoot(root, url, g), url)
    ensures WriteRoot(WriteRoot(root, url, g), url, g) == WriteRoot(root, url, g)
  {
    var r := WriteRoot(root, url, g);
    SitesWritten(root, url, g, "sites");
    ListedHasFirst(root, url);
    SitesAreProper(root);
    WriteItemsReads(Sites(root), url, g, url);
    ListedHasFirst(r, url);
    GetSet(r, "sites", MapValue(r, "sites").value);
  }

  /**
   The block of the named site reads exactly as given, whatever was there; no other site's block,
   no URL and no other key changes; writing it again changes nothing.
   */
  lemma GSCReadsBack(f: File, url: string, g: GSC, otherUrl: string, otherKey: string)
    requires ProperFile(f) && LoadRoot(f).Some? && f != Missing && SiteListed(LoadRoot(f).value, url)
    ensures SetSiteGSC(f, url, g).Some?
    ensures var h := SetSiteGSC(f, url, g).value;
      && ProperFile(h) && LoadRoot(h).Some?
      && var before, after := LoadRoot(f).value, LoadRoot(h).value;
      && BlockFor(Sites(after), url) == g
      && (otherUrl != url ==> BlockFor(Sites(after), otherUrl) == BlockFor(Sites(before), otherUrl))
      && FileUrls(h) == FileUrls(f)
      && (otherKey != "sites" ==> MapValue(after, otherKey) == MapValue(before, otherKey))
      && SetSiteGSC(h, url, g) == Some(h)
  {
    LoadedIsProper(f);
    var root := LoadRoot(f).value;
    SitesWritten(root, url, g, otherKey);
    WrittenTwice(root, url, g);
    ListedHasFirst(root, url);
    SitesAreProper(root);
    WriteItemsReads(Sites(root), url, g, otherUrl);
  }

  /** A valid block makes the configuration pass, provided the other entries do - even if this one did not. */
  lemma GSCValidates(items: seq<Y>, url: string, g: GSC, isWebUrl: string -> bool, i: nat)
    requires AllProper(items) && Valid(g, isWebUrl) && i < |items|
    requires i != FirstUrl(items, url) ==> Acceptable(SiteBlock(items[i]), isWebUrl)
    ensures Acceptable(SiteBlock(WriteItems(items, url, g)[i]), isWebUrl)
  {
    if i == FirstUrl(items, url) {
      SiteReadsBack(items[i], g);
    }
  }

  // ---------- What is accepted ----------

  /** An absent block, or a good property with the one credential file its mode needs and not the other. */
  lemma GSCAccepts(g: GSC, isWebUrl: string -> bool)
    ensures Acceptable(g, isWebUrl) <==>
      || g == GSC("", "", "", "")
      || (PropertyOk(g.property, isWebUrl) && g.auth == "service_account" && g.keyFile != "" && g.tokenFile == "")
      || (PropertyOk(g.property, isWebUrl) && g.auth == "oauth2" && g.tokenFile != "" && g.keyFile == "")
  {
    ModesDiffer();
  }

  lemma ModesDiffer()
    ensures "service_account" != "oauth2" && "service_account" != "" && "oauth2" != ""
  {
    assert "service_account"[0] == 's' && "oauth2"[0] == 'o';
  }

  /** A domain property is a non-empty rest without slash, blank or tab; any other has to be a web address. */
  lemma PropertyForms(rest: string, property: string, isWebUrl: string -> bool)
    ensures PropertyOk("sc-domain:" + rest, isWebUrl) <==> rest != "" && '/' !in rest && ' ' !in rest && '\t' !in rest
    ensures !("sc-domain:" <= property) ==> (PropertyOk(property, isWebUrl) <==> property != "" && isWebUrl(property))
  {
    var domain := "sc-domain:";
    assert (domain + rest)[|domain|..] == rest && domain <= domain + rest;
  }
}
