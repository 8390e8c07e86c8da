/**
 The setup writers on the node tree (internal/config/mutate.go): each builds its block, looks for
 the entry to replace, and replaces it in place or appends.
 */
module SetupEdits {
  import opened Prelude
  import opened Decimal
  import opened SortedKeys
  import opened YamlTree
  import opened YamlHeap
  import opened ConfigEdits
  import opened SetupWriters
  import opened Routes
  import opened SearchConsole
  import opened TreeEdits

  function PutAt(docs: seq<Y>, i: nat, node: Y): seq<Y> {
    if i < |docs| then docs[i := node] else docs + [node]
  }

  lemma PutAtFirst(d: Y, key: string, list: Y, named: bool, same: Y -> bool, node: Y)
    requires ListUnder(d, key) == Some(list)
    ensures var i := if named then FirstWhere(list.content, same) else |list.content|;
      UpsertRoot(d, key, named, same, node) == Some(SetMapValue(d, key, list.(content := PutAt(list.content, i, node))))
  {}

  /** Putting an entry into a slot of a list, or after its end, seen from the root. */
  method PutItem(list: Node, i: nat, item: Node, ghost p: Place, ghost ls: Snap, ghost ks: Snap)
    returns (ghost whole: Snap)
    requires Fits(p) && StandsAt(p, ls, list) && i <= |ls.kids|
    requires item == ks.node && Holds(ks) && Reach(p, ls) !! ks.repr
    modifies list`content
    ensures Holds(whole) && whole.node == RootOf(p, list)
    ensures Doc(whole) == PlugDoc(p, Doc(ls).(content := PutAt(Docs(ls.kids), i, Doc(ks))))
  {
    if i < |list.content| {
      ghost var after := ReplaceKid(list, i, item, ls, ks);
      assert Hangs(p, list);
      PlugHolds(p, after);
      whole := Plug(p, after);
    } else {
      whole := AppendItem(list, item, p, ls, ks);
    }
  }

  /** The end of an upsert: the entry goes where the search ended. */
  method FinishUpsert(list: Node, i: nat, item: Node, ghost d: Y, ghost key: string, ghost named: bool,
                      ghost same: Y -> bool, ghost p: Place, ghost ls: Snap, ghost ks: Snap)
    returns (ghost whole: Snap)
    requires Fits(p) && StandsAt(p, ls, list) && IsSlot(p, d, key) && ListUnder(d, key) == Some(Doc(ls))
    requires item == ks.node && Holds(ks) && Reach(p, ls) !! ks.repr
    requires i == if named then FirstWhere(Docs(ls.kids), same) else |ls.kids|
    modifies list`content
    ensures Holds(whole) && whole.node == RootOf(p, list)
    ensures UpsertRoot(d, key, named, same, Doc(ks)) == Some(Doc(whole))
  {
    PutAtFirst(d, key, Doc(ls), named, same, Doc(ks));
    whole := PutItem(list, i, item, p, ls, ks);
  }

  method RenderedMap(m: map<string, string>) returns (y: Y)
    ensures y == RenderMap(m)
  {
    var keys := SortKeys(m.Keys);
    SortedIsUnique(keys, InOrder(m.Keys));
    assert forall k :: k in keys ==> k in Elements(keys);
    y := WithFields(EMPTY_MAPPING, MapFields(m, keys));
  }

  // ---------- AddNotifierYAML ----------

  method BuildNotifier(n: Notifier) returns (node: Node, ghost s: Snap)
    ensures node == s.node && Holds(s) && fresh(s.repr) && Doc(s) == NotifierNode(n)
  {
    var headers := RenderedMap(n.headers);
    var fields := [
      StrField("name", n.name), StrField("type", n.sort), StrField("url", n.url), StrField("smtp_host", n.smtpHost),
      Field(n.smtpPort > 0, "smtp_port", Scalar("!!int", Itoa(n.smtpPort))), StrField("username", n.username),
      StrField("password", n.password), StrField("from", n.from), Field(n.to != [], "to", StrList(n.to)),
      Field(n.allowPlaintext, "allow_plaintext", Scalar("!!bool", "true")),
      Field(n.headers != map[], "headers", headers)];
    node, s := BuildFields(fields);
  }

  /** The search loop: the index of the first entry with the name, or the end. */
  method FirstNamed(list: Node, name: string, ghost ls: Snap) returns (i: nat)
    requires list == ls.node && Holds(ls)
    ensures i == FirstWhere(Docs(ls.kids), SameName(name))
  {
    i := 0;
    while i < |list.content|
      invariant i <= |ls.kids| && forall j :: 0 <= j < i ==> !HasText(Docs(ls.kids)[j], "name", name)
    {
      var same := NodeHasText(list.content[i], "name", name, ls.kids[i]);
      if same {
        break;
      }
      i := i + 1;
    }
    FirstIs(Docs(ls.kids), SameName(name), i);
  }

  /** Where the notifier goes in the list. */
  method NotifierSlot(list: Node, n: Notifier, ghost ls: Snap) returns (i: nat)
    requires list == ls.node && Holds(ls)
    ensures i == if n.name != "" then FirstWhere(Docs(ls.kids), SameName(n.name)) else |ls.kids|
  {
    i := |list.content|;
    if n.name != "" {
      i := FirstNamed(list, n.name, ls);
    }
  }

  ghost function NotifierRoot(d: Y, n: Notifier): Option<Y> {
    UpsertRoot(d, "notifiers", n.name != "", SameName(n.name), NotifierNode(n))
  }

  /** Replacing or appending once the list is there. */
  method PlaceNotifier(list: Node, n: Notifier, ghost d: Y, ghost p: Place, ghost ls: Snap) returns (ghost whole: Snap)
    requires Fits(p) && StandsAt(p, ls, list) && IsSlot(p, d, "notifiers") && ListUnder(d, "notifiers") == Some(Doc(ls))
    modifies list`content
    ensures Holds(whole) && whole.node == RootOf(p, list) && NotifierRoot(d, n) == Some(Doc(whole))
  {
    var item, ks := BuildNotifier(n);
    assert StandsAt(p, ls, list);
    var i := NotifierSlot(list, n, ls);
    whole := FinishUpsert(list, i, item, d, "notifiers", n.name != "", SameName(n.name), p, ls, ks);
  }

  method AddNotifierTo(root: Node, n: Notifier, ghost s: Snap) returns (ok: bool, ghost whole: Snap)
    requires root == s.node && Holds(s) && root.kind == MappingNode
    modifies s.repr
    ensures ok == NotifierRoot(Doc(s), n).Some?
    ensures ok ==> Holds(whole) && whole.node == root && NotifierRoot(Doc(s), n) == Some(Doc(whole))
  {
    ok, whole := false, s;
    var list, p, ls := EnsureList(root, "notifiers", s);
    if list != null {
      ok := true;
      whole := PlaceNotifier(list, n, Doc(s), p, ls);
    }
  }

  // ---------- AddRouteYAML ----------

  method BuildRoute(r: Route) returns (node: Node, ghost s: Snap)
    ensures node == s.node && Holds(s) && fresh(s.repr) && Doc(s) == RouteNode(r)
  {
    var criteria := RenderedMap(r.criteria);
    node, s := BuildFields([Field(r.criteria != map[], "match", criteria), StrField("notifier", r.notifier)]);
  }

  lemma MergeOne(got: map<string, string>, k: string, v: string, rest: map<string, string>)
    ensures got + (map[k := v] + rest) == got[k := v] + rest
  {}

  /** What has been read and what is left make up the whole map. */
  ghost predicate Gathered(docs: seq<Y>, got: map<string, string>, i: nat) {
    i <= |docs| && got + ReadPairs(docs[i..]) == ReadPairs(docs)
  }

  lemma GatherOne(docs: seq<Y>, got: map<string, string>, i: nat)
    requires i + 1 < |docs| && Gathered(docs, got, i)
    ensures Gathered(docs, got[docs[i].value := docs[i + 1].value], i + 2)
  {
    assert docs[i..][2..] == docs[i + 2..];
    MergeOne(got, docs[i].value, docs[i + 1].value, ReadPairs(docs[i + 2..]));
  }

  /** The first loop of matchEquals: the map a match node stands for. */
  method PairsOf(node: Node, ghost ks: Snap) returns (got: map<string, string>)
    requires node == ks.node && Holds(ks)
    ensures got == ReadPairs(Docs(ks.kids))
  {
    got := map[];
    var i := 0;
    while i + 1 < |node.content|
      invariant Gathered(Docs(ks.kids), got, i)
    {
      GatherOne(Docs(ks.kids), got, i);
      KidValue(ks, i);
      KidValue(ks, i + 1);
      got := got[node.content[i].value := node.content[i + 1].value];
      i := i + 2;
    }
  }

  method MatchEqualsOf(node: Node?, want: map<string, string>, ghost ks: Snap) returns (b: bool)
    requires node != null ==> node == ks.node && Holds(ks)
    ensures b == MatchEquals(if node == null then None else Some(Doc(ks)), want)
  {
    if node == null || node.kind != MappingNode {
      return |want| == 0;
    }
    var got := PairsOf(node, ks);
    if |got| != |want| {
      return false;
    }
    b := AllEqual(got, want);
  }

  method IsSameRoute(item: Node, r: Route, ghost ks: Snap) returns (b: bool)
    requires item == ks.node && Holds(ks)
    ensures b == SameRoute(Doc(ks), r.notifier, r.criteria)
  {
    b := NodeHasText(item, "notifier", r.notifier, ks);
    if b {
      var node, i := MapValueOf(item, "match", ks);
      b := MatchEqualsOf(node, r.criteria, if node == null then ks else ks.kids[i]);
    }
  }

  method FirstRoute(list: Node, r: Route, ghost ls: Snap) returns (i: nat)
    requires list == ls.node && Holds(ls)
    ensures i == FirstWhere(Docs(ls.kids), SameRouteAs(r))
  {
    i := 0;
    while i < |list.content|
      invariant i <= |ls.kids| && forall j :: 0 <= j < i ==> !SameRoute(Docs(ls.kids)[j], r.notifier, r.criteria)
    {
      var same := IsSameRoute(list.content[i], r, ls.kids[i]);
      if same {
        break;
      }
      i := i + 1;
    }
    FirstIs(Docs(ls.kids), SameRouteAs(r), i);
  }

  method RouteSlot(list: Node, r: Route, ghost ls: Snap) returns (i: nat)
    requires list == ls.node && Holds(ls)
    ensures i == if r.notifier != "" then FirstWhere(Docs(ls.kids), SameRouteAs(r)) else |ls.kids|
  {
    i := |list.content|;
    if r.notifier != "" {
      i := FirstRoute(list, r, ls);
    }
  }

  ghost function RouteRoot(d: Y, r: Route): Option<Y> {
    UpsertRoot(d, "routes", r.notifier != "", SameRouteAs(r), RouteNode(r))
  }

  /** Replacing or appending once the list is there. */
  method PlaceRoute(list: Node, r: Route, ghost d: Y, ghost p: Place, ghost ls: Snap) returns (ghost whole: Snap)
    requires Fits(p) && StandsAt(p, ls, list) && IsSlot(p, d, "routes") && ListUnder(d, "routes") == Some(Doc(ls))
    modifies list`content
    ensures Holds(whole) && whole.node == RootOf(p, list) && RouteRoot(d, r) == Some(Doc(whole))
  {
    var item, ks := BuildRoute(r);
    assert StandsAt(p, ls, list);
    var i := RouteSlot(list, r, ls);
    whole := FinishUpsert(list, i, item, d, "routes", r.notifier != "", SameRouteAs(r), p, ls, ks);
  }

  method AddRouteTo(root: Node, r: Route, ghost s: Snap) returns (ok: bool, ghost whole: Snap)
    requires root == s.node && Holds(s) && root.kind == MappingNode
    modifies s.repr
    ensures ok == RouteRoot(Doc(s), r).Some?
    ensures ok ==> Holds(whole) && whole.node == root && RouteRoot(Doc(s), r) == Some(Doc(whole))
  {
    ok, whole := false, s;
    var list, p, ls := EnsureList(root, "routes", s);
    if list != null {
      ok := true;
      whole := PlaceRoute(list, r, Doc(s), p, ls);
    }
  }

  // ---------- SetSiteGSCYAML ----------

  method SetText(n: Node, key: string, text: string, ghost s: Snap) returns (ghost rs: Snap)
    requires n == s.node && Holds(s)
    modifies n`content
    ensures n == rs.node && Holds(rs) && fresh(rs.repr - s.repr) && Doc(rs) == SetMapValue(Doc(s), key, Str(text))
  {
    var v, vs := Build(Str(text));
    rs := SetMapValueOf(n, key, v, s, vs);
  }

  method SetOrDeleteText(n: Node, key: string, text: string, ghost s: Snap) returns (ghost rs: Snap)
    requires n == s.node && Holds(s)
    modifies n`content
    ensures n == rs.node && Holds(rs) && fresh(rs.repr - s.repr) && Doc(rs) == SetOrDelete(Doc(s), key, text)
  {
    if text != "" {
      rs := SetText(n, key, text, s);
    } else {
      var removed;
      removed, rs := DeleteMapKeyOf(n, key, s);
    }
  }

  method WriteBlockTo(n: Node, g: GSC, ghost s: Snap) returns (ghost rs: Snap)
    requires n == s.node && Holds(s)
    modifies n`content
    ensures n == rs.node && Holds(rs) && fresh(rs.repr - s.repr) && Doc(rs) == WriteBlock(Doc(s), g)
  {
    rs := SetText(n, "property", g.property, s);
    rs := SetText(n, "auth", g.auth, rs);
    rs := SetOrDeleteText(n, "service_account_key_file", g.keyFile, rs);
    rs := SetOrDeleteText(n, "oauth_token_file", g.tokenFile, rs);
  }

  /** The Search Console block of a site entry, made where there is none. */
  method EnsureBlock(item: Node, ghost ks: Snap) returns (block: Node, ghost r: Place, ghost bs: Snap)
    requires item == ks.node && Holds(ks)
    modifies item`content
    ensures Fits(r) && StandsAt(r, bs, block) && RootOf(r, block) == item && fresh(Reach(r, bs) - ks.repr)
    ensures IsSlot(r, Doc(ks), "gsc") && Doc(bs) == Step(Doc(ks), "gsc")
  {
    ghost var cs;
    block, cs := EnsureMapping(item, "gsc", ks);
    ghost var at := SlotFor(Docs(ks.kids), "gsc");
    Descend(Top, cs, at);
    SlotOf(Doc(ks), "gsc", Step(Doc(ks), "gsc"), cs);
    r, bs := Below(Top, cs, at), cs.kids[at];
  }

  /** The edit of one site entry. */
  method WriteSiteTo(item: Node, g: GSC, ghost ks: Snap) returns (ghost after: Snap)
    requires item == ks.node && Holds(ks)
    modifies ks.repr
    ensures after.node == item && Holds(after) && fresh(after.repr - ks.repr) && Doc(after) == WriteSite(Doc(ks), g)
  {
    var block, r, bs := EnsureBlock(item, ks);
    ghost var written := WriteBlockTo(block, g, bs);
    assert Hangs(r, block);
    PlugHolds(r, written);
    after := Plug(r, written);
  }

  method WriteSiteAt(item: Node, g: GSC, ghost q: Place, ghost ks: Snap) returns (ghost whole: Snap)
    requires Fits(q) && StandsAt(q, ks, item)
    modifies ks.repr
    ensures Holds(whole) && whole.node == RootOf(q, item) && Doc(whole) == PlugDoc(q, WriteSite(Doc(ks), g))
  {
    ghost var after := WriteSiteTo(item, g, ks);
    assert Hangs(q, item);
    PlugHolds(q, after);
    whole := Plug(q, after);
  }

  method FirstWithUrl(list: Node, url: string, ghost ls: Snap) returns (i: nat)
    requires list == ls.node && Holds(ls)
    ensures i == FirstUrl(Docs(ls.kids), url)
  {
    i := 0;
    while i < |list.content|
      invariant i <= |ls.kids| && forall j :: 0 <= j < i ==> !HasUrl(Docs(ls.kids)[j], url)
    {
      var same := NodeHasText(list.content[i], "url", url, ls.kids[i]);
      if same {
        break;
      }
      i := i + 1;
    }
  }

  method SetGSCTo(root: Node, url: string, g: GSC, ghost s: Snap) returns (found: bool, ghost whole: Snap)
    requires root == s.node && Holds(s)
    modifies s.repr
    ensures found == SiteListed(Doc(s), url)
    ensures found ==> Holds(whole) && whole.node == root && Doc(whole) == WriteRoot(Doc(s), url, g)
  {
    found, whole := false, s;
    ListedHasFirst(Doc(s), url);
    var list, p, ls := FindList(root, "sites", s);
    if list == null {
      return;
    }
    var i := FirstWithUrl(list, url, ls);
    if i == |list.content| {
      return;
    }
    found := true;
    Descend(p, ls, i);
    whole := WriteSiteAt(list.content[i], g, Below(p, ls, i), ls.kids[i]);
  }
}
