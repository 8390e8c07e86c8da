/**
 The config.yaml writers of internal/config/mutate.go as functions of the document, with the
 control-plane gate of internal/config/allowlist.go, and the laws they promise.
 */
module ConfigEdits {
  import opened Prelude
  import opened Decimal
  import opened YamlTree

  // ---------- Keys and scalars ----------

  predicate NoDot(s: string) {
    forall i :: 0 <= i < |s| ==> s[i] != '.'
  }

  /** The index of the next dot at or after i, or the end. */
  function DotFrom(key: string, i: nat): (j: nat)
    requires i <= |key|
    ensures i <= j <= |key| && (forall k :: i <= k < j ==> key[k] != '.') && (j < |key| ==> key[j] == '.')
    decreases |key| - i
  {
    if i == |key| || key[i] == '.' then i else DotFrom(key, i + 1)
  }

  /** The segments of what is left of a dotted key from an index on; empty ones are dropped. */
  function SegmentsFrom(key: string, start: nat): seq<string>
    requires start <= |key|
    decreases |key| - start
  {
    var i := DotFrom(key, start);
    var head := if i == start then [] else [key[start..i]];
    if i == |key| then head else head + SegmentsFrom(key, i + 1)
  }

  function Segments(key: string): seq<string> {
    SegmentsFrom(key, 0)
  }

  function JoinDotted(parts: seq<string>): string {
    if parts == [] then ""
    else if |parts| == 1 then parts[0]
    else parts[0] + "." + JoinDotted(parts[1..])
  }

  lemma DotShift(before: string, key: string, start: nat)
    requires start <= |key|
    ensures DotFrom(before + key, |before| + start) == |before| + DotFrom(key, start)
    decreases |key| - start
  {
    if start < |key| {
      assert (before + key)[|before| + start] == key[start];
      DotShift(before, key, start + 1);
    }
  }

  /** What precedes the starting point does not matter. */
  lemma {:induction false} SegmentsShift(before: string, key: string, start: nat)
    requires start <= |key|
    ensures SegmentsFrom(before + key, |before| + start) == SegmentsFrom(key, start)
    decreases |key| - start
  {
    var i := DotFrom(key, start);
    DotShift(before, key, start);
    assert (before + key)[|before| + start..|before| + i] == key[start..i];
    if i < |key| {
      SegmentsShift(before, key, i + 1);
    }
  }

  /** Joining clean segments and splitting again gives them back. */
  lemma {:induction false} SegmentsOfJoin(parts: seq<string>)
    requires Clean(parts)
    ensures Segments(JoinDotted(parts)) == parts
  {
    if |parts| >= 1 {
      var key, head := JoinDotted(parts), parts[0];
      assert key[..|head|] == head && forall k :: 0 <= k < |head| ==> key[k] == head[k];
      assert NoDot(head) && (|head| < |key| ==> key[|head|] == '.');
      assert DotFrom(key, 0) == |head|;
      if |parts| > 1 {
        SegmentsOfJoin(parts[1..]);
        SegmentsShift(head + ".", JoinDotted(parts[1..]), 0);
      }
    }
  }

  predicate Clean(parts: seq<string>) {
    forall i :: 0 <= i < |parts| ==> parts[i] != "" && NoDot(parts[i])
  }

  lemma {:induction false} SegmentsAreClean(key: string, start: nat)
    requires start <= |key|
    ensures Clean(SegmentsFrom(key, start))
    decreases |key| - start
  {
    var i := DotFrom(key, start);
    if i < |key| {
      SegmentsAreClean(key, i + 1);
    }
  }

  /** From an index on, no dot at either end and no two in a row. */
  predicate Tidy(key: string, start: nat) {
    && start <= |key|
    && (start < |key| ==> key[start] != '.' && key[|key| - 1] != '.')
    && forall i :: start <= i < |key| - 1 ==> !(key[i] == '.' && key[i + 1] == '.')
  }

  lemma JoinCons(head: string, rest: seq<string>)
    requires rest != []
    ensures JoinDotted([head] + rest) == head + "." + JoinDotted(rest)
  {
    assert ([head] + rest)[1..] == rest;
  }

  lemma {:induction false} JoinFrom(key: string, start: nat)
    requires start < |key| && Tidy(key, start)
    ensures JoinDotted(SegmentsFrom(key, start)) == key[start..]
    decreases |key| - start
  {
    var i := DotFrom(key, start);
    if i < |key| {
      JoinFrom(key, i + 1);
      assert JoinDotted(SegmentsFrom(key, i + 1)) != "";
      JoinCons(key[start..i], SegmentsFrom(key, i + 1));
      assert key[start..] == key[start..i] + "." + key[i + 1..];
    } else {
      assert key[start..i] == key[start..];
    }
  }

  lemma {:induction false} JoinIsTidy(parts: seq<string>)
    requires Clean(parts)
    ensures Tidy(JoinDotted(parts), 0) && (parts != [] ==> JoinDotted(parts) != "")
  {
    if |parts| > 1 {
      var head, rest := parts[0], JoinDotted(parts[1..]);
      JoinIsTidy(parts[1..]);
      assert head[0] != '.' && head[|head| - 1] != '.';
      TidyJoin(head, rest);
    }
  }

  lemma TidyJoin(head: string, rest: string)
    requires head != "" && NoDot(head) && rest != "" && Tidy(rest, 0)
    ensures Tidy(head + "." + rest, 0)
  {
    var key, n := head + "." + rest, |head|;
    assert forall k :: 0 <= k < n ==> key[k] == head[k];
    assert key[n] == '.' && forall k :: n < k < |key| ==> key[k] == rest[k - n - 1];
  }

  /**
   Split and join: joining the segments of a key gives the key back exactly if it is tidy, and always a
   tidy key with the same segments, so that it addresses the same path.
   */
  lemma JoinOfSegments(key: string)
    ensures var tidy := JoinDotted(Segments(key));
      Tidy(tidy, 0) && Segments(tidy) == Segments(key) && (tidy == key <==> Tidy(key, 0))
  {
    SegmentsAreClean(key, 0);
    SegmentsOfJoin(Segments(key));
    JoinIsTidy(Segments(key));
    if key != "" && Tidy(key, 0) {
      JoinFrom(key, 0);
      assert key[0..] == key;
    }
  }

  predicate Undotted(key: string, start: nat, i: nat) {
    start <= i <= |key| && forall k :: start <= k < i ==> key[k] != '.'
  }

  /** The parts collected so far and those still to come are all of them. */
  predicate Collected(key: string, parts: seq<string>, start: nat) {
    start <= |key| && parts + SegmentsFrom(key, start) == Segments(key)
  }

  function Close(key: string, parts: seq<string>, start: nat, i: nat): seq<string>
    requires start <= i <= |key|
  {
    if i > start then parts + [key[start..i]] else parts
  }

  lemma CloseStep(key: string, parts: seq<string>, start: nat, i: nat)
    requires Undotted(key, start, i) && Collected(key, parts, start) && (i < |key| ==> key[i] == '.')
    ensures if i == |key| then Close(key, parts, start, i) == Segments(key)
            else Collected(key, Close(key, parts, start, i), i + 1)
  {
    assert DotFrom(key, start) == i;
    if i < |key| {
      assert SegmentsFrom(key, start) == Close(key, [], start, i) + SegmentsFrom(key, i + 1);
    }
  }

  /** splitDotted, byte by byte as the source does it. */
  method SplitDotted(key: string) returns (parts: seq<string>)
    ensures parts == Segments(key)
  {
    parts := [];
    var start := 0;
    for i := 0 to |key|
      invariant Undotted(key, start, i) && Collected(key, parts, start)
    {
      if key[i] == '.' {
        CloseStep(key, parts, start, i);
        if i > start {
          parts := parts + [key[start..i]];
        }
        start := i + 1;
      }
    }
    CloseStep(key, parts, start, |key|);
    if start < |key| {
      parts := parts + [key[start..|key|]];
    }
  }

  function InferScalar(value: string): Y {
    if ParseInt(value).Some? then Scalar("!!int", value)
    else if value == "true" || value == "false" then Scalar("!!bool", value)
    else Str(value)
  }

  // ---------- The file ----------

  /** What is at the path: nothing, something unreadable or unparseable, no content, or a document. */
  datatype File = Missing | Broken | Blank(comment: string) | Document(root: Y)

  /** loadDocRoot: the root mapping, or an error. */
  function LoadRoot(f: File): Option<Y> {
    match f
    case Missing => Some(EMPTY_MAPPING)
    case Broken => None
    case Blank(comment) => Some(EMPTY_MAPPING.(comment := comment))
    case Document(r) =>
      var root := if IsNull(r) then EMPTY_MAPPING else r;
      if root.kind == MappingNode then Some(root) else None
  }

  predicate IsNull(y: Y) {
    y.kind == ScalarNode && (y.tag == "!!null" || y.value == "")
  }

  predicate ProperFile(f: File) {
    f.Document? ==> Proper(f.root)
  }

  lemma LoadedIsProper(f: File)
    requires ProperFile(f) && LoadRoot(f).Some?
    ensures Proper(LoadRoot(f).value) && LoadRoot(f).value.kind == MappingNode
  {}

  // ---------- The writers ----------

  /** SetKeyYAML; None is an error that leaves the file alone. */
  function SetKey(f: File, key: string, value: string): Option<File> {
    if Segments(key) == [] then None
    else
      match LoadRoot(f)
      case None => None
      case Some(root) => Some(Document(SetPath(root, Segments(key), InferScalar(value))))
  }

  /** The sequence under a top-level key, ready to be appended to: created, or promoted from null. */
  function ListUnder(root: Y, key: string): Option<Y> {
    match MapValue(root, key)
    case None => Some(Y(SequenceNode, "!!seq", "", "", []))
    case Some(s) =>
      if IsNull(s) then Some(Y(SequenceNode, "!!seq", "", s.comment, []))
      else if s.kind == SequenceNode then Some(s)
      else None
  }

  datatype SiteConfig = SiteConfig(url: string, name: string, minInterval: string, maxInterval: string, speed: int)

  /** One optional key of a new block: written if the struct field is set. */
  datatype Field = Field(present: bool, key: string, v: Y)

  function WithField(m: Y, f: Field): Y {
    if f.present then SetMapValue(m, f.key, f.v) else m
  }

  function WithFields(m: Y, fields: seq<Field>): Y
    decreases fields
  {
    if fields == [] then m else WithFields(WithField(m, fields[0]), fields[1..])
  }

  function StrField(key: string, value: string): Field {
    Field(value != "", key, Str(value))
  }

  function SiteFields(s: SiteConfig): seq<Field> {
    [StrField("url", s.url), StrField("name", s.name), StrField("min_interval", s.minInterval),
     StrField("max_interval", s.maxInterval), Field(s.speed != 0, "speed", Scalar("!!int", Itoa(s.speed)))]
  }

  function SiteNode(s: SiteConfig): Y {
    WithFields(EMPTY_MAPPING, SiteFields(s))
  }

  function Append(list: Y, item: Y): Y {
    list.(content := list.content + [item])
  }

  function AddSiteRoot(root: Y, s: SiteConfig): Option<Y> {
    match ListUnder(root, "sites")
    case None => None
    case Some(list) => Some(SetMapValue(root, "sites", Append(list, SiteNode(s))))
  }

  function AddSite(f: File, s: SiteConfig): Option<File> {
    match LoadRoot(f)
    case None => None
    case Some(root) =>
      match AddSiteRoot(root, s)
      case None => None
      case Some(r) => Some(Document(r))
  }

  /** A key a list can go under: absent, null, or a list already. */
  predicate Listable(root: Y, key: string) {
    MapValue(root, key).Some? ==> IsNull(MapValue(root, key).value) || MapValue(root, key).value.kind == SequenceNode
  }

  /** Adding fails exactly if the file does not load or sites holds something that is not a list. */
  lemma AddSiteSucceeds(f: File, s: SiteConfig)
    ensures AddSite(f, s).Some? <==> LoadRoot(f).Some? && Listable(LoadRoot(f).value, "sites")
  {}

  predicate HasUrl(item: Y, url: string) {
    item.kind == MappingNode && MapValue(item, "url").Some? && MapValue(item, "url").value.value == url
  }

  function DropUrl(items: seq<Y>, url: string): seq<Y> {
    if items == [] then []
    else if HasUrl(items[0], url) then DropUrl(items[1..], url)
    else [items[0]] + DropUrl(items[1..], url)
  }

  /** RemoveSiteYAML on a loaded document. */
  function RemoveSiteRoot(root: Y, url: string): Y {
    match MapValue(root, "sites")
    case None => root
    case Some(list) =>
      if list.kind == SequenceNode then SetMapValue(root, "sites", list.(content := DropUrl(list.content, url)))
      else root
  }

  predicate SiteListed(root: Y, url: string) {
    MapValue(root, "sites").Some? && MapValue(root, "sites").value.kind == SequenceNode
    && exists item :: item in MapValue(root, "sites").value.content && HasUrl(item, url)
  }

  /** RemoveSiteYAML: an error, or the file - rewritten only if a site matched. */
  function RemoveSite(f: File, url: string): Option<File> {
    match LoadRoot(f)
    case None => None
    case Some(root) => if f != Missing && SiteListed(root, url) then Some(Document(RemoveSiteRoot(root, url)))
                       else Some(f)
  }

  // ---------- What the config loader reads as sites ----------

  function UrlOf(item: Y): string {
    if item.kind == MappingNode && MapValue(item, "url").Some? then MapValue(item, "url").value.value else ""
  }

  function UrlsOf(items: seq<Y>): seq<string> {
    seq(|items|, i requires 0 <= i < |items| => UrlOf(items[i]))
  }

  /** The URLs of the configured sites, in file order. */
  function SiteUrls(root: Y): seq<string> {
    match MapValue(root, "sites")
    case Some(list) => if list.kind == SequenceNode then UrlsOf(list.content) else []
    case None => []
  }

  function FileUrls(f: File): seq<string> {
    match LoadRoot(f)
    case None => []
    case Some(root) => SiteUrls(root)
  }

  function Without(urls: seq<string>, url: string): seq<string> {
    if urls == [] then []
    else if urls[0] == url then Without(urls[1..], url)
    else [urls[0]] + Without(urls[1..], url)
  }

  lemma FieldGet(m: Y, f: Field, key: string)
    requires Proper(m) && m.kind == MappingNode && Proper(f.v)
    ensures Proper(WithField(m, f)) && WithField(m, f).kind == MappingNode
    ensures MapValue(WithField(m, f), key) == if f.present && f.key == key then Some(f.v) else MapValue(m, key)
  {
    if f.present {
      SetGet(m, f.key, f.v, key);
      SetKeepsProper(m, f.key, f.v);
    }
  }

  /** A key none of the fields has reads as before. */
  lemma {:induction false} FieldsElsewhere(m: Y, fields: seq<Field>, key: string)
    requires Proper(m) && m.kind == MappingNode
    requires forall i :: 0 <= i < |fields| ==> Proper(fields[i].v)
    ensures Proper(WithFields(m, fields)) && WithFields(m, fields).kind == MappingNode
    ensures (forall i :: 0 <= i < |fields| ==> fields[i].key != key) ==>
      MapValue(WithFields(m, fields), key) == MapValue(m, key)
    decreases fields
  {
    if fields != [] {
      FieldGet(m, fields[0], key);
      FieldsElsewhere(WithField(m, fields[0]), fields[1..], key);
    }
  }

  /** Each field of a block reads back if its key is its own. */
  lemma {:induction false} FieldsAll(m: Y, fields: seq<Field>, i: nat)
    requires Proper(m) && m.kind == MappingNode && i < |fields|
    requires forall j :: 0 <= j < |fields| ==> Proper(fields[j].v) && (j != i ==> fields[j].key != fields[i].key)
    ensures MapValue(WithFields(m, fields), fields[i].key) ==
      if fields[i].present then Some(fields[i].v) else MapValue(m, fields[i].key)
    decreases fields
  {
    FieldGet(m, fields[0], fields[i].key);
    if i == 0 {
      FieldsElsewhere(WithField(m, fields[0]), fields[1..], fields[0].key);
    } else {
      FieldsAll(WithField(m, fields[0]), fields[1..], i - 1);
    }
  }

  /** A block of fields with distinct keys: each reads back, or is absent. */
  lemma FieldReads(fields: seq<Field>, i: nat)
    requires i < |fields| && forall j :: 0 <= j < |fields| ==>
      Proper(fields[j].v) && (j != i ==> fields[j].key != fields[i].key)
    ensures var b := WithFields(EMPTY_MAPPING, fields);
      && Proper(b) && b.kind == MappingNode
      && MapValue(b, fields[i].key) == if fields[i].present then Some(fields[i].v) else None
  {
    FieldsElsewhere(EMPTY_MAPPING, fields, "");
    FieldsAll(EMPTY_MAPPING, fields, i);
    assert MapValue(EMPTY_MAPPING, fields[i].key) == None;
  }

  function Text(m: Y, key: string): string {
    match MapValue(m, key)
    case None => ""
    case Some(v) => v.value
  }

  lemma StrFieldReads(fields: seq<Field>, i: nat, key: string, value: string)
    requires i < |fields| && forall j :: 0 <= j < |fields| ==>
      Proper(fields[j].v) && (j != i ==> fields[j].key != fields[i].key)
    requires fields[i] == StrField(key, value)
    ensures Text(WithFields(EMPTY_MAPPING, fields), key) == value
  {
    FieldReads(fields, i);
  }

  /** The integer under a key; a text of digits is none. */
  function IntAt(m: Y, key: string): int {
    match MapValue(m, key)
    case None => 0
    case Some(v) => if v.tag == "!!int" then ParseInt(v.value).GetOr(0) else 0
  }

  /** A site entry as the loader reads it. */
  function ReadSite(item: Y): SiteConfig {
    SiteConfig(Text(item, "url"), Text(item, "name"), Text(item, "min_interval"), Text(item, "max_interval"),
               IntAt(item, "speed"))
  }

  /** Every site reads back from its entry, field by field. */
  lemma SiteReadsBack(s: SiteConfig)
    requires -MAX_INT64 - 1 <= s.speed <= MAX_INT64
    ensures ReadSite(SiteNode(s)) == s
  {
    var fields := SiteFields(s);
    StrFieldReads(fields, 0, "url", s.url);
    StrFieldReads(fields, 1, "name", s.name);
    StrFieldReads(fields, 2, "min_interval", s.minInterval);
    StrFieldReads(fields, 3, "max_interval", s.maxInterval);
    FieldReads(fields, 4);
    ParseItoa(s.speed);
  }

  lemma SiteNodeUrl(s: SiteConfig)
    ensures UrlOf(SiteNode(s)) == s.url && Proper(SiteNode(s)) && SiteNode(s).kind == MappingNode
  {
    FieldReads(SiteFields(s), 0);
  }

  /** Putting another list under sites. */
  lemma ReplaceSites(root: Y, list: Y, other: string)
    requires Proper(root) && root.kind == MappingNode && Proper(list) && list.kind == SequenceNode
    ensures var r := SetMapValue(root, "sites", list);
      && Proper(r) && r.kind == MappingNode
      && SiteUrls(r) == UrlsOf(list.content)
      && (other != "sites" ==> MapValue(r, other) == MapValue(root, other))
  {
    SetGet(root, "sites", list, "sites");
    SetGet(root, "sites", list, other);
    SetKeepsProper(root, "sites", list);
  }

  lemma AppendIsProper(list: Y, item: Y)
    requires Proper(list) && Proper(item) && list.kind == SequenceNode
    ensures Proper(Append(list, item)) && UrlsOf(Append(list, item).content) == UrlsOf(list.content) + [UrlOf(item)]
  {
    assert forall c :: c in list.content + [item] ==> Proper(c);
  }

  /** Adding a site appends its URL to what the loader reads and leaves every other key alone. */
  lemma AddSiteUrls(root: Y, s: SiteConfig, other: string)
    requires Proper(root) && root.kind == MappingNode && AddSiteRoot(root, s).Some?
    ensures var r := AddSiteRoot(root, s).value;
      && Proper(r) && r.kind == MappingNode
      && SiteUrls(r) == SiteUrls(root) + [s.url]
      && (other != "sites" ==> MapValue(r, other) == MapValue(root, other))
  {
    SiteNodeUrl(s);
    var list := ListUnder(root, "sites").value;
    assert Proper(list) by { ProperChild(root, "sites"); }
    AppendIsProper(list, SiteNode(s));
    ReplaceSites(root, Append(list, SiteNode(s)), other);
  }

  lemma HasUrlIsUrlOf(item: Y, url: string)
    requires url != ""
    ensures HasUrl(item, url) <==> UrlOf(item) == url
  {}

  lemma {:induction false} DropUrlUrls(items: seq<Y>, url: string)
    requires url != ""
    ensures UrlsOf(DropUrl(items, url)) == Without(UrlsOf(items), url)
  {
    if items != [] {
      DropUrlUrls(items[1..], url);
      HasUrlIsUrlOf(items[0], url);
      assert UrlsOf(items) == [UrlOf(items[0])] + UrlsOf(items[1..]);
      if !HasUrl(items[0], url) {
        assert UrlsOf(DropUrl(items, url)) == [UrlOf(items[0])] + UrlsOf(DropUrl(items[1..], url));
      }
    }
  }

  lemma {:induction false} DropUrlKeeps(items: seq<Y>, url: string)
    ensures forall y :: y in DropUrl(items, url) ==> y in items
    ensures (forall y :: y in items ==> !HasUrl(y, url)) ==> DropUrl(items, url) == items
  {
    if items != [] {
      DropUrlKeeps(items[1..], url);
    }
  }

  lemma DropIsProper(list: Y, url: string)
    requires Proper(list) && list.kind == SequenceNode && url != ""
    ensures var shorter := list.(content := DropUrl(list.content, url));
      Proper(shorter) && UrlsOf(shorter.content) == Without(UrlsOf(list.content), url)
  {
    DropUrlUrls(list.content, url);
    DropUrlKeeps(list.content, url);
  }

  /** Removing a site takes every entry with its URL out and leaves the rest in order. */
  lemma RemoveSiteUrls(root: Y, url: string, other: string)
    requires Proper(root) && root.kind == MappingNode && url != ""
    ensures var r := RemoveSiteRoot(root, url);
      && Proper(r) && r.kind == MappingNode
      && SiteUrls(r) == Without(SiteUrls(root), url)
      && (other != "sites" ==> MapValue(r, other) == MapValue(root, other))
  {
    if MapValue(root, "sites").Some? && MapValue(root, "sites").value.kind == SequenceNode {
      var list := MapValue(root, "sites").value;
      ProperChild(root, "sites");
      DropIsProper(list, url);
      ReplaceSites(root, list.(content := DropUrl(list.content, url)), other);
    }
  }

  lemma NothingToRemove(root: Y, url: string)
    requires !SiteListed(root, url)
    ensures RemoveSiteRoot(root, url) == root
  {
    if MapValue(root, "sites").Some? && MapValue(root, "sites").value.kind == SequenceNode {
      var list := MapValue(root, "sites").value;
      DropUrlKeeps(list.content, url);
      GetSet(root, "sites", list);
    }
  }

  // ---------- The control-plane gate ----------

  function AllowedKeys(): set<string> {
    {"log.level"} + AllowedDefaults() + AllowedGraph() + AllowedDeep()
  }

  function AllowedDefaults(): set<string> {
    {"defaults.min_interval", "defaults.max_interval"}
  }

  function AllowedGraph(): set<string> {
    {"graph.enabled", "graph.sweep_interval"}
  }

  function AllowedDeep(): set<string> {
    {"defaults.discovery.max_pages_per_site", "crawler.hydration.enabled"}
  }

  predicate HasPrefix(s: string, prefix: string) {
    prefix <= s
  }

  predicate Denied(key: string) {
    || HasPrefix(key, "defaults.unverified_throttle.")
    || HasPrefix(key, "notifiers.")
    || HasPrefix(key, "database.") || key == "data_dir"
  }

  predicate Allowed(key: string) {
    !Denied(key) && key in AllowedKeys()
  }

  /** The paths the gate is there to protect, and the site list. */
  predicate Protected(path: seq<string>) {
    && path != []
    && (path[0] in {"notifiers", "database", "data_dir", "sites"}
        || (|path| >= 2 && path[0] == "defaults" && path[1] == "unverified_throttle"))
  }

  /** A path no protected path is a prefix or an extension of. */
  predicate Settable(path: seq<string>) {
    && |path| >= 2
    && (path[0] in {"log", "crawler", "graph"}
        || (path[0] == "defaults" && path[1] in {"min_interval", "max_interval", "discovery"}))
  }

  lemma TwoParts(a: string, b: string)
    requires a != "" && b != "" && NoDot(a) && NoDot(b)
    ensures Segments(a + "." + b) == [a, b]
  {
    SegmentsOfJoin([a, b]);
    assert [a, b][1..] == [b];
    assert a + "." + JoinDotted([b]) == a + "." + b;
  }

  lemma ThreeParts(a: string, b: string, c: string)
    requires a != "" && b != "" && c != "" && NoDot(a) && NoDot(b) && NoDot(c)
    ensures Segments(a + "." + b + "." + c) == [a, b, c]
  {
    SegmentsOfJoin([a, b, c]);
    assert [a, b, c][1..] == [b, c] && [b, c][1..] == [c];
    assert JoinDotted([b, c]) == b + "." + c;
    assert JoinDotted([a, b, c]) == a + "." + (b + "." + c);
    assert a + "." + (b + "." + c) == a + "." + b + "." + c;
  }

  lemma PathOfLogLevel()
    ensures Settable(Segments("log.level"))
  {
    TwoParts("log", "level");
    assert "log.level" == "log" + "." + "level";
  }

  lemma PathOfMinInterval()
    ensures Settable(Segments("defaults.min_interval"))
  {
    TwoParts("defaults", "min_interval");
    assert "defaults.min_interval" == "defaults" + "." + "min_interval";
  }

  lemma PathOfMaxInterval()
    ensures Settable(Segments("defaults.max_interval"))
  {
    TwoParts("defaults", "max_interval");
    assert "defaults.max_interval" == "defaults" + "." + "max_interval";
  }

  lemma PathOfMaxPages()
    ensures Settable(Segments("defaults.discovery.max_pages_per_site"))
  {
    var last := "max_pages_per_site";
    assert last != "" && NoDot(last);
    DiscoveryPath(last);
    assert "defaults.discovery.max_pages_per_site" == "defaults.discovery." + last;
  }

  lemma DiscoveryPath(last: string)
    requires last != "" && NoDot(last)
    ensures Settable(Segments("defaults.discovery." + last))
  {
    ThreeParts("defaults", "discovery", last);
    assert "defaults.discovery." == "defaults" + "." + "discovery" + ".";
  }

  lemma PathOfHydration()
    ensures Settable(Segments("crawler.hydration.enabled"))
  {
    ThreeParts("crawler", "hydration", "enabled");
    assert "crawler.hydration.enabled" == "crawler" + "." + "hydration" + "." + "enabled";
  }

  lemma PathOfGraphEnabled()
    ensures Settable(Segments("graph.enabled"))
  {
    TwoParts("graph", "enabled");
    assert "graph.enabled" == "graph" + "." + "enabled";
  }

  lemma PathOfGraphSweep()
    ensures Settable(Segments("graph.sweep_interval"))
  {
    TwoParts("graph", "sweep_interval");
    assert "graph.sweep_interval" == "graph" + "." + "sweep_interval";
  }

  lemma DefaultsPath(key: string)
    requires key in AllowedDefaults()
    ensures Settable(Segments(key))
  {
    PathOfMinInterval();
    PathOfMaxInterval();
  }

  lemma GraphPath(key: string)
    requires key in AllowedGraph()
    ensures Settable(Segments(key))
  {
    PathOfGraphEnabled();
    PathOfGraphSweep();
  }

  lemma DeepPath(key: string)
    requires key in AllowedDeep()
    ensures Settable(Segments(key))
  {
    PathOfMaxPages();
    PathOfHydration();
  }

  lemma AllowedPath(key: string)
    requires key in AllowedKeys()
    ensures Settable(Segments(key))
  {
    if key in AllowedDefaults() {
      DefaultsPath(key);
    } else if key in AllowedGraph() {
      GraphPath(key);
    } else if key in AllowedDeep() {
      DeepPath(key);
    } else {
      PathOfLogLevel();
    }
  }

  lemma NotDenied(key: string)
    requires |key| >= 2 && key[0] != 'n' && (key[0] == 'd' ==> key[1] != 'a' && |key| > 9 && key[9] != 'u')
    ensures !Denied(key)
  {
    assert "notifiers."[0] == 'n' && "defaults.unverified_throttle."[0] == 'd' && "database."[0] == 'd';
    assert "defaults.unverified_throttle."[9] == 'u' && "database."[1] == 'a' && "data_dir"[1] == 'a';
    assert "data_dir"[0] == 'd';
  }

  lemma DefaultsAllowed()
    ensures Allowed("defaults.min_interval") && Allowed("defaults.max_interval")
  {
    NotDenied("defaults.min_interval");
    NotDenied("defaults.max_interval");
    assert "defaults.min_interval" in AllowedDefaults() && "defaults.max_interval" in AllowedDefaults();
  }

  lemma GraphAllowed()
    ensures Allowed("graph.enabled") && Allowed("graph.sweep_interval")
  {
    NotDenied("graph.enabled");
    NotDenied("graph.sweep_interval");
    assert "graph.enabled" in AllowedGraph() && "graph.sweep_interval" in AllowedGraph();
  }

  lemma PageCapAllowed()
    ensures Allowed("defaults.discovery.max_pages_per_site")
  {
    NotDenied("defaults.discovery.max_pages_per_site");
    assert "defaults.discovery.max_pages_per_site" in AllowedDeep();
  }

  lemma HydrationAllowed()
    ensures Allowed("crawler.hydration.enabled")
  {
    NotDenied("crawler.hydration.enabled");
    assert "crawler.hydration.enabled" in AllowedDeep();
  }

  lemma LogAllowed()
    ensures Allowed("log.level")
  {
    NotDenied("log.level");
    assert "log.level" in {"log.level"};
  }

  /** The gate lets a key through if and only if it is one of seven. */
  lemma SevenKeys(key: string)
    ensures Allowed("log.level") && Allowed("defaults.min_interval") && Allowed("defaults.max_interval")
    ensures Allowed("defaults.discovery.max_pages_per_site") && Allowed("crawler.hydration.enabled")
    ensures Allowed("graph.enabled") && Allowed("graph.sweep_interval")
    ensures Allowed(key) ==>
      || key == "log.level" || key == "defaults.min_interval" || key == "defaults.max_interval"
      || key == "defaults.discovery.max_pages_per_site" || key == "crawler.hydration.enabled"
      || key == "graph.enabled" || key == "graph.sweep_interval"
  {
    LogAllowed();
    DefaultsAllowed();
    GraphAllowed();
    PageCapAllowed();
    HydrationAllowed();
    if Allowed(key) {
      NoEighth(key);
    }
  }

  lemma NoEighth(key: string)
    requires key in AllowedKeys()
    ensures
      || key == "log.level" || key == "defaults.min_interval" || key == "defaults.max_interval"
      || key == "defaults.discovery.max_pages_per_site" || key == "crawler.hydration.enabled"
      || key == "graph.enabled" || key == "graph.sweep_interval"
  {
    if key in AllowedDefaults() {
    } else if key in AllowedGraph() {
    } else if key in AllowedDeep() {
    } else {
      assert key in {"log.level"};
    }
  }

  lemma SettableMissesProtected(path: seq<string>, other: seq<string>)
    requires Settable(path) && Protected(other)
    ensures !(other <= path) && !(path <= other)
  {}

  /** A write at a settable path leaves the protected paths and the site list alone. */
  lemma SettableIsHarmless(root: Y, path: seq<string>, v: Y, other: seq<string>)
    requires Proper(root) && root.kind == MappingNode && Settable(path)
    ensures Protected(other) ==> GetPath(SetPath(root, path, v), other) == GetPath(root, other)
    ensures SiteUrls(SetPath(root, path, v)) == SiteUrls(root)
  {
    SettableMissesProtected(path, ["sites"]);
    PutElsewhere(root, path, v, ["sites"]);
    OneKeyPath(root, "sites");
    OneKeyPath(SetPath(root, path, v), "sites");
    if Protected(other) {
      SettableMissesProtected(path, other);
      PutElsewhere(root, path, v, other);
    }
  }

  lemma OneKeyPath(t: Y, key: string)
    ensures GetPath(t, [key]) == MapValue(t, key)
  {
    assert [key][1..] == [];
  }

  /**
   Whatever an allowed key is set to, the file still parses to a proper document, the value reads
   back, and every path under notifiers, database, data_dir, sites and the unverified throttle
   reads as before.
   */
  lemma AllowedKeyIsHarmless(f: File, key: string, value: string, other: seq<string>)
    requires ProperFile(f) && LoadRoot(f).Some? && Allowed(key)
    ensures SetKey(f, key, value).Some?
    ensures var g := SetKey(f, key, value).value;
      && ProperFile(g) && LoadRoot(g).Some?
      && GetPath(LoadRoot(g).value, Segments(key)) == Some(InferScalar(value))
      && (Protected(other) ==> GetPath(LoadRoot(g).value, other) == GetPath(LoadRoot(f).value, other))
      && FileUrls(g) == FileUrls(f)
  {
    AllowedPath(key);
    LoadedIsProper(f);
    var root, path := LoadRoot(f).value, Segments(key);
    PutKeepsProper(root, path, InferScalar(value));
    PutGet(root, path, InferScalar(value));
    SettableIsHarmless(root, path, InferScalar(value), other);
  }

  /**
   A key reads back as set, for any key with a segment, and every path that is neither prefix nor
   extension of its own reads as before.
   */
  lemma SetKeyReadsBack(f: File, key: string, value: string, other: seq<string>)
    requires ProperFile(f)
    ensures SetKey(f, key, value).Some? <==> LoadRoot(f).Some? && Segments(key) != []
    ensures SetKey(f, key, value).Some? ==>
      var g, path := SetKey(f, key, value).value, Segments(key);
      && ProperFile(g) && LoadRoot(g).Some? && LoadRoot(g).value.comment == LoadRoot(f).value.comment
      && GetPath(LoadRoot(g).value, path) == Some(InferScalar(value))
      && (!(other <= path) && !(path <= other) ==>
           GetPath(LoadRoot(g).value, other) == GetPath(LoadRoot(f).value, other))
  {
    if LoadRoot(f).Some? && Segments(key) != [] {
      LoadedIsProper(f);
      var root, path := LoadRoot(f).value, Segments(key);
      PutKeepsProper(root, path, InferScalar(value));
      PutGet(root, path, InferScalar(value));
      if !(other <= path) && !(path <= other) {
        PutElsewhere(root, path, InferScalar(value), other);
      }
    }
  }

  /** The comment of a file without content, and of a list that was null, is kept when something is added. */
  lemma CommentsSurviveAdds(f: File, comment: string, site: SiteConfig)
    requires ProperFile(f) && AddSite(f, site).Some?
    ensures LoadRoot(Blank(comment)).Some? && LoadRoot(Blank(comment)).value.comment == comment
    ensures var before, after := LoadRoot(f).value, LoadRoot(AddSite(f, site).value);
      && after.Some? && after.value.comment == before.comment
      && (MapValue(before, "sites").Some? ==>
            MapValue(after.value, "sites").Some?
            && MapValue(after.value, "sites").value.comment == MapValue(before, "sites").value.comment)
  {
    LoadedIsProper(f);
    var root := LoadRoot(f).value;
    SetGet(root, "sites", Append(ListUnder(root, "sites").value, SiteNode(site)), "sites");
  }

  /** A new site has the keys that are set, and no other of these. */
  lemma SiteOmitsUnset(s: SiteConfig)
    ensures var b := SiteNode(s);
      && (MapValue(b, "url").Some? <==> s.url != "") && (MapValue(b, "name").Some? <==> s.name != "")
      && (MapValue(b, "min_interval").Some? <==> s.minInterval != "")
      && (MapValue(b, "max_interval").Some? <==> s.maxInterval != "") && (MapValue(b, "speed").Some? <==> s.speed != 0)
  {
    SiteFieldPresent(s, 0);
    SiteFieldPresent(s, 1);
    SiteFieldPresent(s, 2);
    SiteFieldPresent(s, 3);
    SiteFieldPresent(s, 4);
  }

  lemma SiteFieldPresent(s: SiteConfig, i: nat)
    requires i < 5
    ensures MapValue(SiteNode(s), SiteFields(s)[i].key).Some? <==> SiteFields(s)[i].present
  {
    FieldReads(SiteFields(s), i);
  }

  /** Setting a key twice is setting it once, to the last value. */
  lemma SetKeyTwice(f: File, key: string, v: string, w: string)
    requires ProperFile(f) && SetKey(f, key, v).Some?
    ensures SetKey(SetKey(f, key, v).value, key, w) == SetKey(f, key, w)
  {
    LoadedIsProper(f);
    var root := LoadRoot(f).value;
    PutKeepsProper(root, Segments(key), InferScalar(v));
    PutPut(root, Segments(key), InferScalar(v), InferScalar(w));
  }

  // ---------- Reading the scalar back ----------

  /** A printed 64-bit integer becomes an integer with the same digits. */
  lemma InferScalarOfInt(n: int)
    requires -MAX_INT64 - 1 <= n <= MAX_INT64
    ensures InferScalar(Itoa(n)) == Scalar("!!int", Itoa(n))
  {
    ParseItoa(n);
  }

  /** The text is never changed; integers are exactly what parses as one, booleans exactly two words. */
  lemma InferScalarKinds(value: string)
    ensures var y := InferScalar(value);
      && y.kind == ScalarNode && y.value == value
      && (y.tag == "!!int" <==> ParseInt(value).Some?)
      && (y.tag == "!!bool" <==> value == "true" || value == "false")
      && (y.tag == "!!str" <==> ParseInt(value).None? && value != "true" && value != "false")
  {}
}
