/**
 The writers the setup wizard re-runs - notifiers, routes, the Search Console block - as edits of
 the document (internal/config/mutate.go), and what re-running them promises.
 */
module SetupWriters {
  import opened Prelude
  import opened Decimal
  import opened SortedKeys
  import opened YamlTree
  import opened ConfigEdits

  // ---------- Replace the first that matches, or append ----------

  function FirstWhere(items: seq<Y>, same: Y -> bool): (i: nat)
    ensures i <= |items| && (i < |items| ==> same(items[i])) && forall j :: 0 <= j < i ==> !same(items[j])
  {
    if items == [] || same(items[0]) then 0 else 1 + FirstWhere(items[1..], same)
  }

  function Put(items: seq<Y>, same: Y -> bool, node: Y): seq<Y> {
    var i := FirstWhere(items, same);
    if i < |items| then items[i := node] else items + [node]
  }

  lemma FirstIs(items: seq<Y>, same: Y -> bool, i: nat)
    requires i <= |items| && (i < |items| ==> same(items[i])) && forall j :: 0 <= j < i ==> !same(items[j])
    ensures FirstWhere(items, same) == i
  {}

  lemma PutTwice(items: seq<Y>, same: Y -> bool, x: Y, y: Y)
    requires same(x)
    ensures Put(Put(items, same, x), same, y) == Put(items, same, y)
  {
    var i := FirstWhere(items, same);
    FirstIs(Put(items, same, x), same, i);
  }

  predicate AtMostOne(items: seq<Y>, p: Y -> bool) {
    forall i, j :: 0 <= i < j < |items| ==> !(p(items[i]) && p(items[j]))
  }

  /** One slot changes at most, and only one that matched; an at-most-one count survives. */
  lemma PutInPlace(items: seq<Y>, same: Y -> bool, node: Y)
    ensures |items| <= |Put(items, same, node)| <= |items| + 1
    ensures forall i :: 0 <= i < |items| ==>
      Put(items, same, node)[i] == items[i] || (i == FirstWhere(items, same) && same(items[i]))
    ensures |Put(items, same, node)| > |items| ==> (forall i :: 0 <= i < |items| ==> !same(items[i]))
    ensures node in Put(items, same, node)
  {
    var i, after := FirstWhere(items, same), Put(items, same, node);
    assert after[i] == node;
  }

  lemma PutKeepsAtMostOne(items: seq<Y>, same: Y -> bool, node: Y, p: Y -> bool)
    requires AtMostOne(items, p)
    requires p(node) ==> forall i :: 0 <= i < |items| ==> p(items[i]) == same(items[i])
    ensures AtMostOne(Put(items, same, node), p)
  {}

  // ---------- Upserting into a top-level list ----------

  function NewItems(items: seq<Y>, named: bool, same: Y -> bool, node: Y): seq<Y> {
    if named then Put(items, same, node) else items + [node]
  }

  function UpsertRoot(root: Y, key: string, named: bool, same: Y -> bool, node: Y): Option<Y> {
    match ListUnder(root, key)
    case None => None
    case Some(list) =>
      Some(SetMapValue(root, key, list.(content := NewItems(list.content, named, same, node))))
  }

  function Upsert(f: File, key: string, named: bool, same: Y -> bool, node: Y): Option<File> {
    match LoadRoot(f)
    case None => None
    case Some(root) =>
      match UpsertRoot(root, key, named, same, node)
      case None => None
      case Some(r) => Some(Document(r))
  }

  lemma UpsertSucceeds(f: File, key: string, named: bool, same: Y -> bool, node: Y)
    ensures Upsert(f, key, named, same, node).Some? <==> LoadRoot(f).Some? && Listable(LoadRoot(f).value, key)
  {}

  /** The elements of a top-level list. */
  function Items(f: File, key: string): seq<Y> {
    match LoadRoot(f)
    case None => []
    case Some(root) =>
      match ListUnder(root, key)
      case None => []
      case Some(list) => list.content
  }

  lemma NewListIsProper(list: Y, named: bool, same: Y -> bool, node: Y)
    requires Proper(list) && list.kind == SequenceNode && Proper(node)
    ensures Proper(list.(content := NewItems(list.content, named, same, node)))
  {
    PutInPlace(list.content, same, node);
  }

  /** Putting another list under a key. */
  lemma ReplaceList(root: Y, key: string, list: Y, other: string)
    requires Proper(root) && root.kind == MappingNode && Proper(list) && list.kind == SequenceNode
    ensures var r := SetMapValue(root, key, list);
      && Proper(r) && r.kind == MappingNode && ListUnder(r, key) == Some(list)
      && (other != key ==> MapValue(r, other) == MapValue(root, other))
  {
    SetGet(root, key, list, key);
    SetGet(root, key, list, other);
    SetKeepsProper(root, key, list);
  }

  lemma UpsertItems(f: File, key: string, named: bool, same: Y -> bool, node: Y, other: string)
    requires ProperFile(f) && Upsert(f, key, named, same, node).Some? && Proper(node)
    ensures var g := Upsert(f, key, named, same, node).value;
      && ProperFile(g) && LoadRoot(g).Some?
      && Items(g, key) == NewItems(Items(f, key), named, same, node)
      && (other != key ==> MapValue(LoadRoot(g).value, other) == MapValue(LoadRoot(f).value, other))
  {
    LoadedIsProper(f);
    var root := LoadRoot(f).value;
    var list := ListUnder(root, key).value;
    ListIsProper(root, key);
    NewListIsProper(list, named, same, node);
    ReplaceList(root, key, list.(content := NewItems(list.content, named, same, node)), other);
  }

  lemma ListIsProper(root: Y, key: string)
    requires Proper(root)
    ensures ListUnder(root, key).Some? ==>
      Proper(ListUnder(root, key).value) && ListUnder(root, key).value.kind == SequenceNode
  {
    ProperChild(root, key);
  }

  /** Writing the same entry again, or another version of it: the last write wins. */
  lemma UpsertTwice(f: File, key: string, same: Y -> bool, x: Y, y: Y)
    requires ProperFile(f) && Upsert(f, key, true, same, x).Some? && same(x)
    ensures Upsert(f, key, true, same, y).Some?
    ensures Upsert(Upsert(f, key, true, same, x).value, key, true, same, y) == Upsert(f, key, true, same, y)
  {
    UpsertSucceeds(f, key, true, same, x);
    UpsertSucceeds(f, key, true, same, y);
    LoadedIsProper(f);
    var root := LoadRoot(f).value;
    var list := ListUnder(root, key).value;
    ListIsProper(root, key);
    var list1 := list.(content := Put(list.content, same, x));
    PutTwice(list.content, same, x, y);
    SetGet(root, key, list1, key);
    SetSet(root, key, list1, list.(content := Put(list.content, same, y)));
  }

  // ---------- Notifiers ----------

  datatype Notifier = Notifier(name: string, sort: string, url: string,
                               smtpHost: string, smtpPort: int, username: string, password: string,
                               from: string, to: seq<string>, allowPlaintext: bool, headers: map<string, string>)

  /** A map rendered with sorted keys. */
  ghost function RenderMap(m: map<string, string>): Y {
    WithFields(EMPTY_MAPPING, MapFields(m, InOrder(m.Keys)))
  }

  function MapFields(m: map<string, string>, keys: seq<string>): seq<Field>
    requires forall k :: k in keys ==> k in m
  {
    seq(|keys|, i requires 0 <= i < |keys| => Field(true, keys[i], Str(m[keys[i]])))
  }

  function StrList(items: seq<string>): Y {
    Y(SequenceNode, "!!seq", "", "", seq(|items|, i requires 0 <= i < |items| => Str(items[i])))
  }

  ghost function NotifierFields(n: Notifier): seq<Field> {
    [StrField("name", n.name), StrField("type", n.sort), StrField("url", n.url), StrField("smtp_host", n.smtpHost),
     Field(n.smtpPort > 0, "smtp_port", Scalar("!!int", Itoa(n.smtpPort))), StrField("username", n.username),
     StrField("password", n.password), StrField("from", n.from), Field(n.to != [], "to", StrList(n.to)),
     Field(n.allowPlaintext, "allow_plaintext", Scalar("!!bool", "true")),
     Field(n.headers != map[], "headers", RenderMap(n.headers))]
  }

  ghost function NotifierNode(n: Notifier): Y {
    WithFields(EMPTY_MAPPING, NotifierFields(n))
  }

  predicate HasText(item: Y, key: string, text: string) {
    item.kind == MappingNode && MapValue(item, key).Some? && MapValue(item, key).value.value == text
  }

  function SameName(name: string): Y -> bool {
    item => HasText(item, "name", name)
  }

  /** AddNotifierYAML. */
  ghost function AddNotifier(f: File, n: Notifier): Option<File> {
    Upsert(f, "notifiers", n.name != "", SameName(n.name), NotifierNode(n))
  }

  lemma MapIsProper(m: map<string, string>)
    ensures Proper(RenderMap(m)) && RenderMap(m).kind == MappingNode
  {
    FieldsElsewhere(EMPTY_MAPPING, MapFields(m, InOrder(m.Keys)), "");
  }

  lemma NotifierNodeName(n: Notifier)
    ensures Proper(NotifierNode(n)) && NotifierNode(n).kind == MappingNode
    ensures MapValue(NotifierNode(n), "name") == if n.name != "" then Some(Str(n.name)) else None
  {
    MapIsProper(n.headers);
    FieldReads(NotifierFields(n), 0);
  }

  /** Re-running with the same name, with whatever new fields, leaves what the last run alone would. */
  lemma NotifierTwice(f: File, n: Notifier, again: Notifier)
    requires ProperFile(f) && n.name == again.name != "" && AddNotifier(f, n).Some?
    ensures AddNotifier(f, again).Some? && AddNotifier(AddNotifier(f, n).value, again) == AddNotifier(f, again)
  {
    NotifierNodeName(n);
    UpsertTwice(f, "notifiers", SameName(n.name), NotifierNode(n), NotifierNode(again));
  }

  /** Adding a notifier: the name stays unique if it was, the others stay where they are, other keys are untouched. */
  lemma NotifierInPlace(f: File, n: Notifier, name: string, other: string)
    requires ProperFile(f) && AddNotifier(f, n).Some? && n.name != ""
    requires AtMostOne(Items(f, "notifiers"), SameName(name))
    ensures var g := AddNotifier(f, n).value;
      && var before, after := Items(f, "notifiers"), Items(g, "notifiers");
      && ProperFile(g)
      && AtMostOne(after, SameName(name))
      && NotifierNode(n) in after
      && |before| <= |after| <= |before| + 1
      && (forall i :: 0 <= i < |before| ==> after[i] == before[i] || HasText(before[i], "name", n.name))
      && (other != "notifiers" ==> MapValue(LoadRoot(g).value, other) == MapValue(LoadRoot(f).value, other))
  {
    NotifierNodeName(n);
    var same := SameName(n.name);
    UpsertItems(f, "notifiers", true, same, NotifierNode(n), other);
    PutInPlace(Items(f, "notifiers"), same, NotifierNode(n));
    PutKeepsAtMostOne(Items(f, "notifiers"), same, NotifierNode(n), SameName(name));
  }
}
