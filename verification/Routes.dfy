/** Routes: when AddRouteYAML recognises an entry as the one it would write (internal/config/mutate.go). */
module Routes {
  import opened Prelude
  import opened Decimal
  import opened SortedKeys
  import opened YamlTree
  import opened ConfigEdits
  import opened SetupWriters

  datatype Route = Route(criteria: map<string, string>, notifier: string)

  /** The map the pairs of a mapping stand for: of a repeated key the last value. */
  function ReadPairs(content: seq<Y>): map<string, string> {
    if |content| < 2 then map[]
    else map[content[0].value := content[1].value] + ReadPairs(content[2..])
  }

  function At(m: map<string, string>, key: string): string {
    if key in m then m[key] else ""
  }

  /** matchEquals; indexing a Go map with an absent key gives the empty string. */
  predicate MatchEquals(node: Option<Y>, want: map<string, string>) {
    if node.None? || node.value.kind != MappingNode then |want| == 0
    else
      var got := ReadPairs(node.value.content);
      |got| == |want| && forall k :: k in want ==> At(got, k) == want[k]
  }

  /** The match a route entry stands for. */
  function MatchOf(node: Option<Y>): map<string, string> {
    if node.None? || node.value.kind != MappingNode then map[] else ReadPairs(node.value.content)
  }

  /** The comparison loop of matchEquals, over the wanted keys in any order. */
  method AllEqual(got: map<string, string>, want: map<string, string>) returns (b: bool)
    ensures b == forall k :: k in want ==> At(got, k) == want[k]
  {
    var rest := want.Keys;
    while rest != {}
      invariant rest <= want.Keys && forall k :: k in want.Keys - rest ==> At(got, k) == want[k]
      decreases |rest|
    {
      assert (forall k :: k !in rest) ==> rest == {};
      var k :| k in rest;
      if At(got, k) != want[k] {
        return false;
      }
      rest := rest - {k};
    }
    b := true;
  }

  lemma {:induction false} ReadPairsIsLookup(content: seq<Y>, key: string)
    requires |content| % 2 == 0 && Distinct(Keys(content))
    ensures key in ReadPairs(content) <==> ValueOf(content, key).Some?
    ensures key in ReadPairs(content) ==> ReadPairs(content)[key] == ValueOf(content, key).value.value
  {
    if |content| >= 2 {
      assert Keys(content)[1..] == Keys(content[2..]);
      ReadPairsIsLookup(content[2..], key);
      if content[0].value == key {
        ReadPairsIsLookup(content[2..], key);
        NotLater(content, key);
      }
    }
  }

  lemma NotLater(content: seq<Y>, key: string)
    requires |content| >= 2 && Distinct(Keys(content)) && content[0].value == key
    ensures ValueOf(content[2..], key).None?
  {
    HasKeyIffListed(content[2..], key);
    ValueOfIsLookup(content[2..], key);
    assert Keys(content)[0] == key && Keys(content)[1..] == Keys(content[2..]);
    assert forall k :: k in Keys(content)[1..] ==> k != key;
  }

  /** What was rendered reads back as the same map: the recognition rests on this. */
  lemma RenderReads(m: map<string, string>)
    ensures Proper(RenderMap(m)) && RenderMap(m).kind == MappingNode && ReadPairs(RenderMap(m).content) == m
  {
    MapIsProper(m);
    forall k ensures k in ReadPairs(RenderMap(m).content) <==> k in m
      ensures k in m ==> ReadPairs(RenderMap(m).content)[k] == m[k]
    {
      ReadPairsIsLookup(RenderMap(m).content, k);
      ValueOfIsLookup(RenderMap(m).content, k);
      RenderLookup(m, k);
    }
  }

  lemma RenderLookup(m: map<string, string>, k: string)
    ensures MapValue(RenderMap(m), k) == if k in m then Some(Str(m[k])) else None
    ensures RenderMap(m).kind == MappingNode
  {
    MapIsProper(m);
    var keys := InOrder(m.Keys);
    var fields := MapFields(m, keys);
    if k in m {
      assert k in Elements(keys);
      var i :| 0 <= i < |keys| && keys[i] == k;
      SortedIsDistinct(keys, i);
      FieldsAll(EMPTY_MAPPING, fields, i);
    } else {
      assert forall i :: 0 <= i < |keys| ==> keys[i] in Elements(keys);
      FieldsElsewhere(EMPTY_MAPPING, fields, k);
    }
  }

  lemma SortedIsDistinct(keys: seq<string>, i: nat)
    requires Sorted(keys) && i < |keys|
    ensures forall j :: 0 <= j < |keys| && j != i ==> keys[j] != keys[i]
  {
    LessIsTotal(keys[i], keys[i]);
  }

  // ---------- AddRouteYAML ----------

  ghost function RouteFields(r: Route): seq<Field> {
    [Field(r.criteria != map[], "match", RenderMap(r.criteria)), StrField("notifier", r.notifier)]
  }

  ghost function RouteNode(r: Route): Y {
    WithFields(EMPTY_MAPPING, RouteFields(r))
  }

  predicate SameRoute(item: Y, notifier: string, want: map<string, string>) {
    HasText(item, "notifier", notifier) && MatchEquals(MapValue(item, "match"), want)
  }

  function SameRouteAs(r: Route): Y -> bool {
    item => SameRoute(item, r.notifier, r.criteria)
  }

  ghost function AddRoute(f: File, r: Route): Option<File> {
    Upsert(f, "routes", r.notifier != "", SameRouteAs(r), RouteNode(r))
  }

  lemma RouteNodeReads(r: Route)
    ensures Proper(RouteNode(r)) && RouteNode(r).kind == MappingNode
    ensures MapValue(RouteNode(r), "match") == if r.criteria != map[] then Some(RenderMap(r.criteria)) else None
    ensures MapValue(RouteNode(r), "notifier") == if r.notifier != "" then Some(Str(r.notifier)) else None
  {
    MapIsProper(r.criteria);
    FieldReads(RouteFields(r), 0);
    FieldReads(RouteFields(r), 1);
  }

  /** The route an entry stands for. */
  function ReadRoute(item: Y): Route {
    Route(MatchOf(MapValue(item, "match")), Text(item, "notifier"))
  }

  /** Every route reads back from its entry. */
  lemma RouteReadsBack(r: Route)
    ensures ReadRoute(RouteNode(r)) == r
  {
    RouteNodeReads(r);
    RenderReads(r.criteria);
  }

  /** An entry is recognised by what it was written from. */
  lemma WrittenIsRecognised(r: Route)
    requires r.notifier != ""
    ensures SameRoute(RouteNode(r), r.notifier, r.criteria)
    ensures MatchOf(MapValue(RouteNode(r), "match")) == r.criteria
  {
    RouteNodeReads(r);
    RenderReads(r.criteria);
  }

  /** Re-running keeps what one run leaves. */
  lemma RouteTwice(f: File, r: Route)
    requires ProperFile(f) && r.notifier != "" && AddRoute(f, r).Some?
    ensures AddRoute(AddRoute(f, r).value, r) == AddRoute(f, r)
  {
    WrittenIsRecognised(r);
    UpsertTwice(f, "routes", SameRouteAs(r), RouteNode(r), RouteNode(r));
  }

  predicate NoEmptyValue(want: map<string, string>) {
    forall k :: k in want ==> want[k] != ""
  }

  lemma SameSize<T>(a: set<T>, b: set<T>)
    requires a <= b && |a| == |b|
    ensures a == b
  {
    assert |b - a| == |b| - |a|;
  }

  lemma EqualWhenNoneEmpty(node: Option<Y>, want: map<string, string>)
    requires NoEmptyValue(want)
    ensures MatchEquals(node, want) <==> MatchOf(node) == want
  {
    if node.Some? && node.value.kind == MappingNode && MatchEquals(node, want) {
      var got := ReadPairs(node.value.content);
      assert want.Keys <= got.Keys;
      SameSize(want.Keys, got.Keys);
    }
  }

  /** A key no map of these has. */
  function LongerThanAll(keys: seq<string>): (k: string)
    ensures k != "" && forall j :: j in keys ==> |j| < |k|
  {
    if keys == [] then "x"
    else
      var k := LongerThanAll(keys[1..]);
      if |keys[0]| < |k| then k else keys[0] + "x"
  }

  /** The entry matchEquals mistakes for one that wants an empty value. */
  ghost function Impostor(want: map<string, string>, empty: string): map<string, string> {
    (want - {empty})[LongerThanAll(InOrder(want.Keys)) := "any"]
  }

  lemma ImpostorSize(want: map<string, string>, empty: string)
    requires empty in want
    ensures var other := LongerThanAll(InOrder(want.Keys));
      && other !in want && Impostor(want, empty).Keys == want.Keys - {empty} + {other}
      && |Impostor(want, empty)| == |want|
  {
    var other := LongerThanAll(InOrder(want.Keys));
    assert forall k :: k in want ==> k in Elements(InOrder(want.Keys));
    assert |want.Keys - {empty} + {other}| == |want.Keys|;
    assert Impostor(want, empty).Keys == want.Keys - {empty} + {other};
  }

  lemma ImpostorPasses(want: map<string, string>, empty: string)
    requires empty in want && want[empty] == ""
    ensures Impostor(want, empty) != want
    ensures MatchEquals(Some(RenderMap(Impostor(want, empty))), want)
  {
    ImpostorSize(want, empty);
    RenderReads(Impostor(want, empty));
    forall k | k in want ensures At(Impostor(want, empty), k) == want[k] {}
  }

  /**
   matchEquals is map equality exactly for the maps without an empty value: it looks absent keys up
   as empty.
   */
  lemma MatchEqualsIsEquality(want: map<string, string>)
    ensures NoEmptyValue(want) <==> forall node :: MatchEquals(node, want) <==> MatchOf(node) == want
  {
    if NoEmptyValue(want) {
      forall node: Option<Y> ensures MatchEquals(node, want) <==> MatchOf(node) == want {
        EqualWhenNoneEmpty(node, want);
      }
    } else {
      var empty :| empty in want && want[empty] == "";
      var node := Some(RenderMap(Impostor(want, empty)));
      RenderReads(Impostor(want, empty));
      ImpostorPasses(want, empty);
      assert MatchOf(node) != want;
    }
  }

  function RouteOf(notifier: string, want: map<string, string>): Y -> bool {
    item => RouteIs(item, notifier, want)
  }

  predicate RouteIs(item: Y, notifier: string, want: map<string, string>) {
    HasText(item, "notifier", notifier) && MatchOf(MapValue(item, "match")) == want
  }

  /** The list after adding a route without empty match values. */
  lemma RouteItems(before: seq<Y>, r: Route, notifier: string, want: map<string, string>)
    requires r.notifier != "" && NoEmptyValue(r.criteria) && AtMostOne(before, RouteOf(notifier, want))
    ensures var after := Put(before, SameRouteAs(r), RouteNode(r));
      && AtMostOne(after, RouteOf(notifier, want))
      && RouteNode(r) in after
      && |before| <= |after| <= |before| + 1
      && forall i :: 0 <= i < |before| ==> after[i] == before[i] || RouteIs(before[i], r.notifier, r.criteria)
  {
    var same := SameRouteAs(r);
    RouteNodeReads(r);
    WrittenIsRecognised(r);
    PutInPlace(before, same, RouteNode(r));
    forall i | 0 <= i < |before| ensures same(before[i]) == RouteIs(before[i], r.notifier, r.criteria) {
      EqualWhenNoneEmpty(MapValue(before[i], "match"), r.criteria);
    }
    PutKeepsAtMostOne(before, same, RouteNode(r), RouteOf(notifier, want));
  }

  /**
   Adding a route without empty match values: one entry per (notifier, match) stays one, the others
   stay in place, the route is there, and other keys are untouched.
   */
  lemma RouteInPlace(f: File, r: Route, notifier: string, want: map<string, string>, other: string)
    requires ProperFile(f) && AddRoute(f, r).Some? && r.notifier != "" && NoEmptyValue(r.criteria)
    requires AtMostOne(Items(f, "routes"), RouteOf(notifier, want))
    ensures var g := AddRoute(f, r).value;
      && var before, after := Items(f, "routes"), Items(g, "routes");
      && ProperFile(g)
      && AtMostOne(after, RouteOf(notifier, want))
      && RouteNode(r) in after
      && |before| <= |after| <= |before| + 1
      && (forall i :: 0 <= i < |before| ==> after[i] == before[i] || RouteIs(before[i], r.notifier, r.criteria))
      && (other != "routes" ==> MapValue(LoadRoot(g).value, other) == MapValue(LoadRoot(f).value, other))
  {
    RouteNodeReads(r);
    UpsertItems(f, "routes", true, SameRouteAs(r), RouteNode(r), other);
    RouteItems(Items(f, "routes"), r, notifier, want);
  }

  /** With an empty match value, writing one route can overwrite another: the entry with a different match is lost. */
  lemma EmptyValueOverwrites(want: map<string, string>, empty: string, notifier: string)
    requires empty in want && want[empty] == "" && notifier != ""
    ensures var victim, r := Route(Impostor(want, empty), notifier), Route(want, notifier);
      && victim != r
      && Put([RouteNode(victim)], SameRouteAs(r), RouteNode(r)) == [RouteNode(r)]
  {
    var victim := Route(Impostor(want, empty), notifier);
    ImpostorPasses(want, empty);
    RouteNodeReads(victim);
    assert SameRoute(RouteNode(victim), notifier, want);
  }

  // ---------- Notifiers, read back ----------

  function Texts(m: Y, key: string): seq<string> {
    match MapValue(m, key)
    case None => []
    case Some(list) => seq(|list.content|, i requires 0 <= i < |list.content| => list.content[i].value)
  }

  predicate TrueAt(m: Y, key: string) {
    MapValue(m, key).Some? && MapValue(m, key).value.tag == "!!bool" && MapValue(m, key).value.value == "true"
  }

  /** The notifier an entry stands for. */
  function ReadNotifier(m: Y): Notifier {
    Notifier(Text(m, "name"), Text(m, "type"), Text(m, "url"),
             Text(m, "smtp_host"), IntAt(m, "smtp_port"), Text(m, "username"), Text(m, "password"),
             Text(m, "from"), Texts(m, "to"), TrueAt(m, "allow_plaintext"),
             MatchOf(MapValue(m, "headers")))
  }

  lemma NotifierKeysDiffer(n: Notifier, i: nat, j: nat)
    requires i < 11 && j < 11 && i != j
    ensures NotifierFields(n)[i].key != NotifierFields(n)[j].key
  {}

  lemma NotifierField(n: Notifier, i: nat)
    requires i < 11
    ensures var f := NotifierFields(n)[i];
      MapValue(NotifierNode(n), f.key) == if f.present then Some(f.v) else None
  {
    MapIsProper(n.headers);
    forall j | 0 <= j < 11
      ensures Proper(NotifierFields(n)[j].v) && (j != i ==> NotifierFields(n)[j].key != NotifierFields(n)[i].key)
    {
      if j != i {
        NotifierKeysDiffer(n, i, j);
      }
    }
    FieldReads(NotifierFields(n), i);
  }

  lemma NotifierText(n: Notifier, i: nat, key: string, value: string)
    requires i < 11 && NotifierFields(n)[i] == StrField(key, value)
    ensures Text(NotifierNode(n), key) == value
  {
    NotifierField(n, i);
  }

  lemma NotifierTexts(n: Notifier)
    ensures var m := NotifierNode(n);
      && Text(m, "name") == n.name && Text(m, "type") == n.sort && Text(m, "url") == n.url
        && Text(m, "smtp_host") == n.smtpHost
      && Text(m, "username") == n.username && Text(m, "password") == n.password && Text(m, "from") == n.from
  {
    NotifierText(n, 0, "name", n.name);
    NotifierText(n, 1, "type", n.sort);
    NotifierText(n, 2, "url", n.url);
    NotifierText(n, 3, "smtp_host", n.smtpHost);
    NotifierText(n, 5, "username", n.username);
    NotifierText(n, 6, "password", n.password);
    NotifierText(n, 7, "from", n.from);
  }

  lemma NotifierPort(n: Notifier)
    requires n.smtpPort <= MAX_INT64
    ensures IntAt(NotifierNode(n), "smtp_port") == if n.smtpPort > 0 then n.smtpPort else 0
  {
    NotifierField(n, 4);
    if n.smtpPort > 0 {
      ParseItoa(n.smtpPort);
    }
  }

  lemma NotifierRecipients(n: Notifier)
    ensures Texts(NotifierNode(n), "to") == n.to
  {
    NotifierField(n, 8);
  }

  lemma NotifierPlaintext(n: Notifier)
    ensures TrueAt(NotifierNode(n), "allow_plaintext") == n.allowPlaintext
  {
    NotifierField(n, 9);
  }

  lemma NotifierHeaders(n: Notifier)
    ensures MatchOf(MapValue(NotifierNode(n), "headers")) == n.headers
  {
    NotifierField(n, 10);
    RenderReads(n.headers);
  }

  /** A notifier reads back from its entry, headers and recipients included, exactly if its port is not negative. */
  lemma NotifierReadsBack(n: Notifier)
    requires n.smtpPort <= MAX_INT64
    ensures ReadNotifier(NotifierNode(n)) == n <==> n.smtpPort >= 0
  {
    NotifierTexts(n);
    NotifierPort(n);
    NotifierRecipients(n);
    NotifierPlaintext(n);
    NotifierHeaders(n);
  }

  /** A new notifier has the keys that are set, and no other of these. */
  lemma NotifierOmitsUnset(n: Notifier)
    ensures var b := NotifierNode(n);
      && (MapValue(b, "name").Some? <==> n.name != "") && (MapValue(b, "type").Some? <==> n.sort != "")
      && (MapValue(b, "url").Some? <==> n.url != "") && (MapValue(b, "smtp_host").Some? <==> n.smtpHost != "")
      && (MapValue(b, "smtp_port").Some? <==> n.smtpPort > 0) && (MapValue(b, "username").Some? <==> n.username != "")
      && (MapValue(b, "password").Some? <==> n.password != "") && (MapValue(b, "from").Some? <==> n.from != "")
      && (MapValue(b, "to").Some? <==> n.to != []) && (MapValue(b, "allow_plaintext").Some? <==> n.allowPlaintext)
      && (MapValue(b, "headers").Some? <==> n.headers != map[])
  {
    NotifierField(n, 0);
    NotifierField(n, 1);
    NotifierField(n, 2);
    NotifierField(n, 3);
    NotifierField(n, 4);
    NotifierField(n, 5);
    NotifierField(n, 6);
    NotifierField(n, 7);
    NotifierField(n, 8);
    NotifierField(n, 9);
    NotifierField(n, 10);
  }

  /** Without a name, or without a notifier, nothing is recognised: the entry goes last. */
  lemma UnnamedGoesLast(f: File, n: Notifier, r: Route)
    requires ProperFile(f)
    ensures n.name == "" && AddNotifier(f, n).Some? ==>
      Items(AddNotifier(f, n).value, "notifiers") == Items(f, "notifiers") + [NotifierNode(n)]
    ensures r.notifier == "" && AddRoute(f, r).Some? ==>
      Items(AddRoute(f, r).value, "routes") == Items(f, "routes") + [RouteNode(r)]
  {
    if AddNotifier(f, n).Some? {
      NotifierNodeName(n);
      UpsertItems(f, "notifiers", n.name != "", SameName(n.name), NotifierNode(n), "notifiers");
    }
    if AddRoute(f, r).Some? {
      RouteNodeReads(r);
      UpsertItems(f, "routes", r.notifier != "", SameRouteAs(r), RouteNode(r), "routes");
    }
  }
}
