/**
 The node tree of the YAML library as it is in memory: objects that internal/config/mutate.go
 updates in place. A snapshot records which objects a tree is made of, so that each update is
 proved to compute the matching edit of YamlTree.
 */
module YamlHeap {
  import opened Prelude
  import opened YamlTree

  class Node {
    var kind: Kind
    var tag: string
    var value: string
    var comment: string
    var content: seq<Node>

    constructor (kind: Kind, tag: string, value: string)
      ensures this.kind == kind && this.tag == tag && this.value == value && comment == "" && content == []
    {
      this.kind, this.tag, this.value, comment, content := kind, tag, value, "", [];
    }
  }

  /** A tree of objects: its root, what the root's fields are, its kids, and all objects it owns. */
  datatype Snap = Snap(node: Node, kind: Kind, tag: string, value: string, comment: string, kids: seq<Snap>,
                       repr: set<Node>)

  /** The document a snapshot stands for. */
  ghost function Doc(s: Snap): Y {
    Y(s.kind, s.tag, s.value, s.comment, Docs(s.kids))
  }

  ghost function Docs(kids: seq<Snap>): (docs: seq<Y>)
    ensures |docs| == |kids| && forall i :: 0 <= i < |kids| ==> docs[i] == Doc(kids[i])
  {
    seq(|kids|, i requires 0 <= i < |kids| => Doc(kids[i]))
  }

  ghost predicate Shape(s: Snap)
    reads s.node
  {
    && s.node.kind == s.kind && s.node.tag == s.tag && s.node.value == s.value && s.node.comment == s.comment
    && |s.node.content| == |s.kids|
    && forall i :: 0 <= i < |s.kids| ==> s.node.content[i] == s.kids[i].node
  }

  /** No object occurs twice: the parser shares nothing where there are no aliases. */
  ghost predicate Apart(node: Node, kids: seq<Snap>, repr: set<Node>) {
    && node in repr
    && (forall i :: 0 <= i < |kids| ==> kids[i].repr <= repr && node !in kids[i].repr)
    && forall i, j :: 0 <= i < j < |kids| ==> kids[i].repr !! kids[j].repr
  }

  /** The objects are as the snapshot says, and form a tree. */
  ghost predicate Holds(s: Snap)
    reads s.repr
    decreases s
  {
    && Apart(s.node, s.kids, s.repr)
    && Shape(s)
    && forall i :: 0 <= i < |s.kids| ==> Holds(s.kids[i])
  }

  // ---------- A place inside a tree ----------

  /** Where a node hangs: as kid i of a parent, which hangs somewhere itself. */
  datatype Place = Top | Under(up: Place, parent: Snap, i: nat, around: set<Node>)

  /** All objects of the tree but those below the place. */
  ghost function Around(p: Place): set<Node> {
    if p.Top? then {} else p.around
  }

  ghost predicate Fits(p: Place) {
    p.Under? ==>
      && p.i < |p.parent.kids| && Apart(p.parent.node, p.parent.kids, p.parent.repr)
      && p.around == p.parent.repr - p.parent.kids[p.i].repr + Around(p.up)
      && Fits(p.up)
  }

  /** Everything around the place is as recorded, and n hangs there. */
  ghost predicate Hangs(p: Place, n: Node)
    requires Fits(p)
    reads Around(p)
  {
    p.Under? ==>
      && p.parent.repr !! Around(p.up)
      && Shape(p.parent.(kids := p.parent.kids[p.i := p.parent.kids[p.i].(node := n)]))
      && (forall j :: 0 <= j < |p.parent.kids| && j != p.i ==>
           p.parent.kids[j].repr <= Around(p) && Holds(p.parent.kids[j]))
      && Hangs(p.up, p.parent.node)
  }

  /** The parent with another kid in the place. */
  ghost function Filled(p: Place, s: Snap): Snap
    requires Fits(p) && p.Under?
  {
    p.parent.(kids := p.parent.kids[p.i := s], repr := p.parent.repr - p.parent.kids[p.i].repr + s.repr)
  }

  ghost function Plug(p: Place, s: Snap): Snap
    requires Fits(p)
  {
    if p.Top? then s else Plug(p.up, Filled(p, s))
  }

  ghost function PlugDoc(p: Place, y: Y): Y
    requires Fits(p)
  {
    if p.Top? then y else PlugDoc(p.up, Doc(p.parent).(content := Docs(p.parent.kids)[p.i := y]))
  }

  ghost function RootOf(p: Place, n: Node): Node {
    if p.Top? then n else RootOf(p.up, p.parent.node)
  }

  lemma FilledHolds(p: Place, s: Snap)
    requires Fits(p) && p.Under? && Hangs(p, s.node) && Holds(s) && Around(p) !! s.repr
    ensures Holds(Filled(p, s)) && Around(p.up) !! Filled(p, s).repr
    ensures Docs(Filled(p, s).kids) == Docs(p.parent.kids)[p.i := Doc(s)]
  {}

  lemma {:induction false} PlugHolds(p: Place, s: Snap)
    requires Fits(p) && Hangs(p, s.node) && Holds(s) && Around(p) !! s.repr
    ensures Holds(Plug(p, s)) && Plug(p, s).node == RootOf(p, s.node) && Doc(Plug(p, s)) == PlugDoc(p, Doc(s))
    ensures Plug(p, s).repr <= Around(p) + s.repr
    decreases p
  {
    if p.Under? {
      FilledHolds(p, s);
      PlugHolds(p.up, Filled(p, s));
    }
  }

  ghost function Below(p: Place, s: Snap, i: nat): Place
    requires i < |s.kids|
  {
    Under(p, s, i, s.repr - s.kids[i].repr + Around(p))
  }

  /** Stepping down to a kid. */
  lemma Descend(p: Place, s: Snap, i: nat)
    requires Fits(p) && Hangs(p, s.node) && Holds(s) && Around(p) !! s.repr && i < |s.kids|
    ensures var q := Below(p, s, i);
      && Fits(q) && Hangs(q, s.kids[i].node) && Holds(s.kids[i]) && Around(q) !! s.kids[i].repr
      && Around(q) + s.kids[i].repr == Around(p) + s.repr
  {
    assert s.kids[i := s.kids[i].(node := s.kids[i].node)] == s.kids;
  }

  // ---------- mapValue, setMapValue, deleteMapKey ----------

  /** The key is not among the pairs before index i. */
  ghost predicate Scanned(content: seq<Y>, key: string, i: nat) {
    i <= |content| && KeyAt(content, key) == i + KeyAt(content[i..], key)
  }

  lemma KeyFurther(content: seq<Y>, key: string, i: nat)
    requires Scanned(content, key, i)
    ensures i + 1 >= |content| ==> KeyAt(content, key) + 1 >= |content|
    ensures i + 1 < |content| && content[i].value == key ==> KeyAt(content, key) == i
    ensures i + 1 < |content| && content[i].value != key ==> Scanned(content, key, i + 2)
  {
    if i + 1 < |content| {
      assert content[i..][2..] == content[i + 2..];
    }
  }

  lemma KidValue(s: Snap, i: nat)
    requires Holds(s) && i < |s.kids|
    ensures i < |s.node.content| && s.node.content[i].value == Docs(s.kids)[i].value
    ensures s.node.content[i].kind == Docs(s.kids)[i].kind
  {
    assert Holds(s.kids[i]);
  }

  /** The scan the three helpers share: the index of the key, if a value follows it. */
  method FindKey(m: Node, key: string, ghost ms: Snap) returns (i: nat)
    requires m == ms.node && Holds(ms)
    ensures i + 1 < |ms.kids| <==> HasKey(Docs(ms.kids), key)
    ensures i + 1 < |ms.kids| ==> i == KeyAt(Docs(ms.kids), key)
  {
    ghost var docs := Docs(ms.kids);
    i := 0;
    while i + 1 < |m.content| && m.content[i].value != key
      invariant Scanned(docs, key, i)
    {
      KidValue(ms, i);
      KeyFurther(docs, key, i);
      i := i + 2;
    }
    if i + 1 < |m.content| {
      KidValue(ms, i);
    }
    KeyFurther(docs, key, i);
  }

  method MapValueOf(m: Node, key: string, ghost ms: Snap) returns (r: Node?, ghost i: nat)
    requires m == ms.node && Holds(ms)
    ensures r == null <==> MapValue(Doc(ms), key).None?
    ensures r != null ==> i == KeyAt(Docs(ms.kids), key) + 1 < |ms.kids| && r == ms.kids[i].node
    ensures r != null ==> MapValue(Doc(ms), key) == Some(Doc(ms.kids[i]))
  {
    r, i := null, 0;
    if m.kind != MappingNode {
      return;
    }
    var k := FindKey(m, key, ms);
    if k + 1 < |m.content| {
      r, i := m.content[k + 1], k + 1;
    }
  }

  /** What a tree becomes when a kid is replaced or appended, or two are cut out. */
  lemma Replaced(s: Snap, i: nat, v: Snap)
    requires Apart(s.node, s.kids, s.repr) && s.repr !! v.repr && i < |s.kids|
    ensures Apart(s.node, s.kids[i := v], s.repr + v.repr)
    ensures Docs(s.kids[i := v]) == Docs(s.kids)[i := Doc(v)]
  {}

  lemma Appended(s: Snap, v: Snap)
    requires Apart(s.node, s.kids, s.repr) && s.repr !! v.repr
    ensures Apart(s.node, s.kids + [v], s.repr + v.repr)
    ensures Docs(s.kids + [v]) == Docs(s.kids) + [Doc(v)]
  {}

  lemma CutOut(s: Snap, i: nat)
    requires Apart(s.node, s.kids, s.repr) && i + 2 <= |s.kids|
    ensures var kids := s.kids[..i] + s.kids[i + 2..];
      && Apart(s.node, kids, s.repr)
      && Docs(kids) == YamlTree.Without(Docs(s.kids), i)
      && forall k :: k in kids ==> k in s.kids
  {}

  /** Where setMapValue puts a value. */
  function SlotFor(content: seq<Y>, key: string): nat {
    if HasKey(content, key) then KeyAt(content, key) + 1 else |content| + 1
  }

  method SetMapValueOf(m: Node, key: string, v: Node, ghost ms: Snap, ghost vs: Snap) returns (ghost rs: Snap)
    requires m == ms.node && Holds(ms) && v == vs.node && Holds(vs) && ms.repr !! vs.repr
    modifies m`content
    ensures rs.node == m && Holds(rs) && Doc(rs) == SetMapValue(Doc(ms), key, Doc(vs))
    ensures ms.repr <= rs.repr && fresh(rs.repr - ms.repr - vs.repr)
    ensures var at := SlotFor(Docs(ms.kids), key); at < |rs.kids| && rs.kids[at] == vs
  {
    var i := FindKey(m, key, ms);
    if i + 1 < |m.content| {
      rs := ReplaceKid(m, i + 1, v, ms, vs);
    } else {
      var k := new Node(ScalarNode, "!!str", key);
      rs := AppendPair(m, k, v, ms, Snap(k, ScalarNode, "!!str", key, "", [], {k}), vs);
    }
  }

  method ReplaceKid(m: Node, i: nat, v: Node, ghost ms: Snap, ghost vs: Snap) returns (ghost rs: Snap)
    requires m == ms.node && Holds(ms) && v == vs.node && Holds(vs) && ms.repr !! vs.repr && i < |ms.kids|
    modifies m`content
    ensures rs == ms.(kids := ms.kids[i := vs], repr := ms.repr + vs.repr) && Holds(rs)
    ensures Docs(rs.kids) == Docs(ms.kids)[i := Doc(vs)]
  {
    m.content := m.content[i := v];
    Replaced(ms, i, vs);
    rs := ms.(kids := ms.kids[i := vs], repr := ms.repr + vs.repr);
  }

  method AppendPair(m: Node, k: Node, v: Node, ghost ms: Snap, ghost ks: Snap, ghost vs: Snap) returns (ghost rs: Snap)
    requires m == ms.node && Holds(ms) && k == ks.node && Holds(ks) && v == vs.node && Holds(vs)
    requires ms.repr !! vs.repr && ms.repr !! ks.repr && ks.repr !! vs.repr
    modifies m`content
    ensures rs == ms.(kids := ms.kids + [ks, vs], repr := ms.repr + ks.repr + vs.repr) && Holds(rs)
    ensures Docs(rs.kids) == Docs(ms.kids) + [Doc(ks), Doc(vs)]
  {
    m.content := m.content + [k, v];
    ghost var mid := ms.(kids := ms.kids + [ks], repr := ms.repr + ks.repr);
    Appended(ms, ks);
    Appended(mid, vs);
    assert ms.kids + [ks, vs] == mid.kids + [vs];
    rs := ms.(kids := ms.kids + [ks, vs], repr := ms.repr + ks.repr + vs.repr);
  }

  method DeleteMapKeyOf(m: Node, key: string, ghost ms: Snap) returns (removed: bool, ghost rs: Snap)
    requires m == ms.node && Holds(ms)
    modifies m`content
    ensures rs.node == m && Holds(rs) && rs.repr == ms.repr
    ensures Doc(rs) == DeleteMapKey(Doc(ms), key) && removed == MapValue(Doc(ms), key).Some?
  {
    removed, rs := false, ms;
    if m.kind != MappingNode {
      return;
    }
    var i := FindKey(m, key, ms);
    if i + 1 < |m.content| {
      rs := CutPair(m, i, ms);
      removed := true;
    }
  }

  method CutPair(m: Node, i: nat, ghost ms: Snap) returns (ghost rs: Snap)
    requires m == ms.node && Holds(ms) && i + 2 <= |ms.kids|
    modifies m`content
    ensures rs == ms.(kids := ms.kids[..i] + ms.kids[i + 2..]) && Holds(rs)
    ensures Docs(rs.kids) == YamlTree.Without(Docs(ms.kids), i)
  {
    m.content := m.content[..i] + m.content[i + 2..];
    rs := ms.(kids := ms.kids[..i] + ms.kids[i + 2..]);
    CutOut(ms, i);
  }

  // ---------- Parsing and marshalling ----------

  /** The tree the parser builds for a document without aliases. */
  method Build(y: Y) returns (n: Node, ghost s: Snap)
    ensures n == s.node && Holds(s) && Doc(s) == y && fresh(s.repr)
  {
    n := new Node(y.kind, y.tag, y.value);
    n.comment := y.comment;
    var content: seq<Node> := [];
    ghost var kids: seq<Snap> := [];
    ghost var repr := {n};
    for i := 0 to |y.content|
      invariant |kids| == |content| == i
      invariant n.kind == y.kind && n.tag == y.tag && n.value == y.value && n.comment == y.comment
      invariant forall j :: 0 <= j < i ==> content[j] == kids[j].node && Holds(kids[j]) && Doc(kids[j]) == y.content[j]
      invariant fresh(repr) && Apart(n, kids, repr)
    {
      var kid, ks := Build(y.content[i]);
      content, kids, repr := content + [kid], kids + [ks], repr + ks.repr;
    }
    n.content := content;
    s := Snap(n, y.kind, y.tag, y.value, y.comment, kids, repr);
    assert Docs(kids) == y.content;
  }

  /** What the marshaller writes. */
  method Render(n: Node, ghost s: Snap) returns (y: Y)
    requires n == s.node && Holds(s)
    ensures y == Doc(s)
    decreases s
  {
    var content: seq<Y> := [];
    for i := 0 to |n.content|
      invariant |content| == i
      invariant forall j :: 0 <= j < i ==> content[j] == Doc(s.kids[j])
    {
      var kid := Render(n.content[i], s.kids[i]);
      content := content + [kid];
    }
    assert content == Docs(s.kids);
    y := Y(n.kind, n.tag, n.value, n.comment, content);
  }
}
