/**
 The pieces the config.yaml writers share (internal/config/mutate.go): loading the tree, walking to
 a node and updating it in place, each proved to compute an edit of the document.
 */
module TreeEdits {
  import opened Prelude
  import opened YamlTree
  import opened YamlHeap
  import opened ConfigEdits
  import opened SetupWriters

  method IsNullNode(n: Node, ghost s: Snap) returns (b: bool)
    requires n == s.node && Holds(s)
    ensures b == IsNull(Doc(s))
  {
    b := n.kind == ScalarNode && (n.tag == "!!null" || n.value == "");
  }

  /** loadDocRoot: null is an error. */
  method LoadDocRoot(f: File) returns (root: Node?, missing: bool, ghost s: Snap)
    ensures root == null <==> LoadRoot(f).None?
    ensures root != null ==> root == s.node && Holds(s) && fresh(s.repr) && LoadRoot(f) == Some(Doc(s))
    // An error is an unreadable file, or a document that is neither a mapping nor null.
    ensures root == null <==>
      f.Broken? || (f.Document? && f.root.kind != MappingNode
                    && !(f.root.kind == ScalarNode && (f.root.tag == "!!null" || f.root.value == "")))
    ensures root != null ==>
      Doc(s) == if f.Document? && f.root.kind == MappingNode then f.root
                else Y(MappingNode, "!!map", "", if f.Blank? then f.comment else "", [])
    ensures missing == f.Missing?
  {
    missing := f.Missing?;
    root, s := Build(EMPTY_MAPPING);
    match f
    case Missing =>
    case Broken =>
      root := null;
    case Blank(comment) =>
      root.comment := comment;
      s := s.(comment := comment);
    case Document(y) =>
      root, s := Build(y);
      var isNull := IsNullNode(root, s);
      if isNull {
        root.kind, root.tag, root.value, root.comment, root.content := MappingNode, "!!map", "", "", [];
        s := Snap(root, MappingNode, "!!map", "", "", [], s.repr);
        assert Doc(s) == EMPTY_MAPPING;
      }
      if root.kind != MappingNode {
        root := null;
      }
  }

  lemma SlotSet(d: Y, key: string, v: Y, w: Y)
    ensures var m, at := SetMapValue(d, key, v), SlotFor(d.content, key);
      at < |m.content| && m.content[at] == v && m.(content := m.content[at := w]) == SetMapValue(d, key, w)
  {
    if !HasKey(d.content, key) {
      assert (d.content + [Str(key), v])[|d.content| + 1 := w] == d.content + [Str(key), w];
    }
  }

  /** One step of SetKeyYAML's walk, seen from the root. */
  lemma WalkStep(p: Place, d: Y, path: seq<string>, v: Y, s: Snap)
    requires Fits(p) && |path| >= 2 && Apart(s.node, s.kids, s.repr)
    requires Doc(s) == SetMapValue(d, path[0], Step(d, path[0]))
    ensures var at := SlotFor(d.content, path[0]);
      && at < |s.kids| && Doc(s.kids[at]) == Step(d, path[0])
      && PlugDoc(Below(p, s, at), SetPath(Step(d, path[0]), path[1..], v)) == PlugDoc(p, SetPath(d, path, v))
  {
    SlotSet(d, path[0], Step(d, path[0]), SetPath(Step(d, path[0]), path[1..], v));
  }

  /** The walk stands at node n, the root of s, with the rest of the tree around it. */
  ghost predicate StandsAt(p: Place, s: Snap, n: Node)
    requires Fits(p)
    reads Around(p), s.repr
  {
    Hangs(p, n) && s.node == n && Holds(s) && Around(p) !! s.repr
  }

  ghost function Reach(p: Place, s: Snap): set<Node>
    requires Fits(p)
  {
    Around(p) + s.repr
  }

  method NewMapping(cur: Node, key: string, ghost s: Snap) returns (next: Node, ghost cs: Snap)
    requires cur == s.node && Holds(s)
    modifies cur`content
    ensures cs.node == cur && Holds(cs) && s.repr <= cs.repr && fresh(cs.repr - s.repr)
    ensures Doc(cs) == SetMapValue(Doc(s), key, EMPTY_MAPPING)
    ensures var at := SlotFor(Docs(s.kids), key); at < |cs.kids| && next == cs.kids[at].node
  {
    var m, ms := Build(EMPTY_MAPPING);
    cs := SetMapValueOf(cur, key, m, s, ms);
    next := m;
  }

  lemma MappingThere(s: Snap, key: string, i: nat)
    requires MapValue(Doc(s), key).Some? && i == KeyAt(Docs(s.kids), key) + 1 < |s.kids|
    requires s.kids[i].kind == MappingNode
    ensures Doc(s) == SetMapValue(Doc(s), key, Step(Doc(s), key)) && SlotFor(Docs(s.kids), key) == i
  {
    GetSet(Doc(s), key, Doc(s.kids[i]));
  }

  /** The mapping under a key, made where there is none. */
  method EnsureMapping(cur: Node, key: string, ghost s: Snap) returns (next: Node, ghost cs: Snap)
    requires cur == s.node && Holds(s)
    modifies cur`content
    ensures cs.node == cur && Holds(cs) && s.repr <= cs.repr && fresh(cs.repr - s.repr)
    ensures Doc(cs) == SetMapValue(Doc(s), key, Step(Doc(s), key))
    ensures var at := SlotFor(Docs(s.kids), key); at < |cs.kids| && next == cs.kids[at].node
  {
    var found, i := MapValueOf(cur, key, s);
    if found != null {
      assert Holds(s.kids[i]);
      if found.kind == MappingNode {
        MappingThere(s, key, i);
        return found, s;
      }
    }
    next, cs := NewMapping(cur, key, s);
  }

  /** Stepping into the mapping under a segment. */
  method StepInto(cur: Node, path: seq<string>, ghost p: Place, ghost s: Snap, ghost v: Y)
    returns (next: Node, ghost q: Place, ghost ns: Snap)
    requires |path| >= 2 && Fits(p) && StandsAt(p, s, cur)
    modifies cur`content
    ensures Fits(q) && StandsAt(q, ns, next) && RootOf(q, next) == RootOf(p, cur)
    ensures fresh(Reach(q, ns) - Reach(p, s))
    ensures PlugDoc(q, SetPath(Doc(ns), path[1..], v)) == PlugDoc(p, SetPath(Doc(s), path, v))
  {
    ghost var cs, at;
    next, cs := EnsureMapping(cur, path[0], s);
    assert StandsAt(p, cs, cur);
    at := SlotFor(Docs(s.kids), path[0]);
    WalkStep(p, Doc(s), path, v, cs);
    Descend(p, cs, at);
    q, ns := Below(p, cs, at), cs.kids[at];
  }

  /** The write at the end of the walk, seen from the root. */
  method SetLeaf(cur: Node, key: string, leaf: Y, ghost p: Place, ghost s: Snap) returns (ghost whole: Snap)
    requires Fits(p) && StandsAt(p, s, cur)
    modifies cur`content
    ensures Holds(whole) && whole.node == RootOf(p, cur) && Doc(whole) == PlugDoc(p, SetMapValue(Doc(s), key, leaf))
  {
    var n, ns := Build(leaf);
    ghost var cs := SetMapValueOf(cur, key, n, s, ns);
    assert Hangs(p, cur);
    PlugHolds(p, cs);
    whole := Plug(p, cs);
  }

  /** The walk over all but the last segment. */
  method Walk(root: Node, parts: seq<string>, ghost s: Snap, ghost v: Y)
    returns (cur: Node, ghost p: Place, ghost cs: Snap)
    requires root == s.node && Holds(s) && parts != []
    modifies s.repr
    ensures Fits(p) && StandsAt(p, cs, cur) && cur in Reach(p, cs) && fresh(Reach(p, cs) - s.repr)
    ensures RootOf(p, cur) == root
    ensures PlugDoc(p, SetMapValue(Doc(cs), parts[|parts| - 1], v)) == SetPath(Doc(s), parts, v)
  {
    cur, p, cs := root, Top, s;
    for i := 0 to |parts| - 1
      invariant Fits(p) && StandsAt(p, cs, cur) && fresh(Reach(p, cs) - s.repr) && RootOf(p, cur) == root
      invariant PlugDoc(p, SetPath(Doc(cs), parts[i..], v)) == SetPath(Doc(s), parts, v)
    {
      assert parts[i..][1..] == parts[i + 1..];
      cur, p, cs := StepInto(cur, parts[i..], p, cs, v);
    }
  }

  // ---------- Lists ----------

  /** The place below a key of the root: what is plugged in there is what the key is set to. */
  ghost predicate IsSlot(p: Place, d: Y, key: string)
    requires Fits(p)
  {
    forall x :: PlugDoc(p, x) == SetMapValue(d, key, x)
  }

  lemma SlotOf(d: Y, key: string, v: Y, rs: Snap)
    requires Apart(rs.node, rs.kids, rs.repr) && Doc(rs) == SetMapValue(d, key, v)
    ensures var at := SlotFor(d.content, key);
      && at < |rs.kids| && Doc(rs.kids[at]) == v
      && Fits(Below(Top, rs, at)) && IsSlot(Below(Top, rs, at), d, key)
  {
    var at := SlotFor(d.content, key);
    SlotSet(d, key, v, v);
    forall x ensures PlugDoc(Below(Top, rs, at), x) == SetMapValue(d, key, x) {
      SlotSet(d, key, v, x);
    }
  }

  /** Promoting a null to an empty sequence in place, so that its comment stays. */
  method Promote(n: Node, ghost p: Place, ghost k: Snap) returns (ghost ls: Snap)
    requires Fits(p) && StandsAt(p, k, n)
    modifies n
    ensures StandsAt(p, ls, n) && ls.repr == k.repr && Doc(ls) == Y(SequenceNode, "!!seq", "", k.comment, [])
  {
    n.kind, n.tag, n.value, n.content := SequenceNode, "!!seq", "", [];
    ls := k.(kind := SequenceNode, tag := "!!seq", value := "", kids := []);
    assert Docs(ls.kids) == [];
  }

  /** The list under a top-level key: made, promoted from null, or refused. */
  method EnsureList(root: Node, key: string, ghost s: Snap) returns (list: Node?, ghost p: Place, ghost ls: Snap)
    requires root == s.node && Holds(s) && root.kind == MappingNode
    modifies s.repr
    ensures list == null <==> ListUnder(Doc(s), key).None?
    ensures list != null ==>
      && Fits(p) && StandsAt(p, ls, list) && RootOf(p, list) == root && fresh(Reach(p, ls) - s.repr)
      && IsSlot(p, Doc(s), key) && ListUnder(Doc(s), key) == Some(Doc(ls))
  {
    var found, i := MapValueOf(root, key, s);
    if found == null {
      list, p, ls := NewList(root, key, s);
    } else {
      p, ls := Enter(root, key, i, s);
      list, ls := AsList(found, p, ls);
    }
  }

  /** Down to the node under a key that is there. */
  lemma Enter(root: Node, key: string, i: nat, s: Snap) returns (p: Place, ls: Snap)
    requires root == s.node && Holds(s) && i < |s.kids| && MapValue(Doc(s), key) == Some(Doc(s.kids[i]))
    requires i == SlotFor(Doc(s).content, key)
    ensures Fits(p) && StandsAt(p, ls, s.kids[i].node) && RootOf(p, s.kids[i].node) == root && Reach(p, ls) == s.repr
    ensures IsSlot(p, Doc(s), key) && ls == s.kids[i]
  {
    GetSet(Doc(s), key, Doc(s.kids[i]));
    SlotOf(Doc(s), key, Doc(s.kids[i]), s);
    Descend(Top, s, i);
    p, ls := Below(Top, s, i), s.kids[i];
  }

  /** A list as it is, a null promoted to one, anything else refused. */
  method AsList(found: Node, ghost p: Place, ghost k: Snap) returns (list: Node?, ghost ls: Snap)
    requires Fits(p) && StandsAt(p, k, found)
    modifies found
    ensures list == null <==> !IsNull(Doc(k)) && Doc(k).kind != SequenceNode
    ensures list != null ==> list == found && StandsAt(p, ls, list) && ls.repr == k.repr
    ensures list != null ==>
      Doc(ls) == if IsNull(Doc(k)) then Y(SequenceNode, "!!seq", "", Doc(k).comment, []) else Doc(k)
  {
    list, ls := found, k;
    var isNull := IsNullNode(found, k);
    if isNull {
      ls := Promote(found, p, k);
    } else if found.kind != SequenceNode {
      list := null;
    }
  }

  method NewList(root: Node, key: string, ghost s: Snap) returns (list: Node, ghost p: Place, ghost ls: Snap)
    requires root == s.node && Holds(s)
    modifies root`content
    ensures Fits(p) && StandsAt(p, ls, list) && RootOf(p, list) == root && fresh(Reach(p, ls) - s.repr)
    ensures IsSlot(p, Doc(s), key) && Doc(ls) == Y(SequenceNode, "!!seq", "", "", [])
  {
    list, ls := Build(Y(SequenceNode, "!!seq", "", "", []));
    ghost var rs := SetMapValueOf(root, key, list, s, ls);
    ghost var at := SlotFor(Docs(s.kids), key);
    SlotOf(Doc(s), key, Doc(ls), rs);
    Descend(Top, rs, at);
    p := Below(Top, rs, at);
  }

  method AppendKid(list: Node, item: Node, ghost ls: Snap, ghost ks: Snap) returns (ghost rs: Snap)
    requires list == ls.node && Holds(ls) && item == ks.node && Holds(ks) && ls.repr !! ks.repr
    modifies list`content
    ensures rs.node == list && Holds(rs) && rs.repr == ls.repr + ks.repr && Doc(rs) == Append(Doc(ls), Doc(ks))
  {
    list.content := list.content + [item];
    Appended(ls, ks);
    rs := ls.(kids := ls.kids + [ks], repr := ls.repr + ks.repr);
  }

  method AddField(n: Node, f: Field, ghost s: Snap) returns (ghost rs: Snap)
    requires n == s.node && Holds(s)
    modifies n`content
    ensures n == rs.node && Holds(rs) && fresh(rs.repr - s.repr) && Doc(rs) == WithField(Doc(s), f)
  {
    rs := s;
    if f.present {
      var v, vs := Build(f.v);
      rs := SetMapValueOf(n, f.key, v, s, vs);
    }
  }

  method BuildFields(fields: seq<Field>) returns (n: Node, ghost s: Snap)
    ensures n == s.node && Holds(s) && fresh(s.repr) && Doc(s) == WithFields(EMPTY_MAPPING, fields)
  {
    n, s := Build(EMPTY_MAPPING);
    for i := 0 to |fields|
      invariant n == s.node && Holds(s) && fresh(s.repr)
      invariant WithFields(Doc(s), fields[i..]) == WithFields(EMPTY_MAPPING, fields)
    {
      assert fields[i..][0] == fields[i] && fields[i..][1..] == fields[i + 1..];
      s := AddField(n, fields[i], s);
    }
  }

  /** Appending a new entry to a list, seen from the root. */
  method AppendItem(list: Node, item: Node, ghost p: Place, ghost ls: Snap, ghost ks: Snap) returns (ghost whole: Snap)
    requires Fits(p) && StandsAt(p, ls, list)
    requires item == ks.node && Holds(ks) && Reach(p, ls) !! ks.repr
    modifies list`content
    ensures Holds(whole) && whole.node == RootOf(p, list)
    ensures Doc(whole) == PlugDoc(p, Append(Doc(ls), Doc(ks)))
  {
    ghost var after := AppendKid(list, item, ls, ks);
    assert Hangs(p, list);
    PlugHolds(p, after);
    whole := Plug(p, after);
  }

  // ---------- Finding and filtering entries ----------

  /** The list under a top-level key, if there is one. */
  method FindList(root: Node, key: string, ghost s: Snap) returns (list: Node?, ghost p: Place, ghost ls: Snap)
    requires root == s.node && Holds(s)
    ensures list == null <==> MapValue(Doc(s), key).None? || MapValue(Doc(s), key).value.kind != SequenceNode
    ensures list != null ==>
      && Fits(p) && StandsAt(p, ls, list) && RootOf(p, list) == root && Reach(p, ls) <= s.repr
      && IsSlot(p, Doc(s), key) && MapValue(Doc(s), key) == Some(Doc(ls))
  {
    var found, i := MapValueOf(root, key, s);
    list, p, ls := null, Top, s;
    if found != null && found.kind == SequenceNode {
      list := found;
      p, ls := Enter(root, key, i, s);
    }
  }

  method NodeHasText(item: Node, key: string, text: string, ghost ks: Snap) returns (b: bool)
    requires item == ks.node && Holds(ks)
    ensures b == HasText(Doc(ks), key, text)
  {
    b := false;
    if item.kind == MappingNode {
      var v, i := MapValueOf(item, key, ks);
      if v != null {
        assert Holds(ks.kids[i]);
        b := v.value == text;
      }
    }
  }

  /** Kept kids are apart, and apart from those still to come. */
  ghost predicate Sifted(ls: Snap, kept: seq<Snap>, i: nat) {
    && i <= |ls.kids|
    && Apart(ls.node, kept, ls.repr)
    && forall j, k :: 0 <= j < |kept| && i <= k < |ls.kids| ==> kept[j].repr !! ls.kids[k].repr
  }

  ghost predicate Match(nodes: seq<Node>, kids: seq<Snap>, repr: set<Node>)
    reads repr
  {
    && |nodes| == |kids|
    && forall j :: 0 <= j < |kids| ==> kids[j].repr <= repr && nodes[j] == kids[j].node && Holds(kids[j])
  }

  lemma SiftOne(ls: Snap, kept: seq<Snap>, i: nat)
    requires Sifted(ls, kept, i) && i < |ls.kids| && Apart(ls.node, ls.kids, ls.repr)
    ensures Sifted(ls, kept, i + 1) && Sifted(ls, kept + [ls.kids[i]], i + 1)
  {}

  lemma DropNext(items: seq<Y>, url: string, i: nat)
    requires i < |items|
    ensures DropUrl(items[i..], url) ==
      (if HasUrl(items[i], url) then [] else [items[i]]) + DropUrl(items[i + 1..], url)
  {
    assert items[i..][0] == items[i] && items[i..][1..] == items[i + 1..];
  }

  /** The entries before index i have been sifted. */
  ghost predicate SiftedDocs(docs: seq<Y>, kept: seq<Y>, url: string, i: nat) {
    i <= |docs| && kept + DropUrl(docs[i..], url) == DropUrl(docs, url)
  }

  ghost predicate Seen(docs: seq<Y>, url: string, i: nat) {
    exists j :: 0 <= j < i && j < |docs| && HasUrl(docs[j], url)
  }

  lemma SiftDoc(docs: seq<Y>, kept: seq<Y>, url: string, i: nat)
    requires i < |docs| && SiftedDocs(docs, kept, url, i)
    ensures SiftedDocs(docs, if HasUrl(docs[i], url) then kept else kept + [docs[i]], url, i + 1)
  {
    DropNext(docs, url, i);
    if !HasUrl(docs[i], url) {
      assert kept + ([docs[i]] + DropUrl(docs[i + 1..], url)) == (kept + [docs[i]]) + DropUrl(docs[i + 1..], url);
    }
  }

  lemma KeepOne(ls: Snap, kept: seq<Node>, kids: seq<Snap>, i: nat)
    requires Holds(ls) && Match(kept, kids, ls.repr) && i < |ls.kids|
    ensures Match(kept + [ls.node.content[i]], kids + [ls.kids[i]], ls.repr)
    ensures Docs(kids + [ls.kids[i]]) == Docs(kids) + [Docs(ls.kids)[i]]
  {}

  /** The loop of RemoveSiteYAML: the entries without the URL, and whether there was one with it. */
  method Sift(list: Node, url: string, ghost ls: Snap) returns (found: bool, kept: seq<Node>, ghost kids: seq<Snap>)
    requires list == ls.node && Holds(ls)
    ensures Match(kept, kids, ls.repr) && Apart(ls.node, kids, ls.repr)
    ensures SiftedDocs(Docs(ls.kids), Docs(kids), url, |ls.kids|) && found == Seen(Docs(ls.kids), url, |ls.kids|)
  {
    found, kept, kids := false, [], [];
    for i := 0 to |list.content|
      invariant Match(kept, kids, ls.repr) && Sifted(ls, kids, i)
      invariant SiftedDocs(Docs(ls.kids), Docs(kids), url, i) && found == Seen(Docs(ls.kids), url, i)
    {
      var drop := NodeHasText(list.content[i], "url", url, ls.kids[i]);
      SiftDoc(Docs(ls.kids), Docs(kids), url, i);
      SiftOne(ls, kids, i);
      if drop {
        found := true;
      } else {
        KeepOne(ls, kept, kids, i);
        kept, kids := kept + [list.content[i]], kids + [ls.kids[i]];
      }
    }
  }

  /** Replacing a list's content by some of its own kids, seen from the root. */
  method SetContent(list: Node, kept: seq<Node>, ghost p: Place, ghost ls: Snap, ghost kids: seq<Snap>)
    returns (ghost whole: Snap)
    requires Fits(p) && StandsAt(p, ls, list) && Match(kept, kids, ls.repr) && Apart(ls.node, kids, ls.repr)
    modifies list`content
    ensures Holds(whole) && whole.node == RootOf(p, list)
    ensures Doc(whole) == PlugDoc(p, Doc(ls).(content := Docs(kids)))
  {
    list.content := kept;
    ghost var after := ls.(kids := kids);
    assert Hangs(p, list);
    PlugHolds(p, after);
    whole := Plug(p, after);
  }

  /** What sifting the sites list means for the document. */
  lemma SiftedRoot(root: Y, list: Y, kept: seq<Y>, url: string, found: bool)
    requires MapValue(root, "sites") == Some(list) && list.kind == SequenceNode
    requires SiftedDocs(list.content, kept, url, |list.content|) && found == Seen(list.content, url, |list.content|)
    ensures SiteListed(root, url) == found
    ensures RemoveSiteRoot(root, url) == SetMapValue(root, "sites", list.(content := kept))
  {
    assert DropUrl(list.content[|list.content|..], url) == [];
    assert kept == DropUrl(list.content, url);
    assert forall i :: 0 <= i < |list.content| ==> list.content[i] in list.content;
  }
}
