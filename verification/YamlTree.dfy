/**
 The node tree of a config.yaml and the edits of internal/config/mutate.go, as values.

 A mapping's content alternates key, value, key, value, ... as in the YAML library. A node
 carries the comment attached to it, so a node that survives an edit survives with it.
 */
module YamlTree {
  import opened Prelude

  datatype Kind = ScalarNode | SequenceNode | MappingNode | AliasNode

  datatype Y = Y(kind: Kind, tag: string, value: string, comment: string, content: seq<Y>)

  function Scalar(tag: string, value: string): Y {
    Y(ScalarNode, tag, value, "", [])
  }

  function Str(value: string): Y {
    Scalar("!!str", value)
  }

  const EMPTY_MAPPING := Y(MappingNode, "!!map", "", "", [])

  // ---------- One mapping ----------

  /** The index of the first key node with this value, or an index without a value after it. */
  function KeyAt(content: seq<Y>, key: string): (i: nat)
    ensures i <= |content|
    ensures i + 1 < |content| ==> i % 2 == 0 && content[i].value == key
    ensures |content| % 2 == 0 && i + 1 >= |content| ==> i == |content|
  {
    if |content| < 2 then |content|
    else if content[0].value == key then 0
    else KeyAt(content[2..], key) + 2
  }

  predicate HasKey(content: seq<Y>, key: string) {
    KeyAt(content, key) + 1 < |content|
  }

  function MapValue(m: Y, key: string): Option<Y> {
    if m.kind == MappingNode && HasKey(m.content, key) then Some(m.content[KeyAt(m.content, key) + 1]) else None
  }

  function SetMapValue(m: Y, key: string, v: Y): Y {
    if HasKey(m.content, key) then m.(content := m.content[KeyAt(m.content, key) + 1 := v])
    else m.(content := m.content + [Str(key), v])
  }

  function DeleteMapKey(m: Y, key: string): Y {
    if m.kind == MappingNode && HasKey(m.content, key)
    then m.(content := Without(m.content, KeyAt(m.content, key)))
    else m
  }

  /** The key nodes, in order. */
  function KeyNodes(content: seq<Y>): seq<Y> {
    if |content| < 2 then [] else [content[0]] + KeyNodes(content[2..])
  }

  function Keys(content: seq<Y>): seq<string> {
    if |content| < 2 then [] else [content[0].value] + Keys(content[2..])
  }

  predicate Distinct<T(==)>(s: seq<T>) {
    forall i, j :: 0 <= i < j < |s| ==> s[i] != s[j]
  }

  /** What the parser guarantees of every mapping: pairs, and no key twice. */
  predicate Proper(t: Y) {
    && (t.kind == MappingNode ==> |t.content| % 2 == 0 && Distinct(Keys(t.content)))
    && forall c :: c in t.content ==> Proper(c)
  }

  predicate IsMapping(t: Y) {
    t.kind == MappingNode && |t.content| % 2 == 0
  }

  lemma {:induction false} HasKeyIffListed(content: seq<Y>, key: string)
    ensures HasKey(content, key) <==> key in Keys(content)
  {
    if |content| >= 2 {
      HasKeyIffListed(content[2..], key);
    }
  }

  lemma {:induction false} KeyAtSet(content: seq<Y>, key: string, v: Y, other: string)
    requires HasKey(content, key)
    ensures KeyAt(content[KeyAt(content, key) + 1 := v], other) == KeyAt(content, other)
    ensures KeyNodes(content[KeyAt(content, key) + 1 := v]) == KeyNodes(content)
    ensures Keys(content[KeyAt(content, key) + 1 := v]) == Keys(content)
  {
    var i := KeyAt(content, key);
    var grown := content[i + 1 := v];
    if i == 0 {
      assert grown[2..] == content[2..];
    } else {
      KeyAtSet(content[2..], key, v, other);
      assert grown[2..] == content[2..][i - 1 := v];
    }
  }

  lemma {:induction false} KeyAtAppend(content: seq<Y>, k: Y, v: Y, other: string)
    requires |content| % 2 == 0
    ensures KeyAt(content + [k, v], other) ==
      if HasKey(content, other) then KeyAt(content, other)
      else if k.value == other then |content|
      else |content| + 2
    ensures KeyNodes(content + [k, v]) == KeyNodes(content) + [k]
    ensures Keys(content + [k, v]) == Keys(content) + [k.value]
  {
    if |content| >= 2 {
      KeyAtAppend(content[2..], k, v, other);
      assert (content + [k, v])[2..] == content[2..] + [k, v];
    } else {
      assert content + [k, v] == [k, v] && [k, v][2..] == [];
    }
  }

  lemma {:induction false} KeyCount(content: seq<Y>)
    ensures |Keys(content)| == |content| / 2
    ensures forall i :: 0 <= i < |Keys(content)| ==> Keys(content)[i] == content[2 * i].value
  {
    if |content| >= 2 {
      KeyCount(content[2..]);
    }
  }

  function Without(content: seq<Y>, i: nat): seq<Y>
    requires i + 2 <= |content|
  {
    content[..i] + content[i + 2..]
  }

  /** The same lookup, by recursion on the pairs. */
  function ValueOf(content: seq<Y>, key: string): Option<Y> {
    if |content| < 2 then None
    else if content[0].value == key then Some(content[1])
    else ValueOf(content[2..], key)
  }

  lemma {:induction false} ValueOfIsLookup(content: seq<Y>, key: string)
    ensures ValueOf(content, key) == if HasKey(content, key) then Some(content[KeyAt(content, key) + 1]) else None
  {
    if |content| >= 2 {
      ValueOfIsLookup(content[2..], key);
    }
  }

  lemma {:induction false} ValueOfWithout(content: seq<Y>, i: nat, other: string)
    requires i + 2 <= |content| && i % 2 == 0 && content[i].value != other
    ensures ValueOf(Without(content, i), other) == ValueOf(content, other)
  {
    var cut := Without(content, i);
    if i == 0 {
      assert cut == content[2..];
    } else {
      ValueOfWithout(content[2..], i - 2, other);
      assert cut[0] == content[0] && cut[1] == content[1] && cut[2..] == Without(content[2..], i - 2);
    }
  }

  lemma {:induction false} KeysWithout(content: seq<Y>, i: nat)
    requires i + 2 <= |content| && i % 2 == 0
    ensures |Keys(content)| == |content| / 2
    ensures Keys(Without(content, i)) == Keys(content)[..i / 2] + Keys(content)[i / 2 + 1..]
  {
    KeyCount(content);
    var cut := Without(content, i);
    if i == 0 {
      assert cut == content[2..];
    } else {
      KeysWithout(content[2..], i - 2);
      assert cut[0] == content[0] && cut[2..] == Without(content[2..], i - 2);
    }
  }

  /** The laws of one mapping: read back, leave the others alone, keep the key nodes in order. */
  lemma SetGet(m: Y, key: string, v: Y, other: string)
    requires IsMapping(m)
    ensures IsMapping(SetMapValue(m, key, v))
    ensures MapValue(SetMapValue(m, key, v), other) == if other == key then Some(v) else MapValue(m, other)
    ensures KeyNodes(m.content) <= KeyNodes(SetMapValue(m, key, v).content)
    ensures Keys(SetMapValue(m, key, v).content) ==
      if HasKey(m.content, key) then Keys(m.content) else Keys(m.content) + [key]
  {
    if HasKey(m.content, key) {
      KeyAtSet(m.content, key, v, other);
      if other != key && HasKey(m.content, other) {
        assert KeyAt(m.content, other) != KeyAt(m.content, key);
      }
    } else {
      KeyAtAppend(m.content, Str(key), v, other);
    }
  }

  lemma SetSet(m: Y, key: string, v: Y, w: Y)
    requires IsMapping(m)
    ensures SetMapValue(SetMapValue(m, key, v), key, w) == SetMapValue(m, key, w)
  {
    SetGet(m, key, v, key);
    if HasKey(m.content, key) {
      KeyAtSet(m.content, key, v, key);
    } else {
      KeyAtAppend(m.content, Str(key), v, key);
      assert (m.content + [Str(key), v])[|m.content| + 1 := w] == m.content + [Str(key), w];
    }
  }

  lemma GetSet(m: Y, key: string, v: Y)
    requires MapValue(m, key) == Some(v)
    ensures SetMapValue(m, key, v) == m
  {}

  lemma KeyIsGone(m: Y, key: string)
    requires IsMapping(m) && Distinct(Keys(m.content)) && HasKey(m.content, key)
    ensures var cut := Without(m.content, KeyAt(m.content, key));
      Distinct(Keys(cut)) && !HasKey(cut, key)
  {
    var i := KeyAt(m.content, key);
    KeysWithout(m.content, i);
    KeyCount(m.content);
    assert Keys(m.content)[i / 2] == key;
    HasKeyIffListed(Without(m.content, i), key);
  }

  lemma DeleteGetOther(m: Y, key: string, other: string)
    requires IsMapping(m) && HasKey(m.content, key) && other != key
    ensures MapValue(DeleteMapKey(m, key), other) == MapValue(m, other)
  {
    var i := KeyAt(m.content, key);
    ValueOfWithout(m.content, i, other);
    ValueOfIsLookup(m.content, other);
    ValueOfIsLookup(Without(m.content, i), other);
  }

  /** Deleting is exact when keys are distinct: the key is gone and every other key reads as before. */
  lemma DeleteGet(m: Y, key: string, other: string)
    requires IsMapping(m) && Distinct(Keys(m.content))
    ensures IsMapping(DeleteMapKey(m, key)) && Distinct(Keys(DeleteMapKey(m, key).content))
    ensures MapValue(DeleteMapKey(m, key), other) == if other == key then None else MapValue(m, other)
  {
    if HasKey(m.content, key) {
      KeyIsGone(m, key);
      if other != key {
        DeleteGetOther(m, key, other);
      }
    }
  }

  lemma SetKeepsProper(m: Y, key: string, v: Y)
    requires Proper(m) && m.kind == MappingNode && Proper(v)
    ensures Proper(SetMapValue(m, key, v))
  {
    SetGet(m, key, v, key);
    HasKeyIffListed(m.content, key);
    var grown := SetMapValue(m, key, v);
    forall c | c in grown.content ensures Proper(c) {
      if c !in m.content && c != v {
        assert c == Str(key);
      }
    }
  }

  lemma DeleteKeepsProper(m: Y, key: string)
    requires Proper(m)
    ensures Proper(DeleteMapKey(m, key))
  {
    if m.kind == MappingNode {
      DeleteGet(m, key, key);
    }
  }

  // ---------- Dotted paths ----------

  function GetPath(t: Y, path: seq<string>): Option<Y> {
    if path == [] then Some(t)
    else
      match MapValue(t, path[0])
      case None => None
      case Some(child) => GetPath(child, path[1..])
  }

  /** The mapping the walk of SetKeyYAML steps into: the one there, or a new one in its place. */
  function Step(t: Y, key: string): Y {
    match MapValue(t, key)
    case Some(child) => if child.kind == MappingNode then child else EMPTY_MAPPING
    case None => EMPTY_MAPPING
  }

  function SetPath(t: Y, path: seq<string>, v: Y): Y
    requires path != []
    decreases |path|
  {
    if |path| == 1 then SetMapValue(t, path[0], v)
    else SetMapValue(t, path[0], SetPath(Step(t, path[0]), path[1..], v))
  }

  lemma ProperChild(t: Y, key: string)
    requires Proper(t)
    ensures MapValue(t, key).Some? ==> Proper(MapValue(t, key).value)
    ensures Proper(Step(t, key)) && IsMapping(Step(t, key))
  {}

  lemma {:induction false} PutKeepsProper(t: Y, path: seq<string>, v: Y)
    requires path != [] && Proper(t) && t.kind == MappingNode && Proper(v)
    ensures Proper(SetPath(t, path, v)) && IsMapping(SetPath(t, path, v))
    decreases |path|
  {
    if |path| == 1 {
      SetKeepsProper(t, path[0], v);
    } else {
      ProperChild(t, path[0]);
      PutKeepsProper(Step(t, path[0]), path[1..], v);
      SetKeepsProper(t, path[0], SetPath(Step(t, path[0]), path[1..], v));
    }
  }

  /** Reading back what was written. */
  lemma {:induction false} PutGet(t: Y, path: seq<string>, v: Y)
    requires path != [] && Proper(t) && t.kind == MappingNode
    ensures GetPath(SetPath(t, path, v), path) == Some(v)
    decreases |path|
  {
    if |path| == 1 {
      SetGet(t, path[0], v, path[0]);
    } else {
      ProperChild(t, path[0]);
      PutGet(Step(t, path[0]), path[1..], v);
      SetGet(t, path[0], SetPath(Step(t, path[0]), path[1..], v), path[0]);
    }
  }

  /** The last of two writes wins. */
  lemma {:induction false} PutPut(t: Y, path: seq<string>, v: Y, w: Y)
    requires path != [] && Proper(t) && t.kind == MappingNode
    ensures SetPath(SetPath(t, path, v), path, w) == SetPath(t, path, w)
    decreases |path|
  {
    if |path| == 1 {
      SetSet(t, path[0], v, w);
    } else {
      var next := Step(t, path[0]);
      ProperChild(t, path[0]);
      PutPut(next, path[1..], v, w);
      var below := SetPath(next, path[1..], v);
      SetGet(t, path[0], below, path[0]);
      assert Step(SetPath(t, path, v), path[0]) == below by { PutKind(next, path[1..], v); }
      SetSet(t, path[0], below, SetPath(next, path[1..], w));
    }
  }

  lemma PutKind(t: Y, path: seq<string>, v: Y)
    requires path != []
    ensures SetPath(t, path, v).kind == t.kind
  {}

  /** Writing what is there already changes nothing. */
  lemma {:induction false} GetPut(t: Y, path: seq<string>, v: Y)
    requires path != [] && GetPath(t, path) == Some(v)
    ensures SetPath(t, path, v) == t
    decreases |path|
  {
    if |path| == 1 {
      assert GetPath(v, path[1..]) == Some(MapValue(t, path[0]).value);
    } else {
      var child := MapValue(t, path[0]).value;
      assert path[1..][0] == path[1] && MapValue(child, path[1]).Some?;
      GetPut(child, path[1..], v);
    }
  }

  /** A path that is neither a prefix nor an extension of the written one reads as before. */
  lemma {:induction false} PutElsewhere(t: Y, path: seq<string>, v: Y, other: seq<string>)
    requires path != [] && Proper(t) && t.kind == MappingNode
    requires !(other <= path) && !(path <= other)
    ensures GetPath(SetPath(t, path, v), other) == GetPath(t, other)
    decreases |path|
  {
    var key := path[0];
    var below := if |path| == 1 then v else SetPath(Step(t, key), path[1..], v);
    SetGet(t, key, below, other[0]);
    if other[0] == key {
      assert path == [key] + path[1..] && other == [key] + other[1..];
      assert |path| > 1;
      ProperChild(t, key);
      PutElsewhere(Step(t, key), path[1..], v, other[1..]);
      if MapValue(t, key) != Some(Step(t, key)) {
        assert other[1..] != [];
        assert GetPath(EMPTY_MAPPING, other[1..]) == None;
      }
    }
  }

  /** On the way down every mapping keeps its key nodes, with their comments, in order; a new key goes last. */
  lemma {:induction false} PutKeepsKeyOrder(t: Y, path: seq<string>, v: Y, depth: nat)
    requires path != [] && Proper(t) && t.kind == MappingNode && depth < |path|
    requires GetPath(t, path[..depth]).Some? && GetPath(t, path[..depth]).value.kind == MappingNode
    ensures GetPath(SetPath(t, path, v), path[..depth]).Some?
    ensures var before, after := GetPath(t, path[..depth]).value, GetPath(SetPath(t, path, v), path[..depth]).value;
      && KeyNodes(before.content) <= KeyNodes(after.content)
      && Keys(after.content) ==
        if HasKey(before.content, path[depth]) then Keys(before.content) else Keys(before.content) + [path[depth]]
    decreases |path|
  {
    var key := path[0];
    var below := if |path| == 1 then v else SetPath(Step(t, key), path[1..], v);
    SetGet(t, key, below, key);
    if depth > 0 {
      MappingBelow(t, path[..depth]);
      ProperChild(t, key);
      assert path[..depth][0] == key && path[..depth][1..] == path[1..][..depth - 1];
      PutKeepsKeyOrder(Step(t, key), path[1..], v, depth - 1);
    }
  }

  /** A path that ends at a mapping passes through mappings only. */
  lemma MappingBelow(t: Y, path: seq<string>)
    requires path != [] && GetPath(t, path).Some? && GetPath(t, path).value.kind == MappingNode
    ensures MapValue(t, path[0]) == Some(Step(t, path[0]))
  {
    var child := MapValue(t, path[0]).value;
    if |path| == 1 {
      assert GetPath(child, path[1..]) == Some(child);
    } else {
      assert MapValue(child, path[1..][0]).Some?;
    }
  }
}
