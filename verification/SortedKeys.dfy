/** Map keys in Go's string order: how a match or header map is rendered the same way every time. */
module SortedKeys {

  /** sort.Strings' order: character by character, a proper prefix first. */
  predicate Less(a: string, b: string) {
    b != "" && (a == "" || a[0] < b[0] || (a[0] == b[0] && Less(a[1..], b[1..])))
  }

  lemma {:induction false} LessIsTotal(a: string, b: string)
    ensures Less(a, b) || Less(b, a) || a == b
    ensures !(Less(a, b) && Less(b, a)) && !Less(a, a)
  {
    if a != "" {
      LessIsTotal(a[1..], a[1..]);
      if b != "" && a[0] == b[0] {
        LessIsTotal(a[1..], b[1..]);
        assert a == [a[0]] + a[1..] && b == [b[0]] + b[1..];
      }
    }
  }

  lemma {:induction false} LessIsTransitive(a: string, b: string, c: string)
    requires Less(a, b) && Less(b, c)
    ensures Less(a, c)
  {
    if a != "" && a[0] == b[0] == c[0] {
      LessIsTransitive(a[1..], b[1..], c[1..]);
    }
  }

  /** Where the two first differ decides, and a proper prefix comes first. */
  lemma {:induction false} LessIsLexicographic(a: string, b: string)
    ensures Less(a, b) <==> exists i :: 0 <= i <= |a| && i < |b| && a[..i] == b[..i] && (i == |a| || a[i] < b[i])
  {
    if Less(a, b) {
      var i := FirstDifference(a, b);
    }
    if i :| 0 <= i <= |a| && i < |b| && a[..i] == b[..i] && (i == |a| || a[i] < b[i]) {
      LessFrom(a, b, i);
    }
  }

  lemma {:induction false} FirstDifference(a: string, b: string) returns (i: nat)
    requires Less(a, b)
    ensures i <= |a| && i < |b| && a[..i] == b[..i] && (i == |a| || a[i] < b[i])
  {
    if a == "" || a[0] < b[0] {
      i := 0;
    } else {
      var j := FirstDifference(a[1..], b[1..]);
      i := j + 1;
      assert a[..i] == [a[0]] + a[1..][..j] && b[..i] == [b[0]] + b[1..][..j];
    }
  }

  lemma {:induction false} LessFrom(a: string, b: string, i: nat)
    requires i <= |a| && i < |b| && a[..i] == b[..i] && (i == |a| || a[i] < b[i])
    ensures Less(a, b)
  {
    if i > 0 {
      assert a[0] == a[..i][0] == b[..i][0] == b[0];
      assert a[1..][..i - 1] == a[..i][1..] && b[1..][..i - 1] == b[..i][1..];
      LessFrom(a[1..], b[1..], i - 1);
    }
  }

  predicate Sorted(s: seq<string>) {
    forall i, j :: 0 <= i < j < |s| ==> Less(s[i], s[j])
  }

  function Elements(s: seq<string>): set<string> {
    set k | k in s
  }

  /** Where a key goes in a sorted sequence. */
  function InsertAt(s: seq<string>, k: string): (i: nat)
    ensures i <= |s| && forall j :: 0 <= j < i ==> Less(s[j], k)
    ensures i < |s| ==> !Less(s[i], k)
  {
    if s == [] || !Less(s[0], k) then 0 else 1 + InsertAt(s[1..], k)
  }

  lemma InsertedIsSorted(s: seq<string>, k: string)
    requires Sorted(s) && k !in s
    ensures var i := InsertAt(s, k); Sorted(s[..i] + [k] + s[i..])
  {
    var i := InsertAt(s, k);
    forall j | i <= j < |s| ensures Less(k, s[j]) {
      LessIsTotal(s[i], k);
      if j > i {
        LessIsTransitive(k, s[i], s[j]);
      }
    }
  }

  /** Collecting the keys in any order and sorting them. */
  method SortKeys(keys: set<string>) returns (s: seq<string>)
    ensures Sorted(s) && Elements(s) == keys
  {
    s := [];
    var rest := keys;
    while rest != {}
      invariant rest <= keys && Sorted(s) && Elements(s) == keys - rest
      decreases |rest|
    {
      assert (forall k :: k !in rest) ==> rest == {};
      var k :| k in rest;
      rest := rest - {k};
      var i := InsertAt(s, k);
      InsertedIsSorted(s, k);
      assert Elements(s[..i] + [k] + s[i..]) == Elements(s) + {k} by {
        assert s == s[..i] + s[i..];
      }
      s := s[..i] + [k] + s[i..];
    }
  }

  lemma {:induction false} SortedExists(keys: set<string>) returns (s: seq<string>)
    ensures Sorted(s) && Elements(s) == keys
  {
    if keys == {} {
      s := [];
    } else {
      assert (forall k :: k !in keys) ==> keys == {};
      var k :| k in keys;
      var t := SortedExists(keys - {k});
      var i := InsertAt(t, k);
      InsertedIsSorted(t, k);
      s := t[..i] + [k] + t[i..];
      assert t == t[..i] + t[i..];
      assert Elements(s) == Elements(t) + {k};
    }
  }

  lemma EmptyIff(s: seq<string>)
    ensures s == [] <==> Elements(s) == {}
  {
    if s != [] {
      assert s[0] in Elements(s);
    }
  }

  /** There is one sorted order, so the rendering is determined. */
  lemma {:induction false} SortedIsUnique(s: seq<string>, t: seq<string>)
    requires Sorted(s) && Sorted(t) && Elements(s) == Elements(t)
    ensures s == t
  {
    EmptyIff(s);
    EmptyIff(t);
    if s != [] {
      assert s[0] in Elements(t) && s[0] in t;
      assert t[0] in Elements(s) && t[0] in s;
      LessIsTotal(s[0], t[0]);
      assert s[0] == t[0];
      assert Elements(s[1..]) == Elements(s) - {s[0]} by { RestWithoutHead(s); }
      assert Elements(t[1..]) == Elements(t) - {t[0]} by { RestWithoutHead(t); }
      SortedIsUnique(s[1..], t[1..]);
    }
  }

  lemma RestWithoutHead(s: seq<string>)
    requires s != [] && Sorted(s)
    ensures Elements(s[1..]) == Elements(s) - {s[0]}
  {
    forall k | k in s[1..] ensures k != s[0] {
      LessIsTotal(s[0], s[0]);
    }
    assert s == [s[0]] + s[1..];
  }

  ghost function InOrder(keys: set<string>): (s: seq<string>)
    ensures Sorted(s) && Elements(s) == keys
  {
    assert exists s :: Sorted(s) && Elements(s) == keys by { var s := SortedExists(keys); }
    var s :| Sorted(s) && Elements(s) == keys;
    s
  }
}
