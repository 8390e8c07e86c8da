/** Corpus paths (internal/benchcorpus/benchcorpus.go): printing, parsing, and how far they are inverse. */
module PathCodec {
  import opened Prelude
  import opened Decimal

  /** A class value is any integer; three are defined, and the rest print like the first. */
  type Class = int
  const LANDING: Class := 0
  const ARTICLE: Class := 1
  const LISTING: Class := 2

  predicate Defined(c: Class) {
    c == LANDING || c == ARTICLE || c == LISTING
  }

  function ClassName(c: Class): string {
    if c == ARTICLE then "article" else if c == LISTING then "listing" else "landing"
  }

  function ClassNamed(name: string): Option<Class> {
    if name == "landing" then Some(LANDING)
    else if name == "article" then Some(ARTICLE)
    else if name == "listing" then Some(LISTING)
    else None
  }

  function Path(c: Class, index: int): string {
    "/" + ClassName(c) + "/" + Itoa(index)
  }

  /** What is printed. */
  lemma PathNames(c: Class, index: int)
    ensures Path(c, index) ==
      (if c == 1 then "/article/" else if c == 2 then "/listing/" else "/landing/") + Itoa(index)
  {
    assert "/" + "article" + "/" == "/article/" && "/" + "listing" + "/" == "/listing/";
    assert "/" + "landing" + "/" == "/landing/";
  }

  function TrimLeft(s: string): string {
    if s != "" && s[0] == '/' then TrimLeft(s[1..]) else s
  }

  function TrimRight(s: string): string {
    if s != "" && s[|s| - 1] == '/' then TrimRight(s[..|s| - 1]) else s
  }

  function Trim(s: string): string {
    TrimRight(TrimLeft(s))
  }

  /** strings.IndexByte(s, '/'), with the length for -1. */
  function SlashAt(s: string): (i: nat)
    ensures i <= |s| && (forall j :: 0 <= j < i ==> s[j] != '/') && (i < |s| ==> s[i] == '/')
  {
    if s == "" || s[0] == '/' then 0 else 1 + SlashAt(s[1..])
  }

  datatype Parsed = Parsed(class_: Class, index: int)

  function ParsePath(path: string): Option<Parsed> {
    var p := Trim(path);
    var slash := SlashAt(p);
    if slash == |p| then None
    else
      var name, rest := p[..slash], p[slash + 1..];
      match ClassNamed(name)
      case None => None
      case Some(c) =>
        if rest == "" || '/' in rest then None
        else
          match ParseInt(rest)
          case None => None
          case Some(n) => if n < 0 then None else Some(Parsed(c, n))
  }

  lemma SlashIs(s: string, i: nat)
    requires i <= |s| && (forall j :: 0 <= j < i ==> s[j] != '/') && (i < |s| ==> s[i] == '/')
    ensures SlashAt(s) == i
  {}

  predicate NoSlash(s: string) {
    forall i :: 0 <= i < |s| ==> s[i] != '/'
  }

  lemma ClassNameIsPlain(c: Class)
    ensures ClassName(c) != "" && NoSlash(ClassName(c)) && |ClassName(c)| == 7
    ensures ClassNamed(ClassName(c)) == Some(if Defined(c) then c else LANDING)
  {}

  /** Any number of slashes around a class name and a number. */
  function Slashes(n: nat): string {
    seq(n, i => '/')
  }

  lemma {:induction false} TrimLeftSlashes(n: nat, s: string)
    requires s != "" && s[0] != '/'
    ensures TrimLeft(Slashes(n) + s) == s
  {
    if n == 0 {
      assert Slashes(0) + s == s;
    } else {
      assert (Slashes(n) + s)[1..] == Slashes(n - 1) + s;
      TrimLeftSlashes(n - 1, s);
    }
  }

  lemma {:induction false} TrimRightSlashes(s: string, n: nat)
    requires s != "" && s[|s| - 1] != '/'
    ensures TrimRight(s + Slashes(n)) == s
  {
    var t := s + Slashes(n);
    if n == 0 {
      assert t == s;
    } else {
      assert t[..|t| - 1] == s + Slashes(n - 1);
      TrimRightSlashes(s, n - 1);
    }
  }

  /** A class name, a slash and a number, with slashes around. */
  function Wrapped(before: nat, c: Class, digits: string, after: nat): string {
    Slashes(before) + (ClassName(c) + "/" + digits) + Slashes(after)
  }

  function FromNumber(c: Class, number: Option<int>): Option<Parsed> {
    match number
    case None => None
    case Some(n) => if n < 0 then None else Some(Parsed(if Defined(c) then c else LANDING, n))
  }

  /** What parsing makes of that. */
  lemma ParseCore(before: nat, c: Class, digits: string, after: nat)
    requires digits != "" && NoSlash(digits)
    ensures ParsePath(Wrapped(before, c, digits, after)) == FromNumber(c, ParseInt(digits))
  {
    var core := ClassName(c) + "/" + digits;
    ClassNameIsPlain(c);
    TrimsTo(before, core, after);
    SlashIs(core, 7);
    assert core[..7] == ClassName(c) && core[8..] == digits;
    assert '/' !in digits;
  }

  lemma PathIsWrapped(c: Class, index: int)
    ensures Path(c, index) == Wrapped(1, c, Itoa(index), 0)
  {}

  lemma TrimsTo(before: nat, core: string, after: nat)
    requires core != "" && core[0] != '/' && core[|core| - 1] != '/'
    ensures Trim(Slashes(before) + core + Slashes(after)) == core
  {
    assert Slashes(before) + core + Slashes(after) == Slashes(before) + (core + Slashes(after));
    TrimLeftSlashes(before, core + Slashes(after));
    TrimRightSlashes(core, after);
  }

  lemma DigitsHaveNoSlash(n: nat)
    ensures Itoa(n) != "" && NoSlash(Itoa(n))
  {
    DigitsRoundTrip(n);
  }

  /** Parsing a printed path gives back the class and the index, for every index that fits. */
  lemma ParseOfPath(c: Class, index: int)
    requires 0 <= index <= MAX_INT64
    ensures ParsePath(Path(c, index)) == Some(Parsed(if Defined(c) then c else LANDING, index))
  {
    DigitsHaveNoSlash(index);
    PathIsWrapped(c, index);
    ParseCore(1, c, Itoa(index), 0);
    ParseItoa(index);
  }

  /** A negative index prints to a path that does not parse. */
  lemma NegativeDoesNotParse(c: Class, index: int)
    requires -MAX_INT64 - 1 <= index < 0
    ensures ParsePath(Path(c, index)) == None
  {
    DigitsRoundTrip(-index);
    assert NoSlash(Itoa(index));
    PathIsWrapped(c, index);
    ParseCore(1, c, Itoa(index), 0);
    ParseItoa(index);
  }

  /** Printing what was parsed, and parsing that again, is stable: a normal form. */
  lemma Normalises(path: string)
    requires ParsePath(path).Some?
    ensures var p := ParsePath(path).value;
      && Defined(p.class_) && 0 <= p.index <= MAX_INT64
      && ParsePath(Path(p.class_, p.index)) == Some(p)
  {
    var p := ParsePath(path).value;
    ParseOfPath(p.class_, p.index);
  }

  /** One slash, a class name, one slash, and a decimal without sign or needless zeros that fits. */
  predicate Canonic(path: string) {
    && |path| > 9 && path[0] == '/' && path[8] == '/'
    && ClassNamed(path[1..8]).Some?
    && Canonical(path[9..]) && NatValue(path[9..]) <= MAX_INT64
  }

  lemma CanonicIsPrinted(path: string)
    requires Canonic(path)
    ensures var c, n := ClassNamed(path[1..8]).value, NatValue(path[9..]);
      Defined(c) && path == Path(c, n)
  {
    var c, n := ClassNamed(path[1..8]).value, NatValue(path[9..]);
    CanonicalRoundTrip(path[9..]);
    assert path[1..8] == ClassName(c);
    assert path == "/" + path[1..8] + "/" + path[9..];
  }

  lemma Parts(name: string, rest: string)
    requires |name| == 7
    ensures var path := "/" + name + "/" + rest;
      |path| == 9 + |rest| && path[0] == '/' && path[8] == '/' && path[1..8] == name && path[9..] == rest
  {}

  lemma PrintedIsCanonic(c: Class, n: int)
    requires 0 <= n <= MAX_INT64
    ensures Canonic(Path(c, n))
  {
    ClassNameIsPlain(c);
    DigitsRoundTrip(n);
    Parts(ClassName(c), Itoa(n));
  }

  /** Printing the parse gives the path back exactly for the paths in that form. */
  lemma ExactlyTheCanonic(path: string)
    ensures ParsePath(path).Some? && Path(ParsePath(path).value.class_, ParsePath(path).value.index) == path <==>
      Canonic(path)
  {
    if ParsePath(path).Some? {
      Normalises(path);
      PrintedIsCanonic(ParsePath(path).value.class_, ParsePath(path).value.index);
    }
    if Canonic(path) {
      CanonicIsPrinted(path);
      ParseOfPath(ClassNamed(path[1..8]).value, NatValue(path[9..]));
    }
  }

  /** Contrary to its comment the parser takes signs, zeros in front, and any number of slashes around. */
  lemma ParsesMoreThanPrinted(before: nat, c: Class, digits: string, after: nat)
    requires Defined(c) && digits != "" && AllDigits(digits) && NatValue(digits) <= MAX_INT64
    ensures ParsePath(Wrapped(before, c, digits, after)) == Some(Parsed(c, NatValue(digits)))
    ensures ParsePath(Wrapped(before, c, "+" + digits, after)) == Some(Parsed(c, NatValue(digits)))
    ensures ParsePath(Wrapped(before, c, "-" + digits, after)) ==
      if NatValue(digits) == 0 then Some(Parsed(c, 0)) else None
  {
    SignedNumbers(digits);
    assert NoSlash("+" + digits) && NoSlash("-" + digits);
    ParseCore(before, c, digits, after);
    ParseCore(before, c, "+" + digits, after);
    ParseCore(before, c, "-" + digits, after);
  }

  // ---------- Exactly what parses ----------

  lemma {:induction false} TrimmedLeft(s: string) returns (n: nat)
    ensures s == Slashes(n) + TrimLeft(s)
  {
    if s != "" && s[0] == '/' {
      var m := TrimmedLeft(s[1..]);
      n := m + 1;
      assert Slashes(n) == "/" + Slashes(m);
    } else {
      n := 0;
    }
  }

  lemma {:induction false} TrimmedRight(s: string) returns (n: nat)
    ensures s == TrimRight(s) + Slashes(n)
  {
    if s != "" && s[|s| - 1] == '/' {
      var m := TrimmedRight(s[..|s| - 1]);
      n := m + 1;
      assert Slashes(n) == Slashes(m) + "/";
    } else {
      n := 0;
    }
  }

  /** The path is a class name, a slash and a number, in that order, with slashes around. */
  predicate Names(path: string, p: Parsed, before: nat, digits: string, after: nat) {
    && Defined(p.class_) && p.index >= 0 && digits != "" && NoSlash(digits) && ParseInt(digits) == Some(p.index)
    && path == Wrapped(before, p.class_, digits, after)
  }

  lemma ParsedNames(path: string, p: Parsed)
    requires ParsePath(path) == Some(p)
    ensures exists before: nat, digits: string, after: nat :: Names(path, p, before, digits, after)
  {
    var before := TrimmedLeft(path);
    var after := TrimmedRight(TrimLeft(path));
    var core := Trim(path);
    var slash := SlashAt(core);
    var digits := core[slash + 1..];
    CoreNames(core, slash, p);
    assert Slashes(before) + (core + Slashes(after)) == Slashes(before) + core + Slashes(after);
    assert Names(path, p, before, digits, after);
  }

  lemma CoreNames(core: string, slash: nat, p: Parsed)
    requires slash < |core| && core[slash] == '/' && ClassNamed(core[..slash]) == Some(p.class_)
    ensures Defined(p.class_) && core == ClassName(p.class_) + "/" + core[slash + 1..]
  {
    assert core[..slash] == ClassName(p.class_);
    assert core == core[..slash] + "/" + core[slash + 1..];
  }

  /** Nothing else parses, and what parses gives the class and the number it names. */
  lemma ParsesExactly(path: string, p: Parsed)
    ensures ParsePath(path) == Some(p) <==>
      exists before: nat, digits: string, after: nat :: Names(path, p, before, digits, after)
  {
    if before: nat, digits: string, after: nat :| Names(path, p, before, digits, after) {
      ParseCore(before, p.class_, digits, after);
    }
    if ParsePath(path) == Some(p) {
      ParsedNames(path, p);
    }
  }
}
