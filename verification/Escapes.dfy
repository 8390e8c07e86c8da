/**
 The two escapers of internal/benchcorpus/text.go, on bytes: JSON string literals against a parser
 of RFC 8259, section 7, and HTML text against a decoder of the four entities.
 */
module Escapes {
  import opened Prelude

  type Bytes = seq<bv8>

  const QUOTE: bv8 := 0x22
  const BACKSLASH: bv8 := 0x5C
  const LF: bv8 := 0x0A
  const CR: bv8 := 0x0D
  const TAB: bv8 := 0x09
  const AMP: bv8 := 0x26
  const LT: bv8 := 0x3C
  const GT: bv8 := 0x3E

  class Buffer {
    var data: Bytes

    constructor ()
      ensures data == []
    {
      data := [];
    }

    method WriteByte(b: bv8)
      modifies this
      ensures data == old(data) + [b]
    {
      data := data + [b];
    }

    method WriteString(s: Bytes)
      modifies this
      ensures data == old(data) + s
    {
      data := data + s;
    }
  }

  // ---------- JSON ----------

  function HexDigit(n: bv8): bv8 {
    if n < 10 then 0x30 + n else 0x61 + (n - 10)
  }

  /** What one byte becomes inside a literal. */
  function JSONEscape(c: bv8): Bytes {
    if c == QUOTE then [BACKSLASH, QUOTE]
    else if c == BACKSLASH then [BACKSLASH, BACKSLASH]
    else if c == LF then [BACKSLASH, 0x6E]
    else if c == CR then [BACKSLASH, 0x72]
    else if c == TAB then [BACKSLASH, 0x74]
    else if c < 0x20 then [BACKSLASH, 0x75, 0x30, 0x30, HexDigit(c >> 4), HexDigit(c & 0xF)]
    else [c]
  }

  /** Only what RFC 8259 has to be escaped is, and in the shortest form it has for it. */
  lemma JSONEscapesWhatItMust(c: bv8)
    ensures JSONEscape(c) == [c] <==> c >= 0x20 && c != 0x22 && c != 0x5C
    ensures |JSONEscape(c)| == 2 <==> c == 0x22 || c == 0x5C || c == 0x0A || c == 0x0D || c == 0x09
    ensures |JSONEscape(c)| in {1, 2, 6}
    ensures |JSONEscape(c)| == 6 ==>
      forall i :: 2 <= i < 6 ==> 0x30 <= JSONEscape(c)[i] <= 0x39 || 0x61 <= JSONEscape(c)[i] <= 0x66
  {}

  function JSONBody(s: Bytes): Bytes {
    if s == [] then [] else JSONEscape(s[0]) + JSONBody(s[1..])
  }

  function JSONString(s: Bytes): Bytes {
    [QUOTE] + JSONBody(s) + [QUOTE]
  }

  lemma Regroup(a: Bytes, b: Bytes, c: Bytes)
    ensures a + (b + c) == a + b + c
  {}

  lemma {:induction false} JSONBodyEnd(s: Bytes, c: bv8)
    ensures JSONBody(s + [c]) == JSONBody(s) + JSONEscape(c)
  {
    if s == [] {
      assert s + [c] == [c] && [c][1..] == [];
    } else {
      JSONBodyEnd(s[1..], c);
      assert (s + [c])[1..] == s[1..] + [c];
      Regroup(JSONEscape(s[0]), JSONBody(s[1..]), JSONEscape(c));
    }
  }

  lemma JSONBodySnoc(s: Bytes, i: nat)
    requires i < |s|
    ensures JSONBody(s[..i + 1]) == JSONBody(s[..i]) + JSONEscape(s[i])
  {
    assert s[..i + 1] == s[..i] + [s[i]];
    JSONBodyEnd(s[..i], s[i]);
  }

  method WriteJSONString(b: Buffer, s: Bytes)
    modifies b
    ensures b.data == old(b.data) + JSONString(s)
  {
    b.WriteByte(QUOTE);
    assert s[..0] == [];
    for i := 0 to |s|
      invariant b.data == old(b.data) + ([QUOTE] + JSONBody(s[..i]))
    {
      JSONBodySnoc(s, i);
      WriteJSONByte(b, s[i]);
    }
    assert s[..|s|] == s;
    b.WriteByte(QUOTE);
  }

  /** The switch of the loop. */
  method WriteJSONByte(b: Buffer, c: bv8)
    modifies b
    ensures b.data == old(b.data) + JSONEscape(c)
  {
    match c {
      case 0x22 => b.WriteString([BACKSLASH, QUOTE]);
      case 0x5C => b.WriteString([BACKSLASH, BACKSLASH]);
      case 0x0A => b.WriteString([BACKSLASH, 0x6E]);
      case 0x0D => b.WriteString([BACKSLASH, 0x72]);
      case 0x09 => b.WriteString([BACKSLASH, 0x74]);
      case _ =>
        if c < 0x20 {
          b.WriteString([BACKSLASH, 0x75, 0x30, 0x30]);
          b.WriteByte(HexDigit(c >> 4));
          b.WriteByte(HexDigit(c & 0xF));
        } else {
          b.WriteByte(c);
        }
    }
  }

  function HexValue(h: bv8): Option<bv8> {
    if 0x30 <= h <= 0x39 then Some(h - 0x30)
    else if 0x61 <= h <= 0x66 then Some(h - 0x61 + 10)
    else if 0x41 <= h <= 0x46 then Some(h - 0x41 + 10)
    else None
  }

  datatype Char = Char(value: bv8, width: nat)

  /** The escapes of one byte: a letter after the backslash, or a code point below 128 in hex. */
  function ParseEscape(t: Bytes): Option<Char>
    requires |t| >= 2
  {
    var e := t[1];
    if e == QUOTE || e == BACKSLASH || e == 0x2F then Some(Char(e, 2))
    else if e == 0x62 then Some(Char(0x08, 2))
    else if e == 0x66 then Some(Char(0x0C, 2))
    else if e == 0x6E then Some(Char(LF, 2))
    else if e == 0x72 then Some(Char(CR, 2))
    else if e == 0x74 then Some(Char(TAB, 2))
    else if e == 0x75 && |t| >= 6 && t[2] == t[3] == 0x30 && HexValue(t[4]).Some? && HexValue(t[5]).Some?
      && HexValue(t[4]).value < 8
    then Some(Char((HexValue(t[4]).value << 4) | HexValue(t[5]).value, 6))
    else None
  }

  /** One character of a literal: unescaped bytes are those from the space up, but quote and backslash. */
  function ParseChar(t: Bytes): (r: Option<Char>)
    requires t != [] && t[0] != QUOTE
    ensures r.Some? ==> 0 < r.value.width <= |t|
  {
    if t[0] == BACKSLASH then (if |t| < 2 then None else ParseEscape(t))
    else if t[0] < 0x20 then None
    else Some(Char(t[0], 1))
  }

  datatype Literal = Literal(content: Bytes, rest: Bytes)

  /** What follows the opening quote, up to the closing one. */
  function ParseBody(t: Bytes): Option<Literal>
    decreases |t|
  {
    if t == [] then None
    else if t[0] == QUOTE then Some(Literal([], t[1..]))
    else
      match ParseChar(t)
      case None => None
      case Some(c) =>
        match ParseBody(t[c.width..])
        case None => None
        case Some(l) => Some(Literal([c.value] + l.content, l.rest))
  }

  function ParseJSONString(t: Bytes): Option<Literal> {
    if t == [] || t[0] != QUOTE then None else ParseBody(t[1..])
  }

  lemma HexRoundTrip(c: bv8)
    requires c < 0x20
    ensures HexValue(HexDigit(c >> 4)) == Some(c >> 4) && HexValue(HexDigit(c & 0xF)) == Some(c & 0xF)
    ensures c >> 4 < 8 && ((c >> 4) << 4) | (c & 0xF) == c
  {}

  lemma EscapeParses(c: bv8, t: Bytes)
    ensures JSONEscape(c)[0] != QUOTE
    ensures ParseChar(JSONEscape(c) + t) == Some(Char(c, |JSONEscape(c)|))
  {
    if c < 0x20 {
      HexRoundTrip(c);
    }
  }

  lemma {:induction false} BodyParses(s: Bytes, rest: Bytes)
    ensures ParseBody(JSONBody(s) + [QUOTE] + rest) == Some(Literal(s, rest))
  {
    if s == [] {
      assert (JSONBody(s) + [QUOTE] + rest)[1..] == rest;
    } else {
      var e, tail := JSONEscape(s[0]), JSONBody(s[1..]) + [QUOTE] + rest;
      assert JSONBody(s) + [QUOTE] + rest == e + tail;
      EscapeParses(s[0], tail);
      BodyParses(s[1..], rest);
      assert (e + tail)[|e|..] == tail && (e + tail)[0] == e[0];
      assert ParseBody(e + tail) == Some(Literal([s[0]] + s[1..], rest));
      assert [s[0]] + s[1..] == s;
    }
  }

  /** Whatever the bytes and whatever follows, the literal reads back as the bytes and leaves what follows. */
  lemma JSONRoundTrip(s: Bytes, rest: Bytes)
    ensures ParseJSONString(JSONString(s) + rest) == Some(Literal(s, rest))
  {
    BodyParses(s, rest);
    assert (JSONString(s) + rest)[1..] == JSONBody(s) + [QUOTE] + rest;
  }

  // ---------- HTML ----------

  const AMP_ENTITY: Bytes := [AMP, 0x61, 0x6D, 0x70, 0x3B]
  const LT_ENTITY: Bytes := [AMP, 0x6C, 0x74, 0x3B]
  const GT_ENTITY: Bytes := [AMP, 0x67, 0x74, 0x3B]
  const QUOT_ENTITY: Bytes := [AMP, 0x71, 0x75, 0x6F, 0x74, 0x3B]

  function HTMLEscape(c: bv8): Bytes {
    if c == AMP then AMP_ENTITY
    else if c == LT then LT_ENTITY
    else if c == GT then GT_ENTITY
    else if c == QUOTE then QUOT_ENTITY
    else [c]
  }

  /** Only the four characters are touched, and each becomes its own entity: amp, lt, gt and quot. */
  lemma HTMLEscapesFour(c: bv8)
    ensures c != 0x26 && c != 0x3C && c != 0x3E && c != 0x22 ==> HTMLEscape(c) == [c]
    ensures HTMLEscape(0x26) == [0x26, 0x61, 0x6D, 0x70, 0x3B] && HTMLEscape(0x3C) == [0x26, 0x6C, 0x74, 0x3B]
    ensures HTMLEscape(0x3E) == [0x26, 0x67, 0x74, 0x3B] && HTMLEscape(0x22) == [0x26, 0x71, 0x75, 0x6F, 0x74, 0x3B]
  {}

  function HTMLEscaped(s: Bytes): Bytes {
    if s == [] then [] else HTMLEscape(s[0]) + HTMLEscaped(s[1..])
  }

  lemma {:induction false} HTMLEnd(s: Bytes, c: bv8)
    ensures HTMLEscaped(s + [c]) == HTMLEscaped(s) + HTMLEscape(c)
  {
    if s == [] {
      assert s + [c] == [c] && [c][1..] == [];
    } else {
      HTMLEnd(s[1..], c);
      assert (s + [c])[1..] == s[1..] + [c];
      Regroup(HTMLEscape(s[0]), HTMLEscaped(s[1..]), HTMLEscape(c));
    }
  }

  lemma HTMLSnoc(s: Bytes, i: nat)
    requires i < |s|
    ensures HTMLEscaped(s[..i + 1]) == HTMLEscaped(s[..i]) + HTMLEscape(s[i])
  {
    assert s[..i + 1] == s[..i] + [s[i]];
    HTMLEnd(s[..i], s[i]);
  }

  method WriteEscaped(b: Buffer, s: Bytes)
    modifies b
    ensures b.data == old(b.data) + HTMLEscaped(s)
  {
    assert s[..0] == [];
    for i := 0 to |s|
      invariant b.data == old(b.data) + HTMLEscaped(s[..i])
    {
      HTMLSnoc(s, i);
      match s[i] {
        case 0x26 => b.WriteString(AMP_ENTITY);
        case 0x3C => b.WriteString(LT_ENTITY);
        case 0x3E => b.WriteString(GT_ENTITY);
        case 0x22 => b.WriteString(QUOT_ENTITY);
        case _ => b.WriteByte(s[i]);
      }
    }
    assert s[..|s|] == s;
  }

  /** Decoding: the four entities, and any other byte as itself. */
  function HTMLDecoded(t: Bytes): Bytes
    decreases |t|
  {
    if t == [] then []
    else if AMP_ENTITY <= t then [AMP] + HTMLDecoded(t[5..])
    else if LT_ENTITY <= t then [LT] + HTMLDecoded(t[4..])
    else if GT_ENTITY <= t then [GT] + HTMLDecoded(t[4..])
    else if QUOT_ENTITY <= t then [QUOTE] + HTMLDecoded(t[6..])
    else [t[0]] + HTMLDecoded(t[1..])
  }

  lemma DecodeOne(c: bv8, t: Bytes)
    ensures HTMLDecoded(HTMLEscape(c) + t) == [c] + HTMLDecoded(t)
  {
    var e := HTMLEscape(c);
    assert (e + t)[|e|..] == t && (e + t)[..|e|] == e;
    assert (e + t)[0] == e[0];
    if c != AMP && c != LT && c != GT && c != QUOTE {
      assert !(AMP_ENTITY <= e + t) && !(LT_ENTITY <= e + t) && !(GT_ENTITY <= e + t) && !(QUOT_ENTITY <= e + t);
    } else {
      assert (e + t)[1] == e[1];
    }
  }

  lemma {:induction false} HTMLRoundTrip(s: Bytes)
    ensures HTMLDecoded(HTMLEscaped(s)) == s
  {
    if s != [] {
      DecodeOne(s[0], HTMLEscaped(s[1..]));
      HTMLRoundTrip(s[1..]);
    }
  }

  /** No byte of the output can open a tag or close an attribute. */
  lemma {:induction false} HTMLIsInert(s: Bytes)
    ensures forall b :: b in HTMLEscaped(s) ==> b != LT && b != GT && b != QUOTE
  {
    if s != [] {
      HTMLIsInert(s[1..]);
    }
  }
}
