// The JSON string codec, a JSON parser and the concrete syntax of JSON documents (RFC 8259,
// sections 2 to 7).

module JsonText {
  import opened Results
  import opened Texts

  // ---------------------------------------------------------------------------
  // String literals
  // ---------------------------------------------------------------------------

  /** The offset behind the quote that ends the literal whose body is read from `i`. */
  function StringEndAt(s: Text, i: nat): (r: Option<nat>)
    ensures r.Some? ==> i < r.value <= |s|
    decreases |s| - i
  {
    if i >= |s| then None
    else if s[i] == BACKSLASH then StringEndAt(s, i + 2)
    else if s[i] == QUOTE then Some(i + 1)
    else StringEndAt(s, i + 1)
  }

  function HexDigit(n: nat): Code
    requires n < 16
  {
    if n < 10 then 0x30 + n else 0x61 + n - 10
  }

  /** The code unit written by the four hexadecimal digits at the front of `s`. */
  function HexUnit(s: Text): (r: Option<Code>)
    requires |s| >= 4
  {
    match (HexValue(s[0]), HexValue(s[1]), HexValue(s[2]), HexValue(s[3]))
    case (Some(a), Some(b), Some(c), Some(d)) =>
      assert a < 16 && b < 16 && c < 16 && d < 16;
      Some(a * 4096 + b * 256 + c * 16 + d)
    case _ => None
  }

  /** The character that a two-character escape stands for. */
  function SimpleEscape(c: Code): Option<Code> {
    if c == QUOTE || c == BACKSLASH || c == SLASH then Some(c)
    else if c == 0x62 then Some(0x08)
    else if c == 0x66 then Some(0x0C)
    else if c == 0x6E then Some(0x0A)
    else if c == 0x72 then Some(0x0D)
    else if c == 0x74 then Some(0x09)
    else None
  }

  /** The code unit that the body's first character or escape denotes, and its length. */
  function Unit(b: Text): (r: Option<(Code, nat)>)
    requires b != []
    ensures r.Some? ==> 0 < r.value.1 <= |b|
  {
    if b[0] == BACKSLASH then
      if |b| >= 6 && b[1] == LETTER_U then
        match HexUnit(b[2..]) case Some(c) => Some((c, 6)) case None => None
      else if |b| >= 2 then
        match SimpleEscape(b[1]) case Some(c) => Some((c, 2)) case None => None
      else None
    else if b[0] == QUOTE || b[0] < 0x20 then None
    else Some((b[0], 1))
  }

  /** The string denoted by a literal's body (RFC 8259, section 7). */
  function Decode(b: Text): Option<Text> {
    if b == [] then Some([])
    else match Unit(b)
         case None => None
         case Some((c, n)) =>
           match Decode(b[n..])
           case None => None
           case Some(rest) => Some([c] + rest)
  }

  predicate IsHighSurrogate(c: Code) { 0xD800 <= c < 0xDC00 }
  predicate IsLowSurrogate(c: Code) { 0xDC00 <= c < 0xE000 }

  function HexEscape(c: Code): Text {
    var q := c / 16;
    var r := q / 16;
    [BACKSLASH, LETTER_U, HexDigit(r / 16), HexDigit(r % 16), HexDigit(q % 16), HexDigit(c % 16)]
  }

  /** How JSON.stringify writes one code unit that is no part of a surrogate pair. */
  function QuoteUnit(c: Code): Text {
    if c == QUOTE || c == BACKSLASH then [BACKSLASH, c]
    else if c == 0x08 then [BACKSLASH, 0x62]
    else if c == 0x0C then [BACKSLASH, 0x66]
    else if c == 0x0A then [BACKSLASH, 0x6E]
    else if c == 0x0D then [BACKSLASH, 0x72]
    else if c == 0x09 then [BACKSLASH, 0x74]
    else if c < 0x20 || IsHighSurrogate(c) || IsLowSurrogate(c) then HexEscape(c)
    else [c]
  }

  /** The body that JSON.stringify writes for a string; a surrogate pair is kept as it is. */
  function QuoteBody(s: Text): Text {
    if s == [] then []
    else if |s| >= 2 && IsHighSurrogate(s[0]) && IsLowSurrogate(s[1]) then [s[0], s[1]] + QuoteBody(s[2..])
    else QuoteUnit(s[0]) + QuoteBody(s[1..])
  }

  function Quote(s: Text): Text {
    [QUOTE] + QuoteBody(s) + [QUOTE]
  }

  lemma HexDigitValue(n: nat)
    requires n < 16
    ensures HexValue(HexDigit(n)) == Some(n)
  {
  }

  lemma HexRoundTrip(c: Code)
    ensures HexUnit(HexEscape(c)[2..]) == Some(c)
  {
    var q := c / 16;
    var r := q / 16;
    HexDigitValue(r / 16);
    HexDigitValue(r % 16);
    HexDigitValue(q % 16);
    HexDigitValue(c % 16);
    assert c == q * 16 + c % 16 && q == r * 16 + q % 16 && r == r / 16 * 16 + r % 16;
  }

  lemma DecodeUnit(c: Code, rest: Text)
    ensures Decode(QuoteUnit(c) + rest) ==
            match Decode(rest) case Some(r) => Some([c] + r) case None => None
  {
    var u := QuoteUnit(c);
    var b := u + rest;
    assert b[|u|..] == rest;
    assert Unit(b) == Some((c, |u|)) by {
      if u == HexEscape(c) {
        HexRoundTrip(c);
        assert b[2..][0] == u[2] && b[2..][1] == u[3] && b[2..][2] == u[4] && b[2..][3] == u[5];
      }
    }
  }

  /** A surrogate pair written as it stands decodes to itself. */
  lemma DecodePlain(c: Code, rest: Text)
    requires 0x80 <= c
    ensures Decode([c] + rest) == match Decode(rest) case Some(r) => Some([c] + r) case None => None
  {
    assert ([c] + rest)[1..] == rest;
  }

  /** Decoding what JSON.stringify writes for a string gives the string back. */
  lemma {:induction false} QuoteRoundTrip(s: Text)
    ensures Decode(QuoteBody(s)) == Some(s)
  {
    hide Decode, Unit;
    if s == [] {
      DecodeEmpty();
    } else if |s| >= 2 && IsHighSurrogate(s[0]) && IsLowSurrogate(s[1]) {
      QuoteRoundTrip(s[2..]);
      DecodePlain(s[1], QuoteBody(s[2..]));
      DecodePlain(s[0], [s[1]] + QuoteBody(s[2..]));
      assert [s[0], s[1]] + QuoteBody(s[2..]) == [s[0]] + ([s[1]] + QuoteBody(s[2..]));
      assert s == [s[0]] + ([s[1]] + s[2..]);
    } else {
      QuoteRoundTrip(s[1..]);
      DecodeUnit(s[0], QuoteBody(s[1..]));
      assert s == [s[0]] + s[1..];
    }
  }

  lemma DecodeEmpty()
    ensures Decode([]) == Some([])
  {
  }

  lemma {:induction false} PlainRun(s: Text, i: nat, n: nat)
    requires i + n <= |s|
    requires forall k :: i <= k < i + n ==> s[k] != BACKSLASH && s[k] != QUOTE
    ensures StringEndAt(s, i) == StringEndAt(s, i + n)
    decreases n
  {
    if n > 0 {
      PlainRun(s, i + 1, n - 1);
    }
  }

  /** The first unit of a body is read over by the literal scanner in one go. */
  lemma UnitIsSkipped(s: Text, i: nat, b: Text)
    requires b != [] && Unit(b).Some? && At(s, i, b)
    ensures StringEndAt(s, i) == StringEndAt(s, i + Unit(b).value.1)
  {
    AtElement(s, i, b, 0);
    if Unit(b).value.1 == 6 {
      AtElement(s, i, b, 2);
      AtElement(s, i, b, 3);
      AtElement(s, i, b, 4);
      AtElement(s, i, b, 5);
      PlainRun(s, i + 2, 4);
    }
  }

  lemma DecodeStep(b: Text)
    requires b != [] && Decode(b).Some?
    ensures Unit(b).Some? && Decode(b[Unit(b).value.1..]).Some?
  {
  }

  /** A body that decodes holds no unescaped quote: the literal ends right behind it. */
  lemma {:induction false} BodyEnd(s: Text, i: nat, b: Text)
    requires Decode(b).Some? && At(s, i, b)
    requires i + |b| < |s| && s[i + |b|] == QUOTE
    ensures StringEndAt(s, i) == Some(i + |b| + 1)
    decreases |b|
  {
    hide At, Decode, Unit;
    if b != [] {
      DecodeStep(b);
      var n := Unit(b).value.1;
      UnitIsSkipped(s, i, b);
      AtDrop(s, i, b, n);
      BodyEnd(s, i + n, b[n..]);
    }
  }

  // ---------------------------------------------------------------------------
  // Scalars
  // ---------------------------------------------------------------------------

  /** Letters, digits, `+`, `-` and `.`: what literals and numbers are made of. */
  predicate IsScalarChar(c: Code) {
    IsDigit(c) || 0x41 <= c <= 0x5A || 0x61 <= c <= 0x7A || c == 0x2B || c == 0x2D || c == 0x2E
  }

  function DigitRun(t: Text): (n: nat)
    ensures n <= |t|
    ensures forall k :: 0 <= k < n ==> IsDigit(t[k])
  {
    if t == [] || !IsDigit(t[0]) then 0 else 1 + DigitRun(t[1..])
  }

  predicate IsExponent(t: Text) {
    || t == []
    || ((t[0] == 0x45 || t[0] == 0x65)
        && var d := if |t| > 1 && (t[1] == 0x2B || t[1] == 0x2D) then t[2..] else t[1..];
           AllDigits(d))
  }

  predicate IsFractionAndExponent(t: Text) {
    if t != [] && t[0] == 0x2E then
      var n := DigitRun(t[1..]);
      n > 0 && IsExponent(t[1 + n..])
    else IsExponent(t)
  }

  /** A number (RFC 8259, section 6): sign, integer without leading zeros, fraction, exponent. */
  predicate IsNumber(t: Text) {
    var m := if t != [] && t[0] == 0x2D then t[1..] else t;
    var n := DigitRun(m);
    n > 0 && (m[0] == 0x30 ==> n == 1) && IsFractionAndExponent(m[n..])
  }

  const NULL: Text := [0x6E, 0x75, 0x6C, 0x6C]
  const TRUE: Text := [0x74, 0x72, 0x75, 0x65]
  const FALSE: Text := [0x66, 0x61, 0x6C, 0x73, 0x65]

  predicate IsScalar(t: Text) {
    && t != []
    && (forall k :: 0 <= k < |t| ==> IsScalarChar(t[k]))
    && (t == NULL || t == TRUE || t == FALSE || IsNumber(t))
  }

  function ScalarEnd(s: Text, i: nat): (e: nat)
    ensures i <= e
    ensures i <= |s| ==> e <= |s|
    ensures forall k :: i <= k < e ==> k < |s| && IsScalarChar(s[k])
    decreases |s| - i
  {
    if i < |s| && IsScalarChar(s[i]) then ScalarEnd(s, i + 1) else i
  }

  lemma {:induction false} ScalarEndsAt(s: Text, i: nat, t: Text)
    requires At(s, i, t) && forall k :: 0 <= k < |t| ==> IsScalarChar(t[k])
    requires i + |t| < |s| ==> !IsScalarChar(s[i + |t|])
    ensures ScalarEnd(s, i) == i + |t|
    decreases |t|
  {
    hide At;
    if t != [] {
      AtElement(s, i, t, 0);
      AtDrop(s, i, t, 1);
      ScalarEndsAt(s, i + 1, t[1..]);
    }
  }

  // ---------------------------------------------------------------------------
  // Values and JSON.parse
  // ---------------------------------------------------------------------------

  datatype Property = Property(key: Text, value: Json)

  /** A parsed value. A scalar keeps its token; an object keeps its keys once, in insertion order. */
  datatype Json =
    | JScalar(token: Text)
    | JString(text: Text)
    | JArray(items: seq<Json>)
    | JObject(props: seq<Property>)

  function Values(ps: seq<Property>): (r: seq<Json>)
    ensures |r| == |ps|
    ensures forall k :: 0 <= k < |r| ==> r[k] == ps[k].value
  {
    if ps == [] then [] else [ps[0].value] + Values(ps[1..])
  }

  /** Assigns a property: an existing key keeps its place. */
  function Put(ps: seq<Property>, p: Property): seq<Property> {
    if ps == [] then [p]
    else if ps[0].key == p.key then [p] + ps[1..]
    else [ps[0]] + Put(ps[1..], p)
  }

  /** The object built from a list of properties read in order. */
  function Assign(acc: seq<Property>, ps: seq<Property>): seq<Property>
    decreases |ps|
  {
    if ps == [] then acc else Assign(Put(acc, ps[0]), ps[1..])
  }

  function Build(obj: bool, ps: seq<Property>): Json {
    if obj then JObject(Assign([], ps)) else JArray(Values(ps))
  }

  function Opener(obj: bool): Code { if obj then LBRACE else LBRACKET }
  function Closer(obj: bool): Code { if obj then RBRACE else RBRACKET }

  function SkipJsonSpace(s: Text, i: nat): (r: nat)
    ensures i <= r
    ensures i <= |s| ==> r <= |s|
    decreases |s| - i
  {
    if i < |s| && IsJsonSpace(s[i]) then SkipJsonSpace(s, i + 1) else i
  }

  datatype Parsed<+T> = Fail | Done(value: T, next: nat)

  function ParseLiteral(s: Text, i: nat): (r: Parsed<Text>)
    requires i < |s|
    ensures r.Done? ==> i < r.next <= |s|
  {
    match StringEndAt(s, i + 1)
    case None => Fail
    case Some(e) => match Decode(s[i + 1..e - 1]) case None => Fail case Some(t) => Done(t, e)
  }

  function ParseScalar(s: Text, i: nat): (r: Parsed<Json>)
    requires i < |s|
    ensures r.Done? ==> i < r.next <= |s|
  {
    var e := ScalarEnd(s, i);
    if IsScalar(s[i..e]) then Done(JScalar(s[i..e]), e) else Fail
  }

  /** Parses one value at `i`; the result carries the offset behind it. */
  function ParseValue(s: Text, i: nat): (r: Parsed<Json>)
    ensures r.Done? ==> i < r.next <= |s|
    decreases |s| - i, 0
  {
    if i >= |s| then Fail
    else if s[i] == QUOTE then
      match ParseLiteral(s, i) case Fail => Fail case Done(t, e) => Done(JString(t), e)
    else if s[i] == LBRACE || s[i] == LBRACKET then ParseGroup(s[i] == LBRACE, s, i + 1)
    else ParseScalar(s, i)
  }

  /** Parses a group whose opening bracket stands in front of `i`. */
  function ParseGroup(obj: bool, s: Text, i: nat): (r: Parsed<Json>)
    ensures r.Done? ==> i < r.next <= |s|
    decreases |s| - i, 3
  {
    var j := SkipJsonSpace(s, i);
    if j < |s| && s[j] == Closer(obj) then Done(Build(obj, []), j + 1)
    else match ParseEntries(obj, s, i) case Fail => Fail case Done(ps, e) => Done(Build(obj, ps), e)
  }

  /** Parses `"key" ws :` at `i` in an object, nothing in an array. */
  function ParseLabel(obj: bool, s: Text, i: nat): (r: Parsed<Text>)
    ensures r.Done? ==> i <= r.next
    ensures r.Done? && i <= |s| ==> r.next <= |s|
  {
    if !obj then Done([], i)
    else if i >= |s| || s[i] != QUOTE then Fail
    else match ParseLiteral(s, i)
         case Fail => Fail
         case Done(k, e) =>
           var j := SkipJsonSpace(s, e);
           if j < |s| && s[j] == COLON then Done(k, j + 1) else Fail
  }

  /** Parses one entry and the white space around it; the offset is that of the next character. */
  function ParseEntry(obj: bool, s: Text, i: nat): (r: Parsed<Property>)
    ensures r.Done? ==> i < r.next <= |s|
    decreases |s| - i, 1
  {
    match ParseLabel(obj, s, SkipJsonSpace(s, i))
    case Fail => Fail
    case Done(key, j) =>
      match ParseValue(s, SkipJsonSpace(s, j))
      case Fail => Fail
      case Done(v, e) => Done(Property(key, v), SkipJsonSpace(s, e))
  }

  /** Parses a non-empty list of entries up to and including the closing bracket. */
  function ParseEntries(obj: bool, s: Text, i: nat): (r: Parsed<seq<Property>>)
    ensures r.Done? ==> i < r.next <= |s|
    decreases |s| - i, 2
  {
    match ParseEntry(obj, s, i)
    case Fail => Fail
    case Done(p, c) =>
      if c >= |s| then Fail
      else if s[c] == Closer(obj) then Done([p], c + 1)
      else if s[c] != COMMA then Fail
      else match ParseEntries(obj, s, c + 1)
           case Fail => Fail
           case Done(ps, e) => Done([p] + ps, e)
  }

  /** JSON.parse: one value, white space around it, nothing else. */
  function JsonParse(s: Text): Option<Json> {
    match ParseValue(s, SkipJsonSpace(s, 0))
    case Fail => None
    case Done(v, e) => if SkipJsonSpace(s, e) == |s| then Some(v) else None
  }

  // ---------------------------------------------------------------------------
  // Concrete syntax
  // ---------------------------------------------------------------------------

  /** What stands before an entry's value: nothing in an array, `"key" mid : gap` in an object. */
  datatype Label = NoLabel | Label(body: Text, mid: Text, gap: Text)

  datatype Entry = Entry(pre: Text, tag: Label, value: Syntax, post: Text)

  /** What stands between the last entry and the closing bracket. */
  datatype Tail = NoComma(ws: Text) | TrailingComma(ws: Text)

  /** The syntax of a value; a string keeps its literal's body, a group its brackets' content. */
  datatype Syntax =
    | Scalar(token: Text)
    | Str(body: Text)
    | Group(obj: bool, entries: seq<Entry>, tail: Tail)

  function PrintLabel(l: Label): Text {
    match l
    case NoLabel => []
    case Label(b, mid, gap) => [QUOTE] + b + [QUOTE] + mid + [COLON] + gap
  }

  function PrintTail(t: Tail): Text {
    match t
    case NoComma(ws) => ws
    case TrailingComma(ws) => [COMMA] + ws
  }

  function Print(v: Syntax): (t: Text)
    ensures |t| > 0 || v.Scalar?
    decreases v, 1
  {
    match v
    case Scalar(t) => t
    case Str(b) => [QUOTE] + b + [QUOTE]
    case Group(obj, es, tail) => [Opener(obj)] + PrintEntries(es) + PrintTail(tail) + [Closer(obj)]
  }

  function PrintEntry(e: Entry): Text
    decreases e, 2
  {
    e.pre + PrintLabel(e.tag) + Print(e.value) + e.post
  }

  function PrintEntries(es: seq<Entry>): Text
    decreases es, 0
  {
    if es == [] then []
    else PrintEntry(es[0]) + (if |es| == 1 then [] else [COMMA] + PrintEntries(es[1..]))
  }

  function KeyOf(l: Label): Text {
    if l.NoLabel? then [] else match Decode(l.body) case Some(k) => k case None => []
  }

  /** The value that a piece of syntax denotes. */
  function Denote(v: Syntax): Json
    decreases v, 1
  {
    match v
    case Scalar(t) => JScalar(t)
    case Str(b) => JString(match Decode(b) case Some(t) => t case None => [])
    case Group(obj, es, _) => Build(obj, DenoteEntries(es))
  }

  function DenoteEntries(es: seq<Entry>): (r: seq<Property>)
    ensures |r| == |es|
    ensures forall k :: 0 <= k < |es| ==> r[k] == Property(KeyOf(es[k].tag), Denote(es[k].value))
    decreases es, 0
  {
    if es == [] then []
    else [Property(KeyOf(es[0].tag), Denote(es[0].value))] + DenoteEntries(es[1..])
  }

  /** Well-formed syntax whose gaps satisfy `gap`; trailing commas only where `trailing` allows them. */
  ghost predicate WellFormed(v: Syntax, gap: Text -> bool, trailing: bool)
    decreases v, 1
  {
    match v
    case Scalar(t) => IsScalar(t)
    case Str(b) => Decode(b).Some?
    case Group(obj, es, tail) =>
      && gap(tail.ws)
      && (tail.TrailingComma? ==> trailing && es != [])
      && (tail.NoComma? && es != [] ==> tail.ws == [])
      && WellFormedEntries(obj, es, gap, trailing)
  }

  ghost predicate WellFormedEntries(obj: bool, es: seq<Entry>, gap: Text -> bool, trailing: bool)
    decreases es, 0
  {
    forall k :: 0 <= k < |es| ==> WellFormedEntry(obj, es[k], gap, trailing)
  }

  ghost predicate WellFormedEntry(obj: bool, e: Entry, gap: Text -> bool, trailing: bool)
    decreases e, 2
  {
    && gap(e.pre) && gap(e.post)
    && (obj <==> e.tag.Label?)
    && (e.tag.Label? ==> Decode(e.tag.body).Some? && gap(e.tag.mid) && gap(e.tag.gap))
    && WellFormed(e.value, gap, trailing)
  }

  /** Syntax of RFC 8259: gaps are white space, no trailing commas. */
  ghost predicate Strict(v: Syntax) {
    WellFormed(v, AllJsonSpace, false)
  }

  lemma {:induction false} SkipsTo(s: Text, i: nat, t: Text)
    requires At(s, i, t) && AllJsonSpace(t)
    requires i + |t| < |s| ==> !IsJsonSpace(s[i + |t|])
    ensures SkipJsonSpace(s, i) == i + |t|
    decreases |t|
  {
    hide At;
    if t != [] {
      AtElement(s, i, t, 0);
      AtDrop(s, i, t, 1);
      SkipsTo(s, i + 1, t[1..]);
    }
  }

  /** A printed value starts with a character that is neither space, comma, colon nor closing bracket. */
  predicate IsStart(c: Code) {
    IsScalarChar(c) || c == QUOTE || c == LBRACE || c == LBRACKET
  }

  lemma PrintStarts(v: Syntax, gap: Text -> bool, trailing: bool)
    requires WellFormed(v, gap, trailing)
    ensures |Print(v)| > 0 && IsStart(Print(v)[0])
  {
    if v.Group? {
      assert Print(v)[0] == Opener(v.obj);
    }
  }
}
