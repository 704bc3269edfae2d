// Texts as sequences of UTF-16 code units, and pieces that stand in them.

module Results {
  datatype Option<+T> = None | Some(value: T)
}

module Texts {
  import opened Results

  /** A UTF-16 code unit, the element type of a JavaScript string. */
  type Code = n: nat | n < 0x1_0000
  type Text = seq<Code>

  const QUOTE: Code := 0x22
  const BACKSLASH: Code := 0x5C
  const SLASH: Code := 0x2F
  const STAR: Code := 0x2A
  const NEWLINE: Code := 0x0A
  const SPACE: Code := 0x20
  const COMMA: Code := 0x2C
  const COLON: Code := 0x3A
  const LBRACE: Code := 0x7B
  const RBRACE: Code := 0x7D
  const LBRACKET: Code := 0x5B
  const RBRACKET: Code := 0x5D
  const LETTER_U: Code := 0x75

  /** White space between JSON tokens (RFC 8259, section 2). */
  predicate IsJsonSpace(c: Code) {
    c == 0x20 || c == 0x09 || c == 0x0A || c == 0x0D
  }

  /** The class `\s` of ECMAScript regular expressions. */
  predicate IsSpace(c: Code) {
    || IsJsonSpace(c) || c == 0x0B || c == 0x0C || c == 0xA0 || c == 0x1680
    || 0x2000 <= c <= 0x200A || c == 0x2028 || c == 0x2029 || c == 0x202F
    || c == 0x205F || c == 0x3000 || c == 0xFEFF
  }

  predicate AllJsonSpace(t: Text) {
    forall k :: 0 <= k < |t| ==> IsJsonSpace(t[k])
  }

  /** `p` stands in `s` at offset `i`. */
  ghost predicate At(s: Text, i: nat, p: Text) {
    i + |p| <= |s| && forall k {:trigger p[k]} :: 0 <= k < |p| ==> s[i + k] == p[k]
  }

  lemma AtSplit(s: Text, i: nat, a: Text, b: Text)
    requires At(s, i, a + b)
    ensures At(s, i, a) && At(s, i + |a|, b)
  {
    forall k | 0 <= k < |a| ensures s[i + k] == a[k] {
      assert (a + b)[k] == a[k];
    }
    forall k | 0 <= k < |b| ensures s[i + |a| + k] == b[k] {
      assert (a + b)[|a| + k] == b[k];
    }
  }

  lemma AtElement(s: Text, i: nat, p: Text, k: nat)
    requires At(s, i, p) && k < |p|
    ensures s[i + k] == p[k]
  {
  }

  lemma AtBound(s: Text, i: nat, p: Text)
    requires At(s, i, p)
    ensures i + |p| <= |s|
  {
  }

  lemma AtDrop(s: Text, i: nat, p: Text, n: nat)
    requires At(s, i, p) && n <= |p|
    ensures At(s, i + n, p[n..])
  {
  }

  lemma AtJoin(s: Text, i: nat, a: Text, b: Text)
    requires At(s, i, a) && At(s, i + |a|, b)
    ensures At(s, i, a + b)
  {
    forall k | 0 <= k < |a + b| ensures s[i + k] == (a + b)[k] {
      if k >= |a| {
        assert s[i + |a| + (k - |a|)] == b[k - |a|];
      }
    }
  }

  lemma AtCopy(s: Text, out: Text, i: nat, p: Text)
    requires At(s, i, p) && |out| == |s| && forall k :: i <= k < i + |p| ==> out[k] == s[k]
    ensures At(out, i, p)
  {
  }

  lemma AtWhole(s: Text)
    ensures At(s, 0, s)
  {
  }

  lemma AtAll(s: Text, p: Text)
    requires At(s, 0, p) && |s| == |p|
    ensures s == p
  {
  }

  lemma AtSingle(s: Text, i: nat, c: Code)
    requires i < |s| && s[i] == c
    ensures At(s, i, [c])
  {
  }

  lemma AtNothingMore(s: Text, i: nat)
    requires i <= |s|
    ensures At(s, i, [])
  {
  }

  lemma SliceIs(s: Text, i: nat, p: Text)
    requires At(s, i, p)
    ensures i + |p| <= |s| && s[i..i + |p|] == p
  {
  }

  function HexValue(c: Code): Option<nat> {
    if 0x30 <= c <= 0x39 then Some(c - 0x30)
    else if 0x41 <= c <= 0x46 then Some(c - 0x41 + 10)
    else if 0x61 <= c <= 0x66 then Some(c - 0x61 + 10)
    else None
  }

  predicate IsDigit(c: Code) { 0x30 <= c <= 0x39 }

  predicate AllDigits(t: Text) {
    t != [] && forall k :: 0 <= k < |t| ==> IsDigit(t[k])
  }
}
