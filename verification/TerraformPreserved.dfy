// Assignments preserved from an existing file: what they are, and where they are found again.

module TerraformPreserved {
  import opened Results
  import opened Texts
  import opened TextLines
  import opened JsonText
  import opened JsoncBlanking
  import opened ConfigScan
  import opened HclText
  import opened TerraformBlocks

  /** Something other than white space follows the block's `=`. */
  predicate HasValue(b: Text, n: Text) {
    ValueStart(b, 0, n) < |b|
  }

  lemma {:induction false} SpaceEndsInside(b: Text, k: nat)
    requires k < |b| && !IsSpace(b[|b| - 1])
    ensures SkipSpace(b, k) < |b|
  {
    hide IsSpace;
  }

  /** A piece of a text that starts where an assignment does and holds its `=` is that assignment. */
  lemma CutAssigns(s: Text, p: nat, b: Text, n: Text)
    requires AssignsAt(s, p, n) && At(s, p, b) && EqualsAt(s, p, n) < p + |b| && !IsSpace(b[|b| - 1]) && IsName(n)
    ensures AssignsAt(b, 0, n) && IsBlock(b) && EqualsAt(s, p, n) == p + EqualsAt(b, 0, n)
  {
    hide At, IsSpace, SkipSpace, SkipBlanks, IsLineStart, Stands;
    BlanksEndInside(b, 0);
    BlanksShift(s, p, b, 0);
    var q, e := SkipBlanks(b, 0), EqualsAt(s, p, n);
    assert p + 0 == p;
    NameInside(s, p, b, q, n);
    SpaceShift(s, p, b, q + |n|);
    SpaceEndsInside(b, q + |n|);
    AtElement(s, p, b, e - p);
    StartsLine(b);
  }

  lemma NameInside(s: Text, p: nat, b: Text, q: nat, n: Text)
    requires IsName(n) && At(s, p, b) && Stands(s, p + q, n) && q + |n| < |b|
    ensures Stands(b, q, n) && IsNameChar(b[q])
  {
    hide At;
    forall k | 0 <= k < |n| ensures b[q + k] == n[k] {
      assert s[p + q..p + q + |n|][k] == n[k];
      AtElement(s, p, b, q + k);
    }
    assert b[q..q + |n|] == n;
    assert IsNameChar(n[0]);
  }

  lemma StartsLine(b: Text)
    ensures IsLineStart(b, 0)
  {
  }

  lemma StringEndInside(s: Text, i: nat, b: Text, p: nat)
    requires At(s, p, b) && p <= i && StringEndAt(s, i).Some? && StringEndAt(s, i).value <= p + |b|
    ensures StringEndAt(b, i - p) == Some(StringEndAt(s, i).value - p)
    decreases |s| - i
  {
    hide At;
    AtElement(s, p, b, i - p);
    if s[i] == BACKSLASH {
      StringEndInside(s, i + 2, b, p);
    } else if s[i] != QUOTE {
      StringEndInside(s, i + 1, b, p);
    }
  }

  /** The bracket's partner is found in the piece that ends with it, too. */
  lemma {:induction false} CloseInside(s: Text, p: nat, b: Text, i: nat, obj: bool, depth: int)
    requires At(s, p, b) && p <= i && CloseAt(s, i, obj, depth) == Ok(p + |b|)
    ensures CloseAt(b, i - p, obj, depth) == Ok(|b|) && b[|b| - 1] == Closer(obj)
    decreases |s| - i
  {
    hide At, StringEndAt;
    AtElement(s, p, b, i - p);
    if s[i] == QUOTE {
      StringEndInside(s, i + 1, b, p);
      CloseInside(s, p, b, StringEndAt(s, i + 1).value, obj, depth);
    } else if s[i] == Opener(obj) {
      CloseInside(s, p, b, i + 1, obj, depth + 1);
    } else if s[i] == Closer(obj) {
      if depth != 1 {
        CloseInside(s, p, b, i + 1, obj, depth - 1);
      }
    } else {
      CloseInside(s, p, b, i + 1, obj, depth);
    }
  }

  /** Where the value starts in the text and in the piece. */
  lemma CutValue(s: Text, p: nat, b: Text, n: Text)
    requires AssignsAt(s, p, n) && At(s, p, b) && EqualsAt(s, p, n) < p + |b| && !IsSpace(b[|b| - 1]) && IsName(n)
    ensures HasValue(b, n) ==> ValueStart(s, p, n) == p + ValueStart(b, 0, n)
    ensures HasValue(b, n) <==> ValueStart(s, p, n) < p + |b|
  {
    hide At, IsSpace, SkipSpace, AssignsAt, EqualsAt;
    CutAssigns(s, p, b, n);
    SpaceShift(s, p, b, EqualsAt(b, 0, n) + 1);
  }

  lemma CutStands(s: Text, p: nat, e: nat)
    requires p <= e <= |s|
    ensures At(s, p, s[p..e])
  {
  }

  lemma TrimStands(s: Text, p: nat, e: nat)
    requires p <= e <= |s|
    ensures At(s, p, TrimEnd(s[p..e]))
  {
    var r := TrimEnd(s[p..e]);
    forall k | 0 <= k < |r| ensures s[p + k] == r[k] {
      assert r[k] == s[p..e][..|r|][k];
    }
  }

  /** A preserved assignment is a piece of the text that holds its `=` and ends with no white space. */
  lemma PreservedCut(s: Text, n: Text, b: Text, p: nat)
    requires FindAssign(s, n, 0) == Some(p) && AssignmentAt(s, p, n) == Some(b)
    ensures AssignsAt(s, p, n) && At(s, p, b) && EqualsAt(s, p, n) < p + |b| && !IsSpace(b[|b| - 1])
    ensures var v := ValueStart(s, p, n);
            v < p + |b| ==>
              if s[v] == LBRACE || s[v] == LBRACKET then CloseAt(s, v, s[v] == LBRACE, 0) == Ok(p + |b|)
              else forall k :: v <= k < p + |b| ==> s[k] != NEWLINE
  {
    hide At, SkipSpace, SkipBlanks, CloseAt, AssignsAt, EqualsAt, IsSpace;
    var v := ValueStart(s, p, n);
    TrimsAssignment(s, n, p);
    if v < |s| && (s[v] == LBRACE || s[v] == LBRACKET) {
      var e := CloseAt(s, v, s[v] == LBRACE, 0).value;
      CutStands(s, p, e);
      CloseInside(s, p, b, v, s[v] == LBRACE, 0);
      CloserIsNoSpace(s[v] == LBRACE);
    }
  }

  lemma TrimsAssignment(s: Text, n: Text, p: nat)
    requires AssignsAt(s, p, n)
    ensures var v := ValueStart(s, p, n);
            var e := IndexOf(s, NEWLINE, v);
            && EqualsAt(s, p, n) < v <= e <= |s| && p <= EqualsAt(s, p, n)
            && var b := TrimEnd(s[p..e]);
               && At(s, p, b) && EqualsAt(s, p, n) < p + |b| && !IsSpace(b[|b| - 1]) && p + |b| <= e
               && forall k :: v <= k < p + |b| ==> s[k] != NEWLINE
  {
    hide At, SkipSpace, SkipBlanks, Stands, IsSpace;
    var e := IndexOf(s, NEWLINE, ValueStart(s, p, n));
    TrimStands(s, p, e);
    EqualsIsNoSpace();
    assert s[p..e][EqualsAt(s, p, n) - p] == EQUALS;
  }

  lemma CloserIsNoSpace(obj: bool)
    ensures !IsSpace(Closer(obj))
  {
  }

  lemma EqualsIsNoSpace()
    ensures !IsSpace(EQUALS)
  {
  }

  /** What is preserved is a block that assigns its name; with a value, it is found again as it was. */
  lemma PreservedIs(s: Text, n: Text, b: Text)
    requires IsName(n) && HclAssignment(s, n) == Some(b)
    ensures IsBlock(b) && AssignsAt(b, 0, n)
    ensures HasValue(b, n) ==> IsStable(b, n)
  {
    hide At, SkipSpace, SkipBlanks, CloseAt, IsSpace, AssignsAt, EqualsAt, ValueStart, AssignmentAt, IsBlock, IsStable, IsName;
    var p := FindAssign(s, n, 0).value;
    PreservedCut(s, n, b, p);
    CutAssigns(s, p, b, n);
    CutValue(s, p, b, n);
    if HasValue(b, n) {
      var v := ValueStart(b, 0, n);
      AtElement(s, p, b, v);
      if b[v] == LBRACE || b[v] == LBRACKET {
        CloseInside(s, p, b, p + v, b[v] == LBRACE, 0);
        GroupBlockStable(b, n);
      } else {
        forall k | v <= k < |b| ensures b[k] != NEWLINE {
          AtElement(s, p, b, k);
        }
        PlainBlockStable(b, n);
      }
    }
  }

  /** Without a value, what is found is longer: it takes in the line behind. */
  lemma ValuelessGrows(t: Text, o: nat, b: Text, n: Text)
    requires StandsAt(t, o, b) && IsBlock(b) && IsName(n) && AssignsAt(b, 0, n) && !HasValue(b, n)
    requires var q := SkipSpace(t, o + |b|); q < |t| && IsNameChar(t[q])
    ensures AssignmentAt(t, o, n).Some? && |AssignmentAt(t, o, n).value| > |b|
  {
    hide At, SkipSpace, SkipBlanks, IsBlock, AssignsAt, EqualsAt;
    AssignsShift(t, o, b, 0, n);
    BlockStarts(b);
    assert o + 0 == o;
    EqualsInside(b, n);
    SpaceShift(t, o, b, EqualsAt(b, 0, n) + 1);
    var q := SkipSpace(t, o + |b|);
    assert ValueStart(t, o, n) == q;
    var e := IndexOf(t, NEWLINE, q);
    assert t[o..e][q - o] == t[q];
    assert !IsSpace(t[q]);
  }
}
