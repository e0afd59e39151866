/** Reading is local: what stands before a text only moves its pieces, and what
    stands after it changes none of them as long as it starts with white space
    or ';' and the text does not end inside a line comment. */
module SqlEdges {
  import opened Text
  import opened SqlLexer

  /** z may follow a statement's text without being read into its last piece. */
  predicate Edge(z: string) {
    z != "" && (IsSpace(z[0]) || z[0] == ';')
  }

  /** A line comment that the end of the text cuts off. */
  predicate OpenComment(x: string, p: Piece)
    requires p.to <= |x|
  {
    p.kind.LineComment? && p.to == |x| && (x == "" || x[|x| - 1] != '\n')
  }

  function Shift(p: Piece, d: nat): Piece {
    Piece(p.kind, p.from + d, p.to + d)
  }

  function ShiftOption(k: Option<nat>, d: nat): Option<nat> {
    match k case None => None case Some(v) => Some(v + d)
  }

  // ---- text before ----

  lemma LineEndShift(a: string, b: string, k: nat)
    requires k <= |b|
    ensures LineEnd(a + b, |a| + k) == |a| + LineEnd(b, k)
    decreases |b| - k
  {
    if k < |b| { LineEndShift(a, b, k + 1); }
  }

  lemma CommentEndShift(a: string, b: string, k: nat)
    ensures CommentEnd(a + b, |a| + k) == ShiftOption(CommentEnd(b, k), |a|)
    decreases |b| - k
  {
    if k < |b| { CommentEndShift(a, b, k + 1); }
  }

  lemma QuoteEndShift(a: string, b: string, k: nat, q: char)
    ensures QuoteEnd(a + b, |a| + k, q) == ShiftOption(QuoteEnd(b, k, q), |a|)
    decreases |b| - k
  {
    if k < |b| {
      QuoteEndShift(a, b, k + 1, q);
      QuoteEndShift(a, b, k + 2, q);
    }
  }

  lemma WordEndShift(a: string, b: string, k: nat)
    requires k <= |b|
    ensures WordEnd(a + b, |a| + k) == |a| + WordEnd(b, k)
    decreases |b| - k
  {
    if k < |b| { WordEndShift(a, b, k + 1); }
  }

  lemma SkipSpaceShift(a: string, b: string, k: nat)
    requires k <= |b|
    ensures SkipSpace(a + b, |a| + k) == |a| + SkipSpace(b, k)
    decreases |b| - k
  {
    if k < |b| { SkipSpaceShift(a, b, k + 1); }
  }

  lemma QuoteSkipShift(a: string, b: string, k: nat, q: char)
    ensures QuoteSkip(a + b, |a| + k, q) == |a| + QuoteSkip(b, k, q)
    decreases |b| - k
  {
    if k < |b| {
      QuoteSkipShift(a, b, k + 1, q);
      QuoteSkipShift(a, b, k + 2, q);
    }
  }

  lemma GroupShift(a: string, b: string, k: nat, level: nat)
    requires k < |b| ==> level > 0 || b[k] == '('
    ensures Group(a + b, |a| + k, level) == Group(b, k, level)
    decreases |b| - k
  {
    if k < |b| {
      if IsQuote(b[k]) {
        QuoteSkipShift(a, b, k + 1, b[k]);
        GroupShift(a, b, QuoteSkip(b, k + 1, b[k]) + 1, level);
      } else if b[k] == '(' {
        GroupShift(a, b, k + 1, level + 1);
      } else if b[k] == ')' {
        if level > 1 { GroupShift(a, b, k + 1, level - 1); }
      } else {
        GroupShift(a, b, k + 1, level);
      }
    }
  }

  lemma LabelEndShift(a: string, b: string, k: nat)
    requires k <= |b|
    ensures LabelEnd(a + b, |a| + k) == ShiftOption(LabelEnd(b, k), |a|)
  {
    SkipSpaceShift(a, b, k);
  }

  lemma CallScanShift(a: string, b: string, k: nat)
    requires k <= |b|
    ensures CallScan(a + b, |a| + k) == CallScan(b, k)
  {
    SkipSpaceShift(a, b, k);
    var m := SkipSpace(b, k);
    if m < |b| && b[m] == '(' { GroupShift(a, b, m, 0); }
  }

  /** Text before moves a piece and changes nothing else. */
  lemma NextShift(a: string, b: string, k: nat)
    requires k < |b|
    requires k == 0 ==> a == "" || !IsWordChar(a[|a| - 1])
    ensures Next(a + b, |a| + k) == match Next(b, k) case None => None case Some(p) => Some(Shift(p, |a|))
  {
    hide LineEnd, CommentEnd, QuoteEnd, WordEnd, IsSpace, IsWordChar;
    var s, i := a + b, |a| + k;
    assert s[i] == b[k] && (k > 0 ==> s[i - 1] == b[k - 1]);
    assert k + 1 < |b| ==> s[i + 1] == b[k + 1];
    assert k + 2 < |b| ==> s[i + 2] == b[k + 2];
    if LineCommentAt(b, k) {
      LineEndShift(a, b, k);
    } else if BlockCommentAt(b, k) {
      CommentEndShift(a, b, k + 2);
    } else if IsQuote(b[k]) {
      QuoteEndShift(a, b, k + 1, b[k]);
    } else {
      WordEndShift(a, b, k + 1);
    }
  }

  // ---- text after ----

  lemma LineEndExtend(x: string, z: string, i: nat)
    requires i <= |x|
    requires LineEnd(x, i) < |x| || (i < |x| && x[|x| - 1] == '\n')
    ensures LineEnd(x + z, i) == LineEnd(x, i)
    decreases |x| - i
  {
    if i < |x| && x[i] != '\n' { LineEndExtend(x, z, i + 1); }
  }

  lemma CommentEndExtend(x: string, z: string, i: nat)
    requires CommentEnd(x, i).Some?
    ensures CommentEnd(x + z, i) == CommentEnd(x, i)
    decreases |x| - i
  {
    if !(x[i] == '*' && x[i + 1] == '/') { CommentEndExtend(x, z, i + 1); }
  }

  lemma QuoteEndExtend(x: string, z: string, j: nat, q: char)
    requires QuoteEnd(x, j, q).Some? && Edge(z) && IsQuote(q)
    ensures QuoteEnd(x + z, j, q) == QuoteEnd(x, j, q)
    decreases |x| - j
  {
    if x[j] == '\\' && q != '`' {
      QuoteEndExtend(x, z, j + 2, q);
    } else if x[j] == q {
      if j + 1 < |x| && x[j + 1] == q { QuoteEndExtend(x, z, j + 2, q); }
    } else {
      QuoteEndExtend(x, z, j + 1, q);
    }
  }

  lemma WordEndExtend(x: string, z: string, j: nat)
    requires j <= |x| && Edge(z)
    ensures WordEnd(x + z, j) == WordEnd(x, j)
    decreases |x| - j
  {
    if j < |x| { WordEndExtend(x, z, j + 1); }
  }

  lemma SkipSpaceExtend(x: string, z: string, j: nat)
    requires j <= |x|
    ensures SkipSpace(x, j) < |x| ==> SkipSpace(x + z, j) == SkipSpace(x, j)
    ensures SkipSpace(x, j) == |x| ==> SkipSpace(x + z, j) == |x| + SkipSpace(z, 0)
    decreases |x| - j
  {
    if j < |x| { SkipSpaceExtend(x, z, j + 1); } else { SkipSpaceShift(x, z, 0); }
  }

  lemma QuoteSkipExtend(x: string, z: string, k: nat, q: char)
    requires QuoteSkip(x, k, q) < |x|
    ensures QuoteSkip(x + z, k, q) == QuoteSkip(x, k, q)
    decreases |x| - k
  {
    if x[k] != q {
      if x[k] == '\\' && q != '`' { QuoteSkipExtend(x, z, k + 2, q); } else { QuoteSkipExtend(x, z, k + 1, q); }
    }
  }

  lemma GroupExtend(x: string, z: string, k: nat, level: nat)
    requires k < |x| ==> level > 0 || x[k] == '('
    requires Group(x, k, level) != RanOff
    ensures Group(x + z, k, level) == Group(x, k, level)
    decreases |x| - k
  {
    if IsQuote(x[k]) {
      QuoteSkipExtend(x, z, k + 1, x[k]);
      GroupExtend(x, z, QuoteSkip(x, k + 1, x[k]) + 1, level);
    } else if x[k] == '(' {
      GroupExtend(x, z, k + 1, level + 1);
    } else if x[k] == ')' {
      if level > 1 { GroupExtend(x, z, k + 1, level - 1); }
    } else if !(x[k] == ',' && level == 1) {
      GroupExtend(x, z, k + 1, level);
    }
  }

  /** What follows a statement up to its ';' neither names it a label … */
  lemma LabelEndExtend(x: string, z: string, j: nat)
    requires j <= |x| && Edge(z) && SkipSpace(z, 0) < |z| && z[SkipSpace(z, 0)] == ';'
    ensures LabelEnd(x + z, j) == LabelEnd(x, j)
  {
    SkipSpaceExtend(x, z, j);
  }

  /** … nor turns its last word into a function call. */
  lemma CallScanExtend(x: string, z: string, j: nat)
    requires j <= |x| && SkipSpace(z, 0) < |z| && z[SkipSpace(z, 0)] == ';'
    requires CallScan(x, j) != RanOff
    ensures CallScan(x + z, j) == CallScan(x, j)
  {
    SkipSpaceExtend(x, z, j);
    var m := SkipSpace(x, j);
    if m < |x| && x[m] == '(' { GroupExtend(x, z, m, 0); }
  }

  lemma NextExtend(x: string, z: string, i: nat)
    requires i < |x| && Edge(z) && Next(x, i).Some? && !OpenComment(x, Next(x, i).value)
    ensures Next(x + z, i) == Next(x, i)
  {
    if LineCommentAt(x, i) {
      LineEndExtend(x, z, i);
    } else if BlockCommentAt(x, i) {
      CommentEndExtend(x, z, i + 2);
    } else if IsQuote(x[i]) {
      QuoteEndExtend(x, z, i + 1, x[i]);
    } else {
      WordEndExtend(x, z, i + 1);
    }
  }

  /** A line break closes a line comment that the end of the text had cut off. */
  lemma NextOpenComment(x: string, z: string, i: nat)
    requires i < |x| && Next(x, i).Some? && OpenComment(x, Next(x, i).value)
    requires z != "" && z[0] == '\n'
    ensures Next(x + z, i) == Some(Piece(LineComment, i, |x| + 1))
  {
    LineEndOpen(x, z, i);
  }

  lemma LineEndOpen(x: string, z: string, i: nat)
    requires i < |x| && LineEnd(x, i) == |x| && x[|x| - 1] != '\n' && z != "" && z[0] == '\n'
    ensures LineEnd(x + z, i) == |x| + 1
    decreases |x| - i
  {
    if i + 1 < |x| { LineEndOpen(x, z, i + 1); }
  }
}
