/** Splitting undoes joining: statements that each stand on their own, joined
    with ';' and white space, are what the splitter returns. */
module SqlJoin {
  import opened Text
  import opened SqlLexer
  import opened SqlStatements
  import opened SqlEdges

  /** The look-ahead for a function call matters here and ran off the text. */
  predicate Unsettled(x: string, p: Piece, c: Control)
    requires p.from < p.to <= |x|
  {
    && c.compound && p.kind.Word? && CallScan(x, p.to).RanOff?
    && TakesArguments(KeywordOf(Upper(x[p.from..p.to])))
  }

  /** Reads x from i to its end inside one statement: the final control state, or
      None if a statement ends before, or x is no text of its own. */
  function Alone(x: string, i: nat, c: Control): Option<Control>
    requires i <= |x|
    decreases |x| - i
  {
    if i == |x| then Some(c)
    else
      match Next(x, i)
      case None => None
      case Some(p) =>
        if IsBoundary(c, TokenOf(x, p)) || Unsettled(x, p, c) then None
        else
          match Step(c, TokenOf(x, p))
          case None => None
          case Some(c') => Alone(x, p.to, c')
  }

  /** x ends inside a line comment. */
  predicate OpenEnd(x: string, i: nat)
    requires i <= |x|
    decreases |x| - i
  {
    && i < |x|
    && match Next(x, i)
       case None => false
       case Some(p) => OpenComment(x, p) || OpenEnd(x, p.to)
  }

  predicate StartsWithCode(x: string) {
    && x != "" && Next(x, 0).Some?
    && TokenOf(x, Next(x, 0).value) !in [Nothing, Semicolon]
  }

  /** A trimmed text that starts with code, contains no statement end and leaves
      no block open. */
  predicate IsStatement(x: string) {
    && StartsWithCode(x) && !IsSpace(x[0]) && !IsSpace(x[|x| - 1])
    && Alone(x, 0, START).Some? && AtRest(Alone(x, 0, START).value)
  }

  function Join(xs: seq<string>, gap: string): string {
    if xs == [] then "" else if |xs| == 1 then xs[0] else xs[0] + Separated(Join(xs[1..], gap), gap)
  }

  /** What follows a statement: gap, ';', gap and the rest of the script. */
  function Separated(rest: string, gap: string): string {
    gap + ";" + gap + rest
  }

  /** A piece means the same with a separator after the text, but for a call
      whose parentheses the text leaves open. */
  lemma TokenExtend(x: string, z: string, p: Piece)
    requires p.from < p.to <= |x| && Edge(z) && SkipSpace(z, 0) < |z| && z[SkipSpace(z, 0)] == ';'
    ensures var t, u := TokenOf(x, p), TokenOf(x + z, p);
            || u == t
            || (t.WordToken? && u == t.(isCall := u.isCall) && TakesArguments(t.word) && CallScan(x, p.to).RanOff?)
  {
    hide KeywordOf, CallScan, LabelEnd, SkipSpace, IsSpace, Upper;
    if p.kind.Word? {
      assert (x + z)[p.from..p.to] == x[p.from..p.to];
      LabelEndExtend(x, z, p.to);
      if CallScan(x, p.to) != RanOff { CallScanExtend(x, z, p.to); }
    }
  }

  /** … and it steps the same where the call does not matter. */
  lemma StepExtend(x: string, z: string, p: Piece, c: Control)
    requires p.from < p.to <= |x| && Edge(z) && SkipSpace(z, 0) < |z| && z[SkipSpace(z, 0)] == ';'
    requires !Unsettled(x, p, c)
    ensures IsBoundary(c, TokenOf(x + z, p)) == IsBoundary(c, TokenOf(x, p))
    ensures Step(c, TokenOf(x + z, p)) == Step(c, TokenOf(x, p))
    ensures TokenOf(x + z, p) in [Nothing, Semicolon] <==> TokenOf(x, p) in [Nothing, Semicolon]
  {
    hide SkipSpace, BodyWord, IsSpace, TokenOf, KeywordOf, LabelEnd, CallScan, IsCompound, Edge, Upper;
    TokenExtend(x, z, p);
    if TokenOf(x + z, p) != TokenOf(x, p) {
      WordKind(x, p);
      assert !c.compound;
    }
  }

  lemma WordKind(x: string, p: Piece)
    requires p.from < p.to <= |x| && TokenOf(x, p).WordToken?
    ensures p.kind.Word? && TokenOf(x, p).word == KeywordOf(Upper(x[p.from..p.to]))
  {
  }

  /** Where reading stands once x is behind it. */
  function Past(x: string, i: nat): nat
    requires i <= |x|
  {
    if OpenEnd(x, i) then |x| + 1 else |x|
  }

  /** Reading x with a separator after it runs as reading x alone. */
  lemma {:induction false} AloneExtend(x: string, z: string, i: nat, c: Control, code: Option<nat>)
    requires i <= |x| && Alone(x, i, c).Some?
    requires Edge(z) && SkipSpace(z, 0) < |z| && z[SkipSpace(z, 0)] == ';'
    requires OpenEnd(x, i) ==> z[0] == '\n'
    requires code.Some? && code.value < i && !IsSpace(x[code.value])
    ensures SpansFrom(x + z, i, c, code) == SpansFrom(x + z, Past(x, i), Alone(x, i, c).value, code)
    decreases |x| - i
  {
    if i < |x| {
      hide KeywordOf, IsSpace, Step, TokenOf;
      var p := Next(x, i).value;
      if OpenComment(x, p) {
        assert TokenOf(x, p) == Nothing && Step(c, Nothing) == Some(c) by { OpenCommentToken(x, p, c); }
        NextOpenComment(x, z, i);
        OpenCommentToken(x + z, Piece(LineComment, i, |x| + 1), c);
        assert OpenEnd(x, i) && Past(x, i) == |x| + 1;
      } else {
        NextExtend(x, z, i);
        StepExtend(x, z, p, c);
        assert Past(x, i) == Past(x, p.to);
        AloneExtend(x, z, p.to, Step(c, TokenOf(x, p)).value, code);
      }
    }
  }

  lemma OpenCommentToken(x: string, p: Piece, c: Control)
    requires p.from < p.to <= |x| && p.kind.LineComment?
    ensures TokenOf(x, p) == Nothing && Step(c, Nothing) == Some(c)
  {
  }

  /** White space, then ';' where the statement may end. */
  lemma {:induction false} CloseAtSemi(y: string, j: nat, c: Control, code: nat)
    requires j <= |y| && code < j && !IsSpace(y[code]) && AtRest(c)
    requires SkipSpace(y, j) < |y| && y[SkipSpace(y, j)] == ';'
    ensures var m := SkipSpace(y, j);
            SpansFrom(y, j, c, Some(code))
            == match SpansFrom(y, m + 1, START, None)
               case None => None
               case Some(rest) => Some([Span(code, m)] + rest)
    decreases |y| - j
  {
    hide KeywordOf, CallScan, LabelEnd, IsCompound, IsSpace, Next, LeadingWord, BodyWord, AtRest;
    if IsSpace(y[j]) {
      NextGap(y, j);
      CloseAtSemi(y, j + 1, c, code);
    } else {
      NextSemi(y, j);
      assert IsBoundary(c, Semicolon);
    }
  }

  lemma NextSemi(y: string, j: nat)
    requires j < |y| && y[j] == ';'
    ensures Next(y, j) == Some(Piece(Semi, j, j + 1))
  {
  }

  lemma NextGap(y: string, j: nat)
    requires j < |y| && IsSpace(y[j])
    ensures Next(y, j) == Some(Piece(Gap, j, j + 1))
  {
  }

  function ShiftSpans(spans: seq<Span>, d: nat): (r: seq<Span>)
    ensures |r| == |spans|
  {
    seq(|spans|, k requires 0 <= k < |spans| => Span(spans[k].from + d, spans[k].to + d))
  }

  function ShiftResult(r: Option<seq<Span>>, d: nat): Option<seq<Span>> {
    match r case None => None case Some(spans) => Some(ShiftSpans(spans, d))
  }

  /** A word is not glued to what stands before the text. */
  predicate Detached(a: string) {
    a == "" || IsSpace(a[|a| - 1]) || a[|a| - 1] == ';'
  }

  lemma TokenShift(a: string, b: string, p: Piece)
    requires p.from < p.to <= |b| && Detached(a)
    ensures TokenOf(a + b, Shift(p, |a|)) == TokenOf(b, p)
  {
    hide KeywordOf, CallScan, LabelEnd, IsSpace, Upper;
    if p.kind.Word? {
      SliceShift(a, b, p.from, p.to);
      LabelEndShift(a, b, p.to);
      CallScanShift(a, b, p.to);
      if p.from > 0 { SliceShift(a, b, p.from - 1, p.to); } else if a != "" { DetachedWord(a); }
    }
  }

  lemma SliceShift(a: string, b: string, from: nat, to: nat)
    requires from < to <= |b|
    ensures (a + b)[|a| + from..|a| + to] == b[from..to]
    ensures (a + b)[|a| + from] == b[from]
  {
  }

  /** Text before a script moves its statements and changes nothing else. */
  lemma {:induction false} SpansShift(a: string, b: string, k: nat, c: Control, code: Option<nat>)
    requires k <= |b| && Detached(a) && CodeBefore(b, k, code)
    ensures SpansFrom(a + b, |a| + k, c, ShiftOption(code, |a|)) == ShiftResult(SpansFrom(b, k, c, code), |a|)
    decreases |b| - k
  {
    hide KeywordOf, IsSpace, Step, TokenOf, Next, IsBoundary, AtRest, InRange, Detached;
    if k < |b| {
      if a != "" { DetachedWord(a); }
      NextShift(a, b, k);
      if Next(b, k).Some? {
        var p := Next(b, k).value;
        TokenShift(a, b, p);
        var t := TokenOf(b, p);
        if IsBoundary(c, t) {
          SpansShift(a, b, p.to, START, None);
          match SpansFrom(b, p.to, START, None)
          case None =>
          case Some(rest) =>
            assert ShiftSpans(Close(code, k) + rest, |a|)
                == Close(ShiftOption(code, |a|), |a| + k) + ShiftSpans(rest, |a|);
        } else if Step(c, t).Some? {
          StepMark(b, p, c, code);
          SpansShift(a, b, p.to, Step(c, t).value, Mark(code, p, t));
        }
      }
    } else {
      assert ShiftSpans(Close(code, k), |a|) == Close(ShiftOption(code, |a|), |a| + k);
    }
  }

  lemma DetachedWord(a: string)
    requires a != "" && Detached(a)
    ensures !IsWordChar(a[|a| - 1]) && a[|a| - 1] != '.' && a[|a| - 1] != '@'
  {
  }

  lemma StepMark(b: string, p: Piece, c: Control, code: Option<nat>)
    requires p.from < p.to <= |b| && Next(b, p.from) == Some(p) && CodeBefore(b, p.from, code)
    ensures CodeBefore(b, p.to, Mark(code, p, TokenOf(b, p)))
  {
  }

  lemma ShiftTexts(a: string, b: string, spans: seq<Span>)
    requires InRange(b, spans)
    ensures InRange(a + b, ShiftSpans(spans, |a|))
    ensures Texts(a + b, ShiftSpans(spans, |a|)) == Texts(b, spans)
  {
    var ms := ShiftSpans(spans, |a|);
    forall k | 0 <= k < |spans| ensures (a + b)[ms[k].from..ms[k].to] == b[spans[k].from..spans[k].to] {
    }
    assert InRange(a + b, ms);
  }

  /** A statement's first piece marks its start; then it is read to its end. */
  lemma StatementRun(x: string, z: string)
    requires IsStatement(x) && Edge(z) && SkipSpace(z, 0) < |z| && z[SkipSpace(z, 0)] == ';'
    requires OpenEnd(x, 0) ==> z[0] == '\n'
    ensures SpansFrom(x + z, 0, START, None) == SpansFrom(x + z, Past(x, 0), Alone(x, 0, START).value, Some(0))
  {
    hide KeywordOf, IsSpace, Step, TokenOf;
    var p := Next(x, 0).value;
    assert !OpenComment(x, p) by { if OpenComment(x, p) { OpenCommentToken(x, p, START); } }
    NextExtend(x, z, 0);
    StepExtend(x, z, p, START);
    assert Past(x, 0) == Past(x, p.to);
    AloneExtend(x, z, p.to, Step(START, TokenOf(x, p)).value, Some(0));
  }

  /** The characters from..to of y are white space. */
  predicate BlankRange(y: string, from: nat, to: nat)
    requires to <= |y|
  {
    forall k :: from <= k < to ==> IsSpace(y[k])
  }

  lemma {:induction false} SkipGap(y: string, j: nat, m: nat)
    requires j <= m <= |y| && BlankRange(y, j, m)
    ensures SpansFrom(y, j, START, None) == SpansFrom(y, m, START, None)
    decreases m - j
  {
    hide KeywordOf, CallScan, LabelEnd, IsCompound, IsSpace, Next, LeadingWord, BodyWord;
    if j < m {
      NextGap(y, j);
      SkipGap(y, j + 1, m);
    }
  }

  /** y is the statement x, white space up to a ';' at m, white space up to e, and rest. */
  predicate Layout(y: string, x: string, m: nat, e: nat, rest: string) {
    && |x| <= m < e <= |y| && y[..|x|] == x && y[e..] == rest
    && BlankRange(y, |x|, m) && y[m] == ';' && BlankRange(y, m + 1, e)
  }

  lemma JoinLayout(x: string, gap: string, rest: string)
    requires Blank(gap)
    ensures Layout(x + Separated(rest, gap), x, |x| + |gap|, |x| + |gap| + 1 + |gap|, rest)
    ensures gap != "" ==> (x + Separated(rest, gap))[|x|] == gap[0]
  {
    hide IsSpace;
    var y, m := x + Separated(rest, gap), |x| + |gap|;
    assert y[|x|..m] == gap && y[m + 1..m + 1 + |gap|] == gap;
    assert forall k :: |x| <= k < m ==> y[k] == y[|x|..m][k - |x|];
    assert forall k :: m + 1 <= k < m + 1 + |gap| ==> y[k] == y[m + 1..m + 1 + |gap|][k - (m + 1)];
  }

  lemma TrimTail(y: string, x: string, m: nat)
    requires x != "" && !IsSpace(x[0]) && !IsSpace(x[|x| - 1])
    requires |x| <= m <= |y| && y[..|x|] == x && BlankRange(y, |x|, m)
    ensures Trim(y[0..m]) == x
  {
    hide IsSpace;
    var s := y[0..m];
    assert x[0] == s[0] && x[|x| - 1] == s[|x| - 1];
    assert SkipSpace(s, 0) == 0 && s[0..] == s;
    assert BlankRange(s, |x|, |s|);
    assert TrimmedLength(s) == |x|;
    assert s[..|x|] == x;
  }

  lemma SplitTexts(sql: string)
    ensures Split(sql) == match Spans(sql) case None => None case Some(r) => Some(Texts(sql, r))
  {
    hide Texts, SpansFrom;
    match Spans(sql)
    case None =>
    case Some(r) => assert [] + Texts(sql, r) == Texts(sql, r);
  }

  /** A statement followed by a separator is the first one returned. */
  lemma SplitFirst(y: string, x: string, m: nat, e: nat, rest: string)
    requires Layout(y, x, m, e, rest) && IsStatement(x) && (OpenEnd(x, 0) ==> y[|x|] == '\n')
    ensures Split(y) == match Split(rest) case None => None case Some(xs) => Some([x] + xs)
  {
    hide SpansFrom, OpenEnd, Trim, Detached, Split, Next, Alone, BlankRange, IsSpace, TokenOf, AtRest, TrimmedLength;
    SplitTexts(y);
    SplitTexts(rest);
    SpansFirst(y, x, m, e, rest);
    if Spans(rest).Some? {
      RestTexts(y, x, m, e, rest, Spans(rest).value);
    }
  }

  lemma RestTexts(y: string, x: string, m: nat, e: nat, rest: string, rs: seq<Span>)
    requires Layout(y, x, m, e, rest) && IsStatement(x) && InRange(rest, rs)
    ensures InRange(y, [Span(0, m)] + ShiftSpans(rs, e))
    ensures Texts(y, [Span(0, m)] + ShiftSpans(rs, e)) == [x] + Texts(rest, rs)
  {
    hide Trim, BlankRange, IsSpace, IsStatement;
    assert y == y[..e] + rest;
    ShiftTexts(y[..e], rest, rs);
    FirstText(y, x, m);
    var ms := ShiftSpans(rs, e);
    assert Texts(y, [Span(0, m)] + ms) == [Trim(y[0..m])] + Texts(y, ms);
  }

  lemma FirstText(y: string, x: string, m: nat)
    requires IsStatement(x) && |x| <= m < |y| && y[..|x|] == x && BlankRange(y, |x|, m)
    ensures Trim(y[0..m]) == x && m > 0 && !IsSpace(y[0])
  {
    hide IsSpace, Next, Alone, TokenOf, AtRest;
    TrimTail(y, x, m);
  }

  lemma SpansFirst(y: string, x: string, m: nat, e: nat, rest: string)
    requires Layout(y, x, m, e, rest) && IsStatement(x) && (OpenEnd(x, 0) ==> y[|x|] == '\n')
    ensures Spans(y)
            == match Spans(rest) case None => None case Some(rs) => Some([Span(0, m)] + ShiftSpans(rs, e))
  {
    hide SpansFrom, IsStatement, OpenEnd, Next, IsSpace, SkipSpace, BlankRange, Detached, ShiftSpans;
    assert y == y[..e] + rest;
    SeparatorEdge(y, x, m);
    SpansToSemi(y, x, m);
    SkipGap(y, m + 1, e);
    SpansShift(y[..e], rest, 0, START, None);
  }

  /** The statement x, read up to the ';' at m. */
  lemma SpansToSemi(y: string, x: string, m: nat)
    requires IsStatement(x) && |x| <= m < |y| && y[..|x|] == x && BlankRange(y, |x|, m) && y[m] == ';'
    requires OpenEnd(x, 0) ==> y[|x|] == '\n'
    ensures Spans(y)
            == match SpansFrom(y, m + 1, START, None) case None => None case Some(rest) => Some([Span(0, m)] + rest)
  {
    hide SpansFrom, IsStatement, OpenEnd, StartsWithCode, Next, IsSpace, SkipSpace, Alone, AtRest, Detached, TokenOf;
    var z := y[|x|..];
    assert y == x + z;
    SeparatorEdge(y, x, m);
    StatementFacts(x);
    StatementRun(x, z);
    SkipsTo(y, Past(x, 0), m);
    CloseAtSemi(y, Past(x, 0), Alone(x, 0, START).value, 0);
  }

  lemma StatementFacts(x: string)
    requires IsStatement(x)
    ensures x != "" && !IsSpace(x[0])
    ensures Alone(x, 0, START).Some? && AtRest(Alone(x, 0, START).value)
  {
  }

  lemma SkipsTo(y: string, j: nat, m: nat)
    requires j <= m < |y| && BlankRange(y, j, m) && !IsSpace(y[m])
    ensures SkipSpace(y, j) == m
  {
    hide SkipSpace, IsSpace;
  }

  /** The separator, read from the end of x. */
  lemma SeparatorEdge(y: string, x: string, m: nat)
    requires |x| <= m < |y| && BlankRange(y, |x|, m) && y[m] == ';'
    ensures var z := y[|x|..]; Edge(z) && SkipSpace(z, 0) == m - |x| && z[m - |x|] == ';'
    ensures !IsSpace(y[m])
    ensures forall e :: m < e <= |y| && BlankRange(y, m + 1, e) ==> Detached(y[..e])
  {
    var z := y[|x|..];
    assert BlankRange(z, 0, m - |x|);
    assert !IsSpace(';');
    SkipsTo(z, 0, m - |x|);
  }

  /** A statement alone is returned as it is. */
  lemma SplitAlone(x: string)
    requires IsStatement(x)
    ensures Split(x) == Some([x])
  {
    hide SpansFrom, StartsWithCode, Alone;
    AloneSpans(x);
    SplitTexts(x);
    TrimIdentity(x);
    assert x[0..|x|] == x;
    assert Texts(x, [Span(0, |x|)]) == [x];
  }

  lemma AloneSpans(x: string)
    requires IsStatement(x)
    ensures Spans(x) == Some([Span(0, |x|)])
  {
    hide KeywordOf, IsSpace, Step, TokenOf;
    var p := Next(x, 0).value;
    AloneToEnd(x, p.to, Step(START, TokenOf(x, p)).value, 0);
  }

  lemma {:induction false} AloneToEnd(x: string, i: nat, c: Control, code: nat)
    requires i <= |x| && code < i && !IsSpace(x[code])
    requires Alone(x, i, c).Some? && AtRest(Alone(x, i, c).value)
    ensures SpansFrom(x, i, c, Some(code)) == Some([Span(code, |x|)])
    decreases |x| - i
  {
    hide KeywordOf, IsSpace, Step, TokenOf;
    if i < |x| {
      var p := Next(x, i).value;
      AloneToEnd(x, p.to, Step(c, TokenOf(x, p)).value, code);
    }
  }

  /** Splitting undoes joining, for any statements and any white space around
      the ';' that closes the line comments the statements end in. */
  lemma {:induction false} SplitUndoesJoin(xs: seq<string>, gap: string)
    requires forall k :: 0 <= k < |xs| ==> IsStatement(xs[k])
    requires Blank(gap)
    requires forall k :: 0 <= k < |xs| && OpenEnd(xs[k], 0) ==> gap != "" && gap[0] == '\n'
    ensures Split(Join(xs, gap)) == Some(xs)
  {
    hide *;
    JoinUnfold(xs, gap);
    if xs == [] {
      SplitEmpty();
    } else if |xs| == 1 {
      SplitAlone(xs[0]);
      assert xs == [xs[0]];
    } else {
      SplitUndoesJoin(xs[1..], gap);
      var rest := Join(xs[1..], gap);
      JoinLayout(xs[0], gap, rest);
      SplitFirst(Join(xs, gap), xs[0], |xs[0]| + |gap|, |xs[0]| + |gap| + 1 + |gap|, rest);
      assert [xs[0]] + xs[1..] == xs;
    }
  }

  lemma JoinUnfold(xs: seq<string>, gap: string)
    ensures Join(xs, gap) == if xs == [] then "" else if |xs| == 1 then xs[0]
                             else xs[0] + Separated(Join(xs[1..], gap), gap)
    ensures |xs| > 1 ==> |xs[0]| < |xs[0] + Separated(Join(xs[1..], gap), gap)|
  {
  }

  lemma SplitEmpty()
    ensures Split("") == Some([])
  {
    SplitTexts("");
    assert Spans("") == Some([]);
    assert Texts("", []) == [];
  }
}
