/** Re-splitting is stable: in a script without compound statements every
    returned statement but the two characters "--" splits into itself, and the
    list survives joining and splitting again. */
module SqlResplit {
  import opened Text
  import opened SqlLexer
  import opened SqlStatements
  import opened SqlEdges
  import opened SqlConservation
  import opened SqlJoin

  /** What follows a returned statement in its script: white space up to a ';'
      or the end. */
  predicate Tail(z: string) {
    z == "" || (Edge(z) && (SkipSpace(z, 0) < |z| ==> z[SkipSpace(z, 0)] == ';'))
  }

  // ---- reading a statement without what follows it ----

  lemma {:induction false} LineEndRestrict(s: string, z: string, i: nat)
    requires i <= |s|
    ensures LineEnd(s, i) == if LineEnd(s + z, i) <= |s| then LineEnd(s + z, i) else |s|
    decreases |s| - i
  {
    if i < |s| { LineEndRestrict(s, z, i + 1); }
  }

  lemma {:induction false} CommentEndRestrict(s: string, z: string, i: nat)
    requires CommentEnd(s + z, i).Some? && CommentEnd(s + z, i).value <= |s|
    ensures CommentEnd(s, i) == CommentEnd(s + z, i)
    decreases |s| - i
  {
    if !((s + z)[i] == '*' && (s + z)[i + 1] == '/') { CommentEndRestrict(s, z, i + 1); }
  }

  lemma {:induction false} QuoteEndRestrict(s: string, z: string, j: nat, q: char)
    requires QuoteEnd(s + z, j, q).Some? && QuoteEnd(s + z, j, q).value <= |s| && IsQuote(q)
    ensures QuoteEnd(s, j, q) == QuoteEnd(s + z, j, q)
    decreases |s| - j
  {
    assert (s + z)[j] == s[j];
    if s[j] == '\\' && q != '`' {
      QuoteEndRestrict(s, z, j + 2, q);
    } else if s[j] == q {
      if j + 1 < |s + z| && (s + z)[j + 1] == q { QuoteEndRestrict(s, z, j + 2, q); }
    } else {
      QuoteEndRestrict(s, z, j + 1, q);
    }
  }

  lemma {:induction false} WordEndRestrict(s: string, z: string, j: nat)
    requires j <= |s| && WordEnd(s + z, j) <= |s|
    ensures WordEnd(s, j) == WordEnd(s + z, j)
    decreases |s| - j
  {
    if j < |s| && IsWordChar(s[j]) { WordEndRestrict(s, z, j + 1); }
  }

  /** A text cut at the end of a statement reads as before, except that the cut
      ends a line comment, and makes one of a "--" that it now stands behind. */
  lemma NextRestrict(s: string, z: string, k: nat)
    requires k < |s| && (z == "" || Edge(z)) && Next(s + z, k).Some?
    requires Next(s + z, k).value.to <= |s| || Next(s + z, k).value.kind.LineComment?
    ensures var p := Next(s + z, k).value;
            || (p.to <= |s| && Next(s, k) == Some(p))
            || (Next(s, k) == Some(Piece(LineComment, k, |s|)) && (p.kind.LineComment? || s[k..] == "--"))
  {
    hide LineEnd, CommentEnd, QuoteEnd, WordEnd, IsSpace, IsWordChar;
    var y := s + z;
    assert y[k] == s[k] && (k + 1 < |s| ==> y[k + 1] == s[k + 1]) && (k + 2 < |s| ==> y[k + 2] == s[k + 2]);
    assert k > 0 ==> y[k - 1] == s[k - 1];
    if LineCommentAt(y, k) {
      assert LineCommentAt(s, k) by { EdgeSign(s, z, k); }
      LineEndRestrict(s, z, k);
    } else if LineCommentAt(s, k) {
      assert s[k..] == "--";
      LineEndOfDashes(s, k);
    } else if BlockCommentAt(y, k) {
      EdgeSign(s, z, k);
      CommentEndRestrict(s, z, k + 2);
    } else if IsQuote(s[k]) {
      QuoteEndRestrict(s, z, k + 1, s[k]);
    } else if s[k] != ';' && WordAt(y, k) {
      WordEndRestrict(s, z, k + 1);
    }
  }

  /** Behind a statement comes no '-', no '*' and no '='. */
  lemma EdgeSign(s: string, z: string, k: nat)
    requires k < |s| && (z == "" || Edge(z))
    ensures LineCommentAt(s + z, k) ==> LineCommentAt(s, k)
    ensures BlockCommentAt(s + z, k) ==> BlockCommentAt(s, k)
  {
  }

  lemma LineEndOfDashes(s: string, k: nat)
    requires k <= |s| && s[k..] == "--"
    ensures LineEnd(s, k) == |s|
  {
    assert s[k..][0] == s[k] == '-' && s[k..][1] == s[k + 1] == '-';
  }

  lemma LabelEndRestrict(s: string, z: string, j: nat)
    requires j <= |s| && Tail(z) && s != "" && !IsSpace(s[|s| - 1])
    ensures LabelEnd(s, j) == LabelEnd(s + z, j)
  {
    SkipSpaceExtend(s, z, j);
  }

  // ---- scripts without compound statements ----

  /** No statement of the script from i on becomes a compound one. */
  predicate NeverCompound(sql: string, i: nat, c: Control)
    requires i <= |sql|
    decreases |sql| - i
  {
    && !c.compound
    && (i < |sql| ==>
          match Next(sql, i)
          case None => true
          case Some(p) =>
            if IsBoundary(c, TokenOf(sql, p)) then NeverCompound(sql, p.to, START)
            else match Step(c, TokenOf(sql, p)) case None => true case Some(c') => NeverCompound(sql, p.to, c'))
  }

  /** Outside compound statements a token steps the same whatever its call and
      name flags. */
  lemma LooseStep(c: Control, t: Token, u: Token)
    requires !c.compound
    requires t == u || (t.WordToken? && u.WordToken? && t.word == u.word && t.isLabel == u.isLabel)
    ensures Step(c, t) == Step(c, u)
  {
  }

  /** The token of a piece, in the script and in the statement cut out of it. */
  lemma TokenRestrict(a: string, s: string, z: string, p: Piece)
    requires p.from < p.to <= |s| && Tail(z) && !IsSpace(s[|s| - 1])
    ensures var t, u := TokenOf(s, p), TokenOf(a + (s + z), Shift(p, |a|));
            t == u || (t.WordToken? && u.WordToken? && t.word == u.word && t.isLabel == u.isLabel)
  {
    hide KeywordOf, CallScan, LabelEnd, IsSpace, Upper, SkipSpace;
    if p.kind.Word? {
      SliceShift(a, s + z, p.from, p.to);
      assert (s + z)[p.from..p.to] == s[p.from..p.to];
      LabelEndShift(a, s + z, p.to);
      LabelEndRestrict(s, z, p.to);
    }
  }

  // ---- one statement cut out of a script ----

  /** The text a..a+n of the script is a statement's, trimmed, up to a ';' or
      the end at e. */
  predicate Cut(sql: string, a: nat, n: nat, e: nat) {
    && 0 < n && a + n <= e <= |sql| && !IsSpace(sql[a]) && !IsSpace(sql[a + n - 1])
    && BlankRange(sql, a + n, e) && (e < |sql| ==> sql[e] == ';')
  }

  lemma CutTail(sql: string, a: nat, n: nat, e: nat)
    requires Cut(sql, a, n, e)
    ensures sql == sql[..a] + (sql[a..a + n] + sql[a + n..]) && Tail(sql[a + n..])
  {
    hide IsSpace, SkipSpace;
    var z, m := sql[a + n..], e - (a + n);
    assert BlankRange(z, 0, m);
    if e < |sql| {
      assert z[m] == ';';
      SemicolonIsCode();
      SkipsTo(z, 0, m);
    } else {
      assert SkipSpace(z, 0) == |z|;
    }
  }

  lemma SemicolonIsCode()
    ensures !IsSpace(';')
  {
  }

  /** A piece of code ends in a character that is not white space. */
  lemma PieceEnd(sql: string, i: nat)
    requires i < |sql| && Next(sql, i).Some?
    ensures var p := Next(sql, i).value;
            p.kind.LineComment? || p.to == i + 1 || !IsSpace(sql[p.to - 1])
  {
    if BlockCommentAt(sql, i) && !LineCommentAt(sql, i) { CommentCloser(sql, i + 2); }
  }

  lemma {:induction false} CommentCloser(s: string, i: nat)
    requires CommentEnd(s, i).Some?
    ensures s[CommentEnd(s, i).value - 1] == '/'
    decreases |s| - i
  {
    if !(s[i] == '*' && s[i + 1] == '/') { CommentCloser(s, i + 1); }
  }

  /** The piece at i, read in the statement alone. */
  lemma PieceInCut(sql: string, a: nat, n: nat, e: nat, i: nat)
    requires Cut(sql, a, n, e) && a <= i < a + n && Next(sql, i).Some? && Next(sql, i).value.to <= e
    requires i > a || a == 0 || !IsWordChar(sql[a - 1])
    ensures var s, p := sql[a..a + n], Next(sql, i).value;
            || (&& a <= p.from && p.to <= a + n && Next(s, i - a) == Some(Piece(p.kind, p.from - a, p.to - a)))
            || (&& Next(s, i - a) == Some(Piece(LineComment, i - a, n))
                && (p.kind.LineComment? || s[i - a..] == "--"))
  {
    hide Next, IsSpace, IsWordChar, Cut, Tail;
    CutFacts(sql, a, n, e);
    CutTail(sql, a, n, e);
    var pre, s, z := sql[..a], sql[a..a + n], sql[a + n..];
    NextShift(pre, s + z, i - a);
    PieceEnd(sql, i);
    TailEdge(z);
    NextRestrict(s, z, i - a);
  }

  lemma TailEdge(z: string)
    requires Tail(z)
    ensures z == "" || Edge(z)
  {
  }

  lemma CutFacts(sql: string, a: nat, n: nat, e: nat)
    requires Cut(sql, a, n, e)
    ensures 0 < n && a + n <= e <= |sql| && !IsSpace(sql[a]) && !IsSpace(sql[a + n - 1])
    ensures forall k :: a + n <= k < e ==> IsSpace(sql[k])
  {
  }

  /** The same piece steps the same, alone and in the script. */
  lemma StepInCut(sql: string, a: nat, n: nat, e: nat, p: Piece, c: Control)
    requires Cut(sql, a, n, e) && a <= p.from < p.to <= a + n && !c.compound
    ensures var t, u := TokenOf(sql[a..a + n], Piece(p.kind, p.from - a, p.to - a)), TokenOf(sql, p);
            && Step(c, t) == Step(c, u) && (t.Semicolon? <==> u.Semicolon?) && (t.Nothing? <==> u.Nothing?)
  {
    hide TokenOf, Step, IsSpace;
    CutTail(sql, a, n, e);
    var s, q := sql[a..a + n], Piece(p.kind, p.from - a, p.to - a);
    assert !IsSpace(s[|s| - 1]);
    TokenRestrict(sql[..a], s, sql[a + n..], q);
    LooseStep(c, TokenOf(s, q), TokenOf(sql, p));
  }

  /** From i on, the statement reads alone as it did in the script. */
  lemma {:induction false} CutAlone(sql: string, a: nat, n: nat, e: nat, i: nat, c: Control)
    requires Cut(sql, a, n, e) && a < i <= a + n && CodeBefore(sql, i, Some(a)) && NeverCompound(sql, i, c)
    requires SpansFrom(sql, i, c, Some(a)).Some? && SpansFrom(sql, i, c, Some(a)).value != []
    requires SpansFrom(sql, i, c, Some(a)).value[0] == Span(a, e)
    ensures var s := sql[a..a + n]; Alone(s, i - a, c).Some? && !Alone(s, i - a, c).value.compound
    decreases |sql| - i
  {
    hide Next, TokenOf, Step, Cut, IsSpace, InRange, IsBoundary, SpansFrom;
    CutFacts(sql, a, n, e);
    var s := sql[a..a + n];
    if i < a + n {
      CutStep(sql, a, e, i, c);
      var p := Next(sql, i).value;
      PieceInCut(sql, a, n, e, i);
      if p.to <= a + n && Next(s, i - a) == Some(Piece(p.kind, i - a, p.to - a)) {
        var q := Piece(p.kind, i - a, p.to - a);
        StepInCut(sql, a, n, e, p, c);
        LooseBoundary(c, TokenOf(s, q));
        LooseBoundary(c, TokenOf(sql, p));
        CutAlone(sql, a, n, e, p.to, Step(c, TokenOf(sql, p)).value);
        assert !Unsettled(s, q, c);
      } else {
        var q := Piece(LineComment, i - a, n);
        OpenCommentToken(s, q, c);
        LooseBoundary(c, Nothing);
        assert !Unsettled(s, q, c);
        assert Alone(s, n, c) == Some(c);
      }
    }
  }

  lemma LooseBoundary(c: Control, t: Token)
    requires !c.compound
    ensures IsBoundary(c, t) <==> t.Semicolon?
  {
  }

  /** A step inside a statement whose span is known. */
  lemma CutStep(sql: string, a: nat, e: nat, i: nat, c: Control)
    requires i < e <= |sql| && CodeBefore(sql, i, Some(a)) && NeverCompound(sql, i, c)
    requires SpansFrom(sql, i, c, Some(a)).Some? && SpansFrom(sql, i, c, Some(a)).value != []
    requires SpansFrom(sql, i, c, Some(a)).value[0] == Span(a, e)
    ensures !c.compound && Next(sql, i).Some?
    ensures var p := Next(sql, i).value; var t := TokenOf(sql, p);
            && p.to <= e && !t.Semicolon? && Step(c, t).Some?
            && CodeBefore(sql, p.to, Some(a)) && NeverCompound(sql, p.to, Step(c, t).value)
            && SpansFrom(sql, i, c, Some(a)) == SpansFrom(sql, p.to, Step(c, t).value, Some(a))
  {
    hide TokenOf, Step, IsSpace, InRange;
    var p := Next(sql, i).value;
    var t := TokenOf(sql, p);
    LooseBoundary(c, t);
    if !IsBoundary(c, t) {
      SpansSeparate(sql, p.to, Step(c, t).value, Some(a));
    }
  }

  /** What comes behind the statement whose code starts at a. */
  lemma {:induction false} Behind(sql: string, i: nat, c: Control, a: nat) returns (e: nat, rest: seq<Span>)
    requires i <= |sql| && CodeBefore(sql, i, Some(a)) && NeverCompound(sql, i, c)
    requires SpansFrom(sql, i, c, Some(a)).Some?
    ensures i <= e <= |sql| && SpansFrom(sql, i, c, Some(a)).value == [Span(a, e)] + rest
    ensures e == |sql| ==> rest == []
    ensures e < |sql| ==> sql[e] == ';' && NeverCompound(sql, e + 1, START)
                          && SpansFrom(sql, e + 1, START, None) == Some(rest)
    decreases |sql| - i
  {
    hide TokenOf, Step, IsSpace, InRange;
    if i == |sql| {
      e, rest := i, [];
    } else {
      var p := Next(sql, i).value;
      var t := TokenOf(sql, p);
      LooseBoundary(c, t);
      if t.Semicolon? {
        SemicolonPiece(sql, p);
        e, rest := i, SpansFrom(sql, p.to, START, None).value;
      } else {
        MarkBefore(sql, p, Some(a));
        e, rest := Behind(sql, p.to, Step(c, t).value, a);
      }
    }
  }

  /** A returned text, or the one exception: "--" alone reads as a comment. */
  predicate Stable(x: string) {
    x == "--" || IsStatement(x)
  }

  /** The first piece of a statement's code starts it. */
  lemma FirstStatement(sql: string, a: nat, e: nat, p: Piece, c: Control)
    requires a < |sql| && Next(sql, a) == Some(p) && TokenOf(sql, p) !in [Nothing, Semicolon]
    requires Step(START, TokenOf(sql, p)) == Some(c) && NeverCompound(sql, p.to, c) && CodeBefore(sql, p.to, Some(a))
    requires SpansFrom(sql, p.to, c, Some(a)).Some? && SpansFrom(sql, p.to, c, Some(a)).value != []
    requires SpansFrom(sql, p.to, c, Some(a)).value[0] == Span(a, e)
    requires p.to <= e <= |sql| && (e < |sql| ==> sql[e] == ';')
    requires a == 0 || !IsWordChar(sql[a - 1])
    ensures Stable(Trim(sql[a..e]))
  {
    hide Next, TokenOf, Step, IsSpace, IsWordChar, SpansFrom, Alone, NeverCompound, Trim, TrimmedLength, KeywordOf,
         CallScan, AtRest, InRange;
    var n := TrimCut(sql, a, e);
    var s := sql[a..a + n];
    CutFacts(sql, a, n, e);
    PieceInCut(sql, a, n, e, a);
    if s != "--" {
      assert s[0..] == s;
      assert !p.kind.LineComment? by { if p.kind.LineComment? { OpenCommentToken(sql, p, START); } }
      var q := Piece(p.kind, 0, p.to - a);
      StepInCut(sql, a, n, e, p, START);
      LooseBoundary(START, TokenOf(s, q));
      assert !Unsettled(s, q, START);
      CutAlone(sql, a, n, e, p.to, c);
      FirstAlone(s, q, c);
    }
  }

  lemma FirstAlone(s: string, q: Piece, c: Control)
    requires s != "" && Next(s, 0) == Some(q) && TokenOf(s, q) !in [Nothing, Semicolon]
    requires !IsSpace(s[0]) && !IsSpace(s[|s| - 1])
    requires !IsBoundary(START, TokenOf(s, q)) && !Unsettled(s, q, START) && Step(START, TokenOf(s, q)) == Some(c)
    requires Alone(s, q.to, c).Some? && !Alone(s, q.to, c).value.compound
    ensures IsStatement(s)
  {
    hide Next, TokenOf, Step, IsSpace;
    assert Alone(s, 0, START) == Alone(s, q.to, c);
  }

  lemma TrimCut(sql: string, a: nat, e: nat) returns (n: nat)
    requires a < e <= |sql| && !IsSpace(sql[a]) && (e < |sql| ==> sql[e] == ';')
    ensures Cut(sql, a, n, e) && Trim(sql[a..e]) == sql[a..a + n]
  {
    hide IsSpace;
    var t := sql[a..e];
    n := TrimmedLength(t);
    assert SkipSpace(t, 0) == 0 && t[0..] == t;
    assert !IsSpace(t[0]);
    forall k | a + n <= k < e ensures IsSpace(sql[k]) { assert sql[k] == t[k - a]; }
    assert t[n - 1] == sql[a + n - 1];
  }

  predicate StableSpans(sql: string, spans: seq<Span>)
    requires InRange(sql, spans)
  {
    forall k :: 0 <= k < |spans| ==> Stable(Trim(sql[spans[k].from..spans[k].to]))
  }

  lemma StableCons(sql: string, s: Span, rest: seq<Span>)
    requires InRange(sql, [s] + rest) && InRange(sql, rest) && s.from <= s.to <= |sql|
    requires Stable(Trim(sql[s.from..s.to])) && StableSpans(sql, rest)
    ensures StableSpans(sql, [s] + rest)
  {
    hide Stable, Trim;
    var all := [s] + rest;
    forall k | 0 <= k < |all| ensures Stable(Trim(sql[all[k].from..all[k].to])) {
      if k > 0 { assert all[k] == rest[k - 1]; }
    }
  }

  lemma NoSpans(sql: string)
    ensures InRange(sql, []) && StableSpans(sql, [])
  {
  }

  /** Between statements, what is read adds none. */
  lemma NothingSkipped(sql: string, i: nat)
    requires i < |sql| && NeverCompound(sql, i, START) && SpansFrom(sql, i, START, None).Some?
    requires TokenOf(sql, Next(sql, i).value) in [Nothing, Semicolon]
    ensures var p := Next(sql, i).value;
            SpansFrom(sql, p.to, START, None) == SpansFrom(sql, i, START, None) && NeverCompound(sql, p.to, START)
  {
    hide Next, TokenOf, InRange;
    var p := Next(sql, i).value;
    if SpansFrom(sql, p.to, START, None).Some? {
      var rest := SpansFrom(sql, p.to, START, None).value;
      assert Close(None, i) + rest == rest;
    }
  }

  /** Every statement returned from i on is stable. */
  lemma {:induction false} AllStable(sql: string, i: nat)
    requires i <= |sql| && NeverCompound(sql, i, START) && SpansFrom(sql, i, START, None).Some?
    requires i == 0 || i == |sql| || !IsWordChar(sql[i - 1])
    ensures StableSpans(sql, SpansFrom(sql, i, START, None).value)
    decreases |sql| - i
  {
    hide TokenOf, IsSpace, IsWordChar, Trim, Stable, Cut, StableSpans;
    NoSpans(sql);
    if i < |sql| {
      var p := Next(sql, i).value;
      var t := TokenOf(sql, p);
      LooseBoundary(START, t);
      if t.Semicolon? || t.Nothing? {
        NothingEnd(sql, i);
        NothingSkipped(sql, i);
        AllStable(sql, p.to);
      } else {
        var c := Step(START, t).value;
        MarkBefore(sql, p, None);
        var e, rest := Behind(sql, p.to, c, i);
        FirstStatement(sql, i, e, p, c);
        if e < |sql| {
          SemicolonIsNoWord();
          AllStable(sql, e + 1);
        }
        StableCons(sql, Span(i, e), rest);
      }
    }
  }

  lemma SemicolonIsNoWord()
    ensures !IsWordChar(';')
  {
  }

  /** What is dropped between statements does not end in a word character. */
  lemma NothingEnd(sql: string, i: nat)
    requires i < |sql| && Next(sql, i).Some? && TokenOf(sql, Next(sql, i).value) in [Nothing, Semicolon]
    ensures var p := Next(sql, i).value; p.to == |sql| || !IsWordChar(sql[p.to - 1])
  {
    if LineCommentAt(sql, i) {
      LineEndsAt(sql, i);
    } else if BlockCommentAt(sql, i) {
      CommentCloser(sql, i + 2);
    }
  }

  lemma {:induction false} LineEndsAt(s: string, i: nat)
    requires i < |s|
    ensures LineEnd(s, i) == |s| || s[LineEnd(s, i) - 1] == '\n'
    decreases |s| - i
  {
    if s[i] != '\n' && i + 1 < |s| { LineEndsAt(s, i + 1); }
  }

  /** For a script without compound statements: each returned statement splits
      into itself alone exactly when it is not "--", and if none is, joining them
      with line breaks around the ';' and splitting gives the same list. */
  lemma Resplitting(sql: string)
    requires NeverCompound(sql, 0, START) && Split(sql).Some?
    ensures var xs := Split(sql).value;
            && (forall k :: 0 <= k < |xs| ==> (Split(xs[k]) == Some([xs[k]]) <==> xs[k] != "--"))
            && ("--" !in xs ==> Split(Join(xs, "\n")) == Some(xs))
  {
    hide NeverCompound, Split, IsStatement, OpenEnd, Trim, SpansFrom, IsSpace;
    SplitTexts(sql);
    AllStable(sql, 0);
    var xs := Split(sql).value;
    forall k | 0 <= k < |xs| ensures Split(xs[k]) == Some([xs[k]]) <==> xs[k] != "--" {
      assert Stable(xs[k]);
      if xs[k] != "--" { SplitAlone(xs[k]); } else { SplitDashes(); }
    }
    if "--" !in xs {
      forall k | 0 <= k < |xs| ensures IsStatement(xs[k]) { assert Stable(xs[k]) && xs[k] in xs; }
      assert Blank("\n") by { NewlineIsBlank(); }
      SplitUndoesJoin(xs, "\n");
    }
  }

  lemma NewlineIsBlank()
    ensures Blank("\n")
  {
  }

  lemma SplitDashes()
    ensures Split("--") == Some([])
  {
    SplitTexts("--");
    assert "--"[0..] == "--";
    LineEndOfDashes("--", 0);
    assert Next("--", 0) == Some(Piece(LineComment, 0, 2));
    assert SpansFrom("--", 2, START, None) == Some([]);
    assert Spans("--") == Some([]);
    assert Texts("--", []) == [];
  }

  lemma DashPieces()
    ensures var sql := "--;";
            && Next(sql, 0) == Some(Piece(Other, 0, 1)) && Next(sql, 1) == Some(Piece(Other, 1, 2))
            && Next(sql, 2) == Some(Piece(Semi, 2, 3)) && !IsSpace('-') && sql[0..2] == "--"
  {
  }

  lemma SignAtStart()
    ensures Step(START, Sign) == Some(START) && !IsBoundary(START, Sign) && IsBoundary(START, Semicolon)
  {
  }

  lemma DashSpans()
    ensures Spans("--;") == Some([Span(0, 2)])
  {
    var sql := "--;";
    DashPieces();
    SignAtStart();
    hide Next, Step, IsBoundary, IsSpace;
    assert TokenOf(sql, Piece(Other, 0, 1)) == Sign && TokenOf(sql, Piece(Other, 1, 2)) == Sign;
    assert TokenOf(sql, Piece(Semi, 2, 3)) == Semicolon;
    hide TokenOf;
    assert SpansFrom(sql, 3, START, None) == Some([]);
    assert [Span(0, 2)] + [] == [Span(0, 2)];
    assert SpansFrom(sql, 2, START, Some(0)) == Some([Span(0, 2)]);
    assert SpansFrom(sql, 1, START, Some(0)) == Some([Span(0, 2)]);
    assert Mark(None, Piece(Other, 0, 1), Sign) == Some(0);
  }

  /** There is such a statement: of "--;" the splitter returns "--", which it then
      splits into nothing. */
  lemma DashesAreReturned()
    ensures Split("--;") == Some(["--"]) && Split("--") == Some([])
  {
    var sql := "--;";
    SplitDashes();
    SplitTexts(sql);
    DashSpans();
    DashPieces();
    TrimIdentity("--");
    hide Spans, Split, Trim, Next;
    assert Texts(sql, [Span(0, 2)]) == ["--"];
  }
}
