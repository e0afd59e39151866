/** A file whose placeholders are whole quoted texts, and the text it becomes with
    passwords in their place: the server reads the same lexemes, and the
    passwords as they are, exactly when every password survives its quotes. */
module ServerFill {
  import opened Text
  import opened SqlLexer
  import opened PlaceholderPasswords
  import opened ServerText

  /** The lexemes of the file from `off` on, b being the text there: a quoted text
      that is placeholder k is Hole k.  None when a placeholder is not the whole
      of a quoted text in ' or ". */
  function Template(b: string, off: nat, ps: seq<nat>, k: nat, w: nat): Option<seq<Lexeme>>
    requires k <= |ps|
    decreases |b|
  {
    if b == "" then if k == |ps| then Some([]) else None
    else
      match Next(b, 0)
      case None => None
      case Some(p) =>
        if Executes(b, p) then None
        else if k < |ps| && ps[k] < off + p.to then
          if p.kind.Quoted? && b[0] != '`' && ps[k] == off + 1 && p.to == w + 2 then
            match Template(b[p.to..], off + p.to, ps, k + 1, w)
            case None => None
            case Some(rest) => Some([Hole(b[0], k)] + rest)
          else None
        else
          match Template(b[p.to..], off + p.to, ps, k, w)
          case None => None
          case Some(rest) => Some(LexemeOf(b, p) + rest)
  }

  /** A hole with its password. */
  function Filled(l: Lexeme, passwords: seq<string>): Lexeme {
    if l.Hole? && l.index < |passwords| then Quote(l.holeMark, passwords[l.index], |passwords[l.index]| + 2) else l
  }

  function Fill(ls: seq<Lexeme>, passwords: seq<string>): (r: seq<Lexeme>)
    ensures |r| == |ls|
  {
    seq(|ls|, i requires 0 <= i < |ls| => Filled(ls[i], passwords))
  }

  lemma FillAppend(a: seq<Lexeme>, b: seq<Lexeme>, passwords: seq<string>)
    ensures Fill(a + b, passwords) == Fill(a, passwords) + Fill(b, passwords)
  {
    hide Filled;
  }

  /** The resolved text from i on, where placeholder k comes next. */
  function Suffix(t: string, ps: seq<nat>, w: nat, passwords: seq<string>, k: nat, i: nat): string
    requires Spaced(t, ps, w) && |ps| == |passwords| && k <= |ps| && i <= |t| && (k < |ps| ==> i <= ps[k])
    decreases |ps| - k
  {
    if k == |ps| then t[i..]
    else t[i..ps[k]] + passwords[k] + Suffix(t, ps, w, passwords, k + 1, ps[k] + w)
  }

  /** What is written for the first n placeholders, and the rest. */
  lemma {:induction false} ResolvedIsSuffix(t: string, ps: seq<nat>, w: nat, passwords: seq<string>, n: nat)
    requires Spaced(t, ps, w) && |ps| == |passwords| && n <= |ps|
    ensures Cursor(ps, w, n) <= |t| && (n < |ps| ==> Cursor(ps, w, n) <= ps[n])
    ensures Resolved(t, ps, w, passwords)
            == ResolvedTo(t, ps, w, passwords, n) + Suffix(t, ps, w, passwords, n, Cursor(ps, w, n))
    decreases |ps| - n
  {
    if n < |ps| {
      CursorNext(t, ps, w, n);
      ResolvedIsSuffix(t, ps, w, passwords, n + 1);
      SuffixHere(t, ps, w, passwords, n, Cursor(ps, w, n));
      ResolvedOne(t, ps, w, passwords, n);
      hide Suffix, Spaced, Resolved, ResolvedTo, Cursor;
      Regroup(ResolvedTo(t, ps, w, passwords, n), t[Cursor(ps, w, n)..ps[n]], passwords[n],
              Suffix(t, ps, w, passwords, n + 1, ps[n] + w));
    }
  }

  lemma CursorNext(t: string, ps: seq<nat>, w: nat, n: nat)
    requires Spaced(t, ps, w) && n < |ps|
    ensures Cursor(ps, w, n) <= ps[n] <= |t| && Cursor(ps, w, n + 1) == ps[n] + w
  {
  }

  lemma ResolvedOne(t: string, ps: seq<nat>, w: nat, passwords: seq<string>, n: nat)
    requires Spaced(t, ps, w) && |ps| == |passwords| && n < |ps| && Cursor(ps, w, n) <= ps[n] <= |t|
    ensures ResolvedTo(t, ps, w, passwords, n + 1)
            == ResolvedTo(t, ps, w, passwords, n) + t[Cursor(ps, w, n)..ps[n]] + passwords[n]
  {
  }

  lemma Regroup(a: string, b: string, c: string, d: string)
    ensures (a + b + c) + d == a + (b + c + d)
  {
  }

  // ---- reading is local ----

  lemma {:induction false} LineEndLocal(s: string, t: string, i: nat, n: nat)
    requires i <= n <= |s| && n <= |t| && s[..n] == t[..n] && LineEnd(s, i) < n
    ensures LineEnd(t, i) == LineEnd(s, i)
    decreases n - i
  {
    assert i < n ==> s[..n][i] == t[..n][i];
    if i < n && s[i] != '\n' { LineEndLocal(s, t, i + 1, n); }
  }

  lemma {:induction false} CommentEndLocal(s: string, t: string, i: nat, n: nat)
    requires n <= |s| && n <= |t| && s[..n] == t[..n] && CommentEnd(s, i).Some? && CommentEnd(s, i).value < n
    ensures CommentEnd(t, i) == CommentEnd(s, i)
    decreases |s| - i
  {
    assert s[..n][i] == t[..n][i] && s[..n][i + 1] == t[..n][i + 1];
    if !(s[i] == '*' && s[i + 1] == '/') { CommentEndLocal(s, t, i + 1, n); }
  }

  lemma {:induction false} QuoteEndLocal(s: string, t: string, j: nat, q: char, n: nat)
    requires n <= |s| && n <= |t| && s[..n] == t[..n] && QuoteEnd(s, j, q).Some? && QuoteEnd(s, j, q).value < n
    ensures QuoteEnd(t, j, q) == QuoteEnd(s, j, q)
    decreases |s| - j
  {
    assert s[..n][j] == t[..n][j] && s[..n][j + 1] == t[..n][j + 1];
    if s[j] == '\\' && q != '`' {
      QuoteEndLocal(s, t, j + 2, q, n);
    } else if s[j] == q {
      if s[j + 1] == q { QuoteEndLocal(s, t, j + 2, q, n); }
    } else {
      QuoteEndLocal(s, t, j + 1, q, n);
    }
  }

  lemma {:induction false} WordEndLocal(s: string, t: string, j: nat, n: nat)
    requires j <= n <= |s| && n <= |t| && s[..n] == t[..n] && WordEnd(s, j) < n
    ensures WordEnd(t, j) == WordEnd(s, j)
    decreases n - j
  {
    assert j < n ==> s[..n][j] == t[..n][j];
    if IsWordChar(s[j]) { WordEndLocal(s, t, j + 1, n); }
  }

  /** A piece that ends before a quote is the same whatever the quote holds. */
  lemma NextLocal(s: string, t: string, n: nat)
    requires 0 < n <= |s| && n <= |t| && s[..n] == t[..n] && IsQuote(s[n - 1])
    requires Next(s, 0).Some? && Next(s, 0).value.to < n
    ensures Next(t, 0) == Next(s, 0)
  {
    hide LineEnd, CommentEnd, QuoteEnd, WordEnd, IsSpace, IsWordChar;
    var p := Next(s, 0).value;
    assert s[..n][0] == t[..n][0] && s[..n][1] == t[..n][1];
    assert n > 2 ==> s[..n][2] == t[..n][2];
    assert s[n - 1] == t[..n][n - 1];
    assert LineCommentAt(s, 0) == LineCommentAt(t, 0);
    if LineCommentAt(s, 0) {
      LineEndLocal(s, t, 0, n);
    } else if BlockCommentAt(s, 0) {
      CommentEndLocal(s, t, 2, n);
    } else if IsQuote(s[0]) {
      QuoteEndLocal(s, t, 1, s[0], n);
    } else if s[0] != ';' && WordAt(s, 0) {
      WordEndLocal(s, t, 1, n);
    }
  }

  // ---- reading the resolved text ----

  /** The first quoted placeholder lies ahead, behind its quote. */
  lemma {:induction false} TemplateFacts(b: string, off: nat, ps: seq<nat>, k: nat, w: nat)
    requires k <= |ps| && Template(b, off, ps, k, w).Some? && k < |ps|
    ensures off < ps[k] <= off + |b| && IsQuote(b[ps[k] - off - 1])
    decreases |b|
  {
    hide LexemeOf;
    var p := Next(b, 0).value;
    if ps[k] < off + p.to {
      QuotedIsQuote(b);
    } else {
      TemplateFacts(b[p.to..], off + p.to, ps, k, w);
    }
  }

  lemma QuotedIsQuote(b: string)
    requires b != "" && Next(b, 0).Some? && Next(b, 0).value.kind.Quoted?
    ensures IsQuote(b[0]) && QuoteEnd(b, 1, b[0]) == Some(Next(b, 0).value.to)
  {
  }

  lemma SuffixDrop(t: string, ps: seq<nat>, w: nat, passwords: seq<string>, k: nat, i: nat, d: nat)
    requires Spaced(t, ps, w) && |ps| == |passwords| && k <= |ps| && i + d <= |t| && (k < |ps| ==> i + d <= ps[k])
    ensures d <= |Suffix(t, ps, w, passwords, k, i)| && Suffix(t, ps, w, passwords, k, i)[..d] == t[i..i + d]
    ensures Suffix(t, ps, w, passwords, k, i)[d..] == Suffix(t, ps, w, passwords, k, i + d)
  {
    if k < |ps| {
      var tail := Suffix(t, ps, w, passwords, k + 1, ps[k] + w);
      CutFront(t[i..ps[k]], passwords[k], tail, d);
      hide Suffix;
      assert t[i..ps[k]][d..] == t[i + d..ps[k]] && t[i..ps[k]][..d] == t[i..i + d];
      SuffixHere(t, ps, w, passwords, k, i);
      SuffixHere(t, ps, w, passwords, k, i + d);
    } else {
      assert t[i..][d..] == t[i + d..] && t[i..][..d] == t[i..i + d];
    }
  }

  lemma SuffixHere(t: string, ps: seq<nat>, w: nat, passwords: seq<string>, k: nat, i: nat)
    requires Spaced(t, ps, w) && |ps| == |passwords| && k < |ps| && i <= ps[k]
    ensures i <= |t| && ps[k] + w <= |t| && (k + 1 < |ps| ==> ps[k] + w <= ps[k + 1])
    ensures Suffix(t, ps, w, passwords, k, i)
            == t[i..ps[k]] + passwords[k] + Suffix(t, ps, w, passwords, k + 1, ps[k] + w)
  {
  }

  lemma CutFront(a: string, b: string, c: string, d: nat)
    requires d <= |a|
    ensures (a + b + c)[..d] == a[..d] && (a + b + c)[d..] == a[d..] + b + c
  {
  }

  /** The quote a placeholder stands behind. */
  function MarkOf(t: string, p: nat): char {
    if 0 < p <= |t| then t[p - 1] else ' '
  }

  predicate AllSurvive(t: string, ps: seq<nat>, passwords: seq<string>, k: nat)
    requires |ps| == |passwords|
  {
    forall j :: k <= j < |ps| ==> Survives(passwords[j], MarkOf(t, ps[j]))
  }

  lemma LexemeLocal(s: string, t: string, p: Piece)
    requires p.from == 0 < p.to <= |s| && p.to <= |t| && s[..p.to] == t[..p.to]
    ensures LexemeOf(s, p) == LexemeOf(t, p) && (Executes(s, p) <==> Executes(t, p))
  {
    assert s[..p.to][0] == t[..p.to][0];
    if p.to > 3 { assert s[..p.to][2] == t[..p.to][2] && s[..p.to][3] == t[..p.to][3]; }
    if p.to >= 2 { assert s[1..p.to - 1] == s[..p.to][1..p.to - 1] == t[1..p.to - 1]; }
  }

  lemma NoHoles(s: string, p: Piece, passwords: seq<string>)
    requires p.from == 0 < p.to <= |s|
    ensures Fill(LexemeOf(s, p), passwords) == LexemeOf(s, p)
  {
    hide Unquoted;
  }

  lemma LexemesStep(b: string, p: Piece)
    requires b != "" && Next(b, 0) == Some(p) && !Executes(b, p)
    ensures Lexemes(b) == (match Lexemes(b[p.to..]) case None => None case Some(rest) => Some(LexemeOf(b, p) + rest))
  {
  }

  lemma SameRest(a: seq<Lexeme>, x: Option<seq<Lexeme>>, y: seq<Lexeme>)
    ensures (match x case None => None case Some(rest) => Some(a + rest)) == Some(a + y) <==> x == Some(y)
  {
    if x.Some? && a + x.value == a + y {
      assert x.value == (a + x.value)[|a|..] && y == (a + y)[|a|..];
    }
  }

  /** A piece before the next hole is read from the resolved text as from the file. */
  lemma PieceReads(t: string, ps: seq<nat>, w: nat, passwords: seq<string>, k: nat, i: nat)
    requires Spaced(t, ps, w) && |ps| == |passwords| && k <= |ps| && i < |t|
    requires Template(t[i..], i, ps, k, w).Some?
    requires var p := Next(t[i..], 0).value; k < |ps| ==> i + p.to <= ps[k]
    ensures k < |ps| ==> i <= ps[k]
    ensures var p, s := Next(t[i..], 0).value, Suffix(t, ps, w, passwords, k, i);
            && s != "" && Next(s, 0) == Some(p) && p.to <= |s| && LexemeOf(s, p) == LexemeOf(t[i..], p)
            && !Executes(s, p)
            && i + p.to <= |t| && s[p.to..] == Suffix(t, ps, w, passwords, k, i + p.to)
  {
    hide *;
    var b := t[i..];
    TemplateRest(b, i, ps, k, w);
    var p := Next(b, 0).value;
    SuffixDrop(t, ps, w, passwords, k, i, p.to);
    var s := Suffix(t, ps, w, passwords, k, i);
    assert b[..p.to] == t[i..i + p.to];
    if k < |ps| {
      TemplateRest(b, i, ps, k, w);
      TemplateFacts(b[p.to..], i + p.to, ps, k, w);
      var n := ps[k] - i;
      SuffixDrop(t, ps, w, passwords, k, i, n);
      assert b[..n] == t[i..ps[k]];
      assert b[p.to..][ps[k] - (i + p.to) - 1] == b[n - 1];
      NextLocal(b, s, n);
    } else {
      LastSuffix(t, ps, w, passwords, i);
    }
    LexemeLocal(b, s, p);
  }

  lemma LastSuffix(t: string, ps: seq<nat>, w: nat, passwords: seq<string>, i: nat)
    requires Spaced(t, ps, w) && |ps| == |passwords| && i <= |t|
    ensures Suffix(t, ps, w, passwords, |ps|, i) == t[i..]
  {
  }

  lemma TemplateRest(b: string, off: nat, ps: seq<nat>, k: nat, w: nat)
    requires k <= |ps| && b != "" && Template(b, off, ps, k, w).Some?
    ensures Next(b, 0).Some? && !Executes(b, Next(b, 0).value)
    ensures var p := Next(b, 0).value;
            if k < |ps| && ps[k] < off + p.to then
              && p.kind.Quoted? && b[0] != '`' && ps[k] == off + 1 && p.to == w + 2
              && Template(b[p.to..], off + p.to, ps, k + 1, w).Some?
              && Template(b, off, ps, k, w).value
                  == [Hole(b[0], k)] + Template(b[p.to..], off + p.to, ps, k + 1, w).value
            else
              && Template(b[p.to..], off + p.to, ps, k, w).Some?
              && Template(b, off, ps, k, w).value == LexemeOf(b, p) + Template(b[p.to..], off + p.to, ps, k, w).value
  {
    hide LexemeOf, Next;
  }

  /** At a hole, the resolved text has the password between the quotes. */
  lemma HoleText(t: string, ps: seq<nat>, w: nat, passwords: seq<string>, k: nat, i: nat)
    requires Spaced(t, ps, w) && |ps| == |passwords| && k < |ps| && ps[k] == i + 1 && i + w + 2 <= |t|
    requires t[i + w + 1] == t[i] && (k + 1 < |ps| ==> i + w + 2 <= ps[k + 1])
    ensures var q, rest := t[i], Suffix(t, ps, w, passwords, k + 1, i + w + 2);
            Suffix(t, ps, w, passwords, k, i) == [q] + passwords[k] + [q] + rest
  {
    var q := t[i];
    SuffixDrop(t, ps, w, passwords, k + 1, ps[k] + w, 1);
    var tail := Suffix(t, ps, w, passwords, k + 1, ps[k] + w);
    assert t[i..ps[k]] == [q];
    assert t[ps[k] + w..ps[k] + w + 1] == [q];
    assert tail == tail[..1] + tail[1..];
    var rest := Suffix(t, ps, w, passwords, k + 1, i + w + 2);
    assert tail == [q] + rest;
    assert ([q] + passwords[k]) + ([q] + rest) == [q] + passwords[k] + [q] + rest;
  }

  lemma QuoteEndNext(s: string, j: nat, q: char)
    requires QuoteEnd(s, j, q).Some?
    ensures var e := QuoteEnd(s, j, q).value; e == |s| || s[e] != q
    decreases |s| - j
  {
  }

  /** A literal in the resolved text is read as its password, its whole extent,
      exactly when the password survives. */
  lemma HoleReads(q: char, password: string, rest: string, ls: seq<Lexeme>)
    requires IsQuote(q) && (rest == "" || rest[0] != q)
    ensures var b := [q] + password + [q] + rest;
            Lexemes(b) == Some([Quote(q, password, |password| + 2)] + ls)
            <==> Survives(password, q) && Lexemes(rest) == Some(ls)
  {
    var b := [q] + password + [q] + rest;
    var n := |password| + 2;
    LiteralReads(password, q, rest);
    assert b[0] == q && b[1..n - 1] == password && b[n..] == rest;
    QuoteFront(b);
    hide Survives, Unquoted, IsQuote;
    if QuoteEnd(b, 1, q).Some? {
      var p := Piece(Quoted, 0, QuoteEnd(b, 1, q).value);
      LexemesStep(b, p);
      assert LexemeOf(b, p) == [Quote(q, Unquoted(b[1..p.to - 1], q), p.to)];
      QuoteCase(b, p, q, password, rest, ls);
    }
  }

  lemma QuoteCase(b: string, p: Piece, q: char, password: string, rest: string, ls: seq<Lexeme>)
    requires 2 <= p.to <= |b| && |password| + 2 <= |b| && b[1..|password| + 1] == password
             && b[|password| + 2..] == rest
    requires Lexemes(b) == (match Lexemes(b[p.to..]) case None => None
                            case Some(r) => Some([Quote(q, Unquoted(b[1..p.to - 1], q), p.to)] + r))
    ensures Lexemes(b) == Some([Quote(q, password, |password| + 2)] + ls)
            <==> p.to == |password| + 2 && Unquoted(password, q) == password && Lexemes(rest) == Some(ls)
  {
    hide Lexemes, Unquoted;
    var want := Quote(q, password, |password| + 2);
    var got := Quote(q, Unquoted(b[1..p.to - 1], q), p.to);
    if Lexemes(b) == Some([want] + ls) {
      assert Lexemes(b).value[0] == got && ([want] + ls)[0] == want;
      SameRest([want], Lexemes(b[p.to..]), ls);
    }
    if p.to == |password| + 2 { SameRest([want], Lexemes(b[p.to..]), ls); }
  }

  lemma QuoteFront(b: string)
    requires b != "" && IsQuote(b[0])
    ensures Next(b, 0) == match QuoteEnd(b, 1, b[0]) case None => None case Some(k) => Some(Piece(Quoted, 0, k))
    ensures QuoteEnd(b, 1, b[0]).Some? ==> QuoteEnd(b, 1, b[0]).value >= 2
    ensures QuoteEnd(b, 1, b[0]).None? ==> Lexemes(b) == None
  {
  }

  /** From i on, the server reads the resolved text as the file with its passwords
      exactly when these passwords survive. */
  lemma {:induction false} TemplateReads(t: string, ps: seq<nat>, w: nat, passwords: seq<string>, k: nat, i: nat)
    requires Spaced(t, ps, w) && |ps| == |passwords| && k <= |ps| && i <= |t| && Template(t[i..], i, ps, k, w).Some?
    ensures k < |ps| ==> i <= ps[k]
    ensures Lexemes(Suffix(t, ps, w, passwords, k, i)) == Some(Fill(Template(t[i..], i, ps, k, w).value, passwords))
            <==> AllSurvive(t, ps, passwords, k)
    decreases |t| - i
  {
    hide LexemeOf, Next, IsQuote, Survives, Lexemes, Template, Spaced, Fill, Suffix;
    var b := t[i..];
    if b == "" {
      AtEnd(t, ps, w, passwords, k, i);
    } else {
      TemplateRest(b, i, ps, k, w);
      if k < |ps| { TemplateFacts(b, i, ps, k, w); }
      var p := Next(b, 0).value;
      assert b[p.to..] == t[i + p.to..];
      if k < |ps| && ps[k] < i + p.to {
        var rest := Template(t[i + p.to..], i + p.to, ps, k + 1, w).value;
        TemplateReads(t, ps, w, passwords, k + 1, i + p.to);
        HoleFacts(t, ps, w, k, i);
        HoleText(t, ps, w, passwords, k, i);
        var later := Suffix(t, ps, w, passwords, k + 1, i + w + 2);
        LaterStart(t, ps, w, passwords, k + 1, i + w + 2, t[i]);
        HoleReads(t[i], passwords[k], later, Fill(rest, passwords));
        FillAppend([Hole(b[0], k)], rest, passwords);
        FillHole(b[0], k, passwords);
        SurviveFirst(t, ps, passwords, k);
      } else {
        var rest := Template(t[i + p.to..], i + p.to, ps, k, w).value;
        TemplateReads(t, ps, w, passwords, k, i + p.to);
        PieceReads(t, ps, w, passwords, k, i);
        var s := Suffix(t, ps, w, passwords, k, i);
        LexemesStep(s, p);
        FillAppend(LexemeOf(b, p), rest, passwords);
        NoHoles(b, p, passwords);
        SameRest(LexemeOf(b, p), Lexemes(s[p.to..]), Fill(rest, passwords));
      }
    }
  }

  lemma AtEnd(t: string, ps: seq<nat>, w: nat, passwords: seq<string>, k: nat, i: nat)
    requires Spaced(t, ps, w) && |ps| == |passwords| && k <= |ps| && i <= |t| && t[i..] == ""
    requires Template(t[i..], i, ps, k, w).Some?
    ensures k == |ps| && Template(t[i..], i, ps, k, w) == Some([])
            && Lexemes(Suffix(t, ps, w, passwords, k, i)) == Some([])
    ensures Fill([], passwords) == [] && AllSurvive(t, ps, passwords, k)
  {
  }

  lemma FillHole(q: char, k: nat, passwords: seq<string>)
    requires k < |passwords|
    ensures Fill([Hole(q, k)], passwords) == [Quote(q, passwords[k], |passwords[k]| + 2)]
  {
  }

  lemma SurviveFirst(t: string, ps: seq<nat>, passwords: seq<string>, k: nat)
    requires |ps| == |passwords| && k < |ps| && 0 < ps[k] <= |t|
    ensures AllSurvive(t, ps, passwords, k)
            <==> Survives(passwords[k], t[ps[k] - 1]) && AllSurvive(t, ps, passwords, k + 1)
  {
    hide Survives;
  }

  lemma HoleFacts(t: string, ps: seq<nat>, w: nat, k: nat, i: nat)
    requires Spaced(t, ps, w) && k < |ps| && i < |t| && Template(t[i..], i, ps, k, w).Some?
    requires ps[k] < i + Next(t[i..], 0).value.to
    ensures ps[k] == i + 1 && i + w + 2 <= |t| && IsQuote(t[i]) && t[i + w + 1] == t[i]
    ensures i + w + 2 == |t| || t[i + w + 2] != t[i]
    ensures k + 1 < |ps| ==> i + w + 2 <= ps[k + 1]
  {
    hide *;
    HoleHere(t[i..], ps, w, k, i);
    SameChars(t, i, w);
  }

  lemma HoleHere(b: string, ps: seq<nat>, w: nat, k: nat, i: nat)
    requires b != "" && k < |ps| && Template(b, i, ps, k, w).Some? && ps[k] < i + Next(b, 0).value.to
    ensures ps[k] == i + 1 && w + 2 <= |b| && IsQuote(b[0]) && b[w + 1] == b[0] && (w + 2 == |b| || b[w + 2] != b[0])
    ensures k + 1 < |ps| ==> i + w + 2 <= ps[k + 1]
  {
    hide *;
    TemplateRest(b, i, ps, k, w);
    QuotedEnds(b, w + 2);
    if k + 1 < |ps| { TemplateFacts(b[w + 2..], i + w + 2, ps, k + 1, w); }
  }

  lemma SameChars(t: string, i: nat, w: nat)
    requires i + w + 2 <= |t|
    ensures t[i..][0] == t[i] && t[i..][w + 1] == t[i + w + 1] && (i + w + 2 < |t| ==> t[i..][w + 2] == t[i + w + 2])
  {
  }

  /** A quoted piece ends with its quote, and none follows. */
  lemma QuotedEnds(b: string, n: nat)
    requires b != "" && Next(b, 0).Some? && Next(b, 0).value.kind.Quoted? && Next(b, 0).value.to == n && n >= 2
    ensures IsQuote(b[0]) && n <= |b| && b[n - 1] == b[0] && (n == |b| || b[n] != b[0])
  {
    QuotedIsQuote(b);
    QuoteEndNext(b, 1, b[0]);
  }

  /** What follows the hole starts as the file does there, with no such quote. */
  lemma LaterStart(t: string, ps: seq<nat>, w: nat, passwords: seq<string>, k: nat, i: nat, q: char)
    requires Spaced(t, ps, w) && |ps| == |passwords| && k <= |ps| && i <= |t|
    requires Template(t[i..], i, ps, k, w).Some? && (i == |t| || t[i] != q)
    ensures k < |ps| ==> i <= ps[k]
    ensures var s := Suffix(t, ps, w, passwords, k, i); s == "" || s[0] != q
  {
    hide Spaced;
    if k < |ps| { TemplateFacts(t[i..], i, ps, k, w); }
    if i < |t| {
      SuffixDrop(t, ps, w, passwords, k, i, 1);
      var s := Suffix(t, ps, w, passwords, k, i);
      assert s[..1][0] == t[i..i + 1][0];
    }
  }

  /** The server reads a resolved file lexeme by lexeme as the file, with every
      password as it was generated, exactly when every password survives the
      quotes it is put between. */
  lemma ResolvedReads(t: string, ps: seq<nat>, w: nat, passwords: seq<string>)
    requires Spaced(t, ps, w) && |ps| == |passwords| && Template(t, 0, ps, 0, w).Some?
    ensures Lexemes(Resolved(t, ps, w, passwords)) == Some(Fill(Template(t, 0, ps, 0, w).value, passwords))
            <==> AllSurvive(t, ps, passwords, 0)
  {
    hide Template, Lexemes, AllSurvive, Spaced, Suffix, Resolved;
    assert t[0..] == t;
    TemplateReads(t, ps, w, passwords, 0, 0);
    ResolvedIsSuffix(t, ps, w, passwords, 0);
    assert "" + Suffix(t, ps, w, passwords, 0, 0) == Suffix(t, ps, w, passwords, 0, 0);
  }

  // ---- passwords that survive any quotes ----

  lemma {:induction false} HolesAreQuoted(b: string, off: nat, ps: seq<nat>, k: nat, w: nat, t: string, j: nat)
    requires k <= j < |ps| && off <= |t| && b == t[off..] && Template(b, off, ps, k, w).Some?
    ensures MarkOf(t, ps[j]) == '\'' || MarkOf(t, ps[j]) == '"'
    decreases |b|
  {
    hide LexemeOf, Next;
    TemplateNotEmpty(b, off, ps, k, w);
    TemplateRest(b, off, ps, k, w);
    var p := Next(b, 0).value;
    assert b[p.to..] == t[off + p.to..];
    if ps[k] < off + p.to {
      QuotedIsQuote(b);
      assert b[0] == t[off];
      if k < j { HolesAreQuoted(b[p.to..], off + p.to, ps, k + 1, w, t, j); }
    } else {
      HolesAreQuoted(b[p.to..], off + p.to, ps, k, w, t, j);
    }
  }

  lemma TemplateNotEmpty(b: string, off: nat, ps: seq<nat>, k: nat, w: nat)
    requires k < |ps| && Template(b, off, ps, k, w).Some?
    ensures b != ""
  {
  }

  lemma SurvivingAll(t: string, ps: seq<nat>, w: nat, passwords: seq<string>)
    requires |ps| == |passwords| && Spaced(t, ps, w) && Template(t, 0, ps, 0, w).Some?
    requires forall p :: p in passwords ==> Survives(p, '\'') && Survives(p, '"')
    ensures AllSurvive(t, ps, passwords, 0)
  {
    hide Survives, Template;
    forall j | 0 <= j < |ps| ensures 0 < ps[j] <= |t| && Survives(passwords[j], MarkOf(t, ps[j])) {
      assert passwords[j] in passwords && t[0..] == t;
      HolesAreQuoted(t, 0, ps, 0, w, t, j);
    }
  }
}
