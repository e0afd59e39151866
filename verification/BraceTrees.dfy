/** Brace matching undoes printing: whatever strings, templates and comments
    stand between nested braces, the closing brace of a printed block is found. */
module BraceTrees {
  import opened Text
  import opened SqlLexer
  import opened SourceScan

  datatype Node =
    | Braces(children: Forest)
    | Str(quote: char, body: string)
    | Line(text: string)
    | Remark(text: string)
    | Code(c: char)

  datatype Forest = Nil | Cons(head: Node, tail: Forest)

  function Print(n: Node): string {
    match n
    case Braces(children) => "{" + PrintAll(children) + "}"
    case Str(q, body) => [q] + body + [q]
    case Line(text) => "//" + text + "\n"
    case Remark(text) => "/*" + text + "*/"
    case Code(c) => [c]
  }

  function PrintAll(f: Forest): string {
    match f
    case Nil => ""
    case Cons(n, rest) => Print(n) + PrintAll(rest)
  }

  /** A string's body has every quote of its kind escaped, a comment's text does
      not close it, and code is no slash, quote or brace. */
  predicate Good(n: Node) {
    match n
    case Braces(children) => GoodAll(children)
    case Str(q, body) => IsQuote(q) && StringEnd(body + [q], 0, q) == |body| + 1
    case Line(text) => '\n' !in text
    case Remark(text) => CommentEnd(text + "*/", 0) == Some(|text| + 2)
    case Code(c) => !IsQuote(c) && c != '/' && c != '{' && c != '}'
  }

  predicate GoodAll(f: Forest) {
    match f
    case Nil => true
    case Cons(n, rest) => Good(n) && GoodAll(rest)
  }

  // ---- one pass instead of two ----

  /** The scan from j comes to stand at i, outside strings and comments. */
  predicate Reaches(s: string, lang: Lang, j: nat, i: nat)
    decreases |s| - j
  {
    j == i || (j < |s| && Reaches(s, lang, Skip(s, lang, j), i))
  }

  /** Brace matching on the source itself, comments skipped on the way. */
  function Direct(s: string, i: nat, depth: int): Option<nat>
    decreases |s| - i
  {
    if i >= |s| then None
    else if IsQuote(s[i]) || CommentAt(s, Js, i) then Direct(s, Skip(s, Js, i), depth)
    else if s[i] == '{' then Direct(s, i + 1, depth + 1)
    else if s[i] == '}' then if depth == 1 then Some(i) else Direct(s, i + 1, depth - 1)
    else Direct(s, i + 1, depth)
  }

  lemma {:induction false} ReachesAhead(s: string, lang: Lang, j: nat, i: nat)
    requires Reaches(s, lang, j, i)
    ensures j <= i
    ensures i < |s| ==> Reaches(s, lang, j, Skip(s, lang, i))
    decreases |s| - j
  {
    if j != i { ReachesAhead(s, lang, Skip(s, lang, j), i); } else if i < |s| {
      assert Reaches(s, lang, Skip(s, lang, i), Skip(s, lang, i));
    }
  }

  lemma {:induction false} ReachesMasks(s: string, lang: Lang, j: nat, i: nat, k: nat)
    requires Reaches(s, lang, j, i) && i <= k
    ensures Masks(s, lang, j, k) <==> Masks(s, lang, i, k)
    decreases |s| - j
  {
    hide Skip, CommentAt;
    if j != i {
      ReachesAhead(s, lang, Skip(s, lang, j), i);
      ReachesMasks(s, lang, Skip(s, lang, j), i, k);
    }
  }

  /** The masked characters of what starts at a position that the scan reaches. */
  lemma MaskedAt(s: string, lang: Lang, i: nat, k: nat)
    requires i < |s| && Reaches(s, lang, 0, i) && i <= k < |s| && k < Skip(s, lang, i)
    ensures Masked(s, lang)[k] == if CommentAt(s, lang, i) && s[k] != '\n' then ' ' else s[k]
  {
    hide Skip, CommentAt, Reaches;
    ReachesMasks(s, lang, 0, i, k);
    if Masks(s, lang, Skip(s, lang, i), k) { MasksAhead(s, lang, Skip(s, lang, i), k); }
  }

  lemma {:induction false} StringSame(s: string, m: string, i: nat, q: char)
    requires |m| == |s| && forall k :: i <= k < |s| && k < StringEnd(s, i, q) ==> m[k] == s[k]
    ensures StringEnd(m, i, q) == StringEnd(s, i, q)
    decreases |s| - i
  {
    if i < |s| && s[i] != q {
      if s[i] == '\\' { StringSame(s, m, i + 2, q); } else { StringSame(s, m, i + 1, q); }
    }
  }

  lemma {:induction false} MatchBlanks(m: string, i: nat, e: nat, depth: int)
    requires i <= e <= |m| && forall k :: i <= k < e ==> m[k] == ' ' || m[k] == '\n'
    ensures Match(m, i, depth) == Match(m, e, depth)
    decreases e - i
  {
    if i < e { MatchBlanks(m, i + 1, e, depth); }
  }

  lemma CommentInside(s: string, lang: Lang, i: nat)
    requires i < |s| && CommentAt(s, lang, i)
    ensures Skip(s, lang, i) <= |s|
  {
  }

  /** Masking first and matching then is matching with comments skipped. */
  lemma {:induction false} MatchIsDirect(s: string, i: nat, depth: int)
    requires Reaches(s, Js, 0, i)
    ensures Match(Masked(s, Js), i, depth) == Direct(s, i, depth)
    decreases |s| - i
  {
    hide Masks, Masked, Reaches, CommentAt;
    var m := Masked(s, Js);
    if i < |s| {
      hide Skip;
      var j := Skip(s, Js, i);
      forall k | i <= k < |s| && k < j
        ensures m[k] == if CommentAt(s, Js, i) && s[k] != '\n' then ' ' else s[k]
      {
        MaskedAt(s, Js, i, k);
      }
      ReachesAhead(s, Js, 0, i);
      SkipCases(s, Js, i);
      if CommentAt(s, Js, i) {
        CommentInside(s, Js, i);
        MatchBlanks(m, i, j, depth);
        MatchIsDirect(s, j, depth);
      } else if IsQuote(s[i]) {
        StringSame(s, m, i + 1, s[i]);
        MatchIsDirect(s, j, depth);
      } else if s[i] == '{' {
        MatchIsDirect(s, j, depth + 1);
      } else if s[i] == '}' {
        MatchIsDirect(s, j, depth - 1);
      } else {
        MatchIsDirect(s, j, depth);
      }
    }
  }

  lemma SkipCases(s: string, lang: Lang, i: nat)
    requires i < |s|
    ensures IsQuote(s[i]) ==> !CommentAt(s, lang, i) && Skip(s, lang, i) == StringEnd(s, i + 1, s[i])
    ensures !IsQuote(s[i]) && !CommentAt(s, lang, i) ==> Skip(s, lang, i) == i + 1
  {
  }

  // ---- the text of a node in its place ----

  predicate At(s: string, pos: nat, t: string) {
    pos + |t| <= |s| && s[pos..pos + |t|] == t
  }

  lemma AtChar(s: string, pos: nat, t: string, k: nat)
    requires At(s, pos, t) && k < |t|
    ensures s[pos + k] == t[k]
  {
    assert s[pos..pos + |t|][k] == s[pos + k];
  }

  lemma AtSplit(s: string, pos: nat, t: string, u: string)
    requires At(s, pos, t + u)
    ensures At(s, pos, t) && At(s, pos + |t|, u)
  {
    assert (t + u)[..|t|] == t && (t + u)[|t|..] == u;
    assert s[pos..pos + |t|] == s[pos..pos + |t + u|][..|t|];
    assert s[pos + |t|..pos + |t| + |u|] == s[pos..pos + |t + u|][|t|..];
  }

  lemma {:induction false} StringEndAt(s: string, pos: nat, t: string, j: nat, q: char)
    requires At(s, pos, t) && StringEnd(t, j, q) <= |t|
    ensures StringEnd(s, pos + j, q) == pos + StringEnd(t, j, q)
    decreases |t| - j
  {
    AtChar(s, pos, t, j);
    if t[j] != q {
      if t[j] == '\\' { StringEndAt(s, pos, t, j + 2, q); } else { StringEndAt(s, pos, t, j + 1, q); }
    }
  }

  lemma {:induction false} CommentEndAt(s: string, pos: nat, t: string, j: nat)
    requires At(s, pos, t) && CommentEnd(t, j).Some?
    ensures CommentEnd(s, pos + j) == Some(pos + CommentEnd(t, j).value)
    decreases |t| - j
  {
    AtChar(s, pos, t, j);
    AtChar(s, pos, t, j + 1);
    if !(t[j] == '*' && t[j + 1] == '/') { CommentEndAt(s, pos, t, j + 1); }
  }

  lemma {:induction false} LineBreakAt(s: string, pos: nat, text: string)
    requires '\n' !in text && At(s, pos, text + "\n")
    ensures LineBreak(s, pos) == pos + |text|
    decreases |text|
  {
    AtChar(s, pos, text + "\n", 0);
    if text != "" {
      assert text[0] in text;
      assert [text[0]] + (text[1..] + "\n") == text + "\n";
      AtSplit(s, pos, [text[0]], text[1..] + "\n");
      LineBreakAt(s, pos + 1, text[1..]);
    }
  }

  /** What a leaf of the tree does to the scan: nothing. */
  lemma LeafDirect(s: string, pos: nat, n: Node, depth: int)
    requires !n.Braces? && Good(n) && At(s, pos, Print(n))
    ensures Direct(s, pos, depth) == Direct(s, pos + |Print(n)|, depth)
  {
    AtChar(s, pos, Print(n), 0);
    match n
    case Code(c) =>
    case Str(q, body) =>
      assert Print(n) == [q] + (body + [q]);
      AtSplit(s, pos, [q], body + [q]);
      StringEndAt(s, pos + 1, body + [q], 0, q);
    case Line(text) => LineDirect(s, pos, text, depth);
    case Remark(text) => RemarkDirect(s, pos, text, depth);
  }

  lemma LineDirect(s: string, pos: nat, text: string, depth: int)
    requires '\n' !in text && At(s, pos, "//" + text + "\n")
    ensures Direct(s, pos, depth) == Direct(s, pos + |text| + 3, depth)
  {
    var t := "//" + text + "\n";
    AtChar(s, pos, t, 0);
    AtChar(s, pos, t, 1);
    AtChar(s, pos, t, |text| + 2);
    assert t == "//" + (text + "\n");
    AtSplit(s, pos, "//", text + "\n");
    LineBreakAt(s, pos + 2, text);
    var b := pos + 2 + |text|;
    assert LineBreak(s, pos + 1) == b && Skip(s, Js, pos) == b;
    assert Direct(s, pos, depth) == Direct(s, b, depth);
    assert s[b] == '\n';
  }

  lemma RemarkDirect(s: string, pos: nat, text: string, depth: int)
    requires CommentEnd(text + "*/", 0) == Some(|text| + 2) && At(s, pos, "/*" + text + "*/")
    ensures Direct(s, pos, depth) == Direct(s, pos + |text| + 4, depth)
  {
    var t := "/*" + text + "*/";
    AtChar(s, pos, t, 0);
    AtChar(s, pos, t, 1);
    assert t == "/*" + (text + "*/");
    AtSplit(s, pos, "/*", text + "*/");
    CommentEndAt(s, pos + 2, text + "*/", 0);
    assert BlockCommentAt(s, pos) && !LineStart(s, Js, pos) && Skip(s, Js, pos) == pos + |text| + 4;
  }

  /** Inside a block, a printed forest leaves the depth as it was. */
  lemma {:induction false} ForestDirect(s: string, pos: nat, f: Forest, depth: int)
    requires depth >= 1 && GoodAll(f) && At(s, pos, PrintAll(f))
    ensures Direct(s, pos, depth) == Direct(s, pos + |PrintAll(f)|, depth)
    decreases f
  {
    hide Direct, At, Good, Print;
    match f
    case Nil =>
    case Cons(n, rest) =>
      AtSplit(s, pos, Print(n), PrintAll(rest));
      if n.Braces? {
        PrintBraces(n);
        BracesDirect(s, pos, n.children, depth);
        ForestDirect(s, pos + 1, n.children, depth + 1);
        BracesClose(s, pos, n.children, depth);
      } else {
        LeafDirect(s, pos, n, depth);
      }
      ForestDirect(s, pos + |Print(n)|, rest, depth);
  }

  lemma PrintBraces(n: Node)
    requires n.Braces?
    ensures Print(n) == "{" + PrintAll(n.children) + "}" && (Good(n) ==> GoodAll(n.children))
  {
  }

  lemma BracesDirect(s: string, pos: nat, f: Forest, depth: int)
    requires At(s, pos, "{" + PrintAll(f) + "}")
    ensures Direct(s, pos, depth) == Direct(s, pos + 1, depth + 1) && At(s, pos + 1, PrintAll(f))
  {
    AtChar(s, pos, "{" + PrintAll(f) + "}", 0);
    AtSplit(s, pos, "{" + PrintAll(f), "}");
    AtSplit(s, pos, "{", PrintAll(f));
  }

  lemma BracesClose(s: string, pos: nat, f: Forest, depth: int)
    requires At(s, pos, "{" + PrintAll(f) + "}")
    ensures var e := pos + 1 + |PrintAll(f)|;
            Direct(s, e, depth + 1) == if depth == 0 then Some(e) else Direct(s, e + 1, depth)
  {
    AtChar(s, pos, "{" + PrintAll(f) + "}", 1 + |PrintAll(f)|);
  }

  /** For every tree of nested braces, after any text from which the scan comes
      to stand on the opening brace and before any text: the brace found is the
      tree's last character. */
  lemma MatchingUndoesPrinting(prefix: string, children: Forest, suffix: string)
    requires GoodAll(children)
    requires Reaches(prefix + Print(Braces(children)) + suffix, Js, 0, |prefix|)
    ensures var s, t := prefix + Print(Braces(children)) + suffix, Print(Braces(children));
            Match(Masked(s, Js), |prefix|, 0) == Some(|prefix| + |t| - 1)
  {
    hide Masked, Reaches, Match, Direct;
    var t := Print(Braces(children));
    var s := prefix + t + suffix;
    assert At(s, |prefix|, t);
    MatchIsDirect(s, |prefix|, 0);
    BracesDirect(s, |prefix|, children, 0);
    ForestDirect(s, |prefix| + 1, children, 1);
    BracesClose(s, |prefix|, children, 0);
  }
}
