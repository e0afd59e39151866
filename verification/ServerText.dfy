/** The text a MariaDB server is sent, as it reads it: words, signs and quoted
    texts with the values they stand for; and what becomes of a password that is
    put into a quoted text. */
module ServerText {
  import opened Text
  import opened SqlLexer

  /** Hole is the place of a password in a file that is still to be resolved. */
  datatype Lexeme =
    | Term(text: string)
    | Sign(sign: char)
    | Quote(mark: char, value: string, size: nat)
    | Hole(holeMark: char, index: nat)
    | Stop

  // ---- the value of a quoted text ----

  /** What a backslash and c stand for, unless c is '%' or '_'. */
  function Escaped(c: char): char {
    match c
    case '0' => '\0'
    case 'b' => '\U{0008}'
    case 'n' => '\n'
    case 'r' => '\r'
    case 't' => '\t'
    case 'Z' => '\U{001A}'
    case _ => c
  }

  /** The value of the inside of a quoted text: a doubled quote is one, a
      backslash escapes, but "\%" and "\_" stay as they are. */
  function Unquoted(inside: string, q: char): string {
    if inside == "" then ""
    else if inside[0] == '\\' && q != '`' && |inside| > 1 then
      (if inside[1] == '%' || inside[1] == '_' then inside[..2] else [Escaped(inside[1])]) + Unquoted(inside[2..], q)
    else if inside[0] == q && |inside| > 1 then [q] + Unquoted(inside[2..], q)
    else [inside[0]] + Unquoted(inside[1..], q)
  }

  /** The lexeme at the front, and the text behind it; nothing for white space and
      comments.  Texts with comments that the server executes are not modelled. */
  function LexemeOf(b: string, p: Piece): seq<Lexeme>
    requires p.from == 0 < p.to <= |b|
  {
    match p.kind
    case Word => [Term(b[..p.to])]
    case Other => [Sign(b[0])]
    case Semi => [Stop]
    case Quoted => if p.to >= 2 then [Quote(b[0], Unquoted(b[1..p.to - 1], b[0]), p.to)] else []
    case _ => []
  }

  /** A comment whose text the server executes: one that starts with an exclamation mark, or
      with M and one. */
  predicate Executes(b: string, p: Piece) {
    || p.kind.ExecComment?
    || (p.kind.BlockComment? && 3 < p.to <= |b| && b[2] == 'M' && b[3] == '!')
  }

  /** The lexemes of a text; None when a quoted text or a comment does not end, or the
      server executes a comment. */
  function Lexemes(b: string): Option<seq<Lexeme>>
    decreases |b|
  {
    if b == "" then Some([])
    else
      match Next(b, 0)
      case None => None
      case Some(p) =>
        if Executes(b, p) then None
        else
          match Lexemes(b[p.to..])
          case None => None
          case Some(rest) => Some(LexemeOf(b, p) + rest)
  }

  // ---- which passwords survive ----

  /** Read as written between the quotes q: none of them inside, and no backslash
      but before '%' and '_'. */
  predicate Survives(password: string, q: char) {
    && (forall k :: 0 <= k < |password| ==> password[k] != q)
    && (q != '`' ==>
          forall k :: 0 <= k < |password| && password[k] == '\\' ==>
            k + 1 < |password| && (password[k + 1] == '%' || password[k + 1] == '_'))
  }

  lemma {:induction false} QuoteEndSurvives(s: string, j: nat, e: nat, q: char)
    requires j <= e < |s| && s[e] == q && (e + 1 < |s| ==> s[e + 1] != q) && IsQuote(q) && Survives(s[j..e], q)
    ensures QuoteEnd(s, j, q) == Some(e + 1)
    decreases e - j
  {
    if j < e {
      var u := s[j..e];
      assert u[0] == s[j] != q;
      if s[j] == '\\' && q != '`' {
        assert u[1] == s[j + 1];
        assert Survives(s[j + 2..e], q) by { SurvivesRest(u, 2, q); assert u[2..] == s[j + 2..e]; }
        QuoteEndSurvives(s, j + 2, e, q);
      } else {
        assert Survives(s[j + 1..e], q) by { SurvivesRest(u, 1, q); assert u[1..] == s[j + 1..e]; }
        QuoteEndSurvives(s, j + 1, e, q);
      }
    }
  }

  lemma SurvivesRest(u: string, n: nat, q: char)
    requires Survives(u, q) && n <= |u|
    ensures Survives(u[n..], q)
  {
    var v := u[n..];
    forall k | 0 <= k < |v| && v[k] == '\\' && q != '`' ensures k + 1 < |v| && (v[k + 1] == '%' || v[k + 1] == '_') {
      assert u[n + k] == '\\';
    }
  }

  lemma {:induction false} UnquotedSurvives(u: string, q: char)
    requires Survives(u, q) && IsQuote(q)
    ensures Unquoted(u, q) == u
    decreases |u|
  {
    if u != "" {
      if u[0] == '\\' && q != '`' {
        SurvivesRest(u, 2, q);
        UnquotedSurvives(u[2..], q);
        assert u == u[..2] + u[2..];
      } else {
        SurvivesRest(u, 1, q);
        UnquotedSurvives(u[1..], q);
      }
    }
  }

  lemma {:induction false} UnquotedLength(u: string, q: char)
    ensures |Unquoted(u, q)| <= |u|
    decreases |u|
  {
    if u != "" {
      UnquotedLength(u[1..], q);
      if |u| > 1 { UnquotedLength(u[2..], q); }
    }
  }

  /** A text that ends at e and stands for itself has no quote inside and no
      backslash but before '%' and '_'. */
  lemma {:induction false} ReadsAsItself(s: string, j: nat, e: nat, q: char)
    requires j <= e < |s| && QuoteEnd(s, j, q) == Some(e + 1) && IsQuote(q) && Unquoted(s[j..e], q) == s[j..e]
    ensures Survives(s[j..e], q)
    decreases e - j
  {
    var u := s[j..e];
    if j < e {
      assert u[0] == s[j];
      EndBeyond(s, j, q);
      if s[j] == '\\' && q != '`' {
        assert u[1] == s[j + 1] && u[2..] == s[j + 2..e];
        UnquotedLength(u[2..], q);
        assert |Unquoted(u, q)| == |u|;
        assert u[1] == '%' || u[1] == '_';
        assert Unquoted(u, q)[2..] == Unquoted(u[2..], q);
        ReadsAsItself(s, j + 2, e, q);
        SurvivesMore(u, 2, q);
      } else if s[j] == q {
        assert u[1..] == s[j + 1..e];
        UnquotedLength(u[2..], q);
      } else {
        assert u[1..] == s[j + 1..e];
        assert Unquoted(u, q)[1..] == Unquoted(u[1..], q);
        ReadsAsItself(s, j + 1, e, q);
        SurvivesMore(u, 1, q);
      }
    }
  }

  /** An escape or a doubled quote ends before the quoted text does. */
  lemma EndBeyond(s: string, j: nat, q: char)
    requires QuoteEnd(s, j, q).Some? && IsQuote(q) && j < |s|
    ensures s[j] == '\\' && q != '`' ==> QuoteEnd(s, j, q).value >= j + 3
    ensures s[j] == q ==> QuoteEnd(s, j, q).value == j + 1 || QuoteEnd(s, j, q).value >= j + 3
  {
  }

  lemma SurvivesMore(u: string, n: nat, q: char)
    requires n <= |u| && Survives(u[n..], q)
    requires n == 1 ==> u[0] != q && (u[0] != '\\' || q == '`')
    requires n == 2 ==> u[0] != q && u[1] != q && u[0] == '\\' && (u[1] == '%' || u[1] == '_')
    requires n == 1 || n == 2
    ensures Survives(u, q)
  {
    var v := u[n..];
    forall k | 0 <= k < |u| ensures u[k] != q {
      if k >= n { assert u[k] == v[k - n]; }
    }
    forall k | 0 <= k < |u| && u[k] == '\\' && q != '`' ensures k + 1 < |u| && (u[k + 1] == '%' || u[k + 1] == '_') {
      if k >= n { assert u[k] == v[k - n]; }
    }
  }

  /** A password between quotes, before a text that does not start with one, is
      read as itself exactly when it survives. */
  lemma LiteralReads(password: string, q: char, rest: string)
    requires IsQuote(q) && (rest == "" || rest[0] != q)
    ensures var b := [q] + password + [q] + rest;
            (QuoteEnd(b, 1, q) == Some(|password| + 2) && Unquoted(password, q) == password) <==> Survives(password, q)
  {
    var b := [q] + password + [q] + rest;
    var e := |password| + 1;
    AroundPassword(password, q, rest);
    hide QuoteEnd, Unquoted, Survives, IsQuote;
    if Survives(password, q) {
      QuoteEndSurvives(b, 1, e, q);
      UnquotedSurvives(password, q);
    } else if QuoteEnd(b, 1, q) == Some(e + 1) && Unquoted(password, q) == password {
      ReadsAsItself(b, 1, e, q);
    }
  }

  lemma AroundPassword(password: string, q: char, rest: string)
    ensures var b, e := [q] + password + [q] + rest, |password| + 1;
            e < |b| && b[1..e] == password && b[e] == q && (e + 1 < |b| ==> rest != "" && b[e + 1] == rest[0])
  {
  }
}
