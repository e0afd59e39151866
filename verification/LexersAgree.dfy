/** The two lexers agree: maskComments blanks exactly the comments that the
    statement splitter skips, though one reads a doubled quote as an escape and
    the other closes the string and opens the next. */
module LexersAgree {
  import opened Text
  import opened SqlLexer
  import opened SourceScan

  predicate IsComment(p: Piece) {
    p.kind.LineComment? || p.kind.BlockComment? || p.kind.ExecComment?
  }

  /** Position k lies in one of the splitter's comments. */
  predicate InComment(ps: seq<Piece>, k: nat) {
    exists j :: 0 <= j < |ps| && IsComment(ps[j]) && ps[j].from <= k < ps[j].to
  }

  /** The text with the splitter's comments blanked, line breaks kept. */
  function CommentsBlanked(sql: string, ps: seq<Piece>): string {
    seq(|sql|, k requires 0 <= k < |sql| => if InComment(ps, k) && sql[k] != '\n' then ' ' else sql[k])
  }

  /** Inside a quoted name from j up to its closing backtick at e - 1, read from
      left to right with every backslash taking the character behind it: no
      backslash takes a backtick. */
  predicate NoBacktickTaken(s: string, j: nat, e: nat)
    requires e <= |s|
    decreases e - j
  {
    if j + 1 >= e then true
    else if s[j] == '\\' then s[j + 1] != '`' && NoBacktickTaken(s, j + 2, e)
    else if s[j] == '`' then NoBacktickTaken(s, j + 2, e)
    else NoBacktickTaken(s, j + 1, e)
  }

  predicate NoEscapedBacktick(sql: string, p: Piece)
    requires p.from < p.to <= |sql|
  {
    p.kind.Quoted? && sql[p.from] == '`' ==> NoBacktickTaken(sql, p.from + 1, p.to)
  }

  predicate PlainNames(sql: string, ps: seq<Piece>) {
    forall j :: 0 <= j < |ps| ==> ps[j].from < ps[j].to <= |sql| && NoEscapedBacktick(sql, ps[j])
  }

  /** The comment scan, done with a string at k, gets to e through strings that
      follow each other without a gap. */
  predicate Reaches(s: string, k: nat, e: nat)
    decreases e - k
  {
    k == e || (k < e && k < |s| && s[k] == '`' && Reaches(s, StringEnd(s, k + 1, '`'), e))
  }

  /** Outside a string where the splitter is inside the name, it never gets to
      its end. */
  lemma {:induction false} OutOfStep(s: string, k: nat, e: nat)
    requires QuoteEnd(s, k, '`') == Some(e)
    ensures !Reaches(s, k, e)
    decreases |s| - k
  {
    if s[k] == '`' && k + 1 < |s| && s[k + 1] == '`' { OutOfStep(s, k + 2, e); }
  }

  /** A name ends where the comment scan's strings do exactly when no backslash in
      it takes a backtick. */
  lemma {:induction false} NamesEndAlike(s: string, j: nat, e: nat)
    requires QuoteEnd(s, j, '`') == Some(e)
    ensures Reaches(s, StringEnd(s, j, '`'), e) <==> NoBacktickTaken(s, j, e)
    decreases |s| - j
  {
    if s[j] == '\\' && s[j + 1] == '`' {
      if j + 2 < |s| && s[j + 2] == '`' { OutOfStep(s, j + 3, e); }
    } else if s[j] == '\\' {
      NamesEndAlike(s, j + 2, e);
    } else if s[j] == '`' {
      if j + 1 < |s| && s[j + 1] == '`' { NamesEndAlike(s, j + 2, e); }
    } else {
      NamesEndAlike(s, j + 1, e);
    }
  }

  /** From inside a quoted text, closing and reopening at doubled quotes leads to
      where the splitter sees the text end. */
  lemma {:induction false} QuoteMasks(s: string, j: nat, q: char, e: nat, k: nat)
    requires IsQuote(q) && QuoteEnd(s, j, q) == Some(e)
    requires q == '`' ==> NoBacktickTaken(s, j, e)
    ensures Masks(s, Sql, StringEnd(s, j, q), k) <==> Masks(s, Sql, e, k)
    decreases |s| - j
  {
    hide Masks;
    if s[j] == '\\' && q != '`' {
      QuoteMasks(s, j + 2, q, e, k);
    } else if s[j] == q {
      if j + 1 < |s| && s[j + 1] == q {
        ReopenMasks(s, j + 1, k);
        QuoteMasks(s, j + 2, q, e, k);
      }
    } else if s[j] == '\\' {
      assert j + 1 < e && s[j + 1] != '`';
      QuoteMasks(s, j + 2, q, e, k);
    } else {
      QuoteMasks(s, j + 1, q, e, k);
    }
  }

  lemma ReopenMasks(s: string, i: nat, k: nat)
    requires i < |s| && IsQuote(s[i])
    ensures Masks(s, Sql, i, k) <==> Masks(s, Sql, StringEnd(s, i + 1, s[i]), k)
  {
  }

  /** A character that starts neither a string nor a comment. */
  lemma PlainMasks(s: string, i: nat, k: nat)
    requires i < |s| && !IsQuote(s[i]) && !LineCommentAt(s, i) && !BlockCommentAt(s, i)
    ensures Masks(s, Sql, i, k) <==> Masks(s, Sql, i + 1, k)
  {
  }

  lemma {:induction false} WordMasks(s: string, i: nat, k: nat)
    requires i <= |s|
    ensures Masks(s, Sql, i, k) <==> Masks(s, Sql, WordEnd(s, i), k)
    decreases |s| - i
  {
    hide Masks, LineCommentAt, BlockCommentAt;
    if i < |s| && IsWordChar(s[i]) {
      WordStartsNothing(s, i);
      PlainMasks(s, i, k);
      WordMasks(s, i + 1, k);
    }
  }

  lemma WordStartsNothing(s: string, i: nat)
    requires i < |s| && IsWordChar(s[i])
    ensures !IsQuote(s[i]) && !LineCommentAt(s, i) && !BlockCommentAt(s, i)
  {
  }

  lemma {:induction false} LineEndIsBreak(s: string, i: nat)
    requires i <= |s|
    ensures LineEnd(s, i) == if LineBreak(s, i) < |s| then LineBreak(s, i) + 1 else |s|
    decreases |s| - i
  {
    if i < |s| && s[i] != '\n' { LineEndIsBreak(s, i + 1); }
  }

  lemma LineMasks(s: string, i: nat, k: nat)
    requires i < |s| && LineCommentAt(s, i) && (k < |s| ==> s[k] != '\n')
    ensures Masks(s, Sql, i, k) <==> i <= k < LineEnd(s, i) || Masks(s, Sql, LineEnd(s, i), k)
  {
    hide IsSpace;
    LineEndIsBreak(s, i);
    var b := LineBreak(s, i);
    assert LineBreak(s, i + 1) == b && Skip(s, Sql, i) == b;
    if b < |s| { PlainMasks(s, b, k); }
    assert CommentAt(s, Sql, i);
  }

  /** One piece of the splitter, as the comment scan sees it. */
  lemma PieceMasks(s: string, i: nat, k: nat)
    requires i < |s| && Next(s, i).Some? && NoEscapedBacktick(s, Next(s, i).value) && (k < |s| ==> s[k] != '\n')
    ensures var p := Next(s, i).value;
            Masks(s, Sql, i, k) <==> (IsComment(p) && i <= k < p.to) || Masks(s, Sql, p.to, k)
  {
    hide LineEnd, WordEnd, StringEnd, LineBreak, IsWordChar, IsSpace;
    if LineCommentAt(s, i) {
      LineMasks(s, i, k);
    } else if BlockCommentAt(s, i) {
      assert CommentAt(s, Sql, i) && Skip(s, Sql, i) == Next(s, i).value.to;
    } else if IsQuote(s[i]) {
      ReopenMasks(s, i, k);
      QuoteMasks(s, i + 1, s[i], Next(s, i).value.to, k);
    } else if s[i] != ';' && WordAt(s, i) {
      PlainMasks(s, i, k);
      WordMasks(s, i + 1, k);
    } else {
      PlainMasks(s, i, k);
    }
  }

  lemma {:induction false} ScansAgree(sql: string, i: nat, k: nat)
    requires i <= |sql| && Pieces(sql, i).Some? && PlainNames(sql, Pieces(sql, i).value)
    requires k < |sql| && sql[k] != '\n'
    ensures Masks(sql, Sql, i, k) <==> InComment(Pieces(sql, i).value, k)
    decreases |sql| - i
  {
    hide Masks, Next, NoEscapedBacktick;
    if i < |sql| {
      var p, ps := Next(sql, i).value, Pieces(sql, i).value;
      assert ps[0] == p && ps[1..] == Pieces(sql, p.to).value;
      PieceMasks(sql, i, k);
      ScansAgree(sql, p.to, k);
      InCommentCons(ps, k);
    } else {
      assert !Masks(sql, Sql, i, k) by { MasksNothing(sql, i, k); }
    }
  }

  lemma MasksNothing(sql: string, i: nat, k: nat)
    requires i >= |sql|
    ensures !Masks(sql, Sql, i, k)
  {
  }

  lemma InCommentCons(ps: seq<Piece>, k: nat)
    requires ps != []
    ensures InComment(ps, k) <==> (IsComment(ps[0]) && ps[0].from <= k < ps[0].to) || InComment(ps[1..], k)
  {
    hide IsComment;
    if j :| 0 <= j < |ps| && IsComment(ps[j]) && ps[j].from <= k < ps[j].to {
      assert j > 0 ==> ps[1..][j - 1] == ps[j];
    }
    if j :| 0 <= j < |ps[1..]| && IsComment(ps[1..][j]) && ps[1..][j].from <= k < ps[1..][j].to {
      assert ps[j + 1] == ps[1..][j];
    }
  }

  /** For every SQL text the splitter can read, in whose backtick names no
      backslash takes a backtick: maskComments blanks exactly the splitter's
      comments. */
  lemma LexersAgree(sql: string)
    requires Pieces(sql, 0).Some? && PlainNames(sql, Pieces(sql, 0).value)
    ensures Masked(sql, Sql) == CommentsBlanked(sql, Pieces(sql, 0).value)
  {
    hide Masks, InComment, Pieces, PlainNames;
    var ps := Pieces(sql, 0).value;
    forall k | 0 <= k < |sql| ensures Masked(sql, Sql)[k] == CommentsBlanked(sql, ps)[k] {
      if sql[k] != '\n' { ScansAgree(sql, 0, k); }
    }
  }

  /** The condition is needed: in `a\`# the splitter sees a name and a comment,
      maskComments a string that never ends. */
  lemma EscapedBacktickDisagrees()
    ensures var sql := "`a\\`#";
            && Pieces(sql, 0) == Some([Piece(Quoted, 0, 4), Piece(LineComment, 4, 5)])
            && Masked(sql, Sql) == sql && CommentsBlanked(sql, Pieces(sql, 0).value) != sql
  {
    var sql := "`a\\`#";
    var ps := [Piece(Quoted, 0, 4), Piece(LineComment, 4, 5)];
    assert QuoteEnd(sql, 3, '`') == Some(4) && QuoteEnd(sql, 2, '`') == Some(4) && QuoteEnd(sql, 1, '`') == Some(4);
    assert LineEnd(sql, 5) == 5 && LineEnd(sql, 4) == 5;
    assert Next(sql, 4) == Some(ps[1]) && Pieces(sql, 5) == Some([]) && Pieces(sql, 4) == Some([ps[1]] + []);
    assert [ps[0]] + ([ps[1]] + []) == ps;
    assert Next(sql, 0) == Some(ps[0]) && Pieces(sql, 0) == Some([ps[0]] + ([ps[1]] + []));
    assert StringEnd(sql, 4, '`') > 4 && StringEnd(sql, 2, '`') == StringEnd(sql, 4, '`');
    assert Skip(sql, Sql, 0) == StringEnd(sql, 1, '`') > 4;
    assert forall k :: 0 <= k < 5 ==> !Masks(sql, Sql, 0, k);
    assert IsComment(ps[1]) && InComment(ps, 4);
    assert CommentsBlanked(sql, ps)[4] == ' ';
  }

  lemma TwoBackslashPieces()
    ensures var sql := "`a\\\\`#";
            && Pieces(sql, 0) == Some([Piece(Quoted, 0, 5), Piece(LineComment, 5, 6)])
            && PlainNames(sql, Pieces(sql, 0).value)
  {
    var sql := "`a\\\\`#";
    var ps := [Piece(Quoted, 0, 5), Piece(LineComment, 5, 6)];
    assert QuoteEnd(sql, 4, '`') == Some(5) && QuoteEnd(sql, 3, '`') == Some(5) && QuoteEnd(sql, 2, '`') == Some(5);
    assert QuoteEnd(sql, 1, '`') == Some(5) && LineEnd(sql, 6) == 6 && LineEnd(sql, 5) == 6;
    assert Next(sql, 5) == Some(ps[1]) && Pieces(sql, 6) == Some([]) && Pieces(sql, 5) == Some([ps[1]] + []);
    assert [ps[0]] + ([ps[1]] + []) == ps;
    assert Next(sql, 0) == Some(ps[0]) && Pieces(sql, 0) == Some([ps[0]] + ([ps[1]] + []));
    assert NoBacktickTaken(sql, 4, 5) && NoBacktickTaken(sql, 2, 5) && NoBacktickTaken(sql, 1, 5);
  }

  /** A backslash that is taken itself takes nothing: in `a\\`# both read a name
      and a comment. */
  lemma TwoBackslashesAgree()
    ensures var sql := "`a\\\\`#";
            && Pieces(sql, 0) == Some([Piece(Quoted, 0, 5), Piece(LineComment, 5, 6)])
            && PlainNames(sql, Pieces(sql, 0).value) && Masked(sql, Sql) == "`a\\\\` "
  {
    hide Pieces, Masked, PlainNames;
    TwoBackslashPieces();
    var sql := "`a\\\\`#";
    var ps := [Piece(Quoted, 0, 5), Piece(LineComment, 5, 6)];
    LexersAgree(sql);
    assert IsComment(ps[1]) && InComment(ps, 5);
    assert forall k :: 0 <= k < 5 ==> !InComment(ps, k);
  }
}
