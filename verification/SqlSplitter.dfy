/** The splitter's loop over the script, proved to compute SqlStatements.Split. */
module SqlSplitter {
  import opened Text
  import opened SqlLexer
  import opened SqlStatements

  datatype Verdict = Certain(compound: bool) | CannotTell

  /** More words, within the leading ones, would make the statement compound. */
  ghost predicate MayBecome(words: seq<Keyword>) {
    exists more: seq<Keyword> :: |words + more| <= LEADING && IsCompound(words + more)
  }

  lemma {:induction false} OtherObjectStays(ws: seq<Keyword>, k: nat, more: seq<Keyword>)
    requires k < |ws| && ws[k].OtherObject? && forall j :: 0 <= j < k ==> !ws[j].Routine?
    ensures !NamesRoutine(ws + more)
    decreases k
  {
    if k > 0 && !ws[0].OtherObject? {
      assert (ws + more)[1..] == ws[1..] + more;
      OtherObjectStays(ws[1..], k - 1, more);
    }
  }

  /** Another kind of object, named first: no routine will follow. */
  lemma NeverRoutine(words: seq<Keyword>, k: nat)
    requires words != [] && words[0].Create? && k < |words| - 1 && words[1..][k].OtherObject?
    requires forall j :: 0 <= j < k ==> !words[1..][j].Routine?
    ensures !MayBecome(words)
  {
    forall more: seq<Keyword> ensures !IsCompound(words + more) {
      assert (words + more)[1..] == words[1..] + more;
      OtherObjectStays(words[1..], k, more);
    }
  }

  lemma {:induction false} RoutineAtEnd(ws: seq<Keyword>)
    requires forall j :: 0 <= j < |ws| ==> !ws[j].Routine? && !ws[j].OtherObject?
    ensures NamesRoutine(ws + [Routine]) && !NamesRoutine(ws)
    decreases |ws|
  {
    if ws != [] {
      assert (ws + [Routine])[1..] == ws[1..] + [Routine];
      RoutineAtEnd(ws[1..]);
    }
  }

  lemma StillOpen(words: seq<Keyword>)
    requires words != [] && words[0].Create?
    requires forall j :: 0 <= j < |words| - 1 ==> !words[1..][j].Routine? && !words[1..][j].OtherObject?
    ensures |words| < LEADING ==> MayBecome(words)
    ensures |words| == LEADING ==> !MayBecome(words)
  {
    RoutineAtEnd(words[1..]);
    assert (words + [Routine])[1..] == words[1..] + [Routine];
    assert IsCompound(words + [Routine]);
    assert forall more: seq<Keyword> :: |words + more| <= LEADING && |words| == LEADING ==> words + more == words;
  }

  /** BEGIN is followed by NOT ATOMIC or it is not. */
  lemma BeginDecides(words: seq<Keyword>)
    requires words != [] && words[0].Begin? && |words| <= LEADING
    ensures |words| == 1 ==> MayBecome(words)
    ensures |words| == 2 ==> (MayBecome(words) <==> words[1].Not?)
    ensures |words| >= 3 ==> (MayBecome(words) <==> IsCompound(words))
  {
    if |words| == 1 {
      var all := words + [Not, Atomic];
      assert all[1] == Not && all[2] == Atomic && IsCompound(all);
    } else if |words| == 2 {
      if words[1].Not? {
        assert IsCompound(words + [Atomic]);
      }
    } else if IsCompound(words) {
      assert words + [] == words;
    }
  }

  lemma OthersDecide(words: seq<Keyword>)
    requires words != [] && !words[0].Create? && !words[0].Begin? && |words| <= LEADING
    ensures MayBecome(words) <==> IsCompound(words)
  {
    if IsCompound(words) { assert words + [] == words; }
  }

  /** CREATE: compound when a routine is named before any other object. */
  method ClassifyCreate(words: seq<Keyword>) returns (v: Verdict)
    requires words != [] && words[0].Create?
    ensures v == Certain(true) <==> IsCompound(words)
    ensures |words| <= LEADING ==> (v == CannotTell <==> !IsCompound(words) && MayBecome(words))
  {
    hide MayBecome;
    var rest := words[1..];
    for k := 0 to |rest|
      invariant NamesRoutine(rest) <==> NamesRoutine(rest[k..])
      invariant forall j :: 0 <= j < k ==> !rest[j].Routine? && !rest[j].OtherObject?
    {
      if rest[k].Routine? { return Certain(true); }
      if rest[k].OtherObject? {
        NeverRoutine(words, k);
        return Certain(false);
      }
      assert rest[k..][1..] == rest[k + 1..];
    }
    StillOpen(words);
    return if |words| < LEADING then CannotTell else Certain(false);
  }

  /** Is the statement that starts with these words a compound one?  The answer is
      `certain` as soon as no more words can change it. */
  method Classify(words: seq<Keyword>) returns (v: Verdict)
    requires words != []
    ensures v == Certain(true) <==> IsCompound(words)
    ensures |words| <= LEADING ==> (v == CannotTell <==> !IsCompound(words) && MayBecome(words))
  {
    hide MayBecome;
    if words[0].Create? {
      v := ClassifyCreate(words);
      return;
    }
    if words[0].Begin? {
      if |words| <= LEADING { BeginDecides(words); }
      if |words| < 2 { return CannotTell; }
      if !words[1].Not? { return Certain(false); }
      return if |words| < 3 then CannotTell else Certain(words[2].Atomic?);
    }
    if |words| <= LEADING { OthersDecide(words); }
    return Certain(IsBlockKeyword(words[0]));
  }

  /** The quote that closes the text whose inside starts at `from`. */
  method SkipQuote(sql: string, from: nat, q: char) returns (k: nat)
    ensures k == QuoteSkip(sql, from, q)
  {
    k := from;
    while k < |sql| && sql[k] != q
      invariant from <= k && QuoteSkip(sql, from, q) == QuoteSkip(sql, k, q)
    {
      if sql[k] == '\\' && q != '`' { k := k + 1; }
      k := k + 1;
    }
  }

  /** Looks ahead from pos for a parenthesized group with a top-level comma. */
  method IsFunctionCall(sql: string, pos: nat) returns (call: bool)
    requires pos <= |sql|
    ensures call <==> CallScan(sql, pos) == Yes
  {
    var k := pos;
    while k < |sql| && IsSpace(sql[k])
      invariant pos <= k <= |sql|
      invariant SkipSpace(sql, pos) == SkipSpace(sql, k)
    {
      k := k + 1;
    }
    if k >= |sql| || sql[k] != '(' { return false; }
    var level := 0;
    while k < |sql|
      invariant level >= 0 && (k < |sql| ==> level > 0 || sql[k] == '(')
      invariant CallScan(sql, pos) == Group(sql, k, level)
    {
      var c := sql[k];
      if IsQuote(c) {
        k := SkipQuote(sql, k + 1, c);
      } else if c == '(' {
        level := level + 1;
      } else if c == ')' {
        level := level - 1;
        if level == 0 { return false; }
      } else if c == ',' && level == 1 {
        return true;
      }
      k := k + 1;
    }
    return false;
  }

  /** The quoted text that starts at i: index just past it, or None if it never closes. */
  method ReadQuoted(sql: string, i: nat) returns (end: Option<nat>)
    requires i < |sql|
    ensures end == QuoteEnd(sql, i + 1, sql[i])
  {
    var ch := sql[i];
    var j := i + 1;
    while true
      invariant i < j && QuoteEnd(sql, i + 1, ch) == QuoteEnd(sql, j, ch)
      decreases |sql| - j
    {
      if j >= |sql| { return None; }
      if sql[j] == '\\' && ch != '`' { j := j + 2; continue; }
      if sql[j] == ch {
        if j + 1 < |sql| && sql[j + 1] == ch { j := j + 2; continue; }
        return Some(j + 1);
      }
      j := j + 1;
    }
  }

  method ReadWord(sql: string, i: nat) returns (j: nat)
    requires i < |sql|
    ensures j == WordEnd(sql, i)
  {
    j := i;
    while j < |sql| && IsWordChar(sql[j])
      invariant i <= j <= |sql| && WordEnd(sql, i) == WordEnd(sql, j)
    {
      j := j + 1;
    }
  }

  /** The variables of the splitter's loop, which its small closures share. */
  class Scanner {
    const sql: string
    var i: nat
    var statements: seq<string>
    var hasCode: bool
    var codeStart: int
    var words: seq<Keyword>
    var compound: bool
    var depth: nat
    var atBodyStatement: bool
    var afterEnd: bool
    var inHandler: bool
    var lastWord: Keyword

    ghost predicate Valid()
      reads this
    {
      && i <= |sql|
      && (hasCode ==> 0 <= codeStart < i && !IsSpace(sql[codeStart]))
      && (!compound ==> depth == 0 && !atBodyStatement && !afterEnd && !inHandler)
    }

    /** The block-tracking variables as one value. */
    ghost function State(): Control
      reads this
    {
      Control(words, compound, depth, atBodyStatement, afterEnd, inHandler, lastWord, false)
    }

    ghost function Code(): Option<nat>
      reads this
      requires Valid()
    {
      if hasCode then Some(codeStart) else None
    }

    /** What the whole run will return. */
    ghost function Outcome(): Option<seq<string>>
      reads this
      requires Valid()
    {
      Resume(sql, i, State(), Code(), statements)
    }

    constructor (sql: string)
      ensures Valid() && this.sql == sql && i == 0 && Outcome() == Split(sql)
    {
      this.sql := sql;
      i := 0;
      statements := [];
      hasCode, codeStart, words, compound := false, -1, [], false;
      depth, atBodyStatement, afterEnd, inHandler, lastWord := 0, false, false, false, Plain;
    }

    method MarkCode(at: nat)
      modifies this`hasCode, this`codeStart
      ensures hasCode && codeStart == if old(hasCode) then old(codeStart) else at
    {
      if !hasCode { hasCode, codeStart := true, at; }
    }

    method Reset()
      modifies this
      ensures unchanged(`i, `statements)
      ensures !hasCode && State() == START
    {
      hasCode, codeStart, words, compound := false, -1, [], false;
      depth, atBodyStatement, afterEnd, inHandler, lastWord := 0, false, false, false, Plain;
    }

    method Push(end: nat)
      requires Valid() && i == end
      modifies this`statements
      ensures statements == old(statements) + Pushed(sql, Code(), end)
    {
      if !hasCode { return; }
      var text := Trim(sql[codeStart..end]);
      assert !IsSpace(sql[codeStart..end][0]);
      if text != "" { statements := statements + [text]; }
    }

    /** A comment, if one starts here; ok is false when it never closes. */
    method Comment() returns (ok: bool)
      requires Valid() && i < |sql| && (LineCommentAt(sql, i) || BlockCommentAt(sql, i))
      modifies this
      ensures ok ==> Valid() && i > old(i) && Outcome() == old(Outcome())
      ensures !ok ==> old(Outcome()) == None
    {
      hide LineEnd, CommentEnd;
      var p := Next(sql, i);
      if p.Some? { ResumeStep(sql, p.value, State(), Code(), statements); }
      if LineCommentAt(sql, i) {
        i := LineEnd(sql, i);
        return true;
      }
      var close := CommentEnd(sql, i + 2);
      if close.None? { return false; }
      if sql[i + 2] == '!' { MarkCode(i); }
      i := close.value;
      return true;
    }

    method QuotedText() returns (ok: bool)
      requires Valid() && i < |sql| && IsQuote(sql[i]) && !LineCommentAt(sql, i) && !BlockCommentAt(sql, i)
      modifies this
      ensures ok ==> Valid() && i > old(i) && Outcome() == old(Outcome())
      ensures !ok ==> old(Outcome()) == None
    {
      hide QuoteEnd;
      var end := ReadQuoted(sql, i);
      if end.None? { return false; }
      ResumeStep(sql, Piece(Quoted, i, end.value), State(), Code(), statements);
      MarkCode(i);
      atBodyStatement := false;
      afterEnd := false;
      i := end.value;
      return true;
    }

    method EndOfStatement()
      requires Valid() && i < |sql| && sql[i] == ';'
      modifies this
      ensures Valid() && i > old(i) && Outcome() == old(Outcome())
    {
      hide Resume, SpansFrom, KeywordOf, CallScan, LabelEnd, Trim, IsSpace, Pushed;
      ghost var p := Piece(Semi, i, i + 1);
      if !compound || depth == 0 {
        ResumeBoundary(sql, p, State(), Code(), statements);
        Push(i);
        Reset();
      } else {
        ResumeStep(sql, p, State(), Code(), statements);
        atBodyStatement := true;
        afterEnd := false;
        inHandler := false;
      }
      i := i + 1;
    }

    /** What the word that starts at i is, and where it ends. */
    method WordHere() returns (j: nat, word: Keyword, labelEnd: Option<nat>, afterName: bool)
      requires i < |sql| && Next(sql, i) == Some(Piece(Word, i, WordEnd(sql, i)))
      ensures i < j <= |sql| && j == WordEnd(sql, i) && labelEnd == LabelEnd(sql, j)
      ensures TokenOf(sql, Piece(Word, i, j))
              == WordToken(word, afterName, labelEnd.Some?, TakesArguments(word) && CallScan(sql, j) == Yes)
    {
      hide KeywordOf, Upper, CallScan, LabelEnd;
      j := ReadWord(sql, i);
      word, labelEnd := KeywordOf(Upper(sql[i..j])), LabelEnd(sql, j);
      afterName := i > 0 && (sql[i - 1] == '.' || sql[i - 1] == '@');
    }

    method SomeWord() returns (ok: bool)
      requires Valid() && i < |sql| && Next(sql, i) == Some(Piece(Word, i, WordEnd(sql, i)))
      modifies this
      ensures ok ==> Valid() && i > old(i) && Outcome() == old(Outcome())
      ensures !ok ==> old(Outcome()) == None
    {
      hide Resume, Next, LabelEnd, Step, TokenOf, CallScan;
      ghost var c, code := State(), Code();
      var j, word, labelEnd, afterName := WordHere();
      ghost var p := Piece(Word, i, j);
      MarkCode(i);
      i := j;
      ok := TrackWord(word, labelEnd, afterName, TokenOf(sql, p));
      if ok {
        ResumeWord(sql, p, c, State(), code, i, statements);
      } else {
        ResumeBadWord(sql, p, c, code, statements);
      }
    }

    /** What the word that ends at i means for the blocks. */
    method TrackWord(word: Keyword, labelEnd: Option<nat>, afterName: bool, ghost t: Token) returns (ok: bool)
      requires i <= |sql| && (!compound ==> depth == 0 && !atBodyStatement && !afterEnd && !inHandler)
      requires labelEnd.Some? ==> i < labelEnd.value
      requires t == WordToken(word, afterName, labelEnd.Some?, TakesArguments(word) && CallScan(sql, i) == Yes)
      modifies this`i, this`words, this`compound, this`depth, this`atBodyStatement, this`afterEnd, this`inHandler,
          this`lastWord
      ensures Step(old(State()), t) == if ok then Some(State().(inLabel := i != old(i))) else None
      ensures i == old(i) || Some(i) == labelEnd
      ensures !compound ==> depth == 0 && !atBodyStatement && !afterEnd && !inHandler
    {
      if !compound {
        LeadingWord(word, labelEnd, t);
        return true;
      }
      ok := WordInBody(word, labelEnd, afterName, t);
    }

    /** A word outside compound statements: past the colon when it is a label. */
    method LeadingWord(word: Keyword, labelEnd: Option<nat>, ghost t: Token)
      requires t.WordToken? && t.word == word && t.isLabel == labelEnd.Some?
      requires labelEnd.Some? ==> i < labelEnd.value
      requires !compound && depth == 0 && !atBodyStatement && !afterEnd && !inHandler
      modifies this`i, this`words, this`compound, this`depth, this`atBodyStatement, this`lastWord
      ensures Step(old(State()), t) == Some(State().(inLabel := i != old(i)))
      ensures i == old(i) || Some(i) == labelEnd
      ensures !compound ==> depth == 0 && !atBodyStatement
    {
      if words == [] && labelEnd.Some? {
        i := labelEnd.value;
      } else if |words| < LEADING {
        words := words + [word];
        var v := Classify(words);
        if v == Certain(true) {
          compound := true;
          if !words[0].Create? {
            depth := 1;
            atBodyStatement := words[0].Begin? || word.Loop? || word.Repeat?;
          }
        }
      }
      lastWord := word;
    }

    /** A word inside a compound statement; ok is false when a block closes that never opened. */
    method WordInBody(word: Keyword, labelEnd: Option<nat>, afterName: bool, ghost t: Token) returns (ok: bool)
      requires i <= |sql| && compound
      requires t.WordToken? && t.word == word && t.isName == afterName && t.isLabel == labelEnd.Some?
      requires labelEnd.Some? ==> i < labelEnd.value
      requires t.isCall == (TakesArguments(word) && CallScan(sql, i) == Yes)
      modifies this`i, this`depth, this`atBodyStatement, this`afterEnd, this`inHandler, this`lastWord
      ensures BodyWord(old(State()), t) == if ok then Some(State().(inLabel := i != old(i))) else None
      ensures i == old(i) || Some(i) == labelEnd
    {
      var opensBlock := OpensBlock(word, t);
      lastWord := word;
      var wasEnd := afterEnd;
      afterEnd := false;
      if afterName {
        atBodyStatement := false;
        return true;
      }
      if wasEnd && IsBlockKeyword(word) {
        return true;
      }
      if atBodyStatement && labelEnd.Some? {
        i := labelEnd.value;
        return true;
      }
      ok := BlockWord(word, opensBlock);
    }

    /** Can a block start here, and is this a word that starts one? */
    method OpensBlock(word: Keyword, ghost t: Token) returns (opens: bool)
      requires i <= |sql| && t.WordToken? && t.word == word
               && t.isCall == (TakesArguments(word) && CallScan(sql, i) == Yes)
      ensures opens == SqlStatements.OpensBlock(State(), t)
    {
      var startsStatement := atBodyStatement || inHandler || depth == 0;
      if !startsStatement { return false; }
      if word.Begin? || word.Loop? || word.While? { return true; }
      if (word.If? && !lastWord.Routine?) || word.Repeat? {
        var call := IsFunctionCall(sql, i);
        return !call;
      }
      return false;
    }

    method BlockWord(word: Keyword, opensBlock: bool) returns (ok: bool)
      modifies this`depth, this`atBodyStatement, this`afterEnd, this`inHandler
      ensures SqlStatements.BlockWord(old(State()), word, opensBlock) == if ok then Some(State()) else None
    {
      if word.End? {
        if depth == 0 { return false; }
        depth := depth - 1;
        afterEnd := true;
        atBodyStatement := false;
      } else if word.Case? || opensBlock {
        depth := depth + 1;
        if word.Begin? { inHandler := false; }
        atBodyStatement := word.Begin? || word.Loop? || word.Repeat?;
      } else {
        if word.Handler? { inHandler := true; }
        atBodyStatement := word.Then? || word.Else? || word.Do?;
      }
      return true;
    }

    method OtherCharacter()
      requires Valid() && i < |sql| && !LineCommentAt(sql, i) && !BlockCommentAt(sql, i)
      requires !IsQuote(sql[i]) && sql[i] != ';' && !WordAt(sql, i)
      modifies this
      ensures Valid() && i > old(i) && Outcome() == old(Outcome())
    {
      hide Resume, SpansFrom;
      ResumeStep(sql, Next(sql, i).value, State(), Code(), statements);
      if !IsSpace(sql[i]) {
        MarkCode(i);
        atBodyStatement := false;
        afterEnd := false;
      }
      i := i + 1;
    }
  }

  /** Splits a script into its statements, or returns None when it cannot be sure. */
  method SplitSqlStatements(sql: string) returns (r: Option<seq<string>>)
    ensures r == Split(sql)
  {
    if sql == "" {
      ghost var statements: seq<string> := [];
      ResumeEnd(sql, START, None, statements);
      assert statements + Pushed(sql, None, 0) == [];
      return Some([]);
    }
    var sc := new Scanner(sql);
    while sc.i < |sql|
      invariant sc.sql == sql && sc.Valid()
      invariant sc.Outcome() == Split(sql)
      decreases |sql| - sc.i
    {
      if LineCommentAt(sql, sc.i) || BlockCommentAt(sql, sc.i) {
        var ok := sc.Comment();
        if !ok { return None; }
      } else if IsQuote(sql[sc.i]) {
        var ok := sc.QuotedText();
        if !ok { return None; }
      } else if sql[sc.i] == ';' {
        sc.EndOfStatement();
      } else if WordAt(sql, sc.i) {
        var ok := sc.SomeWord();
        if !ok { return None; }
      } else {
        sc.OtherCharacter();
      }
    }
    ResumeEnd(sql, sc.State(), sc.Code(), sc.statements);
    if sc.compound && sc.depth != 0 { return None; }
    sc.Push(|sql|);
    return Some(sc.statements);
  }
}
