/** Which words make a CREATE statement compound, in any letter case, and which
    statements stay plain whatever words they hold. */
module SqlSpellings {
  import opened Text
  import opened SqlLexer
  import opened SqlStatements
  import opened SqlJoin
  import opened SqlGrammar
  import opened SqlGrammarProof
  import opened SqlRoundTrip
  import opened SqlHidden
  import opened SqlPrinting
  import opened SqlHiddenText

  /** A printed script splits into itself exactly when its every IF is seen,
      however its words are spelled. */
  lemma PrintedSplits(s: Script, ws: seq<string>)
    requires ShapedScript(s) && Printable(ScriptTokens(s)) && ScriptTokens(s) != [] && ScriptTokens(s)[0] != Semicolon
    requires Worded(ScriptTokens(s), ws)
    ensures |ws| == |ScriptTokens(s)|
    ensures var x := Print(ScriptTokens(s), ws, false); Split(x) == Some([x]) <==> GoodScript(s)
  {
    hide *;
    WordedLength(ScriptTokens(s), ws);
    ScriptsHaveTexts(s, ws);
    SplitsIntoItself(s, Print(ScriptTokens(s), ws, false));
  }

  lemma PrintedIsStatement(s: Script, ws: seq<string>)
    requires GoodScript(s) && Printable(ScriptTokens(s)) && ScriptTokens(s) != [] && ScriptTokens(s)[0] != Semicolon
    requires Worded(ScriptTokens(s), ws)
    ensures |ws| == |ScriptTokens(s)| && IsStatement(Print(ScriptTokens(s), ws, false))
  {
    hide *;
    WordedLength(ScriptTokens(s), ws);
    PrintedText(ScriptTokens(s), ws);
    var x := Print(ScriptTokens(s), ws, false);
    IsPrint(s, x);
    PrintIsStatement(s, x);
  }

  lemma IsPrint(s: Script, x: string)
    requires GoodScript(s) && Tokens(x, 0) == Some(ScriptTokens(s))
    requires StartsWithCode(x) && !IsSpace(x[0]) && !IsSpace(x[|x| - 1])
    ensures Prints(s, x)
  {
    hide GoodScript, Tokens, ScriptTokens, StartsWithCode, IsSpace;
  }

  // ---- routines ----

  /** CREATE, at most six words that decide nothing, and the routine word. */
  predicate RoutineLead(lead: seq<Token>) {
    && |lead| >= 2 && lead[0] == K(Create) && lead[|lead| - 1] == K(Routine) && Words(lead) <= 8
    && forall k :: 0 < k < |lead| - 1 ==> InLead(lead[k])
  }

  predicate SaysCreate(w: string) {
    IsWord(w) && Upper(w) == "CREATE"
  }

  predicate SaysRoutine(w: string) {
    IsWord(w) && Upper(w) in ["PROCEDURE", "FUNCTION", "TRIGGER", "EVENT"]
  }

  /** A spelling for every word but the first and the one at n. */
  predicate OthersWorded(ts: seq<Token>, ws: seq<string>, n: nat) {
    |ws| == |ts| && forall k :: 0 < k < |ts| && k != n && ts[k].WordToken? ==> Spells(ws[k], ts[k].word)
  }

  lemma RoutineWorded(ts: seq<Token>, ws: seq<string>, n: nat)
    requires 0 < n < |ts| && ts[0] == K(Create) && ts[n] == K(Routine) && OthersWorded(ts, ws, n)
    requires SaysCreate(ws[0]) && SaysRoutine(ws[n])
    ensures Worded(ts, ws)
  {
    hide IsWord, Upper;
    forall k | 0 <= k < |ts| && ts[k].WordToken? ensures Spells(ws[k], ts[k].word) {
    }
  }

  /** The routine's script, with another way to announce it. */
  function Announced(s: Script, lead: seq<Token>): Script
    requires s.RoutineDef?
  {
    s.(lead := lead)
  }

  lemma AnnouncedGood(s: Script, lead: seq<Token>)
    requires s.RoutineDef? && GoodScript(s) && RoutineLead(lead)
    ensures GoodScript(Announced(s, lead))
    ensures var ts := ScriptTokens(Announced(s, lead));
            |ts| >= |lead| && ts[0] == K(Create) && ts[|lead| - 1] == K(Routine)
  {
    hide GoodPhrase, GoodAction, Words, InLead, PhraseTokens, ActionTokens, LastWord;
  }

  lemma LeadLength(lead: seq<Token>)
    requires RoutineLead(lead)
    ensures |lead| >= 2 && K(Create) != Semicolon
  {
  }

  /** CREATE … PROCEDURE, FUNCTION, TRIGGER or EVENT … with its body is one
      statement, in any letter case, whatever the words between the two. */
  lemma RoutineStaysWhole(s: Script, lead: seq<Token>, ws: seq<string>)
    requires s.RoutineDef? && GoodScript(s) && RoutineLead(lead)
    requires Printable(ScriptTokens(Announced(s, lead)))
    requires OthersWorded(ScriptTokens(Announced(s, lead)), ws, |lead| - 1)
    requires |ws| >= |lead| && SaysCreate(ws[0]) && SaysRoutine(ws[|lead| - 1])
    ensures |ws| == |ScriptTokens(Announced(s, lead))|
    ensures var x := Print(ScriptTokens(Announced(s, lead)), ws, false);
            Split(x) == Some([x])
  {
    hide *;
    var t := Announced(s, lead);
    LeadLength(lead);
    AnnouncedGood(s, lead);
    RoutineWorded(ScriptTokens(t), ws, |lead| - 1);
    PrintedIsStatement(t, ws);
    SplitAlone(Print(ScriptTokens(t), ws, false));
  }

  /** The same with nothing between the two words: `c w …`. */
  lemma RoutineText(c: string, w: string, s: Script, ws: seq<string>)
    requires SaysCreate(c) && SaysRoutine(w) && s.RoutineDef? && GoodScript(s)
    requires var ts := ScriptTokens(Announced(s, [K(Create), K(Routine)]));
             Printable(ts) && |ts| > 2 && Worded(ts[2..], ws)
    ensures var ts := ScriptTokens(Announced(s, [K(Create), K(Routine)]));
            |ws| == |ts| - 2 && var x := c + " " + w + " " + Print(ts[2..], ws, false); Split(x) == Some([x])
  {
    hide *;
    var lead := [K(Create), K(Routine)];
    ShortLead();
    var ts := ScriptTokens(Announced(s, lead));
    AnnouncedGood(s, lead);
    WordedLength(ts[2..], ws);
    var all := [c, w] + ws;
    TwoMore(ts, ws, c, w);
    RoutineStaysWhole(s, lead, all);
    TwoPrinted(ts, all);
    assert all[2..] == ws;
    assert c + " " + (w + " " + Print(ts[2..], ws, false)) == c + " " + w + " " + Print(ts[2..], ws, false);
  }

  lemma ShortLead()
    ensures RoutineLead([K(Create), K(Routine)])
  {
    assert [K(Create), K(Routine)][1..] == [K(Routine)] && [K(Routine)][1..] == [];
  }

  lemma TwoMore(ts: seq<Token>, ws: seq<string>, c: string, w: string)
    requires |ts| > 2 && Worded(ts[2..], ws)
    ensures OthersWorded(ts, [c, w] + ws, 1) && IsPlainWord(K(Create)) && IsPlainWord(K(Routine))
  {
    hide Spells;
    forall k | 0 < k < |ts| && k != 1 && ts[k].WordToken? ensures Spells(([c, w] + ws)[k], ts[k].word) {
      assert ts[2..][k - 2] == ts[k];
    }
  }

  /** A text that starts with two words. */
  lemma TwoPrinted(ts: seq<Token>, ws: seq<string>)
    requires |ts| > 2 && |ws| == |ts| && IsPlainWord(ts[0]) && IsPlainWord(ts[1])
    ensures Print(ts, ws, false) == ws[0] + " " + (ws[1] + " " + Print(ts[2..], ws[2..], false))
  {
    assert ts[1..][1..] == ts[2..] && ws[1..][1..] == ws[2..] && ts[1..][0] == ts[1] && ws[1..][0] == ws[1];
  }

  predicate IsPlainWord(t: Token) {
    t.WordToken? && !t.isLabel
  }

  // ---- statements that stay plain ----

  predicate NoSemicolon(ts: seq<Token>) {
    forall k :: 0 <= k < |ts| ==> !ts[k].Semicolon?
  }

  lemma NoSemicolonRest(ts: seq<Token>)
    requires ts != [] && NoSemicolon(ts)
    ensures !ts[0].Semicolon? && NoSemicolon(ts[1..])
  {
  }

  /** A word for another kind of object comes before any routine word. */
  predicate Barred(ws: seq<Keyword>) {
    ws != [] && !ws[0].Routine? && (ws[0].OtherObject? || Barred(ws[1..]))
  }

  lemma {:induction false} BarredStays(ws: seq<Keyword>, w: Keyword)
    requires Barred(ws)
    ensures !NamesRoutine(ws) && Barred(ws + [w])
    decreases |ws|
  {
    if !ws[0].OtherObject? {
      BarredStays(ws[1..], w);
      assert (ws + [w])[1..] == ws[1..] + [w];
    }
  }

  lemma {:induction false} BarredAfter(ws: seq<Keyword>)
    requires forall k :: 0 <= k < |ws| ==> !ws[k].Routine? && !ws[k].OtherObject?
    ensures Barred(ws + [OtherObject])
    decreases |ws|
  {
    if ws != [] {
      BarredAfter(ws[1..]);
      assert (ws + [OtherObject])[1..] == ws[1..] + [OtherObject];
    }
  }

  lemma {:induction false} BarredPlain(ts: seq<Token>, words: seq<Keyword>)
    requires NoSemicolon(ts) && words != [] && words[0].Create? && Barred(words[1..])
    ensures GoodPlain(ts, words)
    decreases |ts|
  {
    if ts != [] {
      NoSemicolonRest(ts);
      var t := ts[0];
      if t.WordToken? && |words| < LEADING {
        BarredStays(words[1..], t.word);
        assert (words + [t.word])[1..] == words[1..] + [t.word];
        BarredStays(words[1..] + [t.word], t.word);
        BarredPlain(ts[1..], words + [t.word]);
      } else {
        BarredPlain(ts[1..], words);
      }
    }
  }

  /** After eight words nothing makes a statement compound. */
  lemma {:induction false} LongPlain(ts: seq<Token>, words: seq<Keyword>)
    requires NoSemicolon(ts) && |words| >= 8
    ensures GoodPlain(ts, words)
    decreases |ts|
  {
    if ts != [] {
      NoSemicolonRest(ts);
      LongPlain(ts[1..], words);
    }
  }

  /** CREATE with words that decide nothing, up to the eighth word or to a word
      for another kind of object. */
  lemma {:induction false} CreatePlain(mids: seq<Token>, rest: seq<Token>, words: seq<Keyword>)
    requires Undecided(words) && (forall k :: 0 <= k < |mids| ==> InLead(mids[k])) && NoSemicolon(rest)
    requires |words| + Words(mids) >= 8 || (rest != [] && rest[0].WordToken? && rest[0].word.OtherObject?)
    ensures GoodPlain(mids + rest, words)
    decreases |mids|
  {
    if mids == [] {
      assert mids + rest == rest;
      if |words| >= 8 {
        LongPlain(rest, words);
      } else {
        ObjectPlain(rest, words);
      }
    } else {
      var t := mids[0];
      assert InLead(t);
      assert (mids + rest)[0] == t && (mids + rest)[1..] == mids[1..] + rest;
      if t.WordToken? && |words| < LEADING {
        CreateNext(words, t.word);
        CreatePlain(mids[1..], rest, words + [t.word]);
      } else if |words| >= 8 {
        LeadIsOpen(mids, rest);
        LongPlain(mids + rest, words);
      } else {
        CreatePlain(mids[1..], rest, words);
      }
    }
  }

  lemma LeadIsOpen(mids: seq<Token>, rest: seq<Token>)
    requires (forall k :: 0 <= k < |mids| ==> InLead(mids[k])) && NoSemicolon(rest)
    ensures NoSemicolon(mids + rest)
  {
  }

  lemma ObjectPlain(rest: seq<Token>, words: seq<Keyword>)
    requires Undecided(words) && NoSemicolon(rest) && |words| < 8
    requires rest != [] && rest[0].WordToken? && rest[0].word.OtherObject?
    ensures GoodPlain(rest, words)
  {
    NoSemicolonRest(rest);
    BarredAfter(words[1..]);
    assert (words + [OtherObject])[1..] == words[1..] + [OtherObject];
    BarredStays(words[1..] + [OtherObject], OtherObject);
    BarredPlain(rest[1..], words + [OtherObject]);
  }

  /** A plain statement in front of another one is split off. */
  lemma PlainSplitsOff(ts: seq<Token>, ws: seq<string>, y: string)
    requires GoodPlain(ts, []) && Printable(ts) && Worded(ts, ws) && ts != [] && ts[0] != Semicolon && IsStatement(y)
    ensures |ws| == |ts| && var x := Print(ts, ws, false); Split(x + "\n;\n" + y) == Some([x, y])
  {
    hide *;
    PlainIsScript(ts);
    PrintedIsStatement(Script.Plain(ts), ws);
    var x := Print(ts, ws, false);
    LineBreak();
    SplitUndoesJoin([x, y], "\n");
    JoinTwo(x, y, "\n");
    assert x + ("\n" + ";" + "\n" + y) == x + "\n;\n" + y by { assert "\n" + ";" + "\n" == "\n;\n"; }
  }

  lemma LineBreak()
    ensures Blank("\n")
  {
  }

  lemma PlainIsScript(ts: seq<Token>)
    requires GoodPlain(ts, [])
    ensures GoodScript(Script.Plain(ts)) && ScriptTokens(Script.Plain(ts)) == ts
  {
  }

  lemma JoinTwo(x: string, y: string, gap: string)
    ensures Join([x, y], gap) == x + (gap + ";" + gap + y)
  {
    assert [x, y][1..] == [y];
  }

  predicate SaysOther(w: string) {
    IsWord(w) && Upper(w) in TABLES + NAMESPACES
  }

  lemma OtherWorded(ts: seq<Token>, ws: seq<string>, n: nat)
    requires 0 < n < |ts| && ts[0] == K(Create) && ts[n] == K(OtherObject) && OthersWorded(ts, ws, n)
    requires SaysCreate(ws[0]) && SaysOther(ws[n])
    ensures Worded(ts, ws)
  {
    hide IsWord, Upper;
    forall k | 0 <= k < |ts| && ts[k].WordToken? ensures Spells(ws[k], ts[k].word) {
    }
  }

  lemma CreateFirst(more: seq<Token>)
    requires GoodPlain(more, [Create])
    ensures GoodPlain([K(Create)] + more, [])
  {
    var ts := [K(Create)] + more;
    assert ts[1..] == more && [] + [Create] == [Create] && !IsCompound([Create]);
  }

  lemma OneUndecided()
    ensures Undecided([Create])
  {
  }

  lemma OtherFirst(rest: seq<Token>)
    requires NoSemicolon(rest)
    ensures var ts := [K(OtherObject)] + rest;
            NoSemicolon(ts) && ts != [] && ts[0].WordToken? && ts[0].word.OtherObject?
  {
  }

  /** CREATE … TABLE, VIEW, … or PACKAGE … is no compound statement, in any letter
      case, whatever follows, be it PROCEDURE or BEGIN: it ends at its ';'. */
  lemma OtherSplitsOff(mids: seq<Token>, rest: seq<Token>, ws: seq<string>, y: string)
    requires (forall k :: 0 <= k < |mids| ==> InLead(mids[k])) && NoSemicolon(rest) && IsStatement(y)
    requires var ts := [K(Create)] + (mids + ([K(OtherObject)] + rest));
             && Printable(ts) && OthersWorded(ts, ws, |mids| + 1)
             && |ws| > |mids| + 1 && SaysCreate(ws[0]) && SaysOther(ws[|mids| + 1])
    ensures var ts := [K(Create)] + (mids + ([K(OtherObject)] + rest));
            |ws| == |ts| && var x := Print(ts, ws, false); Split(x + "\n;\n" + y) == Some([x, y])
  {
    hide *;
    var ts := [K(Create)] + (mids + ([K(OtherObject)] + rest));
    OneUndecided();
    OtherFirst(rest);
    CreatePlain(mids, [K(OtherObject)] + rest, [Create]);
    CreateFirst(mids + ([K(OtherObject)] + rest));
    assert ts[0] == K(Create) && ts[|mids| + 1] == K(OtherObject);
    OtherWorded(ts, ws, |mids| + 1);
    IsNoEnd();
    PlainSplitsOff(ts, ws, y);
  }

  lemma IsNoEnd()
    ensures K(Create) != Semicolon && K(Begin) != Semicolon
  {
  }

  /** A routine word behind seven others comes too late. */
  lemma LateSplitsOff(mids: seq<Token>, rest: seq<Token>, ws: seq<string>, y: string)
    requires (forall k :: 0 <= k < |mids| ==> InLead(mids[k])) && Words(mids) >= 7 && NoSemicolon(rest)
    requires var ts := [K(Create)] + (mids + rest); Printable(ts) && Worded(ts, ws) && IsStatement(y)
    ensures var ts := [K(Create)] + (mids + rest);
            |ws| == |ts| && var x := Print(ts, ws, false); Split(x + "\n;\n" + y) == Some([x, y])
  {
    hide *;
    OneUndecided();
    CreatePlain(mids, rest, [Create]);
    CreateFirst(mids + rest);
    IsNoEnd();
    PlainSplitsOff([K(Create)] + (mids + rest), ws, y);
  }

  /** First words that make no compound statement, whatever comes then. */
  predicate Simply(words: seq<Keyword>) {
    && words != []
    && match words[0]
       case Create => false
       case Begin => |words| >= 2 && !(words[1].Not? && (|words| == 2 || words[2].Atomic?))
       case If => false
       case Case => false
       case Loop => false
       case While => false
       case Repeat => false
       case _ => true
  }

  lemma {:induction false} SimplyPlain(ts: seq<Token>, words: seq<Keyword>)
    requires NoSemicolon(ts) && Simply(words)
    ensures GoodPlain(ts, words)
    decreases |ts|
  {
    if ts != [] {
      NoSemicolonRest(ts);
      if ts[0].WordToken? && |words| < LEADING {
        SimplyPlain(ts[1..], words + [ts[0].word]);
      } else {
        SimplyPlain(ts[1..], words);
      }
    }
  }

  /** BEGIN alone, or before any word but NOT, starts a transaction, no block. */
  lemma BeginSplitsOff(rest: seq<Token>, ws: seq<string>, y: string)
    requires NoSemicolon(rest) && (rest != [] ==> rest[0].WordToken? && !rest[0].word.Not?)
    requires var ts := [K(Begin)] + rest; Printable(ts) && Worded(ts, ws) && IsStatement(y)
    ensures var ts := [K(Begin)] + rest;
            |ws| == |ts| && var x := Print(ts, ws, false); Split(x + "\n;\n" + y) == Some([x, y])
  {
    BeginFirst(rest);
    hide *;
    IsNoEnd();
    PlainSplitsOff([K(Begin)] + rest, ws, y);
  }

  lemma BeginFirst(rest: seq<Token>)
    requires NoSemicolon(rest) && (rest != [] ==> rest[0].WordToken? && !rest[0].word.Not?)
    ensures GoodPlain([K(Begin)] + rest, [])
  {
    var ts := [K(Begin)] + rest;
    assert ts[1..] == rest && [] + [Begin] == [Begin] && !IsCompound([Begin]);
    if rest != [] {
      NoSemicolonRest(rest);
      SimplyPlain(rest[1..], [Begin, rest[0].word]);
      assert [Begin] + [rest[0].word] == [Begin, rest[0].word];
    }
  }

  /** A statement that starts with any other word ends at its first ';', though
      block words stand in it. */
  lemma SimpleSplitsOff(ts: seq<Token>, ws: seq<string>, y: string)
    requires NoSemicolon(ts) && Printable(ts) && Worded(ts, ws) && IsStatement(y)
    requires ts != [] && IsPlainWord(ts[0]) && Simply([ts[0].word])
    ensures |ws| == |ts| && var x := Print(ts, ws, false); Split(x + "\n;\n" + y) == Some([x, y])
  {
    SimpleFirst(ts);
    hide *;
    PlainSplitsOff(ts, ws, y);
  }

  lemma SimpleFirst(ts: seq<Token>)
    requires NoSemicolon(ts) && ts != [] && IsPlainWord(ts[0]) && Simply([ts[0].word])
    ensures GoodPlain(ts, []) && ts[0] != Semicolon
  {
    NoSemicolonRest(ts);
    SimplyPlain(ts[1..], [ts[0].word]);
    assert [] + [ts[0].word] == [ts[0].word];
  }

  // ---- USE ----

  lemma {:induction false} NameEnds(s: string, j: nat)
    requires 0 < j < |s| && s[|s| - 1] == '`' && forall k :: j <= k < |s| - 1 ==> s[k] != '`'
    ensures QuoteEnd(s, j, '`') == Some(|s|)
    decreases |s| - j
  {
    if j < |s| - 1 { NameEnds(s, j + 1); }
  }

  lemma NameToken(db: string)
    requires '`' !in db
    ensures var q := "`" + db + "`"; Tokens(q, 0) == Some([Token.Text]) && Proper(q) && !IsSpace(q[|q| - 1])
  {
    var q := "`" + db + "`";
    forall k | 1 <= k < |q| - 1 ensures q[k] != '`' {
      assert q[k] == db[k - 1] && db[k - 1] in db;
    }
    NameEnds(q, 1);
    assert [Token.Text] + [] == [Token.Text];
  }

  lemma UseWord()
    ensures IsWord("USE") && KeywordOf(Upper("USE")) == Keyword.Plain && IsWordChar("USE"[0])
  {
    UpperSame("USE");
  }

  lemma UseFeeds()
    ensures var ts := [W] + [Token.Text]; Feed(START, ts).Some? && AtRest(Feed(START, ts).value)
  {
    var c1 := START.(words := [Keyword.Plain]);
    assert [] + [Keyword.Plain] == [Keyword.Plain] && !IsCompound([Keyword.Plain]);
    assert Step(START, W) == Some(c1) && Step(c1, Token.Text) == Some(c1);
    One(START, W);
    One(c1, Token.Text);
    Compose(START, [W], c1, [Token.Text], c1);
  }

  /** USE with a quoted name is a statement. */
  lemma UseIsStatement(db: string)
    requires '`' !in db
    ensures IsStatement("USE `" + db + "`")
  {
    hide *;
    var q := "`" + db + "`";
    var x := "USE" + (" " + q);
    UseText(db);
    NameToken(db);
    UseWord();
    WordThen("USE", Keyword.Plain, q);
    UseFeeds();
    UseTokens();
    FeedsAlone(x, [W] + [Token.Text]);
  }

  lemma UseTokens()
    ensures Behind([K(Keyword.Plain)], Some([Token.Text])) == Some([W] + [Token.Text])
  {
  }

  lemma UseText(db: string)
    ensures var q := "`" + db + "`"; var x := "USE" + (" " + q);
            x == "USE `" + db + "`" && x != "" && x[0] == "USE"[0] && x[|x| - 1] == q[|q| - 1]
  {
  }

  /** In front of a script, USE is one more statement. */
  lemma UseSplitsOff(db: string, sql: string)
    requires '`' !in db
    ensures Split("USE `" + db + "`;\n" + sql)
            == match Split(sql) case None => None case Some(xs) => Some(["USE `" + db + "`"] + xs)
  {
    hide *;
    var x := "USE `" + db + "`";
    UseIsStatement(db);
    UseCloses(db);
    UseLayout(db, sql);
    SplitFirst("USE `" + db + "`;\n" + sql, x, |x|, |x| + 2, sql);
  }

  lemma UseLayout(db: string, sql: string)
    ensures var x := "USE `" + db + "`"; Layout("USE `" + db + "`;\n" + sql, x, |x|, |x| + 2, sql)
  {
    var x := "USE `" + db + "`";
    var y := "USE `" + db + "`;\n" + sql;
    assert y == x + (";\n" + sql);
  }

  lemma UseCloses(db: string)
    requires '`' !in db
    ensures !OpenEnd("USE `" + db + "`", 0)
  {
    var x := "USE `" + db + "`";
    assert x[0] == 'U' && x[1] == 'S' && x[2] == 'E' && x[3] == ' ' && x[4] == '`';
    WordRuns(x, 1, 3);
    assert Next(x, 0) == Some(Piece(Word, 0, 3)) && Next(x, 3) == Some(Piece(Gap, 3, 4));
    forall k | 5 <= k < |x| - 1 ensures x[k] != '`' {
      assert x[k] == db[k - 5] && db[k - 5] in db;
    }
    NameEnds(x, 5);
    assert Next(x, 4) == Some(Piece(Quoted, 4, |x|));
    hide Next;
    assert !OpenEnd(x, |x|) && !OpenEnd(x, 4) && !OpenEnd(x, 3);
  }
}
