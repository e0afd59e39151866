/** Texts whose IF the splitter does not see. */
module SqlHiddenText {
  import opened Text
  import opened SqlLexer
  import opened SqlStatements
  import opened SqlEdges
  import opened SqlJoin
  import opened SqlGrammar
  import opened SqlGrammarProof
  import opened SqlRoundTrip
  import opened SqlHidden
  import opened SqlPrinting

  // ---- reading a text word by word ----

  lemma LeadingBlank(rest: string)
    ensures Tokens(" " + rest, 0) == Tokens(rest, 0)
  {
    var s := " " + rest;
    hide Tokens;
    TokensGap(s, 0);
    TokensShift(" ", rest, 0);
  }

  predicate Proper(rest: string) {
    rest != "" && !IsSpace(rest[0]) && rest[0] != '(' && rest[0] != ':'
  }

  /** A word, a blank, and more. */
  lemma WordThen(w: string, k: Keyword, rest: string)
    requires IsWord(w) && KeywordOf(Upper(w)) == k && Proper(rest)
    ensures Tokens(w + (" " + rest), 0) == Behind([K(k)], Tokens(rest, 0))
  {
    hide IsWord, KeywordOf, Upper, Tokens, ReadAs, IsSpace;
    WordReads(w, " " + rest, k, false);
    ReadBlank(w, rest, K(k));
  }

  /** A word, ';', a blank, and more. */
  lemma WordEnds(w: string, k: Keyword, rest: string)
    requires IsWord(w) && KeywordOf(Upper(w)) == k
    ensures Tokens(w + (";" + (" " + rest)), 0) == Behind([K(k), Semicolon], Tokens(rest, 0))
  {
    hide IsWord, KeywordOf, Upper, Tokens, ReadAs;
    assert (";" + (" " + rest))[0] == ';';
    WordReads(w, ";" + (" " + rest), k, false);
    ReadSemi(w, " " + rest, K(k));
    LeadingBlank(rest);
  }

  lemma WordLast(w: string, k: Keyword)
    requires IsWord(w) && KeywordOf(Upper(w)) == k
    ensures Tokens(w, 0) == Some([K(k)])
  {
    hide IsWord, KeywordOf, Upper, Tokens, ReadAs;
    WordReads(w, "", k, false);
    ReadLast(w, K(k));
  }

  lemma LiteralWord(w: string, k: Keyword)
    requires w != "" && (forall i :: 0 <= i < |w| ==> 'A' <= w[i] <= 'Z') && w in Spellings(k)
    ensures IsWord(w) && KeywordOf(Upper(w)) == k
  {
    hide Spellings, KeywordOf;
    UpperSame(w);
    assert k != Keyword.Plain by { PlainHasNone(w); }
    SpellsKnown(w, k);
  }

  lemma PlainHasNone(w: string)
    ensures w !in Spellings(Keyword.Plain)
  {
  }

  lemma SelectWord()
    ensures IsWord("SELECT") && KeywordOf(Upper("SELECT")) == Keyword.Plain
  {
    UpperSame("SELECT");
  }

  lemma EventWord()
    ensures IsWord("event") && KeywordOf(Upper("event")) == Routine
  {
    assert Upper("event") == "EVENT";
  }

  lemma ShortWords()
    ensures IsWord("a") && KeywordOf(Upper("a")) == Keyword.Plain
    ensures IsWord("b") && KeywordOf(Upper("b")) == Keyword.Plain
  {
    assert Upper("a") == "A" && Upper("b") == "B";
  }

  // ---- a column named event in front of an IF ----

  lemma AtomicWord()
    ensures IsWord("ATOMIC") && KeywordOf(Upper("ATOMIC")) == Atomic
  {
    LiteralWord("ATOMIC", Atomic);
  }

  lemma NotWord()
    ensures IsWord("NOT") && KeywordOf(Upper("NOT")) == Not
  {
    LiteralWord("NOT", Not);
  }

  lemma OpenWord()
    ensures IsWord("BEGIN") && KeywordOf(Upper("BEGIN")) == Begin
  {
    LiteralWord("BEGIN", Begin);
  }

  lemma IfWord()
    ensures IsWord("IF") && KeywordOf(Upper("IF")) == If
  {
    LiteralWord("IF", If);
  }

  lemma ThenWord()
    ensures IsWord("THEN") && KeywordOf(Upper("THEN")) == Then
  {
    LiteralWord("THEN", Then);
  }

  lemma EndWord()
    ensures IsWord("END") && KeywordOf(Upper("END")) == End
  {
    LiteralWord("END", End);
  }

  function IfString(last: string): string {
    "IF a THEN b; END " + last
  }

  function CutString(last: string): string {
    "BEGIN NOT ATOMIC SELECT event; " + IfString(last)
  }

  function IfTokens(ts: seq<Token>): seq<Token> {
    [K(If), W, K(Then), W, Semicolon, K(End)] + ts
  }

  function CutTokens(ts: seq<Token>): seq<Token> {
    [K(Begin), K(Not), K(Atomic), W, K(Routine), Semicolon] + IfTokens(ts)
  }

  lemma IfText(last: string, ts: seq<Token>)
    requires Proper(last) && Tokens(last, 0) == Some(ts)
    ensures Tokens(IfString(last), 0) == Some(IfTokens(ts)) && Proper(IfString(last))
  {
    hide *;
    ShortWords();
    IfWord();
    ThenWord();
    EndWord();
    IfJoins(last);
    var s1 := "END" + (" " + last);
    var s2 := "b" + (";" + (" " + s1));
    var s3 := "THEN" + (" " + s2);
    var s4 := "a" + (" " + s3);
    WordThen("END", End, last);
    WordEnds("b", Keyword.Plain, s1);
    WordThen("THEN", Then, s2);
    WordThen("a", Keyword.Plain, s3);
    WordThen("IF", If, s4);
    IfTokensAre(ts);
  }

  lemma IfJoins(last: string)
    ensures var s1 := "END" + (" " + last);
            var s2 := "b" + (";" + (" " + s1));
            var s3 := "THEN" + (" " + s2);
            var s4 := "a" + (" " + s3);
            "IF" + (" " + s4) == IfString(last) && Proper(s2) && Proper(s3) && Proper(s4) && Proper(IfString(last))
  {
  }

  lemma IfTokensAre(ts: seq<Token>)
    ensures Behind([K(If)], Behind([W], Behind([K(Then)], Behind([W, Semicolon], Behind([K(End)], Some(ts))))))
            == Some(IfTokens(ts))
    ensures K(Keyword.Plain) == W
  {
    assert [W, Semicolon] + ([K(End)] + ts) == [W, Semicolon, K(End)] + ts;
    assert [K(Then)] + ([W, Semicolon, K(End)] + ts) == [K(Then), W, Semicolon, K(End)] + ts;
    assert [W] + ([K(Then), W, Semicolon, K(End)] + ts) == [W, K(Then), W, Semicolon, K(End)] + ts;
    assert [K(If)] + ([W, K(Then), W, Semicolon, K(End)] + ts) == IfTokens(ts);
  }

  lemma CutText(last: string, ts: seq<Token>)
    requires Proper(last) && Tokens(last, 0) == Some(ts)
    ensures Tokens(CutString(last), 0) == Some(CutTokens(ts)) && Proper(CutString(last))
  {
    hide *;
    SelectWord();
    EventWord();
    OpenWord();
    NotWord();
    AtomicWord();
    IfText(last, ts);
    var s0 := IfString(last);
    CutJoins(last);
    var s1 := "event" + (";" + (" " + s0));
    var s2 := "SELECT" + (" " + s1);
    var s3 := "ATOMIC" + (" " + s2);
    var s4 := "NOT" + (" " + s3);
    WordEnds("event", Routine, s0);
    WordThen("SELECT", Keyword.Plain, s1);
    WordThen("ATOMIC", Atomic, s2);
    WordThen("NOT", Not, s3);
    WordThen("BEGIN", Begin, s4);
    CutTokensAre(ts);
  }

  lemma CutJoins(last: string)
    ensures var s1 := "event" + (";" + (" " + IfString(last)));
            var s2 := "SELECT" + (" " + s1);
            var s3 := "ATOMIC" + (" " + s2);
            var s4 := "NOT" + (" " + s3);
            "BEGIN" + (" " + s4) == CutString(last) && Proper(s1) && Proper(s2) && Proper(s3) && Proper(s4)
                && Proper(CutString(last))
  {
    hide IfString;
  }

  lemma CutTokensAre(ts: seq<Token>)
    ensures Behind([K(Begin)],
                   Behind([K(Not)],
                          Behind([K(Atomic)], Behind([W], Behind([K(Routine), Semicolon], Some(IfTokens(ts)))))))
            == Some(CutTokens(ts))
    ensures K(Keyword.Plain) == W
  {
    hide IfTokens;
    var us := IfTokens(ts);
    assert [W] + ([K(Routine), Semicolon] + us) == [W, K(Routine), Semicolon] + us;
    assert [K(Atomic)] + ([W, K(Routine), Semicolon] + us) == [K(Atomic), W, K(Routine), Semicolon] + us;
    assert [K(Not)] + ([K(Atomic), W, K(Routine), Semicolon] + us)
           == [K(Not), K(Atomic), W, K(Routine), Semicolon] + us;
    assert [K(Begin)] + ([K(Not), K(Atomic), W, K(Routine), Semicolon] + us) == CutTokens(ts);
  }

  // BEGIN NOT ATOMIC SELECT event; IF a THEN b; END IF; END
  const WHOLE := CutString("IF; END")
  // the same up to the second END's ';'
  const CUT := CutString("IF")

  lemma WholeText()
    ensures Tokens(WHOLE, 0) == Some(CutTokens([K(If), Semicolon, K(End)]))
            && Tokens(CUT, 0) == Some(CutTokens([K(If)]))
    ensures Tokens("END", 0) == Some([K(End)]) && Proper(WHOLE) && Proper(CUT)
  {
    LastWords();
    hide Tokens, Proper, CutTokens, CutString;
    CutText("IF; END", [K(If), Semicolon, K(End)]);
    CutText("IF", [K(If)]);
  }

  lemma LastWords()
    ensures Tokens("IF", 0) == Some([K(If)]) && Tokens("END", 0) == Some([K(End)])
    ensures Tokens("IF; END", 0) == Some([K(If), Semicolon, K(End)]) && Proper("IF") && Proper("IF; END")
  {
    LastJoins();
    hide Proper, Tokens;
    IfWord();
    EndWord();
    WordLast("IF", If);
    WordLast("END", End);
    WordEnds("IF", If, "END");
    assert [K(If), Semicolon] + [K(End)] == [K(If), Semicolon, K(End)];
  }

  lemma LastJoins()
    ensures "IF" + (";" + (" " + "END")) == "IF; END" && Proper("IF") && Proper("IF; END")
  {
  }

  // ---- what the tracker makes of it ----

  /** A run given state by state. */
  lemma {:induction false} Chain(c: Control, ts: seq<Token>, k: nat, cs: seq<Control>)
    requires k <= |ts| && |cs| == |ts| + 1 && cs[k] == c
    requires forall j :: k <= j < |ts| ==> !IsBoundary(cs[j], ts[j]) && Step(cs[j], ts[j]) == Some(cs[j + 1])
    ensures Feed(c, ts[k..]) == Some(cs[|ts|])
    decreases |ts| - k
  {
    if k < |ts| {
      Chain(cs[k + 1], ts, k + 1, cs);
      assert ts[k..][1..] == ts[k + 1..];
    }
  }

  /** IF a THEN b; END IF in an outermost body, behind a word such as EVENT: the
      IF is not seen, so its END closes the body and the next ';' ends the
      statement: the script is cut in two. */
  lemma RoutineWordHidesIf(c: Control)
    requires InBody(c, 1) && c.lastWord.Routine?
    ensures var rest := [K(If), W, K(Then), W, Semicolon, K(End), K(If)];
            Feed(c, rest).Some? && IsBoundary(Feed(c, rest).value, Semicolon)
  {
    var rest := [K(If), W, K(Then), W, Semicolon, K(End), K(If)];
    var d1 := c.(atBodyStatement := false, lastWord := If);
    var d2 := d1.(lastWord := Keyword.Plain);
    var d3 := d2.(atBodyStatement := true, lastWord := Then);
    var d4 := d3.(atBodyStatement := false, lastWord := Keyword.Plain);
    var d5 := d4.(atBodyStatement := true);
    var d6 := d5.(atBodyStatement := false, depth := 0, afterEnd := true, lastWord := End);
    var d7 := d6.(afterEnd := false, lastWord := If);
    Chain(c, rest, 0, [c, d1, d2, d3, d4, d5, d6, d7]);
    assert rest[0..] == rest;
  }

  lemma Names(c: Control) returns (c': Control)
    requires InBody(c, 1)
    ensures Feed(c, [W, K(Routine)]) == Some(c') && Within(c', 1) && c'.lastWord.Routine?
  {
    var c1 := Step(c, W).value;
    One(c, W);
    One(c1, K(Routine));
    c' := Step(c1, K(Routine)).value;
    Compose(c, [W], c1, [K(Routine)], c');
    assert [W] + [K(Routine)] == [W, K(Routine)];
  }

  lemma CutFeeds()
    ensures var ts := CutTokens([K(If)]); Feed(START, ts).Some? && AtRest(Feed(START, ts).value)
  {
    hide Feed, Step, InBody, StandsAt, AtRest;
    var c := BeginNotAtomic(START);
    var c1 := Names(c);
    var c2 := EndOfStatement(c1, 1);
    RoutineWordHidesIf(c2);
    assert IfTokens([K(If)]) == [K(If), W, K(Then), W, Semicolon, K(End), K(If)];
    Compose(c, [W, K(Routine)], c1, [Semicolon], c2);
    Compose(START, [K(Begin), K(Not), K(Atomic)], c, [W, K(Routine)] + [Semicolon], c2);
    Compose(START, [K(Begin), K(Not), K(Atomic)] + ([W, K(Routine)] + [Semicolon]), c2, IfTokens([K(If)]),
            Feed(c2, IfTokens([K(If)])).value);
    assert [K(Begin), K(Not), K(Atomic)] + ([W, K(Routine)] + [Semicolon])
           == [K(Begin), K(Not), K(Atomic), W, K(Routine), Semicolon];
  }

  // ---- the script as a tree ----

  function Words2(a: Token, b: Token): Phrase {
    Atom(a, Atom(b, Empty))
  }

  /** IF a THEN b; END IF */
  function ShortIf(a: Token): Block {
    IfBlock(Atom(a, Empty), More(Simple(Atom(W, Empty)), Done), EndIf)
  }

  const TREE := Anonymous([], More(Simple(Words2(W, K(Routine))), More(Nested([], ShortIf(W)), Done)), [])

  lemma ShortIfTokens(a: Token)
    ensures BlockTokens(ShortIf(a)) == [a, K(Then), W, Semicolon, K(End), K(If)]
  {
  }

  lemma TreeBody()
    ensures BodyTokens(TREE.body)
            == [W, K(Routine), Semicolon, K(If), W, K(Then), W, Semicolon, K(End), K(If), Semicolon]
  {
    ShortIfTokens(W);
    OpensIf(W);
    var nested := Nested([], ShortIf(W));
    var rest := More(nested, Done);
    hide BlockTokens, ShortIf, Opener;
    assert StmtTokens(nested) == [] + ([K(If)] + BlockTokens(ShortIf(W)));
    assert BodyTokens(rest) == StmtTokens(nested) + ([Semicolon] + BodyTokens(Done));
    assert BodyTokens(Done) == [];
    var first := Simple(Words2(W, K(Routine)));
    assert StmtTokens(first) == [W, K(Routine)];
    assert BodyTokens(TREE.body) == StmtTokens(first) + ([Semicolon] + BodyTokens(rest));
  }

  lemma OpensIf(a: Token)
    ensures Opener(ShortIf(a)) == If
  {
  }

  lemma TreeTokens()
    ensures ScriptTokens(TREE) == CutTokens([K(If), Semicolon, K(End)])
  {
    TreeBody();
    hide BodyTokens;
  }

  lemma TreeIsShaped()
    ensures ShapedScript(TREE) && !GoodScript(TREE)
  {
  }

  // ---- the splitter on these texts ----

  /** A text without '#' and '-' ends in no line comment. */
  lemma {:induction false} NoOpenEnd(x: string, i: nat)
    requires i <= |x| && forall k :: 0 <= k < |x| ==> x[k] != '#' && x[k] != '-'
    ensures !OpenEnd(x, i)
    decreases |x| - i
  {
    if i < |x| && Next(x, i).Some? {
      NoLineComment(x, i);
      hide Next;
      NoOpenEnd(x, Next(x, i).value.to);
    }
  }

  lemma NoLineComment(x: string, i: nat)
    requires i < |x| && x[i] != '#' && x[i] != '-' && Next(x, i).Some?
    ensures !Next(x, i).value.kind.LineComment?
  {
  }

  lemma CutCharacters(last: string)
    requires last == "IF" || last == "IF; END"
    ensures forall k :: 0 <= k < |CutString(last)| ==> CutString(last)[k] != '#' && CutString(last)[k] != '-'
    ensures !IsSpace(CutString(last)[|CutString(last)| - 1]) && IsWordChar(CutString(last)[0])
  {
  }

  /** Text that starts with a word starts with code. */
  lemma WordStarts(x: string, ts: seq<Token>)
    requires x != "" && IsWordChar(x[0]) && Tokens(x, 0) == Some(ts)
    ensures StartsWithCode(x) && !IsSpace(x[0])
  {
  }

  lemma FeedsAlone(x: string, ts: seq<Token>)
    requires x != "" && IsWordChar(x[0]) && !IsSpace(x[|x| - 1]) && Tokens(x, 0) == Some(ts)
    requires Feed(START, ts).Some? && AtRest(Feed(START, ts).value)
    ensures IsStatement(x)
  {
    hide Tokens, Feed, AtRest, Alone, StartsWithCode, IsSpace, IsWordChar;
    WordStarts(x, ts);
    TokensAlone(x, 0, START, ts);
  }

  lemma EndAlone()
    ensures Feed(START, [K(End)]).Some? && AtRest(Feed(START, [K(End)]).value) && IsWordChar("END"[0])
            && !IsSpace("END"[2])
  {
    One(START, K(End));
  }

  lemma WholeLayout()
    ensures Layout(WHOLE, CUT, |CUT|, |CUT| + 2, "END")
  {
    var front := "BEGIN NOT ATOMIC SELECT event; " + "IF a THEN b; END ";
    assert WHOLE == front + "IF; END" && CUT == front + "IF";
    assert WHOLE == CUT + "; END" by { assert "IF; END" == "IF" + "; END"; }
    Closing2(CUT);
  }

  lemma Closing2(x: string)
    ensures Layout(x + "; END", x, |x|, |x| + 2, "END")
  {
    var y := x + "; END";
    assert y[|x|] == ';' && y[|x| + 1] == ' ';
  }

  lemma CutIsStatement()
    ensures IsStatement(CUT) && !OpenEnd(CUT, 0)
  {
    WholeText();
    CutFeeds();
    CutCharacters("IF");
    hide *;
    CutIs();
    FeedsAlone(CUT, CutTokens([K(If)]));
    NoOpenEnd(CUT, 0);
  }

  lemma CutIs()
    ensures CUT == CutString("IF") && WHOLE == CutString("IF; END") && CutString("IF") != ""
            && CutString("IF; END") != ""
  {
  }

  lemma EndIsStatement()
    ensures IsStatement("END")
  {
    LastWords();
    EndAlone();
    hide *;
    FeedsAlone("END", [K(End)]);
  }

  lemma WholePrints()
    ensures PrintsShape(TREE, WHOLE) && !GoodScript(TREE)
  {
    WholeText();
    TreeTokens();
    TreeIsShaped();
    CutCharacters("IF; END");
    hide Tokens, StartsWithCode, CutTokens, CutString, ShapedScript, WellFormed, ScriptTokens, IsSpace, IsWordChar;
    CutIs();
    WordStarts(WHOLE, ScriptTokens(TREE));
  }

  /** The splitter cuts this script in two, in front of its END. */
  lemma CutInTwo()
    ensures PrintsShape(TREE, WHOLE) && !GoodScript(TREE)
    ensures Split(WHOLE) == Some([CUT, "END"])
  {
    hide *;
    WholePrints();
    CutIsStatement();
    EndIsStatement();
    WholeLayout();
    SplitAlone("END");
    SplitFirst(WHOLE, CUT, |CUT|, |CUT| + 2, "END");
    assert [CUT] + ["END"] == [CUT, "END"];
  }

  // ---- an IF that is all a routine does, and a word that takes its place ----

  // CREATE EVENT event IF begin THEN b; END IF
  const STAND_IN := RoutineDef([K(Create), K(Routine)], false, Atom(K(Routine), Empty), Opens(ShortIf(K(Begin))))

  lemma StandInTokens()
    ensures ScriptTokens(STAND_IN)
            == [K(Create), K(Routine), K(Routine), K(If), K(Begin), K(Then), W, Semicolon, K(End), K(If)]
    ensures Printable(ScriptTokens(STAND_IN))
  {
    ShortIfTokens(K(Begin));
    OpensIf(K(Begin));
    hide BlockTokens, ShortIf, Opener, PrintableAt;
    assert ActionTokens(STAND_IN.action) == [K(If), K(Begin), K(Then), W, Semicolon, K(End), K(If)];
    assert PhraseTokens(STAND_IN.header) == [K(Routine)];
    hide ActionTokens, PhraseTokens;
    StandInPrints();
  }

  lemma StandInPrints()
    ensures Printable([K(Create), K(Routine), K(Routine), K(If), K(Begin), K(Then), W, Semicolon, K(End), K(If)])
  {
  }

  lemma StandInShape()
    ensures WellFormed(STAND_IN, false) && !GoodScript(STAND_IN)
  {
    var lead := [K(Create), K(Routine)];
    assert Words(lead[1..]) == 1 by { assert lead[1..][1..] == []; }
    hide GoodPlain, PhraseTokens;
    assert LastWord(PhraseTokens(Atom(K(Routine), Empty)), Routine) == Routine by { LastIsRoutine(); }
  }

  lemma LastIsRoutine()
    ensures LastWord(PhraseTokens(Atom(K(Routine), Empty)), Routine) == Routine
  {
    assert PhraseTokens(Atom(K(Routine), Empty)) == [K(Routine)] && [K(Routine)][1..] == [];
  }

  /** THEN b; END IF, one block open. */
  lemma StandInEnd(c: Control)
    requires StandsAt(c, 1, AT_START)
    ensures var ts := [K(Then), W, Semicolon, K(End), K(If)]; Feed(c, ts).Some? && AtRest(Feed(c, ts).value)
  {
    var ts := [K(Then), W, Semicolon, K(End), K(If)];
    var c1 := c.(lastWord := Then);
    var c2 := c1.(lastWord := Keyword.Plain, atBodyStatement := false);
    var c3 := c2.(atBodyStatement := true);
    var c4 := c3.(lastWord := End, depth := 0, afterEnd := true, atBodyStatement := false);
    var c5 := c4.(lastWord := If, afterEnd := false);
    Chain(c, ts, 0, [c, c1, c2, c3, c4, c5]);
    assert ts[0..] == ts;
  }

  lemma StandInRest(c: Control)
    requires StandsAt(c, 0, IN_HEADER) && c.lastWord.Routine?
    ensures var ts := [K(Routine), K(If), K(Begin)] + [K(Then), W, Semicolon, K(End), K(If)];
            Feed(c, ts).Some? && AtRest(Feed(c, ts).value)
  {
    var ts := [K(Routine), K(If), K(Begin)];
    var c1 := c.(lastWord := If);
    var c2 := c1.(lastWord := Begin, depth := 1, atBodyStatement := true);
    Chain(c, ts, 0, [c, c, c1, c2]);
    assert ts[0..] == ts;
    StandInEnd(c2);
    hide Feed, AtRest;
    var rest := [K(Then), W, Semicolon, K(End), K(If)];
    Compose(c, ts, c2, rest, Feed(c2, rest).value);
  }

  lemma StandInFeeds()
    ensures var ts := [K(Create), K(Routine), K(Routine), K(If), K(Begin), K(Then), W, Semicolon, K(End), K(If)];
            Feed(START, ts).Some? && AtRest(Feed(START, ts).value)
  {
    var c1 := START.(words := [Create], lastWord := Create);
    var c2 := c1.(words := [Create, Routine], lastWord := Routine, compound := true);
    CreateEvent(c1, c2);
    One(START, K(Create));
    One(c1, K(Routine));
    hide Feed, Step, AtRest, IsCompound;
    StandInRest(c2);
    var rest := [K(Routine), K(If), K(Begin)] + [K(Then), W, Semicolon, K(End), K(If)];
    Compose(START, [K(Create)], c1, [K(Routine)], c2);
    Compose(START, [K(Create)] + [K(Routine)], c2, rest, Feed(c2, rest).value);
    assert [K(Create)] + [K(Routine)] + rest
        == [K(Create), K(Routine), K(Routine), K(If), K(Begin), K(Then), W, Semicolon, K(End), K(If)];
  }

  lemma CreateEvent(c1: Control, c2: Control)
    requires c1 == START.(words := [Create], lastWord := Create)
    requires c2 == c1.(words := [Create, Routine], lastWord := Routine, compound := true)
    ensures Step(START, K(Create)) == Some(c1) && Step(c1, K(Routine)) == Some(c2)
  {
    assert [] + [Create] == [Create] && [Create] + [Routine] == [Create, Routine];
    assert !IsCompound([Create]) && IsCompound([Create, Routine]) by { assert [Create, Routine][1..] == [Routine]; }
  }

  lemma PrintIsOne(ts: seq<Token>, ws: seq<string>)
    requires Printable(ts) && Worded(ts, ws) && ts != [] && ts[0] != Semicolon
    requires Feed(START, ts).Some? && AtRest(Feed(START, ts).value)
    ensures |ws| == |ts| && var x := Print(ts, ws, false); Split(x) == Some([x])
  {
    hide *;
    PrintedText(ts, ws);
    WordedLength(ts, ws);
    var x := Print(ts, ws, false);
    TokensAlone(x, 0, START, ts);
    StatementIs(x);
    SplitAlone(x);
  }

  lemma StatementIs(x: string)
    requires x != "" && StartsWithCode(x) && !IsSpace(x[0]) && !IsSpace(x[|x| - 1])
    requires Alone(x, 0, START).Some? && AtRest(Alone(x, 0, START).value)
    ensures IsStatement(x)
  {
  }

  /** Why ShapedScript asks for more there: the tracker misses the IF and takes
      the name `begin` for the start of a block, so that the text is one statement. */
  lemma StandInIsOne(ws: seq<string>)
    requires Worded(ScriptTokens(STAND_IN), ws)
    ensures WellFormed(STAND_IN, false) && !GoodScript(STAND_IN)
    ensures |ws| == |ScriptTokens(STAND_IN)|
            && var x := Print(ScriptTokens(STAND_IN), ws, false); Split(x) == Some([x])
  {
    hide Print, Split, Feed, AtRest, Printable, ScriptTokens, WellFormed, Worded;
    StandInShape();
    StandInTokens();
    StandInFeeds();
    PrintIsOne(ScriptTokens(STAND_IN), ws);
  }
}
