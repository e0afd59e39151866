/** Printing scripts, and which texts split into themselves: a printed script of
    the shape of the grammar is one statement to the splitter exactly when every IF
    in it is seen; and every script has such a text. */
module SqlPrinting {
  import opened Text
  import opened SqlLexer
  import opened SqlStatements
  import opened SqlEdges
  import opened SqlJoin
  import opened SqlConservation
  import opened SqlGrammar
  import opened SqlGrammarProof
  import opened SqlRoundTrip
  import opened SqlHidden

  // ---- texts with a statement end inside ----

  predicate AllShorter(spans: seq<Span>, n: nat) {
    forall k :: 0 <= k < |spans| ==> spans[k].from < spans[k].to && spans[k].to - spans[k].from < n
  }

  lemma ShorterBoundary(x: string, p: Piece, code: Option<nat>)
    requires p.from < p.to <= |x| && CodeBefore(x, p.from, code)
    requires SpansFrom(x, p.to, START, None).Some?
    ensures AllShorter(Close(code, p.from) + SpansFrom(x, p.to, START, None).value, |x|)
  {
    SpansSeparate(x, p.to, START, None);
  }

  /** When the tokens do not run through, no statement is the whole text. */
  lemma {:induction false} ShortSpans(x: string, i: nat, c: Control, code: Option<nat>, ts: seq<Token>)
    requires i <= |x| && CodeBefore(x, i, code) && Tokens(x, i) == Some(ts) && Feed(c, ts) == None
    ensures SpansFrom(x, i, c, code).Some? ==> AllShorter(SpansFrom(x, i, c, code).value, |x|)
    decreases |x| - i
  {
    hide Step, IsBoundary, TokenOf, KeywordOf, Next, OpenCall, AllShorter, IsSpace;
    if i < |x| {
      var p := Next(x, i).value;
      var t := TokenOf(x, p);
      var rest := Tokens(x, p.to).value;
      NothingStep(x, p, c);
      MarkBefore(x, p, code);
      if IsBoundary(c, t) {
        if SpansFrom(x, p.to, START, None).Some? { ShorterBoundary(x, p, code); }
      } else if Step(c, t).Some? {
        if t.Nothing? {
          assert ts == rest;
        } else {
          assert ts[0] == t && ts[1..] == rest;
        }
        ShortSpans(x, p.to, Step(c, t).value, Mark(code, p, t), rest);
      }
    }
  }

  lemma ShortTexts(x: string, spans: seq<Span>)
    requires InRange(x, spans) && AllShorter(spans, |x|)
    ensures Texts(x, spans) != [x]
  {
    hide Trim, IsSpace;
    if |spans| == 1 {
      TrimShorter(x[spans[0].from..spans[0].to]);
      assert |Texts(x, spans)[0]| < |x|;
    }
  }

  lemma NotItself(x: string, ts: seq<Token>)
    requires Tokens(x, 0) == Some(ts) && Feed(START, ts) == None
    ensures Split(x) != Some([x])
  {
    hide Tokens, Feed, Texts, AllShorter;
    ShortSpans(x, 0, START, None, ts);
    var r := SpansFrom(x, 0, START, None);
    if r.Some? {
      ShortTexts(x, r.value);
      assert [] + Texts(x, r.value) == Texts(x, r.value);
    }
  }

  lemma TrimShorter(s: string)
    ensures |Trim(s)| <= |s|
  {
  }

  /** The text is that of a script in the shape of the grammar, in any layout. */
  predicate PrintsShape(s: Script, x: string) {
    && ShapedScript(s) && Tokens(x, 0) == Some(ScriptTokens(s))
    && StartsWithCode(x) && !IsSpace(x[0]) && !IsSpace(x[|x| - 1])
  }

  /** Exactly the scripts whose every IF is seen split into themselves. */
  lemma SplitsIntoItself(s: Script, x: string)
    requires PrintsShape(s, x)
    ensures Split(x) == Some([x]) <==> GoodScript(s)
  {
    hide Split, Tokens, StartsWithCode, IsSpace, WellFormed, ScriptTokens, ShapedScript;
    if GoodScript(s) {
      PrintIsStatement(s, x);
      SplitAlone(x);
    } else {
      HiddenDies(s);
      NotItself(x, ScriptTokens(s));
    }
  }

  // ---- a printer ----

  /** How a keyword is written, in upper case; every other word is Plain. */
  function Spellings(k: Keyword): seq<string> {
    match k
    case Create => ["CREATE"]
    case Not => ["NOT"]
    case Atomic => ["ATOMIC"]
    case Routine => ["PROCEDURE", "FUNCTION", "TRIGGER", "EVENT"]
    case OtherObject => TABLES + NAMESPACES
    case Begin => ["BEGIN"]
    case If => ["IF"]
    case Case => ["CASE"]
    case Loop => ["LOOP"]
    case While => ["WHILE"]
    case Repeat => ["REPEAT"]
    case End => ["END"]
    case Then => ["THEN"]
    case Else => ["ELSE"]
    case Do => ["DO"]
    case Handler => ["HANDLER"]
    case Plain => []
  }

  const TABLES := ["TABLE", "VIEW", "INDEX", "UNIQUE", "FULLTEXT", "SPATIAL", "USER", "ROLE"]
  const NAMESPACES := ["DATABASE", "SCHEMA", "SEQUENCE", "SERVER", "TABLESPACE", "TEMPORARY", "ALGORITHM", "PACKAGE"]

  /** The word is a way to write this keyword, in any letter case. */
  predicate Spells(w: string, k: Keyword) {
    IsWord(w) && if k.Plain? then forall k' :: Upper(w) !in Spellings(k') else Upper(w) in Spellings(k)
  }

  function Glyph(t: Token, w: string, afterLabel: bool): string {
    match t
    case Nothing => ""
    case Executable => "/*!0*/"
    case Text => "'x'"
    case Semicolon => ";"
    case Sign => if afterLabel then ":" else ","
    case WordToken(_, _, _, _) => w
  }

  predicate IsLabel(t: Token) {
    t.WordToken? && t.isLabel
  }

  /** A spelling for each word; what ws holds for other tokens does not matter. */
  predicate Worded(ts: seq<Token>, ws: seq<string>) {
    |ws| == |ts| && forall k :: 0 <= k < |ts| && ts[k].WordToken? ==> Spells(ws[k], ts[k].word)
  }

  /** The tokens, in these words, with a blank between two of them. */
  function Print(ts: seq<Token>, ws: seq<string>, afterLabel: bool): string
    requires |ws| == |ts|
  {
    if ts == [] then ""
    else if |ts| == 1 then Glyph(ts[0], ws[0], afterLabel)
    else Glyph(ts[0], ws[0], afterLabel) + " " + Print(ts[1..], ws[1..], IsLabel(ts[0]))
  }

  /** Words are neither names behind '.' or '@' nor functions; a label has its colon. */
  predicate Printable(ts: seq<Token>) {
    forall k :: 0 <= k < |ts| ==> PrintableAt(ts, k)
  }

  predicate PrintableAt(ts: seq<Token>, k: nat)
    requires k < |ts|
  {
    && !ts[k].Nothing?
    && (ts[k].WordToken? ==> !ts[k].isName && !ts[k].isCall && (ts[k].isLabel ==> k + 1 < |ts| && ts[k + 1].Sign?))
  }

  // ---- reading token by token ----

  lemma OpenCallShift(a: string, b: string, p: Piece)
    requires p.from < p.to <= |b|
    ensures OpenCall(a + b, Shift(p, |a|)) == OpenCall(b, p)
  {
    hide KeywordOf, CallScan, Upper;
    if p.kind.Word? {
      SliceShift(a, b, p.from, p.to);
      CallScanShift(a, b, p.to);
    }
  }

  lemma {:induction false} TokensShift(a: string, b: string, k: nat)
    requires k <= |b| && a != "" && Detached(a)
    ensures Tokens(a + b, |a| + k) == Tokens(b, k)
    decreases |b| - k
  {
    hide KeywordOf, TokenOf, Next, Detached, OpenCall;
    if k < |b| {
      DetachedWord(a);
      NextShift(a, b, k);
      if Next(b, k).Some? {
        var p := Next(b, k).value;
        TokenShift(a, b, p);
        OpenCallShift(a, b, p);
        TokensShift(a, b, p.to);
      }
    }
  }

  /** g is read as the token t. */
  predicate ReadAs(g: string, tail: string, t: Token) {
    var s := g + tail;
    && g != "" && !t.Nothing?
    && (var r := Next(s, 0);
        r.Some? && r.value.to == |g| && TokenOf(s, r.value) == t && !OpenCall(s, r.value))
  }

  function Behind(ts: seq<Token>, r: Option<seq<Token>>): Option<seq<Token>> {
    if r.None? then None else Some(ts + r.value)
  }

  lemma TokensOne(s: string, n: nat, t: Token)
    requires 0 < n <= |s| && !t.Nothing?
    requires var r := Next(s, 0); r.Some? && r.value.to == n && TokenOf(s, r.value) == t && !OpenCall(s, r.value)
    ensures Tokens(s, 0) == Behind([t], Tokens(s, n))
  {
    hide Next, TokenOf, OpenCall;
  }

  lemma TokensGap(s: string, i: nat)
    requires i < |s| && s[i] == ' '
    ensures Tokens(s, i) == Tokens(s, i + 1)
  {
    NextGap(s, i);
    hide Next;
    if Tokens(s, i + 1).Some? { assert [] + Tokens(s, i + 1).value == Tokens(s, i + 1).value; }
  }

  lemma TokensSemi(s: string, i: nat)
    requires i < |s| && s[i] == ';'
    ensures Tokens(s, i) == Behind([Semicolon], Tokens(s, i + 1))
  {
    NextSemi(s, i);
    hide Next;
  }

  lemma ReadBlank(g: string, rest: string, t: Token)
    requires ReadAs(g, " " + rest, t)
    ensures Tokens(g + (" " + rest), 0) == Behind([t], Tokens(rest, 0))
  {
    var s := g + (" " + rest);
    hide Tokens, Next, TokenOf, OpenCall;
    TokensOne(s, |g|, t);
    TokensGap(s, |g|);
    assert s == (g + " ") + rest;
    TokensShift(g + " ", rest, 0);
  }

  lemma ReadSemi(g: string, rest: string, t: Token)
    requires ReadAs(g, ";" + rest, t)
    ensures Tokens(g + (";" + rest), 0) == Behind([t, Semicolon], Tokens(rest, 0))
  {
    var s := g + (";" + rest);
    hide Tokens, Next, TokenOf, OpenCall;
    TokensOne(s, |g|, t);
    TokensSemi(s, |g|);
    assert s == (g + ";") + rest;
    TokensShift(g + ";", rest, 0);
    if Tokens(rest, 0).Some? {
      var ts := Tokens(rest, 0).value;
      assert [t] + ([Semicolon] + ts) == [t, Semicolon] + ts;
    }
  }

  lemma ReadLast(g: string, t: Token)
    requires ReadAs(g, "", t)
    ensures Tokens(g, 0) == Some([t])
  {
    assert g + "" == g;
    hide Next, TokenOf, OpenCall;
    TokensOne(g, |g|, t);
    assert [t] + [] == [t];
  }

  /** What may follow a word, so that it is a label or not, and no function. */
  predicate Ahead(tail: string, isLabel: bool) {
    if tail == "" then !isLabel
    else
      || (tail[0] == ';' && !isLabel)
      || (tail[0] == ' ' && |tail| > 1 && !IsSpace(tail[1]) && tail[1] != '('
          && (tail[1] == ':' <==> isLabel) && (isLabel && |tail| > 2 ==> tail[2] == ' '))
  }

  lemma {:induction false} WordRuns(s: string, j: nat, e: nat)
    requires j <= e <= |s| && (forall k :: j <= k < e ==> IsWordChar(s[k])) && (e < |s| ==> !IsWordChar(s[e]))
    ensures WordEnd(s, j) == e
    decreases e - j
  {
    if j < e { WordRuns(s, j + 1, e); }
  }

  predicate IsWord(w: string) {
    w != "" && forall k :: 0 <= k < |w| ==> IsWordChar(w[k])
  }

  lemma WordAhead(w: string, tail: string, isLabel: bool)
    requires IsWord(w) && Ahead(tail, isLabel)
    ensures Next(w + tail, 0) == Some(Piece(Word, 0, |w|)) && (w + tail)[0..|w|] == w
    ensures LabelEnd(w + tail, |w|).Some? == isLabel && CallScan(w + tail, |w|) == No
  {
    var s := w + tail;
    assert forall k :: 0 <= k < |w| ==> s[k] == w[k];
    WordRuns(s, 1, |w|);
    if tail != "" && tail[0] == ' ' {
      assert s[|w|] == ' ' && s[|w| + 1] == tail[1] && SkipSpace(s, |w| + 1) == |w| + 1;
    }
  }

  lemma WordReads(w: string, tail: string, k: Keyword, isLabel: bool)
    requires IsWord(w) && Ahead(tail, isLabel) && KeywordOf(Upper(w)) == k
    ensures ReadAs(w, tail, WordToken(k, false, isLabel, false))
  {
    WordAhead(w, tail, isLabel);
    hide KeywordOf, Upper, LabelEnd, CallScan, Next;
  }

  lemma UpperSame(w: string)
    requires forall k :: 0 <= k < |w| ==> 'A' <= w[k] <= 'Z'
    ensures Upper(w) == w
  {
  }

  lemma KnownRoutine(up: string)
    requires up in Spellings(Routine)
    ensures KeywordOf(up) == Routine
  {
  }

  lemma KnownTables(up: string)
    requires up in TABLES[..4]
    ensures KeywordOf(up) == OtherObject
  {
  }

  lemma KnownTablesToo(up: string)
    requires up in TABLES[4..]
    ensures KeywordOf(up) == OtherObject
  {
  }

  lemma KnownNamespaces(up: string)
    requires up in NAMESPACES[..4]
    ensures KeywordOf(up) == OtherObject
  {
  }

  lemma KnownNamespacesToo(up: string)
    requires up in NAMESPACES[4..]
    ensures KeywordOf(up) == OtherObject
  {
  }

  lemma KnownOther(up: string)
    requires up in Spellings(OtherObject)
    ensures KeywordOf(up) == OtherObject
  {
    assert TABLES == TABLES[..4] + TABLES[4..] && NAMESPACES == NAMESPACES[..4] + NAMESPACES[4..];
    hide KeywordOf;
    if up in TABLES[..4] {
      KnownTables(up);
    } else if up in TABLES[4..] {
      KnownTablesToo(up);
    } else if up in NAMESPACES[..4] {
      KnownNamespaces(up);
    } else {
      KnownNamespacesToo(up);
    }
  }

  lemma KnownChoice(k: Keyword, up: string)
    requires (k.If? || k.Case?) && up in Spellings(k)
    ensures KeywordOf(up) == k
  {
  }

  lemma KnownLoop(k: Keyword, up: string)
    requires (k.Loop? || k.While?) && up in Spellings(k)
    ensures KeywordOf(up) == k
  {
  }

  lemma KnownRepeat(up: string)
    requires up in Spellings(Repeat)
    ensures KeywordOf(up) == Repeat
  {
  }

  lemma KnownEnds(k: Keyword, up: string)
    requires (k.Begin? || k.End? || k.Create? || k.Not? || k.Atomic?) && up in Spellings(k)
    ensures KeywordOf(up) == k
  {
  }

  lemma KnownInner(k: Keyword, up: string)
    requires (k.Then? || k.Else?) && up in Spellings(k)
    ensures KeywordOf(up) == k
  {
  }

  lemma KnownStart(k: Keyword, up: string)
    requires (k.Do? || k.Handler?) && up in Spellings(k)
    ensures KeywordOf(up) == k
  {
  }

  lemma KnownPlain(up: string)
    requires forall k :: up !in Spellings(k)
    ensures KeywordOf(up) == Keyword.Plain
  {
    assert OTHER_OBJECTS == TABLES + NAMESPACES;
    assert up !in Spellings(Create) && up !in Spellings(Not) && up !in Spellings(Atomic) && up !in Spellings(Routine);
    assert up !in Spellings(OtherObject) && up !in Spellings(Begin) && up !in Spellings(End);
    assert up !in Spellings(If) && up !in Spellings(Case) && up !in Spellings(Loop) && up !in Spellings(While);
    assert up !in Spellings(Repeat) && up !in Spellings(Then) && up !in Spellings(Else) && up !in Spellings(Do);
    assert up !in Spellings(Handler);
  }

  /** A word is read as the keyword it spells. */
  lemma SpellsKnown(w: string, k: Keyword)
    requires Spells(w, k)
    ensures IsWord(w) && KeywordOf(Upper(w)) == k
  {
    hide KeywordOf, Upper, Spellings;
    if k.Plain? {
      KnownPlain(Upper(w));
    } else if k.Routine? {
      KnownRoutine(Upper(w));
    } else if k.OtherObject? {
      KnownOther(Upper(w));
    } else if k.If? || k.Case? {
      KnownChoice(k, Upper(w));
    } else if k.Repeat? {
      KnownRepeat(Upper(w));
    } else if IsBlockKeyword(k) {
      KnownLoop(k, Upper(w));
    } else if k.Then? || k.Else? {
      KnownInner(k, Upper(w));
    } else if k.Do? || k.Handler? {
      KnownStart(k, Upper(w));
    } else {
      KnownEnds(k, Upper(w));
    }
  }

  lemma GlyphReads(t: Token, w: string, afterLabel: bool, tail: string)
    requires !t.Nothing? && (t.WordToken? ==> !t.isName && !t.isCall && Spells(w, t.word)) && Ahead(tail, IsLabel(t))
    ensures ReadAs(Glyph(t, w, afterLabel), tail, t)
  {
    match t
    case WordToken(word, _, isLabel, _) =>
      SpellsKnown(w, word);
      WordReads(w, tail, word, isLabel);
    case Executable => ExecutableReads(tail);
    case Text => TextReads(tail);
    case Semicolon => assert (";" + tail)[0] == ';';
    case Sign => SignReads(afterLabel, tail);
  }

  lemma SignReads(afterLabel: bool, tail: string)
    ensures ReadAs(if afterLabel then ":" else ",", tail, Token.Sign)
  {
    var g := if afterLabel then ":" else ",";
    assert (g + tail)[0] == g[0];
  }

  lemma TextReads(tail: string)
    requires tail == "" || tail[0] == ' ' || tail[0] == ';'
    ensures ReadAs("'x'", tail, Token.Text)
  {
    var s := "'x'" + tail;
    assert s[0] == '\'' && s[1] == 'x' && s[2] == '\'' && (|s| > 3 ==> s[3] == tail[0]);
    assert QuoteEnd(s, 2, '\'') == Some(3);
  }

  lemma ExecutableReads(tail: string)
    ensures ReadAs("/*!0*/", tail, Executable)
  {
    var s := "/*!0*/" + tail;
    assert s[0] == '/' && s[1] == '*' && s[2] == '!' && s[3] == '0' && s[4] == '*' && s[5] == '/';
    assert CommentEnd(s, 3) == Some(6);
  }

  lemma GlyphFirst(t: Token, w: string, afterLabel: bool)
    requires !t.Nothing? && (t.WordToken? ==> IsWord(w))
    ensures var g := Glyph(t, w, afterLabel);
            g != "" && !IsSpace(g[0]) && g[0] != '(' && (g[0] == ':' <==> t.Sign? && afterLabel) && !IsSpace(g[|g| - 1])
            && (t.Sign? ==> |g| == 1)
  {
  }

  lemma FirstPrintable(ts: seq<Token>)
    requires ts != [] && Printable(ts)
    ensures !ts[0].Nothing? && (ts[0].WordToken? ==> !ts[0].isName && !ts[0].isCall) && Printable(ts[1..])
    ensures |ts| == 1 ==> !IsLabel(ts[0])
    ensures IsLabel(ts[0]) ==> |ts| > 1 && ts[1].Sign?
  {
    assert PrintableAt(ts, 0);
    var rest := ts[1..];
    forall k | 0 <= k < |rest| ensures PrintableAt(rest, k) {
      assert PrintableAt(ts, k + 1) && rest[k] == ts[k + 1] && (k + 1 < |rest| ==> rest[k + 1] == ts[k + 2]);
    }
  }

  lemma FirstWorded(ts: seq<Token>, ws: seq<string>)
    requires ts != [] && Worded(ts, ws)
    ensures |ws| == |ts| && Worded(ts[1..], ws[1..])
    ensures ts[0].WordToken? ==> Spells(ws[0], ts[0].word) && IsWord(ws[0])
  {
    hide Spellings;
    forall k | 0 <= k < |ts| - 1 && ts[1..][k].WordToken? ensures Spells(ws[1..][k], ts[1..][k].word) {
      assert ts[k + 1].WordToken?;
    }
  }

  lemma PrintFirst(ts: seq<Token>, ws: seq<string>, afterLabel: bool)
    requires ts != [] && Printable(ts) && Worded(ts, ws)
    ensures var x := Print(ts, ws, afterLabel);
            && x != "" && !IsSpace(x[0]) && x[0] != '(' && (x[0] == ':' <==> ts[0].Sign? && afterLabel)
            && (ts[0].Sign? && |x| > 1 ==> x[1] == ' ')
  {
    FirstPrintable(ts);
    FirstWorded(ts, ws);
    GlyphFirst(ts[0], ws[0], afterLabel);
    hide Glyph, Printable, Worded, Spells;
  }

  /** Reading what is printed, in whatever spelling, gives the tokens. */
  lemma {:induction false} PrintReads(ts: seq<Token>, ws: seq<string>, afterLabel: bool)
    requires Printable(ts) && Worded(ts, ws)
    ensures Tokens(Print(ts, ws, afterLabel), 0) == Some(ts)
    decreases |ts|
  {
    hide Glyph, ReadAs, Next, TokenOf, OpenCall, IsSpace, Printable, Spells;
    if ts != [] {
      FirstPrintable(ts);
      FirstWorded(ts, ws);
    }
    if ts == [] {
    } else if |ts| == 1 {
      GlyphReads(ts[0], ws[0], afterLabel, "");
      ReadLast(Glyph(ts[0], ws[0], afterLabel), ts[0]);
      assert ts == [ts[0]];
    } else {
      hide Worded;
      var rest := Print(ts[1..], ws[1..], IsLabel(ts[0]));
      PrintReads(ts[1..], ws[1..], IsLabel(ts[0]));
      PrintFirst(ts[1..], ws[1..], IsLabel(ts[0]));
      assert Ahead(" " + rest, IsLabel(ts[0]));
      GlyphReads(ts[0], ws[0], afterLabel, " " + rest);
      ReadBlank(Glyph(ts[0], ws[0], afterLabel), rest, ts[0]);
      assert Glyph(ts[0], ws[0], afterLabel) + (" " + rest) == Print(ts, ws, afterLabel);
      assert [ts[0]] + ts[1..] == ts;
    }
  }

  lemma {:induction false} PrintLast(ts: seq<Token>, ws: seq<string>, afterLabel: bool)
    requires ts != [] && Printable(ts) && Worded(ts, ws)
    ensures var x := Print(ts, ws, afterLabel); x != "" && !IsSpace(x[|x| - 1])
    decreases |ts|
  {
    hide Glyph, IsSpace, Printable, Spells;
    FirstPrintable(ts);
    FirstWorded(ts, ws);
    GlyphFirst(ts[0], ws[0], afterLabel);
    hide Worded;
    if |ts| > 1 { PrintLast(ts[1..], ws[1..], IsLabel(ts[0])); }
  }

  lemma FirstToken(x: string, ts: seq<Token>)
    requires x != "" && !IsSpace(x[0]) && Tokens(x, 0) == Some(ts) && ts != [] && ts[0] != Semicolon
    requires Next(x, 0).Some? && !TokenOf(x, Next(x, 0).value).Nothing?
    ensures StartsWithCode(x)
  {
    hide Next, TokenOf, OpenCall;
  }

  lemma PrintStarts(ts: seq<Token>, ws: seq<string>)
    requires ts != [] && Printable(ts) && Worded(ts, ws)
    ensures var x := Print(ts, ws, false); x != "" && Next(x, 0).Some? && !TokenOf(x, Next(x, 0).value).Nothing?
  {
    hide Glyph, Next, TokenOf, OpenCall, IsSpace, Printable, Spells;
    FirstPrintable(ts);
    FirstWorded(ts, ws);
    var g := Glyph(ts[0], ws[0], false);
    if |ts| == 1 {
      GlyphReads(ts[0], ws[0], false, "");
      assert g + "" == g;
    } else {
      hide Worded;
      var rest := Print(ts[1..], ws[1..], IsLabel(ts[0]));
      PrintFirst(ts[1..], ws[1..], IsLabel(ts[0]));
      GlyphReads(ts[0], ws[0], false, " " + rest);
      assert g + (" " + rest) == Print(ts, ws, false);
    }
  }

  lemma WordedLength(ts: seq<Token>, ws: seq<string>)
    requires Worded(ts, ws)
    ensures |ws| == |ts|
  {
  }

  /** A printed text, but for its shape. */
  lemma PrintedText(ts: seq<Token>, ws: seq<string>)
    requires Printable(ts) && Worded(ts, ws) && ts != [] && ts[0] != Semicolon
    ensures var x := Print(ts, ws, false);
            x != "" && Tokens(x, 0) == Some(ts) && StartsWithCode(x) && !IsSpace(x[0]) && !IsSpace(x[|x| - 1])
  {
    hide Print, Printable, Worded, Tokens, Next, TokenOf, StartsWithCode, IsSpace;
    WordedLength(ts, ws);
    PrintReads(ts, ws, false);
    PrintFirst(ts, ws, false);
    PrintLast(ts, ws, false);
    PrintStarts(ts, ws);
    FirstToken(Print(ts, ws, false), ts);
  }

  /** Every script whose words are read out of context has a text, in every spelling
      of its words. */
  lemma ScriptsHaveTexts(s: Script, ws: seq<string>)
    requires ShapedScript(s) && Printable(ScriptTokens(s)) && ScriptTokens(s) != [] && ScriptTokens(s)[0] != Semicolon
    requires Worded(ScriptTokens(s), ws)
    ensures PrintsShape(s, Print(ScriptTokens(s), ws, false))
  {
    hide Print, Printable, Worded, Tokens, StartsWithCode, IsSpace, ShapedScript, ScriptTokens;
    WordedLength(ScriptTokens(s), ws);
    PrintedText(ScriptTokens(s), ws);
  }
}
