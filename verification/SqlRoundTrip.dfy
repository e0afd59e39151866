/** From trees to texts: a text that prints a script of the grammar is one
    statement to the splitter, and joined texts split back into themselves. */
module SqlRoundTrip {
  import opened Text
  import opened SqlLexer
  import opened SqlStatements
  import opened SqlJoin
  import opened SqlGrammar
  import opened SqlGrammarProof

  // ---- top-level statements ----

  /** Outside compound statements, nothing is set but the words. */
  predicate Loose(c: Control, words: seq<Keyword>) {
    !c.compound && c.words == words && c.depth == 0 && !c.atBodyStatement && !c.afterEnd && !c.inHandler
  }

  lemma {:induction false} PlainFeeds(ts: seq<Token>, words: seq<Keyword>, c: Control) returns (c': Control)
    requires Loose(c, words) && GoodPlain(ts, words)
    ensures Feed(c, ts) == Some(c') && !c'.compound
    decreases |ts|
  {
    if ts == [] {
      c' := c;
    } else {
      var c1 := Step(c, ts[0]).value;
      c' := PlainFeeds(ts[1..], c1.words, c1);
    }
  }

  /** Labels in front of a top-level statement. */
  lemma {:induction false} TopLabels(labels: seq<Token>, c: Control) returns (c': Control)
    requires Loose(c, []) && !c.inLabel && GoodLabels(labels)
    ensures Feed(c, labels) == Some(c') && Loose(c', []) && !c'.inLabel
    decreases |labels|
  {
    if labels == [] {
      c' := c;
    } else {
      var c1 := Step(c, labels[0]).value;
      var c2 := Step(c1, labels[1]).value;
      One(c, labels[0]);
      One(c1, labels[1]);
      Compose(c, [labels[0]], c1, [labels[1]], c2);
      c' := TopLabels(labels[2..], c2);
      Compose(c, [labels[0]] + [labels[1]], c2, labels[2..], c');
      assert [labels[0]] + [labels[1]] + labels[2..] == labels;
    }
  }

  /** A top-level block word opens the first block. */
  lemma TopOpens(c: Control, k: Keyword) returns (c': Control)
    requires Loose(c, []) && !c.inLabel && IsBlockKeyword(k)
    ensures Feed(c, [K(k)]) == Some(c') && Opened(c', 0, k) && c'.lastWord == k
  {
    assert IsCompound([] + [k]);
    One(c, K(k));
    c' := Step(c, K(k)).value;
  }

  lemma BeginNotAtomic(c: Control) returns (c': Control)
    requires Loose(c, []) && !c.inLabel
    ensures Feed(c, [K(Begin), K(Not), K(Atomic)]) == Some(c') && InBody(c', 1) && c'.lastWord == Atomic
  {
    var c1 := c.(words := [Begin], lastWord := Begin);
    var c2 := c.(words := [Begin, Not], lastWord := Not);
    assert [] + [Begin] == [Begin] && [Begin] + [Not] == [Begin, Not];
    assert [Begin, Not] + [Atomic] == [Begin, Not, Atomic] && IsCompound([Begin, Not, Atomic]);
    assert Step(c, K(Begin)) == Some(c1) && Step(c1, K(Not)) == Some(c2);
    One(c, K(Begin));
    One(c1, K(Not));
    One(c2, K(Atomic));
    c' := Step(c2, K(Atomic)).value;
    Compose(c, [K(Begin)], c1, [K(Not)], c2);
    Compose(c, [K(Begin)] + [K(Not)], c2, [K(Atomic)], c');
    assert [K(Begin)] + [K(Not)] + [K(Atomic)] == [K(Begin), K(Not), K(Atomic)];
  }

  /** The words of a CREATE statement so far, none of them decisive. */
  predicate Undecided(words: seq<Keyword>) {
    words != [] && words[0].Create? && forall k :: 0 < k < |words| ==> !words[k].Routine? && !words[k].OtherObject?
  }

  lemma {:induction false} UndecidedNames(ws: seq<Keyword>, w: Keyword)
    requires forall k :: 0 <= k < |ws| ==> !ws[k].Routine? && !ws[k].OtherObject?
    ensures NamesRoutine(ws + [w]) == w.Routine?
    decreases |ws|
  {
    if ws == [] {
      assert NamesRoutine([w]) == w.Routine? by { assert [w][1..] == []; }
    } else {
      assert (ws + [w])[1..] == ws[1..] + [w];
      UndecidedNames(ws[1..], w);
    }
  }

  lemma CreateNext(words: seq<Keyword>, w: Keyword)
    requires Undecided(words)
    ensures IsCompound(words + [w]) == w.Routine?
  {
    assert (words + [w])[1..] == words[1..] + [w];
    UndecidedNames(words[1..], w);
  }

  /** The rest of a routine's lead, up to the word that names the routine. */
  lemma {:induction false} LeadFeeds(ts: seq<Token>, c: Control) returns (c': Control)
    requires Undecided(c.words) && Loose(c, c.words) && !c.inLabel
    requires ts != [] && ts[|ts| - 1].WordToken? && ts[|ts| - 1].word.Routine?
    requires forall k :: 0 <= k < |ts| - 1 ==> InLead(ts[k])
    requires |c.words| + Words(ts) <= LEADING
    ensures Feed(c, ts) == Some(c') && StandsAt(c', 0, IN_HEADER) && c'.lastWord == Routine
    decreases |ts|
  {
    var t := ts[0];
    if t.WordToken? { CreateNext(c.words, t.word); }
    var c1 := Step(c, t).value;
    One(c, t);
    assert ts == [t] + ts[1..];
    if |ts| == 1 {
      c' := c1;
      assert [t] == ts;
    } else {
      assert InLead(t);
      c' := LeadFeeds(ts[1..], c1);
      Compose(c, [t], c1, ts[1..], c');
    }
  }

  lemma RoutineFeeds(lead: seq<Token>, c: Control) returns (c': Control)
    requires GoodLead(lead) && c == START
    ensures Feed(c, lead) == Some(c') && StandsAt(c', 0, IN_HEADER) && c'.lastWord == Routine
  {
    var c1 := c.(words := [Create], lastWord := Create);
    assert [] + [Create] == [Create] && !IsCompound([Create]);
    assert Step(c, lead[0]) == Some(c1);
    One(c, lead[0]);
    c' := LeadFeeds(lead[1..], c1);
    Compose(c, [lead[0]], c1, lead[1..], c');
    assert [lead[0]] + lead[1..] == lead;
  }

  /** IF NOT EXISTS right after the routine word is no block. */
  lemma IfNotExists(c: Control, present: bool) returns (c': Control)
    requires StandsAt(c, 0, IN_HEADER) && c.lastWord == Routine
    ensures Feed(c, if present then [K(If)] else []) == Some(c') && StandsAt(c', 0, IN_HEADER)
    ensures c'.lastWord == if present then If else Routine
  {
    if present {
      One(c, K(If));
      c' := Step(c, K(If)).value;
    } else {
      c' := c;
    }
  }

  lemma DoInHeader(c: Control, at: Place) returns (c': Control)
    requires StandsAt(c, 0, at) && SameLevel(at, IN_HEADER)
    ensures Feed(c, [K(Do)]) == Some(c') && StandsAt(c', 0, IN_HEADER.(start := true)) && c'.lastWord == Do
  {
    One(c, K(Do));
    c' := Step(c, K(Do)).value;
  }

  lemma ActionFeeds(a: Action, c: Control, at: Place) returns (c': Control)
    requires StandsAt(c, 0, at) && SameLevel(at, IN_HEADER) && GoodAction(a, at, c.lastWord, true)
    ensures Feed(c, ActionTokens(a)) == Some(c') && Within(c', 0)
  {
    hide Feed, Step, StandsAt, Within, GoodBlock, GoodPhrase, GoodLabels, Opened;
    StandsThere(c, 0, at);
    var start := IN_HEADER.(start := true);
    match a
    case Inline =>
      c' := c;
      Nothings(c);
    case Opens(block) =>
      var c1 := OpensAt(c, 0, Opener(block));
      c' := BlockFeeds(block, c1, 0);
      Compose(c, [K(Opener(block))], c1, BlockTokens(block), c');
    case DoInline(phrase) =>
      var c1 := DoInHeader(c, at);
      c' := PhraseFeeds(phrase, c1, 0, start);
      Compose(c, [K(Do)], c1, PhraseTokens(phrase), c');
      StandsThere(c', 0, AfterPhrase(phrase, start));
    case DoOpens(labels, block) =>
      var c1 := DoInHeader(c, at);
      var c2 := LabelsFeed(labels, c1, 0, start);
      FeedLastWord(c1, labels, c2);
      StandsThere(c2, 0, start);
      var c3 := OpensAt(c2, 0, Opener(block));
      c' := BlockFeeds(block, c3, 0);
      Compose(c2, [K(Opener(block))], c3, BlockTokens(block), c');
      Compose(c1, labels, c2, [K(Opener(block))] + BlockTokens(block), c');
      Compose(c, [K(Do)], c1, labels + ([K(Opener(block))] + BlockTokens(block)), c');
  }

  lemma AtRestWithin(c: Control)
    requires Within(c, 0)
    ensures AtRest(c)
  {
  }

  /** No script of the grammar contains a statement end, and none leaves a
      block open: every ';' inside it stands at block depth one or more. */
  lemma ScriptFeeds(s: Script) returns (c': Control)
    requires GoodScript(s)
    ensures Feed(START, ScriptTokens(s)) == Some(c') && AtRest(c')
  {
    hide Feed, Step, StandsAt, Within, GoodBlock, GoodPhrase, GoodLabels, GoodLead, GoodBody, GoodAction, AtRest,
         InBody, Opened;
    match s
    case Plain(tokens) =>
      c' := PlainFeeds(tokens, [], START);
      assert AtRest(c') by { NotCompound(c'); }
    case RoutineDef(lead, ifNotExists, header, action) =>
      var c1 := RoutineFeeds(lead, START);
      var c2 := IfNotExists(c1, ifNotExists);
      var c3 := PhraseFeeds(header, c2, 0, IN_HEADER);
      FeedLastWord(c2, PhraseTokens(header), c3);
      AfterPhraseSame(header, IN_HEADER);
      c' := ActionFeeds(action, c3, AfterPhrase(header, IN_HEADER));
      var words := if ifNotExists then [K(If)] else [];
      Compose(c2, PhraseTokens(header), c3, ActionTokens(action), c');
      Compose(c1, words, c2, PhraseTokens(header) + ActionTokens(action), c');
      Compose(START, lead, c1, words + (PhraseTokens(header) + ActionTokens(action)), c');
      AtRestWithin(c');
    case Anonymous(labels, body, endLabel) =>
      var c1 := TopLabels(labels, START);
      var c2 := BeginNotAtomic(c1);
      c' := BodyToEnd(body, c2, 0, [], endLabel);
      var inner := BodyTokens(body) + Closing([], endLabel);
      Compose(c1, [K(Begin), K(Not), K(Atomic)], c2, inner, c');
      Compose(START, labels, c1, [K(Begin), K(Not), K(Atomic)] + inner, c');
      AtRestWithin(c');
    case TopLevel(labels, block) =>
      var c1 := TopLabels(labels, START);
      var c2 := TopOpens(c1, Opener(block));
      c' := BlockFeeds(block, c2, 0);
      Compose(c1, [K(Opener(block))], c2, BlockTokens(block), c');
      Compose(START, labels, c1, [K(Opener(block))] + BlockTokens(block), c');
      AtRestWithin(c');
  }

  lemma NotCompound(c: Control)
    requires !c.compound
    ensures AtRest(c)
  {
  }

  // ---- texts ----

  /** The tokens of a text from i on, white space and comments left out; None
      when it is unterminated or a call's parentheses are. */
  function Tokens(x: string, i: nat): Option<seq<Token>>
    requires i <= |x|
    decreases |x| - i
  {
    if i == |x| then Some([])
    else
      match Next(x, i)
      case None => None
      case Some(p) =>
        if OpenCall(x, p) then None
        else
          match Tokens(x, p.to)
          case None => None
          case Some(ts) => Some((if TokenOf(x, p).Nothing? then [] else [TokenOf(x, p)]) + ts)
  }

  predicate OpenCall(x: string, p: Piece)
    requires p.from < p.to <= |x|
  {
    p.kind.Word? && TakesArguments(KeywordOf(Upper(x[p.from..p.to]))) && CallScan(x, p.to).RanOff?
  }

  lemma {:induction false} TokensAlone(x: string, i: nat, c: Control, ts: seq<Token>)
    requires i <= |x| && Tokens(x, i) == Some(ts) && Feed(c, ts).Some?
    ensures Alone(x, i, c) == Feed(c, ts)
    decreases |x| - i
  {
    hide Step, IsBoundary, TokenOf, KeywordOf, Next, OpenCall;
    if i < |x| {
      var p := Next(x, i).value;
      var t := TokenOf(x, p);
      var rest := Tokens(x, p.to).value;
      NothingStep(x, p, c);
      if t.Nothing? {
        assert ts == rest;
        TokensAlone(x, p.to, c, rest);
      } else {
        assert ts[0] == t && ts[1..] == rest;
        TokensAlone(x, p.to, Step(c, t).value, rest);
      }
    }
  }

  lemma NothingStep(x: string, p: Piece, c: Control)
    requires p.from < p.to <= |x| && !OpenCall(x, p)
    ensures !Unsettled(x, p, c)
    ensures TokenOf(x, p).Nothing? ==> Step(c, TokenOf(x, p)) == Some(c) && !IsBoundary(c, TokenOf(x, p))
  {
  }

  /** The text x prints the script s: its tokens are the script's, whatever its
      layout, and it has neither white space nor comments in front. */
  predicate Prints(s: Script, x: string) {
    && GoodScript(s) && Tokens(x, 0) == Some(ScriptTokens(s))
    && StartsWithCode(x) && !IsSpace(x[0]) && !IsSpace(x[|x| - 1])
  }

  lemma PrintIsStatement(s: Script, x: string)
    requires Prints(s, x)
    ensures IsStatement(x)
  {
    hide Feed, Tokens, GoodScript, ScriptTokens, TokenOf, AtRest, Alone, Next, IsSpace;
    var c := ScriptFeeds(s);
    TokensAlone(x, 0, START, ScriptTokens(s));
  }

  /** Splitting undoes printing: printed scripts, joined with ';' and white
      space, split back into exactly the printed texts. */
  lemma SplittingUndoesPrinting(ss: seq<Script>, xs: seq<string>, gap: string)
    requires |ss| == |xs| && forall k :: 0 <= k < |xs| ==> Prints(ss[k], xs[k])
    requires Blank(gap)
    requires forall k :: 0 <= k < |xs| && OpenEnd(xs[k], 0) ==> gap != "" && gap[0] == '\n'
    ensures Split(Join(xs, gap)) == Some(xs)
  {
    hide Prints, OpenEnd, Split, IsStatement;
    forall k | 0 <= k < |xs| ensures IsStatement(xs[k]) {
      PrintIsStatement(ss[k], xs[k]);
    }
    SplitUndoesJoin(xs, gap);
  }
}
