/** The other half: a script whose only fault is an IF statement behind a word such
    as EVENT is never one statement to the splitter.  The tracker, which does not
    see that IF, is one block too low from its END IF on, so that a ';' inside the
    script ends it. */
module SqlHidden {
  import opened Text
  import opened SqlLexer
  import opened SqlStatements
  import opened SqlGrammar
  import opened SqlGrammarProof
  import opened SqlRoundTrip

  function Rest(r: Option<Control>, ts: seq<Token>): Option<Control> {
    match r case None => None case Some(c) => Feed(c, ts)
  }

  lemma {:induction false} FeedAppend(c: Control, a: seq<Token>, b: seq<Token>)
    ensures Feed(c, a + b) == Rest(Feed(c, a), b)
    decreases |a|
  {
    hide Step, IsBoundary;
    if a == [] {
      assert a + b == b;
    } else {
      assert (a + b)[1..] == a[1..] + b;
      if !IsBoundary(c, a[0]) && Step(c, a[0]).Some? { FeedAppend(Step(c, a[0]).value, a[1..], b); }
    }
  }

  // ---- how deep the tracker is at most ----

  /** At most d blocks are open; fewer when not `good`. */
  predicate Below(r: Option<Control>, d: int, good: bool) {
    r.Some? ==> Within(r.value, r.value.depth) && r.value.depth <= d && (!good ==> r.value.depth < d)
  }

  /** The same, where a statement may start. */
  predicate BelowInBody(r: Option<Control>, d: int, good: bool) {
    Below(r, d, good) && (r.Some? ==> InBody(r.value, r.value.depth))
  }

  lemma BelowWithin(c: Control, d: nat)
    requires Within(c, d)
    ensures Below(Some(c), d, true)
  {
  }

  /** The ';' of a statement: with no block open it ends the script. */
  lemma SemicolonBelow(c: Control, e: nat)
    requires Within(c, e)
    ensures e == 0 ==> Feed(c, [Semicolon]) == None
    ensures e > 0 ==> Feed(c, [Semicolon]).Some? && InBody(Feed(c, [Semicolon]).value, e)
                      && Feed(c, [Semicolon]).value.lastWord == c.lastWord
  {
    if e > 0 { var c' := EndOfStatement(c, e); }
  }

  /** An IF that the tracker does not see. */
  lemma UnseenIf(c: Control, d: nat, at: Place) returns (c': Control)
    requires StandsAt(c, d, at) && !at.ended && !at.handler && (at.start || at.top) && c.lastWord.Routine?
    ensures Feed(c, [K(If)]) == Some(c') && StandsAt(c', d, Place(false, false, false, d == 0))
  {
    One(c, K(If));
    c' := Step(c, K(If)).value;
  }

  lemma {:induction false} StmtBelow(s: Stmt, c: Control, d: nat)
    requires InBody(c, d) && GoodStmt(s, c.lastWord, false)
    ensures Below(Feed(c, StmtTokens(s)), d, GoodStmt(s, c.lastWord, true))
    decreases s, 0
  {
    hide Feed, Step, StandsAt, InBody, Opened, Within, GoodBody, GoodPhrase, GoodBlock, Below;
    BodyPlace(c, d);
    match s
    case Simple(phrase) =>
      var c' := PhraseFeeds(phrase, c, d, AT_START);
      StandsWithin(c', d, AfterPhrase(phrase, AT_START));
      BelowWithin(c', d);
    case Nested(labels, block) =>
      var c1 := LabelsFeed(labels, c, d, AT_START);
      FeedLastWord(c, labels, c1);
      StandsThere(c1, d, AT_START);
      FeedAppend(c, labels, [K(Opener(block))] + BlockTokens(block));
      FeedAppend(c1, [K(Opener(block))], BlockTokens(block));
      if block.IfBlock? && c1.lastWord.Routine? {
        var c2 := UnseenIf(c1, d, AT_START);
        InStatement(c2, d);
        IfBelow(block, c2, d);
        Lower(Feed(c2, BlockTokens(block)), d, GoodBlock(block, true));
      } else {
        var c2 := OpensAt(c1, d, Opener(block));
        BlockBelow(block, c2, d);
      }
    case Handle(declare, conditions) =>
      var h := IN_STATEMENT.(handler := true);
      var c1 := Declares(declare, c, d);
      var c' := PhraseFeeds(conditions, c1, d, h);
      Compose(c, PhraseTokens(declare) + [K(Handler)], c1, PhraseTokens(conditions), c');
      assert StmtTokens(s) == PhraseTokens(declare) + [K(Handler)] + PhraseTokens(conditions);
      StandsWithin(c', d, AfterPhrase(conditions, h));
      BelowWithin(c', d);
    case HandleBegin(declare, conditions, block) =>
      var h := IN_STATEMENT.(handler := true);
      var c1 := Declares(declare, c, d);
      var c2 := PhraseFeeds(conditions, c1, d, h);
      AfterPhraseSame(conditions, h);
      StandsThere(c2, d, AfterPhrase(conditions, h));
      var c3 := OpensAt(c2, d, Opener(block));
      BlockBelow(block, c3, d);
      FeedAppend(c2, [K(Opener(block))], BlockTokens(block));
      FeedAppend(c1, PhraseTokens(conditions), [K(Opener(block))] + BlockTokens(block));
      FeedAppend(c, PhraseTokens(declare) + [K(Handler)],
                 PhraseTokens(conditions) + ([K(Opener(block))] + BlockTokens(block)));
      assert StmtTokens(s)
          == PhraseTokens(declare) + [K(Handler)]
              + (PhraseTokens(conditions) + ([K(Opener(block))] + BlockTokens(block)));
  }

  lemma {:induction false} BodyBelow(body: Body, c: Control, d: nat)
    requires InBody(c, d) && GoodBody(body, c.lastWord, false)
    ensures BelowInBody(Feed(c, BodyTokens(body)), d, GoodBody(body, c.lastWord, true))
    decreases body, 0
  {
    hide Feed, Step, StandsAt, InBody, Within, GoodStmt;
    BodyPlace(c, d);
    match body
    case Done =>
      Nothings(c);
    case More(s, rest) =>
      StmtBelow(s, c, d);
      FeedAppend(c, StmtTokens(s), [Semicolon] + BodyTokens(rest));
      var r := Feed(c, StmtTokens(s));
      if r.Some? {
        var c1 := r.value;
        FeedLastWord(c, StmtTokens(s), c1);
        SemicolonBelow(c1, c1.depth);
        FeedAppend(c1, [Semicolon], BodyTokens(rest));
        if c1.depth > 0 { BodyBelow(rest, Feed(c1, [Semicolon]).value, c1.depth); }
      }
  }

  /** A block, from behind the word that opened it. */
  lemma {:induction false} BlockBelow(b: Block, c: Control, d: nat)
    requires Opened(c, d, Opener(b)) && c.lastWord == Opener(b) && GoodBlock(b, false)
    ensures Below(Feed(c, BlockTokens(b)), d, GoodBlock(b, true))
    decreases b, 1
  {
    hide Feed, Step, StandsAt, InBody, Within, Opened, GoodBody, GoodPhrase, BelowInBody, Below;
    OpenedPlace(c, d, Opener(b));
    match b
    case BeginBlock(body, endLabel) =>
      BodyToEndBelow(body, c, d, [], endLabel);
    case IfBlock(cond, body, tail) =>
      IfBelow(b, c, d + 1);
    case CaseBlock(operand, cases) =>
      var c1 := Condition(operand, c, d + 1);
      FeedAppend(c, PhraseTokens(operand), CaseTokens(cases));
      CasesBelow(cases, c1, d);
    case LoopBlock(body, endLabel) =>
      BodyToEndBelow(body, c, d, [K(Loop)], endLabel);
    case WhileBlock(cond, body, endLabel) =>
      var c1 := Condition(cond, c, d + 1);
      var c2 := ToBody(c1, d + 1, Do);
      var inner := BodyTokens(body) + Closing([K(While)], endLabel);
      FeedAppend(c, PhraseTokens(cond), [K(Do)] + inner);
      FeedAppend(c1, [K(Do)], inner);
      BodyToEndBelow(body, c2, d, [K(While)], endLabel);
    case RepeatBlock(body, until, endLabel) =>
      BodyBelow(body, c, d + 1);
      FeedAppend(c, BodyTokens(body), [W] + (PhraseTokens(until) + Closing([K(Repeat)], endLabel)));
      var r := Feed(c, BodyTokens(body));
      if r.Some? {
        var c1 := r.value;
        BodyDepth(r, d + 1, GoodBody(body, Repeat, true));
        BodyPlace(c1, c1.depth);
        var c2 := PlainWord(c1, c1.depth);
        var c3 := Condition(until, c2, c1.depth);
        var c' := Ends(c3, c1.depth - 1, [K(Repeat)], endLabel);
        Compose(c2, PhraseTokens(until), c3, Closing([K(Repeat)], endLabel), c');
        Compose(c1, [W], c2, PhraseTokens(until) + Closing([K(Repeat)], endLabel), c');
        BelowOne(r, d + 1, GoodBody(body, Repeat, true), c');
      } else {
        NoneBelow(d, GoodBlock(b, true));
      }
  }

  lemma InStatement(c: Control, d: nat)
    requires StandsAt(c, d, Place(false, false, false, d == 0)) && d > 0
    ensures StandsAt(c, d, IN_STATEMENT)
  {
  }

  lemma Lower(r: Option<Control>, d: nat, good: bool)
    requires Below(r, d - 1, good)
    ensures Below(r, d, false)
  {
  }

  lemma NoneBelow(d: int, good: bool)
    ensures Below(None, d, good) && BelowInBody(None, d, good)
  {
  }

  lemma BodyDepth(r: Option<Control>, d: int, good: bool)
    requires BelowInBody(r, d, good) && r.Some?
    ensures InBody(r.value, r.value.depth) && 0 < r.value.depth <= d && (!good ==> r.value.depth < d)
  {
  }

  /** One END further. */
  lemma BelowOne(r: Option<Control>, d: int, good: bool, c': Control)
    requires BelowInBody(r, d, good) && r.Some? && Within(c', r.value.depth - 1)
    ensures Below(Some(c'), d - 1, good)
  {
  }

  lemma {:induction false} BodyToEndBelow(body: Body, c: Control, d: nat, words: seq<Token>, endLabel: seq<Token>)
    requires InBody(c, d + 1) && GoodBody(body, c.lastWord, false) && GoodEndLabel(endLabel)
    requires words == [] || (|words| == 1 && exists k :: IsBlockKeyword(k) && words[0] == K(k))
    ensures Below(Feed(c, BodyTokens(body) + Closing(words, endLabel)), d, GoodBody(body, c.lastWord, true))
    decreases body, 1
  {
    hide Feed, Step, StandsAt, InBody, Within, GoodBody, GoodEndLabel, BelowInBody, Below;
    BodyBelow(body, c, d + 1);
    FeedAppend(c, BodyTokens(body), Closing(words, endLabel));
    var r := Feed(c, BodyTokens(body));
    if r.Some? {
      var c1 := r.value;
      BodyDepth(r, d + 1, GoodBody(body, c.lastWord, true));
      BodyPlace(c1, c1.depth);
      var c' := Ends(c1, c1.depth - 1, words, endLabel);
      BelowOne(r, d + 1, GoodBody(body, c.lastWord, true), c');
    } else {
      NoneBelow(d, GoodBody(body, c.lastWord, true));
    }
  }

  /** A condition and THEN, in front of more tokens. */
  lemma ToThen(cond: Phrase, c: Control, e: nat, rest: seq<Token>) returns (c': Control)
    requires StandsAt(c, e, IN_STATEMENT) && e > 0 && GoodPhrase(cond, IN_STATEMENT)
    ensures InBody(c', e) && c'.lastWord == Then
    ensures Feed(c, PhraseTokens(cond) + ([K(Then)] + rest)) == Feed(c', rest)
  {
    hide Feed, Step, StandsAt, InBody, Within, GoodPhrase;
    var c1 := Condition(cond, c, e);
    c' := ToBody(c1, e, Then);
    FeedAppend(c, PhraseTokens(cond), [K(Then)] + rest);
    FeedAppend(c1, [K(Then)], rest);
  }

  /** A body and what follows it. */
  lemma BodyThen(c: Control, body: seq<Token>, rest: seq<Token>, e: int, good: bool, more: bool)
    requires BelowInBody(Feed(c, body), e, good)
    requires Feed(c, body).Some? ==> Below(Feed(Feed(c, body).value, rest), Feed(c, body).value.depth - 1, more)
    ensures Below(Feed(c, body + rest), e - 1, good && more)
  {
    FeedAppend(c, body, rest);
    hide Feed, InBody;
  }

  /** From behind IF, e blocks being open (its own too if the tracker saw it). */
  lemma {:induction false} IfBelow(b: Block, c: Control, e: nat)
    requires StandsAt(c, e, IN_STATEMENT) && e > 0 && b.IfBlock? && GoodBlock(b, false)
    ensures Below(Feed(c, BlockTokens(b)), e - 1, GoodBlock(b, true))
    decreases b, 0
  {
    hide Feed, Step, StandsAt, InBody, Within, GoodBody, GoodPhrase, BelowInBody, Below;
    var body, tail := b.body, b.tail;
    var c1 := ToThen(b.cond, c, e, BodyTokens(body) + IfTailTokens(tail));
    BodyBelow(body, c1, e);
    var r := Feed(c1, BodyTokens(body));
    if r.Some? {
      BodyDepth(r, e, GoodBody(body, Then, true));
      IfTailBelow(tail, r.value, r.value.depth - 1);
    }
    BodyThen(c1, BodyTokens(body), IfTailTokens(tail), e, GoodBody(body, Then, true), GoodIfTail(tail, true));
  }

  lemma {:induction false} IfTailBelow(tail: IfTail, c: Control, d: nat)
    requires InBody(c, d + 1) && GoodIfTail(tail, false)
    ensures Below(Feed(c, IfTailTokens(tail)), d, GoodIfTail(tail, true))
    decreases tail, 0
  {
    hide Feed, Step, StandsAt, InBody, Within, GoodBody, GoodPhrase, BelowInBody, Below;
    BodyPlace(c, d + 1);
    match tail
    case EndIf =>
      var c' := Ends(c, d, [K(If)], []);
      BelowWithin(c', d);
    case ElsePart(body) =>
      var c1 := ToBody(c, d + 1, Else);
      FeedAppend(c, [K(Else)], BodyTokens(body) + Closing([K(If)], []));
      BodyToEndBelow(body, c1, d, [K(If)], []);
    case ElseIf(cond, body, more) =>
      var c0 := PlainWord(c, d + 1);
      FeedAppend(c, [W], PhraseTokens(cond) + ([K(Then)] + (BodyTokens(body) + IfTailTokens(more))));
      var c1 := ToThen(cond, c0, d + 1, BodyTokens(body) + IfTailTokens(more));
      BodyBelow(body, c1, d + 1);
      var r := Feed(c1, BodyTokens(body));
      if r.Some? {
        BodyDepth(r, d + 1, GoodBody(body, Then, true));
        IfTailBelow(more, r.value, r.value.depth - 1);
      }
      BodyThen(c1, BodyTokens(body), IfTailTokens(more), d + 1, GoodBody(body, Then, true), GoodIfTail(more, true));
  }

  lemma {:induction false} CasesBelow(cases: Cases, c: Control, d: nat)
    requires Within(c, d + 1) && !c.inHandler && GoodCases(cases, false)
    ensures Below(Feed(c, CaseTokens(cases)), d, GoodCases(cases, true))
    decreases cases, 0
  {
    hide Feed, Step, StandsAt, InBody, Within, GoodBody, GoodPhrase, BelowInBody, Below;
    match cases
    case EndCase =>
      var c' := Ends(c, d, [K(Case)], []);
      BelowWithin(c', d);
    case CaseElse(body) =>
      var c1 := ToBody(c, d + 1, Else);
      FeedAppend(c, [K(Else)], BodyTokens(body) + Closing([K(Case)], []));
      BodyToEndBelow(body, c1, d, [K(Case)], []);
    case When(cond, body, more) =>
      var c0 := PlainWord(c, d + 1);
      FeedAppend(c, [W], PhraseTokens(cond) + ([K(Then)] + (BodyTokens(body) + CaseTokens(more))));
      var c1 := ToThen(cond, c0, d + 1, BodyTokens(body) + CaseTokens(more));
      BodyBelow(body, c1, d + 1);
      var r := Feed(c1, BodyTokens(body));
      if r.Some? {
        BodyDepth(r, d + 1, GoodBody(body, Then, true));
        BodyPlace(r.value, r.value.depth);
        CasesBelow(more, r.value, r.value.depth - 1);
      }
      BodyThen(c1, BodyTokens(body), CaseTokens(more), d + 1, GoodBody(body, Then, true), GoodCases(more, true));
  }

  // ---- an IF that is all a routine does, not seen either ----

  const TOP_START := IN_HEADER.(start := true)

  /** The tokens up to the first ';' or END hold no word that would open a block
      here, where none is open; `last` is the word before them. */
  predicate BareStmt(s: Stmt, last: Keyword) {
    match s
    case Simple(phrase) => GoodPhrase(phrase, TOP_START)
    case Nested(labels, block) => block.IfBlock? && LastWord(labels, last).Routine? ==> BareIf(block)
    case Handle(declare, conditions) =>
      GoodPhrase(declare, TOP_START) && GoodPhrase(conditions, IN_HEADER.(handler := true))
    case HandleBegin(declare, conditions, block) =>
      && GoodPhrase(declare, TOP_START) && GoodPhrase(conditions, IN_HEADER.(handler := true))
      && !AfterPhrase(conditions, IN_HEADER.(handler := true)).ended
  }

  predicate BareBody(body: Body, last: Keyword) {
    body.More? ==> BareStmt(body.stmt, last)
  }

  predicate BareIf(b: Block)
    requires b.IfBlock?
  {
    GoodPhrase(b.cond, IN_HEADER) && BareBody(b.body, Then) && (b.body.Done? ==> BareTail(b.tail))
  }

  predicate BareTail(tail: IfTail) {
    match tail
    case EndIf => true
    case ElsePart(body) => BareBody(body, Else)
    case ElseIf(cond, body, more) =>
      GoodPhrase(cond, IN_HEADER) && BareBody(body, Then) && (body.Done? ==> BareTail(more))
  }

  lemma TopWord(c: Control, at: Place, k: Keyword) returns (c': Control)
    requires StandsAt(c, 0, at) && !at.handler && (k.Then? || k.Else?)
    ensures Feed(c, [K(k)]) == Some(c') && StandsAt(c', 0, TOP_START) && c'.lastWord == k
  {
    One(c, K(k));
    c' := Step(c, K(k)).value;
  }

  lemma TopPlain(c: Control, at: Place) returns (c': Control)
    requires StandsAt(c, 0, at) && !at.handler
    ensures Feed(c, [W]) == Some(c') && StandsAt(c', 0, IN_HEADER)
  {
    One(c, W);
    c' := Step(c, W).value;
  }

  lemma TopHandler(c: Control, at: Place) returns (c': Control)
    requires StandsAt(c, 0, at)
    ensures Feed(c, [K(Handler)]) == Some(c') && StandsAt(c', 0, IN_HEADER.(handler := true))
  {
    One(c, K(Handler));
    c' := Step(c, K(Handler)).value;
  }

  /** An END where no block is open. */
  lemma TopEnd(c: Control, at: Place, ts: seq<Token>)
    requires StandsAt(c, 0, at) && ts != [] && ts[0] == K(End)
    ensures Feed(c, ts) == None
  {
  }

  lemma ClosingFirst(words: seq<Token>)
    ensures Closing(words, []) != [] && Closing(words, [])[0] == K(End)
  {
  }

  lemma {:induction false} BareStmtBelow(s: Stmt, c: Control)
    requires StandsAt(c, 0, TOP_START) && GoodStmt(s, c.lastWord, false) && BareStmt(s, c.lastWord)
    ensures Below(Feed(c, StmtTokens(s)), 0, true)
    decreases s, 0
  {
    hide Feed, Step, StandsAt, InBody, Opened, Within, GoodBody, GoodPhrase, GoodBlock, Below, BareIf;
    StandsThere(c, 0, TOP_START);
    match s
    case Simple(phrase) =>
      var c' := PhraseFeeds(phrase, c, 0, TOP_START);
      StandsWithin(c', 0, AfterPhrase(phrase, TOP_START));
      BelowWithin(c', 0);
    case Nested(labels, block) =>
      var c1 := LabelsFeed(labels, c, 0, TOP_START);
      FeedLastWord(c, labels, c1);
      StandsThere(c1, 0, TOP_START);
      FeedAppend(c, labels, [K(Opener(block))] + BlockTokens(block));
      FeedAppend(c1, [K(Opener(block))], BlockTokens(block));
      if block.IfBlock? && c1.lastWord.Routine? {
        var c2 := UnseenIf(c1, 0, TOP_START);
        BareIfDies(block, c2);
        NoneBelow(0, true);
      } else {
        var c2 := OpensAt(c1, 0, Opener(block));
        BlockBelow(block, c2, 0);
        BelowMore(Feed(c2, BlockTokens(block)), 0, GoodBlock(block, true));
      }
    case Handle(declare, conditions) =>
      var h := IN_HEADER.(handler := true);
      var c0 := PhraseFeeds(declare, c, 0, TOP_START);
      var c1 := TopHandler(c0, AfterPhrase(declare, TOP_START));
      var c' := PhraseFeeds(conditions, c1, 0, h);
      Compose(c0, [K(Handler)], c1, PhraseTokens(conditions), c');
      Compose(c, PhraseTokens(declare), c0, [K(Handler)] + PhraseTokens(conditions), c');
      StandsWithin(c', 0, AfterPhrase(conditions, h));
      BelowWithin(c', 0);
    case HandleBegin(declare, conditions, block) =>
      var h := IN_HEADER.(handler := true);
      var c0 := PhraseFeeds(declare, c, 0, TOP_START);
      var c1 := TopHandler(c0, AfterPhrase(declare, TOP_START));
      var c2 := PhraseFeeds(conditions, c1, 0, h);
      AfterPhraseSame(conditions, h);
      StandsThere(c2, 0, AfterPhrase(conditions, h));
      var c3 := OpensAt(c2, 0, Opener(block));
      BlockBelow(block, c3, 0);
      BelowMore(Feed(c3, BlockTokens(block)), 0, GoodBlock(block, true));
      FeedAppend(c2, [K(Opener(block))], BlockTokens(block));
      FeedAppend(c1, PhraseTokens(conditions), [K(Opener(block))] + BlockTokens(block));
      FeedAppend(c0, [K(Handler)], PhraseTokens(conditions) + ([K(Opener(block))] + BlockTokens(block)));
      FeedAppend(c, PhraseTokens(declare),
                 [K(Handler)] + (PhraseTokens(conditions) + ([K(Opener(block))] + BlockTokens(block))));
  }

  lemma BelowMore(r: Option<Control>, d: int, good: bool)
    requires Below(r, d, good)
    ensures Below(r, d, true)
  {
  }

  /** The first statement's ';' or the next END comes while no block is open. */
  lemma {:induction false} BareBodyDies(body: Body, c: Control, more: seq<Token>)
    requires StandsAt(c, 0, TOP_START) && body.More? && GoodBody(body, c.lastWord, false) && BareBody(body, c.lastWord)
    ensures Feed(c, BodyTokens(body) + more) == None
    decreases body, 0
  {
    hide Feed, StandsAt, Within, GoodStmt, BareStmt;
    var s := body.stmt;
    BareStmtBelow(s, c);
    FeedAppend(c, BodyTokens(body), more);
    FeedAppend(c, StmtTokens(s), [Semicolon] + BodyTokens(body.rest));
    var r := Feed(c, StmtTokens(s));
    if r.Some? {
      SemicolonBelow(r.value, 0);
      FeedAppend(r.value, [Semicolon], BodyTokens(body.rest));
    }
  }

  lemma {:induction false} BareIfDies(b: Block, c: Control)
    requires StandsAt(c, 0, IN_HEADER) && b.IfBlock? && GoodBlock(b, false) && BareIf(b)
    ensures Feed(c, BlockTokens(b)) == None
    decreases b, 1
  {
    hide Feed, Step, StandsAt, GoodBody, GoodPhrase, BareBody, BareTail, GoodIfTail;
    if b.body.More? {
      var c2 := TopThen(b.cond, c, BodyTokens(b.body) + IfTailTokens(b.tail));
      BareBodyDies(b.body, c2, IfTailTokens(b.tail));
    } else {
      var c2 := TopThen(b.cond, c, BodyTokens(b.body) + IfTailTokens(b.tail));
      assert BodyTokens(b.body) + IfTailTokens(b.tail) == IfTailTokens(b.tail);
      BareTailDies(b.tail, c2);
    }
  }

  lemma TopThen(cond: Phrase, c: Control, rest: seq<Token>) returns (c': Control)
    requires StandsAt(c, 0, IN_HEADER) && GoodPhrase(cond, IN_HEADER)
    ensures StandsAt(c', 0, TOP_START) && c'.lastWord == Then
    ensures Feed(c, PhraseTokens(cond) + ([K(Then)] + rest)) == Feed(c', rest)
  {
    hide Feed, Step, StandsAt, GoodPhrase;
    var c1 := PhraseFeeds(cond, c, 0, IN_HEADER);
    AfterPhraseSame(cond, IN_HEADER);
    c' := TopWord(c1, AfterPhrase(cond, IN_HEADER), Then);
    FeedAppend(c, PhraseTokens(cond), [K(Then)] + rest);
    FeedAppend(c1, [K(Then)], rest);
  }

  lemma {:induction false} BareTailDies(tail: IfTail, c: Control)
    requires StandsAt(c, 0, TOP_START) && GoodIfTail(tail, false) && BareTail(tail)
    ensures Feed(c, IfTailTokens(tail)) == None
    decreases tail, 0
  {
    hide Feed, Step, StandsAt, GoodBody, GoodPhrase, BareBody;
    ClosingFirst([K(If)]);
    match tail
    case EndIf =>
      TopEnd(c, TOP_START, IfTailTokens(tail));
    case ElsePart(body) =>
      var c1 := TopWord(c, TOP_START, Else);
      FeedAppend(c, [K(Else)], BodyTokens(body) + Closing([K(If)], []));
      if body.More? {
        BareBodyDies(body, c1, Closing([K(If)], []));
      } else {
        assert BodyTokens(body) + Closing([K(If)], []) == Closing([K(If)], []);
        TopEnd(c1, TOP_START, Closing([K(If)], []));
      }
    case ElseIf(cond, body, more) =>
      var c0 := TopPlain(c, TOP_START);
      FeedAppend(c, [W], PhraseTokens(cond) + ([K(Then)] + (BodyTokens(body) + IfTailTokens(more))));
      var c1 := TopThen(cond, c0, BodyTokens(body) + IfTailTokens(more));
      if body.More? {
        BareBodyDies(body, c1, IfTailTokens(more));
      } else {
        assert BodyTokens(body) + IfTailTokens(more) == IfTailTokens(more);
        BareTailDies(more, c1);
      }
  }

  // ---- scripts ----

  /** As a script of the grammar, but for IF statements the tracker may not see;
      when it does not see the IF that is all a routine does, the words behind that
      IF must not open a block in its place (see NotHidden). */
  predicate ShapedScript(s: Script) {
    WellFormed(s, false) &&
    (s.RoutineDef? ==>
       var last := LastWord(PhraseTokens(s.header), if s.ifNotExists then If else Routine);
       match s.action
       case Opens(block) => block.IfBlock? && last.Routine? ==> BareIf(block)
       case DoOpens(labels, block) => block.IfBlock? && LastWord(labels, Do).Routine? ==> BareIf(block)
       case _ => true)
  }

  lemma NotBelowZero(r: Option<Control>)
    requires Below(r, 0, false)
    ensures r == None
  {
  }

  lemma TopPlace(c: Control, d: nat, at: Place)
    requires StandsAt(c, 0, at) && d == 0 && at == Place(false, false, false, d == 0)
    ensures StandsAt(c, 0, IN_HEADER)
  {
  }

  /** A block that a routine opens, or an IF that the tracker does not see. */
  lemma TopBlockDies(block: Block, c: Control, at: Place)
    requires StandsAt(c, 0, at) && SameLevel(at, IN_HEADER) && !at.ended && GoodBlock(block, false)
    requires block.IfBlock? && c.lastWord.Routine? ==> BareIf(block)
    requires !GoodBlock(block, true) || (block.IfBlock? && c.lastWord.Routine?)
    ensures Feed(c, [K(Opener(block))] + BlockTokens(block)) == None
  {
    hide Feed, Step, StandsAt, GoodBlock, BareIf, Below, Opened, Within;
    StandsThere(c, 0, at);
    FeedAppend(c, [K(Opener(block))], BlockTokens(block));
    if block.IfBlock? && c.lastWord.Routine? {
      var c1 := UnseenIf(c, 0, at);
      TopPlace(c1, 0, Place(false, false, false, true));
      BareIfDies(block, c1);
    } else {
      var c1 := OpensAt(c, 0, Opener(block));
      BlockBelow(block, c1, 0);
      NotBelowZero(Feed(c1, BlockTokens(block)));
    }
  }

  lemma ActionDies(a: Action, c: Control, at: Place)
    requires StandsAt(c, 0, at) && SameLevel(at, IN_HEADER)
    requires GoodAction(a, at, c.lastWord, false) && !GoodAction(a, at, c.lastWord, true)
    requires a.Opens? && a.block.IfBlock? && c.lastWord.Routine? ==> BareIf(a.block)
    requires a.DoOpens? && a.block.IfBlock? && LastWord(a.labels, Do).Routine? ==> BareIf(a.block)
    ensures Feed(c, ActionTokens(a)) == None
  {
    hide Feed, Step, StandsAt, GoodBlock, BareIf, GoodPhrase, GoodLabels;
    match a
    case Opens(block) =>
      TopBlockDies(block, c, at);
    case DoOpens(labels, block) =>
      var c1 := DoInHeader(c, at);
      var c2 := LabelsFeed(labels, c1, 0, TOP_START);
      FeedLastWord(c1, labels, c2);
      FeedAppend(c, [K(Do)], labels + ([K(Opener(block))] + BlockTokens(block)));
      FeedAppend(c1, labels, [K(Opener(block))] + BlockTokens(block));
      TopBlockDies(block, c2, TOP_START);
    case _ =>
  }

  /** A script with an IF that the tracker does not see contains a statement end,
      or closes a block that none opened. */
  lemma HiddenDies(s: Script)
    requires ShapedScript(s) && !GoodScript(s)
    ensures Feed(START, ScriptTokens(s)) == None
  {
    hide Feed, Step, StandsAt, Within, GoodBlock, GoodPhrase, GoodLabels, GoodLead, GoodBody, GoodAction, InBody,
         Opened, Below, BareIf;
    match s
    case Plain(tokens) =>
    case RoutineDef(lead, ifNotExists, header, action) =>
      var c1 := RoutineFeeds(lead, START);
      var c2 := IfNotExists(c1, ifNotExists);
      var c3 := PhraseFeeds(header, c2, 0, IN_HEADER);
      FeedLastWord(c2, PhraseTokens(header), c3);
      AfterPhraseSame(header, IN_HEADER);
      ActionDies(action, c3, AfterPhrase(header, IN_HEADER));
      var words := if ifNotExists then [K(If)] else [];
      FeedAppend(START, lead, words + (PhraseTokens(header) + ActionTokens(action)));
      FeedAppend(c1, words, PhraseTokens(header) + ActionTokens(action));
      FeedAppend(c2, PhraseTokens(header), ActionTokens(action));
    case Anonymous(labels, body, endLabel) =>
      var c1 := TopLabels(labels, START);
      var c2 := BeginNotAtomic(c1);
      var inner := BodyTokens(body) + Closing([], endLabel);
      BodyToEndBelow(body, c2, 0, [], endLabel);
      NotBelowZero(Feed(c2, inner));
      FeedAppend(START, labels, [K(Begin), K(Not), K(Atomic)] + inner);
      FeedAppend(c1, [K(Begin), K(Not), K(Atomic)], inner);
    case TopLevel(labels, block) =>
      var c1 := TopLabels(labels, START);
      var c2 := TopOpens(c1, Opener(block));
      BlockBelow(block, c2, 0);
      NotBelowZero(Feed(c2, BlockTokens(block)));
      FeedAppend(START, labels, [K(Opener(block))] + BlockTokens(block));
      FeedAppend(c1, [K(Opener(block))], BlockTokens(block));
  }

  /** A script is one statement to the tracker exactly when it sees every IF. */
  lemma FeedsExactly(s: Script)
    requires ShapedScript(s)
    ensures Feed(START, ScriptTokens(s)).Some? <==> GoodScript(s)
  {
    if GoodScript(s) { var c := ScriptFeeds(s); } else { HiddenDies(s); }
  }
}
