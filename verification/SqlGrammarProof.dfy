/** The block tracker follows the grammar: every tree leaves it where it was,
    and no ';' inside ends the statement. */
module SqlGrammarProof {
  import opened Text
  import opened SqlLexer
  import opened SqlStatements
  import opened SqlGrammar

  /** The control state after tokens that contain no statement end. */
  function Feed(c: Control, ts: seq<Token>): Option<Control>
    decreases |ts|
  {
    if ts == [] then Some(c)
    else if IsBoundary(c, ts[0]) then None
    else
      match Step(c, ts[0])
      case None => None
      case Some(c') => Feed(c', ts[1..])
  }

  lemma {:induction false} Compose(c: Control, a: seq<Token>, c1: Control, b: seq<Token>, c2: Control)
    requires Feed(c, a) == Some(c1) && Feed(c1, b) == Some(c2)
    ensures Feed(c, a + b) == Some(c2)
    decreases |a|
  {
    hide Step, IsBoundary;
    if a == [] {
      assert a + b == b;
    } else {
      assert (a + b)[1..] == a[1..] + b;
      Compose(Step(c, a[0]).value, a[1..], c1, b, c2);
    }
  }

  lemma One(c: Control, t: Token)
    requires t != Semicolon && Step(c, t).Some?
    ensures Feed(c, [t]) == Some(Step(c, t).value)
  {
    hide Step;
    assert Feed(Step(c, t).value, [t][1..]) == Some(Step(c, t).value);
  }

  /** Inside a compound statement, d blocks open. */
  predicate Within(c: Control, d: nat) {
    c.compound && !c.inLabel && c.depth == d
  }

  predicate StandsAt(c: Control, d: nat, at: Place) {
    && Within(c, d) && c.atBodyStatement == at.start && c.afterEnd == at.ended
    && c.inHandler == at.handler && (d == 0) == at.top && !(at.start && at.ended)
  }

  /** In a body, where a statement may start. */
  predicate InBody(c: Control, d: nat) {
    d > 0 && StandsAt(c, d, AT_START)
  }

  /** Just behind the word that opened block b at depth d. */
  predicate Opened(c: Control, d: nat, b: Keyword) {
    Within(c, d + 1) && c.atBodyStatement == (b.Begin? || b.Loop? || b.Repeat?) && !c.afterEnd && !c.inHandler
  }

  // ---- single words ----

  lemma ToBody(c: Control, d: nat, k: Keyword) returns (c': Control)
    requires Within(c, d) && d > 0 && !c.inHandler && k in [Then, Else, Do]
    ensures Feed(c, [K(k)]) == Some(c') && InBody(c', d) && c'.lastWord == k
  {
    One(c, K(k));
    c' := Step(c, K(k)).value;
  }

  lemma PlainWord(c: Control, d: nat) returns (c': Control)
    requires Within(c, d) && d > 0 && !c.inHandler
    ensures Feed(c, [W]) == Some(c') && StandsAt(c', d, IN_STATEMENT)
  {
    One(c, W);
    c' := Step(c, W).value;
  }

  /** END, with the keyword of the block and its label if they are there. */
  lemma Ends(c: Control, d: nat, words: seq<Token>, endLabel: seq<Token>) returns (c': Control)
    requires Within(c, d + 1) && !c.inHandler && GoodEndLabel(endLabel)
    requires words == [] || (|words| == 1 && exists k :: IsBlockKeyword(k) && words[0] == K(k))
    ensures Feed(c, Closing(words, endLabel)) == Some(c') && Within(c', d)
  {
    One(c, K(End));
    c' := Step(c, K(End)).value;
    var ts := [K(End)];
    if words != [] {
      One(c', words[0]);
      Compose(c, ts, c', words, Step(c', words[0]).value);
      c' := Step(c', words[0]).value;
      assert words == [words[0]];
    }
    assert ts + words == [K(End)] + words;
    if endLabel != [] {
      assert endLabel == [endLabel[0]];
      One(c', endLabel[0]);
      Compose(c, ts + words, c', endLabel, Step(c', endLabel[0]).value);
      c' := Step(c', endLabel[0]).value;
    } else {
      assert ts + words + endLabel == ts + words;
    }
  }

  lemma OpensAt(c: Control, d: nat, b: Keyword) returns (c': Control)
    requires Within(c, d) && !c.afterEnd && b in [Begin, If, Case, Loop, While, Repeat]
    requires c.atBodyStatement || c.inHandler || d == 0
    requires c.inHandler ==> b.Begin?
    requires b.If? ==> !c.lastWord.Routine?
    ensures Feed(c, [K(b)]) == Some(c') && Opened(c', d, b) && c'.lastWord == b
  {
    One(c, K(b));
    c' := Step(c, K(b)).value;
  }

  // ---- phrases ----

  lemma AtomStep(c: Control, d: nat, t: Token, at: Place)
    requires StandsAt(c, d, at) && Harmless(t, at)
    ensures t != Semicolon && Step(c, t).Some? && StandsAt(Step(c, t).value, d, After(t, at))
  {
  }

  lemma {:induction false} PhraseFeeds(ph: Phrase, c: Control, d: nat, at: Place) returns (c': Control)
    requires StandsAt(c, d, at) && GoodPhrase(ph, at)
    ensures Feed(c, PhraseTokens(ph)) == Some(c') && StandsAt(c', d, AfterPhrase(ph, at))
  {
    hide Step, StandsAt, Harmless, Feed;
    match ph
    case Empty =>
      c' := c;
      Nothings(c);
    case Atom(t, rest) =>
      AtomStep(c, d, t, at);
      One(c, t);
      c' := PhraseFeeds(rest, Step(c, t).value, d, After(t, at));
      Compose(c, [t], Step(c, t).value, PhraseTokens(rest), c');
    case CaseExpr(operand, arms, rest) =>
      var c0 := CaseOpens(c, d, at);
      var c1 := PhraseFeeds(operand, c0, d + 1, Inner(at));
      var at1 := AfterPhrase(operand, Inner(at));
      AfterPhraseSame(operand, Inner(at));
      var c2 := ArmsFeed(arms, c1, d + 1, at1);
      StandsWithin(c, d, at);
      var c3 := CaseEnds(c2, d, at);
      c' := PhraseFeeds(rest, c3, d, at.(start := false, ended := true));
      Compose(c2, [K(End)], c3, PhraseTokens(rest), c');
      Compose(c1, ArmTokens(arms), c2, [K(End)] + PhraseTokens(rest), c');
      Compose(c0, PhraseTokens(operand), c1, ArmTokens(arms) + ([K(End)] + PhraseTokens(rest)), c');
      Compose(c, [K(Case)], c0, PhraseTokens(operand) + (ArmTokens(arms) + ([K(End)] + PhraseTokens(rest))), c');
  }

  lemma Nothings(c: Control)
    ensures Feed(c, []) == Some(c)
  {
  }

  /** Same blocks, same handler: what every phrase keeps. */
  predicate SameLevel(a: Place, b: Place) {
    a.handler == b.handler && a.top == b.top
  }

  lemma {:induction false} AfterPhraseSame(ph: Phrase, at: Place)
    ensures SameLevel(AfterPhrase(ph, at), at)
    ensures !at.start ==> !AfterPhrase(ph, at).start
  {
    match ph
    case Empty =>
    case Atom(t, rest) => AfterPhraseSame(rest, After(t, at));
    case CaseExpr(_, _, rest) => AfterPhraseSame(rest, at.(start := false, ended := true));
  }

  lemma CaseOpens(c: Control, d: nat, at: Place) returns (c': Control)
    requires StandsAt(c, d, at) && !at.ended
    ensures Feed(c, [K(Case)]) == Some(c') && StandsAt(c', d + 1, Inner(at))
  {
    One(c, K(Case));
    c' := Step(c, K(Case)).value;
  }

  lemma CaseEnds(c: Control, d: nat, at: Place) returns (c': Control)
    requires Within(c, d + 1) && c.inHandler == at.handler && (d == 0) == at.top
    ensures Feed(c, [K(End)]) == Some(c') && StandsAt(c', d, at.(start := false, ended := true))
  {
    One(c, K(End));
    c' := Step(c, K(End)).value;
  }

  /** WHEN inside a CASE expression. */
  lemma WordIn(c: Control, d: nat, at: Place) returns (c': Control)
    requires Within(c, d) && d > 0 && c.inHandler == at.handler
    ensures Feed(c, [W]) == Some(c') && StandsAt(c', d, Inner(at))
  {
    One(c, W);
    c' := Step(c, W).value;
  }

  lemma ThenIn(c: Control, d: nat, at: Place, k: Keyword) returns (c': Control)
    requires Within(c, d) && d > 0 && c.inHandler == at.handler && (k.Then? || k.Else?)
    ensures Feed(c, [K(k)]) == Some(c') && StandsAt(c', d, Inner(at).(start := true))
  {
    One(c, K(k));
    c' := Step(c, K(k)).value;
  }

  lemma StandsWithin(c: Control, d: nat, at: Place)
    requires StandsAt(c, d, at)
    ensures Within(c, d) && c.inHandler == at.handler && (d == 0) == at.top
  {
  }

  lemma {:induction false} ArmsFeed(arms: Arms, c: Control, d: nat, at: Place) returns (c': Control)
    requires StandsAt(c, d, at) && d > 0 && GoodArms(arms, Inner(at))
    ensures Feed(c, ArmTokens(arms)) == Some(c') && Within(c', d) && c'.inHandler == at.handler
  {
    hide Step, StandsAt, Harmless, Feed, Within;
    StandsWithin(c, d, at);
    var inner := Inner(at).(start := true);
    match arms
    case NoElse =>
      c' := c;
      Nothings(c);
    case ElseArm(value) =>
      var c1 := ThenIn(c, d, at, Else);
      c' := PhraseFeeds(value, c1, d, inner);
      Compose(c, [K(Else)], c1, PhraseTokens(value), c');
      AfterPhraseSame(value, inner);
      StandsWithin(c', d, AfterPhrase(value, inner));
    case WhenArm(cond, value, more) =>
      var c1 := WordIn(c, d, at);
      var c2 := PhraseFeeds(cond, c1, d, Inner(at));
      AfterPhraseSame(cond, Inner(at));
      StandsWithin(c2, d, AfterPhrase(cond, Inner(at)));
      var c3 := ThenIn(c2, d, at, Then);
      var c4 := PhraseFeeds(value, c3, d, inner);
      AfterPhraseSame(value, inner);
      c' := ArmsFeed(more, c4, d, AfterPhrase(value, inner));
      Compose(c3, PhraseTokens(value), c4, ArmTokens(more), c');
      Compose(c2, [K(Then)], c3, PhraseTokens(value) + ArmTokens(more), c');
      Compose(c1, PhraseTokens(cond), c2, [K(Then)] + (PhraseTokens(value) + ArmTokens(more)), c');
      Compose(c, [W], c1, PhraseTokens(cond) + ([K(Then)] + (PhraseTokens(value) + ArmTokens(more))), c');
  }

  // ---- blocks and bodies ----

  lemma BodyPlace(c: Control, d: nat)
    requires InBody(c, d)
    ensures d > 0 && StandsAt(c, d, AT_START) && Within(c, d) && !c.inHandler && !c.afterEnd && c.atBodyStatement
  {
  }

  lemma OpenedPlace(c: Control, d: nat, k: Keyword)
    requires Opened(c, d, k)
    ensures Within(c, d + 1) && !c.inHandler
    ensures k.Begin? || k.Loop? || k.Repeat? ==> InBody(c, d + 1)
    ensures k.If? || k.Case? || k.While? ==> StandsAt(c, d + 1, IN_STATEMENT)
  {
  }

  /** A condition inside a block, up to the word that ends it. */
  lemma Condition(ph: Phrase, c: Control, d: nat) returns (c': Control)
    requires StandsAt(c, d, IN_STATEMENT) && GoodPhrase(ph, IN_STATEMENT)
    ensures Feed(c, PhraseTokens(ph)) == Some(c') && Within(c', d) && !c'.inHandler
  {
    c' := PhraseFeeds(ph, c, d, IN_STATEMENT);
    AfterPhraseSame(ph, IN_STATEMENT);
  }

  lemma EndOfStatement(c: Control, d: nat) returns (c': Control)
    requires Within(c, d) && d > 0
    ensures Feed(c, [Semicolon]) == Some(c') && InBody(c', d) && c'.lastWord == c.lastWord
  {
    c' := Step(c, Semicolon).value;
    assert Feed(c', [Semicolon][1..]) == Some(c');
  }

  lemma {:induction false} LabelsFeed(labels: seq<Token>, c: Control, d: nat, at: Place) returns (c': Control)
    requires StandsAt(c, d, at) && at.start && GoodLabels(labels)
    ensures Feed(c, labels) == Some(c') && StandsAt(c', d, at)
    decreases |labels|
  {
    if labels == [] {
      c' := c;
    } else {
      var c1 := Step(c, labels[0]).value;
      var c2 := Step(c1, labels[1]).value;
      One(c, labels[0]);
      One(c1, labels[1]);
      Compose(c, [labels[0]], c1, [labels[1]], c2);
      c' := LabelsFeed(labels[2..], c2, d, at);
      Compose(c, [labels[0]] + [labels[1]], c2, labels[2..], c');
      assert [labels[0]] + [labels[1]] + labels[2..] == labels;
    }
  }

  /** Every word is remembered as the last one. */
  lemma {:induction false} FeedLastWord(c: Control, ts: seq<Token>, c': Control)
    requires Feed(c, ts) == Some(c')
    ensures c'.lastWord == LastWord(ts, c.lastWord)
    decreases |ts|
  {
    if ts != [] {
      StepLastWord(c, ts[0]);
      FeedLastWord(Step(c, ts[0]).value, ts[1..], c');
    }
  }

  lemma StepLastWord(c: Control, t: Token)
    requires Step(c, t).Some?
    ensures Step(c, t).value.lastWord == if t.WordToken? then t.word else c.lastWord
  {
    hide IsCompound, OpensBlock;
  }

  /** A body's statement ends where its block stands. */
  lemma {:induction false} StmtFeeds(s: Stmt, c: Control, d: nat) returns (c': Control)
    requires InBody(c, d) && GoodStmt(s, c.lastWord, true)
    ensures Feed(c, StmtTokens(s)) == Some(c') && Within(c', d)
    decreases s, 0
  {
    hide Feed, Step, StandsAt, InBody, Opened, Within, GoodBody, GoodPhrase;
    BodyPlace(c, d);
    match s
    case Simple(phrase) =>
      c' := PhraseFeeds(phrase, c, d, AT_START);
      StandsWithin(c', d, AfterPhrase(phrase, AT_START));
    case Nested(labels, block) =>
      var c1 := LabelsFeed(labels, c, d, AT_START);
      FeedLastWord(c, labels, c1);
      StandsThere(c1, d, AT_START);
      var c2 := OpensAt(c1, d, Opener(block));
      c' := BlockFeeds(block, c2, d);
      Compose(c1, [K(Opener(block))], c2, BlockTokens(block), c');
      Compose(c, labels, c1, [K(Opener(block))] + BlockTokens(block), c');
    case Handle(declare, conditions) =>
      var c1 := Declares(declare, c, d);
      c' := PhraseFeeds(conditions, c1, d, IN_STATEMENT.(handler := true));
      Compose(c, PhraseTokens(declare) + [K(Handler)], c1, PhraseTokens(conditions), c');
      assert StmtTokens(s) == PhraseTokens(declare) + [K(Handler)] + PhraseTokens(conditions);
      StandsWithin(c', d, AfterPhrase(conditions, IN_STATEMENT.(handler := true)));
    case HandleBegin(declare, conditions, block) =>
      var h := IN_STATEMENT.(handler := true);
      var c1 := Declares(declare, c, d);
      var c2 := PhraseFeeds(conditions, c1, d, h);
      AfterPhraseSame(conditions, h);
      StandsThere(c2, d, AfterPhrase(conditions, h));
      var c3 := OpensAt(c2, d, Opener(block));
      c' := BlockFeeds(block, c3, d);
      Compose(c2, [K(Opener(block))], c3, BlockTokens(block), c');
      Compose(c1, PhraseTokens(conditions), c2, [K(Opener(block))] + BlockTokens(block), c');
      Compose(c, PhraseTokens(declare) + [K(Handler)], c1,
              PhraseTokens(conditions) + ([K(Opener(block))] + BlockTokens(block)), c');
      assert StmtTokens(s)
          == PhraseTokens(declare) + [K(Handler)]
              + (PhraseTokens(conditions) + ([K(Opener(block))] + BlockTokens(block)));
  }

  lemma {:induction false} BodyFeeds(body: Body, c: Control, d: nat) returns (c': Control)
    requires InBody(c, d) && GoodBody(body, c.lastWord, true)
    ensures Feed(c, BodyTokens(body)) == Some(c') && InBody(c', d)
    decreases body, 0
  {
    hide Feed, Step, StandsAt, InBody, Within, GoodStmt;
    BodyPlace(c, d);
    match body
    case Done =>
      c' := c;
      Nothings(c);
    case More(s, rest) =>
      var c1 := StmtFeeds(s, c, d);
      FeedLastWord(c, StmtTokens(s), c1);
      var c2 := EndOfStatement(c1, d);
      c' := BodyFeeds(rest, c2, d);
      Compose(c1, [Semicolon], c2, BodyTokens(rest), c');
      Compose(c, StmtTokens(s), c1, [Semicolon] + BodyTokens(rest), c');
  }

  /** A block, from behind the word that opened it to its last token. */
  lemma {:induction false} BlockFeeds(b: Block, c: Control, d: nat) returns (c': Control)
    requires Opened(c, d, Opener(b)) && c.lastWord == Opener(b) && GoodBlock(b, true)
    ensures Feed(c, BlockTokens(b)) == Some(c') && Within(c', d)
    decreases b, 0
  {
    hide Feed, Step, StandsAt, InBody, Within, Opened, GoodBody, GoodPhrase;
    OpenedPlace(c, d, Opener(b));
    match b
    case BeginBlock(body, endLabel) =>
      c' := BodyToEnd(body, c, d, [], endLabel);
    case IfBlock(cond, body, tail) =>
      var c1 := Condition(cond, c, d + 1);
      var c2 := ToBody(c1, d + 1, Then);
      var c3 := BodyFeeds(body, c2, d + 1);
      c' := IfTailFeeds(tail, c3, d);
      Compose(c2, BodyTokens(body), c3, IfTailTokens(tail), c');
      Compose(c1, [K(Then)], c2, BodyTokens(body) + IfTailTokens(tail), c');
      Compose(c, PhraseTokens(cond), c1, [K(Then)] + (BodyTokens(body) + IfTailTokens(tail)), c');
    case CaseBlock(operand, cases) =>
      var c1 := Condition(operand, c, d + 1);
      c' := CasesFeed(cases, c1, d);
      Compose(c, PhraseTokens(operand), c1, CaseTokens(cases), c');
    case LoopBlock(body, endLabel) =>
      c' := BodyToEnd(body, c, d, [K(Loop)], endLabel);
    case WhileBlock(cond, body, endLabel) =>
      var c1 := Condition(cond, c, d + 1);
      var c2 := ToBody(c1, d + 1, Do);
      c' := BodyToEnd(body, c2, d, [K(While)], endLabel);
      var inner := BodyTokens(body) + Closing([K(While)], endLabel);
      Compose(c1, [K(Do)], c2, inner, c');
      Compose(c, PhraseTokens(cond), c1, [K(Do)] + inner, c');
    case RepeatBlock(body, until, endLabel) =>
      var c1 := BodyFeeds(body, c, d + 1);
      BodyPlace(c1, d + 1);
      var c2 := PlainWord(c1, d + 1);
      var c3 := Condition(until, c2, d + 1);
      c' := Ends(c3, d, [K(Repeat)], endLabel);
      Compose(c2, PhraseTokens(until), c3, Closing([K(Repeat)], endLabel), c');
      Compose(c1, [W], c2, PhraseTokens(until) + Closing([K(Repeat)], endLabel), c');
      Compose(c, BodyTokens(body), c1, [W] + (PhraseTokens(until) + Closing([K(Repeat)], endLabel)), c');
  }

  lemma {:induction false} BodyToEnd(body: Body, c: Control, d: nat, words: seq<Token>, endLabel: seq<Token>)
    returns (c': Control)
    requires InBody(c, d + 1) && GoodBody(body, c.lastWord, true) && GoodEndLabel(endLabel)
    requires words == [] || (|words| == 1 && exists k :: IsBlockKeyword(k) && words[0] == K(k))
    ensures Feed(c, BodyTokens(body) + Closing(words, endLabel)) == Some(c') && Within(c', d)
    decreases body, 1
  {
    var c1 := BodyFeeds(body, c, d + 1);
    BodyPlace(c1, d + 1);
    c' := Ends(c1, d, words, endLabel);
    Compose(c, BodyTokens(body), c1, Closing(words, endLabel), c');
  }

  lemma {:induction false} IfTailFeeds(tail: IfTail, c: Control, d: nat) returns (c': Control)
    requires InBody(c, d + 1) && GoodIfTail(tail, true)
    ensures Feed(c, IfTailTokens(tail)) == Some(c') && Within(c', d)
    decreases tail, 0
  {
    hide Feed, Step, StandsAt, InBody, Within, GoodBody, GoodPhrase;
    BodyPlace(c, d + 1);
    match tail
    case EndIf =>
      c' := Ends(c, d, [K(If)], []);
    case ElsePart(body) =>
      var c1 := ToBody(c, d + 1, Else);
      c' := BodyToEnd(body, c1, d, [K(If)], []);
      Compose(c, [K(Else)], c1, BodyTokens(body) + Closing([K(If)], []), c');
    case ElseIf(cond, body, more) =>
      var c0 := PlainWord(c, d + 1);
      var c1 := Condition(cond, c0, d + 1);
      var c2 := ToBody(c1, d + 1, Then);
      var c3 := BodyFeeds(body, c2, d + 1);
      c' := IfTailFeeds(more, c3, d);
      var inner := BodyTokens(body) + IfTailTokens(more);
      Compose(c2, BodyTokens(body), c3, IfTailTokens(more), c');
      Compose(c1, [K(Then)], c2, inner, c');
      Compose(c0, PhraseTokens(cond), c1, [K(Then)] + inner, c');
      Compose(c, [W], c0, PhraseTokens(cond) + ([K(Then)] + inner), c');
  }

  lemma {:induction false} CasesFeed(cases: Cases, c: Control, d: nat) returns (c': Control)
    requires Within(c, d + 1) && !c.inHandler && GoodCases(cases, true)
    ensures Feed(c, CaseTokens(cases)) == Some(c') && Within(c', d)
    decreases cases, 0
  {
    hide Feed, Step, StandsAt, InBody, Within, GoodBody, GoodPhrase;
    match cases
    case EndCase =>
      c' := Ends(c, d, [K(Case)], []);
    case CaseElse(body) =>
      var c1 := ToBody(c, d + 1, Else);
      c' := BodyToEnd(body, c1, d, [K(Case)], []);
      Compose(c, [K(Else)], c1, BodyTokens(body) + Closing([K(Case)], []), c');
    case When(cond, body, more) =>
      var c0 := PlainWord(c, d + 1);
      var c1 := Condition(cond, c0, d + 1);
      var c2 := ToBody(c1, d + 1, Then);
      var c3 := BodyFeeds(body, c2, d + 1);
      BodyPlace(c3, d + 1);
      c' := CasesFeed(more, c3, d);
      var inner := BodyTokens(body) + CaseTokens(more);
      Compose(c2, BodyTokens(body), c3, CaseTokens(more), c');
      Compose(c1, [K(Then)], c2, inner, c');
      Compose(c0, PhraseTokens(cond), c1, [K(Then)] + inner, c');
      Compose(c, [W], c0, PhraseTokens(cond) + ([K(Then)] + inner), c');
  }

  /** DECLARE … HANDLER. */
  lemma Declares(declare: Phrase, c: Control, d: nat) returns (c': Control)
    requires InBody(c, d) && GoodPhrase(declare, AT_START)
    ensures Feed(c, PhraseTokens(declare) + [K(Handler)]) == Some(c')
    ensures StandsAt(c', d, IN_STATEMENT.(handler := true))
  {
    var c1 := PhraseFeeds(declare, c, d, AT_START);
    One(c1, K(Handler));
    c' := Step(c1, K(Handler)).value;
    Compose(c, PhraseTokens(declare), c1, [K(Handler)], c');
    AfterPhraseSame(declare, AT_START);
  }

  lemma StandsThere(c: Control, d: nat, at: Place)
    requires StandsAt(c, d, at)
    ensures Within(c, d) && c.atBodyStatement == at.start && c.afterEnd == at.ended && c.inHandler == at.handler
    ensures (d == 0) == at.top
  {
  }
}
