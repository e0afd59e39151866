/** Splitting undoes printing.  A script is generated from a grammar of plain
    statements, routines, BEGIN NOT ATOMIC and top-level blocks, nested to any
    depth; a text prints it when its tokens are the script's, in any layout.
    Whatever the texts, joined they split back into exactly themselves. */
module SqlGrammar {
  import opened Text
  import opened SqlLexer
  import opened SqlStatements
  import opened SqlJoin

  // ---- the grammar ----

  /** Part of a statement, with CASE expressions in it. */
  datatype Phrase =
    | Empty
    | Atom(token: Token, rest: Phrase)
    | CaseExpr(operand: Phrase, arms: Arms, rest: Phrase)

  /** WHEN … THEN …, at the end ELSE … or nothing. */
  datatype Arms =
    | NoElse
    | ElseArm(value: Phrase)
    | WhenArm(cond: Phrase, value: Phrase, more: Arms)

  /** A block statement without the word that opens it. */
  datatype Block =
    | BeginBlock(body: Body, endLabel: seq<Token>)
    | IfBlock(cond: Phrase, body: Body, tail: IfTail)
    | CaseBlock(operand: Phrase, cases: Cases)
    | LoopBlock(body: Body, endLabel: seq<Token>)
    | WhileBlock(cond: Phrase, body: Body, endLabel: seq<Token>)
    | RepeatBlock(body: Body, until: Phrase, endLabel: seq<Token>)

  datatype IfTail = EndIf | ElsePart(body: Body) | ElseIf(cond: Phrase, body: Body, tail: IfTail)

  datatype Cases = EndCase | CaseElse(body: Body) | When(cond: Phrase, body: Body, cases: Cases)

  /** A statement of a body: a simple one, a block with or without a label, or
      DECLARE … HANDLER FOR … with a simple action or a BEGIN block. */
  datatype Stmt =
    | Simple(phrase: Phrase)
    | Nested(labels: seq<Token>, block: Block)
    | Handle(declare: Phrase, conditions: Phrase)
    | HandleBegin(declare: Phrase, conditions: Phrase, block: Block)

  /** Statements, each with its ';'. */
  datatype Body = Done | More(stmt: Stmt, rest: Body)

  /** What a routine does: the last words of its header, or a block. */
  datatype Action =
    | Inline
    | Opens(block: Block)
    | DoInline(phrase: Phrase)
    | DoOpens(labels: seq<Token>, block: Block)

  datatype Script =
    | Plain(tokens: seq<Token>)
    | RoutineDef(lead: seq<Token>, ifNotExists: bool, header: Phrase, action: Action)
    | Anonymous(labels: seq<Token>, body: Body, endLabel: seq<Token>)
    | TopLevel(labels: seq<Token>, block: Block)

  // ---- its tokens ----

  /** A keyword as such: no label, no name, no function. */
  function K(word: Keyword): Token {
    WordToken(word, false, false, false)
  }

  // WHEN, ELSEIF, UNTIL and DECLARE mean nothing to the splitter
  const W := K(Keyword.Plain)

  function PhraseTokens(ph: Phrase): seq<Token> {
    match ph
    case Empty => []
    case Atom(t, rest) => [t] + PhraseTokens(rest)
    case CaseExpr(operand, arms, rest) =>
      [K(Case)] + (PhraseTokens(operand) + (ArmTokens(arms) + ([K(End)] + PhraseTokens(rest))))
  }

  function ArmTokens(arms: Arms): seq<Token> {
    match arms
    case NoElse => []
    case ElseArm(value) => [K(Else)] + PhraseTokens(value)
    case WhenArm(cond, value, more) =>
      [W] + (PhraseTokens(cond) + ([K(Then)] + (PhraseTokens(value) + ArmTokens(more))))
  }

  /** END, the block's keyword, its label. */
  function Closing(words: seq<Token>, endLabel: seq<Token>): seq<Token> {
    [K(End)] + words + endLabel
  }

  function Opener(b: Block): Keyword {
    match b
    case BeginBlock(_, _) => Begin
    case IfBlock(_, _, _) => If
    case CaseBlock(_, _) => Case
    case LoopBlock(_, _) => Loop
    case WhileBlock(_, _, _) => While
    case RepeatBlock(_, _, _) => Repeat
  }

  function BlockTokens(b: Block): seq<Token> {
    match b
    case BeginBlock(body, endLabel) => BodyTokens(body) + Closing([], endLabel)
    case IfBlock(cond, body, tail) => PhraseTokens(cond) + ([K(Then)] + (BodyTokens(body) + IfTailTokens(tail)))
    case CaseBlock(operand, cases) => PhraseTokens(operand) + CaseTokens(cases)
    case LoopBlock(body, endLabel) => BodyTokens(body) + Closing([K(Loop)], endLabel)
    case WhileBlock(cond, body, endLabel) =>
      PhraseTokens(cond) + ([K(Do)] + (BodyTokens(body) + Closing([K(While)], endLabel)))
    case RepeatBlock(body, until, endLabel) =>
      BodyTokens(body) + ([W] + (PhraseTokens(until) + Closing([K(Repeat)], endLabel)))
  }

  function IfTailTokens(tail: IfTail): seq<Token> {
    match tail
    case EndIf => Closing([K(If)], [])
    case ElsePart(body) => [K(Else)] + (BodyTokens(body) + Closing([K(If)], []))
    case ElseIf(cond, body, more) =>
      [W] + (PhraseTokens(cond) + ([K(Then)] + (BodyTokens(body) + IfTailTokens(more))))
  }

  function CaseTokens(cases: Cases): seq<Token> {
    match cases
    case EndCase => Closing([K(Case)], [])
    case CaseElse(body) => [K(Else)] + (BodyTokens(body) + Closing([K(Case)], []))
    case When(cond, body, more) =>
      [W] + (PhraseTokens(cond) + ([K(Then)] + (BodyTokens(body) + CaseTokens(more))))
  }

  function StmtTokens(s: Stmt): seq<Token> {
    match s
    case Simple(phrase) => PhraseTokens(phrase)
    case Nested(labels, block) => labels + ([K(Opener(block))] + BlockTokens(block))
    case Handle(declare, conditions) => PhraseTokens(declare) + ([K(Handler)] + PhraseTokens(conditions))
    case HandleBegin(declare, conditions, block) =>
      PhraseTokens(declare) + ([K(Handler)] + (PhraseTokens(conditions) + ([K(Opener(block))] + BlockTokens(block))))
  }

  function BodyTokens(body: Body): seq<Token> {
    match body
    case Done => []
    case More(s, rest) => StmtTokens(s) + ([Semicolon] + BodyTokens(rest))
  }

  function ActionTokens(a: Action): seq<Token> {
    match a
    case Inline => []
    case Opens(block) => [K(Opener(block))] + BlockTokens(block)
    case DoInline(phrase) => [K(Do)] + PhraseTokens(phrase)
    case DoOpens(labels, block) => [K(Do)] + (labels + ([K(Opener(block))] + BlockTokens(block)))
  }

  function ScriptTokens(s: Script): seq<Token> {
    match s
    case Plain(tokens) => tokens
    case RoutineDef(lead, ifNotExists, header, action) =>
      lead + ((if ifNotExists then [K(If)] else []) + (PhraseTokens(header) + ActionTokens(action)))
    case Anonymous(labels, body, endLabel) =>
      labels + ([K(Begin), K(Not), K(Atomic)] + (BodyTokens(body) + Closing([], endLabel)))
    case TopLevel(labels, block) => labels + ([K(Opener(block))] + BlockTokens(block))
  }

  // ---- which trees are scripts ----

  /** Where reading stands in a phrase: at a statement's start, after END, after
      HANDLER, outside all blocks. */
  datatype Place = Place(start: bool, ended: bool, handler: bool, top: bool)

  /** A token that neither opens nor closes a block here.  Block words are
      harmless inside a statement; at its start only IF(…) and REPEAT(…) are. */
  predicate Harmless(t: Token, at: Place) {
    match t
    case Nothing => false
    case Semicolon => false
    case Executable => true
    case Text => true
    case Sign => true
    case WordToken(word, isName, isLabel, isCall) =>
      isName ||
      (&& !(isLabel && at.start)
       && match word
          case End => false
          case Case => false
          case Then => false
          case Else => false
          case Do => false
          case Handler => false
          case Begin => !(at.start || at.handler || at.top)
          case Loop => !(at.start || at.handler || at.top)
          case While => !(at.start || at.handler || at.top)
          case If => isCall || !(at.start || at.handler || at.top)
          case Repeat => isCall || !(at.start || at.handler || at.top)
          case _ => true)
  }

  function After(t: Token, at: Place): Place {
    if t.Executable? then at else at.(start := false, ended := false)
  }

  function AfterPhrase(ph: Phrase, at: Place): Place {
    match ph
    case Empty => at
    case Atom(t, rest) => AfterPhrase(rest, After(t, at))
    case CaseExpr(_, _, rest) => AfterPhrase(rest, at.(start := false, ended := true))
  }

  /** Inside a CASE expression a block is open. */
  function Inner(at: Place): Place {
    Place(false, false, at.handler, false)
  }

  predicate GoodPhrase(ph: Phrase, at: Place) {
    match ph
    case Empty => true
    case Atom(t, rest) => Harmless(t, at) && GoodPhrase(rest, After(t, at))
    case CaseExpr(operand, arms, rest) =>
      && !at.ended && GoodPhrase(operand, Inner(at)) && GoodArms(arms, Inner(at))
      && GoodPhrase(rest, at.(start := false, ended := true))
  }

  predicate GoodArms(arms: Arms, at: Place) {
    match arms
    case NoElse => true
    case ElseArm(value) => GoodPhrase(value, at.(start := true))
    case WhenArm(cond, value, more) =>
      GoodPhrase(cond, at) && GoodPhrase(value, at.(start := true)) && GoodArms(more, at)
  }

  /** "label :", any number of times. */
  predicate GoodLabels(labels: seq<Token>) {
    labels == [] ||
    (&& |labels| >= 2 && labels[0].WordToken? && !labels[0].isName && labels[0].isLabel && labels[1].Sign?
     && GoodLabels(labels[2..]))
  }

  predicate GoodEndLabel(endLabel: seq<Token>) {
    endLabel == [] || (|endLabel| == 1 && endLabel[0].WordToken? && endLabel[0].word.Plain?)
  }

  const IN_STATEMENT := Place(false, false, false, false)
  const AT_START := Place(true, false, false, false)

  /** The last word of the tokens, or `last` when they hold none. */
  function LastWord(ts: seq<Token>, last: Keyword): Keyword {
    if ts == [] then last
    else LastWord(ts[1..], if ts[0].WordToken? then ts[0].word else last)
  }

  predicate GoodBlock(b: Block, seen: bool) {
    match b
    case BeginBlock(body, endLabel) => GoodBody(body, Begin, seen) && GoodEndLabel(endLabel)
    case IfBlock(cond, body, tail) => GoodPhrase(cond, IN_STATEMENT) && GoodBody(body, Then, seen)
        && GoodIfTail(tail, seen)
    case CaseBlock(operand, cases) => GoodPhrase(operand, IN_STATEMENT) && GoodCases(cases, seen)
    case LoopBlock(body, endLabel) => GoodBody(body, Loop, seen) && GoodEndLabel(endLabel)
    case WhileBlock(cond, body, endLabel) =>
      GoodPhrase(cond, IN_STATEMENT) && GoodBody(body, Do, seen) && GoodEndLabel(endLabel)
    case RepeatBlock(body, until, endLabel) =>
      GoodBody(body, Repeat, seen) && GoodPhrase(until, IN_STATEMENT) && GoodEndLabel(endLabel)
  }

  predicate GoodIfTail(tail: IfTail, seen: bool) {
    match tail
    case EndIf => true
    case ElsePart(body) => GoodBody(body, Else, seen)
    case ElseIf(cond, body, more) =>
      GoodPhrase(cond, IN_STATEMENT) && GoodBody(body, Then, seen) && GoodIfTail(more, seen)
  }

  predicate GoodCases(cases: Cases, seen: bool) {
    match cases
    case EndCase => true
    case CaseElse(body) => GoodBody(body, Else, seen)
    case When(cond, body, more) => GoodPhrase(cond, IN_STATEMENT) && GoodBody(body, Then, seen) && GoodCases(more, seen)
  }

  /** A statement of a body, `last` being the word before it.  The splitter does
      not see an IF statement after PROCEDURE, FUNCTION, TRIGGER or EVENT, not
      even with a ';' between (see SqlHidden); `seen` asks that there be none. */
  predicate GoodStmt(s: Stmt, last: Keyword, seen: bool) {
    match s
    case Simple(phrase) => GoodPhrase(phrase, AT_START)
    case Nested(labels, block) =>
      GoodLabels(labels) && GoodBlock(block, seen) && (seen && block.IfBlock? ==> !LastWord(labels, last).Routine?)
    case Handle(declare, conditions) =>
      GoodPhrase(declare, AT_START) && GoodPhrase(conditions, IN_STATEMENT.(handler := true))
    case HandleBegin(declare, conditions, block) =>
      && GoodPhrase(declare, AT_START) && GoodPhrase(conditions, IN_STATEMENT.(handler := true))
      && !AfterPhrase(conditions, IN_STATEMENT.(handler := true)).ended
      && block.BeginBlock? && GoodBlock(block, seen)
  }

  predicate GoodBody(body: Body, last: Keyword, seen: bool) {
    match body
    case Done => true
    case More(s, rest) => GoodStmt(s, last, seen) && GoodBody(rest, LastWord(StmtTokens(s), last), seen)
  }

  // ---- scripts ----

  /** CREATE … up to the word that names the routine: within the leading words,
      none before it names another object. */
  predicate GoodLead(lead: seq<Token>) {
    && |lead| >= 2 && lead[0] == K(Create)
    && lead[|lead| - 1].WordToken? && lead[|lead| - 1].word.Routine?
    && (forall k :: 0 < k < |lead| - 1 ==> InLead(lead[k]))
    && Words(lead) <= LEADING
  }

  predicate InLead(t: Token) {
    match t
    case WordToken(word, _, _, _) => !word.Routine? && !word.OtherObject?
    case Semicolon => false
    case _ => true
  }

  function Words(ts: seq<Token>): nat {
    if ts == [] then 0 else (if ts[0].WordToken? then 1 else 0) + Words(ts[1..])
  }

  /** No words of a plain statement announce a compound one; `words` are the
      leading ones read so far, labels left out. */
  predicate GoodPlain(ts: seq<Token>, words: seq<Keyword>) {
    ts == [] ||
    match ts[0]
    case Semicolon => false
    case WordToken(word, _, isLabel, _) =>
      if (words == [] && isLabel) || |words| >= LEADING then GoodPlain(ts[1..], words)
      else !IsCompound(words + [word]) && GoodPlain(ts[1..], words + [word])
    case _ => GoodPlain(ts[1..], words)
  }

  const IN_HEADER := Place(false, false, false, true)

  /** What a routine does, its header having ended at `at` with the word `last`. */
  predicate GoodAction(a: Action, at: Place, last: Keyword, seen: bool) {
    match a
    case Inline => true
    case Opens(block) => GoodBlock(block, seen) && !at.ended && (seen && block.IfBlock? ==> !last.Routine?)
    case DoInline(phrase) => GoodPhrase(phrase, IN_HEADER.(start := true))
    case DoOpens(labels, block) =>
      GoodLabels(labels) && GoodBlock(block, seen) && (seen && block.IfBlock? ==> !LastWord(labels, Do).Routine?)
  }

  predicate WellFormed(s: Script, seen: bool) {
    match s
    case Plain(tokens) => GoodPlain(tokens, [])
    case RoutineDef(lead, ifNotExists, header, action) =>
      && GoodLead(lead) && GoodPhrase(header, IN_HEADER)
      && GoodAction(action, AfterPhrase(header, IN_HEADER),
                    LastWord(PhraseTokens(header), if ifNotExists then If else Routine), seen)
    case Anonymous(labels, body, endLabel) => GoodLabels(labels) && GoodBody(body, Atomic, seen)
        && GoodEndLabel(endLabel)
    case TopLevel(labels, block) => GoodLabels(labels) && GoodBlock(block, seen) && !block.BeginBlock?
  }

  predicate GoodScript(s: Script) {
    WellFormed(s, true)
  }
}
