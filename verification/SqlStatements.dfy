/** The statement splitter: a control state steps over the pieces of a script
    and decides which ';' ends a statement. */
module SqlStatements {
  import opened Text
  import opened SqlLexer

  /** The words the splitter knows (upper-case); every other one is Plain.
      Routine is PROCEDURE, FUNCTION, TRIGGER or EVENT. */
  datatype Keyword =
    | Create | Not | Atomic | Routine | OtherObject
    | Begin | If | Case | Loop | While | Repeat | End
    | Then | Else | Do | Handler | Plain

  // CREATE <one of these> is never a routine
  const OTHER_OBJECTS := ["TABLE", "VIEW", "INDEX", "UNIQUE", "FULLTEXT", "SPATIAL", "USER", "ROLE",
                          "DATABASE", "SCHEMA", "SEQUENCE", "SERVER", "TABLESPACE", "TEMPORARY", "ALGORITHM", "PACKAGE"]
  // How many leading words are looked at
  const LEADING := 8

  function KeywordOf(up: string): Keyword {
    if up == "CREATE" then Create
    else if up == "NOT" then Not
    else if up == "ATOMIC" then Atomic
    else if up in ["PROCEDURE", "FUNCTION", "TRIGGER", "EVENT"] then Routine
    else if up in OTHER_OBJECTS then OtherObject
    else if up == "BEGIN" then Begin
    else if up == "IF" then If
    else if up == "CASE" then Case
    else if up == "LOOP" then Loop
    else if up == "WHILE" then While
    else if up == "REPEAT" then Repeat
    else if up == "END" then End
    else if up == "THEN" then Then
    else if up == "ELSE" then Else
    else if up == "DO" then Do
    else if up == "HANDLER" then Handler
    else Plain
  }

  /** IF, CASE, LOOP, WHILE and REPEAT. */
  predicate IsBlockKeyword(k: Keyword) {
    k.If? || k.Case? || k.Loop? || k.While? || k.Repeat?
  }

  /** What a piece means to the block tracker.  A word carries what is read
      around it: the '.' or '@' before it (isName), a colon after it (isLabel), a
      function call's parentheses after IF or REPEAT (isCall). */
  datatype Token =
    | Nothing
    | Executable
    | Text
    | Semicolon
    | Sign
    | WordToken(word: Keyword, isName: bool, isLabel: bool, isCall: bool)

  /** The control variables of the loop.  `inLabel` holds between a label and
      its colon, which the loop jumps over in one go. */
  datatype Control = Control(words: seq<Keyword>, compound: bool, depth: nat, atBodyStatement: bool,
                             afterEnd: bool, inHandler: bool, lastWord: Keyword, inLabel: bool)

  /** A statement's text: the characters from..to, before trimming. */
  datatype Span = Span(from: nat, to: nat)

  const START := Control([], false, 0, false, false, false, Plain, false)

  /** IF and REPEAT are also the names of functions. */
  predicate TakesArguments(k: Keyword) {
    k.If? || k.Repeat?
  }

  /** CREATE [OR REPLACE] [DEFINER …] [AGGREGATE] PROCEDURE …: a routine word
      comes before any word that names another kind of object. */
  predicate NamesRoutine(ws: seq<Keyword>) {
    ws != [] && (ws[0].Routine? || (!ws[0].OtherObject? && NamesRoutine(ws[1..])))
  }

  predicate IsCompound(words: seq<Keyword>) {
    && words != []
    && match words[0]
       case Create => NamesRoutine(words[1..])
       case Begin => |words| >= 3 && words[1].Not? && words[2].Atomic?
       case first => IsBlockKeyword(first)
  }

  function TokenOf(sql: string, p: Piece): Token
    requires p.from < p.to <= |sql|
  {
    match p.kind
    case LineComment => Nothing
    case BlockComment => Nothing
    case Gap => Nothing
    case ExecComment => Executable
    case Quoted => Text
    case Semi => Semicolon
    case Other => Sign
    case Word =>
      var k := KeywordOf(Upper(sql[p.from..p.to]));
      WordToken(k,
                p.from > 0 && (sql[p.from - 1] == '.' || sql[p.from - 1] == '@'),
                LabelEnd(sql, p.to).Some?,
                TakesArguments(k) && CallScan(sql, p.to) == Yes)
  }

  /** A word while the statement is not (yet) known to be compound. */
  function LeadingWord(c: Control, t: Token): Control
    requires t.WordToken?
  {
    if c.words == [] && t.isLabel then c.(lastWord := t.word, inLabel := true)
    else if |c.words| < LEADING then
      var words := c.words + [t.word];
      if !IsCompound(words) then c.(words := words, lastWord := t.word)
      else if words[0].Create? then c.(words := words, lastWord := t.word, compound := true)
      else c.(words := words, lastWord := t.word, compound := true, depth := 1,
              atBodyStatement := words[0].Begin? || t.word.Loop? || t.word.Repeat?)
    else c.(lastWord := t.word)
  }

  /** Does this word of a compound statement open a block?  (CASE always does.) */
  predicate OpensBlock(c: Control, t: Token)
    requires t.WordToken?
  {
    && (c.atBodyStatement || c.inHandler || c.depth == 0)
    && match t.word
       case Begin => true
       case Loop => true
       case While => true
       case If => !c.lastWord.Routine? && !t.isCall
       case Repeat => !t.isCall
       case _ => false
  }

  /** END closes a block, CASE and the words that start one open it. */
  function BlockWord(c: Control, word: Keyword, opens: bool): Option<Control> {
    if word.End? then
      if c.depth == 0 then None
      else Some(c.(depth := c.depth - 1, afterEnd := true, atBodyStatement := false))
    else if word.Case? || opens then
      Some(c.(depth := c.depth + 1, inHandler := c.inHandler && !word.Begin?,
              atBodyStatement := word.Begin? || word.Loop? || word.Repeat?))
    else
      Some(c.(inHandler := c.inHandler || word.Handler?,
              atBodyStatement := word.Then? || word.Else? || word.Do?))
  }

  /** A word inside a compound statement; None when a block closes that never opened. */
  function BodyWord(c: Control, t: Token): Option<Control>
    requires t.WordToken?
  {
    var c' := c.(lastWord := t.word, afterEnd := false);
    if t.isName then Some(c'.(atBodyStatement := false))
    else if c.afterEnd && IsBlockKeyword(t.word) then Some(c')
    else if c.atBodyStatement && t.isLabel then Some(c'.(inLabel := true))
    else BlockWord(c', t.word, OpensBlock(c, t))
  }

  function SignStep(c: Control): Control {
    if c.inLabel then c.(inLabel := false) else c.(atBodyStatement := false, afterEnd := false)
  }

  /** One token that does not end the statement. */
  function Step(c: Control, t: Token): Option<Control> {
    match t
    case Nothing => Some(c)
    case Executable => Some(c)
    case Text => Some(c.(atBodyStatement := false, afterEnd := false))
    case Sign => Some(SignStep(c))
    case Semicolon => Some(c.(atBodyStatement := true, afterEnd := false, inHandler := false))
    case WordToken(_, _, _, _) => if c.compound then BodyWord(c, t) else Some(LeadingWord(c, t))
  }

  /** May a statement end here: is no block open? */
  predicate AtRest(c: Control) {
    !c.compound || c.depth == 0
  }

  predicate IsBoundary(c: Control, t: Token) {
    t == Semicolon && AtRest(c)
  }

  /** Where the statement's code starts, leading comments left out. */
  function Mark(code: Option<nat>, p: Piece, t: Token): Option<nat> {
    if code.Some? || t == Nothing || t == Semicolon then code else Some(p.from)
  }

  function Close(code: Option<nat>, to: nat): seq<Span> {
    if code.Some? then [Span(code.value, to)] else []
  }

  /** A statement's code starts at a character that is not white space. */
  predicate CodeBefore(sql: string, i: nat, code: Option<nat>)
    requires i <= |sql|
  {
    code.Some? ==> code.value < i && !IsSpace(sql[code.value])
  }

  predicate InRange(sql: string, spans: seq<Span>) {
    forall k :: 0 <= k < |spans| ==> spans[k].from < spans[k].to <= |sql| && !IsSpace(sql[spans[k].from])
  }

  /** The spans of the statements in the part of a script from i on, the current
      statement being in control state c with its code starting at `code`; None
      when text stays unterminated or the blocks do not balance. */
  function SpansFrom(sql: string, i: nat, c: Control, code: Option<nat>): (r: Option<seq<Span>>)
    requires i <= |sql| && CodeBefore(sql, i, code)
    ensures r.Some? ==> InRange(sql, r.value)
    decreases |sql| - i
  {
    if i == |sql| then
      if AtRest(c) then Some(Close(code, i)) else None
    else
      match Next(sql, i)
      case None => None
      case Some(p) =>
        var t := TokenOf(sql, p);
        if IsBoundary(c, t) then
          match SpansFrom(sql, p.to, START, None)
          case None => None
          case Some(rest) => Some(Close(code, i) + rest)
        else
          match Step(c, t)
          case None => None
          case Some(c') => SpansFrom(sql, p.to, c', Mark(code, p, t))
  }

  function Spans(sql: string): (r: Option<seq<Span>>)
    ensures r.Some? ==> InRange(sql, r.value)
  {
    SpansFrom(sql, 0, START, None)
  }

  function Texts(sql: string, spans: seq<Span>): (r: seq<string>)
    requires InRange(sql, spans)
  {
    seq(|spans|, k requires 0 <= k < |spans| => Trim(sql[spans[k].from..spans[k].to]))
  }

  /** The statements of a script, or None when the split cannot be certain. */
  function Split(sql: string): Option<seq<string>> {
    Resume(sql, 0, START, None, [])
  }

  /** The outcome of a run that stands at i and has collected `statements`. */
  function Resume(sql: string, i: nat, c: Control, code: Option<nat>, statements: seq<string>): Option<seq<string>>
    requires i <= |sql| && CodeBefore(sql, i, code)
  {
    match SpansFrom(sql, i, c, code)
    case None => None
    case Some(r) => Some(statements + Texts(sql, r))
  }

  /** What push() appends. */
  function Pushed(sql: string, code: Option<nat>, to: nat): seq<string>
    requires to <= |sql| && CodeBefore(sql, to, code)
  {
    if code.Some? then [Trim(sql[code.value..to])] else []
  }

  lemma ResumeStep(sql: string, p: Piece, c: Control, code: Option<nat>, statements: seq<string>)
    requires p.from < p.to <= |sql| && Next(sql, p.from) == Some(p) && CodeBefore(sql, p.from, code)
    requires !IsBoundary(c, TokenOf(sql, p))
    ensures match Step(c, TokenOf(sql, p))
            case None => Resume(sql, p.from, c, code, statements) == None
            case Some(c') =>
              && CodeBefore(sql, p.to, Mark(code, p, TokenOf(sql, p)))
              && Resume(sql, p.from, c, code, statements)
                 == Resume(sql, p.to, c', Mark(code, p, TokenOf(sql, p)), statements)
  {
  }

  lemma ResumeBoundary(sql: string, p: Piece, c: Control, code: Option<nat>, statements: seq<string>)
    requires p.from < p.to <= |sql| && Next(sql, p.from) == Some(p) && CodeBefore(sql, p.from, code)
    requires IsBoundary(c, TokenOf(sql, p))
    ensures Resume(sql, p.from, c, code, statements)
            == Resume(sql, p.to, START, None, statements + Pushed(sql, code, p.from))
  {
    match SpansFrom(sql, p.to, START, None)
    case None =>
    case Some(rest) =>
      assert SpansFrom(sql, p.from, c, code) == Some(Close(code, p.from) + rest);
      assert Texts(sql, Close(code, p.from)) == Pushed(sql, code, p.from);
      TextsConcat(sql, Close(code, p.from), rest, statements);
  }

  lemma TextsConcat(sql: string, a: seq<Span>, b: seq<Span>, statements: seq<string>)
    requires InRange(sql, a) && InRange(sql, b)
    ensures InRange(sql, a + b)
    ensures statements + Texts(sql, a + b) == statements + Texts(sql, a) + Texts(sql, b)
  {
    hide Trim, IsSpace;
    assert Texts(sql, a + b) == Texts(sql, a) + Texts(sql, b);
  }

  lemma ResumeEnd(sql: string, c: Control, code: Option<nat>, statements: seq<string>)
    requires CodeBefore(sql, |sql|, code)
    ensures Resume(sql, |sql|, c, code, statements)
            == if AtRest(c) then Some(statements + Pushed(sql, code, |sql|)) else None
  {
    assert Texts(sql, Close(code, |sql|)) == Pushed(sql, code, |sql|);
  }

  /** A label's white space and colon change nothing but the flag. */
  lemma ResumeLabel(sql: string, j: nat, c: Control, code: Option<nat>, statements: seq<string>)
    requires j <= |sql| && CodeBefore(sql, j, code) && code.Some? && c.inLabel
    requires LabelEnd(sql, j).Some?
    ensures Resume(sql, j, c, code, statements)
            == Resume(sql, LabelEnd(sql, j).value, c.(inLabel := false), code, statements)
    decreases |sql| - j
  {
    hide KeywordOf, CallScan, IsCompound, LeadingWord, BodyWord, Resume;
    var p := Next(sql, j).value;
    ResumeStep(sql, p, c, code, statements);
    if IsSpace(sql[j]) {
      ResumeLabel(sql, j + 1, c, code, statements);
    }
  }

  /** A word, together with the white space and colon after it when it is a label. */
  lemma ResumeWord(sql: string, p: Piece, c: Control, c': Control, code: Option<nat>, i: nat, statements: seq<string>)
    requires p.from < p.to <= |sql| && Next(sql, p.from) == Some(p) && CodeBefore(sql, p.from, code)
    requires p.kind.Word? && !c'.inLabel
    requires i == p.to || LabelEnd(sql, p.to) == Some(i)
    requires Step(c, TokenOf(sql, p)) == Some(c'.(inLabel := i != p.to))
    ensures i <= |sql| && CodeBefore(sql, i, Mark(code, p, TokenOf(sql, p)))
    ensures Resume(sql, p.from, c, code, statements)
            == Resume(sql, i, c', Mark(code, p, TokenOf(sql, p)), statements)
  {
    ResumeStep(sql, p, c, code, statements);
    if i != p.to {
      ResumeLabel(sql, p.to, c'.(inLabel := true), Mark(code, p, TokenOf(sql, p)), statements);
    }
  }

  /** An END without an open block: the script is given up. */
  lemma ResumeBadWord(sql: string, p: Piece, c: Control, code: Option<nat>, statements: seq<string>)
    requires p.from < p.to <= |sql| && Next(sql, p.from) == Some(p) && CodeBefore(sql, p.from, code)
    requires p.kind.Word? && Step(c, TokenOf(sql, p)) == None
    ensures Resume(sql, p.from, c, code, statements) == None
  {
    ResumeStep(sql, p, c, code, statements);
  }
}
