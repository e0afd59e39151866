/** How the statement splitter reads a script, character by character: the
    pieces (comments, quoted text, words, …) its main loop steps over.  What a
    piece is depends on the text alone, never on the block structure. */
module SqlLexer {
  import opened Text

  datatype Kind = LineComment | BlockComment | ExecComment | Quoted | Semi | Word | Gap | Other

  /** The characters from..to of the script, read in one step. */
  datatype Piece = Piece(kind: Kind, from: nat, to: nat)

  /** Index just past the line end at or after i, or |s|. */
  function LineEnd(s: string, i: nat): (k: nat)
    requires i <= |s|
    ensures i <= k <= |s|
    ensures i < |s| ==> i < k
    decreases |s| - i
  {
    if i == |s| then i else if s[i] == '\n' then i + 1 else LineEnd(s, i + 1)
  }

  /** Index just past the first comment closer at or after i. */
  function CommentEnd(s: string, i: nat): (k: Option<nat>)
    ensures k.Some? ==> i + 2 <= k.value <= |s|
    decreases |s| - i
  {
    if i + 1 >= |s| then None
    else if s[i] == '*' && s[i + 1] == '/' then Some(i + 2)
    else CommentEnd(s, i + 1)
  }

  /** Index just past the quote that closes the text whose inside starts at j. */
  function QuoteEnd(s: string, j: nat, q: char): (k: Option<nat>)
    ensures k.Some? ==> j < k.value <= |s| && s[k.value - 1] == q
    decreases |s| - j
  {
    if j >= |s| then None
    else if s[j] == '\\' && q != '`' then QuoteEnd(s, j + 2, q)
    else if s[j] == q then
      if j + 1 < |s| && s[j + 1] == q then QuoteEnd(s, j + 2, q) else Some(j + 1)
    else QuoteEnd(s, j + 1, q)
  }

  function WordEnd(s: string, j: nat): (k: nat)
    requires j <= |s|
    ensures j <= k <= |s|
    ensures forall m :: j <= m < k ==> IsWordChar(s[m])
    ensures k < |s| ==> !IsWordChar(s[k])
    decreases |s| - j
  {
    if j < |s| && IsWordChar(s[j]) then WordEnd(s, j + 1) else j
  }

  predicate LineCommentAt(s: string, i: nat)
    requires i < |s|
  {
    || s[i] == '#'
    || (s[i] == '-' && i + 1 < |s| && s[i + 1] == '-' && (i + 2 >= |s| || IsSpace(s[i + 2])))
  }

  predicate BlockCommentAt(s: string, i: nat)
    requires i < |s|
  {
    s[i] == '/' && i + 1 < |s| && s[i + 1] == '*'
  }

  /** A word character with another one before it is in the middle of a word. */
  predicate WordAt(s: string, i: nat)
    requires i < |s|
  {
    IsWordChar(s[i]) && !(i > 0 && IsWordChar(s[i - 1]))
  }

  /** The piece that starts at i; None for an unterminated quote or comment. */
  function Next(s: string, i: nat): (p: Option<Piece>)
    requires i < |s|
    ensures p.Some? ==> p.value.from == i < p.value.to <= |s|
  {
    if LineCommentAt(s, i) then Some(Piece(LineComment, i, LineEnd(s, i)))
    else if BlockCommentAt(s, i) then
      match CommentEnd(s, i + 2)
      case None => None
      case Some(k) => Some(Piece(if s[i + 2] == '!' then ExecComment else BlockComment, i, k))
    else if IsQuote(s[i]) then
      match QuoteEnd(s, i + 1, s[i])
      case None => None
      case Some(k) => Some(Piece(Quoted, i, k))
    else if s[i] == ';' then Some(Piece(Semi, i, i + 1))
    else if WordAt(s, i) then Some(Piece(Word, i, WordEnd(s, i + 1)))
    else Some(Piece(if IsSpace(s[i]) then Gap else Other, i, i + 1))
  }

  /** All pieces from i on, or None when one of them is unterminated. */
  function Pieces(s: string, i: nat): (ps: Option<seq<Piece>>)
    requires i <= |s|
    decreases |s| - i
  {
    if i == |s| then Some([])
    else
      match Next(s, i)
      case None => None
      case Some(p) =>
        match Pieces(s, p.to)
        case None => None
        case Some(ps) => Some([p] + ps)
  }

  /** "label:" — a colon (not ':=') after optional white space; index past the colon. */
  function LabelEnd(s: string, j: nat): (k: Option<nat>)
    requires j <= |s|
    ensures k.Some? ==> j < k.value <= |s|
  {
    var m := SkipSpace(s, j);
    if m < |s| && s[m] == ':' && !(m + 1 < |s| && s[m + 1] == '=') then Some(m + 1) else None
  }

  /** Answer of the look-ahead for a function call after IF / REPEAT: RanOff
      means the script ended inside the parentheses. */
  datatype Call = Yes | No | RanOff

  /** Index of the quote closing the text that starts at k, doubled quotes read
      as close-and-reopen; |s| or more when there is none. */
  function QuoteSkip(s: string, k: nat, q: char): (m: nat)
    ensures k <= m
    ensures m < |s| ==> s[m] == q
    decreases |s| - k
  {
    if k >= |s| || s[k] == q then k
    else if s[k] == '\\' && q != '`' then QuoteSkip(s, k + 2, q)
    else QuoteSkip(s, k + 1, q)
  }

  /** Scan a parenthesized group from k with `level` open parentheses. */
  function Group(s: string, k: nat, level: nat): Call
    requires k < |s| ==> level > 0 || s[k] == '('
    decreases |s| - k
  {
    if k >= |s| then RanOff
    else if IsQuote(s[k]) then
      var m := QuoteSkip(s, k + 1, s[k]);
      Group(s, m + 1, level)
    else if s[k] == '(' then Group(s, k + 1, level + 1)
    else if s[k] == ')' then if level == 1 then No else Group(s, k + 1, level - 1)
    else if s[k] == ',' && level == 1 then Yes
    else Group(s, k + 1, level)
  }

  /** Does a parenthesized group with a comma at its top level start at pos? */
  function CallScan(s: string, pos: nat): Call
    requires pos <= |s|
  {
    var k := SkipSpace(s, pos);
    if k < |s| && s[k] == '(' then Group(s, k, 0) else No
  }
}
