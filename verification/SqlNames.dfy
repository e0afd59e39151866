/** Words that are no keywords although they are spelled like one: names behind
    '.' and '@', the functions IF(…) and REPEAT(…), and what stands before ':='. */
module SqlNames {
  import opened Text
  import opened SqlLexer
  import opened SqlStatements
  import opened SqlEdges
  import opened SqlJoin
  import opened SqlGrammar
  import opened SqlGrammarProof
  import opened SqlRoundTrip
  import opened SqlPrinting
  import opened SqlHiddenText
  import opened SqlSpellings

  // ---- the look-ahead for a function call ----

  /** What stands between parentheses: characters, commas, quoted texts and more
      parentheses. */
  datatype Args =
    | Nil
    | Char(c: char, rest: Args)
    | Comma(rest: Args)
    | Quoted(quote: char, body: string, rest: Args)
    | Nested(inner: Args, rest: Args)

  function Written(a: Args): string {
    match a
    case Nil => ""
    case Char(c, rest) => [c] + Written(rest)
    case Comma(rest) => "," + Written(rest)
    case Quoted(q, body, rest) => [q] + body + [q] + Written(rest)
    case Nested(inner, rest) => "(" + Written(inner) + ")" + Written(rest)
  }

  predicate GoodArgs(a: Args) {
    match a
    case Nil => true
    case Char(c, rest) => !IsQuote(c) && c != '(' && c != ')' && c != ',' && GoodArgs(rest)
    case Comma(rest) => GoodArgs(rest)
    case Quoted(q, body, rest) => IsQuote(q) && QuoteSkip(body + [q], 0, q) == |body| && GoodArgs(rest)
    case Nested(inner, rest) => GoodArgs(inner) && GoodArgs(rest)
  }

  /** A comma outside the inner parentheses. */
  predicate HasComma(a: Args) {
    match a
    case Nil => false
    case Char(_, rest) => HasComma(rest)
    case Comma(_) => true
    case Quoted(_, _, rest) => HasComma(rest)
    case Nested(_, rest) => HasComma(rest)
  }

  lemma {:induction false} QuoteThere(s: string, i: nat, t: string, k: nat, q: char)
    requires i + |t| <= |s| && s[i..i + |t|] == t && k <= |t| && QuoteSkip(t, k, q) < |t|
    ensures QuoteSkip(s, i + k, q) == i + QuoteSkip(t, k, q)
    decreases |t| - k
  {
    if k < |t| {
      assert s[i + k] == t[k] by { assert s[i..i + |t|][k] == t[k]; }
      if t[k] != q {
        if t[k] == '\\' && q != '`' { QuoteThere(s, i, t, k + 2, q); } else { QuoteThere(s, i, t, k + 1, q); }
      }
    }
  }

  predicate At(s: string, k: nat, t: string) {
    k + |t| <= |s| && s[k..k + |t|] == t
  }

  lemma AtParts(s: string, k: nat, a: string, b: string)
    requires At(s, k, a + b)
    ensures At(s, k, a) && At(s, k + |a|, b)
    ensures a != "" ==> s[k] == a[0]
  {
    var t := s[k..k + |a + b|];
    assert t[..|a|] == a && t[|a|..] == b;
    if a != "" { assert t[0] == s[k]; }
  }

  // ---- one step of the look-ahead ----

  lemma GroupPlain(s: string, k: nat, level: nat)
    requires k < |s| && level > 0 && !IsQuote(s[k]) && s[k] != '(' && s[k] != ')' && (s[k] == ',' ==> level > 1)
    ensures Group(s, k, level) == Group(s, k + 1, level)
  {
  }

  lemma GroupStops(s: string, k: nat)
    requires k < |s| && s[k] == ','
    ensures Group(s, k, 1) == Yes
  {
  }

  lemma GroupQuote(s: string, k: nat, level: nat, m: nat)
    requires k < |s| && level > 0 && IsQuote(s[k]) && QuoteSkip(s, k + 1, s[k]) == m
    ensures Group(s, k, level) == Group(s, m + 1, level)
  {
  }

  lemma GroupParentheses(s: string, k: nat, level: nat)
    requires k < |s| && level > 0
    ensures s[k] == '(' ==> Group(s, k, level) == Group(s, k + 1, level + 1)
    ensures s[k] == ')' && level > 1 ==> Group(s, k, level) == Group(s, k + 1, level - 1)
  {
  }

  /** Reading the arguments at one level: behind them, or stopped at their comma. */
  lemma {:induction false} GroupReads(s: string, k: nat, a: Args, level: nat)
    requires GoodArgs(a) && level > 0 && At(s, k, Written(a))
    ensures Group(s, k, level) == if level == 1 && HasComma(a) then Yes else Group(s, k + |Written(a)|, level)
    decreases a, 1
  {
    hide QuoteSkip, GoodArgs, HasComma, Group, At, IsQuote;
    Unfolded(a);
    match a
    case Nil =>
    case Char(c, rest) =>
      AtParts(s, k, [c], Written(rest));
      AtLess(s, k, [c]);
      GroupReads(s, k + 1, rest, level);
      GroupPlain(s, k, level);
    case Comma(rest) =>
      AtParts(s, k, ",", Written(rest));
      AtLess(s, k, ",");
      NoQuotes();
      if level == 1 {
        GroupStops(s, k);
      } else {
        GroupReads(s, k + 1, rest, level);
        GroupPlain(s, k, level);
      }
    case Quoted(q, body, rest) => QuotedReads(s, k, q, body, rest, level);
    case Nested(inner, rest) => NestedReads(s, k, inner, rest, level);
  }

  lemma NoQuotes()
    ensures !IsQuote(',') && !IsQuote('(') && !IsQuote(')')
  {
  }

  lemma AtLess(s: string, k: nat, t: string)
    requires At(s, k, t) && t != ""
    ensures k < |s|
  {
  }

  lemma QuotedParts(s: string, k: nat, q: char, body: string, y: string)
    requires At(s, k, [q] + body + [q] + y)
    ensures var t := body + [q]; At(s, k + 1, t) && At(s, k + 1 + |t|, y) && k < |s| && s[k] == q
  {
    var t := body + [q];
    assert [q] + body + [q] + y == [q] + (t + y);
    AtParts(s, k, [q], t + y);
    AtParts(s, k + 1, t, y);
  }

  lemma {:induction false} QuotedReads(s: string, k: nat, q: char, body: string, rest: Args, level: nat)
    requires IsQuote(q) && QuoteSkip(body + [q], 0, q) == |body| && GoodArgs(rest) && level > 0
    requires At(s, k, Written(Args.Quoted(q, body, rest)))
    ensures Group(s, k, level)
            == if level == 1 && HasComma(rest) then Yes else Group(s, k + |Written(Args.Quoted(q, body, rest))|, level)
    decreases Args.Quoted(q, body, rest), 0
  {
    hide Group, QuoteSkip, HasComma, GoodArgs, IsQuote;
    var t := body + [q];
    QuotedParts(s, k, q, body, Written(rest));
    GroupReads(s, k + 1 + |t|, rest, level);
    QuoteAt(s, k + 1, t, q);
    GroupQuote(s, k, level, k + 1 + |body|);
  }

  lemma QuoteAt(s: string, i: nat, t: string, q: char)
    requires At(s, i, t) && QuoteSkip(t, 0, q) < |t|
    ensures QuoteSkip(s, i, q) == i + QuoteSkip(t, 0, q)
  {
    QuoteThere(s, i, t, 0, q);
  }

  lemma NestedParts(s: string, k: nat, x: string, y: string)
    requires At(s, k, "(" + x + ")" + y)
    ensures var m := k + 1 + |x|; At(s, k + 1, x) && At(s, m + 1, y) && m < |s| && s[k] == '(' && s[m] == ')'
  {
    assert "(" + x + ")" + y == "(" + (x + (")" + y));
    AtParts(s, k, "(", x + (")" + y));
    AtParts(s, k + 1, x, ")" + y);
    AtParts(s, k + 1 + |x|, ")", y);
  }

  lemma {:induction false} NestedReads(s: string, k: nat, inner: Args, rest: Args, level: nat)
    requires GoodArgs(inner) && GoodArgs(rest) && level > 0 && At(s, k, Written(Args.Nested(inner, rest)))
    ensures Group(s, k, level)
            == if level == 1 && HasComma(rest) then Yes else Group(s, k + |Written(Args.Nested(inner, rest))|, level)
    decreases Args.Nested(inner, rest), 0
  {
    hide Group, HasComma, GoodArgs, At;
    var m := k + 1 + |Written(inner)|;
    NestedParts(s, k, Written(inner), Written(rest));
    GroupReads(s, k + 1, inner, level + 1);
    GroupReads(s, m + 1, rest, level);
    GroupParentheses(s, k, level);
    GroupParentheses(s, m, level + 1);
  }

  lemma Unfolded(a: Args)
    requires GoodArgs(a)
    ensures match a
            case Nil => !HasComma(a)
            case Char(c, rest) =>
              !IsQuote(c) && c != '(' && c != ')' && c != ',' && GoodArgs(rest) && HasComma(a) == HasComma(rest)
            case Comma(rest) => GoodArgs(rest) && HasComma(a)
            case Quoted(q, body, rest) =>
              && IsQuote(q) && QuoteSkip(body + [q], 0, q) == |body| && GoodArgs(rest)
              && HasComma(a) == HasComma(rest)
            case Nested(inner, rest) => GoodArgs(inner) && GoodArgs(rest) && HasComma(a) == HasComma(rest)
  {
  }

  /** Parentheses after a word are a function call's exactly when they hold a comma
      that stands neither in a quoted text nor in inner parentheses. */
  lemma CallExactly(before: string, gap: string, a: Args, tail: string)
    requires Blank(gap) && GoodArgs(a)
    ensures CallScan(before + gap + "(" + Written(a) + ")" + tail, |before|) == if HasComma(a) then Yes else No
  {
    hide GoodArgs, HasComma, Group;
    var s := before + gap + "(" + Written(a) + ")" + tail;
    var k := |before| + |gap|;
    assert s == before + (gap + ("(" + (Written(a) + (")" + tail))));
    CallReads(s, k, a);
    assert forall m :: |before| <= m < k ==> s[m] == gap[m - |before|];
    assert BlankRange(s, |before|, k) && !IsSpace('(') && s[k] == '(';
    SkipsTo(s, |before|, k);
  }

  lemma CallReads(s: string, k: nat, a: Args)
    requires GoodArgs(a) && k + |Written(a)| + 2 <= |s| && s[k] == '(' && s[k + 1 + |Written(a)|] == ')'
    requires At(s, k + 1, Written(a))
    ensures Group(s, k, 0) == if HasComma(a) then Yes else No
  {
    hide GoodArgs, HasComma, Written;
    GroupReads(s, k + 1, a, 1);
  }

  // ---- reading signs, names and calls ----

  predicate IsSign(c: char) {
    c == '(' || c == ')' || c == '=' || c == ',' || c == ':' || c == '@' || c == '.'
  }

  /** One token, wherever it stands. */
  lemma TokensStep(s: string, p: Piece, t: Token)
    requires p.from < p.to <= |s| && Next(s, p.from) == Some(p) && !OpenCall(s, p) && TokenOf(s, p) == t && !t.Nothing?
    ensures Tokens(s, p.from) == Behind([t], Tokens(s, p.to))
  {
    hide Next, TokenOf, OpenCall;
  }

  lemma WordNext(s: string, i: nat, w: string)
    requires IsWord(w) && At(s, i, w)
    requires (i > 0 ==> !IsWordChar(s[i - 1])) && (i + |w| < |s| ==> !IsWordChar(s[i + |w|]))
    ensures Next(s, i) == Some(Piece(Word, i, i + |w|))
  {
    hide IsWordChar, IsSpace;
    InWord(s, i, w);
    WordRuns(s, i + 1, i + |w|);
    StartsWord(s[i]);
    assert WordAt(s, i) by { assert IsWordChar(s[i]); }
    hide WordEnd, WordAt;
  }

  lemma InWord(s: string, i: nat, w: string)
    requires IsWord(w) && At(s, i, w)
    ensures forall k :: i <= k < i + |w| ==> IsWordChar(s[k])
    ensures |w| > 0 && i + |w| <= |s| && s[i..i + |w|] == w
  {
    hide IsWordChar;
    forall k | i <= k < i + |w| ensures IsWordChar(s[k]) {
      assert s[k] == s[i..i + |w|][k - i];
    }
  }

  lemma StartsWord(c: char)
    requires IsWordChar(c)
    ensures c != '#' && c != '-' && c != '/' && !IsQuote(c) && c != ';'
  {
  }

  /** Nothing that makes a word a label or a function stands at j. */
  predicate Closes(s: string, j: nat) {
    j < |s| && (s[j] == ';' || s[j] == '@' || s[j] == '.' || s[j] == ',' || s[j] == ')')
  }

  lemma ClosesIs(s: string, j: nat)
    requires Closes(s, j)
    ensures j < |s| && !IsWordChar(s[j]) && LabelEnd(s, j) == None && CallScan(s, j) == No
  {
  }

  /** A word right before ';' or such a sign: no label, no function. */
  lemma WordPiece(s: string, i: nat, w: string)
    requires IsWord(w) && At(s, i, w) && (i > 0 ==> !IsWordChar(s[i - 1])) && Closes(s, i + |w|)
    ensures var p := Piece(Word, i, i + |w|);
            && Next(s, i) == Some(p) && p.from < p.to <= |s| && !OpenCall(s, p)
            && TokenOf(s, p)
               == WordToken(KeywordOf(Upper(w)), i > 0 && (s[i - 1] == '@' || s[i - 1] == '.'), false, false)
  {
    hide KeywordOf, Upper, LabelEnd, CallScan, Next, Closes, IsWord, At, IsWordChar;
    ClosesIs(s, i + |w|);
    WordNext(s, i, w);
    InWord(s, i, w);
  }

  lemma NamePlaces(v: string, c: char, w: string, rest: string)
    requires v != ""
    ensures var s, i, j := v + [c] + w + ("; " + rest), |v|, |v| + 1 + |w|;
            && At(s, 0, v) && At(s, i + 1, w) && j + 1 < |s| && s[i] == c && s[j] == ';' && s[j + 1] == ' '
            && s == v + [c] + w + "; " + rest && j + 2 == |v + [c] + w + "; "|
  {
    var s := v + [c] + w + ("; " + rest);
    assert s[..|v|] == v && s[|v| + 1..|v| + 1 + |w|] == w;
  }

  lemma SignPiece(s: string, i: nat)
    requires i < |s| && IsSign(s[i])
    ensures var p := Piece(Other, i, i + 1); Next(s, i) == Some(p) && TokenOf(s, p) == Token.Sign && !OpenCall(s, p)
  {
  }

  lemma NoWordChar(c: char)
    requires IsSign(c)
    ensures !IsWordChar(c)
  {
  }

  lemma LastChar(front: string)
    requires front != "" && front[|front| - 1] == ' '
    ensures Detached(front)
  {
  }

  /** A word, '@' or '.', and a name up to j. */
  lemma NameTokens(s: string, v: string, w: string, j: nat)
    requires IsWord(v) && KeywordOf(Upper(v)) == Keyword.Plain && IsWord(w) && At(s, 0, v) && At(s, |v| + 1, w)
    requires j == |v| + 1 + |w| < |s| && Closes(s, j) && Closes(s, |v|) && (s[|v|] == '@' || s[|v|] == '.')
    ensures Tokens(s, 0) == Behind([W], Tokens(s, |v|))
    ensures Tokens(s, |v|) == Behind([Token.Sign], Tokens(s, |v| + 1))
    ensures Tokens(s, |v| + 1) == Behind([WordToken(KeywordOf(Upper(w)), true, false, false)], Tokens(s, j))
  {
    hide *;
    var i := |v|;
    Signs();
    SignStep(s, i);
    FirstWord(s, v);
    NameStep(s, i + 1, w);
  }

  lemma FirstWord(s: string, v: string)
    requires IsWord(v) && KeywordOf(Upper(v)) == Keyword.Plain && At(s, 0, v) && Closes(s, |v|)
    ensures |v| <= |s| && Tokens(s, 0) == Behind([W], Tokens(s, |v|))
  {
    hide *;
    WordLength(v);
    WordPiece(s, 0, v);
    PlainWordIs();
    TokensStep(s, Piece(Word, 0, |v|), W);
  }

  lemma NameStep(s: string, i: nat, w: string)
    requires IsWord(w) && At(s, i, w) && 0 < i < |s| && (s[i - 1] == '@' || s[i - 1] == '.') && !IsWordChar(s[i - 1])
    requires Closes(s, i + |w|)
    ensures i + |w| <= |s|
            && Tokens(s, i) == Behind([WordToken(KeywordOf(Upper(w)), true, false, false)], Tokens(s, i + |w|))
  {
    hide *;
    WordLength(w);
    WordPiece(s, i, w);
    TokensStep(s, Piece(Word, i, i + |w|), WordToken(KeywordOf(Upper(w)), true, false, false));
  }

  lemma EndTokens(s: string, j: nat, front: string, rest: string)
    requires j + 1 < |s| && s[j] == ';' && s[j + 1] == ' ' && s == front + rest && |front| == j + 2
    ensures Tokens(s, j) == Behind([Semicolon], Tokens(rest, 0))
  {
    hide *;
    TokensSemi(s, j);
    TokensGap(s, j + 1);
    LastChar(front);
    TokensShift(front, rest, 0);
  }

  /** v, '@' or '.', w, ';', a blank and more. */
  lemma NameReads(v: string, c: char, w: string, rest: string)
    requires IsWord(v) && KeywordOf(Upper(v)) == Keyword.Plain && (c == '@' || c == '.') && IsWord(w)
    ensures Tokens(v + [c] + w + ("; " + rest), 0)
            == Behind([W], Behind([Token.Sign], Behind([WordToken(KeywordOf(Upper(w)), true, false, false)],
                                                       Behind([Semicolon], Tokens(rest, 0)))))
  {
    hide *;
    WordLength(v);
    var s := v + [c] + w + ("; " + rest);
    var j := |v| + 1 + |w|;
    NamePlaces(v, c, w, rest);
    CloseSigns(s, j);
    CloseSigns(s, |v|);
    NameTokens(s, v, w, j);
    EndTokens(s, j, v + [c] + w + "; ", rest);
  }

  lemma PlainWordIs()
    ensures WordToken(Keyword.Plain, false, false, false) == W
  {
  }

  // ---- what the tracker makes of them ----

  const BEGINS := [K(Begin), K(Not), K(Atomic)]

  lemma OpenBody(s: string, ts: seq<Token>)
    requires Proper(s) && Tokens(s, 0) == Some(ts)
    ensures var x := "BEGIN NOT ATOMIC " + s; Tokens(x, 0) == Some(BEGINS + ts) && x != "" && IsWordChar(x[0])
  {
    hide *;
    OpenWord();
    NotWord();
    AtomicWord();
    OpenJoins(s);
    var s1 := "ATOMIC" + (" " + s);
    var s2 := "NOT" + (" " + s1);
    WordThen("ATOMIC", Atomic, s);
    WordThen("NOT", Not, s1);
    WordThen("BEGIN", Begin, s2);
    OpenTokens(ts);
  }

  lemma OpenTokens(ts: seq<Token>)
    ensures Behind([K(Begin)], Behind([K(Not)], Behind([K(Atomic)], Some(ts)))) == Some(BEGINS + ts)
  {
    assert [K(Not)] + ([K(Atomic)] + ts) == [K(Not), K(Atomic)] + ts;
    assert [K(Begin)] + ([K(Not), K(Atomic)] + ts) == BEGINS + ts;
  }

  lemma OpenJoins(s: string)
    ensures var s1 := "ATOMIC" + (" " + s);
            var s2 := "NOT" + (" " + s1);
            var x := "BEGIN" + (" " + s2);
            x == "BEGIN NOT ATOMIC " + s && Proper(s1) && Proper(s2) && x != "" && IsWordChar(x[0])
  {
  }

  /** A text that opens a body and runs to rest is one statement. */
  lemma BodyIsOne(s: string, ts: seq<Token>, c: Control)
    requires Proper(s) && !IsSpace(s[|s| - 1]) && Tokens(s, 0) == Some(ts)
    requires Feed(START, BEGINS) == Some(c) && Feed(c, ts).Some? && AtRest(Feed(c, ts).value)
    ensures var x := "BEGIN NOT ATOMIC " + s; Split(x) == Some([x])
  {
    hide *;
    var x := "BEGIN NOT ATOMIC " + s;
    OpenBody(s, ts);
    Compose(START, BEGINS, c, ts, Feed(c, ts).value);
    LastSame(s);
    FeedsAlone(x, BEGINS + ts);
    SplitAlone(x);
  }

  lemma LastSame(s: string)
    requires Proper(s)
    ensures var x := "BEGIN NOT ATOMIC " + s; x != "" && x[|x| - 1] == s[|s| - 1]
  {
  }

  lemma NameFeeds(c: Control, name: Token)
    requires InBody(c, 1) && name.WordToken? && name.isName
    ensures var ts := [W, Token.Sign, name, Semicolon, K(End)]; Feed(c, ts).Some? && AtRest(Feed(c, ts).value)
  {
    var ts := [W, Token.Sign, name, Semicolon, K(End)];
    var c1 := c.(lastWord := Keyword.Plain, atBodyStatement := false);
    var c2 := c1.(lastWord := name.word);
    var c3 := c2.(atBodyStatement := true);
    var c4 := c3.(lastWord := End, depth := 0, afterEnd := true, atBodyStatement := false);
    Chain(c, ts, 0, [c, c1, c1, c2, c3, c4]);
    assert ts[0..] == ts;
  }

  /** A name behind '@' or '.' is no keyword, whatever it is: `SET@end` closes no
      block and `t.begin` opens none. */
  lemma NamesAreNoKeywords(v: string, c: char, w: string)
    requires IsWord(v) && KeywordOf(Upper(v)) == Keyword.Plain && (c == '@' || c == '.') && IsWord(w)
    ensures var x := "BEGIN NOT ATOMIC " + (v + [c] + w + ("; " + "END")); Split(x) == Some([x])
  {
    hide *;
    LastWords();
    NameReads(v, c, w, "END");
    var name := WordToken(KeywordOf(Upper(w)), true, false, false);
    var s := v + [c] + w + ("; " + "END");
    var ts := [W, Token.Sign, name, Semicolon, K(End)];
    NameText(v, c, w, name);
    LooseStart();
    var body := BeginNotAtomic(START);
    NameFeeds(body, name);
    BeginsIs();
    BodyIsOne(s, ts, body);
  }

  lemma BeginsIs()
    ensures BEGINS == [K(Begin), K(Not), K(Atomic)]
  {
  }

  lemma NameText(v: string, c: char, w: string, name: Token)
    requires IsWord(v)
    ensures var s := v + [c] + w + ("; " + "END"); Proper(s) && !IsSpace(s[|s| - 1])
    ensures Behind([W], Behind([Token.Sign], Behind([name], Behind([Semicolon], Some([K(End)])))))
            == Some([W, Token.Sign, name, Semicolon, K(End)])
  {
    var s := v + [c] + w + ("; " + "END");
    assert s[0] == v[0] && IsWordChar(v[0]) && s[|s| - 1] == 'D';
    assert [name] + ([Semicolon] + [K(End)]) == [name, Semicolon, K(End)];
    assert [Token.Sign] + [name, Semicolon, K(End)] == [Token.Sign, name, Semicolon, K(End)];
    assert [W] + [Token.Sign, name, Semicolon, K(End)] == [W, Token.Sign, name, Semicolon, K(End)];
  }

  lemma LooseStart()
    ensures Loose(START, []) && !START.inLabel
  {
  }

  // ---- calls ----

  /** A block word right before its arguments: a function. */
  lemma CallPiece(s: string, w: string, a: Args, tail: string)
    requires IsWord(w) && TakesArguments(KeywordOf(Upper(w))) && GoodArgs(a)
    requires s == w + "(" + Written(a) + ")" + tail
    ensures var p := Piece(Word, 0, |w|);
            && Next(s, 0) == Some(p) && p.from < p.to <= |s| && !OpenCall(s, p)
            && TokenOf(s, p) == WordToken(KeywordOf(Upper(w)), false, false, HasComma(a))
  {
    hide KeywordOf, Upper, CallScan, GoodArgs, HasComma, Written, Next, LabelEnd, IsWordChar, IsWord, TakesArguments;
    CallStarts(s, w, a, tail);
    InWord(s, 0, w);
    OpensCall(s, |w|);
    WordNext(s, 0, w);
    hide At;
  }

  lemma CallStarts(s: string, w: string, a: Args, tail: string)
    requires s == w + "(" + Written(a) + ")" + tail && GoodArgs(a)
    ensures At(s, 0, w) && |w| < |s| && s[|w|] == '('
    ensures CallScan(s, |w|) == if HasComma(a) then Yes else No
  {
    hide CallScan, GoodArgs, HasComma, Written, IsSpace;
    assert w + "" == w && s == w + "" + "(" + Written(a) + ")" + tail;
    NoBlank();
    CallExactly(w, "", a, tail);
    assert s == w + ("(" + Written(a) + ")" + tail);
    assert s[0..|w|] == w;
  }

  lemma NoBlank()
    ensures Blank("")
  {
  }

  lemma OpensCall(s: string, j: nat)
    requires j < |s| && s[j] == '('
    ensures LabelEnd(s, j) == None && !IsWordChar(s[j])
  {
  }

  lemma SignStep(s: string, i: nat)
    requires i < |s| && IsSign(s[i])
    ensures Tokens(s, i) == Behind([Token.Sign], Tokens(s, i + 1)) && !IsWordChar(s[i])
  {
    hide *;
    SignPiece(s, i);
    NoWordChar(s[i]);
    TokensStep(s, Piece(Other, i, i + 1), Token.Sign);
  }

  lemma WordLength(w: string)
    requires IsWord(w)
    ensures |w| > 0
  {
  }

  lemma PlainStep(s: string, i: nat, w: string)
    requires IsWord(w) && KeywordOf(Upper(w)) == Keyword.Plain && At(s, i, w) && 0 < i <= |s| && !IsWordChar(s[i - 1])
    requires s[i - 1] != '@' && s[i - 1] != '.' && Closes(s, i + |w|)
    ensures i + |w| <= |s| && Tokens(s, i) == Behind([W], Tokens(s, i + |w|))
  {
    hide *;
    WordLength(w);
    WordPiece(s, i, w);
    PlainWordIs();
    TokensStep(s, Piece(Word, i, i + |w|), W);
  }

  /** Two words between parentheses. */
  lemma PairTokens(s: string, i: nat, a: string, b: string, m: nat, n: nat)
    requires IsWord(a) && KeywordOf(Upper(a)) == Keyword.Plain && IsWord(b) && KeywordOf(Upper(b)) == Keyword.Plain
    requires m == i + 1 + |a| && n == m + 1 + |b| && n < |s| && s[i] == '(' && s[m] == ',' && s[n] == ')'
    requires At(s, i + 1, a) && At(s, m + 1, b)
    ensures Tokens(s, i)
            == Behind([Token.Sign],
                      Behind([W], Behind([Token.Sign], Behind([W], Behind([Token.Sign], Tokens(s, n + 1))))))
  {
    hide *;
    Signs();
    CloseSigns(s, m);
    CloseSigns(s, n);
    SignStep(s, i);
    PlainStep(s, i + 1, a);
    SignStep(s, m);
    PlainStep(s, m + 1, b);
    SignStep(s, n);
  }

  lemma CloseSigns(s: string, j: nat)
    requires j < |s| && (s[j] == ',' || s[j] == ')' || s[j] == ';' || s[j] == '@' || s[j] == '.')
    ensures Closes(s, j)
  {
  }

  lemma Signs()
    ensures IsSign('(') && IsSign(',') && IsSign(')') && IsSign(':') && IsSign('=') && IsSign('@') && IsSign('.')
  {
  }

  lemma AtFrom(s: string, i: nat, t: string, x: nat)
    requires At(s, i, t) && x <= |t|
    ensures At(s, i + x, t[x..])
  {
    assert t[..x] + t[x..] == t;
    AtParts(s, i, t[..x], t[x..]);
  }

  lemma AtTo(s: string, i: nat, t: string, y: nat)
    requires At(s, i, t) && y <= |t|
    ensures At(s, i, t[..y])
  {
    assert t[..y] + t[y..] == t;
    AtParts(s, i, t[..y], t[y..]);
  }

  lemma AtInside(s: string, i: nat, t: string, x: nat, y: nat)
    requires At(s, i, t) && x <= y <= |t|
    ensures At(s, i + x, t[x..y]) && (x < |t| ==> AtOne(s, i + x, t[x]))
  {
    AtFrom(s, i, t, x);
    AtTo(s, i + x, t[x..], y - x);
    assert t[x..][..y - x] == t[x..y];
    if x < |t| { AtHead(s, i + x, t[x..]); }
    hide At;
  }

  predicate AtOne(s: string, i: nat, c: char) {
    i < |s| && s[i] == c
  }

  lemma AtHead(s: string, i: nat, t: string)
    requires At(s, i, t) && t != ""
    ensures AtOne(s, i, t[0])
  {
    assert s[i..i + |t|][0] == s[i];
  }

  lemma PairSlices(a: string, b: string)
    ensures var t, m, n := "(" + a + "," + b + ")", 1 + |a|, 2 + |a| + |b|;
            t[0] == '(' && t[m] == ',' && t[n] == ')' && |t| == n + 1 && t[1..m] == a && t[m + 1..n] == b
  {
  }

  lemma PairParts(s: string, i: nat, a: string, b: string)
    requires At(s, i, "(" + a + "," + b + ")")
    ensures var m, n := i + 1 + |a|, i + 2 + |a| + |b|;
            && At(s, i + 1, a) && At(s, m + 1, b) && n < |s| && s[i] == '(' && s[m] == ',' && s[n] == ')'
  {
    var t := "(" + a + "," + b + ")";
    PairSlices(a, b);
    AtLength(s, i, t);
    AtInside(s, i, t, 0, 0);
    AtInside(s, i, t, 1, 1 + |a|);
    AtInside(s, i, t, 1 + |a|, 1 + |a|);
    AtInside(s, i, t, 2 + |a|, 2 + |a| + |b|);
    AtInside(s, i, t, 2 + |a| + |b|, 2 + |a| + |b|);
    hide At;
  }

  lemma AtLength(s: string, i: nat, t: string)
    requires At(s, i, t)
    ensures i + |t| <= |s|
  {
  }

  /** The text of w(a,b); END. */
  function CallText(w: string, a: string, b: string): string {
    w + "(" + a + "," + b + ")" + "; END"
  }

  function Pair(a: string, b: string): Args {
    Characters(a, Comma(Characters(b, Args.Nil)))
  }

  function Characters(a: string, rest: Args): Args {
    if a == "" then rest else Char(a[0], Characters(a[1..], rest))
  }

  predicate AllWordChars(a: string) {
    forall k :: 0 <= k < |a| ==> IsWordChar(a[k])
  }

  lemma {:induction false} CharactersWritten(a: string, rest: Args)
    requires AllWordChars(a) && GoodArgs(rest)
    ensures Written(Characters(a, rest)) == a + Written(rest) && GoodArgs(Characters(a, rest))
    ensures HasComma(Characters(a, rest)) == HasComma(rest)
    decreases |a|
  {
    hide *;
    CharactersNext(a, rest);
    if a == "" {
      assert a + Written(rest) == Written(rest);
    } else {
      CharactersWritten(a[1..], rest);
      WordCharPlain(a[0]);
      CharIs(a[0], Characters(a[1..], rest));
      assert [a[0]] + (a[1..] + Written(rest)) == a + Written(rest);
    }
  }

  lemma CharactersNext(a: string, rest: Args)
    requires AllWordChars(a)
    ensures a == "" ==> Characters(a, rest) == rest
    ensures a != "" ==>
              Characters(a, rest) == Char(a[0], Characters(a[1..], rest)) && IsWordChar(a[0]) && AllWordChars(a[1..])
  {
    hide IsWordChar;
  }

  lemma WordCharPlain(c: char)
    requires IsWordChar(c)
    ensures !IsQuote(c) && c != '(' && c != ')' && c != ','
  {
  }

  lemma CharIs(c: char, rest: Args)
    requires !IsQuote(c) && c != '(' && c != ')' && c != ',' && GoodArgs(rest)
    ensures GoodArgs(Char(c, rest)) && HasComma(Char(c, rest)) == HasComma(rest)
    ensures Written(Char(c, rest)) == [c] + Written(rest)
  {
  }

  lemma WordsAll(a: string)
    requires IsWord(a)
    ensures AllWordChars(a)
  {
    hide IsWordChar;
  }

  lemma PairIs(a: string, b: string)
    requires IsWord(a) && IsWord(b)
    ensures Written(Pair(a, b)) == a + "," + b && GoodArgs(Pair(a, b)) && HasComma(Pair(a, b))
  {
    WordsAll(a);
    WordsAll(b);
    CharactersWritten(b, Args.Nil);
    CharactersWritten(a, Comma(Characters(b, Args.Nil)));
    assert b + "" == b && a + ("," + b) == a + "," + b;
  }

  function CallTokens(k: Keyword): seq<Token> {
    [WordToken(k, false, false, true), Token.Sign, W, Token.Sign, W, Token.Sign, Semicolon, K(End)]
  }

  lemma CallPlaces(w: string, a: string, b: string)
    requires IsWord(w)
    ensures var s, i := CallText(w, a, b), |w|;
            var j := i + |a| + |b| + 3;
            && s == w + "(" + (a + "," + b) + ")" + "; END" && At(s, i, "(" + a + "," + b + ")")
            && j + 1 < |s| && s[j] == ';' && s[j + 1] == ' ' && s == w + "(" + a + "," + b + ")" + "; " + "END"
            && |w + "(" + a + "," + b + ")" + "; "| == j + 2 && Proper(s) && !IsSpace(s[|s| - 1])
  {
    var s, i := CallText(w, a, b), |w|;
    var t := "(" + a + "," + b + ")";
    assert s == w + t + "; END";
    assert s[i..i + |t|] == t;
    assert s[0] == w[0] && IsWordChar(w[0]) && s[|s| - 1] == 'D';
  }

  lemma CallReadsAs(w: string, a: string, b: string, k: Keyword)
    requires IsWord(w) && KeywordOf(Upper(w)) == k && TakesArguments(k)
    requires IsWord(a) && KeywordOf(Upper(a)) == Keyword.Plain && IsWord(b) && KeywordOf(Upper(b)) == Keyword.Plain
    ensures Tokens(CallText(w, a, b), 0) == Some(CallTokens(k))
  {
    hide *;
    var s, i := CallText(w, a, b), |w|;
    CallPlaces(w, a, b);
    CallFirst(w, a, b, k);
    CallPair(s, i, a, b);
    CallLast(w, a, b);
    CallTokensAre(k);
  }

  lemma CallFirst(w: string, a: string, b: string, k: Keyword)
    requires IsWord(w) && KeywordOf(Upper(w)) == k && TakesArguments(k) && IsWord(a) && IsWord(b)
    ensures Tokens(CallText(w, a, b), 0)
            == Behind([WordToken(k, false, false, true)], Tokens(CallText(w, a, b), |w|))
  {
    hide *;
    WordLength(w);
    CallPlaces(w, a, b);
    PairIs(a, b);
    CallPiece(CallText(w, a, b), w, Pair(a, b), "; END");
    TokensStep(CallText(w, a, b), Piece(Word, 0, |w|), WordToken(k, false, false, true));
  }

  lemma CallPair(s: string, i: nat, a: string, b: string)
    requires IsWord(a) && KeywordOf(Upper(a)) == Keyword.Plain && IsWord(b) && KeywordOf(Upper(b)) == Keyword.Plain
    requires At(s, i, "(" + a + "," + b + ")")
    ensures Tokens(s, i)
            == Behind([Token.Sign],
                      Behind([W], Behind([Token.Sign],
                                         Behind([W], Behind([Token.Sign], Tokens(s, i + |a| + |b| + 3))))))
  {
    hide *;
    AtLength(s, i, "(" + a + "," + b + ")");
    PairParts(s, i, a, b);
    PairTokens(s, i, a, b, i + 1 + |a|, i + 2 + |a| + |b|);
  }

  lemma CallLast(w: string, a: string, b: string)
    requires IsWord(w)
    ensures var s, j := CallText(w, a, b), |w| + |a| + |b| + 3;
            j <= |s| && Tokens(s, j) == Behind([Semicolon], Some([K(End)]))
  {
    hide *;
    LastWords();
    CallPlaces(w, a, b);
    EndTokens(CallText(w, a, b), |w| + |a| + |b| + 3, w + "(" + a + "," + b + ")" + "; ", "END");
  }

  lemma CallTokensAre(k: Keyword)
    ensures var call := WordToken(k, false, false, true);
            var ts := Behind([Token.Sign], Behind([W], Behind([Token.Sign],
                                                              Behind([Semicolon], Some([K(End)])))));
            Behind([call], Behind([Token.Sign], Behind([W], ts))) == Some(CallTokens(k))
  {
    var call := WordToken(k, false, false, true);
    assert [Token.Sign] + ([Semicolon] + [K(End)]) == [Token.Sign, Semicolon, K(End)];
    assert [W] + [Token.Sign, Semicolon, K(End)] == [W, Token.Sign, Semicolon, K(End)];
    assert [Token.Sign] + [W, Token.Sign, Semicolon, K(End)] == [Token.Sign, W, Token.Sign, Semicolon, K(End)];
    assert [W] + [Token.Sign, W, Token.Sign, Semicolon, K(End)]
           == [W, Token.Sign, W, Token.Sign, Semicolon, K(End)];
    assert [Token.Sign] + [W, Token.Sign, W, Token.Sign, Semicolon, K(End)]
           == [Token.Sign, W, Token.Sign, W, Token.Sign, Semicolon, K(End)];
    assert [call] + [Token.Sign, W, Token.Sign, W, Token.Sign, Semicolon, K(End)] == CallTokens(k);
  }

  lemma CallFeeds(c: Control, k: Keyword)
    requires InBody(c, 1) && TakesArguments(k)
    ensures Feed(c, CallTokens(k)).Some? && AtRest(Feed(c, CallTokens(k)).value)
  {
    var ts := CallTokens(k);
    var c1 := c.(lastWord := k, atBodyStatement := false);
    var c2 := c1.(lastWord := Keyword.Plain);
    var c3 := c2.(atBodyStatement := true);
    var c4 := c3.(lastWord := End, depth := 0, afterEnd := true, atBodyStatement := false);
    Chain(c, ts, 0, [c, c1, c1, c2, c2, c2, c2, c3, c4]);
    assert ts[0..] == ts;
  }

  /** IF and REPEAT, in any letter case, right before two arguments are functions,
      even where a statement starts: they open no block. */
  lemma CallsOpenNoBlock(w: string, a: string, b: string)
    requires IsWord(w) && (Upper(w) == "IF" || Upper(w) == "REPEAT")
    requires IsWord(a) && KeywordOf(Upper(a)) == Keyword.Plain && IsWord(b) && KeywordOf(Upper(b)) == Keyword.Plain
    ensures var x := "BEGIN NOT ATOMIC " + CallText(w, a, b); Split(x) == Some([x])
  {
    var k := KeywordOf(Upper(w));
    BlockWords(w);
    hide *;
    CallReadsAs(w, a, b, k);
    CallPlaces(w, a, b);
    LooseStart();
    BeginsIs();
    var body := BeginNotAtomic(START);
    CallFeeds(body, k);
    BodyIsOne(CallText(w, a, b), CallTokens(k), body);
  }

  lemma BlockWords(w: string)
    requires IsWord(w) && (Upper(w) == "IF" || Upper(w) == "REPEAT")
    ensures TakesArguments(KeywordOf(Upper(w)))
  {
    hide KeywordOf, Upper;
    if Upper(w) == "IF" {
      KnownChoice(If, Upper(w));
    } else {
      KnownRepeat(Upper(w));
    }
  }

  // ---- assignments ----

  lemma AssignPiece(s: string, w: string)
    requires IsWord(w) && At(s, 0, w) && |w| + 2 < |s| && s[|w|] == ' ' && s[|w| + 1] == ':' && s[|w| + 2] == '='
    ensures var p := Piece(Word, 0, |w|);
            Next(s, 0) == Some(p) && !OpenCall(s, p)
            && TokenOf(s, p) == WordToken(KeywordOf(Upper(w)), false, false, false)
  {
    forall k | 0 <= k < |w| ensures IsWordChar(s[k]) {
      assert s[k] == s[0..|w|][k];
    }
    WordRuns(s, 1, |w|);
    assert SkipSpace(s, |w| + 1) == |w| + 1 && SkipSpace(s, |w|) == |w| + 1;
    hide KeywordOf, Upper, Group;
  }

  lemma AssignPlaces(w: string, rest: string)
    ensures var s, i := w + " := " + rest, |w|;
            && At(s, 0, w) && i + 3 < |s| && s[i] == ' ' && s[i + 1] == ':' && s[i + 2] == '=' && s[i + 3] == ' '
            && |w + " := "| == i + 4 && (w + " := ")[i + 3] == ' '
  {
    var s := w + " := " + rest;
    assert s[0..|w|] == w && s == w + (" := " + rest);
  }

  lemma AssignTokens(w: string, rest: string)
    requires IsWord(w) && KeywordOf(Upper(w)) == Keyword.Plain
    ensures Tokens(w + " := " + rest, 0)
            == Behind([W], Behind([Token.Sign], Behind([Token.Sign], Tokens(rest, 0))))
  {
    hide *;
    var s, i := w + " := " + rest, |w|;
    AssignPlaces(w, rest);
    WordLength(w);
    AssignPiece(s, w);
    PlainWordIs();
    Signs();
    TokensStep(s, Piece(Word, 0, i), W);
    TokensGap(s, i);
    SignStep(s, i + 1);
    SignStep(s, i + 2);
    TokensGap(s, i + 3);
    LastChar(w + " := ");
    TokensShift(w + " := ", rest, 0);
  }

  /** Before ':=' stands no label: what follows is read as part of the statement,
      though it starts with the word of a block. */
  lemma AssignSplitsOff(w: string, ts: seq<Token>, ws: seq<string>, y: string)
    requires IsWord(w) && KeywordOf(Upper(w)) == Keyword.Plain
    requires NoSemicolon(ts) && ts != [] && Printable(ts) && Worded(ts, ws) && IsStatement(y)
    ensures |ws| == |ts| && var x := w + " := " + Print(ts, ws, false); Split(x + "\n;\n" + y) == Some([x, y])
  {
    hide *;
    var all := [W, Token.Sign, Token.Sign] + ts;
    WordedLength(ts, ws);
    var rest := Print(ts, ws, false);
    var x := w + " := " + rest;
    AssignPlain(ts);
    PrintReads(ts, ws, false);
    PrintLast(ts, ws, false);
    AssignTokens(w, rest);
    AssignAll(ts);
    AssignFirst(w, rest);
    WordStarts(x, all);
    IsPrint(Script.Plain(all), x);
    PrintIsStatement(Script.Plain(all), x);
    LineBreak();
    SplitUndoesJoin([x, y], "\n");
    JoinTwo(x, y, "\n");
    assert x + ("\n" + ";" + "\n" + y) == x + "\n;\n" + y by { assert "\n" + ";" + "\n" == "\n;\n"; }
  }

  lemma AssignAll(ts: seq<Token>)
    ensures Behind([W], Behind([Token.Sign], Behind([Token.Sign], Some(ts)))) == Some([W, Token.Sign, Token.Sign] + ts)
  {
    assert [Token.Sign] + ([Token.Sign] + ts) == [Token.Sign, Token.Sign] + ts;
    assert [W] + ([Token.Sign, Token.Sign] + ts) == [W, Token.Sign, Token.Sign] + ts;
  }

  lemma AssignFirst(w: string, rest: string)
    requires IsWord(w) && rest != ""
    ensures var x := w + " := " + rest; x != "" && IsWordChar(x[0]) && x[|x| - 1] == rest[|rest| - 1]
  {
  }

  lemma AssignPlain(ts: seq<Token>)
    requires NoSemicolon(ts)
    ensures var all := [W, Token.Sign, Token.Sign] + ts;
            GoodScript(Script.Plain(all)) && ScriptTokens(Script.Plain(all)) == all
  {
    var all := [W, Token.Sign, Token.Sign] + ts;
    assert NoSemicolon(all);
    SimpleFirst(all);
    PlainIsScript(all);
  }
}
