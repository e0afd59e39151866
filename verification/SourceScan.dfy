/** Comment masking and brace matching: an array of characters blanked in
    place, strings skipped with their escapes. */
module SourceScan {
  import opened Text
  import opened SqlLexer

  datatype Lang = Sql | Js

  /** Index just past the string that is open at i, `q` being its quote; a
      backslash escapes whatever the quote, and the end of the text may be
      overshot. */
  function StringEnd(s: string, i: nat, q: char): (k: nat)
    ensures i < k
    decreases |s| - i
  {
    if i >= |s| || s[i] == q then i + 1
    else if s[i] == '\\' then StringEnd(s, i + 2, q)
    else StringEnd(s, i + 1, q)
  }

  predicate LineStart(s: string, lang: Lang, i: nat)
    requires i < |s|
  {
    match lang
    case Js => s[i] == '/' && i + 1 < |s| && s[i + 1] == '/'
    case Sql => LineCommentAt(s, i)
  }

  /** Index of the next line break, or |s|. */
  function LineBreak(s: string, i: nat): (k: nat)
    requires i <= |s|
    ensures i <= k <= |s|
    ensures k < |s| ==> s[k] == '\n'
    ensures forall m :: i <= m < k ==> s[m] != '\n'
    decreases |s| - i
  {
    if i == |s| || s[i] == '\n' then i else LineBreak(s, i + 1)
  }

  function BlockEnd(s: string, i: nat): (k: nat)
    ensures i < |s| ==> i < k <= |s|
  {
    match CommentEnd(s, i + 2) case Some(k) => k case None => |s|
  }

  /** Where the scan goes on after what starts at i. */
  function Skip(s: string, lang: Lang, i: nat): (k: nat)
    requires i < |s|
    ensures i < k
  {
    if IsQuote(s[i]) then StringEnd(s, i + 1, s[i])
    else if LineStart(s, lang, i) then LineBreak(s, i + 1)
    else if BlockCommentAt(s, i) then BlockEnd(s, i)
    else i + 1
  }

  predicate CommentAt(s: string, lang: Lang, i: nat)
    requires i < |s|
  {
    !IsQuote(s[i]) && (LineStart(s, lang, i) || BlockCommentAt(s, i))
  }

  /** Does the scan from i find position k inside a comment? */
  predicate Masks(s: string, lang: Lang, i: nat, k: nat)
    decreases |s| - i
  {
    && i < |s|
    && ((CommentAt(s, lang, i) && i <= k < Skip(s, lang, i)) || Masks(s, lang, Skip(s, lang, i), k))
  }

  /** Every comment character a space, line breaks kept. */
  function Masked(s: string, lang: Lang): (r: string)
    ensures |r| == |s|
    ensures forall k :: 0 <= k < |s| ==> (r[k] == '\n' <==> s[k] == '\n') && (r[k] == s[k] || r[k] == ' ')
  {
    seq(|s|, k requires 0 <= k < |s| => if Masks(s, lang, 0, k) && s[k] != '\n' then ' ' else s[k])
  }

  /** The scan from i touches nothing before i. */
  lemma {:induction false} MasksAhead(s: string, lang: Lang, i: nat, k: nat)
    requires Masks(s, lang, i, k)
    ensures i <= k
    decreases |s| - i
  {
    if !(CommentAt(s, lang, i) && i <= k < Skip(s, lang, i)) { MasksAhead(s, lang, Skip(s, lang, i), k); }
  }

  /** Index just past the string that starts at `start`. */
  method SkipString(content: string, start: nat) returns (end: nat)
    requires start < |content|
    ensures end == StringEnd(content, start + 1, content[start])
  {
    var quote := content[start];
    var i := start + 1;
    while i < |content| && content[i] != quote
      invariant StringEnd(content, start + 1, quote) == StringEnd(content, i, quote)
    {
      if content[i] == '\\' { i := i + 1; }
      i := i + 1;
    }
    return i + 1;
  }

  /** Spaces in the cells from..to, line breaks kept. */
  method Blank(out: array<char>, from: nat, to: nat)
    requires from <= to <= out.Length
    modifies out
    ensures forall k :: 0 <= k < out.Length ==>
              out[k] == if from <= k < to && old(out[k]) != '\n' then ' ' else old(out[k])
  {
    for k := from to to
      invariant forall m :: 0 <= m < out.Length ==>
                  out[m] == if from <= m < k && old(out[m]) != '\n' then ' ' else old(out[m])
    {
      if out[k] != '\n' { out[k] := ' '; }
    }
  }

  /** The cell of position k while the scan stands at i. */
  function Cell(s: string, lang: Lang, i: nat, k: nat): char
    requires k < |s|
  {
    if k < i && Masks(s, lang, 0, k) && s[k] != '\n' then ' ' else s[k]
  }

  /** One step of the scan settles the positions it passes. */
  lemma CellsAfter(s: string, lang: Lang, i: nat, k: nat)
    requires i < |s| && k < |s|
    requires i <= k ==> (Masks(s, lang, 0, k) <==> Masks(s, lang, i, k))
    ensures var j := Skip(s, lang, i);
            && (j <= k ==> (Masks(s, lang, 0, k) <==> Masks(s, lang, j, k)))
            && Cell(s, lang, j, k)
               == if CommentAt(s, lang, i) && i <= k < j && s[k] != '\n' then ' ' else Cell(s, lang, i, k)
  {
    hide Skip, CommentAt;
    var j := Skip(s, lang, i);
    if k < j && Masks(s, lang, j, k) { MasksAhead(s, lang, j, k); }
  }

  lemma AllCellsAfter(s: string, lang: Lang, i: nat)
    requires i < |s|
    requires forall k :: i <= k < |s| ==> (Masks(s, lang, 0, k) <==> Masks(s, lang, i, k))
    ensures var j := Skip(s, lang, i);
            && (forall k :: j <= k < |s| ==> (Masks(s, lang, 0, k) <==> Masks(s, lang, j, k)))
            && forall k :: 0 <= k < |s| ==>
                 Cell(s, lang, j, k)
                 == if CommentAt(s, lang, i) && i <= k < j && s[k] != '\n' then ' ' else Cell(s, lang, i, k)
  {
    hide Skip, CommentAt, Masks, Cell;
    forall k | 0 <= k < |s|
      ensures var j := Skip(s, lang, i);
              && (j <= k ==> (Masks(s, lang, 0, k) <==> Masks(s, lang, j, k)))
              && Cell(s, lang, j, k)
                 == if CommentAt(s, lang, i) && i <= k < j && s[k] != '\n' then ' ' else Cell(s, lang, i, k)
    {
      CellsAfter(s, lang, i, k);
    }
  }

  method MaskComments(content: string, lang: Lang) returns (r: string)
    ensures r == Masked(content, lang)
  {
    if content == "" { return content; }
    var n := |content|;
    var out := new char[n](k requires 0 <= k < n => content[k]);
    var i := 0;
    while i < n
      invariant out.Length == n
      invariant forall k :: i <= k < n ==> (Masks(content, lang, 0, k) <==> Masks(content, lang, i, k))
      invariant forall k :: 0 <= k < n ==> out[k] == Cell(content, lang, i, k)
      decreases n - i
    {
      hide Masks, Cell;
      AllCellsAfter(content, lang, i);
      if IsQuote(content[i]) {
        i := SkipString(content, i);
        continue;
      }
      if LineStart(content, lang, i) {
        var stop := LineBreak(content, i);
        Blank(out, i, stop);
        i := stop;
        continue;
      }
      if BlockCommentAt(content, i) {
        var stop := BlockEnd(content, i);
        Blank(out, i, stop);
        i := stop;
        continue;
      }
      i := i + 1;
    }
    return out[..];
  }

  /** The matching brace in masked source: i runs ahead, strings are skipped. */
  function Match(code: string, i: nat, depth: int): Option<nat>
    decreases |code| - i
  {
    if i >= |code| then None
    else if IsQuote(code[i]) then Match(code, StringEnd(code, i + 1, code[i]), depth)
    else if code[i] == '{' then Match(code, i + 1, depth + 1)
    else if code[i] == '}' then if depth == 1 then Some(i) else Match(code, i + 1, depth - 1)
    else Match(code, i + 1, depth)
  }

  /** Index of the brace that closes the one at openIndex; None for the source's -1. */
  method FindMatchingBrace(js: string, openIndex: nat) returns (r: Option<nat>)
    ensures r == Match(Masked(js, Js), openIndex, 0)
  {
    var code := MaskComments(js, Js);
    var depth := 0;
    var i := openIndex;
    while i < |code|
      invariant Match(code, openIndex, 0) == Match(code, i, depth)
      decreases |code| - i
    {
      var c := code[i];
      if IsQuote(c) {
        var end := SkipString(code, i);
        i := end - 1;
      } else if c == '{' {
        depth := depth + 1;
      } else if c == '}' {
        depth := depth - 1;
        if depth == 0 { return Some(i); }
      }
      i := i + 1;
    }
    return None;
  }
}
