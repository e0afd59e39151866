/** Nothing is lost: what the splitter keeps and what it drops of any script. */
module SqlConservation {
  import opened Text
  import opened SqlLexer
  import opened SqlStatements

  /** A piece the splitter may leave out of every statement: white space, a
      comment that is not executable, a ';'. */
  predicate Droppable(p: Piece) {
    p.kind.Gap? || p.kind.LineComment? || p.kind.BlockComment? || p.kind.Semi?
  }

  predicate Inside(p: Piece, s: Span) {
    s.from <= p.from && p.to <= s.to
  }

  predicate Outside(p: Piece, s: Span) {
    p.to <= s.from || s.to <= p.from
  }

  /** The piece lies whole in one statement, or it is left out of all of them. */
  predicate Placed(p: Piece, spans: seq<Span>) {
    || (exists k :: 0 <= k < |spans| && Inside(p, spans[k]))
    || (Droppable(p) && forall k :: 0 <= k < |spans| ==> Outside(p, spans[k]))
  }

  /** One statement after the other, with a ';' right behind each but a last
      one that the script ends. */
  predicate Separate(sql: string, spans: seq<Span>) {
    && (forall k :: 0 <= k < |spans| ==>
          spans[k].from < spans[k].to <= |sql| && (spans[k].to == |sql| || sql[spans[k].to] == ';'))
    && (forall j, k :: 0 <= j < k < |spans| ==> spans[j].to < spans[k].from)
  }

  /** The pieces cover the script from i on without gap or overlap. */
  predicate Tiles(ps: seq<Piece>, i: nat, n: nat)
    decreases |ps|
  {
    if ps == [] then i == n else ps[0].from == i < ps[0].to && Tiles(ps[1..], ps[0].to, n)
  }

  /** No span starts before i, but for the first one when its code has begun. */
  predicate StartsFrom(spans: seq<Span>, i: nat, code: Option<nat>) {
    && (code.Some? ==> spans != [] && spans[0].from == code.value && spans[0].to >= i)
    && (forall k :: (if code.Some? then 1 else 0) <= k < |spans| ==> spans[k].from >= i)
  }

  lemma {:induction false} SpansSeparate(sql: string, i: nat, c: Control, code: Option<nat>)
    requires i <= |sql| && CodeBefore(sql, i, code)
    requires SpansFrom(sql, i, c, code).Some?
    ensures var spans := SpansFrom(sql, i, c, code).value; Separate(sql, spans) && StartsFrom(spans, i, code)
    decreases |sql| - i
  {
    hide Step, TokenOf, Next;
    if i < |sql| {
      var p := Next(sql, i).value;
      var t := TokenOf(sql, p);
      if IsBoundary(c, t) {
        SpansSeparate(sql, p.to, START, None);
        SemicolonPiece(sql, p);
        assert SpansFrom(sql, i, c, code).value == Close(code, i) + SpansFrom(sql, p.to, START, None).value;
      } else {
        MarkBefore(sql, p, code);
        SpansSeparate(sql, p.to, Step(c, t).value, Mark(code, p, t));
      }
    }
  }

  lemma SemicolonPiece(sql: string, p: Piece)
    requires p.from < p.to <= |sql| && Next(sql, p.from) == Some(p) && TokenOf(sql, p) == Semicolon
    ensures p.kind.Semi? && sql[p.from] == ';' && p.to == p.from + 1
  {
  }

  lemma MarkBefore(sql: string, p: Piece, code: Option<nat>)
    requires p.from < p.to <= |sql| && Next(sql, p.from) == Some(p) && CodeBefore(sql, p.from, code)
    ensures CodeBefore(sql, p.to, Mark(code, p, TokenOf(sql, p)))
    ensures Mark(code, p, TokenOf(sql, p)).None? ==> Droppable(p)
  {
  }

  lemma {:induction false} PiecesPlaced(sql: string, i: nat, c: Control, code: Option<nat>)
    requires i <= |sql| && CodeBefore(sql, i, code)
    requires SpansFrom(sql, i, c, code).Some?
    ensures Pieces(sql, i).Some?
    ensures Tiles(Pieces(sql, i).value, i, |sql|)
    ensures forall p :: p in Pieces(sql, i).value ==> p.from >= i && Placed(p, SpansFrom(sql, i, c, code).value)
    decreases |sql| - i
  {
    hide Step, TokenOf, Next, Placed, StartsFrom, Separate, InRange;
    if i < |sql| {
      var p := Next(sql, i).value;
      var t := TokenOf(sql, p);
      SpansSeparate(sql, i, c, code);
      var spans := SpansFrom(sql, i, c, code).value;
      if IsBoundary(c, t) {
        PiecesPlaced(sql, p.to, START, None);
        SpansSeparate(sql, p.to, START, None);
        SemicolonPiece(sql, p);
        var rest := SpansFrom(sql, p.to, START, None).value;
        PlacedBoundary(p, code, rest);
        forall q | q in Pieces(sql, p.to).value ensures Placed(q, spans) {
          PlacedAppend(q, p.from, code, rest);
        }
      } else {
        MarkBefore(sql, p, code);
        PiecesPlaced(sql, p.to, Step(c, t).value, Mark(code, p, t));
        SpansSeparate(sql, p.to, Step(c, t).value, Mark(code, p, t));
        PlacedHere(p, Mark(code, p, t), spans, code);
      }
    }
  }

  lemma PlacedBoundary(p: Piece, code: Option<nat>, rest: seq<Span>)
    requires Droppable(p) && p.from < p.to && StartsFrom(rest, p.to, None)
    ensures Placed(p, Close(code, p.from) + rest)
  {
    var spans := Close(code, p.from) + rest;
    forall k | 0 <= k < |spans| ensures Outside(p, spans[k]) {
      if code.Some? && k > 0 { assert spans[k] == rest[k - 1]; }
    }
  }

  lemma PlacedAppend(q: Piece, at: nat, code: Option<nat>, rest: seq<Span>)
    requires Placed(q, rest) && q.from >= at
    ensures Placed(q, Close(code, at) + rest)
  {
    var spans, d := Close(code, at) + rest, |Close(code, at)|;
    if k :| 0 <= k < |rest| && Inside(q, rest[k]) {
      assert spans[k + d] == rest[k];
    } else {
      forall k | 0 <= k < |spans| ensures Outside(q, spans[k]) {
        if k >= d { assert spans[k] == rest[k - d]; }
      }
    }
  }

  lemma PlacedHere(p: Piece, mark: Option<nat>, spans: seq<Span>, code: Option<nat>)
    requires StartsFrom(spans, p.to, mark) && (mark.None? ==> Droppable(p))
    requires mark.Some? ==> mark.value <= p.from
    ensures Placed(p, spans)
  {
    if mark.Some? {
      assert Inside(p, spans[0]);
    } else {
      assert forall k :: 0 <= k < |spans| ==> Outside(p, spans[k]);
    }
  }

  /** For every script the splitter accepts: the statements are trimmed slices of
      disjoint, increasing intervals; each ends at a ';' or at the script's end;
      no interval starts or ends inside a quote, a comment or a word; and what
      lies outside all intervals is white space, non-executable comments and the
      ';' between them. */
  lemma Conservation(sql: string)
    requires Spans(sql).Some?
    ensures Split(sql).Some? && Pieces(sql, 0).Some?
    ensures var spans := Spans(sql).value;
            && Separate(sql, spans) && InRange(sql, spans) && Split(sql).value == Texts(sql, spans)
            && Tiles(Pieces(sql, 0).value, 0, |sql|)
            && forall p :: p in Pieces(sql, 0).value ==> Placed(p, spans)
  {
    hide SpansFrom, Pieces, Separate, Placed, Texts;
    SpansSeparate(sql, 0, START, None);
    PiecesPlaced(sql, 0, START, None);
    assert [] + Texts(sql, Spans(sql).value) == Texts(sql, Spans(sql).value);
  }
}
