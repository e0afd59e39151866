/** Where statements end: at the first ';' outside all blocks, and nowhere else. */
module SqlBoundaries {
  import opened Text
  import opened SqlLexer
  import opened SqlStatements

  /** The control state after reading the pieces from i up to n, if no piece
      among them ends a statement and the blocks never close below depth zero. */
  function Quiet(sql: string, i: nat, n: nat, c: Control): Option<Control>
    decreases n - i
  {
    if i == n then Some(c)
    else if i > n || n > |sql| || Next(sql, i).None? then None
    else
      var p := Next(sql, i).value;
      var t := TokenOf(sql, p);
      if IsBoundary(c, t) || Step(c, t).None? then None else Quiet(sql, p.to, n, Step(c, t).value)
  }

  lemma {:induction false} QuietPush(sql: string, i: nat, n: nat, c: Control)
    requires i <= n < |sql| && Quiet(sql, i, n, c).Some? && Next(sql, n).Some?
    requires var p, last := Next(sql, n).value, Quiet(sql, i, n, c).value;
             !IsBoundary(last, TokenOf(sql, p)) && Step(last, TokenOf(sql, p)).Some?
    ensures var p, last := Next(sql, n).value, Quiet(sql, i, n, c).value;
            Quiet(sql, i, p.to, c) == Step(last, TokenOf(sql, p))
    decreases n - i
  {
    hide IsBoundary, Step, TokenOf;
    if i < n {
      var p := Next(sql, i).value;
      QuietPush(sql, p.to, n, Step(c, TokenOf(sql, p)).value);
    }
  }

  /** A statement that is read from `start` on ends at e: no piece before e ends it, and
      at e stands a ';' with no block open, or the script ends with none open. */
  ghost predicate EndAt(sql: string, start: nat, e: nat) {
    && start <= e <= |sql| && Quiet(sql, start, e, START).Some? && AtRest(Quiet(sql, start, e, START).value)
    && (e == |sql| || sql[e] == ';')
  }

  /** The script is read in parts, each from right behind the ';' that ended the part
      before; every part holds at most one of the statements, in order, and that
      statement ends where its part does. */
  ghost predicate Parts(sql: string, start: nat, ends: seq<nat>, spans: seq<Span>)
    decreases |ends|
  {
    && ends != [] && EndAt(sql, start, ends[0])
    && var own := if spans != [] && spans[0].to == ends[0] then 1 else 0;
       && (own == 1 ==> start <= spans[0].from < ends[0])
       && if |ends| == 1 then ends[0] == |sql| && |spans| == own
          else Parts(sql, ends[0] + 1, ends[1..], spans[own..])
  }

  /** Reading from a place can end at one place only. */
  lemma {:induction false} NotQuietBeyond(sql: string, i: nat, e: nat, f: nat, c: Control)
    requires i <= e < f <= |sql| && Quiet(sql, i, e, c).Some? && AtRest(Quiet(sql, i, e, c).value) && sql[e] == ';'
    ensures Quiet(sql, i, f, c) == None
    decreases e - i
  {
    hide Step, AtRest;
    if i == e {
      if Next(sql, e).Some? { SemicolonToken(sql, e); }
    } else {
      var p := Next(sql, i).value;
      NotQuietBeyond(sql, p.to, e, f, Step(c, TokenOf(sql, p)).value);
    }
  }

  lemma SemicolonToken(sql: string, e: nat)
    requires e < |sql| && sql[e] == ';' && Next(sql, e).Some?
    ensures TokenOf(sql, Next(sql, e).value) == Semicolon
  {
  }

  lemma OneEnd(sql: string, start: nat, e: nat, f: nat)
    requires EndAt(sql, start, e) && EndAt(sql, start, f)
    ensures e == f
  {
    if e < f { NotQuietBeyond(sql, start, e, f, START); }
    if f < e { NotQuietBeyond(sql, start, f, e, START); }
  }

  lemma SemicolonHere(sql: string, i: nat)
    requires i < |sql| && Next(sql, i).Some? && TokenOf(sql, Next(sql, i).value) == Semicolon
    ensures sql[i] == ';' && Next(sql, i).value.to == i + 1
  {
  }

  lemma MarkStays(sql: string, i: nat, code: Option<nat>, start: nat)
    requires i < |sql| && Next(sql, i).Some? && CodeBefore(sql, i, code) && start <= i
             && (code.Some? ==> start <= code.value)
    ensures var p := Next(sql, i).value;
            var m := Mark(code, p, TokenOf(sql, p));
            CodeBefore(sql, p.to, m) && (m.Some? ==> start <= m.value)
  {
  }

  lemma {:induction false} PartsFrom(sql: string, i: nat, c: Control, code: Option<nat>, start: nat)
    returns (ends: seq<nat>)
    requires start <= i <= |sql| && CodeBefore(sql, i, code) && (code.Some? ==> start <= code.value)
    requires Quiet(sql, start, i, START) == Some(c) && SpansFrom(sql, i, c, code).Some?
    ensures Parts(sql, start, ends, SpansFrom(sql, i, c, code).value)
    decreases |sql| - i
  {
    hide Step, TokenOf, Next, Quiet, InRange;
    if i == |sql| {
      ends := [i];
    } else {
      var p := Next(sql, i).value;
      var t := TokenOf(sql, p);
      MarkStays(sql, i, code, start);
      if IsBoundary(c, t) {
        SemicolonHere(sql, i);
        QuietStart(sql, p.to);
        var later := PartsFrom(sql, p.to, START, None, p.to);
        ends := [i] + later;
        PartsCons(sql, start, code, i, later, SpansFrom(sql, p.to, START, None).value);
      } else {
        QuietPush(sql, start, i, START);
        ends := PartsFrom(sql, p.to, Step(c, t).value, Mark(code, p, t), start);
      }
    }
  }

  lemma PartsCons(sql: string, start: nat, code: Option<nat>, i: nat, later: seq<nat>, rest: seq<Span>)
    requires EndAt(sql, start, i) && (code.Some? ==> start <= code.value < i) && Parts(sql, i + 1, later, rest)
    requires InRange(sql, rest)
    ensures Parts(sql, start, [i] + later, Close(code, i) + rest)
  {
    hide EndAt;
    var all, ends := Close(code, i) + rest, [i] + later;
    assert ends[1..] == later;
    if code.Some? {
      assert all[1..] == rest;
    } else {
      assert all == rest && all[0..] == rest;
      if rest != [] { FirstBehind(sql, i + 1, later, rest); }
    }
  }

  /** The first statement ends behind the place its part starts at. */
  lemma {:induction false} FirstBehind(sql: string, start: nat, ends: seq<nat>, spans: seq<Span>)
    requires Parts(sql, start, ends, spans) && spans != []
    ensures spans[0].to >= start
    decreases |ends|
  {
    if |ends| > 1 && spans[0].to != ends[0] { FirstBehind(sql, ends[0] + 1, ends[1..], spans); }
  }

  lemma QuietStart(sql: string, i: nat)
    ensures Quiet(sql, i, i, START) == Some(START)
  {
  }

  /** Every statement the splitter returns ends at the first ';' of its own reading at
      which no block is open (for a simple statement, its first ';'), or at the end of
      the script; the depth of open blocks is never negative on the way. */
  lemma EndsAtFirst(sql: string) returns (ends: seq<nat>)
    requires Spans(sql).Some?
    ensures Parts(sql, 0, ends, Spans(sql).value)
    ensures forall start, e, f :: EndAt(sql, start, e) && EndAt(sql, start, f) ==> e == f
  {
    QuietStart(sql, 0);
    ends := PartsFrom(sql, 0, START, None, 0);
    forall start, e, f | EndAt(sql, start, e) && EndAt(sql, start, f) ensures e == f {
      OneEnd(sql, start, e, f);
    }
  }
}
