/** Texts of DCL statements, written word by word with single blanks: how the tool
    and the server read them. */
module DclTexts {
  import opened Text
  import opened SqlLexer
  import opened SourceScan
  import opened Placeholders
  import opened ServerText
  import opened ServerFill

  /** How a lexeme is written; w is the placeholder. */
  function TextOf(l: Lexeme, w: string): string {
    match l
    case Term(text) => text
    case Sign(c) => [c]
    case Quote(q, value, _) => [q] + value + [q]
    case Hole(q, _) => [q] + w + [q]
    case Stop => ";"
  }

  /** Written with a blank between two lexemes. */
  function Say(ls: seq<Lexeme>, w: string): string {
    if ls == [] then ""
    else if |ls| == 1 then TextOf(ls[0], w)
    else TextOf(ls[0], w) + " " + Say(ls[1..], w)
  }

  /** Neither white space nor the start of a comment nor ';'. */
  predicate Quiet(s: string) {
    forall k :: 0 <= k < |s| ==> !IsSpace(s[k]) && s[k] != '-' && s[k] != '#' && s[k] != '/' && s[k] != ';'
  }

  predicate Sayable(l: Lexeme, w: string) {
    match l
    case Term(text) => text != "" && |text| < |w| && Quiet(text) && forall k :: 0 <= k < |text| ==> IsWordChar(text[k])
    case Sign(c) => Quiet([c]) && !IsWordChar(c) && !IsQuote(c)
    case Quote(q, value, size) =>
      IsQuote(q) && Survives(value, q) && size == |value| + 2 && size < |w| && Quiet(value)
    case Hole(q, _) => (q == '\'' || q == '"') && q !in w
    case Stop => true
  }

  predicate AllSayable(ls: seq<Lexeme>, w: string) {
    forall k :: 0 <= k < |ls| ==> Sayable(ls[k], w)
  }

  /** A marker that is quiet and survives quotes: the placeholder. */
  predicate Marks(w: string) {
    |w| > 1 && Marker(w) && Quiet(w) && Survives(w, '\'') && Survives(w, '"')
  }

  // ---- the server ----

  function KindOf(l: Lexeme): Kind {
    match l
    case Term(_) => Word
    case Sign(_) => Other
    case Quote(_, _, _) => Quoted
    case Hole(_, _) => Quoted
    case Stop => Semi
  }

  lemma {:induction false} WordEndAt(s: string, j: nat, e: nat)
    requires j <= e <= |s| && (forall k :: j <= k < e ==> IsWordChar(s[k])) && (e < |s| ==> !IsWordChar(s[e]))
    ensures WordEnd(s, j) == e
    decreases e - j
  {
    if j < e { WordEndAt(s, j + 1, e); }
  }

  predicate Follows(tail: string) {
    tail == "" || tail[0] == ' '
  }

  lemma WordFront(text: string, tail: string, w: string)
    requires Sayable(Term(text), w) && Follows(tail)
    ensures Next(text + tail, 0) == Some(Piece(Word, 0, |text|))
  {
    var b := text + tail;
    assert forall k :: 0 <= k < |text| ==> b[k] == text[k];
    WordEndAt(b, 1, |text|);
  }

  lemma QuoteFront2(q: char, value: string, tail: string)
    requires IsQuote(q) && Survives(value, q) && Follows(tail)
    ensures var b := [q] + value + [q] + tail;
            Next(b, 0) == Some(Piece(Quoted, 0, |value| + 2)) && b[1..|value| + 1] == value
                && Unquoted(value, q) == value
  {
    var b := [q] + value + [q] + tail;
    LiteralReads(value, q, tail);
    assert b[0] == q;
    QuoteFront(b);
  }

  /** A lexeme at the front is read as itself. */
  lemma Front(l: Lexeme, tail: string, w: string)
    requires Sayable(l, w) && Marks(w) && Follows(tail)
    ensures var b := TextOf(l, w) + tail;
            && TextOf(l, w) != "" && Next(b, 0) == Some(Piece(KindOf(l), 0, |TextOf(l, w)|))
            && (!l.Hole? ==> LexemeOf(b, Next(b, 0).value) == [l])
  {
    var b := TextOf(l, w) + tail;
    match l
    case Term(text) =>
      WordFront(text, tail, w);
      assert b[..|text|] == text;
    case Sign(c) => assert b[0] == c;
    case Quote(q, value, _) =>
      QuoteFront2(q, value, tail);
      assert b == [q] + value + [q] + tail;
    case Hole(q, _) =>
      QuoteFront2(q, w, tail);
      assert b == [q] + w + [q] + tail;
    case Stop => assert b[0] == ';';
  }

  lemma BlankFront(rest: string)
    ensures Next(" " + rest, 0) == Some(Piece(Gap, 0, 1)) && LexemeOf(" " + rest, Piece(Gap, 0, 1)) == []
  {
    assert (" " + rest)[0] == ' ';
  }

  /** Where the placeholders stand, the text starting at off. */
  function HolePlaces(ls: seq<Lexeme>, w: string, off: nat): seq<nat> {
    if ls == [] then []
    else HolePlace(ls[0], off) + HolePlaces(ls[1..], w, off + |TextOf(ls[0], w)| + 1)
  }

  /** The placeholder of a lexeme that starts at off. */
  function HolePlace(l: Lexeme, off: nat): seq<nat> {
    if l.Hole? then [off + 1] else []
  }

  predicate Numbered(ls: seq<Lexeme>, k: nat) {
    ls == [] || (if ls[0].Hole? then ls[0].index == k && Numbered(ls[1..], k + 1) else Numbered(ls[1..], k))
  }

  lemma {:induction false} HolesBehind(ls: seq<Lexeme>, w: string, off: nat)
    ensures forall i :: 0 <= i < |HolePlaces(ls, w, off)| ==> HolePlaces(ls, w, off)[i] > off
    decreases |ls|
  {
    hide TextOf;
    if ls != [] { HolesBehind(ls[1..], w, off + |TextOf(ls[0], w)| + 1); }
  }

  lemma TemplateStep(b: string, off: nat, ps: seq<nat>, k: nat, w: nat, p: Piece)
    requires b != "" && k <= |ps| && Next(b, 0) == Some(p) && !Executes(b, p)
    ensures k < |ps| && ps[k] < off + p.to ==>
              Template(b, off, ps, k, w)
              == if p.kind.Quoted? && b[0] != '`' && ps[k] == off + 1 && p.to == w + 2 then
                   (match Template(b[p.to..], off + p.to, ps, k + 1, w) case None => None
                    case Some(rest) => Some([Hole(b[0], k)] + rest))
                 else None
    ensures !(k < |ps| && ps[k] < off + p.to) ==>
              Template(b, off, ps, k, w)
              == (match Template(b[p.to..], off + p.to, ps, k, w)
                  case None => None
                  case Some(rest) => Some(LexemeOf(b, p) + rest))
  {
    hide LexemeOf, Next;
  }

  function TailOf(rest: seq<Lexeme>, w: string): string {
    if rest == [] then "" else " " + Say(rest, w)
  }

  lemma SayFirst(ls: seq<Lexeme>, w: string)
    requires ls != []
    ensures Say(ls, w) == TextOf(ls[0], w) + TailOf(ls[1..], w)
  {
    hide TextOf;
    assert ls[1..] != [] ==> TextOf(ls[0], w) + " " + Say(ls[1..], w) == TextOf(ls[0], w) + (" " + Say(ls[1..], w));
  }

  lemma HolesFirst(ls: seq<Lexeme>, w: string, off: nat, ps: seq<nat>, k: nat)
    requires ls != [] && k <= |ps| && ps[k..] == HolePlaces(ls, w, off) && Numbered(ls, k) && AllSayable(ls, w)
    ensures var l, later := ls[0], off + |TextOf(ls[0], w)| + 1;
            var k' := if l.Hole? then k + 1 else k;
            && Sayable(l, w) && AllSayable(ls[1..], w) && Numbered(ls[1..], k') && k' <= |ps|
            && ps[k'..] == HolePlaces(ls[1..], w, later) && (k' < |ps| ==> ps[k'] > later)
            && (l.Hole? ==> l.index == k && ps[k] == off + 1)
            && (ls[1..] == [] ==> k' == |ps|)
  {
    hide TextOf, Sayable;
    var l, later := ls[0], off + |TextOf(ls[0], w)| + 1;
    HolesBehind(ls[1..], w, later);
    var k' := if l.Hole? then k + 1 else k;
    var all := HolePlaces(ls, w, off);
    if l.Hole? {
      assert all[0] == off + 1 && all[1..] == HolePlaces(ls[1..], w, later);
      assert ps[k..][0] == ps[k] && ps[k..][1..] == ps[k + 1..];
    }
    if k' < |ps| { assert ps[k'..][0] == ps[k']; }
  }

  /** The server reads a text written from lexemes as these lexemes. */
  lemma {:induction false} SaysTemplate(ls: seq<Lexeme>, w: string, off: nat, ps: seq<nat>, k: nat)
    requires Marks(w) && AllSayable(ls, w) && Numbered(ls, k) && k <= |ps| && ps[k..] == HolePlaces(ls, w, off)
    ensures Template(Say(ls, w), off, ps, k, |w|) == Some(ls)
    decreases |ls|
  {
    hide *;
    if ls == [] {
      SaysNothing(w, off, ps, k);
    } else {
      var l, rest := ls[0], ls[1..];
      var text, tail := TextOf(l, w), TailOf(rest, w);
      SayFirst(ls, w);
      HolesFirst(ls, w, off, ps, k);
      var k' := if l.Hole? then k + 1 else k;
      SaysTemplate(rest, w, off + |text| + 1, ps, k');
      TailTemplate(rest, w, off + |text|, ps, k', tail);
      SaysOne(l, tail, w, off, ps, k, rest);
      assert [l] + rest == ls;
    }
  }

  lemma SaysNothing(w: string, off: nat, ps: seq<nat>, k: nat)
    requires k <= |ps| && ps[k..] == HolePlaces([], w, off)
    ensures Template(Say([], w), off, ps, k, |w|) == Some([])
  {
  }

  lemma SaysOne(l: Lexeme, tail: string, w: string, off: nat, ps: seq<nat>, k: nat, rest: seq<Lexeme>)
    requires Marks(w) && Sayable(l, w) && Follows(tail) && k <= |ps|
             && (l.Hole? ==> k < |ps| && l.index == k && ps[k] == off + 1)
    requires !l.Hole? && k < |ps| ==> ps[k] > off + |TextOf(l, w)| + 1
    requires Template(tail, off + |TextOf(l, w)|, ps, if l.Hole? then k + 1 else k, |w|) == Some(rest)
    ensures Template(TextOf(l, w) + tail, off, ps, k, |w|) == Some([l] + rest)
  {
    var text := TextOf(l, w);
    var b := text + tail;
    var p := Piece(KindOf(l), 0, |text|);
    Front(l, tail, w);
    HoleShape(l, w, b, tail);
    TemplateStep(b, off, ps, k, |w|, p);
    assert b[|text|..] == tail;
    KindHole(l);
    hide Template, LexemeOf, Next, TextOf, Sayable, Marks;
  }

  lemma KindHole(l: Lexeme)
    ensures !KindOf(l).ExecComment? && !KindOf(l).BlockComment? && (l.Hole? ==> KindOf(l).Quoted?)
    ensures l.Hole? ==> l == Hole(l.holeMark, l.index)
  {
  }

  lemma HoleShape(l: Lexeme, w: string, b: string, tail: string)
    requires b == TextOf(l, w) + tail && Sayable(l, w)
    ensures l.Hole? ==> b != "" && b[0] == l.holeMark && b[0] != '`' && |TextOf(l, w)| == |w| + 2
  {
  }

  lemma TailTemplate(rest: seq<Lexeme>, w: string, off: nat, ps: seq<nat>, k: nat, tail: string)
    requires k <= |ps| && tail == TailOf(rest, w)
    requires Template(Say(rest, w), off + 1, ps, k, |w|) == Some(rest) && (k < |ps| ==> ps[k] > off + 1)
    requires rest == [] ==> k == |ps|
    ensures Template(tail, off, ps, k, |w|) == Some(rest) && Follows(tail)
  {
    if rest != [] {
      BlankFront(Say(rest, w));
      TemplateStep(tail, off, ps, k, |w|, Piece(Gap, 0, 1));
      assert tail[1..] == Say(rest, w);
      assert [] + rest == rest;
    }
  }

  // ---- the tool: placeholders ----

  lemma EndsBehindBlank(a: string, b: string, w: string)
    requires Marker(w)
    ensures EndsWith(a + " " + b, w) <==> EndsWith(b, w)
  {
    var s := a + " " + b;
    if |w| <= |s| {
      var u := s[|s| - |w|..];
      if |w| <= |b| { assert u == b[|b| - |w|..]; } else { assert u[|a| - (|s| - |w|)] == ' '; }
    }
  }

  function Moved(ps: seq<nat>, d: nat): (r: seq<nat>)
    ensures |r| == |ps|
  {
    seq(|ps|, i requires 0 <= i < |ps| => ps[i] + d)
  }

  /** A blank keeps the placeholders on its two sides apart. */
  lemma {:induction false} OccurrencesJoin(a: string, b: string, w: string)
    requires Marker(w)
    ensures Occurrences(a + " " + b, w) == Occurrences(a, w) + Moved(Occurrences(b, w), |a| + 1)
    decreases |b|
  {
    var s := a + " " + b;
    if b == "" {
      EndsBehindBlank(a, "", w);
      LastOffBlank(a);
      OccurrencesLast(s, w);
      assert Moved([], |a| + 1) == [];
    } else {
      var n := |b| - 1;
      OccurrencesJoin(a, b[..n], w);
      EndsBehindBlank(a, b, w);
      LastOffText(a, b);
      OccurrencesLast(s, w);
      OccurrencesLast(b, w);
      MovedEnding(Occurrences(b[..n], w), b, s, w, |a| + 1);
      hide Occurrences, Moved, Ending;
    }
  }

  lemma OccurrencesLast(s: string, w: string)
    requires w != "" && s != ""
    ensures Occurrences(s, w) == Occurrences(s[..|s| - 1], w) + Ending(s, w)
  {
    hide Ending;
  }

  lemma LastOffBlank(a: string)
    ensures (a + " " + "")[..|a + " " + ""| - 1] == a
  {
  }

  lemma LastOffText(a: string, b: string)
    requires b != ""
    ensures (a + " " + b)[..|a + " " + b| - 1] == a + " " + b[..|b| - 1]
  {
  }

  lemma MovedEnding(ps: seq<nat>, b: string, s: string, w: string, d: nat)
    requires EndsWith(s, w) <==> EndsWith(b, w)
    requires |s| == |b| + d
    ensures Moved(ps + Ending(b, w), d) == Moved(ps, d) + Ending(s, w)
    ensures forall x: seq<nat> :: x + (Moved(ps, d) + Ending(s, w)) == (x + Moved(ps, d)) + Ending(s, w)
  {
  }

  lemma {:induction false} ShortHasNone(s: string, w: string)
    requires w != "" && |s| < |w|
    ensures Occurrences(s, w) == []
    decreases |s|
  {
    if s != "" { ShortHasNone(s[..|s| - 1], w); }
  }

  lemma HoleOccurs(q: char, w: string)
    requires Marker(w) && q !in w
    ensures Occurrences([q] + w + [q], w) == [1]
  {
    var s := [q] + w + [q];
    var n := |w| + 1;
    assert s[..n][..n - 1] == s[..|w|] && s[..|s| - 1] == s[..n] == [q] + w;
    assert s[..|w|][0] == q && w[0] in w;
    NoneWithout(s[..|w|], w);
    OccurrencesLast(s[..n], w);
    assert s[..n][n - |w|..] == w;
    OccurrencesLast(s, w);
    assert s[|s| - |w|..][|w| - 1] == q && w[|w| - 1] in w;
  }

  lemma NoneWithout(s: string, w: string)
    requires w != "" && |s| == |w| && s[0] != w[0]
    ensures Occurrences(s, w) == []
  {
    ShortHasNone(s[..|s| - 1], w);
    OccurrencesLast(s, w);
    assert s[|s| - |w|..] == s;
  }

  lemma OccurrencesOf(l: Lexeme, w: string)
    requires Sayable(l, w) && Marks(w)
    ensures Occurrences(TextOf(l, w), w) == if l.Hole? then [1] else []
  {
    if l.Hole? { HoleOccurs(l.holeMark, w); } else { ShortHasNone(TextOf(l, w), w); }
  }

  lemma {:induction false} HolesMoved(ls: seq<Lexeme>, w: string, off: nat, d: nat)
    ensures HolePlaces(ls, w, off + d) == Moved(HolePlaces(ls, w, off), d)
    decreases |ls|
  {
    hide TextOf, Moved, HolePlace;
    if ls == [] {
      MovedPlace(Stop, off, d);
    } else {
      var later := off + |TextOf(ls[0], w)| + 1;
      HolesMoved(ls[1..], w, later, d);
      MovedPlace(ls[0], off, d);
      MovedAppend(HolePlace(ls[0], off), HolePlaces(ls[1..], w, later), d);
    }
  }

  lemma MovedPlace(l: Lexeme, off: nat, d: nat)
    ensures HolePlace(l, off + d) == Moved(HolePlace(l, off), d) && Moved([], d) == []
  {
  }

  lemma MovedAppend(a: seq<nat>, b: seq<nat>, d: nat)
    ensures Moved(a + b, d) == Moved(a, d) + Moved(b, d)
  {
  }

  /** The placeholders of a written text are its holes. */
  lemma {:induction false} SaysHoles(ls: seq<Lexeme>, w: string)
    requires Marks(w) && AllSayable(ls, w)
    ensures Occurrences(Say(ls, w), w) == HolePlaces(ls, w, 0)
    decreases |ls|
  {
    hide TextOf, Sayable, Marks, Occurrences, Moved;
    if ls == [] {
      MarksMarker(w);
      ShortHasNone("", w);
    } else {
      MarksMarker(w);
      var l, rest := ls[0], ls[1..];
      OccurrencesOf(l, w);
      var text := TextOf(l, w);
      if rest != [] {
        SaysHoles(rest, w);
        OccurrencesJoin(text, Say(rest, w), w);
        HolesMoved(rest, w, 0, |text| + 1);
      } else {
        assert HolePlaces(ls, w, 0) == (if l.Hole? then [1] else []) + [];
      }
    }
  }

  lemma MarksMarker(w: string)
    requires Marks(w)
    ensures Marker(w) && w != ""
  {
  }

  // ---- the tool: comments, white space, statements ----

  /** No character that can start a comment. */
  predicate NoComments(s: string) {
    forall k :: 0 <= k < |s| ==> s[k] != '-' && s[k] != '#' && s[k] != '/'
  }

  lemma {:induction false} NothingMasked(s: string, i: nat, k: nat)
    requires NoComments(s)
    ensures !Masks(s, Sql, i, k)
    decreases |s| - i
  {
    hide Skip;
    if i < |s| {
      NoCommentHere(s, i);
      NothingMasked(s, Skip(s, Sql, i), k);
    }
  }

  lemma NoCommentHere(s: string, i: nat)
    requires NoComments(s) && i < |s|
    ensures !CommentAt(s, Sql, i)
  {
  }

  lemma MaskedSame(s: string)
    requires NoComments(s)
    ensures Masked(s, Sql) == s
  {
    forall k | 0 <= k < |s| ensures !Masks(s, Sql, 0, k) { NothingMasked(s, 0, k); }
  }

  /** Single blanks, and only between other characters. */
  predicate Tight(s: string) {
    && (s != "" ==> !IsSpace(s[0]) && !IsSpace(s[|s| - 1]))
    && forall k :: 0 <= k < |s| && IsSpace(s[k]) ==> s[k] == ' ' && 0 < k && !IsSpace(s[k - 1])
  }

  lemma {:induction false} SqueezedSame(s: string, n: nat)
    requires Tight(s) && n <= |s|
    ensures Squeezed(s[..n]) == s[..n]
    decreases n
  {
    if n > 0 {
      SqueezedSame(s, n - 1);
      assert s[..n][..n - 1] == s[..n - 1];
      assert s[..n] == s[..n - 1] + [s[n - 1]];
    }
  }

  lemma CollapsedSame(s: string)
    requires Tight(s)
    ensures Collapsed(s) == s
  {
    SqueezedSame(s, |s|);
    assert s[..|s|] == s;
  }

  lemma TextTight(l: Lexeme, w: string)
    requires Sayable(l, w) && Marks(w)
    ensures var t := TextOf(l, w);
            t != "" && (forall k :: 0 <= k < |t| ==> !IsSpace(t[k])) && NoComments(t) && (!l.Stop? ==> ';' !in t)
  {
  }

  lemma TightJoin(a: string, b: string)
    requires a != "" && (forall k :: 0 <= k < |a| ==> !IsSpace(a[k])) && Tight(b) && b != "" && NoComments(a)
             && NoComments(b)
    ensures Tight(a + " " + b) && NoComments(a + " " + b)
    ensures ';' !in a && ';' !in b ==> ';' !in a + " " + b
  {
    var s := a + " " + b;
    forall k | 0 <= k < |s| && IsSpace(s[k]) ensures s[k] == ' ' && 0 < k && !IsSpace(s[k - 1]) {
      if k > |a| { assert s[k] == b[k - |a| - 1]; }
    }
    assert s[|s| - 1] == b[|b| - 1] && s[0] == a[0];
  }

  lemma {:induction false} SayTight(ls: seq<Lexeme>, w: string)
    requires Marks(w) && AllSayable(ls, w) && ls != []
    ensures Say(ls, w) != "" && Tight(Say(ls, w)) && NoComments(Say(ls, w))
    ensures (forall k :: 0 <= k < |ls| ==> !ls[k].Stop?) ==> ';' !in Say(ls, w)
    decreases |ls|
  {
    hide TextOf, Sayable, Marks, IsSpace;
    TextTight(ls[0], w);
    if |ls| > 1 {
      SayTight(ls[1..], w);
      TightJoin(TextOf(ls[0], w), Say(ls[1..], w));
    }
  }

  lemma {:induction false} OneFragment(t: string)
    requires ';' !in t
    ensures Fragments(t) == [t]
    decreases |t|
  {
    if t != "" {
      OneFragment(t[..|t| - 1]);
      assert t[|t| - 1] in t;
      assert t == t[..|t| - 1] + [t[|t| - 1]];
    }
  }

  lemma {:induction false} TwoFragments(a: string, b: string)
    requires ';' !in a && ';' !in b
    ensures Fragments(a + ";" + b) == [a, b]
    decreases |b|
  {
    var s := a + ";" + b;
    if b == "" {
      OneFragment(a);
      assert s[..|s| - 1] == a;
    } else {
      var n := |b| - 1;
      TwoFragments(a, b[..n]);
      assert s[..|s| - 1] == a + ";" + b[..n];
      assert b[n] in b && b == b[..n] + [b[n]];
    }
  }

  /** One statement is read as one statement. */
  lemma OneStatement(st: seq<Lexeme>, w: string)
    requires Marks(w) && IsOne(st, w)
    ensures Fragments(Collapsed(Masked(Say(st, w), Sql))) == [Say(st, w)]
  {
    OneTight(st, w);
    hide Say, Fragments, Tight, NoComments;
    MaskedSame(Say(st, w));
    CollapsedSame(Say(st, w));
    OneFragment(Say(st, w));
  }

  lemma {:induction false} SayAppend(a: seq<Lexeme>, b: seq<Lexeme>, w: string)
    requires a != [] && b != []
    ensures Say(a + b, w) == Say(a, w) + " " + Say(b, w)
    decreases |a|
  {
    hide TextOf;
    assert (a + b)[0] == a[0];
    if |a| > 1 {
      SayAppend(a[1..], b, w);
      assert (a + b)[1..] == a[1..] + b;
      JoinAssoc(TextOf(a[0], w), Say(a[1..], w), Say(b, w));
    } else {
      assert (a + b)[1..] == b;
    }
  }

  lemma JoinAssoc(a: string, b: string, c: string)
    ensures a + " " + (b + " " + c) == a + " " + b + " " + c
  {
  }

  /** Two statements with ';' between. */
  function Two(st: seq<Lexeme>, st': seq<Lexeme>): seq<Lexeme> {
    st + ([Stop] + st')
  }

  predicate IsOne(st: seq<Lexeme>, w: string) {
    AllSayable(st, w) && st != [] && forall k :: 0 <= k < |st| ==> !st[k].Stop?
  }

  lemma AllTwo(st: seq<Lexeme>, st': seq<Lexeme>, w: string)
    requires IsOne(st, w) && IsOne(st', w)
    ensures AllSayable(Two(st, st'), w) && Two(st, st') != [] && Say([Stop], w) == ";" && [Stop] + st' != [] && st != []
            && st' != []
  {
  }

  lemma OneTight(st: seq<Lexeme>, w: string)
    requires Marks(w) && IsOne(st, w)
    ensures Say(st, w) != "" && Tight(Say(st, w)) && NoComments(Say(st, w)) && ';' !in Say(st, w)
  {
    SayTight(st, w);
  }

  lemma TwoStatements(st: seq<Lexeme>, st': seq<Lexeme>, w: string)
    requires Marks(w) && IsOne(st, w) && IsOne(st', w)
    ensures Fragments(Collapsed(Masked(Say(Two(st, st'), w), Sql))) == [Say(st, w) + " ", " " + Say(st', w)]
  {
    hide *;
    OneTight(st, w);
    OneTight(st', w);
    AllTwo(st, st', w);
    SayTight(Two(st, st'), w);
    SayTwo(st, st', w);
    var all := Say(Two(st, st'), w);
    MaskedSame(all);
    CollapsedSame(all);
    SemicolonBlanks(Say(st, w), Say(st', w));
    TwoFragments(Say(st, w) + " ", " " + Say(st', w));
  }

  lemma SayTwo(st: seq<Lexeme>, st': seq<Lexeme>, w: string)
    requires st != [] && st' != []
    ensures Say(Two(st, st'), w) == Say(st, w) + " " + (";" + " " + Say(st', w))
  {
    SayAppend(st, [Stop] + st', w);
    SayAppend([Stop], st', w);
  }

  lemma SemicolonBlanks(a: string, b: string)
    ensures a + " " + (";" + " " + b) == (a + " ") + ";" + (" " + b)
    ensures ';' !in a && ';' !in b ==> ';' !in a + " " && ';' !in " " + b
  {
  }
}
