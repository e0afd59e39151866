/** The line diff of `dcl --plan`: a table of longest common subsequences filled
    in place, a greedy walk over it, and the compact form with context. */
module DclPlan {

  datatype Op = Same | Minus | Plus | Ellipsis

  datatype Entry = Entry(op: Op, line: string)

  // ---- lines ----

  /** split('\n'). */
  function SplitLines(s: string): (r: seq<string>)
    ensures |r| > 0
  {
    if s == "" then [""]
    else if s[0] == '\n' then [""] + SplitLines(s[1..])
    else
      var rest := SplitLines(s[1..]);
      [[s[0]] + rest[0]] + rest[1..]
  }

  /** join('\n'). */
  function JoinLines(lines: seq<string>): string
    requires |lines| > 0
  {
    if |lines| == 1 then lines[0] else lines[0] + "\n" + JoinLines(lines[1..])
  }

  lemma {:induction false} JoinUndoesSplit(s: string)
    ensures JoinLines(SplitLines(s)) == s
  {
    if s != "" {
      JoinUndoesSplit(s[1..]);
      var rest := SplitLines(s[1..]);
      if s[0] == '\n' {
        assert ([""] + rest)[1..] == rest;
      } else {
        var first := [s[0]] + rest[0];
        assert ([first] + rest[1..])[1..] == rest[1..];
        if |rest| > 1 {
          assert first + "\n" + JoinLines(rest[1..]) == [s[0]] + (rest[0] + "\n" + JoinLines(rest[1..]));
        }
      }
    }
  }

  /** No line holds a line break. */
  predicate AreLines(lines: seq<string>) {
    lines != [] && forall k :: 0 <= k < |lines| ==> '\n' !in lines[k]
  }

  lemma {:induction false} SplitGivesLines(s: string)
    ensures AreLines(SplitLines(s))
    decreases |s|
  {
    if s != "" {
      SplitGivesLines(s[1..]);
      var rest, r := SplitLines(s[1..]), SplitLines(s);
      forall k | 0 <= k < |r| ensures '\n' !in r[k] {
        if s[0] == '\n' {
          if k > 0 { assert r[k] == rest[k - 1]; }
        } else if k > 0 {
          assert r[k] == rest[1..][k - 1] == rest[k];
        } else {
          assert '\n' !in rest[0];
        }
      }
    }
  }

  lemma {:induction false} SplitLine(line: string, rest: string)
    requires '\n' !in line
    ensures SplitLines(line) == [line] && SplitLines(line + "\n" + rest) == [line] + SplitLines(rest)
    decreases |line|
  {
    var s := line + "\n" + rest;
    if line == "" {
      assert s[1..] == rest;
    } else {
      assert line[0] in line && forall c :: c in line[1..] ==> c in line;
      SplitLine(line[1..], rest);
      assert s[1..] == line[1..] + "\n" + rest && line == [line[0]] + line[1..];
    }
  }

  /** Splitting undoes joining, for all lines. */
  lemma {:induction false} SplitUndoesJoin(lines: seq<string>)
    requires AreLines(lines)
    ensures SplitLines(JoinLines(lines)) == lines
    decreases |lines|
  {
    if |lines| == 1 {
      SplitLine(lines[0], "");
      assert lines == [lines[0]];
    } else {
      assert forall k :: 0 <= k < |lines| - 1 ==> lines[1..][k] == lines[k + 1];
      SplitUndoesJoin(lines[1..]);
      SplitLine(lines[0], JoinLines(lines[1..]));
      assert [lines[0]] + lines[1..] == lines;
    }
  }

  // ---- the table ----

  /** Length of the longest common subsequence of a[i..] and b[j..], as the table
      computes it. */
  function Lcs(a: seq<string>, b: seq<string>, i: nat, j: nat): nat
    requires i <= |a| && j <= |b|
    decreases |a| - i + |b| - j
  {
    if i == |a| || j == |b| then 0
    else if a[i] == b[j] then Lcs(a, b, i + 1, j + 1) + 1
    else if Lcs(a, b, i + 1, j) >= Lcs(a, b, i, j + 1) then Lcs(a, b, i + 1, j)
    else Lcs(a, b, i, j + 1)
  }

  /** c is a subsequence of a: its lines stand at the increasing positions f. */
  ghost predicate At(c: seq<string>, a: seq<string>, f: seq<nat>) {
    && |f| == |c|
    && (forall k :: 0 <= k < |f| ==> f[k] < |a| && a[f[k]] == c[k])
    && (forall k, l :: 0 <= k < l < |f| ==> f[k] < f[l])
  }

  lemma AtTail(c: seq<string>, a: seq<string>, f: seq<nat>)
    requires At(c, a, f) && c != []
    ensures At(c[1..], a, f[1..]) && forall k :: 0 <= k < |c| - 1 ==> f[1..][k] > f[0]
  {
  }

  lemma AtCons(c: seq<string>, a: seq<string>, f: seq<nat>, i: nat)
    requires At(c, a, f) && i < |a| && forall k :: 0 <= k < |f| ==> f[k] >= i + 1
    ensures At([a[i]] + c, a, [i] + f)
  {
  }

  /** No common subsequence of the lines from i and j on is longer than the table
      says. */
  lemma {:induction false} LcsBound(a: seq<string>, b: seq<string>, i: nat, j: nat, c: seq<string>, f: seq<nat>,
                                    g: seq<nat>)
    requires i <= |a| && j <= |b| && At(c, a, f) && At(c, b, g)
    requires forall k :: 0 <= k < |c| ==> f[k] >= i && g[k] >= j
    ensures |c| <= Lcs(a, b, i, j)
    decreases |a| - i + |b| - j
  {
    if c != [] && i < |a| && j < |b| {
      if a[i] == b[j] {
        AtTail(c, a, f);
        AtTail(c, b, g);
        LcsBound(a, b, i + 1, j + 1, c[1..], f[1..], g[1..]);
      } else if f[0] > i {
        LcsBound(a, b, i + 1, j, c, f, g);
      } else {
        LcsBound(a, b, i, j + 1, c, f, g);
      }
    }
  }

  // ---- the walk ----

  /** The diff of a[i..] and b[j..]. */
  function Diff(a: seq<string>, b: seq<string>, i: nat, j: nat): seq<Entry>
    requires i <= |a| && j <= |b|
    decreases |a| - i + |b| - j
  {
    if i == |a| && j == |b| then []
    else if i == |a| then [Entry(Plus, b[j])] + Diff(a, b, i, j + 1)
    else if j == |b| then [Entry(Minus, a[i])] + Diff(a, b, i + 1, j)
    else if a[i] == b[j] then [Entry(Same, a[i])] + Diff(a, b, i + 1, j + 1)
    else if Lcs(a, b, i + 1, j) >= Lcs(a, b, i, j + 1) then [Entry(Minus, a[i])] + Diff(a, b, i + 1, j)
    else [Entry(Plus, b[j])] + Diff(a, b, i, j + 1)
  }

  /** The first entry of a diff, and what follows it. */
  lemma DiffHead(a: seq<string>, b: seq<string>, i: nat, j: nat)
    requires i <= |a| && j <= |b| && (i < |a| || j < |b|)
    ensures var d := Diff(a, b, i, j);
            && d != []
            && d[0] == (if i == |a| then Entry(Plus, b[j]) else if j == |b| then Entry(Minus, a[i])
                        else if a[i] == b[j] then Entry(Same, a[i])
                        else if Lcs(a, b, i + 1, j) >= Lcs(a, b, i, j + 1) then Entry(Minus, a[i])
                        else Entry(Plus, b[j]))
            && d[1..] == Diff(a, b, if d[0].op.Plus? then i else i + 1, if d[0].op.Minus? then j else j + 1)
  {
    hide Lcs;
  }

  /** The lines of a diff that carry one of two marks. */
  function Lines(d: seq<Entry>, p: Op, q: Op): seq<string> {
    if d == [] then []
    else (if d[0].op == p || d[0].op == q then [d[0].line] else []) + Lines(d[1..], p, q)
  }

  lemma {:induction false} KeepsBefore(a: seq<string>, b: seq<string>, i: nat, j: nat)
    requires i <= |a| && j <= |b|
    ensures Lines(Diff(a, b, i, j), Same, Minus) == a[i..]
    decreases |a| - i + |b| - j
  {
    if i < |a| || j < |b| {
      hide Diff, Lcs;
      DiffHead(a, b, i, j);
      var d := Diff(a, b, i, j);
      KeepsBefore(a, b, if d[0].op.Plus? then i else i + 1, if d[0].op.Minus? then j else j + 1);
    }
  }

  lemma {:induction false} KeepsAfter(a: seq<string>, b: seq<string>, i: nat, j: nat)
    requires i <= |a| && j <= |b|
    ensures Lines(Diff(a, b, i, j), Same, Plus) == b[j..]
    decreases |a| - i + |b| - j
  {
    if i < |a| || j < |b| {
      hide Diff, Lcs;
      DiffHead(a, b, i, j);
      var d := Diff(a, b, i, j);
      KeepsAfter(a, b, if d[0].op.Plus? then i else i + 1, if d[0].op.Minus? then j else j + 1);
    }
  }

  lemma {:induction false} CountsCommon(a: seq<string>, b: seq<string>, i: nat, j: nat)
    requires i <= |a| && j <= |b|
    ensures |Lines(Diff(a, b, i, j), Same, Same)| == Lcs(a, b, i, j)
    decreases |a| - i + |b| - j
  {
    if i < |a| || j < |b| {
      hide Diff;
      DiffHead(a, b, i, j);
      var d := Diff(a, b, i, j);
      CountsCommon(a, b, if d[0].op.Plus? then i else i + 1, if d[0].op.Minus? then j else j + 1);
    }
  }

  lemma {:induction false} NoEllipsis(a: seq<string>, b: seq<string>, i: nat, j: nat)
    requires i <= |a| && j <= |b|
    ensures forall k :: 0 <= k < |Diff(a, b, i, j)| ==> !Diff(a, b, i, j)[k].op.Ellipsis?
    decreases |a| - i + |b| - j
  {
    if i < |a| || j < |b| {
      hide Diff, Lcs;
      DiffHead(a, b, i, j);
      var d := Diff(a, b, i, j);
      NoEllipsis(a, b, if d[0].op.Plus? then i else i + 1, if d[0].op.Minus? then j else j + 1);
    }
  }

  /** The diff is correct and minimal: without the '+' lines it is the text
      before, without the '-' lines the text after, and no common subsequence of
      the two has more lines than it keeps. */
  lemma DiffCorrectAndMinimal(before: string, after: string)
    ensures var a, b := SplitLines(before), SplitLines(after);
            var d := Diff(a, b, 0, 0);
            && AreLines(a) && Lines(d, Same, Minus) == a && JoinLines(a) == before
            && AreLines(b) && Lines(d, Same, Plus) == b && JoinLines(b) == after
            && At(Lines(d, Same, Same), a, SamePlaces(a, b, 0, 0).0)
            && At(Lines(d, Same, Same), b, SamePlaces(a, b, 0, 0).1)
            && forall c, f, g :: At(c, a, f) && At(c, b, g) ==> |c| <= |Lines(d, Same, Same)|
  {
    var a, b := SplitLines(before), SplitLines(after);
    KeepsBefore(a, b, 0, 0);
    KeepsAfter(a, b, 0, 0);
    CountsCommon(a, b, 0, 0);
    JoinUndoesSplit(before);
    JoinUndoesSplit(after);
    SplitGivesLines(before);
    SplitGivesLines(after);
    hide AreLines, SplitLines, JoinLines, Diff, SamePlaces;
    SameIsCommon(a, b, 0, 0);
    forall c, f, g | At(c, a, f) && At(c, b, g) ensures |c| <= Lcs(a, b, 0, 0) {
      LcsBound(a, b, 0, 0, c, f, g);
    }
  }

  /** No '-' line stands right behind a '+' line. */
  ghost predicate MinusFirst(d: seq<Entry>) {
    forall k :: 0 <= k < |d| - 1 && d[k].op == Plus ==> d[k + 1].op != Minus
  }

  /** Of the lines between two unchanged ones, those taken away come before those that
      replace them. */
  lemma {:induction false} DeletionsFirst(a: seq<string>, b: seq<string>, i: nat, j: nat)
    requires i <= |a| && j <= |b|
    ensures MinusFirst(Diff(a, b, i, j))
    decreases |a| - i + |b| - j
  {
    var d := Diff(a, b, i, j);
    if d != [] {
      DiffHead(a, b, i, j);
      var i', j' := if d[0].op == Plus then i else i + 1, if d[0].op == Minus then j else j + 1;
      assert d == [d[0]] + d[1..];
      DeletionsFirst(a, b, i', j');
      if d[0].op == Plus { NoMinusNext(a, b, i, j); }
      hide Diff;
      MinusFirstCons(d[0], Diff(a, b, i', j'));
    }
  }

  lemma MinusFirstCons(e: Entry, d: seq<Entry>)
    requires MinusFirst(d) && (e.op == Plus && d != [] ==> d[0].op != Minus)
    ensures MinusFirst([e] + d)
  {
    var all := [e] + d;
    forall k | 0 <= k < |all| - 1 && all[k].op == Plus ensures all[k + 1].op != Minus {
      if k > 0 { assert all[k] == d[k - 1] && all[k + 1] == d[k]; }
    }
  }

  lemma NoMinusNext(a: seq<string>, b: seq<string>, i: nat, j: nat)
    requires i <= |a| && j < |b| && Diff(a, b, i, j) != [] && Diff(a, b, i, j)[0].op == Plus
    ensures Diff(a, b, i, j + 1) != [] ==> Diff(a, b, i, j + 1)[0].op != Minus
  {
    if i < |a| { LcsLonger(a, b, i + 1, j); }
  }

  /** One more line does not make the common part shorter. */
  lemma LcsLonger(a: seq<string>, b: seq<string>, i: nat, j: nat)
    requires i <= |a| && j < |b|
    ensures Lcs(a, b, i, j + 1) <= Lcs(a, b, i, j)
    decreases |a| - i + |b| - j
  {
    if i < |a| && a[i] == b[j] && j + 1 < |b| && a[i] != b[j + 1] {
      LcsStep(a, b, i, j + 1);
    } else if i < |a| && a[i] == b[j] && j + 1 < |b| {
      LcsLonger(a, b, i + 1, j + 1);
    }
  }

  /** One line less makes it shorter by one at most. */
  lemma LcsStep(a: seq<string>, b: seq<string>, i: nat, j: nat)
    requires i < |a| && j <= |b|
    ensures Lcs(a, b, i, j) <= Lcs(a, b, i + 1, j) + 1
    decreases |a| - i + |b| - j
  {
    if j < |b| {
      LcsLonger(a, b, i + 1, j);
      if a[i] != b[j] { LcsStep(a, b, i, j + 1); }
    }
  }

  /** Where the unchanged lines stand in either text. */
  function SamePlaces(a: seq<string>, b: seq<string>, i: nat, j: nat): (seq<nat>, seq<nat>)
    requires i <= |a| && j <= |b|
    decreases |a| - i + |b| - j
  {
    if i == |a| || j == |b| then ([], [])
    else if a[i] == b[j] then
      var (f, g) := SamePlaces(a, b, i + 1, j + 1);
      ([i] + f, [j] + g)
    else if Lcs(a, b, i + 1, j) >= Lcs(a, b, i, j + 1) then SamePlaces(a, b, i + 1, j)
    else SamePlaces(a, b, i, j + 1)
  }

  lemma {:induction false} SameIsCommon(a: seq<string>, b: seq<string>, i: nat, j: nat)
    requires i <= |a| && j <= |b|
    ensures var c, (f, g) := Lines(Diff(a, b, i, j), Same, Same), SamePlaces(a, b, i, j);
            && At(c, a, f) && At(c, b, g)
            && forall k :: 0 <= k < |c| ==> f[k] >= i && g[k] >= j
    decreases |a| - i + |b| - j
  {
    hide At, Diff;
    if i < |a| || j < |b| { DiffHead(a, b, i, j); }
    if i == |a| || j == |b| {
      OneSided(a, b, i, j);
      AtNothing(a);
      AtNothing(b);
    } else if a[i] == b[j] {
      SameIsCommon(a, b, i + 1, j + 1);
      var c := Lines(Diff(a, b, i + 1, j + 1), Same, Same);
      var (f, g) := SamePlaces(a, b, i + 1, j + 1);
      AtLength(c, a, f);
      AtLength(c, b, g);
      AtCons(c, a, f, i);
      AtCons(c, b, g, j);
    } else if Lcs(a, b, i + 1, j) >= Lcs(a, b, i, j + 1) {
      SameIsCommon(a, b, i + 1, j);
      assert Lines(Diff(a, b, i, j), Same, Same) == Lines(Diff(a, b, i + 1, j), Same, Same);
    } else {
      SameIsCommon(a, b, i, j + 1);
      assert Lines(Diff(a, b, i, j), Same, Same) == Lines(Diff(a, b, i, j + 1), Same, Same);
    }
  }

  lemma AtNothing(a: seq<string>)
    ensures At([], a, [])
  {
  }

  lemma AtLength(c: seq<string>, a: seq<string>, f: seq<nat>)
    requires At(c, a, f)
    ensures |f| == |c|
  {
  }

  /** Where one text has ended, no line is common. */
  lemma {:induction false} OneSided(a: seq<string>, b: seq<string>, i: nat, j: nat)
    requires i <= |a| && j <= |b| && (i == |a| || j == |b|)
    ensures Lines(Diff(a, b, i, j), Same, Same) == []
    decreases |a| - i + |b| - j
  {
    if i < |a| {
      OneSided(a, b, i + 1, j);
      assert Diff(a, b, i, j)[1..] == Diff(a, b, i + 1, j);
    } else if j < |b| {
      OneSided(a, b, i, j + 1);
      assert Diff(a, b, i, j)[1..] == Diff(a, b, i, j + 1);
    }
  }

  /** Row i of the table, from the right, the rows below being filled. */
  method FillRow(a: seq<string>, b: seq<string>, lcs: array2<nat>, i: nat)
    requires lcs.Length0 == |a| + 1 && lcs.Length1 == |b| + 1 && i < |a|
    requires forall k, l :: i < k <= |a| && 0 <= l <= |b| ==> lcs[k, l] == Lcs(a, b, k, l)
    requires lcs[i, |b|] == 0
    modifies lcs
    ensures forall l :: 0 <= l <= |b| ==> lcs[i, l] == Lcs(a, b, i, l)
    ensures forall k, l :: 0 <= k <= |a| && k != i && 0 <= l <= |b| ==> lcs[k, l] == old(lcs[k, l])
  {
    var j := |b| - 1;
    while j >= 0
      invariant -1 <= j < |b|
      invariant forall l :: j < l <= |b| ==> lcs[i, l] == Lcs(a, b, i, l)
      invariant forall k, l :: 0 <= k <= |a| && k != i && 0 <= l <= |b| ==> lcs[k, l] == old(lcs[k, l])
    {
      lcs[i, j] := if a[i] == b[j] then lcs[i + 1, j + 1] + 1
                   else if lcs[i + 1, j] >= lcs[i, j + 1] then lcs[i + 1, j] else lcs[i, j + 1];
      j := j - 1;
    }
  }

  method FillTable(a: seq<string>, b: seq<string>) returns (lcs: array2<nat>)
    ensures fresh(lcs) && lcs.Length0 == |a| + 1 && lcs.Length1 == |b| + 1
    ensures forall k, l :: 0 <= k <= |a| && 0 <= l <= |b| ==> lcs[k, l] == Lcs(a, b, k, l)
  {
    lcs := new nat[|a| + 1, |b| + 1]((_, _) => 0);
    var i := |a| - 1;
    while i >= 0
      invariant -1 <= i < |a|
      invariant forall k, l :: i < k <= |a| && 0 <= l <= |b| ==> lcs[k, l] == Lcs(a, b, k, l)
      invariant forall k :: 0 <= k <= i ==> lcs[k, |b|] == 0
    {
      hide Lcs;
      FillRow(a, b, lcs, i);
      i := i - 1;
    }
  }

  lemma Shift(out: seq<Entry>, d: seq<Entry>)
    requires d != []
    ensures out + d == out + [d[0]] + d[1..]
  {
  }

  lemma DiffEnd(a: seq<string>, b: seq<string>)
    ensures Diff(a, b, |a|, |b|) == []
  {
  }

  method DiffLines(before: string, after: string) returns (out: seq<Entry>)
    ensures out == Diff(SplitLines(before), SplitLines(after), 0, 0)
  {
    hide Lcs, Diff, SplitLines;
    var a, b := SplitLines(before), SplitLines(after);
    var n, m := |a|, |b|;
    var lcs := FillTable(a, b);
    out := [];
    ghost var all := Diff(a, b, 0, 0);
    var i, j := 0, 0;
    while i < n && j < m
      invariant 0 <= i <= n && 0 <= j <= m && all == out + Diff(a, b, i, j)
      invariant lcs.Length0 == n + 1 && lcs.Length1 == m + 1
      invariant forall k, l :: 0 <= k <= n && 0 <= l <= m ==> lcs[k, l] == Lcs(a, b, k, l)
      decreases n - i + m - j
    {
      DiffHead(a, b, i, j);
      Shift(out, Diff(a, b, i, j));
      if a[i] == b[j] {
        out := out + [Entry(Same, a[i])];
        i, j := i + 1, j + 1;
      } else if lcs[i + 1, j] >= lcs[i, j + 1] {
        out := out + [Entry(Minus, a[i])];
        i := i + 1;
      } else {
        out := out + [Entry(Plus, b[j])];
        j := j + 1;
      }
    }
    while i < n
      invariant 0 <= i <= n && (i < n ==> j == m) && 0 <= j <= m && all == out + Diff(a, b, i, j)
    {
      DiffHead(a, b, i, j);
      Shift(out, Diff(a, b, i, j));
      out := out + [Entry(Minus, a[i])];
      i := i + 1;
    }
    while j < m
      invariant 0 <= j <= m && all == out + Diff(a, b, n, j)
    {
      DiffHead(a, b, i, j);
      Shift(out, Diff(a, b, i, j));
      out := out + [Entry(Plus, b[j])];
      j := j + 1;
    }
    DiffEnd(a, b);
    assert out + [] == out;
  }

  // ---- the compact form ----

  /** Entry k is changed or within `context` entries of a changed one. */
  ghost predicate Near(diff: seq<Entry>, context: int, k: int) {
    exists idx :: 0 <= idx < |diff| && !diff[idx].op.Same? && idx - context <= k <= idx + context
  }

  /** The places below n that are kept, in order. */
  ghost function Kept(diff: seq<Entry>, context: int, n: nat): seq<nat> {
    if n == 0 then []
    else Kept(diff, context, n - 1) + (if Near(diff, context, n - 1) then [n - 1] else [])
  }

  predicate HasGap(ks: seq<nat>, t: nat)
    requires t < |ks|
  {
    t > 0 && ks[t] > ks[t - 1] + 1
  }

  /** The entries at the places ks, an ellipsis where two are not neighbours. */
  function Shown(diff: seq<Entry>, ks: seq<nat>): seq<Entry>
    requires forall t :: 0 <= t < |ks| ==> ks[t] < |diff|
  {
    if ks == [] then []
    else
      var t := |ks| - 1;
      Shown(diff, ks[..t]) + (if HasGap(ks, t) then [Entry(Ellipsis, "")] else []) + [diff[ks[t]]]
  }

  /** How many gaps there are up to place t. */
  function Gaps(ks: seq<nat>, t: nat): nat
    requires t < |ks|
  {
    (if HasGap(ks, t) then 1 else 0) + if t == 0 then 0 else Gaps(ks, t - 1)
  }

  predicate IncreasingBelow(ks: seq<nat>, n: nat) {
    && (forall t :: 0 <= t < |ks| ==> ks[t] < n)
    && forall t, u :: 0 <= t < u < |ks| ==> ks[t] < ks[u]
  }

  /** Exactly the places near a change are kept, each once, in order. */
  lemma {:induction false} KeptExactly(diff: seq<Entry>, context: int, n: nat)
    ensures forall k :: k in Kept(diff, context, n) <==> 0 <= k < n && Near(diff, context, k)
    ensures IncreasingBelow(Kept(diff, context, n), n)
  {
    hide Near;
    if n > 0 { KeptExactly(diff, context, n - 1); }
  }

  lemma {:induction false} GapsPrefix(ks: seq<nat>, t: nat, n: nat)
    requires t < n <= |ks|
    ensures Gaps(ks[..n], t) == Gaps(ks, t)
    decreases t
  {
    if t > 0 { GapsPrefix(ks, t - 1, n); }
  }

  lemma {:induction false} ShownLength(diff: seq<Entry>, ks: seq<nat>)
    requires forall t :: 0 <= t < |ks| ==> ks[t] < |diff|
    ensures |Shown(diff, ks)| == |ks| + (if ks == [] then 0 else Gaps(ks, |ks| - 1))
    decreases |ks|
  {
    if |ks| > 1 {
      ShownLength(diff, ks[..|ks| - 1]);
      GapsPrefix(ks, |ks| - 2, |ks| - 1);
    }
  }

  /** Where everything stands in the compact diff: the t-th kept entry behind
      one ellipsis for each gap so far, and an ellipsis right before it exactly
      when it has a gap in front.  With ShownLength this leaves no other entry. */
  lemma {:induction false} ShownLayout(diff: seq<Entry>, ks: seq<nat>, t: nat)
    requires forall u :: 0 <= u < |ks| ==> ks[u] < |diff|
    requires t < |ks|
    ensures t + Gaps(ks, t) < |Shown(diff, ks)| && Shown(diff, ks)[t + Gaps(ks, t)] == diff[ks[t]]
    ensures HasGap(ks, t) ==> t + Gaps(ks, t) >= 1 && Shown(diff, ks)[t + Gaps(ks, t) - 1] == Entry(Ellipsis, "")
    decreases |ks|
  {
    var n := |ks| - 1;
    ShownLength(diff, ks);
    if t < n {
      hide Gaps;
      ShownLayout(diff, ks[..n], t);
      GapsPrefix(ks, t, n);
      assert HasGap(ks[..n], t) <==> HasGap(ks, t);
    } else {
      hide Shown;
      ShownTail(diff, ks);
    }
  }

  lemma ShownTail(diff: seq<Entry>, ks: seq<nat>)
    requires ks != [] && forall u :: 0 <= u < |ks| ==> ks[u] < |diff|
    ensures var s := Shown(diff, ks);
            && s != [] && s[|s| - 1] == diff[ks[|ks| - 1]]
            && (HasGap(ks, |ks| - 1) ==> |s| > 1 && s[|s| - 2] == Entry(Ellipsis, ""))
  {
  }

  /** The set of kept places, some of them before or behind the diff. */
  method MarkKept(diff: seq<Entry>, context: int) returns (keep: set<int>)
    ensures forall k :: k in keep <==> Near(diff, context, k)
  {
    keep := {};
    for idx := 0 to |diff|
      invariant forall k :: k in keep <==>
                exists j :: 0 <= j < idx && !diff[j].op.Same? && j - context <= k <= j + context
    {
      if !diff[idx].op.Same? {
        ghost var before := keep;
        var k := idx - context;
        while k <= idx + context
          invariant idx - context <= k
          invariant forall l :: l in keep <==> l in before || (idx - context <= l < k && l <= idx + context)
          decreases idx + context - k
        {
          keep := keep + {k};
          k := k + 1;
        }
      }
    }
  }

  lemma ShownMore(diff: seq<Entry>, ks: seq<nat>, k: nat)
    requires k < |diff| && forall u :: 0 <= u < |ks| ==> ks[u] < |diff|
    ensures Shown(diff, ks + [k])
            == Shown(diff, ks) + (if ks != [] && k > ks[|ks| - 1] + 1 then [Entry(Ellipsis, "")] else []) + [diff[k]]
  {
    assert (ks + [k])[..|ks|] == ks;
  }

  /** The compact diff: what is kept is what KeptExactly says, where it stands is
      what ShownLayout says. */
  method CompactDiff(diff: seq<Entry>, context: int) returns (out: seq<Entry>)
    ensures forall t :: 0 <= t < |Kept(diff, context, |diff|)| ==> Kept(diff, context, |diff|)[t] < |diff|
    ensures out == Shown(diff, Kept(diff, context, |diff|))
  {
    var keep := MarkKept(diff, context);
    hide Near, Shown;
    out := [];
    var last := -1;
    ghost var ks: seq<nat> := [];
    assert Shown(diff, []) == [] by { ShownNothing(diff); }
    for idx := 0 to |diff|
      invariant ks == Kept(diff, context, idx)
      invariant forall t :: 0 <= t < |ks| ==> ks[t] < idx
      invariant last == if ks == [] then -1 else ks[|ks| - 1]
      invariant out == Shown(diff, ks)
    {
      if idx !in keep { continue; }
      ShownMore(diff, ks, idx);
      if last != -1 && idx > last + 1 {
        out := out + [Entry(Ellipsis, "")];
      }
      out := out + [diff[idx]];
      last := idx;
      ks := ks + [idx];
    }
  }

  lemma ShownNothing(diff: seq<Entry>)
    ensures Shown(diff, []) == []
  {
  }
}
