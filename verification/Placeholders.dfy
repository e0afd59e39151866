/** The password placeholder in a DCL file: where it stands in the file, in the
    text with comments masked and white space collapsed, and in the ';'-separated
    statements of that text. */
module Placeholders {
  import opened Text
  import opened SourceScan

  const PLACEHOLDER := "CHANGE_ME_ON_FIRST_LOGIN"

  /** A word without white space or semicolons whose first letter comes only once. */
  predicate Marker(w: string) {
    w != "" && Solid(w) && forall d :: 0 < d < |w| ==> w[d] != w[0]
  }

  /** Neither white space nor a semicolon. */
  predicate Solid(w: string) {
    forall k :: 0 <= k < |w| ==> !IsSpace(w[k]) && w[k] != ';'
  }

  lemma PlaceholderIsMarker()
    ensures Marker(PLACEHOLDER)
  {
  }

  predicate EndsWith(s: string, w: string) {
    |w| <= |s| && s[|s| - |w|..] == w
  }

  predicate OccursAt(s: string, w: string, p: nat) {
    p + |w| <= |s| && s[p..p + |w|] == w
  }

  /** The places, in order, where w stands in s. */
  function Occurrences(s: string, w: string): (r: seq<nat>)
    requires w != ""
    ensures forall k :: 0 <= k < |r| ==> r[k] + |w| <= |s|
    decreases |s|
  {
    if s == "" then []
    else Occurrences(s[..|s| - 1], w) + Ending(s, w)
  }

  /** The occurrence that ends with s, if one does. */
  function Ending(s: string, w: string): seq<nat> {
    if EndsWith(s, w) then [|s| - |w|] else []
  }

  lemma {:induction false} OccurrencesSound(s: string, w: string, k: nat)
    requires w != "" && k < |Occurrences(s, w)|
    ensures OccursAt(s, w, Occurrences(s, w)[k])
    decreases |s|
  {
    hide OccursAt;
    if s == "" {
    } else {
      var before := Occurrences(s[..|s| - 1], w);
      OccurrenceLast(s, w, k);
      if k < |before| {
        hide Occurrences;
        OccurrencesSound(s[..|s| - 1], w, k);
        OccursLonger(s, w, before[k]);
      }
    }
  }

  /** An occurrence was there before the last character, or ends with it. */
  lemma OccurrenceLast(s: string, w: string, k: nat)
    requires w != "" && s != "" && k < |Occurrences(s, w)|
    ensures var before := Occurrences(s[..|s| - 1], w);
            if k < |before| then Occurrences(s, w)[k] == before[k] else OccursAt(s, w, Occurrences(s, w)[k])
  {
    var before := Occurrences(s[..|s| - 1], w);
    assert Occurrences(s, w) == before + Ending(s, w) by { hide Ending; }
    EndingOccurs(s, w);
    hide OccursAt, Occurrences, Ending;
  }

  lemma EndingOccurs(s: string, w: string)
    ensures |Ending(s, w)| <= 1 && (Ending(s, w) != [] ==> OccursAt(s, w, Ending(s, w)[0]))
  {
    if |w| <= |s| { assert s[|s| - |w|..|s|] == s[|s| - |w|..]; }
  }

  lemma OccursLonger(s: string, w: string, p: nat)
    requires s != "" && OccursAt(s[..|s| - 1], w, p)
    ensures OccursAt(s, w, p)
  {
    assert s[..|s| - 1][p..p + |w|] == s[p..p + |w|];
  }

  // ---- finding them, as the source does ----

  function IndexOf(s: string, w: string, from: nat): (r: Option<nat>)
    ensures r.Some? ==> from <= r.value && OccursAt(s, w, r.value)
    ensures forall p :: from <= p < (if r.Some? then r.value else |s| + 1) ==> !OccursAt(s, w, p)
    decreases |s| + 1 - from
  {
    if from > |s| then None else if OccursAt(s, w, from) then Some(from) else IndexOf(s, w, from + 1)
  }

  /** A marker does not overlap itself. */
  lemma NoOverlap(s: string, w: string, p: nat, q: nat)
    requires Marker(w) && OccursAt(s, w, p) && p < q < p + |w|
    ensures !OccursAt(s, w, q)
  {
    assert s[q] == w[q - p] != w[0];
  }

  /** Where nothing new ends, nothing new is found. */
  lemma {:induction false} OccurrencesFlat(s: string, w: string, m: nat, n: nat)
    requires w != "" && m <= n <= |s|
    requires forall p: nat :: m < p + |w| <= n ==> !OccursAt(s, w, p)
    ensures Occurrences(s[..n], w) == Occurrences(s[..m], w)
    decreases n
  {
    hide OccursAt, Occurrences, Ending;
    if m < n {
      OccurrencesFlat(s, w, m, n - 1);
      OccurrencesOne(s, w, n);
      if |w| <= n { assert !OccursAt(s, w, n - |w|); }
      EndsNot(s, w, n);
      assert Occurrences(s[..n - 1], w) + [] == Occurrences(s[..n - 1], w);
    }
  }

  lemma OccurrencesOne(s: string, w: string, n: nat)
    requires w != "" && 0 < n <= |s|
    ensures Occurrences(s[..n], w) == Occurrences(s[..n - 1], w) + Ending(s[..n], w)
  {
    hide Ending;
    assert s[..n][..n - 1] == s[..n - 1];
  }

  lemma EndsNot(s: string, w: string, n: nat)
    requires n <= |s| && (|w| <= n ==> !OccursAt(s, w, n - |w|))
    ensures Ending(s[..n], w) == []
  {
    if |w| <= n { assert s[n - |w|..n] == s[..n][n - |w|..]; }
  }

  lemma OccurrencesNext(s: string, w: string, e: nat)
    requires w != "" && OccursAt(s, w, e)
    ensures Occurrences(s[..e + |w|], w) == Occurrences(s[..e + |w| - 1], w) + [e]
  {
    OccursWithin(s, w, e);
    hide *;
    EndsHere(s, w, e);
    OccurrencesOne(s, w, e + |w|);
  }

  lemma EndsHere(s: string, w: string, e: nat)
    requires OccursAt(s, w, e)
    ensures Ending(s[..e + |w|], w) == [e]
  {
    assert s[..e + |w|][e..] == s[e..e + |w|];
  }

  /** The search that goes on behind each hit finds every occurrence. */
  method FindAll(s: string, w: string) returns (positions: seq<nat>)
    requires Marker(w)
    ensures positions == Occurrences(s, w)
  {
    hide Marker, OccursAt, Occurrences;
    MarkerNotEmpty(w);
    NothingOccurs(s[..0], w);
    positions := [];
    var i := IndexOf(s, w, 0);
    ghost var from := 0;
    while i.Some?
      invariant from <= |s| && positions == Occurrences(s[..from], w)
      invariant i == IndexOf(s, w, from)
      invariant forall p: nat :: p < from < p + |w| ==> !OccursAt(s, w, p)
      decreases |s| - from
    {
      var at := i.value;
      OccursWithin(s, w, at);
      OccurrencesFlat(s, w, from, at + |w| - 1);
      OccurrencesNext(s, w, at);
      positions := positions + [at];
      from := at + |w|;
      forall p: nat | p < from < p + |w| ensures !OccursAt(s, w, p) {
        NoOverlap(s, w, at, p);
      }
      i := IndexOf(s, w, at + |w|);
    }
    NoneBeyond(s, w);
    OccurrencesFlat(s, w, from, |s|);
    assert s[..|s|] == s;
  }

  lemma NothingOccurs(s: string, w: string)
    requires w != "" && s == ""
    ensures Occurrences(s, w) == []
  {
  }

  lemma MarkerNotEmpty(w: string)
    requires Marker(w)
    ensures w != ""
  {
  }

  lemma OccursWithin(s: string, w: string, p: nat)
    requires OccursAt(s, w, p)
    ensures p + |w| <= |s|
  {
  }

  lemma NoneBeyond(s: string, w: string)
    requires w != ""
    ensures forall p: nat :: p + |w| > |s| ==> !OccursAt(s, w, p)
  {
  }

  /** Every occurrence is found. */
  lemma OccurrencesAll(s: string, w: string, p: nat)
    requires w != "" && OccursAt(s, w, p)
    ensures p in Occurrences(s, w)
  {
    var e := p + |w|;
    OccurrencesNext(s, w, p);
    OccurrencesGrow(s, w, e, |s|);
    assert s[..|s|] == s;
    var r := Occurrences(s[..e], w);
    assert r[|r| - 1] == p;
    assert Occurrences(s, w)[|r| - 1] == p;
  }

  lemma {:induction false} OccurrencesGrow(s: string, w: string, m: nat, n: nat)
    requires w != "" && m <= n <= |s|
    ensures Occurrences(s[..m], w) <= Occurrences(s[..n], w)
    decreases n
  {
    if m < n {
      hide Occurrences, Ending;
      OccurrencesGrow(s, w, m, n - 1);
      OccurrencesOne(s, w, n);
    }
  }

  // ---- collapsing white space ----

  /** replace(/\s+/g, ' ') and the white space at the start gone. */
  function Squeezed(s: string): (r: string)
    ensures r != "" ==> !IsSpace(r[0])
    decreases |s|
  {
    if s == "" then ""
    else
      var r := Squeezed(s[..|s| - 1]);
      var c := s[|s| - 1];
      if !IsSpace(c) then r + [c] else if r == "" || r[|r| - 1] == ' ' then r else r + " "
  }

  /** ... and the white space at the end. */
  function Collapsed(s: string): string {
    var r := Squeezed(s);
    if r != "" && r[|r| - 1] == ' ' then r[..|r| - 1] else r
  }

  lemma EndsWithLast(s: string, w: string)
    requires w != ""
    ensures EndsWith(s, w) <==> s != "" && s[|s| - 1] == w[|w| - 1] && EndsWith(s[..|s| - 1], w[..|w| - 1])
  {
    var m := |w| - 1;
    if s != "" && |w| <= |s| {
      var n := |s| - 1;
      assert s[|s| - |w|..] == s[..n][n - m..] + [s[n]];
      assert w == w[..m] + [w[m]];
    }
  }

  /** A solid word ends the text exactly when it ends the squeezed text. */
  lemma {:induction false} SqueezedEnds(s: string, w: string)
    requires Solid(w)
    ensures EndsWith(Squeezed(s), w) <==> EndsWith(s, w)
    decreases |w|
  {
    if w != "" {
      EndsWithLast(s, w);
      EndsWithLast(Squeezed(s), w);
      if s != "" && !IsSpace(s[|s| - 1]) {
        SqueezedEnds(s[..|s| - 1], w[..|w| - 1]);
        assert Squeezed(s)[..|Squeezed(s)| - 1] == Squeezed(s[..|s| - 1]);
      }
    }
  }

  // ---- splitting into statements ----

  /** split(';'). */
  function Fragments(t: string): (r: seq<string>)
    ensures |r| > 0
    decreases |t|
  {
    if t == "" then [""]
    else
      var r := Fragments(t[..|t| - 1]);
      if t[|t| - 1] == ';' then r + [""] else r[..|r| - 1] + [r[|r| - 1] + [t[|t| - 1]]]
  }

  function Joined(r: seq<string>): string
    requires |r| > 0
  {
    if |r| == 1 then r[0] else Joined(r[..|r| - 1]) + ";" + r[|r| - 1]
  }

  /** No fragment holds a ';', and joined by ';' they are the text. */
  lemma {:induction false} FragmentsSplit(t: string)
    ensures Joined(Fragments(t)) == t && forall k :: 0 <= k < |Fragments(t)| ==> ';' !in Fragments(t)[k]
    decreases |t|
  {
    if t != "" {
      FragmentsSplit(t[..|t| - 1]);
      var r := Fragments(t[..|t| - 1]);
      assert t == t[..|t| - 1] + [t[|t| - 1]];
      if t[|t| - 1] == ';' {
        assert (r + [""])[..|r|] == r;
      } else {
        var r' := Fragments(t);
        assert r'[..|r| - 1] == r[..|r| - 1];
      }
    }
  }

  /** What stands behind the last ';'. */
  function LastFragment(t: string): string {
    var r := Fragments(t);
    r[|r| - 1]
  }

  lemma {:induction false} FragmentEnds(t: string, w: string)
    requires Solid(w)
    ensures EndsWith(LastFragment(t), w) <==> EndsWith(t, w)
    decreases |w|
  {
    if w != "" {
      EndsWithLast(t, w);
      EndsWithLast(LastFragment(t), w);
      if t != "" && t[|t| - 1] != ';' {
        FragmentEnds(t[..|t| - 1], w[..|w| - 1]);
        assert LastFragment(t)[..|LastFragment(t)| - 1] == LastFragment(t[..|t| - 1]);
      }
    }
  }

  function Semicolons(s: string): nat {
    if s == "" then 0 else Semicolons(s[..|s| - 1]) + if s[|s| - 1] == ';' then 1 else 0
  }

  lemma {:induction false} FragmentCount(t: string)
    ensures |Fragments(t)| == Semicolons(t) + 1
    decreases |t|
  {
    if t != "" { FragmentCount(t[..|t| - 1]); }
  }

  lemma {:induction false} SqueezedSemicolons(s: string)
    ensures Semicolons(Squeezed(s)) == Semicolons(s)
    decreases |s|
  {
    if s != "" {
      SqueezedSemicolons(s[..|s| - 1]);
      var r := Squeezed(s[..|s| - 1]);
      assert (r + [s[|s| - 1]])[..|r|] == r && (r + " ")[..|r|] == r;
    }
  }

  /** No white space but single blanks between other characters. */
  predicate Tidy(r: string) {
    && (forall k :: 0 <= k < |r| && IsSpace(r[k]) ==> r[k] == ' ')
    && forall k :: 0 <= k < |r| - 1 && IsSpace(r[k]) ==> !IsSpace(r[k + 1])
  }

  lemma {:induction false} SqueezedTidy(s: string)
    ensures Tidy(Squeezed(s)) && Solids(Squeezed(s)) == Solids(s)
    decreases |s|
  {
    if s != "" {
      var r, c := Squeezed(s[..|s| - 1]), s[|s| - 1];
      SqueezedTidy(s[..|s| - 1]);
      if Squeezed(s) != r {
        var x := if IsSpace(c) then ' ' else c;
        assert Squeezed(s) == r + [x];
        assert (r + [x])[..|r|] == r;
      }
    }
  }

  /** The characters that are no white space, in order. */
  function Solids(s: string): string {
    if s == "" then "" else Solids(s[..|s| - 1]) + if IsSpace(s[|s| - 1]) then "" else [s[|s| - 1]]
  }

  /** Collapsing keeps every character that is no white space, in order, and leaves
      single blanks between them and none at either end. */
  lemma CollapsedTidy(s: string)
    ensures var r := Collapsed(s);
            Tidy(r) && (r != "" ==> !IsSpace(r[0]) && !IsSpace(r[|r| - 1])) && Solids(r) == Solids(s)
  {
    hide IsSpace;
    SqueezedTidy(s);
    var r := Squeezed(s);
    if r != "" && r[|r| - 1] == ' ' {
      Blanks();
      assert |r| > 1 ==> !IsSpace(r[|r| - 2]);
    }
  }

  lemma Blanks()
    ensures IsSpace(' ')
  {
  }
}
