/** Replacing the placeholders of a file by passwords: only the uncommented ones,
    in order, and nothing else of the file changes. */
module PlaceholderPasswords {
  import opened Text
  import opened SourceScan
  import opened Placeholders
  import opened DclAccounts

  /** Disjoint places of length w in content, in order. */
  ghost predicate Spaced(content: string, ps: seq<nat>, w: nat) {
    && (forall i :: 0 <= i < |ps| ==> ps[i] + w <= |content|)
    && (forall i, j :: 0 <= i < j < |ps| ==> ps[i] + w <= ps[j])
  }

  /** The end of the n-th placeholder. */
  function Cursor(ps: seq<nat>, w: nat, n: nat): nat
    requires n <= |ps|
  {
    if n == 0 then 0 else ps[n - 1] + w
  }

  /** The text up to the end of the n-th placeholder, with passwords for placeholders. */
  function ResolvedTo(content: string, ps: seq<nat>, w: nat, passwords: seq<string>, n: nat): string
    requires Spaced(content, ps, w) && n <= |ps| && n <= |passwords|
  {
    if n == 0 then ""
    else ResolvedTo(content, ps, w, passwords, n - 1) + content[Cursor(ps, w, n - 1)..ps[n - 1]] + passwords[n - 1]
  }

  function Resolved(content: string, ps: seq<nat>, w: nat, passwords: seq<string>): string
    requires Spaced(content, ps, w) && |ps| == |passwords|
  {
    ResolvedTo(content, ps, w, passwords, |ps|) + content[Cursor(ps, w, |ps|)..]
  }

  /** How far the first n passwords push what follows them. */
  function Shift(passwords: seq<string>, w: nat, n: nat): int
    requires n <= |passwords|
  {
    if n == 0 then 0 else Shift(passwords, w, n - 1) + |passwords[n - 1]| - w
  }

  lemma {:induction false} ResolvedLength(content: string, ps: seq<nat>, w: nat, passwords: seq<string>, n: nat)
    requires Spaced(content, ps, w) && n <= |ps| == |passwords|
    ensures |ResolvedTo(content, ps, w, passwords, n)| == Cursor(ps, w, n) + Shift(passwords, w, n)
    decreases n
  {
    if n > 0 { ResolvedLength(content, ps, w, passwords, n - 1); }
  }

  /** What follows does not change what was written. */
  lemma {:induction false} ResolvedPrefix(content: string, ps: seq<nat>, w: nat, passwords: seq<string>, m: nat, n: nat)
    requires Spaced(content, ps, w) && m <= n <= |ps| == |passwords|
    ensures ResolvedTo(content, ps, w, passwords, m) <= ResolvedTo(content, ps, w, passwords, n)
    decreases n
  {
    if m < n { ResolvedPrefix(content, ps, w, passwords, m, n - 1); }
  }

  /** Password i stands where placeholder i stood, moved by what the passwords
      before it added. */
  lemma PasswordInPlace(content: string, ps: seq<nat>, w: nat, passwords: seq<string>, i: nat)
    requires Spaced(content, ps, w) && i < |ps| == |passwords|
    ensures var start := ps[i] + Shift(passwords, w, i);
            start >= 0 && OccursAt(Resolved(content, ps, w, passwords), passwords[i], start)
  {
    ResolvedLength(content, ps, w, passwords, i);
    ResolvedPrefix(content, ps, w, passwords, i + 1, |ps|);
    var start := ps[i] + Shift(passwords, w, i);
    var head := ResolvedTo(content, ps, w, passwords, i) + content[Cursor(ps, w, i)..ps[i]];
    assert |head| == start;
    PieceInPlace(head, passwords[i], Resolved(content, ps, w, passwords));
  }

  lemma PieceInPlace(head: string, piece: string, whole: string)
    requires head + piece <= whole
    ensures OccursAt(whole, piece, |head|)
  {
    assert whole[..|head + piece|] == head + piece;
    assert whole[|head|..|head| + |piece|] == whole[..|head + piece|][|head|..];
  }

  /** The text between two placeholders is as it was. */
  lemma BetweenUnchanged(content: string, ps: seq<nat>, w: nat, passwords: seq<string>, i: nat)
    requires Spaced(content, ps, w) && i < |ps| == |passwords|
    ensures var start := Cursor(ps, w, i) + Shift(passwords, w, i);
            start >= 0 && OccursAt(Resolved(content, ps, w, passwords), content[Cursor(ps, w, i)..ps[i]], start)
  {
    ResolvedLength(content, ps, w, passwords, i);
    ResolvedPrefix(content, ps, w, passwords, i + 1, |ps|);
    var head := ResolvedTo(content, ps, w, passwords, i);
    var piece := content[Cursor(ps, w, i)..ps[i]];
    assert head + piece <= ResolvedTo(content, ps, w, passwords, i + 1);
    PieceInPlace(head, piece, Resolved(content, ps, w, passwords));
  }

  lemma {:induction false} PlaceholdersBack(content: string, ps: seq<nat>, word: string, n: nat)
    requires Spaced(content, ps, |word|) && n <= |ps| && forall i :: 0 <= i < |ps| ==> OccursAt(content, word, ps[i])
    ensures ResolvedTo(content, ps, |word|, seq(|ps|, i => word), n) == content[..Cursor(ps, |word|, n)]
    decreases n
  {
    if n > 0 {
      PlaceholdersBack(content, ps, word, n - 1);
      var a, b, c := Cursor(ps, |word|, n - 1), ps[n - 1], ps[n - 1] + |word|;
      assert OccursAt(content, word, b);
      Glue(content, a, b, c);
    }
  }

  lemma Glue(s: string, a: nat, b: nat, c: nat)
    requires a <= b <= c <= |s|
    ensures s[..a] + s[a..b] + s[b..c] == s[..c]
  {
  }

  /** Putting the placeholders back gives the file. */
  lemma ResolvingBack(content: string, ps: seq<nat>, word: string)
    requires Spaced(content, ps, |word|) && forall i :: 0 <= i < |ps| ==> OccursAt(content, word, ps[i])
    ensures Resolved(content, ps, |word|, seq(|ps|, i => word)) == content
  {
    PlaceholdersBack(content, ps, word, |ps|);
    Glue(content, 0, Cursor(ps, |word|, |ps|), |content|);
  }

  // ---- the places that are found ----

  /** No two occurrences of a marker overlap. */
  lemma {:induction false} OccurrencesSpaced(s: string, w: string)
    requires Marker(w)
    ensures Spaced(s, Occurrences(s, w), |w|)
    decreases |s|
  {
    if s != "" {
      OccurrencesSpaced(s[..|s| - 1], w);
      if EndsWith(s, w) {
        var ps := Occurrences(s, w);
        var earlier := Occurrences(s[..|s| - 1], w);
        forall i | 0 <= i < |earlier| ensures ps[i] + |w| <= |s| - |w| {
          OldBefore(s, w, i);
        }
      }
    }
  }

  lemma OldBefore(s: string, w: string, i: nat)
    requires Marker(w) && s != "" && EndsWith(s, w) && i < |Occurrences(s[..|s| - 1], w)|
    ensures Occurrences(s[..|s| - 1], w)[i] + |w| <= |s| - |w|
  {
    MarkerNotEmpty(w);
    EndingAt(s, w);
    hide *;
    var p := Occurrences(s[..|s| - 1], w)[i];
    OccurrencesSound(s[..|s| - 1], w, i);
    OccursWithin(s[..|s| - 1], w, p);
    OccursLonger(s, w, p);
    if p < |s| - |w| < p + |w| { NoOverlap(s, w, p, |s| - |w|); }
  }

  lemma EndingAt(s: string, w: string)
    requires EndsWith(s, w)
    ensures |w| <= |s| && OccursAt(s, w, |s| - |w|)
  {
    assert s[|s| - |w|..|s|] == s[|s| - |w|..];
  }

  /** The placeholders that get a password stand in the file itself. */
  lemma UncommentedThere(content: string)
    ensures Spaced(content, Uncommented(content), |PLACEHOLDER|)
    ensures forall i :: 0 <= i < |Uncommented(content)| ==> OccursAt(content, PLACEHOLDER, Uncommented(content)[i])
  {
    PlaceholderIsMarker();
    var m := Masked(content, Sql);
    OccurrencesSpaced(m, PLACEHOLDER);
    forall i | 0 <= i < |Uncommented(content)| ensures OccursAt(content, PLACEHOLDER, Uncommented(content)[i]) {
      OccurrencesSound(m, PLACEHOLDER, i);
      SolidUnmasked(content, PLACEHOLDER, Uncommented(content)[i]);
    }
  }

  lemma SolidUnmasked(content: string, w: string, p: nat)
    requires Solid(w) && OccursAt(Masked(content, Sql), w, p)
    ensures OccursAt(content, w, p)
  {
    var m := Masked(content, Sql);
    forall k | 0 <= k < |w| ensures content[p + k] == w[k] {
      assert m[p..p + |w|][k] == m[p + k];
    }
    assert content[p..p + |w|] == w;
  }

  /** Replace every uncommented placeholder by a password of its own. */
  method ResolvePlaceholderPasswords(content: string, generate: nat -> string)
    returns (resolved: string, passwords: seq<string>)
    ensures Spaced(content, Uncommented(content), |PLACEHOLDER|)
    ensures |passwords| == |Uncommented(content)| && forall i :: 0 <= i < |passwords| ==> passwords[i] == generate(i)
    ensures resolved == Resolved(content, Uncommented(content), |PLACEHOLDER|, passwords)
  {
    hide Masked, Occurrences, Spaced, Resolved;
    var masked := MaskComments(content, Sql);
    PlaceholderIsMarker();
    UncommentedThere(content);
    var positions := FindAll(masked, PLACEHOLDER);
    resolved, passwords := ReplaceAll(content, positions, |PLACEHOLDER|, generate);
  }

  method ReplaceAll(content: string, positions: seq<nat>, w: nat, generate: nat -> string)
    returns (resolved: string, passwords: seq<string>)
    requires Spaced(content, positions, w)
    ensures |passwords| == |positions| && forall i :: 0 <= i < |passwords| ==> passwords[i] == generate(i)
    ensures resolved == Resolved(content, positions, w, passwords)
  {
    hide Spaced, ResolvedTo;
    passwords, resolved := [], "";
    var cursor := 0;
    CursorsIn(content, positions, w);
    NothingYet(content, positions, w);
    for i := 0 to |positions|
      invariant |passwords| == i && forall j :: 0 <= j < i ==> passwords[j] == generate(j)
      invariant resolved == ResolvedTo(content, positions, w, passwords, i)
      invariant cursor == Cursor(positions, w, i)
    {
      ghost var before := passwords;
      passwords := passwords + [generate(i)];
      ResolvedNext(content, positions, w, before, passwords, i);
      resolved := resolved + content[cursor..positions[i]] + passwords[i];
      cursor := positions[i] + w;
    }
    resolved := resolved + content[cursor..];
  }

  lemma CursorsIn(content: string, ps: seq<nat>, w: nat)
    requires Spaced(content, ps, w)
    ensures forall i :: 0 <= i <= |ps| ==> Cursor(ps, w, i) <= |content|
    ensures forall i :: 0 <= i < |ps| ==> Cursor(ps, w, i) <= ps[i] <= |content|
  {
  }

  lemma NothingYet(content: string, ps: seq<nat>, w: nat)
    requires Spaced(content, ps, w)
    ensures ResolvedTo(content, ps, w, [], 0) == ""
  {
  }

  lemma ResolvedNext(content: string, ps: seq<nat>, w: nat, a: seq<string>, b: seq<string>, n: nat)
    requires Spaced(content, ps, w) && n < |ps| && n == |a| < |b| && a == b[..|a|]
    ensures Cursor(ps, w, n) <= ps[n] <= |content|
    ensures ResolvedTo(content, ps, w, b, n + 1)
            == ResolvedTo(content, ps, w, a, n) + content[Cursor(ps, w, n)..ps[n]] + b[n]
  {
    SamePasswords(content, ps, w, a, b, n);
  }

  lemma {:induction false} SamePasswords(content: string, ps: seq<nat>, w: nat, a: seq<string>, b: seq<string>, n: nat)
    requires Spaced(content, ps, w) && n <= |ps| && n <= |a| <= |b| && a == b[..|a|]
    ensures ResolvedTo(content, ps, w, a, n) == ResolvedTo(content, ps, w, b, n)
    decreases n
  {
    if n > 0 { SamePasswords(content, ps, w, a, b, n - 1); }
  }

  /** A place gets a password exactly when the placeholder stands there outside of
      comments. */
  lemma UncommentedIs(content: string, p: nat)
    ensures p in Uncommented(content)
            <==> p + 24 <= |content| && Masked(content, Sql)[p..p + 24] == "CHANGE_ME_ON_FIRST_LOGIN"
  {
    var m := Masked(content, Sql);
    hide Masked;
    if p in Occurrences(m, PLACEHOLDER) {
      var k :| 0 <= k < |Occurrences(m, PLACEHOLDER)| && Occurrences(m, PLACEHOLDER)[k] == p;
      OccurrencesSound(m, PLACEHOLDER, k);
    }
    if OccursAt(m, PLACEHOLDER, p) { OccurrencesAll(m, PLACEHOLDER, p); }
    hide Occurrences;
  }
}
