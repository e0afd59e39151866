/** The placeholders of a file are the same, in the same order, in the masked
    file, in its collapsed text and in the statements of that text. */
module LineUp {
  import opened Text
  import opened Placeholders

  /** A placeholder: in which statement, and what stands before it there. */
  datatype Place = Place(statement: nat, before: string)

  /** The placeholders of one statement. */
  function PlacesIn(fragment: string, w: string, k: nat): (r: seq<Place>)
    requires w != ""
    ensures |r| == |Occurrences(fragment, w)|
  {
    var ps := Occurrences(fragment, w);
    seq(|ps|, i requires 0 <= i < |ps| => Place(k, fragment[..ps[i]]))
  }

  /** The placeholders of all statements, in order. */
  function Places(fragments: seq<string>, w: string): seq<Place>
    requires w != ""
  {
    if fragments == [] then []
    else Places(fragments[..|fragments| - 1], w) + PlacesIn(fragments[|fragments| - 1], w, |fragments| - 1)
  }

  /** What stands at p of a text, and what of a masked one once it is collapsed. */
  function TextPlace(t: string, p: nat): Place
    requires p <= |t|
  {
    Place(Semicolons(t[..p]), LastFragment(t[..p]))
  }

  function MaskedPlace(m: string, p: nat): Place
    requires p <= |m|
  {
    Place(Semicolons(m[..p]), LastFragment(Squeezed(m[..p])))
  }

  function TextPlaces(t: string, w: string): (r: seq<Place>)
    requires w != ""
    ensures |r| == |Occurrences(t, w)|
  {
    var ps := Occurrences(t, w);
    seq(|ps|, i requires 0 <= i < |ps| => TextPlace(t, ps[i]))
  }

  function MaskedPlaces(m: string, w: string): (r: seq<Place>)
    requires w != ""
    ensures |r| == |Occurrences(m, w)|
  {
    var ps := Occurrences(m, w);
    seq(|ps|, i requires 0 <= i < |ps| => MaskedPlace(m, ps[i]))
  }

  // ---- collapsing keeps the placeholders ----

  lemma Regroup(a: string, w: string)
    requires w != ""
    ensures (a + w[..|w| - 1]) + [w[|w| - 1]] == a + w
  {
  }

  lemma {:induction false} SqueezedBefore(s: string, w: string)
    requires Solid(w) && EndsWith(s, w)
    ensures Squeezed(s) == Squeezed(s[..|s| - |w|]) + w
    decreases |w|
  {
    hide Squeezed, EndsWith;
    if w == "" {
      assert s[..|s|] == s;
      assert Squeezed(s) + "" == Squeezed(s);
    } else {
      EndsWithLast(s, w);
      EndsLength(s, w);
      var n, m := |s| - 1, |w| - 1;
      SolidInit(w);
      SqueezedBefore(s[..n], w[..m]);
      SameInit(s, |w|);
      SqueezedPush(s);
      Regroup(Squeezed(s[..|s| - |w|]), w);
    }
  }

  lemma EndsLength(s: string, w: string)
    requires EndsWith(s, w)
    ensures |w| <= |s|
  {
  }

  lemma SolidInit(w: string)
    requires w != "" && Solid(w)
    ensures Solid(w[..|w| - 1]) && !IsSpace(w[|w| - 1])
  {
  }

  lemma SameInit(s: string, m: nat)
    requires 0 < m <= |s|
    ensures s[..|s| - 1][..|s| - 1 - (m - 1)] == s[..|s| - m]
  {
  }

  /** The i-th occurrence in the squeezed text is the i-th of the text itself. */
  ghost predicate SqueezedAgree(s: string, w: string)
    requires w != ""
  {
    var a, b := Occurrences(s, w), Occurrences(Squeezed(s), w);
    |a| == |b| && forall i :: 0 <= i < |a| ==> Squeezed(s)[..b[i]] == Squeezed(s[..a[i]])
  }

  lemma SqueezedAgreeOld(s: string, w: string, r: string, i: nat)
    requires w != "" && s != "" && SqueezedAgree(s[..|s| - 1], w) && i < |Occurrences(s[..|s| - 1], w)|
    requires r == Squeezed(s[..|s| - 1]) && r <= Squeezed(s)
    ensures Squeezed(s)[..Occurrences(r, w)[i]] == Squeezed(s[..Occurrences(s[..|s| - 1], w)[i]])
  {
    var p := Occurrences(s[..|s| - 1], w)[i];
    assert s[..|s| - 1][..p] == s[..p];
    assert Squeezed(s)[..Occurrences(r, w)[i]] == r[..Occurrences(r, w)[i]];
  }

  lemma OccurrencesPush(r: string, c: char, w: string)
    requires w != ""
    ensures Occurrences(r + [c], w) == Occurrences(r, w) + Ending(r + [c], w)
  {
    hide Ending;
    LastOff(r, c);
  }

  lemma LastOff(r: string, c: char)
    ensures (r + [c])[..|r + [c]| - 1] == r
  {
  }

  lemma SqueezedPush(s: string)
    requires s != ""
    ensures var r, c := Squeezed(s[..|s| - 1]), s[|s| - 1];
            Squeezed(s) == r || Squeezed(s) == r + [if IsSpace(c) then ' ' else c]
    ensures !IsSpace(s[|s| - 1]) ==> Squeezed(s) == Squeezed(s[..|s| - 1]) + [s[|s| - 1]]
  {
  }

  lemma NotAtSpace(s: string, w: string)
    requires Marker(w) && EndsWith(s, w)
    ensures s != "" && !IsSpace(s[|s| - 1]) && |w| <= |s|
  {
    EndsWithLast(s, w);
  }

  /** Occurrences in the squeezed text, from those in the squeezed first part. */
  lemma SqueezedOccurrences(s: string, w: string)
    requires Marker(w) && s != ""
    ensures Occurrences(Squeezed(s), w) == Occurrences(Squeezed(s[..|s| - 1]), w)
                                           + if EndsWith(s, w) then Ending(Squeezed(s), w) else []
    ensures Squeezed(s[..|s| - 1]) <= Squeezed(s)
  {
    var r := Squeezed(s[..|s| - 1]);
    SqueezedEnds(s, w);
    SqueezedPush(s);
    NoEnding(Squeezed(s), w);
    var c := if IsSpace(s[|s| - 1]) then ' ' else s[|s| - 1];
    hide *;
    if Squeezed(s) == r + [c] { OccurrencesPush(r, c, w); } else { NoneAdded(s, w); }
  }

  lemma NoEnding(s: string, w: string)
    ensures !EndsWith(s, w) ==> Ending(s, w) == []
    ensures EndsWith(s, w) ==> |w| <= |s| && Ending(s, w) == [|s| - |w|]
  {
  }

  lemma NoneAdded(s: string, w: string)
    requires Marker(w) && s != "" && Squeezed(s) == Squeezed(s[..|s| - 1])
    ensures !EndsWith(s, w)
  {
    if EndsWith(s, w) { NotAtSpace(s, w); SqueezedPush(s); }
  }

  lemma {:induction false} SqueezedPlaces(s: string, w: string)
    requires Marker(w)
    ensures SqueezedAgree(s, w)
    decreases |s|
  {
    if s != "" {
      var s', r := s[..|s| - 1], Squeezed(s[..|s| - 1]);
      SqueezedPlaces(s', w);
      SqueezedOccurrences(s, w);
      NoEnding(s, w);
      NoEnding(Squeezed(s), w);
      SqueezedEnds(s, w);
      var a, b := Occurrences(s, w), Occurrences(Squeezed(s), w);
      forall i | 0 <= i < |a| ensures Squeezed(s)[..b[i]] == Squeezed(s[..a[i]]) {
        if i < |Occurrences(s', w)| {
          SqueezedAgreeOld(s, w, r, i);
        } else {
          SqueezedBefore(s, w);
        }
      }
    }
  }

  lemma CollapsedOccurrences(s: string, w: string)
    requires Marker(w)
    ensures Occurrences(Collapsed(s), w) == Occurrences(Squeezed(s), w) && Collapsed(s) <= Squeezed(s)
  {
    var r := Squeezed(s);
    if Collapsed(s) != r {
      EndsWithLast(r, w);
    }
  }

  lemma CollapsedPlaces(m: string, w: string)
    requires Marker(w)
    ensures TextPlaces(Collapsed(m), w) == MaskedPlaces(m, w)
  {
    SqueezedPlaces(m, w);
    CollapsedOccurrences(m, w);
    var t := Collapsed(m);
    var a, b := Occurrences(m, w), Occurrences(t, w);
    forall i | 0 <= i < |a| ensures TextPlace(t, b[i]) == MaskedPlace(m, a[i]) {
      assert t[..b[i]] == Squeezed(m)[..b[i]];
      SqueezedSemicolons(m[..a[i]]);
    }
  }

  // ---- splitting keeps the placeholders ----

  function EndingIn(f: string, w: string, k: nat): seq<Place> {
    if EndsWith(f, w) then [Place(k, f[..|f| - |w|])] else []
  }

  function EndingText(t: string, w: string): seq<Place> {
    if EndsWith(t, w) then [TextPlace(t, |t| - |w|)] else []
  }

  lemma FragmentPush(t: string)
    requires t != "" && t[|t| - 1] != ';'
    ensures LastFragment(t) == LastFragment(t[..|t| - 1]) + [t[|t| - 1]]
    ensures |Fragments(t)| == |Fragments(t[..|t| - 1])|
  {
  }

  lemma {:induction false} FragmentBefore(t: string, w: string)
    requires Solid(w) && EndsWith(t, w)
    ensures LastFragment(t) == LastFragment(t[..|t| - |w|]) + w
    ensures |Fragments(t)| == |Fragments(t[..|t| - |w|])|
    decreases |w|
  {
    if w == "" {
      assert t[..|t|] == t;
    } else {
      EndsWithLast(t, w);
      var n, m := |t| - 1, |w| - 1;
      FragmentBefore(t[..n], w[..m]);
      assert t[..n][..n - m] == t[..|t| - |w|];
      FragmentPush(t);
      hide Fragments, LastFragment, EndsWith;
      Regroup(LastFragment(t[..|t| - |w|]), w);
    }
  }

  lemma PlacesPush(fragments: seq<string>, f: string, w: string)
    requires w != ""
    ensures Places(fragments + [f], w) == Places(fragments, w) + PlacesIn(f, w, |fragments|)
  {
    assert (fragments + [f])[..|fragments|] == fragments;
  }

  lemma PlacesInPush(f: string, c: char, w: string, k: nat)
    requires w != ""
    ensures PlacesIn(f + [c], w, k) == PlacesIn(f, w, k) + EndingIn(f + [c], w, k)
  {
    OccurrencesPush(f, c, w);
    var ps := Occurrences(f, w);
    forall i | 0 <= i < |ps| ensures (f + [c])[..ps[i]] == f[..ps[i]] {
    }
  }

  lemma TextPlacesPush(t: string, w: string)
    requires w != "" && t != ""
    ensures TextPlaces(t, w) == TextPlaces(t[..|t| - 1], w) + EndingText(t, w)
  {
    var t', ps := t[..|t| - 1], Occurrences(t[..|t| - 1], w);
    hide TextPlace, EndsWith, Semicolons, LastFragment;
    assert Occurrences(t, w) == ps + Ending(t, w);
    forall i | 0 <= i < |ps| ensures ps[i] <= |t'| && TextPlace(t, ps[i]) == TextPlace(t', ps[i]) {
      TextPlaceLonger(t, ps[i]);
    }
    hide Occurrences;
  }

  lemma TextPlaceLonger(t: string, p: nat)
    requires t != "" && p < |t|
    ensures TextPlace(t, p) == TextPlace(t[..|t| - 1], p)
  {
    hide Semicolons, LastFragment;
    assert t[..|t| - 1][..p] == t[..p];
  }

  lemma {:induction false} FragmentPlaces(t: string, w: string)
    requires Marker(w)
    ensures Places(Fragments(t), w) == TextPlaces(t, w)
    decreases |t|
  {
    if t == "" {
      assert Places([""], w) == [];
    } else {
      var t', c := t[..|t| - 1], t[|t| - 1];
      FragmentPlaces(t', w);
      TextPlacesPush(t, w);
      var r := Fragments(t');
      if c == ';' {
        EndsWithLast(t, w);
        PlacesPush(r, "", w);
      } else {
        FragmentPlacesPush(t, w);
      }
    }
  }

  lemma FragmentPlaceNew(t: string, w: string)
    requires Marker(w) && EndsWith(t, w) && |w| <= |LastFragment(t)|
    ensures TextPlace(t, |t| - |w|) == Place(|Fragments(t)| - 1, LastFragment(t)[..|LastFragment(t)| - |w|])
  {
    FragmentBefore(t, w);
    FragmentCount(t[..|t| - |w|]);
    hide Fragments, Semicolons, LastFragment;
  }

  lemma Assoc(a: seq<Place>, b: seq<Place>, c: seq<Place>)
    ensures a + (b + c) == (a + b) + c
  {
  }

  /** A placeholder that ends the text ends its last statement. */
  lemma EndingsAgree(t: string, w: string)
    requires Marker(w)
    ensures EndingIn(LastFragment(t), w, |Fragments(t)| - 1) == EndingText(t, w)
  {
    FragmentEnds(t, w);
    hide *;
    EndingInIs(LastFragment(t), w, |Fragments(t)| - 1);
    EndingTextIs(t, w);
    if EndsWith(t, w) {
      NotAtSpace(LastFragment(t), w);
      NotAtSpace(t, w);
      FragmentPlaceNew(t, w);
    }
  }

  lemma EndingInIs(f: string, w: string, k: nat)
    ensures EndsWith(f, w) ==> |w| <= |f| && EndingIn(f, w, k) == [Place(k, f[..|f| - |w|])]
    ensures !EndsWith(f, w) ==> EndingIn(f, w, k) == []
  {
  }

  lemma EndingTextIs(t: string, w: string)
    ensures EndsWith(t, w) ==> |w| <= |t| && EndingText(t, w) == [TextPlace(t, |t| - |w|)]
    ensures !EndsWith(t, w) ==> EndingText(t, w) == []
  {
    hide TextPlace;
  }

  lemma FragmentPlacesPush(t: string, w: string)
    requires Marker(w) && t != "" && t[|t| - 1] != ';'
    ensures Places(Fragments(t), w) == Places(Fragments(t[..|t| - 1]), w) + EndingText(t, w)
  {
    var c := t[|t| - 1];
    var r := Fragments(t[..|t| - 1]);
    var rest, f := r[..|r| - 1], r[|r| - 1];
    PlacesPush(rest, f + [c], w);
    PlacesPush(rest, f, w);
    assert rest + [f] == r;
    PlacesInPush(f, c, w, |rest|);
    EndingsAgree(t, w);
    assert LastFragment(t) == f + [c] && |Fragments(t)| == |rest| + 1;
    hide *;
    Assoc(Places(rest, w), PlacesIn(f, w, |rest|), EndingText(t, w));
  }

  /** Placeholder i of the masked file is placeholder i of the statements: the
      statement it is in and what stands before it there are the same. */
  lemma PlacesLineUp(m: string, w: string)
    requires Marker(w)
    ensures Places(Fragments(Collapsed(m)), w) == MaskedPlaces(m, w)
  {
    CollapsedPlaces(m, w);
    FragmentPlaces(Collapsed(m), w);
  }
}
