/** Which configured character sets give passwords that a server reads as they were
    generated. */
module LegiblePasswords {
  import opened Text
  import opened PasswordGenerator
  import opened ServerText

  /** The password of these draws. */
  function Password(c: Charsets, r: Random, n: nat): (p: string)
    requires NonEmpty(c) && Drawn(r, n)
    ensures |p| == n
  {
    ShuffleDrawn(c, r, n);
    Shuffled(Characters(c, r), r.shuffle, n - 1)
  }

  /** The characters of a set that a byte can pick. */
  function Drawable(charset: string): string {
    if |charset| <= 256 then charset else charset[..256]
  }

  // ---- what passwords are made of ----

  /** Neither this quote nor a backslash. */
  predicate Free(charset: string, q: char) {
    forall k :: 0 <= k < |charset| ==> charset[k] != q && charset[k] != '\\'
  }

  /** No character that can be drawn is this quote or a backslash. */
  predicate FreeSets(c: Charsets, q: char) {
    Free(Drawable(c.lower), q) && Free(Drawable(c.upper), q) && Free(Drawable(c.digits), q)
    && Free(Drawable(c.special), q)
  }

  predicate FromSets(s: string, c: Charsets) {
    forall k :: 0 <= k < |s| ==>
      || s[k] in Drawable(c.lower) || s[k] in Drawable(c.upper) || s[k] in Drawable(c.digits)
      || s[k] in Drawable(c.special)
  }

  lemma ByteModulo(byte: nat, n: nat)
    requires 0 < n && byte < 256
    ensures 0 <= byte % n < n && byte % n < 256
  {
    if byte < n { assert byte % n == byte; }
  }

  lemma DrawableHas(charset: string, i: nat)
    requires i < |charset| && i < 256
    ensures charset[i] in Drawable(charset)
  {
    assert Drawable(charset)[i] == charset[i];
  }

  lemma PickAt(charset: string, bytes: seq<nat>, k: nat) returns (i: nat)
    requires charset != "" && AreBytes(bytes) && k < |bytes|
    ensures i < |charset| && i < 256 && Pick(charset, bytes)[k] == charset[i]
  {
    i := bytes[k] % |charset|;
    ByteModulo(bytes[k], |charset|);
  }

  lemma PickDrawable(charset: string, bytes: seq<nat>, k: nat)
    requires charset != "" && AreBytes(bytes) && k < |bytes|
    ensures Pick(charset, bytes)[k] in Drawable(charset)
  {
    hide Pick, Drawable;
    var i := PickAt(charset, bytes, k);
    DrawableHas(charset, i);
  }

  /** What is drawn from the three sets together can be drawn from one of them. */
  lemma PickTogether(c: Charsets, bytes: seq<nat>, k: nat)
    requires NonEmpty(c) && AreBytes(bytes) && k < |bytes|
    ensures var x := Pick(c.lower + c.upper + c.digits, bytes)[k];
            x in Drawable(c.lower) || x in Drawable(c.upper) || x in Drawable(c.digits)
  {
    hide Pick, Drawable;
    var all := c.lower + c.upper + c.digits;
    var i := PickAt(all, bytes, k);
    if i < |c.lower| {
      DrawableHas(c.lower, i);
    } else if i < |c.lower| + |c.upper| {
      DrawableHas(c.upper, i - |c.lower|);
    } else {
      DrawableHas(c.digits, i - |c.lower| - |c.upper|);
    }
  }

  lemma CharactersFromSets(c: Charsets, r: Random, n: nat)
    requires NonEmpty(c) && Drawn(r, n)
    ensures FromSets(Characters(c, r), c)
  {
    var a, b, d, e := Pick(c.lower, r.lower), Pick(c.upper, r.upper), Pick(c.digits, r.digits),
        Pick(c.special, r.special);
    var f := Pick(c.lower + c.upper + c.digits, r.padding);
    hide Pick, Drawable;
    forall k | 0 <= k < |a| ensures a[k] in Drawable(c.lower) { PickDrawable(c.lower, r.lower, k); }
    forall k | 0 <= k < |b| ensures b[k] in Drawable(c.upper) { PickDrawable(c.upper, r.upper, k); }
    forall k | 0 <= k < |d| ensures d[k] in Drawable(c.digits) { PickDrawable(c.digits, r.digits, k); }
    forall k | 0 <= k < |e| ensures e[k] in Drawable(c.special) { PickDrawable(c.special, r.special, k); }
    forall k | 0 <= k < |f|
      ensures f[k] in Drawable(c.lower) || f[k] in Drawable(c.upper) || f[k] in Drawable(c.digits)
    {
      PickTogether(c, r.padding, k);
    }
    JoinSets(a, b, c);
    JoinSets(a + b, d, c);
    JoinSets(a + b + d, e, c);
    JoinSets(a + b + d + e, f, c);
  }

  lemma JoinSets(a: string, b: string, c: Charsets)
    requires FromSets(a, c) && FromSets(b, c)
    ensures FromSets(a + b, c)
  {
    hide Drawable;
  }

  lemma PermutedSets(a: string, b: string, c: Charsets)
    requires FromSets(a, c) && multiset(a) == multiset(b)
    ensures FromSets(b, c)
  {
    hide Drawable;
    forall k | 0 <= k < |b|
      ensures b[k] in Drawable(c.lower) || b[k] in Drawable(c.upper) || b[k] in Drawable(c.digits)
              || b[k] in Drawable(c.special)
    {
      assert b[k] in multiset(a);
    }
  }

  /** Every password is made of the configured characters. */
  lemma PasswordFromSets(c: Charsets, r: Random, n: nat)
    requires NonEmpty(c) && Drawn(r, n)
    ensures FromSets(Password(c, r, n), c)
  {
    hide *;
    PasswordIs(c, r, n);
    CharactersFromSets(c, r, n);
    ShuffleDrawn(c, r, n);
    ShuffledKeeps(Characters(c, r), r.shuffle, n - 1);
    PermutedSets(Characters(c, r), Shuffled(Characters(c, r), r.shuffle, n - 1), c);
  }

  lemma PasswordIs(c: Charsets, r: Random, n: nat)
    requires NonEmpty(c) && Drawn(r, n)
    ensures Draws(r.shuffle, n) && n >= 8 && |Characters(c, r)| == n
    ensures Password(c, r, n) == Shuffled(Characters(c, r), r.shuffle, n - 1)
  {
    ShuffleDrawn(c, r, n);
  }

  lemma FreeSurvives(p: string, c: Charsets, q: char)
    requires FromSets(p, c) && FreeSets(c, q)
    ensures Survives(p, q)
  {
    hide Drawable;
  }

  // ---- a draw that puts a given character last ----

  /** Always the first character of a set, but character i of set `kind` once; the
      shuffle moves that character to the end. */
  function DrawLast(kind: nat, i: nat, n: nat): Random
    requires n >= 8
  {
    Random(FirstOf(kind == 0, i), FirstOf(kind == 1, i), FirstOf(kind == 2, i), [if kind == 3 then i else 0], false,
           seq(n - 7, k => 0), seq(n, k requires 0 <= k < n => if k == n - 1 then 2 * kind else k))
  }

  function FirstOf(here: bool, i: nat): seq<nat> {
    [if here then i else 0, 0]
  }

  lemma LastIsDrawn(kind: nat, i: nat, n: nat)
    requires n >= 8 && kind < 4 && i < 256
    ensures Drawn(DrawLast(kind, i, n), n) && DrawLast(kind, i, n).shuffle[n - 1] == 2 * kind
  {
  }

  /** The set of this kind. */
  function SetOf(c: Charsets, kind: nat): string {
    if kind == 0 then c.lower else if kind == 1 then c.upper else if kind == 2 then c.digits else c.special
  }

  lemma PickFirst(charset: string, bytes: seq<nat>, i: nat)
    requires bytes != [] && bytes[0] == i && i < |charset|
    ensures Pick(charset, bytes)[0] == charset[i]
  {
  }

  lemma CharacterThere(c: Charsets, kind: nat, i: nat, n: nat)
    requires NonEmpty(c) && n >= 8 && kind < 4 && i < |SetOf(c, kind)|
    ensures var s := Characters(c, DrawLast(kind, i, n)); 2 * kind < |s| && s[2 * kind] == SetOf(c, kind)[i]
  {
    var r := DrawLast(kind, i, n);
    if kind == 0 { PickFirst(c.lower, r.lower, i); }
    if kind == 1 { PickFirst(c.upper, r.upper, i); }
    if kind == 2 { PickFirst(c.digits, r.digits, i); }
    if kind == 3 { PickFirst(c.special, r.special, i); }
    hide Pick;
  }

  /** The character comes last. */
  lemma DrawnLast(c: Charsets, kind: nat, i: nat, n: nat)
    requires NonEmpty(c) && n >= 8 && kind < 4 && i < |SetOf(c, kind)| && i < 256
    ensures Drawn(DrawLast(kind, i, n), n) && Password(c, DrawLast(kind, i, n), n)[n - 1] == SetOf(c, kind)[i]
  {
    hide *;
    var r := DrawLast(kind, i, n);
    LastIsDrawn(kind, i, n);
    PasswordIs(c, r, n);
    CharacterThere(c, kind, i, n);
    ShuffledPlace(Characters(c, r), r.shuffle, n - 1);
  }

  lemma LastBreaks(p: string, q: char)
    requires p != "" && (p[|p| - 1] == q || p[|p| - 1] == '\\') && (q == '\'' || q == '"')
    ensures !Survives(p, q)
  {
  }

  lemma Offender(c: Charsets, q: char) returns (kind: nat, i: nat)
    requires !FreeSets(c, q)
    ensures kind < 4 && i < |SetOf(c, kind)| && i < 256 && (SetOf(c, kind)[i] == q || SetOf(c, kind)[i] == '\\')
  {
    kind := if !Free(Drawable(c.lower), q) then 0 else if !Free(Drawable(c.upper), q) then 1
            else if !Free(Drawable(c.digits), q) then 2 else 3;
    var charset := Drawable(SetOf(c, kind));
    i :| 0 <= i < |charset| && (charset[i] == q || charset[i] == '\\');
  }

  /** Every password that can be drawn, of whatever length, is stored as it is shown
      between the quotes q if and only if no character that can be drawn is q or a
      backslash. */
  lemma SurvivesExactly(c: Charsets, n: nat, q: char)
    requires NonEmpty(c) && n >= 8 && (q == '\'' || q == '"')
    ensures FreeSets(c, q) <==> forall r :: Drawn(r, n) ==> Survives(Password(c, r, n), q)
  {
    hide FreeSets, Drawn, Survives, Password, NonEmpty, SetOf, DrawLast;
    if FreeSets(c, q) {
      forall r | Drawn(r, n) ensures Survives(Password(c, r, n), q) {
        PasswordFromSets(c, r, n);
        FreeSurvives(Password(c, r, n), c, q);
      }
    } else {
      var kind, i := Offender(c, q);
      DrawnLast(c, kind, i, n);
      LastBreaks(Password(c, DrawLast(kind, i, n), n), q);
    }
  }

  /** No quotes and no backslash. */
  predicate Plain(charset: string) {
    forall k :: 0 <= k < |charset| ==> charset[k] != '\'' && charset[k] != '"' && charset[k] != '\\'
  }

  lemma PlainIsFree(charset: string)
    requires Plain(charset)
    ensures Free(Drawable(charset), '\'') && Free(Drawable(charset), '"')
  {
  }

  /** The default sets are free of both quotes. */
  lemma DefaultsAreFree()
    ensures FreeSets(DEFAULTS, '\'') && FreeSets(DEFAULTS, '"')
  {
    hide Free, Drawable, Plain;
    LowerIsPlain();
    UpperIsPlain();
    OthersArePlain();
    PlainIsFree(DEFAULTS.lower);
    PlainIsFree(DEFAULTS.upper);
    PlainIsFree(DEFAULTS.digits);
    PlainIsFree(DEFAULTS.special);
  }

  lemma LowerIsPlain()
    ensures Plain(DEFAULTS.lower)
  {
  }

  lemma UpperIsPlain()
    ensures Plain(DEFAULTS.upper)
  {
  }

  lemma OthersArePlain()
    ensures Plain(DEFAULTS.digits) && Plain(DEFAULTS.special)
  {
  }

  // ---- sets with which no password is stored as shown ----

  predicate NoWildcards(charset: string) {
    '%' !in charset && '_' !in charset
  }

  lemma DrawableIn(charset: string, x: char)
    ensures x in Drawable(charset) ==> x in charset
  {
  }

  lemma BackslashBreaks(p: string, c: Charsets, q: char, k: nat)
    requires FromSets(p, c) && NoWildcards(c.lower) && NoWildcards(c.upper) && NoWildcards(c.digits)
             && NoWildcards(c.special)
    requires k < |p| && p[k] == '\\' && q != '`'
    ensures !Survives(p, q)
  {
    if k + 1 < |p| {
      var x := p[k + 1];
      hide Drawable;
      DrawableIn(c.lower, x);
      DrawableIn(c.upper, x);
      DrawableIn(c.digits, x);
      DrawableIn(c.special, x);
      assert x != '%' && x != '_';
    }
  }

  lemma HasSpecial(p: string, c: Charsets, n: nat)
    requires Promised(p, c, n)
    ensures Count(p, c.special) >= 1
  {
    hide Count;
  }

  /** Only characters that a quoted text changes. */
  predicate Breaking(charset: string, q: char) {
    forall k :: 0 <= k < |charset| ==> charset[k] == '\\' || charset[k] == q
  }

  lemma BreakingOne(charset: string, q: char, x: char)
    requires Breaking(charset, q) && x in charset && (q == '\'' || q == '"')
    ensures (x == '\\' || x == q) && NoWildcards(charset)
  {
  }

  lemma QuoteBreaks(p: string, q: char, k: nat)
    requires k < |p| && p[k] == q
    ensures !Survives(p, q)
  {
  }

  /** With nothing but a backslash and the quote of the placeholder as special
      characters, which the configuration accepts, no password at all is stored as
      generated (unless '%' or '_' are among the others): the server drops the
      backslash or ends the text early, the e-mail shows the password. */
  lemma SpecialsNeverSurvive(c: Charsets, r: Random, n: nat, q: char)
    requires NonEmpty(c) && Drawn(r, n) && Breaking(c.special, q) && (q == '\'' || q == '"')
    requires NoWildcards(c.lower) && NoWildcards(c.upper) && NoWildcards(c.digits)
    ensures !Survives(Password(c, r, n), q)
  {
    hide *;
    PasswordFromSets(c, r, n);
    PasswordPromises(c, r, n);
    PasswordIs(c, r, n);
    var p := Password(c, r, n);
    HasSpecial(p, c, n);
    var k := Counted(p, c.special);
    BreakingOne(c.special, q, p[k]);
    if p[k] == q { QuoteBreaks(p, q, k); } else { BackslashBreaks(p, c, q, k); }
  }

  lemma {:induction false} Counted(s: string, charset: string) returns (k: nat)
    requires Count(s, charset) >= 1
    ensures k < |s| && s[k] in charset
    decreases |s|
  {
    if s[0] in charset {
      k := 0;
    } else {
      k := Counted(s[1..], charset);
      k := k + 1;
    }
  }
}
