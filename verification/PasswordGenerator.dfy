/** Generating a password: some characters of each kind, padded to the length
    asked for, and shuffled. */
module PasswordGenerator {
  import opened Text

  /** The environment: character sets and length, each absent or as set. */
  datatype Config = Config(lower: Option<string>, upper: Option<string>, digits: Option<string>,
                           special: Option<string>,
                           length: Option<int>)

  datatype Charsets = Charsets(lower: string, upper: string, digits: string, special: string)

  datatype Outcome<T> = Done(value: T) | Misconfigured

  const DEFAULTS := Charsets("abcdefghijklmnopqrstuvwxyz", "ABCDEFGHIJKLMNOPQRSTUVWXYZ", "0123456789", "-~")

  /** A set that is given but blank is an error. */
  function ResolveCharset(given: Option<string>, default: string): Outcome<string> {
    match given
    case None => Done(default)
    case Some(v) => if Trim(v) == "" then Misconfigured else Done(Trim(v))
  }

  predicate NonEmpty(s: Charsets) {
    s.lower != "" && s.upper != "" && s.digits != "" && s.special != ""
  }

  function Resolve(c: Config): (r: Outcome<Charsets>)
    ensures r.Done? ==> NonEmpty(r.value)
  {
    var lower, upper := ResolveCharset(c.lower, DEFAULTS.lower), ResolveCharset(c.upper, DEFAULTS.upper);
    var digits, special := ResolveCharset(c.digits, DEFAULTS.digits), ResolveCharset(c.special, DEFAULTS.special);
    if lower.Done? && upper.Done? && digits.Done? && special.Done?
    then Done(Charsets(lower.value, upper.value, digits.value, special.value)) else Misconfigured
  }

  /** At least 8, else 16. */
  function Length(c: Config): nat {
    if c.length.Some? && c.length.value >= 8 then c.length.value else 16
  }

  // ---- counting ----

  /** How many characters of s are in the set. */
  function Count(s: string, charset: string): nat {
    if s == "" then 0 else (if s[0] in charset then 1 else 0) + Count(s[1..], charset)
  }

  lemma {:induction false} CountAppend(a: string, b: string, charset: string)
    ensures Count(a + b, charset) == Count(a, charset) + Count(b, charset)
    decreases |a|
  {
    if a == "" {
      assert a + b == b;
    } else {
      CountAppend(a[1..], b, charset);
      assert (a + b)[1..] == a[1..] + b;
    }
  }

  lemma {:induction false} CountAll(s: string, charset: string)
    requires forall k :: 0 <= k < |s| ==> s[k] in charset
    ensures Count(s, charset) == |s|
    decreases |s|
  {
    if s != "" { CountAll(s[1..], charset); }
  }

  lemma {:induction false} CountNone(s: string, charset: string)
    requires forall k :: 0 <= k < |s| ==> s[k] !in charset
    ensures Count(s, charset) == 0
    decreases |s|
  {
    if s != "" { CountNone(s[1..], charset); }
  }

  /** Counts do not depend on the order. */
  lemma {:induction false} CountPermuted(a: string, b: string, charset: string)
    requires multiset(a) == multiset(b)
    ensures Count(a, charset) == Count(b, charset)
    decreases |a|
  {
    if a == "" {
      assert |multiset(b)| == 0;
    } else {
      var j, rest := TakeOut(a, b);
      CountPermuted(a[1..], rest, charset);
      CountAppend(b[..j] + [b[j]], b[j + 1..], charset);
      CountAppend(b[..j], [b[j]], charset);
      CountAppend(b[..j], b[j + 1..], charset);
    }
  }

  lemma Cancel<T>(a: multiset<T>, b: multiset<T>, c: multiset<T>)
    requires a + c == b + c
    ensures a == b
  {
    assert a == (a + c) - c && b == (b + c) - c;
  }

  lemma TakeOut(a: string, b: string) returns (j: nat, rest: string)
    requires a != "" && multiset(a) == multiset(b)
    ensures j < |b| && b[j] == a[0] && rest == b[..j] + b[j + 1..] && multiset(a[1..]) == multiset(rest)
    ensures b == b[..j] + [b[j]] + b[j + 1..]
  {
    assert a[0] in multiset(b);
    j :| 0 <= j < |b| && b[j] == a[0];
    rest := b[..j] + b[j + 1..];
    assert a == [a[0]] + a[1..];
    assert b == b[..j] + [b[j]] + b[j + 1..];
    assert multiset(b) == multiset(b[..j]) + multiset{b[j]} + multiset(b[j + 1..]);
    assert multiset(a) == multiset{a[0]} + multiset(a[1..]);
    assert multiset(rest) == multiset(b[..j]) + multiset(b[j + 1..]);
    var m, x, n := multiset(b[..j]), multiset{a[0]}, multiset(b[j + 1..]);
    assert (m + n) + x == m + x + n;
    assert multiset(a[1..]) + x == x + multiset(a[1..]);
    Cancel(multiset(rest), multiset(a[1..]), multiset{a[0]});
  }

  // ---- the shuffle ----

  function Swap<T>(s: seq<T>, i: nat, j: nat): (r: seq<T>)
    requires i < |s| && j < |s|
    ensures |r| == |s|
  {
    s[i := s[j]][j := s[i]]
  }

  lemma SwapKeeps<T>(s: seq<T>, i: nat, j: nat)
    requires i < |s| && j < |s|
    ensures multiset(Swap(s, i, j)) == multiset(s)
  {
  }

  /** Draws as the shuffle makes them: at place i one of the places up to i. */
  predicate Draws(js: seq<nat>, n: nat) {
    |js| == n && forall i :: 0 <= i < n ==> js[i] <= i
  }

  /** The shuffle's swaps at i, i - 1, ..., 1. */
  function Shuffled<T>(s: seq<T>, js: seq<nat>, i: nat): (r: seq<T>)
    requires Draws(js, |s|) && (i < |s| || i == 0)
    ensures |r| == |s|
    decreases i
  {
    if i == 0 then s else Shuffled(Swap(s, i, js[i]), js, i - 1)
  }

  /** The shuffle neither adds nor drops anything. */
  lemma {:induction false} ShuffledKeeps<T>(s: seq<T>, js: seq<nat>, i: nat)
    requires Draws(js, |s|) && (i < |s| || i == 0)
    ensures multiset(Shuffled(s, js, i)) == multiset(s)
    decreases i
  {
    if i > 0 {
      SwapKeeps(s, i, js[i]);
      ShuffledKeeps(Swap(s, i, js[i]), js, i - 1);
    }
  }

  lemma {:induction false} ShuffledTail<T>(s: seq<T>, js: seq<nat>, i: nat, k: nat)
    requires Draws(js, |s|) && (i < |s| || i == 0) && i < k < |s|
    ensures Shuffled(s, js, i)[k] == s[k]
    decreases i
  {
    if i > 0 { ShuffledTail(Swap(s, i, js[i]), js, i - 1, k); }
  }

  lemma ShuffledPlace<T>(s: seq<T>, js: seq<nat>, i: nat)
    requires Draws(js, |s|) && 0 < i < |s|
    ensures Shuffled(s, js, i)[i] == s[js[i]]
  {
    hide Shuffled, Swap;
    DrawsFit(s, js, i);
    ShuffledTail(Swap(s, i, js[i]), js, i - 1, i);
    SwapAt(s, i, js[i]);
    ShuffledStep(s, js, i);
  }

  lemma DrawsFit<T>(s: seq<T>, js: seq<nat>, i: nat)
    requires Draws(js, |s|) && i < |s|
    ensures |js| == |s| && js[i] <= i
  {
  }

  lemma SwapAt<T>(s: seq<T>, i: nat, j: nat)
    requires i < |s| && j < |s|
    ensures Swap(s, i, j)[i] == s[j]
  {
  }

  lemma ShuffledStep<T>(s: seq<T>, js: seq<nat>, i: nat)
    requires Draws(js, |s|) && 0 < i < |s|
    ensures Shuffled(s, js, i) == Shuffled(Swap(s, i, js[i]), js, i - 1)
  {
    hide Swap;
  }

  predicate AllDifferent<T(==)>(s: seq<T>) {
    forall i, j :: 0 <= i < j < |s| ==> s[i] != s[j]
  }

  /** Different draws give different orders. */
  lemma {:induction false} ShuffleInjective<T>(s: seq<T>, js: seq<nat>, ks: seq<nat>, i: nat)
    requires AllDifferent(s) && Draws(js, |s|) && Draws(ks, |s|) && (i < |s| || i == 0)
    requires Shuffled(s, js, i) == Shuffled(s, ks, i)
    ensures forall k :: 0 < k <= i ==> js[k] == ks[k]
    decreases i
  {
    if i > 0 {
      ShuffledPlace(s, js, i);
      ShuffledPlace(s, ks, i);
      SameDraw(s, js[i], ks[i]);
      SwapDifferent(s, i, js[i]);
      hide Swap, AllDifferent;
      ShuffleInjective(Swap(s, i, js[i]), js, ks, i - 1);
    }
  }

  lemma SameDraw<T>(s: seq<T>, j: nat, k: nat)
    requires AllDifferent(s) && j < |s| && k < |s| && s[j] == s[k]
    ensures j == k
  {
  }

  lemma SwapDifferent<T>(s: seq<T>, i: nat, j: nat)
    requires AllDifferent(s) && i < |s| && j < |s|
    ensures AllDifferent(Swap(s, i, j))
  {
  }

  lemma {:induction false} ShuffleFirst<T>(s: seq<T>, js: seq<nat>, ks: seq<nat>, i: nat)
    requires Draws(js, |s|) && Draws(ks, |s|) && (i < |s| || i == 0) && forall k :: 0 < k <= i ==> js[k] == ks[k]
    ensures Shuffled(s, js, i) == Shuffled(s, ks, i)
    decreases i
  {
    hide Swap;
    if i > 0 { ShuffleFirst(Swap(s, i, js[i]), js, ks, i - 1); }
  }

  /** Every order is reached. */
  lemma {:induction false} ShuffleSurjective<T>(s: seq<T>, t: seq<T>, i: nat) returns (js: seq<nat>)
    requires multiset(s) == multiset(t) && (i < |s| || i == 0) && |t| == |s|
    requires forall k :: i < k < |s| ==> s[k] == t[k]
    ensures Draws(js, |s|) && Shuffled(s, js, i) == t
    decreases i
  {
    if i == 0 {
      js := seq(|s|, k => 0);
      if s != [] { FirstFits(s, t); }
    } else {
      var j := FindBefore(s, t, i);
      var s' := Swap(s, i, j);
      SwapKeeps(s, i, j);
      var rest := ShuffleSurjective(s', t, i - 1);
      js := rest[i := j];
      ShuffleFirst(s', js, rest, i - 1);
    }
  }

  lemma SameFront<T>(s: seq<T>, t: seq<T>, i: nat)
    requires multiset(s) == multiset(t) && i < |s| == |t| && forall k :: i < k < |s| ==> s[k] == t[k]
    ensures multiset(s[..i + 1]) == multiset(t[..i + 1])
  {
    assert s == s[..i + 1] + s[i + 1..] && t == t[..i + 1] + t[i + 1..];
    assert s[i + 1..] == t[i + 1..];
    assert multiset(s) == multiset(s[..i + 1]) + multiset(s[i + 1..]);
    assert multiset(t) == multiset(t[..i + 1]) + multiset(s[i + 1..]);
    Cancel(multiset(s[..i + 1]), multiset(t[..i + 1]), multiset(s[i + 1..]));
  }

  lemma FirstFits<T>(s: seq<T>, t: seq<T>)
    requires multiset(s) == multiset(t) && 0 < |s| == |t| && forall k :: 0 < k < |s| ==> s[k] == t[k]
    ensures s == t
  {
    SameFront(s, t, 0);
    assert s[..1] == [s[0]] && t[..1] == [t[0]];
    assert s[0] in multiset(t[..1]);
  }

  lemma FindBefore<T>(s: seq<T>, t: seq<T>, i: nat) returns (j: nat)
    requires multiset(s) == multiset(t) && i < |s| == |t| && forall k :: i < k < |s| ==> s[k] == t[k]
    ensures j <= i && s[j] == t[i]
  {
    SameFront(s, t, i);
    assert t[..i + 1][i] == t[i];
    assert t[i] in multiset(s[..i + 1]);
    j :| 0 <= j < i + 1 && s[..i + 1][j] == t[i];
  }

  lemma DrawsEqual(js: seq<nat>, ks: seq<nat>, n: nat)
    requires 0 < n && Draws(js, n) && Draws(ks, n) && forall k :: 0 < k <= n - 1 ==> js[k] == ks[k]
    ensures js == ks
  {
    assert js[0] == ks[0];
  }

  /** These draws turn s into t. */
  predicate Reaches<T(==)>(s: seq<T>, t: seq<T>, js: seq<nat>) {
    s != [] && Draws(js, |s|) && Shuffled(s, js, |s| - 1) == t
  }

  lemma ReachesOnce<T>(s: seq<T>, t: seq<T>, js: seq<nat>, ks: seq<nat>)
    requires AllDifferent(s) && Reaches(s, t, js) && Reaches(s, t, ks)
    ensures js == ks
  {
    hide Shuffled;
    ShuffleInjective(s, js, ks, |s| - 1);
    DrawsEqual(js, ks, |s|);
  }

  /** The draws with j at most i, and the orders of a list without repetitions,
      are in one-to-one correspondence. */
  lemma ShuffleIsBijection<T>(s: seq<T>, t: seq<T>)
    requires AllDifferent(s) && multiset(t) == multiset(s) && s != []
    ensures exists js :: Reaches(s, t, js)
    ensures forall js, ks :: Reaches(s, t, js) && Reaches(s, t, ks) ==> js == ks
  {
    assert |multiset(s)| == |s| && |multiset(t)| == |t|;
    var js0 := ShuffleSurjective(s, t, |s| - 1);
    assert Reaches(s, t, js0);
    hide *;
    forall js, ks | Reaches(s, t, js) && Reaches(s, t, ks) ensures js == ks {
      ReachesOnce(s, t, js, ks);
    }
  }

  /** The Fisher-Yates loop, in place. */
  method Shuffle(all: array<char>, js: seq<nat>)
    requires Draws(js, all.Length)
    modifies all
    ensures all[..] == Shuffled(old(all[..]), js, if all.Length == 0 then 0 else all.Length - 1)
  {
    if all.Length == 0 { return; }
    hide Swap;
    ghost var first := all[..];
    var i := all.Length - 1;
    while i > 0
      invariant 0 <= i < all.Length
      invariant Shuffled(all[..], js, i) == Shuffled(first, js, all.Length - 1)
    {
      SwapCells(all, i, js[i]);
      i := i - 1;
    }
  }

  method SwapCells(all: array<char>, i: nat, j: nat)
    requires i < all.Length && j < all.Length
    modifies all
    ensures all[..] == Swap(old(all[..]), i, j)
  {
    all[i], all[j] := all[j], all[i];
  }

  // ---- the password ----

  function Pick(charset: string, bytes: seq<nat>): (r: string)
    requires charset != ""
    ensures |r| == |bytes| && forall k :: 0 <= k < |r| ==> r[k] in charset
  {
    seq(|bytes|, k requires 0 <= k < |bytes| => charset[bytes[k] % |charset|])
  }

  /** Everything drawn for one password: a byte for each character, whether there
      is a second special character, the shuffle. */
  datatype Random = Random(lower: seq<nat>, upper: seq<nat>, digits: seq<nat>, special: seq<nat>, second: bool,
                           padding: seq<nat>, shuffle: seq<nat>)

  predicate AreBytes(bytes: seq<nat>) {
    forall k :: 0 <= k < |bytes| ==> bytes[k] < 256
  }

  /** As many draws as a password of n characters takes. */
  predicate Drawn(r: Random, n: nat) {
    && n >= 8 && |r.lower| == 2 && |r.upper| == 2 && |r.digits| == 2
    && |r.special| == (if r.second then 2 else 1) && |r.padding| == n - 6 - |r.special| && Draws(r.shuffle, n)
    && AreBytes(r.lower) && AreBytes(r.upper) && AreBytes(r.digits) && AreBytes(r.special) && AreBytes(r.padding)
  }

  /** The characters before they are shuffled. */
  function Characters(c: Charsets, r: Random): string
    requires NonEmpty(c)
  {
    Pick(c.lower, r.lower) + Pick(c.upper, r.upper) + Pick(c.digits, r.digits) + Pick(c.special, r.special)
    + Pick(c.lower + c.upper + c.digits, r.padding)
  }

  /** What every password promises: the length asked for, two characters of each
      kind, and one or two special ones when the sets are disjoint. */
  predicate Promised(password: string, c: Charsets, n: nat) {
    && |password| == n && Count(password, c.lower) >= 2 && Count(password, c.upper) >= 2
        && Count(password, c.digits) >= 2
    && Count(password, c.special) >= 1
    && (Disjoint(c.lower, c.special) && Disjoint(c.upper, c.special) && Disjoint(c.digits, c.special) ==>
          Count(password, c.special) <= 2)
  }

  predicate Disjoint(charset: string, special: string) {
    forall k :: 0 <= k < |charset| ==> charset[k] !in special
  }

  method GenerateSecurePassword(c: Config, r: Random) returns (password: Outcome<string>)
    requires Drawn(r, Length(c))
    ensures password.Done? <==> Resolve(c).Done?
    ensures password.Done? ==> Promised(password.value, Resolve(c).value, Length(c))
    ensures password.Done? ==> |Characters(Resolve(c).value, r)| == Length(c)
    ensures password.Done? ==> password.value == Shuffled(Characters(Resolve(c).value, r), r.shuffle, Length(c) - 1)
  {
    hide Promised, Characters, Pick, Shuffled, Resolve, Length;
    var charsets := Resolve(c);
    if charsets.Misconfigured? { return Misconfigured; }
    PasswordPromises(charsets.value, r, Length(c));
    password := Compose(charsets.value, r, Length(c));
  }

  method Compose(s: Charsets, r: Random, n: nat) returns (password: Outcome<string>)
    requires NonEmpty(s) && Drawn(r, n) && |Characters(s, r)| == n
    ensures password == Done(Shuffled(Characters(s, r), r.shuffle, n - 1))
  {
    hide Pick, Shuffled;
    var required := Pick(s.lower, r.lower) + Pick(s.upper, r.upper) + Pick(s.digits, r.digits)
        + Pick(s.special, r.special);
    var text := required + Pick(s.lower + s.upper + s.digits, r.padding);
    var all := new char[|text|](k requires 0 <= k < |text| => text[k]);
    assert all[..] == text;
    Shuffle(all, r.shuffle);
    return Done(all[..]);
  }

  lemma CountParts(a: string, b: string, c: string, d: string, e: string, charset: string)
    ensures Count(a + b + c + d + e, charset)
            == Count(a, charset) + Count(b, charset) + Count(c, charset) + Count(d, charset) + Count(e, charset)
  {
    CountAppend(a + b + c + d, e, charset);
    CountAppend(a + b + c, d, charset);
    CountAppend(a + b, c, charset);
    CountAppend(a, b, charset);
  }

  lemma CountPick(charset: string, bytes: seq<nat>, counted: string)
    requires charset != ""
    ensures charset == counted ==> Count(Pick(charset, bytes), counted) == |bytes|
    ensures (forall k :: 0 <= k < |charset| ==> charset[k] !in counted) ==> Count(Pick(charset, bytes), counted) == 0
  {
    var p := Pick(charset, bytes);
    if charset == counted { CountAll(p, counted); }
    if forall k :: 0 <= k < |charset| ==> charset[k] !in counted {
      CountNone(p, counted);
    }
  }

  /** The characters drawn keep the promises, whatever was drawn. */
  lemma CharactersCount(c: Charsets, r: Random, n: nat)
    requires NonEmpty(c) && Drawn(r, n)
    ensures Promised(Characters(c, r), c, n)
  {
    var padded := c.lower + c.upper + c.digits;
    var a, b := Pick(c.lower, r.lower), Pick(c.upper, r.upper);
    var d, e, f := Pick(c.digits, r.digits), Pick(c.special, r.special), Pick(padded, r.padding);
    CountParts(a, b, d, e, f, c.lower);
    CountParts(a, b, d, e, f, c.upper);
    CountParts(a, b, d, e, f, c.digits);
    CountParts(a, b, d, e, f, c.special);
    CountPick(c.lower, r.lower, c.lower);
    CountPick(c.upper, r.upper, c.upper);
    CountPick(c.digits, r.digits, c.digits);
    CountPick(c.special, r.special, c.special);
    if Disjoint(c.lower, c.special) && Disjoint(c.upper, c.special) && Disjoint(c.digits, c.special) {
      CountPick(c.lower, r.lower, c.special);
      CountPick(c.upper, r.upper, c.special);
      CountPick(c.digits, r.digits, c.special);
      assert Disjoint(padded, c.special);
      CountPick(padded, r.padding, c.special);
    }
  }

  /** Every draw keeps the promises: the shuffle preserves the characters. */
  lemma PasswordPromises(c: Charsets, r: Random, n: nat)
    requires NonEmpty(c) && Drawn(r, n)
    ensures |Characters(c, r)| == n && Promised(Shuffled(Characters(c, r), r.shuffle, n - 1), c, n)
  {
    hide *;
    CharactersCount(c, r, n);
    ShuffleDrawn(c, r, n);
    var text := Characters(c, r);
    var p := Shuffled(text, r.shuffle, n - 1);
    ShuffledKeeps(text, r.shuffle, n - 1);
    CountPermuted(text, p, c.lower);
    CountPermuted(text, p, c.upper);
    CountPermuted(text, p, c.digits);
    CountPermuted(text, p, c.special);
    SamePromises(text, p, c, n);
  }

  lemma ShuffleDrawn(c: Charsets, r: Random, n: nat)
    requires NonEmpty(c) && Drawn(r, n)
    ensures Draws(r.shuffle, n) && n >= 8 && |Characters(c, r)| == n
  {
    hide Pick, Draws;
  }

  lemma SamePromises(text: string, p: string, c: Charsets, n: nat)
    requires |p| == |text| && Promised(text, c, n)
    requires Count(p, c.lower) == Count(text, c.lower) && Count(p, c.upper) == Count(text, c.upper)
    requires Count(p, c.digits) == Count(text, c.digits) && Count(p, c.special) == Count(text, c.special)
    ensures Promised(p, c, n)
  {
    hide Count, Disjoint;
  }

  // ---- the settings ----

  /** A set is taken without the white space around it. */
  lemma SetIsTrimmed(before: string, v: string, behind: string, default: string)
    requires Blank(before) && Blank(behind) && v != "" && !IsSpace(v[0]) && !IsSpace(v[|v| - 1])
    ensures ResolveCharset(Some(before + v + behind), default) == Done(v)
  {
    TrimBetween(before, v, behind);
  }

  lemma TrimBetween(before: string, v: string, behind: string)
    requires Blank(before) && Blank(behind) && v != "" && !IsSpace(v[0]) && !IsSpace(v[|v| - 1])
    ensures Trim(before + v + behind) == v
  {
    hide IsSpace;
    var s := before + v + behind;
    var rest := v + behind;
    assert s == before + rest;
    assert forall k :: 0 <= k < |before| ==> s[k] == before[k];
    assert s[|before|] == v[0];
    assert SkipSpace(s, 0) == |before| && s[|before|..] == rest;
    assert rest[|v| - 1] == v[|v| - 1] && forall k :: |v| <= k < |rest| ==> rest[k] == behind[k - |v|];
    assert TrimmedLength(rest) == |v| && rest[..|v|] == v;
  }

  /** Without settings: sixteen characters, from the letters, the digits, '-' and '~'. */
  lemma Unconfigured(c: Config)
    requires c.lower.None? && c.upper.None? && c.digits.None? && c.special.None? && c.length.None?
    ensures Resolve(c) == Done(DEFAULTS) && Length(c) == 16
    ensures forall ch :: ch in DEFAULTS.lower <==> 'a' <= ch <= 'z'
    ensures forall ch :: ch in DEFAULTS.upper <==> 'A' <= ch <= 'Z'
    ensures forall ch :: ch in DEFAULTS.digits <==> '0' <= ch <= '9'
    ensures forall ch :: ch in DEFAULTS.special <==> ch == '-' || ch == '~'
  {
    LowerLetters();
    UpperLetters();
    Digits();
  }

  /** The characters from first on, one after the other. */
  lemma InRow(set0: string, first: char, last: char)
    requires forall k :: 0 <= k < |set0| ==> set0[k] as int == first as int + k
    requires |set0| == last as int - first as int + 1
    ensures forall ch :: ch in set0 <==> first <= ch <= last
  {
    forall ch | first <= ch <= last ensures ch in set0 {
      assert set0[ch as int - first as int] == ch;
    }
  }

  lemma LowerLetters()
    ensures forall ch :: ch in DEFAULTS.lower <==> 'a' <= ch <= 'z'
  {
    InRow(DEFAULTS.lower, 'a', 'z');
  }

  lemma UpperLetters()
    ensures forall ch :: ch in DEFAULTS.upper <==> 'A' <= ch <= 'Z'
  {
    InRow(DEFAULTS.upper, 'A', 'Z');
  }

  lemma Digits()
    ensures forall ch :: ch in DEFAULTS.digits <==> '0' <= ch <= '9'
  {
    InRow(DEFAULTS.digits, '0', '9');
  }

  /** A length below 8 counts as none. */
  lemma LengthIs(c: Config, n: int)
    requires c.length == Some(n)
    ensures Length(c) == if n < 8 then 16 else n
  {
  }

  /** Only characters of the four sets. */
  lemma OnlyFromSets(c: Charsets, r: Random, n: nat)
    requires NonEmpty(c) && Drawn(r, n) && |Characters(c, r)| == n
    ensures var p := Shuffled(Characters(c, r), r.shuffle, n - 1);
            forall k :: 0 <= k < |p| ==> p[k] in c.lower || p[k] in c.upper || p[k] in c.digits || p[k] in c.special
  {
    var text := Characters(c, r);
    var p := Shuffled(text, r.shuffle, n - 1);
    ShuffledKeeps(text, r.shuffle, n - 1);
    forall k | 0 <= k < |p| ensures p[k] in text {
      assert p[k] in multiset(p);
    }
    FromSets(c, r);
    hide Characters, Shuffled;
  }

  lemma FromSets(c: Charsets, r: Random)
    requires NonEmpty(c)
    ensures forall ch :: ch in Characters(c, r) ==> ch in c.lower || ch in c.upper || ch in c.digits || ch in c.special
  {
  }

  /** The padding may be any letter or digit of the sets: some byte draws it. */
  lemma AnyPadding(c: Charsets, r: Random, k: nat, ch: char) returns (b: nat)
    requires NonEmpty(c) && k < |r.padding|
    requires |c.lower + c.upper + c.digits| <= 256 && (ch in c.lower || ch in c.upper || ch in c.digits)
    ensures b < 256
    ensures var text := Characters(c, r.(padding := r.padding[k := b]));
            var at := |text| - |r.padding| + k;
            0 <= at < |text| && text[at] == ch
  {
    var all := c.lower + c.upper + c.digits;
    assert ch in all;
    b :| 0 <= b < |all| && all[b] == ch;
    hide *;
    var bytes := r.padding[k := b];
    PickedAt(all, bytes, k);
    PaddingLast(c, r.(padding := bytes));
    var text := Characters(c, r.(padding := bytes));
    assert text[|text| - |bytes|..][k] == ch;
  }

  lemma PickedAt(charset: string, bytes: seq<nat>, k: nat)
    requires k < |bytes| && bytes[k] < |charset|
    ensures Pick(charset, bytes)[k] == charset[bytes[k]]
  {
    SmallRest(bytes[k], |charset|);
  }

  lemma SmallRest(b: nat, n: nat)
    requires b < n
    ensures b % n == b
  {
  }

  lemma PaddingLast(c: Charsets, r: Random)
    requires NonEmpty(c)
    ensures var text := Characters(c, r);
            |text| >= |r.padding| && text[|text| - |r.padding|..] == Pick(c.lower + c.upper + c.digits, r.padding)
  {
  }
}
